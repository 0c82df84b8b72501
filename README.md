# K-d tree generator of ParaView, modelled in Dafny

This project models `vtkKdTreeGenerator`, the ParaView class that builds a
`vtkPKdTree` from the way a structured data set is split into pieces. The
header `ParaViewCore/VTKExtensions/Rendering/vtkKdTreeGenerator.h` gives the
algorithm in its class comment and signatures:

1. `FormRegions` asks the extent translator for the structured sub-extent of
   every piece `0 .. NumberOfPieces-1`. It stores them in the flat buffer
   `int *Regions`, six integers per piece.
2. `CanPartition(division_point, dimension, ids, left, right)` tries to split
   a set of piece ids into two non-empty groups that do not cross the plane
   `division_point` along `dimension`.
3. `FormTree(parent, region_ids)` turns a one-piece set into a leaf. For a
   larger set it searches for a dimension and a division point that
   `CanPartition` accepts, then builds the two children recursively from the
   two groups.
4. `BuildTree` runs these steps over all pieces. It then gives regions to
   pieces by walking the tree in inorder and recording the piece id of each
   leaf, because `vtkPKdTree` numbers its leaves in inorder.

Only the header is part of this model; the implementation file
`vtkKdTreeGenerator.cxx` is not. Where the header leaves a choice open, the
model makes one fixed choice and does not claim it is the original's:

- The per-piece test. A piece whose upper bound along the dimension is at or
  below the division point goes left. Otherwise, a piece whose lower bound is
  at or above it goes right. Any other piece crosses the plane, and
  `CanPartition` then returns 0. Pieces that only touch the plane are
  accepted, because structured extents of neighbouring pieces share their
  boundary index.
- The search order. Dimensions are tried as 0, 1, 2. For each dimension, the
  upper bound of every piece of the set, in list order, is tried as the
  division point. The first candidate that `CanPartition` accepts is used.
  `FirstCutComplete` proves that this candidate set loses nothing: if any
  integer division point along any dimension splits the set, the search finds
  a split.
- A piece that crosses the plane makes the candidate fail, because the header
  asks for two non-intersecting groups. No tie-break assigns such a piece to
  either side.

Structure:

- `wrappers.dfy` (`Wrappers`): `Option`.
- `extents.dfy` (`Extents`): extents, the translator as a function
  `(piece, numberOfPieces, wholeExtent) -> extent`, and the region buffer as a
  function of the translator (`Regions`).
- `kd_node.dfy` (`KdNodes`): the tree as a datatype, the inorder leaf walk,
  leaf and internal-node counts, and region numbering.
- `splitting.dfy` (`Splitting`): the `CanPartition` test as a function
  (`SplitAt`) and the split search (`FirstCut`), with their properties.
- `tree_build.dfy` (`TreeBuild`): the tree `FormTree` builds, as a function
  (`Tree`), and what a successful or failed build means.
- `generator.dfy` (`Generator`): the class `KdTreeGenerator`. It has the
  source's fields and its methods `FormRegions`, `CanPartition`, `FormTree`
  and `BuildTree`. Each method is proved against the functions above.

## Model

| member | source | states |
|---|---|---|
| `Extents.RegionsPrefix` | ParaViewCore/VTKExtensions/Rendering/vtkKdTreeGenerator.h:116-118 | after `count` pieces the region buffer holds exactly six integers per piece |
| `Extents.RegionsPrefixAt` | ParaViewCore/VTKExtensions/Rendering/vtkKdTreeGenerator.h:96-99 | the six-integer slot of every piece already read is exactly the extent the translator gave for that piece |
| `Extents.RegionsOnePerPiece` | ParaViewCore/VTKExtensions/Rendering/vtkKdTreeGenerator.h:26 | the buffer has exactly one slot per piece `0 .. NumberOfPieces-1`; the lower and upper bounds of piece p along each dimension are those of the translator's extent for piece p |
| `Generator.KdTreeGenerator.FormRegions` | ParaViewCore/VTKExtensions/Rendering/vtkKdTreeGenerator.h:96-99 | replaces `Regions` with a fresh buffer equal to the translator's extents of pieces `0 .. NumberOfPieces-1`, in piece order |
| `Splitting.SplitAt` | ParaViewCore/VTKExtensions/Rendering/vtkKdTreeGenerator.h:102-104 | a successful partition has two non-empty groups, each strictly smaller than the input set and made only of valid pieces |
| `Splitting.SelectMembers` | ParaViewCore/VTKExtensions/Rendering/vtkKdTreeGenerator.h:102-104 | an id is in a group exactly when it is in the input set and the per-piece test puts it on that group's side |
| `Splitting.SelectPartition` | ParaViewCore/VTKExtensions/Rendering/vtkKdTreeGenerator.h:102-104 | when no piece crosses the plane, the left and right groups together are the input set as a multiset: nothing is lost or duplicated |
| `Splitting.SplitAtSound` | ParaViewCore/VTKExtensions/Rendering/vtkKdTreeGenerator.h:27-29 | on success: both groups are non-empty and disjoint and together are exactly `ids`; every left piece lies at or below the division point and every right piece at or above it |
| `Splitting.SplitAtFails` | ParaViewCore/VTKExtensions/Rendering/vtkKdTreeGenerator.h:102-104 | the partition fails if and only if some piece crosses the plane, no piece falls left, or no piece falls right |
| `Splitting.FirstCut` | ParaViewCore/VTKExtensions/Rendering/vtkKdTreeGenerator.h:27-29 | a split the search returns has a dimension in 0..2, and its groups are exactly what the partition test returns for that dimension and division point |
| `Splitting.FirstCutIsFirst` | ParaViewCore/VTKExtensions/Rendering/vtkKdTreeGenerator.h:27-29 | first fit: the split the search returns is that of the upper bound of some piece j along its dimension, and every candidate tried before it fails the partition test |
| `Splitting.FirstCutComplete` | ParaViewCore/VTKExtensions/Rendering/vtkKdTreeGenerator.h:27-29 | if any dimension and any integer division point split the set, the search finds a split |
| `Splitting.FirstCutFailsIff` | ParaViewCore/VTKExtensions/Rendering/vtkKdTreeGenerator.h:27-29 | the search fails if and only if no dimension and no integer division point split the set |
| `Generator.KdTreeGenerator.CanPartition` | ParaViewCore/VTKExtensions/Rendering/vtkKdTreeGenerator.h:102-104 | returns 0 or 1; 1 exactly when the partition test succeeds, and then `left`/`right` are its groups: non-empty, together the multiset `ids`, left pieces at or below and right pieces at or above the division point |
| `Generator.KdTreeGenerator.FormTree` | ParaViewCore/VTKExtensions/Rendering/vtkKdTreeGenerator.h:101 | returns 0 or 1; 1 exactly when the tree of `ids` exists, and then the node is that tree; a single piece gives status 1 and a leaf for that piece; on success the leaves hold exactly `ids` and every node separates its children |
| `TreeBuild.Tree` | ParaViewCore/VTKExtensions/Rendering/vtkKdTreeGenerator.h:30-34 | the recursion of FormTree: a one-piece set gives a leaf for that piece; a larger set that builds gives an internal node; a built tree has one leaf per input id |
| `TreeBuild.TreeSound` | ParaViewCore/VTKExtensions/Rendering/vtkKdTreeGenerator.h:30-34 | one piece gives a leaf for that piece; more pieces give an internal node; the leaves hold exactly the input pieces; siblings hold disjoint pieces on the two sides of the node's division point |
| `TreeBuild.TreeFailsWhenUnsplittable` | ParaViewCore/VTKExtensions/Rendering/vtkKdTreeGenerator.h:101 | a set of more than one piece with no dimension and division point that split it yields no tree |
| `TreeBuild.TreeCounts` | ParaViewCore/VTKExtensions/Rendering/vtkKdTreeGenerator.h:32-34 | a tree built from n ids has n leaves, n - 1 internal nodes, and an inorder walk that is a permutation of the ids |
| `TreeBuild.BuildSmall` | ParaViewCore/VTKExtensions/Rendering/vtkKdTreeGenerator.h:73-76 | no pieces: the build fails; one piece: the tree is the leaf 0 and the assignment is [0] |
| `TreeBuild.BuildAssignment` | ParaViewCore/VTKExtensions/Rendering/vtkKdTreeGenerator.h:36-41 | a successful build over pieces 0..N-1 has N leaves and N - 1 internal nodes; the inorder assignment has length N and holds every piece 0..N-1 exactly once |
| `TreeBuild.TwoPiecesAlongX` | ParaViewCore/VTKExtensions/Rendering/vtkKdTreeGenerator.h:27-41 | for any two pieces where piece 0 ends along x at or before piece 1 starts, and piece 1 reaches past the end of piece 0: the root splits on dimension 0 at the upper bound of piece 0, with leaves 0 and 1 and the assignment [0, 1] |
| `TreeBuild.CoincidentPiecesFail` | ParaViewCore/VTKExtensions/Rendering/vtkKdTreeGenerator.h:27-29 | any set of more than one piece, all with the same extent, cannot be split, so the build fails |
| `KdNodes.InorderLeafIds` | ParaViewCore/VTKExtensions/Rendering/vtkKdTreeGenerator.h:38-41 | the inorder walk that records only leaf ids records exactly one id per leaf |
| `KdNodes.LeafCounts` | ParaViewCore/VTKExtensions/Rendering/vtkKdTreeGenerator.h:32-34 | a tree with exactly two children per internal node has one internal node fewer than leaves, and the inorder walk records one id per leaf |
| `KdNodes.RegionLeaf` | ParaViewCore/VTKExtensions/Rendering/vtkKdTreeGenerator.h:36-38 | numbering leaves left subtree first, as the parallel k-d tree does, gives a leaf for every region number below the leaf count |
| `KdNodes.InorderIsRegionOrder` | ParaViewCore/VTKExtensions/Rendering/vtkKdTreeGenerator.h:38-41 | position i of the inorder leaf walk is the piece held by region i of the tree |
| `Generator.KdTreeGenerator.BuildTree` | ParaViewCore/VTKExtensions/Rendering/vtkKdTreeGenerator.h:73-76 | stores the translator and whole extent; a negative number of pieces returns false and leaves the regions and the k-d tree unchanged; otherwise forms the regions and returns true exactly when the tree over pieces 0..N-1 exists; then the k-d tree is that tree with its inorder assignment, which has N leaves and is a permutation of 0..N-1; on failure the k-d tree is unchanged |
| `Generator.KdTreeGenerator.SetNumberOfPieces` | ParaViewCore/VTKExtensions/Rendering/vtkKdTreeGenerator.h:68-71 | sets the number of pieces and nothing else |
| `Generator.KdTreeGenerator.constructor` | ParaViewCore/VTKExtensions/Rendering/vtkKdTreeGenerator.h:79 | a new generator has no k-d tree, no translator, zero pieces and an empty region buffer |

## Left out

- `ConvertToBounds` and the `Origin`/`Spacing` inputs of `BuildTree` (header lines 106-107 and 112-113). They turn index extents into world-space bounds with double arithmetic. The model keeps bounds as integer extents, so `BuildTree` has no origin or spacing parameter.
- The internals of `vtkExtentTranslator`. The translator is a pure function parameter `(piece, numberOfPieces, wholeExtent) -> extent`.
- `vtkKdNode` objects and the parallel k-d tree's own state. `FormTree` returns the subtree as a datatype value. It does not attach children to a `parent` node it is given, so node aliasing and in-place node updates are not modelled. The k-d tree member is an optional value holding the tree and its region assignment.
- `SetKdTree`, `SetExtentTranslator`, `SetWholeExtent`, `SetOrigin`, `SetSpacing`, `PrintSelf`, `New` and reference counting. These are object plumbing. `BuildTree` assigns the translator and whole extent fields directly.
- 32-bit `int` limits. Piece indices, extents and buffer offsets such as `6 * id` are unbounded integers, so overflow is not modelled.
- Generator.KdTreeGenerator.FormRegions: requires `NumberOfPieces` to be at least 0, since a buffer of six integers per piece has no meaning for a negative count. `BuildTree` returns false for a negative count before calling it. Zero pieces is modelled: the build fails.
- The translator's promise that each piece extent lies within the whole extent. No property here depends on it, so it is neither assumed nor checked.
- Error messages and logging on failure.
