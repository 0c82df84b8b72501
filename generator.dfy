/**
 * vtkKdTreeGenerator: fills a flat region buffer from an extent translator,
 * searches splits over it and builds the k-d tree with its inorder
 * region-to-piece assignment.
 */
module Generator {
  import opened Wrappers
  import opened Extents
  import opened KdNodes
  import opened Splitting
  import opened TreeBuild

  /** What the generator hands to the parallel k-d tree: the tree and, per region in inorder, its piece. */
  datatype PKdTree = PKdTree(root: KdNode, regionAssignment: seq<int>)

  class KdTreeGenerator {
    var kdTree: Option<PKdTree>
    var extentTranslator: Option<Translator>
    var wholeExtent: Extent
    var numberOfPieces: int
    /** Six integers per piece: the extent of piece p starts at 6 * p. */
    var regions: array<int>

    constructor ()
      ensures kdTree == None && extentTranslator == None
      ensures numberOfPieces == 0 && regions.Length == 0
    {
      kdTree := None;
      extentTranslator := None;
      wholeExtent := [0, 0, 0, 0, 0, 0];
      numberOfPieces := 0;
      regions := new int[0];
    }

    method SetNumberOfPieces(n: int)
      modifies this`numberOfPieces
      ensures numberOfPieces == n
    {
      numberOfPieces := n;
    }

    /**
     * Asks the translator for the extent of every piece 0 .. numberOfPieces-1
     * and stores them, in piece order, in a fresh region buffer.
     */
    method FormRegions()
      requires extentTranslator.Some? && numberOfPieces >= 0
      modifies this`regions
      ensures fresh(regions)
      ensures regions[..] == Regions(extentTranslator.value, numberOfPieces, wholeExtent)
    {
      var translator := extentTranslator.value;
      var buffer := new int[6 * numberOfPieces];
      var cc := 0;
      while cc < numberOfPieces
        invariant 0 <= cc <= numberOfPieces
        invariant buffer[..6 * cc] == RegionsPrefix(translator, numberOfPieces, wholeExtent, cc)
      {
        var extent := translator(cc, numberOfPieces, wholeExtent);
        var k := 0;
        while k < 6
          invariant 0 <= k <= 6
          invariant buffer[..6 * cc] == RegionsPrefix(translator, numberOfPieces, wholeExtent, cc)
          invariant buffer[6 * cc .. 6 * cc + k] == extent[..k]
        {
          buffer[6 * cc + k] := extent[k];
          k := k + 1;
        }
        assert buffer[..6 * (cc + 1)] == buffer[..6 * cc] + buffer[6 * cc .. 6 * cc + 6];
        cc := cc + 1;
      }
      assert buffer[..] == buffer[..6 * numberOfPieces];
      regions := buffer;
    }

    /**
     * Splits `ids` at `divisionPoint` along `dimension`: returns 1 with the
     * two groups when every piece falls on one side and both sides are
     * non-empty, and 0 otherwise.
     */
    method CanPartition(divisionPoint: int, dimension: int, ids: seq<int>)
      returns (status: int, left: seq<int>, right: seq<int>)
      requires 0 <= dimension < 3 && PieceIds(regions[..], ids)
      ensures status == 0 || status == 1
      ensures status == 1 <==> SplitAt(regions[..], ids, dimension, divisionPoint).Some?
      ensures status == 1 ==> SplitAt(regions[..], ids, dimension, divisionPoint) == Some(Groups(left, right))
      ensures status == 1 ==>
        && |left| > 0 && |right| > 0
        && multiset(left) + multiset(right) == multiset(ids)
        && (forall x :: x in left ==> ValidPiece(regions[..], x) && Hi(regions[..], x, dimension) <= divisionPoint)
        && (forall x :: x in right ==> ValidPiece(regions[..], x) && divisionPoint <= Lo(regions[..], x, dimension))
    {
      ghost var flat := regions[..];
      left, right := [], [];
      var i := 0;
      while i < |ids|
        invariant 0 <= i <= |ids|
        invariant PieceIds(flat, ids[..i])
        invariant forall k :: 0 <= k < i ==> SideOf(flat, ids[k], dimension, divisionPoint) != Straddle
        invariant left == Select(flat, ids[..i], dimension, divisionPoint, Left)
        invariant right == Select(flat, ids[..i], dimension, divisionPoint, Right)
      {
        var id := ids[i];
        assert id in ids && ids[..i + 1][..i] == ids[..i];
        if regions[6 * id + 2 * dimension + 1] <= divisionPoint {
          left := left + [id];
        } else if regions[6 * id + 2 * dimension] >= divisionPoint {
          right := right + [id];
        } else {
          return 0, left, right;
        }
        i := i + 1;
      }
      assert ids[..i] == ids;
      if |left| == 0 || |right| == 0 {
        return 0, left, right;
      }
      SplitAtSound(flat, ids, dimension, divisionPoint);
      return 1, left, right;
    }

    /**
     * Builds the subtree for `ids`: 1 with a leaf for a single piece, 1 with an
     * internal node over the subtrees of the first split found for more
     * pieces, and 0 when `ids` is empty or some set cannot be split.
     */
    method FormTree(ids: seq<int>) returns (status: int, node: KdNode)
      requires PieceIds(regions[..], ids)
      decreases |ids|
      ensures status == 0 || status == 1
      ensures status == 1 <==> Tree(regions[..], ids).Some?
      ensures status == 1 ==> Tree(regions[..], ids) == Some(node)
      ensures |ids| == 1 ==> status == 1 && node == Leaf(ids[0])
      ensures status == 1 ==>
        multiset(InorderLeafIds(node)) == multiset(ids) && Separated(regions[..], node)
    {
      ghost var flat := regions[..];
      TreeSound(flat, ids);
      if |ids| == 0 {
        return 0, Leaf(0);
      }
      if |ids| == 1 {
        return 1, Leaf(ids[0]);
      }
      var dimension := 0;
      while dimension < 3
        invariant 0 <= dimension <= 3
        invariant FirstCut(flat, ids, 0, 0) == FirstCut(flat, ids, dimension, 0)
      {
        var j := 0;
        while j < |ids|
          invariant 0 <= j <= |ids|
          invariant FirstCut(flat, ids, 0, 0) == FirstCut(flat, ids, dimension, j)
        {
          assert ids[j] in ids;
          var divisionPoint := regions[6 * ids[j] + 2 * dimension + 1];
          var ok, left, right := CanPartition(divisionPoint, dimension, ids);
          if ok == 1 {
            var leftStatus, leftNode := FormTree(left);
            if leftStatus == 0 {
              return 0, leftNode;
            }
            var rightStatus, rightNode := FormTree(right);
            if rightStatus == 0 {
              return 0, rightNode;
            }
            return 1, Node(dimension, divisionPoint, leftNode, rightNode);
          }
          j := j + 1;
        }
        dimension := dimension + 1;
      }
      return 0, Leaf(0);
    }

    /**
     * Stores the translator and the whole extent, forms the regions of
     * pieces 0 .. numberOfPieces-1 and builds the tree over all of them. On
     * success the k-d tree becomes that tree with its inorder assignment and
     * the result is true; on failure the k-d tree is left as it was. A
     * negative number of pieces fails before any region is formed.
     */
    method BuildTree(translator: Translator, extents: Extent) returns (ok: bool)
      modifies this
      ensures numberOfPieces == old(numberOfPieces)
      ensures extentTranslator == Some(translator) && wholeExtent == extents
      ensures numberOfPieces < 0 ==> !ok && regions == old(regions)
      ensures numberOfPieces >= 0 ==> fresh(regions) && regions[..] == Regions(translator, numberOfPieces, extents)
      ensures ok <==> numberOfPieces >= 0 && Tree(regions[..], Range(numberOfPieces)).Some?
      ensures ok ==> kdTree == Some(PKdTree(Tree(regions[..], Range(numberOfPieces)).value,
                                            InorderLeafIds(Tree(regions[..], Range(numberOfPieces)).value)))
      ensures ok ==> LeafCount(kdTree.value.root) == numberOfPieces
      ensures ok ==> PiecePermutation(kdTree.value.regionAssignment, numberOfPieces)
      ensures !ok ==> kdTree == old(kdTree)
    {
      extentTranslator := Some(translator);
      wholeExtent := extents;
      if numberOfPieces < 0 {
        return false;
      }
      FormRegions();
      var ids := [];
      var cc := 0;
      while cc < numberOfPieces
        invariant 0 <= cc <= numberOfPieces
        invariant ids == Range(cc)
      {
        ids := ids + [cc];
        cc := cc + 1;
      }
      var status, root := FormTree(ids);
      if status == 0 {
        return false;
      }
      BuildAssignment(regions[..], numberOfPieces, root);
      kdTree := Some(PKdTree(root, InorderLeafIds(root)));
      return true;
    }
  }
}
