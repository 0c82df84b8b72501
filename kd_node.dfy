/**
 * The k-d tree the generator builds: a leaf stands for one piece, an internal
 * node splits along one dimension at an integer division point and has exactly
 * two children. Region ids are given to the leaves in inorder.
 */
module KdNodes {

  datatype KdNode =
    | Leaf(piece: int)
    | Node(dimension: int, divisionPoint: int, left: KdNode, right: KdNode)

  /** The piece ids of the leaves, visited in inorder (left subtree first). */
  function InorderLeafIds(t: KdNode): (r: seq<int>)
    ensures |r| == LeafCount(t)
  {
    match t
    case Leaf(p) => [p]
    case Node(_, _, l, r) => InorderLeafIds(l) + InorderLeafIds(r)
  }

  function LeafCount(t: KdNode): nat
  {
    match t
    case Leaf(_) => 1
    case Node(_, _, l, r) => LeafCount(l) + LeafCount(r)
  }

  function InternalCount(t: KdNode): nat
  {
    match t
    case Leaf(_) => 0
    case Node(_, _, l, r) => 1 + InternalCount(l) + InternalCount(r)
  }

  /**
   * Region `region` of the tree, numbered the way the parallel k-d tree numbers
   * its leaves: the regions of the left subtree come first, then those of the
   * right subtree.
   */
  function RegionLeaf(t: KdNode, region: nat): (leaf: KdNode)
    requires region < LeafCount(t)
    ensures leaf.Leaf?
  {
    match t
    case Leaf(_) => t
    case Node(_, _, l, r) =>
      if region < LeafCount(l) then RegionLeaf(l, region) else RegionLeaf(r, region - LeafCount(l))
  }

  /** A binary tree with n leaves has n - 1 internal nodes, and the inorder walk records one id per leaf. */
  lemma {:induction false} LeafCounts(t: KdNode)
    ensures |InorderLeafIds(t)| == LeafCount(t)
    ensures InternalCount(t) + 1 == LeafCount(t)
  {
    match t
    case Leaf(_) =>
    case Node(_, _, l, r) =>
      LeafCounts(l);
      LeafCounts(r);
  }

  /** Position i of the inorder walk is the piece held by region i of the tree. */
  lemma {:induction false} InorderIsRegionOrder(t: KdNode, region: nat)
    requires region < LeafCount(t)
    ensures |InorderLeafIds(t)| == LeafCount(t)
    ensures InorderLeafIds(t)[region] == RegionLeaf(t, region).piece
  {
    LeafCounts(t);
    match t
    case Leaf(_) =>
    case Node(_, _, l, r) =>
      LeafCounts(l);
      if region < LeafCount(l) {
        InorderIsRegionOrder(l, region);
      } else {
        InorderIsRegionOrder(r, region - LeafCount(l));
      }
  }
}
