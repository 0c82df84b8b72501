/**
 * The tree FormTree builds from a set of piece ids, stated as a function, and
 * what a successful build guarantees.
 */
module TreeBuild {
  import opened Wrappers
  import opened Extents
  import opened KdNodes
  import opened Splitting

  /**
   * FormTree on `ids`: no tree for the empty set, a leaf for one piece, and
   * for more pieces an internal node over the trees of the two groups of the
   * first split the search finds; None when the search or a child fails.
   */
  function Tree(flat: seq<int>, ids: seq<int>): (r: Option<KdNode>)
    requires PieceIds(flat, ids)
    decreases |ids|
    ensures |ids| == 1 ==> r == Some(Leaf(ids[0]))
    ensures r.Some? ==> |ids| > 0 && LeafCount(r.value) == |ids|
    ensures r.Some? && |ids| > 1 ==> r.value.Node?
  {
    if |ids| == 0 then None
    else if |ids| == 1 then Some(Leaf(ids[0]))
    else
      match FirstCut(flat, ids, 0, 0)
      case None => None
      case Some(c) =>
        match (Tree(flat, c.groups.left), Tree(flat, c.groups.right))
        case (Some(l), Some(r)) => Some(Node(c.dimension, c.divisionPoint, l, r))
        case _ => None
  }

  /**
   * Every internal node splits along a dimension 0..2; its two subtrees hold
   * disjoint sets of pieces; every piece below the left child lies at or below
   * the division point and every piece below the right child at or above it.
   */
  predicate Separated(flat: seq<int>, t: KdNode)
  {
    match t
    case Leaf(p) => ValidPiece(flat, p)
    case Node(d, dp, l, r) =>
      && 0 <= d < 3
      && Separated(flat, l)
      && Separated(flat, r)
      && (forall x :: x in InorderLeafIds(l) ==> x !in InorderLeafIds(r))
      && (forall x :: x in InorderLeafIds(l) ==> ValidPiece(flat, x) && Hi(flat, x, d) <= dp)
      && (forall x :: x in InorderLeafIds(r) ==> ValidPiece(flat, x) && dp <= Lo(flat, x, d) && dp < Hi(flat, x, d))
  }

  /**
   * What a build of `ids` yields: a one-piece set is a leaf for that piece, a
   * larger set an internal node; the leaves hold exactly the pieces of `ids`;
   * and every internal node separates its two groups.
   */
  lemma {:induction false} TreeSound(flat: seq<int>, ids: seq<int>)
    requires PieceIds(flat, ids)
    decreases |ids|
    ensures |ids| == 1 ==> Tree(flat, ids) == Some(Leaf(ids[0]))
    ensures Tree(flat, ids).Some? && |ids| > 1 ==> Tree(flat, ids).value.Node?
    ensures Tree(flat, ids).Some? ==>
      multiset(InorderLeafIds(Tree(flat, ids).value)) == multiset(ids) &&
      Separated(flat, Tree(flat, ids).value)
  {
    if |ids| > 1 && Tree(flat, ids).Some? {
      var c := FirstCut(flat, ids, 0, 0).value;
      var g := c.groups;
      TreeSound(flat, g.left);
      TreeSound(flat, g.right);
      SplitAtSound(flat, ids, c.dimension, c.divisionPoint);
      var l := Tree(flat, g.left).value;
      var r := Tree(flat, g.right).value;
      assert forall x :: x in InorderLeafIds(l) <==> x in g.left by {
        forall x ensures x in InorderLeafIds(l) <==> x in g.left {
          assert x in InorderLeafIds(l) <==> x in multiset(InorderLeafIds(l));
        }
      }
      assert forall x :: x in InorderLeafIds(r) <==> x in g.right by {
        forall x ensures x in InorderLeafIds(r) <==> x in g.right {
          assert x in InorderLeafIds(r) <==> x in multiset(InorderLeafIds(r));
        }
      }
    }
  }

  /**
   * A set of more than one piece that no dimension and no integer division
   * point can split yields no tree.
   */
  lemma TreeFailsWhenUnsplittable(flat: seq<int>, ids: seq<int>)
    requires PieceIds(flat, ids) && |ids| > 1
    requires forall d, p :: 0 <= d < 3 ==> SplitAt(flat, ids, d, p).None?
    ensures Tree(flat, ids).None?
  {
    FirstCutFailsIff(flat, ids);
  }

  /** The piece ids 0 .. n-1 in increasing order. */
  function Range(n: nat): (r: seq<int>)
    ensures |r| == n
    ensures forall x :: x in r <==> 0 <= x < n
  {
    if n == 0 then [] else Range(n - 1) + [n - 1]
  }

  lemma {:induction false} RangeOnce(n: nat)
    ensures forall p :: 0 <= p < n ==> multiset(Range(n))[p] == 1
  {
    if n > 0 {
      RangeOnce(n - 1);
      assert n - 1 !in Range(n - 1);
      assert multiset(Range(n)) == multiset(Range(n - 1)) + multiset{n - 1};
    }
  }

  /** `a` lists every piece 0 .. n-1 exactly once and nothing else. */
  predicate PiecePermutation(a: seq<int>, n: nat)
  {
    && |a| == n
    && (forall i :: 0 <= i < |a| ==> 0 <= a[i] < n)
    && (forall p :: 0 <= p < n ==> multiset(a)[p] == 1)
  }

  /** Building over no pieces fails; over one piece it yields the leaf 0 and the assignment [0]. */
  lemma BuildSmall(flat: seq<int>, n: nat)
    requires |flat| == 6 * n && n <= 1
    ensures n == 0 ==> Tree(flat, Range(n)).None?
    ensures n == 1 ==> Tree(flat, Range(n)) == Some(Leaf(0)) && InorderLeafIds(Leaf(0)) == [0]
  {
    if n == 0 {
      assert Range(n) == [];
    } else {
      assert Range(n) == [0];
    }
  }

  /** A tree built from `ids` has one leaf per id and one internal node fewer. */
  lemma TreeCounts(flat: seq<int>, ids: seq<int>, t: KdNode)
    requires PieceIds(flat, ids) && Tree(flat, ids) == Some(t)
    ensures multiset(InorderLeafIds(t)) == multiset(ids)
    ensures |InorderLeafIds(t)| == LeafCount(t) == |ids|
    ensures InternalCount(t) == |ids| - 1
  {
    TreeSound(flat, ids);
    LeafCounts(t);
    assert |multiset(InorderLeafIds(t))| == |InorderLeafIds(t)|;
    assert |multiset(ids)| == |ids|;
  }

  /**
   * A successful build over pieces 0 .. n-1 has n leaves and n - 1 internal
   * nodes, and its inorder assignment holds every piece exactly once.
   */
  lemma BuildAssignment(flat: seq<int>, n: nat, t: KdNode)
    requires |flat| == 6 * n
    requires Tree(flat, Range(n)) == Some(t)
    ensures LeafCount(t) == n
    ensures InternalCount(t) == n - 1
    ensures PiecePermutation(InorderLeafIds(t), n)
  {
    var ids := Range(n);
    TreeCounts(flat, ids, t);
    var a := InorderLeafIds(t);
    forall i | 0 <= i < |a| ensures 0 <= a[i] < n {
      assert a[i] in multiset(a);
      assert a[i] in multiset(ids);
      assert a[i] in ids;
    }
    RangeOnce(n);
  }

  /**
   * Two pieces side by side along the first dimension, piece 0 ending at or
   * before the start of piece 1 and piece 1 reaching past the end of piece 0:
   * the root splits along dimension 0 at the upper bound of piece 0, with
   * piece 0 on the left and piece 1 on the right, so regions 0 and 1 go to
   * pieces 0 and 1.
   */
  lemma TwoPiecesAlongX(flat: seq<int>)
    requires |flat| == 12
    requires Hi(flat, 0, 0) <= Lo(flat, 1, 0) && Hi(flat, 0, 0) < Hi(flat, 1, 0)
    ensures Tree(flat, [0, 1]) == Some(Node(0, Hi(flat, 0, 0), Leaf(0), Leaf(1)))
    ensures InorderLeafIds(Tree(flat, [0, 1]).value) == [0, 1]
  {
    var ids := [0, 1];
    var dp := Hi(flat, 0, 0);
    assert ids[..1] == [0] && [0][..0] == [];
    assert SideOf(flat, 0, 0, dp) == Left && SideOf(flat, 1, 0, dp) == Right;
    assert Select(flat, [0], 0, dp, Left) == [0] && Select(flat, [0], 0, dp, Right) == [];
    assert Select(flat, ids, 0, dp, Left) == [0];
    assert Select(flat, ids, 0, dp, Right) == [1];
    assert SplitAt(flat, ids, 0, dp) == Some(Groups([0], [1]));
    assert FirstCut(flat, ids, 0, 0) == Some(Cut(0, dp, Groups([0], [1])));
  }

  /**
   * More than one piece, all with the same extent: no plane separates them,
   * so the build fails.
   */
  lemma CoincidentPiecesFail(flat: seq<int>, ids: seq<int>)
    requires PieceIds(flat, ids) && |ids| > 1
    requires forall x, d :: x in ids && 0 <= d < 3 ==>
      Lo(flat, x, d) == Lo(flat, ids[0], d) && Hi(flat, x, d) == Hi(flat, ids[0], d)
    ensures Tree(flat, ids).None?
  {
    forall d, p | 0 <= d < 3 ensures SplitAt(flat, ids, d, p).None? {
      SplitAtFails(flat, ids, d, p);
      forall k | 0 <= k < |ids| ensures SideOf(flat, ids[k], d, p) == SideOf(flat, ids[0], d, p) {
        assert ids[k] in ids;
      }
    }
    TreeFailsWhenUnsplittable(flat, ids);
  }
}
