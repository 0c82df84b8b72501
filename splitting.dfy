/**
 * The partition test of CanPartition and the search for a split that
 * FormTree performs over dimensions and candidate division points.
 */
module Splitting {
  import opened Wrappers
  import opened Extents

  /** Where a piece falls relative to a division point along a dimension. */
  datatype Side = Left | Right | Straddle

  /**
   * The per-piece test: a piece whose upper bound is at or below the division
   * point goes left; otherwise one whose lower bound is at or above it goes
   * right; any other piece crosses the plane.
   */
  function SideOf(flat: seq<int>, id: int, dimension: int, divisionPoint: int): Side
    requires ValidPiece(flat, id) && 0 <= dimension < 3
  {
    if Hi(flat, id, dimension) <= divisionPoint then Left
    else if Lo(flat, id, dimension) >= divisionPoint then Right
    else Straddle
  }

  /** The ids of `ids` that fall on `side`, in their original order. */
  function Select(flat: seq<int>, ids: seq<int>, dimension: int, divisionPoint: int, side: Side): seq<int>
    requires PieceIds(flat, ids) && 0 <= dimension < 3
  {
    if |ids| == 0 then []
    else
      var rest := Select(flat, ids[..|ids| - 1], dimension, divisionPoint, side);
      if SideOf(flat, ids[|ids| - 1], dimension, divisionPoint) == side then rest + [ids[|ids| - 1]] else rest
  }

  /** No piece of `ids` crosses the plane. */
  predicate NoStraddle(flat: seq<int>, ids: seq<int>, dimension: int, divisionPoint: int)
    requires PieceIds(flat, ids) && 0 <= dimension < 3
  {
    forall k :: 0 <= k < |ids| ==> SideOf(flat, ids[k], dimension, divisionPoint) != Straddle
  }

  /** The two groups of a successful partition. */
  datatype Groups = Groups(left: seq<int>, right: seq<int>)

  /** The outcome of CanPartition: the two groups, or None when it returns 0. */
  function SplitAt(flat: seq<int>, ids: seq<int>, dimension: int, divisionPoint: int): (r: Option<Groups>)
    requires PieceIds(flat, ids) && 0 <= dimension < 3
    ensures r.Some? ==> 0 < |r.value.left| < |ids| && 0 < |r.value.right| < |ids|
    ensures r.Some? ==> |r.value.left| + |r.value.right| == |ids|
    ensures r.Some? ==> PieceIds(flat, r.value.left) && PieceIds(flat, r.value.right)
  {
    var left := Select(flat, ids, dimension, divisionPoint, Left);
    var right := Select(flat, ids, dimension, divisionPoint, Right);
    if !NoStraddle(flat, ids, dimension, divisionPoint) || |left| == 0 || |right| == 0 then None
    else
      SelectPartition(flat, ids, dimension, divisionPoint);
      SelectSubset(flat, ids, dimension, divisionPoint, Left);
      SelectSubset(flat, ids, dimension, divisionPoint, Right);
      assert |multiset(left) + multiset(right)| == |multiset(ids)|;
      Some(Groups(left, right))
  }

  /** An id is selected for `side` exactly when it is in `ids` and its test gives `side`. */
  lemma {:induction false} SelectMembers(flat: seq<int>, ids: seq<int>, dimension: int, divisionPoint: int, side: Side, x: int)
    requires PieceIds(flat, ids) && 0 <= dimension < 3
    ensures x in Select(flat, ids, dimension, divisionPoint, side) <==>
            x in ids && SideOf(flat, x, dimension, divisionPoint) == side
  {
    if |ids| > 0 {
      var init := ids[..|ids| - 1];
      SelectMembers(flat, init, dimension, divisionPoint, side, x);
      assert ids == init + [ids[|ids| - 1]];
    }
  }

  lemma SelectSubset(flat: seq<int>, ids: seq<int>, dimension: int, divisionPoint: int, side: Side)
    requires PieceIds(flat, ids) && 0 <= dimension < 3
    ensures forall x :: x in Select(flat, ids, dimension, divisionPoint, side) ==> x in ids
  {
    forall x | x in Select(flat, ids, dimension, divisionPoint, side) {
      SelectMembers(flat, ids, dimension, divisionPoint, side, x);
    }
  }

  /** With no straddling piece, the two groups together are exactly `ids`. */
  lemma {:induction false} SelectPartition(flat: seq<int>, ids: seq<int>, dimension: int, divisionPoint: int)
    requires PieceIds(flat, ids) && 0 <= dimension < 3
    requires NoStraddle(flat, ids, dimension, divisionPoint)
    ensures multiset(Select(flat, ids, dimension, divisionPoint, Left)) +
            multiset(Select(flat, ids, dimension, divisionPoint, Right)) == multiset(ids)
  {
    if |ids| > 0 {
      var init := ids[..|ids| - 1];
      assert ids == init + [ids[|ids| - 1]];
      assert NoStraddle(flat, init, dimension, divisionPoint) by {
        forall k | 0 <= k < |init| ensures SideOf(flat, init[k], dimension, divisionPoint) != Straddle {
          assert init[k] == ids[k];
        }
      }
      SelectPartition(flat, init, dimension, divisionPoint);
    }
  }

  /**
   * A successful CanPartition: both groups are non-empty, they do not share an
   * id, together they hold exactly the ids of `ids`, every left piece lies at
   * or below the division point and every right piece at or above it.
   */
  lemma SplitAtSound(flat: seq<int>, ids: seq<int>, dimension: int, divisionPoint: int)
    requires PieceIds(flat, ids) && 0 <= dimension < 3
    requires SplitAt(flat, ids, dimension, divisionPoint).Some?
    ensures var g := SplitAt(flat, ids, dimension, divisionPoint).value;
      && |g.left| > 0 && |g.right| > 0
      && multiset(g.left) + multiset(g.right) == multiset(ids)
      && (forall x :: x in g.left ==> x !in g.right)
      && (forall x :: x in g.left ==> ValidPiece(flat, x) && Hi(flat, x, dimension) <= divisionPoint)
      && (forall x :: x in g.right ==> ValidPiece(flat, x) && divisionPoint <= Lo(flat, x, dimension)
                                       && divisionPoint < Hi(flat, x, dimension))
  {
    var g := SplitAt(flat, ids, dimension, divisionPoint).value;
    SelectPartition(flat, ids, dimension, divisionPoint);
    forall x | x in g.left || x in g.right
      ensures x in g.left ==> x in ids && SideOf(flat, x, dimension, divisionPoint) == Left
      ensures x in g.right ==> x in ids && SideOf(flat, x, dimension, divisionPoint) == Right
    {
      SelectMembers(flat, ids, dimension, divisionPoint, Left, x);
      SelectMembers(flat, ids, dimension, divisionPoint, Right, x);
    }
  }

  /**
   * CanPartition fails exactly when some piece crosses the plane, or no piece
   * falls left, or no piece falls right.
   */
  lemma SplitAtFails(flat: seq<int>, ids: seq<int>, dimension: int, divisionPoint: int)
    requires PieceIds(flat, ids) && 0 <= dimension < 3
    ensures SplitAt(flat, ids, dimension, divisionPoint).None? <==>
      || (exists k :: 0 <= k < |ids| && SideOf(flat, ids[k], dimension, divisionPoint) == Straddle)
      || (forall k :: 0 <= k < |ids| ==> SideOf(flat, ids[k], dimension, divisionPoint) != Left)
      || (forall k :: 0 <= k < |ids| ==> SideOf(flat, ids[k], dimension, divisionPoint) != Right)
  {
    var left := Select(flat, ids, dimension, divisionPoint, Left);
    var right := Select(flat, ids, dimension, divisionPoint, Right);
    forall k | 0 <= k < |ids|
      ensures ids[k] in left <==> SideOf(flat, ids[k], dimension, divisionPoint) == Left
      ensures ids[k] in right <==> SideOf(flat, ids[k], dimension, divisionPoint) == Right
    {
      SelectMembers(flat, ids, dimension, divisionPoint, Left, ids[k]);
      SelectMembers(flat, ids, dimension, divisionPoint, Right, ids[k]);
    }
    if |left| > 0 {
      SelectMembers(flat, ids, dimension, divisionPoint, Left, left[0]);
    }
    if |right| > 0 {
      SelectMembers(flat, ids, dimension, divisionPoint, Right, right[0]);
    }
  }

  /** A split found by the search: its dimension, its division point and its groups. */
  datatype Cut = Cut(dimension: int, divisionPoint: int, groups: Groups)

  /**
   * The search of FormTree, resumed at `dimension` and candidate index
   * `candidate`: dimensions are tried in the order 0, 1, 2 and, for each,
   * the upper bound of every piece of `ids` in list order is tried as the
   * division point; the first one CanPartition accepts wins.
   */
  function FirstCut(flat: seq<int>, ids: seq<int>, dimension: nat, candidate: nat): (r: Option<Cut>)
    requires PieceIds(flat, ids) && dimension <= 3 && candidate <= |ids|
    decreases 3 - dimension, |ids| - candidate
    ensures r.Some? ==>
      0 <= r.value.dimension < 3 &&
      SplitAt(flat, ids, r.value.dimension, r.value.divisionPoint) == Some(r.value.groups)
  {
    if dimension == 3 then None
    else if candidate == |ids| then FirstCut(flat, ids, dimension + 1, 0)
    else
      var divisionPoint := Hi(flat, ids[candidate], dimension);
      match SplitAt(flat, ids, dimension, divisionPoint)
      case Some(g) => Some(Cut(dimension, divisionPoint, g))
      case None => FirstCut(flat, ids, dimension, candidate + 1)
  }

  /** The search reaches every candidate at or after its starting point. */
  lemma {:induction false} FirstCutReaches(flat: seq<int>, ids: seq<int>, dimension: nat, candidate: nat, d: nat, k: nat)
    requires PieceIds(flat, ids) && dimension <= 3 && candidate <= |ids|
    requires d < 3 && k < |ids|
    requires dimension < d || (dimension == d && candidate <= k)
    requires SplitAt(flat, ids, d, Hi(flat, ids[k], d)).Some?
    decreases 3 - dimension, |ids| - candidate
    ensures FirstCut(flat, ids, dimension, candidate).Some?
  {
    if candidate == |ids| {
      FirstCutReaches(flat, ids, dimension + 1, 0, d, k);
    } else if SplitAt(flat, ids, dimension, Hi(flat, ids[candidate], dimension)).None? {
      FirstCutReaches(flat, ids, dimension, candidate + 1, d, k);
    }
  }

  /** Candidate (d, k) of the search comes strictly before candidate (d2, k2). */
  predicate Before(d: int, k: int, d2: int, k2: int)
  {
    d < d2 || (d == d2 && k < k2)
  }

  /**
   * The search resumed at (dimension, candidate) returns the split of some
   * candidate j, and every candidate from the starting point up to, not
   * including, the winner fails the partition test.
   */
  lemma {:induction false} FirstCutSkipsFrom(flat: seq<int>, ids: seq<int>, dimension: nat, candidate: nat) returns (j: nat)
    requires PieceIds(flat, ids) && dimension <= 3 && candidate <= |ids|
    requires FirstCut(flat, ids, dimension, candidate).Some?
    decreases 3 - dimension, |ids| - candidate
    ensures var c := FirstCut(flat, ids, dimension, candidate).value;
      && j < |ids|
      && c.divisionPoint == Hi(flat, ids[j], c.dimension)
      && !Before(c.dimension, j, dimension, candidate)
      && (forall d, k :: 0 <= d < 3 && 0 <= k < |ids| && !Before(d, k, dimension, candidate) && Before(d, k, c.dimension, j) ==>
            SplitAt(flat, ids, d, Hi(flat, ids[k], d)).None?)
  {
    if candidate == |ids| {
      j := FirstCutSkipsFrom(flat, ids, dimension + 1, 0);
    } else if SplitAt(flat, ids, dimension, Hi(flat, ids[candidate], dimension)).Some? {
      j := candidate;
    } else {
      j := FirstCutSkipsFrom(flat, ids, dimension, candidate + 1);
    }
  }

  /**
   * First fit: the split the search returns is that of candidate j along its
   * dimension, and every candidate tried before it failed the partition test.
   */
  lemma FirstCutIsFirst(flat: seq<int>, ids: seq<int>) returns (j: nat)
    requires PieceIds(flat, ids) && FirstCut(flat, ids, 0, 0).Some?
    ensures var c := FirstCut(flat, ids, 0, 0).value;
      && j < |ids|
      && c.divisionPoint == Hi(flat, ids[j], c.dimension)
      && (forall d, k :: 0 <= d < 3 && 0 <= k < |ids| && Before(d, k, c.dimension, j) ==>
            SplitAt(flat, ids, d, Hi(flat, ids[k], d)).None?)
  {
    j := FirstCutSkipsFrom(flat, ids, 0, 0);
  }

  /** Some id of a non-empty list has the largest upper bound along `dimension`. */
  lemma {:induction false} MaxHi(flat: seq<int>, s: seq<int>, dimension: int) returns (w: int)
    requires PieceIds(flat, s) && 0 <= dimension < 3 && |s| > 0
    ensures w in s
    ensures forall x :: x in s ==> Hi(flat, x, dimension) <= Hi(flat, w, dimension)
  {
    if |s| == 1 {
      w := s[0];
    } else {
      var v := MaxHi(flat, s[1..], dimension);
      assert forall x :: x in s ==> x == s[0] || x in s[1..];
      w := if Hi(flat, s[0], dimension) >= Hi(flat, v, dimension) then s[0] else v;
    }
  }

  /**
   * The search is complete: if any dimension and any integer division point
   * make CanPartition succeed, the search finds a split.
   */
  lemma FirstCutComplete(flat: seq<int>, ids: seq<int>, dimension: int, divisionPoint: int)
    requires PieceIds(flat, ids) && 0 <= dimension < 3
    requires SplitAt(flat, ids, dimension, divisionPoint).Some?
    ensures FirstCut(flat, ids, 0, 0).Some?
  {
    var g := SplitAt(flat, ids, dimension, divisionPoint).value;
    SplitAtSound(flat, ids, dimension, divisionPoint);
    var w := MaxHi(flat, g.left, dimension);
    var m := Hi(flat, w, dimension);
    assert w in multiset(ids);
    var k :| 0 <= k < |ids| && ids[k] == w;
    var r := g.right[0];
    assert r in multiset(ids);
    var kr :| 0 <= kr < |ids| && ids[kr] == r;
    forall j | 0 <= j < |ids|
      ensures SideOf(flat, ids[j], dimension, m) != Straddle
    {
      assert ids[j] in multiset(g.left) + multiset(g.right);
    }
    assert SideOf(flat, ids[k], dimension, m) == Left;
    assert SideOf(flat, ids[kr], dimension, m) == Right;
    SplitAtFails(flat, ids, dimension, m);
    FirstCutReaches(flat, ids, 0, 0, dimension, k);
  }

  /**
   * The search fails exactly when no dimension and no integer division point
   * split `ids`.
   */
  lemma FirstCutFailsIff(flat: seq<int>, ids: seq<int>)
    requires PieceIds(flat, ids)
    ensures FirstCut(flat, ids, 0, 0).None? <==>
      forall d, p :: 0 <= d < 3 ==> SplitAt(flat, ids, d, p).None?
  {
    if c: Cut :| FirstCut(flat, ids, 0, 0) == Some(c) {
      assert SplitAt(flat, ids, c.dimension, c.divisionPoint).Some?;
    }
    forall d, p | 0 <= d < 3 && SplitAt(flat, ids, d, p).Some?
      ensures FirstCut(flat, ids, 0, 0).Some?
    {
      FirstCutComplete(flat, ids, d, p);
    }
  }
}
