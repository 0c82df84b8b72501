/**
 * Structured extents, and the flat region buffer that the generator fills
 * from an extent translator: six integers per piece, piece `p` at offset `6 * p`.
 */
module Extents {

  /** A structured extent: imin, imax, jmin, jmax, kmin, kmax. */
  type Extent = e: seq<int> | |e| == 6 witness [0, 0, 0, 0, 0, 0]

  /**
   * The extent translator: given a piece index, the number of pieces and the
   * whole extent, the structured sub-extent assigned to that piece.
   */
  type Translator = (int, int, Extent) -> Extent

  /** Piece `id` has its six-integer slot inside the region buffer `flat`. */
  predicate ValidPiece(flat: seq<int>, id: int)
  {
    0 <= id && 6 * id + 6 <= |flat|
  }

  /** Every id of `ids` has a slot in `flat`. */
  predicate PieceIds(flat: seq<int>, ids: seq<int>)
  {
    forall x :: x in ids ==> ValidPiece(flat, x)
  }

  /** Lower index bound of piece `id` along `dimension`. */
  function Lo(flat: seq<int>, id: int, dimension: int): int
    requires ValidPiece(flat, id) && 0 <= dimension < 3
  {
    flat[6 * id + 2 * dimension]
  }

  /** Upper index bound of piece `id` along `dimension`. */
  function Hi(flat: seq<int>, id: int, dimension: int): int
    requires ValidPiece(flat, id) && 0 <= dimension < 3
  {
    flat[6 * id + 2 * dimension + 1]
  }

  /**
   * The region buffer once the extents of pieces 0 .. count-1 have been
   * obtained from `translator` for a decomposition into `numberOfPieces`.
   */
  function RegionsPrefix(translator: Translator, numberOfPieces: int, whole: Extent, count: nat): (r: seq<int>)
    ensures |r| == 6 * count
  {
    if count == 0 then []
    else RegionsPrefix(translator, numberOfPieces, whole, count - 1) + translator(count - 1, numberOfPieces, whole)
  }

  /** The whole region buffer: one extent per piece 0 .. numberOfPieces-1. */
  function Regions(translator: Translator, numberOfPieces: nat, whole: Extent): seq<int>
  {
    RegionsPrefix(translator, numberOfPieces, whole, numberOfPieces)
  }

  /** The slot of piece `piece` holds exactly the translator's extent for it. */
  lemma {:induction false} RegionsPrefixAt(translator: Translator, numberOfPieces: int, whole: Extent, count: nat, piece: int)
    requires 0 <= piece < count
    ensures RegionsPrefix(translator, numberOfPieces, whole, count)[6 * piece .. 6 * piece + 6]
            == translator(piece, numberOfPieces, whole)
  {
    var r := RegionsPrefix(translator, numberOfPieces, whole, count);
    var prev := RegionsPrefix(translator, numberOfPieces, whole, count - 1);
    if piece == count - 1 {
      assert r == prev + translator(count - 1, numberOfPieces, whole);
      assert r[6 * piece .. 6 * piece + 6] == r[|prev| ..];
    } else {
      RegionsPrefixAt(translator, numberOfPieces, whole, count - 1, piece);
      assert r[6 * piece .. 6 * piece + 6] == prev[6 * piece .. 6 * piece + 6];
    }
  }

  /**
   * One region per piece: the buffer has exactly `numberOfPieces` slots and
   * the slot of every piece is that piece's extent from the translator.
   */
  lemma RegionsOnePerPiece(translator: Translator, numberOfPieces: nat, whole: Extent, piece: int)
    requires 0 <= piece < numberOfPieces
    ensures |Regions(translator, numberOfPieces, whole)| == 6 * numberOfPieces
    ensures ValidPiece(Regions(translator, numberOfPieces, whole), piece)
    ensures forall d :: 0 <= d < 3 ==>
      Lo(Regions(translator, numberOfPieces, whole), piece, d) == translator(piece, numberOfPieces, whole)[2 * d] &&
      Hi(Regions(translator, numberOfPieces, whole), piece, d) == translator(piece, numberOfPieces, whole)[2 * d + 1]
  {
    RegionsPrefixAt(translator, numberOfPieces, whole, numberOfPieces, piece);
    var r := Regions(translator, numberOfPieces, whole);
    forall d | 0 <= d < 3
      ensures r[6 * piece + 2 * d] == translator(piece, numberOfPieces, whole)[2 * d]
      ensures r[6 * piece + 2 * d + 1] == translator(piece, numberOfPieces, whole)[2 * d + 1]
    {
      assert r[6 * piece + 2 * d] == r[6 * piece .. 6 * piece + 6][2 * d];
      assert r[6 * piece + 2 * d + 1] == r[6 * piece .. 6 * piece + 6][2 * d + 1];
    }
  }
}
