/** The bitboard layout of `game.py`.

    A position is one Python `int`. Bits 0..24 say where the O pieces are and
    bits 32..56 where the X pieces are. Cell (row `r`, column `c`), numbered
    `5 * r + c`, owns bit `24 - (5 * r + c)` of the O field and the bit 32
    places higher of the X field; the remaining bits are always zero. */
module Board {
  import opened Bits

  predicate IsCell(r: int, c: int)
  {
    0 <= r < 5 && 0 <= c < 5
  }

  /** The O-field bit of cell (r, c). */
  function OBit(r: int, c: int): (k: nat)
    requires IsCell(r, c)
    ensures k < 25
  {
    24 - (5 * r + c)
  }

  /** Distance between a cell's O bit and its X bit. Shift amounts are
      written with this name rather than the literal, which keeps the
      verifier from unfolding `Shl`/`Shr` 32 times. */
  const XOffset: nat := 32

  /** Number of bits in each field, one per cell. */
  const FieldSize: nat := 25

  /** The X-field bit of cell (r, c). */
  function XBit(r: int, c: int): (k: nat)
    requires IsCell(r, c)
    ensures XOffset <= k < XOffset + 25
  {
    XOffset + OBit(r, c)
  }

  predicate HasO(b: nat, r: int, c: int)
    requires IsCell(r, c)
  {
    Bit(b, OBit(r, c))
  }

  predicate HasX(b: nat, r: int, c: int)
    requires IsCell(r, c)
  {
    Bit(b, XBit(r, c))
  }

  /** Bits that belong to one of the two fields. */
  predicate FieldBit(k: nat)
  {
    k < 25 || XOffset <= k < XOffset + 25
  }

  /** No bit is set outside the two fields. */
  ghost predicate Clean(b: nat)
  {
    forall k: nat :: Bit(b, k) ==> FieldBit(k)
  }

  /** No cell holds both an O and an X. */
  ghost predicate Disjoint(b: nat)
  {
    forall r, c | IsCell(r, c) :: !(HasO(b, r, c) && HasX(b, r, c))
  }

  /** A position the game can reach. */
  ghost predicate Valid(b: nat)
  {
    Clean(b) && Disjoint(b)
  }

  /** The cell whose O bit is `k`. */
  function CellOfBit(k: nat): (rc: (int, int))
    requires k < 25
    ensures IsCell(rc.0, rc.1) && OBit(rc.0, rc.1) == k
  {
    ((24 - k) / 5, (24 - k) % 5)
  }

  /** Two positions with the same pieces on every cell and the same bits
      outside the fields are the same integer. */
  lemma SameCells(a: nat, b: nat)
    requires forall r, c | IsCell(r, c) :: HasO(a, r, c) == HasO(b, r, c) && HasX(a, r, c) == HasX(b, r, c)
    requires forall k: nat | !FieldBit(k) :: Bit(a, k) == Bit(b, k)
    ensures a == b
  {
    forall k: nat
      ensures Bit(a, k) == Bit(b, k)
    {
      if k < 25 {
        var rc := CellOfBit(k);
        assert HasO(a, rc.0, rc.1) == HasO(b, rc.0, rc.1);
      } else if XOffset <= k < XOffset + 25 {
        var rc := CellOfBit(k - XOffset);
        assert HasX(a, rc.0, rc.1) == HasX(b, rc.0, rc.1);
      }
    }
    Ext(a, b);
  }

  /** `33554431`, the literal `game.py` uses for a full O field. */
  const FullField: nat := 33554431

  lemma FullFieldBits(k: nat)
    ensures Bit(FullField, k) == (k < 25)
  {
    ShlAdd(1, 12, 12);
    assert LowMask(25) == FullField;
    BitLowMask(25, k);
  }

  /** `16777216`, the literal `game.py` uses for `1 << 24`. */
  const TopBit: nat := 16777216

  lemma TopBitIsPow()
    ensures Shl(1, 24) == TopBit
  {
    ShlAdd(1, 12, 12);
  }
}
