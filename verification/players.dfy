/** `swap_players` of `game.py`: the two fields exchange places, which turns a
    position of X into the same position seen by O. */
module Players {
  import opened Bits
  import opened Board

  /** Python's integers are unbounded; the source keeps the low 64 bits of
      `board << 32` with an explicit mask. */
  const WordBits: nat := 64

  /** `swap_players(board)`: `(board >> 32) | ((board << 32) & ((1 << 64) - 1))`. */
  function Swap(board: nat): nat
  {
    Or(Shr(board, XOffset), And(Shl(board, XOffset), LowMask(WordBits)))
  }

  lemma SwapBit(board: nat, k: nat)
    ensures Bit(Swap(board), k)
         == (Bit(board, k + XOffset) || (XOffset <= k < WordBits && Bit(board, k - XOffset)))
  {
    BitOr(Shr(board, XOffset), And(Shl(board, XOffset), LowMask(WordBits)), k);
    BitShr(board, XOffset, k);
    BitAnd(Shl(board, XOffset), LowMask(WordBits), k);
    BitShl(board, XOffset, k);
    BitLowMask(WordBits, k);
  }

  /** Swapping puts every X where an O was and every O where an X was. */
  lemma SwapCell(board: nat, i: int, j: int)
    requires Clean(board) && IsCell(i, j)
    ensures HasO(Swap(board), i, j) == HasX(board, i, j)
    ensures HasX(Swap(board), i, j) == HasO(board, i, j)
  {
    SwapBit(board, OBit(i, j));
    assert OBit(i, j) + XOffset == XBit(i, j);
    SwapBit(board, XBit(i, j));
    assert !FieldBit(XBit(i, j) + XOffset);
    assert XBit(i, j) - XOffset == OBit(i, j);
  }

  lemma SwapClean(board: nat)
    requires Clean(board)
    ensures Clean(Swap(board))
  {
    forall k: nat | Bit(Swap(board), k)
      ensures FieldBit(k)
    {
      SwapBit(board, k);
    }
  }

  /** On the game's positions, swapping twice gives the board back, and the
      fields stay disjoint. */
  lemma SwapInvolution(board: nat)
    requires Clean(board)
    ensures Swap(Swap(board)) == board
    ensures Valid(board) ==> Valid(Swap(board))
  {
    var once := Swap(board);
    SwapClean(board);
    SwapClean(once);
    forall i, j | IsCell(i, j)
      ensures HasO(Swap(once), i, j) == HasO(board, i, j)
      ensures HasX(Swap(once), i, j) == HasX(board, i, j)
      ensures !(HasO(once, i, j) && HasX(once, i, j)) <== !(HasO(board, i, j) && HasX(board, i, j))
    {
      SwapCell(board, i, j);
      SwapCell(once, i, j);
    }
    SameCells(Swap(once), board);
  }
}
