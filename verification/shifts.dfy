/** The four slide moves of `State` in `game.py`, as bit arithmetic.

    Every shift takes the cell (row, col), pushes the pieces lying between it
    and one edge of the board one step towards it, and puts an O on the edge
    cell that was emptied. The position is always seen from O's side: a
    move of X is made on the position with the players swapped. */
module Shifts {
  import opened Bits
  import opened Board
  import opened PyRuntime

  /** The direction the pieces of the line are pushed. */
  datatype Direction = Up | Down | Left | Right

  /** `B |= 1 << i` for each `i` of `ks` in turn: the mask loops. Python
      would raise `ValueError` on a negative `i`; the shifts never produce
      one (`MaskRangesNatural`), and such an `i` is skipped here. */
  function OrBits(acc: nat, ks: seq<int>): nat
    decreases |ks|
  {
    if |ks| == 0 then acc
    else if ks[0] < 0 then OrBits(acc, ks[1..])
    else OrBits(Or(acc, Shl(1, ks[0])), ks[1..])
  }

  lemma {:induction false} BitOrBits(acc: nat, ks: seq<int>, k: nat)
    ensures Bit(OrBits(acc, ks), k) == (Bit(acc, k) || k in ks)
    decreases |ks|
  {
    if |ks| > 0 {
      assert ks == [ks[0]] + ks[1..];
      if ks[0] < 0 {
        BitOrBits(acc, ks[1..], k);
      } else {
        BitOrBits(Or(acc, Shl(1, ks[0])), ks[1..], k);
        BitOr(acc, Shl(1, ks[0]), k);
        BitPow(ks[0], k);
      }
    }
  }

  /** Bits of `((board & B) <op> s) & B | (board & ~B) | C`, the update every
      shift ends with; `moved` stands for `(board & B) <op> s`. */
  lemma CombineBits(board: nat, B: nat, C: nat, moved: nat, k: nat)
    ensures Bit(Or(Or(And(moved, B), AndNot(board, B)), C), k)
        == (Bit(C, k) || (Bit(moved, k) && Bit(B, k)) || (Bit(board, k) && !Bit(B, k)))
  {
    BitOr(Or(And(moved, B), AndNot(board, B)), C, k);
    BitOr(And(moved, B), AndNot(board, B), k);
    BitAnd(moved, B, k);
    BitAndNot(board, B, k);
  }

  /** `((board & B) << s) & B | (board & ~B) | (1 << c)`: the update of the
      shifts that move the masked pieces towards higher bits. */
  function ShlUpdate(board: nat, B: nat, c: nat, s: nat): nat
  {
    Or(Or(And(Shl(And(board, B), s), B), AndNot(board, B)), Shl(1, c))
  }

  /** `((board & B) >> s) & B | (board & ~B) | (1 << c)`: the update of the
      shifts that move the masked pieces towards lower bits. */
  function ShrUpdate(board: nat, B: nat, c: nat, s: nat): nat
  {
    Or(Or(And(Shr(And(board, B), s), B), AndNot(board, B)), Shl(1, c))
  }

  lemma ShlUpdateBits(board: nat, B: nat, c: nat, s: nat, k: nat)
    ensures Bit(ShlUpdate(board, B, c, s), k)
        == (k == c || (Bit(B, k) && k >= s && Bit(B, k - s) && Bit(board, k - s)) || (!Bit(B, k) && Bit(board, k)))
  {
    CombineBits(board, B, Shl(1, c), Shl(And(board, B), s), k);
    BitShl(And(board, B), s, k);
    if k >= s {
      BitAnd(board, B, k - s);
    }
    BitPow(c, k);
  }

  lemma ShrUpdateBits(board: nat, B: nat, c: nat, s: nat, k: nat)
    ensures Bit(ShrUpdate(board, B, c, s), k)
        == (k == c || (Bit(B, k) && Bit(B, k + s) && Bit(board, k + s)) || (!Bit(B, k) && Bit(board, k)))
  {
    CombineBits(board, B, Shl(1, c), Shr(And(board, B), s), k);
    BitShr(And(board, B), s, k);
    BitAnd(board, B, k + s);
    BitPow(c, k);
  }

  /** The bit `k` of a left shift by `s`, read through the bit `src` it takes over. */
  lemma ShlMoveBits(board: nat, B: nat, c: nat, s: nat, k: nat, src: nat)
    requires src + s == k
    ensures Bit(ShlUpdate(board, B, c, s), k)
        == (k == c || (Bit(B, k) && Bit(B, src) && Bit(board, src)) || (!Bit(B, k) && Bit(board, k)))
  {
    ShlUpdateBits(board, B, c, s, k);
  }

  /** The bit `k` of a right shift by `s`, read through the bit `src` it takes over. */
  lemma ShrMoveBits(board: nat, B: nat, c: nat, s: nat, k: nat, src: nat)
    requires src == k + s
    ensures Bit(ShrUpdate(board, B, c, s), k)
        == (k == c || (Bit(B, k) && Bit(B, src) && Bit(board, src)) || (!Bit(B, k) && Bit(board, k)))
  {
    ShrUpdateBits(board, B, c, s, k);
  }

  /** A bit of the line whose source bit lies outside the mask ends up clear. */
  lemma ShlClears(board: nat, B: nat, c: nat, s: nat, k: nat, src: nat)
    requires src + s == k && k != c && Bit(B, k) && !Bit(B, src)
    ensures !Bit(ShlUpdate(board, B, c, s), k)
  {
    ShlMoveBits(board, B, c, s, k, src);
  }

  lemma ShrClears(board: nat, B: nat, c: nat, s: nat, k: nat, src: nat)
    requires src == k + s && k != c && Bit(B, k) && !Bit(B, src)
    ensures !Bit(ShrUpdate(board, B, c, s), k)
  {
    ShrMoveBits(board, B, c, s, k, src);
  }

  /** The mask `B` of `shift_right`: the O and X bits of the cells from
      column 0 to `col` of `row`. */
  function MaskRight(row: int, col: int): nat
    requires IsCell(row, col)
  {
    var cIndex := 24 - (row + 4 * row);
    OrBits(OrBits(0, PyRange(cIndex, cIndex - (col + 1), -1)),
           PyRange(cIndex + 32, cIndex + 32 - (col + 1), -1))
  }

  /** The mask `B` of `shift_left`: the cells from column `col` to 4. */
  function MaskLeft(row: int, col: int): nat
    requires IsCell(row, col)
  {
    var cIndex := 24 - ((row + 4) + 4 * row);
    OrBits(OrBits(0, PyRange(cIndex, cIndex + (5 - col), 1)),
           PyRange(cIndex + 32, cIndex + 32 + (5 - col), 1))
  }

  /** The mask `B` of `shift_up`: the cells from row `row` to 4 of `col`. */
  function MaskUp(row: int, col: int): nat
    requires IsCell(row, col)
  {
    var cIndex := 24 - (col + 20);
    OrBits(OrBits(0, PyRange(cIndex, cIndex + (5 - row) * 5, 5)),
           PyRange(cIndex + 32, cIndex + 32 + (5 - row) * 5, 5))
  }

  /** The mask `B` of `shift_down`: the cells from row 0 to `row` of `col`. */
  function MaskDown(row: int, col: int): nat
    requires IsCell(row, col)
  {
    var cIndex := 24 - col;
    OrBits(OrBits(0, PyRange(cIndex, cIndex - (row * 5) - 1, -5)),
           PyRange(cIndex + 32, (cIndex + 32) - (row * 5) - 1, -5))
  }

  /** The raise shared by the four shifts. */
  predicate IsPlayer(player: string)
  {
    player == "X" || player == "O"
  }

  /** `shifted_board` of `shift_right`. */
  function RightBoard(row: int, col: int, board: nat): nat
    requires IsCell(row, col)
  {
    var cIndex := 24 - (row + 4 * row);
    ShrUpdate(board, MaskRight(row, col), cIndex, 1)
  }

  function ShiftRight(player: string, row: int, col: int, board: nat): (r: Result<nat>)
    requires IsCell(row, col)
    ensures r.Raise? <==> !IsPlayer(player)
    ensures r.Raise? ==> r.error == TypeError
  {
    if player != "X" && player != "O" then Raise(TypeError)
    else Ok(RightBoard(row, col, board))
  }

  /** `shifted_board` of `shift_left`. */
  function LeftBoard(row: int, col: int, board: nat): nat
    requires IsCell(row, col)
  {
    var cIndex := 24 - ((row + 4) + 4 * row);
    ShlUpdate(board, MaskLeft(row, col), cIndex, 1)
  }

  function ShiftLeft(player: string, row: int, col: int, board: nat): (r: Result<nat>)
    requires IsCell(row, col)
    ensures r.Raise? <==> !IsPlayer(player)
    ensures r.Raise? ==> r.error == TypeError
  {
    if player != "X" && player != "O" then Raise(TypeError)
    else Ok(LeftBoard(row, col, board))
  }

  /** `shifted_board` of `shift_up`. */
  function UpBoard(row: int, col: int, board: nat): nat
    requires IsCell(row, col)
  {
    var cIndex := 24 - (col + 20);
    ShlUpdate(board, MaskUp(row, col), cIndex, 5)
  }

  function ShiftUp(player: string, row: int, col: int, board: nat): (r: Result<nat>)
    requires IsCell(row, col)
    ensures r.Raise? <==> !IsPlayer(player)
    ensures r.Raise? ==> r.error == TypeError
  {
    if player != "X" && player != "O" then Raise(TypeError)
    else Ok(UpBoard(row, col, board))
  }

  /** `shifted_board` of `shift_down`. */
  function DownBoard(row: int, col: int, board: nat): nat
    requires IsCell(row, col)
  {
    var cIndex := 24 - col;
    ShrUpdate(board, MaskDown(row, col), cIndex, 5)
  }

  function ShiftDown(player: string, row: int, col: int, board: nat): (r: Result<nat>)
    requires IsCell(row, col)
    ensures r.Raise? <==> !IsPlayer(player)
    ensures r.Raise? ==> r.error == TypeError
  {
    if player != "X" && player != "O" then Raise(TypeError)
    else Ok(DownBoard(row, col, board))
  }

  /** `getattr(self, f"shift_{direction}")`. */
  function Shift(d: Direction, player: string, row: int, col: int, board: nat): Result<nat>
    requires IsCell(row, col)
  {
    match d
    case Up => ShiftUp(player, row, col, board)
    case Down => ShiftDown(player, row, col, board)
    case Left => ShiftLeft(player, row, col, board)
    case Right => ShiftRight(player, row, col, board)
  }

  // ---------------------------------------------------------------------
  // What a shift does to the cells, stated without bits.

  /** The edge cell that receives the new O. */
  function Entry(d: Direction, row: int, col: int): (e: (int, int))
    requires IsCell(row, col)
    ensures IsCell(e.0, e.1)
  {
    match d
    case Up => (4, col)
    case Down => (0, col)
    case Left => (row, 4)
    case Right => (row, 0)
  }

  /** The cells between the taken cell and the entry cell, both included:
      the ones whose content changes. */
  predicate InLine(d: Direction, row: int, col: int, i: int, j: int)
  {
    match d
    case Up => j == col && row <= i <= 4
    case Down => j == col && 0 <= i <= row
    case Left => i == row && col <= j <= 4
    case Right => i == row && 0 <= j <= col
  }

  /** The cell whose piece ends up on (i, j): its neighbour on the entry
      side. */
  function Behind(d: Direction, i: int, j: int): (int, int)
  {
    match d
    case Up => (i + 1, j)
    case Down => (i - 1, j)
    case Left => (i, j + 1)
    case Right => (i, j - 1)
  }

  /** Cell (i, j) of `after` holds what the shift puts there: a new O on the
      entry cell, the piece from the neighbour behind on the rest of the
      line, and the old content anywhere else. */
  predicate CellShifted(d: Direction, row: int, col: int, before: nat, after: nat, i: int, j: int)
    requires IsCell(row, col) && IsCell(i, j)
  {
    if (i, j) == Entry(d, row, col) then
      HasO(after, i, j) && !HasX(after, i, j)
    else if InLine(d, row, col, i, j) then
      var (bi, bj) := Behind(d, i, j);
      IsCell(bi, bj) && HasO(after, i, j) == HasO(before, bi, bj) && HasX(after, i, j) == HasX(before, bi, bj)
    else
      HasO(after, i, j) == HasO(before, i, j) && HasX(after, i, j) == HasX(before, i, j)
  }

  /** `after` is `before` with the piece on (row, col) taken, the rest of the
      line pushed one step towards the taken cell's place, and an O put on
      the entry cell; no other cell and no bit outside the fields changes. */
  ghost predicate Shifted(d: Direction, row: int, col: int, before: nat, after: nat)
    requires IsCell(row, col)
  {
    && (forall i, j | IsCell(i, j) :: CellShifted(d, row, col, before, after, i, j))
    && (forall k: nat | !FieldBit(k) :: Bit(after, k) == Bit(before, k))
  }

  /** At most one position is a given shift of a given position, so
      `Shifted` pins the result down completely. */
  lemma ShiftedUnique(d: Direction, row: int, col: int, before: nat, a1: nat, a2: nat)
    requires IsCell(row, col)
    requires Shifted(d, row, col, before, a1) && Shifted(d, row, col, before, a2)
    ensures a1 == a2
  {
    forall i, j | IsCell(i, j)
      ensures HasO(a1, i, j) == HasO(a2, i, j) && HasX(a1, i, j) == HasX(a2, i, j)
    {
      assert CellShifted(d, row, col, before, a1, i, j) && CellShifted(d, row, col, before, a2, i, j);
    }
    SameCells(a1, a2);
  }

  /** `shifted_board` of the shift in direction `d`. */
  function DirBoard(d: Direction, row: int, col: int, board: nat): nat
    requires IsCell(row, col)
  {
    match d
    case Up => UpBoard(row, col, board)
    case Down => DownBoard(row, col, board)
    case Left => LeftBoard(row, col, board)
    case Right => RightBoard(row, col, board)
  }

  lemma DirShifted(d: Direction, row: int, col: int, board: nat)
    requires IsCell(row, col)
    ensures Shifted(d, row, col, board, DirBoard(d, row, col, board))
  {
    match d
    case Up => UpShifted(row, col, board);
    case Down => DownShifted(row, col, board);
    case Left => LeftShifted(row, col, board);
    case Right => RightShifted(row, col, board);
  }

  /** Each shift raises `TypeError` exactly for a player other than "X"
      and "O"; otherwise its result is the one and only position that is the
      shift of `board` in the sense of `Shifted`. */
  lemma ShiftSpec(d: Direction, player: string, row: int, col: int, board: nat, after: nat)
    requires IsCell(row, col)
    ensures Shift(d, player, row, col, board).Raise? <==> !IsPlayer(player)
    ensures Shift(d, player, row, col, board).Raise? ==> Shift(d, player, row, col, board).error == TypeError
    ensures IsPlayer(player) ==> (Shift(d, player, row, col, board) == Ok(after) <==> Shifted(d, row, col, board, after))
  {
    if IsPlayer(player) {
      assert Shift(d, player, row, col, board) == Ok(DirBoard(d, row, col, board));
      DirShifted(d, row, col, board);
      if Shifted(d, row, col, board, after) {
        ShiftedUnique(d, row, col, board, DirBoard(d, row, col, board), after);
      }
    }
  }

  /** A shift keeps a position well formed: nothing appears outside the two
      fields and no cell ends up holding both players. */
  lemma ShiftedValid(d: Direction, row: int, col: int, before: nat, after: nat)
    requires IsCell(row, col) && Shifted(d, row, col, before, after) && Valid(before)
    ensures Valid(after)
  {
    forall r, c | IsCell(r, c)
      ensures !(HasO(after, r, c) && HasX(after, r, c))
    {
      assert CellShifted(d, row, col, before, after, r, c);
    }
  }

  lemma BitTwoRanges(r1: seq<int>, r2: seq<int>, k: nat)
    ensures Bit(OrBits(OrBits(0, r1), r2), k) == (k in r1 || k in r2)
  {
    BitOrBits(OrBits(0, r1), r2, k);
    BitOrBits(0, r1, k);
    BitZero(k);
  }

  /** Within a cell's bit, `k + col` modulo 5 singles out column `col`. */
  lemma CellMod(i: int, j: int, col: int)
    requires IsCell(i, j) && 0 <= col < 5
    ensures (OBit(i, j) + col) % 5 == 4 <==> j == col
    ensures (XBit(i, j) + col) % 5 == 1 <==> j == col
  {
    assert OBit(i, j) + col == 5 * (4 - i) + (4 + col - j);
    assert XBit(i, j) + col == 5 * (11 - i) + (1 + col - j);
  }

  lemma UpArith(row: int, col: int, k: int, in1: bool, in2: bool)
    requires IsCell(row, col)
    requires in1 == (4 - col <= k < 4 - col + (5 - row) * 5 && (k - (4 - col)) % 5 == 0)
    requires in2 == (36 - col <= k < 36 - col + (5 - row) * 5 && (k - (36 - col)) % 5 == 0)
    ensures (in1 || in2) == ((4 - col <= k < 29 - col - 5 * row && (k + col) % 5 == 4)
                           || (36 - col <= k < 61 - col - 5 * row && (k + col) % 5 == 1))
  {
  }

  lemma DownArith(row: int, col: int, k: int, in1: bool, in2: bool)
    requires IsCell(row, col)
    requires in1 == (24 - col - row * 5 - 1 < k <= 24 - col && (24 - col - k) % 5 == 0)
    requires in2 == (56 - col - row * 5 - 1 < k <= 56 - col && (56 - col - k) % 5 == 0)
    ensures (in1 || in2) == ((24 - col - 5 * row <= k <= 24 - col && (k + col) % 5 == 4)
                           || (56 - col - 5 * row <= k <= 56 - col && (k + col) % 5 == 1))
  {
  }

  // --- shift_right -------------------------------------------------------

  /** The bits of the mask of `shift_right`: the O and X bits of the cells from column 0 to `col` of `row`. */
  predicate InMaskRight(row: int, col: int, k: int)
  {
    24 - 5 * row - col <= k <= 24 - 5 * row || 56 - 5 * row - col <= k <= 56 - 5 * row
  }

  /** `B` has exactly the bits of the mask of `shift_right`. */
  ghost predicate RightMasked(row: int, col: int, B: nat)
  {
    forall k: nat :: Bit(B, k) == InMaskRight(row, col, k)
  }

  lemma MaskRightRanges(row: int, col: int, k: nat)
    requires IsCell(row, col)
    ensures var r1 := PyRange(24 - 5 * row, 24 - 5 * row - (col + 1), -1);
      var r2 := PyRange(56 - 5 * row, 56 - 5 * row - (col + 1), -1);
      (k in r1 || k in r2) == InMaskRight(row, col, k)
  {
    var r1 := PyRange(24 - 5 * row, 24 - 5 * row - (col + 1), -1);
    var r2 := PyRange(56 - 5 * row, 56 - 5 * row - (col + 1), -1);
    InRangeDown(24 - 5 * row, 24 - 5 * row - (col + 1), -1, k);
    InRangeDown(56 - 5 * row, 56 - 5 * row - (col + 1), -1, k);
  }

  lemma MaskRightBits(row: int, col: int, k: nat)
    requires IsCell(row, col)
    ensures Bit(MaskRight(row, col), k) == InMaskRight(row, col, k)
  {
    var r1 := PyRange(24 - 5 * row, 24 - 5 * row - (col + 1), -1);
    var r2 := PyRange(56 - 5 * row, 56 - 5 * row - (col + 1), -1);
    assert MaskRight(row, col) == OrBits(OrBits(0, r1), r2);
    BitTwoRanges(r1, r2, k);
    MaskRightRanges(row, col, k);
  }

  lemma MaskRightIs(row: int, col: int)
    requires IsCell(row, col)
    ensures RightMasked(row, col, MaskRight(row, col))
  {
    forall k: nat
      ensures Bit(MaskRight(row, col), k) == InMaskRight(row, col, k)
    {
      MaskRightBits(row, col, k);
    }
  }

  /** The mask covers the cells of the line, and no bit outside the fields. */
  lemma MaskRightArith(row: int, col: int, i: int, j: int, k: nat)
    requires IsCell(row, col) && IsCell(i, j)
    ensures InMaskRight(row, col, OBit(i, j)) == InLine(Right, row, col, i, j)
    ensures InMaskRight(row, col, XBit(i, j)) == InLine(Right, row, col, i, j)
    ensures !FieldBit(k) ==> !InMaskRight(row, col, k)
  {
  }

  lemma MaskRightCell(row: int, col: int, i: int, j: int, B: nat)
    requires IsCell(row, col) && IsCell(i, j) && RightMasked(row, col, B)
    ensures Bit(B, OBit(i, j)) == InLine(Right, row, col, i, j)
    ensures Bit(B, XBit(i, j)) == InLine(Right, row, col, i, j)
  {
    MaskRightArith(row, col, i, j, 0);
  }

  /** Where the new O goes, and where the pieces of the line come from. */
  lemma RightStep(row: int, col: int, i: int, j: int)
    requires IsCell(row, col) && IsCell(i, j)
    ensures OBit(i, j) == 24 - 5 * row <==> (i, j) == Entry(Right, row, col)
    ensures XBit(i, j) != 24 - 5 * row
    ensures InLine(Right, row, col, i, j) && (i, j) != Entry(Right, row, col) ==>
      var (bi, bj) := Behind(Right, i, j);
      && IsCell(bi, bj) && InLine(Right, row, col, bi, bj)
      && OBit(bi, bj) == OBit(i, j) + 1 && XBit(bi, bj) == XBit(i, j) + 1
  {
  }

  /** The entry cell is on the line, and the bit its X half would take over
      lies outside the mask. */
  lemma RightEntryStep(row: int, col: int, i: int, j: int)
    requires IsCell(row, col) && (i, j) == Entry(Right, row, col)
    ensures IsCell(i, j) && InLine(Right, row, col, i, j)
    ensures OBit(i, j) == 24 - 5 * row && XBit(i, j) == 56 - 5 * row
    ensures !InMaskRight(row, col, 57 - 5 * row)
  {
  }

  lemma RightEntryO(row: int, col: int, board: nat, B: nat, c: nat, i: int, j: int)
    requires IsCell(row, col) && RightMasked(row, col, B) && c == 24 - 5 * row && (i, j) == Entry(Right, row, col)
    ensures HasO(ShrUpdate(board, B, c, 1), i, j)
  {
    RightEntryStep(row, col, i, j);
    ShrUpdateBits(board, B, c, 1, OBit(i, j));
  }

  lemma RightEntryX(row: int, col: int, board: nat, B: nat, c: nat, i: int, j: int)
    requires IsCell(row, col) && RightMasked(row, col, B) && c == 24 - 5 * row && (i, j) == Entry(Right, row, col)
    ensures !HasX(ShrUpdate(board, B, c, 1), i, j)
  {
    RightEntryStep(row, col, i, j);
    MaskRightCell(row, col, i, j, B);
    assert !Bit(B, 57 - 5 * row);
    ShrClears(board, B, c, 1, XBit(i, j), 57 - 5 * row);
  }

  lemma RightLineO(row: int, col: int, board: nat, B: nat, c: nat, i: int, j: int)
    requires IsCell(row, col) && RightMasked(row, col, B) && c == 24 - 5 * row && IsCell(i, j)
    requires InLine(Right, row, col, i, j) && (i, j) != Entry(Right, row, col)
    ensures var (bi, bj) := Behind(Right, i, j);
      IsCell(bi, bj) && HasO(ShrUpdate(board, B, c, 1), i, j) == HasO(board, bi, bj)
  {
    var (bi, bj) := Behind(Right, i, j);
    RightStep(row, col, i, j);
    MaskRightCell(row, col, i, j, B);
    MaskRightCell(row, col, bi, bj, B);
    ShrMoveBits(board, B, c, 1, OBit(i, j), OBit(bi, bj));
  }

  lemma RightLineX(row: int, col: int, board: nat, B: nat, c: nat, i: int, j: int)
    requires IsCell(row, col) && RightMasked(row, col, B) && c == 24 - 5 * row && IsCell(i, j)
    requires InLine(Right, row, col, i, j) && (i, j) != Entry(Right, row, col)
    ensures var (bi, bj) := Behind(Right, i, j);
      IsCell(bi, bj) && HasX(ShrUpdate(board, B, c, 1), i, j) == HasX(board, bi, bj)
  {
    var (bi, bj) := Behind(Right, i, j);
    RightStep(row, col, i, j);
    MaskRightCell(row, col, i, j, B);
    MaskRightCell(row, col, bi, bj, B);
    ShrMoveBits(board, B, c, 1, XBit(i, j), XBit(bi, bj));
  }

  lemma RightRestO(row: int, col: int, board: nat, B: nat, c: nat, i: int, j: int)
    requires IsCell(row, col) && RightMasked(row, col, B) && c == 24 - 5 * row && IsCell(i, j) && !InLine(Right, row, col, i, j)
    ensures HasO(ShrUpdate(board, B, c, 1), i, j) == HasO(board, i, j)
  {
    RightStep(row, col, i, j);
    MaskRightCell(row, col, i, j, B);
    ShrUpdateBits(board, B, c, 1, OBit(i, j));
  }

  lemma RightRestX(row: int, col: int, board: nat, B: nat, c: nat, i: int, j: int)
    requires IsCell(row, col) && RightMasked(row, col, B) && c == 24 - 5 * row && IsCell(i, j) && !InLine(Right, row, col, i, j)
    ensures HasX(ShrUpdate(board, B, c, 1), i, j) == HasX(board, i, j)
  {
    RightStep(row, col, i, j);
    MaskRightCell(row, col, i, j, B);
    ShrUpdateBits(board, B, c, 1, XBit(i, j));
  }

  lemma RightOffField(row: int, col: int, board: nat, B: nat, c: nat, k: nat)
    requires IsCell(row, col) && RightMasked(row, col, B) && c == 24 - 5 * row && !FieldBit(k)
    ensures Bit(ShrUpdate(board, B, c, 1), k) == Bit(board, k)
  {
    MaskRightArith(row, col, 0, 0, k);
    assert !Bit(B, k);
    ShrUpdateBits(board, B, c, 1, k);
  }

  lemma RightCell(row: int, col: int, board: nat, B: nat, c: nat, i: int, j: int)
    requires IsCell(row, col) && RightMasked(row, col, B) && c == 24 - 5 * row && IsCell(i, j)
    ensures CellShifted(Right, row, col, board, ShrUpdate(board, B, c, 1), i, j)
  {
    if (i, j) == Entry(Right, row, col) {
      RightEntryO(row, col, board, B, c, i, j);
      RightEntryX(row, col, board, B, c, i, j);
    } else if InLine(Right, row, col, i, j) {
      RightLineO(row, col, board, B, c, i, j);
      RightLineX(row, col, board, B, c, i, j);
    } else {
      RightRestO(row, col, board, B, c, i, j);
      RightRestX(row, col, board, B, c, i, j);
    }
  }

  lemma RightUpdateShifted(row: int, col: int, board: nat, B: nat, c: nat)
    requires IsCell(row, col) && RightMasked(row, col, B) && c == 24 - 5 * row
    ensures Shifted(Right, row, col, board, ShrUpdate(board, B, c, 1))
  {
    var after := ShrUpdate(board, B, c, 1);
    forall i, j | IsCell(i, j)
      ensures CellShifted(Right, row, col, board, after, i, j)
    {
      RightCell(row, col, board, B, c, i, j);
    }
    forall k: nat | !FieldBit(k)
      ensures Bit(after, k) == Bit(board, k)
    {
      RightOffField(row, col, board, B, c, k);
    }
  }

  /** `shift_right` makes the Right shift. */
  lemma RightShifted(row: int, col: int, board: nat)
    requires IsCell(row, col)
    ensures Shifted(Right, row, col, board, RightBoard(row, col, board))
  {
    MaskRightIs(row, col);
    RightUpdateShifted(row, col, board, MaskRight(row, col), 24 - (row + 4 * row));
  }

  // --- shift_left --------------------------------------------------------

  /** The bits of the mask of `shift_left`: the O and X bits of the cells from column `col` to 4 of `row`. */
  predicate InMaskLeft(row: int, col: int, k: int)
  {
    20 - 5 * row <= k <= 24 - 5 * row - col || 52 - 5 * row <= k <= 56 - 5 * row - col
  }

  /** `B` has exactly the bits of the mask of `shift_left`. */
  ghost predicate LeftMasked(row: int, col: int, B: nat)
  {
    forall k: nat :: Bit(B, k) == InMaskLeft(row, col, k)
  }

  lemma MaskLeftRanges(row: int, col: int, k: nat)
    requires IsCell(row, col)
    ensures var r1 := PyRange(20 - 5 * row, 20 - 5 * row + (5 - col), 1);
      var r2 := PyRange(52 - 5 * row, 52 - 5 * row + (5 - col), 1);
      (k in r1 || k in r2) == InMaskLeft(row, col, k)
  {
    var r1 := PyRange(20 - 5 * row, 20 - 5 * row + (5 - col), 1);
    var r2 := PyRange(52 - 5 * row, 52 - 5 * row + (5 - col), 1);
    InRangeUp(20 - 5 * row, 20 - 5 * row + (5 - col), 1, k);
    InRangeUp(52 - 5 * row, 52 - 5 * row + (5 - col), 1, k);
  }

  lemma MaskLeftBits(row: int, col: int, k: nat)
    requires IsCell(row, col)
    ensures Bit(MaskLeft(row, col), k) == InMaskLeft(row, col, k)
  {
    var r1 := PyRange(20 - 5 * row, 20 - 5 * row + (5 - col), 1);
    var r2 := PyRange(52 - 5 * row, 52 - 5 * row + (5 - col), 1);
    assert MaskLeft(row, col) == OrBits(OrBits(0, r1), r2);
    BitTwoRanges(r1, r2, k);
    MaskLeftRanges(row, col, k);
  }

  lemma MaskLeftIs(row: int, col: int)
    requires IsCell(row, col)
    ensures LeftMasked(row, col, MaskLeft(row, col))
  {
    forall k: nat
      ensures Bit(MaskLeft(row, col), k) == InMaskLeft(row, col, k)
    {
      MaskLeftBits(row, col, k);
    }
  }

  /** The mask covers the cells of the line, and no bit outside the fields. */
  lemma MaskLeftArith(row: int, col: int, i: int, j: int, k: nat)
    requires IsCell(row, col) && IsCell(i, j)
    ensures InMaskLeft(row, col, OBit(i, j)) == InLine(Left, row, col, i, j)
    ensures InMaskLeft(row, col, XBit(i, j)) == InLine(Left, row, col, i, j)
    ensures !FieldBit(k) ==> !InMaskLeft(row, col, k)
  {
  }

  lemma MaskLeftCell(row: int, col: int, i: int, j: int, B: nat)
    requires IsCell(row, col) && IsCell(i, j) && LeftMasked(row, col, B)
    ensures Bit(B, OBit(i, j)) == InLine(Left, row, col, i, j)
    ensures Bit(B, XBit(i, j)) == InLine(Left, row, col, i, j)
  {
    MaskLeftArith(row, col, i, j, 0);
  }

  /** Where the new O goes, and where the pieces of the line come from. */
  lemma LeftStep(row: int, col: int, i: int, j: int)
    requires IsCell(row, col) && IsCell(i, j)
    ensures OBit(i, j) == 20 - 5 * row <==> (i, j) == Entry(Left, row, col)
    ensures XBit(i, j) != 20 - 5 * row
    ensures InLine(Left, row, col, i, j) && (i, j) != Entry(Left, row, col) ==>
      var (bi, bj) := Behind(Left, i, j);
      && IsCell(bi, bj) && InLine(Left, row, col, bi, bj)
      && OBit(bi, bj) == OBit(i, j) - 1 && XBit(bi, bj) == XBit(i, j) - 1
  {
  }

  /** The entry cell is on the line, and the bit its X half would take over
      lies outside the mask. */
  lemma LeftEntryStep(row: int, col: int, i: int, j: int)
    requires IsCell(row, col) && (i, j) == Entry(Left, row, col)
    ensures IsCell(i, j) && InLine(Left, row, col, i, j)
    ensures OBit(i, j) == 20 - 5 * row && XBit(i, j) == 52 - 5 * row
    ensures !InMaskLeft(row, col, 51 - 5 * row)
  {
  }

  lemma LeftEntryO(row: int, col: int, board: nat, B: nat, c: nat, i: int, j: int)
    requires IsCell(row, col) && LeftMasked(row, col, B) && c == 20 - 5 * row && (i, j) == Entry(Left, row, col)
    ensures HasO(ShlUpdate(board, B, c, 1), i, j)
  {
    LeftEntryStep(row, col, i, j);
    ShlUpdateBits(board, B, c, 1, OBit(i, j));
  }

  lemma LeftEntryX(row: int, col: int, board: nat, B: nat, c: nat, i: int, j: int)
    requires IsCell(row, col) && LeftMasked(row, col, B) && c == 20 - 5 * row && (i, j) == Entry(Left, row, col)
    ensures !HasX(ShlUpdate(board, B, c, 1), i, j)
  {
    LeftEntryStep(row, col, i, j);
    MaskLeftCell(row, col, i, j, B);
    assert !Bit(B, 51 - 5 * row);
    ShlClears(board, B, c, 1, XBit(i, j), 51 - 5 * row);
  }

  lemma LeftLineO(row: int, col: int, board: nat, B: nat, c: nat, i: int, j: int)
    requires IsCell(row, col) && LeftMasked(row, col, B) && c == 20 - 5 * row && IsCell(i, j)
    requires InLine(Left, row, col, i, j) && (i, j) != Entry(Left, row, col)
    ensures var (bi, bj) := Behind(Left, i, j);
      IsCell(bi, bj) && HasO(ShlUpdate(board, B, c, 1), i, j) == HasO(board, bi, bj)
  {
    var (bi, bj) := Behind(Left, i, j);
    LeftStep(row, col, i, j);
    MaskLeftCell(row, col, i, j, B);
    MaskLeftCell(row, col, bi, bj, B);
    ShlMoveBits(board, B, c, 1, OBit(i, j), OBit(bi, bj));
  }

  lemma LeftLineX(row: int, col: int, board: nat, B: nat, c: nat, i: int, j: int)
    requires IsCell(row, col) && LeftMasked(row, col, B) && c == 20 - 5 * row && IsCell(i, j)
    requires InLine(Left, row, col, i, j) && (i, j) != Entry(Left, row, col)
    ensures var (bi, bj) := Behind(Left, i, j);
      IsCell(bi, bj) && HasX(ShlUpdate(board, B, c, 1), i, j) == HasX(board, bi, bj)
  {
    var (bi, bj) := Behind(Left, i, j);
    LeftStep(row, col, i, j);
    MaskLeftCell(row, col, i, j, B);
    MaskLeftCell(row, col, bi, bj, B);
    ShlMoveBits(board, B, c, 1, XBit(i, j), XBit(bi, bj));
  }

  lemma LeftRestO(row: int, col: int, board: nat, B: nat, c: nat, i: int, j: int)
    requires IsCell(row, col) && LeftMasked(row, col, B) && c == 20 - 5 * row && IsCell(i, j) && !InLine(Left, row, col, i, j)
    ensures HasO(ShlUpdate(board, B, c, 1), i, j) == HasO(board, i, j)
  {
    LeftStep(row, col, i, j);
    MaskLeftCell(row, col, i, j, B);
    ShlUpdateBits(board, B, c, 1, OBit(i, j));
  }

  lemma LeftRestX(row: int, col: int, board: nat, B: nat, c: nat, i: int, j: int)
    requires IsCell(row, col) && LeftMasked(row, col, B) && c == 20 - 5 * row && IsCell(i, j) && !InLine(Left, row, col, i, j)
    ensures HasX(ShlUpdate(board, B, c, 1), i, j) == HasX(board, i, j)
  {
    LeftStep(row, col, i, j);
    MaskLeftCell(row, col, i, j, B);
    ShlUpdateBits(board, B, c, 1, XBit(i, j));
  }

  lemma LeftOffField(row: int, col: int, board: nat, B: nat, c: nat, k: nat)
    requires IsCell(row, col) && LeftMasked(row, col, B) && c == 20 - 5 * row && !FieldBit(k)
    ensures Bit(ShlUpdate(board, B, c, 1), k) == Bit(board, k)
  {
    MaskLeftArith(row, col, 0, 0, k);
    assert !Bit(B, k);
    ShlUpdateBits(board, B, c, 1, k);
  }

  lemma LeftCell(row: int, col: int, board: nat, B: nat, c: nat, i: int, j: int)
    requires IsCell(row, col) && LeftMasked(row, col, B) && c == 20 - 5 * row && IsCell(i, j)
    ensures CellShifted(Left, row, col, board, ShlUpdate(board, B, c, 1), i, j)
  {
    if (i, j) == Entry(Left, row, col) {
      LeftEntryO(row, col, board, B, c, i, j);
      LeftEntryX(row, col, board, B, c, i, j);
    } else if InLine(Left, row, col, i, j) {
      LeftLineO(row, col, board, B, c, i, j);
      LeftLineX(row, col, board, B, c, i, j);
    } else {
      LeftRestO(row, col, board, B, c, i, j);
      LeftRestX(row, col, board, B, c, i, j);
    }
  }

  lemma LeftUpdateShifted(row: int, col: int, board: nat, B: nat, c: nat)
    requires IsCell(row, col) && LeftMasked(row, col, B) && c == 20 - 5 * row
    ensures Shifted(Left, row, col, board, ShlUpdate(board, B, c, 1))
  {
    var after := ShlUpdate(board, B, c, 1);
    forall i, j | IsCell(i, j)
      ensures CellShifted(Left, row, col, board, after, i, j)
    {
      LeftCell(row, col, board, B, c, i, j);
    }
    forall k: nat | !FieldBit(k)
      ensures Bit(after, k) == Bit(board, k)
    {
      LeftOffField(row, col, board, B, c, k);
    }
  }

  /** `shift_left` makes the Left shift. */
  lemma LeftShifted(row: int, col: int, board: nat)
    requires IsCell(row, col)
    ensures Shifted(Left, row, col, board, LeftBoard(row, col, board))
  {
    MaskLeftIs(row, col);
    LeftUpdateShifted(row, col, board, MaskLeft(row, col), 24 - ((row + 4) + 4 * row));
  }

  // --- shift_up ----------------------------------------------------------

  /** The bits of the mask of `shift_up`: the O and X bits of the cells from row `row` to 4 of `col`. */
  predicate InMaskUp(row: int, col: int, k: int)
  {
    (4 - col <= k < 29 - col - 5 * row && (k + col) % 5 == 4) || (36 - col <= k < 61 - col - 5 * row && (k + col) % 5 == 1)
  }

  /** `B` has exactly the bits of the mask of `shift_up`. */
  ghost predicate UpMasked(row: int, col: int, B: nat)
  {
    forall k: nat :: Bit(B, k) == InMaskUp(row, col, k)
  }

  lemma MaskUpRanges(row: int, col: int, k: nat)
    requires IsCell(row, col)
    ensures var r1 := PyRange(4 - col, 4 - col + (5 - row) * 5, 5);
      var r2 := PyRange(36 - col, 36 - col + (5 - row) * 5, 5);
      (k in r1 || k in r2) == InMaskUp(row, col, k)
  {
    var r1 := PyRange(4 - col, 4 - col + (5 - row) * 5, 5);
    var r2 := PyRange(36 - col, 36 - col + (5 - row) * 5, 5);
    InRangeUp(4 - col, 4 - col + (5 - row) * 5, 5, k);
    InRangeUp(36 - col, 36 - col + (5 - row) * 5, 5, k);
    UpArith(row, col, k, k in r1, k in r2);
  }

  lemma MaskUpBits(row: int, col: int, k: nat)
    requires IsCell(row, col)
    ensures Bit(MaskUp(row, col), k) == InMaskUp(row, col, k)
  {
    var r1 := PyRange(4 - col, 4 - col + (5 - row) * 5, 5);
    var r2 := PyRange(36 - col, 36 - col + (5 - row) * 5, 5);
    assert MaskUp(row, col) == OrBits(OrBits(0, r1), r2);
    BitTwoRanges(r1, r2, k);
    MaskUpRanges(row, col, k);
  }

  lemma MaskUpIs(row: int, col: int)
    requires IsCell(row, col)
    ensures UpMasked(row, col, MaskUp(row, col))
  {
    forall k: nat
      ensures Bit(MaskUp(row, col), k) == InMaskUp(row, col, k)
    {
      MaskUpBits(row, col, k);
    }
  }

  /** The mask covers the cells of the line, and no bit outside the fields. */
  lemma MaskUpArith(row: int, col: int, i: int, j: int, k: nat)
    requires IsCell(row, col) && IsCell(i, j)
    ensures InMaskUp(row, col, OBit(i, j)) == InLine(Up, row, col, i, j)
    ensures InMaskUp(row, col, XBit(i, j)) == InLine(Up, row, col, i, j)
    ensures !FieldBit(k) ==> !InMaskUp(row, col, k)
  {
    CellMod(i, j, col);
  }

  lemma MaskUpCell(row: int, col: int, i: int, j: int, B: nat)
    requires IsCell(row, col) && IsCell(i, j) && UpMasked(row, col, B)
    ensures Bit(B, OBit(i, j)) == InLine(Up, row, col, i, j)
    ensures Bit(B, XBit(i, j)) == InLine(Up, row, col, i, j)
  {
    MaskUpArith(row, col, i, j, 0);
  }

  /** Where the new O goes, and where the pieces of the line come from. */
  lemma UpStep(row: int, col: int, i: int, j: int)
    requires IsCell(row, col) && IsCell(i, j)
    ensures OBit(i, j) == 4 - col <==> (i, j) == Entry(Up, row, col)
    ensures XBit(i, j) != 4 - col
    ensures InLine(Up, row, col, i, j) && (i, j) != Entry(Up, row, col) ==>
      var (bi, bj) := Behind(Up, i, j);
      && IsCell(bi, bj) && InLine(Up, row, col, bi, bj)
      && OBit(bi, bj) == OBit(i, j) - 5 && XBit(bi, bj) == XBit(i, j) - 5
  {
  }

  /** The entry cell is on the line, and the bit its X half would take over
      lies outside the mask. */
  lemma UpEntryStep(row: int, col: int, i: int, j: int)
    requires IsCell(row, col) && (i, j) == Entry(Up, row, col)
    ensures IsCell(i, j) && InLine(Up, row, col, i, j)
    ensures OBit(i, j) == 4 - col && XBit(i, j) == 36 - col
    ensures !InMaskUp(row, col, 31 - col)
  {
  }

  lemma UpEntryO(row: int, col: int, board: nat, B: nat, c: nat, i: int, j: int)
    requires IsCell(row, col) && UpMasked(row, col, B) && c == 4 - col && (i, j) == Entry(Up, row, col)
    ensures HasO(ShlUpdate(board, B, c, 5), i, j)
  {
    UpEntryStep(row, col, i, j);
    ShlUpdateBits(board, B, c, 5, OBit(i, j));
  }

  lemma UpEntryX(row: int, col: int, board: nat, B: nat, c: nat, i: int, j: int)
    requires IsCell(row, col) && UpMasked(row, col, B) && c == 4 - col && (i, j) == Entry(Up, row, col)
    ensures !HasX(ShlUpdate(board, B, c, 5), i, j)
  {
    UpEntryStep(row, col, i, j);
    MaskUpCell(row, col, i, j, B);
    assert !Bit(B, 31 - col);
    ShlClears(board, B, c, 5, XBit(i, j), 31 - col);
  }

  lemma UpLineO(row: int, col: int, board: nat, B: nat, c: nat, i: int, j: int)
    requires IsCell(row, col) && UpMasked(row, col, B) && c == 4 - col && IsCell(i, j)
    requires InLine(Up, row, col, i, j) && (i, j) != Entry(Up, row, col)
    ensures var (bi, bj) := Behind(Up, i, j);
      IsCell(bi, bj) && HasO(ShlUpdate(board, B, c, 5), i, j) == HasO(board, bi, bj)
  {
    var (bi, bj) := Behind(Up, i, j);
    UpStep(row, col, i, j);
    MaskUpCell(row, col, i, j, B);
    MaskUpCell(row, col, bi, bj, B);
    ShlMoveBits(board, B, c, 5, OBit(i, j), OBit(bi, bj));
  }

  lemma UpLineX(row: int, col: int, board: nat, B: nat, c: nat, i: int, j: int)
    requires IsCell(row, col) && UpMasked(row, col, B) && c == 4 - col && IsCell(i, j)
    requires InLine(Up, row, col, i, j) && (i, j) != Entry(Up, row, col)
    ensures var (bi, bj) := Behind(Up, i, j);
      IsCell(bi, bj) && HasX(ShlUpdate(board, B, c, 5), i, j) == HasX(board, bi, bj)
  {
    var (bi, bj) := Behind(Up, i, j);
    UpStep(row, col, i, j);
    MaskUpCell(row, col, i, j, B);
    MaskUpCell(row, col, bi, bj, B);
    ShlMoveBits(board, B, c, 5, XBit(i, j), XBit(bi, bj));
  }

  lemma UpRestO(row: int, col: int, board: nat, B: nat, c: nat, i: int, j: int)
    requires IsCell(row, col) && UpMasked(row, col, B) && c == 4 - col && IsCell(i, j) && !InLine(Up, row, col, i, j)
    ensures HasO(ShlUpdate(board, B, c, 5), i, j) == HasO(board, i, j)
  {
    UpStep(row, col, i, j);
    MaskUpCell(row, col, i, j, B);
    ShlUpdateBits(board, B, c, 5, OBit(i, j));
  }

  lemma UpRestX(row: int, col: int, board: nat, B: nat, c: nat, i: int, j: int)
    requires IsCell(row, col) && UpMasked(row, col, B) && c == 4 - col && IsCell(i, j) && !InLine(Up, row, col, i, j)
    ensures HasX(ShlUpdate(board, B, c, 5), i, j) == HasX(board, i, j)
  {
    UpStep(row, col, i, j);
    MaskUpCell(row, col, i, j, B);
    ShlUpdateBits(board, B, c, 5, XBit(i, j));
  }

  lemma UpOffField(row: int, col: int, board: nat, B: nat, c: nat, k: nat)
    requires IsCell(row, col) && UpMasked(row, col, B) && c == 4 - col && !FieldBit(k)
    ensures Bit(ShlUpdate(board, B, c, 5), k) == Bit(board, k)
  {
    MaskUpArith(row, col, 0, 0, k);
    assert !Bit(B, k);
    ShlUpdateBits(board, B, c, 5, k);
  }

  lemma UpCell(row: int, col: int, board: nat, B: nat, c: nat, i: int, j: int)
    requires IsCell(row, col) && UpMasked(row, col, B) && c == 4 - col && IsCell(i, j)
    ensures CellShifted(Up, row, col, board, ShlUpdate(board, B, c, 5), i, j)
  {
    if (i, j) == Entry(Up, row, col) {
      UpEntryO(row, col, board, B, c, i, j);
      UpEntryX(row, col, board, B, c, i, j);
    } else if InLine(Up, row, col, i, j) {
      UpLineO(row, col, board, B, c, i, j);
      UpLineX(row, col, board, B, c, i, j);
    } else {
      UpRestO(row, col, board, B, c, i, j);
      UpRestX(row, col, board, B, c, i, j);
    }
  }

  lemma UpUpdateShifted(row: int, col: int, board: nat, B: nat, c: nat)
    requires IsCell(row, col) && UpMasked(row, col, B) && c == 4 - col
    ensures Shifted(Up, row, col, board, ShlUpdate(board, B, c, 5))
  {
    var after := ShlUpdate(board, B, c, 5);
    forall i, j | IsCell(i, j)
      ensures CellShifted(Up, row, col, board, after, i, j)
    {
      UpCell(row, col, board, B, c, i, j);
    }
    forall k: nat | !FieldBit(k)
      ensures Bit(after, k) == Bit(board, k)
    {
      UpOffField(row, col, board, B, c, k);
    }
  }

  /** `shift_up` makes the Up shift. */
  lemma UpShifted(row: int, col: int, board: nat)
    requires IsCell(row, col)
    ensures Shifted(Up, row, col, board, UpBoard(row, col, board))
  {
    MaskUpIs(row, col);
    UpUpdateShifted(row, col, board, MaskUp(row, col), 24 - (col + 20));
  }

  // --- shift_down --------------------------------------------------------

  /** The bits of the mask of `shift_down`: the O and X bits of the cells from row 0 to `row` of `col`. */
  predicate InMaskDown(row: int, col: int, k: int)
  {
    (24 - col - 5 * row <= k <= 24 - col && (k + col) % 5 == 4) || (56 - col - 5 * row <= k <= 56 - col && (k + col) % 5 == 1)
  }

  /** `B` has exactly the bits of the mask of `shift_down`. */
  ghost predicate DownMasked(row: int, col: int, B: nat)
  {
    forall k: nat :: Bit(B, k) == InMaskDown(row, col, k)
  }

  lemma MaskDownRanges(row: int, col: int, k: nat)
    requires IsCell(row, col)
    ensures var r1 := PyRange(24 - col, 24 - col - row * 5 - 1, -5);
      var r2 := PyRange(56 - col, 56 - col - row * 5 - 1, -5);
      (k in r1 || k in r2) == InMaskDown(row, col, k)
  {
    var r1 := PyRange(24 - col, 24 - col - row * 5 - 1, -5);
    var r2 := PyRange(56 - col, 56 - col - row * 5 - 1, -5);
    InRangeDown(24 - col, 24 - col - row * 5 - 1, -5, k);
    InRangeDown(56 - col, 56 - col - row * 5 - 1, -5, k);
    DownArith(row, col, k, k in r1, k in r2);
  }

  lemma MaskDownBits(row: int, col: int, k: nat)
    requires IsCell(row, col)
    ensures Bit(MaskDown(row, col), k) == InMaskDown(row, col, k)
  {
    var r1 := PyRange(24 - col, 24 - col - row * 5 - 1, -5);
    var r2 := PyRange(56 - col, 56 - col - row * 5 - 1, -5);
    assert MaskDown(row, col) == OrBits(OrBits(0, r1), r2);
    BitTwoRanges(r1, r2, k);
    MaskDownRanges(row, col, k);
  }

  lemma MaskDownIs(row: int, col: int)
    requires IsCell(row, col)
    ensures DownMasked(row, col, MaskDown(row, col))
  {
    forall k: nat
      ensures Bit(MaskDown(row, col), k) == InMaskDown(row, col, k)
    {
      MaskDownBits(row, col, k);
    }
  }

  /** The mask covers the cells of the line, and no bit outside the fields. */
  lemma MaskDownArith(row: int, col: int, i: int, j: int, k: nat)
    requires IsCell(row, col) && IsCell(i, j)
    ensures InMaskDown(row, col, OBit(i, j)) == InLine(Down, row, col, i, j)
    ensures InMaskDown(row, col, XBit(i, j)) == InLine(Down, row, col, i, j)
    ensures !FieldBit(k) ==> !InMaskDown(row, col, k)
  {
    CellMod(i, j, col);
  }

  lemma MaskDownCell(row: int, col: int, i: int, j: int, B: nat)
    requires IsCell(row, col) && IsCell(i, j) && DownMasked(row, col, B)
    ensures Bit(B, OBit(i, j)) == InLine(Down, row, col, i, j)
    ensures Bit(B, XBit(i, j)) == InLine(Down, row, col, i, j)
  {
    MaskDownArith(row, col, i, j, 0);
  }

  /** Where the new O goes, and where the pieces of the line come from. */
  lemma DownStep(row: int, col: int, i: int, j: int)
    requires IsCell(row, col) && IsCell(i, j)
    ensures OBit(i, j) == 24 - col <==> (i, j) == Entry(Down, row, col)
    ensures XBit(i, j) != 24 - col
    ensures InLine(Down, row, col, i, j) && (i, j) != Entry(Down, row, col) ==>
      var (bi, bj) := Behind(Down, i, j);
      && IsCell(bi, bj) && InLine(Down, row, col, bi, bj)
      && OBit(bi, bj) == OBit(i, j) + 5 && XBit(bi, bj) == XBit(i, j) + 5
  {
  }

  /** The entry cell is on the line, and the bit its X half would take over
      lies outside the mask. */
  lemma DownEntryStep(row: int, col: int, i: int, j: int)
    requires IsCell(row, col) && (i, j) == Entry(Down, row, col)
    ensures IsCell(i, j) && InLine(Down, row, col, i, j)
    ensures OBit(i, j) == 24 - col && XBit(i, j) == 56 - col
    ensures !InMaskDown(row, col, 61 - col)
  {
  }

  lemma DownEntryO(row: int, col: int, board: nat, B: nat, c: nat, i: int, j: int)
    requires IsCell(row, col) && DownMasked(row, col, B) && c == 24 - col && (i, j) == Entry(Down, row, col)
    ensures HasO(ShrUpdate(board, B, c, 5), i, j)
  {
    DownEntryStep(row, col, i, j);
    ShrUpdateBits(board, B, c, 5, OBit(i, j));
  }

  lemma DownEntryX(row: int, col: int, board: nat, B: nat, c: nat, i: int, j: int)
    requires IsCell(row, col) && DownMasked(row, col, B) && c == 24 - col && (i, j) == Entry(Down, row, col)
    ensures !HasX(ShrUpdate(board, B, c, 5), i, j)
  {
    DownEntryStep(row, col, i, j);
    MaskDownCell(row, col, i, j, B);
    assert !Bit(B, 61 - col);
    ShrClears(board, B, c, 5, XBit(i, j), 61 - col);
  }

  lemma DownLineO(row: int, col: int, board: nat, B: nat, c: nat, i: int, j: int)
    requires IsCell(row, col) && DownMasked(row, col, B) && c == 24 - col && IsCell(i, j)
    requires InLine(Down, row, col, i, j) && (i, j) != Entry(Down, row, col)
    ensures var (bi, bj) := Behind(Down, i, j);
      IsCell(bi, bj) && HasO(ShrUpdate(board, B, c, 5), i, j) == HasO(board, bi, bj)
  {
    var (bi, bj) := Behind(Down, i, j);
    DownStep(row, col, i, j);
    MaskDownCell(row, col, i, j, B);
    MaskDownCell(row, col, bi, bj, B);
    ShrMoveBits(board, B, c, 5, OBit(i, j), OBit(bi, bj));
  }

  lemma DownLineX(row: int, col: int, board: nat, B: nat, c: nat, i: int, j: int)
    requires IsCell(row, col) && DownMasked(row, col, B) && c == 24 - col && IsCell(i, j)
    requires InLine(Down, row, col, i, j) && (i, j) != Entry(Down, row, col)
    ensures var (bi, bj) := Behind(Down, i, j);
      IsCell(bi, bj) && HasX(ShrUpdate(board, B, c, 5), i, j) == HasX(board, bi, bj)
  {
    var (bi, bj) := Behind(Down, i, j);
    DownStep(row, col, i, j);
    MaskDownCell(row, col, i, j, B);
    MaskDownCell(row, col, bi, bj, B);
    ShrMoveBits(board, B, c, 5, XBit(i, j), XBit(bi, bj));
  }

  lemma DownRestO(row: int, col: int, board: nat, B: nat, c: nat, i: int, j: int)
    requires IsCell(row, col) && DownMasked(row, col, B) && c == 24 - col && IsCell(i, j) && !InLine(Down, row, col, i, j)
    ensures HasO(ShrUpdate(board, B, c, 5), i, j) == HasO(board, i, j)
  {
    DownStep(row, col, i, j);
    MaskDownCell(row, col, i, j, B);
    ShrUpdateBits(board, B, c, 5, OBit(i, j));
  }

  lemma DownRestX(row: int, col: int, board: nat, B: nat, c: nat, i: int, j: int)
    requires IsCell(row, col) && DownMasked(row, col, B) && c == 24 - col && IsCell(i, j) && !InLine(Down, row, col, i, j)
    ensures HasX(ShrUpdate(board, B, c, 5), i, j) == HasX(board, i, j)
  {
    DownStep(row, col, i, j);
    MaskDownCell(row, col, i, j, B);
    ShrUpdateBits(board, B, c, 5, XBit(i, j));
  }

  lemma DownOffField(row: int, col: int, board: nat, B: nat, c: nat, k: nat)
    requires IsCell(row, col) && DownMasked(row, col, B) && c == 24 - col && !FieldBit(k)
    ensures Bit(ShrUpdate(board, B, c, 5), k) == Bit(board, k)
  {
    MaskDownArith(row, col, 0, 0, k);
    assert !Bit(B, k);
    ShrUpdateBits(board, B, c, 5, k);
  }

  lemma DownCell(row: int, col: int, board: nat, B: nat, c: nat, i: int, j: int)
    requires IsCell(row, col) && DownMasked(row, col, B) && c == 24 - col && IsCell(i, j)
    ensures CellShifted(Down, row, col, board, ShrUpdate(board, B, c, 5), i, j)
  {
    if (i, j) == Entry(Down, row, col) {
      DownEntryO(row, col, board, B, c, i, j);
      DownEntryX(row, col, board, B, c, i, j);
    } else if InLine(Down, row, col, i, j) {
      DownLineO(row, col, board, B, c, i, j);
      DownLineX(row, col, board, B, c, i, j);
    } else {
      DownRestO(row, col, board, B, c, i, j);
      DownRestX(row, col, board, B, c, i, j);
    }
  }

  lemma DownUpdateShifted(row: int, col: int, board: nat, B: nat, c: nat)
    requires IsCell(row, col) && DownMasked(row, col, B) && c == 24 - col
    ensures Shifted(Down, row, col, board, ShrUpdate(board, B, c, 5))
  {
    var after := ShrUpdate(board, B, c, 5);
    forall i, j | IsCell(i, j)
      ensures CellShifted(Down, row, col, board, after, i, j)
    {
      DownCell(row, col, board, B, c, i, j);
    }
    forall k: nat | !FieldBit(k)
      ensures Bit(after, k) == Bit(board, k)
    {
      DownOffField(row, col, board, B, c, k);
    }
  }

  /** `shift_down` makes the Down shift. */
  lemma DownShifted(row: int, col: int, board: nat)
    requires IsCell(row, col)
    ensures Shifted(Down, row, col, board, DownBoard(row, col, board))
  {
    MaskDownIs(row, col);
    DownUpdateShifted(row, col, board, MaskDown(row, col), 24 - col);
  }
}
