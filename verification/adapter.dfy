/** The glue in `main.py` between the array engine and the bitboard:
    the nested `fromNumPy` encoder of the three Monte Carlo players'
    `make_move`, the translation of a chosen child into `(from_pos, Move)`,
    and the choice of symbols. */
module Adapter {
  import opened Bits
  import opened Board
  import opened PyRuntime
  import opened Shifts
  import opened Players
  import opened Rules
  import opened MoveGen
  import opened Winner

  /** Grids the game produces: every cell is -1, 0 or 1. */
  predicate Tidy(g: Grid)
    requires IsGrid(g)
  {
    forall i, j | 0 <= i < 5 && 0 <= j < 5 :: g[i][j] == -1 || g[i][j] == 0 || g[i][j] == 1
  }

  /** `fromNumPy` after visiting the first `n` cells in row-major order. */
  function EncodeFrom(g: Grid, n: nat): nat
    requires IsGrid(g) && n <= 25
  {
    if n == 0 then 0
    else
      var acc := EncodeFrom(g, n - 1);
      var (i, j) := ((n - 1) / 5, (n - 1) % 5);
      if g[i][j] == 0 then Or(acc, Shl(1, 24 - 5 * i - j))
      else if g[i][j] == 1 then Or(acc, Shl(1, XOffset + (24 - 5 * i - j)))
      else acc
  }

  /** `fromNumPy(np_board)`. */
  function FromNumPy(g: Grid): nat
    requires IsGrid(g)
  {
    EncodeFrom(g, 25)
  }

  /** Bit `k` belongs to one of the first `n` cells and that cell holds
      the value the encoder marks with this bit: 0 for an O bit, 1 for an
      X bit. */
  predicate Encodes(g: Grid, n: nat, k: nat)
    requires IsGrid(g) && n <= 25
  {
    || (k < 25 && 24 - k < n && g[(24 - k) / 5][(24 - k) % 5] == 0)
    || (XOffset <= k < XOffset + 25 && XOffset + 24 - k < n && g[(XOffset + 24 - k) / 5][(XOffset + 24 - k) % 5] == 1)
  }

  /** The cell visited at step `m` is (m / 5, m % 5) and its O bit is
      `24 - m`. */
  lemma StepCell(m: int, i: int, j: int, e: int)
    requires 0 <= m < 25 && i == m / 5 && j == m % 5 && e == 24 - 5 * i - j
    ensures 0 <= i < 5 && 0 <= j < 5 && e == 24 - m
  {
  }

  /** Visiting cell `m` = `n - 1` adds exactly its own bit. */
  lemma EncodesStep(g: Grid, n: nat, k: nat, m: int, i: int, j: int)
    requires IsGrid(g) && 0 < n <= 25 && m == n - 1 && 0 <= i < 5 && 0 <= j < 5 && i == m / 5 && j == m % 5
    ensures Encodes(g, n, k) <==>
      || Encodes(g, m, k)
      || (k == 24 - m && g[i][j] == 0)
      || (k == XOffset + (24 - m) && g[i][j] == 1)
  {
  }

  lemma EncodeStepBit(g: Grid, n: nat, k: nat, m: int, i: int, j: int, e: int)
    requires IsGrid(g) && 0 < n <= 25 && m == n - 1 && 0 <= i < 5 && 0 <= j < 5
    requires e == 24 - m && e == 24 - 5 * i - j
    requires Bit(EncodeFrom(g, m), k) <==> Encodes(g, m, k)
    ensures Bit(EncodeFrom(g, n), k) <==>
      || Encodes(g, m, k)
      || (k == e && g[i][j] == 0)
      || (k == XOffset + e && g[i][j] == 1)
  {
    var acc := EncodeFrom(g, m);
    assert (m / 5, m % 5) == (i, j) by {
      StepCell(m, m / 5, m % 5, 24 - 5 * (m / 5) - m % 5);
    }
    if g[i][j] == 0 {
      assert EncodeFrom(g, n) == Or(acc, Shl(1, e));
      OrPow(acc, e, k);
    } else if g[i][j] == 1 {
      assert EncodeFrom(g, n) == Or(acc, Shl(1, XOffset + e));
      OrPow(acc, XOffset + e, k);
    } else {
      assert EncodeFrom(g, n) == acc;
    }
  }

  /** Setting bit `e` adds just that bit. */
  lemma OrPow(acc: nat, e: nat, k: nat)
    ensures Bit(Or(acc, Shl(1, e)), k) <==> Bit(acc, k) || k == e
  {
    BitOr(acc, Shl(1, e), k);
    BitPow(e, k);
  }

  /** After `n` cells, bit `k` is set exactly for a visited cell holding 0
      (its O bit) or 1 (its X bit). */
  lemma {:induction false} EncodeFromBit(g: Grid, n: nat, k: nat)
    requires IsGrid(g) && n <= 25
    ensures Bit(EncodeFrom(g, n), k) <==> (
      || (k < 25 && 24 - k < n && g[(24 - k) / 5][(24 - k) % 5] == 0)
      || (XOffset <= k < XOffset + 25 && XOffset + 24 - k < n && g[(XOffset + 24 - k) / 5][(XOffset + 24 - k) % 5] == 1))
  {
    if n == 0 {
      BitZero(k);
    } else {
      var m := n - 1;
      var (i, j) := (m / 5, m % 5);
      StepCell(m, i, j, 24 - 5 * i - j);
      EncodeFromBit(g, m, k);
      EncodeStepBit(g, n, k, m, i, j, 24 - m);
      EncodesStep(g, n, k, m, i, j);
    }
  }

  /** `fromNumPy` puts an O exactly on the cells holding 0 and an X
      exactly on the cells holding 1, and sets no other bit. */
  lemma FromNumPyCells(g: Grid, r: int, c: int)
    requires IsGrid(g) && IsCell(r, c)
    ensures HasO(FromNumPy(g), r, c) <==> g[r][c] == 0
    ensures HasX(FromNumPy(g), r, c) <==> g[r][c] == 1
  {
    EncodeFromBit(g, 25, OBit(r, c));
    EncodeFromBit(g, 25, XBit(r, c));
  }

  /** The encoding of any grid is a reachable bitboard: only the two
      fields are used and no cell is in both. */
  lemma FromNumPyValid(g: Grid)
    requires IsGrid(g)
    ensures Valid(FromNumPy(g))
  {
    forall k: nat | Bit(FromNumPy(g), k)
      ensures FieldBit(k)
    {
      EncodeFromBit(g, 25, k);
    }
    forall r, c | IsCell(r, c)
      ensures !(HasO(FromNumPy(g), r, c) && HasX(FromNumPy(g), r, c))
    {
      FromNumPyCells(g, r, c);
    }
  }

  /** On grids of -1, 0 and 1 the encoding loses nothing. */
  lemma FromNumPyInjective(g: Grid, h: Grid)
    requires IsGrid(g) && IsGrid(h) && Tidy(g) && Tidy(h)
    ensures FromNumPy(g) == FromNumPy(h) <==> g == h
  {
    if FromNumPy(g) == FromNumPy(h) {
      forall i, j | 0 <= i < 5 && 0 <= j < 5
        ensures g[i][j] == h[i][j]
      {
        FromNumPyCells(g, i, j);
        FromNumPyCells(h, i, j);
      }
      GridExt(g, h);
    }
  }

  // ---------------------------------------------------------------------
  // From a chosen child to `(from_pos, Move)`.

  /** The `if`/`elif` chain on `ret_board.direction`. */
  function Translate(d: Direction): Move
  {
    match d
    case Up => BOTTOM
    case Down => TOP
    case Left => RIGHT
    case Right => LEFT
  }

  /** `make_move`'s answer for the chosen child: `from_pos` is
      `(col, row)`. */
  function Answer(c: Child): (answer: ((int, int), Move))
  {
    ((c.col, c.row), Translate(c.direction))
  }

  /** The translated `Move` names the edge where the bitboard shift puts
      its new piece, and the directions `generate_moves` keeps from a
      border cell are exactly the slides `__slide` accepts there. */
  lemma TranslateSpec(d: Direction, i: int)
    requires i in Frontiers
    ensures Dest(Translate(d), CellOf(i).0, CellOf(i).1) == Entry(d, CellOf(i).0, CellOf(i).1)
    ensures d in Directions(i) <==> SlideAcceptable(CellOf(i).0, CellOf(i).1, Translate(d))
  {
    DirectionsSpec(i, d);
    EdgeRows(i);
    SlideAcceptableSpec(CellOf(i).0, CellOf(i).1, Translate(d));
  }

  /** `Translate` loses nothing: distinct directions give distinct moves. */
  lemma TranslateInjective(d: Direction, e: Direction)
    ensures Translate(d) == Translate(e) <==> d == e
  {
  }

  /** `my_symbol`: player index 0 plays "O". */
  function MySymbol(idx: int): string
  {
    if idx == 0 then "O" else "X"
  }

  /** `opponent`. */
  function Opponent(symbol: string): string
  {
    if symbol == "X" then "O" else "X"
  }

  /** The player with index 0 owns the cubes written as 0, which the
      encoder puts in the O field; index 1 owns the X field; the opponent
      is always the other symbol. */
  lemma SymbolsMatchFields(g: Grid, idx: int, r: int, c: int)
    requires IsGrid(g) && IsCell(r, c) && (idx == 0 || idx == 1)
    ensures MySymbol(idx) == "O" ==> (HasO(FromNumPy(g), r, c) <==> g[r][c] == idx)
    ensures MySymbol(idx) == "X" ==> (HasX(FromNumPy(g), r, c) <==> g[r][c] == idx)
    ensures Opponent(MySymbol(idx)) != MySymbol(idx)
    ensures IsPlayer(MySymbol(idx)) && IsPlayer(Opponent(MySymbol(idx)))
  {
    FromNumPyCells(g, r, c);
  }

  // ---------------------------------------------------------------------
  // The two engines agree.

  /** Sliding in the grid is shifting in the bitboard: cell (i, j) of the
      grid after player 0's move matches what the shift does to the
      encoded board there. */
  lemma SlideCellShifted(g: Grid, r: int, c: int, d: Direction, h: Grid, i: int, j: int)
    requires IsGrid(g) && IsGrid(h) && IsCell(r, c) && IsCell(i, j)
    requires forall p, q | 0 <= p < 5 && 0 <= q < 5 :: h[p][q] == SlidValue(g, r, c, Translate(d), 0, p, q)
    ensures CellShifted(d, r, c, FromNumPy(g), FromNumPy(h), i, j)
  {
    FromNumPyCells(h, i, j);
    FromNumPyCells(g, i, j);
    var (bi, bj) := Behind(d, i, j);
    if IsCell(bi, bj) {
      FromNumPyCells(g, bi, bj);
    }
  }

  /** A grid slid by player 0, encoded, is the shift of the encoded grid. */
  lemma SlidIsShift(g: Grid, r: int, c: int, d: Direction, h: Grid)
    requires IsGrid(g) && IsGrid(h) && IsCell(r, c)
    requires forall p, q | 0 <= p < 5 && 0 <= q < 5 :: h[p][q] == SlidValue(g, r, c, Translate(d), 0, p, q)
    ensures Shift(d, "O", r, c, FromNumPy(g)) == Ok(FromNumPy(h))
  {
    forall i, j | IsCell(i, j)
      ensures CellShifted(d, r, c, FromNumPy(g), FromNumPy(h), i, j)
    {
      SlideCellShifted(g, r, c, d, h, i, j);
    }
    FromNumPyValid(g);
    FromNumPyValid(h);
    ShiftSpec(d, "O", r, c, FromNumPy(g), FromNumPy(h));
  }

  /** A border cell of `generate_moves` and a direction kept for it make
      a slide `__slide` accepts from that cell. */
  lemma FrontierAcceptable(r: int, c: int, d: Direction)
    requires IsCell(r, c) && 5 * r + c in Frontiers && d in Directions(5 * r + c)
    ensures OnBorder(r, c) && Dest(Translate(d), r, c) != (r, c)
  {
    NumberCell(r, c);
    TranslateSpec(d, 5 * r + c);
    SlideAcceptableSpec(r, c, Translate(d));
  }

  /** The move of player `id` from such a cell holding no opponent cube
      is accepted, and its grid is the slide. */
  lemma FrontierMoveAccepted(g: Grid, r: int, c: int, d: Direction, id: int)
    requires IsGrid(g) && IsCell(r, c) && 5 * r + c in Frontiers && d in Directions(5 * r + c)
    requires (id == 0 || id == 1) && (g[r][c] == -1 || g[r][c] == id)
    ensures MakeMove(g, (c, r), Translate(d), id).Ok? && MakeMove(g, (c, r), Translate(d), id).value.0
    ensures forall p, q | 0 <= p < 5 && 0 <= q < 5 ::
      MakeMove(g, (c, r), Translate(d), id).value.1[p][q] == SlidValue(g, r, c, Translate(d), id, p, q)
  {
    FrontierAcceptable(r, c, d);
    MoveAccepts(g, c, r, Translate(d), id);
    MoveAccepted(g, c, r, Translate(d), id);
  }

  /** Player 0's move in the grid from a cell `generate_moves` may take,
      in the translated direction, is accepted, and its grid, encoded, is
      `shift_*("O", ...)` of the encoded grid. */
  lemma MoveAgreesO(g: Grid, r: int, c: int, d: Direction)
    requires IsGrid(g) && IsCell(r, c) && 5 * r + c in Frontiers && d in Directions(5 * r + c)
    requires g[r][c] == -1 || g[r][c] == 0
    ensures MakeMove(g, (c, r), Translate(d), 0).Ok?
    ensures MakeMove(g, (c, r), Translate(d), 0).value.0
    ensures Shift(d, "O", r, c, FromNumPy(g)) == Ok(FromNumPy(MakeMove(g, (c, r), Translate(d), 0).value.1))
  {
    FrontierMoveAccepted(g, r, c, d, 0);
    SlidIsShift(g, r, c, d, MakeMove(g, (c, r), Translate(d), 0).value.1);
  }

  /** The grid with the players' cubes exchanged. */
  function Flip(g: Grid): (f: Grid)
    requires IsGrid(g)
    ensures IsGrid(f)
  {
    seq(5, i requires 0 <= i < 5 => seq(5, j requires 0 <= j < 5 =>
      if g[i][j] == 0 then 1 else if g[i][j] == 1 then 0 else g[i][j]))
  }

  /** Exchanging the players in the grid is `swap_players` on its
      encoding. */
  lemma FlipIsSwap(g: Grid)
    requires IsGrid(g)
    ensures FromNumPy(Flip(g)) == Swap(FromNumPy(g))
  {
    var e := FromNumPy(g);
    FromNumPyValid(g);
    FromNumPyValid(Flip(g));
    SwapClean(e);
    forall r, c | IsCell(r, c)
      ensures HasO(FromNumPy(Flip(g)), r, c) == HasO(Swap(e), r, c)
      ensures HasX(FromNumPy(Flip(g)), r, c) == HasX(Swap(e), r, c)
    {
      FromNumPyCells(g, r, c);
      FromNumPyCells(Flip(g), r, c);
      SwapCell(e, r, c);
    }
    SameCells(FromNumPy(Flip(g)), Swap(e));
  }

  /** Exchanging the players commutes with a slide of player 1's cube. */
  lemma FlipSlid(g: Grid, r: int, c: int, s: Move, h: Grid)
    requires IsGrid(g) && IsGrid(h) && IsCell(r, c)
    requires forall p, q | 0 <= p < 5 && 0 <= q < 5 :: h[p][q] == SlidValue(g, r, c, s, 1, p, q)
    ensures forall p, q | 0 <= p < 5 && 0 <= q < 5 :: Flip(h)[p][q] == SlidValue(Flip(g), r, c, s, 0, p, q)
  {
  }

  /** A grid slid by player 1, encoded, is the O shift of the swapped
      encoding, swapped. */
  lemma SlidIsSwappedShift(g: Grid, r: int, c: int, d: Direction, h: Grid)
    requires IsGrid(g) && IsGrid(h) && IsCell(r, c)
    requires forall p, q | 0 <= p < 5 && 0 <= q < 5 :: h[p][q] == SlidValue(g, r, c, Translate(d), 1, p, q)
    ensures Shift(d, "O", r, c, Swap(FromNumPy(g))) == Ok(Swap(FromNumPy(h)))
  {
    FlipSlid(g, r, c, Translate(d), h);
    SlidIsShift(Flip(g), r, c, d, Flip(h));
    FlipIsSwap(g);
    FlipIsSwap(h);
  }

  lemma SwapBackEncoding(h: Grid)
    requires IsGrid(h)
    ensures Swap(Swap(FromNumPy(h))) == FromNumPy(h)
  {
    FromNumPyValid(h);
    SwapInvolution(FromNumPy(h));
  }

  /** Player 1's move in the grid from a cell `generate_moves` may take
      for X, in the translated direction, is accepted, and its grid,
      encoded, is the child `generate_moves` stores for X: the O shift of
      the swapped board, swapped back. */
  lemma MoveAgreesX(g: Grid, r: int, c: int, d: Direction)
    requires IsGrid(g) && IsCell(r, c) && 5 * r + c in Frontiers && d in Directions(5 * r + c)
    requires g[r][c] == -1 || g[r][c] == 1
    ensures MakeMove(g, (c, r), Translate(d), 1).Ok?
    ensures MakeMove(g, (c, r), Translate(d), 1).value.0
    ensures Shift(d, "O", r, c, Swap(FromNumPy(g))).Ok?
    ensures Swap(Shift(d, "O", r, c, Swap(FromNumPy(g))).value) == FromNumPy(MakeMove(g, (c, r), Translate(d), 1).value.1)
  {
    FrontierMoveAccepted(g, r, c, d, 1);
    var h := MakeMove(g, (c, r), Translate(d), 1).value.1;
    SlidIsSwappedShift(g, r, c, d, h);
    SwapBackEncoding(h);
  }

  /** Line `k` of `Game.check_winner` is line `WinnerLine(k)` of
      `WINNING_COMBS`: the array engine tries rows before columns. */
  function WinnerLine(k: nat): (j: nat)
    requires k < 12
    ensures j < 12 && forall t | 0 <= t < 5 :: GridLine(k, t) == LineCell(j, t)
  {
    if k < 5 then k + 5 else if k < 10 then k - 5 else k
  }

  /** On a grid of -1, 0 and 1, a line is uniform exactly when one player
      fills it in the encoding, and its value says which. */
  lemma UniformIsLine(g: Grid, k: nat)
    requires IsGrid(g) && Tidy(g) && k < 12
    ensures var v := g[GridLine(k, 0).0][GridLine(k, 0).1];
      && (Uniform(g, k) && v == 0 <==> OLine(FromNumPy(g), WinnerLine(k)))
      && (Uniform(g, k) && v == 1 <==> XLine(FromNumPy(g), WinnerLine(k)))
      && (Uniform(g, k) ==> v == 0 || v == 1)
  {
    forall t | 0 <= t < 5
      ensures HasO(FromNumPy(g), GridLine(k, t).0, GridLine(k, t).1) <==> g[GridLine(k, t).0][GridLine(k, t).1] == 0
      ensures HasX(FromNumPy(g), GridLine(k, t).0, GridLine(k, t).1) <==> g[GridLine(k, t).0][GridLine(k, t).1] == 1
    {
      FromNumPyCells(g, GridLine(k, t).0, GridLine(k, t).1);
    }
  }

  /** Some line of the grid is uniform exactly when some line of the
      encoding is filled by one player. */
  lemma SomeLineAgrees(g: Grid)
    requires IsGrid(g) && Tidy(g)
    ensures (forall k | 0 <= k < 12 :: !Uniform(g, k)) <==> NoLineFrom(FromNumPy(g), 0)
  {
    var e := FromNumPy(g);
    if forall k | 0 <= k < 12 :: !Uniform(g, k) {
      forall j | 0 <= j < 12
        ensures !OLine(e, j) && !XLine(e, j)
      {
        var k := if j < 5 then j + 5 else if j < 10 then j - 5 else j;
        assert WinnerLine(k) == j;
        UniformIsLine(g, k);
      }
    } else {
      var k :| 0 <= k < 12 && Uniform(g, k);
      UniformIsLine(g, k);
    }
  }

  /** The two engines agree on whether a line is complete: on a grid of
      -1, 0 and 1, `Game.check_winner` answers -1 exactly when no line of
      the encoding is filled by one player, and names a player only when
      that player fills a line. So `State.check_winner` answers "-" only
      when `Game.check_winner` answers -1, and "D" is the only other answer
      it can give then. */
  lemma GameWinnerAgrees(g: Grid)
    requires IsGrid(g) && Tidy(g)
    ensures GameWinner(g) == -1 <==> NoLineFrom(FromNumPy(g), 0)
    ensures GameWinner(g) == 0 ==> exists j | 0 <= j < 12 :: OLine(FromNumPy(g), j)
    ensures GameWinner(g) == 1 ==> exists j | 0 <= j < 12 :: XLine(FromNumPy(g), j)
    ensures GameWinner(g) == -1 || GameWinner(g) == 0 || GameWinner(g) == 1
    ensures CheckWinner(FromNumPy(g)) == NoWinner ==> GameWinner(g) == -1
    ensures GameWinner(g) == -1 ==> CheckWinner(FromNumPy(g)) == NoWinner || CheckWinner(FromNumPy(g)) == Draw
  {
    ScanLinesSpec(g, 0);
    SomeLineAgrees(g);
    CheckWinnerCases(FromNumPy(g));
    if GameWinner(g) != -1 {
      var h :| 0 <= h < 12 && Uniform(g, h) && g[GridLine(h, 0).0][GridLine(h, 0).1] == GameWinner(g);
      UniformIsLine(g, h);
    }
  }

  /** `make_move` answers with a successor of `create_position` on the
      encoded grid: `Game.move` accepts that answer for the player, and the
      grid it leaves encodes to the successor's board. */
  lemma AnswerAccepted(g: Grid, idx: int, k: int)
    requires IsGrid(g) && Tidy(g) && (idx == 0 || idx == 1)
    requires 0 <= k < |CreatePosition(FromNumPy(g), MySymbol(idx))|
    ensures var c := CreatePosition(FromNumPy(g), MySymbol(idx))[k];
      var r := MakeMove(g, Answer(c).0, Answer(c).1, idx);
      r.Ok? && r.value.0 && FromNumPy(r.value.1) == c.board
  {
    var e := FromNumPy(g);
    var player := MySymbol(idx);
    var pos := if player == "X" then Swap(e) else e;
    var c := CreatePosition(e, player)[k];
    GenerateMovesSound(pos, player);
    assert Legal(pos, player, c);
    LegalCell(pos, player, c);
    FromNumPyValid(g);
    FromNumPyCells(g, c.row, c.col);
    if idx == 0 {
      MoveAgreesO(g, c.row, c.col, c.direction);
    } else {
      SwapCell(e, c.row, c.col);
      MoveAgreesX(g, c.row, c.col, c.direction);
    }
  }
}
