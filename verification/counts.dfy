/** Piece counts: how many cubes of each player a position shows, and how a
    move of `generate_moves` changes them. */
module Counts {
  import opened Board
  import opened Shifts
  import opened Players
  import opened MoveGen
  import opened Symmetry

  /** Cell (i, j) shows a cube of `player`: an X for "X", an O otherwise. */
  predicate Shows(b: nat, player: string, i: int, j: int)
    requires IsCell(i, j)
  {
    if player == "X" then HasX(b, i, j) else HasO(b, i, j)
  }

  function One(p: bool): nat
  {
    if p then 1 else 0
  }

  /** The cubes of `player` in row `i`. */
  function RowCount(b: nat, player: string, i: int): nat
    requires 0 <= i < 5
  {
    One(Shows(b, player, i, 0)) + One(Shows(b, player, i, 1)) + One(Shows(b, player, i, 2))
      + One(Shows(b, player, i, 3)) + One(Shows(b, player, i, 4))
  }

  /** The cubes of `player` in column `j`. */
  function ColCount(b: nat, player: string, j: int): nat
    requires 0 <= j < 5
  {
    One(Shows(b, player, 0, j)) + One(Shows(b, player, 1, j)) + One(Shows(b, player, 2, j))
      + One(Shows(b, player, 3, j)) + One(Shows(b, player, 4, j))
  }

  /** The cubes of `player` on the 25 cells. */
  function Pieces(b: nat, player: string): nat
  {
    RowCount(b, player, 0) + RowCount(b, player, 1) + RowCount(b, player, 2)
      + RowCount(b, player, 3) + RowCount(b, player, 4)
  }

  lemma PiecesByColumns(b: nat, player: string)
    ensures Pieces(b, player)
         == ColCount(b, player, 0) + ColCount(b, player, 1) + ColCount(b, player, 2)
          + ColCount(b, player, 3) + ColCount(b, player, 4)
  {
  }

  /** A row a sideways shift does not touch keeps its count. */
  lemma RowKept(d: Direction, row: int, col: int, before: nat, after: nat, player: string, i: int)
    requires IsCell(row, col) && Shifted(d, row, col, before, after)
    requires (d == Left || d == Right) && 0 <= i < 5 && i != row
    ensures RowCount(after, player, i) == RowCount(before, player, i)
  {
    RowCells(d, row, col, before, after, i);
  }

  /** A column an upward or downward shift does not touch keeps its
      count. */
  lemma ColKept(d: Direction, row: int, col: int, before: nat, after: nat, player: string, j: int)
    requires IsCell(row, col) && Shifted(d, row, col, before, after)
    requires (d == Up || d == Down) && 0 <= j < 5 && j != col
    ensures ColCount(after, player, j) == ColCount(before, player, j)
  {
    ColCells(d, row, col, before, after, j);
  }

  /** The row of a sideways shift loses the taken cube and gains the O put
      on the entry cell. */
  lemma RowShifted(d: Direction, row: int, col: int, before: nat, after: nat, player: string)
    requires IsCell(row, col) && Shifted(d, row, col, before, after)
    requires d == Left || d == Right
    ensures RowCount(after, player, row)
         == RowCount(before, player, row) - One(Shows(before, player, row, col)) + One(player != "X")
  {
    RowCells(d, row, col, before, after, row);
  }

  /** The column of an upward or downward shift loses the taken cube and
      gains the O put on the entry cell. */
  lemma ColShifted(d: Direction, row: int, col: int, before: nat, after: nat, player: string)
    requires IsCell(row, col) && Shifted(d, row, col, before, after)
    requires d == Up || d == Down
    ensures ColCount(after, player, col)
         == ColCount(before, player, col) - One(Shows(before, player, row, col)) + One(player != "X")
  {
    ColCells(d, row, col, before, after, col);
  }

  /** The five cells of row `i` after a shift. */
  lemma RowCells(d: Direction, row: int, col: int, before: nat, after: nat, i: int)
    requires IsCell(row, col) && Shifted(d, row, col, before, after) && 0 <= i < 5
    ensures CellShifted(d, row, col, before, after, i, 0) && CellShifted(d, row, col, before, after, i, 1)
    ensures CellShifted(d, row, col, before, after, i, 2) && CellShifted(d, row, col, before, after, i, 3)
    ensures CellShifted(d, row, col, before, after, i, 4)
  {
  }

  /** The five cells of column `j` after a shift. */
  lemma ColCells(d: Direction, row: int, col: int, before: nat, after: nat, j: int)
    requires IsCell(row, col) && Shifted(d, row, col, before, after) && 0 <= j < 5
    ensures CellShifted(d, row, col, before, after, 0, j) && CellShifted(d, row, col, before, after, 1, j)
    ensures CellShifted(d, row, col, before, after, 2, j) && CellShifted(d, row, col, before, after, 3, j)
    ensures CellShifted(d, row, col, before, after, 4, j)
  {
  }

  /** A shift takes the cube on (row, col) off the board and puts an O on
      the entry cell; every other cube stays. */
  lemma ShiftPieces(d: Direction, row: int, col: int, before: nat, after: nat, player: string)
    requires IsCell(row, col) && Shifted(d, row, col, before, after)
    ensures Pieces(after, player) == Pieces(before, player) - One(Shows(before, player, row, col)) + One(player != "X")
  {
    if d == Left || d == Right {
      SidewaysPieces(d, row, col, before, after, player);
    } else {
      UpDownPieces(d, row, col, before, after, player);
    }
  }

  lemma SidewaysPieces(d: Direction, row: int, col: int, before: nat, after: nat, player: string)
    requires IsCell(row, col) && Shifted(d, row, col, before, after) && (d == Left || d == Right)
    ensures Pieces(after, player) == Pieces(before, player) - One(Shows(before, player, row, col)) + One(player != "X")
  {
    RowShifted(d, row, col, before, after, player);
    forall i | 0 <= i < 5 && i != row
      ensures RowCount(after, player, i) == RowCount(before, player, i)
    {
      RowKept(d, row, col, before, after, player, i);
    }
  }

  lemma UpDownPieces(d: Direction, row: int, col: int, before: nat, after: nat, player: string)
    requires IsCell(row, col) && Shifted(d, row, col, before, after) && (d == Up || d == Down)
    ensures Pieces(after, player) == Pieces(before, player) - One(Shows(before, player, row, col)) + One(player != "X")
  {
    ColShifted(d, row, col, before, after, player);
    forall j | 0 <= j < 5 && j != col
      ensures ColCount(after, player, j) == ColCount(before, player, j)
    {
      ColKept(d, row, col, before, after, player, j);
    }
    PiecesByColumns(before, player);
    PiecesByColumns(after, player);
  }

  /** `add` of `generate_moves` at cell `i`: X keeps its cubes unless the
      taken cube was an X, and O gains the entry cube and loses the taken
      one. */
  lemma AddPieces(pos: nat, i: int, d: Direction)
    requires 0 <= i < 25
    ensures var (row, col) := CellOf(i);
      && Pieces(Add(pos, i, d), "X") == Pieces(pos, "X") - One(HasX(pos, row, col))
      && Pieces(Add(pos, i, d), "O") == Pieces(pos, "O") - One(HasO(pos, row, col)) + 1
  {
    var (row, col) := CellOf(i);
    AddShifted(pos, i, d, row, col);
    ShiftPieces(d, row, col, pos, Add(pos, i, d), "X");
    ShiftPieces(d, row, col, pos, Add(pos, i, d), "O");
  }

  /** Swapping the players exchanges the two counts of a row. */
  lemma SwapRow(b: nat, i: int)
    requires Clean(b) && 0 <= i < 5
    ensures RowCount(Swap(b), "X", i) == RowCount(b, "O", i)
    ensures RowCount(Swap(b), "O", i) == RowCount(b, "X", i)
  {
    SwapCell(b, i, 0);
    SwapCell(b, i, 1);
    SwapCell(b, i, 2);
    SwapCell(b, i, 3);
    SwapCell(b, i, 4);
  }

  /** `swap_players` exchanges the two counts. */
  lemma SwapPieces(b: nat)
    requires Clean(b)
    ensures Pieces(Swap(b), "X") == Pieces(b, "O")
    ensures Pieces(Swap(b), "O") == Pieces(b, "X")
  {
    var s := Swap(b);
    SwapRow(b, 0);
    SwapRow(b, 1);
    SwapRow(b, 2);
    SwapRow(b, 3);
    SwapRow(b, 4);
    SameRows(s, "X", b, "O");
    SameRows(s, "O", b, "X");
  }

  /** Two boards with the same count in each row have the same count. */
  lemma SameRows(b: nat, player: string, c: nat, other: string)
    requires RowCount(b, player, 0) == RowCount(c, other, 0) && RowCount(b, player, 1) == RowCount(c, other, 1)
    requires RowCount(b, player, 2) == RowCount(c, other, 2) && RowCount(b, player, 3) == RowCount(c, other, 3)
    requires RowCount(b, player, 4) == RowCount(c, other, 4)
    ensures Pieces(b, player) == Pieces(c, other)
  {
  }

  /** Any player but "X" counts O's cubes. */
  lemma PiecesOfO(b: nat, player: string)
    requires player != "X"
    ensures Pieces(b, player) == Pieces(b, "O")
  {
    RowOfO(b, player, 0);
    RowOfO(b, player, 1);
    RowOfO(b, player, 2);
    RowOfO(b, player, 3);
    RowOfO(b, player, 4);
  }

  lemma RowOfO(b: nat, player: string, i: int)
    requires player != "X" && 0 <= i < 5
    ensures RowCount(b, player, i) == RowCount(b, "O", i)
  {
    assert "O" != "X";
  }

  /** Every successor of `create_position(player)` keeps the opponent's
      cubes and gives the player one more cube when the taken cube was
      blank, the same number when it was the player's own. */
  lemma CreatePositionPieces(board: nat, player: string, k: int)
    requires Valid(board) && 0 <= k < |CreatePosition(board, player)|
    ensures var c := CreatePosition(board, player)[k];
      var opponent := if player == "X" then "O" else "X";
      && IsCell(c.row, c.col)
      && Pieces(c.board, opponent) == Pieces(board, opponent)
      && Pieces(c.board, player) == Pieces(board, player) + One(!Shows(board, player, c.row, c.col))
  {
    var pos := if player == "X" then Swap(board) else board;
    SwapInvolution(board);
    var c := CreatePosition(board, player)[k];
    GenerateMovesSound(pos, player);
    assert Legal(pos, player, c);
    LegalCell(pos, player, c);
    var i := 5 * c.row + c.col;
    AddPieces(pos, i, c.direction);
    if player == "X" {
      var add := Add(pos, i, c.direction);
      AddClean(pos, i, c.direction);
      SwapPieces(add);
      SwapPieces(board);
      SwapCell(board, c.row, c.col);
    } else {
      PiecesOfO(board, player);
      PiecesOfO(c.board, player);
    }
  }

  // ---------------------------------------------------------------------
  // The symmetries of the square move cubes without adding or removing any.

  /** A coordinate as a flip reads it. */
  function Flip(flip: bool, x: int): int
  {
    if flip then 4 - x else x
  }

  lemma FromFlip(g: Sym, i: int, j: int)
    ensures From(g, i, j)
         == if g.transpose then (Flip(g.flipRows, j), Flip(g.flipCols, i))
            else (Flip(g.flipRows, i), Flip(g.flipCols, j))
  {
  }

  lemma ApplyShows(g: Sym, b: nat, player: string, i: int, j: int)
    requires IsCell(i, j)
    ensures Shows(Apply(g, b), player, i, j)
         == if g.transpose then Shows(b, player, Flip(g.flipRows, j), Flip(g.flipCols, i))
            else Shows(b, player, Flip(g.flipRows, i), Flip(g.flipCols, j))
  {
    FromFlip(g, i, j);
    ApplyCell(g, b, i, j);
  }

  /** Without a transpose, row `i` of the image is a row of the board read
      in some order. */
  lemma ApplyRowPlain(g: Sym, b: nat, player: string, i: int)
    requires 0 <= i < 5 && !g.transpose
    ensures RowCount(Apply(g, b), player, i) == RowCount(b, player, Flip(g.flipRows, i))
  {
    ApplyShows(g, b, player, i, 0);
    ApplyShows(g, b, player, i, 1);
    ApplyShows(g, b, player, i, 2);
    ApplyShows(g, b, player, i, 3);
    ApplyShows(g, b, player, i, 4);
  }

  /** With a transpose, row `i` of the image is a column of the board. */
  lemma ApplyRowTurned(g: Sym, b: nat, player: string, i: int)
    requires 0 <= i < 5 && g.transpose
    ensures RowCount(Apply(g, b), player, i) == ColCount(b, player, Flip(g.flipCols, i))
  {
    ApplyShows(g, b, player, i, 0);
    ApplyShows(g, b, player, i, 1);
    ApplyShows(g, b, player, i, 2);
    ApplyShows(g, b, player, i, 3);
    ApplyShows(g, b, player, i, 4);
  }

  /** Each of the eight symmetries keeps both players' counts. */
  lemma ApplyPieces(g: Sym, b: nat, player: string)
    ensures Pieces(Apply(g, b), player) == Pieces(b, player)
  {
    if g.transpose {
      ApplyRowTurned(g, b, player, 0);
      ApplyRowTurned(g, b, player, 1);
      ApplyRowTurned(g, b, player, 2);
      ApplyRowTurned(g, b, player, 3);
      ApplyRowTurned(g, b, player, 4);
      PiecesByColumns(b, player);
    } else {
      ApplyRowPlain(g, b, player, 0);
      ApplyRowPlain(g, b, player, 1);
      ApplyRowPlain(g, b, player, 2);
      ApplyRowPlain(g, b, player, 3);
      ApplyRowPlain(g, b, player, 4);
    }
  }

  /** The reflections and rotations of `game.py` keep both players' counts
      on a board with no stray bits. */
  lemma ImagePieces(t: Transform, b: nat, player: string)
    requires Clean(b)
    ensures Pieces(Image(t, b), player) == Pieces(b, player)
  {
    ImageIsApply(t, b);
    ApplyPieces(Code(t), b, player);
  }
}
