/** The array rules engine of `game.py`: `Game.__take`, `Game.__slide`,
    `Game.__move` and `Game.check_winner` on a 5x5 grid of integers where
    -1 is an empty cube and 0 and 1 are the two players' cubes.

    Coordinates are Python integers and are looked up the way numpy indexes
    an array: -5..-1 count from the far end, anything else outside 0..4
    raises `IndexError`. */
module Rules {
  import opened PyRuntime

  /** `Move`: the edge the taken cube is put back on. */
  datatype Move = TOP | BOTTOM | LEFT | RIGHT

  type Grid = seq<seq<int>>

  predicate IsGrid(g: Grid)
  {
    |g| == 5 && forall r | 0 <= r < 5 :: |g[r]| == 5
  }

  /** An index numpy accepts on an axis of length 5. */
  predicate InBounds(x: int)
  {
    -5 <= x < 5
  }

  /** The position a numpy index refers to. */
  function Norm(x: int): (n: int)
    requires InBounds(x)
    ensures 0 <= n < 5
    ensures 0 <= x ==> n == x
  {
    if x < 0 then x + 5 else x
  }

  /** `g[(r, c)]` */
  function At(g: Grid, r: int, c: int): int
    requires IsGrid(g) && InBounds(r) && InBounds(c)
  {
    g[Norm(r)][Norm(c)]
  }

  /** `g[(r, c)] = v`: only that cell changes. */
  function Put(g: Grid, r: int, c: int, v: int): (h: Grid)
    requires IsGrid(g) && InBounds(r) && InBounds(c)
    ensures IsGrid(h)
    ensures forall i, j | 0 <= i < 5 && 0 <= j < 5 ::
      h[i][j] == if i == Norm(r) && j == Norm(c) then v else g[i][j]
  {
    g[Norm(r) := g[Norm(r)][Norm(c) := v]]
  }

  // ---------------------------------------------------------------------
  // `__take`

  /** The border test of `__take`, evaluated on the raw coordinates. */
  predicate TakeBorder(r: int, c: int)
  {
    (r == 0 && c < 5) || (r == 4 && c < 5) || (c == 0 && r < 5) || (c == 4 && r < 5)
  }

  /** `__take(from_pos, player_id)`: the flag it returns and the grid after
      it. */
  function Take(g: Grid, r: int, c: int, id: int): (t: Result<(bool, Grid)>)
    requires IsGrid(g)
    ensures t.Ok? ==> IsGrid(t.value.1)
  {
    if !TakeBorder(r, c) then Ok((false, g))
    else if !(InBounds(r) && InBounds(c)) then Raise(IndexError)
    else if At(g, r, c) < 0 || At(g, r, c) == id then Ok((true, Put(g, r, c, id)))
    else Ok((false, g))
  }

  // ---------------------------------------------------------------------
  // `__slide`

  /** `from_pos in SIDES`: the raw coordinates are a corner. */
  predicate IsCorner(r: int, c: int)
  {
    (r, c) in [(0, 0), (0, 4), (4, 0), (4, 4)]
  }

  /** `acceptable` of `__slide`. */
  predicate SlideAcceptable(r: int, c: int, s: Move)
  {
    if !IsCorner(r, c) then
      || (r == 0 && (s == BOTTOM || s == LEFT || s == RIGHT))
      || (r == 4 && (s == TOP || s == LEFT || s == RIGHT))
      || (c == 0 && (s == BOTTOM || s == TOP || s == RIGHT))
      || (c == 4 && (s == BOTTOM || s == TOP || s == LEFT))
    else
      || ((r, c) == (0, 0) && (s == BOTTOM || s == RIGHT))
      || ((r, c) == (4, 0) && (s == TOP || s == RIGHT))
      || ((r, c) == (0, 4) && (s == BOTTOM || s == LEFT))
      || ((r, c) == (4, 4) && (s == TOP || s == LEFT))
  }

  /** The cell at position `i` of row `fixed` (when `alongRow`) or of
      column `fixed`. */
  function LineAt(alongRow: bool, fixed: int, i: int): (int, int)
  {
    if alongRow then (fixed, i) else (i, fixed)
  }

  predicate IndicesInBounds(xs: seq<int>, delta: int)
  {
    forall k | 0 <= k < |xs| :: InBounds(xs[k]) && InBounds(xs[k] + delta)
  }

  /** The copy loops of `__slide`: for each `i` of `xs` in turn, the cell
      at `i` of the line takes the value at `i + delta`. */
  function CopyLoop(g: Grid, alongRow: bool, fixed: int, xs: seq<int>, delta: int): (h: Grid)
    requires IsGrid(g) && InBounds(fixed) && IndicesInBounds(xs, delta)
    ensures IsGrid(h)
    decreases |xs|
  {
    if |xs| == 0 then g
    else
      var (r, c) := LineAt(alongRow, fixed, xs[0]);
      var (sr, sc) := LineAt(alongRow, fixed, xs[0] + delta);
      CopyLoop(Put(g, r, c, At(g, sr, sc)), alongRow, fixed, xs[1..], delta)
  }

  lemma RangeDownInBounds(start: int)
    requires InBounds(start)
    ensures IndicesInBounds(PyRange(start, 0, -1), -1)
  {
    var xs := PyRange(start, 0, -1);
    forall k | 0 <= k < |xs|
      ensures InBounds(xs[k]) && InBounds(xs[k] - 1)
    {
      PyRangeBounds(start, 0, -1, xs[k]);
    }
  }

  lemma RangeUpInBounds(start: int)
    requires InBounds(start)
    ensures IndicesInBounds(PyRange(start, 4, 1), 1)
  {
    var xs := PyRange(start, 4, 1);
    forall k | 0 <= k < |xs|
      ensures InBounds(xs[k]) && InBounds(xs[k] + 1)
    {
      PyRangeBounds(start, 4, 1, xs[k]);
    }
  }

  /** `for i in range(start, 0, -1)`: the loop of a slide towards the
      low end of the line. */
  function CopiedDown(g: Grid, alongRow: bool, fixed: int, start: int): (h: Grid)
    requires IsGrid(g) && InBounds(fixed) && InBounds(start)
    ensures IsGrid(h)
  {
    RangeDownInBounds(start);
    CopyLoop(g, alongRow, fixed, PyRange(start, 0, -1), -1)
  }

  /** `for i in range(start, 4, 1)`: the loop of a slide towards the
      high end of the line. */
  function CopiedUp(g: Grid, alongRow: bool, fixed: int, start: int): (h: Grid)
    requires IsGrid(g) && InBounds(fixed) && InBounds(start)
    ensures IsGrid(h)
  {
    RangeUpInBounds(start);
    CopyLoop(g, alongRow, fixed, PyRange(start, 4, 1), 1)
  }

  /** The grid after the loop and the final write of the accepted slide
      `s` of the cube `piece` taken from (r, c). */
  function SlideGrid(g: Grid, r: int, c: int, s: Move, piece: int): (h: Grid)
    requires IsGrid(g) && InBounds(r) && InBounds(c)
    ensures IsGrid(h)
  {
    match s
    case LEFT => Put(CopiedDown(g, true, r, c), r, 0, piece)
    case RIGHT => Put(CopiedUp(g, true, r, c), r, 4, piece)
    case TOP => Put(CopiedDown(g, false, c, r), 0, c, piece)
    case BOTTOM => Put(CopiedUp(g, false, c, r), 4, c, piece)
  }

  /** `__slide(from_pos, slide)`. */
  function Slide(g: Grid, r: int, c: int, s: Move): (t: Result<(bool, Grid)>)
    requires IsGrid(g)
    ensures t.Ok? ==> IsGrid(t.value.1)
  {
    if !SlideAcceptable(r, c, s) then Ok((false, g))
    else if !(InBounds(r) && InBounds(c)) then Raise(IndexError)
    else Ok((true, SlideGrid(g, r, c, s, At(g, r, c))))
  }

  // ---------------------------------------------------------------------
  // `__move`

  /** `__move(from_pos, slide, player_id)`. `from_pos` is (x, y), that is
      (column, row); the grid is indexed with (row, column). */
  function MakeMove(g: Grid, fromPos: (int, int), s: Move, id: int): (m: Result<(bool, Grid)>)
    requires IsGrid(g)
    ensures m.Ok? ==> IsGrid(m.value.1)
  {
    var (r, c) := (fromPos.1, fromPos.0);
    if id > 2 then Ok((false, g))
    else if !(InBounds(r) && InBounds(c)) then Raise(IndexError)
    else
      var prev := At(g, r, c);
      var taken := Take(g, r, c, id);
      if taken.Raise? then taken
      else if !taken.value.0 then taken
      else
        var slid := Slide(taken.value.1, r, c, s);
        if slid.Raise? then slid
        else if !slid.value.0 then Ok((false, Put(slid.value.1, r, c, prev)))
        else slid
  }

  // ---------------------------------------------------------------------
  // What the loops do to the cells.

  /** Cell (i, j) as (position along the line, index of the line). */
  function Along(alongRow: bool, i: int, j: int): (int, int)
  {
    if alongRow then (j, i) else (i, j)
  }

  lemma GridExt(g: Grid, h: Grid)
    requires IsGrid(g) && IsGrid(h)
    requires forall i, j | 0 <= i < 5 && 0 <= j < 5 :: g[i][j] == h[i][j]
    ensures g == h
  {
    forall i | 0 <= i < 5
      ensures g[i] == h[i]
    {
      assert forall j | 0 <= j < 5 :: g[i][j] == h[i][j];
    }
  }

  /** The downward loop moves every cell from position 1 up to `start` of
      the line one step up, each taking its lower neighbour's old value;
      nothing else changes. */
  lemma {:induction false} CopiedDownCells(g: Grid, alongRow: bool, fixed: int, start: int, i: int, j: int)
    requires IsGrid(g) && 0 <= fixed < 5 && 0 <= start < 5 && 0 <= i < 5 && 0 <= j < 5
    ensures CopiedDown(g, alongRow, fixed, start)[i][j]
         == if Along(alongRow, i, j).1 == fixed && 0 < Along(alongRow, i, j).0 <= start
            then At(g, LineAt(alongRow, fixed, Along(alongRow, i, j).0 - 1).0, LineAt(alongRow, fixed, Along(alongRow, i, j).0 - 1).1)
            else g[i][j]
    decreases start
  {
    if start > 0 {
      var (r, c) := LineAt(alongRow, fixed, start);
      var (sr, sc) := LineAt(alongRow, fixed, start - 1);
      var g1 := Put(g, r, c, At(g, sr, sc));
      assert PyRange(start, 0, -1) == [start] + PyRange(start - 1, 0, -1);
      assert CopiedDown(g, alongRow, fixed, start) == CopiedDown(g1, alongRow, fixed, start - 1);
      CopiedDownCells(g1, alongRow, fixed, start - 1, i, j);
    }
  }

  /** The upward loop moves every cell from position `start` up to 3 of
      the line one step down, each taking its upper neighbour's old value;
      nothing else changes. */
  lemma {:induction false} CopiedUpCells(g: Grid, alongRow: bool, fixed: int, start: int, i: int, j: int)
    requires IsGrid(g) && 0 <= fixed < 5 && 0 <= start < 5 && 0 <= i < 5 && 0 <= j < 5
    ensures CopiedUp(g, alongRow, fixed, start)[i][j]
         == if Along(alongRow, i, j).1 == fixed && start <= Along(alongRow, i, j).0 < 4
            then At(g, LineAt(alongRow, fixed, Along(alongRow, i, j).0 + 1).0, LineAt(alongRow, fixed, Along(alongRow, i, j).0 + 1).1)
            else g[i][j]
    decreases 4 - start
  {
    if start < 4 {
      var (r, c) := LineAt(alongRow, fixed, start);
      var (sr, sc) := LineAt(alongRow, fixed, start + 1);
      var g1 := Put(g, r, c, At(g, sr, sc));
      assert PyRange(start, 4, 1) == [start] + PyRange(start + 1, 4, 1);
      assert CopiedUp(g, alongRow, fixed, start) == CopiedUp(g1, alongRow, fixed, start + 1);
      CopiedUpCells(g1, alongRow, fixed, start + 1, i, j);
    }
  }

  // ---------------------------------------------------------------------
  // `__slide` on the cells.

  /** The cell the slide `s` puts the taken cube on. */
  function Dest(s: Move, r: int, c: int): (int, int)
  {
    match s
    case TOP => (0, c)
    case BOTTOM => (4, c)
    case LEFT => (r, 0)
    case RIGHT => (r, 4)
  }

  /** The cells from the taken one to the destination, the destination
      excluded: each takes the value of its neighbour on the destination
      side. */
  predicate InSegment(s: Move, r: int, c: int, i: int, j: int)
  {
    match s
    case TOP => j == c && 0 < i <= r
    case BOTTOM => j == c && r <= i < 4
    case LEFT => i == r && 0 < j <= c
    case RIGHT => i == r && c <= j < 4
  }

  function Source(s: Move, i: int, j: int): (int, int)
  {
    match s
    case TOP => (i - 1, j)
    case BOTTOM => (i + 1, j)
    case LEFT => (i, j - 1)
    case RIGHT => (i, j + 1)
  }

  /** Cell (i, j) after sliding `piece` from (r, c) with `s`. */
  function SlidValue(g: Grid, r: int, c: int, s: Move, piece: int, i: int, j: int): int
    requires IsGrid(g) && 0 <= r < 5 && 0 <= c < 5 && 0 <= i < 5 && 0 <= j < 5
  {
    if (i, j) == Dest(s, r, c) then piece
    else if InSegment(s, r, c, i, j) then g[Source(s, i, j).0][Source(s, i, j).1]
    else g[i][j]
  }

  /** An accepted slide puts the cube on the named edge, moves the cells
      between by one towards the taken cell's place, and leaves every other
      cell as it was. */
  lemma SlideGridCells(g: Grid, r: int, c: int, s: Move, piece: int, i: int, j: int)
    requires IsGrid(g) && 0 <= r < 5 && 0 <= c < 5 && 0 <= i < 5 && 0 <= j < 5
    ensures SlideGrid(g, r, c, s, piece)[i][j] == SlidValue(g, r, c, s, piece, i, j)
  {
    match s
    case LEFT => CopiedDownCells(g, true, r, c, i, j);
    case RIGHT => CopiedUpCells(g, true, r, c, i, j);
    case TOP => CopiedDownCells(g, false, c, r, i, j);
    case BOTTOM => CopiedUpCells(g, false, c, r, i, j);
  }

  predicate OnBorder(r: int, c: int)
  {
    0 <= r < 5 && 0 <= c < 5 && (r == 0 || r == 4 || c == 0 || c == 4)
  }

  /** On the board, a slide is accepted exactly from a border cell and
      towards an edge other than the cell's own. */
  lemma SlideAcceptableSpec(r: int, c: int, s: Move)
    requires 0 <= r < 5 && 0 <= c < 5
    ensures SlideAcceptable(r, c, s) <==> OnBorder(r, c) && Dest(s, r, c) != (r, c)
  {
  }

  /** The moves `__slide` accepts from (r, c), in the order of `Move`. */
  function AcceptedMoves(r: int, c: int): (ms: seq<Move>)
    ensures forall s :: s in ms <==> SlideAcceptable(r, c, s)
  {
    (if SlideAcceptable(r, c, TOP) then [TOP] else [])
    + (if SlideAcceptable(r, c, BOTTOM) then [BOTTOM] else [])
    + (if SlideAcceptable(r, c, LEFT) then [LEFT] else [])
    + (if SlideAcceptable(r, c, RIGHT) then [RIGHT] else [])
  }

  /** A corner has two accepted slides, another border cell three, an
      inner cell none. */
  lemma AcceptedCount(r: int, c: int)
    requires 0 <= r < 5 && 0 <= c < 5
    ensures |AcceptedMoves(r, c)| == if !OnBorder(r, c) then 0 else if IsCorner(r, c) then 2 else 3
  {
  }

  /** `__slide` on the board: rejected slides leave the grid unchanged,
      accepted ones move the cube found on (r, c). */
  lemma SlideSpec(g: Grid, r: int, c: int, s: Move)
    requires IsGrid(g) && 0 <= r < 5 && 0 <= c < 5
    ensures Slide(g, r, c, s).IsOk()
    ensures Slide(g, r, c, s).value.0 <==> OnBorder(r, c) && Dest(s, r, c) != (r, c)
    ensures !Slide(g, r, c, s).value.0 ==> Slide(g, r, c, s).value.1 == g
    ensures Slide(g, r, c, s).value.0 ==> forall i, j | 0 <= i < 5 && 0 <= j < 5 ::
      Slide(g, r, c, s).value.1[i][j] == SlidValue(g, r, c, s, g[r][c], i, j)
  {
    SlideAcceptableSpec(r, c, s);
    if SlideAcceptable(r, c, s) {
      forall i, j | 0 <= i < 5 && 0 <= j < 5
        ensures Slide(g, r, c, s).value.1[i][j] == SlidValue(g, r, c, s, g[r][c], i, j)
      {
        SlideGridCells(g, r, c, s, g[r][c], i, j);
      }
    }
  }

  // ---------------------------------------------------------------------
  // `__take` and `__move` on the board.

  /** `__take` on the board accepts a border cell that is empty or
      already the player's, and writes the player's id on it; otherwise
      nothing changes. */
  lemma TakeSpec(g: Grid, r: int, c: int, id: int)
    requires IsGrid(g) && 0 <= r < 5 && 0 <= c < 5
    ensures Take(g, r, c, id).IsOk()
    ensures Take(g, r, c, id).value.0 <==> OnBorder(r, c) && (g[r][c] < 0 || g[r][c] == id)
    ensures !Take(g, r, c, id).value.0 ==> Take(g, r, c, id).value.1 == g
    ensures Take(g, r, c, id).value.0 ==> Take(g, r, c, id).value.1 == Put(g, r, c, id)
  {
  }

  /** `__move` raises `IndexError` exactly when `from_pos` is outside the
      range numpy accepts, and rejects every `player_id` above 2. */
  lemma MoveErrors(g: Grid, fromPos: (int, int), s: Move, id: int)
    requires IsGrid(g)
    ensures id > 2 ==> MakeMove(g, fromPos, s, id) == Ok((false, g))
    ensures id <= 2 ==> (MakeMove(g, fromPos, s, id).Raise? <==> !(InBounds(fromPos.0) && InBounds(fromPos.1)))
    ensures MakeMove(g, fromPos, s, id).Raise? ==> MakeMove(g, fromPos, s, id).error == IndexError
  {
  }

  /** A rejected move leaves the grid as it was: a taken cube whose slide
      is refused is put back. */
  lemma MoveRejectedUnchanged(g: Grid, fromPos: (int, int), s: Move, id: int)
    requires IsGrid(g)
    requires MakeMove(g, fromPos, s, id).Ok? && !MakeMove(g, fromPos, s, id).value.0
    ensures MakeMove(g, fromPos, s, id).value.1 == g
  {
    var (r, c) := (fromPos.1, fromPos.0);
    if id <= 2 {
      var taken := Take(g, r, c, id);
      if taken.value.0 {
        var g1 := Put(g, r, c, id);
        assert taken.value.1 == g1;
        GridExt(Put(g1, r, c, At(g, r, c)), g);
      }
    }
  }

  /** A move from a border cell of the board, towards another edge, of a
      cube that is empty or the player's, by a player id up to 2, is
      accepted. */
  lemma MoveAccepts(g: Grid, x: int, y: int, s: Move, id: int)
    requires IsGrid(g) && 0 <= x < 5 && 0 <= y < 5 && id <= 2
    requires OnBorder(y, x) && Dest(s, y, x) != (y, x) && (g[y][x] < 0 || g[y][x] == id)
    ensures MakeMove(g, (x, y), s, id).Ok? && MakeMove(g, (x, y), s, id).value.0
  {
    TakeSpec(g, y, x, id);
    SlideSpec(Put(g, y, x, id), y, x, s);
  }

  /** An accepted move from a cell of the board: the cell was a border
      cell, empty or the player's; the player's cube lands on the named
      edge and the rest of the line moves by one. */
  lemma MoveAccepted(g: Grid, x: int, y: int, s: Move, id: int)
    requires IsGrid(g) && 0 <= x < 5 && 0 <= y < 5
    requires MakeMove(g, (x, y), s, id) == Ok((true, MakeMove(g, (x, y), s, id).value.1))
    ensures OnBorder(y, x) && Dest(s, y, x) != (y, x) && id <= 2
    ensures g[y][x] < 0 || g[y][x] == id
    ensures forall i, j | 0 <= i < 5 && 0 <= j < 5 ::
      MakeMove(g, (x, y), s, id).value.1[i][j] == SlidValue(g, y, x, s, id, i, j)
  {
    TakeSpec(g, y, x, id);
    var g1 := Put(g, y, x, id);
    SlideSpec(g1, y, x, s);
    forall i, j | 0 <= i < 5 && 0 <= j < 5
      ensures MakeMove(g, (x, y), s, id).value.1[i][j] == SlidValue(g, y, x, s, id, i, j)
    {
      assert MakeMove(g, (x, y), s, id).value.1[i][j] == SlidValue(g1, y, x, s, id, i, j);
    }
  }

  // ---------------------------------------------------------------------
  // `Game.check_winner`

  /** Cell `t` of line `k` in the order `Game.check_winner` tries them:
      rows 0..4, columns 0..4, the main diagonal, the anti-diagonal. */
  function GridLine(k: nat, t: nat): (rc: (int, int))
    requires k < 12 && t < 5
    ensures 0 <= rc.0 < 5 && 0 <= rc.1 < 5
  {
    if k < 5 then (k, t)
    else if k < 10 then (t, k - 5)
    else if k == 10 then (t, t)
    else (t, 4 - t)
  }

  /** The first cell of line `k` is not -1 and the whole line equals it. */
  predicate Uniform(g: Grid, k: nat)
    requires IsGrid(g) && k < 12
  {
    var (r0, c0) := GridLine(k, 0);
    g[r0][c0] != -1 && forall t | 0 <= t < 5 :: g[GridLine(k, t).0][GridLine(k, t).1] == g[r0][c0]
  }

  /** `Game.check_winner`. */
  function GameWinner(g: Grid): int
    requires IsGrid(g)
  {
    ScanLines(g, 0)
  }

  function ScanLines(g: Grid, k: nat): int
    requires IsGrid(g) && k <= 12
    decreases 12 - k
  {
    if k == 12 then -1
    else if Uniform(g, k) then g[GridLine(k, 0).0][GridLine(k, 0).1]
    else ScanLines(g, k + 1)
  }

  /** `Game.check_winner` returns -1 exactly when no line is uniform, and
      otherwise the value filling the first uniform line. */
  lemma {:induction false} ScanLinesSpec(g: Grid, k: nat)
    requires IsGrid(g) && k <= 12
    ensures ScanLines(g, k) == -1 <==> forall h | k <= h < 12 :: !Uniform(g, h)
    ensures ScanLines(g, k) != -1 ==>
      exists h | k <= h < 12 :: Uniform(g, h) && g[GridLine(h, 0).0][GridLine(h, 0).1] == ScanLines(g, k)
        && forall h' | k <= h' < h :: !Uniform(g, h')
    decreases 12 - k
  {
    if k < 12 {
      ScanLinesSpec(g, k + 1);
      if !Uniform(g, k) && ScanLines(g, k) != -1 {
        var h :| k + 1 <= h < 12 && Uniform(g, h) && g[GridLine(h, 0).0][GridLine(h, 0).1] == ScanLines(g, k)
          && forall h' | k + 1 <= h' < h :: !Uniform(g, h');
        assert forall h' | k <= h' < h :: !Uniform(g, h');
      }
    }
  }
}
