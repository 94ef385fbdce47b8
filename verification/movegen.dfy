/** Successor generation of `State` in `game.py`: `generate_moves` and its
    wrapper `create_position`.

    Moves are always generated for O. For X the board is swapped first, the
    successors are generated as O's, and each one is swapped back before it
    is stored. A successor is kept only when it differs from the position and
    none of its seven symmetric images is among the successors kept so far. */
module MoveGen {
  import opened Bits
  import opened Board
  import opened Shifts
  import opened Players
  import opened Equality
  import opened PyRuntime

  /** `UPPER_FRONTIER`, `LOWER_FRONTIER`, `LEFT_FRONTIER`, `RIGHT_FRONTIER`:
      cell numbers `5 * row + col` of the four edges. */
  const Upper: seq<int> := [0, 1, 2, 3, 4]
  const Lower: seq<int> := [20, 21, 22, 23, 24]
  const LeftEdge: seq<int> := [0, 5, 10, 15, 20]
  const RightEdge: seq<int> := [4, 9, 14, 19, 24]

  /** The cells in the order the two loops of `generate_moves` visit them;
      each corner comes twice. */
  const Frontiers: seq<int> := Upper + Lower + LeftEdge + RightEdge

  /** A successor `State`: its board and the `row`, `col` and `direction`
      it was made with. */
  datatype Child = Child(board: nat, row: int, col: int, direction: Direction)

  /** The cell numbered `i`. */
  function CellOf(i: int): (rc: (int, int))
    requires 0 <= i < 25
    ensures IsCell(rc.0, rc.1)
  {
    (i / 5, i % 5)
  }

  /** `((pos >> 32) << i) & 16777216 == 16777216`. */
  predicate Occupied(pos: nat, i: int)
    requires 0 <= i < 25
  {
    And(Shl(Shr(pos, XOffset), i), TopBit) == TopBit
  }

  /** `x & 16777216` is `16777216` exactly when bit 24 of `x` is set. */
  lemma TopBitTest(x: nat)
    ensures And(x, TopBit) == TopBit <==> Bit(x, 24)
  {
    TopBitIsPow();
    forall k: nat
      ensures Bit(And(x, TopBit), k) == (Bit(x, 24) && k == 24)
    {
      BitAnd(x, TopBit, k);
      BitPow(24, k);
    }
    if Bit(x, 24) {
      forall k: nat
        ensures Bit(And(x, TopBit), k) == Bit(TopBit, k)
      {
        BitPow(24, k);
      }
      Ext(And(x, TopBit), TopBit);
    } else {
      BitPow(24, 24);
    }
  }

  /** The occupancy test of `generate_moves` reads the X bit of cell `i`:
      it skips exactly the cells that hold an X. */
  lemma OccupiedIsX(pos: nat, i: int)
    requires 0 <= i < 25
    ensures Occupied(pos, i) <==> HasX(pos, CellOf(i).0, CellOf(i).1)
  {
    var y := Shl(Shr(pos, XOffset), i);
    TopBitTest(y);
    BitShl(Shr(pos, XOffset), i, 24);
    BitShr(pos, XOffset, 24 - i);
    assert XBit(CellOf(i).0, CellOf(i).1) == 24 - i + XOffset;
  }

  /** `list.remove`: drops the first occurrence. */
  function Without(ds: seq<Direction>, d: Direction): seq<Direction>
  {
    if |ds| == 0 then []
    else if ds[0] == d then ds[1..]
    else [ds[0]] + Without(ds[1..], d)
  }

  /** The `directions` list left for cell `i` after the two removals. */
  function Directions(i: int): seq<Direction>
  {
    var all := [Up, Down, Left, Right];
    var vertical := if i in Upper then Without(all, Down) else if i in Lower then Without(all, Up) else all;
    if i in LeftEdge then Without(vertical, Right)
    else if i in RightEdge then Without(vertical, Left)
    else vertical
  }

  /** The edge lists of `game.py` are the rows and columns 0 and 4. */
  lemma EdgeRows(i: int)
    requires i in Frontiers
    ensures 0 <= i < 25
    ensures i in Upper <==> CellOf(i).0 == 0
    ensures i in Lower <==> CellOf(i).0 == 4
    ensures i in LeftEdge <==> CellOf(i).1 == 0
    ensures i in RightEdge <==> CellOf(i).1 == 4
  {
  }

  /** The directions kept for a cell, read off its row and column. */
  lemma DirectionsByEdge(i: int)
    requires i in Frontiers
    ensures Directions(i)
         == (if CellOf(i).0 == 4 then [] else [Up]) + (if CellOf(i).0 == 0 then [] else [Down])
          + (if CellOf(i).1 == 4 then [] else [Left]) + (if CellOf(i).1 == 0 then [] else [Right])
  {
    EdgeRows(i);
    var all := [Up, Down, Left, Right];
    assert Without(all, Down) == [Up, Left, Right];
    assert Without(all, Up) == [Down, Left, Right];
    assert Without(all, Right) == [Up, Down, Left];
    assert Without(all, Left) == [Up, Down, Right];
    assert Without([Up, Left, Right], Right) == [Up, Left];
    assert Without([Up, Left, Right], Left) == [Up, Right];
    assert Without([Down, Left, Right], Right) == [Down, Left];
    assert Without([Down, Left, Right], Left) == [Down, Right];
  }

  lemma DirectionsMember(i: int, d: Direction)
    requires i in Frontiers
    ensures d in Directions(i) <==> Entry(d, CellOf(i).0, CellOf(i).1) != CellOf(i)
  {
    EdgeRows(i);
    DirectionsByEdge(i);
  }

  lemma DirectionsCount(i: int)
    requires i in Frontiers
    ensures |Directions(i)| == if i in [0, 4, 20, 24] then 2 else 3
  {
    EdgeRows(i);
    DirectionsByEdge(i);
  }

  lemma DirectionsDistinct(i: int)
    requires i in Frontiers
    ensures forall a, b | 0 <= a < b < |Directions(i)| :: Directions(i)[a] != Directions(i)[b]
  {
    EdgeRows(i);
    DirectionsByEdge(i);
  }

  /** A border cell keeps exactly the directions whose entry cell is not the
      cell itself (it may not push the piece back onto its own edge): two for
      a corner and three for the other border cells, each listed once. */
  lemma DirectionsSpec(i: int, d: Direction)
    requires i in Frontiers
    ensures d in Directions(i) <==> Entry(d, CellOf(i).0, CellOf(i).1) != CellOf(i)
    ensures |Directions(i)| == if i in [0, 4, 20, 24] then 2 else 3
    ensures forall a, b | 0 <= a < b < |Directions(i)| :: Directions(i)[a] != Directions(i)[b]
  {
    DirectionsMember(i, d);
    DirectionsCount(i);
    DirectionsDistinct(i);
  }

  // ---------------------------------------------------------------------
  // The loops of `generate_moves`.

  /** `add`: the shift of `pos` for O at cell `i` in direction `d`. The
      shift is called with "O", so it never raises. */
  function Add(pos: nat, i: int, d: Direction): nat
    requires 0 <= i < 25
  {
    var r := Shift(d, "O", CellOf(i).0, CellOf(i).1, pos);
    assert r == Ok(DirBoard(d, CellOf(i).0, CellOf(i).1, pos));
    r.value
  }

  /** Cell numbers and cells correspond. */
  lemma NumberCell(row: int, col: int)
    requires IsCell(row, col)
    ensures 0 <= 5 * row + col < 25 && CellOf(5 * row + col) == (row, col)
  {
  }

  /** `add` is the shift of `pos` at the cell numbered `i`. */
  lemma AddShifted(pos: nat, i: int, d: Direction, row: int, col: int)
    requires 0 <= i < 25 && (row, col) == CellOf(i)
    ensures Shifted(d, row, col, pos, Add(pos, i, d))
  {
    DirShifted(d, row, col, pos);
  }

  /** The board a child is stored with: X's children are swapped back. */
  function Stored(add: nat, player: string): nat
  {
    if player == "X" then Swap(add) else add
  }

  /** The board a stored child is compared with (an entry of
      `moves_boards`): X's children are swapped once more. */
  function Seen(c: Child, player: string): nat
  {
    if player == "X" then Swap(c.board) else c.board
  }

  /** `moves_boards`. */
  function Boards(moves: seq<Child>, player: string): (bs: seq<nat>)
    ensures |bs| == |moves|
  {
    seq(|moves|, k requires 0 <= k < |moves| => Seen(moves[k], player))
  }

  /** One pass of the innermost loop: the child for (`i`, `d`) is appended
      unless it equals `pos` or one of its seven images is already among
      `moves_boards`. */
  function Consider(pos: nat, player: string, moves: seq<Child>, i: int, d: Direction): (r: seq<Child>)
    requires 0 <= i < 25
    ensures moves <= r && |r| <= |moves| + 1
  {
    var add := Add(pos, i, d);
    if CheckSymmetries(Boards(moves, player), add) != 0 && add != pos then
      moves + [Child(Stored(add, player), CellOf(i).0, CellOf(i).1, d)]
    else
      moves
  }

  /** The loop over `directions` of one cell. */
  function ConsiderAll(pos: nat, player: string, moves: seq<Child>, i: int, ds: seq<Direction>): (r: seq<Child>)
    requires 0 <= i < 25
    ensures moves <= r && |r| <= |moves| + |ds|
    decreases |ds|
  {
    if |ds| == 0 then moves
    else ConsiderAll(pos, player, Consider(pos, player, moves, i, ds[0]), i, ds[1..])
  }

  /** The two outer loops, over the cells in `cells`; a cell holding an X
      is skipped. */
  function Visit(pos: nat, player: string, moves: seq<Child>, cells: seq<int>): (r: seq<Child>)
    requires forall k | 0 <= k < |cells| :: 0 <= cells[k] < 25
    ensures moves <= r
    decreases |cells|
  {
    if |cells| == 0 then moves
    else
      var i := cells[0];
      var next := if Occupied(pos, i) then moves else ConsiderAll(pos, player, moves, i, Directions(i));
      Visit(pos, player, next, cells[1..])
  }

  /** The visited cells are border cells. */
  lemma FrontiersCells()
    ensures forall k | 0 <= k < |Frontiers| :: 0 <= Frontiers[k] < 25 && Frontiers[k] in Frontiers
  {
  }

  /** `generate_moves(pos, player)`. */
  function GenerateMoves(pos: nat, player: string): (moves: seq<Child>)
  {
    FrontiersCells();
    Visit(pos, player, [], Frontiers)
  }

  /** `create_position(player)` of a state whose board is `board`: X's
      moves are generated on the swapped board. */
  function CreatePosition(board: nat, player: string): (moves: seq<Child>)
  {
    GenerateMoves(if player == "X" then Swap(board) else board, player)
  }

  // ---------------------------------------------------------------------
  // Soundness: every child is a legal move.

  /** `c` is a child `generate_moves` may produce for `player` on `pos`:
      a border cell without an X, one of the directions kept for it, a
      shift that changes the position, stored as `player` sees it. */
  predicate Legal(pos: nat, player: string, c: Child)
  {
    var i := 5 * c.row + c.col;
    && IsCell(c.row, c.col)
    && i in Frontiers
    && !HasX(pos, c.row, c.col)
    && c.direction in Directions(i)
    && Add(pos, i, c.direction) != pos
    && c.board == Stored(Add(pos, i, c.direction), player)
  }

  predicate AllLegal(pos: nat, player: string, moves: seq<Child>)
  {
    forall k | 0 <= k < |moves| :: Legal(pos, player, moves[k])
  }

  /** The child appended for (`i`, `d`) is legal. */
  lemma NewChildLegal(pos: nat, player: string, i: int, d: Direction, row: int, col: int)
    requires 0 <= i < 25 && i in Frontiers && !Occupied(pos, i) && d in Directions(i)
    requires Add(pos, i, d) != pos && (row, col) == CellOf(i)
    ensures Legal(pos, player, Child(Stored(Add(pos, i, d), player), row, col, d))
  {
    NumberOfCell(i, row, col);
    NotOccupiedCell(pos, i, row, col);
  }

  lemma NumberOfCell(i: int, row: int, col: int)
    requires 0 <= i < 25 && (row, col) == CellOf(i)
    ensures IsCell(row, col) && 5 * row + col == i
  {
  }

  lemma NotOccupiedCell(pos: nat, i: int, row: int, col: int)
    requires 0 <= i < 25 && !Occupied(pos, i) && (row, col) == CellOf(i)
    ensures IsCell(row, col) && !HasX(pos, row, col)
  {
    OccupiedIsX(pos, i);
  }

  lemma ConsiderLegal(pos: nat, player: string, moves: seq<Child>, i: int, d: Direction)
    requires 0 <= i < 25 && i in Frontiers && !Occupied(pos, i) && d in Directions(i)
    requires AllLegal(pos, player, moves)
    ensures AllLegal(pos, player, Consider(pos, player, moves, i, d))
  {
    var r := Consider(pos, player, moves, i, d);
    if r != moves {
      var c := Child(Stored(Add(pos, i, d), player), CellOf(i).0, CellOf(i).1, d);
      assert r == moves + [c];
      NewChildLegal(pos, player, i, d, CellOf(i).0, CellOf(i).1);
      AllLegalAppend(pos, player, moves, c);
    }
  }

  lemma AllLegalAppend(pos: nat, player: string, moves: seq<Child>, c: Child)
    requires AllLegal(pos, player, moves) && Legal(pos, player, c)
    ensures AllLegal(pos, player, moves + [c])
  {
    forall k | 0 <= k < |moves + [c]|
      ensures Legal(pos, player, (moves + [c])[k])
    {
      if k < |moves| {
        assert (moves + [c])[k] == moves[k];
      }
    }
  }

  lemma {:induction false} ConsiderAllLegal(pos: nat, player: string, moves: seq<Child>, i: int, ds: seq<Direction>)
    requires 0 <= i < 25 && i in Frontiers && !Occupied(pos, i)
    requires forall k | 0 <= k < |ds| :: ds[k] in Directions(i)
    requires AllLegal(pos, player, moves)
    ensures AllLegal(pos, player, ConsiderAll(pos, player, moves, i, ds))
    decreases |ds|
  {
    if |ds| > 0 {
      ConsiderLegal(pos, player, moves, i, ds[0]);
      ConsiderAllLegal(pos, player, Consider(pos, player, moves, i, ds[0]), i, ds[1..]);
    }
  }

  lemma {:induction false} VisitLegal(pos: nat, player: string, moves: seq<Child>, cells: seq<int>)
    requires forall k | 0 <= k < |cells| :: 0 <= cells[k] < 25 && cells[k] in Frontiers
    requires AllLegal(pos, player, moves)
    ensures AllLegal(pos, player, Visit(pos, player, moves, cells))
    decreases |cells|
  {
    if |cells| > 0 {
      var i := cells[0];
      if !Occupied(pos, i) {
        ConsiderAllLegal(pos, player, moves, i, Directions(i));
      }
      var next := if Occupied(pos, i) then moves else ConsiderAll(pos, player, moves, i, Directions(i));
      VisitLegal(pos, player, next, cells[1..]);
    }
  }

  /** Every child of `generate_moves` is a legal move: it takes a border
      cube that is not the opponent's, pushes it in a direction allowed
      from that cell, and changes the position. */
  lemma GenerateMovesSound(pos: nat, player: string)
    ensures AllLegal(pos, player, GenerateMoves(pos, player))
  {
    FrontiersCells();
    VisitLegal(pos, player, [], Frontiers);
  }

  // ---------------------------------------------------------------------
  // Distinctness: no child is a symmetric image of an earlier one.

  lemma AddClean(pos: nat, i: int, d: Direction)
    requires 0 <= i < 25 && Clean(pos)
    ensures Clean(Add(pos, i, d))
  {
    var add := Add(pos, i, d);
    AddShifted(pos, i, d, CellOf(i).0, CellOf(i).1);
    forall k: nat | Bit(add, k)
      ensures FieldBit(k)
    {
    }
  }

  /** On a clean position the board compared with is the shift itself:
      swapping twice gives back X's candidate. */
  lemma SeenStored(add: nat, player: string)
    requires Clean(add)
    ensures Seen(Child(Stored(add, player), 0, 0, Up), player) == add
  {
    if player == "X" {
      SwapInvolution(add);
    }
  }

  lemma SeenLegal(pos: nat, player: string, c: Child)
    requires Clean(pos) && Legal(pos, player, c)
    ensures Seen(c, player) == Add(pos, 5 * c.row + c.col, c.direction)
    ensures Clean(Seen(c, player))
  {
    var add := Add(pos, 5 * c.row + c.col, c.direction);
    LegalCell(pos, player, c);
    AddClean(pos, 5 * c.row + c.col, c.direction);
    SeenStored(add, player);
  }

  /** No child is equal, up to the seven symmetries, to an earlier one. */
  predicate Fresh(player: string, moves: seq<Child>)
  {
    forall a, b | 0 <= a < b < |moves| :: !Eq(Seen(moves[b], player), Seen(moves[a], player))
  }

  /** The filter of the innermost loop, on the boards seen: a new board
      is `Keep` of the boards kept so far, so what survives depends on the
      order of the loops (see `Equality.KeepAllOrder`). */
  lemma ConsiderKeeps(pos: nat, player: string, moves: seq<Child>, i: int, d: Direction)
    requires 0 <= i < 25 && Clean(pos) && Add(pos, i, d) != pos
    ensures Boards(Consider(pos, player, moves, i, d), player) == Keep(Boards(moves, player), Add(pos, i, d))
  {
    var add := Add(pos, i, d);
    AddClean(pos, i, d);
    SeenStored(add, player);
    var r := Consider(pos, player, moves, i, d);
    if r != moves {
      assert Boards(r, player) == Boards(moves, player) + [add];
    }
  }

  lemma ConsiderFresh(pos: nat, player: string, moves: seq<Child>, i: int, d: Direction)
    requires 0 <= i < 25 && Clean(pos) && Fresh(player, moves)
    ensures Fresh(player, Consider(pos, player, moves, i, d))
  {
    var add := Add(pos, i, d);
    var bs := Boards(moves, player);
    var r := Consider(pos, player, moves, i, d);
    if r != moves {
      AddClean(pos, i, d);
      SeenStored(add, player);
      assert Seen(r[|moves|], player) == add;
      FirstListedFinds(Orbit(add), bs);
      forall a | 0 <= a < |moves|
        ensures !Eq(add, Seen(moves[a], player))
      {
        assert bs[a] == Seen(moves[a], player);
      }
    }
  }

  lemma {:induction false} ConsiderAllFresh(pos: nat, player: string, moves: seq<Child>, i: int, ds: seq<Direction>)
    requires 0 <= i < 25 && Clean(pos) && Fresh(player, moves)
    ensures Fresh(player, ConsiderAll(pos, player, moves, i, ds))
    decreases |ds|
  {
    if |ds| > 0 {
      ConsiderFresh(pos, player, moves, i, ds[0]);
      ConsiderAllFresh(pos, player, Consider(pos, player, moves, i, ds[0]), i, ds[1..]);
    }
  }

  lemma {:induction false} VisitFresh(pos: nat, player: string, moves: seq<Child>, cells: seq<int>)
    requires forall k | 0 <= k < |cells| :: 0 <= cells[k] < 25
    requires Clean(pos) && Fresh(player, moves)
    ensures Fresh(player, Visit(pos, player, moves, cells))
    decreases |cells|
  {
    if |cells| > 0 {
      var i := cells[0];
      if !Occupied(pos, i) {
        ConsiderAllFresh(pos, player, moves, i, Directions(i));
      }
      var next := if Occupied(pos, i) then moves else ConsiderAll(pos, player, moves, i, Directions(i));
      VisitFresh(pos, player, next, cells[1..]);
    }
  }

  /** On a clean position no two children of `generate_moves` are
      symmetric images of each other, in either order, and in particular
      no two are stored with the same board. */
  lemma GenerateMovesDistinct(pos: nat, player: string, a: int, b: int)
    requires Clean(pos)
    requires 0 <= a < b < |GenerateMoves(pos, player)|
    ensures !Eq(Seen(GenerateMoves(pos, player)[b], player), Seen(GenerateMoves(pos, player)[a], player))
    ensures !Eq(Seen(GenerateMoves(pos, player)[a], player), Seen(GenerateMoves(pos, player)[b], player))
    ensures GenerateMoves(pos, player)[a].board != GenerateMoves(pos, player)[b].board
  {
    var moves := GenerateMoves(pos, player);
    FrontiersCells();
    VisitFresh(pos, player, [], Frontiers);
    GenerateMovesSound(pos, player);
    assert Legal(pos, player, moves[a]);
    SeenLegal(pos, player, moves[a]);
    if Eq(Seen(moves[a], player), Seen(moves[b], player)) {
      EqBack(Seen(moves[a], player), Seen(moves[b], player));
    }
    assert Orbit(Seen(moves[b], player))[0] == Seen(moves[b], player);
  }

  // ---------------------------------------------------------------------
  // Completeness: every legal move is represented.

  /** Some child is, up to symmetry, the position `add`. */
  predicate Covered(player: string, moves: seq<Child>, add: nat)
  {
    exists k | 0 <= k < |moves| :: Eq(add, Seen(moves[k], player))
  }

  lemma CoveredGrows(player: string, moves: seq<Child>, r: seq<Child>, add: nat)
    requires moves <= r && Covered(player, moves, add)
    ensures Covered(player, r, add)
  {
    var k :| 0 <= k < |moves| && Eq(add, Seen(moves[k], player));
    assert r[k] == moves[k];
  }

  lemma ConsiderCovers(pos: nat, player: string, moves: seq<Child>, i: int, d: Direction)
    requires 0 <= i < 25 && Clean(pos) && Add(pos, i, d) != pos
    ensures Covered(player, Consider(pos, player, moves, i, d), Add(pos, i, d))
  {
    var add := Add(pos, i, d);
    var bs := Boards(moves, player);
    var r := Consider(pos, player, moves, i, d);
    FirstListedFinds(Orbit(add), bs);
    if r == moves {
      var x :| x in Orbit(add) && x in bs;
      var k :| 0 <= k < |bs| && bs[k] == x;
      assert Eq(add, Seen(moves[k], player));
    } else {
      AddClean(pos, i, d);
      SeenStored(add, player);
      assert Seen(r[|moves|], player) == add;
      assert Orbit(add)[0] == add;
      assert Eq(add, Seen(r[|moves|], player));
    }
  }

  lemma {:induction false} ConsiderAllCovers(pos: nat, player: string, moves: seq<Child>, i: int, ds: seq<Direction>, d: Direction)
    requires 0 <= i < 25 && Clean(pos) && d in ds && Add(pos, i, d) != pos
    ensures Covered(player, ConsiderAll(pos, player, moves, i, ds), Add(pos, i, d))
    decreases |ds|
  {
    var next := Consider(pos, player, moves, i, ds[0]);
    if ds[0] == d {
      ConsiderCovers(pos, player, moves, i, d);
      CoveredGrows(player, next, ConsiderAll(pos, player, next, i, ds[1..]), Add(pos, i, d));
    } else {
      ConsiderAllCovers(pos, player, next, i, ds[1..], d);
    }
  }

  lemma {:induction false} VisitCovers(pos: nat, player: string, moves: seq<Child>, cells: seq<int>, i: int, d: Direction)
    requires forall k | 0 <= k < |cells| :: 0 <= cells[k] < 25
    requires 0 <= i < 25 && Clean(pos) && i in cells && !Occupied(pos, i)
    requires d in Directions(i) && Add(pos, i, d) != pos
    ensures Covered(player, Visit(pos, player, moves, cells), Add(pos, i, d))
    decreases |cells|
  {
    var c := cells[0];
    var next := if Occupied(pos, c) then moves else ConsiderAll(pos, player, moves, c, Directions(c));
    if c == i {
      ConsiderAllCovers(pos, player, moves, i, Directions(i), d);
      CoveredGrows(player, next, Visit(pos, player, next, cells[1..]), Add(pos, i, d));
    } else {
      VisitCovers(pos, player, next, cells[1..], i, d);
    }
  }

  /** Every legal move of O on a clean position that changes it is, up to
      the seven symmetries, among the children: `check_symmetries` only
      drops a candidate whose image is already listed. */
  lemma GenerateMovesComplete(pos: nat, player: string, i: int, d: Direction)
    requires Clean(pos) && i in Frontiers
    requires 0 <= i < 25 && !HasX(pos, CellOf(i).0, CellOf(i).1)
    requires d in Directions(i) && Add(pos, i, d) != pos
    ensures Covered(player, GenerateMoves(pos, player), Add(pos, i, d))
  {
    OccupiedIsX(pos, i);
    FrontiersCells();
    VisitCovers(pos, player, [], Frontiers, i, d);
  }

  // ---------------------------------------------------------------------
  // The two players.

  /** `moves` with every board swapped. */
  function SwapBoards(moves: seq<Child>): (r: seq<Child>)
    ensures |r| == |moves|
  {
    seq(|moves|, k requires 0 <= k < |moves| => moves[k].(board := Swap(moves[k].board)))
  }

  ghost predicate AllClean(moves: seq<Child>)
  {
    forall k | 0 <= k < |moves| :: Clean(moves[k].board)
  }

  lemma ConsiderSwap(pos: nat, moves: seq<Child>, i: int, d: Direction)
    requires 0 <= i < 25 && Clean(pos) && AllClean(moves)
    ensures Consider(pos, "X", SwapBoards(moves), i, d) == SwapBoards(Consider(pos, "O", moves, i, d))
    ensures AllClean(Consider(pos, "O", moves, i, d))
  {
    var add := Add(pos, i, d);
    AddClean(pos, i, d);
    forall k | 0 <= k < |moves|
      ensures Boards(SwapBoards(moves), "X")[k] == Boards(moves, "O")[k]
    {
      SwapInvolution(moves[k].board);
    }
    assert Boards(SwapBoards(moves), "X") == Boards(moves, "O");
    var r := Consider(pos, "O", moves, i, d);
    if r != moves {
      assert r == moves + [Child(add, CellOf(i).0, CellOf(i).1, d)];
      assert SwapBoards(r) == SwapBoards(moves) + [Child(Swap(add), CellOf(i).0, CellOf(i).1, d)];
    }
  }

  lemma {:induction false} ConsiderAllSwap(pos: nat, moves: seq<Child>, i: int, ds: seq<Direction>)
    requires 0 <= i < 25 && Clean(pos) && AllClean(moves)
    ensures ConsiderAll(pos, "X", SwapBoards(moves), i, ds) == SwapBoards(ConsiderAll(pos, "O", moves, i, ds))
    ensures AllClean(ConsiderAll(pos, "O", moves, i, ds))
    decreases |ds|
  {
    if |ds| > 0 {
      ConsiderSwap(pos, moves, i, ds[0]);
      ConsiderAllSwap(pos, Consider(pos, "O", moves, i, ds[0]), i, ds[1..]);
    }
  }

  lemma {:induction false} VisitSwap(pos: nat, moves: seq<Child>, cells: seq<int>)
    requires forall k | 0 <= k < |cells| :: 0 <= cells[k] < 25
    requires Clean(pos) && AllClean(moves)
    ensures Visit(pos, "X", SwapBoards(moves), cells) == SwapBoards(Visit(pos, "O", moves, cells))
    decreases |cells|
  {
    if |cells| > 0 {
      var i := cells[0];
      if !Occupied(pos, i) {
        ConsiderAllSwap(pos, moves, i, Directions(i));
      }
      var next := if Occupied(pos, i) then moves else ConsiderAll(pos, "O", moves, i, Directions(i));
      VisitSwap(pos, next, cells[1..]);
    }
  }

  /** On a clean position X gets the same children as O, in the same order
      and with the same cells and directions, each stored swapped: the
      comparison list `moves_boards` swaps X's children back first. */
  lemma GenerateMovesSwap(pos: nat)
    requires Clean(pos)
    ensures GenerateMoves(pos, "X") == SwapBoards(GenerateMoves(pos, "O"))
  {
    FrontiersCells();
    assert SwapBoards([]) == [];
    VisitSwap(pos, [], Frontiers);
  }

  lemma ConsiderOther(pos: nat, player: string, moves: seq<Child>, i: int, d: Direction)
    requires 0 <= i < 25 && player != "X"
    ensures Consider(pos, player, moves, i, d) == Consider(pos, "O", moves, i, d)
  {
    assert Boards(moves, player) == Boards(moves, "O");
  }

  lemma {:induction false} ConsiderAllOther(pos: nat, player: string, moves: seq<Child>, i: int, ds: seq<Direction>)
    requires 0 <= i < 25 && player != "X"
    ensures ConsiderAll(pos, player, moves, i, ds) == ConsiderAll(pos, "O", moves, i, ds)
    decreases |ds|
  {
    if |ds| > 0 {
      ConsiderOther(pos, player, moves, i, ds[0]);
      ConsiderAllOther(pos, player, Consider(pos, "O", moves, i, ds[0]), i, ds[1..]);
    }
  }

  lemma {:induction false} VisitOther(pos: nat, player: string, moves: seq<Child>, cells: seq<int>)
    requires forall k | 0 <= k < |cells| :: 0 <= cells[k] < 25
    requires player != "X"
    ensures Visit(pos, player, moves, cells) == Visit(pos, "O", moves, cells)
    decreases |cells|
  {
    if |cells| > 0 {
      var i := cells[0];
      if !Occupied(pos, i) {
        ConsiderAllOther(pos, player, moves, i, Directions(i));
      }
      var next := if Occupied(pos, i) then moves else ConsiderAll(pos, "O", moves, i, Directions(i));
      VisitOther(pos, player, next, cells[1..]);
    }
  }

  /** `generate_moves` only asks whether the player is "X": any other
      string is treated as O. */
  lemma GenerateMovesOther(pos: nat, player: string)
    requires player != "X"
    ensures GenerateMoves(pos, player) == GenerateMoves(pos, "O")
  {
    FrontiersCells();
    VisitOther(pos, player, [], Frontiers);
  }

  // ---------------------------------------------------------------------
  // `create_position`.

  /** A legal child is the shift at its own cell number. */
  lemma LegalCell(pos: nat, player: string, c: Child)
    requires Legal(pos, player, c)
    ensures 0 <= 5 * c.row + c.col < 25 && (c.row, c.col) == CellOf(5 * c.row + c.col)
  {
    NumberCell(c.row, c.col);
  }

  lemma LegalValid(pos: nat, player: string, c: Child)
    requires Valid(pos) && Legal(pos, player, c)
    ensures Valid(Add(pos, 5 * c.row + c.col, c.direction))
  {
    LegalCell(pos, player, c);
    AddShifted(pos, 5 * c.row + c.col, c.direction, c.row, c.col);
    ShiftedValid(c.direction, c.row, c.col, pos, Add(pos, 5 * c.row + c.col, c.direction));
  }

  lemma LegalEntry(pos: nat, player: string, c: Child)
    requires Legal(pos, player, c)
    ensures var add := Add(pos, 5 * c.row + c.col, c.direction);
      var e := Entry(c.direction, c.row, c.col);
      HasO(add, e.0, e.1) && !HasX(add, e.0, e.1)
  {
    var add := Add(pos, 5 * c.row + c.col, c.direction);
    var e := Entry(c.direction, c.row, c.col);
    LegalCell(pos, player, c);
    AddShifted(pos, 5 * c.row + c.col, c.direction, c.row, c.col);
    assert CellShifted(c.direction, c.row, c.col, pos, add, e.0, e.1);
  }

  /** What a legal child is, seen from O's side. */
  lemma LegalShift(pos: nat, player: string, c: Child)
    requires Valid(pos) && Legal(pos, player, c)
    ensures var add := Add(pos, 5 * c.row + c.col, c.direction);
      var e := Entry(c.direction, c.row, c.col);
      && Valid(add) && add != pos
      && HasO(add, e.0, e.1) && !HasX(add, e.0, e.1)
  {
    LegalValid(pos, player, c);
    LegalEntry(pos, player, c);
  }

  /** X's child seen from X's side: swapping the shift of the swapped
      board exchanges the two players back. */
  lemma SwappedChild(board: nat, pos: nat, add: nat, row: int, col: int, e0: int, e1: int)
    requires Valid(board) && pos == Swap(board) && IsCell(row, col) && IsCell(e0, e1)
    requires Valid(add) && add != pos && HasO(add, e0, e1) && !HasX(add, e0, e1) && !HasX(pos, row, col)
    ensures Valid(Swap(add)) && Swap(add) != board
    ensures !HasO(board, row, col) && HasX(Swap(add), e0, e1) && !HasO(Swap(add), e0, e1)
  {
    SwapInvolution(board);
    SwapInvolution(add);
    SwapCell(board, row, col);
    SwapCell(add, e0, e1);
  }

  /** Every child of `create_position(player)` on a reachable position is
      a reachable position different from it, made by the player to move:
      the taken cube is not the opponent's and the player's own piece is
      on the entry cell. */
  lemma CreatePositionMoves(board: nat, player: string, k: int)
    requires Valid(board) && 0 <= k < |CreatePosition(board, player)|
    ensures var c := CreatePosition(board, player)[k];
      && IsCell(c.row, c.col)
      && Valid(c.board)
      && c.board != board
      && var e := Entry(c.direction, c.row, c.col);
      && (player == "X" ==> !HasO(board, c.row, c.col) && HasX(c.board, e.0, e.1) && !HasO(c.board, e.0, e.1))
      && (player != "X" ==> !HasX(board, c.row, c.col) && HasO(c.board, e.0, e.1) && !HasX(c.board, e.0, e.1))
  {
    var pos := if player == "X" then Swap(board) else board;
    SwapInvolution(board);
    var c := CreatePosition(board, player)[k];
    GenerateMovesSound(pos, player);
    assert Legal(pos, player, c);
    LegalShift(pos, player, c);
    if player == "X" {
      var e := Entry(c.direction, c.row, c.col);
      SwappedChild(board, pos, Add(pos, 5 * c.row + c.col, c.direction), c.row, c.col, e.0, e.1);
    }
  }
}
