/** The searcher over Quixo boards: a `State`, seen through the board it
    holds, as the node type of `MCTS`. */
module QuixoSearch {
  import opened Bits
  import opened Board
  import opened PyRuntime
  import opened MoveGen
  import opened Winner
  import opened Equality
  import opened Mcts

  lemma EmptyValid()
    ensures Valid(0)
  {
    forall k: nat
      ensures !Bit(0, k)
    {
      BitZero(k);
    }
  }

  /** The boards a game reaches: the values a `State` holds. */
  type Position = b: nat | Valid(b) witness (EmptyValid(); 0)

  /** The boards of a list of successors of a reachable position. */
  function Positions(cs: seq<Child>): (bs: seq<Position>)
    requires forall k | 0 <= k < |cs| :: Valid(cs[k].board)
    ensures |bs| == |cs| && forall k | 0 <= k < |cs| :: bs[k] == cs[k].board
  {
    seq(|cs|, k requires 0 <= k < |cs| => cs[k].board)
  }

  /** The successors `create_position(player)` builds. It only tests for
      "X", so a `None` player moves as "O". */
  function Successors(board: Position, player: Option<string>): (bs: seq<Position>)
    ensures |bs| == |CreatePosition(board, Mover(player))|
    ensures forall k | 0 <= k < |bs| :: bs[k] == CreatePosition(board, Mover(player))[k].board
  {
    var cs := CreatePosition(board, Mover(player));
    assert forall k | 0 <= k < |cs| :: Valid(cs[k].board) by {
      forall k | 0 <= k < |cs|
        ensures Valid(cs[k].board)
      {
        CreatePositionMoves(board, Mover(player), k);
      }
    }
    Positions(cs)
  }

  function Mover(player: Option<string>): string
  {
    if player.Some? then player.value else "O"
  }

  /** `State.find_children(player)`: a list exactly while the board has a
      blank cube and no line of five, and then the boards of
      `create_position`. */
  function QuixoChildren(board: Position, player: Option<string>): (r: Option<seq<Position>>)
    ensures r.Some? <==> !Full(board) && NoLineFrom(board, 0)
    ensures r.None? <==> IsTerminal(board)
    ensures r.Some? ==> r.value == Successors(board, player)
  {
    FindChildrenSpec(board, Mover(player));
    match FindChildren(board, Mover(player))
    case None => None
    case Some(_) => Some(Successors(board, player))
  }

  /** `State` as a node: `__eq__` over the seven images, the symmetry hash
      key, `find_children` and `is_terminal`. */
  function Quixo(): Game<Position>
  {
    Game((a: Position, b: Position) => Eq(a, b), (b: Position) => HashKey(b) as int, QuixoChildren,
         (b: Position) => IsTerminal(b))
  }

  /** A Quixo node has a list of children exactly when it is not terminal,
      so `choose` never iterates over `None`: it raises `RuntimeError` on a
      terminal board and never raises `TypeError`. */
  lemma QuixoChooseChildren(s: Searcher<Position>, board: Position, opponent: string)
    ensures Quixo().children(board, Some(Myself(opponent))).Some? <==> !IsTerminal(board)
    ensures Choose(Quixo(), s, board, opponent) == Raise(RuntimeError) <==> IsTerminal(board)
    ensures Choose(Quixo(), s, board, opponent) != Raise(TypeError)
  {
    ChooseSpec(Quixo(), s, board, opponent);
  }

  // ---------------------------------------------------------------------
  // The dictionaries' test is an equivalence on reachable boards.

  /** The lookup test of a dictionary on Quixo boards: the same board, or
      one `__eq__` accepts with the same hash key. */
  predicate SameKey(a: Position, b: Position)
  {
    a == b || (HashKey(a) == HashKey(b) && Eq(a, b))
  }

  lemma QuixoMatches(a: Position, b: Position)
    ensures Matches(Quixo(), a, b) == SameKey(a, b)
  {
  }

  lemma SameKeySymmetric(a: Position, b: Position)
    ensures SameKey(a, b) ==> SameKey(b, a)
  {
    assert Valid(a) && Valid(b);
    EqSymmetric(a, b);
  }

  lemma SameKeyTransitive(a: Position, b: Position, c: Position)
    ensures SameKey(a, b) && SameKey(b, c) ==> SameKey(a, c)
  {
    if SameKey(a, b) && SameKey(b, c) {
      if a == b || b == c {
        assert a == b ==> SameKey(a, c) == SameKey(b, c);
        assert b == c ==> SameKey(a, c) == SameKey(a, b);
      } else {
        assert Valid(a);
        KeyedEqTransitive(a, b, c);
      }
    }
  }

  /** `__eq__` is not transitive on its own, but the lookup test of a
      dictionary, the same board or an equal one with the same hash key,
      is an equivalence on the boards a game reaches. */
  lemma QuixoEquivalence()
    ensures Equivalence(Quixo())
  {
    forall a: Position, b: Position
      ensures Matches(Quixo(), a, b) ==> Matches(Quixo(), b, a)
    {
      QuixoMatches(a, b);
      QuixoMatches(b, a);
      SameKeySymmetric(a, b);
    }
    forall a: Position, b: Position, c: Position
      ensures Matches(Quixo(), a, b) && Matches(Quixo(), b, c) ==> Matches(Quixo(), a, c)
    {
      QuixoMatches(a, b);
      QuixoMatches(b, c);
      QuixoMatches(a, c);
      SameKeyTransitive(a, b, c);
    }
  }

  /** On Quixo boards a selection that ends returns a path to a leaf. */
  lemma QuixoSelectLeaf(s: Searcher<Position>, node: Position, popAt: nat, uct: Position -> real, fuel: nat)
    ensures var r := Select(Quixo(), s, node, popAt, uct, fuel);
      r.Done? ==> r.value != [] && Leaf(Quixo(), s, r.value[|r.value| - 1])
  {
    QuixoEquivalence();
    SelectLeaf(Quixo(), s, node, popAt, uct, fuel);
  }

  /** On Quixo boards, with every expanded child visited, the only error a
      selection raises is the `IndexError` of the cycle fallback. */
  lemma QuixoSelectFailure(s: Searcher<Position>, node: Position, popAt: nat, uct: Position -> real, fuel: nat)
    requires Visited(Quixo(), s)
    ensures var r := Select(Quixo(), s, node, popAt, uct, fuel);
      r.Fails? ==> r.error == IndexError
  {
    QuixoEquivalence();
    SelectFailureEquiv(Quixo(), s, node, popAt, uct, fuel);
  }

  /** On Quixo boards a rollout keeps every expanded child visited. */
  lemma QuixoRolloutVisited(s: Searcher<Position>, node: Position, popAt: nat, uct: Position -> real,
                            simulate: (Position, Option<string>) -> int, fuel: nat)
    requires Visited(Quixo(), s)
    ensures Rollout(Quixo(), s, node, popAt, uct, simulate, fuel).Done? ==>
      Visited(Quixo(), Rollout(Quixo(), s, node, popAt, uct, simulate, fuel).value)
  {
    QuixoEquivalence();
    RolloutVisited(Quixo(), s, node, popAt, uct, simulate, fuel);
  }

  // ---------------------------------------------------------------------
  // Lookups that miss.

  lemma SingleValid(i: int, j: int)
    requires IsCell(i, j)
    ensures Valid(Single(i, j))
  {
    SingleClean(i, j);
    forall r, c | IsCell(r, c)
      ensures !(HasO(Single(i, j), r, c) && HasX(Single(i, j), r, c))
    {
      SingleCell(i, j, r, c);
    }
  }

  /** The position with a single O, on (i, j). */
  function Lone(i: int, j: int): (p: Position)
    requires IsCell(i, j)
    ensures p == Single(i, j)
  {
    SingleValid(i, j);
    Single(i, j)
  }

  /** The dictionaries of the searcher miss boards that `__eq__` accepts.
      For a cell (i, j) off the mirror axes, the lone O at (i, 4 - j) is
      `==` to the lone O at (i, j), yet a dictionary holding only the
      latter does not contain the former, because the hash keys differ. So
      `node not in self.Q` in `choose` can hold for the mirror image of a
      trained position. */
  lemma QuixoLookupMisses(i: int, j: int, v: int)
    requires OffAxes(i, j)
    ensures Eq(Lone(i, j), Lone(i, 4 - j))
    ensures !In(Quixo(), [(Lone(i, j), v)], Lone(i, 4 - j))
    ensures Read(Quixo(), [(Lone(i, j), v)], Lone(i, 4 - j)) == 0
  {
    HashKeyNotInvariant(i, j);
    FindSpec(Quixo(), [(Lone(i, j), v)], Lone(i, 4 - j));
  }

  // ---------------------------------------------------------------------
  // `find_the_child`: the move the trained player makes.

  /** The key of `find_the_child`: the total reward `monteQ[y]` of a
      trained board, and the infinity that loses for an untrained one. */
  function Total(q: Dict<Position, int>, y: Position, reverse: bool): Rating
  {
    if In(Quixo(), q, y) then Avg(Read(Quixo(), q, y) as real)
    else if reverse then PosInf else NegInf
  }

  /** `find_the_child(monteQ, player, reverse)`: `max` of the successors
      by total reward, `min` with `reverse`; the first best one wins ties
      and an empty list raises `ValueError`. */
  function FindTheChild(q: Dict<Position, int>, board: Position, player: Option<string>, reverse: bool): (r: Result<Position>)
  {
    var kids := Successors(board, player);
    if kids == [] then Raise(ValueError)
    else Ok(kids[ArgBest(kids, y => Total(q, y, reverse), !reverse)])
  }

  /** The child found is the first successor with the best total, and a
      trained successor always wins over an untrained one. */
  lemma FindTheChildSpec(q: Dict<Position, int>, board: Position, player: Option<string>, reverse: bool)
    ensures var r := FindTheChild(q, board, player, reverse);
      var kids := Successors(board, player);
      && (r.Raise? <==> kids == [])
      && (r.Raise? ==> r.error == ValueError)
      && (r.Ok? ==> exists m | 0 <= m < |kids| ::
        && kids[m] == r.value
        && (forall k | 0 <= k < |kids| :: !Beats(Total(q, kids[k], reverse), Total(q, r.value, reverse), !reverse))
        && (forall k | 0 <= k < m :: Beats(Total(q, r.value, reverse), Total(q, kids[k], reverse), !reverse)))
      && (r.Ok? && (exists k | 0 <= k < |kids| :: In(Quixo(), q, kids[k])) ==> In(Quixo(), q, r.value))
  {
    var r := FindTheChild(q, board, player, reverse);
    var kids := Successors(board, player);
    if r.Ok? {
      var key := y => Total(q, y, reverse);
      var m := ArgBest(kids, key, !reverse);
      assert kids[m] == r.value;
      if k :| 0 <= k < |kids| && In(Quixo(), q, kids[k]) {
        assert !Beats(key(kids[k]), key(kids[m]), !reverse);
      }
    }
  }

  /** `find_the_child` ranks by the total reward where `choose` ranks by
      the average: with totals 2 and 3 over 1 and 3 visits, `max` by
      total takes the second board and `choose`'s score the first. */
  lemma FindTheChildNotAverage(player: string)
    ensures var x := Lone(0, 0);
      var y := Lone(0, 1);
      var s := Searcher(player, [(x, 2), (y, 3)], [(x, 1), (y, 3)], []);
      && ArgBest([x, y], z => Total(s.q, z, false), true) == 1
      && ArgBest([x, y], z => Score(Quixo(), s, z, false), true) == 0
  {
    TrainedPair(Lone(0, 0), Lone(0, 1));
    RankingsDiffer(player, Lone(0, 0), Lone(0, 1));
  }

  /** The two rankings on any two boards that do not match. */
  lemma RankingsDiffer(player: string, x: Position, y: Position)
    requires !Matches(Quixo(), x, y)
    ensures var s := Searcher(player, [(x, 2), (y, 3)], [(x, 1), (y, 3)], []);
      && ArgBest([x, y], z => Total(s.q, z, false), true) == 1
      && ArgBest([x, y], z => Score(Quixo(), s, z, false), true) == 0
  {
    var s := Searcher(player, [(x, 2), (y, 3)], [(x, 1), (y, 3)], []);
    TwoEntries(x, y, 2, 3);
    TwoEntries(x, y, 1, 3);
    var total := z => Total(s.q, z, false);
    var score := z => Score(Quixo(), s, z, false);
    assert total(x) == Avg(2.0) && total(y) == Avg(3.0);
    ArgBestPair(x, y, total, true);
    assert score(x) == Avg(2.0) && score(y) == Avg(1.0);
    ArgBestPair(x, y, score, true);
  }

  /** The corner and the edge board of the example do not match. */
  lemma TrainedPair(x: Position, y: Position)
    requires x == Lone(0, 0) && y == Lone(0, 1)
    ensures !Matches(Quixo(), x, y)
  {
    CornerNotEdge();
    SingleInjective(0, 0, 0, 1);
    QuixoMatches(x, y);
  }

  /** `max` or `min` of two: the second only when it strictly beats the first. */
  lemma ArgBestPair<N>(x: N, y: N, key: N -> Rating, greatest: bool)
    ensures ArgBest([x, y], key, greatest) == if Beats(key(y), key(x), greatest) then 1 else 0
  {
    assert [x, y][..1] == [x];
  }

  /** A dictionary of two boards that do not match finds each one. */
  lemma TwoEntries(x: Position, y: Position, u: int, v: int)
    requires !Matches(Quixo(), x, y)
    ensures In(Quixo(), [(x, u), (y, v)], x) && Read(Quixo(), [(x, u), (y, v)], x) == u
    ensures In(Quixo(), [(x, u), (y, v)], y) && Read(Quixo(), [(x, u), (y, v)], y) == v
  {
    QuixoMatches(x, x);
    QuixoMatches(y, y);
    assert Find(Quixo(), [(x, u), (y, v)], x) == Some(0);
    assert Find(Quixo(), [(y, v)], y) == Some(0);
  }
}
