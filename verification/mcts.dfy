/** The Monte Carlo tree searcher `MCTS`, generic in the node type.

    The searcher keeps three dictionaries keyed by nodes: `Q` (total reward),
    `N` (visit count) and `children`. A Python dictionary finds a key through
    its hash and `__eq__`, so a node is "in" a dictionary when some stored key
    has the same hash and compares equal to it. The model keeps each
    dictionary as its list of entries in insertion order and looks keys up
    with exactly that test, the stored key on the left of `==`. Sets are
    kept the same way. Value equality of nodes stands in for the identity
    test, and among keys of equal hash the earliest stored one is tried
    first. */
module Mcts {
  import opened PyRuntime

  /** What the searcher uses of a node: `__eq__`, `__hash__`,
      `find_children(player)` and `is_terminal()`. */
  datatype Game<!N> = Game(
    eq: (N, N) -> bool,
    hash: N -> int,
    children: (N, Option<string>) -> Option<seq<N>>,
    terminal: N -> bool)

  /** A dictionary: its entries in insertion order. */
  type Dict<N, V> = seq<(N, V)>

  /** The test a dictionary applies to a stored key and a probe: the very
      same object, or an equal hash and `stored == x`. */
  predicate Matches<N(==)>(g: Game<N>, stored: N, x: N)
  {
    stored == x || (g.hash(stored) == g.hash(x) && g.eq(stored, x))
  }

  /** The entry a lookup of `x` lands on: the first stored key that matches. */
  function Find<N(==), V>(g: Game<N>, d: Dict<N, V>, x: N): (r: Option<nat>)
    ensures r.Some? ==> r.value < |d|
  {
    if d == [] then None
    else if Matches(g, d[0].0, x) then Some(0)
    else match Find(g, d[1..], x)
      case None => None
      case Some(i) => Some(i + 1)
  }

  /** A lookup lands on a matching key with no match before it, and finds
      nothing exactly when no key matches. */
  lemma {:induction false} FindSpec<N, V>(g: Game<N>, d: Dict<N, V>, x: N)
    ensures Find(g, d, x).Some? ==> Matches(g, d[Find(g, d, x).value].0, x)
    ensures Find(g, d, x).Some? ==> forall i | 0 <= i < Find(g, d, x).value :: !Matches(g, d[i].0, x)
    ensures Find(g, d, x).None? <==> forall i | 0 <= i < |d| :: !Matches(g, d[i].0, x)
  {
    if d != [] && !Matches(g, d[0].0, x) {
      FindSpec(g, d[1..], x);
      assert forall i | 1 <= i < |d| :: d[1..][i - 1] == d[i];
    }
  }

  /** `x in d` */
  predicate In<N(==), V>(g: Game<N>, d: Dict<N, V>, x: N)
  {
    Find(g, d, x).Some?
  }

  /** `d[x]` on a plain dictionary; `None` stands for the `KeyError`. */
  function Get<N(==), V>(g: Game<N>, d: Dict<N, V>, x: N): Option<V>
  {
    match Find(g, d, x)
    case None => None
    case Some(i) => Some(d[i].1)
  }

  /** `d[x]` on a `defaultdict`: an absent key reads as 0. */
  function Read<N(==)>(g: Game<N>, d: Dict<N, int>, x: N): int
  {
    match Find(g, d, x)
    case None => 0
    case Some(i) => d[i].1
  }

  /** `r` keeps the keys of `d`, in order, and may add more after them. */
  predicate Extends<N(==), V>(d: Dict<N, V>, r: Dict<N, V>)
  {
    |d| <= |r| && forall i | 0 <= i < |d| :: r[i].0 == d[i].0
  }

  /** A key found before more keys are added is still found at the same
      entry: lookups take the first match, and new keys come last. */
  lemma FindStable<N, V>(g: Game<N>, d: Dict<N, V>, r: Dict<N, V>, x: N)
    requires Extends(d, r) && In(g, d, x)
    ensures Find(g, r, x) == Find(g, d, x)
  {
    FindSpec(g, d, x);
    FindSpec(g, r, x);
    var i := Find(g, d, x).value;
    assert Matches(g, r[i].0, x);
  }

  /** `d[x] += delta` on a `defaultdict(int)`: the entry `x` lands on grows
      by `delta`, or a new entry holding `delta` is appended. */
  function Bump<N(==)>(g: Game<N>, d: Dict<N, int>, x: N, delta: int): (r: Dict<N, int>)
    ensures Extends(d, r)
    ensures |r| == if In(g, d, x) then |d| else |d| + 1
    ensures Find(g, r, x) == if In(g, d, x) then Find(g, d, x) else Some(|d|)
    ensures Read(g, r, x) == Read(g, d, x) + delta
    ensures forall i | 0 <= i < |d| && Find(g, d, x) != Some(i) :: r[i] == d[i]
    ensures !In(g, d, x) ==> r[|d|] == (x, delta)
  {
    match Find(g, d, x)
    case Some(i) =>
      var r := d[i := (d[i].0, d[i].1 + delta)];
      FindStable(g, d, r, x);
      r
    case None =>
      var r := d + [(x, delta)];
      FindSpec(g, d, x);
      FindSpec(g, r, x);
      assert forall i | 0 <= i < |d| :: r[i] == d[i];
      assert Matches(g, r[|d|].0, x);
      r
  }

  /** `for node in reversed(path): d[node] += delta` */
  function BumpAll<N(==)>(g: Game<N>, d: Dict<N, int>, path: seq<N>, delta: int): (r: Dict<N, int>)
    ensures Extends(d, r)
    decreases |path|
  {
    if path == [] then d
    else BumpAll(g, Bump(g, d, path[|path| - 1], delta), path[..|path| - 1], delta)
  }

  /** How many entries of `path` land on entry `i` of `d`. */
  function Hits<N(==), V>(g: Game<N>, d: Dict<N, V>, path: seq<N>, i: nat): nat
    decreases |path|
  {
    if path == [] then 0
    else Hits(g, d, path[..|path| - 1], i) + (if Find(g, d, path[|path| - 1]) == Some(i) then 1 else 0)
  }

  /** The value an entry had before, a new entry counting as 0. */
  function Before<N>(d: Dict<N, int>, i: nat): int
  {
    if i < |d| then d[i].1 else 0
  }

  /** One step of the fold: the entry the last node lands on grew by
      `delta`, and it is where that node lands in any later extension. */
  lemma BumpStep<N>(g: Game<N>, d: Dict<N, int>, x: N, delta: int, r: Dict<N, int>, i: nat)
    requires Extends(Bump(g, d, x, delta), r) && i < |Bump(g, d, x, delta)|
    ensures Find(g, r, x) == Find(g, Bump(g, d, x, delta), x)
    ensures Before(Bump(g, d, x, delta), i) == Before(d, i) + (if Find(g, r, x) == Some(i) then delta else 0)
  {
    var d1 := Bump(g, d, x, delta);
    FindStable(g, d1, r, x);
  }

  /** After the fold every node of the path is a key. */
  lemma {:induction false} BumpAllKeys<N>(g: Game<N>, d: Dict<N, int>, path: seq<N>, delta: int)
    ensures forall p | 0 <= p < |path| :: In(g, BumpAll(g, d, path, delta), path[p])
    decreases |path|
  {
    if path != [] {
      var x := path[|path| - 1];
      var init := path[..|path| - 1];
      var d1 := Bump(g, d, x, delta);
      var r := BumpAll(g, d1, init, delta);
      BumpAllKeys(g, d1, init, delta);
      FindStable(g, d1, r, x);
      forall p | 0 <= p < |path|
        ensures In(g, r, path[p])
      {
        if p < |path| - 1 {
          assert path[p] == init[p];
        }
      }
    }
  }

  /** An entry the fold appends holds a node of the path itself, and at
      least one node of the path lands on it. */
  lemma {:induction false} BumpAllFresh<N>(g: Game<N>, d: Dict<N, int>, path: seq<N>, delta: int, i: nat)
    requires |d| <= i < |BumpAll(g, d, path, delta)|
    ensures Hits(g, BumpAll(g, d, path, delta), path, i) >= 1
    ensures exists p | 0 <= p < |path| :: BumpAll(g, d, path, delta)[i].0 == path[p]
    decreases |path|
  {
    if path != [] {
      var x := path[|path| - 1];
      var init := path[..|path| - 1];
      var d1 := Bump(g, d, x, delta);
      var r := BumpAll(g, d1, init, delta);
      assert BumpAll(g, d, path, delta) == r;
      if i < |d1| {
        FindStable(g, d1, r, x);
        assert Find(g, r, x) == Some(i);
        assert r[i].0 == d1[i].0 == path[|path| - 1];
      } else {
        BumpAllFresh(g, d1, init, delta, i);
        var p :| 0 <= p < |init| && r[i].0 == init[p];
        assert init[p] == path[p];
      }
    }
  }

  lemma MulSucc(a: int, h: int)
    ensures a * (h + 1) == a * h + a
  {
  }

  /** After the fold each entry has grown by `delta` once for every node of
      the path that lands on it, and by nothing else; an entry the fold
      appended holds a node of the path that lands on it. */
  lemma BumpAllCounts<N>(g: Game<N>, d: Dict<N, int>, path: seq<N>, delta: int, i: nat)
    requires i < |BumpAll(g, d, path, delta)|
    ensures BumpAll(g, d, path, delta)[i].1 == Before(d, i) + delta * Hits(g, BumpAll(g, d, path, delta), path, i)
    ensures |d| <= i ==> Hits(g, BumpAll(g, d, path, delta), path, i) >= 1
    ensures |d| <= i ==> exists p | 0 <= p < |path| :: BumpAll(g, d, path, delta)[i].0 == path[p]
  {
    BumpAllGrowth(g, d, path, delta, i);
    if |d| <= i {
      BumpAllFresh(g, d, path, delta, i);
    }
  }

  /** The growth part of `BumpAllCounts`, by induction on the path. */
  lemma {:induction false} BumpAllGrowth<N>(g: Game<N>, d: Dict<N, int>, path: seq<N>, delta: int, i: nat)
    requires i < |BumpAll(g, d, path, delta)|
    ensures BumpAll(g, d, path, delta)[i].1 == Before(d, i) + delta * Hits(g, BumpAll(g, d, path, delta), path, i)
    decreases |path|
  {
    if path != [] {
      var x := path[|path| - 1];
      var init := path[..|path| - 1];
      var d1 := Bump(g, d, x, delta);
      var r := BumpAll(g, d1, init, delta);
      BumpAllGrowth(g, d1, init, delta, i);
      assert BumpAll(g, d, path, delta) == r;
      var h := Hits(g, r, init, i);
      var hit := Find(g, r, x) == Some(i);
      assert Hits(g, r, path, i) == h + (if hit then 1 else 0);
      BumpBefore(g, d, x, delta, r, i);
      CountStep(r[i].1, Before(d, i), Before(d1, i), delta, h, hit);
    }
  }

  /** Bumping `x` raises entry `i` by `delta` exactly when `x` lands on it
      in the final dictionary. */
  lemma BumpBefore<N>(g: Game<N>, d: Dict<N, int>, x: N, delta: int, r: Dict<N, int>, i: nat)
    requires Extends(Bump(g, d, x, delta), r) && i < |r|
    ensures Before(Bump(g, d, x, delta), i) == Before(d, i) + (if Find(g, r, x) == Some(i) then delta else 0)
  {
    var d1 := Bump(g, d, x, delta);
    if i < |d1| {
      BumpStep(g, d, x, delta, r, i);
    } else {
      FindStable(g, d1, r, x);
    }
  }

  lemma CountStep(v: int, b: int, b1: int, delta: int, h: nat, hit: bool)
    requires v == b1 + delta * h && b1 == b + (if hit then delta else 0)
    ensures v == b + delta * (h + if hit then 1 else 0)
  {
    if hit {
      MulSucc(delta, h);
    }
  }

  /** The searcher's state: its own player and the three dictionaries.
      `Q` totals are kept as integers: rewards are the integers 3, 1 and -1. */
  datatype Searcher<N> = Searcher(
    player: string,
    q: Dict<N, int>,
    n: Dict<N, int>,
    children: Dict<N, Option<seq<N>>>)

  /** `_backpropagate(path, reward)`: every node of the path, last first,
      adds 1 to its visit count and `reward` to its total. */
  function Backpropagate<N(==)>(g: Game<N>, s: Searcher<N>, path: seq<N>, reward: int): (r: Searcher<N>)
    ensures r.player == s.player && r.children == s.children
    ensures Extends(s.n, r.n) && Extends(s.q, r.q)
  {
    s.(n := BumpAll(g, s.n, path, 1), q := BumpAll(g, s.q, path, reward))
  }

  /** Backpropagation touches each statistic once per occurrence of a node in
      the path, adds exactly 1 visit and `reward` per occurrence, appends an
      entry only for a node of the path that lands on it, and leaves every
      other entry as it was. */
  lemma BackpropagateSpec<N>(g: Game<N>, s: Searcher<N>, path: seq<N>, reward: int)
    ensures var r := Backpropagate(g, s, path, reward);
      && (forall p | 0 <= p < |path| :: In(g, r.n, path[p]) && In(g, r.q, path[p]))
      && (forall i | 0 <= i < |r.n| :: r.n[i].1 == Before(s.n, i) + Hits(g, r.n, path, i))
      && (forall i | 0 <= i < |r.q| :: r.q[i].1 == Before(s.q, i) + reward * Hits(g, r.q, path, i))
      && (forall i | |s.n| <= i < |r.n| :: Hits(g, r.n, path, i) >= 1 && exists p | 0 <= p < |path| :: r.n[i].0 == path[p])
      && (forall i | |s.q| <= i < |r.q| :: Hits(g, r.q, path, i) >= 1 && exists p | 0 <= p < |path| :: r.q[i].0 == path[p])
  {
    var r := Backpropagate(g, s, path, reward);
    BumpAllKeys(g, s.n, path, 1);
    BumpAllKeys(g, s.q, path, reward);
    forall i | 0 <= i < |r.n|
      ensures r.n[i].1 == Before(s.n, i) + Hits(g, r.n, path, i)
      ensures |s.n| <= i ==> Hits(g, r.n, path, i) >= 1 && exists p | 0 <= p < |path| :: r.n[i].0 == path[p]
    {
      BumpAllCounts(g, s.n, path, 1, i);
    }
    forall i | 0 <= i < |r.q|
      ensures r.q[i].1 == Before(s.q, i) + reward * Hits(g, r.q, path, i)
      ensures |s.q| <= i ==> Hits(g, r.q, path, i) >= 1 && exists p | 0 <= p < |path| :: r.q[i].0 == path[p]
    {
      BumpAllCounts(g, s.q, path, reward, i);
    }
  }

  /** `_expand(node, player)`: a node already among the keys of `children`
      is left alone; otherwise its `find_children(player)` is stored. */
  function Expand<N(==)>(g: Game<N>, c: Dict<N, Option<seq<N>>>, node: N, player: Option<string>): (r: Dict<N, Option<seq<N>>>)
    ensures Extends(c, r) && r[..|c|] == c
  {
    if In(g, c, node) then c else c + [(node, g.children(node, player))]
  }

  /** After expansion the node is a key; an earlier entry is kept, and a new
      entry holds `find_children(player)`. A second expansion, for any
      player, changes nothing. */
  lemma ExpandSpec<N>(g: Game<N>, c: Dict<N, Option<seq<N>>>, node: N, player: Option<string>, other: Option<string>)
    ensures In(g, Expand(g, c, node, player), node)
    ensures In(g, c, node) ==> Expand(g, c, node, player) == c
    ensures !In(g, c, node) ==> Get(g, Expand(g, c, node, player), node) == Some(g.children(node, player))
    ensures Expand(g, Expand(g, c, node, player), node, other) == Expand(g, c, node, player)
  {
    var r := Expand(g, c, node, player);
    FindSpec(g, c, node);
    FindSpec(g, r, node);
    if !In(g, c, node) {
      assert Matches(g, r[|c|].0, node);
      assert forall i | 0 <= i < |c| :: r[i] == c[i];
    }
  }

  /** The keys of a dictionary in insertion order, as iterating over
      `d.keys()` yields them. */
  function Keys<N, V>(d: Dict<N, V>): (ks: seq<N>)
    ensures |ks| == |d|
    ensures forall i | 0 <= i < |d| :: ks[i] == d[i].0
  {
    seq(|d|, i requires 0 <= i < |d| => d[i].0)
  }

  /** A Python `set` of nodes. Like a dictionary it finds an element through
      its hash and `__eq__`, with the stored element on the left of `==`, so
      it is kept as a dictionary with no values. */
  type PySet<N> = Dict<N, ()>

  /** `set(xs)`: each node is added unless a stored element matches it. */
  function SetOf<N(==)>(g: Game<N>, xs: seq<N>): (s: PySet<N>)
    ensures |s| <= |xs|
  {
    if xs == [] then []
    else
      var s := SetOf(g, xs[..|xs| - 1]);
      var x := xs[|xs| - 1];
      if In(g, s, x) then s else s + [(x, ())]
  }

  /** `s.discard(x)`: the element a lookup of `x` lands on is removed. */
  function Discard<N(==)>(g: Game<N>, s: PySet<N>, x: N): (r: PySet<N>)
    ensures |r| <= |s|
  {
    match Find(g, s, x)
    case None => s
    case Some(i) => s[..i] + s[i + 1..]
  }

  /** `s.difference_update(keys)`: the keys are discarded one by one, in
      order. */
  function DiscardAll<N(==)>(g: Game<N>, s: PySet<N>, keys: seq<N>): (r: PySet<N>)
    ensures |r| <= |s|
    decreases |keys|
  {
    if keys == [] then s else DiscardAll(g, Discard(g, s, keys[0]), keys[1..])
  }

  /** `self.children[node] - self.children.keys()`. A list minus a keys
      view is computed by CPython as `set(kids)` followed by
      `difference_update` with the keys in insertion order. Which element
      `set.pop()` then returns is not determined by the program, so the
      model leaves the choice to its caller. */
  function Unexplored<N(==)>(g: Game<N>, c: Dict<N, Option<seq<N>>>, kids: seq<N>): seq<N>
  {
    Keys(DiscardAll(g, SetOf(g, kids), Keys(c)))
  }

  /** `all(n in self.children for n in kids)`, the assertion of
      `_uct_select`. */
  predicate AllKeys<N(==)>(g: Game<N>, c: Dict<N, Option<seq<N>>>, kids: seq<N>)
  {
    kids == [] || (In(g, c, kids[0]) && AllKeys(g, c, kids[1..]))
  }

  lemma {:induction false} AllKeysSpec<N>(g: Game<N>, c: Dict<N, Option<seq<N>>>, kids: seq<N>)
    ensures AllKeys(g, c, kids) <==> forall k | 0 <= k < |kids| :: In(g, c, kids[k])
  {
    if kids != [] {
      AllKeysSpec(g, c, kids[1..]);
      assert forall k | 1 <= k < |kids| :: kids[1..][k - 1] == kids[k];
    }
  }

  /** No element of a set matches a later one: `set.add` never stores an
      element a stored one matches. */
  predicate Apart<N(==)>(g: Game<N>, s: PySet<N>)
  {
    forall i, j | 0 <= i < j < |s| :: !Matches(g, s[i].0, s[j].0)
  }

  /** `set(xs)` holds nodes of `xs`, finds every node of `xs`, and keeps its
      elements apart. */
  lemma {:induction false} SetOfSpec<N>(g: Game<N>, xs: seq<N>)
    ensures forall x | x in Keys(SetOf(g, xs)) :: x in xs
    ensures forall k | 0 <= k < |xs| :: In(g, SetOf(g, xs), xs[k])
    ensures Apart(g, SetOf(g, xs))
    decreases |xs|
  {
    if xs != [] {
      var init := xs[..|xs| - 1];
      var x := xs[|xs| - 1];
      var s := SetOf(g, init);
      SetOfSpec(g, init);
      assert xs == init + [x];
      if !In(g, s, x) {
        SetOfAdd(g, s, x);
      }
      forall k | 0 <= k < |xs|
        ensures In(g, SetOf(g, xs), xs[k])
      {
        if k < |init| {
          assert init[k] == xs[k];
          if !In(g, s, x) {
            FindStable(g, s, s + [(x, ())], xs[k]);
          }
        }
      }
    }
  }

  /** Adding a node no stored element matches keeps a set apart and makes
      the node found. */
  lemma SetOfAdd<N>(g: Game<N>, s: PySet<N>, x: N)
    requires Apart(g, s) && !In(g, s, x)
    ensures Apart(g, s + [(x, ())])
    ensures In(g, s + [(x, ())], x)
    ensures forall y | y in Keys(s + [(x, ())]) :: y in Keys(s) || y == x
  {
    var r := s + [(x, ())];
    FindSpec(g, s, x);
    FindSpec(g, r, x);
    assert Matches(g, r[|s|].0, x);
    forall y | y in Keys(r)
      ensures y in Keys(s) || y == x
    {
      var i :| 0 <= i < |r| && Keys(r)[i] == y;
      if i < |s| {
        assert Keys(s)[i] == y;
      }
    }
  }

  /** Discarding keeps the other elements, in order, and keeps a set
      apart. */
  lemma DiscardSound<N>(g: Game<N>, s: PySet<N>, x: N)
    requires Apart(g, s)
    ensures forall y | y in Keys(Discard(g, s, x)) :: y in Keys(s)
    ensures Apart(g, Discard(g, s, x))
  {
    match Find(g, s, x)
    case None =>
    case Some(i) =>
      var r := s[..i] + s[i + 1..];
      assert forall p | 0 <= p < |r| :: r[p] == s[if p < i then p else p + 1];
      forall y | y in Keys(r)
        ensures y in Keys(s)
      {
        var p :| 0 <= p < |r| && Keys(r)[p] == y;
        assert Keys(s)[if p < i then p else p + 1] == y;
      }
  }

  lemma {:induction false} DiscardAllSound<N>(g: Game<N>, s: PySet<N>, keys: seq<N>)
    requires Apart(g, s)
    ensures forall y | y in Keys(DiscardAll(g, s, keys)) :: y in Keys(s)
    ensures Apart(g, DiscardAll(g, s, keys))
    decreases |keys|
  {
    if keys != [] {
      DiscardSound(g, s, keys[0]);
      DiscardAllSound(g, Discard(g, s, keys[0]), keys[1..]);
    }
  }

  /** Whatever `__eq__` does, the unexplored nodes are children of the node,
      and no one of them matches a later one. */
  lemma UnexploredSound<N>(g: Game<N>, c: Dict<N, Option<seq<N>>>, kids: seq<N>)
    ensures forall x | x in Unexplored(g, c, kids) :: x in kids
    ensures forall i, j | 0 <= i < j < |Unexplored(g, c, kids)| ::
      !Matches(g, Unexplored(g, c, kids)[i], Unexplored(g, c, kids)[j])
  {
    var s := SetOf(g, kids);
    SetOfSpec(g, kids);
    DiscardAllSound(g, s, Keys(c));
  }

  /** Under an equivalence, an element of a set that is apart matches at
      most one stored element: discarding `x` removes exactly the element
      that matches it. */
  lemma DiscardEquiv<N(!new)>(g: Game<N>, s: PySet<N>, x: N, y: N)
    requires Equivalence(g) && Apart(g, s)
    ensures y in Keys(Discard(g, s, x)) <==> y in Keys(s) && !Matches(g, y, x)
  {
    FindSpec(g, s, x);
    match Find(g, s, x)
    case None =>
      if y in Keys(s) {
        var p :| 0 <= p < |s| && Keys(s)[p] == y;
      }
    case Some(i) =>
      KeysRemove(s, i, y);
      if y in Keys(s[..i] + s[i + 1..]) {
        var q :| 0 <= q < |s| && q != i && Keys(s)[q] == y;
        ApartOthers(g, s, x, i, q);
      }
      if y in Keys(s) && !Matches(g, y, x) {
        var q :| 0 <= q < |s| && Keys(s)[q] == y;
        assert q != i;
      }
  }

  /** Removing entry `i` leaves exactly the keys of the other entries. */
  lemma KeysRemove<N, V>(s: Dict<N, V>, i: nat, y: N)
    requires i < |s|
    ensures y in Keys(s[..i] + s[i + 1..]) <==> exists q | 0 <= q < |s| && q != i :: Keys(s)[q] == y
  {
    var r := s[..i] + s[i + 1..];
    assert forall p | 0 <= p < |r| :: r[p] == s[if p < i then p else p + 1];
    if y in Keys(r) {
      var p :| 0 <= p < |r| && Keys(r)[p] == y;
      assert Keys(s)[if p < i then p else p + 1] == y;
    }
    if exists q | 0 <= q < |s| && q != i :: Keys(s)[q] == y {
      var q :| 0 <= q < |s| && q != i && Keys(s)[q] == y;
      assert Keys(r)[if q < i then q else q - 1] == y;
    }
  }

  /** Two elements of a set that is apart never both match one node under
      an equivalence. */
  lemma ApartOthers<N(!new)>(g: Game<N>, s: PySet<N>, x: N, i: nat, q: nat)
    requires Equivalence(g) && Apart(g, s)
    requires i < |s| && q < |s| && i != q && Matches(g, s[i].0, x)
    ensures !Matches(g, s[q].0, x)
  {
    var lo, hi := if i < q then i else q, if i < q then q else i;
    assert !Matches(g, s[lo].0, s[hi].0);
  }

  /** Under an equivalence, discarding the keys one by one leaves exactly
      the elements that match no key. */
  lemma {:induction false} DiscardAllEquiv<N(!new)>(g: Game<N>, s: PySet<N>, keys: seq<N>, y: N)
    requires Equivalence(g) && Apart(g, s)
    ensures y in Keys(DiscardAll(g, s, keys))
        <==> y in Keys(s) && forall j | 0 <= j < |keys| :: !Matches(g, y, keys[j])
    decreases |keys|
  {
    if keys != [] {
      var rest := keys[1..];
      DiscardEquiv(g, s, keys[0], y);
      DiscardSound(g, s, keys[0]);
      DiscardAllEquiv(g, Discard(g, s, keys[0]), rest, y);
      assert DiscardAll(g, s, keys) == DiscardAll(g, Discard(g, s, keys[0]), rest);
      assert (forall j | 0 <= j < |keys| :: !Matches(g, y, keys[j]))
        <==> !Matches(g, y, keys[0]) && forall j | 0 <= j < |rest| :: !Matches(g, y, rest[j]) by {
        assert forall j | 0 <= j < |rest| :: rest[j] == keys[j + 1];
      }
    }
  }

  /** Under an equivalence, a node is a key exactly when it matches one. */
  lemma InKeys<N(!new), V>(g: Game<N>, d: Dict<N, V>, y: N)
    requires Equivalence(g)
    ensures In(g, d, y) <==> exists j | 0 <= j < |d| :: Matches(g, y, Keys(d)[j])
  {
    FindSpec(g, d, y);
    if In(g, d, y) {
      var i := Find(g, d, y).value;
      assert Matches(g, y, Keys(d)[i]);
    }
    if exists j | 0 <= j < |d| :: Matches(g, y, Keys(d)[j]) {
      var j :| 0 <= j < |d| && Matches(g, y, Keys(d)[j]);
      assert Matches(g, d[j].0, y);
    }
  }

  /** Under an equivalence, a node is unexplored exactly when it stands for
      its class in `set(kids)` and is not a key. */
  lemma UnexploredMembers<N(!new)>(g: Game<N>, c: Dict<N, Option<seq<N>>>, kids: seq<N>, y: N)
    requires Equivalence(g)
    ensures y in Unexplored(g, c, kids) <==> y in Keys(SetOf(g, kids)) && !In(g, c, y)
  {
    SetOfSpec(g, kids);
    DiscardAllEquiv(g, SetOf(g, kids), Keys(c), y);
    InKeys(g, c, y);
  }

  /** Under an equivalence, the unexplored nodes are children that are not
      keys. */
  lemma UnexploredNotKeys<N(!new)>(g: Game<N>, c: Dict<N, Option<seq<N>>>, kids: seq<N>)
    requires Equivalence(g)
    ensures forall x | x in Unexplored(g, c, kids) :: x in kids && !In(g, c, x)
  {
    SetOfSpec(g, kids);
    forall x | x in Unexplored(g, c, kids)
      ensures x in kids && !In(g, c, x)
    {
      UnexploredMembers(g, c, kids, x);
    }
  }

  /** Under an equivalence, every child that is not a key is stood for by an
      unexplored node it matches. */
  lemma UnexploredCovers<N(!new)>(g: Game<N>, c: Dict<N, Option<seq<N>>>, kids: seq<N>, k: nat)
    requires Equivalence(g) && k < |kids| && !In(g, c, kids[k])
    ensures exists x | x in Unexplored(g, c, kids) :: Matches(g, x, kids[k])
  {
    var s := SetOf(g, kids);
    SetOfSpec(g, kids);
    FindSpec(g, s, kids[k]);
    var x := s[Find(g, s, kids[k]).value].0;
    assert Keys(s)[Find(g, s, kids[k]).value] == x;
    FindClass(g, c, x, kids[k]);
    UnexploredMembers(g, c, kids, x);
  }

  /** Under an equivalence, nothing is unexplored exactly when every child is
      a key, which is what the assertion of `_uct_select` checks. */
  lemma UnexploredEmpty<N(!new)>(g: Game<N>, c: Dict<N, Option<seq<N>>>, kids: seq<N>)
    requires Equivalence(g)
    ensures Unexplored(g, c, kids) == [] <==> AllKeys(g, c, kids)
  {
    UnexploredNotKeys(g, c, kids);
    AllKeysSpec(g, c, kids);
    if !AllKeys(g, c, kids) {
      var k :| 0 <= k < |kids| && !In(g, c, kids[k]);
      UnexploredCovers(g, c, kids, k);
      assert Unexplored(g, c, kids) != [];
    } else {
      HeadIn(Unexplored(g, c, kids));
    }
  }

  lemma HeadIn<T>(xs: seq<T>)
    ensures xs == [] || xs[0] in xs
  {
  }

  /** Stable insertion of `x` after every element scoring at least as much. */
  function Insert<N>(x: N, s: seq<N>, score: N -> real): (r: seq<N>)
    ensures |r| == |s| + 1
  {
    if s == [] then [x]
    else if score(s[0]) >= score(x) then [s[0]] + Insert(x, s[1..], score)
    else [x] + s
  }

  lemma {:induction false} InsertMultiset<N>(x: N, s: seq<N>, score: N -> real)
    ensures multiset(Insert(x, s, score)) == multiset(s) + multiset{x}
  {
    if s != [] && score(s[0]) >= score(x) {
      InsertMultiset(x, s[1..], score);
      assert s == [s[0]] + s[1..];
    }
  }

  lemma {:induction false} InsertDescending<N>(x: N, s: seq<N>, score: N -> real)
    requires Descending(s, score)
    ensures Descending(Insert(x, s, score), score)
  {
    if s != [] {
      var r := Insert(x, s, score);
      if score(s[0]) >= score(x) {
        var t := Insert(x, s[1..], score);
        InsertDescending(x, s[1..], score);
        InsertMultiset(x, s[1..], score);
        assert s == [s[0]] + s[1..];
        forall k | 0 <= k < |t|
          ensures score(s[0]) >= score(t[k])
        {
          assert t[k] in multiset(t);
          if t[k] != x {
            assert t[k] in multiset(s[1..]);
            var m :| 0 <= m < |s[1..]| && s[1..][m] == t[k];
            assert s[m + 1] == t[k];
          }
        }
        assert r == [s[0]] + t;
      }
    }
  }

  /** Scores never increase along `s`. */
  predicate Descending<N>(s: seq<N>, score: N -> real)
  {
    forall i, j | 0 <= i < j < |s| :: score(s[i]) >= score(s[j])
  }

  /** `sorted(xs, key=score, reverse=True)`: best score first, equal scores
      in their original order. */
  function SortDesc<N>(xs: seq<N>, score: N -> real): (r: seq<N>)
    ensures |r| == |xs|
  {
    if xs == [] then []
    else
      Insert(xs[|xs| - 1], SortDesc(xs[..|xs| - 1], score), score)
  }

  /** The sorted list is a permutation of the children, best score first. */
  lemma {:induction false} SortDescSpec<N>(xs: seq<N>, score: N -> real)
    ensures multiset(SortDesc(xs, score)) == multiset(xs)
    ensures Descending(SortDesc(xs, score), score)
  {
    if xs != [] {
      var init := xs[..|xs| - 1];
      SortDescSpec(init, score);
      InsertDescending(xs[|xs| - 1], SortDesc(init, score), score);
      InsertMultiset(xs[|xs| - 1], SortDesc(init, score), score);
      assert xs == init + [xs[|xs| - 1]];
    }
  }

  /** The score of a child with `visits` visits under a parent with
      `parent` visits can be computed: `Q[n] / N[n]` needs a count other
      than zero, and `math.sqrt(log(parent) / N[n])` a quotient that is not
      negative, which a negative count breaks once `log(parent)` is
      positive. With `parent` 1 the quotient is -0.0, and its root is. */
  predicate Scorable(visits: int, parent: int)
  {
    visits != 0 && (visits > 0 || parent <= 1)
  }

  /** What a score that cannot be computed raises: the division first,
      then the square root. */
  function ScoreError(visits: int): Exception
  {
    if visits == 0 then ZeroDivisionError else ValueError
  }

  /** The first child whose score raises. `sorted` computes the key of
      every child, in list order, before it compares any two. */
  function Fault<N(==)>(g: Game<N>, n: Dict<N, int>, parent: int, kids: seq<N>): Option<Exception>
  {
    if kids == [] then None
    else if !Scorable(Read(g, n, kids[0]), parent) then Some(ScoreError(Read(g, n, kids[0])))
    else Fault(g, n, parent, kids[1..])
  }

  /** The scores fail exactly when some child's score cannot be computed,
      and then with the error of the first such child. */
  lemma {:induction false} FaultSpec<N>(g: Game<N>, n: Dict<N, int>, parent: int, kids: seq<N>)
    ensures Fault(g, n, parent, kids).None? <==> forall k | 0 <= k < |kids| :: Scorable(Read(g, n, kids[k]), parent)
    ensures Fault(g, n, parent, kids).Some? ==> exists k | 0 <= k < |kids| ::
      && !Scorable(Read(g, n, kids[k]), parent)
      && (forall j | 0 <= j < k :: Scorable(Read(g, n, kids[j]), parent))
      && Fault(g, n, parent, kids).value == ScoreError(Read(g, n, kids[k]))
  {
    if kids != [] {
      var rest := kids[1..];
      FaultSpec(g, n, parent, rest);
      assert forall k | 1 <= k < |kids| :: kids[k] == rest[k - 1];
      if Scorable(Read(g, n, kids[0]), parent) && Fault(g, n, parent, rest).Some? {
        var k :| 0 <= k < |rest| && !Scorable(Read(g, n, rest[k]), parent)
          && (forall j | 0 <= j < k :: Scorable(Read(g, n, rest[j]), parent))
          && Fault(g, n, parent, rest).value == ScoreError(Read(g, n, rest[k]));
        assert kids[k + 1] == rest[k];
        assert forall j | 0 <= j < k + 1 :: Scorable(Read(g, n, kids[j]), parent) by {
          forall j | 0 <= j < k + 1
            ensures Scorable(Read(g, n, kids[j]), parent)
          {
            if j > 0 {
              assert kids[j] == rest[j - 1];
            }
          }
        }
      }
      if Fault(g, n, parent, kids).None? {
        forall k | 0 <= k < |kids|
          ensures Scorable(Read(g, n, kids[k]), parent)
        {
          if k > 0 {
            assert kids[k] == rest[k - 1];
          }
        }
      }
    }
  }

  /** `_uct_select(node, rank)`. The UCT score is floating point; the model
      takes it as a function `uct` from child to score, fixed while the
      statistics do not change. The checks come in the program's order: the
      lookup of `children[node]`, the assertion that every child is a key,
      `math.log(N[node])`, the score of each child in list order (its
      division by `N[child]`, then its square root), and the index `rank`
      into the sorted children. */
  function UctSelect<N(==)>(g: Game<N>, s: Searcher<N>, node: N, rank: nat, uct: N -> real): Result<N>
  {
    var entry := Get(g, s.children, node);
    if entry.None? then Raise(KeyError)
    else if entry.value.None? then Raise(TypeError)
    else
      var kids := entry.value.value;
      if !AllKeys(g, s.children, kids) then Raise(AssertionError)
      else if Read(g, s.n, node) <= 0 then Raise(ValueError)
      else if Fault(g, s.n, Read(g, s.n, node), kids).Some? then Raise(Fault(g, s.n, Read(g, s.n, node), kids).value)
      else
        var ranked := SortDesc(kids, uct);
        if rank < |ranked| then Ok(ranked[rank]) else Raise(IndexError)
  }

  /** The children `children` stores for `node`, if it stores a list. */
  predicate Expanded<N(==)>(g: Game<N>, s: Searcher<N>, node: N, kids: seq<N>)
  {
    Get(g, s.children, node) == Some(Some(kids))
  }

  /** Every node that is a key of `children` has been visited: the
      statistics `_uct_select` divides by are positive. */
  ghost predicate Visited<N(!new)>(g: Game<N>, s: Searcher<N>)
  {
    (forall i | 0 <= i < |s.n| :: s.n[i].1 >= 0)
    && forall x :: VisitedAt(g, s, x)
  }

  predicate VisitedAt<N(==)>(g: Game<N>, s: Searcher<N>, x: N)
  {
    In(g, s.children, x) ==> Read(g, s.n, x) >= 1
  }

  /** Every entry of the ranking is one of the children ranked. */
  lemma RankedIn<N>(kids: seq<N>, uct: N -> real, rank: nat)
    requires rank < |kids|
    ensures SortDesc(kids, uct)[rank] in kids
  {
    var ranked := SortDesc(kids, uct);
    SortDescSpec(kids, uct);
    assert ranked[rank] in multiset(ranked);
  }

  /** `_uct_select` returns the child at position `rank` of the children
      ranked by score, best first; so it is one of the children and `rank`
      is below their number. */
  lemma UctSelectRanked<N>(g: Game<N>, s: Searcher<N>, node: N, rank: nat, uct: N -> real, kids: seq<N>)
    requires Expanded(g, s, node, kids)
    ensures UctSelect(g, s, node, rank, uct).Ok? ==>
      && UctSelect(g, s, node, rank, uct).value in kids
      && rank < |kids|
      && UctSelect(g, s, node, rank, uct).value == SortDesc(kids, uct)[rank]
  {
    if UctSelect(g, s, node, rank, uct).Ok? {
      assert rank < |kids| && UctSelect(g, s, node, rank, uct).value == SortDesc(kids, uct)[rank];
      RankedIn(kids, uct, rank);
    }
  }

  /** When every child is a key and the searcher is `Visited`,
      `_uct_select` succeeds exactly when `rank` is below the number of
      children, and otherwise raises `IndexError`. */
  lemma UctSelectFailure<N(!new)>(g: Game<N>, s: Searcher<N>, node: N, rank: nat, uct: N -> real, kids: seq<N>)
    requires Expanded(g, s, node, kids) && Visited(g, s) && AllKeys(g, s.children, kids)
    ensures UctSelect(g, s, node, rank, uct).Ok? <==> rank < |kids|
    ensures UctSelect(g, s, node, rank, uct).Raise? ==> UctSelect(g, s, node, rank, uct).error == IndexError
  {
    AllKeysSpec(g, s.children, kids);
    FaultSpec(g, s.n, Read(g, s.n, node), kids);
    assert VisitedAt(g, s, node);
    assert forall k | 0 <= k < |kids| :: VisitedAt(g, s, kids[k]);
  }

  /** On a `Visited` searcher `_uct_select` can only fail its assertion or
      index past the end: the lookup, the logarithm and the divisions hold
      once every child is a key. */
  lemma UctSelectErrors<N(!new)>(g: Game<N>, s: Searcher<N>, node: N, rank: nat, uct: N -> real, kids: seq<N>)
    requires Expanded(g, s, node, kids) && Visited(g, s)
    ensures UctSelect(g, s, node, rank, uct).Raise? ==>
      UctSelect(g, s, node, rank, uct).error in {AssertionError, IndexError}
    ensures UctSelect(g, s, node, rank, uct).Raise? && UctSelect(g, s, node, rank, uct).error == AssertionError
      <==> !AllKeys(g, s.children, kids)
  {
    if AllKeys(g, s.children, kids) {
      UctSelectFailure(g, s, node, rank, uct, kids);
    }
  }

  /** A node `_select` stops at: not a key of `children`, or stored with
      `None` or no children. */
  predicate Leaf<N(==)>(g: Game<N>, s: Searcher<N>, node: N)
  {
    match Get(g, s.children, node)
    case None => true
    case Some(kids) => kids.None? || kids.value == []
  }

  /** `node not in path`, the negation: some entry is the node or `==` it. */
  predicate InPath<N(==)>(g: Game<N>, path: seq<N>, node: N)
  {
    exists p | 0 <= p < |path| :: path[p] == node || g.eq(path[p], node)
  }

  /** `set.pop()`: the element the set yields, chosen by `popAt`. */
  function Pop<N>(xs: seq<N>, popAt: nat): (x: N)
    requires xs != []
    ensures x in xs
  {
    xs[popAt % |xs|]
  }

  /** How `_select` can end. */
  datatype Outcome<T> = Done(value: T) | Fails(error: Exception) | OutOfFuel

  /** What one pass through the body of a `while True` loop does: return
      a value, raise, or carry on with new loop variables. */
  datatype Pass<C, R> = Stop(result: R) | Halt(error: Exception) | Go(next: C)

  /** A `while True` loop whose body is `step`, run for at most `fuel + 1`
      passes, since such a loop need not end. */
  function Walk<C, R>(step: C -> Pass<C, R>, c: C, fuel: nat): Outcome<R>
    decreases fuel
  {
    match step(c)
    case Stop(r) => Done(r)
    case Halt(e) => Fails(e)
    case Go(next) => if fuel == 0 then OutOfFuel else Walk(step, next, fuel - 1)
  }

  /** The budget only ever cuts the loop short: an outcome reached within
      one budget is the outcome under every larger budget. */
  lemma {:induction false} WalkMore<C, R>(step: C -> Pass<C, R>, c: C, fuel: nat, more: nat)
    requires !Walk(step, c, fuel).OutOfFuel?
    ensures Walk(step, c, fuel + more) == Walk(step, c, fuel)
    decreases fuel
  {
    if step(c).Go? && fuel > 0 {
      WalkMore(step, step(c).next, fuel - 1, more);
    }
  }

  /** One pass keeps the loop invariant `inv`, and a pass that ends the
      loop ends it with a value `done` accepts or an exception `failed`
      accepts. */
  predicate Keeps<C, R>(t: Pass<C, R>, inv: C -> bool, done: R -> bool, failed: Exception -> bool)
  {
    match t
    case Stop(r) => done(r)
    case Halt(e) => failed(e)
    case Go(next) => inv(next)
  }

  /** The loop rule: when every pass from a state satisfying `inv` keeps
      it, a loop started in such a state returns only what `done` accepts
      and raises only what `failed` accepts. */
  lemma {:induction false} WalkKeeps<C, R>(step: C -> Pass<C, R>, c: C, fuel: nat,
                                           inv: C -> bool, done: R -> bool, failed: Exception -> bool)
    requires inv(c)
    requires forall x | inv(x) :: Keeps(step(x), inv, done, failed)
    ensures Walk(step, c, fuel).Done? ==> done(Walk(step, c, fuel).value)
    ensures Walk(step, c, fuel).Fails? ==> failed(Walk(step, c, fuel).error)
    decreases fuel
  {
    assert Keeps(step(c), inv, done, failed);
    if step(c).Go? && fuel > 0 {
      WalkKeeps(step, step(c).next, fuel - 1, inv, done, failed);
    }
  }

  /** The loop variables of `_select`: the current node, the rank, and the
      path before the node. */
  datatype Cursor<N> = Cursor(node: N, rank: nat, walked: seq<N>)

  /** One pass through the loop of `_select`. It appends the node to the
      path; stops at a leaf; stops after appending the child `set.pop()`
      yields when some child is unexplored, `popAt` deciding which; and
      otherwise descends to the child `_uct_select` returns, with the rank
      raised when that child is already on the path and reset otherwise. */
  function SelectTurn<N(==)>(g: Game<N>, s: Searcher<N>, popAt: nat, uct: N -> real, x: Cursor<N>): Pass<Cursor<N>, seq<N>>
  {
    var path := x.walked + [x.node];
    if Leaf(g, s, x.node) then Stop(path)
    else
      var unexplored := Unexplored(g, s.children, Get(g, s.children, x.node).value.value);
      if unexplored != [] then Stop(path + [Pop(unexplored, popAt)])
      else match UctSelect(g, s, x.node, x.rank, uct)
        case Raise(e) => Halt(e)
        case Ok(next) => Go(Cursor(next, if InPath(g, path, next) then x.rank + 1 else 0, path))
  }

  /** The body of the loop of `_select` as a step of `Walk`. */
  function SelectLoop<N(==)>(g: Game<N>, s: Searcher<N>, popAt: nat, uct: N -> real): Cursor<N> -> Pass<Cursor<N>, seq<N>>
  {
    x => SelectTurn(g, s, popAt, uct, x)
  }

  /** `_select(node)`, with at most `fuel` descents. */
  function Select<N(==)>(g: Game<N>, s: Searcher<N>, node: N, popAt: nat, uct: N -> real, fuel: nat): (r: Outcome<seq<N>>)
  {
    Walk(SelectLoop(g, s, popAt, uct), Cursor(node, 0, []), fuel)
  }

  /** A descent that ends within its budget ends the same way under any
      larger budget: `OutOfFuel` is the only outcome the budget adds. */
  lemma SelectMore<N>(g: Game<N>, s: Searcher<N>, node: N, popAt: nat, uct: N -> real, fuel: nat, more: nat)
    requires !Select(g, s, node, popAt, uct, fuel).OutOfFuel?
    ensures Select(g, s, node, popAt, uct, fuel + more) == Select(g, s, node, popAt, uct, fuel)
  {
    WalkMore(SelectLoop(g, s, popAt, uct), Cursor(node, 0, []), fuel, more);
  }

  /** One link of a path: `b` is among the children stored for `a`. */
  predicate ChildOf<N(==)>(g: Game<N>, s: Searcher<N>, a: N, b: N)
  {
    var entry := Get(g, s.children, a);
    entry.Some? && entry.value.Some? && b in entry.value.value
  }

  /** Each node of `p` after the first is a child of the one before. */
  predicate Chain<N(==)>(g: Game<N>, s: Searcher<N>, p: seq<N>)
  {
    |p| <= 1 || (Chain(g, s, p[..|p| - 1]) && ChildOf(g, s, p[|p| - 2], p[|p| - 1]))
  }

  /** `p` starts at `node` and follows stored children. */
  predicate PathFrom<N(==)>(g: Game<N>, s: Searcher<N>, node: N, p: seq<N>)
  {
    p != [] && p[0] == node && Chain(g, s, p)
  }

  /** A path followed by a child of its last node is a path. */
  lemma PathExtends<N>(g: Game<N>, s: Searcher<N>, node: N, p: seq<N>, b: N)
    requires PathFrom(g, s, node, p) && ChildOf(g, s, p[|p| - 1], b)
    ensures PathFrom(g, s, node, p + [b])
  {
    var q := p + [b];
    assert q[..|q| - 1] == p;
  }

  /** `b` is one of the nodes `children[a] - children.keys()` leaves. */
  predicate Popped<N(==)>(g: Game<N>, s: Searcher<N>, a: N, b: N)
  {
    var entry := Get(g, s.children, a);
    entry.Some? && entry.value.Some? && b in Unexplored(g, s.children, entry.value.value)
  }

  /** Where a walk stops: at a leaf, or at a child its parent's set
      difference left. */
  predicate Stops<N(==)>(g: Game<N>, s: Searcher<N>, p: seq<N>)
  {
    p != [] && (Leaf(g, s, p[|p| - 1]) || (|p| >= 2 && Popped(g, s, p[|p| - 2], p[|p| - 1])))
  }

  /** A pass of `_select` from a path that starts at `node` either stops
      with such a path, ending where a walk stops, or carries on with one. */
  lemma TurnPath<N>(g: Game<N>, s: Searcher<N>, popAt: nat, uct: N -> real, node: N, x: Cursor<N>)
    requires PathFrom(g, s, node, x.walked + [x.node])
    ensures match SelectTurn(g, s, popAt, uct, x)
      case Stop(p) => PathFrom(g, s, node, p) && Stops(g, s, p)
      case Go(y) => PathFrom(g, s, node, y.walked + [y.node])
      case Halt(_) => true
  {
    var path := x.walked + [x.node];
    if !Leaf(g, s, x.node) {
      var kids := Get(g, s.children, x.node).value.value;
      var unexplored := Unexplored(g, s.children, kids);
      if unexplored != [] {
        var popped := Pop(unexplored, popAt);
        UnexploredSound(g, s.children, kids);
        PathExtends(g, s, node, path, popped);
        var p := path + [popped];
        assert p[|p| - 2] == x.node;
      } else if UctSelect(g, s, x.node, x.rank, uct).Ok? {
        var next := UctSelect(g, s, x.node, x.rank, uct).value;
        UctSelectRanked(g, s, x.node, x.rank, uct, kids);
        PathExtends(g, s, node, path, next);
      }
    }
  }

  /** The path `_select` returns starts at the node and follows stored
      children, and it stops at a leaf (a node that is not a key of
      `children`, or one stored with no children) or at a child its
      parent's set difference left. */
  lemma SelectPath<N>(g: Game<N>, s: Searcher<N>, node: N, popAt: nat, uct: N -> real, fuel: nat)
    ensures var r := Select(g, s, node, popAt, uct, fuel);
      r.Done? ==> PathFrom(g, s, node, r.value) && Stops(g, s, r.value)
  {
    var step := SelectLoop(g, s, popAt, uct);
    var inv := (x: Cursor<N>) => PathFrom(g, s, node, x.walked + [x.node]);
    var done := (p: seq<N>) => PathFrom(g, s, node, p) && Stops(g, s, p);
    var failed := (e: Exception) => true;
    forall x | inv(x)
      ensures Keeps(step(x), inv, done, failed)
    {
      TurnPath(g, s, popAt, uct, node, x);
    }
    assert [] + [node] == [node];
    WalkKeeps(step, Cursor(node, 0, []), fuel, inv, done, failed);
  }

  /** The path `_select` returns holds at least the node it starts at. */
  lemma SelectNonEmpty<N>(g: Game<N>, s: Searcher<N>, node: N, popAt: nat, uct: N -> real, fuel: nat)
    ensures Select(g, s, node, popAt, uct, fuel).Done? ==> Select(g, s, node, popAt, uct, fuel).value != []
  {
    SelectPath(g, s, node, popAt, uct, fuel);
  }

  /** Under an equivalence a walk stops at a leaf. */
  lemma StopsLeaf<N(!new)>(g: Game<N>, s: Searcher<N>, p: seq<N>)
    requires Equivalence(g) && Stops(g, s, p)
    ensures Leaf(g, s, p[|p| - 1])
  {
    if !Leaf(g, s, p[|p| - 1]) {
      var kids := Get(g, s.children, p[|p| - 2]).value.value;
      UnexploredNotKeys(g, s.children, kids);
    }
  }

  /** When `__eq__` and `__hash__` make an equivalence, the path `_select`
      returns ends at a leaf: a popped child is not a key of `children`. */
  lemma SelectLeaf<N(!new)>(g: Game<N>, s: Searcher<N>, node: N, popAt: nat, uct: N -> real, fuel: nat)
    requires Equivalence(g)
    ensures var r := Select(g, s, node, popAt, uct, fuel);
      r.Done? ==> r.value != [] && Leaf(g, s, r.value[|r.value| - 1])
  {
    var r := Select(g, s, node, popAt, uct, fuel);
    SelectPath(g, s, node, popAt, uct, fuel);
    if r.Done? {
      StopsLeaf(g, s, r.value);
    }
  }

  /** A pass of `_select` on a `Visited` searcher raises at most the
      assertion of `_uct_select` or its `IndexError`. */
  lemma TurnErrors<N(!new)>(g: Game<N>, s: Searcher<N>, popAt: nat, uct: N -> real, x: Cursor<N>)
    requires Visited(g, s)
    ensures SelectTurn(g, s, popAt, uct, x).Halt? ==> SelectTurn(g, s, popAt, uct, x).error in {AssertionError, IndexError}
  {
    if !Leaf(g, s, x.node) {
      UctSelectErrors(g, s, x.node, x.rank, uct, Get(g, s.children, x.node).value.value);
    }
  }

  /** On a `Visited` searcher `_select` can raise only the assertion of
      `_uct_select` or its `IndexError`: the lookups, the logarithm and the
      divisions never fail on the nodes it reaches. */
  lemma SelectFailure<N(!new)>(g: Game<N>, s: Searcher<N>, node: N, popAt: nat, uct: N -> real, fuel: nat)
    requires Visited(g, s)
    ensures var r := Select(g, s, node, popAt, uct, fuel);
      r.Fails? ==> r.error in {AssertionError, IndexError}
  {
    var step := SelectLoop(g, s, popAt, uct);
    var inv := (x: Cursor<N>) => true;
    var done := (p: seq<N>) => true;
    var failed := (e: Exception) => e in {AssertionError, IndexError};
    forall x | inv(x)
      ensures Keeps(step(x), inv, done, failed)
    {
      TurnErrors(g, s, popAt, uct, x);
    }
    WalkKeeps(step, Cursor(node, 0, []), fuel, inv, done, failed);
  }

  /** The set difference and the assertion of `_uct_select` agree on
      every list of children: nothing left unexplored means every child is
      a key. */
  ghost predicate Settled<N(!new)>(g: Game<N>, s: Searcher<N>)
  {
    forall kids: seq<N> :: SettledAt(g, s.children, kids)
  }

  predicate SettledAt<N(==)>(g: Game<N>, c: Dict<N, Option<seq<N>>>, kids: seq<N>)
  {
    Unexplored(g, c, kids) == [] ==> AllKeys(g, c, kids)
  }

  /** An equivalence settles every searcher. */
  lemma EquivalenceSettles<N(!new)>(g: Game<N>, s: Searcher<N>)
    requires Equivalence(g)
    ensures Settled(g, s)
  {
    forall kids: seq<N>
      ensures SettledAt(g, s.children, kids)
    {
      UnexploredEmpty(g, s.children, kids);
    }
  }

  /** A pass of `_select` on a settled, `Visited` searcher raises at most
      the `IndexError` of `_uct_select`. */
  lemma TurnSettled<N(!new)>(g: Game<N>, s: Searcher<N>, popAt: nat, uct: N -> real, x: Cursor<N>)
    requires Settled(g, s) && Visited(g, s)
    ensures SelectTurn(g, s, popAt, uct, x).Halt? ==> SelectTurn(g, s, popAt, uct, x).error == IndexError
  {
    if !Leaf(g, s, x.node) {
      var kids := Get(g, s.children, x.node).value.value;
      assert SettledAt(g, s.children, kids);
      if AllKeys(g, s.children, kids) {
        UctSelectFailure(g, s, x.node, x.rank, uct, kids);
      }
    }
  }

  /** On a `Visited` searcher whose `__eq__` and `__hash__` make an
      equivalence, the only exception `_select` can raise is the
      `IndexError` of `_uct_select`. */
  lemma SelectFailureEquiv<N(!new)>(g: Game<N>, s: Searcher<N>, node: N, popAt: nat, uct: N -> real, fuel: nat)
    requires Equivalence(g) && Visited(g, s)
    ensures var r := Select(g, s, node, popAt, uct, fuel);
      r.Fails? ==> r.error == IndexError
  {
    var step := SelectLoop(g, s, popAt, uct);
    var inv := (x: Cursor<N>) => true;
    var done := (p: seq<N>) => true;
    var failed := (e: Exception) => e == IndexError;
    EquivalenceSettles(g, s);
    forall x | inv(x)
      ensures Keeps(step(x), inv, done, failed)
    {
      TurnSettled(g, s, popAt, uct, x);
    }
    WalkKeeps(step, Cursor(node, 0, []), fuel, inv, done, failed);
  }

  /** `change_player()`: the other of "X" and "O"; any other player falls
      off the end of the method, which returns `None`. */
  function ChangePlayer(player: string): Option<string>
  {
    if player == "X" then Some("O")
    else if player == "O" then Some("X")
    else None
  }

  /** The mover `do_rollout` passes on for a path of `length` nodes:
      `self.player` for an odd length, `change_player()` for an even one. */
  function Turn(player: string, length: nat): Option<string>
  {
    if length % 2 == 0 then ChangePlayer(player) else Some(player)
  }

  /** `change_player` swaps "X" and "O" and is its own inverse on them. For
      those two players the mover alternates along the path, starting with
      `self.player` on a path of one node. For any other player every
      even-length path gets `None`. */
  lemma TurnAlternates(player: string, length: nat)
    ensures ChangePlayer(player).Some? <==> player == "X" || player == "O"
    ensures ChangePlayer(player).Some? ==>
      ChangePlayer(player).value != player && ChangePlayer(ChangePlayer(player).value) == Some(player)
    ensures Turn(player, 1) == Some(player)
    ensures (player == "X" || player == "O") ==>
      Turn(player, length).Some? && ChangePlayer(Turn(player, length).value) == Turn(player, length + 1)
    ensures !(player == "X" || player == "O") && length % 2 == 0 ==> Turn(player, length) == None
  {
  }

  /** `do_rollout(node)`: select a path, expand its last node for the mover
      the path's parity gives, simulate from it, and backpropagate the
      reward along the path. The simulation is random and need not end, so
      its reward is the parameter `simulate`. */
  function Rollout<N(==)>(g: Game<N>, s: Searcher<N>, node: N, popAt: nat, uct: N -> real,
                          simulate: (N, Option<string>) -> int, fuel: nat): Outcome<Searcher<N>>
  {
    match Select(g, s, node, popAt, uct, fuel)
    case OutOfFuel => OutOfFuel
    case Fails(e) => Fails(e)
    case Done(path) =>
      SelectNonEmpty(g, s, node, popAt, uct, fuel);
      var leaf := path[|path| - 1];
      var turn := Turn(s.player, |path|);
      var expanded := s.(children := Expand(g, s.children, leaf, turn));
      Done(Backpropagate(g, expanded, path, simulate(leaf, turn)))
  }

  /** `__eq__` and `__hash__` together make an equivalence. */
  ghost predicate Equivalence<N(!new)>(g: Game<N>)
  {
    && (forall a, b :: Matches(g, a, b) ==> Matches(g, b, a))
    && (forall a, b, c :: Matches(g, a, b) && Matches(g, b, c) ==> Matches(g, a, c))
  }

  /** Under an equivalence, two matching probes land on the same entry. */
  lemma FindClass<N(!new), V>(g: Game<N>, d: Dict<N, V>, x: N, y: N)
    requires Equivalence(g) && Matches(g, x, y)
    ensures Find(g, d, x) == Find(g, d, y)
  {
    FindSpec(g, d, x);
    FindSpec(g, d, y);
    forall i | 0 <= i < |d|
      ensures Matches(g, d[i].0, x) <==> Matches(g, d[i].0, y)
    {
      assert Matches(g, y, x);
    }
  }

  /** A node of the path lands on an entry it hits at least once. */
  lemma {:induction false} HitsPositive<N, V>(g: Game<N>, d: Dict<N, V>, path: seq<N>, p: nat)
    requires p < |path| && In(g, d, path[p])
    ensures Hits(g, d, path, Find(g, d, path[p]).value) >= 1
    decreases |path|
  {
    if p < |path| - 1 {
      assert path[..|path| - 1][p] == path[p];
      HitsPositive(g, d, path[..|path| - 1], p);
    }
  }

  /** Counting visits never lowers a count, and leaves every node of the
      path with at least one visit. */
  lemma CountsGrow<N>(g: Game<N>, d: Dict<N, int>, path: seq<N>, x: N)
    requires forall i | 0 <= i < |d| :: d[i].1 >= 0
    ensures forall i | 0 <= i < |BumpAll(g, d, path, 1)| :: BumpAll(g, d, path, 1)[i].1 >= 0
    ensures In(g, d, x) ==> Read(g, BumpAll(g, d, path, 1), x) >= Read(g, d, x)
    ensures (exists p | 0 <= p < |path| :: path[p] == x) ==> Read(g, BumpAll(g, d, path, 1), x) >= 1
  {
    var r := BumpAll(g, d, path, 1);
    forall i | 0 <= i < |r|
      ensures r[i].1 >= Before(d, i) && r[i].1 >= 0
    {
      BumpAllCounts(g, d, path, 1, i);
    }
    if In(g, d, x) {
      FindStable(g, d, r, x);
    }
    if exists p | 0 <= p < |path| :: path[p] == x {
      var p :| 0 <= p < |path| && path[p] == x;
      BumpAllKeys(g, d, path, 1);
      HitsPositive(g, r, path, p);
      BumpAllCounts(g, d, path, 1, Find(g, r, x).value);
    }
  }

  /** After expanding the last node of a path and counting the path, a
      key of `children` has at least one visit. */
  lemma {:induction false} ExpandedKeyVisited<N(!new)>(g: Game<N>, s: Searcher<N>, path: seq<N>, turn: Option<string>, x: N)
    requires Equivalence(g) && Visited(g, s) && path != []
    requires In(g, Expand(g, s.children, path[|path| - 1], turn), x)
    ensures Read(g, BumpAll(g, s.n, path, 1), x) >= 1
  {
    var leaf := path[|path| - 1];
    var c := Expand(g, s.children, leaf, turn);
    var n := BumpAll(g, s.n, path, 1);
    CountsGrow(g, s.n, path, x);
    if In(g, s.children, x) {
      assert VisitedAt(g, s, x);
      FindSpec(g, s.n, x);
    } else {
      CountsGrow(g, s.n, path, leaf);
      FindSpec(g, c, x);
      FindSpec(g, s.children, x);
      assert c == s.children + [(leaf, g.children(leaf, turn))];
      assert Matches(g, leaf, x);
      FindClass(g, n, leaf, x);
    }
  }

  /** Expanding the last node of a path and counting the path keeps a
      searcher `Visited`. */
  lemma ExpandCountVisited<N(!new)>(g: Game<N>, s: Searcher<N>, path: seq<N>, turn: Option<string>, reward: int)
    requires Equivalence(g) && Visited(g, s) && path != []
    ensures Visited(g, Backpropagate(g, s.(children := Expand(g, s.children, path[|path| - 1], turn)), path, reward))
  {
    var c := Expand(g, s.children, path[|path| - 1], turn);
    var r := Backpropagate(g, s.(children := c), path, reward);
    assert r.children == c && r.n == BumpAll(g, s.n, path, 1);
    CountsGrow(g, s.n, path, path[0]);
    forall x
      ensures VisitedAt(g, r, x)
    {
      if In(g, c, x) {
        ExpandedKeyVisited(g, s, path, turn, x);
      }
    }
  }

  /** A rollout whose walk ends expands the last node of the path and
      counts the path. */
  lemma RolloutDone<N(!new)>(g: Game<N>, s: Searcher<N>, node: N, popAt: nat, uct: N -> real,
                             simulate: (N, Option<string>) -> int, fuel: nat, path: seq<N>)
    requires Select(g, s, node, popAt, uct, fuel) == Done(path)
    ensures path != []
    ensures var turn := Turn(s.player, |path|);
      Rollout(g, s, node, popAt, uct, simulate, fuel)
      == Done(Backpropagate(g, s.(children := Expand(g, s.children, path[|path| - 1], turn)), path,
                            simulate(path[|path| - 1], turn)))
  {
    SelectNonEmpty(g, s, node, popAt, uct, fuel);
  }

  /** A rollout keeps every key of `children` visited, provided `__eq__`
      and `__hash__` make an equivalence: the expanded leaf lies on the path
      that is then counted, and counts only grow. So the assertion, the
      logarithm and the divisions of `_uct_select` keep holding from one
      rollout to the next. */
  lemma RolloutVisited<N(!new)>(g: Game<N>, s: Searcher<N>, node: N, popAt: nat, uct: N -> real,
                                simulate: (N, Option<string>) -> int, fuel: nat)
    requires Equivalence(g) && Visited(g, s)
    ensures Rollout(g, s, node, popAt, uct, simulate, fuel).Done? ==>
      Visited(g, Rollout(g, s, node, popAt, uct, simulate, fuel).value)
  {
    var sel := Select(g, s, node, popAt, uct, fuel);
    if sel.Done? {
      var path := sel.value;
      RolloutDone(g, s, node, popAt, uct, simulate, fuel, path);
      var turn := Turn(s.player, |path|);
      ExpandCountVisited(g, s, path, turn, simulate(path[|path| - 1], turn));
    }
  }

  /** A score as `choose` computes it: the average reward, or an infinity
      for a child never visited. */
  datatype Rating = NegInf | Avg(value: real) | PosInf

  /** The float order on scores. */
  predicate Less(a: Rating, b: Rating)
  {
    match a
    case NegInf => !b.NegInf?
    case Avg(x) => b.PosInf? || (b.Avg? && x < b.value)
    case PosInf => false
  }

  /** `score(n, reverse)` inside `choose`. */
  function Score<N(==)>(g: Game<N>, s: Searcher<N>, x: N, reverse: bool): Rating
  {
    var visits := Read(g, s.n, x);
    if visits == 0 then (if reverse then PosInf else NegInf)
    else Avg(Read(g, s.q, x) as real / visits as real)
  }

  /** `a` beats `b`: scores higher for `max`, lower for `min`. */
  predicate Beats(a: Rating, b: Rating, greatest: bool)
  {
    if greatest then Less(b, a) else Less(a, b)
  }

  /** `max(xs, key=key)` or `min(xs, key=key)` as an index: Python keeps the
      first element and replaces it only by one that strictly beats it, so
      the result is the first of the best. */
  function ArgBest<N>(xs: seq<N>, key: N -> Rating, greatest: bool): (m: nat)
    requires |xs| > 0
    ensures m < |xs|
    ensures forall k | 0 <= k < |xs| :: !Beats(key(xs[k]), key(xs[m]), greatest)
    ensures forall k | 0 <= k < m :: Beats(key(xs[m]), key(xs[k]), greatest)
  {
    if |xs| == 1 then 0
    else
      var m := ArgBest(xs[..|xs| - 1], key, greatest);
      assert forall k | 0 <= k < |xs| - 1 :: xs[..|xs| - 1][k] == xs[k];
      if Beats(key(xs[|xs| - 1]), key(xs[m]), greatest) then |xs| - 1 else m
  }

  /** The player `choose` moves for: "X" against "O", otherwise "O". */
  function Myself(opponent: string): string
  {
    if opponent == "O" then "X" else "O"
  }

  /** What `choose` returns: a random child for `player`, or a chosen one. */
  datatype Choice<N> = RandomChild(player: string) | Chosen(child: N)

  /** `choose(node, opponent)`. A node with no statistics gets a random
      child; otherwise the child with the best average wins, the highest
      when the opponent is not the searcher's own player and the lowest
      when it is. `max` of `None` raises `TypeError` and of an empty list
      `ValueError`. */
  function Choose<N(==)>(g: Game<N>, s: Searcher<N>, node: N, opponent: string): Result<Choice<N>>
  {
    if g.terminal(node) then Raise(RuntimeError)
    else if !In(g, s.q, node) then Ok(RandomChild(Myself(opponent)))
    else
      var kids := g.children(node, Some(Myself(opponent)));
      if kids.None? then Raise(TypeError)
      else if kids.value == [] then Raise(ValueError)
      else if opponent != s.player then
        Ok(Chosen(kids.value[ArgBest(kids.value, x => Score(g, s, x, false), true)]))
      else
        Ok(Chosen(kids.value[ArgBest(kids.value, x => Score(g, s, x, true), false)]))
  }

  /** `choose` raises `RuntimeError` exactly on a terminal node, and moves
      for the opposite of `opponent`. An unseen node gets a random child.
      Otherwise the result is a child of the node for that player: the
      first one with the highest average reward (unvisited children last)
      when the opponent is not the searcher's player, and the first one
      with the lowest average (unvisited children last) when it is. */
  lemma ChooseSpec<N>(g: Game<N>, s: Searcher<N>, node: N, opponent: string)
    ensures Choose(g, s, node, opponent) == Raise(RuntimeError) <==> g.terminal(node)
    ensures Myself(opponent) != opponent
    ensures !g.terminal(node) && !In(g, s.q, node) ==>
      Choose(g, s, node, opponent) == Ok(RandomChild(Myself(opponent)))
    ensures var r := Choose(g, s, node, opponent);
      var kids := g.children(node, Some(Myself(opponent)));
      r.Ok? && r.value.Chosen? ==>
        && !g.terminal(node) && In(g, s.q, node) && kids.Some?
        && exists m | 0 <= m < |kids.value| :: (
          && kids.value[m] == r.value.child
          && (opponent != s.player ==>
            && (forall k | 0 <= k < |kids.value| :: !Less(Score(g, s, r.value.child, false), Score(g, s, kids.value[k], false)))
            && (forall k | 0 <= k < m :: Less(Score(g, s, kids.value[k], false), Score(g, s, r.value.child, false))))
          && (opponent == s.player ==>
            && (forall k | 0 <= k < |kids.value| :: !Less(Score(g, s, kids.value[k], true), Score(g, s, r.value.child, true)))
            && (forall k | 0 <= k < m :: Less(Score(g, s, r.value.child, true), Score(g, s, kids.value[k], true)))))
  {
    var r := Choose(g, s, node, opponent);
    var kids := g.children(node, Some(Myself(opponent)));
    if r.Ok? && r.value.Chosen? {
      var greatest := opponent != s.player;
      var key := x => Score(g, s, x, !greatest);
      var m := ArgBest(kids.value, key, greatest);
      assert kids.value[m] == r.value.child;
    }
  }

  /** A one-element set loses its element once a key its element
      matches is discarded. */
  lemma {:induction false} DiscardAllOne<N>(g: Game<N>, k: N, keys: seq<N>)
    requires exists j | 0 <= j < |keys| :: Matches(g, k, keys[j])
    ensures DiscardAll(g, [(k, ())], keys) == []
    decreases |keys|
  {
    var s: PySet<N> := [(k, ())];
    if Matches(g, k, keys[0]) {
      assert Find(g, s, keys[0]) == Some(0);
      assert Discard(g, s, keys[0]) == [];
    } else {
      assert Find(g, s[1..], keys[0]) == None;
      assert Discard(g, s, keys[0]) == s;
      var j :| 0 <= j < |keys| && Matches(g, k, keys[j]);
      assert keys[1..][j - 1] == keys[j];
      DiscardAllOne(g, k, keys[1..]);
    }
  }

  /** A single child that is itself a key leaves nothing unexplored. */
  lemma UnexploredOne<N>(g: Game<N>, c: Dict<N, Option<seq<N>>>, k: N)
    requires k in Keys(c)
    ensures Unexplored(g, c, [k]) == []
  {
    var j :| 0 <= j < |c| && Keys(c)[j] == k;
    assert Matches(g, k, Keys(c)[j]);
    assert SetOf(g, [k]) == [(k, ())] by {
      assert [k][..0] == [];
    }
    DiscardAllOne(g, k, Keys(c));
  }

  /** A one-entry path holds exactly the nodes equal to its entry. */
  lemma InPathOne<N>(g: Game<N>, a: N, b: N)
    ensures InPath(g, [a], b) <==> a == b || g.eq(a, b)
  {
    if a == b || g.eq(a, b) {
      assert [a][0] == a;
    }
  }

  /** `_uct_select` at a visited node whose only child `c` is visited:
      rank 0 gives `c`, rank 1 is past the end. */
  lemma UctSelectOnly<N>(g: Game<N>, s: Searcher<N>, node: N, c: N, uct: N -> real)
    requires Get(g, s.children, node) == Some(Some([c]))
    requires In(g, s.children, c)
    requires Read(g, s.n, node) >= 1 && Read(g, s.n, c) >= 1
    ensures UctSelect(g, s, node, 0, uct) == Ok(c)
    ensures UctSelect(g, s, node, 1, uct) == Raise(IndexError)
  {
    var kids := [c];
    assert kids[1..] == [];
    assert AllKeys(g, s.children, kids) by {
      assert AllKeys(g, s.children, []);
    }
    assert Fault(g, s.n, Read(g, s.n, node), kids) == None;
    assert SortDesc(kids, uct) == [c] by {
      assert SortDesc([], uct) == [];
    }
  }

  /** Two distinct nodes `a` and `b`, stored as keys, expanded and
      visited, each the only child of the other: the smallest cycle of
      positions. */
  ghost predicate TwoCycle<N>(g: Game<N>, s: Searcher<N>, a: N, b: N)
  {
    && Get(g, s.children, a) == Some(Some([b]))
    && Get(g, s.children, b) == Some(Some([a]))
    && a in Keys(s.children) && b in Keys(s.children)
    && Read(g, s.n, a) >= 1 && Read(g, s.n, b) >= 1
    && a != b && !g.eq(a, b) && !g.eq(b, a)
  }

  lemma TwoCycleNode<N>(g: Game<N>, s: Searcher<N>, a: N, b: N, uct: N -> real)
    requires TwoCycle(g, s, a, b)
    ensures !Leaf(g, s, a)
    ensures Unexplored(g, s.children, Get(g, s.children, a).value.value) == []
    ensures UctSelect(g, s, a, 0, uct) == Ok(b)
    ensures UctSelect(g, s, a, 1, uct) == Raise(IndexError)
  {
    var j :| 0 <= j < |s.children| && Keys(s.children)[j] == b;
    FindSpec(g, s.children, b);
    assert Matches(g, s.children[j].0, b);
    UctSelectOnly(g, s, a, b, uct);
    UnexploredOne(g, s.children, b);
  }

  /** On a two-node cycle `_select` walks `a`, `b` and back to `a`, which
      it appends again and descends from with rank 1; `a` has a single
      child, so `_uct_select` raises `IndexError`: the loop cannot go round
      the cycle for ever. */
  lemma SelectTwoCycle<N>(g: Game<N>, s: Searcher<N>, a: N, b: N, popAt: nat, uct: N -> real, fuel: nat)
    requires TwoCycle(g, s, a, b) && fuel >= 2
    ensures Select(g, s, a, popAt, uct, fuel) == Fails(IndexError)
  {
    var step := SelectLoop(g, s, popAt, uct);
    TwoCycleNode(g, s, a, b, uct);
    assert TwoCycle(g, s, b, a);
    TwoCycleNode(g, s, b, a, uct);
    InPathOne(g, a, b);
    assert [] + [a] == [a];
    var c1 := Cursor(b, 0, [a]);
    assert step(Cursor(a, 0, [])) == Go(c1);
    var path := [a] + [b];
    assert path[0] == a;
    assert InPath(g, path, a);
    var c2 := Cursor(a, 1, path);
    assert step(c1) == Go(c2);
    assert step(c2) == Halt(IndexError);
    assert Walk(step, c1, fuel - 1) == Walk(step, c2, fuel - 2);
  }

  /** A game whose `__eq__` is not symmetric: 1 compares equal to 2 but not
      the other way round, and every hash is the same. */
  function Lopsided(): Game<int>
  {
    Game((a, b) => a == 1 && b == 2, x => 0, (x, p) => None, x => false)
  }

  /** The set difference and the assertion of `_uct_select` disagree under
      `Lopsided`: with node 0 stored with the one child 1 and node 2 stored
      with none, discarding the key 2 removes 1 from `set([1])`, so nothing
      is unexplored, but 1 is no key of `children`, so the walk fails the
      assertion. */
  lemma SelectLopsided(s: Searcher<int>, popAt: nat, uct: int -> real, fuel: nat)
    requires s.children == [(0, Some([1])), (2, Some([]))]
    ensures Unexplored(Lopsided(), s.children, [1]) == []
    ensures !AllKeys(Lopsided(), s.children, [1])
    ensures Select(Lopsided(), s, 0, popAt, uct, fuel) == Fails(AssertionError)
  {
    var g := Lopsided();
    assert Matches(g, 1, 2);
    assert Keys(s.children) == [0, 2];
    assert SetOf(g, [1]) == [(1, ())] by {
      assert [1][..0] == [];
    }
    assert Matches(g, 1, [0, 2][1]);
    DiscardAllOne(g, 1, [0, 2]);
    assert Get(g, s.children, 0) == Some(Some([1]));
    assert !In(g, s.children, 1) by {
      FindSpec(g, s.children, 1);
    }
    assert !AllKeys(g, s.children, [1]) by {
      AllKeysSpec(g, s.children, [1]);
    }
    assert SelectLoop(g, s, popAt, uct)(Cursor(0, 0, [])) == Halt(AssertionError);
  }

  /** A game whose nodes are integers compared by value. */
  function Plain(): Game<int>
  {
    Game((a: int, b: int) => a == b, x => x, (x: int, p: Option<string>) => None, x => false)
  }

  /** A negative child count breaks the square root once the parent has
      been visited more than once; with one parent visit the root is of
      -0.0 and the child is ranked. */
  lemma UctSelectNegative(s: Searcher<int>, uct: int -> real)
    requires s.children == [(0, Some([1])), (1, Some([]))]
    ensures s.n == [(0, 2), (1, -1)] ==> UctSelect(Plain(), s, 0, 0, uct) == Raise(ValueError)
    ensures s.n == [(0, 1), (1, -1)] ==> UctSelect(Plain(), s, 0, 0, uct) == Ok(1)
  {
    var g := Plain();
    assert Get(g, s.children, 0) == Some(Some([1]));
    assert Find(g, s.children, 1) == Some(1);
    assert AllKeys(g, s.children, [1]) by {
      AllKeysSpec(g, s.children, [1]);
    }
    if s.n == [(0, 2), (1, -1)] {
      assert Read(g, s.n, 0) == 2;
      assert Find(g, s.n[1..], 1) == Some(0);
      assert Read(g, s.n, 1) == -1;
    }
    if s.n == [(0, 1), (1, -1)] {
      assert Read(g, s.n, 0) == 1;
      assert Find(g, s.n[1..], 1) == Some(0);
      assert Read(g, s.n, 1) == -1;
      assert Fault(g, s.n, 1, [1]) == None;
      assert SortDesc([1], uct) == [1];
    }
  }

  /** The keys are computed in list order, so the first child that cannot
      be scored names the error: a negative count before a zero one
      raises ValueError, the other way round ZeroDivisionError. */
  lemma UctSelectScoreOrder(s: Searcher<int>, uct: int -> real)
    requires s.n == [(0, 2), (1, -1), (2, 0)]
    ensures s.children == [(0, Some([1, 2])), (1, Some([])), (2, Some([]))] ==>
      UctSelect(Plain(), s, 0, 0, uct) == Raise(ValueError)
    ensures s.children == [(0, Some([2, 1])), (1, Some([])), (2, Some([]))] ==>
      UctSelect(Plain(), s, 0, 0, uct) == Raise(ZeroDivisionError)
  {
    var g := Plain();
    assert Read(g, s.n, 0) == 2;
    assert Find(g, s.n[1..], 1) == Some(0);
    assert Read(g, s.n, 1) == -1;
    assert Find(g, s.n[2..], 2) == Some(0);
    assert Find(g, s.n[1..], 2) == Some(1) by {
      assert s.n[1..][1..] == s.n[2..];
    }
    assert Read(g, s.n, 2) == 0;
    if s.children == [(0, Some([1, 2])), (1, Some([])), (2, Some([]))] {
      assert Get(g, s.children, 0) == Some(Some([1, 2]));
      assert Find(g, s.children, 1) == Some(1);
      assert Find(g, s.children[2..], 2) == Some(0);
      assert Find(g, s.children[1..], 2) == Some(1) by {
        assert s.children[1..][1..] == s.children[2..];
      }
      assert Find(g, s.children, 2) == Some(2);
      assert AllKeys(g, s.children, [1, 2]) by {
        AllKeysSpec(g, s.children, [1, 2]);
      }
    }
    if s.children == [(0, Some([2, 1])), (1, Some([])), (2, Some([]))] {
      assert Get(g, s.children, 0) == Some(Some([2, 1]));
      assert Find(g, s.children, 1) == Some(1);
      assert Find(g, s.children[2..], 2) == Some(0);
      assert Find(g, s.children[1..], 2) == Some(1) by {
        assert s.children[1..][1..] == s.children[2..];
      }
      assert Find(g, s.children, 2) == Some(2);
      assert AllKeys(g, s.children, [2, 1]) by {
        AllKeysSpec(g, s.children, [2, 1]);
      }
    }
  }
}
