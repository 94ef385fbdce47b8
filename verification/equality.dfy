/** Symmetry-aware equality and hashing of `State` in `game.py`.

    `__eq__` holds when the other board is one of the seven boards of
    `generate_symmetries`, and the hash key is the sum of the distinct ones.
    The seven are the group of the square without its half turn, which is not
    closed under composition: the equality is not transitive and the hash key
    is not the same for boards that compare equal. The `...8` definitions add
    the half turn and have both properties. */
module Equality {
  import opened Bits
  import opened Board
  import opened Symmetry

  /** The order of the list in `generate_symmetries`. */
  const Transforms: seq<Transform> :=
    [Same, Mirrored(Vertical), Mirrored(Horizontal), Mirrored(Diagonal), Mirrored(AntiDiagonal),
     Clockwise, Counterclockwise]

  /** The boards of `generate_symmetries(board)`. */
  function Orbit(board: nat): (s: seq<nat>)
    ensures |s| == |Transforms| && s[0] == board
  {
    seq(|Transforms|, k requires 0 <= k < |Transforms| => Image(Transforms[k], board))
  }

  /** `State(a) == State(b)`. */
  predicate Eq(a: nat, b: nat)
  {
    b in Orbit(a)
  }

  /** Where an entry stands in the list. */
  function Position(t: Transform): (k: nat)
    ensures k < |Transforms| && Transforms[k] == t
  {
    match t
    case Same => 0
    case Mirrored(Vertical) => 1
    case Mirrored(Horizontal) => 2
    case Mirrored(Diagonal) => 3
    case Mirrored(AntiDiagonal) => 4
    case Clockwise => 5
    case Counterclockwise => 6
  }

  /** The list of `generate_symmetries` is the source's seven group elements
      applied to the board. */
  lemma OrbitMembers(board: nat, x: nat)
    requires Clean(board)
    ensures x in Orbit(board) <==> exists t: Transform :: x == Apply(Code(t), board)
  {
    var s := Orbit(board);
    if x in s {
      var k :| 0 <= k < |s| && s[k] == x;
      ImageIsApply(Transforms[k], board);
    }
    if t: Transform :| x == Apply(Code(t), board) {
      ImageIsApply(t, board);
      var k := Position(t);
      assert s[k] == x;
    }
  }

  /** The entry that undoes an entry: each reflection undoes itself and the
      two quarter turns undo each other. */
  function Undo(t: Transform): (u: Transform)
    ensures Inverse(Code(t)) == Code(u)
  {
    match t
    case Clockwise => Counterclockwise
    case Counterclockwise => Clockwise
    case _ => t
  }

  /** `rotate_counterclockwise` undoes `rotate_clockwise` and the other way
      round, and every reflection is an involution. */
  lemma UndoImage(t: Transform, board: nat)
    requires Clean(board)
    ensures Image(Undo(t), Image(t, board)) == board
  {
    ImageIsApply(t, board);
    ImageClean(t, board);
    ImageIsApply(Undo(t), Image(t, board));
    ApplyInverse(Code(t), board);
  }

  /** `__eq__` is reflexive and symmetric on the boards of the game. */
  lemma EqSymmetric(a: nat, b: nat)
    requires Clean(a) && Clean(b)
    ensures Eq(a, a)
    ensures Eq(a, b) <==> Eq(b, a)
  {
    assert Orbit(a)[0] == a;
    if Eq(a, b) {
      EqBack(a, b);
    }
    if Eq(b, a) {
      EqBack(b, a);
    }
  }

  lemma EqBack(a: nat, b: nat)
    requires Clean(a) && Eq(a, b)
    ensures Eq(b, a)
  {
    var k :| 0 <= k < |Transforms| && Orbit(a)[k] == b;
    var t := Transforms[k];
    UndoImage(t, a);
    OrbitHas(b, Undo(t));
  }

  /** Every entry's board is in the list. */
  lemma OrbitHas(board: nat, t: Transform)
    ensures Image(t, board) in Orbit(board)
  {
    var k := Position(t);
    assert Orbit(board)[k] == Image(t, board);
  }

  /** The `for s in sym` loop of `check_symmetries`: 0 as soon as a board of
      the list is among `boards`, 1 when none is. */
  function FirstListed(sym: seq<nat>, boards: seq<nat>): (r: int)
  {
    if |sym| == 0 then 1
    else if sym[0] in boards then 0
    else FirstListed(sym[1..], boards)
  }

  lemma {:induction false} FirstListedFinds(sym: seq<nat>, boards: seq<nat>)
    ensures FirstListed(sym, boards) == 0 || FirstListed(sym, boards) == 1
    ensures FirstListed(sym, boards) == 0 <==> exists x :: x in sym && x in boards
  {
    if |sym| > 0 {
      FirstListedFinds(sym[1..], boards);
      assert forall x :: x in sym <==> x == sym[0] || x in sym[1..];
    }
  }

  /** `check_symmetries(boards, board)`. */
  function CheckSymmetries(boards: seq<nat>, board: nat): (r: int)
  {
    FirstListed(Orbit(board), boards)
  }

  /** `check_symmetries` answers 0 exactly when some listed board is `==`
      to the candidate, in either order of the comparison, and 1 otherwise. */
  lemma CheckSymmetriesEq(boards: seq<nat>, board: nat)
    requires Clean(board) && forall x | x in boards :: Clean(x)
    ensures CheckSymmetries(boards, board) == 0 || CheckSymmetries(boards, board) == 1
    ensures CheckSymmetries(boards, board) == 0 <==> exists x :: x in boards && Eq(board, x)
    ensures CheckSymmetries(boards, board) == 0 <==> exists x :: x in boards && Eq(x, board)
  {
    FirstListedFinds(Orbit(board), boards);
    forall x | x in boards
      ensures Eq(board, x) <==> Eq(x, board)
    {
      EqSymmetric(board, x);
    }
  }

  /** `sum` of a list. */
  function Sum(xs: seq<nat>): nat
  {
    if |xs| == 0 then 0 else Sum(xs[..|xs| - 1]) + xs[|xs| - 1]
  }

  predicate Distinct(xs: seq<nat>)
  {
    forall i, j | 0 <= i < j < |xs| :: xs[i] != xs[j]
  }

  /** `list(set(xs))`: each value of `xs` once. Python's order of a set's
      elements is unspecified; this one keeps first occurrences, which does
      not change a sum. */
  function Dedup(xs: seq<nat>): (d: seq<nat>)
    ensures forall x :: x in d <==> x in xs
    ensures Distinct(d)
  {
    if |xs| == 0 then []
    else
      var d := Dedup(xs[..|xs| - 1]);
      var x := xs[|xs| - 1];
      if x in d then d else d + [x]
  }

  /** `generate_hash_key(board)`. */
  function HashKey(board: nat): nat
  {
    Sum(Dedup(Orbit(board)))
  }

  ghost function Elems(xs: seq<nat>): set<nat>
  {
    set x | x in xs
  }

  ghost function Pick(s: set<nat>): (x: nat)
    requires s != {}
    ensures x in s
  {
    var x :| x in s; x
  }

  /** The sum of a finite set of naturals. */
  ghost function SetSum(s: set<nat>): nat
    decreases s
  {
    if s == {} then 0 else Pick(s) + SetSum(s - {Pick(s)})
  }

  lemma {:induction false} SetSumRemove(s: set<nat>, y: nat)
    requires y in s
    ensures SetSum(s) == y + SetSum(s - {y})
    decreases s
  {
    var x := Pick(s);
    if x != y {
      SetSumRemove(s - {x}, y);
      SetSumRemove(s - {y}, x);
      assert s - {x} - {y} == s - {y} - {x};
    }
  }

  /** A list without repeats sums to the sum of its set of values. */
  lemma {:induction false} DistinctSum(xs: seq<nat>)
    requires Distinct(xs)
    ensures Sum(xs) == SetSum(Elems(xs))
  {
    if |xs| > 0 {
      var init := xs[..|xs| - 1];
      var last := xs[|xs| - 1];
      DistinctSum(init);
      assert Elems(xs) - {last} == Elems(init);
      SetSumRemove(Elems(xs), last);
    }
  }

  /** The sum of the distinct values depends only on which values occur. */
  lemma DedupSum(xs: seq<nat>, ys: seq<nat>)
    requires forall x :: x in xs <==> x in ys
    ensures Sum(Dedup(xs)) == Sum(Dedup(ys))
  {
    DistinctSum(Dedup(xs));
    DistinctSum(Dedup(ys));
    assert Elems(Dedup(xs)) == Elems(Dedup(ys));
  }

  /** The board with a single O, on (i, j). */
  function Single(i: int, j: int): nat
    requires IsCell(i, j)
  {
    Shl(1, OBit(i, j))
  }

  lemma SingleCell(i: int, j: int, p: int, q: int)
    requires IsCell(i, j) && IsCell(p, q)
    ensures HasO(Single(i, j), p, q) == (p == i && q == j)
    ensures !HasX(Single(i, j), p, q)
  {
    BitPow(OBit(i, j), OBit(p, q));
    BitPow(OBit(i, j), XBit(p, q));
  }

  lemma SingleClean(i: int, j: int)
    requires IsCell(i, j)
    ensures Clean(Single(i, j))
  {
    forall k: nat | Bit(Single(i, j), k)
      ensures FieldBit(k)
    {
      BitPow(OBit(i, j), k);
    }
  }

  lemma SingleInjective(i: int, j: int, p: int, q: int)
    requires IsCell(i, j) && IsCell(p, q)
    ensures Single(i, j) == Single(p, q) <==> (i == p && j == q)
  {
    SingleCell(i, j, p, q);
    SingleCell(p, q, p, q);
  }

  /** `g` moves the lone O of (i, j) to the cell `g` reads (i, j) back from. */
  lemma ApplySingle(g: Sym, i: int, j: int)
    requires IsCell(i, j)
    ensures IsCell(From(Inverse(g), i, j).0, From(Inverse(g), i, j).1)
    ensures Apply(g, Single(i, j)) == Single(From(Inverse(g), i, j).0, From(Inverse(g), i, j).1)
  {
    var (p, q) := From(Inverse(g), i, j);
    FromCell(Inverse(g), i, j);
    var single := Single(i, j);
    forall a, b | IsCell(a, b)
      ensures HasO(Apply(g, single), a, b) == HasO(Single(p, q), a, b)
      ensures HasX(Apply(g, single), a, b) == HasX(Single(p, q), a, b)
    {
      ApplyCell(g, single, a, b);
      var (c, d) := From(g, a, b);
      SingleCell(i, j, c, d);
      SingleCell(p, q, a, b);
      InverseFrom(g, c, d, i, j);
    }
    SingleClean(i, j);
    SingleClean(p, q);
    ApplyClean(g, single);
    SamePieces(Apply(g, single), Single(p, q));
  }

  /** Each entry moves a lone O to the cell its entry reads back from. */
  lemma ImageSingle(t: Transform, x: int, y: int)
    requires IsCell(x, y)
    ensures IsCell(From(Inverse(Code(t)), x, y).0, From(Inverse(Code(t)), x, y).1)
    ensures Image(t, Single(x, y)) == Single(From(Inverse(Code(t)), x, y).0, From(Inverse(Code(t)), x, y).1)
  {
    SingleClean(x, y);
    ImageIsApply(t, Single(x, y));
    ApplySingle(Code(t), x, y);
  }

  lemma ImageSingleTo(t: Transform, x: int, y: int, p: int, q: int)
    requires IsCell(x, y) && (p, q) == From(Inverse(Code(t)), x, y)
    ensures IsCell(p, q) && Image(t, Single(x, y)) == Single(p, q)
  {
    ImageSingle(t, x, y);
  }

  /** Entry `k` of the list for a lone O is a lone O. */
  lemma OrbitSingle(x: int, y: int, k: nat)
    requires IsCell(x, y) && k < |Transforms|
    ensures IsCell(From(Inverse(Code(Transforms[k])), x, y).0, From(Inverse(Code(Transforms[k])), x, y).1)
    ensures Orbit(Single(x, y))[k]
         == Single(From(Inverse(Code(Transforms[k])), x, y).0, From(Inverse(Code(Transforms[k])), x, y).1)
  {
    ImageSingle(Transforms[k], x, y);
  }

  /** A cell on none of the four mirror axes, such as (0, 1). */
  predicate OffAxes(i: int, j: int)
  {
    IsCell(i, j) && i != 2 && j != 2 && i != j && i + j != 4
  }

  /** Finding: `__eq__` is not transitive. For a cell (i, j) off the mirror
      axes, such as (0, 1), the lone O of (i, 4 - j) equals the one of (i, j)
      (a vertical mirror), which equals the one of (4 - i, j) (a horizontal
      mirror), yet (i, 4 - j) and (4 - i, j) are a half turn apart. */
  lemma EqNotTransitive(i: int, j: int)
    requires OffAxes(i, j)
    ensures Eq(Single(i, 4 - j), Single(i, j))
    ensures Eq(Single(i, j), Single(4 - i, j))
    ensures !Eq(Single(i, 4 - j), Single(4 - i, j))
  {
    EqVerticalBack(i, j);
    EqHorizontal(i, j);
    NotHalfTurnMirrors(i, j);
  }

  lemma EqVerticalBack(i: int, j: int)
    requires IsCell(i, j)
    ensures Eq(Single(i, 4 - j), Single(i, j))
  {
    var back := 4 - j;
    assert IsCell(i, back) && MirrorCell(Vertical, i, back) == (i, j);
    EqMirroredTo(Vertical, i, back, i, j);
  }

  lemma EqHorizontal(i: int, j: int)
    requires OffAxes(i, j)
    ensures Eq(Single(i, j), Single(4 - i, j))
  {
    OffAxesCells(i, j);
    EqMirroredTo(Horizontal, i, j, 4 - i, j);
  }

  lemma NotHalfTurnMirrors(i: int, j: int)
    requires OffAxes(i, j)
    ensures !Eq(Single(i, 4 - j), Single(4 - i, j))
  {
    OffAxesCells(i, j);
    NotHalfTurnTo(i, 4 - j, 4 - i, j);
  }

  /** The cells the two findings use. */
  lemma OffAxesCells(i: int, j: int)
    requires OffAxes(i, j)
    ensures IsCell(i, 4 - j) && IsCell(4 - i, j) && IsCell(4 - i, 4 - j)
    ensures (i, j) == MirrorCell(Vertical, i, 4 - j) && (i, 4 - j) == MirrorCell(Vertical, i, j)
    ensures (4 - i, j) == MirrorCell(Horizontal, i, j)
    ensures OffAxes(i, 4 - (4 - j)) && j == 4 - (4 - j)
    ensures (4 - i, 4 - j) != (4 - i, j)
  {
  }

  /** The inverse of a reflection's group element reads each cell from its
      mirror image. */
  lemma MirrorInverse(m: Mirror, i: int, j: int)
    ensures From(Inverse(Code(Mirrored(m))), i, j) == MirrorCell(m, i, j)
  {
  }

  /** A lone O equals its mirror image under each reflection. */
  lemma EqMirroredTo(m: Mirror, i: int, j: int, p: int, q: int)
    requires IsCell(i, j) && (p, q) == MirrorCell(m, i, j)
    ensures IsCell(p, q) && Eq(Single(i, j), Single(p, q))
  {
    var t := Mirrored(m);
    MirrorInverse(m, i, j);
    ImageSingleTo(t, i, j, p, q);
    OrbitHas(Single(i, j), t);
  }

  lemma EqMirrored(m: Mirror, i: int, j: int)
    requires IsCell(i, j)
    ensures IsCell(MirrorCell(m, i, j).0, MirrorCell(m, i, j).1)
    ensures Eq(Single(i, j), Single(MirrorCell(m, i, j).0, MirrorCell(m, i, j).1))
  {
    EqMirroredTo(m, i, j, MirrorCell(m, i, j).0, MirrorCell(m, i, j).1);
  }

  /** Each reflection undoes itself on cells. */
  lemma MirrorTwice(m: Mirror, i: int, j: int)
    ensures MirrorCell(m, MirrorCell(m, i, j).0, MirrorCell(m, i, j).1) == (i, j)
  {
  }

  lemma SymmetricSingle(m: Mirror, i: int, j: int)
    requires IsCell(i, j)
    ensures IsCell(MirrorCell(m, i, j).0, MirrorCell(m, i, j).1)
    ensures Eq(Single(MirrorCell(m, i, j).0, MirrorCell(m, i, j).1), Single(i, j))
  {
    var (p, q) := MirrorCell(m, i, j);
    MirrorTwice(m, i, j);
    EqMirroredTo(m, p, q, i, j);
  }

  lemma NotHalfTurnTo(x: int, y: int, p: int, q: int)
    requires OffAxes(x, 4 - y) && p == 4 - x && q == 4 - y
    ensures !Eq(Single(x, y), Single(p, q))
  {
    NotHalfTurn(x, y);
  }

  /** Off the mirror axes, no entry of the list turns a lone O by half a
      turn. */
  lemma NotHalfTurn(x: int, y: int)
    requires OffAxes(x, 4 - y)
    ensures !Eq(Single(x, y), Single(4 - x, 4 - y))
  {
    forall k | 0 <= k < |Transforms|
      ensures Orbit(Single(x, y))[k] != Single(4 - x, 4 - y)
    {
      EntryNotHalfTurn(x, y, k);
    }
  }

  lemma EntryNotHalfTurn(x: int, y: int, k: nat)
    requires OffAxes(x, 4 - y) && k < |Transforms|
    ensures Orbit(Single(x, y))[k] != Single(4 - x, 4 - y)
  {
    OrbitSingle(x, y, k);
    var (p, q) := From(Inverse(Code(Transforms[k])), x, y);
    CellNotHalfTurn(x, y, k);
    SingleInjective(p, q, 4 - x, 4 - y);
  }

  lemma CellNotHalfTurn(x: int, y: int, k: nat)
    requires OffAxes(x, 4 - y) && k < |Transforms|
    ensures From(Inverse(Code(Transforms[k])), x, y) != (4 - x, 4 - y)
  {
  }

  /** The half turn the list leaves out, written as the source writes the
      rotations: one reflection after another. */
  function HalfTurn(board: nat): nat
  {
    Reflect(Vertical, Reflect(Horizontal, board))
  }

  const HalfTurnSym: Sym := Sym(false, true, true)

  /** The entry of the list that is a given group element other than the
      half turn. */
  function TransformOf(g: Sym): (t: Transform)
    requires g != HalfTurnSym
    ensures Code(t) == g
  {
    match g
    case Sym(false, false, false) => Same
    case Sym(false, false, true) => Mirrored(Vertical)
    case Sym(false, true, false) => Mirrored(Horizontal)
    case Sym(true, false, false) => Mirrored(Diagonal)
    case Sym(true, true, true) => Mirrored(AntiDiagonal)
    case Sym(true, true, false) => Clockwise
    case Sym(true, false, true) => Counterclockwise
  }

  /** The list with the half turn added: all eight symmetries of the square. */
  function Orbit8(board: nat): (s: seq<nat>)
    ensures |s| == |Transforms| + 1
  {
    Orbit(board) + [HalfTurn(board)]
  }

  /** The equality `__eq__` was evidently meant to be: the other board is an
      image of this one under a symmetry of the square. */
  predicate Eq8(a: nat, b: nat)
  {
    b in Orbit8(a)
  }

  /** The hash key `generate_hash_key` was evidently meant to compute. */
  function HashKey8(board: nat): nat
  {
    Sum(Dedup(Orbit8(board)))
  }

  /** The eight boards are the board's images under the whole group. */
  lemma Orbit8Members(board: nat, x: nat)
    requires Clean(board)
    ensures x in Orbit8(board) <==> exists g: Sym :: x == Apply(g, board)
  {
    OrbitMembers(board, x);
    if g: Sym :| x == Apply(g, board) {
      if g != HalfTurnSym {
        assert x == Apply(Code(TransformOf(g)), board);
      }
    }
    if x == HalfTurn(board) {
      assert x == Apply(HalfTurnSym, board);
    }
  }

  lemma Eq8Image(a: nat, b: nat)
    requires Clean(a) && Eq8(a, b)
    ensures exists g: Sym :: b == Apply(g, a)
  {
    Orbit8Members(a, b);
  }

  lemma Eq8FromImage(a: nat, g: Sym)
    requires Clean(a)
    ensures Eq8(a, Apply(g, a))
  {
    Orbit8Members(a, Apply(g, a));
  }

  /** With the half turn, equality is an equivalence on the game's boards. */
  lemma Eq8Equivalence(a: nat, b: nat, c: nat)
    requires Clean(a)
    ensures Eq(a, b) ==> Eq8(a, b)
    ensures Eq8(a, a)
    ensures Eq8(a, b) ==> Eq8(b, a)
    ensures Eq8(a, b) && Eq8(b, c) ==> Eq8(a, c)
  {
    assert Orbit8(a)[0] == a;
    if Eq8(a, b) {
      Eq8Image(a, b);
      var g: Sym :| b == Apply(g, a);
      ApplyClean(g, a);
      ApplyInverse(g, a);
      Eq8FromImage(b, Inverse(g));
      if Eq8(b, c) {
        Eq8Image(b, c);
        var h: Sym :| c == Apply(h, b);
        ApplyCompose(h, g, a);
        Eq8FromImage(a, Compose(h, g));
      }
    }
  }

  /** Boards that are equal in the corrected sense have the same eight
      images. */
  lemma Orbit8Same(a: nat, b: nat)
    requires Clean(a) && Eq8(a, b)
    ensures forall x :: x in Orbit8(a) <==> x in Orbit8(b)
  {
    Eq8Image(a, b);
    var g: Sym :| b == Apply(g, a);
    ApplyClean(g, a);
    forall x
      ensures x in Orbit8(a) <==> x in Orbit8(b)
    {
      Eq8Equivalence(a, b, x);
      Eq8Equivalence(b, a, x);
    }
  }

  /** With the half turn, boards that compare equal have the same hash key. */
  lemma HashKey8Invariant(a: nat, b: nat)
    requires Clean(a) && Eq8(a, b)
    ensures HashKey8(a) == HashKey8(b)
  {
    Orbit8Same(a, b);
    DedupSum(Orbit8(a), Orbit8(b));
  }

  /** The hash key is the sum of the set of the seven boards. */
  lemma HashKeySetSum(board: nat)
    ensures HashKey(board) == SetSum(Elems(Orbit(board)))
  {
    DistinctSum(Dedup(Orbit(board)));
    assert Elems(Dedup(Orbit(board))) == Elems(Orbit(board));
  }

  lemma HalfTurnSingle(x: int, y: int)
    requires IsCell(x, y)
    ensures HalfTurn(Single(x, y)) == Single(4 - x, 4 - y)
  {
    ApplySingle(HalfTurnSym, x, y);
  }

  /** For a lone O off the mirror axes the seven boards miss exactly the half
      turn, so adding it gives the sum over all eight. */
  lemma HashKeyPlusHalfTurn(x: int, y: int)
    requires OffAxes(x, 4 - y)
    ensures HashKey(Single(x, y)) + Single(4 - x, 4 - y) == SetSum(Elems(Orbit8(Single(x, y))))
  {
    var b := Single(x, y);
    NotHalfTurn(x, y);
    HalfTurnSingle(x, y);
    HashKeySetSum(b);
    assert Elems(Orbit8(b)) - {HalfTurn(b)} == Elems(Orbit(b));
    SetSumRemove(Elems(Orbit8(b)), HalfTurn(b));
  }

  /** Finding: the hash key is not invariant under `__eq__`. For a cell
      (i, j) off the mirror axes the lone O of (i, j) equals its vertical
      mirror, but their keys differ by `(1 << h) - (1 << h')` for the bits of
      the two half turns; for (0, 1) and (0, 3) that is `8 - 2 == 6`. */
  lemma HashKeyNotInvariant(i: int, j: int)
    requires OffAxes(i, j)
    ensures Eq(Single(i, j), Single(i, 4 - j))
    ensures HashKey(Single(i, j)) + Single(4 - i, 4 - j) == HashKey(Single(i, 4 - j)) + Single(4 - i, j)
    ensures HashKey(Single(i, j)) != HashKey(Single(i, 4 - j))
  {
    EqVertical(i, j);
    HashKeyDifference(i, j);
    HashKeysDiffer(i, j);
  }

  lemma EqVertical(i: int, j: int)
    requires OffAxes(i, j)
    ensures Eq(Single(i, j), Single(i, 4 - j))
  {
    OffAxesCells(i, j);
    EqMirroredTo(Vertical, i, j, i, 4 - j);
  }

  lemma HashKeysDiffer(i: int, j: int)
    requires OffAxes(i, j)
    ensures HashKey(Single(i, j)) != HashKey(Single(i, 4 - j))
  {
    HashKeyDifference(i, j);
    HalfTurnsDiffer(i, j);
    SumsDiffer(HashKey(Single(i, j)), HashKey(Single(i, 4 - j)), Single(4 - i, 4 - j), Single(4 - i, j));
  }

  /** The half turns of (i, j) and of its vertical mirror are different
      lone Os. */
  lemma HalfTurnsDiffer(i: int, j: int)
    requires OffAxes(i, j)
    ensures Single(4 - i, 4 - j) != Single(4 - i, j)
  {
    OffAxesCells(i, j);
    SingleDiffer(4 - i, 4 - j, 4 - i, j);
  }

  lemma SingleDiffer(i: int, j: int, p: int, q: int)
    requires IsCell(i, j) && IsCell(p, q) && (i, j) != (p, q)
    ensures Single(i, j) != Single(p, q)
  {
    SingleInjective(i, j, p, q);
  }

  lemma SumsDiffer(a: nat, b: nat, c: nat, d: nat)
    requires a + c == b + d && c != d
    ensures a != b
  {
  }

  lemma HashKeyDifference(i: int, j: int)
    requires OffAxes(i, j)
    ensures HashKey(Single(i, j)) + Single(4 - i, 4 - j) == HashKey(Single(i, 4 - j)) + Single(4 - i, j)
  {
    MirrorSetSum(i, j);
    HashKeyPlusHalfTurn(i, j);
    HashKeyPlusMirrorHalfTurn(i, j);
  }

  lemma MirrorSetSum(i: int, j: int)
    requires OffAxes(i, j)
    ensures SetSum(Elems(Orbit8(Single(i, j)))) == SetSum(Elems(Orbit8(Single(i, 4 - j))))
  {
    var p := Single(i, j);
    var a := Single(i, 4 - j);
    OffAxesCells(i, j);
    EqMirroredTo(Vertical, i, j, i, 4 - j);
    SingleClean(i, j);
    Eq8Equivalence(p, a, a);
    Orbit8Same(p, a);
    ElemsSame(Orbit8(p), Orbit8(a));
  }

  lemma ElemsSame(xs: seq<nat>, ys: seq<nat>)
    requires forall x :: x in xs <==> x in ys
    ensures Elems(xs) == Elems(ys)
  {
  }

  lemma HashKeyPlusMirrorHalfTurn(i: int, j: int)
    requires OffAxes(i, j)
    ensures HashKey(Single(i, 4 - j)) + Single(4 - i, j) == SetSum(Elems(Orbit8(Single(i, 4 - j))))
  {
    assert 4 - (4 - j) == j;
    HashKeyPlusHalfTurn(i, 4 - j);
  }

  /** The half turn commutes with every symmetry of the square, so
      conjugating any other symmetry never gives the half turn. */
  lemma HalfTurnCentral(g: Sym, k: Sym)
    ensures Compose(Inverse(g), Compose(HalfTurnSym, g)) == HalfTurnSym
    ensures k != HalfTurnSym ==> Compose(Inverse(g), Compose(k, g)) != HalfTurnSym
  {
  }

  /** Every symmetry but the half turn has its image in the list. */
  lemma OrbitOther(board: nat, g: Sym)
    requires Clean(board) && g != HalfTurnSym
    ensures Apply(g, board) in Orbit(board)
  {
    OrbitHas(board, TransformOf(g));
    ImageIsApply(TransformOf(g), board);
  }

  /** Whether the list of a board holds its half turn is the same for every
      board of the class. */
  lemma ListedAlongOrbit(a: nat, g: Sym)
    requires Clean(a)
    ensures HalfTurn(Apply(g, a)) in Orbit(Apply(g, a)) ==> HalfTurn(a) in Orbit(a)
  {
    var b := Apply(g, a);
    ApplyClean(g, a);
    if HalfTurn(b) in Orbit(b) {
      OrbitMembers(b, HalfTurn(b));
      var t: Transform :| HalfTurn(b) == Apply(Code(t), b);
      assert HalfTurn(b) == Apply(HalfTurnSym, b);
      assert Code(t) != HalfTurnSym;
      Conjugate(a, g, Code(t));
    }
  }

  /** A symmetry `k` that acts on `g`'s image as the half turn gives a
      symmetry other than the half turn that acts on the board as one. */
  lemma Conjugate(a: nat, g: Sym, k: Sym)
    requires Clean(a) && k != HalfTurnSym
    requires Apply(HalfTurnSym, Apply(g, a)) == Apply(k, Apply(g, a))
    ensures HalfTurn(a) in Orbit(a)
  {
    var c := Compose(Inverse(g), Compose(k, g));
    ConjugateImage(a, g, k);
    HalfTurnCentral(g, k);
    assert HalfTurn(a) == Apply(HalfTurnSym, a);
    OrbitOther(a, c);
  }

  lemma ConjugateImage(a: nat, g: Sym, k: Sym)
    requires Clean(a)
    requires Apply(HalfTurnSym, Apply(g, a)) == Apply(k, Apply(g, a))
    ensures Apply(HalfTurnSym, a) == Apply(Compose(Inverse(g), Compose(k, g)), a)
  {
    ApplyCompose(HalfTurnSym, g, a);
    ApplyCompose(k, g, a);
    ApplyCompose(Inverse(g), Compose(HalfTurnSym, g), a);
    ApplyCompose(Inverse(g), Compose(k, g), a);
    HalfTurnCentral(g, k);
  }

  /** When the list misses the half turn, the hash key is the sum over the
      eight images less the half turn. */
  lemma KeyWithoutHalfTurn(board: nat)
    requires HalfTurn(board) !in Orbit(board)
    ensures HashKey(board) + HalfTurn(board) == SetSum(Elems(Orbit8(board)))
  {
    HashKeySetSum(board);
    assert Elems(Orbit8(board)) - {HalfTurn(board)} == Elems(Orbit(board));
    SetSumRemove(Elems(Orbit8(board)), HalfTurn(board));
  }

  /** Two different boards that `__eq__` accepts and that share a hash key
      belong to a class whose lists already hold the half turn: otherwise
      the shared key would force the same half turn, hence the same board. */
  lemma KeyPinsHalfTurn(a: nat, b: nat)
    requires Clean(a) && Eq(a, b) && HashKey(a) == HashKey(b)
    ensures a == b || HalfTurn(a) in Orbit(a)
  {
    if HalfTurn(a) !in Orbit(a) {
      OrbitMembers(a, b);
      var t: Transform :| b == Apply(Code(t), a);
      ListedAlongOrbit(a, Code(t));
      ApplyClean(Code(t), a);
      KeyWithoutHalfTurn(a);
      KeyWithoutHalfTurn(b);
      Eq8Equivalence(a, b, b);
      Orbit8Same(a, b);
      ElemsSame(Orbit8(a), Orbit8(b));
      assert Apply(HalfTurnSym, a) == Apply(HalfTurnSym, b);
      ApplyInverse(HalfTurnSym, a);
      ApplyInverse(HalfTurnSym, b);
    }
  }

  /** `__eq__` composes through a board that shares the first one's hash
      key, which is the lookup test of a dictionary. */
  lemma KeyedEqTransitive(a: nat, b: nat, c: nat)
    requires Clean(a) && Eq(a, b) && HashKey(a) == HashKey(b) && Eq(b, c)
    ensures Eq(a, c)
  {
    KeyPinsHalfTurn(a, b);
    if a != b {
      OrbitMembers(a, b);
      var t: Transform :| b == Apply(Code(t), a);
      ApplyClean(Code(t), a);
      Eq8Equivalence(a, b, c);
      Eq8Equivalence(b, c, c);
    }
  }

  /** A lone O in a corner is no image of a lone O beside it. */
  lemma CornerNotEdge()
    ensures !Eq(Single(0, 0), Single(0, 1))
  {
    forall k | 0 <= k < |Transforms|
      ensures Orbit(Single(0, 0))[k] != Single(0, 1)
    {
      OrbitSingle(0, 0, k);
      var pq := From(Inverse(Code(Transforms[k])), 0, 0);
      SingleInjective(pq.0, pq.1, 0, 1);
    }
  }

  // ---------------------------------------------------------------------
  // The symmetry filter of `generate_moves`.

  /** One candidate of the filter: appended unless `check_symmetries`
      finds one of its seven images among the boards kept so far. */
  function Keep(kept: seq<nat>, c: nat): (r: seq<nat>)
  {
    if CheckSymmetries(kept, c) != 0 then kept + [c] else kept
  }

  /** The filter over a list of candidates, in order. */
  function KeepAll(kept: seq<nat>, cands: seq<nat>): (r: seq<nat>)
    decreases |cands|
  {
    if cands == [] then kept else KeepAll(Keep(kept, cands[0]), cands[1..])
  }

  /** Finding: what the filter keeps depends on the order of the
      candidates. For a lone O off the mirror axes, its vertical mirror and
      its half turn, the order (board, mirror, half turn) keeps the board
      and its half turn, two boards of one class of the square's
      symmetries, while the order (mirror, board, half turn) keeps the
      mirror alone. */
  lemma KeepAllOrder(i: int, j: int)
    requires OffAxes(i, j)
    ensures var a := Single(i, j);
      var b := Single(i, 4 - j);
      var c := Single(4 - i, 4 - j);
      && KeepAll([], [a, b, c]) == [a, c]
      && KeepAll([], [b, a, c]) == [b]
      && Eq8(a, c)
  {
    OrderImages(i, j);
    KeepOrders(Single(i, j), Single(i, 4 - j), Single(4 - i, 4 - j));
    HalfTurnEq8(i, j);
  }

  lemma HalfTurnEq8(i: int, j: int)
    requires IsCell(i, j)
    ensures Eq8(Single(i, j), Single(4 - i, 4 - j))
  {
    HalfTurnSingle(i, j);
    assert Orbit8(Single(i, j))[|Transforms|] == Single(4 - i, 4 - j);
  }

  /** Which of the three boards are images of which. */
  lemma OrderImages(i: int, j: int)
    requires OffAxes(i, j)
    ensures Eq(Single(i, j), Single(i, 4 - j))
    ensures Eq(Single(i, 4 - j), Single(i, j))
    ensures Eq(Single(4 - i, 4 - j), Single(i, 4 - j))
    ensures !Eq(Single(4 - i, 4 - j), Single(i, j))
  {
    EqVerticalBack(i, j);
    EqVertical(i, j);
    HalfTurnMirror(i, j);
    HalfTurnBack(i, j);
  }

  lemma HalfTurnMirror(i: int, j: int)
    requires OffAxes(i, j)
    ensures Eq(Single(4 - i, 4 - j), Single(i, 4 - j))
  {
    assert IsCell(4 - i, 4 - j) && (i, 4 - j) == MirrorCell(Horizontal, 4 - i, 4 - j);
    EqMirroredTo(Horizontal, 4 - i, 4 - j, i, 4 - j);
  }

  lemma HalfTurnBack(i: int, j: int)
    requires OffAxes(i, j)
    ensures !Eq(Single(4 - i, 4 - j), Single(i, j))
  {
    assert OffAxes(4 - i, 4 - (4 - j));
    NotHalfTurnTo(4 - i, 4 - j, i, j);
  }

  /** The two orders of the filter, for any three boards related as a
      lone O, its mirror image and its half turn are. */
  lemma KeepOrders(a: nat, b: nat, c: nat)
    requires Eq(a, b) && Eq(b, a) && Eq(c, b) && !Eq(c, a)
    ensures KeepAll([], [a, b, c]) == [a, c]
    ensures KeepAll([], [b, a, c]) == [b]
  {
    KeepThree(a, b, c);
    KeepThree(b, a, c);
  }

  /** The filter over three candidates, read off which of them are images
      of which. */
  lemma KeepThree(a: nat, b: nat, c: nat)
    ensures KeepAll([], [a, b, c]) == Keep(Keep([a], b), c)
    ensures Keep([a], b) == if Eq(b, a) then [a] else [a, b]
    ensures Keep([a], c) == if Eq(c, a) then [a] else [a, c]
  {
    FirstListedFinds(Orbit(a), []);
    assert Keep([], a) == [a];
    assert [a, b, c][1..] == [b, c];
    assert [b, c][1..] == [c];
    assert KeepAll([a], [b, c]) == KeepAll(Keep([a], b), [c]);
    assert KeepAll(Keep([a], b), [c]) == KeepAll(Keep(Keep([a], b), c), []);
    KeepOne(a, b);
    KeepOne(a, c);
  }

  lemma KeepOne(a: nat, b: nat)
    ensures Keep([a], b) == if Eq(b, a) then [a] else [a, b]
  {
    FirstListedFinds(Orbit(b), [a]);
  }

  /** The filter with the half turn among the images. */
  function Keep8(kept: seq<nat>, c: nat): (r: seq<nat>)
  {
    if FirstListed(Orbit8(c), kept) != 0 then kept + [c] else kept
  }

  function KeepAll8(kept: seq<nat>, cands: seq<nat>): (r: seq<nat>)
    decreases |cands|
  {
    if cands == [] then kept else KeepAll8(Keep8(kept, cands[0]), cands[1..])
  }

  /** No two boards of the list are images of each other under the
      symmetries of the square. */
  predicate Apart8(xs: seq<nat>)
  {
    forall p, q | 0 <= p < q < |xs| :: !Eq8(xs[p], xs[q])
  }

  /** Every board of `cands` has an image in `kept`. */
  predicate Covers8(kept: seq<nat>, cands: seq<nat>)
  {
    forall x | x in cands :: exists y | y in kept :: Eq8(x, y)
  }

  /** With the half turn the filter keeps one board of each class met:
      the kept boards are candidates or were kept before, no two are
      images of each other, and each candidate has an image among them. */
  lemma {:induction false} KeepAll8Classes(kept: seq<nat>, cands: seq<nat>)
    requires forall x | x in kept :: Clean(x)
    requires forall x | x in cands :: Clean(x)
    requires Apart8(kept)
    ensures forall y | y in KeepAll8(kept, cands) :: y in kept || y in cands
    ensures Apart8(KeepAll8(kept, cands))
    ensures Covers8(KeepAll8(kept, cands), kept + cands)
    decreases |cands|
  {
    if cands == [] {
      forall x | x in kept
        ensures exists y | y in kept :: Eq8(x, y)
      {
        Eq8Equivalence(x, x, x);
      }
      assert kept + cands == kept;
    } else {
      var next := Keep8(kept, cands[0]);
      Keep8Classes(kept, cands[0]);
      assert forall x | x in cands[1..] :: x in cands;
      KeepAll8Classes(next, cands[1..]);
      assert forall x | x in kept + cands :: x in kept || x in cands;
      CoversStep(kept, cands, next, KeepAll8(next, cands[1..]));
    }
  }

  /** A candidate covered by one step of the filter stays covered by the
      rest of it. */
  lemma CoversStep(kept: seq<nat>, cands: seq<nat>, next: seq<nat>, r: seq<nat>)
    requires cands != []
    requires forall x | x in kept + cands :: Clean(x)
    requires Covers8(next, kept + [cands[0]]) && Covers8(r, next + cands[1..])
    ensures Covers8(r, kept + cands)
  {
    forall x | x in kept + cands
      ensures exists y | y in r :: Eq8(x, y)
    {
      if x in kept || x == cands[0] {
        assert x in kept + [cands[0]];
        CoverThrough(x, next, cands[1..], r);
      } else {
        var k :| 0 < k < |cands| && cands[k] == x;
        assert (next + cands[1..])[|next| + k - 1] == x;
        assert x in next + cands[1..];
      }
    }
  }

  /** A board covered by `next`, which `r` covers, is covered by `r`. */
  lemma CoverThrough(x: nat, next: seq<nat>, more: seq<nat>, r: seq<nat>)
    requires Clean(x)
    requires exists y | y in next :: Eq8(x, y)
    requires Covers8(r, next + more)
    ensures exists z | z in r :: Eq8(x, z)
  {
    var y :| y in next && Eq8(x, y);
    assert y in next + more;
    var z :| z in r && Eq8(y, z);
    Eq8Equivalence(x, y, z);
  }

  /** One step of the corrected filter. */
  lemma Keep8Classes(kept: seq<nat>, c: nat)
    requires Clean(c) && forall x | x in kept :: Clean(x)
    requires Apart8(kept)
    ensures forall y | y in Keep8(kept, c) :: y in kept || y == c
    ensures kept <= Keep8(kept, c)
    ensures forall y | y in Keep8(kept, c) :: Clean(y)
    ensures Apart8(Keep8(kept, c))
    ensures Covers8(Keep8(kept, c), kept + [c])
  {
    var r := Keep8(kept, c);
    FirstListedFinds(Orbit8(c), kept);
    forall x | x in kept + [c]
      ensures exists y | y in r :: Eq8(x, y)
    {
      Eq8Equivalence(x, x, x);
      if x == c && r == kept {
        var y :| y in Orbit8(c) && y in kept;
        assert Eq8(c, y);
      }
    }
    if r != kept {
      forall p | 0 <= p < |kept|
        ensures !Eq8(kept[p], c)
      {
        Eq8Equivalence(kept[p], c, c);
        Eq8Equivalence(c, kept[p], kept[p]);
      }
    }
  }
}
