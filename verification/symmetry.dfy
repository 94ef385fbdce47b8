/** The board symmetries of `State` in `game.py`.

    `vertical_symmetry`, `horizontal_symmetry`, `d1_symmetry` and
    `d2_symmetry` move every bit of each 25-bit field to a new index; the two
    rotations are compositions of them. The list built by
    `generate_symmetries` (the board itself and six images) is what `__eq__`
    and the hash key are made of. */
module Symmetry {
  import opened Bits
  import opened Board

  /** The four reflections the source writes out bit by bit. */
  datatype Mirror = Vertical | Horizontal | Diagonal | AntiDiagonal

  function Abs(x: int): nat
  {
    if x < 0 then -x else x
  }

  /** `new_index` for the bit `b` of a field; `b // 5` and `b % 5` are
      called `col` and `row` in the source. */
  function NewIndex(m: Mirror, b: int): (r: nat)
    requires 0 <= b < 25
    ensures r < 25
  {
    var col := b / 5;
    var row := b % 5;
    match m
    case Vertical => Abs(4 - (b - 5 * col)) + 5 * col
    case Horizontal => Abs(20 - 5 * col) + row
    case Diagonal => 5 * row + col
    case AntiDiagonal => (20 - 5 * row) + 4 - col
  }

  /** The cell a reflection exchanges (i, j) with. */
  function MirrorCell(m: Mirror, i: int, j: int): (int, int)
  {
    match m
    case Vertical => (i, 4 - j)
    case Horizontal => (4 - i, j)
    case Diagonal => (j, i)
    case AntiDiagonal => (4 - j, 4 - i)
  }

  /** On cells, `new_index` is the reflection `MirrorCell`: vertical mirrors
      the columns, horizontal the rows, d1 transposes, d2 transposes about
      the other diagonal. */
  lemma NewIndexCell(m: Mirror, i: int, j: int)
    requires IsCell(i, j)
    ensures IsCell(MirrorCell(m, i, j).0, MirrorCell(m, i, j).1)
    ensures NewIndex(m, OBit(i, j)) == OBit(MirrorCell(m, i, j).0, MirrorCell(m, i, j).1)
  {
    var b := OBit(i, j);
    assert b / 5 == 4 - i && b % 5 == 4 - j;
  }

  /** Each `new_index` is its own inverse, so each loop is a permutation of
      the 25 bits. */
  lemma NewIndexInvolution(m: Mirror, b: int)
    requires 0 <= b < 25
    ensures NewIndex(m, NewIndex(m, b)) == b
  {
    var (i, j) := CellOfBit(b);
    NewIndexCell(m, i, j);
    var (p, q) := MirrorCell(m, i, j);
    NewIndexCell(m, p, q);
  }

  /** The loop `for b in range(25): new |= ((old >> b) & 1) << new_index`
      after its first `n` rounds. */
  function Scatter(m: Mirror, src: nat, n: nat): nat
    requires n <= FieldSize
  {
    if n == 0 then 0
    else
      var oldBit := And(Shr(src, n - 1), 1);
      Or(Scatter(m, src, n - 1), Shl(oldBit, NewIndex(m, n - 1)))
  }

  /** `((x >> b) & 1) << n` has at most the bit `n`, set when bit `b` of `x` is. */
  lemma MovedBit(x: nat, b: nat, n: nat, k: nat)
    ensures Bit(Shl(And(Shr(x, b), 1), n), k) == (k == n && Bit(x, b))
  {
    BitShl(And(Shr(x, b), 1), n, k);
    if k >= n {
      BitAnd(Shr(x, b), 1, k - n);
      BitOne(k - n);
      BitShr(x, b, 0);
    }
  }

  /** The bit `new_index(a)` is the only one whose own `new_index` is `a`. */
  lemma NewIndexSwap(m: Mirror, a: int, k: nat)
    requires 0 <= a < FieldSize
    ensures k == NewIndex(m, a) <==> (k < FieldSize && NewIndex(m, k) == a)
  {
    NewIndexInvolution(m, a);
    if k < FieldSize {
      NewIndexInvolution(m, k);
    }
  }

  /** One round of the loop sets the bit `new_index(n - 1)` when bit `n - 1`
      of the source is set. */
  lemma ScatterStep(m: Mirror, src: nat, n: nat, k: nat)
    requires 0 < n <= FieldSize
    ensures Bit(Scatter(m, src, n), k)
         == (Bit(Scatter(m, src, n - 1), k) || (k == NewIndex(m, n - 1) && Bit(src, n - 1)))
  {
    var oldBit := And(Shr(src, n - 1), 1);
    BitOr(Scatter(m, src, n - 1), Shl(oldBit, NewIndex(m, n - 1)), k);
    MovedBit(src, n - 1, NewIndex(m, n - 1), k);
  }

  lemma {:induction false} ScatterBit(m: Mirror, src: nat, n: nat, k: nat)
    requires n <= FieldSize
    ensures Bit(Scatter(m, src, n), k)
         == (k < FieldSize && NewIndex(m, k) < n && Bit(src, NewIndex(m, k)))
  {
    if n == 0 {
      BitZero(k);
    } else {
      ScatterBit(m, src, n - 1, k);
      ScatterStep(m, src, n, k);
      NewIndexSwap(m, n - 1, k);
    }
  }

  /** `vertical_symmetry`, `horizontal_symmetry`, `d1_symmetry` and
      `d2_symmetry`: both fields are masked with `int("1" * 25, 2)`, scattered,
      and the X field shifted back into place. */
  function Reflect(m: Mirror, board: nat): nat
  {
    var newO := ReflectField(m, board);
    var newX := ReflectField(m, Shr(board, XOffset));
    Or(Shl(newX, XOffset), newO)
  }

  /** One field of a reflection: `field & int("1" * 25, 2)` scattered by
      the loop. */
  function ReflectField(m: Mirror, field: nat): nat
  {
    Scatter(m, And(field, FullField), FieldSize)
  }

  /** Bit `k` of a reflected field is bit `new_index(k)` of the field. */
  lemma ReflectFieldBit(m: Mirror, field: nat, k: nat)
    ensures Bit(ReflectField(m, field), k) == (k < 25 && Bit(field, NewIndex(m, k)))
  {
    ScatterBit(m, And(field, FullField), FieldSize, k);
    if k < 25 {
      BitAnd(field, FullField, NewIndex(m, k));
      FullFieldBits(NewIndex(m, k));
    }
  }

  lemma ReflectXField(m: Mirror, board: nat, k: nat)
    ensures Bit(ReflectField(m, Shr(board, XOffset)), k) == (k < 25 && Bit(board, XOffset + NewIndex(m, k)))
  {
    var f := Shr(board, XOffset);
    ReflectFieldBit(m, f, k);
    if k < 25 {
      BitShr(board, XOffset, NewIndex(m, k));
    }
  }

  lemma ReflectSplit(m: Mirror, board: nat, k: nat)
    ensures Bit(Reflect(m, board), k)
         == ((k >= XOffset && Bit(ReflectField(m, Shr(board, XOffset)), k - XOffset)) || Bit(ReflectField(m, board), k))
  {
    var newO := ReflectField(m, board);
    var newX := ReflectField(m, Shr(board, XOffset));
    BitOr(Shl(newX, XOffset), newO, k);
    BitShl(newX, XOffset, k);
  }

  /** A reflected field has no bit at or above 25. */
  lemma ReflectFieldLow(m: Mirror, field: nat, k: nat)
    ensures Bit(ReflectField(m, field), k) ==> k < FieldSize
  {
    ScatterBit(m, And(field, FullField), FieldSize, k);
  }

  lemma ReflectLow(m: Mirror, board: nat, k: nat)
    requires k < FieldSize
    ensures Bit(Reflect(m, board), k) == Bit(board, NewIndex(m, k))
  {
    ReflectSplit(m, board, k);
    ReflectFieldBit(m, board, k);
  }

  lemma ReflectHigh(m: Mirror, board: nat, k: nat)
    requires k < FieldSize
    ensures Bit(Reflect(m, board), XOffset + k) == Bit(board, XOffset + NewIndex(m, k))
  {
    var h := XOffset + k;
    ReflectSplit(m, board, h);
    ReflectFieldBit(m, board, h);
    assert h - XOffset == k;
    ReflectXField(m, board, k);
  }

  /** A reflection leaves nothing outside the two fields. */
  lemma ReflectClean(m: Mirror, board: nat)
    ensures Clean(Reflect(m, board))
  {
    forall k: nat | Bit(Reflect(m, board), k)
      ensures FieldBit(k)
    {
      ReflectSplit(m, board, k);
      ReflectFieldLow(m, board, k);
      if k >= XOffset {
        ReflectFieldLow(m, Shr(board, XOffset), k - XOffset);
      }
    }
  }

  /** An element of the symmetry group of the square, as the cell it reads
      from: (i, j) is first transposed when `transpose` holds, then its row is
      mirrored when `flipRows` holds and its column when `flipCols` holds. */
  datatype Sym = Sym(transpose: bool, flipRows: bool, flipCols: bool)

  /** The cell whose content `Apply(g, _)` puts on (i, j). */
  function From(g: Sym, i: int, j: int): (int, int)
  {
    var (a, b) := if g.transpose then (j, i) else (i, j);
    (if g.flipRows then 4 - a else a, if g.flipCols then 4 - b else b)
  }

  /** A group element as a chain of the source's reflections. */
  function Apply(g: Sym, board: nat): nat
  {
    var rows := if g.flipRows then Reflect(Horizontal, board) else board;
    var cols := if g.flipCols then Reflect(Vertical, rows) else rows;
    if g.transpose then Reflect(Diagonal, cols) else cols
  }

  lemma FromCell(g: Sym, i: int, j: int)
    requires IsCell(i, j)
    ensures IsCell(From(g, i, j).0, From(g, i, j).1)
  {
  }

  /** `r` holds on (i, j) what `board` holds on (a, b). */
  predicate CellFrom(board: nat, r: nat, i: int, j: int, a: int, b: int)
    requires IsCell(i, j)
  {
    IsCell(a, b) && HasO(r, i, j) == HasO(board, a, b) && HasX(r, i, j) == HasX(board, a, b)
  }

  /** `r` holds on (i, j) what `board` holds on the cell `g` reads it from. */
  predicate CellReads(g: Sym, board: nat, r: nat, i: int, j: int)
    requires IsCell(i, j)
  {
    CellFrom(board, r, i, j, From(g, i, j).0, From(g, i, j).1)
  }

  /** `r` is the board `g` makes of `board`, read cell by cell. */
  ghost predicate Reads(g: Sym, board: nat, r: nat)
  {
    forall i, j | IsCell(i, j) :: CellReads(g, board, r, i, j)
  }

  /** Bit `k` of each field of `r` is the bit `new_index(k)` of `board`. */
  ghost predicate ReflectsBits(m: Mirror, board: nat, r: nat)
  {
    forall k | 0 <= k < FieldSize :: Bit(r, k) == Bit(board, NewIndex(m, k)) && Bit(r, XOffset + k) == Bit(board, XOffset + NewIndex(m, k))
  }

  lemma ReflectBitsHold(m: Mirror, board: nat)
    ensures ReflectsBits(m, board, Reflect(m, board))
  {
    forall k | 0 <= k < FieldSize
      ensures Bit(Reflect(m, board), k) == Bit(board, NewIndex(m, k))
      ensures Bit(Reflect(m, board), XOffset + k) == Bit(board, XOffset + NewIndex(m, k))
    {
      ReflectLow(m, board, k);
      ReflectHigh(m, board, k);
    }
  }

  /** Moving the bits by `new_index` moves the pieces to the mirrored cells. */
  lemma MirrorReads(m: Mirror, board: nat, r: nat)
    requires ReflectsBits(m, board, r)
    ensures Reads(Code(Mirrored(m)), board, r)
  {
    forall i, j | IsCell(i, j)
      ensures CellReads(Code(Mirrored(m)), board, r, i, j)
    {
      var k := OBit(i, j);
      assert Bit(r, k) == Bit(board, NewIndex(m, k));
      assert Bit(r, XOffset + k) == Bit(board, XOffset + NewIndex(m, k));
      NewIndexCell(m, i, j);
      MirrorCode(m, i, j);
    }
  }

  /** A reflection puts on (i, j) what the board had on the mirrored cell. */
  lemma ReflectReads(m: Mirror, board: nat)
    ensures Reads(Code(Mirrored(m)), board, Reflect(m, board))
  {
    ReflectBitsHold(m, board);
    MirrorReads(m, board, Reflect(m, board));
  }

  lemma ReadsIdentity(board: nat)
    ensures Reads(Identity, board, board)
  {
  }

  lemma CellCompose(a: nat, b: nat, c: nat, i: int, j: int, p: int, q: int, s: int, t: int)
    requires IsCell(i, j) && CellFrom(b, c, i, j, p, q) && CellFrom(a, b, p, q, s, t)
    ensures CellFrom(a, c, i, j, s, t)
  {
  }

  lemma ReadsComposeAt(h: Sym, g: Sym, a: nat, b: nat, c: nat, i: int, j: int)
    requires Reads(g, a, b) && Reads(h, b, c) && IsCell(i, j)
    ensures CellReads(Compose(h, g), a, c, i, j)
  {
    var (p, q) := From(h, i, j);
    FromCell(h, i, j);
    var (s, t) := From(g, p, q);
    ComposeFrom(h, g, i, j);
    assert CellReads(h, b, c, i, j);
    assert CellReads(g, a, b, p, q);
    CellCompose(a, b, c, i, j, p, q, s, t);
  }

  /** Reading through `g` and then through `h` is reading through their
      composition. */
  lemma ReadsCompose(h: Sym, g: Sym, a: nat, b: nat, c: nat)
    requires Reads(g, a, b) && Reads(h, b, c)
    ensures Reads(Compose(h, g), a, c)
  {
    forall i, j | IsCell(i, j)
      ensures CellReads(Compose(h, g), a, c, i, j)
    {
      ReadsComposeAt(h, g, a, b, c, i, j);
    }
  }

  /** Two positions of the game read the same way from a board are equal. */
  lemma ReadsUnique(g: Sym, board: nat, r1: nat, r2: nat)
    requires Reads(g, board, r1) && Reads(g, board, r2) && Clean(r1) && Clean(r2)
    ensures r1 == r2
  {
    forall i, j | IsCell(i, j)
      ensures HasO(r1, i, j) == HasO(r2, i, j) && HasX(r1, i, j) == HasX(r2, i, j)
    {
      assert CellReads(g, board, r1, i, j) && CellReads(g, board, r2, i, j);
    }
    SamePieces(r1, r2);
  }

  /** A reflection puts on (i, j) what the board had on the mirrored cell. */
  lemma ReflectCell(m: Mirror, board: nat, i: int, j: int)
    requires IsCell(i, j)
    ensures IsCell(MirrorCell(m, i, j).0, MirrorCell(m, i, j).1)
    ensures HasO(Reflect(m, board), i, j) == HasO(board, MirrorCell(m, i, j).0, MirrorCell(m, i, j).1)
    ensures HasX(Reflect(m, board), i, j) == HasX(board, MirrorCell(m, i, j).0, MirrorCell(m, i, j).1)
  {
    ReflectReads(m, board);
    assert CellReads(Code(Mirrored(m)), board, Reflect(m, board), i, j);
    MirrorCode(m, i, j);
  }

  /** A reflection applied twice gives back a position the game can hold. */
  lemma ReflectInvolution(m: Mirror, board: nat)
    requires Clean(board)
    ensures Reflect(m, Reflect(m, board)) == board
  {
    var once := Reflect(m, board);
    ReflectReads(m, board);
    ReflectReads(m, once);
    ReadsCompose(Code(Mirrored(m)), Code(Mirrored(m)), board, once, Reflect(m, once));
    assert Compose(Code(Mirrored(m)), Code(Mirrored(m))) == Identity;
    ReadsIdentity(board);
    ReflectClean(m, once);
    ReadsUnique(Identity, board, Reflect(m, once), board);
  }

  /** `Apply(g, _)` reads every cell through `g`. */
  lemma ApplyReads(g: Sym, board: nat)
    ensures Reads(g, board, Apply(g, board))
  {
    var rows := if g.flipRows then Reflect(Horizontal, board) else board;
    var cols := if g.flipCols then Reflect(Vertical, rows) else rows;
    var gr := if g.flipRows then Code(Mirrored(Horizontal)) else Identity;
    var gc := if g.flipCols then Code(Mirrored(Vertical)) else Identity;
    var gt := if g.transpose then Code(Mirrored(Diagonal)) else Identity;
    if g.flipRows {
      ReflectReads(Horizontal, board);
    } else {
      ReadsIdentity(board);
    }
    if g.flipCols {
      ReflectReads(Vertical, rows);
    } else {
      ReadsIdentity(rows);
    }
    if g.transpose {
      ReflectReads(Diagonal, cols);
    } else {
      ReadsIdentity(cols);
    }
    ReadsCompose(gc, gr, board, rows, cols);
    ReadsCompose(gt, Compose(gc, gr), board, cols, Apply(g, board));
    assert Compose(gt, Compose(gc, gr)) == g;
  }

  lemma ApplyCell(g: Sym, board: nat, i: int, j: int)
    requires IsCell(i, j)
    ensures IsCell(From(g, i, j).0, From(g, i, j).1)
    ensures HasO(Apply(g, board), i, j) == HasO(board, From(g, i, j).0, From(g, i, j).1)
    ensures HasX(Apply(g, board), i, j) == HasX(board, From(g, i, j).0, From(g, i, j).1)
  {
    ApplyReads(g, board);
    assert CellReads(g, board, Apply(g, board), i, j);
  }

  lemma ApplyClean(g: Sym, board: nat)
    requires Clean(board)
    ensures Clean(Apply(g, board))
  {
    var rows := if g.flipRows then Reflect(Horizontal, board) else board;
    var cols := if g.flipCols then Reflect(Vertical, rows) else rows;
    if g.flipRows {
      ReflectClean(Horizontal, board);
    }
    if g.flipCols {
      ReflectClean(Vertical, rows);
    }
    if g.transpose {
      ReflectClean(Diagonal, cols);
    }
  }

  lemma ApplyValid(g: Sym, board: nat)
    requires Valid(board)
    ensures Valid(Apply(g, board))
  {
    ApplyClean(g, board);
    forall i, j | IsCell(i, j)
      ensures !(HasO(Apply(g, board), i, j) && HasX(Apply(g, board), i, j))
    {
      ApplyCell(g, board, i, j);
    }
  }

  /** Two positions of the game with the same pieces are equal. */
  lemma SamePieces(a: nat, b: nat)
    requires Clean(a) && Clean(b)
    requires forall i, j | IsCell(i, j) :: HasO(a, i, j) == HasO(b, i, j) && HasX(a, i, j) == HasX(b, i, j)
    ensures a == b
  {
    SameCells(a, b);
  }

  /** `h` after `g`: reading through `h` and then through `g`. */
  function Compose(h: Sym, g: Sym): Sym
  {
    Sym(h.transpose != g.transpose,
        g.flipRows != (if g.transpose then h.flipCols else h.flipRows),
        g.flipCols != (if g.transpose then h.flipRows else h.flipCols))
  }

  /** The identity reads every cell from itself. */
  const Identity: Sym := Sym(false, false, false)

  function Inverse(g: Sym): (r: Sym)
    ensures Compose(r, g) == Identity && Compose(g, r) == Identity
  {
    Sym(g.transpose,
        if g.transpose then g.flipCols else g.flipRows,
        if g.transpose then g.flipRows else g.flipCols)
  }

  lemma ComposeFrom(h: Sym, g: Sym, i: int, j: int)
    ensures From(Compose(h, g), i, j) == From(g, From(h, i, j).0, From(h, i, j).1)
  {
  }

  /** `g` reads (a, b) from (i, j) exactly when its inverse reads (i, j)
      from (a, b). */
  lemma InverseFrom(g: Sym, a: int, b: int, i: int, j: int)
    ensures From(g, a, b) == (i, j) <==> (a, b) == From(Inverse(g), i, j)
  {
    ComposeFrom(Inverse(g), g, i, j);
    ComposeFrom(g, Inverse(g), a, b);
  }

  lemma ApplyCompose(h: Sym, g: Sym, board: nat)
    requires Clean(board)
    ensures Apply(h, Apply(g, board)) == Apply(Compose(h, g), board)
  {
    var inner := Apply(g, board);
    ApplyReads(g, board);
    ApplyReads(h, inner);
    ReadsCompose(h, g, board, inner, Apply(h, inner));
    ApplyReads(Compose(h, g), board);
    ApplyClean(g, board);
    ApplyClean(h, inner);
    ApplyClean(Compose(h, g), board);
    ReadsUnique(Compose(h, g), board, Apply(h, inner), Apply(Compose(h, g), board));
  }

  lemma ApplyInverse(g: Sym, board: nat)
    requires Clean(board)
    ensures Apply(Inverse(g), Apply(g, board)) == board
  {
    var image := Apply(g, board);
    ApplyReads(g, board);
    ApplyReads(Inverse(g), image);
    ReadsCompose(Inverse(g), g, board, image, Apply(Inverse(g), image));
    ReadsIdentity(board);
    ApplyClean(g, board);
    ApplyClean(Inverse(g), image);
    ReadsUnique(Identity, board, Apply(Inverse(g), image), board);
  }

  /** The seven entries of the list `generate_symmetries` builds, in its
      order: the board, the four reflections, and the two rotations. */
  datatype Transform = Same | Mirrored(m: Mirror) | Clockwise | Counterclockwise

  /** The board each entry holds, computed as the source computes it. */
  function Image(t: Transform, board: nat): nat
  {
    match t
    case Same => board
    case Mirrored(m) => Reflect(m, board)
    case Clockwise => Reflect(Horizontal, Reflect(AntiDiagonal, board))
    case Counterclockwise => Reflect(Vertical, Reflect(AntiDiagonal, board))
  }

  /** The group element each entry is. */
  function Code(t: Transform): Sym
  {
    match t
    case Same => Identity
    case Mirrored(Vertical) => Sym(false, false, true)
    case Mirrored(Horizontal) => Sym(false, true, false)
    case Mirrored(Diagonal) => Sym(true, false, false)
    case Mirrored(AntiDiagonal) => Sym(true, true, true)
    case Clockwise => Sym(true, true, false)
    case Counterclockwise => Sym(true, false, true)
  }

  /** The reflection's cell map is the one of its group element. */
  lemma MirrorCode(m: Mirror, i: int, j: int)
    ensures MirrorCell(m, i, j) == From(Code(Mirrored(m)), i, j)
  {
  }

  /** `rotate_clockwise` puts on (i, j) the content of (4 - j, i), and
      `rotate_counterclockwise` the content of (j, 4 - i): they are the two
      quarter turns. */
  lemma RotationCells(i: int, j: int)
    ensures From(Code(Clockwise), i, j) == (4 - j, i)
    ensures From(Code(Counterclockwise), i, j) == (j, 4 - i)
  {
  }

  /** Each of the seven boards reads every cell through its group element. */
  lemma ImageReads(t: Transform, board: nat)
    ensures Reads(Code(t), board, Image(t, board))
  {
    match t
    case Same =>
      ReadsIdentity(board);
    case Mirrored(m) =>
      ReflectReads(m, board);
    case Clockwise =>
      var d2 := Reflect(AntiDiagonal, board);
      ReflectReads(AntiDiagonal, board);
      ReflectReads(Horizontal, d2);
      ReadsCompose(Code(Mirrored(Horizontal)), Code(Mirrored(AntiDiagonal)), board, d2, Image(t, board));
      assert Compose(Code(Mirrored(Horizontal)), Code(Mirrored(AntiDiagonal))) == Code(Clockwise);
    case Counterclockwise =>
      var d2 := Reflect(AntiDiagonal, board);
      ReflectReads(AntiDiagonal, board);
      ReflectReads(Vertical, d2);
      ReadsCompose(Code(Mirrored(Vertical)), Code(Mirrored(AntiDiagonal)), board, d2, Image(t, board));
      assert Compose(Code(Mirrored(Vertical)), Code(Mirrored(AntiDiagonal))) == Code(Counterclockwise);
  }

  lemma ImageCell(t: Transform, board: nat, i: int, j: int)
    requires IsCell(i, j)
    ensures IsCell(From(Code(t), i, j).0, From(Code(t), i, j).1)
    ensures HasO(Image(t, board), i, j) == HasO(board, From(Code(t), i, j).0, From(Code(t), i, j).1)
    ensures HasX(Image(t, board), i, j) == HasX(board, From(Code(t), i, j).0, From(Code(t), i, j).1)
  {
    ImageReads(t, board);
    assert CellReads(Code(t), board, Image(t, board), i, j);
  }

  lemma ImageClean(t: Transform, board: nat)
    requires Clean(board)
    ensures Clean(Image(t, board))
  {
    match t
    case Same =>
    case Mirrored(m) =>
      ReflectClean(m, board);
    case Clockwise =>
      ReflectClean(Horizontal, Reflect(AntiDiagonal, board));
    case Counterclockwise =>
      ReflectClean(Vertical, Reflect(AntiDiagonal, board));
  }

  /** Each of the seven boards is its group element applied to the board. */
  lemma ImageIsApply(t: Transform, board: nat)
    requires Clean(board)
    ensures Image(t, board) == Apply(Code(t), board)
  {
    ImageReads(t, board);
    ApplyReads(Code(t), board);
    ImageClean(t, board);
    ApplyClean(Code(t), board);
    ReadsUnique(Code(t), board, Image(t, board), Apply(Code(t), board));
  }
}
