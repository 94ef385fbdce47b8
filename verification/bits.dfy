/** Bit operations on Python's non-negative integers.

    A Quixo board is a Python `int`, which has no width: `<<` never drops bits
    and `~y` is the negative number `-y - 1`. The operators below are defined
    bit by bit on `nat`, so that the model computes exactly what Python does on
    the non-negative values the game ever builds. */
module Bits {

  /** `x >> s` */
  function Shr(x: nat, s: nat): nat
  {
    if s == 0 then x else Shr(x / 2, s - 1)
  }

  /** `x << s` (no truncation, as in Python) */
  function Shl(x: nat, s: nat): (r: nat)
    ensures x <= r
    ensures x > 0 ==> r > 0
  {
    if s == 0 then x else 2 * Shl(x, s - 1)
  }

  /** `x & y` */
  function And(x: nat, y: nat): nat
  {
    if x == 0 || y == 0 then 0
    else 2 * And(x / 2, y / 2) + (if x % 2 == 1 && y % 2 == 1 then 1 else 0)
  }

  /** `x | y` */
  function Or(x: nat, y: nat): nat
  {
    if x == 0 then y
    else if y == 0 then x
    else 2 * Or(x / 2, y / 2) + (if x % 2 == 1 || y % 2 == 1 then 1 else 0)
  }

  /** `x & ~y`: Python's `~y` is `-y - 1`, whose two's-complement bits are the
      complement of `y`'s, so the result clears in `x` every bit set in `y`. */
  function AndNot(x: nat, y: nat): nat
  {
    if x == 0 then 0
    else 2 * AndNot(x / 2, y / 2) + (if x % 2 == 1 && y % 2 == 0 then 1 else 0)
  }

  /** `(1 << n) - 1`, the mask of the `n` low bits (`33554431` for `n == 25`). */
  function LowMask(n: nat): nat
  {
    Shl(1, n) - 1
  }

  /** `(x >> i) & 1 == 1` */
  predicate Bit(x: nat, i: nat)
  {
    Shr(x, i) % 2 == 1
  }

  /** Every set bit of `x` lies below `n`. */
  ghost predicate Below(x: nat, n: nat)
  {
    forall i: nat :: Bit(x, i) ==> i < n
  }

  lemma {:induction false} ShrZero(s: nat)
    ensures Shr(0, s) == 0
  {
    if s > 0 {
      ShrZero(s - 1);
    }
  }

  lemma BitZero(i: nat)
    ensures !Bit(0, i)
  {
    ShrZero(i);
  }

  lemma BitSucc(x: nat, i: nat)
    ensures Bit(x, i + 1) == Bit(x / 2, i)
  {
  }

  lemma {:induction false} ShrShr(x: nat, s: nat, t: nat)
    ensures Shr(Shr(x, s), t) == Shr(x, s + t)
  {
    if s > 0 {
      ShrShr(x / 2, s - 1, t);
    }
  }

  lemma BitShr(x: nat, s: nat, i: nat)
    ensures Bit(Shr(x, s), i) == Bit(x, i + s)
  {
    ShrShr(x, s, i);
  }

  lemma {:induction false} BitDouble(y: nat, i: nat)
    ensures Bit(2 * y, i) == (i >= 1 && Bit(y, i - 1))
  {
    if i > 0 {
      BitSucc(2 * y, i - 1);
    }
  }

  lemma {:induction false} BitShl(x: nat, s: nat, i: nat)
    ensures Bit(Shl(x, s), i) == (i >= s && Bit(x, i - s))
  {
    if s > 0 {
      BitDouble(Shl(x, s - 1), i);
      if i >= 1 {
        BitShl(x, s - 1, i - 1);
      }
    }
  }

  lemma BitOne(i: nat)
    ensures Bit(1, i) == (i == 0)
  {
    if i > 0 {
      BitSucc(1, i - 1);
      BitZero(i - 1);
    }
  }

  /** `1 << s` has exactly bit `s` set. */
  lemma BitPow(s: nat, i: nat)
    ensures Bit(Shl(1, s), i) == (i == s)
  {
    BitShl(1, s, i);
    if i >= s {
      BitOne(i - s);
    }
  }

  lemma {:induction false} BitLowMask(n: nat, i: nat)
    ensures Bit(LowMask(n), i) == (i < n)
  {
    if n == 0 {
      BitZero(i);
    } else {
      assert LowMask(n) == 2 * LowMask(n - 1) + 1;
      if i > 0 {
        BitSucc(LowMask(n), i - 1);
        BitLowMask(n - 1, i - 1);
      }
    }
  }

  lemma {:induction false} BitAnd(x: nat, y: nat, i: nat)
    ensures Bit(And(x, y), i) == (Bit(x, i) && Bit(y, i))
    decreases x
  {
    if x == 0 || y == 0 {
      BitZero(i);
    } else if i > 0 {
      BitSucc(And(x, y), i - 1);
      BitSucc(x, i - 1);
      BitSucc(y, i - 1);
      BitAnd(x / 2, y / 2, i - 1);
    }
  }

  lemma {:induction false} BitOr(x: nat, y: nat, i: nat)
    ensures Bit(Or(x, y), i) == (Bit(x, i) || Bit(y, i))
    decreases x + y
  {
    if x == 0 {
      BitZero(i);
    } else if y == 0 {
      BitZero(i);
    } else if i > 0 {
      BitSucc(Or(x, y), i - 1);
      BitSucc(x, i - 1);
      BitSucc(y, i - 1);
      BitOr(x / 2, y / 2, i - 1);
    }
  }

  lemma {:induction false} BitAndNot(x: nat, y: nat, i: nat)
    ensures Bit(AndNot(x, y), i) == (Bit(x, i) && !Bit(y, i))
    decreases x
  {
    if x == 0 {
      BitZero(i);
    } else if i > 0 {
      BitSucc(AndNot(x, y), i - 1);
      BitSucc(x, i - 1);
      BitSucc(y, i - 1);
      BitAndNot(x / 2, y / 2, i - 1);
    }
  }

  /** Two integers with the same bits are equal. */
  lemma {:induction false} Ext(a: nat, b: nat)
    requires forall i: nat :: Bit(a, i) == Bit(b, i)
    ensures a == b
    decreases a + b
  {
    assert Bit(a, 0) == Bit(b, 0);
    if a != 0 || b != 0 {
      forall i: nat
        ensures Bit(a / 2, i) == Bit(b / 2, i)
      {
        BitSucc(a, i);
        BitSucc(b, i);
      }
      Ext(a / 2, b / 2);
    }
  }

  lemma {:induction false} ShlAdd(x: nat, a: nat, b: nat)
    ensures Shl(Shl(x, a), b) == Shl(x, a + b)
    decreases b
  {
    if b > 0 {
      ShlAdd(x, a, b - 1);
    }
  }

  /** Setting a bit above every bit of `y` adds its power of two. */
  lemma {:induction false} BitAddHigh(a: nat, y: nat, i: nat)
    requires y < Shl(1, a)
    ensures Bit(Shl(1, a) + y, i) == (i == a || Bit(y, i))
  {
    if a == 0 {
      BitOne(i);
      assert y == 0;
      BitZero(i);
    } else if i > 0 {
      assert Shl(1, a) + y == 2 * (Shl(1, a - 1) + y / 2) + y % 2;
      BitSucc(Shl(1, a) + y, i - 1);
      BitSucc(y, i - 1);
      BitAddHigh(a - 1, y / 2, i - 1);
    } else {
      assert Shl(1, a) + y == 2 * Shl(1, a - 1) + y;
    }
  }
}
