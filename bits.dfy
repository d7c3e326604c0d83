/** Python's operators on non-negative integers, bit by bit: `>>`, `<<`,
    `& (2**k - 1)` and `|`. Each is defined by halving and doubling, and
    each has a lemma saying what it does to bit i, so facts about register
    layouts reduce to facts about bit positions. */
module Bits {

  /** Bit i of v: 0 or 1. */
  function Bit(v: nat, i: nat): (b: nat)
    ensures b < 2
  {
    if i == 0 then v % 2 else Bit(v / 2, i - 1)
  }

  /** v >> k. */
  function Shr(v: nat, k: nat): nat
  {
    if k == 0 then v else Shr(v / 2, k - 1)
  }

  /** v << k. */
  function Shl(v: nat, k: nat): nat
  {
    if k == 0 then v else 2 * Shl(v, k - 1)
  }

  /** v & (2**k - 1): the low k bits. */
  function Low(v: nat, k: nat): nat
  {
    if k == 0 then 0 else 2 * Low(v / 2, k - 1) + v % 2
  }

  /** a | b. */
  function Or(a: nat, b: nat): nat
  {
    if a == 0 then b
    else if b == 0 then a
    else 2 * Or(a / 2, b / 2) + (if a % 2 == 1 || b % 2 == 1 then 1 else 0)
  }

  function Pow2(n: nat): (p: nat)
    ensures p >= 1
  {
    if n == 0 then 1 else 2 * Pow2(n - 1)
  }

  lemma {:induction false} BitOfZero(i: nat)
    ensures Bit(0, i) == 0
  {
    if i > 0 {
      BitOfZero(i - 1);
    }
  }

  lemma {:induction false} BitShr(v: nat, k: nat, i: nat)
    ensures Bit(Shr(v, k), i) == Bit(v, k + i)
  {
    if k > 0 {
      BitShr(v / 2, k - 1, i);
    }
  }

  lemma {:induction false} BitShl(v: nat, k: nat, i: nat)
    ensures Bit(Shl(v, k), i) == if i < k then 0 else Bit(v, i - k)
  {
    if k > 0 {
      var s := Shl(v, k - 1);
      assert Shl(v, k) == 2 * s;
      if i > 0 {
        assert Bit(2 * s, i) == Bit(s, i - 1);
        BitShl(v, k - 1, i - 1);
      }
    }
  }

  lemma {:induction false} BitLow(v: nat, k: nat, i: nat)
    ensures Bit(Low(v, k), i) == if i < k then Bit(v, i) else 0
  {
    if k == 0 {
      BitOfZero(i);
    } else if i > 0 {
      var l := Low(v / 2, k - 1);
      assert Bit(2 * l + v % 2, i) == Bit(l, i - 1);
      BitLow(v / 2, k - 1, i - 1);
    }
  }

  lemma {:induction false} BitOr(a: nat, b: nat, i: nat)
    ensures Bit(Or(a, b), i) == if Bit(a, i) == 1 || Bit(b, i) == 1 then 1 else 0
  {
    if a == 0 {
      BitOfZero(i);
    } else if b == 0 {
      BitOfZero(i);
    } else {
      var o := Or(a / 2, b / 2);
      var low := if a % 2 == 1 || b % 2 == 1 then 1 else 0;
      assert Or(a, b) == 2 * o + low;
      Halve(o, low);
      if i > 0 {
        BitOr(a / 2, b / 2, i - 1);
      }
    }
  }

  /** Halving undoes doubling plus a low bit. */
  lemma Halve(o: nat, low: nat)
    requires low < 2
    ensures (2 * o + low) / 2 == o && (2 * o + low) % 2 == low
  {
  }

  /** A number is determined by its bits. */
  lemma {:induction false} BitsDetermine(a: nat, b: nat)
    requires forall i: nat :: Bit(a, i) == Bit(b, i)
    ensures a == b
    decreases a + b
  {
    if a != 0 || b != 0 {
      assert Bit(a, 0) == Bit(b, 0);
      forall i: nat
        ensures Bit(a / 2, i) == Bit(b / 2, i)
      {
        assert Bit(a, i + 1) == Bit(b, i + 1);
      }
      BitsDetermine(a / 2, b / 2);
    }
  }

  /** Bit i of 1 << k is set exactly when i == k. */
  lemma OneHot(k: nat, i: nat)
    ensures Bit(Shl(1, k), i) == if i == k then 1 else 0
  {
    BitShl(1, k, i);
    if i > k {
      BitOfZero(i - k - 1);
    }
  }

  /** Shifting left multiplies by a power of two. */
  lemma {:induction false} ShlMul(v: nat, k: nat)
    ensures Shl(v, k) == v * Pow2(k)
  {
    if k > 0 {
      ShlMul(v, k - 1);
      assert 2 * (v * Pow2(k - 1)) == v * (2 * Pow2(k - 1));
    }
  }

  /** OR-ing 1 into an even number adds 1. */
  lemma OrOneEven(a: nat)
    requires a % 2 == 0
    ensures Or(a, 1) == a + 1
  {
    if a != 0 {
      assert Or(a / 2, 0) == a / 2;
    }
  }

  /** The low k bits are below 2**k. */
  lemma {:induction false} LowBound(v: nat, k: nat)
    ensures Low(v, k) < Pow2(k)
  {
    if k > 0 {
      LowBound(v / 2, k - 1);
    }
  }

  lemma {:induction false} Pow2Add(a: nat, b: nat)
    ensures Pow2(a + b) == Pow2(a) * Pow2(b)
  {
    if a > 0 {
      Pow2Add(a - 1, b);
      assert Pow2(a + b) == 2 * (Pow2(a - 1) * Pow2(b));
    }
  }

  /** The powers of two the register widths use. */
  lemma Pow2Values()
    ensures Pow2(2) == 4 && Pow2(8) == 0x100 && Pow2(16) == 0x10000
  {
    assert Pow2(4) == 16;
    Pow2Add(4, 4);
    Pow2Add(8, 8);
  }
}
