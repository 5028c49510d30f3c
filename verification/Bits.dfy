/** Bit operations on natural numbers. */
module Bits {

  function Pow2(n: nat): (p: nat)
    ensures p > 0
  {
    if n == 0 then 1 else 2 * Pow2(n - 1)
  }

  /** Bitwise or. */
  function Or(x: nat, y: nat): nat {
    if x == 0 then y
    else if y == 0 then x
    else 2 * Or(x / 2, y / 2) + (if x % 2 == 1 || y % 2 == 1 then 1 else 0)
  }

  /** x & ((1 << n) - 1) */
  function LowBits(x: nat, n: nat): nat {
    if n == 0 then 0 else x % 2 + 2 * LowBits(x / 2, n - 1)
  }

  function ShiftRight(x: nat, n: nat): nat {
    if n == 0 then x else ShiftRight(x / 2, n - 1)
  }

  function ShiftLeft(x: nat, n: nat): nat {
    if n == 0 then x else 2 * ShiftLeft(x, n - 1)
  }

  function Bit(x: nat, k: nat): nat {
    ShiftRight(x, k) % 2
  }

  /** The n bits of v that start at bit `start`. */
  function Field(v: nat, start: nat, n: nat): nat {
    LowBits(ShiftRight(v, start), n)
  }

  /** The low n bits of x in opposite order. */
  function Reversed(x: nat, n: nat): nat {
    if n == 0 then 0 else ShiftLeft(x % 2, n - 1) + Reversed(x / 2, n - 1)
  }

  // The operations in terms of arithmetic

  lemma {:induction false} ShiftLeftIsProduct(x: nat, n: nat)
    ensures ShiftLeft(x, n) == x * Pow2(n)
  {
    if n > 0 {
      ShiftLeftIsProduct(x, n - 1);
      assert x * (2 * Pow2(n - 1)) == 2 * (x * Pow2(n - 1));
    }
  }

  /** Shifting right divides, and the low bits are the remainder. */
  lemma {:induction false} ShiftRightIsQuotient(x: nat, n: nat)
    ensures ShiftRight(x, n) == x / Pow2(n)
    ensures LowBits(x, n) == x % Pow2(n)
  {
    if n > 0 {
      ShiftRightIsQuotient(x / 2, n - 1);
      HalveDivision(x, Pow2(n - 1));
    }
  }

  lemma HalveDivision(v: nat, b: nat)
    requires b > 0
    ensures v / (2 * b) == v / 2 / b
    ensures v % (2 * b) == v % 2 + 2 * (v / 2 % b)
  {
    var q, r := v / 2 / b, v / 2 % b;
    assert v == (2 * b) * q + (2 * r + v % 2) by {
      assert v / 2 == b * q + r;
      assert 2 * (b * q) == (2 * b) * q;
    }
    DivisionUnique(v, 2 * b, q, 2 * r + v % 2);
  }

  /** Quotient and remainder are the only ones. */
  lemma DivisionUnique(v: int, p: nat, q: int, r: nat)
    requires v == p * q + r && r < p
    ensures v / p == q && v % p == r
  {
    var d := v / p - q;
    assert p * (v / p) + v % p == p * q + r;
    assert p * d == r - v % p by {
      assert p * (v / p - q) == p * (v / p) - p * q;
    }
    MultipleApart(p, d);
  }

  lemma MultipleApart(p: nat, d: int)
    ensures d >= 1 ==> p * d >= p
    ensures d <= -1 ==> p * d <= 0 - p
  {
  }

  // Laws

  lemma {:induction false} LowBitsBound(x: nat, n: nat)
    ensures LowBits(x, n) < Pow2(n)
  {
    if n > 0 {
      LowBitsBound(x / 2, n - 1);
    }
  }

  lemma {:induction false} ShiftRightBound(x: nat, k: nat, n: nat)
    requires x < Pow2(k) && n <= k
    ensures ShiftRight(x, n) < Pow2(k - n)
  {
    if n > 0 {
      ShiftRightBound(x / 2, k - 1, n - 1);
    }
  }

  lemma {:induction false} ShiftLeftBound(x: nat, k: nat, n: nat)
    requires x < Pow2(k)
    ensures ShiftLeft(x, n) < Pow2(k + n)
  {
    if n > 0 {
      ShiftLeftBound(x, k, n - 1);
    }
  }

  lemma {:induction false} ShiftLeftAdds(x: nat, y: nat, n: nat)
    ensures ShiftLeft(x + y, n) == ShiftLeft(x, n) + ShiftLeft(y, n)
  {
    if n > 0 {
      ShiftLeftAdds(x, y, n - 1);
    }
  }

  lemma {:induction false} ShiftLeftDouble(x: nat, n: nat)
    ensures ShiftLeft(2 * x, n) == ShiftLeft(x, n + 1)
  {
    if n > 0 {
      ShiftLeftDouble(x, n - 1);
    }
  }

  /** Values without a common bit are joined by addition. */
  lemma {:induction false} OrDisjoint(x: nat, y: nat, k: nat)
    requires x < Pow2(k)
    ensures Or(x, ShiftLeft(y, k)) == x + ShiftLeft(y, k)
    ensures Or(ShiftLeft(y, k), x) == x + ShiftLeft(y, k)
  {
    if k > 0 && x != 0 {
      OrDisjoint(x / 2, y, k - 1);
    }
  }

  lemma {:induction false} ShiftRightOfSum(x: nat, y: nat, m: nat, n: nat)
    requires n <= m
    ensures ShiftRight(x + ShiftLeft(y, m), n) == ShiftRight(x, n) + ShiftLeft(y, m - n)
  {
    if n > 0 {
      ShiftRightOfSum(x / 2, y, m - 1, n - 1);
      assert (x + ShiftLeft(y, m)) / 2 == x / 2 + ShiftLeft(y, m - 1);
    }
  }

  /** The low bits of a number in two parts. */
  lemma {:induction false} LowBitsSplit(v: nat, n: nat, m: nat)
    ensures LowBits(v, n + m) == LowBits(v, n) + ShiftLeft(LowBits(ShiftRight(v, n), m), n)
    ensures ShiftRight(v, n + m) == ShiftRight(ShiftRight(v, n), m)
  {
    if n > 0 {
      LowBitsSplit(v / 2, n - 1, m);
    }
  }

  lemma {:induction false} LowBitsOfSum(x: nat, y: nat, m: nat, n: nat)
    requires n <= m
    ensures LowBits(x + ShiftLeft(y, m), n) == LowBits(x, n)
  {
    if n > 0 {
      LowBitsOfSum(x / 2, y, m - 1, n - 1);
      assert (x + ShiftLeft(y, m)) / 2 == x / 2 + ShiftLeft(y, m - 1);
    }
  }

  lemma {:induction false} BelowNextMultiple(x: nat, y: nat, n: nat, m: nat)
    requires x < Pow2(m) && y < Pow2(n)
    ensures x + ShiftLeft(y, m) < Pow2(n + m)
  {
    if m > 0 {
      BelowNextMultiple(x / 2, y, n, m - 1);
    }
  }

  lemma {:induction false} ShiftRightAtMost(x: nat, n: nat)
    ensures ShiftRight(x, n) <= x
  {
    if n > 0 {
      ShiftRightAtMost(x / 2, n - 1);
    }
  }

  // Reversal

  lemma {:induction false} ReversedBound(x: nat, n: nat)
    ensures Reversed(x, n) < Pow2(n)
  {
    if n > 0 {
      ReversedBound(x / 2, n - 1);
      BelowNextMultiple(Reversed(x / 2, n - 1), x % 2, 1, n - 1);
    }
  }

  lemma {:induction false} BitOfSum(h: nat, y: nat, m: nat, k: nat)
    requires k < m
    ensures Bit(y + ShiftLeft(h, m), k) == Bit(y, k)
  {
    ShiftRightOfSum(y, h, m, k);
  }

  lemma {:induction false} TopOfSum(h: nat, y: nat, m: nat)
    requires y < Pow2(m)
    ensures ShiftRight(y + ShiftLeft(h, m), m) == h
  {
    ShiftRightOfSum(y, h, m, m);
    ShiftRightBound(y, m, m);
  }

  /** Reversal puts bit k where bit n - 1 - k was. */
  lemma {:induction false} ReversedBits(x: nat, n: nat, k: nat)
    requires k < n
    ensures Bit(Reversed(x, n), k) == Bit(x, n - 1 - k)
  {
    ReversedBound(x / 2, n - 1);
    if k == n - 1 {
      TopOfSum(x % 2, Reversed(x / 2, n - 1), n - 1);
    } else {
      ReversedBits(x / 2, n - 1, k);
      BitOfSum(x % 2, Reversed(x / 2, n - 1), n - 1, k);
    }
  }

  // Bit by bit

  lemma {:induction false} OrBit(x: nat, y: nat, k: nat)
    ensures Bit(Or(x, y), k) == if Bit(x, k) == 1 || Bit(y, k) == 1 then 1 else 0
  {
    if x == 0 || y == 0 {
      ZeroBit(k);
    } else if k > 0 {
      OrBit(x / 2, y / 2, k - 1);
    }
  }

  lemma {:induction false} ZeroBit(k: nat)
    ensures Bit(0, k) == 0
  {
    if k > 0 {
      ZeroBit(k - 1);
    }
  }

  lemma {:induction false} ShiftLeftBit(x: nat, s: nat, k: nat)
    ensures Bit(ShiftLeft(x, s), k) == if k < s then 0 else Bit(x, k - s)
  {
    if s > 0 && k > 0 {
      ShiftLeftBit(x, s - 1, k - 1);
    }
  }

  lemma {:induction false} LowBitsBit(x: nat, n: nat, k: nat)
    ensures Bit(LowBits(x, n), k) == if k < n then Bit(x, k) else 0
  {
    if n == 0 {
      ZeroBit(k);
    } else if k > 0 {
      LowBitsBit(x / 2, n - 1, k - 1);
    }
  }

  lemma FieldBit(v: nat, start: nat, n: nat, k: nat)
    ensures Bit(Field(v, start, n), k) == if k < n then Bit(v, start + k) else 0
  {
    LowBitsBit(ShiftRight(v, start), n, k);
    LowBitsSplit(v, start, k);
  }

  /** Above its bound a number has no bits. */
  lemma BitsEnd(x: nat, n: nat, k: nat)
    requires x < Pow2(n) && n <= k
    ensures Bit(x, k) == 0
  {
    ShiftRightBound(x, n, n);
    LowBitsSplit(x, n, k - n);
    ZeroBit(k - n);
  }

  /** Numbers with the same bits are equal. */
  lemma {:induction false} SameBits(x: nat, y: nat)
    requires forall k: nat :: Bit(x, k) == Bit(y, k)
    ensures x == y
    decreases x + y
  {
    if x > 0 || y > 0 {
      assert Bit(x, 0) == Bit(y, 0);
      forall k: nat
        ensures Bit(x / 2, k) == Bit(y / 2, k)
      {
        assert Bit(x, k + 1) == Bit(y, k + 1);
      }
      SameBits(x / 2, y / 2);
    }
  }

  /** The bits of two parts put together. */
  lemma SumBit(x: nat, y: nat, m: nat, k: nat)
    requires x < Pow2(m)
    ensures Bit(x + ShiftLeft(y, m), k) == if k < m then Bit(x, k) else Bit(y, k - m)
  {
    if k < m {
      BitOfSum(y, x, m, k);
    } else {
      TopOfSum(y, x, m);
      LowBitsSplit(x + ShiftLeft(y, m), m, k - m);
    }
  }

  /** A number without bits from n on is below the bound. */
  lemma {:induction false} NoHighBits(x: nat, n: nat)
    requires forall k: nat | k >= n :: Bit(x, k) == 0
    ensures x < Pow2(n)
    decreases x
  {
    if x > 0 {
      var m := if n == 0 then 0 else n - 1;
      forall k: nat | k >= m
        ensures Bit(x / 2, k) == 0
      {
        assert Bit(x, k + 1) == 0;
      }
      NoHighBits(x / 2, m);
      assert n == 0 ==> Bit(x, 0) == 0;
    }
  }

  lemma LowBitsAll(x: nat, n: nat)
    requires x < Pow2(n)
    ensures LowBits(x, n) == x
  {
  }
}
