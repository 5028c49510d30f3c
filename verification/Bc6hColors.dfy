/** The arithmetic of the BC6H decoder, from the stored endpoints of a block to half-precision colors. */
module Bc6hColors {
  import opened Bits
  import opened BlockIndices

  // Two's complement

  /** A number kept in a signed 32-bit word. */
  function Wrap32(x: int): int {
    (x + 0x8000_0000) % 0x1_0000_0000 - 0x8000_0000
  }

  /** Shift left until the sign bit is on top, and back with copies of it. */
  function ExtendSign(val: int, bits: nat): int
    requires 1 <= bits <= 32
  {
    Wrap32(val * Pow2(32 - bits)) / Pow2(32 - bits)
  }

  predicate InSignedRange(x: int, bits: nat)
    requires bits >= 1
  {
    0 - Pow2(bits - 1) <= x < Pow2(bits - 1)
  }

  /** x and y have the same low bits. */
  predicate SameLowBits(x: int, y: int, bits: nat) {
    (x - y) % Pow2(bits) == 0
  }

  lemma {:induction false} PowersMultiply(m: nat, n: nat)
    ensures Pow2(m) * Pow2(n) == Pow2(m + n)
  {
    if m > 0 {
      PowersMultiply(m - 1, n);
      assert Pow2(m) * Pow2(n) == 2 * (Pow2(m - 1) * Pow2(n));
    }
  }

  lemma Power31()
    ensures Pow2(31) == 0x8000_0000
  {
    assert Pow2(8) == 256;
    PowersMultiply(8, 8);
    PowersMultiply(16, 15);
    assert Pow2(15) == 32768;
  }

  lemma PowersUpTo32(bits: nat)
    requires 1 <= bits <= 32
    ensures Pow2(32 - bits) * Pow2(bits) == 0x1_0000_0000
    ensures Pow2(32 - bits) * Pow2(bits - 1) == 0x8000_0000
  {
    PowersMultiply(32 - bits, bits);
    PowersMultiply(32 - bits, bits - 1);
    Power31();
  }

  /** Sign extension keeps the low bits, and yields the one number with them in the signed range. */
  lemma ExtendSignMeans(val: int, bits: nat)
    requires 1 <= bits <= 32
    ensures InSignedRange(ExtendSign(val, bits), bits)
    ensures SameLowBits(ExtendSign(val, bits), val, bits)
  {
    var s, p := Pow2(32 - bits), Pow2(bits);
    PowersUpTo32(bits);
    hide Pow2, Wrap32;
    var q := (val * s + 0x8000_0000) / 0x1_0000_0000;
    WrapScaled(val, s, p, q);
    ProductQuotient(s, val - q * p);
    ScaledBounds(s, val - q * p, Pow2(bits - 1));
    MultipleRemainder(-q, p);
    assert -q * p == -(q * p);
  }

  lemma WrapScaled(val: int, s: nat, p: nat, q: int)
    requires s * p == 0x1_0000_0000 && q == (val * s + 0x8000_0000) / 0x1_0000_0000
    ensures Wrap32(val * s) == s * (val - q * p)
  {
  }

  lemma ProductQuotient(s: nat, r: int)
    requires s > 0
    ensures s * r / s == r
  {
    DivisionUnique(s * r, s, r, 0);
  }

  lemma ScaledBounds(s: nat, r: int, b: nat)
    requires s > 0 && 0 - s * b <= s * r < s * b
    ensures 0 - b <= r < b
  {
  }

  lemma MultipleRemainder(q: int, p: nat)
    requires p > 0
    ensures q * p % p == 0
  {
    DivisionUnique(q * p, p, q, 0);
  }

  // Deltas

  /** Add the first endpoint and keep the low bits. */
  function TransformInverse(val: int, a0: int, bits: nat, isSigned: bool): int
    requires 1 <= bits <= 32
  {
    var sum := (val + a0) % Pow2(bits);
    if isSigned then ExtendSign(sum, bits) else sum
  }

  /** The numbers an endpoint of so many bits can be. */
  predicate InRange(x: int, bits: nat, isSigned: bool)
    requires bits >= 1
  {
    if isSigned then InSignedRange(x, bits) else 0 <= x < Pow2(bits)
  }

  /** The result is in range and has the low bits of the sum. */
  lemma TransformInverseMeans(val: int, a0: int, bits: nat, isSigned: bool)
    requires 1 <= bits <= 32
    ensures InRange(TransformInverse(val, a0, bits, isSigned), bits, isSigned)
    ensures SameLowBits(TransformInverse(val, a0, bits, isSigned), val + a0, bits)
  {
    hide Pow2, ExtendSign;
    var sum := (val + a0) % Pow2(bits);
    RemainderApart(val + a0, Pow2(bits));
    if isSigned {
      ExtendSignMeans(sum, bits);
      RemaindersAdd(ExtendSign(sum, bits) - sum, sum - (val + a0), Pow2(bits));
    }
  }

  lemma RemainderApart(x: int, p: nat)
    requires p > 0
    ensures (x % p - x) % p == 0
  {
    MultipleRemainder(-(x / p), p);
    assert x % p - x == -(x / p) * p;
  }

  lemma RemaindersAdd(x: int, y: int, p: nat)
    requires p > 0 && x % p == 0 && y % p == 0
    ensures (x + y) % p == 0 && (x - y) % p == 0
  {
    MultipleRemainder(x / p + y / p, p);
    MultipleRemainder(x / p - y / p, p);
    assert x + y == (x / p + y / p) * p;
    assert x - y == (x / p - y / p) * p;
  }

  /** An endpoint comes back from a delta if and only if the delta has the low bits of its distance from the
      first one. */
  lemma DeltaRestores(a0: int, e: int, delta: int, bits: nat, isSigned: bool)
    requires 1 <= bits <= 32 && InRange(e, bits, isSigned)
    ensures TransformInverse(delta, a0, bits, isSigned) == e <==> SameLowBits(delta, e - a0, bits)
  {
    var p := Pow2(bits);
    var r := TransformInverse(delta, a0, bits, isSigned);
    TransformInverseMeans(delta, a0, bits, isSigned);
    if SameLowBits(delta, e - a0, bits) {
      RemaindersAdd(r - (delta + a0), delta - (e - a0), p);
      assert (r - e) % p == 0;
      assert Pow2(bits) == 2 * Pow2(bits - 1);
      SameInRange(r - e, p);
    } else if r == e {
      assert r - (delta + a0) == -(delta - (e - a0));
      RemaindersAdd(0, r - (delta + a0), p);
    }
  }

  lemma SameInRange(d: int, p: nat)
    requires p > 0 && d % p == 0 && 0 - p < d < p
    ensures d == 0
  {
  }

  lemma SameLowBitsFollow(x: int, y: int, z: int, bits: nat)
    requires SameLowBits(x, y, bits) && SameLowBits(y, z, bits)
    ensures SameLowBits(x, z, bits)
  {
    hide Pow2;
    RemaindersAdd(x - y, y - z, Pow2(bits));
  }

  lemma RemainderKeepsLowBits(x: int, bits: nat)
    ensures SameLowBits(x % Pow2(bits), x, bits) && SameLowBits(x, x, bits)
  {
    hide Pow2;
    RemainderApart(x, Pow2(bits));
    NothingDivided(Pow2(bits));
  }

  /** Only one number in the signed range has given low bits. */
  lemma OneInSignedRange(x: int, y: int, bits: nat)
    requires bits >= 1 && InSignedRange(x, bits) && InSignedRange(y, bits) && SameLowBits(x, y, bits)
    ensures x == y
  {
    assert Pow2(bits) == 2 * Pow2(bits - 1);
    hide Pow2;
    SameInRange(x - y, Pow2(bits));
  }

  /** Every endpoint within reach of the first one can be stored as a delta of fewer bits. */
  lemma DeltaRoundTrip(a0: int, e: int, deltaBits: nat, bits: nat, isSigned: bool)
    requires 1 <= deltaBits <= bits <= 32 && InRange(e, bits, isSigned)
    requires InSignedRange(e - a0, deltaBits)
    ensures TransformInverse(ExtendSign((e - a0) % Pow2(deltaBits), deltaBits), a0, bits, isSigned) == e
  {
    hide TransformInverse, ExtendSign, Pow2, SameLowBits, InSignedRange, InRange;
    var stored := (e - a0) % Pow2(deltaBits);
    RemainderKeepsLowBits(e - a0, deltaBits);
    RemainderKeepsLowBits(e - a0, bits);
    ExtendSignMeans(stored, deltaBits);
    SameLowBitsFollow(ExtendSign(stored, deltaBits), stored, e - a0, deltaBits);
    OneInSignedRange(ExtendSign(stored, deltaBits), e - a0, deltaBits);
    DeltaRestores(a0, e, e - a0, bits, isSigned);
  }

  // Unquantization

  function Unquantize(val: int, bits: nat, isSigned: bool): int
    requires 1 <= bits
  {
    if !isSigned then
      if bits >= 15 then val
      else if val == 0 then 0
      else if val == Pow2(bits) - 1 then 0xFFFF
      else (val * 0x1_0000 + 0x8000) / Pow2(bits)
    else if bits >= 16 then val
    else if val < 0 then -UnquantizeMagnitude(-val, bits)
    else UnquantizeMagnitude(val, bits)
  }

  function UnquantizeMagnitude(val: int, bits: nat): int
    requires 1 <= bits
  {
    if val == 0 then 0
    else if val >= Pow2(bits - 1) - 1 then 0x7FFF
    else (val * 0x8000 + 0x4000) / Pow2(bits - 1)
  }

  lemma QuotientBelow(x: int, p: nat, b: int)
    requires p > 0
    ensures x < b * p ==> x / p < b
    ensures x >= b * p ==> x / p >= b
  {
    var q := x / p;
    if q >= b {
      assert q * p >= b * p by {
        assert (q - b) * p >= 0;
      }
    } else {
      assert (b - 1 - q) * p >= 0;
      assert b * p == (b - 1 - q) * p + q * p + p;
    }
  }

  lemma QuotientMonotone(x: int, y: int, p: nat)
    requires p > 0 && x <= y
    ensures x / p <= y / p
  {
    QuotientBelow(y, p, x / p);
    assert x / p * p <= x;
  }

  /** The numbers unquantization yields. */
  predicate InWideRange(x: int, isSigned: bool) {
    if isSigned then -0x8000 <= x <= 0x7FFF else 0 <= x <= 0xFFFF
  }

  lemma MagnitudeFits(val: nat, bits: nat)
    requires 2 <= bits
    ensures 0 <= UnquantizeMagnitude(val, bits) <= 0x7FFF
  {
    var p := Pow2(bits - 1);
    QuotientBelow(val * 0x8000 + 0x4000, p, 0x8000);
    QuotientBelow(val * 0x8000 + 0x4000, p, 0);
  }

  lemma Powers()
    ensures Pow2(15) == 0x8000 && Pow2(16) == 0x1_0000
  {
    assert Pow2(15) == 0x8000;
  }

  /** Unquantization stays in range; only sixteen signed bits reach the lowest number. */
  lemma UnquantizeFits(val: int, bits: nat, isSigned: bool)
    requires 2 <= bits <= 16 && InRange(val, bits, isSigned)
    ensures InWideRange(Unquantize(val, bits, isSigned), isSigned)
    ensures isSigned ==> (Unquantize(val, bits, isSigned) == -0x8000 <==> bits == 16 && val == -0x8000)
  {
    Powers();
    if isSigned {
      if bits < 16 {
        MagnitudeFits(if val < 0 then -val else val, bits);
      }
    } else if bits == 15 {
      assert Pow2(16) == 2 * Pow2(15);
    } else if bits < 15 {
      QuotientBelow(val * 0x1_0000 + 0x8000, Pow2(bits), 0x1_0000);
      QuotientBelow(val * 0x1_0000 + 0x8000, Pow2(bits), 0);
    }
  }

  /** Numbers apart by q begin with the same bits from val * q on; this is the middle of them. */
  function Middle(val: nat, q: nat): nat {
    val * q + q / 2
  }

  /** The least and the largest stored numbers become the ends of the range, but for the lowest signed ones,
      which all become the largest magnitude; numbers stored in full are kept. */
  lemma UnquantizeEnds(bits: nat)
    requires 2 <= bits <= 16
    ensures bits < 15 ==> Unquantize(0, bits, false) == 0 && Unquantize(Pow2(bits) - 1, bits, false) == 0xFFFF
    ensures bits < 16 ==> Unquantize(0, bits, true) == 0 && Unquantize(Pow2(bits - 1) - 1, bits, true) == 0x7FFF
    ensures bits < 16 ==> Unquantize(1 - Pow2(bits - 1), bits, true) == -0x7FFF
    ensures bits < 16 ==> Unquantize(0 - Pow2(bits - 1), bits, true) == -0x7FFF
    ensures forall val: int :: Unquantize(val, 16, false) == val && Unquantize(val, 16, true) == val
  {
    assert Pow2(bits - 1) == 2 * Pow2(bits - 2);
    assert Pow2(bits) == 2 * Pow2(bits - 1);
  }

  /** Between its ends, unquantization yields the middle of the numbers whose highest bits are the ones stored. */
  lemma UnquantizeIsMiddle(val: nat, bits: nat)
    requires 2 <= bits < 15
    ensures 0 < val < Pow2(bits) - 1 ==> Unquantize(val, bits, false) == Middle(val, Pow2(16 - bits))
    ensures 0 < val < Pow2(bits - 1) - 1 ==> UnquantizeMagnitude(val, bits) == Middle(val, Pow2(16 - bits))
  {
    ShiftToMiddle(val, bits);
    hide Pow2, Middle;
  }

  lemma ShiftToMiddle(val: nat, bits: nat)
    requires 2 <= bits < 15
    ensures (val * 0x1_0000 + 0x8000) / Pow2(bits) == Middle(val, Pow2(16 - bits))
    ensures (val * 0x8000 + 0x4000) / Pow2(bits - 1) == Middle(val, Pow2(16 - bits))
  {
    PowersUpTo16(bits);
    hide Pow2, Middle, Halves;
    MiddleQuotient(val, Pow2(bits), Pow2(16 - bits), 0x1_0000, 0x8000);
    MiddleQuotient(val, Pow2(bits - 1), Pow2(16 - bits), 0x8000, 0x4000);
  }

  /** p and q multiply to twice the half. */
  predicate Halves(p: nat, q: nat, half: nat) {
    q % 2 == 0 && p * q == 2 * half
  }

  lemma PowersUpTo16(bits: nat)
    requires 2 <= bits < 15
    ensures Halves(Pow2(bits), Pow2(16 - bits), 0x8000) && Halves(Pow2(bits - 1), Pow2(16 - bits), 0x4000)
  {
    PowersMultiply(bits, 16 - bits);
    PowersMultiply(bits - 1, 16 - bits);
    Powers();
  }

  lemma MiddleQuotient(val: nat, p: nat, q: nat, whole: nat, half: nat)
    requires p > 0 && Halves(p, q, half) && whole == 2 * half
    ensures (val * whole + half) / p == Middle(val, q)
  {
    var k := q / 2;
    assert half == p * k by {
      assert p * q == 2 * (p * k);
    }
    assert val * whole + half == p * (val * q + k) by {
      assert p * (val * q + k) == val * (p * q) + p * k;
    }
    DivisionUnique(val * whole + half, p, val * q + k, 0);
  }

  lemma TopQuotient(p: nat, q: nat)
    requires p > 0 && q > 0
    ensures (p * q - 1) / q == p - 1
  {
    assert p * q - 1 == q * (p - 1) + (q - 1);
    DivisionUnique(p * q - 1, q, p - 1, q - 1);
  }

  lemma ValueBack(val: nat, bits: nat)
    requires 2 <= bits < 15 && val < Pow2(bits)
    ensures Unquantize(val, bits, false) / Pow2(16 - bits) == val
  {
    UnquantizeIsMiddle(val, bits);
    PowersUpTo16(bits);
    hide Pow2, UnquantizeMagnitude;
    var q := Pow2(16 - bits);
    TopQuotient(Pow2(bits), q);
    DivisionUnique(0, q, 0, 0);
    DivisionUnique(q * val + q / 2, q, val, q / 2);
    assert Pow2(bits) * q == 0x1_0000;
  }

  lemma MagnitudeBack(val: nat, bits: nat)
    requires 2 <= bits < 15 && val <= Pow2(bits - 1)
    ensures UnquantizeMagnitude(val, bits) / Pow2(16 - bits) == if val == Pow2(bits - 1) then val - 1 else val
  {
    UnquantizeIsMiddle(val, bits);
    PowersUpTo16(bits);
    assert Pow2(bits) == 2 * Pow2(bits - 1);
    hide Pow2;
    var q := Pow2(16 - bits);
    TopQuotient(Pow2(bits - 1), q);
    DivisionUnique(0, q, 0, 0);
    DivisionUnique(q * val + q / 2, q, val, q / 2);
    assert Pow2(bits - 1) * q == 0x8000;
  }

  /** The highest bits of what unquantization yields are the ones stored: always for an unsigned color, and
      for a signed one, but for its sign, unless it is the lowest of fewer than sixteen bits. */
  lemma QuantizeBack(val: int, bits: nat, isSigned: bool)
    requires 2 <= bits <= 16 && bits != 15 && InRange(val, bits, isSigned)
    ensures var wide := Unquantize(val, bits, isSigned);
            var back := if wide < 0 then -(-wide / Pow2(16 - bits)) else wide / Pow2(16 - bits);
            back == val <==> !(isSigned && bits < 16 && val == 0 - Pow2(bits - 1))
  {
    if bits == 16 {
      assert Pow2(0) == 1;
      Powers();
    } else if isSigned {
      hide Pow2, UnquantizeMagnitude;
      MagnitudeBack(if val < 0 then -val else val, bits);
      NothingDivided(Pow2(16 - bits));
    } else {
      hide Pow2, Unquantize;
      UnquantizeFits(val, bits, false);
      ValueBack(val, bits);
    }
  }

  lemma NothingDivided(p: nat)
    requires p > 0
    ensures 0 / p == 0 && 0 % p == 0
  {
  }

  lemma MagnitudeMonotone(x: nat, y: nat, bits: nat)
    requires 2 <= bits && x <= y
    ensures UnquantizeMagnitude(x, bits) <= UnquantizeMagnitude(y, bits)
  {
    MagnitudeFits(x, bits);
    MagnitudeFits(y, bits);
    QuotientMonotone(x * 0x8000 + 0x4000, y * 0x8000 + 0x4000, Pow2(bits - 1));
  }

  /** Unquantization keeps the order of colors. */
  lemma UnquantizeMonotone(x: int, y: int, bits: nat, isSigned: bool)
    requires 2 <= bits <= 16 && InRange(x, bits, isSigned) && InRange(y, bits, isSigned) && x <= y
    ensures Unquantize(x, bits, isSigned) <= Unquantize(y, bits, isSigned)
  {
    UnquantizeFits(x, bits, isSigned);
    UnquantizeFits(y, bits, isSigned);
    if isSigned && bits < 16 {
      if y < 0 {
        MagnitudeMonotone(-y, -x, bits);
      } else if x >= 0 {
        MagnitudeMonotone(x, y, bits);
      } else {
        MagnitudeFits(-x, bits);
        MagnitudeFits(y, bits);
      }
    } else if !isSigned {
      QuotientMonotone(x * 0x1_0000 + 0x8000, y * 0x1_0000 + 0x8000, Pow2(bits));
    }
  }

  // Half-precision numbers

  /** Scale by 31/64, or for signed colors by 31/32 with the sign in the top bit. */
  function FinishUnquantize(val: int, isSigned: bool): int {
    if !isSigned then val * 31 / 64
    else
      var scaled := if val < 0 then -(-val * 31 / 32) else val * 31 / 32;
      if scaled < 0 then 0x8000 + -scaled else scaled
  }

  /** Neither infinity nor NaN: the five exponent bits are not all ones. */
  predicate IsFinite(half: int) {
    half / 0x400 % 0x20 != 0x1F
  }

  /** The order of half-precision numbers: their low fifteen bits, negated by the top one. */
  function Rank(half: int): int {
    if half >= 0x8000 then 0x8000 - half else half
  }

  /** An unsigned color is never negative, infinite or NaN; a signed one is finite unless it is the
      lowest number, which becomes negative infinity. */
  lemma FinishFits(val: int, isSigned: bool)
    requires InWideRange(val, isSigned)
    ensures 0 <= FinishUnquantize(val, isSigned) < 0x1_0000
    ensures !isSigned ==> FinishUnquantize(val, isSigned) <= 0x7BFF
    ensures -0x7C00 <= Rank(FinishUnquantize(val, isSigned)) <= 0x7BFF
    ensures IsFinite(FinishUnquantize(val, isSigned)) <==> !(isSigned && val == -0x8000)
  {
  }

  /** The largest colors become the largest finite numbers, and changing the sign of a color changes that of
      the number. */
  lemma FinishEnds(val: int)
    ensures FinishUnquantize(0xFFFF, false) == 0x7BFF && FinishUnquantize(0x7FFF, true) == 0x7BFF
    ensures FinishUnquantize(0, false) == 0 && FinishUnquantize(0, true) == 0
    ensures InWideRange(val, true) ==> Rank(FinishUnquantize(-val, true)) == -Rank(FinishUnquantize(val, true))
  {
  }

  /** The result is the largest number not above the scaled color: 31/64 of an unsigned one, and 31/32 of
      the magnitude of a signed one, whose sign it keeps unless it is zero. */
  lemma FinishIsLargest(val: int, isSigned: bool)
    requires InWideRange(val, isSigned)
    ensures
      var half := FinishUnquantize(val, isSigned);
      var magnitude, rank := if val < 0 then -val else val, Rank(half);
      && (if val < 0 then rank <= 0 else rank >= 0)
      && (half >= 0x8000 <==> rank < 0)
      && var size, scale := if rank < 0 then -rank else rank, if isSigned then 32 else 64;
         scale * size <= 31 * magnitude < scale * (size + 1)
  {
    var magnitude := if val < 0 then -val else val;
    var scale := if isSigned then 32 else 64;
    var size := magnitude * 31 / scale;
    assert scale * size <= 31 * magnitude < scale * (size + 1);
  }

  /** Scaling keeps the order of colors. */
  lemma FinishMonotone(x: int, y: int, isSigned: bool)
    requires InWideRange(x, isSigned) && InWideRange(y, isSigned) && x <= y
    ensures Rank(FinishUnquantize(x, isSigned)) <= Rank(FinishUnquantize(y, isSigned))
  {
  }

  /** Counted from the lowest number, the weighted sum of two endpoints is less than half a step. */
  predicate NearLowest(a: int, b: int, w: int) {
    (a + 0x8000) * (64 - w) + (b + 0x8000) * w < 32
  }

  /** A blended color is the lowest number if and only if its endpoints are near it. */
  lemma BlendIsLowest(a: int, b: int, w: nat)
    requires w <= 64 && InWideRange(a, true) && InWideRange(b, true)
    ensures InWideRange(Interpolate(a, b, w), true)
    ensures Interpolate(a, b, w) == -0x8000 <==> NearLowest(a, b, w)
  {
    InterpolateBetween(a, b, w);
    assert (a + 0x8000) * (64 - w) + (b + 0x8000) * w == a * (64 - w) + b * w + 0x8000 * 64 by {
      assert (a + 0x8000) * (64 - w) == a * (64 - w) + 0x8000 * (64 - w);
      assert (b + 0x8000) * w == b * w + 0x8000 * w;
    }
  }
}
