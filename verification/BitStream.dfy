/** The 128-bit stream the block decoders read from, kept in two 64-bit words. */
module BitStream {
  import opened Bits

  // The two-word stream

  const WORD := Pow2(64)

  function ShiftedLow(low: nat, high: nat, n: nat): nat
    requires n <= 64
  {
    Or(ShiftRight(low, n), ShiftLeft(LowBits(high, n), 64 - n))
  }

  lemma ShiftedLowIsSum(low: nat, high: nat, n: nat)
    requires low < Pow2(64) && n <= 64
    ensures ShiftedLow(low, high, n) == ShiftRight(low, n) + ShiftLeft(LowBits(high, n), 64 - n) < Pow2(64)
  {
    ShiftRightBound(low, 64, n);
    OrDisjoint(ShiftRight(low, n), LowBits(high, n), 64 - n);
    LowBitsBound(high, n);
    ShiftLeftBound(LowBits(high, n), n, 64 - n);
    BelowNextMultiple(ShiftRight(low, n), LowBits(high, n), n, 64 - n);
  }

  /** Reading n bits from the two words reads them from the 128-bit number they stand for. */
  lemma {:induction false} ReadRefines(low: nat, high: nat, n: nat)
    requires low < Pow2(64) && n <= 64
    ensures LowBits(low + ShiftLeft(high, 64), n) == LowBits(low, n)
    ensures ShiftRight(low + ShiftLeft(high, 64), n)
            == ShiftedLow(low, high, n) + ShiftLeft(ShiftRight(high, n), 64)
  {
    ShiftedLowIsSum(low, high, n);
    ShiftRightOfSum(low, high, 64, n);
    HighSplit(high, n, 64 - n);
    LowBitsOfSum(low, high, 64, n);
  }

  /** A shifted word is its low bits, shifted, and the rest shifted further. */
  lemma {:induction false} HighSplit(high: nat, n: nat, m: nat)
    ensures ShiftLeft(high, m) == ShiftLeft(LowBits(high, n), m) + ShiftLeft(ShiftRight(high, n), n + m)
  {
    if n > 0 {
      HighSplit(high / 2, n - 1, m + 1);
      assert high == high % 2 + 2 * (high / 2);
      ShiftLeftAdds(high % 2, 2 * (high / 2), m);
      ShiftLeftDouble(high / 2, m);
      ShiftLeftAdds(high % 2, 2 * LowBits(high / 2, n - 1), m);
      ShiftLeftDouble(LowBits(high / 2, n - 1), m);
    } else {
      ShiftLeftIsProduct(0, m);
    }
  }

  // Sequences of reads

  function Sum(ns: seq<nat>): nat {
    if ns == [] then 0 else ns[0] + Sum(ns[1..])
  }

  /** The values reads of the given widths return. */
  function Reads(v: nat, ns: seq<nat>): (bits: seq<nat>)
    ensures |bits| == |ns|
    decreases ns
  {
    if ns == [] then [] else [LowBits(v, ns[0])] + Reads(ShiftRight(v, ns[0]), ns[1..])
  }

  /** What reads of the given widths leave. */
  function Rest(v: nat, ns: seq<nat>): nat
    decreases ns
  {
    if ns == [] then v else Rest(ShiftRight(v, ns[0]), ns[1..])
  }

  /** The values put back one above the other. */
  function Assemble(bits: seq<nat>, ns: seq<nat>): nat
    requires |bits| == |ns|
  {
    if ns == [] then 0 else bits[0] + ShiftLeft(Assemble(bits[1..], ns[1..]), ns[0])
  }

  /** Whatever the widths, the values read are the low bits of the number in pieces, and what is left
      are its high bits. */
  lemma {:induction false} ReadsReassemble(v: nat, ns: seq<nat>)
    ensures Assemble(Reads(v, ns), ns) == LowBits(v, Sum(ns))
    ensures Rest(v, ns) == ShiftRight(v, Sum(ns))
    decreases ns
  {
    if ns != [] {
      var n, ms := ns[0], ns[1..];
      ReadsReassemble(ShiftRight(v, n), ms);
      LowBitsSplit(v, n, Sum(ms));
      assert Reads(v, ns)[1..] == Reads(ShiftRight(v, n), ms);
    }
  }

  class Stream {
    var low: nat
    var high: nat
    /** The number the stream was made from, and how many of its bits have been read. */
    ghost const block: nat
    ghost var taken: nat

    /** The two words hold what is left of the block. */
    ghost predicate Valid()
      reads this
    {
      && low < WORD
      && high < WORD
      && low + ShiftLeft(high, 64) == ShiftRight(block, taken)
    }

    constructor (low: nat, high: nat)
      requires low < WORD && high < WORD
      ensures Valid() && taken == 0 && block == low + ShiftLeft(high, 64)
    {
      this.low, this.high, taken := low, high, 0;
      block := low + ShiftLeft(high, 64);
    }

    /** The next bits of the block. */
    method ReadBits(numBits: nat) returns (bits: nat)
      requires Valid() && 1 <= numBits <= 31
      modifies this
      ensures Valid() && taken == old(taken) + numBits
      ensures bits == Field(block, old(taken), numBits) < Pow2(numBits)
    {
      ReadRefines(low, high, numBits);
      ShiftedLowIsSum(low, high, numBits);
      LowBitsBound(low, numBits);
      LowBitsSplit(block, taken, numBits);
      bits := LowBits(low, numBits);
      low := ShiftRight(low, numBits);
      low := Or(low, ShiftLeft(LowBits(high, numBits), 64 - numBits));
      ShiftRightAtMost(high, numBits);
      high := ShiftRight(high, numBits);
      taken := taken + numBits;
    }

    method ReadBit() returns (bit: nat)
      requires Valid()
      modifies this
      ensures Valid() && taken == old(taken) + 1
      ensures bit == Field(block, old(taken), 1) < 2
    {
      bit := ReadBits(1);
    }

    /** The same bits in opposite order. */
    method ReadBitsReversed(numBits: nat) returns (result: nat)
      requires Valid() && 1 <= numBits <= 31
      modifies this
      ensures Valid() && taken == old(taken) + numBits
      ensures result == Reversed(Field(block, old(taken), numBits), numBits) < Pow2(numBits)
    {
      var bits := ReadBits(numBits);
      result := ReverseBits(bits, numBits);
    }
  }

  /** Move bits off the low end of one number onto the low end of another. */
  method ReverseBits(number: nat, numBits: nat) returns (result: nat)
    ensures result == Reversed(number, numBits) < Pow2(numBits)
  {
    result := 0;
    var bits: nat, left: nat := number, numBits;
    ShiftLeftIsProduct(0, left);
    while left > 0
      invariant left <= numBits
      invariant ShiftLeft(result, left) + Reversed(bits, left) == Reversed(number, numBits)
    {
      left := left - 1;
      ShiftLeftDouble(result, left);
      ShiftLeftAdds(2 * result, bits % 2, left);
      OrDisjoint(bits % 2, result, 1);
      assert LowBits(bits, 1) == bits % 2 && ShiftLeft(result, 1) == 2 * result && ShiftRight(bits, 1) == bits / 2;
      result := ShiftLeft(result, 1);
      result := Or(result, LowBits(bits, 1));
      bits := ShiftRight(bits, 1);
    }
    ReversedBound(number, numBits);
  }
}
