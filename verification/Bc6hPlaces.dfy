/** Where a BC6H block has the bits of its endpoints, by their numbers in the block and apart from the order
    in which the decoder reads them; and what the block stores, put together bit by bit from those places. */
module Bc6hPlaces {
  import opened Bits
  import opened Bc6hLayout
  import opened Bc6hFields

  // The places

  /** The bits that are in one run in every mode: where the run begins, and how long it is at most. */
  datatype Run = Run(start: nat, width: nat)

  function RunOf(slot: nat): Run
    requires slot < 12
  {
    if slot == RW then Run(5, 10)
    else if slot == GW then Run(15, 10)
    else if slot == BW then Run(25, 10)
    else if slot == RX then Run(35, 10)
    else if slot == GX then Run(45, 10)
    else if slot == BX then Run(55, 10)
    else if slot == GY then Run(41, 4)
    else if slot == GZ then Run(51, 4)
    else if slot == BY then Run(61, 4)
    else if slot == RY then Run(65, 6)
    else if slot == RZ then Run(71, 6)
    else Run(0, 0)
  }

  /** The places of the bits above those runs, lowest bit first: those of rw, gw, bw, gy, gz,
      by and bz, as no other endpoint has any. */
  datatype Above =
    Above(wr: seq<nat>, wg: seq<nat>, wb: seq<nat>, yg: seq<nat>, zg: seq<nat>, yb: seq<nat>, zb: seq<nat>)

  const ABOVE0 := Above([], [], [], [2], [40], [3], [50, 60, 70, 76, 4])
  const ABOVE1 := Above([], [], [], [24, 2], [3, 4], [14, 22], [12, 13, 23, 32, 34, 33])
  const ABOVE2 := Above([40], [49], [59], [], [], [], [50, 60, 70, 76])
  const ABOVE3 := Above([39], [50], [59], [75], [40], [], [69, 60, 70, 76])
  const ABOVE4 := Above([39], [49], [60], [], [], [40], [50, 69, 70, 76, 75])
  const ABOVE5 := Above([], [], [], [24], [40], [14], [50, 60, 70, 76, 34])
  const ABOVE6 := Above([], [], [], [24], [13], [14], [50, 60, 23, 33, 34])
  const ABOVE7 := Above([], [], [], [24, 23], [40, 33], [14], [13, 60, 70, 76, 34])
  const ABOVE8 := Above([], [], [], [24], [40], [14, 23], [50, 13, 70, 76, 34, 33])
  const ABOVE9 := Above([], [], [], [24, 21], [11, 31], [14, 22], [12, 13, 23, 32, 34, 33])
  const ABOVE10 := Above([], [], [], [], [], [], [])
  const ABOVE11 := Above([44], [54], [64], [], [], [], [])
  const ABOVE12 := Above([44, 43], [54, 53], [64, 63], [], [], [], [])
  const ABOVE13 := Above([44, 43, 42, 41, 40, 39], [54, 53, 52, 51, 50, 49], [64, 63, 62, 61, 60, 59], [], [], [], [])

  function AboveOf(mode: nat): Above
    requires mode < 14
  {
    match mode
    case 0 => ABOVE0
    case 1 => ABOVE1
    case 2 => ABOVE2
    case 3 => ABOVE3
    case 4 => ABOVE4
    case 5 => ABOVE5
    case 6 => ABOVE6
    case 7 => ABOVE7
    case 8 => ABOVE8
    case 9 => ABOVE9
    case 10 => ABOVE10
    case 11 => ABOVE11
    case 12 => ABOVE12
    case _ => ABOVE13
  }

  function ListOf(above: Above, slot: nat): seq<nat>
    requires slot < 12
  {
    if slot == RW then above.wr
    else if slot == GW then above.wg
    else if slot == BW then above.wb
    else if slot == GY then above.yg
    else if slot == GZ then above.zg
    else if slot == BY then above.yb
    else if slot == BZ then above.zb
    else []
  }

  function RunOrAbove(above: Above, slot: nat, k: nat): nat
    requires slot < 12
  {
    var run, list := RunOf(slot), ListOf(above, slot);
    if k < run.width then run.start + k
    else if k - run.width < |list| then list[k - run.width]
    else 0
  }

  /** The number in the block of bit k of an endpoint. */
  function BlockBit(mode: nat, slot: nat, k: nat): nat
    requires mode < 14 && slot < 12
  {
    RunOrAbove(AboveOf(mode), slot, k)
  }

  // The order of reading has each bit at its place

  /** The bits of the first field are at their places if it begins at bit start. */
  ghost predicate FieldInPlace(layout: Layout, above: Above, start: nat) {
    layout.Done? || (layout.slot < 12 && forall k: nat | layout.shift <= k < layout.shift + layout.width ::
      RunOrAbove(above, layout.slot, k)
      == start + if layout.Flip? then layout.shift + layout.width - 1 - k else k - layout.shift)
  }

  /** All fields are, one after the other. */
  ghost predicate InPlace(layout: Layout, above: Above, start: nat)
    decreases layout
  {
    layout.Done? || (FieldInPlace(layout, above, start) && InPlace(layout.rest, above, start + layout.width))
  }

  lemma {:induction false} PlaceIsBlockBit(layout: Layout, above: Above, start: nat, slot: nat, k: nat)
    requires slot < 12 && InPlace(layout, above, start) && Uses(layout, slot, k) > 0
    ensures start + Place(layout, slot, k) == RunOrAbove(above, slot, k)
    decreases layout
  {
    hide RunOrAbove;
    if Hit(layout, slot, k) == 0 {
      PlaceIsBlockBit(layout.rest, above, start + layout.width, slot, k);
    }
  }

  lemma InPlaceNext(layout: Layout, above: Above, start: nat)
    ensures layout.Done? ==> InPlace(layout, above, start)
    ensures InPlace(layout, above, start)
            == (FieldInPlace(layout, above, start) && InPlace(Next(layout), above, start + Width(layout)))
  {
    hide RunOrAbove;
  }

  lemma InPlaceInFives(layout: Layout, above: Above, start: nat)
    ensures
      var l1, s1 := Next(layout), start + Width(layout);
      var l2, s2 := Next(l1), s1 + Width(l1);
      var l3, s3 := Next(l2), s2 + Width(l2);
      var l4, s4 := Next(l3), s3 + Width(l3);
      InPlace(layout, above, start)
      == (FieldInPlace(layout, above, start) && FieldInPlace(l1, above, s1) && FieldInPlace(l2, above, s2)
          && FieldInPlace(l3, above, s3) && FieldInPlace(l4, above, s4)
          && (Skip5(layout).Done? || InPlace(Skip5(layout), above, s4 + Width(l4))))
  {
    hide FieldInPlace, InPlace, Next, Width;
    var l1, s1 := Next(layout), start + Width(layout);
    var l2, s2 := Next(l1), s1 + Width(l1);
    var l3, s3 := Next(l2), s2 + Width(l2);
    var l4, s4 := Next(l3), s3 + Width(l3);
    InPlaceNext(layout, above, start);
    InPlaceNext(l1, above, s1);
    InPlaceNext(l2, above, s2);
    InPlaceNext(l3, above, s3);
    InPlaceNext(l4, above, s4);
    InPlaceNext(Skip5(layout), above, s4 + Width(l4));
  }

  lemma Mode0InPlace()
    ensures InPlace(MODE0, ABOVE0, 2)
  {
    hide InPlace;
    InPlaceInFives(MODE0, ABOVE0, 2);
    var t5 := Skip5(MODE0);
    InPlaceInFives(t5, ABOVE0, 25);
    var t10 := Skip5(t5);
    InPlaceInFives(t10, ABOVE0, 50);
    var t15 := Skip5(t10);
    InPlaceInFives(t15, ABOVE0, 65);
  }

  lemma Mode1Tail()
    ensures InPlace(Skip5(Skip5(MODE1)), ABOVE1, 24)
  {
    hide InPlace;
    var t10 := Skip5(Skip5(MODE1));
    InPlaceInFives(t10, ABOVE1, 24);
    var t15 := Skip5(t10);
    InPlaceInFives(t15, ABOVE1, 35);
    var t20 := Skip5(t15);
    InPlaceInFives(t20, ABOVE1, 61);
  }

  lemma Mode1InPlace()
    ensures InPlace(MODE1, ABOVE1, 2)
  {
    hide InPlace;
    Mode1Tail();
    InPlaceInFives(MODE1, ABOVE1, 2);
    var t5 := Skip5(MODE1);
    InPlaceInFives(t5, ABOVE1, 13);
  }

  lemma Mode2InPlace()
    ensures InPlace(MODE2, ABOVE2, 5)
  {
    hide InPlace;
    InPlaceInFives(MODE2, ABOVE2, 5);
    var t5 := Skip5(MODE2);
    InPlaceInFives(t5, ABOVE2, 41);
    var t10 := Skip5(t5);
    InPlaceInFives(t10, ABOVE2, 55);
    var t15 := Skip5(t10);
    InPlaceInFives(t15, ABOVE2, 70);
  }

  lemma Mode3InPlace()
    ensures InPlace(MODE3, ABOVE3, 5)
  {
    hide InPlace;
    InPlaceInFives(MODE3, ABOVE3, 5);
    var t5 := Skip5(MODE3);
    InPlaceInFives(t5, ABOVE3, 40);
    var t10 := Skip5(t5);
    InPlaceInFives(t10, ABOVE3, 55);
    var t15 := Skip5(t10);
    InPlaceInFives(t15, ABOVE3, 69);
  }

  lemma Mode4InPlace()
    ensures InPlace(MODE4, ABOVE4, 5)
  {
    hide InPlace;
    InPlaceInFives(MODE4, ABOVE4, 5);
    var t5 := Skip5(MODE4);
    InPlaceInFives(t5, ABOVE4, 40);
    var t10 := Skip5(t5);
    InPlaceInFives(t10, ABOVE4, 51);
    var t15 := Skip5(t10);
    InPlaceInFives(t15, ABOVE4, 69);
  }

  lemma Mode5InPlace()
    ensures InPlace(MODE5, ABOVE5, 5)
  {
    hide InPlace;
    InPlaceInFives(MODE5, ABOVE5, 5);
    var t5 := Skip5(MODE5);
    InPlaceInFives(t5, ABOVE5, 34);
    var t10 := Skip5(t5);
    InPlaceInFives(t10, ABOVE5, 50);
    var t15 := Skip5(t10);
    InPlaceInFives(t15, ABOVE5, 65);
  }

  lemma Mode6InPlace()
    ensures InPlace(MODE6, ABOVE6, 5)
  {
    hide InPlace;
    InPlaceInFives(MODE6, ABOVE6, 5);
    var t5 := Skip5(MODE6);
    InPlaceInFives(t5, ABOVE6, 24);
    var t10 := Skip5(t5);
    InPlaceInFives(t10, ABOVE6, 41);
    var t15 := Skip5(t10);
    InPlaceInFives(t15, ABOVE6, 60);
  }

  lemma Mode7Tail()
    ensures InPlace(Skip5(Skip5(MODE7)), ABOVE7, 40)
  {
    hide InPlace;
    var t10 := Skip5(Skip5(MODE7));
    InPlaceInFives(t10, ABOVE7, 40);
    var t15 := Skip5(t10);
    InPlaceInFives(t15, ABOVE7, 60);
    var t20 := Skip5(t15);
    InPlaceInFives(t20, ABOVE7, 76);
  }

  lemma Mode7InPlace()
    ensures InPlace(MODE7, ABOVE7, 5)
  {
    hide InPlace;
    Mode7Tail();
    InPlaceInFives(MODE7, ABOVE7, 5);
    var t5 := Skip5(MODE7);
    InPlaceInFives(t5, ABOVE7, 24);
  }

  lemma Mode8Tail()
    ensures InPlace(Skip5(Skip5(MODE8)), ABOVE8, 40)
  {
    hide InPlace;
    var t10 := Skip5(Skip5(MODE8));
    InPlaceInFives(t10, ABOVE8, 40);
    var t15 := Skip5(t10);
    InPlaceInFives(t15, ABOVE8, 55);
    var t20 := Skip5(t15);
    InPlaceInFives(t20, ABOVE8, 76);
  }

  lemma Mode8InPlace()
    ensures InPlace(MODE8, ABOVE8, 5)
  {
    hide InPlace;
    Mode8Tail();
    InPlaceInFives(MODE8, ABOVE8, 5);
    var t5 := Skip5(MODE8);
    InPlaceInFives(t5, ABOVE8, 24);
  }

  lemma Mode9Tail()
    ensures InPlace(Skip5(Skip5(MODE9)), ABOVE9, 25)
  {
    hide InPlace;
    var t10 := Skip5(Skip5(MODE9));
    InPlaceInFives(t10, ABOVE9, 25);
    var t15 := Skip5(t10);
    InPlaceInFives(t15, ABOVE9, 35);
    var t20 := Skip5(t15);
    InPlaceInFives(t20, ABOVE9, 61);
  }

  lemma Mode9InPlace()
    ensures InPlace(MODE9, ABOVE9, 5)
  {
    hide InPlace;
    Mode9Tail();
    InPlaceInFives(MODE9, ABOVE9, 5);
    var t5 := Skip5(MODE9);
    InPlaceInFives(t5, ABOVE9, 15);
  }

  lemma Mode10InPlace()
    ensures InPlace(MODE10, ABOVE10, 5)
  {
    hide InPlace;
    InPlaceInFives(MODE10, ABOVE10, 5);
    var t5 := Skip5(MODE10);
    InPlaceInFives(t5, ABOVE10, 55);
  }

  lemma Mode11InPlace()
    ensures InPlace(MODE11, ABOVE11, 5)
  {
    hide InPlace;
    InPlaceInFives(MODE11, ABOVE11, 5);
    var t5 := Skip5(MODE11);
    InPlaceInFives(t5, ABOVE11, 45);
  }

  lemma Mode12InPlace()
    ensures InPlace(MODE12, ABOVE12, 5)
  {
    hide InPlace;
    InPlaceInFives(MODE12, ABOVE12, 5);
    var t5 := Skip5(MODE12);
    InPlaceInFives(t5, ABOVE12, 45);
  }

  lemma Mode13InPlace()
    ensures InPlace(MODE13, ABOVE13, 5)
  {
    hide InPlace;
    InPlaceInFives(MODE13, ABOVE13, 5);
    var t5 := Skip5(MODE13);
    InPlaceInFives(t5, ABOVE13, 45);
  }

  /** In every mode, each bit of each endpoint is read from its place in the block. */
  lemma BitsInPlace(mode: nat, slot: nat, k: nat)
    requires mode < 14 && slot < 12 && k < StoredBits(mode, slot)
    ensures Uses(LayoutOf(mode), slot, k) == 1
    ensures ModeBits(mode) + Place(LayoutOf(mode), slot, k) == BlockBit(mode, slot, k)
  {
    hide StoredBits, RunOrAbove, AboveOf, InPlace, Place, Uses, LayoutOf;
    LayoutFits(mode, slot, k);
    ModeInPlace(mode);
    PlaceIsBlockBit(LayoutOf(mode), AboveOf(mode), ModeBits(mode), slot, k);
  }

  lemma ModeInPlace(mode: nat)
    requires mode < 14
    ensures InPlace(LayoutOf(mode), AboveOf(mode), ModeBits(mode))
  {
    hide InPlace;
    match mode
    case 0 => Mode0InPlace();
    case 1 => Mode1InPlace();
    case 2 => Mode2InPlace();
    case 3 => Mode3InPlace();
    case 4 => Mode4InPlace();
    case 5 => Mode5InPlace();
    case 6 => Mode6InPlace();
    case 7 => Mode7InPlace();
    case 8 => Mode8InPlace();
    case 9 => Mode9InPlace();
    case 10 => Mode10InPlace();
    case 11 => Mode11InPlace();
    case 12 => Mode12InPlace();
    case _ => Mode13InPlace();
  }

  // What the block stores

  /** The number whose lowest n bits are those of the endpoint. */
  function Assembled(block: nat, mode: nat, slot: nat, n: nat): (value: nat)
    requires mode < 14 && slot < 12
  {
    if n == 0 then 0
    else Assembled(block, mode, slot, n - 1) + ShiftLeft(Bit(block, BlockBit(mode, slot, n - 1)), n - 1)
  }

  lemma {:induction false} AssembledBits(block: nat, mode: nat, slot: nat, n: nat, k: nat)
    requires mode < 14 && slot < 12
    ensures Assembled(block, mode, slot, n) < Pow2(n)
    ensures Bit(Assembled(block, mode, slot, n), k) == if k < n then Bit(block, BlockBit(mode, slot, k)) else 0
  {
    hide BlockBit, ShiftLeft, Bit;
    if n == 0 {
      ZeroBit(k);
    } else {
      var low, bit := Assembled(block, mode, slot, n - 1), Bit(block, BlockBit(mode, slot, n - 1));
      AssembledBits(block, mode, slot, n - 1, k);
      OneBit(block, BlockBit(mode, slot, n - 1));
      BelowNextMultiple(low, bit, 1, n - 1);
      SumBit(low, bit, n - 1, k);
      if k >= n {
        BitsEnd(bit, 1, k - n + 1);
      }
    }
  }

  lemma OneBit(x: nat, k: nat)
    ensures Bit(x, k) < Pow2(1) && Bit(Bit(x, k), 0) == Bit(x, k)
  {
  }

  /** What the block stores of an endpoint. */
  function StoredAt(block: nat, mode: nat, slot: nat): (value: nat)
    requires mode < 14 && slot < 12
    ensures value < Pow2(StoredBits(mode, slot))
  {
    AssembledBits(block, mode, slot, StoredBits(mode, slot), 0);
    Assembled(block, mode, slot, StoredBits(mode, slot))
  }

  /** Reading the fields of a mode one after the other yields what the block stores at those places. */
  lemma FieldsInPlace(block: nat, mode: nat, slot: nat)
    requires mode < 14 && slot < 12
    ensures Stored(LayoutOf(mode), block, ModeBits(mode), slot) == StoredAt(block, mode, slot)
  {
    hide LayoutOf, StoredBits, BlockBit, Stored, StoredAt, Bit, ModeBits;
    forall k: nat
      ensures Bit(Stored(LayoutOf(mode), block, ModeBits(mode), slot), k) == Bit(StoredAt(block, mode, slot), k)
    {
      FieldBitInPlace(block, mode, slot, k);
    }
    SameBits(Stored(LayoutOf(mode), block, ModeBits(mode), slot), StoredAt(block, mode, slot));
  }

  lemma FieldBitInPlace(block: nat, mode: nat, slot: nat, k: nat)
    requires mode < 14 && slot < 12
    ensures Bit(Stored(LayoutOf(mode), block, ModeBits(mode), slot), k) == Bit(StoredAt(block, mode, slot), k)
  {
    hide LayoutOf, StoredBits, BlockBit, Bit, ModeBits, Gather, Place, Uses;
    LayoutFits(mode, slot, k);
    GatherBit(LayoutOf(mode), block, ModeBits(mode), slot, 0, k);
    ZeroBit(k);
    AssembledBits(block, mode, slot, StoredBits(mode, slot), k);
    if k < StoredBits(mode, slot) {
      BitsInPlace(mode, slot, k);
    }
  }
}
