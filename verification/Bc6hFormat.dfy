/** The layout of a BC6H block and the half-precision colors it stands for, each part read at its place in
    the block. */
module Bc6hFormat {
  import opened Bits
  import opened Partitions
  import opened PartitionMasks
  import opened BlockIndices
  import opened Bc6hLayout
  import opened Bc6hFields
  import opened Bc6hPlaces
  import opened Bc6hColors

  /** No mode: the block is black. */
  const RESERVED := 14

  /** The mode by its number in the decoder: two low bits name the first two modes; else the three bits after
      them count the other eight with two subsets, or the four with one subset and four reserved ones. */
  function ModeOf(block: nat): (mode: nat)
    ensures mode <= RESERVED
  {
    var low, more := Field(block, 0, 2), Field(block, 2, 3);
    LowBitsBound(ShiftRight(block, 2), 3);
    Power3();
    if low < 2 then low
    else if low == 2 then 2 + more
    else if more < 4 then 10 + more
    else RESERVED
  }

  lemma Power3()
    ensures Pow2(3) == 8
  {
  }

  /** The endpoints of these two modes are not deltas. */
  predicate Transformed(mode: nat) {
    mode != 9 && mode != 10
  }

  /** Endpoints are deltas exactly where they have fewer bits than the first one, in every channel. */
  lemma TransformedIsNarrower(mode: nat, channel: nat)
    requires mode < 14 && channel < 3
    ensures DeltaBits(mode, channel) <= FirstBits(mode)
    ensures Transformed(mode) <==> DeltaBits(mode, channel) < FirstBits(mode)
  {
  }

  function PartitionStart(mode: nat): nat {
    ModeBits(mode) + EndpointBits(mode)
  }

  function IndexStart(mode: nat): nat {
    PartitionStart(mode) + if mode >= 10 then 0 else 5
  }

  function IndexBits(mode: nat): nat {
    if mode >= 10 then 4 else 3
  }

  /** In every mode the parts add up to the whole block. */
  lemma ModeFillsBlock(mode: nat)
    requires mode < 14
    ensures IndexStart(mode) + 16 * IndexBits(mode) - NumSubsets(mode) == 128
  {
  }

  /** The partition is at bit 77 and the indices at bit 82 with two subsets, and the indices at bit 65 with one. */
  lemma PartsInPlace(mode: nat)
    requires mode < 14
    ensures NumSubsets(mode) == 2 <==> mode < 10
    ensures mode < 10 ==> PartitionStart(mode) == 77 && IndexStart(mode) == 82 && IndexBits(mode) == 3
    ensures mode >= 10 ==> IndexStart(mode) == 65 && IndexBits(mode) == 4
  {
  }

  function PartitionOf(block: nat, mode: nat): (partition: nat)
    ensures partition < 32
  {
    LowBitsBound(ShiftRight(block, PartitionStart(mode)), 5);
    assert Pow2(5) == 32;
    if mode >= 10 then 0 else Field(block, PartitionStart(mode), 5)
  }

  function ShapeOf(block: nat, mode: nat): (cells: seq<nat>)
    ensures ShapeOk(cells, NumSubsets(mode))
  {
    Bc6hShape(NumSubsets(mode), PartitionOf(block, mode))
  }

  // Endpoints: four slots for each channel, the first of which the others are deltas of

  function SlotBits(mode: nat, slot: nat): (bits: nat)
    requires mode < 14 && slot < 12
    ensures 4 <= bits <= 16
    ensures !Transformed(mode) ==> bits == FirstBits(mode)
  {
    if slot % 4 == 0 then FirstBits(mode) else DeltaBits(mode, slot / 4)
  }

  /** The first endpoint of a channel, and the delta of another. */
  function ExtendedAt(block: nat, mode: nat, isSigned: bool, slot: nat): int
    requires mode < 14 && slot < 12
  {
    var stored := StoredAt(block, mode, slot);
    if isSigned || (slot % 4 != 0 && Transformed(mode)) then ExtendSign(stored, SlotBits(mode, slot)) else stored
  }

  function ColorAt(block: nat, mode: nat, isSigned: bool, slot: nat): int
    requires mode < 14 && slot < 12
  {
    var extended := ExtendedAt(block, mode, isSigned, slot);
    if slot % 4 == 0 || !Transformed(mode) then extended
    else TransformInverse(extended, ExtendedAt(block, mode, isSigned, slot - slot % 4), SlotBits(mode, 0), isSigned)
  }

  function EndpointAt(block: nat, mode: nat, isSigned: bool, slot: nat): int
    requires mode < 14 && slot < 12
  {
    Unquantize(ColorAt(block, mode, isSigned, slot), SlotBits(mode, 0), isSigned)
  }

  /** The slots in use. */
  predicate InUse(mode: nat, slot: nat) {
    slot < 12 && slot % 4 < 2 * NumSubsets(mode)
  }

  lemma ColorInRange(block: nat, mode: nat, isSigned: bool, slot: nat)
    requires mode < 14 && InUse(mode, slot)
    ensures InRange(ColorAt(block, mode, isSigned, slot), FirstBits(mode), isSigned)
  {
    hide StoredAt, WidthsOf, ExtendSign, TransformInverse, InRange;
    var bits := SlotBits(mode, slot);
    assert bits == StoredBits(mode, slot);
    ExtendedInRange(StoredAt(block, mode, slot), bits, isSigned);
    if slot % 4 != 0 && Transformed(mode) {
      TransformInverseMeans(ExtendedAt(block, mode, isSigned, slot), ExtendedAt(block, mode, isSigned, slot - slot % 4),
                            SlotBits(mode, 0), isSigned);
    }
  }

  lemma ExtendedInRange(stored: nat, bits: nat, isSigned: bool)
    requires 4 <= bits <= 16 && stored < Pow2(bits)
    ensures InRange(if isSigned then ExtendSign(stored, bits) else stored, bits, isSigned)
  {
    ExtendSignMeans(stored, bits);
  }

  /** Every endpoint is in range, and only a signed one of sixteen bits is the lowest number. */
  lemma EndpointInRange(block: nat, mode: nat, isSigned: bool, slot: nat)
    requires mode < 14 && InUse(mode, slot)
    ensures InWideRange(EndpointAt(block, mode, isSigned, slot), isSigned)
    ensures isSigned && EndpointAt(block, mode, isSigned, slot) == -0x8000 ==> mode == 13
  {
    hide ColorAt, Unquantize, InRange;
    ColorInRange(block, mode, isSigned, slot);
    UnquantizeFits(ColorAt(block, mode, isSigned, slot), SlotBits(mode, 0), isSigned);
    assert FirstBits(mode) == 16 ==> mode == 13;
  }

  // Colors

  /** The subset of texel t, read off the mask of the shape. */
  function SubsetAt(block: nat, mode: nat, t: nat): (subset: nat)
    requires t < 16
    ensures subset < NumSubsets(mode)
  {
    Bc6hShapeByMask(NumSubsets(mode), PartitionOf(block, mode), t);
    SubsetOfTexel(NumSubsets(mode), PartitionOf(block, mode), t)
  }

  lemma SubsetIsCell(block: nat, mode: nat, t: nat)
    requires t < 16
    ensures ShapeOf(block, mode)[t] % 2 == SubsetAt(block, mode, t)
  {
    hide PartitionOf, Bc6hShape, SubsetOfTexel;
    Bc6hShapeByMask(NumSubsets(mode), PartitionOf(block, mode), t);
  }

  /** The slot of the lower endpoint of texel t in channel c; the upper one is next to it. */
  function SlotOf(block: nat, mode: nat, t: nat, c: nat): (slot: nat)
    requires t < 16 && c < 3
    ensures slot + 1 < 12 && InUse(mode, slot) && InUse(mode, slot + 1)
  {
    4 * c + 2 * SubsetAt(block, mode, t)
  }

  function WeightAt(block: nat, mode: nat, t: nat): (w: nat)
    requires t < 16
    ensures w <= 64
  {
    Weight(IndexBits(mode), IndexAt(block, IndexStart(mode), ShapeOf(block, mode), t, IndexBits(mode)))
  }

  /** Channel c of texel t. */
  function HalfAt(block: nat, mode: nat, isSigned: bool, t: nat, c: nat): int
    requires mode < 14 && t < 16 && c < 3
  {
    var slot := SlotOf(block, mode, t, c);
    FinishUnquantize(Interpolate(EndpointAt(block, mode, isSigned, slot), EndpointAt(block, mode, isSigned, slot + 1),
                                 WeightAt(block, mode, t)), isSigned)
  }

  /** Whatever the block, every color is a half-precision number between those of its endpoints; an unsigned
      one is never negative, infinite or NaN. */
  lemma HalfInRange(block: nat, mode: nat, isSigned: bool, t: nat, c: nat)
    requires mode < 14 && t < 16 && c < 3
    ensures 0 <= HalfAt(block, mode, isSigned, t, c) < 0x1_0000
    ensures !isSigned ==> HalfAt(block, mode, isSigned, t, c) <= 0x7BFF
    ensures var slot := SlotOf(block, mode, t, c);
            Between(Rank(HalfAt(block, mode, isSigned, t, c)),
                    Rank(FinishUnquantize(EndpointAt(block, mode, isSigned, slot), isSigned)),
                    Rank(FinishUnquantize(EndpointAt(block, mode, isSigned, slot + 1), isSigned)))
  {
    hide EndpointAt, WeightAt, SlotOf, Interpolate, FinishUnquantize, Rank, InUse;
    var slot := SlotOf(block, mode, t, c);
    EndpointInRange(block, mode, isSigned, slot);
    EndpointInRange(block, mode, isSigned, slot + 1);
    BlendInRange(EndpointAt(block, mode, isSigned, slot), EndpointAt(block, mode, isSigned, slot + 1),
                 WeightAt(block, mode, t), isSigned);
  }

  lemma BlendInRange(a: int, b: int, w: nat, isSigned: bool)
    requires w <= 64 && InWideRange(a, isSigned) && InWideRange(b, isSigned)
    ensures InWideRange(Interpolate(a, b, w), isSigned)
    ensures var half := FinishUnquantize(Interpolate(a, b, w), isSigned);
            && 0 <= half < 0x1_0000
            && (!isSigned ==> half <= 0x7BFF)
            && (IsFinite(half) <==> !(isSigned && Interpolate(a, b, w) == -0x8000))
            && Between(Rank(half), Rank(FinishUnquantize(a, isSigned)), Rank(FinishUnquantize(b, isSigned)))
  {
    hide Interpolate, FinishUnquantize, Rank;
    var x := Interpolate(a, b, w);
    InterpolateBetween(a, b, w);
    FinishFits(x, isSigned);
    if a <= b {
      FinishMonotone(a, x, isSigned);
      FinishMonotone(x, b, isSigned);
    } else {
      FinishMonotone(b, x, isSigned);
      FinishMonotone(x, a, isSigned);
    }
  }

  /** A color is finite unless the block is signed, stores sixteen bits for the first endpoints, and the two
      endpoints are so close to the lowest number that their blend is rounded to it. */
  lemma HalfIsFinite(block: nat, mode: nat, isSigned: bool, t: nat, c: nat)
    requires mode < 14 && t < 16 && c < 3
    ensures IsFinite(HalfAt(block, mode, isSigned, t, c))
            <==> !(isSigned && mode == 13
                   && NearLowest(EndpointAt(block, mode, isSigned, SlotOf(block, mode, t, c)),
                                 EndpointAt(block, mode, isSigned, SlotOf(block, mode, t, c) + 1), WeightAt(block, mode, t)))
  {
    hide EndpointAt, WeightAt, SlotOf, Interpolate, FinishUnquantize, Rank, InUse, IsFinite, NearLowest;
    var slot, w := SlotOf(block, mode, t, c), WeightAt(block, mode, t);
    var a, b := EndpointAt(block, mode, isSigned, slot), EndpointAt(block, mode, isSigned, slot + 1);
    EndpointInRange(block, mode, isSigned, slot);
    EndpointInRange(block, mode, isSigned, slot + 1);
    BlendInRange(a, b, w, isSigned);
    InterpolateBetween(a, b, w);
    if isSigned {
      BlendIsLowest(a, b, w);
    }
  }

  // A signed block with a color that is not finite

  /** In the mode with sixteen bits, a first endpoint with only its sign bit set and an index of zero. */
  lemma LowestColor(block: nat)
    requires StoredAt(block, 13, 0) == 0x8000 && Field(block, 65, 3) == 0
    ensures HalfAt(block, 13, true, 0, 0) == 0xFC00 && !IsFinite(HalfAt(block, 13, true, 0, 0))
  {
    LowestEndpoint(block);
    LowestIndex(block);
    hide StoredAt, Field, IndexAt, ShapeOf, EndpointAt, WeightAt, SubsetAt, Interpolate, FinishUnquantize, IsFinite;
    BlendLowest(EndpointAt(block, 13, true, 1));
  }

  lemma BlendLowest(b: int)
    ensures FinishUnquantize(Interpolate(-0x8000, b, 0), true) == 0xFC00 && !IsFinite(0xFC00)
  {
  }

  lemma LowestEndpoint(block: nat)
    requires StoredAt(block, 13, 0) == 0x8000
    ensures EndpointAt(block, 13, true, 0) == -0x8000
  {
    hide StoredAt;
    Powers();
  }

  lemma LowestIndex(block: nat)
    requires Field(block, 65, 3) == 0
    ensures WeightAt(block, 13, 0) == 0 && SubsetAt(block, 13, 0) == 0
  {
  }

  /** There is such a block. */
  lemma LowestBlock() returns (block: nat)
    ensures block < Pow2(128) && ModeOf(block) == 13
    ensures HalfAt(block, 13, true, 0, 0) == 0xFC00
  {
    hide LayoutOf, WriteEndpoints, ReadEndpoints, HalfAt, ModeOf, Pow2, Field, StoredAt, ShiftLeft;
    var endpoints: seq<nat> := seq(12, i requires 0 <= i < 12 => if i == 0 then 0x8000 else 0);
    var w := WriteEndpoints(13, endpoints);
    block := 0x0F + ShiftLeft(w, 5);
    WrittenFits(13, endpoints);
    LowestFields(block, w);
    Powers();
    ReadBack(13, endpoints, block, 5);
    StoredIsRead(block, endpoints);
    LowestColor(block);
  }

  lemma StoredIsRead(block: nat, endpoints: seq<nat>)
    requires |endpoints| == 12 && ReadEndpoints(13, block, 5) == endpoints
    ensures StoredAt(block, 13, 0) == endpoints[0]
  {
    hide LayoutOf, Stored, StoredAt;
    FieldsInPlace(block, 13, 0);
    assert ReadEndpoints(13, block, 5)[0] == Stored(LayoutOf(13), block, 5, 0);
  }

  lemma LowestFields(block: nat, w: nat)
    requires w < Pow2(60) && block == 0x0F + ShiftLeft(w, 5)
    ensures block < Pow2(128) && Field(block, 5, 60) == w && Field(block, 65, 3) == 0 && ModeOf(block) == 13
  {
    hide Field, ModeOf;
    LowestCode(block, w);
    LowestTail(block, w);
  }

  lemma LowestTail(block: nat, w: nat)
    requires w < Pow2(60) && block == 0x0F + ShiftLeft(w, 5)
    ensures block < Pow2(128) && Field(block, 5, 60) == w && Field(block, 65, 3) == 0
  {
    hide Pow2, LowBits, ShiftLeft, ShiftRight;
    Power5();
    TopOfSum(w, 0x0F, 5);
    LowBitsAll(w, 60);
    BelowNextMultiple(0x0F, w, 60, 5);
    NothingAbove(block, 65);
    PowersGrow(65, 128);
  }

  lemma Power5()
    ensures Pow2(5) == 32
  {
  }

  lemma NothingAbove(x: nat, n: nat)
    requires x < Pow2(n)
    ensures Field(x, n, 3) == 0
  {
    ShiftRightBound(x, n, n);
    assert LowBits(0, 3) == 0;
  }

  lemma {:induction false} PowersGrow(m: nat, n: nat)
    requires m <= n
    ensures Pow2(m) <= Pow2(n)
  {
    if m < n {
      PowersGrow(m, n - 1);
    }
  }

  lemma LowestCode(block: nat, w: nat)
    requires block == 0x0F + ShiftLeft(w, 5)
    ensures ModeOf(block) == 13
  {
    LowBitsOfSum(0x0F, w, 5, 2);
    ShiftRightOfSum(0x0F, w, 5, 2);
    LowBitsOfSum(3, w, 3, 3);
    LowestCodeBits();
    hide ShiftLeft, LowBits, ShiftRight;
    assert ShiftRight(block, 0) == block by {
      ShiftNothing(block);
    }
  }

  lemma ShiftNothing(x: nat)
    ensures ShiftRight(x, 0) == x
  {
  }

  lemma LowestCodeBits()
    ensures ShiftRight(0x0F, 2) == 3 && LowBits(0x0F, 2) == 3 && LowBits(3, 3) == 3
  {
  }
}
