/** The BC6H block decoder, which reads the block from front to back: it uses up exactly the 128 bits and
    yields the colors the layout of the block stands for. */
module Bc6h {
  import opened Bits
  import opened BitStream
  import opened Partitions
  import opened BlockIndices
  import opened Bc6hLayout
  import opened Bc6hFields
  import opened Bc6hPlaces
  import opened Bc6hColors
  import opened Bc6hFormat

  function ModeOfCode(code: nat): (mode: nat)
    ensures mode <= RESERVED
  {
    match code
    case 0x00 => 0
    case 0x01 => 1
    case 0x02 => 2
    case 0x06 => 3
    case 0x0A => 4
    case 0x0E => 5
    case 0x12 => 6
    case 0x16 => 7
    case 0x1A => 8
    case 0x1E => 9
    case 0x03 => 10
    case 0x07 => 11
    case 0x0B => 12
    case 0x0F => 13
    case _ => RESERVED
  }

  /** Two bits, and three more above them unless the two say 0 or 1. */
  method ReadMode(stream: Stream) returns (mode: nat)
    requires stream.Valid() && stream.taken == 0
    modifies stream
    ensures stream.Valid() && mode == ModeOf(stream.block)
    ensures mode < 14 ==> stream.taken == ModeBits(mode)
  {
    CodesAreModes(stream.block);
    var code := stream.ReadBits(2);
    if code > 1 {
      var more := stream.ReadBits(3);
      code := Or(code, ShiftLeft(more, 2));
    }
    mode := ModeOfCode(code);
  }

  /** The codes count the modes: the low two bits say which count, the three above them are the number in it. */
  lemma CodesAreModes(block: nat)
    ensures
      var low, more := Field(block, 0, 2), Field(block, 2, 3);
      ModeOf(block) == ModeOfCode(if low > 1 then Or(low, ShiftLeft(more, 2)) else low)
  {
    var low, more := Field(block, 0, 2), Field(block, 2, 3);
    LowBitsBound(ShiftRight(block, 0), 2);
    LowBitsBound(ShiftRight(block, 2), 3);
    assert Pow2(2) == 4 && Pow2(3) == 8;
    OrDisjoint(low, more, 2);
    assert ShiftLeft(more, 2) == 4 * more by {
      ShiftLeftIsProduct(more, 2);
    }
    hide Or, ShiftLeft, Field, Pow2;
    assert more == 0 || more == 1 || more == 2 || more == 3 || more == 4 || more == 5 || more == 6 || more == 7;
  }

  // Endpoints, the four of each channel after those of the channel before

  /** Read the endpoints of a mode: every bit comes from its place in the block. */
  method ReadEndpoints(stream: Stream, endpoints: array<int>, mode: nat)
    requires stream.Valid() && endpoints.Length == 12 && mode < 14 && stream.taken == ModeBits(mode)
    requires forall slot | 0 <= slot < 12 :: endpoints[slot] == 0
    modifies stream, endpoints
    ensures stream.Valid() && stream.taken == PartitionStart(mode)
    ensures forall slot: nat | slot < 12 :: endpoints[slot] == StoredAt(stream.block, mode, slot)
  {
    hide LayoutOf, Stored, StoredAt;
    LayoutFills(mode);
    ReadEndpointFields(stream, endpoints, LayoutOf(mode));
    forall slot: nat | slot < 12 ensures endpoints[slot] == StoredAt(stream.block, mode, slot) {
      FieldsInPlace(stream.block, mode, slot);
    }
  }

  /** Read the fields of a mode one after the other and put each into its endpoint. */
  method ReadEndpointFields(stream: Stream, endpoints: array<int>, layout: Layout)
    requires stream.Valid() && endpoints.Length == 12 && FieldsOk(layout)
    requires forall slot | 0 <= slot < 12 :: endpoints[slot] == 0
    modifies stream, endpoints
    ensures stream.Valid() && stream.taken == old(stream.taken) + LayoutBits(layout)
    ensures forall slot: nat | slot < 12 ::
              endpoints[slot] == Stored(layout, stream.block, old(stream.taken), slot)
  {
    ghost var start := stream.taken;
    var rest := layout;
    while !rest.Done?
      invariant stream.Valid() && FieldsOk(rest)
      invariant stream.taken + LayoutBits(rest) == start + LayoutBits(layout)
      invariant forall slot: nat | slot < 12 :: endpoints[slot] >= 0
      invariant forall slot: nat | slot < 12 ::
                  Gather(rest, stream.block, stream.taken, slot, endpoints[slot]) == Stored(layout, stream.block, start, slot)
      decreases rest
    {
      ReadField(stream, endpoints, rest);
      rest := rest.rest;
    }
  }

  method ReadField(stream: Stream, endpoints: array<int>, layout: Layout)
    requires stream.Valid() && endpoints.Length == 12 && !layout.Done? && FieldOk(layout)
    requires forall slot: nat | slot < 12 :: endpoints[slot] >= 0
    modifies stream, endpoints
    ensures stream.Valid() && stream.taken == old(stream.taken) + layout.width
    ensures forall slot: nat | slot < 12 ::
              endpoints[slot] == PutField(layout, stream.block, old(stream.taken), slot, old(endpoints[slot]))
  {
    var value;
    if layout.Flip? {
      value := stream.ReadBitsReversed(layout.width);
    } else {
      value := stream.ReadBits(layout.width);
    }
    endpoints[layout.slot] := Or(endpoints[layout.slot], ShiftLeft(value, layout.shift));
  }

  /** Extend the signs of the first endpoints if they have any, and those of deltas always. */
  method ExtendSigns(endpoints: array<int>, mode: nat, isSigned: bool, ghost block: nat)
    requires endpoints.Length == 12 && mode < 14
    requires forall slot: nat | slot < 12 :: endpoints[slot] == StoredAt(block, mode, slot)
    modifies endpoints
    ensures forall slot: nat | InUse(mode, slot) :: endpoints[slot] == ExtendedAt(block, mode, isSigned, slot)
  {
    hide StoredAt, ExtendSign, SlotBits;
    if isSigned {
      endpoints[0] := ExtendSign(endpoints[0], SlotBits(mode, 0));
      endpoints[4] := ExtendSign(endpoints[4], SlotBits(mode, 4));
      endpoints[8] := ExtendSign(endpoints[8], SlotBits(mode, 8));
    }
    if Transformed(mode) || isSigned {
      ExtendOthers(endpoints, mode, isSigned, block);
    }
  }

  /** Extend the signs of the endpoints that are not the first of their channel. */
  method ExtendOthers(endpoints: array<int>, mode: nat, isSigned: bool, ghost block: nat)
    requires endpoints.Length == 12 && mode < 14 && (Transformed(mode) || isSigned)
    requires forall slot: nat | slot < 12 :: endpoints[slot]
               == if slot % 4 == 0 then ExtendedAt(block, mode, isSigned, slot) else StoredAt(block, mode, slot)
    modifies endpoints
    ensures forall slot: nat | InUse(mode, slot) :: endpoints[slot] == ExtendedAt(block, mode, isSigned, slot)
  {
    hide StoredAt, ExtendSign, SlotBits;
    var i := 1;
    while i < 2 * NumSubsets(mode)
      invariant 1 <= i <= 2 * NumSubsets(mode)
      invariant forall slot: nat | slot < 12 :: endpoints[slot]
                  == if slot % 4 < i then ExtendedAt(block, mode, isSigned, slot) else StoredAt(block, mode, slot)
    {
      endpoints[i] := ExtendSign(endpoints[i], SlotBits(mode, i));
      endpoints[4 + i] := ExtendSign(endpoints[4 + i], SlotBits(mode, 4 + i));
      endpoints[8 + i] := ExtendSign(endpoints[8 + i], SlotBits(mode, 8 + i));
      i := i + 1;
    }
  }

  /** Add the first endpoints to the deltas. */
  method InvertTransform(endpoints: array<int>, mode: nat, isSigned: bool, ghost block: nat)
    requires endpoints.Length == 12 && mode < 14
    requires forall slot: nat | InUse(mode, slot) :: endpoints[slot] == ExtendedAt(block, mode, isSigned, slot)
    modifies endpoints
    ensures forall slot: nat | InUse(mode, slot) :: endpoints[slot] == ColorAt(block, mode, isSigned, slot)
  {
    hide ExtendedAt, TransformInverse, SlotBits;
    if Transformed(mode) {
      var bits := SlotBits(mode, 0);
      var i := 1;
      while i < 2 * NumSubsets(mode)
        invariant 1 <= i <= 2 * NumSubsets(mode)
        invariant forall slot: nat | InUse(mode, slot) :: endpoints[slot]
                    == if slot % 4 < i then ColorAt(block, mode, isSigned, slot) else ExtendedAt(block, mode, isSigned, slot)
      {
        assert InUse(mode, 0) && InUse(mode, 4) && InUse(mode, 8);
        assert InUse(mode, i) && InUse(mode, 4 + i) && InUse(mode, 8 + i);
        endpoints[i] := TransformInverse(endpoints[i], endpoints[0], bits, isSigned);
        endpoints[4 + i] := TransformInverse(endpoints[4 + i], endpoints[4], bits, isSigned);
        endpoints[8 + i] := TransformInverse(endpoints[8 + i], endpoints[8], bits, isSigned);
        i := i + 1;
      }
    }
  }

  method UnquantizeEndpoints(endpoints: array<int>, mode: nat, isSigned: bool, ghost block: nat)
    requires endpoints.Length == 12 && mode < 14
    requires forall slot: nat | InUse(mode, slot) :: endpoints[slot] == ColorAt(block, mode, isSigned, slot)
    modifies endpoints
    ensures forall slot: nat | InUse(mode, slot) :: endpoints[slot] == EndpointAt(block, mode, isSigned, slot)
  {
    hide ColorAt, Unquantize, SlotBits;
    var bits := SlotBits(mode, 0);
    var i := 0;
    while i < 2 * NumSubsets(mode)
      invariant 0 <= i <= 2 * NumSubsets(mode)
      invariant forall slot: nat | InUse(mode, slot) :: endpoints[slot]
                  == if slot % 4 < i then EndpointAt(block, mode, isSigned, slot) else ColorAt(block, mode, isSigned, slot)
    {
      assert InUse(mode, i) && InUse(mode, 4 + i) && InUse(mode, 8 + i);
      endpoints[i] := Unquantize(endpoints[i], bits, isSigned);
      endpoints[4 + i] := Unquantize(endpoints[4 + i], bits, isSigned);
      endpoints[8 + i] := Unquantize(endpoints[8 + i], bits, isSigned);
      i := i + 1;
    }
  }

  // Colors

  datatype Color = Color(r: int, g: int, b: int)

  function ColorOf(block: nat, mode: nat, isSigned: bool, t: nat): Color
    requires mode < 14 && t < 16
  {
    Color(HalfAt(block, mode, isSigned, t, 0), HalfAt(block, mode, isSigned, t, 1), HalfAt(block, mode, isSigned, t, 2))
  }

  function Blend(lo: int, hi: int, w: nat, isSigned: bool): int {
    FinishUnquantize(Interpolate(lo, hi, w), isSigned)
  }

  /** Read the index of a texel and blend its endpoints. */
  method BlendTexel(stream: Stream, endpoints: array<int>, cells: seq<nat>, mode: nat, isSigned: bool, t: nat)
    returns (color: Color)
    requires stream.Valid() && endpoints.Length == 12 && mode < 14 && t < 16
    requires forall slot: nat | InUse(mode, slot) :: endpoints[slot] == EndpointAt(stream.block, mode, isSigned, slot)
    requires cells == ShapeOf(stream.block, mode)
    requires stream.taken == IndexStart(mode) + IndexOffset(cells, t, IndexBits(mode))
    modifies stream
    ensures stream.Valid() && color == ColorOf(stream.block, mode, isSigned, t)
    ensures stream.taken == IndexStart(mode) + IndexOffset(cells, t + 1, IndexBits(mode))
  {
    hide EndpointAt, ShapeOf, IndexStart, Field, IndexAt, Interpolate, FinishUnquantize, Weight;
    var indexBits := if mode >= 10 then 4 else 3;
    IndexIsField(stream.block, IndexStart(mode), cells, t, indexBits);
    var index := stream.ReadBits(if IsAnchor(cells[t]) then indexBits - 1 else indexBits);
    var w := Weight(indexBits, index);
    assert w == WeightAt(stream.block, mode, t);
    SubsetIsCell(stream.block, mode, t);
    var k := cells[t] % 2 * 2;
    assert k == SlotOf(stream.block, mode, t, 0);
    assert 4 + k == SlotOf(stream.block, mode, t, 1) && 8 + k == SlotOf(stream.block, mode, t, 2);
    color := Color(Blend(endpoints[k], endpoints[k + 1], w, isSigned),
                   Blend(endpoints[4 + k], endpoints[5 + k], w, isSigned),
                   Blend(endpoints[8 + k], endpoints[9 + k], w, isSigned));
  }

  method BlendRow(stream: Stream, endpoints: array<int>, cells: seq<nat>, mode: nat, isSigned: bool, i: nat,
                  texels: array2<Color>)
    requires stream.Valid() && endpoints.Length == 12 && mode < 14 && i < 4
    requires texels.Length0 == 4 && texels.Length1 == 4
    requires forall slot: nat | InUse(mode, slot) :: endpoints[slot] == EndpointAt(stream.block, mode, isSigned, slot)
    requires cells == ShapeOf(stream.block, mode)
    requires stream.taken == IndexStart(mode) + IndexOffset(cells, 4 * i, IndexBits(mode))
    modifies stream, texels
    ensures stream.Valid()
    ensures stream.taken == IndexStart(mode) + IndexOffset(cells, 4 * i + 4, IndexBits(mode))
    ensures forall j | 0 <= j < 4 :: texels[i, j] == ColorOf(stream.block, mode, isSigned, 4 * i + j)
    ensures forall k, j | 0 <= k < 4 && 0 <= j < 4 && k != i :: texels[k, j] == old(texels[k, j])
  {
    hide EndpointAt, ShapeOf, IndexStart, IndexOffset, ColorOf;
    var j := 0;
    while j < 4
      invariant j <= 4 && stream.Valid()
      invariant stream.taken == IndexStart(mode) + IndexOffset(cells, 4 * i + j, IndexBits(mode))
      invariant forall l | 0 <= l < j :: texels[i, l] == ColorOf(stream.block, mode, isSigned, 4 * i + l)
      invariant forall k, l | 0 <= k < 4 && 0 <= l < 4 && k != i :: texels[k, l] == old(texels[k, l])
    {
      var color := BlendTexel(stream, endpoints, cells, mode, isSigned, 4 * i + j);
      texels[i, j] := color;
      j := j + 1;
    }
  }

  method BlendTexels(stream: Stream, endpoints: array<int>, cells: seq<nat>, mode: nat, isSigned: bool,
                     texels: array2<Color>)
    requires stream.Valid() && endpoints.Length == 12 && mode < 14
    requires texels.Length0 == 4 && texels.Length1 == 4
    requires forall slot: nat | InUse(mode, slot) :: endpoints[slot] == EndpointAt(stream.block, mode, isSigned, slot)
    requires cells == ShapeOf(stream.block, mode) && stream.taken == IndexStart(mode)
    modifies stream, texels
    ensures stream.Valid() && stream.taken == IndexStart(mode) + IndexOffset(cells, |cells|, IndexBits(mode))
    ensures forall i, j | 0 <= i < 4 && 0 <= j < 4 :: texels[i, j] == ColorOf(stream.block, mode, isSigned, 4 * i + j)
  {
    hide EndpointAt, ShapeOf, IndexStart, ColorOf;
    var i := 0;
    while i < 4
      invariant i <= 4 && stream.Valid()
      invariant stream.taken == IndexStart(mode) + IndexOffset(cells, 4 * i, IndexBits(mode))
      invariant forall k, j | 0 <= k < i && 0 <= j < 4 :: texels[k, j] == ColorOf(stream.block, mode, isSigned, 4 * k + j)
    {
      BlendRow(stream, endpoints, cells, mode, isSigned, i, texels);
      i := i + 1;
    }
  }

  // The whole block

  method ClearTexels(texels: array2<Color>)
    requires texels.Length0 == 4 && texels.Length1 == 4
    modifies texels
    ensures forall i, j | 0 <= i < 4 && 0 <= j < 4 :: texels[i, j] == Color(0, 0, 0)
  {
    var i := 0;
    while i < 4
      invariant i <= 4
      invariant forall k, j | 0 <= k < i && 0 <= j < 4 :: texels[k, j] == Color(0, 0, 0)
    {
      texels[i, 0], texels[i, 1], texels[i, 2], texels[i, 3] := Color(0, 0, 0), Color(0, 0, 0), Color(0, 0, 0), Color(0, 0, 0);
      i := i + 1;
    }
  }

  method DecodeEndpoints(stream: Stream, mode: nat, isSigned: bool) returns (endpoints: array<int>, partition: nat)
    requires stream.Valid() && mode < 14 && stream.taken == ModeBits(mode)
    modifies stream
    ensures stream.Valid() && stream.taken == IndexStart(mode) && partition == PartitionOf(stream.block, mode)
    ensures fresh(endpoints) && endpoints.Length == 12
    ensures forall slot: nat | InUse(mode, slot) :: endpoints[slot] == EndpointAt(stream.block, mode, isSigned, slot)
  {
    hide StoredAt, EndpointAt, ColorAt, ExtendedAt, InUse;
    endpoints := new int[12](_ => 0);
    ReadEndpoints(stream, endpoints, mode);
    partition := 0;
    if mode < 10 {
      partition := stream.ReadBits(5);
    }
    ExtendSigns(endpoints, mode, isSigned, stream.block);
    InvertTransform(endpoints, mode, isSigned, stream.block);
    UnquantizeEndpoints(endpoints, mode, isSigned, stream.block);
  }

  /** Decode a block: black if its mode is reserved; else the colors it stands for, using each of its bits. */
  method DecodeBlock(low: nat, high: nat, isSigned: bool, texels: array2<Color>) returns (ghost used: nat)
    requires low < WORD && high < WORD && texels.Length0 == 4 && texels.Length1 == 4
    modifies texels
    ensures var block := low + ShiftLeft(high, 64);
            var mode := ModeOf(block);
            && (mode < 14 ==> used == 128)
            && forall i, j | 0 <= i < 4 && 0 <= j < 4 ::
                 texels[i, j] == if mode < 14 then ColorOf(block, mode, isSigned, 4 * i + j) else Color(0, 0, 0)
  {
    hide ColorOf, EndpointAt, Bc6hShape, PartitionOf, IndexStart, ModeOf;
    var stream := new Stream(low, high);
    var mode := ReadMode(stream);
    if mode >= 14 {
      ClearTexels(texels);
    } else {
      var endpoints, partition := DecodeEndpoints(stream, mode, isSigned);
      var cells := Bc6hShape(NumSubsets(mode), partition);
      BlendTexels(stream, endpoints, cells, mode, isSigned, texels);
      ShapeIndexTotal(cells, NumSubsets(mode), IndexBits(mode));
      ModeFillsBlock(mode);
    }
    used := stream.taken;
  }
}
