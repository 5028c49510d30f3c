/** The BC7 block decoder, which reads the block from front to back: it uses up exactly the 128 bits and
    yields the texels the layout of the block stands for. */
module Bc7 {
  import opened Bits
  import opened BitStream
  import opened Partitions
  import opened BlockIndices
  import opened Bc7Format

  /** Skip zero bits up to the first one, or eight of them. */
  method ReadMode(stream: Stream) returns (mode: nat)
    requires stream.Valid() && stream.taken == 0
    modifies stream
    ensures stream.Valid() && mode == ModeOf(stream.block) <= 8
    ensures stream.taken == if mode < 8 then mode + 1 else 8
  {
    mode := 0;
    while mode < 8
      invariant mode <= 8 && stream.Valid() && stream.taken == mode
      invariant ModeFrom(stream.block, mode) == ModeOf(stream.block)
    {
      var bit := stream.ReadBit();
      assert bit == Bit(stream.block, mode);
      if bit != 0 {
        break;
      }
      mode := mode + 1;
    }
  }

  // Endpoints

  /** One channel of all endpoints. */
  ghost function Column(endpoints: array2<nat>, channel: nat): (column: seq<nat>)
    requires endpoints.Length0 == 6 && endpoints.Length1 == 4 && channel < 4
    reads endpoints
    ensures |column| == 6 && forall j | 0 <= j < 6 :: column[j] == endpoints[j, channel]
  {
    [endpoints[0, channel], endpoints[1, channel], endpoints[2, channel],
     endpoints[3, channel], endpoints[4, channel], endpoints[5, channel]]
  }

  /** The channel of the first n endpoints holds the fields from a place on. */
  ghost predicate FieldsFrom(column: seq<nat>, block: nat, start: nat, n: nat, bits: nat)
    requires |column| == 6 && n <= 6
  {
    forall j | 0 <= j < n :: column[j] == Field(block, start + Times(j, bits), bits)
  }

  /** Read one channel of every endpoint. */
  method ReadChannel(stream: Stream, endpoints: array2<nat>, numEndpoints: nat, channel: nat, bits: nat)
    requires stream.Valid() && endpoints.Length0 == 6 && endpoints.Length1 == 4
    requires numEndpoints <= 6 && channel < 4 && 1 <= bits <= 8
    modifies stream, endpoints
    ensures stream.Valid() && stream.taken == old(stream.taken) + Times(numEndpoints, bits)
    ensures FieldsFrom(Column(endpoints, channel), stream.block, old(stream.taken), numEndpoints, bits)
    ensures forall c: nat | c < 4 && c != channel :: Column(endpoints, c) == old(Column(endpoints, c))
  {
    var j := 0;
    while j < numEndpoints
      invariant j <= numEndpoints && stream.Valid()
      invariant stream.taken == old(stream.taken) + Times(j, bits)
      invariant forall k | 0 <= k < j ::
                  endpoints[k, channel] == Field(stream.block, old(stream.taken) + Times(k, bits), bits)
      invariant forall k, i | 0 <= k < 6 && 0 <= i < 4 && i != channel :: endpoints[k, i] == old(endpoints[k, i])
    {
      var value := stream.ReadBits(bits);
      endpoints[j, channel] := value;
      j := j + 1;
    }
  }

  /** The endpoints hold what the block stores. */
  ghost predicate Stored(endpoints: array2<nat>, block: nat, mode: nat)
    requires endpoints.Length0 == 6 && endpoints.Length1 == 4 && mode < 8
    reads endpoints
  {
    forall j, c | 0 <= j < NumEndpoints(mode) && 0 <= c < 4 && (c < 3 || AlphaBits(mode) > 0) ::
      endpoints[j, c] == StoredChannel(block, mode, j, c)
  }

  method ReadEndpoints(stream: Stream, endpoints: array2<nat>, mode: nat)
    requires stream.Valid() && endpoints.Length0 == 6 && endpoints.Length1 == 4 && mode < 8
    requires stream.taken == ColorStart(mode)
    modifies stream, endpoints
    ensures stream.Valid() && stream.taken == PBitStart(mode)
    ensures Stored(endpoints, stream.block, mode)
  {
    hide Field, StoredChannel, NumPartitions, PartitionBits, RotationBits, ColorBits, AlphaBits, Times;
    ModeBounds(mode);
    ColorsStored(stream.block, mode);
    ReadColors(stream, endpoints, NumEndpoints(mode), ColorBits(mode));
    if AlphaBits(mode) > 0 {
      AlphasStored(stream.block, mode);
      ReadChannel(stream, endpoints, NumEndpoints(mode), 3, AlphaBits(mode));
    } else {
      TimesIsProduct(NumEndpoints(mode), 0);
    }
  }

  /** All reds, all greens, all blues. */
  method ReadColors(stream: Stream, endpoints: array2<nat>, n: nat, bits: nat)
    requires stream.Valid() && endpoints.Length0 == 6 && endpoints.Length1 == 4 && n <= 6 && 1 <= bits <= 8
    modifies stream, endpoints
    ensures stream.Valid() && stream.taken == old(stream.taken) + Times(3, Times(n, bits))
    ensures forall c: nat | c < 3 ::
              FieldsFrom(Column(endpoints, c), stream.block, old(stream.taken) + Times(c, Times(n, bits)), n, bits)
  {
    hide Field, FieldsFrom, Column, Times;
    ghost var start, size := stream.taken, Times(n, bits);
    var i := 0;
    TimesNext(0, size);
    while i < 3
      invariant i <= 3 && stream.Valid()
      invariant stream.taken == start + Times(i, size)
      invariant forall c: nat | c < i :: FieldsFrom(Column(endpoints, c), stream.block, start + Times(c, size), n, bits)
    {
      ReadChannel(stream, endpoints, n, i, bits);
      TimesNext(i, size);
      i := i + 1;
    }
  }

  lemma TimesNext(n: nat, k: nat)
    ensures Times(0, k) == 0 && Times(n + 1, k) == Times(n, k) + k
  {
  }

  lemma ModeBounds(mode: nat)
    requires mode < 8
    ensures 2 <= NumEndpoints(mode) <= 6 && 4 <= ColorBits(mode) <= 8 && AlphaBits(mode) <= 8
  {
  }

  lemma ColorsStored(block: nat, mode: nat)
    requires mode < 8
    ensures forall j: nat, c: nat | c < 3 :: StoredChannel(block, mode, j, c)
              == Field(block, ColorStart(mode) + Times(c, Times(NumEndpoints(mode), ColorBits(mode)))
                              + Times(j, ColorBits(mode)), ColorBits(mode))
  {
  }

  lemma AlphasStored(block: nat, mode: nat)
    requires mode < 8
    ensures forall j: nat :: StoredChannel(block, mode, j, 3)
              == Field(block, AlphaStart(mode) + Times(j, AlphaBits(mode)), AlphaBits(mode))
  {
  }

  method ShiftEndpoints(endpoints: array2<nat>, n: nat)
    requires endpoints.Length0 == 6 && endpoints.Length1 == 4 && n <= 6
    modifies endpoints
    ensures forall j, i | 0 <= j < n && 0 <= i < 4 :: endpoints[j, i] == 2 * old(endpoints[j, i])
  {
    var i := 0;
    while i < n
      invariant i <= n
      invariant forall j, c | 0 <= j < i && 0 <= c < 4 :: endpoints[j, c] == 2 * old(endpoints[j, c])
      invariant forall j, c | i <= j < n && 0 <= c < 4 :: endpoints[j, c] == old(endpoints[j, c])
    {
      var j := 0;
      while j < 4
        invariant j <= 4
        invariant forall k, c | 0 <= k < n && 0 <= c < 4 ::
                    endpoints[k, c] == (if k < i || (k == i && c < j) then 2 * old(endpoints[k, c]) else old(endpoints[k, c]))
      {
        ShiftLeftIsProduct(endpoints[i, j], 1);
        assert Pow2(1) == 2;
        endpoints[i, j] := ShiftLeft(endpoints[i, j], 1);
        j := j + 1;
      }
      i := i + 1;
    }
  }

  /** Put a bit below the first channels of one endpoint, which must be even. */
  method OrEndpoint(endpoints: array2<nat>, i: nat, channels: nat, bit: nat)
    requires endpoints.Length0 == 6 && endpoints.Length1 == 4 && i < 6 && channels <= 4 && bit < 2
    requires forall c | 0 <= c < channels :: endpoints[i, c] % 2 == 0
    modifies endpoints
    ensures forall j, c | 0 <= j < 6 && 0 <= c < 4 ::
              endpoints[j, c] == old(endpoints[j, c]) + (if j == i && c < channels then bit else 0)
  {
    var k := 0;
    while k < channels
      invariant k <= channels
      invariant forall j, c | 0 <= j < 6 && 0 <= c < 4 ::
                  endpoints[j, c] == old(endpoints[j, c]) + (if j == i && c < k then bit else 0)
    {
      OrLowBit(endpoints[i, k], bit);
      endpoints[i, k] := Or(endpoints[i, k], bit);
      k := k + 1;
    }
  }

  lemma OrLowBit(x: nat, bit: nat)
    requires x % 2 == 0 && bit < 2
    ensures Or(x, bit) == x + bit
  {
  }

  /** Shift every channel up and put the endpoint's p-bit below it. */
  method InsertPBits(stream: Stream, endpoints: array2<nat>, mode: nat)
    requires stream.Valid() && endpoints.Length0 == 6 && endpoints.Length1 == 4 && mode < 8 && PBits(mode) == 1
    requires stream.taken == PBitStart(mode)
    modifies stream, endpoints
    ensures stream.Valid() && stream.taken == IndexStart(mode)
    ensures forall j, c | 0 <= j < NumEndpoints(mode) && 0 <= c < 4 && (c < 3 || mode != 1) ::
              endpoints[j, c] == 2 * old(endpoints[j, c]) + PBitOf(stream.block, mode, j)
  {
    var n := NumEndpoints(mode);
    ShiftEndpoints(endpoints, n);
    if mode == 1 {
      InsertSharedPBits(stream, endpoints);
    } else {
      InsertUniquePBits(stream, endpoints, mode, n);
    }
  }

  /** Mode 1: one bit for the two endpoints of each subset, in the colors only. */
  method InsertSharedPBits(stream: Stream, endpoints: array2<nat>)
    requires stream.Valid() && endpoints.Length0 == 6 && endpoints.Length1 == 4
    requires stream.taken == PBitStart(1)
    requires forall j, c | 0 <= j < 4 && 0 <= c < 3 :: endpoints[j, c] % 2 == 0
    modifies stream, endpoints
    ensures stream.Valid() && stream.taken == IndexStart(1)
    ensures forall j, c | 0 <= j < 4 && 0 <= c < 3 ::
              endpoints[j, c] == old(endpoints[j, c]) + PBitOf(stream.block, 1, j)
  {
    var i := stream.ReadBit();
    var j := stream.ReadBit();
    OrEndpoint(endpoints, 0, 3, i);
    OrEndpoint(endpoints, 1, 3, i);
    OrEndpoint(endpoints, 2, 3, j);
    OrEndpoint(endpoints, 3, 3, j);
  }

  /** The other modes: one bit for each endpoint. */
  method InsertUniquePBits(stream: Stream, endpoints: array2<nat>, mode: nat, n: nat)
    requires stream.Valid() && endpoints.Length0 == 6 && endpoints.Length1 == 4 && n <= 6
    requires mode < 8 && mode != 1 && stream.taken == PBitStart(mode)
    requires forall j, c | 0 <= j < n && 0 <= c < 4 :: endpoints[j, c] % 2 == 0
    modifies stream, endpoints
    ensures stream.Valid() && stream.taken == PBitStart(mode) + n
    ensures forall j, c | 0 <= j < n && 0 <= c < 4 ::
              endpoints[j, c] == old(endpoints[j, c]) + PBitOf(stream.block, mode, j)
  {
    var i := 0;
    while i < n
      invariant i <= n && stream.Valid() && stream.taken == PBitStart(mode) + i
      invariant forall k, c | 0 <= k < i && 0 <= c < 4 ::
                  endpoints[k, c] == old(endpoints[k, c]) + PBitOf(stream.block, mode, k)
      invariant forall k, c | i <= k < n && 0 <= c < 4 :: endpoints[k, c] == old(endpoints[k, c])
    {
      var j := stream.ReadBit();
      assert j == PBitOf(stream.block, mode, i);
      OrEndpoint(endpoints, i, 4, j);
      i := i + 1;
    }
  }

  method ExpandEndpoints(endpoints: array2<nat>, mode: nat)
    requires endpoints.Length0 == 6 && endpoints.Length1 == 4 && mode < 8
    modifies endpoints
    ensures forall j, c | 0 <= j < NumEndpoints(mode) && 0 <= c < 4 ::
              endpoints[j, c] == if c == 3 && AlphaBits(mode) == 0 then 255
                                 else Expand(old(endpoints[j, c]), ChannelBits(mode, c) + PBits(mode))
  {
    var n := NumEndpoints(mode);
    var i := 0;
    while i < n
      invariant i <= n
      invariant forall j, c | 0 <= j < i && 0 <= c < 4 ::
                  endpoints[j, c] == Expand(old(endpoints[j, c]), ChannelBits(mode, c) + PBits(mode))
      invariant forall j, c | i <= j < n && 0 <= c < 4 :: endpoints[j, c] == old(endpoints[j, c])
    {
      ExpandEndpoint(endpoints, i, ColorBits(mode) + PBits(mode), AlphaBits(mode) + PBits(mode));
      i := i + 1;
    }
    if AlphaBits(mode) == 0 {
      var j := 0;
      while j < n
        invariant j <= n
        invariant forall k, c | 0 <= k < n && 0 <= c < 3 ::
                    endpoints[k, c] == Expand(old(endpoints[k, c]), ChannelBits(mode, c) + PBits(mode))
        invariant forall k | 0 <= k < j :: endpoints[k, 3] == 255
      {
        endpoints[j, 3] := 0xFF;
        j := j + 1;
      }
    }
  }

  /** Expand the channels of one endpoint. */
  method ExpandEndpoint(endpoints: array2<nat>, i: nat, colorBits: nat, alphaBits: nat)
    requires endpoints.Length0 == 6 && endpoints.Length1 == 4 && i < 6 && colorBits <= 8 && alphaBits <= 8
    modifies endpoints
    ensures forall j, c | 0 <= j < 6 && 0 <= c < 4 ::
              endpoints[j, c] == if j == i then Expand(old(endpoints[j, c]), if c < 3 then colorBits else alphaBits)
                                 else old(endpoints[j, c])
  {
    var k := 0;
    while k < 3
      invariant k <= 3
      invariant forall j, c | 0 <= j < 6 && 0 <= c < 4 ::
                  endpoints[j, c] == if j == i && c < k then Expand(old(endpoints[j, c]), colorBits) else old(endpoints[j, c])
    {
      endpoints[i, k] := ShiftLeft(endpoints[i, k], 8 - colorBits);
      endpoints[i, k] := Or(endpoints[i, k], ShiftRight(endpoints[i, k], colorBits));
      k := k + 1;
    }
    endpoints[i, 3] := ShiftLeft(endpoints[i, 3], 8 - alphaBits);
    endpoints[i, 3] := Or(endpoints[i, 3], ShiftRight(endpoints[i, 3], alphaBits));
  }

  /** The endpoints hold what the block stands for. */
  ghost predicate Decoded(endpoints: array2<nat>, block: nat, mode: nat)
    requires endpoints.Length0 == 6 && endpoints.Length1 == 4 && mode < 8
    reads endpoints
  {
    forall j, c | 0 <= j < NumEndpoints(mode) && 0 <= c < 4 :: endpoints[j, c] == EndpointAt(block, mode, j, c)
  }

  method DecodeEndpoints(stream: Stream, mode: nat) returns (endpoints: array2<nat>)
    requires stream.Valid() && mode < 8 && stream.taken == ColorStart(mode)
    modifies stream
    ensures stream.Valid() && stream.taken == IndexStart(mode)
    ensures fresh(endpoints) && endpoints.Length0 == 6 && endpoints.Length1 == 4
    ensures Decoded(endpoints, stream.block, mode)
  {
    hide Field, Expand, ColorBits, PBitOf, StoredChannel, PBitStart;
    endpoints := new nat[6, 4];
    ReadEndpoints(stream, endpoints, mode);
    if PBits(mode) == 1 {
      InsertPBits(stream, endpoints, mode);
    }
    ExpandEndpoints(endpoints, mode);
  }

  // Indices and texels

  method ReadIndexRow(stream: Stream, indices: array2<nat>, cells: seq<nat>, i: nat, indexBits: nat, ghost start: nat)
    requires stream.Valid() && indices.Length0 == 4 && indices.Length1 == 4
    requires |cells| == 16 && 2 <= indexBits <= 4 && i < 4
    requires stream.taken == start + IndexOffset(cells, 4 * i, indexBits)
    modifies stream, indices
    ensures stream.Valid() && stream.taken == start + IndexOffset(cells, 4 * i + 4, indexBits)
    ensures forall j | 0 <= j < 4 :: indices[i, j] == IndexAt(stream.block, start, cells, 4 * i + j, indexBits)
    ensures forall k, j | 0 <= k < 4 && 0 <= j < 4 && k != i :: indices[k, j] == old(indices[k, j])
  {
    hide Field, IndexAt, IndexOffset, IndexWidth, IsAnchor;
    var j := 0;
    while j < 4
      invariant j <= 4 && stream.Valid()
      invariant stream.taken == start + IndexOffset(cells, 4 * i + j, indexBits)
      invariant forall k | 0 <= k < j :: indices[i, k] == IndexAt(stream.block, start, cells, 4 * i + k, indexBits)
      invariant forall k, l | 0 <= k < 4 && 0 <= l < 4 && k != i :: indices[k, l] == old(indices[k, l])
    {
      IndexIsField(stream.block, start, cells, 4 * i + j, indexBits);
      var width := if IsAnchor(cells[4 * i + j]) then indexBits - 1 else indexBits;
      var index := stream.ReadBits(width);
      indices[i, j] := index;
      j := j + 1;
    }
  }

  /** The first pass: an index for every texel. */
  method ReadIndices(stream: Stream, indices: array2<nat>, cells: seq<nat>, indexBits: nat, ghost start: nat)
    requires stream.Valid() && indices.Length0 == 4 && indices.Length1 == 4
    requires |cells| == 16 && 2 <= indexBits <= 4 && stream.taken == start
    modifies stream, indices
    ensures stream.Valid() && stream.taken == start + IndexOffset(cells, |cells|, indexBits)
    ensures forall i, j | 0 <= i < 4 && 0 <= j < 4 ::
              indices[i, j] == IndexAt(stream.block, start, cells, 4 * i + j, indexBits)
  {
    var i := 0;
    while i < 4
      invariant i <= 4 && stream.Valid()
      invariant stream.taken == start + IndexOffset(cells, 4 * i, indexBits)
      invariant forall k, j | 0 <= k < i && 0 <= j < 4 ::
                  indices[k, j] == IndexAt(stream.block, start, cells, 4 * k + j, indexBits)
    {
      ReadIndexRow(stream, indices, cells, i, indexBits, start);
      i := i + 1;
    }
  }

  function LoadEndpoint(endpoints: array2<nat>, k: nat): Texel
    requires endpoints.Length0 == 6 && endpoints.Length1 == 4 && k < 6
    reads endpoints
  {
    Texel(endpoints[k, 0], endpoints[k, 1], endpoints[k, 2], endpoints[k, 3])
  }

  lemma LoadDecoded(endpoints: array2<nat>, block: nat, mode: nat, k: nat)
    requires endpoints.Length0 == 6 && endpoints.Length1 == 4 && mode < 8 && k < NumEndpoints(mode)
    requires Decoded(endpoints, block, mode)
    ensures LoadEndpoint(endpoints, k) == EndpointTexel(block, mode, k)
  {
  }

  /** Blend, reading the second index first where there is one, and exchange the channels. */
  method BlendTexel(stream: Stream, lo: Texel, hi: Texel, index: nat, first: bool,
                    mode: nat, rotation: nat, indexSelectionBit: nat, ghost t: nat)
    returns (texel: Texel)
    requires stream.Valid() && mode < 8 && t < 16 && first == (t == 0)
    requires IndexBits2(mode) > 0 ==> stream.taken == Index2Start(mode) + Index2Offset(mode, t)
    requires index == IndexAt(stream.block, IndexStart(mode), ShapeOf(stream.block, mode), t, IndexBits(mode))
    requires rotation == RotationOf(stream.block, mode) && indexSelectionBit == IndexSelectionBitOf(stream.block, mode)
    requires lo == EndpointTexel(stream.block, mode, 2 * SubsetAt(stream.block, mode, t))
    requires hi == EndpointTexel(stream.block, mode, 2 * SubsetAt(stream.block, mode, t) + 1)
    modifies stream
    ensures stream.Valid() && texel == TexelAt(stream.block, mode, t)
    ensures stream.taken == old(stream.taken) + if IndexBits2(mode) == 0 then 0 else Index2Width(mode, t)
  {
    hide IndexAt, ShapeOf, RotationOf, IndexSelectionBitOf, EndpointTexel, SubsetAt, Index2Start, IndexStart;
    hide Weight, Mix, Rotate;
    var w := Weight(IndexBits(mode), index);
    var w2 := w;
    if IndexBits2(mode) != 0 {
      var index2 := stream.ReadBits(if first then IndexBits2(mode) - 1 else IndexBits2(mode));
      assert index2 == Index2At(stream.block, mode, t);
      w2 := Weight(IndexBits2(mode), index2);
    }
    if indexSelectionBit == 0 {
      texel := Mix(lo, hi, w, w2);
    } else {
      texel := Mix(lo, hi, w2, w);
    }
    texel := Rotate(rotation, texel);
  }

  function SecondTaken(mode: nat, t: nat): nat {
    if IndexBits2(mode) == 0 then 0 else Index2Offset(mode, t)
  }

  method BlendRow(stream: Stream, endpoints: array2<nat>, indices: array2<nat>, cells: seq<nat>,
                  mode: nat, rotation: nat, indexSelectionBit: nat, i: nat, texels: array2<Texel>)
    requires stream.Valid() && mode < 8 && i < 4
    requires endpoints.Length0 == 6 && endpoints.Length1 == 4 && Decoded(endpoints, stream.block, mode)
    requires indices.Length0 == 4 && indices.Length1 == 4 && texels.Length0 == 4 && texels.Length1 == 4
    requires cells == ShapeOf(stream.block, mode)
    requires forall k, j | 0 <= k < 4 && 0 <= j < 4 ::
               indices[k, j] == IndexAt(stream.block, IndexStart(mode), cells, 4 * k + j, IndexBits(mode))
    requires rotation == RotationOf(stream.block, mode) && indexSelectionBit == IndexSelectionBitOf(stream.block, mode)
    requires stream.taken == Index2Start(mode) + SecondTaken(mode, 4 * i)
    modifies stream, texels
    ensures stream.Valid() && stream.taken == Index2Start(mode) + SecondTaken(mode, 4 * i + 4)
    ensures forall j | 0 <= j < 4 :: texels[i, j] == TexelAt(stream.block, mode, 4 * i + j)
    ensures forall k, j | 0 <= k < 4 && 0 <= j < 4 && k != i :: texels[k, j] == old(texels[k, j])
  {
    hide TexelAt, IndexAt, ShapeOf, RotationOf, IndexSelectionBitOf, Decoded, EndpointAt, EndpointTexel, Index2Start;
    hide SubsetAt, SubsetOf;
    var j := 0;
    while j < 4
      invariant j <= 4 && stream.Valid()
      invariant stream.taken == Index2Start(mode) + SecondTaken(mode, 4 * i + j)
      invariant forall l | 0 <= l < j :: texels[i, l] == TexelAt(stream.block, mode, 4 * i + l)
      invariant forall k, l | 0 <= k < 4 && 0 <= l < 4 && k != i :: texels[k, l] == old(texels[k, l])
    {
      ghost var t := 4 * i + j;
      SubsetIsCell(stream.block, mode, t);
      var partitionSet := SubsetOf(cells[4 * i + j]);
      LoadDecoded(endpoints, stream.block, mode, 2 * partitionSet);
      LoadDecoded(endpoints, stream.block, mode, 2 * partitionSet + 1);
      var lo, hi := LoadEndpoint(endpoints, 2 * partitionSet), LoadEndpoint(endpoints, 2 * partitionSet + 1);
      var texel := BlendTexel(stream, lo, hi, indices[i, j], i == 0 && j == 0, mode, rotation, indexSelectionBit, t);
      texels[i, j] := texel;
      j := j + 1;
    }
  }

  /** The second pass: every texel. */
  method BlendTexels(stream: Stream, endpoints: array2<nat>, indices: array2<nat>, cells: seq<nat>,
                     mode: nat, rotation: nat, indexSelectionBit: nat, texels: array2<Texel>)
    requires stream.Valid() && mode < 8
    requires endpoints.Length0 == 6 && endpoints.Length1 == 4 && Decoded(endpoints, stream.block, mode)
    requires indices.Length0 == 4 && indices.Length1 == 4 && texels.Length0 == 4 && texels.Length1 == 4
    requires cells == ShapeOf(stream.block, mode)
    requires forall k, j | 0 <= k < 4 && 0 <= j < 4 ::
               indices[k, j] == IndexAt(stream.block, IndexStart(mode), cells, 4 * k + j, IndexBits(mode))
    requires rotation == RotationOf(stream.block, mode) && indexSelectionBit == IndexSelectionBitOf(stream.block, mode)
    requires stream.taken == Index2Start(mode)
    modifies stream, texels
    ensures stream.Valid() && stream.taken == Index2Start(mode) + SecondTaken(mode, 16)
    ensures forall i, j | 0 <= i < 4 && 0 <= j < 4 :: texels[i, j] == TexelAt(stream.block, mode, 4 * i + j)
  {
    hide TexelAt, ShapeOf, IndexAt, RotationOf, IndexSelectionBitOf, Decoded, Index2Start;
    var i := 0;
    while i < 4
      invariant i <= 4 && stream.Valid()
      invariant stream.taken == Index2Start(mode) + SecondTaken(mode, 4 * i)
      invariant forall k, j | 0 <= k < i && 0 <= j < 4 :: texels[k, j] == TexelAt(stream.block, mode, 4 * k + j)
    {
      BlendRow(stream, endpoints, indices, cells, mode, rotation, indexSelectionBit, i, texels);
      i := i + 1;
    }
  }

  // The whole block

  /** The partition number, rotation and index selection bit, where the mode has them. */
  method ReadChoices(stream: Stream, mode: nat) returns (partition: nat, rotation: nat, indexSelectionBit: nat)
    requires stream.Valid() && mode < 8 && stream.taken == mode + 1
    modifies stream
    ensures stream.Valid() && stream.taken == ColorStart(mode)
    ensures partition == PartitionOf(stream.block, mode) && rotation == RotationOf(stream.block, mode)
    ensures indexSelectionBit == IndexSelectionBitOf(stream.block, mode)
  {
    partition, rotation, indexSelectionBit := 0, 0, 0;
    if NumPartitions(mode) > 1 {
      partition := stream.ReadBits(if mode == 0 then 4 else 6);
    }
    if mode == 4 || mode == 5 {
      rotation := stream.ReadBits(2);
      if mode == 4 {
        indexSelectionBit := stream.ReadBit();
      }
    }
  }

  method ClearTexels(texels: array2<Texel>)
    requires texels.Length0 == 4 && texels.Length1 == 4
    modifies texels
    ensures forall i, j | 0 <= i < 4 && 0 <= j < 4 :: texels[i, j] == Texel(0, 0, 0, 0)
  {
    var i := 0;
    while i < 4
      invariant i <= 4
      invariant forall k, j | 0 <= k < i && 0 <= j < 4 :: texels[k, j] == Texel(0, 0, 0, 0)
    {
      texels[i, 0], texels[i, 1] := Texel(0, 0, 0, 0), Texel(0, 0, 0, 0);
      texels[i, 2], texels[i, 3] := Texel(0, 0, 0, 0), Texel(0, 0, 0, 0);
      i := i + 1;
    }
  }

  /** Every channel is blended from the one the rotation exchanges it with. */
  ghost predicate ChannelsInPlace(texels: array2<Texel>, block: nat, mode: nat)
    requires texels.Length0 == 4 && texels.Length1 == 4 && mode < 8
    reads texels
  {
    forall i, j, c | 0 <= i < 4 && 0 <= j < 4 && 0 <= c < 4 ::
      texels[i, j].Channel(c) == BlendedChannel(block, mode, 4 * i + j, SourceChannel(RotationOf(block, mode), c))
  }

  lemma TexelsByChannel(texels: array2<Texel>, block: nat, mode: nat)
    requires texels.Length0 == 4 && texels.Length1 == 4 && mode < 8
    requires forall i, j | 0 <= i < 4 && 0 <= j < 4 :: texels[i, j] == TexelAt(block, mode, 4 * i + j)
    ensures ChannelsInPlace(texels, block, mode)
  {
    hide TexelAt, BlendedChannel, SourceChannel, RotationOf;
    forall i, j, c | 0 <= i < 4 && 0 <= j < 4 && 0 <= c < 4
      ensures texels[i, j].Channel(c) == BlendedChannel(block, mode, 4 * i + j, SourceChannel(RotationOf(block, mode), c))
    {
      TexelByChannel(block, mode, 4 * i + j, c);
    }
  }

  /** Decode a block: transparent black if its low eight bits are zero; else the texels it stands for,
      using each of its bits. */
  method DecodeBlock(low: nat, high: nat, texels: array2<Texel>) returns (ghost used: nat)
    requires low < WORD && high < WORD && texels.Length0 == 4 && texels.Length1 == 4
    modifies texels
    ensures var block := low + ShiftLeft(high, 64);
            var mode := ModeOf(block);
            && used == (if mode < 8 then 128 else 8)
            && forall i, j | 0 <= i < 4 && 0 <= j < 4 ::
                 texels[i, j] == if mode < 8 then TexelAt(block, mode, 4 * i + j) else Texel(0, 0, 0, 0)
    ensures var block := low + ShiftLeft(high, 64);
            var mode := ModeOf(block);
            mode < 8 ==> ChannelsInPlace(texels, block, mode)
  {
    hide TexelAt, EndpointAt, Decoded, IndexAt, Bc7Shape, PartitionOf, RotationOf, IndexSelectionBitOf;
    hide IndexStart, ColorStart, ChannelsInPlace;
    var stream := new Stream(low, high);
    var mode := ReadMode(stream);
    if mode >= 8 {
      ClearTexels(texels);
    } else {
      var partition, rotation, indexSelectionBit := ReadChoices(stream, mode);
      var endpoints := DecodeEndpoints(stream, mode);
      var cells := Bc7Shape(NumPartitions(mode), partition);
      var indices := new nat[4, 4];
      ReadIndices(stream, indices, cells, IndexBits(mode), IndexStart(mode));
      ShapeIndexTotal(cells, NumPartitions(mode), IndexBits(mode));
      BlendTexels(stream, endpoints, indices, cells, mode, rotation, indexSelectionBit, texels);
      ModeFillsBlock(mode);
      TexelsByChannel(texels, stream.block, mode);
    }
    used := stream.taken;
  }
}
