/** The layout of a BC7 block: where each part of the 128 bits is in each of the eight modes, and what
    the block stands for, read part by part at its place instead of from front to back. */
module Bc7Format {
  import opened Bits
  import opened Partitions
  import opened PartitionMasks
  import opened BlockIndices

  datatype Texel = Texel(r: nat, g: nat, b: nat, a: nat) {
    function Channel(c: nat): nat {
      if c == 0 then r else if c == 1 then g else if c == 2 then b else a
    }
  }

  // What a mode means

  function ColorBits(mode: nat): nat
    requires mode < 8
  {
    [4, 6, 5, 7, 5, 7, 7, 5][mode]
  }

  function AlphaBits(mode: nat): nat
    requires mode < 8
  {
    [0, 0, 0, 0, 6, 8, 7, 5][mode]
  }

  /** The set bits of 0b11001011. */
  function PBits(mode: nat): nat {
    if mode == 0 || mode == 1 || mode == 3 || mode == 6 || mode == 7 then 1 else 0
  }

  function NumPartitions(mode: nat): nat {
    if mode == 0 || mode == 2 then 3 else if mode == 1 || mode == 3 || mode == 7 then 2 else 1
  }

  function NumEndpoints(mode: nat): nat {
    2 * NumPartitions(mode)
  }

  function PartitionBits(mode: nat): nat {
    if mode == 0 then 4 else if NumPartitions(mode) > 1 then 6 else 0
  }

  /** Two bits choose the channel exchanged with alpha; mode 4 has one more, which chooses its index. */
  function RotationBits(mode: nat): nat {
    if mode == 4 then 3 else if mode == 5 then 2 else 0
  }

  function IndexBits(mode: nat): nat {
    if mode == 0 || mode == 1 then 3 else if mode == 6 then 4 else 2
  }

  function IndexBits2(mode: nat): nat {
    if mode == 4 then 3 else if mode == 5 then 2 else 0
  }

  function PBitReads(mode: nat): nat {
    if mode == 1 then 2 else if PBits(mode) == 1 then NumEndpoints(mode) else 0
  }

  // Where the parts are

  function ColorStart(mode: nat): nat {
    mode + 1 + PartitionBits(mode) + RotationBits(mode)
  }

  function AlphaStart(mode: nat): nat
    requires mode < 8
  {
    ColorStart(mode) + Times(3, Times(NumEndpoints(mode), ColorBits(mode)))
  }

  function PBitStart(mode: nat): nat
    requires mode < 8
  {
    AlphaStart(mode) + Times(NumEndpoints(mode), AlphaBits(mode))
  }

  function IndexStart(mode: nat): nat
    requires mode < 8
  {
    PBitStart(mode) + PBitReads(mode)
  }

  function Index2Start(mode: nat): nat
    requires mode < 8
  {
    IndexStart(mode) + 16 * IndexBits(mode) - NumPartitions(mode)
  }

  /** The first texel's second index is a bit shorter. */
  function Index2Width(mode: nat, t: nat): nat
    requires IndexBits2(mode) > 0
  {
    if t == 0 then IndexBits2(mode) - 1 else IndexBits2(mode)
  }

  function Index2Offset(mode: nat, t: nat): nat
    requires IndexBits2(mode) > 0
  {
    if t == 0 then 0 else Times(t, IndexBits2(mode)) - 1
  }

  function Index2Total(mode: nat): nat {
    if IndexBits2(mode) > 0 then Index2Offset(mode, 16) else 0
  }

  /** In every mode the parts add up to the whole block. */
  lemma ModeFillsBlock(mode: nat)
    requires mode < 8
    ensures Index2Start(mode) + Index2Total(mode) == 128
  {
    var n, cb, ab := NumEndpoints(mode), ColorBits(mode), AlphaBits(mode);
    TimesIsProduct(3, Times(n, cb));
    TimesIsProduct(16, IndexBits2(mode));
    match mode
    case 0 => Products(6, 4, 0);
    case 1 => Products(4, 6, 0);
    case 2 => Products(6, 5, 0);
    case 3 => Products(4, 7, 0);
    case 4 => Products(2, 5, 6);
    case 5 => Products(2, 7, 8);
    case 6 => Products(2, 7, 7);
    case _ => Products(4, 5, 5);
  }

  lemma Products(n: nat, cb: nat, ab: nat)
    ensures Times(n, cb) == n * cb && Times(n, ab) == n * ab
  {
  }

  // What the parts say

  /** The number of zero bits before the first one, at most eight. */
  function ModeFrom(block: nat, k: nat): nat
    requires k <= 8
    decreases 8 - k
  {
    if k == 8 || Bit(block, k) == 1 then k else ModeFrom(block, k + 1)
  }

  function ModeOf(block: nat): nat {
    ModeFrom(block, 0)
  }

  /** The mode is the only number that zero bits come before and a one follows. */
  lemma ModeIsLeadingZeros(block: nat, mode: nat)
    requires mode <= 8
    ensures ModeOf(block) == mode
            <==> (forall k: nat | k < mode :: Bit(block, k) == 0) && (mode < 8 ==> Bit(block, mode) == 1)
  {
  }

  function PartitionOf(block: nat, mode: nat): (partition: nat)
    ensures partition < 64
  {
    var start, n := mode + 1, PartitionBits(mode);
    LowBitsBound(ShiftRight(block, start), n);
    assert Pow2(4) == 16 && Pow2(6) == 64;
    if n == 0 then 0 else Field(block, start, n)
  }

  function ShapeOf(block: nat, mode: nat): (cells: seq<nat>)
    ensures ShapeOk(cells, NumPartitions(mode))
  {
    Bc7Shape(NumPartitions(mode), PartitionOf(block, mode))
  }

  function RotationOf(block: nat, mode: nat): nat {
    if RotationBits(mode) > 0 then Field(block, mode + 1, 2) else 0
  }

  function IndexSelectionBitOf(block: nat, mode: nat): nat {
    if mode == 4 then Field(block, mode + 3, 1) else 0
  }

  /** Endpoint j's channel c as stored: all endpoints' reds, then greens, then blues, then alphas. */
  function StoredChannel(block: nat, mode: nat, j: nat, c: nat): nat
    requires mode < 8
  {
    if c < 3 then
      Field(block, ColorStart(mode) + Times(c, Times(NumEndpoints(mode), ColorBits(mode)))
                   + Times(j, ColorBits(mode)), ColorBits(mode))
    else
      Field(block, AlphaStart(mode) + Times(j, AlphaBits(mode)), AlphaBits(mode))
  }

  /** Mode 1 has a bit for both endpoints of a subset, the others one for each endpoint. */
  function PBitOf(block: nat, mode: nat, j: nat): (bit: nat)
    requires mode < 8
    ensures bit < 2
  {
    var place := PBitStart(mode) + (if mode == 1 then j / 2 else j);
    LowBitsBound(ShiftRight(block, place), 1);
    assert Pow2(1) == 2;
    Field(block, place, 1)
  }

  /** Move j bits to the top of a byte and repeat the highest of them below. */
  function Expand(x: nat, j: nat): nat
    requires j <= 8
  {
    Or(ShiftLeft(x, 8 - j), ShiftRight(ShiftLeft(x, 8 - j), j))
  }

  function ChannelBits(mode: nat, c: nat): (bits: nat)
    requires mode < 8
    ensures c < 3 || AlphaBits(mode) > 0 ==> 4 <= bits + PBits(mode) <= 8
    ensures bits + PBits(mode) <= 8
  {
    if c < 3 then ColorBits(mode) else AlphaBits(mode)
  }

  /** Endpoint j's channel c, with its p-bit below and expanded to a byte; opaque where there is no alpha. */
  function EndpointAt(block: nat, mode: nat, j: nat, c: nat): nat
    requires mode < 8
  {
    if c >= 3 && AlphaBits(mode) == 0 then 255
    else if PBits(mode) == 1 then
      Expand(2 * StoredChannel(block, mode, j, c) + PBitOf(block, mode, j), ChannelBits(mode, c) + 1)
    else
      Expand(StoredChannel(block, mode, j, c), ChannelBits(mode, c))
  }

  function EndpointTexel(block: nat, mode: nat, j: nat): Texel
    requires mode < 8
  {
    Texel(EndpointAt(block, mode, j, 0), EndpointAt(block, mode, j, 1),
          EndpointAt(block, mode, j, 2), EndpointAt(block, mode, j, 3))
  }

  // Expansion

  /** Expansion is a sum: the two parts have no bit in common. */
  lemma ExpandIsSum(x: nat, j: nat)
    requires 4 <= j <= 8 && x < Pow2(j)
    ensures ShiftRight(ShiftLeft(x, 8 - j), j) < Pow2(8 - j)
    ensures Expand(x, j) == ShiftRight(ShiftLeft(x, 8 - j), j) + ShiftLeft(x, 8 - j)
  {
    ShiftLeftBound(x, j, 8 - j);
    ShiftRightBound(ShiftLeft(x, 8 - j), 8, j);
    OrDisjoint(ShiftRight(ShiftLeft(x, 8 - j), j), x, 8 - j);
  }

  /** Expansion stays within a byte, keeps the bits it started from on top, and repeats the highest of
      them below. */
  lemma ExpandFits(x: nat, j: nat)
    requires 4 <= j <= 8 && x < Pow2(j)
    ensures Expand(x, j) < 256
    ensures ShiftRight(Expand(x, j), 8 - j) == x
    ensures LowBits(Expand(x, j), 8 - j) == ShiftRight(x, 2 * j - 8)
  {
    hide Pow2, ShiftLeft, ShiftRight, LowBits, Expand;
    var low := ShiftRight(ShiftLeft(x, 8 - j), j);
    ExpandIsSum(x, j);
    TopOfSum(x, low, 8 - j);
    BelowNextMultiple(low, x, j, 8 - j);
    Power8();
    LowBitsOfSum(low, x, 8 - j, 8 - j);
    LowBitsAll(low, 8 - j);
    ShiftBack(x, 8 - j, j);
  }

  lemma Power8()
    ensures Pow2(8) == 256
  {
    assert Pow2(4) == 16;
  }

  lemma ShiftBack(x: nat, m: nat, n: nat)
    requires m <= n
    ensures ShiftRight(ShiftLeft(x, m), n) == ShiftRight(x, n - m)
  {
    TopOfSum(x, 0, m);
    LowBitsSplit(ShiftLeft(x, m), m, n - m);
  }

  /** What was stored, p-bit included, is the top of the byte. */
  lemma EndpointIsByte(block: nat, mode: nat, j: nat, c: nat)
    requires mode < 8
    ensures EndpointAt(block, mode, j, c) < 256
    ensures c < 3 || AlphaBits(mode) > 0 ==>
              ShiftRight(EndpointAt(block, mode, j, c), 8 - ChannelBits(mode, c)) == StoredChannel(block, mode, j, c)
  {
    hide StoredChannel, Expand, PBitOf, ColorBits, AlphaBits;
    if c < 3 || AlphaBits(mode) > 0 {
      var bits, stored := ChannelBits(mode, c), StoredChannel(block, mode, j, c);
      StoredChannelFits(block, mode, j, c);
      if PBits(mode) == 1 {
        var x := 2 * stored + PBitOf(block, mode, j);
        ExpandFits(x, bits + 1);
        LowBitsSplit(EndpointAt(block, mode, j, c), 7 - bits, 1);
        assert ShiftRight(x, 1) == x / 2 == stored;
      } else {
        ExpandFits(stored, bits);
      }
    }
  }

  lemma StoredChannelFits(block: nat, mode: nat, j: nat, c: nat)
    requires mode < 8
    ensures StoredChannel(block, mode, j, c) < Pow2(ChannelBits(mode, c))
  {
    if c < 3 {
      LowBitsBound(ShiftRight(block, ColorStart(mode) + Times(c, Times(NumEndpoints(mode), ColorBits(mode)))
                                     + Times(j, ColorBits(mode))), ColorBits(mode));
    } else {
      LowBitsBound(ShiftRight(block, AlphaStart(mode) + Times(j, AlphaBits(mode))), AlphaBits(mode));
    }
  }

  // Texels

  /** Blend two endpoints, the colors by one weight and alpha by another. */
  function Mix(lo: Texel, hi: Texel, colorWeight: nat, alphaWeight: nat): (t: Texel)
    requires colorWeight <= 64 && alphaWeight <= 64
    ensures TexelBetween(t, lo, hi)
  {
    InterpolateBetween(lo.r, hi.r, colorWeight);
    InterpolateBetween(lo.g, hi.g, colorWeight);
    InterpolateBetween(lo.b, hi.b, colorWeight);
    InterpolateBetween(lo.a, hi.a, alphaWeight);
    Texel(Interpolate(lo.r, hi.r, colorWeight), Interpolate(lo.g, hi.g, colorWeight),
          Interpolate(lo.b, hi.b, colorWeight), Interpolate(lo.a, hi.a, alphaWeight))
  }

  predicate TexelBetween(t: Texel, lo: Texel, hi: Texel) {
    Between(t.r, lo.r, hi.r) && Between(t.g, lo.g, hi.g) && Between(t.b, lo.b, hi.b) && Between(t.a, lo.a, hi.a)
  }

  predicate ByteTexel(t: Texel) {
    t.r < 256 && t.g < 256 && t.b < 256 && t.a < 256
  }

  /** Exchange a color channel with alpha. */
  function Rotate(rotation: nat, t: Texel): Texel {
    if rotation == 1 then t.(r := t.a, a := t.r)
    else if rotation == 2 then t.(g := t.a, a := t.g)
    else if rotation == 3 then t.(b := t.a, a := t.b)
    else t
  }

  function FirstWeight(block: nat, mode: nat, t: nat): (w: nat)
    requires mode < 8 && t < 16
    ensures w <= 64
  {
    Weight(IndexBits(mode), IndexAt(block, IndexStart(mode), ShapeOf(block, mode), t, IndexBits(mode)))
  }

  /** The index of texel t among the second indices. */
  function Index2At(block: nat, mode: nat, t: nat): (index: nat)
    requires mode < 8 && IndexBits2(mode) > 0
    ensures index < Pow2(IndexBits2(mode))
  {
    LowBitsBound(ShiftRight(block, Index2Start(mode) + Index2Offset(mode, t)), Index2Width(mode, t));
    assert Pow2(IndexBits2(mode)) == 2 * Pow2(IndexBits2(mode) - 1);
    Field(block, Index2Start(mode) + Index2Offset(mode, t), Index2Width(mode, t))
  }

  /** The second weight where there is a second index, the first one elsewhere. */
  function SecondWeight(block: nat, mode: nat, t: nat): (w: nat)
    requires mode < 8 && t < 16
    ensures w <= 64
  {
    if IndexBits2(mode) == 0 then FirstWeight(block, mode, t)
    else Weight(IndexBits2(mode), Index2At(block, mode, t))
  }

  /** Doing the exchange twice changes nothing. */
  lemma RotateTwice(rotation: nat, t: Texel)
    ensures Rotate(rotation, Rotate(rotation, t)) == t
    ensures ByteTexel(t) ==> ByteTexel(Rotate(rotation, t))
  {
  }

  lemma BetweenBytes(t: Texel, lo: Texel, hi: Texel)
    requires TexelBetween(t, lo, hi) && ByteTexel(lo) && ByteTexel(hi)
    ensures ByteTexel(t)
  {
  }

  lemma EndpointsAreBytes(block: nat, mode: nat, j: nat)
    requires mode < 8
    ensures ByteTexel(EndpointTexel(block, mode, j))
  {
    EndpointIsByte(block, mode, j, 0);
    EndpointIsByte(block, mode, j, 1);
    EndpointIsByte(block, mode, j, 2);
    EndpointIsByte(block, mode, j, 3);
  }

  /** The subset of texel t, read off the mask of the shape. */
  function SubsetAt(block: nat, mode: nat, t: nat): (subset: nat)
    requires t < 16
    ensures subset < NumPartitions(mode)
  {
    ShapeByMask(NumPartitions(mode), PartitionOf(block, mode), t);
    SubsetOfTexel(NumPartitions(mode), PartitionOf(block, mode), t)
  }

  lemma SubsetIsCell(block: nat, mode: nat, t: nat)
    requires t < 16
    ensures SubsetOf(ShapeOf(block, mode)[t]) == SubsetAt(block, mode, t)
  {
    hide PartitionOf, Bc7Shape, SubsetOf, SubsetOfTexel;
    ShapeByMask(NumPartitions(mode), PartitionOf(block, mode), t);
  }

  /** Texel t before its channels are exchanged. */
  function BlendedAt(block: nat, mode: nat, t: nat): Texel
    requires mode < 8 && t < 16
  {
    var k := 2 * SubsetAt(block, mode, t);
    if IndexSelectionBitOf(block, mode) == 0 then
      Mix(EndpointTexel(block, mode, k), EndpointTexel(block, mode, k + 1),
          FirstWeight(block, mode, t), SecondWeight(block, mode, t))
    else
      Mix(EndpointTexel(block, mode, k), EndpointTexel(block, mode, k + 1),
          SecondWeight(block, mode, t), FirstWeight(block, mode, t))
  }

  lemma BlendedBetween(block: nat, mode: nat, t: nat)
    requires mode < 8 && t < 16
    ensures TexelBetween(BlendedAt(block, mode, t), EndpointTexel(block, mode, 2 * SubsetAt(block, mode, t)),
                         EndpointTexel(block, mode, 2 * SubsetAt(block, mode, t) + 1))
  {
    hide EndpointTexel, FirstWeight, SecondWeight, SubsetAt, Mix, IndexSelectionBitOf, TexelBetween;
  }

  function TexelAt(block: nat, mode: nat, t: nat): Texel
    requires mode < 8 && t < 16
  {
    Rotate(RotationOf(block, mode), BlendedAt(block, mode, t))
  }

  /** Whatever the block, every texel fits its bytes and, its rotation undone, lies between the two
      endpoints of its subset. */
  lemma TexelInRange(block: nat, mode: nat, t: nat)
    requires mode < 8 && t < 16
    ensures ByteTexel(TexelAt(block, mode, t))
    ensures TexelBetween(Rotate(RotationOf(block, mode), TexelAt(block, mode, t)),
                         EndpointTexel(block, mode, 2 * SubsetAt(block, mode, t)),
                         EndpointTexel(block, mode, 2 * SubsetAt(block, mode, t) + 1))
  {
    hide BlendedAt, EndpointTexel, RotationOf, Rotate, SubsetAt, TexelBetween, ByteTexel;
    var k, texel := 2 * SubsetAt(block, mode, t), BlendedAt(block, mode, t);
    EndpointsAreBytes(block, mode, k);
    EndpointsAreBytes(block, mode, k + 1);
    BlendedBetween(block, mode, t);
    BetweenBytes(texel, EndpointTexel(block, mode, k), EndpointTexel(block, mode, k + 1));
    RotateTwice(RotationOf(block, mode), texel);
  }

  // Texels channel by channel: 0 to 2 are the colors, 3 is alpha

  /** Which of its two indices a channel is blended by: colors by the first and alpha by the second, unless the
      index selection bit is set. */
  function ChannelWeight(block: nat, mode: nat, t: nat, c: nat): (w: nat)
    requires mode < 8 && t < 16
    ensures w <= 64
  {
    if (c == 3) == (IndexSelectionBitOf(block, mode) == 0) then SecondWeight(block, mode, t) else FirstWeight(block, mode, t)
  }

  function BlendedChannel(block: nat, mode: nat, t: nat, c: nat): int
    requires mode < 8 && t < 16
  {
    var k := 2 * SubsetAt(block, mode, t);
    Interpolate(EndpointAt(block, mode, k, c), EndpointAt(block, mode, k + 1, c), ChannelWeight(block, mode, t, c))
  }

  /** The blended channel that a channel of the decoded texel is: rotation k exchanges color k - 1 and alpha. */
  function SourceChannel(rotation: nat, c: nat): nat {
    if rotation == 0 then c
    else if c == 3 then rotation - 1
    else if c == rotation - 1 then 3
    else c
  }

  lemma BlendedByChannel(block: nat, mode: nat, t: nat, c: nat)
    requires mode < 8 && t < 16 && c < 4
    ensures BlendedAt(block, mode, t).Channel(c) == BlendedChannel(block, mode, t, c)
  {
    hide EndpointAt, FirstWeight, SecondWeight, IndexSelectionBitOf, SubsetAt, Interpolate;
    assert c == 0 || c == 1 || c == 2 || c == 3;
  }

  lemma RotateByChannel(rotation: nat, t: Texel, c: nat)
    requires rotation < 4 && c < 4
    ensures Rotate(rotation, t).Channel(c) == t.Channel(SourceChannel(rotation, c))
  {
  }

  /** Each channel of a texel is the blend of the endpoints' channel that the rotation puts there. */
  lemma TexelByChannel(block: nat, mode: nat, t: nat, c: nat)
    requires mode < 8 && t < 16 && c < 4
    ensures RotationOf(block, mode) < 4
    ensures TexelAt(block, mode, t).Channel(c) == BlendedChannel(block, mode, t, SourceChannel(RotationOf(block, mode), c))
  {
    LowBitsBound(ShiftRight(block, mode + 1), 2);
    SmallPower();
    hide BlendedAt, BlendedChannel, Rotate;
    RotateByChannel(RotationOf(block, mode), BlendedAt(block, mode, t), c);
    BlendedByChannel(block, mode, t, SourceChannel(RotationOf(block, mode), c));
  }

  lemma SmallPower()
    ensures Pow2(2) == 4
  {
  }

  // The places of a block's parts, mode by mode

  /** The bit at which each part begins; parts a mode does not have begin where the next one does. */
  datatype Places = Places(partition: nat, rotation: nat, selection: nat, reds: nat, greens: nat, blues: nat,
                           alphas: nat, pBits: nat, indices: nat, indices2: nat)

  function PlacesOf(mode: nat): Places
    requires mode < 8
  {
    match mode
    case 0 => Places(1, 5, 5, 5, 29, 53, 77, 77, 83, 128)
    case 1 => Places(2, 8, 8, 8, 32, 56, 80, 80, 82, 128)
    case 2 => Places(3, 9, 9, 9, 39, 69, 99, 99, 99, 128)
    case 3 => Places(4, 10, 10, 10, 38, 66, 94, 94, 98, 128)
    case 4 => Places(5, 5, 7, 8, 18, 28, 38, 50, 50, 81)
    case 5 => Places(6, 6, 8, 8, 22, 36, 50, 66, 66, 97)
    case 6 => Places(7, 7, 7, 7, 21, 35, 49, 63, 65, 128)
    case _ => Places(8, 14, 14, 14, 34, 54, 74, 94, 98, 128)
  }

  /** Every part is where the format has it, and its fields fill the bits up to the next part. */
  lemma PartsInPlace(mode: nat)
    requires mode < 8
    ensures
      var p, n := PlacesOf(mode), NumEndpoints(mode);
      && p.partition == mode + 1 && p.partition + PartitionBits(mode) == p.rotation
      && p.rotation + RotationBits(mode) == p.reds == ColorStart(mode)
      && (mode == 4 ==> p.selection == mode + 3)
      && p.greens == ColorStart(mode) + Times(1, Times(n, ColorBits(mode)))
      && p.blues == ColorStart(mode) + Times(2, Times(n, ColorBits(mode)))
      && p.alphas == AlphaStart(mode)
      && p.pBits == PBitStart(mode) && p.indices == IndexStart(mode) && p.indices2 == Index2Start(mode)
  {
    var n, cb, ab := NumEndpoints(mode), ColorBits(mode), AlphaBits(mode);
    TimesIsProduct(1, Times(n, cb));
    TimesIsProduct(2, Times(n, cb));
    TimesIsProduct(3, Times(n, cb));
    match mode
    case 0 => Products(6, 4, 0);
    case 1 => Products(4, 6, 0);
    case 2 => Products(6, 5, 0);
    case 3 => Products(4, 7, 0);
    case 4 => Products(2, 5, 6);
    case 5 => Products(2, 7, 8);
    case 6 => Products(2, 7, 7);
    case _ => Products(4, 5, 5);
  }
}
