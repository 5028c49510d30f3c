/** What the BC6H and BC7 decoders share: the indices stored after the endpoints, one bit shorter at every
    anchor, and the weights they select for blending two endpoints. */
module BlockIndices {
  import opened Bits
  import opened Partitions

  /** k fields of n bits. */
  function Times(k: nat, n: nat): nat {
    if k == 0 then 0 else Times(k - 1, n) + n
  }

  lemma {:induction false} TimesIsProduct(k: nat, n: nat)
    ensures Times(k, n) == k * n
  {
    if k > 0 {
      TimesIsProduct(k - 1, n);
      assert k * n == (k - 1) * n + n;
    }
  }

  function IndexWidth(cells: seq<nat>, t: nat, indexBits: nat): nat
    requires t < |cells| && indexBits >= 1
  {
    indexBits - Mark(cells[t])
  }

  /** Where the index of texel t starts, counted from the first index. */
  function IndexOffset(cells: seq<nat>, t: nat, indexBits: nat): nat
    requires t <= |cells| && indexBits >= 1
  {
    if t == 0 then 0 else IndexOffset(cells, t - 1, indexBits) + IndexWidth(cells, t - 1, indexBits)
  }

  /** One bit is saved for every anchor. */
  lemma {:induction false} IndexOffsetCounts(cells: seq<nat>, t: nat, indexBits: nat)
    requires t <= |cells| && indexBits >= 1
    ensures IndexOffset(cells, t, indexBits) + Anchors(cells, t) == Times(t, indexBits)
  {
    if t > 0 {
      IndexOffsetCounts(cells, t - 1, indexBits);
    }
  }

  /** Whatever the shape, the indices take sixteen times their width less a bit for each subset. */
  lemma ShapeIndexTotal(cells: seq<nat>, k: nat, indexBits: nat)
    requires ShapeOk(cells, k) && 1 <= k <= 3 && indexBits >= 1
    ensures IndexOffset(cells, |cells|, indexBits) + k == 16 * indexBits
  {
    IndexOffsetCounts(cells, |cells|, indexBits);
    ShapeAnchors(cells, k);
    TimesIsProduct(|cells|, indexBits);
  }

  /** The index of texel t in a block whose indices begin at bit start. */
  function IndexAt(block: nat, start: nat, cells: seq<nat>, t: nat, indexBits: nat): (index: nat)
    requires t < |cells| && indexBits >= 1
    ensures index < Pow2(indexBits)
  {
    LowBitsBound(ShiftRight(block, start + IndexOffset(cells, t, indexBits)), IndexWidth(cells, t, indexBits));
    assert Pow2(indexBits) == 2 * Pow2(indexBits - 1);
    Field(block, start + IndexOffset(cells, t, indexBits), IndexWidth(cells, t, indexBits))
  }

  lemma IndexIsField(block: nat, start: nat, cells: seq<nat>, t: nat, indexBits: nat)
    requires t < |cells| && indexBits >= 1
    ensures IndexAt(block, start, cells, t, indexBits)
            == Field(block, start + IndexOffset(cells, t, indexBits), IndexWidth(cells, t, indexBits))
    ensures IndexWidth(cells, t, indexBits) == if IsAnchor(cells[t]) then indexBits - 1 else indexBits
    ensures IndexOffset(cells, t + 1, indexBits) == IndexOffset(cells, t, indexBits) + IndexWidth(cells, t, indexBits)
  {
  }

  // Weights and interpolation

  const WEIGHT2: seq<nat> := [0, 21, 43, 64]
  const WEIGHT3: seq<nat> := [0, 9, 18, 27, 37, 46, 55, 64]
  const WEIGHT4: seq<nat> := [0, 4, 9, 13, 17, 21, 26, 30, 34, 38, 43, 47, 51, 55, 60, 64]

  function Weights(indexBits: nat): seq<nat> {
    if indexBits == 2 then WEIGHT2 else if indexBits == 3 then WEIGHT3 else WEIGHT4
  }

  lemma WeightsFit(indexBits: nat)
    requires 2 <= indexBits <= 4
    ensures |Weights(indexBits)| == Pow2(indexBits)
    ensures forall i | 0 <= i < |Weights(indexBits)| :: Weights(indexBits)[i] <= 64
  {
  }

  /** Every index that fits its width selects a weight. */
  function Weight(indexBits: nat, index: nat): (w: nat)
    requires 2 <= indexBits <= 4 && index < Pow2(indexBits)
    ensures w <= 64
  {
    WeightsFit(indexBits);
    Weights(indexBits)[index]
  }

  /** The tables divide 64 into equal steps, each rounded to the nearest number. */
  lemma WeightIsRounded(indexBits: nat, index: nat)
    requires 2 <= indexBits <= 4 && index < Pow2(indexBits)
    ensures var steps := Pow2(indexBits) - 1;
            steps > 0 && Weight(indexBits, index) == (2 * 64 * index + steps) / (2 * steps)
  {
    WeightsFit(indexBits);
    assert Pow2(2) == 4 && Pow2(3) == 8 && Pow2(4) == 16;
    hide Pow2;
    assert indexBits == 2 || indexBits == 3 || indexBits == 4;
  }

  /** (a * (64 - w) + b * w + 32) >> 6, where >> rounds towards negative infinity. */
  function Interpolate(a: int, b: int, w: nat): int {
    (a * (64 - w) + b * w + 32) / 64
  }

  predicate Between(x: int, a: int, b: int) {
    a <= x <= b || b <= x <= a
  }

  /** Interpolation stays between its ends and meets both. */
  lemma InterpolateBetween(a: int, b: int, w: nat)
    requires w <= 64
    ensures Between(Interpolate(a, b, w), a, b)
    ensures Interpolate(a, b, 0) == a && Interpolate(a, b, 64) == b
  {
    var d := b - a;
    assert a * (64 - w) + b * w == 64 * a + d * w by {
      assert a * (64 - w) == 64 * a - a * w;
      assert d * w == b * w - a * w;
    }
    if d >= 0 {
      ProductBounds(d, w);
    } else {
      ProductBounds(-d, w);
      assert d * w == -((-d) * w);
    }
  }

  /** Interpolation is the whole number nearest to the weighted mean, the upper one halfway between two. */
  lemma InterpolateIsNearest(a: int, b: int, w: nat)
    requires w <= 64
    ensures
      var mean64 := a * (64 - w) + b * w;
      64 * Interpolate(a, b, w) - 32 <= mean64 < 64 * Interpolate(a, b, w) + 32
  {
    var sum := a * (64 - w) + b * w + 32;
    assert 64 * (sum / 64) <= sum < 64 * (sum / 64) + 64;
  }

  lemma ProductBounds(d: nat, w: nat)
    requires w <= 64
    ensures 0 <= d * w <= 64 * d
  {
  }

  lemma WeightsMirror(indexBits: nat, index: nat)
    requires 2 <= indexBits <= 4 && index < Pow2(indexBits)
    ensures Weight(indexBits, index) + Weight(indexBits, Pow2(indexBits) - 1 - index) == 64
  {
    WeightsFit(indexBits);
    assert Pow2(2) == 4 && Pow2(3) == 8 && Pow2(4) == 16;
    hide Pow2;
    assert indexBits == 2 || indexBits == 3 || indexBits == 4;
  }

  /** The bit an anchor's index goes without loses nothing: exchanging the endpoints and complementing the
      index blends the same value, and one of the two indices has its top bit clear. */
  lemma AnchorBitIsRedundant(a: int, b: int, indexBits: nat, index: nat)
    requires 2 <= indexBits <= 4 && index < Pow2(indexBits)
    ensures var other := Pow2(indexBits) - 1 - index;
            && Interpolate(a, b, Weight(indexBits, index)) == Interpolate(b, a, Weight(indexBits, other))
            && (index < Pow2(indexBits - 1) <==> other >= Pow2(indexBits - 1))
  {
    WeightsMirror(indexBits, index);
    assert Pow2(indexBits) == 2 * Pow2(indexBits - 1);
  }
}
