/** The partition tables once more, as the formats define them: a mask with the subset of every texel,
    texel 0 in its lowest bits, and the texel that is the anchor of each subset. */
module PartitionMasks {
  import opened Partitions

  /** One bit for each texel, and the anchor of subset 1. */
  datatype TwoMask = TwoMask(ones: bv16, second: nat)

  /** One bit for each texel in subset 1, one for each in subset 2, and the anchors of the two. */
  datatype ThreeMask = ThreeMask(ones: bv16, twos: bv16, second: nat, third: nat)

  function TwoMaskOf(p: nat): TwoMask
    requires p < 64
  {
    match p
    case 0 => TwoMask(0xCCCC, 15)
    case 1 => TwoMask(0x8888, 15)
    case 2 => TwoMask(0xEEEE, 15)
    case 3 => TwoMask(0xECC8, 15)
    case 4 => TwoMask(0xC880, 15)
    case 5 => TwoMask(0xFEEC, 15)
    case 6 => TwoMask(0xFEC8, 15)
    case 7 => TwoMask(0xEC80, 15)
    case 8 => TwoMask(0xC800, 15)
    case 9 => TwoMask(0xFFEC, 15)
    case 10 => TwoMask(0xFE80, 15)
    case 11 => TwoMask(0xE800, 15)
    case 12 => TwoMask(0xFFE8, 15)
    case 13 => TwoMask(0xFF00, 15)
    case 14 => TwoMask(0xFFF0, 15)
    case 15 => TwoMask(0xF000, 15)
    case 16 => TwoMask(0xF710, 15)
    case 17 => TwoMask(0x008E, 2)
    case 18 => TwoMask(0x7100, 8)
    case 19 => TwoMask(0x08CE, 2)
    case 20 => TwoMask(0x008C, 2)
    case 21 => TwoMask(0x7310, 8)
    case 22 => TwoMask(0x3100, 8)
    case 23 => TwoMask(0x8CCE, 15)
    case 24 => TwoMask(0x088C, 2)
    case 25 => TwoMask(0x3110, 8)
    case 26 => TwoMask(0x6666, 2)
    case 27 => TwoMask(0x366C, 2)
    case 28 => TwoMask(0x17E8, 8)
    case 29 => TwoMask(0x0FF0, 8)
    case 30 => TwoMask(0x718E, 2)
    case 31 => TwoMask(0x399C, 2)
    case 32 => TwoMask(0xAAAA, 15)
    case 33 => TwoMask(0xF0F0, 15)
    case 34 => TwoMask(0x5A5A, 6)
    case 35 => TwoMask(0x33CC, 8)
    case 36 => TwoMask(0x3C3C, 2)
    case 37 => TwoMask(0x55AA, 8)
    case 38 => TwoMask(0x9696, 15)
    case 39 => TwoMask(0xA55A, 15)
    case 40 => TwoMask(0x73CE, 2)
    case 41 => TwoMask(0x13C8, 8)
    case 42 => TwoMask(0x324C, 2)
    case 43 => TwoMask(0x3BDC, 2)
    case 44 => TwoMask(0x6996, 2)
    case 45 => TwoMask(0xC33C, 15)
    case 46 => TwoMask(0x9966, 15)
    case 47 => TwoMask(0x0660, 6)
    case 48 => TwoMask(0x0272, 6)
    case 49 => TwoMask(0x04E4, 2)
    case 50 => TwoMask(0x4E40, 6)
    case 51 => TwoMask(0x2720, 8)
    case 52 => TwoMask(0xC936, 15)
    case 53 => TwoMask(0x936C, 15)
    case 54 => TwoMask(0x39C6, 2)
    case 55 => TwoMask(0x639C, 2)
    case 56 => TwoMask(0x9336, 15)
    case 57 => TwoMask(0x9CC6, 15)
    case 58 => TwoMask(0x817E, 15)
    case 59 => TwoMask(0xE718, 15)
    case 60 => TwoMask(0xCCF0, 15)
    case 61 => TwoMask(0x0FCC, 2)
    case 62 => TwoMask(0x7744, 2)
    case _ => TwoMask(0xEE22, 15)
  }

  function ThreeMaskOf(p: nat): ThreeMask
    requires p < 64
  {
    match p
    case 0 => ThreeMask(0x08CC, 0xF600, 3, 15)
    case 1 => ThreeMask(0x8CC8, 0x7300, 3, 8)
    case 2 => ThreeMask(0xCC80, 0x3310, 15, 8)
    case 3 => ThreeMask(0xEC00, 0x00CE, 15, 3)
    case 4 => ThreeMask(0x3300, 0xCC00, 8, 15)
    case 5 => ThreeMask(0x00CC, 0xCC00, 3, 15)
    case 6 => ThreeMask(0xFF00, 0x00CC, 15, 3)
    case 7 => ThreeMask(0xCCCC, 0x3300, 15, 8)
    case 8 => ThreeMask(0x0F00, 0xF000, 8, 15)
    case 9 => ThreeMask(0x0FF0, 0xF000, 8, 15)
    case 10 => ThreeMask(0x00F0, 0xFF00, 6, 15)
    case 11 => ThreeMask(0x4444, 0x8888, 6, 15)
    case 12 => ThreeMask(0x6666, 0x8888, 6, 15)
    case 13 => ThreeMask(0x2222, 0xCCCC, 5, 15)
    case 14 => ThreeMask(0x136C, 0xEC80, 3, 15)
    case 15 => ThreeMask(0x008C, 0x7310, 3, 8)
    case 16 => ThreeMask(0x36C8, 0xC800, 3, 15)
    case 17 => ThreeMask(0x08CE, 0x3100, 3, 8)
    case 18 => ThreeMask(0x3330, 0xCCC0, 8, 15)
    case 19 => ThreeMask(0xF000, 0x0CCC, 15, 3)
    case 20 => ThreeMask(0x00EE, 0xEE00, 3, 15)
    case 21 => ThreeMask(0x8888, 0x7700, 3, 8)
    case 22 => ThreeMask(0x22C0, 0xCC00, 6, 15)
    case 23 => ThreeMask(0x4430, 0x3300, 10, 8)
    case 24 => ThreeMask(0x0C22, 0x00CC, 5, 3)
    case 25 => ThreeMask(0x0344, 0xFC88, 8, 15)
    case 26 => ThreeMask(0x6996, 0x0660, 8, 6)
    case 27 => ThreeMask(0x9960, 0x6600, 6, 10)
    case 28 => ThreeMask(0x0330, 0xC88C, 8, 15)
    case 29 => ThreeMask(0x0066, 0xF900, 5, 15)
    case 30 => ThreeMask(0xC22C, 0x0CC0, 15, 10)
    case 31 => ThreeMask(0x8C00, 0x7310, 15, 8)
    case 32 => ThreeMask(0x1300, 0xEC80, 8, 15)
    case 33 => ThreeMask(0xC400, 0x08CE, 15, 3)
    case 34 => ThreeMask(0x004C, 0xEC80, 3, 15)
    case 35 => ThreeMask(0x2222, 0x4444, 5, 10)
    case 36 => ThreeMask(0x00F0, 0x0F00, 6, 10)
    case 37 => ThreeMask(0x2492, 0x4924, 10, 8)
    case 38 => ThreeMask(0x2942, 0x4294, 8, 9)
    case 39 => ThreeMask(0xC30C, 0x0C30, 15, 10)
    case 40 => ThreeMask(0xC03C, 0x03C0, 15, 6)
    case 41 => ThreeMask(0x00AA, 0xFF00, 3, 15)
    case 42 => ThreeMask(0xAA00, 0x5500, 15, 8)
    case 43 => ThreeMask(0x3030, 0xCCCC, 5, 15)
    case 44 => ThreeMask(0xC0C0, 0x0C0C, 15, 3)
    case 45 => ThreeMask(0x9090, 0x6666, 15, 6)
    case 46 => ThreeMask(0xA00A, 0x0FF0, 15, 6)
    case 47 => ThreeMask(0xAAA0, 0x5550, 15, 8)
    case 48 => ThreeMask(0x0AAA, 0xF000, 3, 15)
    case 49 => ThreeMask(0xE0E0, 0x0E0E, 15, 3)
    case 50 => ThreeMask(0x7070, 0x8888, 5, 15)
    case 51 => ThreeMask(0x6660, 0x9990, 5, 15)
    case 52 => ThreeMask(0x0EE0, 0xE00E, 5, 15)
    case 53 => ThreeMask(0x0770, 0x8888, 8, 15)
    case 54 => ThreeMask(0x0666, 0xF000, 5, 15)
    case 55 => ThreeMask(0x6600, 0x9900, 10, 15)
    case 56 => ThreeMask(0x0066, 0xFF00, 5, 15)
    case 57 => ThreeMask(0x0CC0, 0xC00C, 10, 15)
    case 58 => ThreeMask(0x0330, 0xCCCC, 8, 15)
    case 59 => ThreeMask(0x6000, 0x9000, 13, 15)
    case 60 => ThreeMask(0x8080, 0x0808, 15, 3)
    case 61 => ThreeMask(0x1010, 0xEEEE, 12, 15)
    case 62 => ThreeMask(0x000A, 0xFFF0, 3, 15)
    case _ => ThreeMask(0x08CE, 0x7310, 3, 8)
  }

  predicate InSubset(cell: nat, subset: nat) {
    cell == subset || cell == 128 + subset
  }

  /** The mask has a bit for exactly the cells in the subset. */
  predicate Covers(mask: bv16, r: Row, s: nat) {
    && (mask & 0x0001 != 0 <==> InSubset(r.c0, s))
    && (mask & 0x0002 != 0 <==> InSubset(r.c1, s))
    && (mask & 0x0004 != 0 <==> InSubset(r.c2, s))
    && (mask & 0x0008 != 0 <==> InSubset(r.c3, s))
    && (mask & 0x0010 != 0 <==> InSubset(r.c4, s))
    && (mask & 0x0020 != 0 <==> InSubset(r.c5, s))
    && (mask & 0x0040 != 0 <==> InSubset(r.c6, s))
    && (mask & 0x0080 != 0 <==> InSubset(r.c7, s))
    && (mask & 0x0100 != 0 <==> InSubset(r.c8, s))
    && (mask & 0x0200 != 0 <==> InSubset(r.c9, s))
    && (mask & 0x0400 != 0 <==> InSubset(r.c10, s))
    && (mask & 0x0800 != 0 <==> InSubset(r.c11, s))
    && (mask & 0x1000 != 0 <==> InSubset(r.c12, s))
    && (mask & 0x2000 != 0 <==> InSubset(r.c13, s))
    && (mask & 0x4000 != 0 <==> InSubset(r.c14, s))
    && (mask & 0x8000 != 0 <==> InSubset(r.c15, s))
  }

  function CellAt(r: Row, t: nat): nat
    requires t < 16
  {
    if t == 0 then r.c0 else if t == 1 then r.c1 else if t == 2 then r.c2 else if t == 3 then r.c3
    else if t == 4 then r.c4 else if t == 5 then r.c5 else if t == 6 then r.c6 else if t == 7 then r.c7
    else if t == 8 then r.c8 else if t == 9 then r.c9 else if t == 10 then r.c10 else if t == 11 then r.c11
    else if t == 12 then r.c12 else if t == 13 then r.c13 else if t == 14 then r.c14 else r.c15
  }

  predicate TwoMasked(m: TwoMask, r: Row) {
    Covers(m.ones, r, 1) && m.second < 16 && CellAt(r, m.second) == 129
  }

  predicate ThreeMasked(m: ThreeMask, r: Row) {
    && Covers(m.ones, r, 1) && m.second < 16 && CellAt(r, m.second) == 129
    && Covers(m.twos, r, 2) && m.third < 16 && CellAt(r, m.third) == 130
  }

  lemma TwoSubsetsMasked0(p: nat)
    requires 0 <= p < 8
    ensures TwoMasked(TwoMaskOf(p), TwoSubsets(p))
  {
  }

  lemma TwoSubsetsMasked1(p: nat)
    requires 8 <= p < 16
    ensures TwoMasked(TwoMaskOf(p), TwoSubsets(p))
  {
  }

  lemma TwoSubsetsMasked2(p: nat)
    requires 16 <= p < 24
    ensures TwoMasked(TwoMaskOf(p), TwoSubsets(p))
  {
  }

  lemma TwoSubsetsMasked3(p: nat)
    requires 24 <= p < 32
    ensures TwoMasked(TwoMaskOf(p), TwoSubsets(p))
  {
  }

  lemma TwoSubsetsMasked4(p: nat)
    requires 32 <= p < 40
    ensures TwoMasked(TwoMaskOf(p), TwoSubsets(p))
  {
  }

  lemma TwoSubsetsMasked5(p: nat)
    requires 40 <= p < 48
    ensures TwoMasked(TwoMaskOf(p), TwoSubsets(p))
  {
  }

  lemma TwoSubsetsMasked6(p: nat)
    requires 48 <= p < 56
    ensures TwoMasked(TwoMaskOf(p), TwoSubsets(p))
  {
  }

  lemma TwoSubsetsMasked7(p: nat)
    requires 56 <= p < 64
    ensures TwoMasked(TwoMaskOf(p), TwoSubsets(p))
  {
  }

  lemma ThreeSubsetsMasked0(p: nat)
    requires 0 <= p < 4
    ensures ThreeMasked(ThreeMaskOf(p), ThreeSubsets(p))
  {
  }

  lemma ThreeSubsetsMasked1(p: nat)
    requires 4 <= p < 8
    ensures ThreeMasked(ThreeMaskOf(p), ThreeSubsets(p))
  {
  }

  lemma ThreeSubsetsMasked2(p: nat)
    requires 8 <= p < 12
    ensures ThreeMasked(ThreeMaskOf(p), ThreeSubsets(p))
  {
  }

  lemma ThreeSubsetsMasked3(p: nat)
    requires 12 <= p < 16
    ensures ThreeMasked(ThreeMaskOf(p), ThreeSubsets(p))
  {
  }

  lemma ThreeSubsetsMasked4(p: nat)
    requires 16 <= p < 20
    ensures ThreeMasked(ThreeMaskOf(p), ThreeSubsets(p))
  {
  }

  lemma ThreeSubsetsMasked5(p: nat)
    requires 20 <= p < 24
    ensures ThreeMasked(ThreeMaskOf(p), ThreeSubsets(p))
  {
  }

  lemma ThreeSubsetsMasked6(p: nat)
    requires 24 <= p < 28
    ensures ThreeMasked(ThreeMaskOf(p), ThreeSubsets(p))
  {
  }

  lemma ThreeSubsetsMasked7(p: nat)
    requires 28 <= p < 32
    ensures ThreeMasked(ThreeMaskOf(p), ThreeSubsets(p))
  {
  }

  lemma ThreeSubsetsMasked8(p: nat)
    requires 32 <= p < 36
    ensures ThreeMasked(ThreeMaskOf(p), ThreeSubsets(p))
  {
  }

  lemma ThreeSubsetsMasked9(p: nat)
    requires 36 <= p < 40
    ensures ThreeMasked(ThreeMaskOf(p), ThreeSubsets(p))
  {
  }

  lemma ThreeSubsetsMasked10(p: nat)
    requires 40 <= p < 44
    ensures ThreeMasked(ThreeMaskOf(p), ThreeSubsets(p))
  {
  }

  lemma ThreeSubsetsMasked11(p: nat)
    requires 44 <= p < 48
    ensures ThreeMasked(ThreeMaskOf(p), ThreeSubsets(p))
  {
  }

  lemma ThreeSubsetsMasked12(p: nat)
    requires 48 <= p < 52
    ensures ThreeMasked(ThreeMaskOf(p), ThreeSubsets(p))
  {
  }

  lemma ThreeSubsetsMasked13(p: nat)
    requires 52 <= p < 56
    ensures ThreeMasked(ThreeMaskOf(p), ThreeSubsets(p))
  {
  }

  lemma ThreeSubsetsMasked14(p: nat)
    requires 56 <= p < 60
    ensures ThreeMasked(ThreeMaskOf(p), ThreeSubsets(p))
  {
  }

  lemma ThreeSubsetsMasked15(p: nat)
    requires 60 <= p < 64
    ensures ThreeMasked(ThreeMaskOf(p), ThreeSubsets(p))
  {
  }

  lemma Bc6hSubsetsAreBc70(p: nat)
    requires 0 <= p < 8
    ensures Bc6hSubsets(p) == TwoSubsets(p)
  {
  }

  lemma Bc6hSubsetsAreBc71(p: nat)
    requires 8 <= p < 16
    ensures Bc6hSubsets(p) == TwoSubsets(p)
  {
  }

  lemma Bc6hSubsetsAreBc72(p: nat)
    requires 16 <= p < 24
    ensures Bc6hSubsets(p) == TwoSubsets(p)
  {
  }

  lemma Bc6hSubsetsAreBc73(p: nat)
    requires 24 <= p < 32
    ensures Bc6hSubsets(p) == TwoSubsets(p)
  {
  }

  /** Every entry of the table with two subsets is as its mask says. */
  lemma TwoSubsetsMasked(p: nat)
    requires p < 64
    ensures TwoMasked(TwoMaskOf(p), TwoSubsets(p))
  {
    if p < 8 {
      TwoSubsetsMasked0(p);
    } else if p < 16 {
      TwoSubsetsMasked1(p);
    } else if p < 24 {
      TwoSubsetsMasked2(p);
    } else if p < 32 {
      TwoSubsetsMasked3(p);
    } else if p < 40 {
      TwoSubsetsMasked4(p);
    } else if p < 48 {
      TwoSubsetsMasked5(p);
    } else if p < 56 {
      TwoSubsetsMasked6(p);
    } else {
      TwoSubsetsMasked7(p);
    }
  }

  /** Every entry of the table with three subsets is as its mask says. */
  lemma ThreeSubsetsMasked(p: nat)
    requires p < 64
    ensures ThreeMasked(ThreeMaskOf(p), ThreeSubsets(p))
  {
    if p < 4 {
      ThreeSubsetsMasked0(p);
    } else if p < 8 {
      ThreeSubsetsMasked1(p);
    } else if p < 12 {
      ThreeSubsetsMasked2(p);
    } else if p < 16 {
      ThreeSubsetsMasked3(p);
    } else if p < 20 {
      ThreeSubsetsMasked4(p);
    } else if p < 24 {
      ThreeSubsetsMasked5(p);
    } else if p < 28 {
      ThreeSubsetsMasked6(p);
    } else if p < 32 {
      ThreeSubsetsMasked7(p);
    } else if p < 36 {
      ThreeSubsetsMasked8(p);
    } else if p < 40 {
      ThreeSubsetsMasked9(p);
    } else if p < 44 {
      ThreeSubsetsMasked10(p);
    } else if p < 48 {
      ThreeSubsetsMasked11(p);
    } else if p < 52 {
      ThreeSubsetsMasked12(p);
    } else if p < 56 {
      ThreeSubsetsMasked13(p);
    } else if p < 60 {
      ThreeSubsetsMasked14(p);
    } else {
      ThreeSubsetsMasked15(p);
    }
  }

  /** The shapes of BC6H are the first of BC7. */
  lemma Bc6hSubsetsAreBc7(p: nat)
    requires p < 32
    ensures Bc6hSubsets(p) == TwoSubsets(p)
  {
    if p < 8 {
      Bc6hSubsetsAreBc70(p);
    } else if p < 16 {
      Bc6hSubsetsAreBc71(p);
    } else if p < 24 {
      Bc6hSubsetsAreBc72(p);
    } else {
      Bc6hSubsetsAreBc73(p);
    }
  }

  // From masks to cells

  lemma {:induction false} AnchorCounted(cells: seq<nat>, n: nat, subset: nat, t: nat, u: nat)
    requires t < u < n <= |cells| && cells[t] == cells[u] == 128 + subset
    ensures AnchorsOf(cells, n, subset) >= 2
  {
    if u == n - 1 {
      AnchorFound(cells, subset, t, n - 1);
    } else {
      AnchorCounted(cells, n - 1, subset, t, u);
    }
  }

  lemma OneAnchor(cells: seq<nat>, k: nat, subset: nat, t: nat, u: nat)
    requires ShapeOk(cells, k) && subset < k && t < 16 && u < 16 && cells[t] == cells[u] == 128 + subset
    ensures t == u
  {
    assert AnchorsOf(cells, |cells|, subset) == 1;
    if t < u {
      AnchorCounted(cells, |cells|, subset, t, u);
    } else if u < t {
      AnchorCounted(cells, |cells|, subset, u, t);
    }
  }

  /** The mask has the bit of texel t. */
  predicate InMask(mask: bv16, t: nat)
    requires t < 16
  {
    if t == 0 then mask & 0x0001 != 0 else if t == 1 then mask & 0x0002 != 0 else if t == 2 then mask & 0x0004 != 0
    else if t == 3 then mask & 0x0008 != 0 else if t == 4 then mask & 0x0010 != 0 else if t == 5 then mask & 0x0020 != 0
    else if t == 6 then mask & 0x0040 != 0 else if t == 7 then mask & 0x0080 != 0 else if t == 8 then mask & 0x0100 != 0
    else if t == 9 then mask & 0x0200 != 0 else if t == 10 then mask & 0x0400 != 0 else if t == 11 then mask & 0x0800 != 0
    else if t == 12 then mask & 0x1000 != 0 else if t == 13 then mask & 0x2000 != 0 else if t == 14 then mask & 0x4000 != 0
    else mask & 0x8000 != 0
  }

  /** The subset of texel t in shape p of those with k subsets. */
  function SubsetOfTexel(k: nat, p: nat, t: nat): nat
    requires p < 64 && t < 16
  {
    if k == 2 then (if InMask(TwoMaskOf(p).ones, t) then 1 else 0)
    else if k == 3 then (if InMask(ThreeMaskOf(p).ones, t) then 1 else if InMask(ThreeMaskOf(p).twos, t) then 2 else 0)
    else 0
  }

  /** The index of these texels is a bit shorter. */
  predicate AnchorTexel(k: nat, p: nat, t: nat)
    requires p < 64
  {
    || t == 0
    || (k == 2 && t == TwoMaskOf(p).second)
    || (k == 3 && (t == ThreeMaskOf(p).second || t == ThreeMaskOf(p).third))
  }

  /** Every cell of a shape is as its mask says. */
  lemma ShapeByMask(k: nat, p: nat, t: nat)
    requires 1 <= k <= 3 && p < 64 && t < 16
    ensures SubsetOf(Bc7Shape(k, p)[t]) == SubsetOfTexel(k, p, t) < k
    ensures IsAnchor(Bc7Shape(k, p)[t]) <==> AnchorTexel(k, p, t)
  {
    hide TwoMaskOf, ThreeMaskOf, TwoSubsets, ThreeSubsets, RowOk, Covers, CellAt, InMask;
    assert CellOk(Bc7Shape(k, p)[t], k);
    if k == 1 {
      WholeCells(t);
    } else if k == 2 {
      TwoSubsetsMasked(p);
      CoveredAt(TwoMaskOf(p).ones, TwoSubsets(p), 1, t);
      AnchorsAt(TwoSubsets(p), 2, TwoMaskOf(p).second, 0, t);
    } else {
      ThreeSubsetsMasked(p);
      CoveredAt(ThreeMaskOf(p).ones, ThreeSubsets(p), 1, t);
      CoveredAt(ThreeMaskOf(p).twos, ThreeSubsets(p), 2, t);
      AnchorsAt(ThreeSubsets(p), 3, ThreeMaskOf(p).second, ThreeMaskOf(p).third, t);
    }
  }

  /** The same for BC6H, whose subset is the lowest bit of the cell. */
  lemma Bc6hShapeByMask(k: nat, p: nat, t: nat)
    requires 1 <= k <= 2 && p < 32 && t < 16
    ensures Bc6hShape(k, p)[t] % 2 == SubsetOfTexel(k, p, t) < k
    ensures IsAnchor(Bc6hShape(k, p)[t]) <==> AnchorTexel(k, p, t)
  {
    hide TwoMaskOf, ThreeMaskOf, TwoSubsets, ThreeSubsets, Bc6hSubsets, RowOk, InMask, Anchors, AnchorsOf;
    Bc6hSubsetsAreBc7(p);
    assert Bc6hShape(k, p) == Bc7Shape(k, p);
    ShapeByMask(k, p, t);
    assert CellOk(Bc7Shape(k, p)[t], k);
  }

  lemma WholeCells(t: nat)
    requires t < 16
    ensures SubsetOf(WHOLE.Cells()[t]) == 0 && (IsAnchor(WHOLE.Cells()[t]) <==> t == 0)
  {
  }

  lemma CoveredAt(mask: bv16, r: Row, s: nat, t: nat)
    requires Covers(mask, r, s) && t < 16
    ensures InMask(mask, t) <==> InSubset(r.Cells()[t], s)
  {
    CellsAt(r, t);
    CoveredCell(mask, r, s, t);
    hide *;
  }

  lemma CoveredCell(mask: bv16, r: Row, s: nat, t: nat)
    requires Covers(mask, r, s) && t < 16
    ensures InMask(mask, t) <==> InSubset(CellAt(r, t), s)
  {
    CoveredBits(mask, r, s);
    hide Covers, InMask, InSubset;
    assert t == 0 || t == 1 || t == 2 || t == 3 || t == 4 || t == 5 || t == 6 || t == 7 || t == 8
      || t == 9 || t == 10 || t == 11 || t == 12 || t == 13 || t == 14 || t == 15;
  }

  lemma CoveredBits(mask: bv16, r: Row, s: nat)
    requires Covers(mask, r, s)
    ensures (InMask(mask, 0) <==> InSubset(r.c0, s)) && (InMask(mask, 1) <==> InSubset(r.c1, s))
    ensures (InMask(mask, 2) <==> InSubset(r.c2, s)) && (InMask(mask, 3) <==> InSubset(r.c3, s))
    ensures (InMask(mask, 4) <==> InSubset(r.c4, s)) && (InMask(mask, 5) <==> InSubset(r.c5, s))
    ensures (InMask(mask, 6) <==> InSubset(r.c6, s)) && (InMask(mask, 7) <==> InSubset(r.c7, s))
    ensures (InMask(mask, 8) <==> InSubset(r.c8, s)) && (InMask(mask, 9) <==> InSubset(r.c9, s))
    ensures (InMask(mask, 10) <==> InSubset(r.c10, s)) && (InMask(mask, 11) <==> InSubset(r.c11, s))
    ensures (InMask(mask, 12) <==> InSubset(r.c12, s)) && (InMask(mask, 13) <==> InSubset(r.c13, s))
    ensures (InMask(mask, 14) <==> InSubset(r.c14, s)) && (InMask(mask, 15) <==> InSubset(r.c15, s))
  {
  }

  lemma AnchorsAt(r: Row, k: nat, second: nat, third: nat, t: nat)
    requires ShapeOk(r.Cells(), k) && t < 16 && 2 <= k <= 3
    requires second < 16 && CellAt(r, second) == 129
    requires k > 2 ==> third < 16 && CellAt(r, third) == 130
    ensures IsAnchor(r.Cells()[t]) <==> t == 0 || t == second || (k > 2 && t == third)
  {
    var cells := r.Cells();
    CellsAt(r, second);
    if k > 2 {
      CellsAt(r, third);
    }
    hide CellAt;
    assert CellOk(cells[t], k);
    if cells[t] == 128 {
      OneAnchor(cells, k, 0, 0, t);
    } else if cells[t] == 129 {
      OneAnchor(cells, k, 1, second, t);
    } else if cells[t] == 130 {
      OneAnchor(cells, k, 2, third, t);
    }
  }

  lemma CellsAt(r: Row, t: nat)
    requires t < 16
    ensures r.Cells()[t] == CellAt(r, t)
  {
  }
}
