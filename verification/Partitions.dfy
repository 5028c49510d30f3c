/** The partition tables of the block decoders: for each 4x4 block shape, the subset of every texel,
    with 128 added at the texel whose index is stored with one bit less. */
module Partitions {

  datatype Row = Row(c0: nat, c1: nat, c2: nat, c3: nat, c4: nat, c5: nat, c6: nat, c7: nat,
                     c8: nat, c9: nat, c10: nat, c11: nat, c12: nat, c13: nat, c14: nat, c15: nat)
  {
    function Cells(): (cells: seq<nat>)
      ensures |cells| == 16
    {
      [c0, c1, c2, c3, c4, c5, c6, c7, c8, c9, c10, c11, c12, c13, c14, c15]
    }
  }

  predicate IsAnchor(cell: nat) {
    cell >= 128
  }

  /** The low two bits of a cell. */
  function SubsetOf(cell: nat): nat {
    cell % 4
  }

  function Mark(cell: nat): nat {
    if IsAnchor(cell) then 1 else 0
  }

  predicate CellOk(cell: nat, k: nat) {
    cell < k || 128 <= cell < 128 + k
  }

  function Is(cell: nat, value: nat): nat {
    if cell == value then 1 else 0
  }

  predicate Has(r: Row, v: nat) {
    || r.c0 == v || r.c1 == v || r.c2 == v || r.c3 == v || r.c4 == v || r.c5 == v || r.c6 == v || r.c7 == v
    || r.c8 == v || r.c9 == v || r.c10 == v || r.c11 == v || r.c12 == v || r.c13 == v || r.c14 == v || r.c15 == v
  }

  /** Subsets below k, and as many anchors, one of them in each subset; the first texel is that of
      subset 0. */
  predicate RowOk(r: Row, k: nat) {
    && r.c0 == 128
    && (k > 1 ==> Has(r, 129))
    && (k > 2 ==> Has(r, 130))
    && Mark(r.c0) + Mark(r.c1) + Mark(r.c2) + Mark(r.c3) + Mark(r.c4) + Mark(r.c5) + Mark(r.c6) + Mark(r.c7)
       + Mark(r.c8) + Mark(r.c9) + Mark(r.c10) + Mark(r.c11) + Mark(r.c12) + Mark(r.c13) + Mark(r.c14) + Mark(r.c15) == k
    && CellOk(r.c0, k) && CellOk(r.c1, k) && CellOk(r.c2, k) && CellOk(r.c3, k)
    && CellOk(r.c4, k) && CellOk(r.c5, k) && CellOk(r.c6, k) && CellOk(r.c7, k)
    && CellOk(r.c8, k) && CellOk(r.c9, k) && CellOk(r.c10, k) && CellOk(r.c11, k)
    && CellOk(r.c12, k) && CellOk(r.c13, k) && CellOk(r.c14, k) && CellOk(r.c15, k)
  }

  /** Anchors among the first n cells. */
  function Anchors(cells: seq<nat>, n: nat): nat
    requires n <= |cells|
  {
    if n == 0 then 0 else Anchors(cells, n - 1) + Mark(cells[n - 1])
  }

  /** Anchors of one subset among the first n cells. */
  function AnchorsOf(cells: seq<nat>, n: nat, subset: nat): nat
    requires n <= |cells|
  {
    if n == 0 then 0 else AnchorsOf(cells, n - 1, subset) + Is(cells[n - 1], 128 + subset)
  }

  /** A block shape with k subsets: each has one anchor. */
  ghost predicate ShapeOk(cells: seq<nat>, k: nat) {
    && |cells| == 16
    && cells[0] == 128
    && (forall s: nat | s < k :: AnchorsOf(cells, |cells|, s) == 1)
    && forall t | 0 <= t < 16 :: CellOk(cells[t], k)
  }

  lemma RowCells(r: Row, k: nat)
    requires RowOk(r, k)
    ensures forall t | 0 <= t < 16 :: CellOk(r.Cells()[t], k)
  {
  }

  lemma RowHas(r: Row, cells: seq<nat>, subset: nat)
    requires Has(r, 128 + subset) && cells == r.Cells()
    ensures AnchorsOf(cells, |cells|, subset) >= 1
  {
    AnchorFound(cells, subset, IndexOf(r, 128 + subset), |cells|);
  }

  lemma RowSubsets(r: Row, cells: seq<nat>, k: nat)
    requires k <= 3 && r.c0 == 128 && (k > 1 ==> Has(r, 129)) && (k > 2 ==> Has(r, 130)) && cells == r.Cells()
    ensures forall s: nat | s < k :: AnchorsOf(cells, |cells|, s) >= 1
  {
    if k > 0 {
      RowHas(r, cells, 0);
    }
    if k > 1 {
      RowHas(r, cells, 1);
    }
    if k > 2 {
      RowHas(r, cells, 2);
    }
  }

  /** As many anchors as subsets and one in each: exactly one in each. */
  lemma RowShapes(r: Row, k: nat)
    requires RowOk(r, k) && 1 <= k <= 3
    ensures ShapeOk(r.Cells(), k)
  {
    RowAnchors(r, k);
    RowCells(r, k);
    RowSubsets(r, r.Cells(), k);
    OneEach(r.Cells(), k);
  }

  lemma OneEach(cells: seq<nat>, k: nat)
    requires |cells| == 16 && cells[0] == 128 && 1 <= k <= 3 && Anchors(cells, |cells|) == k
    requires forall t | 0 <= t < 16 :: CellOk(cells[t], k)
    requires forall s: nat | s < k :: AnchorsOf(cells, |cells|, s) >= 1
    ensures ShapeOk(cells, k)
  {
    AnchorsBySubset(cells, k, |cells|);
    assert AnchorsOf(cells, |cells|, 0) >= 1;
    assert k > 1 ==> AnchorsOf(cells, |cells|, 1) >= 1;
    assert k > 2 ==> AnchorsOf(cells, |cells|, 2) >= 1;
  }

  function IndexOf(r: Row, v: nat): (t: nat)
    requires Has(r, v)
    ensures t < 16 && r.Cells()[t] == v
  {
    if r.c0 == v then 0 else if r.c1 == v then 1 else if r.c2 == v then 2 else if r.c3 == v then 3
    else if r.c4 == v then 4 else if r.c5 == v then 5 else if r.c6 == v then 6 else if r.c7 == v then 7
    else if r.c8 == v then 8 else if r.c9 == v then 9 else if r.c10 == v then 10 else if r.c11 == v then 11
    else if r.c12 == v then 12 else if r.c13 == v then 13 else if r.c14 == v then 14 else 15
  }

  lemma {:induction false} AnchorFound(cells: seq<nat>, subset: nat, t: nat, n: nat)
    requires t < n <= |cells| && cells[t] == 128 + subset
    ensures AnchorsOf(cells, n, subset) >= 1
  {
    if t < n - 1 {
      AnchorFound(cells, subset, t, n - 1);
    }
  }

  lemma RowAnchors(r: Row, k: nat)
    requires RowOk(r, k)
    ensures Anchors(r.Cells(), |r.Cells()|) == k
  {
    var s := r.Cells();
    FourMore(s, 0);
    FourMore(s, 4);
    FourMore(s, 8);
    FourMore(s, 12);
  }

  lemma FourMore(cells: seq<nat>, n: nat)
    requires n + 4 <= |cells|
    ensures Anchors(cells, n + 4)
            == Anchors(cells, n) + Mark(cells[n]) + Mark(cells[n + 1]) + Mark(cells[n + 2]) + Mark(cells[n + 3])
  {
    assert Anchors(cells, n + 2) == Anchors(cells, n) + Mark(cells[n]) + Mark(cells[n + 1]);
  }

  /** A shape has as many anchors as subsets. */
  lemma ShapeAnchors(cells: seq<nat>, k: nat)
    requires ShapeOk(cells, k) && 1 <= k <= 3
    ensures Anchors(cells, |cells|) == k
  {
    AnchorsBySubset(cells, k, |cells|);
    assert AnchorsOf(cells, |cells|, 0) == 1;
    assert k > 1 ==> AnchorsOf(cells, |cells|, 1) == 1;
    assert k > 2 ==> AnchorsOf(cells, |cells|, 2) == 1;
  }

  lemma {:induction false} AnchorsBySubset(cells: seq<nat>, k: nat, n: nat)
    requires n <= |cells| && 1 <= k <= 3
    requires forall t | 0 <= t < n :: CellOk(cells[t], k)
    ensures Anchors(cells, n) == AnchorsOf(cells, n, 0) + (if k > 1 then AnchorsOf(cells, n, 1) else 0)
                                 + (if k > 2 then AnchorsOf(cells, n, 2) else 0)
  {
    if n > 0 {
      AnchorsBySubset(cells, k, n - 1);
      assert CellOk(cells[n - 1], k);
    }
  }

  /** Shapes with two subsets, for BC7. */
  function TwoSubsets(p: nat): Row
    requires p < 64
  {
    match p
    case 0 => Row(128, 0, 1, 1, 0, 0, 1, 1, 0, 0, 1, 1, 0, 0, 1, 129)
    case 1 => Row(128, 0, 0, 1, 0, 0, 0, 1, 0, 0, 0, 1, 0, 0, 0, 129)
    case 2 => Row(128, 1, 1, 1, 0, 1, 1, 1, 0, 1, 1, 1, 0, 1, 1, 129)
    case 3 => Row(128, 0, 0, 1, 0, 0, 1, 1, 0, 0, 1, 1, 0, 1, 1, 129)
    case 4 => Row(128, 0, 0, 0, 0, 0, 0, 1, 0, 0, 0, 1, 0, 0, 1, 129)
    case 5 => Row(128, 0, 1, 1, 0, 1, 1, 1, 0, 1, 1, 1, 1, 1, 1, 129)
    case 6 => Row(128, 0, 0, 1, 0, 0, 1, 1, 0, 1, 1, 1, 1, 1, 1, 129)
    case 7 => Row(128, 0, 0, 0, 0, 0, 0, 1, 0, 0, 1, 1, 0, 1, 1, 129)
    case 8 => Row(128, 0, 0, 0, 0, 0, 0, 0, 0, 0, 0, 1, 0, 0, 1, 129)
    case 9 => Row(128, 0, 1, 1, 0, 1, 1, 1, 1, 1, 1, 1, 1, 1, 1, 129)
    case 10 => Row(128, 0, 0, 0, 0, 0, 0, 1, 0, 1, 1, 1, 1, 1, 1, 129)
    case 11 => Row(128, 0, 0, 0, 0, 0, 0, 0, 0, 0, 0, 1, 0, 1, 1, 129)
    case 12 => Row(128, 0, 0, 1, 0, 1, 1, 1, 1, 1, 1, 1, 1, 1, 1, 129)
    case 13 => Row(128, 0, 0, 0, 0, 0, 0, 0, 1, 1, 1, 1, 1, 1, 1, 129)
    case 14 => Row(128, 0, 0, 0, 1, 1, 1, 1, 1, 1, 1, 1, 1, 1, 1, 129)
    case 15 => Row(128, 0, 0, 0, 0, 0, 0, 0, 0, 0, 0, 0, 1, 1, 1, 129)
    case 16 => Row(128, 0, 0, 0, 1, 0, 0, 0, 1, 1, 1, 0, 1, 1, 1, 129)
    case 17 => Row(128, 1, 129, 1, 0, 0, 0, 1, 0, 0, 0, 0, 0, 0, 0, 0)
    case 18 => Row(128, 0, 0, 0, 0, 0, 0, 0, 129, 0, 0, 0, 1, 1, 1, 0)
    case 19 => Row(128, 1, 129, 1, 0, 0, 1, 1, 0, 0, 0, 1, 0, 0, 0, 0)
    case 20 => Row(128, 0, 129, 1, 0, 0, 0, 1, 0, 0, 0, 0, 0, 0, 0, 0)
    case 21 => Row(128, 0, 0, 0, 1, 0, 0, 0, 129, 1, 0, 0, 1, 1, 1, 0)
    case 22 => Row(128, 0, 0, 0, 0, 0, 0, 0, 129, 0, 0, 0, 1, 1, 0, 0)
    case 23 => Row(128, 1, 1, 1, 0, 0, 1, 1, 0, 0, 1, 1, 0, 0, 0, 129)
    case 24 => Row(128, 0, 129, 1, 0, 0, 0, 1, 0, 0, 0, 1, 0, 0, 0, 0)
    case 25 => Row(128, 0, 0, 0, 1, 0, 0, 0, 129, 0, 0, 0, 1, 1, 0, 0)
    case 26 => Row(128, 1, 129, 0, 0, 1, 1, 0, 0, 1, 1, 0, 0, 1, 1, 0)
    case 27 => Row(128, 0, 129, 1, 0, 1, 1, 0, 0, 1, 1, 0, 1, 1, 0, 0)
    case 28 => Row(128, 0, 0, 1, 0, 1, 1, 1, 129, 1, 1, 0, 1, 0, 0, 0)
    case 29 => Row(128, 0, 0, 0, 1, 1, 1, 1, 129, 1, 1, 1, 0, 0, 0, 0)
    case 30 => Row(128, 1, 129, 1, 0, 0, 0, 1, 1, 0, 0, 0, 1, 1, 1, 0)
    case 31 => Row(128, 0, 129, 1, 1, 0, 0, 1, 1, 0, 0, 1, 1, 1, 0, 0)
    case 32 => Row(128, 1, 0, 1, 0, 1, 0, 1, 0, 1, 0, 1, 0, 1, 0, 129)
    case 33 => Row(128, 0, 0, 0, 1, 1, 1, 1, 0, 0, 0, 0, 1, 1, 1, 129)
    case 34 => Row(128, 1, 0, 1, 1, 0, 129, 0, 0, 1, 0, 1, 1, 0, 1, 0)
    case 35 => Row(128, 0, 1, 1, 0, 0, 1, 1, 129, 1, 0, 0, 1, 1, 0, 0)
    case 36 => Row(128, 0, 129, 1, 1, 1, 0, 0, 0, 0, 1, 1, 1, 1, 0, 0)
    case 37 => Row(128, 1, 0, 1, 0, 1, 0, 1, 129, 0, 1, 0, 1, 0, 1, 0)
    case 38 => Row(128, 1, 1, 0, 1, 0, 0, 1, 0, 1, 1, 0, 1, 0, 0, 129)
    case 39 => Row(128, 1, 0, 1, 1, 0, 1, 0, 1, 0, 1, 0, 0, 1, 0, 129)
    case 40 => Row(128, 1, 129, 1, 0, 0, 1, 1, 1, 1, 0, 0, 1, 1, 1, 0)
    case 41 => Row(128, 0, 0, 1, 0, 0, 1, 1, 129, 1, 0, 0, 1, 0, 0, 0)
    case 42 => Row(128, 0, 129, 1, 0, 0, 1, 0, 0, 1, 0, 0, 1, 1, 0, 0)
    case 43 => Row(128, 0, 129, 1, 1, 0, 1, 1, 1, 1, 0, 1, 1, 1, 0, 0)
    case 44 => Row(128, 1, 129, 0, 1, 0, 0, 1, 1, 0, 0, 1, 0, 1, 1, 0)
    case 45 => Row(128, 0, 1, 1, 1, 1, 0, 0, 1, 1, 0, 0, 0, 0, 1, 129)
    case 46 => Row(128, 1, 1, 0, 0, 1, 1, 0, 1, 0, 0, 1, 1, 0, 0, 129)
    case 47 => Row(128, 0, 0, 0, 0, 1, 129, 0, 0, 1, 1, 0, 0, 0, 0, 0)
    case 48 => Row(128, 1, 0, 0, 1, 1, 129, 0, 0, 1, 0, 0, 0, 0, 0, 0)
    case 49 => Row(128, 0, 129, 0, 0, 1, 1, 1, 0, 0, 1, 0, 0, 0, 0, 0)
    case 50 => Row(128, 0, 0, 0, 0, 0, 129, 0, 0, 1, 1, 1, 0, 0, 1, 0)
    case 51 => Row(128, 0, 0, 0, 0, 1, 0, 0, 129, 1, 1, 0, 0, 1, 0, 0)
    case 52 => Row(128, 1, 1, 0, 1, 1, 0, 0, 1, 0, 0, 1, 0, 0, 1, 129)
    case 53 => Row(128, 0, 1, 1, 0, 1, 1, 0, 1, 1, 0, 0, 1, 0, 0, 129)
    case 54 => Row(128, 1, 129, 0, 0, 0, 1, 1, 1, 0, 0, 1, 1, 1, 0, 0)
    case 55 => Row(128, 0, 129, 1, 1, 0, 0, 1, 1, 1, 0, 0, 0, 1, 1, 0)
    case 56 => Row(128, 1, 1, 0, 1, 1, 0, 0, 1, 1, 0, 0, 1, 0, 0, 129)
    case 57 => Row(128, 1, 1, 0, 0, 0, 1, 1, 0, 0, 1, 1, 1, 0, 0, 129)
    case 58 => Row(128, 1, 1, 1, 1, 1, 1, 0, 1, 0, 0, 0, 0, 0, 0, 129)
    case 59 => Row(128, 0, 0, 1, 1, 0, 0, 0, 1, 1, 1, 0, 0, 1, 1, 129)
    case 60 => Row(128, 0, 0, 0, 1, 1, 1, 1, 0, 0, 1, 1, 0, 0, 1, 129)
    case 61 => Row(128, 0, 129, 1, 0, 0, 1, 1, 1, 1, 1, 1, 0, 0, 0, 0)
    case 62 => Row(128, 0, 129, 0, 0, 0, 1, 0, 1, 1, 1, 0, 1, 1, 1, 0)
    case _ => Row(128, 1, 0, 0, 0, 1, 0, 0, 0, 1, 1, 1, 0, 1, 1, 129)
  }

  /** Shapes with three subsets, for BC7. */
  function ThreeSubsets(p: nat): Row
    requires p < 64
  {
    match p
    case 0 => Row(128, 0, 1, 129, 0, 0, 1, 1, 0, 2, 2, 1, 2, 2, 2, 130)
    case 1 => Row(128, 0, 0, 129, 0, 0, 1, 1, 130, 2, 1, 1, 2, 2, 2, 1)
    case 2 => Row(128, 0, 0, 0, 2, 0, 0, 1, 130, 2, 1, 1, 2, 2, 1, 129)
    case 3 => Row(128, 2, 2, 130, 0, 0, 2, 2, 0, 0, 1, 1, 0, 1, 1, 129)
    case 4 => Row(128, 0, 0, 0, 0, 0, 0, 0, 129, 1, 2, 2, 1, 1, 2, 130)
    case 5 => Row(128, 0, 1, 129, 0, 0, 1, 1, 0, 0, 2, 2, 0, 0, 2, 130)
    case 6 => Row(128, 0, 2, 130, 0, 0, 2, 2, 1, 1, 1, 1, 1, 1, 1, 129)
    case 7 => Row(128, 0, 1, 1, 0, 0, 1, 1, 130, 2, 1, 1, 2, 2, 1, 129)
    case 8 => Row(128, 0, 0, 0, 0, 0, 0, 0, 129, 1, 1, 1, 2, 2, 2, 130)
    case 9 => Row(128, 0, 0, 0, 1, 1, 1, 1, 129, 1, 1, 1, 2, 2, 2, 130)
    case 10 => Row(128, 0, 0, 0, 1, 1, 129, 1, 2, 2, 2, 2, 2, 2, 2, 130)
    case 11 => Row(128, 0, 1, 2, 0, 0, 129, 2, 0, 0, 1, 2, 0, 0, 1, 130)
    case 12 => Row(128, 1, 1, 2, 0, 1, 129, 2, 0, 1, 1, 2, 0, 1, 1, 130)
    case 13 => Row(128, 1, 2, 2, 0, 129, 2, 2, 0, 1, 2, 2, 0, 1, 2, 130)
    case 14 => Row(128, 0, 1, 129, 0, 1, 1, 2, 1, 1, 2, 2, 1, 2, 2, 130)
    case 15 => Row(128, 0, 1, 129, 2, 0, 0, 1, 130, 2, 0, 0, 2, 2, 2, 0)
    case 16 => Row(128, 0, 0, 129, 0, 0, 1, 1, 0, 1, 1, 2, 1, 1, 2, 130)
    case 17 => Row(128, 1, 1, 129, 0, 0, 1, 1, 130, 0, 0, 1, 2, 2, 0, 0)
    case 18 => Row(128, 0, 0, 0, 1, 1, 2, 2, 129, 1, 2, 2, 1, 1, 2, 130)
    case 19 => Row(128, 0, 2, 130, 0, 0, 2, 2, 0, 0, 2, 2, 1, 1, 1, 129)
    case 20 => Row(128, 1, 1, 129, 0, 1, 1, 1, 0, 2, 2, 2, 0, 2, 2, 130)
    case 21 => Row(128, 0, 0, 129, 0, 0, 0, 1, 130, 2, 2, 1, 2, 2, 2, 1)
    case 22 => Row(128, 0, 0, 0, 0, 0, 129, 1, 0, 1, 2, 2, 0, 1, 2, 130)
    case 23 => Row(128, 0, 0, 0, 1, 1, 0, 0, 130, 2, 129, 0, 2, 2, 1, 0)
    case 24 => Row(128, 1, 2, 130, 0, 129, 2, 2, 0, 0, 1, 1, 0, 0, 0, 0)
    case 25 => Row(128, 0, 1, 2, 0, 0, 1, 2, 129, 1, 2, 2, 2, 2, 2, 130)
    case 26 => Row(128, 1, 1, 0, 1, 2, 130, 1, 129, 2, 2, 1, 0, 1, 1, 0)
    case 27 => Row(128, 0, 0, 0, 0, 1, 129, 0, 1, 2, 130, 1, 1, 2, 2, 1)
    case 28 => Row(128, 0, 2, 2, 1, 1, 0, 2, 129, 1, 0, 2, 0, 0, 2, 130)
    case 29 => Row(128, 1, 1, 0, 0, 129, 1, 0, 2, 0, 0, 2, 2, 2, 2, 130)
    case 30 => Row(128, 0, 1, 1, 0, 1, 2, 2, 0, 1, 130, 2, 0, 0, 1, 129)
    case 31 => Row(128, 0, 0, 0, 2, 0, 0, 0, 130, 2, 1, 1, 2, 2, 2, 129)
    case 32 => Row(128, 0, 0, 0, 0, 0, 0, 2, 129, 1, 2, 2, 1, 2, 2, 130)
    case 33 => Row(128, 2, 2, 130, 0, 0, 2, 2, 0, 0, 1, 2, 0, 0, 1, 129)
    case 34 => Row(128, 0, 1, 129, 0, 0, 1, 2, 0, 0, 2, 2, 0, 2, 2, 130)
    case 35 => Row(128, 1, 2, 0, 0, 129, 2, 0, 0, 1, 130, 0, 0, 1, 2, 0)
    case 36 => Row(128, 0, 0, 0, 1, 1, 129, 1, 2, 2, 130, 2, 0, 0, 0, 0)
    case 37 => Row(128, 1, 2, 0, 1, 2, 0, 1, 130, 0, 129, 2, 0, 1, 2, 0)
    case 38 => Row(128, 1, 2, 0, 2, 0, 1, 2, 129, 130, 0, 1, 0, 1, 2, 0)
    case 39 => Row(128, 0, 1, 1, 2, 2, 0, 0, 1, 1, 130, 2, 0, 0, 1, 129)
    case 40 => Row(128, 0, 1, 1, 1, 1, 130, 2, 2, 2, 0, 0, 0, 0, 1, 129)
    case 41 => Row(128, 1, 0, 129, 0, 1, 0, 1, 2, 2, 2, 2, 2, 2, 2, 130)
    case 42 => Row(128, 0, 0, 0, 0, 0, 0, 0, 130, 1, 2, 1, 2, 1, 2, 129)
    case 43 => Row(128, 0, 2, 2, 1, 129, 2, 2, 0, 0, 2, 2, 1, 1, 2, 130)
    case 44 => Row(128, 0, 2, 130, 0, 0, 1, 1, 0, 0, 2, 2, 0, 0, 1, 129)
    case 45 => Row(128, 2, 2, 0, 1, 2, 130, 1, 0, 2, 2, 0, 1, 2, 2, 129)
    case 46 => Row(128, 1, 0, 1, 2, 2, 130, 2, 2, 2, 2, 2, 0, 1, 0, 129)
    case 47 => Row(128, 0, 0, 0, 2, 1, 2, 1, 130, 1, 2, 1, 2, 1, 2, 129)
    case 48 => Row(128, 1, 0, 129, 0, 1, 0, 1, 0, 1, 0, 1, 2, 2, 2, 130)
    case 49 => Row(128, 2, 2, 130, 0, 1, 1, 1, 0, 2, 2, 2, 0, 1, 1, 129)
    case 50 => Row(128, 0, 0, 2, 1, 129, 1, 2, 0, 0, 0, 2, 1, 1, 1, 130)
    case 51 => Row(128, 0, 0, 0, 2, 129, 1, 2, 2, 1, 1, 2, 2, 1, 1, 130)
    case 52 => Row(128, 2, 2, 2, 0, 129, 1, 1, 0, 1, 1, 1, 0, 2, 2, 130)
    case 53 => Row(128, 0, 0, 2, 1, 1, 1, 2, 129, 1, 1, 2, 0, 0, 0, 130)
    case 54 => Row(128, 1, 1, 0, 0, 129, 1, 0, 0, 1, 1, 0, 2, 2, 2, 130)
    case 55 => Row(128, 0, 0, 0, 0, 0, 0, 0, 2, 1, 129, 2, 2, 1, 1, 130)
    case 56 => Row(128, 1, 1, 0, 0, 129, 1, 0, 2, 2, 2, 2, 2, 2, 2, 130)
    case 57 => Row(128, 0, 2, 2, 0, 0, 1, 1, 0, 0, 129, 1, 0, 0, 2, 130)
    case 58 => Row(128, 0, 2, 2, 1, 1, 2, 2, 129, 1, 2, 2, 0, 0, 2, 130)
    case 59 => Row(128, 0, 0, 0, 0, 0, 0, 0, 0, 0, 0, 0, 2, 129, 1, 130)
    case 60 => Row(128, 0, 0, 130, 0, 0, 0, 1, 0, 0, 0, 2, 0, 0, 0, 129)
    case 61 => Row(128, 2, 2, 2, 1, 2, 2, 2, 0, 2, 2, 2, 129, 2, 2, 130)
    case 62 => Row(128, 1, 0, 129, 2, 2, 2, 2, 2, 2, 2, 2, 2, 2, 2, 130)
    case _ => Row(128, 1, 1, 129, 2, 0, 1, 1, 130, 2, 0, 1, 2, 2, 2, 0)
  }

  /** Shapes with two subsets, for BC6H. */
  function Bc6hSubsets(p: nat): Row
    requires p < 32
  {
    match p
    case 0 => Row(128, 0, 1, 1, 0, 0, 1, 1, 0, 0, 1, 1, 0, 0, 1, 129)
    case 1 => Row(128, 0, 0, 1, 0, 0, 0, 1, 0, 0, 0, 1, 0, 0, 0, 129)
    case 2 => Row(128, 1, 1, 1, 0, 1, 1, 1, 0, 1, 1, 1, 0, 1, 1, 129)
    case 3 => Row(128, 0, 0, 1, 0, 0, 1, 1, 0, 0, 1, 1, 0, 1, 1, 129)
    case 4 => Row(128, 0, 0, 0, 0, 0, 0, 1, 0, 0, 0, 1, 0, 0, 1, 129)
    case 5 => Row(128, 0, 1, 1, 0, 1, 1, 1, 0, 1, 1, 1, 1, 1, 1, 129)
    case 6 => Row(128, 0, 0, 1, 0, 0, 1, 1, 0, 1, 1, 1, 1, 1, 1, 129)
    case 7 => Row(128, 0, 0, 0, 0, 0, 0, 1, 0, 0, 1, 1, 0, 1, 1, 129)
    case 8 => Row(128, 0, 0, 0, 0, 0, 0, 0, 0, 0, 0, 1, 0, 0, 1, 129)
    case 9 => Row(128, 0, 1, 1, 0, 1, 1, 1, 1, 1, 1, 1, 1, 1, 1, 129)
    case 10 => Row(128, 0, 0, 0, 0, 0, 0, 1, 0, 1, 1, 1, 1, 1, 1, 129)
    case 11 => Row(128, 0, 0, 0, 0, 0, 0, 0, 0, 0, 0, 1, 0, 1, 1, 129)
    case 12 => Row(128, 0, 0, 1, 0, 1, 1, 1, 1, 1, 1, 1, 1, 1, 1, 129)
    case 13 => Row(128, 0, 0, 0, 0, 0, 0, 0, 1, 1, 1, 1, 1, 1, 1, 129)
    case 14 => Row(128, 0, 0, 0, 1, 1, 1, 1, 1, 1, 1, 1, 1, 1, 1, 129)
    case 15 => Row(128, 0, 0, 0, 0, 0, 0, 0, 0, 0, 0, 0, 1, 1, 1, 129)
    case 16 => Row(128, 0, 0, 0, 1, 0, 0, 0, 1, 1, 1, 0, 1, 1, 1, 129)
    case 17 => Row(128, 1, 129, 1, 0, 0, 0, 1, 0, 0, 0, 0, 0, 0, 0, 0)
    case 18 => Row(128, 0, 0, 0, 0, 0, 0, 0, 129, 0, 0, 0, 1, 1, 1, 0)
    case 19 => Row(128, 1, 129, 1, 0, 0, 1, 1, 0, 0, 0, 1, 0, 0, 0, 0)
    case 20 => Row(128, 0, 129, 1, 0, 0, 0, 1, 0, 0, 0, 0, 0, 0, 0, 0)
    case 21 => Row(128, 0, 0, 0, 1, 0, 0, 0, 129, 1, 0, 0, 1, 1, 1, 0)
    case 22 => Row(128, 0, 0, 0, 0, 0, 0, 0, 129, 0, 0, 0, 1, 1, 0, 0)
    case 23 => Row(128, 1, 1, 1, 0, 0, 1, 1, 0, 0, 1, 1, 0, 0, 0, 129)
    case 24 => Row(128, 0, 129, 1, 0, 0, 0, 1, 0, 0, 0, 1, 0, 0, 0, 0)
    case 25 => Row(128, 0, 0, 0, 1, 0, 0, 0, 129, 0, 0, 0, 1, 1, 0, 0)
    case 26 => Row(128, 1, 129, 0, 0, 1, 1, 0, 0, 1, 1, 0, 0, 1, 1, 0)
    case 27 => Row(128, 0, 129, 1, 0, 1, 1, 0, 0, 1, 1, 0, 1, 1, 0, 0)
    case 28 => Row(128, 0, 0, 1, 0, 1, 1, 1, 129, 1, 1, 0, 1, 0, 0, 0)
    case 29 => Row(128, 0, 0, 0, 1, 1, 1, 1, 129, 1, 1, 1, 0, 0, 0, 0)
    case 30 => Row(128, 1, 129, 1, 0, 0, 0, 1, 1, 0, 0, 0, 1, 1, 1, 0)
    case _ => Row(128, 0, 129, 1, 1, 0, 0, 1, 1, 0, 0, 1, 1, 1, 0, 0)
  }

  lemma TwoSubsetsOk0(p: nat)
    requires 0 <= p < 8
    ensures RowOk(TwoSubsets(p), 2)
  {
  }

  lemma TwoSubsetsOk1(p: nat)
    requires 8 <= p < 16
    ensures RowOk(TwoSubsets(p), 2)
  {
  }

  lemma TwoSubsetsOk2(p: nat)
    requires 16 <= p < 24
    ensures RowOk(TwoSubsets(p), 2)
  {
  }

  lemma TwoSubsetsOk3(p: nat)
    requires 24 <= p < 32
    ensures RowOk(TwoSubsets(p), 2)
  {
  }

  lemma TwoSubsetsOk4(p: nat)
    requires 32 <= p < 40
    ensures RowOk(TwoSubsets(p), 2)
  {
  }

  lemma TwoSubsetsOk5(p: nat)
    requires 40 <= p < 48
    ensures RowOk(TwoSubsets(p), 2)
  {
  }

  lemma TwoSubsetsOk6(p: nat)
    requires 48 <= p < 56
    ensures RowOk(TwoSubsets(p), 2)
  {
  }

  lemma TwoSubsetsOk7(p: nat)
    requires 56 <= p < 64
    ensures RowOk(TwoSubsets(p), 2)
  {
  }

  lemma ThreeSubsetsOk0(p: nat)
    requires 0 <= p < 8
    ensures RowOk(ThreeSubsets(p), 3)
  {
  }

  lemma ThreeSubsetsOk1(p: nat)
    requires 8 <= p < 16
    ensures RowOk(ThreeSubsets(p), 3)
  {
  }

  lemma ThreeSubsetsOk2(p: nat)
    requires 16 <= p < 24
    ensures RowOk(ThreeSubsets(p), 3)
  {
  }

  lemma ThreeSubsetsOk3(p: nat)
    requires 24 <= p < 32
    ensures RowOk(ThreeSubsets(p), 3)
  {
  }

  lemma ThreeSubsetsOk4(p: nat)
    requires 32 <= p < 40
    ensures RowOk(ThreeSubsets(p), 3)
  {
  }

  lemma ThreeSubsetsOk5(p: nat)
    requires 40 <= p < 48
    ensures RowOk(ThreeSubsets(p), 3)
  {
  }

  lemma ThreeSubsetsOk6(p: nat)
    requires 48 <= p < 56
    ensures RowOk(ThreeSubsets(p), 3)
  {
  }

  lemma ThreeSubsetsOk7(p: nat)
    requires 56 <= p < 64
    ensures RowOk(ThreeSubsets(p), 3)
  {
  }

  lemma Bc6hSubsetsOk0(p: nat)
    requires 0 <= p < 8
    ensures RowOk(Bc6hSubsets(p), 2)
  {
  }

  lemma Bc6hSubsetsOk1(p: nat)
    requires 8 <= p < 16
    ensures RowOk(Bc6hSubsets(p), 2)
  {
  }

  lemma Bc6hSubsetsOk2(p: nat)
    requires 16 <= p < 24
    ensures RowOk(Bc6hSubsets(p), 2)
  {
  }

  lemma Bc6hSubsetsOk3(p: nat)
    requires 24 <= p < 32
    ensures RowOk(Bc6hSubsets(p), 2)
  {
  }

  lemma TwoSubsetsOk(p: nat)
    requires p < 64
    ensures RowOk(TwoSubsets(p), 2)
  {
    if p < 8 {
      TwoSubsetsOk0(p);
    } else if p < 16 {
      TwoSubsetsOk1(p);
    } else if p < 24 {
      TwoSubsetsOk2(p);
    } else if p < 32 {
      TwoSubsetsOk3(p);
    } else if p < 40 {
      TwoSubsetsOk4(p);
    } else if p < 48 {
      TwoSubsetsOk5(p);
    } else if p < 56 {
      TwoSubsetsOk6(p);
    } else {
      TwoSubsetsOk7(p);
    }
  }

  lemma ThreeSubsetsOk(p: nat)
    requires p < 64
    ensures RowOk(ThreeSubsets(p), 3)
  {
    if p < 8 {
      ThreeSubsetsOk0(p);
    } else if p < 16 {
      ThreeSubsetsOk1(p);
    } else if p < 24 {
      ThreeSubsetsOk2(p);
    } else if p < 32 {
      ThreeSubsetsOk3(p);
    } else if p < 40 {
      ThreeSubsetsOk4(p);
    } else if p < 48 {
      ThreeSubsetsOk5(p);
    } else if p < 56 {
      ThreeSubsetsOk6(p);
    } else {
      ThreeSubsetsOk7(p);
    }
  }

  lemma Bc6hSubsetsOk(p: nat)
    requires p < 32
    ensures RowOk(Bc6hSubsets(p), 2)
  {
    if p < 8 {
      Bc6hSubsetsOk0(p);
    } else if p < 16 {
      Bc6hSubsetsOk1(p);
    } else if p < 24 {
      Bc6hSubsetsOk2(p);
    } else {
      Bc6hSubsetsOk3(p);
    }
  }

  const WHOLE := Row(128, 0, 0, 0, 0, 0, 0, 0, 0, 0, 0, 0, 0, 0, 0, 0)

  /** The shape of a BC7 block; without partitions the first texel is the only anchor. */
  function Bc7Shape(numPartitions: nat, partition: nat): (cells: seq<nat>)
    requires 1 <= numPartitions <= 3 && partition < 64
    ensures ShapeOk(cells, numPartitions)
  {
    TwoSubsetsOk(partition);
    ThreeSubsetsOk(partition);
    var row := if numPartitions == 2 then TwoSubsets(partition)
               else if numPartitions == 3 then ThreeSubsets(partition)
               else WHOLE;
    RowShapes(row, numPartitions);
    row.Cells()
  }

  /** The shape of a BC6H block. */
  function Bc6hShape(numSubsets: nat, partition: nat): (cells: seq<nat>)
    requires 1 <= numSubsets <= 2 && partition < 32
    ensures ShapeOk(cells, numSubsets)
  {
    Bc6hSubsetsOk(partition);
    var row := if numSubsets == 2 then Bc6hSubsets(partition) else WHOLE;
    RowShapes(row, numSubsets);
    row.Cells()
  }
}
