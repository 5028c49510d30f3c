/** The state the Munkres steps share, as a value: the reduced matrix, the starred
    and primed zeros, the covers, and the potentials that explain the reductions. */
module Tableaux {
  import opened Assignments
  import opened ColumnMajor

  /** x is an integer multiple of g. */
  ghost predicate OnGrid(x: real, g: real) {
    exists k: int :: x == Multiple(k, g)
  }

  ghost function Multiple(k: int, g: real): real {
    k as real * g
  }

  lemma MultiplesAdd(j: int, k: int, g: real)
    ensures Multiple(j, g) + Multiple(k, g) == Multiple(j + k, g)
    ensures Multiple(j, g) - Multiple(k, g) == Multiple(j - k, g)
  {
  }

  lemma GridClosed(x: real, y: real, g: real)
    requires OnGrid(x, g) && OnGrid(y, g)
    ensures OnGrid(x + y, g) && OnGrid(x - y, g)
  {
    var j :| x == Multiple(j, g);
    var k :| y == Multiple(k, g);
    MultiplesAdd(j, k, g);
  }

  lemma {:induction false} MultipleAtLeast(k: int, g: real)
    requires k >= 0 && g > 0.0
    ensures Multiple(k, g) >= 0.0
    ensures k >= 1 ==> Multiple(k, g) >= g
    ensures Multiple(-k, g) <= 0.0
  {
  }

  /** Below the grid width, only zero is on the grid. */
  lemma GridSmall(x: real, g: real)
    requires 0.0 <= x < g && OnGrid(x, g)
    ensures x == 0.0
  {
    var k :| x == Multiple(k, g);
    MultipleAtLeast(if k >= 0 then k else -k, g);
  }

  datatype Tableau = Tableau(
    n: nat,                  // rows
    m: nat,                  // columns
    eps: real,               // below this a value counts as zero
    grid: real,              // when positive, every entry is a multiple of it
    cost: Matrix,            // the matrix as given
    dist: seq<real>,         // the reduced matrix
    star: seq<bool>,
    prime: seq<bool>,
    rowCovered: seq<bool>,
    colCovered: seq<bool>,
    u: seq<real>,            // what has been subtracted from each row
    v: seq<real>,            // what has been subtracted from each column
    top: real,               // the largest column potential
    time: seq<int>,          // when each covered row was covered
    clock: int)
  {
    ghost predicate Shaped() {
      && IsMatrix(cost, n, m)
      && |dist| == |star| == |prime| == Span(n, m)
      && |rowCovered| == |u| == |time| == n
      && |colCovered| == |v| == m
    }

    ghost predicate Cell(r: int, c: int) {
      0 <= r < n && 0 <= c < m
    }

    ghost function D(r: int, c: int): real
      requires Shaped() && Cell(r, c)
    {
      At(n, m, dist, r, c)
    }

    ghost predicate Starred(r: int, c: int)
      requires Shaped() && Cell(r, c)
    {
      At(n, m, star, r, c)
    }

    ghost predicate Primed(r: int, c: int)
      requires Shaped() && Cell(r, c)
    {
      At(n, m, prime, r, c)
    }

    ghost predicate RowStarred(r: int)
      requires Shaped() && 0 <= r < n
    {
      exists c | 0 <= c < m :: Starred(r, c)
    }

    ghost predicate ColStarred(c: int)
      requires Shaped() && 0 <= c < m
    {
      exists r | 0 <= r < n :: Starred(r, c)
    }

    ghost function StarredRows(): set<int>
      requires Shaped()
    {
      set r | 0 <= r < n && RowStarred(r)
    }

    ghost function StarredCols(): set<int>
      requires Shaped()
    {
      set c | 0 <= c < m && ColStarred(c)
    }

    // What holds of the reductions and the stars at every moment

    /** The reduced matrix is the original less the potentials, and non-negative. */
    ghost predicate Dual()
      requires Shaped()
    {
      forall r, c | Cell(r, c) :: 0.0 <= D(r, c) == cost[r][c] - u[r] - v[c]
    }

    ghost predicate Gridded()
      requires Shaped()
    {
      grid > 0.0 ==> grid >= eps && forall r, c | Cell(r, c) :: OnGrid(D(r, c), grid)
    }

    /** Stars are zeros. */
    ghost predicate StarsSmall()
      requires Shaped()
    {
      forall r, c | Cell(r, c) && Starred(r, c) :: D(r, c) < eps
    }

    /** At most one star in a row and in a column. */
    ghost predicate Matching()
      requires Shaped()
    {
      && (forall r, c, c' | Cell(r, c) && Cell(r, c') && Starred(r, c) && Starred(r, c') :: c == c')
      && (forall r, r', c | Cell(r, c) && Cell(r', c) && Starred(r, c) && Starred(r', c) :: r == r')
    }

    /** Lines never starred still carry the largest potential of the shorter side's partners:
        columns when there are at least as many of them as rows, rows otherwise. */
    ghost predicate Extreme()
      requires Shaped()
    {
      if n <= m then
        forall c | 0 <= c < m :: v[c] <= top && (ColStarred(c) || v[c] == top)
      else
        forall r | 0 <= r < n :: u[r] <= 0.0 && (RowStarred(r) || u[r] == 0.0)
    }

    ghost predicate Core() {
      && Shaped()
      && eps > 0.0
      && Dual()
      && Gridded()
      && StarsSmall()
      && Matching()
      && Extreme()
    }

    // What holds of the covers and the primes between two augmentations

    /** Each star lies under exactly one line, and no line covers anything else. */
    ghost predicate StarsCoveredOnce()
      requires Shaped()
    {
      && (forall r, c | Cell(r, c) && Starred(r, c) :: rowCovered[r] != colCovered[c])
      && (forall r | 0 <= r < n && rowCovered[r] :: RowStarred(r))
      && (forall c | 0 <= c < m && colCovered[c] :: ColStarred(c))
    }

    ghost predicate RowPrimed(r: int)
      requires Shaped() && 0 <= r < n
    {
      exists c | 0 <= c < m :: Primed(r, c)
    }

    /** The primes are zeros, one in each covered row, all in uncovered columns. */
    ghost predicate PrimesInCoveredRows()
      requires Shaped()
    {
      && (forall r, c | Cell(r, c) && Primed(r, c) :: rowCovered[r] && !colCovered[c] && D(r, c) < eps)
      && (forall r, c, c' | Cell(r, c) && Cell(r, c') && Primed(r, c) && Primed(r, c') :: c == c')
      && (forall r | 0 <= r < n && rowCovered[r] :: RowPrimed(r))
    }

    /** A star in a prime's column belongs to a row covered before the prime's row. */
    ghost predicate Chronological()
      requires Shaped()
    {
      && (forall r | 0 <= r < n && rowCovered[r] :: time[r] < clock)
      && (forall r, c, s | Cell(r, c) && Cell(s, c) && Primed(r, c) && Starred(s, c) ::
            rowCovered[s] && time[s] < time[r])
    }

    ghost predicate Covers()
      requires Shaped()
    {
      StarsCoveredOnce() && PrimesInCoveredRows() && Chronological()
    }

    /** The invariant of step 3 and step 5. */
    ghost predicate Inv() {
      Core() && Covers()
    }

    /** No primes, no covered rows, and no covered column without a star. */
    ghost predicate Clean()
      requires Shaped()
    {
      && (forall r, c | Cell(r, c) :: !Primed(r, c))
      && (forall r | 0 <= r < n :: !rowCovered[r])
      && (forall c | 0 <= c < m && colCovered[c] :: ColStarred(c))
    }

    /** Clean, with every starred column covered: the state step 2b expects. */
    ghost predicate Fresh()
      requires Shaped()
    {
      Clean() && forall c | 0 <= c < m && ColStarred(c) :: colCovered[c]
    }

    ghost predicate Uncovered(r: int, c: int)
      requires Shaped() && Cell(r, c)
    {
      !rowCovered[r] && !colCovered[c]
    }

    ghost predicate HasUncoveredZero()
      requires Shaped()
    {
      exists r, c | Cell(r, c) :: Uncovered(r, c) && D(r, c) < eps
    }

    ghost predicate HasUncovered()
      requires Shaped()
    {
      exists r, c | Cell(r, c) :: Uncovered(r, c)
    }

    ghost function CoveredRows(): set<int>
      requires Shaped()
    {
      set r | 0 <= r < n && rowCovered[r]
    }

    ghost function CoveredCols(): set<int>
      requires Shaped()
    {
      set c | 0 <= c < m && colCovered[c]
    }

    // The moves

    /** Step 3 on an uncovered zero at (r, c) whose row has a star in column sc. */
    ghost function PrimeAndCover(r: int, c: int, sc: int): Tableau
      requires Shaped() && Cell(r, c) && 0 <= sc < m
    {
      this.(prime := Put(n, m, prime, r, c, true),
            rowCovered := rowCovered[r := true],
            colCovered := colCovered[sc := false],
            time := time[r := clock],
            clock := clock + 1)
    }

    /** Step 5: what adding h to the covered rows and taking it from the uncovered columns
        leaves behind, with the potentials that account for it. */
    ghost predicate ShiftedBy(h: real, t: Tableau)
      requires Shaped()
    {
      && t.Shaped() && t.n == n && t.m == m
      && t == this.(dist := t.dist, u := t.u, v := t.v, top := top + h)
      && (forall r | 0 <= r < n :: t.u[r] == u[r] - (if rowCovered[r] then h else 0.0))
      && (forall c | 0 <= c < m :: t.v[c] == v[c] + (if colCovered[c] then 0.0 else h))
      && (forall r, c | Cell(r, c) ::
            t.D(r, c) == D(r, c) + (if rowCovered[r] then h else 0.0) - (if colCovered[c] then 0.0 else h))
    }
  }

  /** The reduced matrix is the original less the potentials, and on the grid if there is one. */
  ghost predicate Accounted(t: Tableau)
    requires t.Shaped()
  {
    && (forall r, c | t.Cell(r, c) :: t.D(r, c) == t.cost[r][c] - t.u[r] - t.v[c])
    && t.Gridded()
  }

  /** No star yet. */
  ghost predicate Starless(t: Tableau)
    requires t.Shaped()
  {
    forall r, c | t.Cell(r, c) :: !t.Starred(r, c)
  }

  /** Subtracting x from one row keeps the account. */
  lemma RowSubtractionAccounted(t: Tableau, row: int, x: real, t': Tableau)
    requires t.Shaped() && t'.Shaped() && Accounted(t) && 0 <= row < t.n
    requires t.grid > 0.0 ==> OnGrid(x, t.grid)
    requires t' == t.(dist := t'.dist, u := t.u[row := t.u[row] + x])
    requires forall r, c | t.Cell(r, c) :: t'.D(r, c) == t.D(r, c) - (if r == row then x else 0.0)
    ensures Accounted(t')
  {
    if t.grid > 0.0 {
      forall r, c | t.Cell(r, c) ensures OnGrid(t'.D(r, c), t.grid) {
        GridClosed(t.D(r, c), x, t.grid);
      }
    }
  }

  /** Subtracting x from one column keeps the account. */
  lemma ColumnSubtractionAccounted(t: Tableau, col: int, x: real, t': Tableau)
    requires t.Shaped() && t'.Shaped() && Accounted(t) && 0 <= col < t.m
    requires t.grid > 0.0 ==> OnGrid(x, t.grid)
    requires t' == t.(dist := t'.dist, v := t.v[col := t.v[col] + x])
    requires forall r, c | t.Cell(r, c) :: t'.D(r, c) == t.D(r, c) - (if c == col then x else 0.0)
    ensures Accounted(t')
  {
    if t.grid > 0.0 {
      forall r, c | t.Cell(r, c) ensures OnGrid(t'.D(r, c), t.grid) {
        GridClosed(t.D(r, c), x, t.grid);
      }
    }
  }

  // Zeros of single rows

  ghost predicate HasZero(t: Tableau, r: int)
    requires t.Shaped() && 0 <= r < t.n
  {
    exists c | 0 <= c < t.m :: t.D(r, c) == 0.0
  }

  /** Subtracting an entry of a row leaves a zero there, and zeros of other rows where they were. */
  lemma ZeroAppears(t: Tableau, row: int, x: real, t': Tableau)
    requires t.Shaped() && t'.Shaped() && t'.n == t.n && t'.m == t.m && 0 <= row < t.n
    requires exists c | 0 <= c < t.m :: t.D(row, c) == x
    requires forall r, c | t.Cell(r, c) :: t'.D(r, c) == t.D(r, c) - (if r == row then x else 0.0)
    ensures HasZero(t', row)
    ensures forall r | 0 <= r < t.n && r != row && HasZero(t, r) :: HasZero(t', r)
  {
    var c :| 0 <= c < t.m && t.D(row, c) == x;
    assert t'.D(row, c) == 0.0;
    forall r | 0 <= r < t.n && r != row && HasZero(t, r)
      ensures HasZero(t', r)
    {
      var d :| 0 <= d < t.m && t.D(r, d) == 0.0;
      assert t'.D(r, d) == 0.0;
    }
  }

  /** c is the column of the first zero of row 0. */
  ghost predicate FirstZero(t: Tableau, c: int)
    requires t.Shaped() && t.n > 0
  {
    0 <= c < t.m && t.D(0, c) < t.eps && forall b | 0 <= b < c :: t.D(0, b) >= t.eps
  }

  ghost predicate FirstZeroStarred(t: Tableau)
    requires t.Shaped()
  {
    t.n > 0 ==> forall c | FirstZero(t, c) :: t.Starred(0, c)
  }

  /** No star yet, so no column is covered and the first zero of row 0 outside covered columns is its first. */
  ghost predicate FirstUncoveredZero(t: Tableau, col: int)
    requires t.Shaped() && 0 <= col <= t.m
  {
    && t.n > 0
    && (forall r | 0 <= r < t.n :: !t.RowStarred(r))
    && (forall c | 0 <= c < t.m && t.colCovered[c] :: t.ColStarred(c))
    && (forall c | 0 <= c < col :: t.colCovered[c] || t.D(0, c) >= t.eps)
    && (col < t.m ==> t.D(0, col) < t.eps)
  }

  lemma NothingCovered(t: Tableau, col: int)
    requires t.Shaped() && 0 <= col <= t.m && FirstUncoveredZero(t, col)
    ensures forall c | 0 <= c < t.m :: !t.colCovered[c]
    ensures if col < t.m then FirstZero(t, col) else FirstZeroStarred(t)
  {
    forall c | 0 <= c < t.m
      ensures !t.colCovered[c]
    {
      if t.ColStarred(c) {
        var r :| 0 <= r < t.n && t.Starred(r, c);
        assert t.RowStarred(r);
      }
    }
  }

  lemma FirstZeroStays(t: Tableau, row: int, col: int, t': Tableau)
    requires t.Shaped() && t.Cell(row, col)
    requires t' == t.(star := Put(t.n, t.m, t.star, row, col, true), rowCovered := t'.rowCovered,
                      colCovered := t'.colCovered)
    requires t'.Shaped()
    requires row == 0 ==> FirstUncoveredZero(t, col)
    requires row > 0 ==> FirstZeroStarred(t)
    ensures FirstZeroStarred(t')
  {
    assert forall r, c | t.Cell(r, c) :: t'.D(r, c) == t.D(r, c) && (t.Starred(r, c) ==> t'.Starred(r, c));
    assert t'.Starred(row, col);
    if row == 0 {
      NothingCovered(t, col);
    }
    forall c | FirstZero(t', c)
      ensures t'.Starred(0, c)
    {
      assert FirstZero(t, c);
    }
  }

  lemma SameZero(t: Tableau, t': Tableau)
    requires t.Shaped() && t'.Shaped() && t.n > 0 && HasZero(t, 0)
    requires t' == t.(star := t'.star, colCovered := t'.colCovered)
    ensures HasZero(t', 0)
  {
    var c :| 0 <= c < t.m && t.D(0, c) == 0.0;
    assert t'.D(0, c) == 0.0;
  }

  lemma {:induction false} FirstZeroFrom(t: Tableau, c: nat) returns (f: int)
    requires t.Shaped() && t.n > 0 && t.eps > 0.0 && c < t.m && t.D(0, c) < t.eps
    ensures FirstZero(t, f)
  {
    if b :| 0 <= b < c && t.D(0, b) < t.eps {
      f := FirstZeroFrom(t, b);
    } else {
      f := c;
    }
  }

  /** With one row, its only star stands on the first entry near the row's least. */
  lemma OneRowStar(t: Tableau)
    requires t.Core() && t.n == 1 && t.m > 0 && HasZero(t, 0) && FirstZeroStarred(t)
    requires forall c | 0 <= c < t.m :: t.v[c] == 0.0
    ensures |t.StarredRows()| == 1
    ensures FirstNearLeast(t.cost[0], t.m, t.eps, StarColumn(t, 0))
  {
    var z :| 0 <= z < t.m && t.D(0, z) == 0.0;
    var f := FirstZeroFrom(t, z);
    assert t.Starred(0, f);
    assert t.RowStarred(0);
    assert t.StarredRows() == {0};
    assert StarColumn(t, 0) == f;
    assert forall d | 0 <= d < t.m :: t.Cell(0, d) && t.D(0, d) == t.cost[0][d] - t.u[0];
  }

  /** Starring a zero whose row and column have no star. */
  lemma StarKeepsCore(t: Tableau, row: int, col: int, t': Tableau)
    requires t.Core() && t.Cell(row, col) && t.D(row, col) < t.eps
    requires !t.RowStarred(row) && !t.ColStarred(col)
    requires t' == t.(star := Put(t.n, t.m, t.star, row, col, true), rowCovered := t'.rowCovered,
                      colCovered := t'.colCovered)
    requires t'.Shaped()
    ensures t'.Core()
    ensures forall r | 0 <= r < t.n :: t'.RowStarred(r) <==> t.RowStarred(r) || r == row
    ensures forall c | 0 <= c < t.m :: t'.ColStarred(c) <==> t.ColStarred(c) || c == col
  {
    assert t'.Starred(row, col);
    assert forall r, c | t.Cell(r, c) :: t'.D(r, c) == t.D(r, c);
    assert forall r, c | t.Cell(r, c) && (r != row || c != col) :: t'.Starred(r, c) == t.Starred(r, c);
    forall r | 0 <= r < t.n ensures t'.RowStarred(r) <==> t.RowStarred(r) || r == row {
      if t.RowStarred(r) { var c :| 0 <= c < t.m && t.Starred(r, c); assert t'.Starred(r, c); }
    }
    forall c | 0 <= c < t.m ensures t'.ColStarred(c) <==> t.ColStarred(c) || c == col {
      if t.ColStarred(c) { var r :| 0 <= r < t.n && t.Starred(r, c); assert t'.Starred(r, c); }
    }
  }

  /** The state of freshly allocated buffers. */
  lemma BlankIsFresh(t: Tableau)
    requires t.Shaped() && forall k | 0 <= k < Span(t.n, t.m) :: !t.star[k] && !t.prime[k]
    requires (forall r | 0 <= r < t.n :: !t.rowCovered[r]) && (forall c | 0 <= c < t.m :: !t.colCovered[c])
    ensures Starless(t) && t.Fresh()
  {
    forall r, c | t.Cell(r, c) ensures !t.Starred(r, c) && !t.Primed(r, c) {
      InBounds(t.n, t.m, r, c);
    }
  }

  lemma FreshIsInv(t: Tableau)
    requires t.Core() && t.Fresh()
    ensures t.Inv()
  {
  }

  /** Step 3's move keeps the invariant. */
  lemma PrimeAndCoverKeepsInv(t: Tableau, r: int, c: int, sc: int)
    requires t.Inv() && t.Cell(r, c) && t.Cell(r, sc)
    requires t.Uncovered(r, c) && t.D(r, c) < t.eps && t.Starred(r, sc)
    ensures t.PrimeAndCover(r, c, sc).Inv()
  {
    var t' := t.PrimeAndCover(r, c, sc);
    SameCore(t, t');
    PrimeAndCoverKeepsStarCovers(t, r, c, sc);
    PrimeAndCoverKeepsPrimes(t, r, c, sc);
    PrimeAndCoverKeepsOrder(t, r, c, sc);
  }

  lemma PrimeAndCoverIsMoreRows(t: Tableau, r: int, c: int, sc: int)
    requires t.Shaped() && t.Cell(r, c) && 0 <= sc < t.m && !t.rowCovered[r]
    ensures MoreRows(t, t.PrimeAndCover(r, c, sc))
  {
    var t' := t.PrimeAndCover(r, c, sc);
    assert t'.CoveredRows() == t.CoveredRows() + {r} && r !in t.CoveredRows();
    CoveredRowsBound(t');
    SameStars(t, t');
  }

  /** The part of the invariant that does not mention covers or primes. */
  lemma SameCore(t: Tableau, t': Tableau)
    requires t.Core() && t'.Shaped()
    requires t' == t.(prime := t'.prime, rowCovered := t'.rowCovered, colCovered := t'.colCovered,
                      time := t'.time, clock := t'.clock)
    ensures t'.Core()
  {
    assert forall i, j | t.Cell(i, j) :: t'.Starred(i, j) == t.Starred(i, j) && t'.D(i, j) == t.D(i, j);
    SameStars(t, t');
  }

  lemma PrimeAndCoverKeepsStarCovers(t: Tableau, r: int, c: int, sc: int)
    requires t.Shaped() && t.Matching() && t.StarsCoveredOnce() && t.Cell(r, c) && t.Cell(r, sc)
    requires !t.rowCovered[r] && t.Starred(r, sc)
    ensures t.PrimeAndCover(r, c, sc).StarsCoveredOnce()
  {
    var t' := t.PrimeAndCover(r, c, sc);
    SameStars(t, t');
    assert forall i, j | t.Cell(i, j) :: t'.Starred(i, j) == t.Starred(i, j);
  }

  lemma PrimeAndCoverKeepsPrimes(t: Tableau, r: int, c: int, sc: int)
    requires t.Shaped() && t.StarsCoveredOnce() && t.PrimesInCoveredRows() && t.Cell(r, c) && t.Cell(r, sc)
    requires t.Uncovered(r, c) && t.D(r, c) < t.eps && t.Starred(r, sc)
    ensures t.PrimeAndCover(r, c, sc).PrimesInCoveredRows()
  {
    var t' := t.PrimeAndCover(r, c, sc);
    assert forall i, j | t.Cell(i, j) :: t'.D(i, j) == t.D(i, j);
    assert t'.Primed(r, c);
    assert forall i, j | t.Cell(i, j) && (i != r || j != c) :: t'.Primed(i, j) == t.Primed(i, j);
    forall i | 0 <= i < t.n && t'.rowCovered[i] ensures t'.RowPrimed(i) {
      if i != r {
        var j :| 0 <= j < t.m && t.Primed(i, j);
        assert t'.Primed(i, j);
      }
    }
  }

  lemma PrimeAndCoverKeepsOrder(t: Tableau, r: int, c: int, sc: int)
    requires t.Shaped() && t.StarsCoveredOnce() && t.PrimesInCoveredRows() && t.Chronological()
    requires t.Cell(r, c) && t.Cell(r, sc)
    requires t.Uncovered(r, c) && t.Starred(r, sc)
    ensures t.PrimeAndCover(r, c, sc).Chronological()
  {
    hide Put, At, Span, IsMatrix;
    var t' := t.PrimeAndCover(r, c, sc);
    forall i, j, s | t.Cell(i, j) && t.Cell(s, j) && t'.Primed(i, j) && t'.Starred(s, j)
      ensures t'.rowCovered[s] && t'.time[s] < t'.time[i]
    {
      assert t.Starred(s, j);
      if i != r || j != c {
        assert t.Primed(i, j);
      }
    }
  }

  /** Equal stars give equal starred lines. */
  lemma SameStars(t: Tableau, t': Tableau)
    requires t.Shaped() && t'.Shaped() && t.n == t'.n && t.m == t'.m && t.star == t'.star
    ensures forall r | 0 <= r < t.n :: t.RowStarred(r) == t'.RowStarred(r)
    ensures forall c | 0 <= c < t.m :: t.ColStarred(c) == t'.ColStarred(c)
    ensures t.StarredRows() == t'.StarredRows() && t.StarredCols() == t'.StarredCols()
  {
    assert forall i, j | t.Cell(i, j) :: t'.Starred(i, j) == t.Starred(i, j);
    forall r | 0 <= r < t.n ensures t.RowStarred(r) == t'.RowStarred(r) {
      if t.RowStarred(r) { var c :| 0 <= c < t.m && t.Starred(r, c); assert t'.Starred(r, c); }
      if t'.RowStarred(r) { var c :| 0 <= c < t.m && t'.Starred(r, c); assert t.Starred(r, c); }
    }
    forall c | 0 <= c < t.m ensures t.ColStarred(c) == t'.ColStarred(c) {
      if t.ColStarred(c) { var r :| 0 <= r < t.n && t.Starred(r, c); assert t'.Starred(r, c); }
      if t'.ColStarred(c) { var r :| 0 <= r < t.n && t'.Starred(r, c); assert t.Starred(r, c); }
    }
  }

  /** h is the least uncovered entry. */
  ghost predicate LeastUncovered(t: Tableau, h: real)
    requires t.Shaped()
  {
    && (exists r, c | t.Cell(r, c) :: t.Uncovered(r, c) && t.D(r, c) == h)
    && (forall r, c | t.Cell(r, c) && t.Uncovered(r, c) :: h <= t.D(r, c))
  }

  /** Step 5 keeps the invariant, moves no star and no prime off its value,
      and leaves an uncovered zero behind. */
  lemma ShiftKeepsInv(t: Tableau, h: real, t': Tableau)
    requires t.Inv() && LeastUncovered(t, h) && !t.HasUncoveredZero() && t.ShiftedBy(h, t')
    ensures h >= t.eps
    ensures forall r, c | t.Cell(r, c) && (t.Starred(r, c) || t.Primed(r, c)) :: t'.D(r, c) == t.D(r, c)
    ensures t'.Inv() && t'.HasUncoveredZero()
    ensures t'.CoveredRows() == t.CoveredRows() && t'.StarredRows() == t.StarredRows()
  {
    var r0, c0 :| t.Cell(r0, c0) && t.Uncovered(r0, c0) && t.D(r0, c0) == h;
    assert t'.Uncovered(r0, c0) && t'.D(r0, c0) == 0.0;
    ShiftKeepsZeros(t, h, t');
    ShiftKeepsDual(t, h, t');
    SameStars(t, t');
    ShiftKeepsCovers(t, h, t');
  }

  lemma ShiftKeepsZeros(t: Tableau, h: real, t': Tableau)
    requires t.Inv() && t.ShiftedBy(h, t')
    ensures forall r, c | t.Cell(r, c) && (t.Starred(r, c) || t.Primed(r, c)) :: t'.D(r, c) == t.D(r, c)
  {
  }

  lemma ShiftKeepsDual(t: Tableau, h: real, t': Tableau)
    requires t.Core() && LeastUncovered(t, h) && h >= 0.0 && t.ShiftedBy(h, t')
    ensures t'.Dual() && t'.Gridded()
  {
    if t.grid > 0.0 {
      var r0, c0 :| t.Cell(r0, c0) && t.Uncovered(r0, c0) && t.D(r0, c0) == h;
      forall r, c | t.Cell(r, c) ensures OnGrid(t'.D(r, c), t.grid) {
        GridClosed(t.D(r, c), h, t.grid);
      }
    }
  }

  lemma ShiftKeepsCovers(t: Tableau, h: real, t': Tableau)
    requires t.Inv() && h >= 0.0 && t.ShiftedBy(h, t')
    ensures t'.StarsSmall() && t'.Matching() && t'.Extreme() && t'.Covers()
  {
    SameStars(t, t');
    ShiftKeepsZeros(t, h, t');
    ShiftKeepsPrimes(t, h, t');
    assert forall i, j | t.Cell(i, j) :: t'.Starred(i, j) == t.Starred(i, j) && t'.Primed(i, j) == t.Primed(i, j);
  }

  lemma ShiftKeepsPrimes(t: Tableau, h: real, t': Tableau)
    requires t.Shaped() && t.PrimesInCoveredRows() && t.ShiftedBy(h, t')
    requires forall r, c | t.Cell(r, c) && t.Primed(r, c) :: t'.D(r, c) == t.D(r, c)
    ensures t'.PrimesInCoveredRows()
  {
    assert forall i, j | t.Cell(i, j) :: t'.Primed(i, j) == t.Primed(i, j);
    forall i | 0 <= i < t.n && t'.rowCovered[i] ensures t'.RowPrimed(i) {
      var j :| 0 <= j < t.m && t.Primed(i, j);
      assert t'.Primed(i, j);
    }
  }

  /** The column of the star in a row, -1 when there is none. */
  ghost function StarColumn(t: Tableau, r: int): (c: int)
    requires t.Shaped() && 0 <= r < t.n
    ensures c >= 0 <==> t.RowStarred(r)
    ensures c >= 0 ==> c < t.m && t.Starred(r, c)
  {
    if t.RowStarred(r) then var c :| 0 <= c < t.m && t.Starred(r, c); c else -1
  }

  ghost function StarVector(t: Tableau): (a: seq<int>)
    requires t.Shaped()
    ensures |a| == t.n && forall r | 0 <= r < t.n :: a[r] == StarColumn(t, r)
  {
    seq(t.n, r requires 0 <= r < t.n => StarColumn(t, r))
  }

  /** Read row by row, the stars of a matching are an assignment of the starred rows
      to the starred columns. */
  lemma StarsAreAssignment(t: Tableau)
    requires t.Shaped() && t.Matching()
    ensures IsAssignment(StarVector(t), t.n, t.m)
    ensures Rows(StarVector(t)) == t.StarredRows()
    ensures Columns(StarVector(t)) == t.StarredCols()
    ensures |t.StarredRows()| == |t.StarredCols()| == Assigned(StarVector(t))
  {
    var a := StarVector(t);
    assert IsAssignment(a, t.n, t.m) by {
      assert forall r | 0 <= r < t.n && a[r] >= 0 :: t.Cell(r, a[r]) && t.Starred(r, a[r]);
    }
    forall c ensures c in Columns(a) <==> c in t.StarredCols() {
      if c in t.StarredCols() {
        var r :| 0 <= r < t.n && t.Starred(r, c);
        assert t.RowStarred(r) && a[r] == c;
      }
    }
    assert Columns(a) == t.StarredCols();
    AssignedCounts(a, t.n, t.m);
  }

  lemma {:induction false} SubrangeSize(S: set<int>, k: nat)
    requires forall i | i in S :: 0 <= i < k
    ensures |S| <= k
    ensures |S| == k <==> forall i | 0 <= i < k :: i in S
  {
    if k == 0 {
      assert forall i :: i !in S;
      assert S == {};
    } else {
      var T := S - {k - 1};
      SubrangeSize(T, k - 1);
      assert forall i | 0 <= i < k - 1 :: i in S <==> i in T;
      assert |S| == |T| + (if k - 1 in S then 1 else 0);
    }
  }

  /** The stars never outnumber either side; while they fall short of the smaller side
      there is an uncovered cell. */
  lemma StarCountBounds(t: Tableau)
    requires t.Shaped() && t.Matching()
    ensures |t.StarredRows()| <= t.n && |t.StarredRows()| <= t.m
    ensures |t.StarredRows()| < t.n ==> exists r | 0 <= r < t.n :: !t.RowStarred(r)
    ensures |t.StarredRows()| < t.m ==> exists c | 0 <= c < t.m :: !t.ColStarred(c)
    ensures |t.StarredRows()| == t.n ==> forall r | 0 <= r < t.n :: t.RowStarred(r)
    ensures |t.StarredRows()| == t.m ==> forall c | 0 <= c < t.m :: t.ColStarred(c)
  {
    StarsAreAssignment(t);
    SubrangeSize(t.StarredRows(), t.n);
    SubrangeSize(t.StarredCols(), t.m);
    assert forall r | 0 <= r < t.n :: r in t.StarredRows() <==> t.RowStarred(r);
    assert forall c | 0 <= c < t.m :: c in t.StarredCols() <==> t.ColStarred(c);
  }

  lemma NoZeroGrows(t: Tableau, col: int)
    requires t.Shaped() && 0 <= col < t.m
    requires forall r | 0 <= r < t.n && t.Uncovered(r, col) :: t.D(r, col) >= t.eps
    ensures NoZeroBefore(t, col) ==> NoZeroBefore(t, col + 1)
  {
  }

  /** While stars are missing on both sides, something is uncovered. */
  lemma MissingStarsLeaveUncovered(t: Tableau)
    requires t.Shaped() && t.Matching() && t.StarsCoveredOnce()
    requires |t.StarredRows()| < (if t.n <= t.m then t.n else t.m)
    ensures t.HasUncovered()
  {
    StarCountBounds(t);
    var r :| 0 <= r < t.n && !t.RowStarred(r);
    var c :| 0 <= c < t.m && !t.ColStarred(c);
    assert t.Uncovered(r, c);
  }

  lemma CoveredRowsBound(t: Tableau)
    requires t.Shaped()
    ensures |t.CoveredRows()| <= t.n
  {
    SubrangeSize(t.CoveredRows(), t.n);
  }

  /** More rows are covered than before, the stars as they were. */
  ghost predicate MoreRows(t: Tableau, t': Tableau)
    requires t.Shaped() && t'.Shaped()
  {
    && t'.n == t.n && t'.m == t.m && t'.eps == t.eps
    && t'.StarredRows() == t.StarredRows()
    && |t.CoveredRows()| < |t'.CoveredRows()| <= t.n
  }

  ghost predicate NoZeroBefore(t: Tableau, col: int)
    requires t.Shaped()
  {
    forall r, c | t.Cell(r, c) && c < col && t.Uncovered(r, c) :: t.D(r, c) >= t.eps
  }

  /** With as many stars as the smaller side has lines, the stars are a certified assignment. */
  lemma CompleteIsCertified(t: Tableau)
    requires t.Core() && |t.StarredRows()| == (if t.n <= t.m then t.n else t.m)
    ensures IsAssignment(StarVector(t), t.n, t.m)
    ensures Assigned(StarVector(t)) == (if t.n <= t.m then t.n else t.m)
    ensures CertifiedWithin(t.cost, t.n, t.m, StarVector(t), if t.grid > 0.0 then 0.0 else t.eps)
  {
    StarsAreAssignment(t);
    StarCountBounds(t);
    var a := StarVector(t);
    var slack := if t.grid > 0.0 then 0.0 else t.eps;
    DualIsFeasible(t);
    StarsAreTight(t, a);
    var rowTop := if t.n <= t.m then Largest(t.u) else 0.0;
    var colTop := if t.n <= t.m then t.top else Largest(t.v);
    ExtremeIsTop(t, a, rowTop, colTop);
    assert Certificate(t.cost, t.n, t.m, a, t.u, t.v, rowTop, colTop, slack);
  }

  lemma DualIsFeasible(t: Tableau)
    requires t.Shaped() && t.Dual()
    ensures Feasible(t.cost, t.n, t.m, t.u, t.v)
  {
  }

  lemma StarsAreTight(t: Tableau, a: seq<int>)
    requires t.Shaped() && t.Dual() && t.Gridded() && t.StarsSmall()
    requires a == StarVector(t) && IsAssignment(a, t.n, t.m)
    ensures Tight(t.cost, t.n, t.m, t.u, t.v, a, if t.grid > 0.0 then 0.0 else t.eps)
  {
    forall r | 0 <= r < t.n && a[r] >= 0
      ensures t.cost[r][a[r]] <= t.u[r] + t.v[a[r]] + (if t.grid > 0.0 then 0.0 else t.eps)
    {
      assert t.Cell(r, a[r]) && t.D(r, a[r]) < t.eps;
      if t.grid > 0.0 {
        GridSmall(t.D(r, a[r]), t.grid);
      }
    }
  }

  lemma ExtremeIsTop(t: Tableau, a: seq<int>, rowTop: real, colTop: real)
    requires t.Shaped() && t.Extreme()
    requires Rows(a) == t.StarredRows() && Columns(a) == t.StarredCols()
    requires t.n <= t.m ==> rowTop == Largest(t.u) && colTop == t.top && forall r | 0 <= r < t.n :: t.RowStarred(r)
    requires t.n > t.m ==> rowTop == 0.0 && colTop == Largest(t.v) && forall c | 0 <= c < t.m :: t.ColStarred(c)
    ensures TopOutside(t.u, Rows(a), rowTop) && TopOutside(t.v, Columns(a), colTop)
  {
  }

  ghost function Largest(w: seq<real>): (x: real)
    ensures forall i | 0 <= i < |w| :: w[i] <= x
  {
    if w == [] then 0.0
    else
      var y := Largest(w[..|w| - 1]);
      if w[|w| - 1] > y then w[|w| - 1] else y
  }
}
