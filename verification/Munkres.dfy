/** The assignment solver: the buffers its steps share, and the steps, which work on
    those buffers in place and hand over to each other by tail calls. */
module Munkres {
  import opened Assignments
  import opened ColumnMajor
  import opened Tableaux
  import opened AlternatingPath

  function Abs(x: real): real {
    if x < 0.0 then -x else x
  }

  function Min(a: nat, b: nat): nat {
    if a <= b then a else b
  }

  /** The buffers every step receives. The ghost fields record what has been subtracted
      from each line of the matrix and when each covered row was covered. */
  class Workspace {
    const nOfRows: nat
    const nOfColumns: nat
    const eps: real

    const assignment: array<int>
    const distMatrix: array<real>
    const starMatrix: array<bool>
    const newStarMatrix: array<bool>
    const primeMatrix: array<bool>
    const coveredColumns: array<bool>
    const coveredRows: array<bool>

    ghost const original: Matrix
    ghost const grid: real
    ghost var u: seq<real>
    ghost var v: seq<real>
    ghost var top: real
    ghost var time: seq<int>
    ghost var clock: int

    /** The whole state as a value. */
    ghost function T(): Tableau
      reads this, distMatrix, starMatrix, primeMatrix, coveredColumns, coveredRows
    {
      Tableau(nOfRows, nOfColumns, eps, grid, original, distMatrix[..], starMatrix[..], primeMatrix[..],
              coveredRows[..], coveredColumns[..], u, v, top, time, clock)
    }

    /** The buffers have their sizes and do not overlap. */
    ghost predicate Separate() {
      && assignment.Length == coveredRows.Length == nOfRows
      && coveredColumns.Length == nOfColumns
      && distMatrix.Length == starMatrix.Length == newStarMatrix.Length == primeMatrix.Length
         == Span(nOfRows, nOfColumns)
      && starMatrix != newStarMatrix && starMatrix != primeMatrix && newStarMatrix != primeMatrix
      && coveredColumns != coveredRows
      && coveredColumns != starMatrix && coveredColumns != newStarMatrix && coveredColumns != primeMatrix
      && coveredRows != starMatrix && coveredRows != newStarMatrix && coveredRows != primeMatrix
    }

    ghost predicate Valid()
      reads this
    {
      && Separate()
      && IsMatrix(original, nOfRows, nOfColumns)
      && |u| == |time| == nOfRows
      && |v| == nOfColumns
    }

    function MinDim(): nat {
      Min(nOfRows, nOfColumns)
    }

    ghost predicate Unassigned()
      reads assignment
    {
      forall r | 0 <= r < assignment.Length :: assignment[r] == -1
    }

    /** The assignment is complete and certified. */
    ghost predicate Solved()
      requires Separate() && IsMatrix(original, nOfRows, nOfColumns)
      reads assignment
    {
      && IsAssignment(assignment[..], nOfRows, nOfColumns)
      && Assigned(assignment[..]) == MinDim()
      && (forall r | 0 <= r < nOfRows :: assignment[r] >= -1)
      && CertifiedWithin(original, nOfRows, nOfColumns, assignment[..], if grid > 0.0 then 0.0 else eps)
    }

    /** How many stars are still to be placed. */
    ghost function Missing(): int
      requires Valid()
      reads this, distMatrix, starMatrix, primeMatrix, coveredColumns, coveredRows
    {
      MinDim() - |T().StarredRows()|
    }

    /** Allocate the buffers and take a working copy of the matrix. */
    constructor (assignment: array<int>, distMatrixIn: array<real>, nOfRows: nat, nOfColumns: nat, eps: real,
                 ghost original: Matrix, ghost grid: real)
      requires assignment.Length == nOfRows && distMatrixIn.Length == Span(nOfRows, nOfColumns)
      requires IsMatrix(original, nOfRows, nOfColumns) && Stores(distMatrixIn[..], original, nOfRows, nOfColumns)
      requires grid > 0.0 ==> grid >= eps && AllOnGrid(original, nOfRows, nOfColumns, grid)
      ensures Valid() && this.assignment == assignment && this.original == original
      ensures this.nOfRows == nOfRows && this.nOfColumns == nOfColumns && this.eps == eps && this.grid == grid
      ensures fresh(distMatrix) && fresh(starMatrix) && fresh(newStarMatrix) && fresh(primeMatrix)
      ensures fresh(coveredColumns) && fresh(coveredRows)
      ensures Accounted(T()) && Starless(T()) && T().Fresh()
      ensures top == 0.0 && (forall r | 0 <= r < nOfRows :: u[r] == 0.0) && (forall c | 0 <= c < nOfColumns :: v[c] == 0.0)
    {
      this.nOfRows, this.nOfColumns, this.eps := nOfRows, nOfColumns, eps;
      this.assignment := assignment;
      this.original, this.grid := original, grid;
      var nOfElements := Span(nOfRows, nOfColumns);
      distMatrix := new real[nOfElements];
      coveredColumns := new bool[nOfColumns](_ => false);
      coveredRows := new bool[nOfRows](_ => false);
      starMatrix := new bool[nOfElements](_ => false);
      primeMatrix := new bool[nOfElements](_ => false);
      newStarMatrix := new bool[nOfElements](_ => false);
      u := seq(nOfRows, _ => 0.0);
      v := seq(nOfColumns, _ => 0.0);
      time := seq(nOfRows, _ => 0);
      top, clock := 0.0, 0;
      new;
      CopyMatrix(distMatrixIn);
      BlankIsFresh(T());
      assert forall r, c | T().Cell(r, c) :: T().D(r, c) == At(nOfRows, nOfColumns, distMatrixIn[..], r, c);
    }

    method CopyMatrix(distMatrixIn: array<real>)
      requires distMatrixIn != distMatrix && distMatrixIn.Length == distMatrix.Length
      modifies distMatrix
      ensures distMatrix[..] == distMatrixIn[..]
    {
      var row := 0;
      while row < distMatrix.Length
        invariant row <= distMatrix.Length
        invariant forall k | 0 <= k < row :: distMatrix[k] == distMatrixIn[k]
      {
        distMatrix[row] := distMatrixIn[row];
        row := row + 1;
      }
    }

    // Searches the steps repeat

    /** Column of the first star in a row, nOfColumns when there is none. */
    method StarInRow(row: nat) returns (starCol: nat)
      requires Valid() && row < nOfRows
      ensures starCol <= nOfColumns
      ensures starCol < nOfColumns ==> T().Starred(row, starCol)
      ensures starCol == nOfColumns ==> !T().RowStarred(row)
    {
      starCol := 0;
      while starCol < nOfColumns
        invariant starCol <= nOfColumns
        invariant forall c | 0 <= c < starCol :: !T().Starred(row, c)
      {
        InBounds(nOfRows, nOfColumns, row, starCol);
        if starMatrix[Index(nOfRows, row, starCol)] {
          assert T().Starred(row, starCol);
          break;
        }
        starCol := starCol + 1;
      }
    }

    /** Row of the first star in a column, nOfRows when there is none. */
    method StarInColumn(starCol: nat) returns (starRow: nat)
      requires Valid() && starCol < nOfColumns
      ensures FirstStarRow(T(), starCol, starRow)
    {
      starRow := 0;
      while starRow < nOfRows
        invariant starRow <= nOfRows
        invariant forall r | 0 <= r < starRow :: !T().Starred(r, starCol)
      {
        InBounds(nOfRows, nOfColumns, starRow, starCol);
        if starMatrix[Index(nOfRows, starRow, starCol)] {
          assert T().Starred(starRow, starCol);
          break;
        }
        starRow := starRow + 1;
      }
    }

    /** Column of the first prime in a row that has one. */
    method PrimeInRow(primeRow: nat) returns (primeCol: nat)
      requires Valid() && primeRow < nOfRows && T().RowPrimed(primeRow)
      ensures primeCol < nOfColumns && T().Primed(primeRow, primeCol)
    {
      primeCol := 0;
      while primeCol < nOfColumns
        invariant primeCol <= nOfColumns
        invariant forall c | 0 <= c < primeCol :: !T().Primed(primeRow, c)
      {
        InBounds(nOfRows, nOfColumns, primeRow, primeCol);
        if primeMatrix[Index(nOfRows, primeRow, primeCol)] {
          assert T().Primed(primeRow, primeCol);
          break;
        }
        primeCol := primeCol + 1;
      }
    }

    // Changes to one line of the reduced matrix

    /** Add x to every entry of a row: a walk through the flat buffer in strides of nOfRows. */
    method AddToRow(row: nat, x: real)
      requires Valid() && row < nOfRows
      modifies distMatrix
      ensures forall r, c | T().Cell(r, c) :: T().D(r, c) == old(T().D(r, c)) + (if r == row then x else 0.0)
    {
      var p := row;
      ghost var col := 0;
      while p < distMatrix.Length
        invariant 0 <= col <= nOfColumns && p == Index(nOfRows, row, col)
        invariant forall r, c | T().Cell(r, c) ::
                    T().D(r, c) == old(T().D(r, c)) + (if r == row && c < col then x else 0.0)
      {
        ghost var before := distMatrix[..];
        assert col < nOfColumns;
        InBounds(nOfRows, nOfColumns, row, col);
        distMatrix[p] := distMatrix[p] + x;
        assert distMatrix[..] == Put(nOfRows, nOfColumns, before, row, col, At(nOfRows, nOfColumns, before, row, col) + x);
        p := p + nOfRows;
        col := col + 1;
      }
      assert col == nOfColumns by {
        if col < nOfColumns {
          InBounds(nOfRows, nOfColumns, row, col);
        }
      }
    }

    /** Add x to every entry of a column, which is contiguous. */
    method AddToColumn(col: nat, x: real)
      requires Valid() && col < nOfColumns
      modifies distMatrix
      ensures forall r, c | T().Cell(r, c) :: T().D(r, c) == old(T().D(r, c)) + (if c == col then x else 0.0)
    {
      var row := 0;
      while row < nOfRows
        invariant row <= nOfRows
        invariant forall r, c | T().Cell(r, c) ::
                    T().D(r, c) == old(T().D(r, c)) + (if c == col && r < row then x else 0.0)
      {
        ghost var before := distMatrix[..];
        InBounds(nOfRows, nOfColumns, row, col);
        var p := Index(nOfRows, row, col);
        distMatrix[p] := distMatrix[p] + x;
        assert distMatrix[..] == Put(nOfRows, nOfColumns, before, row, col, At(nOfRows, nOfColumns, before, row, col) + x);
        row := row + 1;
      }
    }

    /** Smallest entry of a row, found by the same strided walk. */
    method RowMinimum(row: nat) returns (minValue: real)
      requires Valid() && row < nOfRows && nOfColumns > 0
      ensures forall c | 0 <= c < nOfColumns :: minValue <= T().D(row, c)
      ensures exists c | 0 <= c < nOfColumns :: minValue == T().D(row, c)
    {
      InBounds(nOfRows, nOfColumns, row, 0);
      minValue := distMatrix[row];
      assert minValue == T().D(row, 0);
      var p := row + nOfRows;
      ghost var col := 1;
      while p < distMatrix.Length
        invariant 1 <= col <= nOfColumns && p == Index(nOfRows, row, col)
        invariant forall c | 0 <= c < col :: minValue <= T().D(row, c)
        invariant exists c | 0 <= c < col :: minValue == T().D(row, c)
      {
        assert col < nOfColumns;
        InBounds(nOfRows, nOfColumns, row, col);
        assert distMatrix[p] == T().D(row, col);
        if distMatrix[p] < minValue {
          minValue := distMatrix[p];
        }
        p := p + nOfRows;
        col := col + 1;
      }
      assert col == nOfColumns by {
        if col < nOfColumns {
          InBounds(nOfRows, nOfColumns, row, col);
        }
      }
    }

    /** Smallest entry of a column. */
    method ColumnMinimum(col: nat) returns (minValue: real)
      requires Valid() && nOfRows > 0 && col < nOfColumns
      ensures forall r | 0 <= r < nOfRows :: minValue <= T().D(r, col)
      ensures exists r | 0 <= r < nOfRows :: minValue == T().D(r, col)
    {
      InBounds(nOfRows, nOfColumns, 0, col);
      minValue := distMatrix[Index(nOfRows, 0, col)];
      assert minValue == T().D(0, col);
      var row := 1;
      while row < nOfRows
        invariant 1 <= row <= nOfRows
        invariant forall r | 0 <= r < row :: minValue <= T().D(r, col)
        invariant exists r | 0 <= r < row :: minValue == T().D(r, col)
      {
        InBounds(nOfRows, nOfColumns, row, col);
        var value := distMatrix[Index(nOfRows, row, col)];
        assert value == T().D(row, col);
        if value < minValue {
          minValue := value;
        }
        row := row + 1;
      }
    }

    // The steps

    /** Step 2a: cover every column containing a star. */
    method Step2a()
      requires Valid() && T().Core() && T().Clean() && Unassigned()
      modifies this, assignment, distMatrix, starMatrix, newStarMatrix, primeMatrix, coveredColumns, coveredRows
      ensures Solved()
      decreases Missing(), nOfRows + 2, 0
    {
      ghost var t := T();
      var col := 0;
      while col < nOfColumns
        invariant col <= nOfColumns
        invariant Valid() && Unassigned()
        invariant T() == t.(colCovered := coveredColumns[..])
        invariant forall c | 0 <= c < nOfColumns && coveredColumns[c] :: t.ColStarred(c)
        invariant forall c | 0 <= c < col && t.ColStarred(c) :: coveredColumns[c]
      {
        assert t.star == starMatrix[..];
        var starRow := StarInColumn(col);
        if starRow < nOfRows {
          assert t.Starred(starRow, col);
          coveredColumns[col] := true;
        } else {
          SameStars(T(), t);
        }
        col := col + 1;
      }
      SameCore(t, T());
      SameStars(t, T());
      assert forall r, c | t.Cell(r, c) :: T().Primed(r, c) == t.Primed(r, c);
      Step2b();
    }

    /** Step 2b: finish when as many columns are covered as the smaller side has lines. */
    method Step2b()
      requires Valid() && T().Core() && T().Fresh() && Unassigned()
      modifies this, assignment, distMatrix, starMatrix, newStarMatrix, primeMatrix, coveredColumns, coveredRows
      ensures Solved()
      ensures |old(T()).StarredRows()| == MinDim() ==> assignment[..] == StarVector(old(T()))
      decreases Missing(), nOfRows + 1, 0
    {
      var nOfCoveredColumns := CountCoveredColumns();
      StarsAreAssignment(T());
      assert T().StarredCols() == T().CoveredCols();
      StarCountBounds(T());
      if nOfCoveredColumns == MinDim() {
        BuildAssignmentVector();
      } else {
        FreshIsInv(T());
        Step3();
      }
    }

    /** Step 3: prime uncovered zeros, trading the star's column for the star's row,
        until a primed zero has no star in its row or no uncovered zero is left. */
    method Step3()
      requires Valid() && T().Inv() && Unassigned() && Missing() > 0
      modifies this, assignment, distMatrix, starMatrix, newStarMatrix, primeMatrix, coveredColumns, coveredRows
      ensures Solved()
      decreases Missing(), nOfRows - |T().CoveredRows()|, if T().HasUncoveredZero() then 1 else 3
    {
      hide Put, At, Span, IsMatrix;
      ghost var entry := T();
      CoveredRowsBound(entry);
      var zerosFound := true;
      while zerosFound
        invariant Valid() && T().Inv() && Unassigned()
        invariant T() == entry || MoreRows(entry, T())
        invariant !zerosFound ==> !T().HasUncoveredZero()
        decreases nOfRows - |T().CoveredRows()|, zerosFound
      {
        var row, col;
        ghost var t;
        zerosFound, row, col, t := ScanColumns();
        if row < nOfRows {
          Step4(row, col, t);
          return;
        }
      }
      Step5();
    }

    /** One pass of step 3 over the columns: cover the row of the first zero found in each.
        Stops early, with row < nOfRows, at a zero whose row has no star; t is then the
        state before that zero was primed. */
    method ScanColumns() returns (zerosFound: bool, row: nat, col: nat, ghost t: Tableau)
      requires Valid() && T().Inv()
      modifies this`time, this`clock, primeMatrix, coveredRows, coveredColumns
      ensures Valid() && t.Inv() && (t == old(T()) || MoreRows(old(T()), t))
      ensures row < nOfRows ==>
                && t.n == nOfRows && t.m == nOfColumns && CanStart(t, row, col)
                && T() == t.(prime := Put(t.n, t.m, t.prime, row, col, true))
      ensures row >= nOfRows ==> T() == t
      ensures row >= nOfRows && zerosFound ==> MoreRows(old(T()), t)
      ensures row >= nOfRows && !zerosFound ==> !t.HasUncoveredZero()
    {
      ghost var pass := T();
      zerosFound, row, col, t := false, nOfRows, 0, pass;
      while col < nOfColumns
        invariant col <= nOfColumns
        invariant Valid() && T() == t && t.Inv()
        invariant zerosFound ==> MoreRows(pass, t)
        invariant !zerosFound ==> t == pass && NoZeroBefore(pass, col)
      {
        var starCol;
        row, starCol := ScanColumn(col);
        if row < nOfRows && starCol == nOfColumns {
          return;
        }
        if row < nOfRows {
          zerosFound, t := true, T();
        } else {
          NoZeroGrows(t, col);
        }
        col := col + 1;
      }
      row := nOfRows;
    }

    /** Prime a zero; when its row has a star, cover the row and uncover the star's column. */
    method PrimeZero(row: nat, col: nat) returns (starCol: nat)
      requires Valid()
      requires T().Cell(row, col) && T().Uncovered(row, col) && T().D(row, col) < eps
      modifies this`time, this`clock, primeMatrix, coveredRows, coveredColumns
      ensures Valid() && starCol <= nOfColumns
      ensures starCol == nOfColumns ==>
                && CanStart(old(T()), row, col)
                && T() == old(T()).(prime := Put(nOfRows, nOfColumns, old(T()).prime, row, col, true))
      ensures starCol < nOfColumns ==>
                && old(T()).Starred(row, starCol)
                && T() == old(T()).PrimeAndCover(row, col, starCol)
    {
      ghost var t := T();
      InBounds(nOfRows, nOfColumns, row, col);
      primeMatrix[Index(nOfRows, row, col)] := true;
      assert T() == t.(prime := Put(nOfRows, nOfColumns, t.prime, row, col, true));
      SameStars(t, T());
      starCol := StarInRow(row);
      if starCol < nOfColumns {
        assert t.Starred(row, starCol);
        coveredRows[row] := true;
        coveredColumns[starCol] := false;
        time := time[row := clock];
        clock := clock + 1;
      }
    }

    /** One column of the pass: row is nOfRows when it holds no uncovered zero, starCol is
        nOfColumns when the zero's row has no star. */
    method ScanColumn(col: nat) returns (row: nat, starCol: nat)
      requires Valid() && T().Inv() && col < nOfColumns
      modifies this`time, this`clock, primeMatrix, coveredRows, coveredColumns
      ensures Valid() && row <= nOfRows && starCol <= nOfColumns
      ensures row == nOfRows ==> T() == old(T())
      ensures row == nOfRows ==> forall r | 0 <= r < nOfRows && T().Uncovered(r, col) :: T().D(r, col) >= eps
      ensures row < nOfRows && starCol == nOfColumns ==>
                && CanStart(old(T()), row, col)
                && T() == old(T()).(prime := Put(nOfRows, nOfColumns, old(T()).prime, row, col, true))
      ensures row < nOfRows && starCol < nOfColumns ==> T().Inv() && MoreRows(old(T()), T())
    {
      ghost var t := T();
      row, starCol := nOfRows, nOfColumns;
      if !coveredColumns[col] {
        row := UncoveredZeroInColumn(col);
        if row < nOfRows {
          starCol := PrimeZero(row, col);
        }
      }
      if row < nOfRows && starCol < nOfColumns {
        PrimeAndCoverKeepsInv(t, row, col, starCol);
        PrimeAndCoverIsMoreRows(t, row, col, starCol);
      }
    }

    /** First row with an uncovered zero in a column, nOfRows when there is none. */
    method UncoveredZeroInColumn(col: nat) returns (row: nat)
      requires Valid() && col < nOfColumns && !coveredColumns[col]
      requires T().Dual()
      ensures row <= nOfRows
      ensures row < nOfRows ==> T().Uncovered(row, col) && T().D(row, col) < eps
      ensures row == nOfRows ==> forall r | 0 <= r < nOfRows && T().Uncovered(r, col) :: T().D(r, col) >= eps
    {
      row := 0;
      while row < nOfRows
        invariant row <= nOfRows
        invariant forall r | 0 <= r < row && T().Uncovered(r, col) :: T().D(r, col) >= eps
      {
        InBounds(nOfRows, nOfColumns, row, col);
        assert distMatrix[Index(nOfRows, row, col)] == T().D(row, col);
        if !coveredRows[row] && Abs(distMatrix[Index(nOfRows, row, col)]) < eps {
          break;
        }
        row := row + 1;
      }
    }

    /** Step 4: exchange stars and primes along the alternating path from a fresh zero.
        t is the state before that zero was primed. */
    method Step4(row: nat, col: nat, ghost t: Tableau)
      requires Valid() && Unassigned() && t.Inv() && CanStart(t, row, col)
      requires t.n == nOfRows && t.m == nOfColumns
      requires T() == t.(prime := Put(t.n, t.m, t.prime, row, col, true))
      modifies this, assignment, distMatrix, starMatrix, newStarMatrix, primeMatrix, coveredColumns, coveredRows
      ensures Solved()
      decreases MinDim() - |t.StarredRows()|, 0, 0
    {
      ghost var next, starCol := WalkPath(row, col, t);
      ghost var newStar := newStarMatrix[..];
      ghost var primed := T();
      AdoptNewStars();
      assert Augmented(t, newStar, T());
      WalkEnds(t, row, col, next, starCol, newStar, T());
      StarCountBounds(T());
      Step2a();
    }

    /** The alternating walk, which leaves the exchanged stars in newStarMatrix. */
    method WalkPath(row: nat, col: nat, ghost t: Tableau) returns (ghost next: map<int, int>, ghost lastCol: int)
      requires Valid() && t.Shaped() && t.Matching() && t.Covers() && CanStart(t, row, col)
      requires t.n == nOfRows && t.m == nOfColumns
      requires T() == t.(prime := Put(t.n, t.m, t.prime, row, col, true))
      modifies newStarMatrix
      ensures T() == old(T())
      ensures Walk(t, row, next, lastCol, t.n)
      ensures Exchanged(t, next, newStarMatrix[..])
    {
      CopyStars();
      next := map[row as int := col as int];
      InBounds(nOfRows, nOfColumns, row, col);
      newStarMatrix[Index(nOfRows, row, col)] := true;
      assert newStarMatrix[..] == Put(t.n, t.m, t.star, row, col, true);
      ExchangeStarts(t, row, col);

      var starCol := col;
      var starRow := StarInColumn(starCol);
      SameStars(t, T());
      WalkStarts(t, row, col, starRow);
      while starRow < nOfRows
        invariant Valid() && T() == t.(prime := Put(t.n, t.m, t.prime, row, col, true))
        invariant starRow <= nOfRows && starCol < nOfColumns
        invariant Walk(t, row, next, starCol, starRow)
        invariant Exchanged(t, next, newStarMatrix[..])
        invariant |next| <= nOfRows
        decreases nOfRows - |next|
      {
        starRow, starCol, next := FollowPrime(row, col, starRow, starCol, next, t);
      }
      lastCol := starCol;
    }

    /** One turn of the walk: move the star of starRow to its row's prime, and look for the
        star in the prime's column. */
    method FollowPrime(ghost row: nat, ghost col: nat, starRow: nat, starCol: nat, ghost next: map<int, int>, ghost t: Tableau)
      returns (starRow': nat, starCol': nat, ghost next': map<int, int>)
      requires Valid() && t.Shaped() && t.Matching() && t.Covers() && CanStart(t, row, col)
      requires t.n == nOfRows && t.m == nOfColumns
      requires T() == t.(prime := Put(t.n, t.m, t.prime, row, col, true))
      requires starRow < nOfRows && Walk(t, row, next, starCol, starRow)
      requires Exchanged(t, next, newStarMatrix[..])
      modifies newStarMatrix
      ensures starRow' <= nOfRows && starCol' < nOfColumns
      ensures next' == next[starRow as int := starCol' as int] && starRow !in next
      ensures |next'| == |next| + 1 <= nOfRows
      ensures Walk(t, row, next', starCol', starRow')
      ensures Exchanged(t, next', newStarMatrix[..])
    {
      ghost var before := newStarMatrix[..];
      InBounds(nOfRows, nOfColumns, starRow, starCol);
      newStarMatrix[Index(nOfRows, starRow, starCol)] := false;

      var primeRow := starRow;
      ReachedRowIsPrimed(t, row, col, next, starCol, starRow, T());
      var primeCol := PrimeInRow(primeRow);
      assert t.Primed(primeRow, primeCol);

      InBounds(nOfRows, nOfColumns, primeRow, primeCol);
      newStarMatrix[Index(nOfRows, primeRow, primeCol)] := true;
      assert newStarMatrix[..] ==
          Put(t.n, t.m, Put(t.n, t.m, before, starRow, starCol, false), primeRow, primeCol, true);
      PrimeIsNew(t, row, next, starCol, starRow, primeCol);
      ExchangeAdvances(t, row, next, starCol, starRow, primeCol, before);

      starCol' := primeCol;
      starRow' := StarInColumn(starCol');
      SameStars(t, T());
      WalkAdvances(t, row, next, starCol, primeRow, primeCol, starRow');
      next' := next[primeRow as int := primeCol as int];
      SubrangeSize(next'.Keys, nOfRows);
    }

    method CopyStars()
      requires Separate()
      modifies newStarMatrix
      ensures newStarMatrix[..] == starMatrix[..]
    {
      var n := 0;
      while n < newStarMatrix.Length
        invariant n <= newStarMatrix.Length
        invariant forall k | 0 <= k < n :: newStarMatrix[k] == starMatrix[k]
      {
        newStarMatrix[n] := starMatrix[n];
        n := n + 1;
      }
    }

    /** Use the copy as the new stars, delete all primes, uncover all rows. */
    method AdoptNewStars()
      requires Valid()
      modifies primeMatrix, starMatrix, coveredRows
      ensures Augmented(old(T()), old(newStarMatrix[..]), T())
    {
      var n := 0;
      while n < starMatrix.Length
        invariant n <= starMatrix.Length
        invariant forall k | 0 <= k < n :: !primeMatrix[k] && starMatrix[k] == newStarMatrix[k]
      {
        primeMatrix[n] := false;
        starMatrix[n] := newStarMatrix[n];
        n := n + 1;
      }
      n := 0;
      while n < nOfRows
        invariant n <= nOfRows
        invariant forall k | 0 <= k < n :: !coveredRows[k]
        invariant starMatrix[..] == newStarMatrix[..]
        invariant forall k | 0 <= k < primeMatrix.Length :: !primeMatrix[k]
      {
        coveredRows[n] := false;
        n := n + 1;
      }
      forall r, c | T().Cell(r, c) ensures !T().Primed(r, c) {
        InBounds(nOfRows, nOfColumns, r, c);
      }
    }

    /** Step 5: shift the smallest uncovered value so that a new uncovered zero appears. */
    method Step5()
      requires Valid() && T().Inv() && Unassigned() && Missing() > 0 && !T().HasUncoveredZero()
      modifies this, assignment, distMatrix, starMatrix, newStarMatrix, primeMatrix, coveredColumns, coveredRows
      ensures Solved()
      decreases Missing(), nOfRows - |T().CoveredRows()|, 2
    {
      ghost var t := T();
      MissingStarsLeaveUncovered(t);
      var h := LeastUncoveredEntry();
      ShiftUncovered(h);
      ShiftKeepsInv(t, h, T());
      Step3();
    }

    method CountCoveredColumns() returns (nOfCoveredColumns: nat)
      requires Valid()
      ensures nOfCoveredColumns == |T().CoveredCols()|
    {
      nOfCoveredColumns := 0;
      var col := 0;
      ghost var seen := {};
      while col < nOfColumns
        invariant col <= nOfColumns
        invariant seen == set c | 0 <= c < col && coveredColumns[c]
        invariant nOfCoveredColumns == |seen|
      {
        if coveredColumns[col] {
          seen := seen + {col};
          nOfCoveredColumns := nOfCoveredColumns + 1;
        }
        col := col + 1;
      }
      assert seen == T().CoveredCols();
    }

    /** Read the stars off row by row. */
    method BuildAssignmentVector()
      requires Valid() && T().Core() && |T().StarredRows()| == MinDim() && Unassigned()
      modifies assignment
      ensures assignment[..] == StarVector(T())
      ensures Solved()
    {
      ghost var a := StarVector(T());
      var row := 0;
      while row < nOfRows
        invariant row <= nOfRows
        invariant forall r | 0 <= r < row :: assignment[r] == a[r]
        invariant forall r | row <= r < nOfRows :: assignment[r] == -1
      {
        var col := StarInRow(row);
        if col < nOfColumns {
          assignment[row] := col;
          assert T().Starred(row, a[row]);
        }
        row := row + 1;
      }
      assert assignment[..] == a;
      CompleteIsCertified(T());
    }

    /** Smallest entry whose row and column are both uncovered; there is one while stars are missing. */
    method LeastUncoveredEntry() returns (h: real)
      requires Valid() && T().HasUncovered()
      ensures LeastUncovered(T(), h)
    {
      ghost var t := T();
      var found := false;
      h := 0.0;
      var row := 0;
      while row < nOfRows
        invariant row <= nOfRows
        invariant found ==> exists r, c | t.Cell(r, c) :: t.Uncovered(r, c) && t.D(r, c) == h
        invariant forall r, c | t.Cell(r, c) && r < row && t.Uncovered(r, c) :: found && h <= t.D(r, c)
      {
        if !coveredRows[row] {
          var col := 0;
          while col < nOfColumns
            invariant col <= nOfColumns
            invariant found ==> exists r, c | t.Cell(r, c) :: t.Uncovered(r, c) && t.D(r, c) == h
            invariant forall r, c | t.Cell(r, c) && (r < row || (r == row && c < col)) && t.Uncovered(r, c) ::
                        found && h <= t.D(r, c)
          {
            if !coveredColumns[col] {
              InBounds(nOfRows, nOfColumns, row, col);
              var value := distMatrix[Index(nOfRows, row, col)];
              assert value == t.D(row, col) && t.Uncovered(row, col);
              if !found || value < h {
                found, h := true, value;
              }
            }
            col := col + 1;
          }
        }
        row := row + 1;
      }
    }

    /** Add h to each covered row, subtract it from each uncovered column, and account for both. */
    method ShiftUncovered(h: real)
      requires Valid()
      modifies this`u, this`v, this`top, distMatrix
      ensures Valid() && old(T()).ShiftedBy(h, T())
    {
      hide Put, At, Span, IsMatrix;
      ghost var t := T();
      AddToCoveredRows(h);
      SubtractFromUncoveredColumns(h);
      u := seq(nOfRows, r requires 0 <= r < nOfRows => t.u[r] - (if t.rowCovered[r] then h else 0.0));
      v := seq(nOfColumns, c requires 0 <= c < nOfColumns => t.v[c] + (if t.colCovered[c] then 0.0 else h));
      top := top + h;
    }

    method AddToCoveredRows(h: real)
      requires Valid()
      modifies distMatrix
      ensures T() == old(T()).(dist := distMatrix[..])
      ensures forall r, c | T().Cell(r, c) ::
                T().D(r, c) == old(T().D(r, c)) + (if coveredRows[r] then h else 0.0)
    {
      ghost var t := T();
      var row := 0;
      while row < nOfRows
        invariant row <= nOfRows
        invariant T() == t.(dist := distMatrix[..])
        invariant forall r, c | t.Cell(r, c) ::
                    T().D(r, c) == t.D(r, c) + (if r < row && t.rowCovered[r] then h else 0.0)
      {
        if coveredRows[row] {
          AddToRow(row, h);
        }
        row := row + 1;
      }
    }

    method SubtractFromUncoveredColumns(h: real)
      requires Valid()
      modifies distMatrix
      ensures T() == old(T()).(dist := distMatrix[..])
      ensures forall r, c | T().Cell(r, c) ::
                T().D(r, c) == old(T().D(r, c)) - (if coveredColumns[c] then 0.0 else h)
    {
      ghost var t := T();
      var col := 0;
      while col < nOfColumns
        invariant col <= nOfColumns
        invariant T() == t.(dist := distMatrix[..])
        invariant forall r, c | t.Cell(r, c) ::
                    T().D(r, c) == t.D(r, c) - (if c < col && !t.colCovered[c] then h else 0.0)
      {
        if !coveredColumns[col] {
          AddToColumn(col, -h);
        }
        col := col + 1;
      }
    }

    // The preliminary steps

    /** With no more rows than columns: subtract from each row its smallest element. */
    method SubtractRowMinima()
      requires Valid() && nOfRows <= nOfColumns && Accounted(T())
      requires forall r | 0 <= r < nOfRows :: u[r] == 0.0
      modifies this`u, distMatrix
      ensures Valid() && Accounted(T()) && T().Dual()
      ensures T() == old(T()).(dist := distMatrix[..], u := u)
      ensures forall r | 0 <= r < nOfRows :: HasZero(T(), r)
    {
      ghost var t := T();
      var row := 0;
      while row < nOfRows
        invariant row <= nOfRows && Valid()
        invariant T() == t.(dist := distMatrix[..], u := u)
        invariant Accounted(T())
        invariant forall r, c | T().Cell(r, c) && r < row :: T().D(r, c) >= 0.0
        invariant forall r | 0 <= r < row :: HasZero(T(), r)
      {
        ghost var before := T();
        var minValue := RowMinimum(row);
        AddToRow(row, -minValue);
        u := u[row := u[row] + minValue];
        RowSubtractionAccounted(before, row, minValue, T());
        ZeroAppears(before, row, minValue, T());
        row := row + 1;
      }
    }

    /** With more rows than columns: subtract from each column its smallest element. */
    method SubtractColumnMinima()
      requires Valid() && nOfRows > nOfColumns && Accounted(T())
      modifies this`v, distMatrix
      ensures Valid() && Accounted(T()) && T().Dual()
      ensures T() == old(T()).(dist := distMatrix[..], v := v)
    {
      ghost var t := T();
      var col := 0;
      while col < nOfColumns
        invariant col <= nOfColumns && Valid()
        invariant T() == t.(dist := distMatrix[..], v := v)
        invariant Accounted(T())
        invariant forall r, c | T().Cell(r, c) && c < col :: T().D(r, c) >= 0.0
      {
        ghost var before := T();
        var minValue := ColumnMinimum(col);
        AddToColumn(col, -minValue);
        v := v[col := v[col] + minValue];
        ColumnSubtractionAccounted(before, col, minValue, T());
        col := col + 1;
      }
    }

    /** Star, row by row, the first zero in a column not yet covered, and cover that column. */
    method StarRowByRow()
      requires Valid() && T().Core() && Starless(T()) && T().Fresh()
      modifies starMatrix, coveredColumns
      ensures Valid() && T().Core() && T().Fresh()
      ensures T() == old(T()).(star := T().star, colCovered := T().colCovered)
      ensures nOfRows > 0 ==> FirstZeroStarred(T())
    {
      hide Put, At, Span, IsMatrix, FirstZero, FirstZeroStarred;
      ghost var blank, t := T(), T();
      var row := 0;
      while row < nOfRows
        invariant row <= nOfRows && Valid()
        invariant T() == t == blank.(star := t.star, colCovered := t.colCovered)
        invariant t.Core()
        invariant row > 0 ==> FirstZeroStarred(t)
        invariant forall r | row <= r < nOfRows :: !t.RowStarred(r)
        invariant forall c | 0 <= c < nOfColumns :: t.colCovered[c] <==> t.ColStarred(c)
      {
        var col := UncoveredZeroInRow(row);
        assert row == 0 ==> FirstUncoveredZero(t, col);
        if col < nOfColumns {
          StarZero(row, col);
          StarKeepsCore(t, row, col, T());
          FirstZeroStays(t, row, col, T());
          t := T();
        } else if row == 0 {
          NothingCovered(t, col);
        }
        row := row + 1;
      }
      assert forall r, c | t.Cell(r, c) :: t.Primed(r, c) == blank.Primed(r, c);
    }

    /** Star an entry and cover its column. */
    method StarZero(row: nat, col: nat)
      requires Valid() && row < nOfRows && col < nOfColumns
      modifies starMatrix, coveredColumns
      ensures T() == old(T()).(star := Put(nOfRows, nOfColumns, old(T()).star, row, col, true),
                               colCovered := old(T()).colCovered[col := true])
    {
      InBounds(nOfRows, nOfColumns, row, col);
      starMatrix[Index(nOfRows, row, col)] := true;
      coveredColumns[col] := true;
    }

    /** First zero of a row in a column not yet covered, nOfColumns when there is none. */
    method UncoveredZeroInRow(row: nat) returns (col: nat)
      requires Valid() && row < nOfRows && T().Dual()
      ensures col <= nOfColumns
      ensures col < nOfColumns ==> !coveredColumns[col] && T().D(row, col) < eps
      ensures forall c | 0 <= c < col :: coveredColumns[c] || T().D(row, c) >= eps
    {
      col := 0;
      while col < nOfColumns
        invariant col <= nOfColumns
        invariant forall c | 0 <= c < col :: coveredColumns[c] || T().D(row, c) >= eps
      {
        InBounds(nOfRows, nOfColumns, row, col);
        assert distMatrix[Index(nOfRows, row, col)] == T().D(row, col);
        if Abs(distMatrix[Index(nOfRows, row, col)]) < eps && !coveredColumns[col] {
          break;
        }
        col := col + 1;
      }
    }

    /** Star, column by column, the first zero in a row not yet covered; the row covers
        are only used to remember which rows have a star, and are taken off again. */
    method StarColumnByColumn()
      requires Valid() && T().Core() && Starless(T()) && T().Fresh()
      modifies starMatrix, coveredColumns, coveredRows
      ensures Valid() && T().Core() && T().Fresh()
    {
      hide Put, At, Span, IsMatrix;
      ghost var blank, t := T(), T();
      var col := 0;
      while col < nOfColumns
        invariant col <= nOfColumns && Valid()
        invariant T() == t == blank.(star := t.star, colCovered := t.colCovered, rowCovered := t.rowCovered)
        invariant t.Core()
        invariant forall c | col <= c < nOfColumns :: !t.ColStarred(c)
        invariant forall r | 0 <= r < nOfRows :: t.rowCovered[r] <==> t.RowStarred(r)
        invariant forall c | 0 <= c < nOfColumns :: t.colCovered[c] <==> t.ColStarred(c)
      {
        var row := ZeroInColumn(col);
        if row < nOfRows {
          StarZero(row, col);
          coveredRows[row] := true;
          StarKeepsCore(t, row, col, T());
          t := T();
        }
        col := col + 1;
      }
      UncoverRows();
      assert forall r, c | t.Cell(r, c) :: T().Primed(r, c) == blank.Primed(r, c);
    }

    method UncoverRows()
      requires Valid() && T().Core()
      modifies coveredRows
      ensures Valid() && T().Core() && T() == old(T()).(rowCovered := coveredRows[..])
      ensures forall r | 0 <= r < nOfRows :: !coveredRows[r]
      ensures forall c | 0 <= c < nOfColumns :: T().ColStarred(c) == old(T()).ColStarred(c)
    {
      ghost var starred := T();
      var row := 0;
      while row < nOfRows
        invariant row <= nOfRows && Valid()
        invariant T() == starred.(rowCovered := coveredRows[..])
        invariant forall r | 0 <= r < row :: !coveredRows[r]
      {
        coveredRows[row] := false;
        row := row + 1;
      }
      SameCore(starred, T());
      SameStars(starred, T());
    }

    /** First zero of a column in a row not yet covered, nOfRows when there is none. */
    method ZeroInColumn(col: nat) returns (row: nat)
      requires Valid() && col < nOfColumns && T().Dual()
      ensures row <= nOfRows
      ensures row < nOfRows ==> !coveredRows[row] && T().D(row, col) < eps
      ensures forall r | 0 <= r < row :: coveredRows[r] || T().D(r, col) >= eps
    {
      row := 0;
      while row < nOfRows
        invariant row <= nOfRows
        invariant forall r | 0 <= r < row :: coveredRows[r] || T().D(r, col) >= eps
      {
        InBounds(nOfRows, nOfColumns, row, col);
        assert distMatrix[Index(nOfRows, row, col)] == T().D(row, col);
        if Abs(distMatrix[Index(nOfRows, row, col)]) < eps && !coveredRows[row] {
          break;
        }
        row := row + 1;
      }
    }

    /** From the untouched matrix to a certified assignment. */
    method Run()
      requires Valid() && eps > 0.0 && Unassigned()
      requires Accounted(T()) && Starless(T()) && T().Fresh()
      requires top == 0.0 && (forall r | 0 <= r < nOfRows :: u[r] == 0.0) && (forall c | 0 <= c < nOfColumns :: v[c] == 0.0)
      modifies this, assignment, distMatrix, starMatrix, newStarMatrix, primeMatrix, coveredColumns, coveredRows
      ensures Solved()
      ensures nOfRows == 1 && nOfColumns > 0 ==> FirstNearLeast(original[0], nOfColumns, eps, assignment[0])
    {
      ghost var t := T();
      if nOfRows <= nOfColumns {
        SubtractRowMinima();
        SameFresh(t, T());
        ghost var reduced := T();
        StarRowByRow();
        if nOfRows == 1 {
          SameZero(reduced, T());
          OneRowStar(T());
        }
      } else {
        SubtractColumnMinima();
        SameFresh(t, T());
        StarColumnByColumn();
      }
      Step2b();
    }
  }

  /** The flat array holds the matrix. */
  ghost predicate Stores(flat: seq<real>, M: Matrix, n: nat, m: nat)
    requires IsMatrix(M, n, m) && |flat| == Span(n, m)
  {
    forall r, c | 0 <= r < n && 0 <= c < m :: At(n, m, flat, r, c) == M[r][c]
  }

  /** Every entry is a multiple of g. */
  ghost predicate AllOnGrid(M: Matrix, n: nat, m: nat, g: real)
    requires IsMatrix(M, n, m)
  {
    forall r, c | 0 <= r < n && 0 <= c < m :: OnGrid(M[r][c], g)
  }

  lemma SameFresh(t: Tableau, t': Tableau)
    requires t.Shaped() && t'.Shaped() && Starless(t) && t.Fresh()
    requires t' == t.(dist := t'.dist, u := t'.u, v := t'.v)
    ensures Starless(t') && t'.Fresh() && t'.Matching() && t'.StarsSmall()
  {
    assert forall r, c | t.Cell(r, c) :: t'.Starred(r, c) == t.Starred(r, c) && t'.Primed(r, c) == t.Primed(r, c);
    SameStars(t, t');
  }

  /** Sum of the chosen entries; rows without a column contribute nothing. */
  method ComputeAssignmentCost(assignment: array<int>, distMatrix: array<real>, nOfRows: nat, nOfColumns: nat,
                               ghost original: Matrix)
    returns (cost: real)
    requires IsMatrix(original, nOfRows, nOfColumns) && distMatrix.Length == Span(nOfRows, nOfColumns)
    requires Stores(distMatrix[..], original, nOfRows, nOfColumns)
    requires IsAssignment(assignment[..], nOfRows, nOfColumns)
    ensures cost == Cost(original, assignment[..])
  {
    cost := 0.0;
    var row := 0;
    while row < nOfRows
      invariant row <= nOfRows
      invariant cost == Cost(original, assignment[..row])
    {
      var col := assignment[row];
      if col >= 0 {
        InBounds(nOfRows, nOfColumns, row, col);
        assert At(nOfRows, nOfColumns, distMatrix[..], row, col) == original[row][col];
        cost := cost + distMatrix[Index(nOfRows, row, col)];
      }
      assert assignment[..row + 1][..row] == assignment[..row];
      row := row + 1;
    }
    assert assignment[..row] == assignment[..];
  }

  /** Munkres' algorithm on a column-major matrix. */
  method AssignmentOptimal(assignment: array<int>, distMatrixIn: array<real>, nOfRows: nat, nOfColumns: nat,
                           eps: real, ghost original: Matrix, ghost grid: real)
    returns (cost: real)
    requires eps > 0.0 && nOfRows > 0
    requires assignment.Length == nOfRows && distMatrixIn.Length == Span(nOfRows, nOfColumns)
    requires IsMatrix(original, nOfRows, nOfColumns) && Stores(distMatrixIn[..], original, nOfRows, nOfColumns)
    requires grid > 0.0 ==> grid >= eps && AllOnGrid(original, nOfRows, nOfColumns, grid)
    modifies assignment
    ensures IsAssignment(assignment[..], nOfRows, nOfColumns)
    ensures Assigned(assignment[..]) == Min(nOfRows, nOfColumns)
    ensures forall r | 0 <= r < nOfRows :: assignment[r] >= -1
    ensures CertifiedWithin(original, nOfRows, nOfColumns, assignment[..], if grid > 0.0 then 0.0 else eps)
    ensures cost == Cost(original, assignment[..])
    ensures nOfRows == 1 && nOfColumns > 0 ==> FirstNearLeast(original[0], nOfColumns, eps, assignment[0])
  {
    var row := 0;
    while row < nOfRows
      invariant row <= nOfRows
      invariant forall r | 0 <= r < row :: assignment[r] == -1
    {
      assignment[row] := -1;
      row := row + 1;
    }
    var workspace := new Workspace(assignment, distMatrixIn, nOfRows, nOfColumns, eps, original, grid);
    workspace.Run();
    cost := ComputeAssignmentCost(assignment, distMatrixIn, nOfRows, nOfColumns, original);
  }

  /** Solve the assignment problem for a matrix with at least one row: a cheapest way to give
      each line of the shorter side its own partner, up to eps for every pair, and exactly
      cheapest when the entries are multiples of some width no smaller than eps. */
  method Solve(DistMatrix: Matrix, eps: real) returns (cost: real, Assignment: seq<int>)
    requires eps > 0.0
    requires |DistMatrix| > 0 && IsMatrix(DistMatrix, |DistMatrix|, |DistMatrix[0]|)
    ensures IsAssignment(Assignment, |DistMatrix|, |DistMatrix[0]|)
    ensures cost == Cost(DistMatrix, Assignment)
    ensures forall r | 0 <= r < |Assignment| :: Assignment[r] >= -1
    ensures CheapestUpTo(DistMatrix, |DistMatrix|, |DistMatrix[0]|, Assignment,
                         Min(|DistMatrix|, |DistMatrix[0]|), eps)
    ensures forall g | g >= eps && AllOnGrid(DistMatrix, |DistMatrix|, |DistMatrix[0]|, g) ::
              Cheapest(DistMatrix, |DistMatrix|, |DistMatrix[0]|, Assignment, Min(|DistMatrix|, |DistMatrix[0]|))
    ensures |DistMatrix| == 1 && |DistMatrix[0]| > 0 ==>
              FirstNearLeast(DistMatrix[0], |DistMatrix[0]|, eps, Assignment[0])
  {
    var nRows, nCols := |DistMatrix|, |DistMatrix[0]|;
    var distMatrixIn := new real[Span(nRows, nCols)];
    var assignment := new int[nRows];
    FillColumnMajor(DistMatrix, nRows, nCols, distMatrixIn);

    ghost var grid := 0.0;
    if g :| g >= eps && AllOnGrid(DistMatrix, nRows, nCols, g) {
      grid := g;
    }
    cost := AssignmentOptimal(assignment, distMatrixIn, nRows, nCols, eps, DistMatrix, grid);
    Assignment := assignment[..];

    CertifiedGap(DistMatrix, nRows, nCols, Assignment, Min(nRows, nCols), eps, grid);
  }

  /** The certificate as a bound on the gap to the cheapest assignment. */
  lemma CertifiedGap(M: Matrix, n: nat, m: nat, a: seq<int>, k: nat, eps: real, grid: real)
    requires eps > 0.0 && IsMatrix(M, n, m) && IsAssignment(a, n, m) && Assigned(a) == k
    requires CertifiedWithin(M, n, m, a, if grid > 0.0 then 0.0 else eps)
    ensures CheapestUpTo(M, n, m, a, k, eps)
    ensures grid > 0.0 ==> Cheapest(M, n, m, a, k)
  {
    CertificateBoundsCost(M, n, m, a, if grid > 0.0 then 0.0 else eps);
    TimesIsProduct(k, eps);
    TimesIsProduct(k, 0.0);
    assert k as real * eps >= 0.0;
  }

  method FillColumnMajor(M: Matrix, nRows: nat, nCols: nat, distMatrixIn: array<real>)
    requires IsMatrix(M, nRows, nCols) && distMatrixIn.Length == Span(nRows, nCols)
    modifies distMatrixIn
    ensures Stores(distMatrixIn[..], M, nRows, nCols)
  {
    var i := 0;
    while i < nRows
      invariant i <= nRows
      invariant forall r, c | 0 <= r < i && 0 <= c < nCols :: At(nRows, nCols, distMatrixIn[..], r, c) == M[r][c]
    {
      var j := 0;
      while j < nCols
        invariant j <= nCols
        invariant forall r, c | 0 <= r < i && 0 <= c < nCols :: At(nRows, nCols, distMatrixIn[..], r, c) == M[r][c]
        invariant forall c | 0 <= c < j :: At(nRows, nCols, distMatrixIn[..], i, c) == M[i][c]
      {
        ghost var before := distMatrixIn[..];
        InBounds(nRows, nCols, i, j);
        distMatrixIn[Index(nRows, i, j)] := M[i][j];
        assert distMatrixIn[..] == Put(nRows, nCols, before, i, j, M[i][j]);
        j := j + 1;
      }
      i := i + 1;
    }
  }
}
