/** Step 4's walk: from a new zero, alternately to the star in its column and to the
    prime in that star's row, until a column without a star. */
module AlternatingPath {
  import opened ColumnMajor
  import opened Tableaux

  ghost predicate Hit(next: map<int, int>, c: int) {
    exists r | r in next :: next[r] == c
  }

  /** next maps every row visited so far to the column it is to be starred in:
      different columns for different rows, all uncovered, all zeros. */
  ghost predicate Targets(t: Tableau, row0: int, next: map<int, int>)
    requires t.Shaped()
  {
    && row0 in next
    && (forall r | r in next :: t.Cell(r, next[r]) && !t.colCovered[next[r]] && t.D(r, next[r]) < t.eps)
    && (forall r | r in next && r != row0 :: t.RowStarred(r))
    && (forall r, r' | r in next && r' in next && next[r] == next[r'] :: r == r')
  }

  /** The walk stands in column starCol, facing the star in starRow, or at its end when starRow is n. */
  ghost predicate Facing(t: Tableau, next: map<int, int>, starCol: int, starRow: int)
    requires t.Shaped()
  {
    && 0 <= starCol < t.m
    && Hit(next, starCol)
    && 0 <= starRow <= t.n
    && (starRow == t.n ==> !t.ColStarred(starCol))
    && (starRow < t.n ==> t.Starred(starRow, starCol) && starRow !in next)
  }

  /** Columns the walk has left lost their star to a visited row, and visited rows' columns were hit. */
  ghost predicate Behind(t: Tableau, row0: int, next: map<int, int>, starCol: int)
    requires t.Shaped() && Targets(t, row0, next)
  {
    && (forall r | r in next && next[r] != starCol :: t.ColStarred(next[r]))
    && (forall r, s | r in next && next[r] != starCol && t.Cell(s, next[r]) && t.Starred(s, next[r]) :: s in next)
    && (forall s, c | s in next && s != row0 && t.Cell(s, c) && t.Starred(s, c) :: Hit(next, c))
  }

  /** The walk goes back in time. */
  ghost predicate Backwards(t: Tableau, row0: int, next: map<int, int>, starRow: int)
    requires t.Shaped() && Targets(t, row0, next)
  {
    0 <= starRow < t.n ==> forall r | r in next && r != row0 :: t.time[starRow] < t.time[r]
  }

  ghost predicate Walk(t: Tableau, row0: int, next: map<int, int>, starCol: int, starRow: int)
    requires t.Shaped()
  {
    && Targets(t, row0, next)
    && Facing(t, next, starCol, starRow)
    && Behind(t, row0, next, starCol)
    && Backwards(t, row0, next, starRow)
  }

  /** The stars after exchanging along the rows of next. */
  ghost predicate Exchanged(t: Tableau, next: map<int, int>, newStar: seq<bool>)
    requires t.Shaped()
  {
    && |newStar| == Span(t.n, t.m)
    && forall r, c | t.Cell(r, c) ::
         At(t.n, t.m, newStar, r, c) == (if r in next then c == next[r] else t.Starred(r, c))
  }

  /** An uncovered zero in a row without a star. */
  ghost predicate CanStart(t: Tableau, row0: int, col0: int)
    requires t.Shaped()
  {
    && t.Cell(row0, col0)
    && t.Uncovered(row0, col0)
    && t.D(row0, col0) < t.eps
    && !t.RowStarred(row0)
  }

  /** starRow is the row of the star in column c, n when there is none. */
  ghost predicate FirstStarRow(t: Tableau, c: int, starRow: int)
    requires t.Shaped() && 0 <= c < t.m
  {
    && 0 <= starRow <= t.n
    && (starRow < t.n ==> t.Starred(starRow, c))
    && (starRow == t.n ==> !t.ColStarred(c))
  }

  lemma StarsShow(t: Tableau)
    requires t.Shaped()
    ensures forall r, c | t.Cell(r, c) && t.Starred(r, c) :: t.RowStarred(r) && t.ColStarred(c)
  {
  }

  lemma WalkStarts(t: Tableau, row0: int, col0: int, starRow: int)
    requires t.Shaped() && CanStart(t, row0, col0) && FirstStarRow(t, col0, starRow)
    ensures Walk(t, row0, map[row0 := col0], col0, starRow)
  {
  }

  lemma ExchangeStarts(t: Tableau, row0: int, col0: int)
    requires t.Shaped() && CanStart(t, row0, col0)
    ensures Exchanged(t, map[row0 := col0], Put(t.n, t.m, t.star, row0, col0, true))
  {
    StarsShow(t);
    assert forall c | 0 <= c < t.m :: !t.Starred(row0, c);
  }

  /** The row the walk reaches was covered by step 3, so it has a prime. */
  lemma ReachedRowIsPrimed(t: Tableau, row0: int, col0: int, next: map<int, int>, starCol: int, starRow: int, t': Tableau)
    requires t.Shaped() && t.StarsCoveredOnce() && t.PrimesInCoveredRows() && CanStart(t, row0, col0)
    requires Walk(t, row0, next, starCol, starRow) && starRow < t.n
    requires t' == t.(prime := Put(t.n, t.m, t.prime, row0, col0, true))
    ensures starRow != row0 && t.rowCovered[starRow] && t'.RowPrimed(starRow)
    ensures forall c | 0 <= c < t.m :: t'.Primed(starRow, c) == t.Primed(starRow, c)
  {
    StarsShow(t);
    var r :| r in next && next[r] == starCol;
    assert !t.colCovered[starCol];
    var c :| 0 <= c < t.m && t.Primed(starRow, c);
    assert t'.Primed(starRow, c);
  }

  /** The column of the prime in the row the walk reaches is new to the walk. */
  lemma PrimeIsNew(t: Tableau, row0: int, next: map<int, int>, starCol: int, starRow: int, primeCol: int)
    requires t.Shaped() && t.Chronological() && !(0 <= row0 < t.n && t.RowStarred(row0))
    requires Walk(t, row0, next, starCol, starRow) && starRow < t.n
    requires t.Cell(starRow, primeCol) && t.Primed(starRow, primeCol)
    ensures !Hit(next, primeCol)
  {
  }

  lemma WalkAdvances(t: Tableau, row0: int, next: map<int, int>, starCol: int, starRow: int,
                     primeCol: int, starRow': int)
    requires t.Shaped() && t.Matching() && t.PrimesInCoveredRows() && t.Chronological()
    requires !(0 <= row0 < t.n && t.RowStarred(row0))
    requires Walk(t, row0, next, starCol, starRow) && starRow < t.n
    requires t.Cell(starRow, primeCol) && t.Primed(starRow, primeCol)
    requires FirstStarRow(t, primeCol, starRow')
    ensures Walk(t, row0, next[starRow := primeCol], primeCol, starRow')
  {
    var next' := next[starRow := primeCol];
    PrimeIsNew(t, row0, next, starCol, starRow, primeCol);
    assert t.RowStarred(starRow);
    assert next'[starRow] == primeCol;
    TargetsGrow(t, row0, next, starRow, primeCol);
    BehindGrows(t, row0, next, starCol, starRow, primeCol);
    if starRow' < t.n {
      assert t.time[starRow'] < t.time[starRow];
      assert t.RowStarred(starRow');
    }
  }

  lemma TargetsGrow(t: Tableau, row0: int, next: map<int, int>, r: int, c: int)
    requires t.Shaped() && t.PrimesInCoveredRows() && Targets(t, row0, next)
    requires t.Cell(r, c) && t.Primed(r, c) && t.RowStarred(r) && r !in next && !Hit(next, c)
    ensures Targets(t, row0, next[r := c])
  {
  }

  lemma BehindGrows(t: Tableau, row0: int, next: map<int, int>, starCol: int, starRow: int, primeCol: int)
    requires t.Shaped() && t.Matching()
    requires Walk(t, row0, next, starCol, starRow) && starRow < t.n
    requires t.Cell(starRow, primeCol) && !Hit(next, primeCol)
    requires Targets(t, row0, next[starRow := primeCol])
    ensures Behind(t, row0, next[starRow := primeCol], primeCol)
  {
  }

  lemma ExchangeAdvances(t: Tableau, row0: int, next: map<int, int>, starCol: int, starRow: int,
                         primeCol: int, newStar: seq<bool>)
    requires t.Shaped() && t.Matching() && Walk(t, row0, next, starCol, starRow) && starRow < t.n
    requires t.Cell(starRow, primeCol) && !Hit(next, primeCol)
    requires Exchanged(t, next, newStar)
    ensures Exchanged(t, next[starRow := primeCol],
                      Put(t.n, t.m, Put(t.n, t.m, newStar, starRow, starCol, false), starRow, primeCol, true))
  {
  }

  /** The tableau step 4 hands to step 2a: exchanged stars, no primes, no covered rows. */
  ghost predicate Augmented(t: Tableau, newStar: seq<bool>, t': Tableau)
    requires t.Shaped()
  {
    && t'.Shaped()
    && t' == t.(star := newStar, prime := t'.prime, rowCovered := t'.rowCovered)
    && (forall r, c | t.Cell(r, c) :: !t'.Primed(r, c))
    && (forall r | 0 <= r < t.n :: !t'.rowCovered[r])
  }

  /** The exchange leaves one star more, and no line that had a star loses it. */
  lemma WalkEnds(t: Tableau, row0: int, col0: int, next: map<int, int>, starCol: int,
                 newStar: seq<bool>, t': Tableau)
    requires t.Inv() && CanStart(t, row0, col0) && Walk(t, row0, next, starCol, t.n)
    requires Exchanged(t, next, newStar) && Augmented(t, newStar, t')
    ensures t'.Core() && t'.Clean()
    ensures t.StarredCols() <= t'.StarredCols()
    ensures row0 !in t.StarredRows() && t'.StarredRows() == t.StarredRows() + {row0}
    ensures |t'.StarredRows()| == |t.StarredRows()| + 1
  {
    assert forall r, c | t.Cell(r, c) :: t'.Starred(r, c) == At(t.n, t.m, newStar, r, c);
    assert StarsExchanged(t, next, t');
    ExchangeKeepsRows(t, row0, next, starCol, t');
    OneRowStarred(t, row0, t');
    ExchangeKeepsCols(t, row0, next, starCol, t');
    ExchangeIsMatching(t, row0, next, starCol, t');
    ExchangeKeepsReductions(t, row0, next, newStar, t');
  }

  lemma ExchangeKeepsReductions(t: Tableau, row0: int, next: map<int, int>, newStar: seq<bool>, t': Tableau)
    requires t.Core() && Targets(t, row0, next)
    requires Augmented(t, newStar, t') && StarsExchanged(t, next, t')
    requires forall r | 0 <= r < t.n && t.RowStarred(r) :: t'.RowStarred(r)
    requires forall c | 0 <= c < t.m && t.ColStarred(c) :: t'.ColStarred(c)
    ensures t'.Dual() && t'.Gridded() && t'.StarsSmall() && t'.Extreme()
  {
    assert forall r, c | t.Cell(r, c) :: t'.D(r, c) == t.D(r, c);
  }

  ghost predicate StarsExchanged(t: Tableau, next: map<int, int>, t': Tableau)
    requires t.Shaped()
  {
    && t'.Shaped() && t'.n == t.n && t'.m == t.m
    && forall r, c | t.Cell(r, c) :: t'.Starred(r, c) == (if r in next then c == next[r] else t.Starred(r, c))
  }

  lemma ExchangeKeepsRows(t: Tableau, row0: int, next: map<int, int>, starCol: int, t': Tableau)
    requires t.Shaped() && 0 <= row0 < t.n && !t.RowStarred(row0)
    requires Walk(t, row0, next, starCol, t.n) && StarsExchanged(t, next, t')
    ensures forall r | 0 <= r < t.n :: t'.RowStarred(r) <==> t.RowStarred(r) || r == row0
  {
  }

  lemma OneRowStarred(t: Tableau, row0: int, t': Tableau)
    requires t.Shaped() && t'.Shaped() && t'.n == t.n && 0 <= row0 < t.n && !t.RowStarred(row0)
    requires forall r | 0 <= r < t.n :: t'.RowStarred(r) <==> t.RowStarred(r) || r == row0
    ensures row0 !in t.StarredRows() && t'.StarredRows() == t.StarredRows() + {row0}
    ensures |t'.StarredRows()| == |t.StarredRows()| + 1
  {
  }

  lemma ExchangeKeepsCols(t: Tableau, row0: int, next: map<int, int>, starCol: int, t': Tableau)
    requires t.Shaped() && 0 <= row0 < t.n && !t.RowStarred(row0)
    requires Walk(t, row0, next, starCol, t.n) && StarsExchanged(t, next, t')
    ensures forall c | 0 <= c < t.m && t.ColStarred(c) :: t'.ColStarred(c)
    ensures t.StarredCols() <= t'.StarredCols()
  {
  }

  lemma ExchangeIsMatching(t: Tableau, row0: int, next: map<int, int>, starCol: int, t': Tableau)
    requires t.Shaped() && t.Matching()
    requires Walk(t, row0, next, starCol, t.n) && StarsExchanged(t, next, t')
    ensures t'.Matching()
  {
  }

}
