/** Assignments of rows to columns, their cost, and the linear-programming
    certificate that bounds how far an assignment can be from the cheapest one. */
module Assignments {

  type Matrix = seq<seq<real>>

  /** n rows, each holding at least m entries. */
  predicate IsMatrix(M: Matrix, n: nat, m: nat) {
    |M| == n && forall r | 0 <= r < n :: |M[r]| >= m
  }

  /** a[r] is the column given to row r, negative when the row has none;
      no column is given twice. */
  predicate IsAssignment(a: seq<int>, n: nat, m: nat) {
    && |a| == n
    && (forall r | 0 <= r < n :: a[r] < m)
    && (forall r, r' | 0 <= r < r' < n && a[r] >= 0 :: a[r] != a[r'])
  }

  /** How many rows have a column. */
  function Assigned(a: seq<int>): nat {
    if a == [] then 0
    else Assigned(a[..|a| - 1]) + (if a[|a| - 1] >= 0 then 1 else 0)
  }

  /** Sum of the chosen entries of M. */
  function Cost(M: Matrix, a: seq<int>): real
    requires |a| <= |M| && forall r | 0 <= r < |a| :: a[r] < |M[r]|
  {
    if a == [] then 0.0
    else
      var r := |a| - 1;
      Cost(M, a[..r]) + (if a[r] >= 0 then M[r][a[r]] else 0.0)
  }

  /** a is an assignment of size k, and no assignment of that size is cheaper by more than gap. */
  ghost predicate CheapestWithin(M: Matrix, n: nat, m: nat, a: seq<int>, k: nat, gap: real)
    requires IsMatrix(M, n, m)
  {
    && IsAssignment(a, n, m)
    && Assigned(a) == k
    && forall b | IsAssignment(b, n, m) && Assigned(b) == k :: Cost(M, a) <= Cost(M, b) + gap
  }

  /** Cheapest among the assignments of size k, up to eps for each of its k entries. */
  ghost predicate CheapestUpTo(M: Matrix, n: nat, m: nat, a: seq<int>, k: nat, eps: real)
    requires IsMatrix(M, n, m)
  {
    CheapestWithin(M, n, m, a, k, k as real * eps)
  }

  ghost predicate Cheapest(M: Matrix, n: nat, m: nat, a: seq<int>, k: nat)
    requires IsMatrix(M, n, m)
  {
    CheapestWithin(M, n, m, a, k, 0.0)
  }

  ghost function Rows(a: seq<int>): set<int> {
    set r | 0 <= r < |a| && a[r] >= 0
  }

  ghost function Columns(a: seq<int>): set<int> {
    set r | 0 <= r < |a| && a[r] >= 0 :: a[r]
  }

  // Sums and counts over the indices that lie in a set

  ghost function SumOver(w: seq<real>, S: set<int>): real {
    if w == [] then 0.0
    else
      var i := |w| - 1;
      SumOver(w[..i], S) + (if i in S then w[i] else 0.0)
  }

  ghost function CountIn(k: nat, S: set<int>): nat {
    if k == 0 then 0 else CountIn(k - 1, S) + (if k - 1 in S then 1 else 0)
  }

  lemma {:induction false} SumAgrees(w: seq<real>, S: set<int>, T: set<int>)
    requires forall i | 0 <= i < |w| :: i in S <==> i in T
    ensures SumOver(w, S) == SumOver(w, T)
  {
    if w != [] {
      SumAgrees(w[..|w| - 1], S, T);
    }
  }

  lemma {:induction false} SumInsert(w: seq<real>, S: set<int>, i: int)
    requires 0 <= i < |w| && i !in S
    ensures SumOver(w, S + {i}) == SumOver(w, S) + w[i]
  {
    if i == |w| - 1 {
      SumAgrees(w[..i], S, S + {i});
    } else {
      SumInsert(w[..|w| - 1], S, i);
    }
  }

  lemma {:induction false} CountAgrees(k: nat, S: set<int>, T: set<int>)
    requires forall i | 0 <= i < k :: i in S <==> i in T
    ensures CountIn(k, S) == CountIn(k, T)
  {
    if k > 0 {
      CountAgrees(k - 1, S, T);
    }
  }

  lemma {:induction false} CountIsCardinality(k: nat, S: set<int>)
    requires forall i | i in S :: 0 <= i < k
    ensures CountIn(k, S) == |S|
  {
    if k > 0 {
      var T := S - {k - 1};
      CountIsCardinality(k - 1, T);
      CountAgrees(k - 1, S, T);
    } else {
      assert forall i :: i !in S;
      assert S == {};
    }
  }

  /** What dropping the last row does to the used rows and columns. */
  lemma RowsAndColumnsSplit(a: seq<int>, n: nat, m: nat)
    requires IsAssignment(a, n, m) && n > 0
    ensures IsAssignment(a[..n - 1], n - 1, m)
    ensures a[n - 1] >= 0 ==> Rows(a) == Rows(a[..n - 1]) + {n - 1} && n - 1 !in Rows(a[..n - 1])
    ensures a[n - 1] >= 0 ==> Columns(a) == Columns(a[..n - 1]) + {a[n - 1]} && a[n - 1] !in Columns(a[..n - 1])
    ensures a[n - 1] < 0 ==> Rows(a) == Rows(a[..n - 1]) && Columns(a) == Columns(a[..n - 1])
  {
  }

  lemma OneMore(S: set<int>, x: int)
    requires x !in S
    ensures |S + {x}| == |S| + 1
  {
  }

  /** An assignment uses as many rows as columns. */
  lemma {:induction false} AssignedCounts(a: seq<int>, n: nat, m: nat)
    requires IsAssignment(a, n, m)
    ensures Assigned(a) == |Rows(a)| == |Columns(a)|
  {
    if n > 0 {
      RowsAndColumnsSplit(a, n, m);
      AssignedCounts(a[..n - 1], n - 1, m);
      hide Rows, Columns, IsAssignment;
      if a[n - 1] >= 0 {
        OneMore(Rows(a[..n - 1]), n - 1);
        OneMore(Columns(a[..n - 1]), a[n - 1]);
      }
    } else {
      assert Rows(a) == {} && Columns(a) == {};
    }
  }

  lemma EqualCounts(a: seq<int>, b: seq<int>, n: nat, m: nat)
    requires IsAssignment(a, n, m) && IsAssignment(b, n, m) && Assigned(a) == Assigned(b)
    ensures CountIn(n, Rows(a)) == CountIn(n, Rows(b))
    ensures CountIn(m, Columns(a)) == CountIn(m, Columns(b))
  {
    AssignedCounts(a, n, m);
    AssignedCounts(b, n, m);
    CountIsCardinality(n, Rows(a));
    CountIsCardinality(n, Rows(b));
    CountIsCardinality(m, Columns(a));
    CountIsCardinality(m, Columns(b));
  }

  // Potentials

  ghost predicate Feasible(M: Matrix, n: nat, m: nat, u: seq<real>, v: seq<real>)
    requires IsMatrix(M, n, m) && |u| == n && |v| == m
  {
    forall r, c | 0 <= r < n && 0 <= c < m :: u[r] + v[c] <= M[r][c]
  }

  ghost predicate Tight(M: Matrix, n: nat, m: nat, u: seq<real>, v: seq<real>, a: seq<int>, slack: real)
    requires IsMatrix(M, n, m) && |u| == n && |v| == m && IsAssignment(a, n, m)
  {
    forall r | 0 <= r < n && a[r] >= 0 :: M[r][a[r]] <= u[r] + v[a[r]] + slack
  }

  /** No weight exceeds top, and every index outside S has exactly top. */
  ghost predicate TopOutside(w: seq<real>, S: set<int>, top: real) {
    forall i | 0 <= i < |w| :: w[i] <= top && (i !in S ==> w[i] == top)
  }

  /** Feasible potentials under which the chosen entries are nearly tight and
      every unused row and column carries the largest potential. */
  ghost predicate Certificate(M: Matrix, n: nat, m: nat, a: seq<int>,
                              u: seq<real>, v: seq<real>, rowTop: real, colTop: real, slack: real)
    requires IsMatrix(M, n, m)
  {
    && IsAssignment(a, n, m)
    && |u| == n && |v| == m
    && Feasible(M, n, m, u, v)
    && Tight(M, n, m, u, v, a, slack)
    && TopOutside(u, Rows(a), rowTop)
    && TopOutside(v, Columns(a), colTop)
  }

  ghost predicate CertifiedWithin(M: Matrix, n: nat, m: nat, a: seq<int>, slack: real)
    requires IsMatrix(M, n, m)
  {
    exists u, v, rowTop, colTop :: Certificate(M, n, m, a, u, v, rowTop, colTop, slack)
  }

  lemma {:induction false} CostAtLeastPotentials(M: Matrix, n: nat, m: nat, u: seq<real>, v: seq<real>, b: seq<int>)
    requires IsMatrix(M, n, m) && |u| == n && |v| == m && Feasible(M, n, m, u, v)
    requires IsAssignment(b, n, m)
    ensures Cost(M, b) >= SumOver(u, Rows(b)) + SumOver(v, Columns(b))
  {
    if n == 0 {
      assert Columns(b) == {};
      EmptySum(v);
    } else {
      var k := n - 1;
      RowsAndColumnsSplit(b, n, m);
      CostAtLeastPotentials(M[..k], k, m, u[..k], v, b[..k]);
      CostIgnoresLaterRows(M, b[..k]);
      if b[k] >= 0 {
        SumAgrees(u[..k], Rows(b[..k]), Rows(b));
        SumInsert(v, Columns(b[..k]), b[k]);
      }
    }
  }

  lemma {:induction false} CostAtMostPotentials(M: Matrix, n: nat, m: nat, u: seq<real>, v: seq<real>,
                                                a: seq<int>, slack: real)
    requires IsMatrix(M, n, m) && |u| == n && |v| == m
    requires IsAssignment(a, n, m) && Tight(M, n, m, u, v, a, slack)
    ensures Cost(M, a) <= SumOver(u, Rows(a)) + SumOver(v, Columns(a)) + Times(Assigned(a), slack)
  {
    if n == 0 {
      assert Columns(a) == {};
      EmptySum(v);
    } else {
      var k := n - 1;
      RowsAndColumnsSplit(a, n, m);
      CostAtMostPotentials(M[..k], k, m, u[..k], v, a[..k], slack);
      CostIgnoresLaterRows(M, a[..k]);
      if a[k] >= 0 {
        SumAgrees(u[..k], Rows(a[..k]), Rows(a));
        SumInsert(v, Columns(a[..k]), a[k]);
      }
    }
  }

  lemma {:induction false} EmptySum(w: seq<real>)
    ensures SumOver(w, {}) == 0.0
  {
    if w != [] {
      EmptySum(w[..|w| - 1]);
    }
  }

  lemma {:induction false} CostIgnoresLaterRows(M: Matrix, a: seq<int>)
    requires |a| < |M| && forall r | 0 <= r < |a| :: a[r] < |M[r]|
    ensures Cost(M, a) == Cost(M[..|M| - 1], a)
  {
    if a != [] {
      CostIgnoresLaterRows(M, a[..|a| - 1]);
    }
  }

  /** k times x. */
  ghost function Times(k: nat, x: real): real {
    if k == 0 then 0.0 else Times(k - 1, x) + x
  }

  lemma {:induction false} TimesIsProduct(k: nat, x: real)
    ensures Times(k, x) == k as real * x
  {
    if k > 0 {
      TimesIsProduct(k - 1, x);
      assert k as real * x == (k - 1) as real * x + 1.0 * x;
    }
  }

  /** Among index sets of one size, A has the least sum when only A's indices fall below top. */
  lemma {:induction false} TopOutsideMinimises(w: seq<real>, A: set<int>, B: set<int>, top: real)
    requires TopOutside(w, A, top)
    ensures SumOver(w, A) - Times(CountIn(|w|, A), top) <= SumOver(w, B) - Times(CountIn(|w|, B), top)
  {
    if w != [] {
      TopOutsideMinimises(w[..|w| - 1], A, B, top);
    }
  }

  /** Duality: a certified assignment is within slack per row of every assignment of its size. */
  lemma CertificateBoundsCost(M: Matrix, n: nat, m: nat, a: seq<int>, slack: real)
    requires IsMatrix(M, n, m) && CertifiedWithin(M, n, m, a, slack)
    ensures CheapestWithin(M, n, m, a, Assigned(a), Times(Assigned(a), slack))
  {
    var u, v, rowTop, colTop :| Certificate(M, n, m, a, u, v, rowTop, colTop, slack);
    forall b | IsAssignment(b, n, m) && Assigned(b) == Assigned(a)
      ensures Cost(M, a) <= Cost(M, b) + Times(Assigned(a), slack)
    {
      EqualCounts(a, b, n, m);
      TopOutsideMinimises(u, Rows(a), Rows(b), rowTop);
      TopOutsideMinimises(v, Columns(a), Columns(b), colTop);
      CostAtMostPotentials(M, n, m, u, v, a, slack);
      CostAtLeastPotentials(M, n, m, u, v, b);
    }
  }

  // Matrices with one row

  /** The first entry less than eps above the least. */
  ghost predicate FirstNearLeast(w: seq<real>, m: nat, eps: real, c: int)
    requires |w| >= m
  {
    && 0 <= c < m
    && (forall d | 0 <= d < m :: w[c] < w[d] + eps)
    && forall b | 0 <= b < c :: exists d | 0 <= d < m :: w[b] >= w[d] + eps
  }

  ghost predicate Least(w: seq<real>, m: nat, c: int)
    requires |w| >= m
  {
    0 <= c < m && forall d | 0 <= d < m :: w[c] <= w[d]
  }

  /** Before the first least entry none comes closer to it than eps. */
  ghost predicate LeastStandsOut(w: seq<real>, m: nat, eps: real)
    requires |w| >= m
  {
    exists c :: Least(w, m, c) && forall b | 0 <= b < c :: w[b] >= w[c] + eps
  }

  lemma OneRowCost(M: Matrix, m: nat, c: nat)
    requires IsMatrix(M, 1, m) && c < m
    ensures IsAssignment([c], 1, m) && Assigned([c]) == 1 && Cost(M, [c]) == M[0][c]
  {
    assert [c][..0] == [];
  }

  /** Taking the first entry near the least is cheapest if and only if no earlier entry comes near the least. */
  lemma OneRowCheapest(M: Matrix, m: nat, eps: real, a: seq<int>)
    requires IsMatrix(M, 1, m) && eps > 0.0 && |a| == 1 && FirstNearLeast(M[0], m, eps, a[0])
    ensures Cheapest(M, 1, m, a, 1) <==> LeastStandsOut(M[0], m, eps)
  {
    var w, c := M[0], a[0];
    assert a == [c];
    OneRowCost(M, m, c);
    if Cheapest(M, 1, m, a, 1) {
      forall d | 0 <= d < m
        ensures w[c] <= w[d]
      {
        OneRowCost(M, m, d);
        assert IsAssignment([d], 1, m) && Assigned([d]) == 1;
      }
      assert Least(w, m, c);
    }
    if LeastStandsOut(w, m, eps) {
      var least :| Least(w, m, least) && forall b | 0 <= b < least :: w[b] >= w[least] + eps;
      assert c == least;
      forall b | IsAssignment(b, 1, m) && Assigned(b) == 1
        ensures Cost(M, a) <= Cost(M, b)
      {
        var d := b[0];
        assert b == [d] && b[..0] == [];
        assert d >= 0;
        OneRowCost(M, m, d);
      }
    }
  }

  /** Two entries closer than eps: the first is taken although the second is less. */
  lemma NearTieIsMissed(eps: real, a: seq<int>)
    requires eps > 0.0 && |a| == 1 && FirstNearLeast([eps / 2.0, 0.0], 2, eps, a[0])
    ensures a == [0] && !Cheapest([[eps / 2.0, 0.0]], 1, 2, a, 1)
  {
    var w := [eps / 2.0, 0.0];
    assert w[0] < w[1] + eps;
    OneRowCheapest([w], 2, eps, a);
    assert !LeastStandsOut(w, 2, eps);
  }
}
