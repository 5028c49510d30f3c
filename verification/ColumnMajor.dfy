/** The flat, column-major storage every matrix of the assignment solver uses:
    entry (r, c) of a matrix with n rows lives at offset r + n * c. */
module ColumnMajor {

  /** Number of elements in the first c columns of a matrix with n rows. */
  function Span(n: nat, c: nat): nat {
    if c == 0 then 0 else Span(n, c - 1) + n
  }

  /** Offset of entry (r, c): what walking c columns from offset r arrives at. */
  function Index(n: nat, r: nat, c: nat): nat {
    r + Span(n, c)
  }

  /** Entry (r, c) of the n-by-m matrix stored in s. */
  function At<T>(n: nat, m: nat, s: seq<T>, r: int, c: int): T
    requires |s| == Span(n, m) && 0 <= r < n && 0 <= c < m
  {
    InBounds(n, m, r, c);
    s[Index(n, r, c)]
  }

  /** The matrix stored in s with entry (r, c) replaced by x. */
  function Put<T>(n: nat, m: nat, s: seq<T>, r: int, c: int, x: T): (s': seq<T>)
    requires |s| == Span(n, m) && 0 <= r < n && 0 <= c < m
    ensures |s'| == Span(n, m)
    ensures At(n, m, s', r, c) == x
    ensures forall r', c' | 0 <= r' < n && 0 <= c' < m && (r' != r || c' != c) ::
              At(n, m, s', r', c') == At(n, m, s, r', c')
  {
    InBounds(n, m, r, c);
    var s' := s[Index(n, r, c) := x];
    assert forall r', c' | 0 <= r' < n && 0 <= c' < m && (r' != r || c' != c) ::
        At(n, m, s', r', c') == At(n, m, s, r', c') by {
      forall r', c' | 0 <= r' < n && 0 <= c' < m && (r' != r || c' != c)
        ensures At(n, m, s', r', c') == At(n, m, s, r', c')
      {
        InBounds(n, m, r', c');
        Distinct(n, r, c, r', c');
      }
    }
    s'
  }

  /** The recursive definition is the product of the source's index expression. */
  lemma {:induction false} IndexIsAffine(n: nat, r: nat, c: nat)
    ensures Index(n, r, c) == r + n * c
  {
    if c > 0 {
      IndexIsAffine(n, r, c - 1);
    }
  }

  lemma {:induction false} SpanMonotone(n: nat, c: nat, d: nat)
    requires c <= d
    ensures Span(n, c) <= Span(n, d)
    decreases d
  {
    if c < d {
      SpanMonotone(n, c, d - 1);
    }
  }

  lemma InBounds(n: nat, m: nat, r: nat, c: nat)
    requires r < n && c < m
    ensures Index(n, r, c) < Span(n, c + 1) <= Span(n, m)
  {
    SpanMonotone(n, c + 1, m);
  }

  /** No two entries share an offset. */
  lemma Distinct(n: nat, r: nat, c: nat, r': nat, c': nat)
    requires r < n && r' < n
    requires r != r' || c != c'
    ensures Index(n, r, c) != Index(n, r', c')
  {
    if c < c' {
      SpanMonotone(n, c + 1, c');
    } else if c' < c {
      SpanMonotone(n, c' + 1, c);
    }
  }
}
