/** Keeping every n-th element of a list, and the two places that bound how many remain. */
module Thinning {
  /** The elements whose index is a multiple of `n`. */
  function EveryNth<T>(s: seq<T>, n: nat): seq<T>
    requires n > 0
  {
    if s == [] then []
    else
      var last := |s| - 1;
      EveryNth(s[..last], n) + if last % n == 0 then [s[last]] else []
  }

  function CeilDiv(m: nat, n: nat): nat
    requires n > 0
  {
    (m + n - 1) / n
  }

  lemma Monotone(a: int, b: int, n: nat)
    requires a <= b
    ensures a * n <= b * n
  {}

  /** The quotient is determined by its remainder being in range. */
  lemma QuotientIs(m: int, n: nat, q: int)
    requires n > 0 && q * n <= m < q * n + n
    ensures m / n == q
  {
    var p := m / n;
    assert p * n + m % n == m;
    if p < q { Monotone(p + 1, q, n); }
    if p > q { Monotone(q + 1, p, n); }
  }

  lemma DivBounds(m: nat, n: nat)
    requires n > 0
    ensures (m / n) * n <= m < (m / n) * n + n
  {}

  lemma CeilStep(m: nat, n: nat)
    requires n > 0
    ensures CeilDiv(m + 1, n) == CeilDiv(m, n) + if m % n == 0 then 1 else 0
    ensures m % n == 0 ==> m == CeilDiv(m, n) * n
  {
    var q := m / n;
    DivBounds(m, n);
    assert (q + 1) * n == q * n + n;
    if m == q * n {
      QuotientIs(m + n - 1, n, q);
      QuotientIs(m + n, n, q + 1);
    } else {
      QuotientIs(m + n - 1, n, q + 1);
      QuotientIs(m + n, n, q + 1);
    }
  }

  /** The k-th element kept is the one at k times the stride, and they run to the end. */
  lemma {:induction false} EveryNthMeans<T>(s: seq<T>, n: nat)
    requires n > 0
    ensures var r := EveryNth(s, n);
            && |r| == CeilDiv(|s|, n)
            && (forall k :: 0 <= k < |r| ==> 0 <= k * n < |s| && r[k] == s[k * n])
  {
    if s == [] {
      QuotientIs(n - 1, n, 0);
    } else {
      var last := |s| - 1;
      var before := EveryNth(s[..last], n);
      EveryNthMeans(s[..last], n);
      CeilStep(last, n);
      forall k | 0 <= k < |EveryNth(s, n)| ensures 0 <= k * n < |s| && EveryNth(s, n)[k] == s[k * n] {
        if k < |before| { assert before[k] == s[..last][k * n]; }
      }
    }
  }

  // ------------------------------------------------ the table beside a chart

  const TABLE_MAX_ROWS := 60

  method Thin<T>(list: seq<T>) returns (rows: seq<T>, stride: nat)
    ensures stride == (if |list| <= TABLE_MAX_ROWS then 1 else CeilDiv(|list|, TABLE_MAX_ROWS)) > 0
    ensures rows == EveryNth(list, stride)
    ensures |list| <= TABLE_MAX_ROWS ==> rows == list
    ensures |list| > TABLE_MAX_ROWS ==> 31 <= |rows| <= TABLE_MAX_ROWS && rows[0] == list[0]
  {
    if |list| <= TABLE_MAX_ROWS {
      StrideOne(list);
      return list, 1;
    }
    stride := CeilDiv(|list|, TABLE_MAX_ROWS);
    rows := [];
    for i := 0 to |list|
      invariant rows == EveryNth(list[..i], stride)
    {
      assert list[..i + 1][..i] == list[..i];
      if i % stride == 0 { rows := rows + [list[i]]; }
    }
    assert list[..|list|] == list;
    EveryNthMeans(list, stride);
    TableBounds(|list|);
  }

  lemma {:induction false} StrideOne<T>(s: seq<T>)
    ensures EveryNth(s, 1) == s
  {
    if s != [] { StrideOne(s[..|s| - 1]); }
  }

  /** A table too long to show is cut to at most 60 rows and never below 31. */
  lemma TableBounds(n: nat)
    requires n > TABLE_MAX_ROWS
    ensures 31 <= CeilDiv(n, CeilDiv(n, TABLE_MAX_ROWS)) <= TABLE_MAX_ROWS
  {
    var stride := CeilDiv(n, 60);
    DivBounds(n + stride - 1, stride);
    Pigeonhole(n, stride, CeilDiv(n, stride));
  }

  lemma Pigeonhole(n: nat, stride: nat, c: nat)
    requires n > 60 && 60 * (stride - 1) < n <= 60 * stride
    requires (c - 1) * stride < n <= c * stride
    ensures 31 <= c <= 60
  {
    if c > 60 { Monotone(60, c - 1, stride); }
    if c < 31 { Monotone(c, 30, stride); }
  }
}
