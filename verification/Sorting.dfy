/** A stable sort, and the order of elements in a list without repetitions.

    `le(a, b)` says whether `a` may stand before `b`; elements that may stand either way
    keep the order they had. */
module Sorting {
  type Compare<!T> = (T, T) -> bool

  /** Any two elements can be put in order, and the orders chain. */
  ghost predicate Total<T(!new)>(le: Compare<T>) {
    && (forall a, b :: le(a, b) || le(b, a))
    && (forall a, b, c :: le(a, b) && le(b, c) ==> le(a, c))
  }

  function Insert<T>(le: Compare<T>, sorted: seq<T>, c: T): seq<T> {
    if sorted == [] then [c]
    else
      var n := |sorted| - 1;
      if le(sorted[n], c) then sorted + [c] else Insert(le, sorted[..n], c) + [sorted[n]]
  }

  function Sort<T>(le: Compare<T>, s: seq<T>): seq<T> {
    if s == [] then [] else Insert(le, Sort(le, s[..|s| - 1]), s[|s| - 1])
  }

  predicate Ordered<T>(le: Compare<T>, s: seq<T>) { forall i, j :: 0 <= i < j < |s| ==> le(s[i], s[j]) }

  predicate NoRepeats<T(==)>(s: seq<T>) { forall i, j :: 0 <= i < j < |s| ==> s[i] != s[j] }

  ghost predicate Before<T>(s: seq<T>, a: T, b: T) {
    exists i, j :: 0 <= i < j < |s| && s[i] == a && s[j] == b
  }

  ghost predicate Alike<T(!new)>(x: seq<T>, y: seq<T>) { forall c :: c in x <==> c in y }

  // ------------------------------------------------ the same elements

  lemma {:induction false} InsertMembers<T>(le: Compare<T>, sorted: seq<T>, c: T)
    ensures multiset(Insert(le, sorted, c)) == multiset(sorted) + multiset{c}
  {
    if sorted != [] {
      var n := |sorted| - 1;
      assert sorted == sorted[..n] + [sorted[n]];
      if !le(sorted[n], c) { InsertMembers(le, sorted[..n], c); }
    }
  }

  lemma {:induction false} SortMembers<T>(le: Compare<T>, s: seq<T>)
    ensures multiset(Sort(le, s)) == multiset(s)
  {
    if s != [] {
      var n := |s| - 1;
      hide Insert;
      assert s == s[..n] + [s[n]];
      SortMembers(le, s[..n]);
      InsertMembers(le, Sort(le, s[..n]), s[n]);
    }
  }

  lemma SameMembers<T>(a: seq<T>, b: seq<T>)
    requires multiset(a) == multiset(b)
    ensures forall c :: c in a <==> c in b
    ensures NoRepeats(a) ==> NoRepeats(b)
  {
    forall c ensures c in a <==> c in b { assert c in a <==> c in multiset(a); }
    if NoRepeats(a) {
      forall i, j | 0 <= i < j < |b| ensures b[i] != b[j] {
        if b[i] == b[j] {
          TwiceInMultiset(b, i, j);
          OnceInMultiset(a, b[i]);
        }
      }
    }
  }

  lemma TwiceInMultiset<T>(s: seq<T>, i: nat, j: nat)
    requires i < j < |s| && s[i] == s[j]
    ensures multiset(s)[s[i]] >= 2
  {
    assert s == s[..j] + [s[j]] + s[j + 1..];
    assert s[..j][i] == s[i];
    assert s[i] in multiset(s[..j]);
  }

  lemma {:induction false} OnceInMultiset<T>(s: seq<T>, c: T)
    requires NoRepeats(s)
    ensures multiset(s)[c] <= 1
  {
    if s != [] {
      var n := |s| - 1;
      OnceInMultiset(s[..n], c);
      assert s == s[..n] + [s[n]];
      if s[n] == c {
        assert c !in s[..n];
        assert c !in multiset(s[..n]);
      }
    }
  }

  lemma SortContains<T>(le: Compare<T>, s: seq<T>)
    ensures forall a :: a in s <==> a in Sort(le, s)
    ensures NoRepeats(s) ==> NoRepeats(Sort(le, s))
    ensures |Sort(le, s)| == |s|
  {
    SortMembers(le, s);
    SameMembers(s, Sort(le, s));
    assert |multiset(Sort(le, s))| == |multiset(s)|;
  }

  // ------------------------------------------------ in order

  lemma {:induction false} InsertOrdered<T(!new)>(le: Compare<T>, sorted: seq<T>, c: T)
    requires Total(le) && Ordered(le, sorted)
    ensures Ordered(le, Insert(le, sorted, c))
  {
    if sorted != [] {
      var n := |sorted| - 1;
      if le(sorted[n], c) {
        forall i | 0 <= i < n ensures le(sorted[i], c) { assert le(sorted[i], sorted[n]); }
      } else {
        InsertOrdered(le, sorted[..n], c);
        InsertMembers(le, sorted[..n], c);
        var r := Insert(le, sorted[..n], c);
        forall i | 0 <= i < |r| ensures le(r[i], sorted[n]) {
          assert r[i] in multiset(r);
          if r[i] != c { assert r[i] in multiset(sorted[..n]); }
        }
      }
    }
  }

  lemma {:induction false} SortOrdered<T(!new)>(le: Compare<T>, s: seq<T>)
    requires Total(le)
    ensures Ordered(le, Sort(le, s))
  {
    if s != [] {
      hide Total, Ordered, Insert;
      SortOrdered(le, s[..|s| - 1]);
      InsertOrdered(le, Sort(le, s[..|s| - 1]), s[|s| - 1]);
    } else {
      hide Total, Insert;
    }
  }

  // ------------------------------------------------ stable

  lemma BeforeInLonger<T>(s: seq<T>, c: T, a: T, b: T)
    requires Before(s, a, b)
    ensures Before(s + [c], a, b)
  {
    var i, j :| 0 <= i < j < |s| && s[i] == a && s[j] == b;
    assert (s + [c])[i] == a && (s + [c])[j] == b;
  }

  lemma ByIndex<T>(s: seq<T>, i: nat, j: nat)
    requires i < j < |s|
    ensures Before(s, s[i], s[j])
  {}

  lemma BeforeLast<T>(s: seq<T>, a: T, c: T)
    requires a in s
    ensures Before(s + [c], a, c)
  {
    var i :| 0 <= i < |s| && s[i] == a;
    assert (s + [c])[i] == a && (s + [c])[|s|] == c;
  }

  lemma BeforeInSum<T>(x: seq<T>, y: seq<T>, a: T, b: T)
    requires Before(x, a, b) || Before(y, a, b) || (a in x && b in y)
    ensures Before(x + y, a, b)
  {
    if Before(x, a, b) {
      var i, j :| 0 <= i < j < |x| && x[i] == a && x[j] == b;
      assert (x + y)[i] == a && (x + y)[j] == b;
    } else if Before(y, a, b) {
      var i, j :| 0 <= i < j < |y| && y[i] == a && y[j] == b;
      assert (x + y)[|x| + i] == a && (x + y)[|x| + j] == b;
    } else {
      var i, j :| 0 <= i < |x| && 0 <= j < |y| && x[i] == a && y[j] == b;
      assert (x + y)[i] == a && (x + y)[|x| + j] == b;
    }
  }

  lemma BeforeCases<T>(s: seq<T>, a: T, b: T)
    requires Before(s, a, b)
    ensures s != [] && a in s && b in s
    ensures Before(s[..|s| - 1], a, b) || (a in s[..|s| - 1] && s[|s| - 1] == b)
  {
    var n := |s| - 1;
    var i, j :| 0 <= i < j < |s| && s[i] == a && s[j] == b;
    assert s[..n][i] == a;
    if j < n { assert s[..n][j] == b; }
  }

  lemma {:induction false} InsertAfter<T>(le: Compare<T>, sorted: seq<T>, c: T, a: T)
    requires a in sorted && le(a, c)
    ensures Before(Insert(le, sorted, c), a, c)
  {
    var n := |sorted| - 1;
    if le(sorted[n], c) {
      BeforeLast(sorted, a, c);
    } else {
      InsertAfter(le, sorted[..n], c, a);
      BeforeInLonger(Insert(le, sorted[..n], c), sorted[n], a, c);
    }
  }

  lemma InsertContains<T>(le: Compare<T>, sorted: seq<T>, c: T, a: T)
    requires a in sorted
    ensures a in Insert(le, sorted, c)
  {
    InsertMembers(le, sorted, c);
    assert a in multiset(sorted);
    assert a in multiset(Insert(le, sorted, c));
  }

  lemma {:induction false} InsertKeepsBefore<T>(le: Compare<T>, sorted: seq<T>, c: T, a: T, b: T)
    requires Before(sorted, a, b)
    ensures Before(Insert(le, sorted, c), a, b)
  {
    hide Before;
    BeforeCases(sorted, a, b);
    var n := |sorted| - 1;
    if le(sorted[n], c) {
      BeforeInLonger(sorted, c, a, b);
    } else if Before(sorted[..n], a, b) {
      InsertKeepsBefore(le, sorted[..n], c, a, b);
      BeforeInLonger(Insert(le, sorted[..n], c), sorted[n], a, b);
    } else {
      InsertContains(le, sorted[..n], c, a);
      BeforeLast(Insert(le, sorted[..n], c), a, b);
    }
  }

  /** Elements in an order that is allowed keep it. */
  lemma {:induction false} SortIsStable<T>(le: Compare<T>, s: seq<T>, a: T, b: T)
    requires Before(s, a, b) && le(a, b)
    ensures Before(Sort(le, s), a, b)
  {
    hide Before, Insert;
    BeforeCases(s, a, b);
    var n := |s| - 1;
    if Before(s[..n], a, b) {
      SortIsStable(le, s[..n], a, b);
      InsertKeepsBefore(le, Sort(le, s[..n]), s[n], a, b);
    } else {
      SortContains(le, s[..n]);
      InsertAfter(le, Sort(le, s[..n]), b, a);
    }
  }

  /** Elements that must not stand the other way round are in order after sorting. */
  lemma SortSeparates<T(!new)>(le: Compare<T>, s: seq<T>, a: T, b: T)
    requires Total(le) && a in s && b in s && !le(b, a) && a != b
    ensures Before(Sort(le, s), a, b)
  {
    SortContains(le, s);
    SortOrdered(le, s);
    hide Sort, Total;
    var sorted := Sort(le, s);
    var i :| 0 <= i < |sorted| && sorted[i] == a;
    var j :| 0 <= j < |sorted| && sorted[j] == b;
    assert i < j;
  }

  // ------------------------------------------------ lists without repetitions

  lemma SumOnce<T>(x: seq<T>, y: seq<T>)
    requires NoRepeats(x) && NoRepeats(y) && forall c :: c in x ==> c !in y
    ensures NoRepeats(x + y)
  {
    forall i, j | 0 <= i < j < |x + y| ensures (x + y)[i] != (x + y)[j] {
      if i < |x| <= j { assert x[i] in x && (x + y)[j] == y[j - |x|]; }
    }
  }

  lemma OneWay<T>(s: seq<T>, a: T, b: T)
    requires NoRepeats(s) && a in s && b in s && a != b
    ensures Before(s, a, b) <==> !Before(s, b, a)
  {
    var i :| 0 <= i < |s| && s[i] == a;
    var j :| 0 <= j < |s| && s[j] == b;
  }

  lemma LastOnlyOnce<T>(x: seq<T>, c: T)
    requires NoRepeats(x) && x != []
    ensures c in x[..|x| - 1] <==> c in x && c != x[|x| - 1]
  {}

  lemma PrefixMembers<T(!new)>(x: seq<T>, y: seq<T>)
    requires x != [] && y != [] && NoRepeats(x) && NoRepeats(y) && x[|x| - 1] == y[|y| - 1]
    requires Alike(x, y)
    ensures Alike(x[..|x| - 1], y[..|y| - 1])
  {
    var p, q := x[..|x| - 1], y[..|y| - 1];
    forall c ensures c in p <==> c in q {
      LastOnlyOnce(x, c);
      LastOnlyOnce(y, c);
    }
  }

  /** The same elements in the same order make the same list. */
  lemma {:induction false} SameOrderSameList<T(!new)>(x: seq<T>, y: seq<T>)
    requires NoRepeats(x) && NoRepeats(y) && Alike(x, y)
    requires forall a, b :: a in x && b in x && Before(x, a, b) ==> Before(y, a, b)
    ensures x == y
  {
    if x == [] {
      if y != [] { FirstIsMember(y); }
    } else {
      FirstIsMember(x);
      assert y != [];
      var m, n := |x| - 1, |y| - 1;
      SameLast(x, y);
      PrefixMembers(x, y);
      forall a, b | a in x[..m] && b in x[..m] && Before(x[..m], a, b) ensures Before(y[..n], a, b) {
        assert x == x[..m] + [x[m]];
        BeforeInLonger(x[..m], x[m], a, b);
        BeforeCases(y, a, b);
        LastOnlyOnce(x, b);
      }
      hide NoRepeats, Alike, Before;
      SameOrderSameList(x[..m], y[..n]);
      assert x == x[..m] + [x[m]] && y == y[..n] + [y[n]];
    }
  }

  lemma FirstIsMember<T>(s: seq<T>)
    requires s != []
    ensures s[0] in s
  {}

  lemma LastIsLast<T>(s: seq<T>, c: T)
    requires NoRepeats(s) && s != []
    ensures !Before(s, s[|s| - 1], c)
  {}

  lemma BeforeTheLast<T>(s: seq<T>, c: T)
    requires s != [] && c in s && c != s[|s| - 1]
    ensures Before(s, c, s[|s| - 1])
  {
    var i :| 0 <= i < |s| && s[i] == c;
  }

  lemma SameLast<T(!new)>(x: seq<T>, y: seq<T>)
    requires NoRepeats(y) && Alike(x, y) && x != [] && y != []
    requires forall a, b :: a in x && b in x && Before(x, a, b) ==> Before(y, a, b)
    ensures x[|x| - 1] == y[|y| - 1]
  {
    var c, d := x[|x| - 1], y[|y| - 1];
    assert c in x && d in y && d in x;
    LastIsLast(y, c);
    hide Before, NoRepeats, Alike;
    if c != d { BeforeTheLast(x, d); }
  }
}
