/** The reading under the pointer, and where a line has to break. */
module Charts {
  import opened Sorting
  import opened Thinning

  // ------------------------------------------------ the nearest point

  function Abs(r: real): real { if r < 0.0 then -r else r }

  predicate Ascending(xs: seq<real>) { forall i, j :: 0 <= i <= j < |xs| ==> xs[i] <= xs[j] }

  /** The closest of the points, wherever the pointer is and however many points coincide;
      of the two points around the pointer, the earlier one when they are equally near. */
  method NearestPoint(xs: seq<real>, x: real) returns (index: nat)
    requires xs != [] && Ascending(xs)
    ensures index < |xs|
    ensures forall j :: 0 <= j < |xs| ==> Abs(x - xs[index]) <= Abs(x - xs[j])
    ensures forall j :: 0 <= j < index && xs[j] < xs[index] ==> Abs(x - xs[index]) < Abs(x - xs[j])
  {
    if |xs| == 1 { return 0; }
    var lo, hi := 0, |xs| - 1;
    while hi - lo > 1
      invariant 0 <= lo < hi < |xs|
      invariant lo > 0 ==> xs[lo] < x
      invariant hi < |xs| - 1 ==> x <= xs[hi]
      decreases hi - lo
    {
      var mid := (lo + hi) / 2;
      if xs[mid] < x { lo := mid; } else { hi := mid; }
    }
    index := if x - xs[lo] <= xs[hi] - x then lo else hi;
  }

  /** The bar the pointer is over; beyond either end of the plot, the bar at that end. */
  method BarUnder(left: real, right: real, count: nat, x: real) returns (index: nat)
    requires left < right && count > 0
    ensures index < count
    ensures x < left ==> index == 0
    ensures x >= right ==> index == count - 1
    ensures left <= x < right ==>
              var span := (right - left) / count as real;
              left + index as real * span <= x < left + (index + 1) as real * span
  {
    var span := (right - left) / count as real;
    assert span * count as real == right - left;
    assert span > 0.0;
    var slot := ((x - left) / span).Floor;
    FloorOfQuotient(x - left, span);
    SlotOrder(slot, 0, span, x - left);
    SlotOrder(slot, count, span, x - left);
    var atLeast := if slot < 0 then 0 else slot;
    index := if atLeast < count - 1 then atLeast else count - 1;
  }

  lemma Scale(a: real, b: real, factor: real)
    requires factor > 0.0
    ensures a <= b ==> a * factor <= b * factor
    ensures a < b ==> a * factor < b * factor
  {}

  lemma FloorOfQuotient(d: real, span: real)
    requires span > 0.0
    ensures var slot := (d / span).Floor; slot as real * span <= d < (slot + 1) as real * span
  {
    var q := d / span;
    var slot := q.Floor;
    var top := (slot + 1) as real;
    assert q * span == d;
    Scale(slot as real, q, span);
    Scale(q, top, span);
    assert d < top * span;
  }

  /** The slot that holds a distance, compared with the slot that begins at `count`. */
  lemma SlotOrder(slot: int, count: nat, span: real, d: real)
    requires span > 0.0 && slot as real * span <= d < (slot + 1) as real * span
    ensures d < count as real * span ==> slot < count
    ensures d >= count as real * span ==> slot >= count
  {
    if slot >= count {
      Scale(count as real, slot as real, span);
    } else {
      Scale((slot + 1) as real, count as real, span);
    }
  }

  // ------------------------------------------------ where a line breaks

  /** Times in milliseconds, of one series' own points. */
  predicate StrictlyAscending(times: seq<int>) { forall i, j :: 0 <= i < j < |times| ==> times[i] < times[j] }

  function Steps(times: seq<int>): seq<int>
    requires times != []
  {
    seq(|times| - 1, j requires 0 <= j < |times| - 1 => times[j + 1] - times[j])
  }

  predicate SmallestFirst(a: int, b: int) { a <= b }

  function Sorted(s: seq<int>): seq<int> { Sort(SmallestFirst, s) }

  /** The middle element of the sorted steps; zero when there are none. */
  function Typical(steps: seq<int>): int {
    var sorted := Sorted(steps);
    SortContains(SmallestFirst, steps);
    if steps == [] then 0 else sorted[|steps| / 2]
  }

  /** A step longer than two and a half typical ones; with no positive typical step there
      is no limit. */
  predicate TooLong(step: int, typical: int) { typical > 0 && 2 * step > 5 * typical }

  function CountAtMost(s: seq<int>, v: int): nat {
    if s == [] then 0 else CountAtMost(s[..|s| - 1], v) + if s[|s| - 1] <= v then 1 else 0
  }

  function CountTooLong(s: seq<int>, typical: int): nat {
    if s == [] then 0 else CountTooLong(s[..|s| - 1], typical) + if TooLong(s[|s| - 1], typical) then 1 else 0
  }

  predicate NonDecreasing(s: seq<int>) { forall i, j :: 0 <= i <= j < |s| ==> s[i] <= s[j] }

  lemma {:induction false} InsertCounts(sorted: seq<int>, v: int, w: int)
    ensures CountAtMost(Insert(SmallestFirst, sorted, v), w) == CountAtMost(sorted, w) + if v <= w then 1 else 0
  {
    if sorted == [] {
      assert [v][..0] == [];
    } else {
      var n := |sorted| - 1;
      var r := Insert(SmallestFirst, sorted, v);
      if v < sorted[n] {
        InsertCounts(sorted[..n], v, w);
        assert r[..|r| - 1] == Insert(SmallestFirst, sorted[..n], v);
      } else {
        assert r[..|r| - 1] == sorted;
      }
    }
  }

  lemma {:induction false} SortedCounts(s: seq<int>, w: int)
    ensures CountAtMost(Sorted(s), w) == CountAtMost(s, w)
  {
    if s != [] {
      SortedCounts(s[..|s| - 1], w);
      InsertCounts(Sorted(s[..|s| - 1]), s[|s| - 1], w);
    }
  }

  /** Sorting orders the steps and loses none. */
  lemma SortedMeans(s: seq<int>)
    ensures NonDecreasing(Sorted(s)) && multiset(Sorted(s)) == multiset(s) && |Sorted(s)| == |s|
  {
    SortOrdered(SmallestFirst, s);
    SortMembers(SmallestFirst, s);
    SortContains(SmallestFirst, s);
  }

  /** In a sorted list at least k + 1 elements are at most the one at k. */
  lemma {:induction false} AtMostFromIndex(s: seq<int>, k: nat, v: int)
    requires NonDecreasing(s) && k < |s| && s[k] <= v
    ensures CountAtMost(s, v) >= k + 1
  {
    var n := |s| - 1;
    if k < n { AtMostFromIndex(s[..n], k, v); } else if k > 0 { AtMostFromIndex(s[..n], k - 1, v); }
  }

  /** And at most k elements are below it. */
  lemma {:induction false} FewBelow(s: seq<int>, k: nat, v: int)
    requires NonDecreasing(s) && k < |s| && v < s[k]
    ensures CountAtMost(s, v) <= k
  {
    var n := |s| - 1;
    if k < n { FewBelow(s[..n], k, v); } else if n > 0 { CountBounded(s[..n], v); }
  }

  lemma {:induction false} CountBounded(s: seq<int>, v: int)
    ensures CountAtMost(s, v) <= |s|
  {
    if s != [] { CountBounded(s[..|s| - 1], v); }
  }

  lemma {:induction false} TooLongBounded(s: seq<int>, typical: int)
    requires typical > 0
    ensures CountTooLong(s, typical) + CountAtMost(s, typical) <= |s|
  {
    if s != [] { TooLongBounded(s[..|s| - 1], typical); }
  }

  /** With n steps, at most n - n/2 - 1 of them are breaks, so a series is never mostly
      fragments. */
  lemma FewBreaks(times: seq<int>)
    requires |times| >= 2 && StrictlyAscending(times)
    ensures var steps := Steps(times);
            Typical(steps) > 0 && CountTooLong(steps, Typical(steps)) <= |steps| - |steps| / 2 - 1
  {
    var steps := Steps(times);
    TypicalIsStep(steps);
    FewTooLong(steps);
  }

  lemma TypicalIsStep(steps: seq<int>)
    requires steps != []
    ensures Typical(steps) in steps
  {
    SortedMeans(steps);
    assert Sorted(steps)[|steps| / 2] in multiset(steps);
  }

  lemma FewTooLong(steps: seq<int>)
    requires steps != [] && Typical(steps) > 0
    ensures CountTooLong(steps, Typical(steps)) <= |steps| - |steps| / 2 - 1
  {
    SortedMeans(steps);
    SortedCounts(steps, Typical(steps));
    AtMostFromIndex(Sorted(steps), |steps| / 2, Typical(steps));
    TooLongBounded(steps, Typical(steps));
  }

  function CountOf(s: seq<int>, v: int): nat {
    if s == [] then 0 else CountOf(s[..|s| - 1], v) + if s[|s| - 1] == v then 1 else 0
  }

  lemma {:induction false} CountOfBetween(s: seq<int>, v: int)
    ensures CountOf(s, v) == CountAtMost(s, v) - CountAtMost(s, v - 1)
  {
    if s != [] { CountOfBetween(s[..|s| - 1], v); }
  }

  /** However many holes there are and however long, as long as more than half of the steps
      are one cadence, the typical step is that cadence, so a hole never hides another. */
  lemma CadenceDecides(steps: seq<int>, cadence: int)
    requires 2 * CountOf(steps, cadence) > |steps|
    ensures Typical(steps) == cadence
  {
    SortedMeans(steps);
    CountOfBetween(steps, cadence);
    SortedCounts(steps, cadence);
    SortedCounts(steps, cadence - 1);
    CountBounded(steps, cadence);
    var sorted, k := Sorted(steps), |steps| / 2;
    if sorted[k] < cadence { AtMostFromIndex(sorted, k, cadence - 1); }
    if sorted[k] > cadence { FewBelow(sorted, k, cadence); }
  }

  /** Just over half of the steps regular, the others holes. */
  function MostHoles(n: nat): seq<int> { seq(n, i => if i <= n / 2 then 1 else 10) }

  lemma {:induction false} MostHolesPrefix(n: nat, k: nat)
    requires k <= n
    ensures CountOf(MostHoles(n)[..k], 1) == if k <= n / 2 + 1 then k else n / 2 + 1
    ensures CountTooLong(MostHoles(n)[..k], 1) == if k <= n / 2 + 1 then 0 else k - n / 2 - 1
  {
    if k > 0 {
      MostHolesPrefix(n, k - 1);
      assert MostHoles(n)[..k][..k - 1] == MostHoles(n)[..k - 1];
    }
  }

  /** The bound on the breaks is reached for every number of steps. */
  lemma BoundReached(n: nat)
    requires n > 0
    ensures CountTooLong(MostHoles(n), Typical(MostHoles(n))) == n - n / 2 - 1
  {
    MostHolesPrefix(n, n);
    assert MostHoles(n)[..n] == MostHoles(n);
    CadenceDecides(MostHoles(n), 1);
  }

  // ------------------------------------------------ the path

  /** One piece of the path: move to a point, or draw a line to it. */
  datatype Piece = Piece(move: bool, point: nat)

  function CountMoves(d: seq<Piece>): nat {
    if d == [] then 0 else CountMoves(d[..|d| - 1]) + if d[|d| - 1].move then 1 else 0
  }

  /** The typical step of a series of own points. */
  function Cadence(times: seq<int>): int { if times == [] then 0 else Typical(Steps(times)) }

  predicate Breaks(times: seq<int>, i: nat)
    requires i < |times|
  {
    i == 0 || TooLong(times[i] - times[i - 1], Cadence(times))
  }

  /** Every own point is in the path exactly once, in time order; the path starts with a
      move, and moves again exactly at the steps that are too long. */
  method DrawLine(times: seq<int>) returns (d: seq<Piece>)
    ensures |d| == |times|
    ensures forall i :: 0 <= i < |d| ==> d[i].point == i && (d[i].move <==> Breaks(times, i))
    ensures times != [] ==> CountMoves(d) == 1 + CountTooLong(Steps(times), Cadence(times))
  {
    hide Cadence, TooLong, CountMoves, CountTooLong, Steps;
    d := [];
    var previous := -1;
    for i := 0 to |times|
      invariant |d| == i && previous == i - 1
      invariant forall k :: 0 <= k < i ==> d[k].point == k && (d[k].move <==> Breaks(times, k))
    {
      var broken := previous == -1 || TooLong(times[i] - times[previous], Cadence(times));
      d := d + [Piece(broken, i)];
      previous := i;
    }
    if times != [] { MovesOfPath(d, times); }
  }

  /** Where more than half of the steps are one cadence, the line is drawn through a single
      missing reading and broken at two: it breaks at the steps of more than 2.5 cadences. */
  lemma RegularSeriesBreaks(times: seq<int>, cadence: int, i: nat)
    requires cadence > 0 && 0 < i < |times| && 2 * CountOf(Steps(times), cadence) > |Steps(times)|
    ensures Breaks(times, i) <==> (times[i] - times[i - 1]) as real > 2.5 * cadence as real
    ensures times[i] - times[i - 1] == 2 * cadence ==> !Breaks(times, i)
    ensures times[i] - times[i - 1] == 3 * cadence ==> Breaks(times, i)
  {
    CadenceDecides(Steps(times), cadence);
    hide Typical, CountOf, Steps;
    assert Cadence(times) == cadence;
  }

  lemma MovesOfPath(d: seq<Piece>, times: seq<int>)
    requires times != [] && |d| == |times| && forall i :: 0 <= i < |d| ==> (d[i].move <==> Breaks(times, i))
    ensures CountMoves(d) == 1 + CountTooLong(Steps(times), Cadence(times))
  {
    hide Cadence, TooLong, CountMoves, CountTooLong;
    forall i | 0 <= i < |d| ensures d[i].move <==> i == 0 || TooLong(Steps(times)[i - 1], Cadence(times)) {
      assert d[i].move <==> Breaks(times, i);
    }
    MovesOf(d, Steps(times), Cadence(times));
  }

  lemma {:induction false} MovesOf(d: seq<Piece>, steps: seq<int>, typical: int)
    requires |d| == |steps| + 1
    requires forall i :: 0 <= i < |d| ==> (d[i].move <==> i == 0 || TooLong(steps[i - 1], typical))
    ensures CountMoves(d) == 1 + CountTooLong(steps, typical)
  {
    if steps == [] {
      assert d[..0] == [];
    } else {
      MovesOf(d[..|d| - 1], steps[..|steps| - 1], typical);
    }
  }

  /** A series of two points or more is drawn in at most half as many pieces as it has
      points. */
  lemma PiecesOf(times: seq<int>)
    requires |times| >= 2 && StrictlyAscending(times)
    ensures 1 + CountTooLong(Steps(times), Cadence(times)) <= |times| / 2
  {
    FewBreaks(times);
  }

  /** An evenly spaced series is drawn in one piece. */
  lemma EvenlySpacedIsOnePiece(times: seq<int>, step: int)
    requires |times| >= 2 && step > 0
    requires forall i :: 0 <= i < |times| - 1 ==> times[i + 1] - times[i] == step
    ensures Cadence(times) == step && CountTooLong(Steps(times), step) == 0
  {
    var steps := Steps(times);
    assert forall i :: 0 <= i < |steps| ==> steps[i] == step;
    TypicalIsStep(steps);
    NoneTooLong(steps, step);
  }

  lemma {:induction false} NoneTooLong(s: seq<int>, step: int)
    requires step > 0 && forall i :: 0 <= i < |s| ==> s[i] == step
    ensures CountTooLong(s, step) == 0
  {
    if s != [] { NoneTooLong(s[..|s| - 1], step); }
  }
}
