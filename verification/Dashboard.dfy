/** The alert trend and the thinned series of the dashboard. */
module Dashboard {
  import opened Thinning
  import opened Wrappers

  // ------------------------------------------------ thinning a series

  const MAX_POINTS := 400

  /** The longest stride that goes 400 times into n, and 1 when none does. */
  function Stride(n: nat): (r: nat)
    ensures r > 0 && (n < 400 ==> r == 1) && (n >= 400 ==> 400 * r <= n < 400 * (r + 1))
  {
    if n / MAX_POINTS > 1 then n / MAX_POINTS else 1
  }

  datatype Sample = Sample(ts: int, value: Option<real>)

  function Measured(rows: seq<Sample>): seq<Sample> {
    if rows == [] then []
    else Measured(rows[..|rows| - 1]) + if rows[|rows| - 1].value.Some? then [rows[|rows| - 1]] else []
  }

  /** Exactly the rows that hold a value are left, each as often as it was. */
  lemma {:induction false} MeasuredMeans(rows: seq<Sample>, s: Sample)
    ensures |Measured(rows)| <= |rows|
    ensures multiset(Measured(rows))[s] == if s.value.Some? then multiset(rows)[s] else 0
  {
    if rows != [] {
      var n := |rows| - 1;
      MeasuredMeans(rows[..n], s);
      assert rows == rows[..n] + [rows[n]];
    }
  }

  /** They stay in their order: each stands behind those measured before it. */
  lemma {:induction false} MeasuredAt(rows: seq<Sample>, i: nat)
    requires i < |rows| && rows[i].value.Some?
    ensures var k := |Measured(rows[..i])|; k < |Measured(rows)| && Measured(rows)[k] == rows[i]
  {
    var n := |rows| - 1;
    assert rows[..n][..i] == rows[..i];
    if i < n { MeasuredAt(rows[..n], i); }
  }

  lemma {:induction false} MeasuredShrinks(rows: seq<Sample>)
    ensures |Measured(rows)| <= |rows|
  {
    if rows != [] { MeasuredShrinks(rows[..|rows| - 1]); }
  }

  lemma FewRemain(rows: seq<Sample>)
    ensures |Measured(EveryNth(rows, Stride(|rows|)))| <= 2 * MAX_POINTS - 1
    ensures |rows| < 2 * MAX_POINTS ==> Measured(EveryNth(rows, Stride(|rows|))) == Measured(rows)
    ensures rows == [] ==> EveryNth(rows, Stride(|rows|)) == []
  {
    EveryNthMeans(rows, Stride(|rows|));
    DownsampleBounds(|rows|);
    MeasuredShrinks(EveryNth(rows, Stride(|rows|)));
    if |rows| < 2 * MAX_POINTS { StrideOne(rows); }
  }

  /** Every n-th row of the series, without the rows that hold no value. However long the
      series is, fewer than twice the maximum remain. */
  method Downsample(rows: seq<Sample>) returns (points: seq<Sample>)
    ensures points == Measured(EveryNth(rows, Stride(|rows|)))
    ensures |points| <= 2 * MAX_POINTS - 1
    ensures |rows| < 2 * MAX_POINTS ==> points == Measured(rows)
  {
    hide EveryNth, Stride;
    FewRemain(rows);
    if rows == [] { return []; }
    var kept := EveryNth(rows, Stride(|rows|));
    points := [];
    for i := 0 to |kept|
      invariant points == Measured(kept[..i])
    {
      assert kept[..i + 1][..i] == kept[..i];
      if kept[i].value.Some? { points := points + [kept[i]]; }
    }
    assert kept[..|kept|] == kept;
  }

  /** How many rows survive the stride: all of them below 800, never more than 600 from
      there on, and never fewer than 400 once there are that many; the maximum of 799 is
      reached at 799 rows and at no other number. */
  lemma DownsampleBounds(n: nat)
    ensures var kept := CeilDiv(n, Stride(n));
            && kept <= 2 * MAX_POINTS - 1
            && (n < 2 * MAX_POINTS ==> kept == n)
            && (n >= 2 * MAX_POINTS ==> kept <= MAX_POINTS + MAX_POINTS / 2)
            && (n >= MAX_POINTS ==> kept >= MAX_POINTS)
            && (kept == 2 * MAX_POINTS - 1 <==> n == 799)
  {
    var stride := Stride(n);
    var kept := CeilDiv(n, stride);
    DivBounds(n + stride - 1, stride);
    if n >= 2 * MAX_POINTS {
      DivBounds(n, MAX_POINTS);
      assert n < stride * 400 + 400 && stride >= 2;
      if kept > 600 { Monotone(600, kept - 1, stride); }
      if kept < 400 { Monotone(kept, 399, stride); }
    }
  }

  // ------------------------------------------------ alerts per day

  /** One day, in the unit of `ts`. */
  const DAY := 86_400_000_000

  /** The number of whole days before it, a day being 24 hours. */
  function DayOf(ts: int): (d: int)
    ensures d * 24 * 3600 * 1_000_000 <= ts < (d + 1) * 24 * 3600 * 1_000_000
  {
    ts / DAY
  }

  datatype Alert = Alert(ts: int, severity: string, acknowledged: bool)

  type Counter = map<string, nat>

  function Get(c: Counter, k: string): nat { if k in c then c[k] else 0 }

  function Bump(c: Counter, k: string): Counter { c[k := Get(c, k) + 1] }

  function CountAlert(c: Counter, a: Alert): Counter {
    var named := Bump(Bump(c, a.severity), "total");
    if a.acknowledged then named else Bump(named, "open")
  }

  /** The counters of one day, as the rows are gone through. */
  function Tally(rows: seq<Alert>, d: int): Counter {
    if rows == [] then map[]
    else
      var before := Tally(rows[..|rows| - 1], d);
      var last := rows[|rows| - 1];
      if DayOf(last.ts) == d then CountAlert(before, last) else before
  }

  function Recent(rows: seq<Alert>, cutoff: int): seq<Alert> {
    if rows == [] then []
    else Recent(rows[..|rows| - 1], cutoff) + if rows[|rows| - 1].ts >= cutoff then [rows[|rows| - 1]] else []
  }

  lemma DaysBetween(ts: int, days: nat)
    ensures DayOf(ts) - DayOf(ts - days * DAY) == days
  {}

  lemma OneMoreAlert(rows: seq<Alert>, i: nat, d: int)
    requires i < |rows|
    ensures Tally(rows[..i + 1], d)
         == if DayOf(rows[i].ts) == d then CountAlert(Tally(rows[..i], d), rows[i]) else Tally(rows[..i], d)
  {
    assert rows[..i + 1][..i] == rows[..i];
  }

  lemma NoneTallied(rows: seq<Alert>)
    ensures forall d :: Tally(rows[..0], d) == map[]
  {}

  datatype DayCounts = DayCounts(date: int, counts: Counter)

  /** One entry for every day from the cutoff's to the newest reading's, quiet ones too. */
  method AnomaliesDaily(rows: seq<Alert>, newest: Option<int>, days: nat) returns (out: seq<DayCounts>)
    ensures newest.None? ==> out == []
    ensures newest.Some? ==>
              && |out| == days + 1
              && out[days].date == DayOf(newest.value)
              && forall i :: 0 <= i < |out| ==>
                   && out[i].date == out[0].date + i
                   && out[i].counts == Tally(Recent(rows, newest.value - days * DAY), out[i].date)
  {
    hide Tally, CountAlert, Recent, DayOf;
    if newest.None? { return []; }
    var cutoff := newest.value - days * DAY;
    var recent := Recent(rows, cutoff);
    var byDay: map<int, Counter> := map[];
    assert forall d :: Tally(recent[..0], d) == map[] by { NoneTallied(recent); }
    for i := 0 to |recent|
      invariant forall d :: d in byDay ==> byDay[d] == Tally(recent[..i], d)
      invariant forall d :: d !in byDay ==> Tally(recent[..i], d) == map[]
    {
      forall d ensures Tally(recent[..i + 1], d)
                    == if DayOf(recent[i].ts) == d then CountAlert(Tally(recent[..i], d), recent[i])
                       else Tally(recent[..i], d) {
        OneMoreAlert(recent, i, d);
      }
      var key := DayOf(recent[i].ts);
      byDay := byDay[key := CountAlert(if key in byDay then byDay[key] else map[], recent[i])];
    }
    assert recent[..|recent|] == recent;
    DaysBetween(newest.value, days);
    var span := DayOf(newest.value) - DayOf(cutoff);
    out := [];
    for offset := 0 to span + 1
      invariant |out| == offset
      invariant forall i :: 0 <= i < offset ==>
                  out[i].date == DayOf(cutoff) + i && out[i].counts == Tally(recent, out[i].date)
    {
      var date := DayOf(cutoff) + offset;
      out := out + [DayCounts(date, if date in byDay then byDay[date] else map[])];
    }
  }

  // ------------------------------------------------ what the counters say

  datatype Choice =
    | OnDay(day: int)
    | OpenOn(day: int)
    | Named(day: int, severity: string)
    | Window(first: int, last: int)
    | Shown(cutoff: int, last: int)

  predicate Matches(a: Alert, c: Choice) {
    match c
    case OnDay(d) => DayOf(a.ts) == d
    case OpenOn(d) => DayOf(a.ts) == d && !a.acknowledged
    case Named(d, severity) => DayOf(a.ts) == d && a.severity == severity
    case Window(first, last) => first <= DayOf(a.ts) <= last
    case Shown(cutoff, last) => a.ts >= cutoff && DayOf(a.ts) <= last
  }

  function Count(rows: seq<Alert>, c: Choice): nat {
    if rows == [] then 0 else Count(rows[..|rows| - 1], c) + if Matches(rows[|rows| - 1], c) then 1 else 0
  }

  /** Exactly what stands under a name: the alerts of that severity, and under "total" and
      "open" those counts on top of them. */
  lemma {:induction false} TallyMeans(rows: seq<Alert>, d: int, k: string)
    ensures Get(Tally(rows, d), k)
         == Count(rows, Named(d, k))
          + (if k == "total" then Count(rows, OnDay(d)) else 0)
          + (if k == "open" then Count(rows, OpenOn(d)) else 0)
    ensures k in Tally(rows, d) ==> Get(Tally(rows, d), k) > 0
  {
    if rows != [] {
      TallyMeans(rows[..|rows| - 1], d, k);
      assert "total" != "open" by { assert "total"[0] != "open"[0]; }
    }
  }

  function TotalOf(out: seq<DayCounts>, k: string): nat {
    if out == [] then 0 else TotalOf(out[..|out| - 1], k) + Get(out[|out| - 1].counts, k)
  }

  predicate NoneNamed(rows: seq<Alert>, k: string) { forall i :: 0 <= i < |rows| ==> rows[i].severity != k }

  lemma {:induction false} NoneNamedCount(rows: seq<Alert>, k: string, d: int)
    requires NoneNamed(rows, k)
    ensures Count(rows, Named(d, k)) == 0
  {
    if rows != [] { NoneNamedCount(rows[..|rows| - 1], k, d); }
  }

  lemma {:induction false} WindowGrows(rows: seq<Alert>, first: int, last: int)
    requires first <= last
    ensures Count(rows, Window(first, last)) == Count(rows, Window(first, last - 1)) + Count(rows, OnDay(last))
  {
    if rows != [] { WindowGrows(rows[..|rows| - 1], first, last); }
  }

  lemma {:induction false} EmptyWindow(rows: seq<Alert>, first: int)
    ensures Count(rows, Window(first, first - 1)) == 0
  {
    if rows != [] { EmptyWindow(rows[..|rows| - 1], first); }
  }

  lemma {:induction false} TotalsAddUp(rows: seq<Alert>, out: seq<DayCounts>, first: int)
    requires NoneNamed(rows, "total")
    requires forall i :: 0 <= i < |out| ==> out[i].date == first + i && out[i].counts == Tally(rows, out[i].date)
    ensures TotalOf(out, "total") == Count(rows, Window(first, first + |out| - 1))
  {
    if out == [] {
      EmptyWindow(rows, first);
    } else {
      var n := |out| - 1;
      TotalsAddUp(rows, out[..n], first);
      WindowGrows(rows, first, first + n);
      TallyMeans(rows, first + n, "total");
      NoneNamedCount(rows, "total", first + n);
      assert "total" != "open" by { assert "total"[0] != "open"[0]; }
    }
  }

  lemma CountLast(rows: seq<Alert>, a: Alert, c: Choice)
    ensures Count(rows + [a], c) == Count(rows, c) + if Matches(a, c) then 1 else 0
  {}

  lemma LaterDay(a: int, b: int)
    requires a <= b
    ensures DayOf(a) <= DayOf(b)
  {}

  lemma ShownIsRecent(a: Alert, cutoff: int, last: int)
    ensures Matches(a, Shown(cutoff, last)) <==> a.ts >= cutoff && Matches(a, Window(DayOf(cutoff), last))
  {
    if a.ts >= cutoff { LaterDay(cutoff, a.ts); }
  }

  lemma {:induction false} RecentShown(rows: seq<Alert>, cutoff: int, last: int)
    ensures Count(Recent(rows, cutoff), Window(DayOf(cutoff), last)) == Count(rows, Shown(cutoff, last))
  {
    if rows != [] {
      var a := rows[|rows| - 1];
      var before := Recent(rows[..|rows| - 1], cutoff);
      RecentShown(rows[..|rows| - 1], cutoff, last);
      ShownIsRecent(a, cutoff, last);
      hide DayOf, Matches;
      if a.ts >= cutoff {
        CountLast(before, a, Window(DayOf(cutoff), last));
      } else {
        assert Recent(rows, cutoff) == before;
      }
    }
  }

  lemma {:induction false} RecentAreRows(rows: seq<Alert>, cutoff: int)
    ensures forall a :: a in Recent(rows, cutoff) ==> a in rows
  {
    if rows != [] { RecentAreRows(rows[..|rows| - 1], cutoff); }
  }

  /** The totals of the emitted days add up to the alerts that are neither older than the
      cutoff nor dated after the newest reading's day; later ones are counted, not shown. */
  lemma DailyTotals(rows: seq<Alert>, newest: int, days: nat, out: seq<DayCounts>)
    requires NoneNamed(rows, "total") && |out| == days + 1
    requires forall i :: 0 <= i < |out| ==>
               && out[i].date == DayOf(newest) - days + i
               && out[i].counts == Tally(Recent(rows, newest - days * DAY), out[i].date)
    ensures TotalOf(out, "total") == Count(rows, Shown(newest - days * DAY, DayOf(newest)))
  {
    var cutoff := newest - days * DAY;
    RecentShown(rows, cutoff, DayOf(newest));
    var recent := Recent(rows, cutoff);
    RecentAreRows(rows, cutoff);
    forall i | 0 <= i < |recent| ensures recent[i].severity != "total" { assert recent[i] in rows; }
    TotalsAddUp(recent, out, DayOf(cutoff));
  }

  /** A list of names without repetition, among which every severity of the rows is. */
  predicate Covers(names: seq<string>, rows: seq<Alert>) {
    && (forall i, j :: 0 <= i < j < |names| ==> names[i] != names[j])
    && (forall i :: 0 <= i < |rows| ==> rows[i].severity in names)
  }

  function SumNamed(rows: seq<Alert>, d: int, names: seq<string>): nat {
    if names == [] then 0
    else SumNamed(rows, d, names[..|names| - 1]) + Count(rows, Named(d, names[|names| - 1]))
  }

  lemma {:induction false} SumNamedStep(rows: seq<Alert>, a: Alert, d: int, names: seq<string>)
    requires forall i, j :: 0 <= i < j < |names| ==> names[i] != names[j]
    ensures SumNamed(rows + [a], d, names)
         == SumNamed(rows, d, names) + if DayOf(a.ts) == d && a.severity in names then 1 else 0
  {
    if names != [] {
      var n := |names| - 1;
      SumNamedStep(rows, a, d, names[..n]);
      CountLast(rows, a, Named(d, names[n]));
      assert names == names[..n] + [names[n]];
    }
  }

  lemma {:induction false} SumNamedIsDay(rows: seq<Alert>, d: int, names: seq<string>)
    requires Covers(names, rows)
    ensures SumNamed(rows, d, names) == Count(rows, OnDay(d))
  {
    if rows == [] {
      NothingNamed(d, names);
    } else {
      var n := |rows| - 1;
      SumNamedIsDay(rows[..n], d, names);
      assert rows == rows[..n] + [rows[n]];
      SumNamedStep(rows[..n], rows[n], d, names);
    }
  }

  lemma {:induction false} NothingNamed(d: int, names: seq<string>)
    ensures SumNamed([], d, names) == 0
  {
    if names != [] { NothingNamed(d, names[..|names| - 1]); }
  }

  function SumCounters(c: Counter, names: seq<string>): nat {
    if names == [] then 0 else SumCounters(c, names[..|names| - 1]) + Get(c, names[|names| - 1])
  }

  /** While no severity is called "total" or "open", the severities of a day add up to its
      total, and its open alerts are at most that many. */
  lemma {:induction false} SeveritiesAddUp(rows: seq<Alert>, d: int, names: seq<string>)
    requires Covers(names, rows) && "total" !in names && "open" !in names
    ensures SumCounters(Tally(rows, d), names) == Get(Tally(rows, d), "total")
    ensures Get(Tally(rows, d), "open") <= Get(Tally(rows, d), "total")
  {
    CountersOfNames(rows, d, names);
    SumNamedIsDay(rows, d, names);
    TallyMeans(rows, d, "total");
    TallyMeans(rows, d, "open");
    NoneNamedCount(rows, "total", d);
    NoneNamedCount(rows, "open", d);
    OpenAreOnDay(rows, d);
    assert "total" != "open" by { assert "total"[0] != "open"[0]; }
  }

  lemma {:induction false} CountersOfNames(rows: seq<Alert>, d: int, names: seq<string>)
    requires "total" !in names && "open" !in names
    ensures SumCounters(Tally(rows, d), names) == SumNamed(rows, d, names)
  {
    if names != [] {
      CountersOfNames(rows, d, names[..|names| - 1]);
      TallyMeans(rows, d, names[|names| - 1]);
    }
  }

  lemma {:induction false} OpenAreOnDay(rows: seq<Alert>, d: int)
    ensures Count(rows, OpenOn(d)) <= Count(rows, OnDay(d))
  {
    if rows != [] { OpenAreOnDay(rows[..|rows| - 1], d); }
  }
}
