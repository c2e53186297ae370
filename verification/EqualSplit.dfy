/** The baseline that gives every building the same share of the budget. */
module EqualSplit {
  import opened Baselines
  import opened Optimum
  import opened Pruning
  import opened Sorting
  import opened Wrappers

  predicate WorthiestFirst(a: Candidate, b: Candidate) { a.value >= b.value }

  predicate Affordable(c: Candidate, share: real) { c.cost <= share && c.value > 0.0 }

  function AffordableOf(options: seq<Candidate>, share: real): seq<Candidate> {
    if options == [] then []
    else
      var last := options[|options| - 1];
      AffordableOf(options[..|options| - 1], share) + if Affordable(last, share) then [last] else []
  }

  /** The first of the most valuable. */
  function MostValuable(list: seq<Candidate>): Candidate
    requires list != []
  {
    if |list| == 1 then list[0]
    else
      var before := MostValuable(list[..|list| - 1]);
      if list[|list| - 1].value > before.value then list[|list| - 1] else before
  }

  function PickOf(cs: seq<Candidate>, b: string, share: real): seq<Candidate> {
    var affordable := AffordableOf(Of(cs, b), share);
    if affordable == [] then [] else [MostValuable(affordable)]
  }

  function PicksOf(cs: seq<Candidate>, bs: seq<string>, share: real): seq<Candidate> {
    if bs == [] then [] else PicksOf(cs, bs[..|bs| - 1], share) + PickOf(cs, bs[|bs| - 1], share)
  }

  /** The picks that the cap of their district still admits. */
  function Capped(list: seq<Candidate>, cap: int): seq<Candidate> {
    if list == [] then []
    else
      var before := Capped(list[..|list| - 1], cap);
      var last := list[|list| - 1];
      if FundedIn(before, last.district) < cap then before + [last] else before
  }

  function Split(t: Terms, cs: seq<Candidate>, bs: seq<string>): seq<Candidate> {
    if bs == [] then []
    else
      var picks := PicksOf(cs, bs, t.budget / |bs| as real);
      if t.cap.None? then picks else Capped(Sort(WorthiestFirst, picks), t.cap.value)
  }

  method Allocate(cs: seq<Candidate>, bs: seq<string>, t: Terms) returns (picks: seq<Candidate>)
    ensures picks == Split(t, cs, bs)
  {
    if bs == [] { return []; }
    var share := t.budget / |bs| as real;
    picks := [];
    for i := 0 to |bs|
      invariant picks == PicksOf(cs, bs[..i], share)
    {
      assert bs[..i + 1][..i] == bs[..i];
      var affordable := AffordableOf(Of(cs, bs[i]), share);
      if affordable != [] { picks := picks + [MostValuable(affordable)]; }
    }
    assert bs[..|bs|] == bs;
    if t.cap.Some? { picks := UnderCap(Sort(WorthiestFirst, picks), t.cap.value); }
  }

  method UnderCap(list: seq<Candidate>, cap: int) returns (capped: seq<Candidate>)
    ensures capped == Capped(list, cap)
  {
    capped := [];
    var counts: map<string, nat> := map[];
    for i := 0 to |list|
      invariant capped == Capped(list[..i], cap)
      invariant forall d :: Get(counts, d) == FundedIn(capped, d)
    {
      assert list[..i + 1][..i] == list[..i];
      var c := list[i];
      if Get(counts, c.district) < cap {
        ghost var before := capped;
        forall d ensures FundedIn(before + [c], d) == FundedIn(before, d) + if c.district == d then 1 else 0 {
          FundedMore(before, c, d);
        }
        capped := capped + [c];
        counts := counts[c.district := Get(counts, c.district) + 1];
      }
    }
    assert list[..|list|] == list;
  }

  // ------------------------------------------------ what is picked

  lemma {:induction false} AffordableMeans(options: seq<Candidate>, share: real)
    ensures forall c :: c in AffordableOf(options, share) <==> c in options && Affordable(c, share)
  {
    if options != [] {
      AffordableMeans(options[..|options| - 1], share);
      assert options == options[..|options| - 1] + [options[|options| - 1]];
    }
  }

  lemma {:induction false} MostValuableMeans(list: seq<Candidate>)
    requires list != []
    ensures MostValuable(list) in list && forall i :: 0 <= i < |list| ==> list[i].value <= MostValuable(list).value
  {
    if |list| > 1 {
      MostValuableMeans(list[..|list| - 1]);
      assert list == list[..|list| - 1] + [list[|list| - 1]];
    }
  }

  /** And of those, the one listed first. */
  lemma {:induction false} MostValuableIsFirst(list: seq<Candidate>) returns (i: nat)
    requires list != []
    ensures i < |list| && list[i] == MostValuable(list)
    ensures forall k :: 0 <= k < i ==> list[k].value < list[i].value
  {
    var n := |list| - 1;
    if n == 0 { return 0; }
    MostValuableMeans(list[..n]);
    i := MostValuableIsFirst(list[..n]);
    assert forall k :: 0 <= k < n ==> list[..n][k] == list[k];
    if list[n].value > MostValuable(list[..n]).value { i := n; }
  }

  lemma PickMeans(cs: seq<Candidate>, b: string, share: real)
    ensures var p := PickOf(cs, b, share);
            && |p| <= 1
            && (forall c :: c in p ==> c in cs && c.building == b && Affordable(c, share))
            && (forall c :: c in cs && c.building == b && Affordable(c, share) ==> p != [] && c.value <= p[0].value)
  {
    OfMeans(cs, b);
    AffordableMeans(Of(cs, b), share);
    var affordable := AffordableOf(Of(cs, b), share);
    if affordable != [] {
      MostValuableMeans(affordable);
      assert forall c :: c in affordable ==> c.value <= MostValuable(affordable).value;
    }
  }

  // ------------------------------------------------ what the split may spend

  predicate WithinShare(p: Candidate, cs: seq<Candidate>, bs: seq<string>, share: real) {
    p in cs && p.building in bs && p.value > 0.0 && p.cost <= share
  }

  lemma {:induction false} PicksAreWithin(cs: seq<Candidate>, bs: seq<string>, share: real)
    ensures |PicksOf(cs, bs, share)| <= |bs|
    ensures forall p :: p in PicksOf(cs, bs, share) ==> WithinShare(p, cs, bs, share)
  {
    if bs != [] {
      hide *;
      var n := |bs| - 1;
      PicksAreWithin(cs, bs[..n], share);
      PickIsWithin(cs, bs, share);
      PicksStep(cs, bs, share);
      var before, last := PicksOf(cs, bs[..n], share), PickOf(cs, bs[n], share);
      forall p | p in before + last ensures WithinShare(p, cs, bs, share) {
        if p in before { WithinMore(p, cs, bs, share); }
      }
    } else {
      assert PicksOf(cs, bs, share) == [];
    }
  }

  lemma PicksStep(cs: seq<Candidate>, bs: seq<string>, share: real)
    requires bs != []
    ensures PicksOf(cs, bs, share) == PicksOf(cs, bs[..|bs| - 1], share) + PickOf(cs, bs[|bs| - 1], share)
  {}

  lemma PickIsWithin(cs: seq<Candidate>, bs: seq<string>, share: real)
    requires bs != []
    ensures var p := PickOf(cs, bs[|bs| - 1], share); |p| <= 1 && forall c :: c in p ==> WithinShare(c, cs, bs, share)
  {
    PickMeans(cs, bs[|bs| - 1], share);
    hide PickOf;
  }

  lemma WithinMore(p: Candidate, cs: seq<Candidate>, bs: seq<string>, share: real)
    requires bs != [] && WithinShare(p, cs, bs[..|bs| - 1], share)
    ensures WithinShare(p, cs, bs, share)
  {}

  lemma {:induction false} PicksAreApart(cs: seq<Candidate>, bs: seq<string>, share: real)
    requires NoRepeats(bs)
    ensures AllApart(PicksOf(cs, bs, share))
  {
    if bs != [] {
      var n := |bs| - 1;
      PicksAreApart(cs, bs[..n], share);
      PicksAreWithin(cs, bs[..n], share);
      PickMeans(cs, bs[n], share);
      LastOnlyOnce(bs, bs[n]);
      hide PickOf, NoRepeats;
      ApartMore(PicksOf(cs, bs[..n], share), PickOf(cs, bs[n], share), bs[n]);
    }
  }

  /** No two picks are at one building. */
  predicate AllApart(picks: seq<Candidate>) {
    forall i, j :: 0 <= i < j < |picks| ==> picks[i].building != picks[j].building
  }

  lemma ApartMore(before: seq<Candidate>, last: seq<Candidate>, b: string)
    requires AllApart(before) && |last| <= 1
    requires (forall p :: p in before ==> p.building != b) && forall p :: p in last ==> p.building == b
    ensures AllApart(before + last)
  {
    if last != [] {
      assert last[0] in last;
      forall i | 0 <= i < |before| ensures before[i].building != last[0].building { assert before[i] in before; }
    }
  }

  lemma {:induction false} PicksChoose(cs: seq<Candidate>, bs: seq<string>, share: real, c: Candidate)
    requires WithinShare(c, cs, bs, share)
    ensures Chosen(PicksOf(cs, bs, share), c)
  {
    var n := |bs| - 1;
    assert bs == bs[..n] + [bs[n]];
    PickMeans(cs, bs[n], share);
    var before, last := PicksOf(cs, bs[..n], share), PickOf(cs, bs[n], share);
    hide PickOf;
    if c.building in bs[..n] {
      PicksChoose(cs, bs[..n], share, c);
      ChosenLonger(before, last, c);
    } else {
      assert Affordable(c, share) && last != [];
      assert (before + last)[|before|] == last[0] && last[0] in last;
    }
  }

  /** The building of c is funded, with an option worth at least as much. */
  predicate Chosen(picks: seq<Candidate>, c: Candidate) {
    exists i :: 0 <= i < |picks| && picks[i].building == c.building && picks[i].value >= c.value
  }

  lemma ChosenLonger(before: seq<Candidate>, last: seq<Candidate>, c: Candidate)
    requires Chosen(before, c)
    ensures Chosen(before + last, c)
  {
    var i :| 0 <= i < |before| && before[i].building == c.building && before[i].value >= c.value;
    assert (before + last)[i] == before[i];
  }

  lemma {:induction false} SharesAddUp(picks: seq<Candidate>, share: real)
    requires forall p :: p in picks ==> p.cost <= share
    ensures TotalCost(Exact, picks) <= |picks| as real * share
  {
    if picks != [] {
      var n := |picks| - 1;
      SharesAddUp(picks[..n], share);
      assert picks[n] in picks;
      assert |picks| as real * share == n as real * share + share;
    }
  }

  lemma CappedMeans(list: seq<Candidate>, cap: int)
    requires AllApart(list)
    ensures var r := Capped(list, cap);
            && |r| <= |list| && (forall p :: p in r ==> p in list) && AllApart(r)
            && (forall d :: FundedIn(r, d) <= cap || FundedIn(r, d) == 0)
  {
    CappedFrom(list, cap);
    CappedOnce(list, cap);
    forall d ensures FundedIn(Capped(list, cap), d) <= cap || FundedIn(Capped(list, cap), d) == 0 {
      CappedWithin(list, cap, d);
    }
  }

  lemma {:induction false} CappedOnce(list: seq<Candidate>, cap: int)
    requires AllApart(list)
    ensures AllApart(Capped(list, cap))
  {
    if list != [] {
      var n := |list| - 1;
      assert AllApart(list[..n]);
      CappedOnce(list[..n], cap);
      CappedFrom(list[..n], cap);
      CappedStep(list, cap);
      LastApart(list);
      hide Capped, AllApart;
      ApartMore(Capped(list[..n], cap), [list[n]], list[n].building);
    }
  }

  lemma LastApart(list: seq<Candidate>)
    requires AllApart(list) && list != []
    ensures var n := |list| - 1;
            AllApart(list[..n]) && forall p :: p in list[..n] ==> p.building != list[n].building
  {}

  lemma {:induction false} CappedWithin(list: seq<Candidate>, cap: int, d: string)
    ensures FundedIn(Capped(list, cap), d) <= cap || FundedIn(Capped(list, cap), d) == 0
  {
    if list != [] {
      var n := |list| - 1;
      CappedWithin(list[..n], cap, d);
      CappedStep(list, cap);
      FundedMore(Capped(list[..n], cap), list[n], d);
      hide Capped, FundedIn;
    } else {
      assert Capped(list, cap) == [];
    }
  }

  lemma CappedStep(list: seq<Candidate>, cap: int)
    requires list != []
    ensures var before := Capped(list[..|list| - 1], cap);
            Capped(list, cap) == if FundedIn(before, list[|list| - 1].district) < cap then before + [list[|list| - 1]]
                                 else before
  {}

  /** With a cap, what it keeps of a district was worth at least what it turns away. */
  lemma {:induction false} CappedPrefers(list: seq<Candidate>, cap: int, p: Candidate, q: Candidate)
    requires Ordered(WorthiestFirst, list) && NoRepeats(list)
    requires p in list && p !in Capped(list, cap) && q in Capped(list, cap) && q.district == p.district
    ensures q.value >= p.value
  {
    hide *;
    var n := |list| - 1;
    var before := Capped(list[..n], cap);
    OrderedStart(list);
    CappedFrom(list[..n], cap);
    CappedStep(list, cap);
    LastOnlyOnce(list, p);
    LastOnlyOnce(list, q);
    LastIsLeast(list);
    assert forall c :: c != list[n] ==> (c in Capped(list, cap) <==> c in before);
    if q == list[n] {
      TurnedAwayIsFull(list[..n], cap, p);
    } else if p != list[n] {
      CappedPrefers(list[..n], cap, p, q);
    }
  }

  lemma OrderedStart(list: seq<Candidate>)
    requires Ordered(WorthiestFirst, list) && NoRepeats(list) && list != []
    ensures Ordered(WorthiestFirst, list[..|list| - 1]) && NoRepeats(list[..|list| - 1])
  {}

  lemma LastIsLeast(list: seq<Candidate>)
    requires Ordered(WorthiestFirst, list) && list != []
    ensures forall q :: q in list[..|list| - 1] ==> q.value >= list[|list| - 1].value
  {
    var n := |list| - 1;
    forall q | q in list[..n] ensures q.value >= list[n].value {
      var i :| 0 <= i < n && list[..n][i] == q;
      assert WorthiestFirst(list[i], list[n]);
    }
  }

  lemma {:induction false} CappedFrom(list: seq<Candidate>, cap: int)
    ensures |Capped(list, cap)| <= |list| && forall c :: c in Capped(list, cap) ==> c in list
  {
    if list != [] {
      CappedFrom(list[..|list| - 1], cap);
      assert list == list[..|list| - 1] + [list[|list| - 1]];
    }
  }

  lemma {:induction false} TurnedAwayIsFull(list: seq<Candidate>, cap: int, p: Candidate)
    requires p in list && p !in Capped(list, cap)
    ensures FundedIn(Capped(list, cap), p.district) >= cap
  {
    hide *;
    var n := |list| - 1;
    var before := Capped(list[..n], cap);
    assert list == list[..n] + [list[n]];
    CappedStep(list, cap);
    FundedMore(before, list[n], p.district);
    if p in list[..n] {
      assert p !in before;
      TurnedAwayIsFull(list[..n], cap, p);
    }
  }

  /** The split, from its picks alone. No building gets two options; each pick costs no more
      than an equal share of the budget, so together they cost no more than the budget; a
      district gets no more than its cap. A building for which some option of worth is within
      the share gets one worth at least as much, unless the cap of a district turned it away, and
      then what the district has instead is worth at least as much and reaches the cap. */
  lemma SplitMeans(t: Terms, cs: seq<Candidate>, bs: seq<string>)
    requires bs != [] && NoRepeats(bs) && t.budget >= 0.0
    ensures var (picks, share) := (Split(t, cs, bs), t.budget / |bs| as real);
            && (forall p :: p in picks ==> WithinShare(p, cs, bs, share))
            && AllApart(picks) && TotalCost(Exact, picks) <= t.budget
            && (t.cap.Some? ==> forall d :: FundedIn(picks, d) <= t.cap.value || FundedIn(picks, d) == 0)
            && (forall c :: WithinShare(c, cs, bs, share) ==>
                  Chosen(picks, c) || (t.cap.Some? && TurnedAway(picks, t.cap.value, cs, c, share)))
  {
    hide PicksOf, Sort, Capped, FundedIn, WithinShare, Chosen, TurnedAway, TotalCost, AllApart, NoRepeats;
    var share := t.budget / |bs| as real;
    var all, picks := PicksOf(cs, bs, share), Split(t, cs, bs);
    PicksAreWithin(cs, bs, share);
    PicksAreApart(cs, bs, share);
    if t.cap.Some? {
      SortedPicks(all);
      CappedMeans(Sort(WorthiestFirst, all), t.cap.value);
    }
    forall c | WithinShare(c, cs, bs, share)
      ensures Chosen(picks, c) || (t.cap.Some? && TurnedAway(picks, t.cap.value, cs, c, share))
    {
      PicksChoose(cs, bs, share, c);
      if t.cap.Some? { ChosenOrTurnedAway(t.cap.value, cs, bs, share, all, c); }
    }
    forall p | p in picks ensures p.cost <= share { CostWithin(p, cs, bs, share); }
    WithinBudget(t, bs, picks);
  }

  lemma CostWithin(p: Candidate, cs: seq<Candidate>, bs: seq<string>, share: real)
    requires WithinShare(p, cs, bs, share)
    ensures p.cost <= share
  {}

  /** An option of the building, worth at least what c is, met the cap: the district of that
      option has as many as it may, and each is worth at least as much. */
  ghost predicate TurnedAway(picks: seq<Candidate>, cap: int, cs: seq<Candidate>, c: Candidate, share: real) {
    exists p :: p in cs && p.building == c.building && p.value >= c.value && p.cost <= share &&
                FundedIn(picks, p.district) >= cap &&
                forall q :: q in picks && q.district == p.district ==> q.value >= p.value
  }

  lemma SortedPicks(all: seq<Candidate>)
    requires AllApart(all)
    ensures var sorted := Sort(WorthiestFirst, all);
            && Ordered(WorthiestFirst, sorted) && NoRepeats(sorted) && |sorted| == |all|
            && (forall p :: p in sorted <==> p in all) && AllApart(sorted)
  {
    SortContains(WorthiestFirst, all);
    SortOrdered(WorthiestFirst, all);
    var sorted := Sort(WorthiestFirst, all);
    assert NoRepeats(all);
    hide Sort;
    forall i, j | 0 <= i < j < |sorted| ensures sorted[i].building != sorted[j].building {
      assert sorted[i] in all && sorted[j] in all && sorted[i] != sorted[j];
    }
  }

  lemma ChosenOrTurnedAway(cap: int, cs: seq<Candidate>, bs: seq<string>, share: real, all: seq<Candidate>,
                           c: Candidate)
    requires AllApart(all) && Chosen(all, c) && forall p :: p in all ==> WithinShare(p, cs, bs, share)
    ensures var picks := Capped(Sort(WorthiestFirst, all), cap);
            Chosen(picks, c) || TurnedAway(picks, cap, cs, c, share)
  {
    var sorted := Sort(WorthiestFirst, all);
    var picks := Capped(sorted, cap);
    SortedPicks(all);
    var k :| 0 <= k < |all| && all[k].building == c.building && all[k].value >= c.value;
    var p := all[k];
    hide Sort, Capped, FundedIn, Ordered, NoRepeats, AllApart;
    if p in picks {
      var i :| 0 <= i < |picks| && picks[i] == p;
    } else {
      TurnedAwayIsFull(sorted, cap, p);
      forall q | q in picks && q.district == p.district ensures q.value >= p.value { CappedPrefers(sorted, cap, p, q); }
    }
  }

  lemma WithinBudget(t: Terms, bs: seq<string>, picks: seq<Candidate>)
    requires bs != [] && t.budget >= 0.0 && |picks| <= |bs|
    requires forall p :: p in picks ==> p.cost <= t.budget / |bs| as real
    ensures TotalCost(Exact, picks) <= t.budget
  {
    hide *;
    SharesAddUp(picks, t.budget / |bs| as real);
    SomeShares(t.budget, |picks|, |bs|);
  }

  lemma SomeShares(budget: real, m: nat, n: nat)
    requires 0 < n && m <= n && budget >= 0.0
    ensures m as real * (budget / n as real) <= budget
  {
    var share := budget / n as real;
    assert share * n as real == budget;
    if share < 0.0 { Scale(share, 0.0, n as real); }
    if share > 0.0 && m < n { Scale(m as real, n as real, share); }
  }

  // ------------------------------------------------ the split and pruning

  /** Same building, same worth, and no dearer. */
  predicate Matches(a: Candidate, d: Candidate) {
    a.building == d.building && a.district == d.district && a.value == d.value && a.cost <= d.cost
  }

  predicate AllMatch(x: seq<Candidate>, y: seq<Candidate>) {
    |x| == |y| && forall i :: 0 <= i < |x| ==> Matches(x[i], y[i])
  }

  lemma PickMatches(cs: seq<Candidate>, b: string, share: real)
    requires NoRepeats(cs) && OneDistrict(cs)
    ensures AllMatch(PickOf(Pruned(cs), b, share), PickOf(cs, b, share))
  {
    PickMeans(cs, b, share);
    PickMeans(Pruned(cs), b, share);
    PrunedMeans(cs);
    var full, short := PickOf(cs, b, share), PickOf(Pruned(cs), b, share);
    if full != [] {
      assert full[0] in full;
      var a := KeptDominator(cs, full[0]);
      assert Affordable(a, share);
      assert short != [] && short[0] in short;
      if a != short[0] { KeptAreIncomparable(cs, a, short[0]); KeptAreIncomparable(cs, short[0], a); }
    } else if short != [] {
      FirstIsMember(short);
    }
  }

  lemma {:induction false} PicksMatch(cs: seq<Candidate>, bs: seq<string>, share: real)
    requires NoRepeats(cs) && OneDistrict(cs)
    ensures AllMatch(PicksOf(Pruned(cs), bs, share), PicksOf(cs, bs, share))
  {
    if bs != [] {
      hide Pruned, NoRepeats, OneDistrict, PickOf;
      PicksMatch(cs, bs[..|bs| - 1], share);
      PickMatches(cs, bs[|bs| - 1], share);
    }
  }

  lemma {:induction false} InsertMatches(x: seq<Candidate>, y: seq<Candidate>, a: Candidate, d: Candidate)
    requires AllMatch(x, y) && Matches(a, d)
    ensures AllMatch(Insert(WorthiestFirst, x, a), Insert(WorthiestFirst, y, d))
  {
    if x != [] {
      var n := |x| - 1;
      assert Matches(x[n], y[n]);
      if !WorthiestFirst(x[n], a) { InsertMatches(x[..n], y[..n], a, d); }
    }
  }

  lemma {:induction false} SortMatches(x: seq<Candidate>, y: seq<Candidate>)
    requires AllMatch(x, y)
    ensures AllMatch(Sort(WorthiestFirst, x), Sort(WorthiestFirst, y))
  {
    if x != [] {
      var n := |x| - 1;
      assert Matches(x[n], y[n]);
      SortMatches(x[..n], y[..n]);
      InsertMatches(Sort(WorthiestFirst, x[..n]), Sort(WorthiestFirst, y[..n]), x[n], y[n]);
    }
  }

  lemma {:induction false} FundedMatches(x: seq<Candidate>, y: seq<Candidate>, d: string)
    requires AllMatch(x, y)
    ensures FundedIn(x, d) == FundedIn(y, d)
    ensures TotalValue(Exact, x) == TotalValue(Exact, y) && TotalCost(Exact, x) <= TotalCost(Exact, y)
  {
    if x != [] {
      var n := |x| - 1;
      assert Matches(x[n], y[n]);
      FundedMatches(x[..n], y[..n], d);
    }
  }

  lemma {:induction false} CappedMatches(x: seq<Candidate>, y: seq<Candidate>, cap: int)
    requires AllMatch(x, y)
    ensures AllMatch(Capped(x, cap), Capped(y, cap))
  {
    if x != [] {
      var n := |x| - 1;
      assert Matches(x[n], y[n]);
      assert x[n].district == y[n].district;
      hide Matches, FundedIn;
      CappedMatches(x[..n], y[..n], cap);
      FundedMatches(Capped(x[..n], cap), Capped(y[..n], cap), x[n].district);
    }
  }

  /** Pruning leaves the split as it was in everything but cost: the same buildings in the
      same order, each with an option worth the same and no dearer. */
  lemma SplitUnchanged(t: Terms, cs: seq<Candidate>, bs: seq<string>)
    requires NoRepeats(cs) && OneDistrict(cs)
    ensures AllMatch(Split(t, Pruned(cs), bs), Split(t, cs, bs))
    ensures TotalValue(Exact, Split(t, Pruned(cs), bs)) == TotalValue(Exact, Split(t, cs, bs))
    ensures TotalCost(Exact, Split(t, Pruned(cs), bs)) <= TotalCost(Exact, Split(t, cs, bs))
  {
    if bs != [] {
      var share := t.budget / |bs| as real;
      PicksMatch(cs, bs, share);
      var short, full := PicksOf(Pruned(cs), bs, share), PicksOf(cs, bs, share);
      if t.cap.Some? {
        SortMatches(short, full);
        CappedMatches(Sort(WorthiestFirst, short), Sort(WorthiestFirst, full), t.cap.value);
      }
    }
    FundedMatches(Split(t, Pruned(cs), bs), Split(t, cs, bs), "");
  }
}
