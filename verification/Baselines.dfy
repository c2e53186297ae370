/** The heuristic the exact allocation is compared with first: first fit over the options in
    order of density, and what pruning changes of it. */
module Baselines {
  import opened Optimum
  import opened Pruning
  import opened Sets
  import opened Sorting
  import opened Wrappers

  /** Value per unit of money; an option that costs nothing counts as worthless. */
  function Density(c: Candidate): real { if c.cost <= 0.0 then 0.0 else c.value / c.cost }

  predicate DensestFirst(a: Candidate, b: Candidate) { Density(a) >= Density(b) }

  /** The options funded, in the order they were; the money spent; the cap counters. */
  datatype Funding = Funding(picks: seq<Candidate>, spent: real, counts: map<string, nat>)

  const NOTHING := Funding([], 0.0, map[])

  datatype Terms = Terms(budget: real, cap: Option<int>)

  predicate Holds(picks: seq<Candidate>, b: string) { exists i :: 0 <= i < |picks| && picks[i].building == b }

  function Get(counts: map<string, nat>, d: string): nat { if d in counts then counts[d] else 0 }

  /** The cap leaves room for one more in the district. */
  predicate Room(t: Terms, f: Funding, district: string) { t.cap.Some? ==> Get(f.counts, district) < t.cap.value }

  predicate Skipped(t: Terms, f: Funding, c: Candidate) {
    || c.value <= 0.0
    || Holds(f.picks, c.building)
    || f.spent + c.cost > t.budget
    || !Room(t, f, c.district)
  }

  function Fund(f: Funding, c: Candidate): Funding {
    Funding(f.picks + [c], f.spent + c.cost, f.counts[c.district := Get(f.counts, c.district) + 1])
  }

  function Visit(t: Terms, f: Funding, c: Candidate): Funding { if Skipped(t, f, c) then f else Fund(f, c) }

  /** First fit over a list. */
  function FirstFit(t: Terms, list: seq<Candidate>): Funding {
    if list == [] then NOTHING else Visit(t, FirstFit(t, list[..|list| - 1]), list[|list| - 1])
  }

  function Greedy(t: Terms, cs: seq<Candidate>): Funding { FirstFit(t, Sort(DensestFirst, cs)) }

  method DensityPass(cs: seq<Candidate>, t: Terms) returns (f: Funding)
    ensures f == Greedy(t, cs)
  {
    var ordered := Sort(DensestFirst, cs);
    f := NOTHING;
    for i := 0 to |ordered|
      invariant f == FirstFit(t, ordered[..i])
    {
      assert ordered[..i + 1][..i] == ordered[..i];
      var c := ordered[i];
      if c.value <= 0.0 { continue; }
      if Holds(f.picks, c.building) { continue; }
      if f.spent + c.cost > t.budget { continue; }
      if !Room(t, f, c.district) { continue; }
      f := Fund(f, c);
    }
    assert ordered[..|ordered|] == ordered;
  }

  // ------------------------------------------------ every funding is allowed

  /** The books agree with the picks, and the picks respect the three constraints. */
  ghost predicate Sound(t: Terms, f: Funding, cs: seq<Candidate>) {
    && f.spent == TotalCost(Exact, f.picks)
    && (forall d :: Get(f.counts, d) == FundedIn(f.picks, d))
    && Feasible(Exact, f.picks, t.budget, t.cap)
    && Among(f.picks, cs)
    && (forall i :: 0 <= i < |f.picks| ==> f.picks[i].value > 0.0)
  }

  lemma FundedMore(picks: seq<Candidate>, c: Candidate, d: string)
    ensures FundedIn(picks + [c], d) == FundedIn(picks, d) + if c.district == d then 1 else 0
    ensures TotalCost(Exact, picks + [c]) == TotalCost(Exact, picks) + c.cost
    ensures TotalValue(Exact, picks + [c]) == TotalValue(Exact, picks) + c.value
  {}

  lemma VisitKeeps(t: Terms, f: Funding, c: Candidate, cs: seq<Candidate>)
    requires Sound(t, f, cs) && c in cs
    ensures Sound(t, Visit(t, f, c), cs)
  {
    hide FundedIn, TotalCost, TotalValue;
    if !Skipped(t, f, c) {
      var f' := Fund(f, c);
      forall d ensures Get(f'.counts, d) == FundedIn(f'.picks, d) { FundedMore(f.picks, c, d); }
      FundedMore(f.picks, c, c.district);
      if t.cap.Some? {
        forall i | 0 <= i < |f'.picks| ensures FundedIn(f'.picks, f'.picks[i].district) <= t.cap.value {
          FundedMore(f.picks, c, f'.picks[i].district);
          if i < |f.picks| { assert FundedIn(f.picks, f.picks[i].district) <= t.cap.value; }
        }
      }
    }
  }

  lemma {:induction false} FirstFitIsSound(t: Terms, list: seq<Candidate>, cs: seq<Candidate>)
    requires Among(list, cs) && t.budget >= 0.0
    ensures Sound(t, FirstFit(t, list), cs)
  {
    if list != [] {
      hide Sound, Visit;
      FirstFitIsSound(t, list[..|list| - 1], cs);
      VisitKeeps(t, FirstFit(t, list[..|list| - 1]), list[|list| - 1], cs);
    }
  }

  /** Greedy never overspends, funds a building at most once, respects the cap of every
      district and funds only what is worth something. */
  lemma GreedyIsSound(t: Terms, cs: seq<Candidate>)
    requires t.budget >= 0.0
    ensures Sound(t, Greedy(t, cs), cs)
  {
    SortContains(DensestFirst, cs);
    FirstFitIsSound(t, Sort(DensestFirst, cs), cs);
  }

  // ------------------------------------------------ what greedy takes

  /** Of two options that cost something, the denser is worth more for the money. */
  lemma DenserMeans(a: Candidate, b: Candidate)
    requires a.cost > 0.0 && b.cost > 0.0
    ensures DensestFirst(a, b) <==> a.value * b.cost >= b.value * a.cost
  {
    Quotients(a.value, a.cost, b.value, b.cost);
  }

  /** An option of worth, at a building without one, that the budget and the cap of its
      district allow beside those already taken. */
  predicate Fits(t: Terms, taken: seq<Candidate>, c: Candidate) {
    && c.value > 0.0
    && (forall p :: p in taken ==> p.building != c.building)
    && TotalCost(Exact, taken) + c.cost <= t.budget
    && (t.cap.Some? ==> FundedIn(taken, c.district) < t.cap.value)
  }

  lemma FitsIff(t: Terms, f: Funding, c: Candidate, cs: seq<Candidate>)
    requires Sound(t, f, cs)
    ensures Fits(t, f.picks, c) <==> !Skipped(t, f, c)
  {
    assert Get(f.counts, c.district) == FundedIn(f.picks, c.district);
    assert f.spent == TotalCost(Exact, f.picks);
    hide Sound, TotalCost, FundedIn;
    if i :| 0 <= i < |f.picks| && f.picks[i].building == c.building { assert f.picks[i] in f.picks; }
  }

  /** First fit over a longer list adds picks behind, and only of what was added. */
  lemma {:induction false} FirstFitGrows(t: Terms, list: seq<Candidate>, i: nat)
    requires i <= |list|
    ensures FirstFit(t, list[..i]).picks <= FirstFit(t, list).picks
    ensures var k := |FirstFit(t, list[..i]).picks|;
            forall m :: k <= m < |FirstFit(t, list).picks| ==> FirstFit(t, list).picks[m] in list[i..]
  {
    hide Skipped;
    if i < |list| {
      var n := |list| - 1;
      FirstFitGrows(t, list[..n], i);
      assert list[..n][..i] == list[..i];
      assert list[i..] == list[..n][i..] + [list[n]];
    } else {
      assert list[..i] == list;
    }
  }

  /** Option by option, densest first: it is taken exactly when it fits beside the picks that
      come from the options before it. */
  lemma TakenIff(t: Terms, cs: seq<Candidate>, i: nat) returns (k: nat)
    requires t.budget >= 0.0 && NoRepeats(cs) && i < |Sort(DensestFirst, cs)|
    ensures var (list, picks) := (Sort(DensestFirst, cs), Greedy(t, cs).picks);
            && k <= |picks| && (forall p :: p in picks[..k] ==> p in list[..i])
            && (forall p :: p in picks[k..] ==> p in list[i..])
            && (list[i] in picks <==> Fits(t, picks[..k], list[i]))
  {
    SortContains(DensestFirst, cs);
    var list := Sort(DensestFirst, cs);
    hide Sort;
    assert Among(list[..i], cs);
    hide *;
    var f := FirstFit(t, list[..i]);
    k := |f.picks|;
    FirstFitIsSound(t, list[..i], cs);
    FitsIff(t, f, list[i], cs);
    TakenFrom(t, list, i);
    GreedyIsFirstFit(t, cs);
  }

  lemma GreedyIsFirstFit(t: Terms, cs: seq<Candidate>)
    ensures Greedy(t, cs) == FirstFit(t, Sort(DensestFirst, cs))
  {}

  lemma TakenFrom(t: Terms, list: seq<Candidate>, i: nat)
    requires NoRepeats(list) && i < |list|
    ensures var (f, picks) := (FirstFit(t, list[..i]), FirstFit(t, list).picks);
            var k := |f.picks|;
            && k <= |picks| && picks[..k] == f.picks
            && (forall p :: p in f.picks ==> p in list[..i]) && (forall p :: p in picks[k..] ==> p in list[i..])
            && (list[i] in picks <==> !Skipped(t, f, list[i]))
  {
    hide *;
    var f, picks := FirstFit(t, list[..i]), FirstFit(t, list).picks;
    var k := |f.picks|;
    FirstFitGrows(t, list, i);
    FirstFitGrows(t, list, i + 1);
    PicksAreListed(t, list[..i]);
    VisitedNext(t, list, i);
    NotAround(list, i);
    forall p | p in picks[k..] ensures p in list[i..] {
      var m :| 0 <= m < |picks[k..]| && picks[k..][m] == p;
      assert picks[k + m] == p;
    }
    if !Skipped(t, f, list[i]) { assert FirstFit(t, list[..i + 1]).picks[k] == list[i] && picks[k] == list[i]; }
  }

  lemma VisitedNext(t: Terms, list: seq<Candidate>, i: nat)
    requires i < |list|
    ensures var f := FirstFit(t, list[..i]);
            FirstFit(t, list[..i + 1]).picks == if Skipped(t, f, list[i]) then f.picks else f.picks + [list[i]]
  {
    hide Skipped;
    assert list[..i + 1][..i] == list[..i];
  }

  lemma NotAround(list: seq<Candidate>, i: nat)
    requires NoRepeats(list) && i < |list|
    ensures list[i] !in list[..i] && list[i] !in list[i + 1..]
  {}

  // ------------------------------------------------ greedy and pruning

  /** Once `a` has been visited, `d` can no longer be funded. */
  predicate Blocks(a: Candidate, d: Candidate) {
    a.building == d.building && a.district == d.district && a.cost <= d.cost && a.value > 0.0
  }

  predicate AllPriced(list: seq<Candidate>) { forall i :: 0 <= i < |list| ==> list[i].cost >= 0.0 }

  /** Once an option has been visited, nothing dearer at its building is ever funded. */
  lemma {:induction false} VisitedBlocks(t: Terms, list: seq<Candidate>, a: Candidate, d: Candidate)
    requires a in list && Blocks(a, d) && AllPriced(list)
    ensures Skipped(t, FirstFit(t, list), d)
  {
    var n := |list| - 1;
    var f := FirstFit(t, list[..n]);
    if a in list[..n] {
      VisitedBlocks(t, list[..n], a, d);
      SkippedStays(t, f, list[n], d);
    } else {
      assert list[n] == a;
      if !Skipped(t, f, a) { assert Fund(f, a).picks[|f.picks|] == a; }
    }
  }

  lemma SkippedStays(t: Terms, f: Funding, c: Candidate, d: Candidate)
    requires Skipped(t, f, d) && c.cost >= 0.0
    ensures Skipped(t, Visit(t, f, c), d)
  {
    if !Skipped(t, f, c) && Holds(f.picks, d.building) {
      var i :| 0 <= i < |f.picks| && f.picks[i].building == d.building;
      assert Fund(f, c).picks[i].building == d.building;
    }
  }

  /** The elements that are also in `kept`. */
  function Only(list: seq<Candidate>, kept: set<Candidate>): seq<Candidate> {
    if list == [] then []
    else
      var last := list[|list| - 1];
      Only(list[..|list| - 1], kept) + if last in kept then [last] else []
  }

  lemma {:induction false} OnlyMeans(list: seq<Candidate>, kept: set<Candidate>)
    ensures forall c :: c in Only(list, kept) <==> c in list && c in kept
    ensures NoRepeats(list) ==> NoRepeats(Only(list, kept))
  {
    if list != [] {
      OnlyMeans(list[..|list| - 1], kept);
      assert list == list[..|list| - 1] + [list[|list| - 1]];
    }
  }

  lemma {:induction false} OnlyKeepsBefore(list: seq<Candidate>, kept: set<Candidate>, a: Candidate, b: Candidate)
    requires Before(list, a, b) && a in kept && b in kept
    ensures Before(Only(list, kept), a, b)
  {
    hide Before;
    BeforeCases(list, a, b);
    var n := |list| - 1;
    var rest := Only(list[..n], kept);
    OnlyMeans(list[..n], kept);
    if Before(list[..n], a, b) {
      OnlyKeepsBefore(list[..n], kept, a, b);
      BeforeInLonger(rest, list[n], a, b);
      assert rest + [] == rest;
    } else {
      BeforeLast(rest, a, b);
    }
  }

  /** What is left out is worthless or comes after a kept option that blocks it. */
  ghost predicate Spare(list: seq<Candidate>, kept: set<Candidate>, d: Candidate) {
    d in kept || d.value <= 0.0 || exists a :: a in kept && Before(list, a, d) && Blocks(a, d)
  }

  ghost predicate AllSpare(list: seq<Candidate>, kept: set<Candidate>) {
    forall i :: 0 <= i < |list| ==> Spare(list[..i + 1], kept, list[i])
  }

  lemma SparePrefix(list: seq<Candidate>, kept: set<Candidate>)
    requires AllSpare(list, kept) && list != []
    ensures AllSpare(list[..|list| - 1], kept) && Spare(list, kept, list[|list| - 1])
  {
    var n := |list| - 1;
    hide Spare;
    forall i | 0 <= i < n ensures Spare(list[..n][..i + 1], kept, list[..n][i]) {
      assert list[..n][..i + 1] == list[..i + 1];
    }
    assert list[..n + 1] == list;
  }

  lemma {:induction false} SpareMakesNoDifference(t: Terms, list: seq<Candidate>, kept: set<Candidate>)
    requires AllSpare(list, kept) && AllPriced(list)
    ensures FirstFit(t, Only(list, kept)) == FirstFit(t, list)
  {
    if list != [] {
      var n := |list| - 1;
      var d := list[n];
      SparePrefix(list, kept);
      hide AllSpare, Spare, Visit;
      SpareMakesNoDifference(t, list[..n], kept);
      var rest := Only(list[..n], kept);
      if d in kept {
        assert (rest + [d])[..|rest|] == rest;
      } else {
        assert Only(list, kept) == rest;
        SpareIsSkipped(t, list, kept);
      }
    }
  }

  lemma SpareIsSkipped(t: Terms, list: seq<Candidate>, kept: set<Candidate>)
    requires list != [] && AllPriced(list)
    requires Spare(list, kept, list[|list| - 1]) && list[|list| - 1] !in kept
    ensures Skipped(t, FirstFit(t, list[..|list| - 1]), list[|list| - 1])
  {
    var n := |list| - 1;
    var d := list[n];
    if d.value > 0.0 {
      var a :| a in kept && Before(list, a, d) && Blocks(a, d);
      VisitedBlocks(t, list[..n], a, d);
    }
  }

  lemma BeforeInPrefix(list: seq<Candidate>, a: Candidate, i: nat)
    requires NoRepeats(list) && i < |list| && Before(list, a, list[i])
    ensures Before(list[..i + 1], a, list[i])
  {}

  lemma {:induction false} PicksAreListed(t: Terms, list: seq<Candidate>)
    ensures forall c :: c in FirstFit(t, list).picks ==> c in list && c.value > 0.0
  {
    if list != [] {
      PicksAreListed(t, list[..|list| - 1]);
      hide FirstFit;
      assert list == list[..|list| - 1] + [list[|list| - 1]];
    }
  }

  /** What comes after an option that blocks it is never funded. */
  lemma BlockedIsNotPicked(t: Terms, list: seq<Candidate>, a: Candidate, d: Candidate)
    requires NoRepeats(list) && AllPriced(list) && Before(list, a, d) && Blocks(a, d) && a != d
    ensures d !in FirstFit(t, list).picks
  {
    var kept := set c | c in list && c != d;
    assert a in list by { hide Blocks; }
    forall i | 0 <= i < |list| ensures Spare(list[..i + 1], kept, list[i]) {
      if list[i] == d { BeforeInPrefix(list, a, i); }
    }
    hide NoRepeats, Spare, Before;
    SpareMakesNoDifference(t, list, kept);
    PicksAreListed(t, Only(list, kept));
    OnlyMeans(list, kept);
  }

  /** What is never funded makes no difference. */
  lemma {:induction false} UnpickedCanGo(t: Terms, list: seq<Candidate>, kept: set<Candidate>)
    requires forall c :: c in FirstFit(t, list).picks ==> c in kept
    ensures FirstFit(t, Only(list, kept)) == FirstFit(t, list)
  {
    if list != [] {
      var n := |list| - 1;
      var f := FirstFit(t, list[..n]);
      if !Skipped(t, f, list[n]) { assert FirstFit(t, list).picks[|f.picks|] == list[n]; }
      forall c | c in f.picks ensures c in kept { assert c in FirstFit(t, list).picks; }
      UnpickedCanGo(t, list[..n], kept);
      var rest := Only(list[..n], kept);
      if list[n] in kept { assert (rest + [list[n]])[..|rest|] == rest; } else { assert rest + [] == rest; }
    }
  }

  // ------------------------------------------------ density and dominance

  /** A quotient is above another when it is above it after multiplying out. */
  lemma Quotients(v: real, c: real, w: real, d: real)
    requires c > 0.0 && d > 0.0
    ensures v / c >= w / d <==> v * d >= w * c
    ensures v / c == w / d <==> v * d == w * c
  {
    var p, q := v / c, w / d;
    Scale(p, q, c * d);
    Scale(q, p, c * d);
    assert p * (c * d) == (p * c) * d && p * c == v;
    assert q * (c * d) == (q * d) * c && q * d == w;
  }

  lemma Scale(a: real, b: real, n: real)
    requires n > 0.0
    ensures a < b <==> a * n < b * n
    ensures a == b <==> a * n == b * n
  {}

  lemma Products(v: real, w: real, c: real, d: real)
    requires v >= w > 0.0 && 0.0 < c <= d
    ensures v * d >= w * d >= w * c
    ensures v * d == w * c ==> v == w && c == d
  {
    if v > w { Scale(w, v, d); }
    if c < d { Scale(c, d, w); }
  }

  /** A dominating option with a price is at least as dense, and as dense only if the two
      cost and are worth the same. */
  lemma PricedDominatorIsDenser(a: Candidate, d: Candidate)
    requires Dominates(a, d) && a.cost > 0.0 && d.value > 0.0
    ensures Density(a) >= Density(d)
    ensures Density(a) == Density(d) ==> a.cost == d.cost && a.value == d.value
  {
    Products(a.value, d.value, a.cost, d.cost);
    Quotients(a.value, a.cost, d.value, d.cost);
  }

  /** The reason given for leaving greedy alone: a dominating option is at least as dense.
      Among options that are worth something it holds exactly when the dominating one has a
      price, or neither has. */
  lemma DominatorIsDenserIff(a: Candidate, d: Candidate)
    requires Dominates(a, d) && a.cost >= 0.0 && d.value > 0.0
    ensures Density(a) >= Density(d) <==> a.cost > 0.0 || d.cost <= 0.0
  {
    if a.cost > 0.0 {
      PricedDominatorIsDenser(a, d);
    } else if d.cost > 0.0 {
      Positive(d);
    }
  }

  lemma Positive(c: Candidate)
    requires c.cost > 0.0
    ensures Density(c) > 0.0 <==> c.value > 0.0
  {
    Quotients(0.0, 1.0, c.value, c.cost);
  }

  /** Of equally dense options the cheaper one is worth less. */
  lemma EquallyDense(a: Candidate, b: Candidate)
    requires a.cost > 0.0 && b.cost > 0.0 && a.value > 0.0 && Density(a) == Density(b)
    ensures a.cost <= b.cost <==> a.value <= b.value
    ensures b.value > 0.0
  {
    Positive(a);
    Positive(b);
    Quotients(a.value, a.cost, b.value, b.cost);
    if a.cost <= b.cost && a.value > b.value { Products(a.value, b.value, a.cost, b.cost); }
    if b.cost <= a.cost && b.value >= a.value { Products(b.value, a.value, b.cost, a.cost); }
  }

  // ------------------------------------------------ when greedy is left alone

  function Worthwhile(cs: seq<Candidate>): set<Candidate> { set c | c in cs && c.value > 0.0 }

  /** What is worth something has a price. */
  predicate NothingFree(cs: seq<Candidate>) {
    forall i :: 0 <= i < |cs| ==> cs[i].cost >= 0.0 && (cs[i].value > 0.0 ==> cs[i].cost > 0.0)
  }

  predicate Tied(a: Candidate, b: Candidate) { a.building == b.building && Density(a) == Density(b) }

  /** The cheapest of the tied options of each building. */
  ghost function Leaders(kept: set<Candidate>): set<Candidate> {
    set a | a in kept && forall b :: b in kept && Tied(a, b) ==> a.cost <= b.cost
  }

  lemma {:induction false} LeaderOf(kept: set<Candidate>, d: Candidate) returns (a: Candidate)
    requires d in kept
    ensures a in Leaders(kept) && Tied(a, d) && a.cost <= d.cost
    decreases |set c | c in kept && c.cost < d.cost|
  {
    if d in Leaders(kept) { return d; }
    var b :| b in kept && Tied(d, b) && b.cost < d.cost;
    var cheaper, cheapest := set c | c in kept && c.cost < d.cost, set c | c in kept && c.cost < b.cost;
    assert b in cheaper && b !in cheapest && cheapest <= cheaper;
    SmallerSet(cheapest, cheaper, b);
    a := LeaderOf(kept, b);
  }

  lemma SmallerSet(x: set<Candidate>, y: set<Candidate>, b: Candidate)
    requires x <= y && b in y && b !in x
    ensures |x| < |y|
  {
    assert x <= y - {b};
    SubsetSize(x, y - {b});
  }

  lemma SortedPriced(all: seq<Candidate>, cs: seq<Candidate>)
    requires NothingFree(cs) && forall c :: c in all ==> c in cs
    ensures AllPriced(Sort(DensestFirst, all))
  {
    SortContains(DensestFirst, all);
    var sorted := Sort(DensestFirst, all);
    forall i | 0 <= i < |sorted| ensures sorted[i].cost >= 0.0 { assert sorted[i] in cs; }
  }

  /** What stands before what in density order. */
  lemma InDensityOrder(s: seq<Candidate>, a: Candidate, b: Candidate)
    requires NoRepeats(s) && a in s && b in s && a != b
    ensures Before(Sort(DensestFirst, s), a, b) <==>
              Density(a) > Density(b) || (Density(a) == Density(b) && Before(s, a, b))
  {
    SortContains(DensestFirst, s);
    OneWay(s, a, b);
    OneWay(Sort(DensestFirst, s), a, b);
    hide Before, Sort, NoRepeats, Density;
    if Density(a) > Density(b) {
      SortSeparates(DensestFirst, s, a, b);
    } else if Density(b) > Density(a) {
      SortSeparates(DensestFirst, s, b, a);
    } else if Before(s, a, b) {
      SortIsStable(DensestFirst, s, a, b);
    } else {
      SortIsStable(DensestFirst, s, b, a);
    }
  }

  /** A dropped option that is worth something comes after a kept one that is no dearer. */
  lemma DroppedComesLater(cs: seq<Candidate>, d: Candidate) returns (a: Candidate)
    requires NoRepeats(cs) && OneDistrict(cs) && NothingFree(cs)
    requires d in cs && d !in Pruned(cs) && d.value > 0.0
    ensures a in Worthwhile(Pruned(cs)) && Blocks(a, d) && Before(Sort(DensestFirst, cs), a, d)
  {
    a := KeptDominator(cs, d);
    InDistrict(cs, a, d);
    PrunedMeans(cs);
    assert a in cs;
    assert a.cost > 0.0;
    PricedDominatorIsDenser(a, d);
    InDensityOrder(cs, a, d);
  }

  lemma SortedIsSpare(cs: seq<Candidate>)
    requires NoRepeats(cs) && OneDistrict(cs) && NothingFree(cs)
    ensures AllSpare(Sort(DensestFirst, cs), Worthwhile(Pruned(cs)))
  {
    var list, kept := Sort(DensestFirst, cs), Worthwhile(Pruned(cs));
    SortContains(DensestFirst, cs);
    hide Sort, Pruned, Blocks;
    forall i | 0 <= i < |list| ensures Spare(list[..i + 1], kept, list[i]) {
      var d := list[i];
      if d !in kept && d.value > 0.0 {
        var a := DroppedComesLater(cs, d);
        BeforeInPrefix(list, a, i);
      }
    }
  }

  /** Only options that pruning keeps are ever funded. */
  lemma PicksAreKept(t: Terms, cs: seq<Candidate>)
    requires NoRepeats(cs) && OneDistrict(cs) && NothingFree(cs)
    ensures forall c :: c in Greedy(t, cs).picks ==> c in Worthwhile(Pruned(cs))
  {
    var list, kept := Sort(DensestFirst, cs), Worthwhile(Pruned(cs));
    hide Sort, Pruned, Worthwhile, AllSpare, AllPriced, FirstFit, Only;
    SortedPriced(cs, cs);
    SortedIsSpare(cs);
    SpareMakesNoDifference(t, list, kept);
    PicksAreListed(t, Only(list, kept));
    OnlyMeans(list, kept);
  }

  /** After pruning, of tied options only the cheapest can be funded. */
  lemma OnlyLeadersMatter(cs: seq<Candidate>, d: Candidate) returns (a: Candidate)
    requires NoRepeats(cs) && OneDistrict(cs) && NothingFree(cs)
    requires d in Worthwhile(Pruned(cs)) && d !in Leaders(Worthwhile(Pruned(cs)))
    ensures a in Leaders(Worthwhile(Pruned(cs))) && Blocks(a, d) && Before(Sort(DensestFirst, Pruned(cs)), a, d)
  {
    a := LeaderOf(Worthwhile(Pruned(cs)), d);
    PrunedMeans(cs);
    assert a in cs && d in cs;
    EquallyDense(a, d);
    KeptAreIncomparable(cs, d, a);
    PrunedOnce(cs);
    KeptByCost(cs, a, d);
    InDensityOrder(Pruned(cs), a, d);
  }

  lemma PrunedIsSpare(cs: seq<Candidate>)
    requires NoRepeats(cs) && OneDistrict(cs) && NothingFree(cs)
    ensures AllSpare(Sort(DensestFirst, Pruned(cs)), Leaders(Worthwhile(Pruned(cs))))
  {
    var list, kept := Sort(DensestFirst, Pruned(cs)), Leaders(Worthwhile(Pruned(cs)));
    SortContains(DensestFirst, Pruned(cs));
    PrunedOnce(cs);
    hide Sort, Pruned, Blocks, Leaders;
    forall i | 0 <= i < |list| ensures Spare(list[..i + 1], kept, list[i]) {
      var d := list[i];
      if d !in kept && d.value > 0.0 {
        var a := OnlyLeadersMatter(cs, d);
        BeforeInPrefix(list, a, i);
      }
    }
  }

  /** Pruning does not reverse equally dense options of different buildings. */
  ghost predicate TiesAcrossInOrder(cs: seq<Candidate>) {
    forall a, b :: a in Worthwhile(Pruned(cs)) && b in Worthwhile(Pruned(cs)) && Before(cs, a, b) ==>
                     Density(a) == Density(b) && a.building != b.building ==> Before(Pruned(cs), a, b)
  }

  /** Pruning does not reverse equally dense options. */
  ghost predicate TiesInOrder(cs: seq<Candidate>) {
    forall a, b :: a in Worthwhile(Pruned(cs)) && b in Worthwhile(Pruned(cs)) && Before(cs, a, b) ==>
                     Density(a) == Density(b) ==> Before(Pruned(cs), a, b)
  }

  lemma LeadersAreNotTied(cs: seq<Candidate>, a: Candidate, b: Candidate)
    requires NothingFree(cs) && a != b
    requires a in Leaders(Worthwhile(Pruned(cs))) && b in Leaders(Worthwhile(Pruned(cs)))
    ensures !Tied(a, b)
  {
    PrunedMeans(cs);
    assert a in cs && b in cs;
    KeptAreIncomparable(cs, a, b);
    hide Pruned, Density;
    if Tied(a, b) {
      EquallyDense(a, b);
      EquallyDense(b, a);
    }
  }

  lemma LeadersInOrder(cs: seq<Candidate>, a: Candidate, b: Candidate)
    requires NoRepeats(cs) && NothingFree(cs) && TiesAcrossInOrder(cs)
    requires a in Leaders(Worthwhile(Pruned(cs))) && b in Leaders(Worthwhile(Pruned(cs)))
    requires a != b && Before(Sort(DensestFirst, cs), a, b)
    ensures Before(Sort(DensestFirst, Pruned(cs)), a, b)
  {
    PrunedMeans(cs);
    PrunedOnce(cs);
    LeadersAreNotTied(cs, a, b);
    assert a in cs && b in cs;
    hide NoRepeats, Before, Sort, Density, Pruned, NothingFree;
    InDensityOrder(cs, a, b);
    InDensityOrder(Pruned(cs), a, b);
  }

  lemma BeforeDiffer(s: seq<Candidate>, a: Candidate, b: Candidate)
    requires NoRepeats(s) && Before(s, a, b)
    ensures a != b && a in s && b in s
  {}

  /** Of the leaders the two lists make the same list. */
  lemma SameLeaders(cs: seq<Candidate>)
    requires NoRepeats(cs) && NothingFree(cs) && TiesAcrossInOrder(cs)
    ensures Only(Sort(DensestFirst, cs), Leaders(Worthwhile(Pruned(cs))))
         == Only(Sort(DensestFirst, Pruned(cs)), Leaders(Worthwhile(Pruned(cs))))
  {
    var full, short := Sort(DensestFirst, cs), Sort(DensestFirst, Pruned(cs));
    var leaders := Leaders(Worthwhile(Pruned(cs)));
    PrunedMeans(cs);
    assert forall c :: c in leaders ==> c in cs && c in Pruned(cs);
    hide Pruned, Sort, NothingFree, TiesAcrossInOrder, Worthwhile, Leaders;
    PrunedOnce(cs);
    SortContains(DensestFirst, cs);
    SortContains(DensestFirst, Pruned(cs));
    OnlyMeans(full, leaders);
    OnlyMeans(short, leaders);
    hide Before, NoRepeats;
    var x, y := Only(full, leaders), Only(short, leaders);
    forall a, b | a in x && b in x && Before(x, a, b) ensures Before(y, a, b) {
      BeforeDiffer(x, a, b);
      OneWay(x, a, b);
      OneWay(full, a, b);
      if Before(full, b, a) { OnlyKeepsBefore(full, leaders, b, a); }
      LeadersInOrder(cs, a, b);
      OnlyKeepsBefore(short, leaders, a, b);
    }
    hide Only;
    SameOrderSameList(x, y);
  }

  /** No option of a funded option's building is as dense and cheaper. */
  predicate CheapestOfTies(cs: seq<Candidate>, picks: seq<Candidate>) {
    forall a, c :: a in picks && c in cs && Tied(a, c) ==> a.cost <= c.cost
  }

  /** A funded option leads its ties among the kept options exactly when it leads them among
      all. */
  lemma LeadsAmongAll(t: Terms, cs: seq<Candidate>, a: Candidate)
    requires NoRepeats(cs) && OneDistrict(cs) && NothingFree(cs) && a in Greedy(t, cs).picks
    ensures a in Leaders(Worthwhile(Pruned(cs))) <==> forall c :: c in cs && Tied(a, c) ==> a.cost <= c.cost
  {
    hide Density, Pruned, NoRepeats;
    PicksAreKept(t, cs);
    PrunedMeans(cs);
    if a in Leaders(Worthwhile(Pruned(cs))) {
      forall c | c in cs && Tied(a, c) ensures a.cost <= c.cost {
        if c.cost < a.cost {
          var k := CheaperTieIsKept(t, cs, a, c);
        }
      }
    }
  }

  lemma CheaperTieIsKept(t: Terms, cs: seq<Candidate>, a: Candidate, c: Candidate) returns (k: Candidate)
    requires NoRepeats(cs) && OneDistrict(cs) && NothingFree(cs)
    requires a in Greedy(t, cs).picks && a in cs && a.value > 0.0 && c in cs && Tied(a, c) && c.cost < a.cost
    ensures k in Worthwhile(Pruned(cs)) && Tied(a, k) && k.cost < a.cost && Before(cs, a, k)
  {
    WorthOfTied(cs, a, c);
    k := KeptDominator(cs, c);
    PrunedMeans(cs);
    InDistrict(cs, k, c);
    assert k in cs && k.cost > 0.0 && a.district == k.district;
    PricedDominatorIsDenser(k, c);
    NotAfterABlocker(t, cs, k, a);
  }

  lemma WorthOfTied(cs: seq<Candidate>, a: Candidate, c: Candidate)
    requires NothingFree(cs) && a in cs && c in cs && a.value > 0.0 && Tied(a, c)
    ensures a.cost > 0.0 && c.cost > 0.0 && c.value > 0.0
  {
    Positive(a);
  }

  /** A funded option does not come after one that blocks it. */
  lemma NotAfterABlocker(t: Terms, cs: seq<Candidate>, a: Candidate, d: Candidate)
    requires NoRepeats(cs) && NothingFree(cs) && a in cs && d in cs && a != d && Blocks(a, d)
    requires d in Greedy(t, cs).picks
    ensures Density(d) > Density(a) || (Density(d) == Density(a) && Before(cs, d, a))
  {
    SortContains(DensestFirst, cs);
    SortedPriced(cs, cs);
    OneWay(Sort(DensestFirst, cs), a, d);
    InDensityOrder(cs, d, a);
    hide Density, Sort, Before, FirstFit, NoRepeats, AllPriced;
    if Before(Sort(DensestFirst, cs), a, d) { BlockedIsNotPicked(t, Sort(DensestFirst, cs), a, d); }
  }

  /** Pruning leaves greedy's result as it was, pick for pick and in the same order, exactly
      when no option that greedy funds has a cheaper one as dense at its building. */
  lemma GreedyUnchangedIff(t: Terms, cs: seq<Candidate>)
    requires NoRepeats(cs) && OneDistrict(cs) && NothingFree(cs) && TiesAcrossInOrder(cs)
    ensures Greedy(t, Pruned(cs)) == Greedy(t, cs) <==> CheapestOfTies(cs, Greedy(t, cs).picks)
  {
    var full, short := Sort(DensestFirst, cs), Sort(DensestFirst, Pruned(cs));
    var leaders := Leaders(Worthwhile(Pruned(cs)));
    var picks := Greedy(t, cs).picks;
    forall a | a in picks
      ensures a in leaders <==> forall c :: c in cs && Tied(a, c) ==> a.cost <= c.cost
    {
      LeadsAmongAll(t, cs, a);
    }
    assert CheapestOfTies(cs, picks) <==> forall a :: a in picks ==> a in leaders;
    PrunedMeans(cs);
    hide Pruned, Sort, Only, Worthwhile, Leaders, FirstFit, NoRepeats, AllSpare, AllPriced, CheapestOfTies, Tied;
    hide TiesAcrossInOrder;
    SortedPriced(Pruned(cs), cs);
    PrunedIsSpare(cs);
    SpareMakesNoDifference(t, short, leaders);
    PicksAreListed(t, Only(short, leaders));
    OnlyMeans(short, leaders);
    if forall a :: a in picks ==> a in leaders {
      UnpickedCanGo(t, full, leaders);
      SameLeaders(cs);
    }
  }

  lemma ReversedTie(cs: seq<Candidate>, k: Candidate, a: Candidate)
    requires NoRepeats(cs) && k in Worthwhile(Pruned(cs)) && a in Worthwhile(Pruned(cs))
    requires Tied(a, k) && k.cost < a.cost && Before(cs, a, k)
    ensures !TiesInOrder(cs)
  {
    PrunedOnce(cs);
    KeptByCost(cs, k, a);
    OneWay(Pruned(cs), k, a);
  }

  /** Whatever the budget and the cap, the result is unchanged when pruning reverses no two
      options that are equally dense. */
  lemma GreedyUnchanged(t: Terms, cs: seq<Candidate>)
    requires NoRepeats(cs) && OneDistrict(cs) && NothingFree(cs) && TiesInOrder(cs)
    ensures Greedy(t, Pruned(cs)) == Greedy(t, cs)
  {
    var picks := Greedy(t, cs).picks;
    PicksAreKept(t, cs);
    PrunedMeans(cs);
    PrunedOnce(cs);
    hide Pruned, Sort, FirstFit, NoRepeats, OneDistrict, NothingFree, Before, Density;
    forall a, c | a in picks && c in cs && Tied(a, c) ensures a.cost <= c.cost {
      if c.cost < a.cost {
        var k := CheaperTieIsKept(t, cs, a, c);
        ReversedTie(cs, k, a);
      }
    }
    GreedyUnchangedIff(t, cs);
  }

  lemma GroupedInOrder(cs: seq<Candidate>)
    requires Grouped(cs)
    ensures TiesAcrossInOrder(cs)
  {
    PrunedMeans(cs);
    forall a, b | a in Pruned(cs) && b in Pruned(cs) && Before(cs, a, b) && a.building != b.building
      ensures Before(Pruned(cs), a, b)
    {
      GroupsKeepOrder(cs, a, b);
    }
  }

  // ------------------------------------------------ at every budget

  /** Greedy always meets another option of the building first that is no dearer. */
  ghost predicate Shadowed(cs: seq<Candidate>, a: Candidate) {
    exists e :: e in cs && e != a && Blocks(e, a) &&
                (Density(e) > Density(a) || (Density(e) == Density(a) && Before(cs, e, a)))
  }

  /** Wherever two options of a building are equally dense, the dearer is shadowed. */
  ghost predicate DearerTiesShadowed(cs: seq<Candidate>) {
    forall a, c :: a in cs && a.value > 0.0 && c in cs && Tied(a, c) && c.cost < a.cost ==> Shadowed(cs, a)
  }

  /** For a portfolio listed building by building only the ties inside one building matter,
      and they do no harm under any budget or cap when the dearer option is shadowed. */
  lemma GroupedUnchanged(t: Terms, cs: seq<Candidate>)
    requires NoRepeats(cs) && OneDistrict(cs) && NothingFree(cs) && Grouped(cs) && DearerTiesShadowed(cs)
    ensures Greedy(t, Pruned(cs)) == Greedy(t, cs)
  {
    var picks := Greedy(t, cs).picks;
    PicksAreListed(t, Sort(DensestFirst, cs));
    SortContains(DensestFirst, cs);
    GroupedInOrder(cs);
    hide Density, Blocks, Before, Sort, FirstFit, NoRepeats, OneDistrict, NothingFree, Grouped;
    hide Shadowed;
    forall a, c | a in picks && c in cs && Tied(a, c) ensures a.cost <= c.cost {
      if c.cost < a.cost { ShadowedIsNotPicked(t, cs, a); }
    }
    GreedyUnchangedIff(t, cs);
  }

  lemma ShadowedIsNotPicked(t: Terms, cs: seq<Candidate>, a: Candidate)
    requires NoRepeats(cs) && NothingFree(cs) && a in cs && Shadowed(cs, a)
    ensures a !in Greedy(t, cs).picks
  {
    hide Density, Blocks, Before, Sort, FirstFit, NoRepeats, NothingFree;
    var e :| e in cs && e != a && Blocks(e, a) &&
             (Density(e) > Density(a) || (Density(e) == Density(a) && Before(cs, e, a)));
    if a in Greedy(t, cs).picks {
      NotAfterABlocker(t, cs, e, a);
      OneWay(cs, a, e);
    }
  }

  /** In particular when a cheaper option is listed before a dearer one as dense. */
  lemma CheaperTiesFirst(cs: seq<Candidate>)
    requires NoRepeats(cs) && OneDistrict(cs) && NothingFree(cs)
    requires forall a, c :: Before(cs, a, c) && a.value > 0.0 && Tied(a, c) ==> a.cost <= c.cost
    ensures DearerTiesShadowed(cs)
  {
    hide Density, Before, NoRepeats;
    forall a, c | a in cs && a.value > 0.0 && c in cs && Tied(a, c) && c.cost < a.cost ensures Shadowed(cs, a) {
      WorthOfTied(cs, a, c);
      OneWay(cs, a, c);
      assert Blocks(c, a) by { hide NothingFree; }
    }
  }

  lemma {:induction false} PicksGrow(t: Terms, list: seq<Candidate>, i: nat, c: Candidate)
    requires i <= |list| && c in FirstFit(t, list[..i]).picks
    ensures c in FirstFit(t, list).picks
  {
    if i < |list| {
      assert list[..|list| - 1][..i] == list[..i];
      PicksGrow(t, list[..|list| - 1], i, c);
    } else {
      assert list[..i] == list;
    }
  }

  lemma {:induction false} NothingYet(t: Terms, list: seq<Candidate>)
    requires forall i :: 0 <= i < |list| ==> Skipped(t, NOTHING, list[i])
    ensures FirstFit(t, list) == NOTHING
  {
    if list != [] { NothingYet(t, list[..|list| - 1]); }
  }

  lemma NotAffordableYet(cs: seq<Candidate>, e: Candidate, a: Candidate)
    requires NoRepeats(cs) && OneDistrict(cs) && OneBuilding(cs) && e in cs && a in cs && e != a
    requires Before(Sort(DensestFirst, cs), e, a) && !Shadowed(cs, a)
    ensures Skipped(Terms(a.cost, None), NOTHING, e)
  {
    InDensityOrder(cs, e, a);
    hide Density, Before, Sort, NoRepeats;
    assert e.building == a.building && e.district == a.district;
    assert !Blocks(e, a);
  }

  lemma AllSkippedBefore(cs: seq<Candidate>, a: Candidate) returns (i: nat)
    requires NoRepeats(cs) && OneDistrict(cs) && OneBuilding(cs) && a in cs && !Shadowed(cs, a)
    ensures i < |Sort(DensestFirst, cs)| && Sort(DensestFirst, cs)[i] == a
    ensures forall j :: 0 <= j < i ==> Skipped(Terms(a.cost, None), NOTHING, Sort(DensestFirst, cs)[j])
  {
    var full := Sort(DensestFirst, cs);
    SortContains(DensestFirst, cs);
    hide Sort, Shadowed, OneDistrict, OneBuilding, Skipped, Before;
    i :| 0 <= i < |full| && full[i] == a;
    forall j | 0 <= j < i ensures Skipped(Terms(a.cost, None), NOTHING, full[j]) {
      ByIndex(full, j, i);
      NotAffordableYet(cs, full[j], a);
    }
  }

  /** An option that nothing shadows is funded when its building stands alone and the budget
      is its cost. */
  lemma UnshadowedIsPicked(cs: seq<Candidate>, a: Candidate)
    requires NoRepeats(cs) && OneDistrict(cs) && OneBuilding(cs) && a in cs && a.value > 0.0 && !Shadowed(cs, a)
    ensures a in Greedy(Terms(a.cost, None), cs).picks
  {
    var t, full := Terms(a.cost, None), Sort(DensestFirst, cs);
    var i := AllSkippedBefore(cs, a);
    assert !Skipped(t, NOTHING, a);
    hide Sort, Shadowed, OneDistrict, OneBuilding, Skipped, NoRepeats, FirstFit;
    NothingYet(t, full[..i]);
    assert full[..i + 1][..i] == full[..i];
    FirstPick(t, full[..i + 1]);
    PicksGrow(t, full, i + 1, a);
  }

  lemma FirstPick(t: Terms, list: seq<Candidate>)
    requires list != [] && FirstFit(t, list[..|list| - 1]) == NOTHING && !Skipped(t, NOTHING, list[|list| - 1])
    ensures list[|list| - 1] in FirstFit(t, list).picks
  {}

  predicate OneBuilding(cs: seq<Candidate>) {
    forall i, j :: 0 <= i < j < |cs| ==> cs[i].building == cs[j].building
  }

  /** For one building that is exact: its result is unchanged at every budget if and only if
      wherever two of its options are equally dense the dearer is shadowed. */
  lemma UnchangedAtEveryBudgetIff(cs: seq<Candidate>)
    requires NoRepeats(cs) && OneDistrict(cs) && NothingFree(cs) && OneBuilding(cs)
    ensures (forall budget: real :: Greedy(Terms(budget, None), Pruned(cs)) == Greedy(Terms(budget, None), cs))
            <==> DearerTiesShadowed(cs)
  {
    assert Grouped(cs);
    if DearerTiesShadowed(cs) {
      forall budget: real ensures Greedy(Terms(budget, None), Pruned(cs)) == Greedy(Terms(budget, None), cs) {
        GroupedUnchanged(Terms(budget, None), cs);
      }
    } else {
      var a, c :| a in cs && a.value > 0.0 && c in cs && Tied(a, c) && c.cost < a.cost && !Shadowed(cs, a);
      UnshadowedIsPicked(cs, a);
      GroupedInOrder(cs);
      hide NoRepeats, Greedy, Pruned;
      GreedyUnchangedIff(Terms(a.cost, None), cs);
    }
  }

  // ------------------------------------------------ when it is not

  lemma SortTwo<T>(le: Compare<T>, a: T, b: T)
    ensures Sort(le, [a]) == [a]
    ensures Sort(le, [a, b]) == if le(a, b) then [a, b] else [b, a]
  {
    assert [a, b][..1] == [a] && [a][..0] == [];
    assert Insert(le, [], a) == [a] && Insert(le, [], b) == [b];
    assert Sort(le, [a]) == Insert(le, Sort(le, []), a);
    assert Sort(le, [a, b]) == Insert(le, Sort(le, [a]), b);
  }

  lemma FitTwo(t: Terms, a: Candidate, b: Candidate)
    ensures FirstFit(t, [a]) == Visit(t, NOTHING, a)
    ensures FirstFit(t, [a, b]) == Visit(t, Visit(t, NOTHING, a), b)
  {
    hide Visit;
    assert [a, b][..1] == [a] && [a][..0] == [];
    assert FirstFit(t, []) == NOTHING;
  }

  /** The first of two options at one building is the one funded, when it can be. */
  lemma TakeFirst(t: Terms, a: Candidate, b: Candidate)
    requires t.cap.None? && a.cost <= t.budget && a.value > 0.0 && a.building == b.building
    ensures FirstFit(t, [a]).picks == [a] && FirstFit(t, [a, b]).picks == [a]
  {
    hide FirstFit;
    FitTwo(t, a, b);
    var f := Visit(t, NOTHING, a);
    assert f.picks == [a] && f.picks[0].building == b.building;
  }

  lemma FrontierTwo(a: Candidate, b: Candidate)
    ensures Frontier([a]) == [a]
    ensures Frontier([a, b]) == if b.value > a.value then [a, b] else [a]
  {
    assert [a, b][..1] == [a] && [a][..0] == [];
    assert Frontier([]) == [];
  }

  /** A single building is a single group. */
  lemma PrunedPair(a: Candidate, d: Candidate)
    requires a.building == d.building
    ensures Pruned([a, d]) == Frontier(Sort(CheapestFirst, [a, d]))
  {
    hide Sort, Frontier;
    var cs, b := [a, d], a.building;
    assert cs[..1] == [a] && [a][..0] == [] && [b][..0] == [];
    assert Of([], b) == [] && Of([a], b) == [a] && Of(cs, b) == cs;
    assert Buildings([]) == [] && Buildings([a]) == [b] && Buildings(cs) == [b];
    assert KeptAt(cs, []) == [];
  }

  /** An option that costs nothing counts as the least dense, so greedy funds the option it
      dominates in its place; after pruning it funds the better one. */
  lemma FreeOptionChangesGreedy(t: Terms, free: Candidate, d: Candidate)
    requires t.cap.None? && 0.0 < d.cost <= t.budget
    requires free.building == d.building && free.cost == 0.0 && free.value >= d.value > 0.0
    ensures Greedy(t, [free, d]).picks == [d]
    ensures Greedy(t, Pruned([free, d])).picks == [free]
  {
    hide Sort, FirstFit, Pruned, Frontier;
    DominatorIsDenserIff(free, d);
    SortTwo(DensestFirst, free, d);
    TakeFirst(t, d, free);
    PrunedPair(free, d);
    SortTwo(CheapestFirst, free, d);
    FrontierTwo(free, d);
    TakeFirst(t, free, d);
  }

  /** Where two options of a building are equally dense, greedy funds the one listed first
      and after pruning the cheaper one, which achieves less. */
  lemma TieChangesGreedy(t: Terms, large: Candidate, small: Candidate)
    requires t.cap.None? && 0.0 < small.cost < large.cost <= t.budget
    requires small.building == large.building && 0.0 < small.value < large.value
    requires Density(small) == Density(large)
    ensures Greedy(t, [large, small]).picks == [large]
    ensures Greedy(t, Pruned([large, small])).picks == [small]
  {
    hide Sort, FirstFit, Pruned, Frontier, Density;
    SortTwo(DensestFirst, large, small);
    TakeFirst(t, large, small);
    PrunedPair(large, small);
    SortTwo(CheapestFirst, large, small);
    FrontierTwo(small, large);
    SortTwo(DensestFirst, small, large);
    TakeFirst(t, small, large);
  }
}
