/** The strong heuristic: first fit, and then the best affordable swap until none is left. */
module Upgrades {
  import opened Baselines
  import opened Optimum
  import opened Pruning
  import opened Sorting
  import opened Wrappers

  const MAX_MOVES := 10_000

  /** What the building holds now. */
  function Current(picks: seq<Candidate>, b: string): (r: Option<nat>)
    ensures r.Some? ==> r.value < |picks| && picks[r.value].building == b
    ensures r.None? ==> !Holds(picks, b)
  {
    if picks == [] then None
    else
      var n := |picks| - 1;
      if picks[n].building == b then Some(n) else Current(picks[..n], b)
  }

  function BaseValue(picks: seq<Candidate>, b: string): real {
    var at := Current(picks, b);
    if at.Some? then picks[at.value].value else 0.0
  }

  function BaseCost(picks: seq<Candidate>, b: string): real {
    var at := Current(picks, b);
    if at.Some? then picks[at.value].cost else 0.0
  }

  function Gain(picks: seq<Candidate>, o: Candidate): real { o.value - BaseValue(picks, o.building) }

  function Extra(picks: seq<Candidate>, o: Candidate): real { o.cost - BaseCost(picks, o.building) }

  /** A swap that gains something, can be paid, and does not open a district beyond its cap. */
  predicate Legal(t: Terms, f: Funding, o: Candidate) {
    && Gain(f.picks, o) > 0.0
    && f.spent + Extra(f.picks, o) <= t.budget
    && (Current(f.picks, o.building).None? ==> Room(t, f, o.district))
  }

  /** Gain per unit of extra money; a swap that costs no more is beyond all others. */
  datatype Ratio = Finite(r: real) | Endless

  function RatioOf(picks: seq<Candidate>, o: Candidate): Ratio {
    if Extra(picks, o) > 0.0 then Finite(Gain(picks, o) / Extra(picks, o)) else Endless
  }

  predicate Above(a: Ratio, b: Ratio) { b.Finite? && (a.Endless? || a.r > b.r) }

  /** The options building by building, as the dictionary holds them. */
  function OptionsAt(cs: seq<Candidate>, bs: seq<string>): seq<Candidate> {
    if bs == [] then [] else OptionsAt(cs, bs[..|bs| - 1]) + Of(cs, bs[|bs| - 1])
  }

  /** The first of the legal swaps with the highest ratio. */
  function BestMove(t: Terms, f: Funding, options: seq<Candidate>): Option<Candidate> {
    if options == [] then None
    else
      var before := BestMove(t, f, options[..|options| - 1]);
      var o := options[|options| - 1];
      if Legal(t, f, o) && (before.None? || Above(RatioOf(f.picks, o), RatioOf(f.picks, before.value)))
      then Some(o) else before
  }

  function Swap(f: Funding, o: Candidate): Funding {
    var at := Current(f.picks, o.building);
    if at.None? then Fund(f, o)
    else Funding(f.picks[at.value := o], f.spent + Extra(f.picks, o), f.counts)
  }

  function Upgraded(t: Terms, cs: seq<Candidate>, f: Funding, moves: nat): Funding
    decreases moves
  {
    if moves == 0 then f
    else
      var best := BestMove(t, f, OptionsAt(cs, Buildings(cs)));
      if best.None? then f else Upgraded(t, cs, Swap(f, best.value), moves - 1)
  }

  lemma OneMove(t: Terms, cs: seq<Candidate>, f: Funding, moves: nat)
    ensures var best := BestMove(t, f, OptionsAt(cs, Buildings(cs)));
            Upgraded(t, cs, f, moves)
              == if moves == 0 || best.None? then f else Upgraded(t, cs, Swap(f, best.value), moves - 1)
  {}

  method GreedyUpgrade(cs: seq<Candidate>, t: Terms) returns (f: Funding)
    ensures f == Upgraded(t, cs, Greedy(t, cs), MAX_MOVES)
  {
    hide Upgraded, BestMove, OptionsAt, Swap, Greedy, Of, Buildings;
    f := DensityPass(cs, t);
    var groups, order := Group(cs);
    var moves := 0;
    while moves < MAX_MOVES
      invariant 0 <= moves <= MAX_MOVES
      invariant Upgraded(t, cs, f, MAX_MOVES - moves) == Upgraded(t, cs, Greedy(t, cs), MAX_MOVES)
    {
      var best := FindBest(cs, groups, order, f, t);
      OneMove(t, cs, f, MAX_MOVES - moves);
      if best.None? { break; }
      f := Swap(f, best.value);
      moves := moves + 1;
    }
    if moves == MAX_MOVES { OneMove(t, cs, f, 0); }
  }

  method FindBest(cs: seq<Candidate>, groups: map<string, seq<Candidate>>, order: seq<string>, f: Funding, t: Terms)
    returns (best: Option<Candidate>)
    requires order == Buildings(cs) && forall b :: b in order ==> b in groups && groups[b] == Of(cs, b)
    ensures best == BestMove(t, f, OptionsAt(cs, Buildings(cs)))
  {
    hide Legal, RatioOf, Above, Of, Buildings, BestMove, OptionsAt;
    best := None;
    NoOptions(t, f, cs);
    for g := 0 to |order|
      invariant best == BestMove(t, f, OptionsAt(cs, order[..g]))
    {
      var group := groups[order[g]];
      ghost var start := OptionsAt(cs, order[..g]);
      assert start + group[..0] == start;
      for i := 0 to |group|
        invariant best == BestMove(t, f, start + group[..i])
      {
        var o := group[i];
        OneMoreOption(t, f, start + group[..i], o);
        assert start + group[..i + 1] == (start + group[..i]) + [o];
        if Legal(t, f, o) && (best.None? || Above(RatioOf(f.picks, o), RatioOf(f.picks, best.value))) {
          best := Some(o);
        }
      }
      assert group[..|group|] == group;
      OptionsMore(cs, order[..g], order[g]);
      assert order[..g + 1] == order[..g] + [order[g]];
    }
    assert order[..|order|] == order;
  }

  lemma NoOptions(t: Terms, f: Funding, cs: seq<Candidate>)
    ensures OptionsAt(cs, []) == [] && BestMove(t, f, []).None?
  {}

  lemma OptionsMore(cs: seq<Candidate>, bs: seq<string>, b: string)
    ensures OptionsAt(cs, bs + [b]) == OptionsAt(cs, bs) + Of(cs, b)
  {
    assert (bs + [b])[..|bs|] == bs;
  }

  lemma OneMoreOption(t: Terms, f: Funding, options: seq<Candidate>, o: Candidate)
    ensures var before := BestMove(t, f, options);
            BestMove(t, f, options + [o])
              == if Legal(t, f, o) && (before.None? || Above(RatioOf(f.picks, o), RatioOf(f.picks, before.value)))
                 then Some(o) else before
  {
    assert (options + [o])[..|options|] == options;
  }

  // ------------------------------------------------ what a move does

  lemma {:induction false} BestMoveMeans(t: Terms, f: Funding, options: seq<Candidate>)
    ensures var best := BestMove(t, f, options);
            && (best.Some? ==> best.value in options && Legal(t, f, best.value))
            && (best.None? ==> forall i :: 0 <= i < |options| ==> !Legal(t, f, options[i]))
            && (best.Some? ==> forall i :: 0 <= i < |options| && Legal(t, f, options[i]) ==>
                  !Above(RatioOf(f.picks, options[i]), RatioOf(f.picks, best.value)))
  {
    if options != [] {
      hide Legal, RatioOf;
      BestMoveMeans(t, f, options[..|options| - 1]);
      assert options == options[..|options| - 1] + [options[|options| - 1]];
    }
  }

  lemma {:induction false} OptionsMeans(cs: seq<Candidate>, bs: seq<string>)
    ensures forall c :: c in OptionsAt(cs, bs) <==> c in cs && c.building in bs
  {
    if bs != [] {
      OptionsMeans(cs, bs[..|bs| - 1]);
      OfMeans(cs, bs[|bs| - 1]);
      assert bs == bs[..|bs| - 1] + [bs[|bs| - 1]];
    }
  }

  lemma {:induction false} UpdatedTotals(picks: seq<Candidate>, i: nat, o: Candidate, d: string)
    requires i < |picks| && picks[i].district == o.district
    ensures TotalCost(Exact, picks[i := o]) == TotalCost(Exact, picks) - picks[i].cost + o.cost
    ensures TotalValue(Exact, picks[i := o]) == TotalValue(Exact, picks) - picks[i].value + o.value
    ensures FundedIn(picks[i := o], d) == FundedIn(picks, d)
  {
    var n := |picks| - 1;
    if i < n {
      UpdatedTotals(picks[..n], i, o, d);
      assert picks[i := o][..n] == picks[..n][i := o];
    } else {
      assert picks[i := o][..n] == picks[..n];
    }
  }

  /** A legal swap keeps the books and the three constraints and adds its gain. */
  lemma SwapKeeps(t: Terms, f: Funding, o: Candidate, cs: seq<Candidate>)
    requires Sound(t, f, cs) && OneDistrict(cs) && o in cs && Legal(t, f, o)
    ensures Sound(t, Swap(f, o), cs)
    ensures TotalValue(Exact, Swap(f, o).picks) == TotalValue(Exact, f.picks) + Gain(f.picks, o)
    ensures Gain(f.picks, o) > 0.0
  {
    var at := Current(f.picks, o.building);
    if at.None? {
      assert !Skipped(t, f, o);
      VisitKeeps(t, f, o, cs);
      FundedMore(f.picks, o, o.district);
    } else {
      ReplaceKeeps(t, f, o, cs);
    }
  }

  lemma ReplaceKeeps(t: Terms, f: Funding, o: Candidate, cs: seq<Candidate>)
    requires Sound(t, f, cs) && OneDistrict(cs) && o in cs && Legal(t, f, o) && Current(f.picks, o.building).Some?
    ensures Sound(t, Swap(f, o), cs)
    ensures TotalValue(Exact, Swap(f, o).picks) == TotalValue(Exact, f.picks) + Gain(f.picks, o)
  {
    var i := Current(f.picks, o.building).value;
    var picks := f.picks[i := o];
    assert f.picks[i] in cs;
    assert o.value > 0.0 && f.spent + Extra(f.picks, o) <= t.budget;
    hide OneDistrict, Legal;
    forall d ensures FundedIn(picks, d) == FundedIn(f.picks, d) { UpdatedTotals(f.picks, i, o, d); }
    UpdatedTotals(f.picks, i, o, "");
    assert TotalCost(Exact, picks) <= t.budget;
    if t.cap.Some? {
      forall k | 0 <= k < |picks| ensures FundedIn(picks, picks[k].district) <= t.cap.value {
        assert FundedIn(f.picks, f.picks[k].district) <= t.cap.value;
      }
    }
  }

  // ------------------------------------------------ what a swap is

  /** The picks of the other buildings. */
  function Others(picks: seq<Candidate>, b: string): seq<Candidate> {
    if picks == [] then []
    else
      var last := picks[|picks| - 1];
      Others(picks[..|picks| - 1], b) + if last.building != b then [last] else []
  }

  /** The picks with this option at its building, whatever it held. */
  function With(picks: seq<Candidate>, o: Candidate): seq<Candidate> { Others(picks, o.building) + [o] }

  lemma {:induction false} NoOthers(picks: seq<Candidate>, b: string)
    requires forall p :: p in picks ==> p.building != b
    ensures Others(picks, b) == picks && Current(picks, b).None?
  {
    if picks != [] {
      assert picks == picks[..|picks| - 1] + [picks[|picks| - 1]];
      NoOthers(picks[..|picks| - 1], b);
    }
  }

  lemma OthersLast(picks: seq<Candidate>, b: string)
    requires Apart(picks) && picks != []
    ensures var n := |picks| - 1;
            && Apart(picks[..n]) && (forall p :: p in picks[..n] ==> p.building != picks[n].building)
            && Others(picks, b) == Others(picks[..n], b) + if picks[n].building != b then [picks[n]] else []
  {}

  lemma {:induction false} OthersMembers(picks: seq<Candidate>, b: string)
    requires Apart(picks)
    ensures Apart(Others(picks, b)) && forall p :: p in Others(picks, b) <==> p in picks && p.building != b
  {
    if picks != [] {
      var n := |picks| - 1;
      OthersLast(picks, b);
      OthersMembers(picks[..n], b);
      assert picks == picks[..n] + [picks[n]];
      hide Others;
      ApartMore(Others(picks[..n], b), picks[n]);
      assert Others(picks[..n], b) + [] == Others(picks[..n], b);
    }
  }

  lemma ApartMore(picks: seq<Candidate>, c: Candidate)
    requires Apart(picks) && forall p :: p in picks ==> p.building != c.building
    ensures Apart(picks + [c])
  {}

  lemma {:induction false} OthersTotals(picks: seq<Candidate>, i: nat, d: string)
    requires Apart(picks) && i < |picks|
    ensures var others := Others(picks, picks[i].building);
            && TotalCost(Exact, others) == TotalCost(Exact, picks) - picks[i].cost
            && TotalValue(Exact, others) == TotalValue(Exact, picks) - picks[i].value
            && FundedIn(others, d) == FundedIn(picks, d) - if picks[i].district == d then 1 else 0
  {
    hide *;
    var n, b := |picks| - 1, picks[i].building;
    OthersLast(picks, b);
    assert picks == picks[..n] + [picks[n]];
    FundedMore(picks[..n], picks[n], d);
    if i == n {
      NoOthers(picks[..n], b);
      assert picks[..n] + [] == picks[..n];
    } else {
      assert picks[..n][i] in picks[..n];
      FundedMore(Others(picks[..n], b), picks[n], d);
      OthersTotals(picks[..n], i, d);
    }
  }

  /** With an option at its building, the other picks are as they were, and the totals change by
      what the option costs and is worth more. */
  lemma WithMeans(picks: seq<Candidate>, o: Candidate, d: string)
    requires Apart(picks)
    ensures var (new_, at) := (With(picks, o), Current(picks, o.building));
            && Apart(new_) && (forall p :: p in new_ <==> p == o || (p in picks && p.building != o.building))
            && TotalCost(Exact, new_) == TotalCost(Exact, picks) + Extra(picks, o)
            && TotalValue(Exact, new_) == TotalValue(Exact, picks) + Gain(picks, o)
            && FundedIn(new_, d) == FundedIn(picks, d) + (if o.district == d then 1 else 0)
                                  - (if at.Some? && picks[at.value].district == d then 1 else 0)
  {
    var at, others := Current(picks, o.building), Others(picks, o.building);
    OthersMembers(picks, o.building);
    ApartMore(others, o);
    FundedMore(others, o, d);
    if at.Some? { OthersTotals(picks, at.value, d); } else { NoOthers(picks, o.building); }
    hide Others, Apart, TotalCost, TotalValue, FundedIn, Current;
  }

  /** A swap is that, in some order. */
  lemma SwapIsWith(f: Funding, o: Candidate)
    requires Apart(f.picks)
    ensures forall p :: p in Swap(f, o).picks <==> p in With(f.picks, o)
  {
    WithMeans(f.picks, o, "");
    var at := Current(f.picks, o.building);
    hide With, Current;
    if at.Some? {
      var picks := f.picks[at.value := o];
      forall p ensures p in picks <==> p == o || (p in f.picks && p.building != o.building) {
        if p in f.picks && p.building != o.building {
          var i :| 0 <= i < |f.picks| && f.picks[i] == p;
          assert picks[i] == p;
        }
        assert picks[at.value] == o;
      }
    }
  }

  predicate WithinCap(picks: seq<Candidate>, cap: int) {
    forall i :: 0 <= i < |picks| ==> FundedIn(picks, picks[i].district) <= cap
  }

  lemma WithinCapIff(picks: seq<Candidate>, o: Candidate, cap: int)
    requires Apart(picks) && WithinCap(picks, cap)
    requires Current(picks, o.building).Some? ==> picks[Current(picks, o.building).value].district == o.district
    ensures WithinCap(With(picks, o), cap) <==>
              (Current(picks, o.building).None? ==> FundedIn(picks, o.district) < cap)
  {
    var at, new_ := Current(picks, o.building), With(picks, o);
    WithMeans(picks, o, o.district);
    assert new_[|new_| - 1] == o;
    hide With, Apart, FundedIn, Current;
    forall i | 0 <= i < |new_| && new_[i].district != o.district ensures FundedIn(new_, new_[i].district) <= cap {
      WithMeans(picks, o, new_[i].district);
      assert new_[i] in new_;
      var k :| 0 <= k < |picks| && picks[k] == new_[i];
    }
  }

  /** What may be swapped in, said on the picks alone: with the option at its building they are
      within the budget and the caps, and worth more than before. */
  lemma LegalIff(t: Terms, f: Funding, o: Candidate, cs: seq<Candidate>)
    requires Sound(t, f, cs) && OneDistrict(cs) && o in cs
    ensures Legal(t, f, o) <==>
              && Feasible(Exact, With(f.picks, o), t.budget, t.cap)
              && TotalValue(Exact, With(f.picks, o)) > TotalValue(Exact, f.picks)
  {
    WithMeans(f.picks, o, "");
    assert Get(f.counts, o.district) == FundedIn(f.picks, o.district) && f.spent == TotalCost(Exact, f.picks);
    if t.cap.Some? {
      var at := Current(f.picks, o.building);
      assert at.Some? ==> f.picks[at.value] in cs;
      assert WithinCap(f.picks, t.cap.value);
      WithinCapIff(f.picks, o, t.cap.value);
      assert WithinCap(With(f.picks, o), t.cap.value) <==>
               forall i :: 0 <= i < |With(f.picks, o)| ==>
                 FundedIn(With(f.picks, o), With(f.picks, o)[i].district) <= t.cap.value;
    }
    hide With, OneDistrict, TotalCost, TotalValue, FundedIn, Current, Gain, Extra;
  }

  /** Of two swaps that cost more, the one above gains more for the extra money; one that costs
      no more is above all that do, and none is above it. */
  lemma AboveMeans(picks: seq<Candidate>, a: Candidate, b: Candidate)
    ensures Above(RatioOf(picks, a), RatioOf(picks, b)) <==>
              && Extra(picks, b) > 0.0
              && (Extra(picks, a) > 0.0 ==> Gain(picks, a) * Extra(picks, b) > Gain(picks, b) * Extra(picks, a))
  {
    hide Gain, Extra;
    if Extra(picks, a) > 0.0 && Extra(picks, b) > 0.0 {
      Quotients(Gain(picks, b), Extra(picks, b), Gain(picks, a), Extra(picks, a));
    }
  }

  // ------------------------------------------------ the whole of it

  /** The upgrade never breaks a constraint and never ends with less than it began with. */
  lemma {:induction false} UpgradeKeeps(t: Terms, cs: seq<Candidate>, f: Funding, moves: nat)
    requires Sound(t, f, cs) && OneDistrict(cs)
    ensures Sound(t, Upgraded(t, cs, f, moves), cs)
    ensures TotalValue(Exact, Upgraded(t, cs, f, moves).picks) >= TotalValue(Exact, f.picks)
    decreases moves
  {
    hide Sound, OneDistrict, Legal, Swap, BestMove;
    if moves > 0 {
      var options := OptionsAt(cs, Buildings(cs));
      BestMoveMeans(t, f, options);
      AllOptions(cs);
      var best := BestMove(t, f, options);
      if best.Some? {
        SwapKeeps(t, f, best.value, cs);
        UpgradeKeeps(t, cs, Swap(f, best.value), moves - 1);
      }
    }
  }

  /** How many options are better than what their building holds. */
  function Improvable(cs: seq<Candidate>, picks: seq<Candidate>): nat {
    if cs == [] then 0
    else Improvable(cs[..|cs| - 1], picks) + if Gain(picks, cs[|cs| - 1]) > 0.0 then 1 else 0
  }

  lemma {:induction false} ImprovableBounded(cs: seq<Candidate>, picks: seq<Candidate>)
    ensures Improvable(cs, picks) <= |cs|
  {
    if cs != [] { ImprovableBounded(cs[..|cs| - 1], picks); }
  }

  /** After a swap no building holds less than before, and this one holds the option. */
  lemma SwapRaises(t: Terms, f: Funding, o: Candidate, cs: seq<Candidate>, c: Candidate)
    requires Sound(t, f, cs) && Legal(t, f, o)
    ensures Gain(Swap(f, o).picks, c) <= Gain(f.picks, c)
    ensures Gain(Swap(f, o).picks, o) == 0.0
  {
    BaseAfterSwap(f, o, c.building);
    BaseAfterSwap(f, o, o.building);
  }

  predicate Apart(picks: seq<Candidate>) {
    forall i, j :: 0 <= i < j < |picks| ==> picks[i].building != picks[j].building
  }

  lemma BaseAfterSwap(f: Funding, o: Candidate, b: string)
    requires Apart(f.picks)
    ensures BaseValue(Swap(f, o).picks, b) == if b == o.building then o.value else BaseValue(f.picks, b)
    ensures BaseCost(Swap(f, o).picks, b) == if b == o.building then o.cost else BaseCost(f.picks, b)
    ensures Current(Swap(f, o).picks, b).None? <==> b != o.building && Current(f.picks, b).None?
  {
    var at := Current(f.picks, o.building);
    if at.None? {
      assert (f.picks + [o])[..|f.picks|] == f.picks;
      CurrentLast(f.picks + [o], b);
      hide Current;
    } else {
      CurrentAfter(f.picks, at.value, o, b);
      CurrentAfter(f.picks, at.value, o, o.building);
      hide Current;
    }
  }

  lemma {:induction false} CurrentAfter(picks: seq<Candidate>, i: nat, o: Candidate, b: string)
    requires i < |picks| && picks[i].building == o.building && Apart(picks)
    ensures Current(picks[i := o], b) == Current(picks, b)
    ensures b == o.building ==> Current(picks, b) == Some(i)
  {
    var n := |picks| - 1;
    var changed := picks[i := o];
    assert Apart(picks[..n]) && (i < n ==> picks[n].building != picks[i].building);
    CurrentLast(picks, b);
    CurrentLast(changed, b);
    hide Apart, Current;
    if i < n {
      CurrentAfter(picks[..n], i, o, b);
      assert changed[..n] == picks[..n][i := o];
    } else {
      assert changed[..n] == picks[..n];
    }
  }

  lemma CurrentLast(picks: seq<Candidate>, b: string)
    requires picks != []
    ensures var n := |picks| - 1;
            Current(picks, b) == if picks[n].building == b then Some(n) else Current(picks[..n], b)
  {}

  lemma {:induction false} FewerImprovable(t: Terms, f: Funding, o: Candidate, cs: seq<Candidate>, some: seq<Candidate>)
    requires Sound(t, f, cs) && Legal(t, f, o)
    ensures Improvable(some, Swap(f, o).picks) <= Improvable(some, f.picks)
    ensures o in some ==> Improvable(some, Swap(f, o).picks) < Improvable(some, f.picks)
  {
    if some != [] {
      var n := |some| - 1;
      FewerImprovable(t, f, o, cs, some[..n]);
      SwapRaises(t, f, o, cs, some[n]);
      assert Gain(f.picks, o) > 0.0;
      assert some == some[..n] + [some[n]];
    }
  }

  /** The moves end by themselves, after at most as many as there are options that improve
      on the start, and then no legal swap is left. */
  lemma {:induction false} UpgradeSettles(t: Terms, cs: seq<Candidate>, f: Funding, moves: nat)
    requires Sound(t, f, cs) && OneDistrict(cs) && Improvable(cs, f.picks) <= moves
    ensures var f' := Upgraded(t, cs, f, moves); forall i :: 0 <= i < |cs| ==> !Legal(t, f', cs[i])
    decreases moves
  {
    hide Sound, OneDistrict, Legal, Swap, BestMove, Gain;
    var options := OptionsAt(cs, Buildings(cs));
    BestMoveMeans(t, f, options);
    AllOptions(cs);
    var best := BestMove(t, f, options);
    if best.None? {
      forall i | 0 <= i < |cs| ensures !Legal(t, f, cs[i]) { assert cs[i] in options; }
    } else {
      FewerImprovable(t, f, best.value, cs, cs);
      SwapKeeps(t, f, best.value, cs);
      UpgradeSettles(t, cs, Swap(f, best.value), moves - 1);
    }
  }

  /** Where no more than 10,000 options improve on what greedy funds, the cap on the moves is
      never felt: the result keeps every constraint, is worth at least what greedy achieves,
      and no single swap that gains anything is left. */
  lemma NoSwapLeft(t: Terms, cs: seq<Candidate>)
    requires t.budget >= 0.0 && OneDistrict(cs) && Improvable(cs, Greedy(t, cs).picks) <= 10_000
    ensures var f := Upgraded(t, cs, Greedy(t, cs), MAX_MOVES);
            && Sound(t, f, cs)
            && TotalValue(Exact, f.picks) >= TotalValue(Exact, Greedy(t, cs).picks)
            && forall i :: 0 <= i < |cs| ==> !Legal(t, f, cs[i])
  {
    hide Upgraded, Sound, Legal, Improvable, OneDistrict, Greedy;
    GreedyIsSound(t, cs);
    UpgradeKeeps(t, cs, Greedy(t, cs), MAX_MOVES);
    UpgradeSettles(t, cs, Greedy(t, cs), MAX_MOVES);
  }

  /** Said on the picks alone: no option, put at its building in place of what is there, gives
      something allowed that is worth more. */
  lemma NoBetterNeighbour(t: Terms, cs: seq<Candidate>, o: Candidate)
    requires t.budget >= 0.0 && OneDistrict(cs) && Improvable(cs, Greedy(t, cs).picks) <= 10_000 && o in cs
    ensures var picks := Upgraded(t, cs, Greedy(t, cs), MAX_MOVES).picks;
            Feasible(Exact, With(picks, o), t.budget, t.cap) ==>
              TotalValue(Exact, With(picks, o)) <= TotalValue(Exact, picks)
  {
    hide Upgraded, Greedy, Improvable, OneDistrict, Feasible, With, Legal, Sound, TotalValue;
    NoSwapLeft(t, cs);
    LegalIff(t, Upgraded(t, cs, Greedy(t, cs), MAX_MOVES), o, cs);
    var i :| 0 <= i < |cs| && cs[i] == o;
  }

  /** A portfolio of no more than 10,000 options is such a one. */
  lemma SmallEnough(t: Terms, cs: seq<Candidate>)
    requires |cs| <= 10_000
    ensures Improvable(cs, Greedy(t, cs).picks) <= 10_000
  {
    ImprovableBounded(cs, Greedy(t, cs).picks);
  }

  // ------------------------------------------------ upgrades and pruning

  /** Money per money: a gain no smaller for an extra cost no larger, with the extra cost
      positive, is a ratio no lower. */
  lemma RatioRises(gain: real, extra: real, more: real, less: real)
    requires more >= gain > 0.0 && 0.0 < less <= extra
    ensures more / less >= gain / extra
  {
    Products(more, gain, less, extra);
    Quotients(more, less, gain, extra);
  }

  /** Wherever a swap is legal, a swap to an option that dominates it is legal too and its
      ratio is no lower. */
  lemma DominatorIsNoWorse(t: Terms, f: Funding, a: Candidate, d: Candidate)
    requires ImprovesOne(a, d) && Legal(t, f, d)
    ensures Legal(t, f, a) && !Above(RatioOf(f.picks, d), RatioOf(f.picks, a))
  {
    if Extra(f.picks, a) > 0.0 {
      RatioRises(Gain(f.picks, d), Extra(f.picks, d), Gain(f.picks, a), Extra(f.picks, a));
    }
  }

  /** From any funding, pruning leaves the ratio of the best swap as it was, and a swap is
      found among the kept options exactly when there is one at all. */
  lemma BestRatioSurvives(t: Terms, f: Funding, cs: seq<Candidate>)
    requires NoRepeats(cs) && OneDistrict(cs)
    ensures var full := BestMove(t, f, OptionsAt(cs, Buildings(cs)));
            var kept := BestMove(t, f, OptionsAt(Pruned(cs), Buildings(Pruned(cs))));
            && (full.None? <==> kept.None?)
            && (full.Some? ==> RatioOf(f.picks, full.value) == RatioOf(f.picks, kept.value))
  {
    AllOptions(cs);
    AllOptions(Pruned(cs));
    PrunedMeans(cs);
    var all, some := OptionsAt(cs, Buildings(cs)), OptionsAt(Pruned(cs), Buildings(Pruned(cs)));
    BestMoveMeans(t, f, all);
    BestMoveMeans(t, f, some);
    hide Pruned, OptionsAt, Buildings, NoRepeats, OneDistrict, Legal, RatioOf, BestMove;
    var full, kept := BestMove(t, f, all), BestMove(t, f, some);
    if full.Some? {
      var a := KeptDominator(cs, full.value);
      InDistrict(cs, a, full.value);
      DominatorIsNoWorse(t, f, a, full.value);
      assert a in some;
      assert kept.Some?;
      assert kept.value in all;
    }
  }

  lemma AllOptions(cs: seq<Candidate>)
    ensures forall c :: c in OptionsAt(cs, Buildings(cs)) <==> c in cs
  {
    OptionsMeans(cs, Buildings(cs));
    BuildingsMeans(cs);
  }
}
