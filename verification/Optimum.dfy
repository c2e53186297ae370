/** The allocation problem the exact solver is given, and what pruning keeps of it. */
module Optimum {
  import opened Pruning
  import opened Rounding
  import opened Sorting
  import opened Wrappers

  /** The exact solver counts in whole units, the others do not. */
  datatype Precision = Exact | Whole

  function Weight(p: Precision, r: real): real { if p.Exact? then r else RoundHalfEven(r) as real }

  function TotalCost(p: Precision, picks: seq<Candidate>): real {
    if picks == [] then 0.0 else TotalCost(p, picks[..|picks| - 1]) + Weight(p, picks[|picks| - 1].cost)
  }

  function TotalValue(p: Precision, picks: seq<Candidate>): real {
    if picks == [] then 0.0 else TotalValue(p, picks[..|picks| - 1]) + Weight(p, picks[|picks| - 1].value)
  }

  function FundedIn(picks: seq<Candidate>, district: string): nat {
    if picks == [] then 0
    else FundedIn(picks[..|picks| - 1], district) + if picks[|picks| - 1].district == district then 1 else 0
  }

  /** The three constraints: the budget, one option per building, the cap of each district. */
  ghost predicate Feasible(p: Precision, picks: seq<Candidate>, budget: real, cap: Option<int>) {
    && TotalCost(p, picks) <= Weight(p, budget)
    && (forall i, j :: 0 <= i < j < |picks| ==> picks[i].building != picks[j].building)
    && (cap.Some? ==> forall i :: 0 <= i < |picks| ==> FundedIn(picks, picks[i].district) <= cap.value)
  }

  predicate Among(picks: seq<Candidate>, cs: seq<Candidate>) { forall i :: 0 <= i < |picks| ==> picks[i] in cs }

  /** A building lies in one district. */
  predicate OneDistrict(cs: seq<Candidate>) {
    forall a, b :: a in cs && b in cs && a.building == b.building ==> a.district == b.district
  }

  /** Pick for pick, the second list dominates the first. */
  predicate Improves(better: seq<Candidate>, picks: seq<Candidate>) {
    |better| == |picks| && forall i :: 0 <= i < |picks| ==> ImprovesOne(better[i], picks[i])
  }

  predicate ImprovesOne(a: Candidate, d: Candidate) { Dominates(a, d) && a.district == d.district }

  lemma {:induction false} Rewrite(cs: seq<Candidate>, picks: seq<Candidate>) returns (better: seq<Candidate>)
    requires NoRepeats(cs) && OneDistrict(cs) && Among(picks, cs)
    ensures Among(better, Pruned(cs)) && Improves(better, picks)
  {
    hide Pruned, NoRepeats, OneDistrict, Before, Dominates, ImprovesOne;
    if picks == [] { return []; }
    var n := |picks| - 1;
    assert Among(picks[..n], cs) && picks[n] in cs;
    assert picks == picks[..n] + [picks[n]];
    hide Improves, Among;
    var before := Rewrite(cs, picks[..n]);
    var a := KeptDominator(cs, picks[n]);
    InDistrict(cs, a, picks[n]);
    OneMoreImproved(before, picks[..n], a, picks[n], Pruned(cs));
    better := before + [a];
  }

  lemma OneMoreImproved(better: seq<Candidate>, picks: seq<Candidate>, a: Candidate, d: Candidate, kept: seq<Candidate>)
    requires Improves(better, picks) && ImprovesOne(a, d) && Among(better, kept) && a in kept
    ensures Improves(better + [a], picks + [d]) && Among(better + [a], kept)
  {}

  lemma InDistrict(cs: seq<Candidate>, a: Candidate, d: Candidate)
    requires OneDistrict(cs) && a in Pruned(cs) && d in cs && Dominates(a, d)
    ensures ImprovesOne(a, d)
  {
    PrunedMeans(cs);
  }

  lemma {:induction false} ImprovedTotals(p: Precision, better: seq<Candidate>, picks: seq<Candidate>, district: string)
    requires Improves(better, picks)
    ensures TotalCost(p, better) <= TotalCost(p, picks) && TotalValue(p, better) >= TotalValue(p, picks)
    ensures FundedIn(better, district) == FundedIn(picks, district)
  {
    if picks != [] {
      var n := |picks| - 1;
      assert ImprovesOne(better[n], picks[n]);
      ImprovedTotals(p, better[..n], picks[..n], district);
      RoundMonotone(better[n].cost, picks[n].cost);
      RoundMonotone(picks[n].value, better[n].value);
      hide RoundHalfEven;
    }
  }

  /** Pruning keeps the optimum: whatever can be chosen among all the options, something
      that costs no more and is worth no less can be chosen among the kept ones under the
      same constraints, in exact arithmetic and in whole units alike. */
  lemma OptimumSurvives(p: Precision, cs: seq<Candidate>, picks: seq<Candidate>, budget: real, cap: Option<int>)
    returns (better: seq<Candidate>)
    requires NoRepeats(cs) && OneDistrict(cs)
    requires Among(picks, cs) && Feasible(p, picks, budget, cap)
    ensures Among(better, Pruned(cs)) && Among(better, cs) && Feasible(p, better, budget, cap)
    ensures TotalValue(p, better) >= TotalValue(p, picks) && TotalCost(p, better) <= TotalCost(p, picks)
    ensures |better| == |picks| && forall i :: 0 <= i < |picks| ==> better[i].building == picks[i].building
  {
    better := Rewrite(cs, picks);
    PrunedMeans(cs);
    ImprovedTotals(p, better, picks, "");
    assert forall i :: 0 <= i < |picks| ==> ImprovesOne(better[i], picks[i]);
    if cap.Some? {
      forall i | 0 <= i < |better| ensures FundedIn(better, better[i].district) <= cap.value {
        ImprovedTotals(p, better, picks, better[i].district);
        assert FundedIn(picks, picks[i].district) <= cap.value;
      }
    }
  }

  // ------------------------------------------------ whole units

  lemma {:induction false} WholeIsNear(picks: seq<Candidate>)
    ensures var half := |picks| as real / 2.0;
            && -half <= TotalCost(Whole, picks) - TotalCost(Exact, picks) <= half
            && -half <= TotalValue(Whole, picks) - TotalValue(Exact, picks) <= half
  {
    if picks != [] {
      var n := |picks| - 1;
      WholeIsNear(picks[..n]);
      RoundMeans(picks[n].cost);
      RoundMeans(picks[n].value);
      hide RoundHalfEven;
      assert |picks| as real == n as real + 1.0;
    }
  }

  /** The exact solver may overspend, by half a unit for each option and for the budget, but by
      no more: counted exactly, what it may choose costs at most that much above the budget. */
  lemma OverspendIsSmall(picks: seq<Candidate>, budget: real, cap: Option<int>)
    requires Feasible(Whole, picks, budget, cap)
    ensures TotalCost(Exact, picks) <= budget + (|picks| + 1) as real / 2.0
  {
    WholeIsNear(picks);
    RoundMeans(budget);
    hide RoundHalfEven, TotalCost;
  }

  /** And it does: one option of 1.4 units fits a budget of 1. */
  lemma OverspendHappens(b: string, d: string)
    ensures var c := Candidate("x", b, d, 1.4, 1.0);
            Feasible(Whole, [c], 1.0, None) && TotalCost(Exact, [c]) > 1.0
  {
    var c := Candidate("x", b, d, 1.4, 1.0);
    assert [c][..0] == [];
  }
}
