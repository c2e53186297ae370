/** Removing the options that another option at the same building dominates. */
module Pruning {
  import opened Sorting

  /** One option for one building; `value` is its worth under the objective in force. */
  datatype Candidate = Candidate(key: string, building: string, district: string, cost: real, value: real)

  /** Cheapest first, and of equally dear ones the most valuable first. */
  predicate CheapestFirst(a: Candidate, b: Candidate) { a.cost < b.cost || (a.cost == b.cost && a.value >= b.value) }

  lemma CheapestFirstSorts(s: seq<Candidate>)
    ensures Ordered(CheapestFirst, Sort(CheapestFirst, s))
  {
    SortOrdered(CheapestFirst, s);
  }

  // ------------------------------------------------ pruning

  function Of(cs: seq<Candidate>, b: string): seq<Candidate> {
    if cs == [] then [] else Of(cs[..|cs| - 1], b) + if cs[|cs| - 1].building == b then [cs[|cs| - 1]] else []
  }

  /** The buildings in the order in which they first appear. */
  function Buildings(cs: seq<Candidate>): seq<string> {
    if cs == [] then []
    else
      var before := Buildings(cs[..|cs| - 1]);
      if cs[|cs| - 1].building in before then before else before + [cs[|cs| - 1].building]
  }

  /** What is kept of one building, going from the cheapest on: each option that is worth
      more than everything kept before it. */
  function Frontier(sorted: seq<Candidate>): seq<Candidate> {
    if sorted == [] then []
    else
      var before := Frontier(sorted[..|sorted| - 1]);
      var last := sorted[|sorted| - 1];
      if before == [] || last.value > before[|before| - 1].value then before + [last] else before
  }

  function KeptOf(cs: seq<Candidate>, b: string): seq<Candidate> { Frontier(Sort(CheapestFirst, Of(cs, b))) }

  function KeptAt(cs: seq<Candidate>, bs: seq<string>): seq<Candidate> {
    if bs == [] then [] else KeptAt(cs, bs[..|bs| - 1]) + KeptOf(cs, bs[|bs| - 1])
  }

  function Pruned(cs: seq<Candidate>): seq<Candidate> { KeptAt(cs, Buildings(cs)) }

  /** The loops of the program; the dictionary is a map and the order of its keys. */
  method Prune(cs: seq<Candidate>) returns (kept: seq<Candidate>)
    ensures kept == Pruned(cs)
  {
    hide Frontier, Sort, Of;
    var groups, order := Group(cs);
    kept := [];
    for g := 0 to |order|
      invariant kept == KeptAt(cs, order[..g])
    {
      assert order[..g + 1][..g] == order[..g];
      assert order[g] in groups;
      var sorted := Sort(CheapestFirst, groups[order[g]]);
      kept := KeepFrontier(kept, sorted);
    }
    assert order[..|order|] == order;
  }

  method Group(cs: seq<Candidate>) returns (groups: map<string, seq<Candidate>>, order: seq<string>)
    ensures order == Buildings(cs) && forall b :: b in order ==> b in groups && groups[b] == Of(cs, b)
  {
    groups, order := map[], [];
    for i := 0 to |cs|
      invariant order == Buildings(cs[..i]) && forall b :: b in groups <==> b in order
      invariant forall b :: b in groups ==> groups[b] == Of(cs[..i], b)
      invariant forall b :: b !in groups ==> Of(cs[..i], b) == []
    {
      assert cs[..i + 1][..i] == cs[..i];
      var c := cs[i];
      if c.building !in groups { order := order + [c.building]; }
      groups := groups[c.building := (if c.building in groups then groups[c.building] else []) + [c]];
    }
    assert cs[..|cs|] == cs;
  }

  method KeepFrontier(start: seq<Candidate>, sorted: seq<Candidate>) returns (kept: seq<Candidate>)
    ensures kept == start + Frontier(sorted)
  {
    kept := start;
    var best: seq<real> := [];
    for i := 0 to |sorted|
      invariant kept == start + Frontier(sorted[..i])
      invariant |best| == if Frontier(sorted[..i]) == [] then 0 else 1
      invariant best != [] ==> best[0] == Frontier(sorted[..i])[|Frontier(sorted[..i])| - 1].value
    {
      assert sorted[..i + 1][..i] == sorted[..i];
      if best == [] || sorted[i].value > best[0] {
        kept := kept + [sorted[i]];
        best := [sorted[i].value];
      }
    }
    assert sorted[..|sorted|] == sorted;
  }

  // ------------------------------------------------ what is kept

  /** `a` is at the same building, costs no more and is worth no less. */
  predicate Dominates(a: Candidate, d: Candidate) {
    a.building == d.building && a.cost <= d.cost && a.value >= d.value
  }

  lemma {:induction false} OfMeans(cs: seq<Candidate>, b: string)
    ensures forall c :: c in Of(cs, b) <==> c in cs && c.building == b
    ensures NoRepeats(cs) ==> NoRepeats(Of(cs, b))
  {
    if cs != [] {
      OfMeans(cs[..|cs| - 1], b);
      assert cs == cs[..|cs| - 1] + [cs[|cs| - 1]];
    }
  }

  lemma {:induction false} OfKeepsBefore(cs: seq<Candidate>, x: Candidate, y: Candidate)
    requires Before(cs, x, y) && x.building == y.building
    ensures Before(Of(cs, x.building), x, y)
  {
    hide Before;
    BeforeCases(cs, x, y);
    var n := |cs| - 1;
    OfMeans(cs[..n], x.building);
    var rest := Of(cs[..n], x.building);
    if Before(cs[..n], x, y) {
      OfKeepsBefore(cs[..n], x, y);
      if cs[n].building == x.building { BeforeInLonger(rest, cs[n], x, y); } else { assert Of(cs, x.building) == rest; }
    } else {
      BeforeLast(rest, x, y);
    }
  }

  lemma {:induction false} BuildingsMeans(cs: seq<Candidate>)
    ensures forall b :: b in Buildings(cs) <==> exists c :: c in cs && c.building == b
    ensures forall i, j :: 0 <= i < j < |Buildings(cs)| ==> Buildings(cs)[i] != Buildings(cs)[j]
  {
    if cs != [] {
      var n := |cs| - 1;
      BuildingsMeans(cs[..n]);
      assert cs == cs[..n] + [cs[n]];
      forall b ensures b in Buildings(cs) <==> exists c :: c in cs && c.building == b {
        if b in Buildings(cs[..n]) { var c :| c in cs[..n] && c.building == b; assert c in cs; }
        if exists c :: c in cs && c.building == b {
          var c :| c in cs && c.building == b;
          if c in cs[..n] { assert b in Buildings(cs[..n]); }
        }
      }
    }
  }

  /** The frontier is strictly dearer and strictly better from one option to the next, and
      every option of the list is the one kept or comes after one that dominates it. */
  lemma {:induction false} FrontierRises(sorted: seq<Candidate>)
    requires Ordered(CheapestFirst, sorted)
    ensures forall c :: c in Frontier(sorted) ==> c in sorted
    ensures forall i, j :: 0 <= i < j < |Frontier(sorted)| ==>
              && Frontier(sorted)[i].cost < Frontier(sorted)[j].cost
              && Frontier(sorted)[i].value < Frontier(sorted)[j].value
  {
    if sorted != [] {
      var n := |sorted| - 1;
      var before := Frontier(sorted[..n]);
      FrontierRises(sorted[..n]);
      if before != [] {
        assert before[|before| - 1] in sorted[..n];
        var i :| 0 <= i < n && sorted[i] == before[|before| - 1];
        assert CheapestFirst(sorted[i], sorted[n]);
      }
    }
  }

  /** Which kept option stands for `sorted[i]`. */
  lemma {:induction false} Dominator(sorted: seq<Candidate>, i: nat) returns (a: Candidate)
    requires Ordered(CheapestFirst, sorted) && i < |sorted|
    ensures a in Frontier(sorted) && a.cost <= sorted[i].cost && a.value >= sorted[i].value
    ensures a == sorted[i] || Before(sorted, a, sorted[i])
  {
    var n := |sorted| - 1;
    var before := Frontier(sorted[..n]);
    if i < n {
      a := Dominator(sorted[..n], i);
      assert sorted == sorted[..n] + [sorted[n]];
      if a != sorted[i] { BeforeInLonger(sorted[..n], sorted[n], a, sorted[i]); }
    } else if before == [] || sorted[n].value > before[|before| - 1].value {
      a := sorted[n];
    } else {
      a := before[|before| - 1];
      FrontierRises(sorted[..n]);
      assert a in sorted[..n];
      var k :| 0 <= k < n && sorted[..n][k] == a;
      assert CheapestFirst(sorted[k], sorted[n]);
      assert sorted[k] == a;
    }
  }

  lemma {:induction false} KeptAtMeans(cs: seq<Candidate>, bs: seq<string>)
    ensures forall c :: c in KeptAt(cs, bs) <==> c.building in bs && c in KeptOf(cs, c.building)
  {
    if bs != [] {
      var n := |bs| - 1;
      KeptAtMeans(cs, bs[..n]);
      assert bs == bs[..n] + [bs[n]];
      KeptOfBuilding(cs, bs[n]);
    }
  }

  lemma KeptOfBuilding(cs: seq<Candidate>, b: string)
    ensures forall c :: c in KeptOf(cs, b) ==> c in cs && c.building == b
  {
    OfMeans(cs, b);
    SortContains(CheapestFirst, Of(cs, b));
    CheapestFirstSorts(Of(cs, b));
    FrontierRises(Sort(CheapestFirst, Of(cs, b)));
  }

  /** Nothing is invented, and an option is kept exactly when it is on its building's
      frontier. */
  lemma PrunedMeans(cs: seq<Candidate>)
    ensures forall c :: c in Pruned(cs) <==> c in cs && c in KeptOf(cs, c.building)
  {
    BuildingsMeans(cs);
    KeptAtMeans(cs, Buildings(cs));
    forall c ensures c in Pruned(cs) <==> c in cs && c in KeptOf(cs, c.building) { KeptOfBuilding(cs, c.building); }
  }

  /** Every option is dominated by one that is kept; when the two are equal in cost and
      value and are not the same option, the kept one came first. */
  lemma KeptDominator(cs: seq<Candidate>, d: Candidate) returns (a: Candidate)
    requires NoRepeats(cs) && d in cs
    ensures a in Pruned(cs) && Dominates(a, d)
    ensures a != d && a.cost == d.cost && a.value == d.value ==> Before(cs, a, d)
  {
    var group := Of(cs, d.building);
    var sorted := Sort(CheapestFirst, group);
    OfMeans(cs, d.building);
    SortContains(CheapestFirst, group);
    CheapestFirstSorts(group);
    PrunedMeans(cs);
    KeptOfBuilding(cs, d.building);
    var i :| 0 <= i < |sorted| && sorted[i] == d;
    hide Of, Sort, Pruned, Ordered;
    a := Dominator(sorted, i);
    assert a in KeptOf(cs, d.building);
    hide KeptOf, Frontier;
    if a != d && a.cost == d.cost && a.value == d.value {
      assert Before(sorted, a, d);
      StableBack(cs, a, d);
    }
  }

  lemma StableBack(cs: seq<Candidate>, a: Candidate, d: Candidate)
    requires NoRepeats(cs) && a in cs && d in cs && a != d && a.building == d.building
    requires a.cost == d.cost && a.value == d.value && Before(Sort(CheapestFirst, Of(cs, d.building)), a, d)
    ensures Before(cs, a, d)
  {
    var group := Of(cs, d.building);
    OfMeans(cs, d.building);
    SortContains(CheapestFirst, group);
    OneWay(cs, a, d);
    OneWay(Sort(CheapestFirst, group), a, d);
    hide Before, NoRepeats, Of, Sort;
    if Before(cs, d, a) {
      OfKeepsBefore(cs, d, a);
      SortIsStable(CheapestFirst, group, d, a);
    }
  }

  /** No kept option dominates another. */
  lemma KeptAreIncomparable(cs: seq<Candidate>, a: Candidate, d: Candidate)
    requires a in Pruned(cs) && d in Pruned(cs) && a != d
    ensures !Dominates(a, d)
  {
    hide Pruned, Of, Frontier, Sort;
    PrunedMeans(cs);
    if a.building == d.building {
      var sorted := Sort(CheapestFirst, Of(cs, a.building));
      CheapestFirstSorts(Of(cs, a.building));
      FrontierIncomparable(sorted, a, d);
    }
  }

  lemma FrontierIncomparable(sorted: seq<Candidate>, a: Candidate, d: Candidate)
    requires Ordered(CheapestFirst, sorted) && a in Frontier(sorted) && d in Frontier(sorted) && a != d
    ensures !(a.cost <= d.cost && a.value >= d.value)
  {
    FrontierRises(sorted);
    hide Frontier, Ordered;
    var i :| 0 <= i < |Frontier(sorted)| && Frontier(sorted)[i] == a;
    var j :| 0 <= j < |Frontier(sorted)| && Frontier(sorted)[j] == d;
  }

  // ------------------------------------------------ in which order

  lemma {:induction false} KeptAtOnce(cs: seq<Candidate>, bs: seq<string>)
    requires NoRepeats(bs)
    ensures NoRepeats(KeptAt(cs, bs))
  {
    if bs != [] {
      var n := |bs| - 1;
      KeptAtOnce(cs, bs[..n]);
      KeptAtMeans(cs, bs[..n]);
      KeptOfBuilding(cs, bs[n]);
      CheapestFirstSorts(Of(cs, bs[n]));
      FrontierRises(Sort(CheapestFirst, Of(cs, bs[n])));
      hide KeptAt, Of, Sort, Frontier;
      SumOnce(KeptAt(cs, bs[..n]), KeptOf(cs, bs[n]));
    }
  }

  lemma PrunedOnce(cs: seq<Candidate>)
    ensures NoRepeats(Pruned(cs))
  {
    BuildingsMeans(cs);
    KeptAtOnce(cs, Buildings(cs));
  }

  lemma {:induction false} KeptInside(cs: seq<Candidate>, bs: seq<string>, b: string, x: Candidate, y: Candidate)
    requires b in bs && Before(KeptOf(cs, b), x, y)
    ensures Before(KeptAt(cs, bs), x, y)
  {
    var n := |bs| - 1;
    assert bs == bs[..n] + [bs[n]];
    hide Before, KeptOf;
    if b in bs[..n] { KeptInside(cs, bs[..n], b, x, y); }
    BeforeInSum(KeptAt(cs, bs[..n]), KeptOf(cs, bs[n]), x, y);
  }

  lemma {:induction false} KeptFollows(cs: seq<Candidate>, bs: seq<string>, a: Candidate, d: Candidate)
    requires Before(bs, a.building, d.building) && a in KeptOf(cs, a.building) && d in KeptOf(cs, d.building)
    ensures Before(KeptAt(cs, bs), a, d)
  {
    var n := |bs| - 1;
    BeforeCases(bs, a.building, d.building);
    hide Before, KeptOf;
    if Before(bs[..n], a.building, d.building) {
      KeptFollows(cs, bs[..n], a, d);
    } else {
      KeptAtMeans(cs, bs[..n]);
    }
    BeforeInSum(KeptAt(cs, bs[..n]), KeptOf(cs, bs[n]), a, d);
  }

  /** The kept options of a building stand in order of their cost. */
  lemma KeptByCost(cs: seq<Candidate>, a: Candidate, d: Candidate)
    requires a in Pruned(cs) && d in Pruned(cs) && a.building == d.building && a.cost < d.cost
    ensures Before(Pruned(cs), a, d)
  {
    var b := a.building;
    PrunedMeans(cs);
    BuildingsMeans(cs);
    CheapestFirstSorts(Of(cs, b));
    FrontierRises(Sort(CheapestFirst, Of(cs, b)));
    RisingIsBefore(KeptOf(cs, b), a, d);
    hide Of, Sort, Frontier, Buildings, KeptOf, KeptAt, Before;
    KeptInside(cs, Buildings(cs), b, a, d);
  }

  lemma RisingIsBefore(s: seq<Candidate>, a: Candidate, d: Candidate)
    requires forall i, j :: 0 <= i < j < |s| ==> s[i].cost < s[j].cost
    requires a in s && d in s && a.cost < d.cost
    ensures Before(s, a, d)
  {
    var i :| 0 <= i < |s| && s[i] == a;
    var j :| 0 <= j < |s| && s[j] == d;
    assert i < j;
  }

  /** The options of a building stand together. */
  predicate Grouped(cs: seq<Candidate>) {
    forall i, j, k :: 0 <= i < j < k < |cs| && cs[i].building == cs[k].building ==> cs[i].building == cs[j].building
  }

  lemma {:induction false} BuildingsFollow(cs: seq<Candidate>, a: Candidate, d: Candidate)
    requires Grouped(cs) && Before(cs, a, d) && a.building != d.building
    ensures Before(Buildings(cs), a.building, d.building)
  {
    var n := |cs| - 1;
    BeforeCases(cs, a, d);
    BuildingsMeans(cs[..n]);
    var before := Buildings(cs[..n]);
    assert Grouped(cs[..n]);
    hide Before, Grouped;
    if Before(cs[..n], a, d) {
      BuildingsFollow(cs[..n], a, d);
    } else if d.building in before {
      var c :| c in cs[..n] && c.building == d.building;
      SameSideOfGroup(cs, a, c);
      BuildingsFollow(cs[..n], a, c);
    } else {
      BeforeLast(before, a.building, d.building);
    }
    if before != Buildings(cs) && Before(before, a.building, d.building) {
      BeforeInLonger(before, cs[n].building, a.building, d.building);
    }
  }

  lemma SameSideOfGroup(cs: seq<Candidate>, a: Candidate, c: Candidate)
    requires Grouped(cs) && cs != [] && a in cs[..|cs| - 1] && c in cs[..|cs| - 1]
    requires c.building == cs[|cs| - 1].building != a.building
    ensures Before(cs[..|cs| - 1], a, c)
  {
    var n := |cs| - 1;
    var i :| 0 <= i < n && cs[..n][i] == a;
    var j :| 0 <= j < n && cs[..n][j] == c;
    assert cs[i] == a && cs[j] == c;
    assert i < j;
  }

  /** In a grouped list pruning never reverses two options of different buildings. */
  lemma GroupsKeepOrder(cs: seq<Candidate>, a: Candidate, d: Candidate)
    requires Grouped(cs) && a in Pruned(cs) && d in Pruned(cs) && a.building != d.building && Before(cs, a, d)
    ensures Before(Pruned(cs), a, d)
  {
    PrunedMeans(cs);
    BuildingsFollow(cs, a, d);
    KeptFollows(cs, Buildings(cs), a, d);
  }
}
