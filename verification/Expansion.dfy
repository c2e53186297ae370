/** How the options of a portfolio are made: every compatible combination of interventions
    becomes one option of its building, provided it saves something and has a price. */
module Expansion {
  import opened Baselines
  import opened Optimum
  import opened Pruning
  import opened Sorting

  datatype Intervention = Intervention(id: string, exclusive: string)

  datatype Building = Building(id: string, district: string)

  type Combo = seq<Intervention>

  /** Where an intervention applies, and what a combination saves, costs and is worth. */
  datatype Rules = Rules(applies: (Intervention, Building) -> bool, saving: (Building, Combo) -> real,
                         cost: (Building, Combo) -> real, worth: (Building, Combo) -> real)

  /** The groups named by the members; no name means no group. */
  function GroupsOf(combo: Combo): seq<string> {
    if combo == [] then []
    else
      var last := combo[|combo| - 1].exclusive;
      GroupsOf(combo[..|combo| - 1]) + if last != "" then [last] else []
  }

  predicate Compatible(combo: Combo) { NoRepeats(GroupsOf(combo)) }

  function Joined(combo: Combo): string {
    if combo == [] then "" else if |combo| == 1 then combo[0].id else combo[0].id + "+" + Joined(combo[1..])
  }

  function Led(x: Intervention, combos: seq<Combo>): (r: seq<Combo>)
    ensures |r| == |combos| && forall i :: 0 <= i < |r| ==> r[i] == [x] + combos[i]
  {
    seq(|combos|, i requires 0 <= i < |combos| => [x] + combos[i])
  }

  /** The combinations of `size` members, in the order of the catalogue. */
  function Combos(list: seq<Intervention>, size: nat): seq<Combo>
    decreases |list|
  {
    if size == 0 then [[]]
    else if list == [] then []
    else Led(list[0], Combos(list[1..], size - 1)) + Combos(list[1..], size)
  }

  predicate Offered(r: Rules, b: Building, combo: Combo) {
    Compatible(combo) && r.saving(b, combo) > 0.0 && r.cost(b, combo) > 0.0
  }

  function Priced(r: Rules, b: Building, combo: Combo): Candidate {
    Candidate(b.id + "|" + Joined(combo), b.id, b.district, r.cost(b, combo), r.worth(b, combo))
  }

  function Options(r: Rules, b: Building, combos: seq<Combo>): seq<Candidate> {
    if combos == [] then []
    else
      var last := combos[|combos| - 1];
      Options(r, b, combos[..|combos| - 1]) + if Offered(r, b, last) then [Priced(r, b, last)] else []
  }

  /** All combinations of at least one and at most `size` members. */
  function UpTo(list: seq<Intervention>, size: nat): seq<Combo> {
    if size == 0 then [] else UpTo(list, size - 1) + Combos(list, size)
  }

  function Applicable(r: Rules, b: Building, catalog: seq<Intervention>): seq<Intervention> {
    if catalog == [] then []
    else
      var last := catalog[|catalog| - 1];
      Applicable(r, b, catalog[..|catalog| - 1]) + if r.applies(last, b) then [last] else []
  }

  function CombosAt(r: Rules, b: Building, catalog: seq<Intervention>, limit: nat): seq<Combo> {
    var list := Applicable(r, b, catalog);
    UpTo(list, if limit < |list| then limit else |list|)
  }

  function BuildingOptions(r: Rules, b: Building, catalog: seq<Intervention>, limit: nat): seq<Candidate> {
    Options(r, b, CombosAt(r, b, catalog, limit))
  }

  function Portfolio(r: Rules, bs: seq<Building>, catalog: seq<Intervention>, limit: nat): seq<Candidate> {
    if bs == [] then []
    else Portfolio(r, bs[..|bs| - 1], catalog, limit) + BuildingOptions(r, bs[|bs| - 1], catalog, limit)
  }

  /** The loops of the program, with each reason for leaving a combination out. */
  method ExpandBuilding(r: Rules, b: Building, catalog: seq<Intervention>, limit: nat) returns (made: seq<Candidate>)
    ensures made == BuildingOptions(r, b, catalog, limit)
  {
    hide Combos, Compatible;
    var list := Applicable(r, b, catalog);
    var sizes := if limit < |list| then limit else |list|;
    made := [];
    assert UpTo(list, 0) == [];
    for size := 1 to sizes + 1
      invariant made == Options(r, b, UpTo(list, size - 1))
    {
      var combos := Combos(list, size);
      ghost var before := UpTo(list, size - 1);
      assert before + [] == before;
      for i := 0 to |combos|
        invariant made == Options(r, b, before + combos[..i])
      {
        assert (before + combos[..i + 1])[..|before| + i] == before + combos[..i];
        var combo := combos[i];
        if !Compatible(combo) { continue; }
        if r.saving(b, combo) <= 0.0 { continue; }
        if r.cost(b, combo) <= 0.0 { continue; }
        made := made + [Priced(r, b, combo)];
      }
      assert combos[..|combos|] == combos;
    }
  }

  method ExpandPortfolio(r: Rules, bs: seq<Building>, catalog: seq<Intervention>, limit: nat)
    returns (made: seq<Candidate>)
    ensures made == Portfolio(r, bs, catalog, limit)
  {
    made := [];
    for i := 0 to |bs|
      invariant made == Portfolio(r, bs[..i], catalog, limit)
    {
      assert bs[..i + 1][..i] == bs[..i];
      var more := ExpandBuilding(r, bs[i], catalog, limit);
      made := made + more;
    }
    assert bs[..|bs|] == bs;
  }

  // ------------------------------------------------ every combination once

  /** Some of the list's elements, in its order. */
  predicate PartOf(combo: Combo, list: seq<Intervention>)
    decreases |list|
  {
    || combo == []
    || (list != [] && combo[0] == list[0] && PartOf(combo[1..], list[1..]))
    || (list != [] && PartOf(combo, list[1..]))
  }

  lemma PartOfCases(combo: Combo, list: seq<Intervention>)
    requires combo != [] && list != []
    ensures PartOf(combo, list) <==> (combo[0] == list[0] && PartOf(combo[1..], list[1..])) || PartOf(combo, list[1..])
  {}

  lemma {:induction false} PartIsFrom(combo: Combo, list: seq<Intervention>)
    requires PartOf(combo, list)
    ensures forall x :: x in combo ==> x in list
    decreases |list|
  {
    if combo != [] {
      if combo[0] == list[0] && PartOf(combo[1..], list[1..]) {
        PartIsFrom(combo[1..], list[1..]);
        assert combo == [combo[0]] + combo[1..];
      } else {
        PartIsFrom(combo, list[1..]);
      }
    }
  }

  lemma {:induction false} CombosMean(list: seq<Intervention>, size: nat, combo: Combo)
    ensures combo in Combos(list, size) <==> |combo| == size && PartOf(combo, list)
    decreases |list|
  {
    hide *;
    CombosStep(list, size, combo);
    if size > 0 && list != [] {
      CombosMean(list[1..], size, combo);
      if combo != [] {
        CombosMean(list[1..], size - 1, combo[1..]);
        LedMeans(list[0], Combos(list[1..], size - 1), combo);
        PartOfCases(combo, list);
      } else {
        LedAreLed(list[0], Combos(list[1..], size - 1));
      }
    }
  }

  lemma CombosStep(list: seq<Intervention>, size: nat, combo: Combo)
    ensures size == 0 || list == [] ==> (combo in Combos(list, size) <==> |combo| == size && PartOf(combo, list))
    ensures size > 0 && list != [] ==>
              (combo in Combos(list, size) <==>
                 combo in Led(list[0], Combos(list[1..], size - 1)) || combo in Combos(list[1..], size))
  {}

  lemma LedAreLed(x: Intervention, combos: seq<Combo>)
    ensures [] !in Led(x, combos)
  {}

  lemma LedMeans(x: Intervention, combos: seq<Combo>, combo: Combo)
    requires combo != []
    ensures combo in Led(x, combos) <==> combo[0] == x && combo[1..] in combos
  {
    if combo[0] == x && combo[1..] in combos {
      var i :| 0 <= i < |combos| && combos[i] == combo[1..];
      assert Led(x, combos)[i] == combo;
    }
  }

  lemma {:induction false} CombosOnce(list: seq<Intervention>, size: nat)
    requires NoRepeats(list)
    ensures NoRepeats(Combos(list, size))
    decreases |list|
  {
    if size > 0 && list != [] {
      CombosOnce(list[1..], size - 1);
      CombosOnce(list[1..], size);
      LedOnce(list[0], Combos(list[1..], size - 1));
      LedApart(list, size, Combos(list[1..], size - 1));
      hide NoRepeats;
      SumOnce(Led(list[0], Combos(list[1..], size - 1)), Combos(list[1..], size));
    }
  }

  lemma LedApart(list: seq<Intervention>, size: nat, combos: seq<Combo>)
    requires list != [] && NoRepeats(list)
    ensures forall c :: c in Led(list[0], combos) ==> c !in Combos(list[1..], size)
  {
    assert list[0] !in list[1..];
    hide NoRepeats, Combos;
    forall c | c in Led(list[0], combos) ensures c !in Combos(list[1..], size) {
      assert list[0] in c;
      CombosMean(list[1..], size, c);
      if PartOf(c, list[1..]) { PartIsFrom(c, list[1..]); }
    }
  }

  lemma LedOnce(x: Intervention, combos: seq<Combo>)
    requires NoRepeats(combos)
    ensures NoRepeats(Led(x, combos))
  {
    var led := Led(x, combos);
    forall i, j | 0 <= i < j < |led| ensures led[i] != led[j] {
      assert led[i][1..] == combos[i] && led[j][1..] == combos[j];
    }
  }

  lemma {:induction false} UpToHas(list: seq<Intervention>, size: nat, combo: Combo)
    ensures combo in UpTo(list, size) <==> 1 <= |combo| <= size && PartOf(combo, list)
  {
    hide *;
    OneSizeMore(list, size);
    if size > 0 {
      UpToHas(list, size - 1, combo);
      CombosMean(list, size, combo);
    }
  }

  lemma {:induction false} UpToOnce(list: seq<Intervention>, size: nat)
    requires NoRepeats(list)
    ensures NoRepeats(UpTo(list, size))
  {
    hide *;
    OneSizeMore(list, size);
    if size > 0 {
      UpToOnce(list, size - 1);
      CombosOnce(list, size);
      forall combo | combo in UpTo(list, size - 1) ensures combo !in Combos(list, size) {
        UpToHas(list, size - 1, combo);
        CombosMean(list, size, combo);
      }
      SumOnce(UpTo(list, size - 1), Combos(list, size));
    }
  }

  /** Every combination of one to `size` members is there, once. */
  lemma {:induction false} UpToMeans(list: seq<Intervention>, size: nat)
    requires NoRepeats(list)
    ensures forall combo :: combo in UpTo(list, size) <==> 1 <= |combo| <= size && PartOf(combo, list)
    ensures NoRepeats(UpTo(list, size))
  {
    hide *;
    UpToOnce(list, size);
    forall combo ensures combo in UpTo(list, size) <==> 1 <= |combo| <= size && PartOf(combo, list) {
      UpToHas(list, size, combo);
    }
  }

  lemma OneSizeMore(list: seq<Intervention>, size: nat)
    ensures UpTo(list, size) == if size == 0 then [] else UpTo(list, size - 1) + Combos(list, size)
    ensures size == 0 ==> NoRepeats(UpTo(list, size))
  {}

  // ------------------------------------------------ what is offered

  /** No two members are of one group; no name means no group. */
  lemma {:induction false} CompatibleIff(combo: Combo)
    ensures Compatible(combo) <==>
              forall i, j :: 0 <= i < j < |combo| && combo[i].exclusive != "" ==>
                combo[i].exclusive != combo[j].exclusive
    ensures forall g :: g in GroupsOf(combo) <==> g != "" && exists i :: 0 <= i < |combo| && combo[i].exclusive == g
  {
    if combo != [] {
      var n := |combo| - 1;
      CompatibleIff(combo[..n]);
      var before, last := GroupsOf(combo[..n]), combo[n].exclusive;
      assert forall i :: 0 <= i < n ==> combo[..n][i] == combo[i];
      if last != "" { OnceMore(before, last); } else { assert before + [] == before; }
    }
  }

  lemma OnceMore(s: seq<string>, g: string)
    ensures NoRepeats(s + [g]) <==> NoRepeats(s) && g !in s
  {
    assert (s + [g])[|s|] == g && forall i :: 0 <= i < |s| ==> (s + [g])[i] == s[i];
  }

  lemma {:induction false} ApplicableFirst(r: Rules, b: Building, catalog: seq<Intervention>)
    requires catalog != []
    ensures Applicable(r, b, catalog)
         == (if r.applies(catalog[0], b) then [catalog[0]] else []) + Applicable(r, b, catalog[1..])
  {
    var n := |catalog| - 1;
    ApplicableLast(r, b, catalog);
    if n > 0 {
      ApplicableFirst(r, b, catalog[..n]);
      ApplicableLast(r, b, catalog[1..]);
      assert catalog[..n][1..] == catalog[1..][..n - 1];
      hide Applicable;
    }
  }

  lemma ApplicableLast(r: Rules, b: Building, catalog: seq<Intervention>)
    requires catalog != []
    ensures var n := |catalog| - 1;
            Applicable(r, b, catalog)
              == Applicable(r, b, catalog[..n]) + if r.applies(catalog[n], b) then [catalog[n]] else []
  {}

  /** The parts of what applies are the parts of the catalogue of which every member does. */
  lemma {:induction false} PartOfApplicable(r: Rules, b: Building, catalog: seq<Intervention>, combo: Combo)
    ensures PartOf(combo, Applicable(r, b, catalog)) <==>
              PartOf(combo, catalog) && forall x :: x in combo ==> r.applies(x, b)
    decreases |catalog|
  {
    if catalog != [] && combo != [] {
      ApplicableFirst(r, b, catalog);
      PartOfApplicable(r, b, catalog[1..], combo);
      PartOfApplicable(r, b, catalog[1..], combo[1..]);
      assert combo == [combo[0]] + combo[1..];
      hide Applicable, PartOf;
      PartOfCases(combo, catalog);
      var rest := Applicable(r, b, catalog[1..]);
      if r.applies(catalog[0], b) {
        PartOfCases(combo, [catalog[0]] + rest);
        assert ([catalog[0]] + rest)[1..] == rest;
      } else {
        assert combo[0] in combo && [] + rest == rest;
      }
    }
  }

  // ------------------------------------------------ different keys

  /** Interventions are told apart by their ids, and no id contains the separator. */
  predicate DistinctIds(catalog: seq<Intervention>) {
    && (forall i, j :: 0 <= i < j < |catalog| ==> catalog[i].id != catalog[j].id)
    && (forall i :: 0 <= i < |catalog| ==> '+' !in catalog[i].id)
  }

  lemma FirstWord(x: string, p: string, y: string, q: string)
    requires '+' !in x && '+' !in y && x + p == y + q
    requires p == [] || p[0] == '+'
    requires q == [] || q[0] == '+'
    ensures x == y && p == q
  {
    var s := x + p;
    assert |x| < |s| ==> s[|x|] == '+';
    assert |y| < |s| ==> s[|y|] == '+';
    assert forall i :: 0 <= i < |x| ==> s[i] == x[i];
    assert forall i :: 0 <= i < |y| ==> s[i] == y[i];
    assert |x| == |y|;
    assert x == s[..|x|] && y == s[..|x|] && p == s[|x|..] && q == s[|x|..];
  }

  lemma JoinedParts(x: Combo)
    requires x != []
    ensures Joined(x) == x[0].id + if |x| == 1 then [] else "+" + Joined(x[1..])
  {}

  lemma {:induction false} JoinedApart(catalog: seq<Intervention>, x: Combo, y: Combo)
    requires DistinctIds(catalog) && (forall m :: m in x || m in y ==> m in catalog)
    requires x != [] && y != [] && Joined(x) == Joined(y)
    ensures x == y
  {
    JoinedParts(x);
    JoinedParts(y);
    var p := if |x| == 1 then [] else "+" + Joined(x[1..]);
    var q := if |y| == 1 then [] else "+" + Joined(y[1..]);
    assert x[0] in x && y[0] in y;
    hide Joined;
    FirstWord(x[0].id, p, y[0].id, q);
    SameId(catalog, x[0], y[0]);
    assert |x| == 1 <==> |y| == 1;
    if |x| > 1 {
      assert p[1..] == Joined(x[1..]) && q[1..] == Joined(y[1..]);
      JoinedApart(catalog, x[1..], y[1..]);
    }
    assert x == [x[0]] + x[1..] && y == [y[0]] + y[1..];
  }

  lemma SameId(catalog: seq<Intervention>, a: Intervention, b: Intervention)
    requires DistinctIds(catalog) && a in catalog && b in catalog && a.id == b.id
    ensures a == b
  {}

  lemma KeysDiffer(r: Rules, b: Building, catalog: seq<Intervention>, x: Combo, y: Combo)
    requires DistinctIds(catalog) && (forall m :: m in x || m in y ==> m in catalog)
    requires x != [] && y != [] && x != y
    ensures Priced(r, b, x) != Priced(r, b, y)
  {
    if Priced(r, b, x).key == Priced(r, b, y).key {
      var lead := b.id + "|";
      assert (lead + Joined(x))[|lead|..] == Joined(x) && (lead + Joined(y))[|lead|..] == Joined(y);
      JoinedApart(catalog, x, y);
    }
  }

  /** Combinations of the catalogue's interventions. */
  predicate FromCatalog(catalog: seq<Intervention>, combos: seq<Combo>) {
    forall i :: 0 <= i < |combos| ==> combos[i] != [] && forall m :: m in combos[i] ==> m in catalog
  }

  lemma {:induction false} OptionsMean(r: Rules, b: Building, combos: seq<Combo>)
    ensures forall c :: c in Options(r, b, combos) <==>
              exists i :: 0 <= i < |combos| && Offered(r, b, combos[i]) && c == Priced(r, b, combos[i])
  {
    hide Offered, Priced;
    if combos != [] {
      var n := |combos| - 1;
      OptionsMean(r, b, combos[..n]);
      forall c ensures c in Options(r, b, combos) <==>
                 exists i :: 0 <= i < |combos| && Offered(r, b, combos[i]) && c == Priced(r, b, combos[i]) {
        if c in Options(r, b, combos[..n]) {
          var i :| 0 <= i < n && Offered(r, b, combos[..n][i]) && c == Priced(r, b, combos[..n][i]);
          assert combos[i] == combos[..n][i];
        }
        if i :| 0 <= i < n && Offered(r, b, combos[i]) && c == Priced(r, b, combos[i]) {
          assert combos[i] == combos[..n][i];
        }
      }
    }
  }

  lemma {:induction false} OptionsOnce(r: Rules, b: Building, catalog: seq<Intervention>, combos: seq<Combo>)
    requires DistinctIds(catalog) && FromCatalog(catalog, combos) && NoRepeats(combos)
    ensures NoRepeats(Options(r, b, combos))
  {
    hide Offered, Priced, DistinctIds;
    if combos != [] {
      var n := |combos| - 1;
      OptionsOnce(r, b, catalog, combos[..n]);
      OptionsMean(r, b, combos[..n]);
      forall c | c in Options(r, b, combos[..n]) ensures c != Priced(r, b, combos[n]) {
        var i :| 0 <= i < n && Offered(r, b, combos[..n][i]) && c == Priced(r, b, combos[..n][i]);
        KeysDiffer(r, b, catalog, combos[i], combos[n]);
      }
      assert Options(r, b, combos)
          == Options(r, b, combos[..n]) + if Offered(r, b, combos[n]) then [Priced(r, b, combos[n])] else [];
      hide Options;
      SumOnce(Options(r, b, combos[..n]), [Priced(r, b, combos[n])]);
      assert Options(r, b, combos[..n]) + [] == Options(r, b, combos[..n]);
    }
  }

  // ------------------------------------------------ what the heuristics are given

  /** The options of one building differ, have a price, and are those the combinations make. */
  lemma BuildingOptionsMean(r: Rules, b: Building, catalog: seq<Intervention>, limit: nat)
    requires DistinctIds(catalog)
    ensures var made := BuildingOptions(r, b, catalog, limit);
            && NoRepeats(made)
            && (forall c :: c in made ==> c.building == b.id && c.district == b.district && c.cost > 0.0)
  {
    var list, combos := Applicable(r, b, catalog), CombosAt(r, b, catalog, limit);
    ApplicableOnce(r, b, catalog);
    hide Applicable, UpTo, PartOf;
    UpToMeans(list, if limit < |list| then limit else |list|);
    forall i | 0 <= i < |combos| ensures combos[i] != [] && forall m :: m in combos[i] ==> m in catalog {
      assert combos[i] in combos;
      PartIsFrom(combos[i], list);
    }
    hide NoRepeats, CombosAt;
    OptionsOnce(r, b, catalog, combos);
    OptionsMean(r, b, combos);
  }

  lemma {:induction false} ApplicableOnce(r: Rules, b: Building, catalog: seq<Intervention>)
    requires DistinctIds(catalog)
    ensures NoRepeats(Applicable(r, b, catalog))
    ensures forall x :: x in Applicable(r, b, catalog) <==> x in catalog && r.applies(x, b)
  {
    if catalog != [] {
      ApplicableOnce(r, b, catalog[..|catalog| - 1]);
      assert catalog == catalog[..|catalog| - 1] + [catalog[|catalog| - 1]];
    }
  }

  /** The option that a combination of the catalogue's interventions makes at a building. */
  predicate Makes(r: Rules, b: Building, catalog: seq<Intervention>, limit: nat, combo: Combo, c: Candidate) {
    && 1 <= |combo| <= limit && PartOf(combo, catalog) && (forall x :: x in combo ==> r.applies(x, b))
    && (forall i, j :: 0 <= i < j < |combo| && combo[i].exclusive != "" ==> combo[i].exclusive != combo[j].exclusive)
    && r.saving(b, combo) > 0.0 && r.cost(b, combo) > 0.0
    && c.building == b.id && c.district == b.district && c.cost == r.cost(b, combo) && c.value == r.worth(b, combo)
    && c.key == b.id + "|" + Joined(combo)
  }

  lemma {:induction false} PartIsShort(combo: Combo, list: seq<Intervention>)
    requires PartOf(combo, list)
    ensures |combo| <= |list|
    decreases |list|
  {
    if combo != [] {
      if PartOf(combo, list[1..]) { PartIsShort(combo, list[1..]); } else { PartIsShort(combo[1..], list[1..]); }
    }
  }

  lemma MakesIff(r: Rules, b: Building, catalog: seq<Intervention>, limit: nat, combo: Combo, c: Candidate)
    requires DistinctIds(catalog)
    ensures combo in CombosAt(r, b, catalog, limit) && Offered(r, b, combo) && c == Priced(r, b, combo) <==>
              Makes(r, b, catalog, limit, combo, c)
  {
    var list := Applicable(r, b, catalog);
    ApplicableOnce(r, b, catalog);
    UpToMeans(list, if limit < |list| then limit else |list|);
    PartOfApplicable(r, b, catalog, combo);
    CompatibleIff(combo);
    if PartOf(combo, list) { PartIsShort(combo, list); }
    hide PartOf, UpTo, Applicable, Joined, Compatible, GroupsOf, NoRepeats, DistinctIds;
  }

  lemma MadeIff(r: Rules, b: Building, catalog: seq<Intervention>, limit: nat, c: Candidate)
    requires DistinctIds(catalog)
    ensures c in BuildingOptions(r, b, catalog, limit) <==> exists combo :: Makes(r, b, catalog, limit, combo, c)
  {
    var combos := CombosAt(r, b, catalog, limit);
    OptionsMean(r, b, combos);
    hide CombosAt, Offered, Priced, Makes, Options;
    if c in BuildingOptions(r, b, catalog, limit) {
      var i :| 0 <= i < |combos| && Offered(r, b, combos[i]) && c == Priced(r, b, combos[i]);
      MakesIff(r, b, catalog, limit, combos[i], c);
    }
    if combo :| Makes(r, b, catalog, limit, combo, c) {
      MakesIff(r, b, catalog, limit, combo, c);
      var i :| 0 <= i < |combos| && combos[i] == combo;
    }
  }

  /** The portfolio, from the catalogue alone: exactly the options that a combination makes
      whose members all apply to the building, with no two of one group, within the limit on
      their number, provided it saves something and has a price. */
  lemma {:induction false} PortfolioOffers(r: Rules, bs: seq<Building>, catalog: seq<Intervention>, limit: nat,
                                           c: Candidate)
    requires DistinctIds(catalog)
    ensures c in Portfolio(r, bs, catalog, limit) <==> MadeAt(r, bs, catalog, limit, c)
  {
    if bs != [] {
      hide *;
      var n := |bs| - 1;
      PortfolioOffers(r, bs[..n], catalog, limit, c);
      MadeIff(r, bs[n], catalog, limit, c);
      MadeAtMore(r, bs, catalog, limit, c);
      PortfolioMore(r, bs, catalog, limit);
    }
  }

  lemma PortfolioMore(r: Rules, bs: seq<Building>, catalog: seq<Intervention>, limit: nat)
    requires bs != []
    ensures var n := |bs| - 1;
            Portfolio(r, bs, catalog, limit)
              == Portfolio(r, bs[..n], catalog, limit) + BuildingOptions(r, bs[n], catalog, limit)
  {}

  ghost predicate MadeAt(r: Rules, bs: seq<Building>, catalog: seq<Intervention>, limit: nat, c: Candidate) {
    exists i, combo :: 0 <= i < |bs| && Makes(r, bs[i], catalog, limit, combo, c)
  }

  lemma MadeAtMore(r: Rules, bs: seq<Building>, catalog: seq<Intervention>, limit: nat, c: Candidate)
    requires bs != []
    ensures var n := |bs| - 1;
            MadeAt(r, bs, catalog, limit, c) <==>
              MadeAt(r, bs[..n], catalog, limit, c) || exists combo :: Makes(r, bs[n], catalog, limit, combo, c)
  {
    hide Makes;
    var n := |bs| - 1;
    assert forall i :: 0 <= i < n ==> bs[..n][i] == bs[i];
  }

  predicate DistinctBuildings(bs: seq<Building>) { forall i, j :: 0 <= i < j < |bs| ==> bs[i].id != bs[j].id }

  /** Every option of a portfolio is different and belongs to one of its buildings, those of
      a building stand together and lie in its district, and nothing is free. */
  lemma {:induction false} PortfolioMeans(r: Rules, bs: seq<Building>, catalog: seq<Intervention>, limit: nat)
    requires DistinctIds(catalog) && DistinctBuildings(bs)
    ensures var cs := Portfolio(r, bs, catalog, limit);
            && NoRepeats(cs) && OneDistrict(cs) && NothingFree(cs) && Grouped(cs)
            && forall c :: c in cs ==>
                 exists i :: 0 <= i < |bs| && bs[i].id == c.building && bs[i].district == c.district
  {
    if bs != [] {
      var n := |bs| - 1;
      var before, more := Portfolio(r, bs[..n], catalog, limit), BuildingOptions(r, bs[n], catalog, limit);
      PortfolioMeans(r, bs[..n], catalog, limit);
      BuildingOptionsMean(r, bs[n], catalog, limit);
      forall c | c in before ensures c.building != bs[n].id && c !in more {
        var i :| 0 <= i < n && bs[..n][i].id == c.building && bs[..n][i].district == c.district;
        assert bs[..n][i] == bs[i];
      }
      AddBuilding(before, more, bs[n]);
      forall c | c in before + more
        ensures exists i :: 0 <= i < |bs| && bs[i].id == c.building && bs[i].district == c.district
      {
        if c in before {
          var i :| 0 <= i < n && bs[..n][i].id == c.building && bs[..n][i].district == c.district;
          assert bs[..n][i] == bs[i];
        } else {
          assert c in more;
        }
      }
    }
  }

  lemma AddBuilding(before: seq<Candidate>, more: seq<Candidate>, b: Building)
    requires NoRepeats(before) && OneDistrict(before) && NothingFree(before) && Grouped(before) && NoRepeats(more)
    requires forall c :: c in more ==> c.building == b.id && c.district == b.district && c.cost > 0.0
    requires forall c :: c in before ==> c.building != b.id && c !in more
    ensures NoRepeats(before + more) && OneDistrict(before + more) && NothingFree(before + more)
    ensures Grouped(before + more)
  {
    SumOnce(before, more);
    hide NoRepeats;
    var cs := before + more;
    forall i | 0 <= i < |cs| ensures (i < |before| && cs[i] == before[i]) || cs[i] in more {
      if i >= |before| { assert cs[i] == more[i - |before|]; }
    }
    forall i, j, k | 0 <= i < j < k < |cs| && cs[i].building == cs[k].building
      ensures cs[i].building == cs[j].building
    {
      if k < |before| { assert cs[i] == before[i] && cs[j] == before[j]; } else { assert cs[k] in more; }
    }
  }

  /** So for every portfolio the program makes, greedy after pruning funds what it funds
      without, under any budget and cap, exactly when no option it funds has a cheaper one as
      dense at its building. */
  lemma PortfolioUnchangedIff(t: Terms, r: Rules, bs: seq<Building>, catalog: seq<Intervention>, limit: nat)
    requires DistinctIds(catalog) && DistinctBuildings(bs)
    ensures var cs := Portfolio(r, bs, catalog, limit);
            Greedy(t, Pruned(cs)) == Greedy(t, cs) <==> CheapestOfTies(cs, Greedy(t, cs).picks)
  {
    hide Greedy, Pruned, Portfolio, NoRepeats, OneDistrict, NothingFree, Grouped, CheapestOfTies, DistinctIds;
    PortfolioMeans(r, bs, catalog, limit);
    GroupedInOrder(Portfolio(r, bs, catalog, limit));
    GreedyUnchangedIff(t, Portfolio(r, bs, catalog, limit));
  }

  /** Such a portfolio exists: two interventions of a building in the order of the catalogue,
      the first dearer than the second and as dense. */
  lemma PortfolioCanTie(t: Terms, r: Rules, b: Building, x: Intervention, y: Intervention)
    requires r.applies(x, b) && r.applies(y, b) && Offered(r, b, [x]) && Offered(r, b, [y])
    requires t.cap.None? && r.cost(b, [y]) < r.cost(b, [x]) <= t.budget
    requires 0.0 < r.worth(b, [y]) < r.worth(b, [x])
    requires Density(Priced(r, b, [x])) == Density(Priced(r, b, [y]))
    ensures var cs := Portfolio(r, [b], [x, y], 1);
            Greedy(t, cs).picks == [Priced(r, b, [x])] && Greedy(t, Pruned(cs)).picks == [Priced(r, b, [y])]
  {
    var large, small := Priced(r, b, [x]), Priced(r, b, [y]);
    TwoApplicable(r, b, x, y);
    TwoCombos(x, y);
    TwoOptions(r, b, [x], [y]);
    hide Applicable, UpTo, Options;
    assert BuildingOptions(r, b, [x, y], 1) == [large, small];
    assert [b][..0] == [] && Portfolio(r, [], [x, y], 1) == [];
    assert Portfolio(r, [b], [x, y], 1) == [] + [large, small] == [large, small];
    hide Portfolio, Density, Greedy, Pruned;
    TieChangesGreedy(t, large, small);
  }

  lemma TwoApplicable(r: Rules, b: Building, x: Intervention, y: Intervention)
    requires r.applies(x, b) && r.applies(y, b)
    ensures Applicable(r, b, [x, y]) == [x, y]
  {
    assert [x, y][..1] == [x] && [x][..0] == [];
    assert Applicable(r, b, [x]) == [x];
  }

  lemma TwoCombos(x: Intervention, y: Intervention)
    ensures UpTo([x, y], 1) == [[x], [y]]
  {
    assert [x, y][1..] == [y] && [y][1..] == [];
    assert Combos([y], 0) == [[]] && Combos([], 0) == [[]];
    assert Led(y, [[]])[0] == [y] + [] == [y] && Led(x, [[]])[0] == [x] + [] == [x];
    assert Led(y, [[]]) == [[y]] && Led(x, [[]]) == [[x]];
    assert Combos([], 1) == [];
    assert Combos([y], 1) == Led(y, [[]]) + Combos([], 1);
    assert Combos([x, y], 1) == Led(x, [[]]) + Combos([y], 1);
    assert UpTo([x, y], 0) == [];
  }

  lemma TwoOptions(r: Rules, b: Building, p: Combo, q: Combo)
    requires Offered(r, b, p) && Offered(r, b, q)
    ensures Options(r, b, [p, q]) == [Priced(r, b, p), Priced(r, b, q)]
  {
    assert [p, q][..1] == [p] && [p][..0] == [];
    assert Options(r, b, [p]) == [Priced(r, b, p)];
  }
}
