/** Why the upgrades end alike on all the options and on those that pruning keeps.

    The two can take different swaps: where several options of a building are equally good
    swaps, the one listed first is taken, and pruning lists the cheapest first. All of them
    lie on one line, so the shorter swap is followed by the others until the dearest. */
module SwapOrder {
  import opened Baselines
  import opened Expansion
  import opened Optimum
  import opened Pruning
  import opened Sets
  import opened Sorting
  import opened Upgrades
  import opened Wrappers

  // ------------------------------------------------ no swap is free

  /** Whatever is better than what its building holds costs more. */
  ghost predicate Steep(cs: seq<Candidate>, f: Funding) {
    forall u :: u in cs && Gain(f.picks, u) > 0.0 ==> Extra(f.picks, u) > 0.0
  }

  lemma CurrentIsPick(picks: seq<Candidate>, b: string)
    ensures var at := Current(picks, b); at.Some? ==> picks[at.value] in picks
  {}

  /** It is so after first fit. */
  lemma GreedySteep(t: Terms, cs: seq<Candidate>)
    requires NoRepeats(cs) && OneDistrict(cs) && NothingFree(cs)
    ensures Steep(cs, Greedy(t, cs))
  {
    var f := Greedy(t, cs);
    PicksAreListed(t, Sort(DensestFirst, cs));
    SortContains(DensestFirst, cs);
    hide FirstFit, Sort, NoRepeats, Density;
    forall u | u in cs && Gain(f.picks, u) > 0.0 ensures Extra(f.picks, u) > 0.0 {
      var at := Current(f.picks, u.building);
      if at.Some? {
        var h := f.picks[at.value];
        CurrentIsPick(f.picks, u.building);
        if u.cost <= h.cost { CheaperIsNotBetter(t, cs, u, h); }
      }
    }
  }

  lemma CheaperIsNotBetter(t: Terms, cs: seq<Candidate>, u: Candidate, h: Candidate)
    requires NoRepeats(cs) && OneDistrict(cs) && NothingFree(cs)
    requires h in Greedy(t, cs).picks && h in cs && h.value > 0.0
    requires u in cs && u.building == h.building && u.cost <= h.cost
    ensures u.value <= h.value
  {
    if u.value > h.value {
      assert u.cost > 0.0 && u.district == h.district;
      PricedDominatorIsDenser(u, h);
      hide Density, NoRepeats;
      NotAfterABlocker(t, cs, u, h);
      assert false;
    }
  }

  /** No legal swap has a higher ratio. */
  ghost predicate Best(t: Terms, f: Funding, cs: seq<Candidate>, o: Candidate) {
    o in cs && Legal(t, f, o) &&
    forall u :: u in cs && Legal(t, f, u) ==> !Above(RatioOf(f.picks, u), RatioOf(f.picks, o))
  }

  /** A smaller extra cost for a larger gain is a higher ratio. */
  lemma HigherRatio(gain: real, extra: real, more: real, less: real)
    requires more > gain > 0.0 && 0.0 < less <= extra
    ensures more / less > gain / extra
  {
    Products(more, gain, less, extra);
    Quotients(more, less, gain, extra);
  }

  lemma CheaperIsAbove(t: Terms, f: Funding, cs: seq<Candidate>, o: Candidate, u: Candidate)
    requires Steep(cs, f) && OneDistrict(cs) && o in cs && u in cs && u.building == o.building
    requires Legal(t, f, o) && u.value > o.value && u.cost <= o.cost
    ensures Legal(t, f, u) && Above(RatioOf(f.picks, u), RatioOf(f.picks, o))
  {
    assert Gain(f.picks, u) > Gain(f.picks, o) && Extra(f.picks, u) <= Extra(f.picks, o);
    assert Legal(t, f, u);
    HigherRatio(Gain(f.picks, o), Extra(f.picks, o), Gain(f.picks, u), Extra(f.picks, u));
  }

  /** And it stays so after every best swap. */
  lemma SteepStays(t: Terms, f: Funding, cs: seq<Candidate>, o: Candidate)
    requires Sound(t, f, cs) && OneDistrict(cs) && Steep(cs, f) && Best(t, f, cs, o)
    ensures Steep(cs, Swap(f, o))
  {
    var f' := Swap(f, o);
    assert Apart(f.picks);
    forall u | u in cs && Gain(f'.picks, u) > 0.0 ensures Extra(f'.picks, u) > 0.0 {
      BaseAfterSwap(f, o, u.building);
      hide Swap, Legal, Sound, BaseValue, BaseCost, OneDistrict;
      if u.building == o.building && u.cost <= o.cost { CheaperIsAbove(t, f, cs, o, u); }
    }
  }

  // ------------------------------------------------ one swap after another

  /** A swap at another building was legal before, with the same ratio. */
  lemma LegalBefore(t: Terms, f: Funding, o: Candidate, u: Candidate)
    requires Apart(f.picks) && Extra(f.picks, o) > 0.0 && u.building != o.building && Legal(t, Swap(f, o), u)
    ensures Legal(t, f, u) && RatioOf(Swap(f, o).picks, u) == RatioOf(f.picks, u)
  {
    BaseAfterSwap(f, o, u.building);
    hide BaseValue, BaseCost, Current;
  }

  /** Two swaps at one building are the second alone. */
  lemma SwapTwice(f: Funding, o: Candidate, e: Candidate)
    requires Apart(f.picks) && o.building == e.building && o.district == e.district
    ensures Swap(Swap(f, o), e) == Swap(f, e)
  {
    var at := Current(f.picks, o.building);
    if at.None? {
      var picks := f.picks + [o];
      assert picks[|f.picks| := e] == f.picks + [e];
      CurrentLast(picks, e.building);
      hide Current;
      assert f.counts[o.district := Get(f.counts, o.district) + 1] == Fund(f, e).counts;
    } else {
      CurrentAfter(f.picks, at.value, o, o.building);
      hide Current;
      assert f.picks[at.value := o][at.value := e] == f.picks[at.value := e];
    }
  }

  /** On a line through the held option the rest of the way has the same slope; a point not
      above the line is not above it from there. */
  lemma RestOfTheWay(gain: real, extra: real, more: real, further: real)
    requires 0.0 < extra < further
    ensures (more - gain) / (further - extra) <= gain / extra <==> more / further <= gain / extra
    ensures (more - gain) / (further - extra) == gain / extra <==> more / further == gain / extra
  {
    Quotients(gain, extra, more - gain, further - extra);
    Quotients(gain, extra, more, further);
    Distribute(gain, extra, more, further);
  }

  lemma Distribute(gain: real, extra: real, more: real, further: real)
    ensures gain * (further - extra) == gain * further - gain * extra
    ensures (more - gain) * extra == more * extra - gain * extra
  {}

  // ------------------------------------------------ the swaps that may be taken

  /** `e` is a best swap, and no equally good one is at a building listed before its own. */
  ghost predicate Choice(t: Terms, f: Funding, cs: seq<Candidate>, bs: seq<string>, e: Candidate) {
    Best(t, f, cs, e) &&
    forall u :: u in cs && Legal(t, f, u) && RatioOf(f.picks, u) == RatioOf(f.picks, e) ==>
                  u.building == e.building || Before(bs, e.building, u.building)
  }

  lemma ChoicesAgree(t: Terms, f: Funding, cs: seq<Candidate>, bs: seq<string>, o: Candidate, e: Candidate)
    requires Steep(cs, f) && NoRepeats(bs) && o.building in bs && e.building in bs
    requires Choice(t, f, cs, bs, o) && Choice(t, f, cs, bs, e)
    ensures o.building == e.building && RatioOf(f.picks, o) == RatioOf(f.picks, e)
  {
    if o.building != e.building { OneWay(bs, o.building, e.building); }
  }

  /** After the cheaper of two choices at a building the dearer one is still a choice. */
  lemma StillChoice(t: Terms, f: Funding, cs: seq<Candidate>, bs: seq<string>, o: Candidate, e: Candidate)
    requires Sound(t, f, cs) && OneDistrict(cs) && Steep(cs, f)
    requires Choice(t, f, cs, bs, o) && Choice(t, f, cs, bs, e)
    requires o.building == e.building && o.cost < e.cost && RatioOf(f.picks, o) == RatioOf(f.picks, e)
    ensures Choice(t, Swap(f, o), cs, bs, e)
  {
    var f' := Swap(f, o);
    SteepStays(t, f, cs, o);
    FurtherIsLegal(t, f, cs, o, e);
    hide Steep, Swap, Sound, OneDistrict;
    forall u | u in cs && Legal(t, f', u)
      ensures !Above(RatioOf(f'.picks, u), RatioOf(f'.picks, e))
      ensures RatioOf(f'.picks, u) == RatioOf(f'.picks, e) ==>
                u.building == e.building || Before(bs, e.building, u.building)
    {
      AfterTheCheaper(t, f, cs, o, u);
    }
  }

  /** The dearer choice is legal and as good as it was. */
  lemma FurtherIsLegal(t: Terms, f: Funding, cs: seq<Candidate>, o: Candidate, e: Candidate)
    requires Sound(t, f, cs) && Steep(cs, f) && Best(t, f, cs, o) && Best(t, f, cs, e)
    requires o.building == e.building && o.cost < e.cost && RatioOf(f.picks, o) == RatioOf(f.picks, e)
    ensures Legal(t, Swap(f, o), e) && RatioOf(Swap(f, o).picks, e) == RatioOf(f.picks, e)
  {
    assert Apart(f.picks);
    BaseAfterSwap(f, o, e.building);
    var gain, extra, more, further := Gain(f.picks, o), Extra(f.picks, o), Gain(f.picks, e), Extra(f.picks, e);
    var f' := Swap(f, o);
    assert Gain(f'.picks, e) == more - gain && Extra(f'.picks, e) == further - extra;
    assert f'.spent == f.spent + extra && Current(f'.picks, e.building).Some?;
    assert more / further == gain / extra;
    hide Swap, BaseValue, BaseCost, Current, Sound, Gain, Extra;
    SameSlopeFurther(gain, extra, more, further);
  }

  lemma SameSlopeFurther(gain: real, extra: real, more: real, further: real)
    requires gain > 0.0 && 0.0 < extra < further && more / further == gain / extra
    ensures more > gain && (more - gain) / (further - extra) == gain / extra
  {
    RestOfTheWay(gain, extra, more, further);
    Quotients(gain, extra, more, further);
    Scale(extra, further, gain);
    Scale(gain, more, extra);
  }

  lemma AfterTheCheaper(t: Terms, f: Funding, cs: seq<Candidate>, o: Candidate, u: Candidate)
    requires Sound(t, f, cs) && OneDistrict(cs) && Steep(cs, f) && Best(t, f, cs, o)
    requires u in cs && Legal(t, Swap(f, o), u)
    ensures !Above(RatioOf(Swap(f, o).picks, u), RatioOf(f.picks, o))
    ensures u.building != o.building ==> Legal(t, f, u) && RatioOf(Swap(f, o).picks, u) == RatioOf(f.picks, u)
  {
    assert Apart(f.picks);
    if u.building != o.building {
      LegalBefore(t, f, o, u);
    } else {
      SteepStays(t, f, cs, o);
      LegalFromTheStart(t, f, cs, o, u);
      hide Sound, OneDistrict, Swap, Current;
      NotAboveTheLine(t, f, cs, o, u);
    }
  }

  lemma NotAboveTheLine(t: Terms, f: Funding, cs: seq<Candidate>, o: Candidate, u: Candidate)
    requires Apart(f.picks) && Steep(cs, f) && Steep(cs, Swap(f, o)) && Best(t, f, cs, o)
    requires u in cs && u.building == o.building && Legal(t, f, u) && Legal(t, Swap(f, o), u)
    ensures !Above(RatioOf(Swap(f, o).picks, u), RatioOf(f.picks, o))
  {
    BaseAfterSwap(f, o, u.building);
    hide Swap;
    var gain, extra, more, further := Gain(f.picks, o), Extra(f.picks, o), Gain(f.picks, u), Extra(f.picks, u);
    assert !Above(RatioOf(f.picks, u), RatioOf(f.picks, o));
    hide BaseValue, BaseCost, Current;
    RestOfTheWay(gain, extra, more, further);
  }

  lemma LegalFromTheStart(t: Terms, f: Funding, cs: seq<Candidate>, o: Candidate, u: Candidate)
    requires Apart(f.picks) && OneDistrict(cs) && o in cs && u in cs && u.building == o.building
    requires Legal(t, f, o) && Legal(t, Swap(f, o), u)
    ensures Legal(t, f, u)
  {
    BaseAfterSwap(f, o, u.building);
    hide BaseValue, BaseCost;
  }

  // ------------------------------------------------ the order of the lists

  lemma {:induction false} BestIsFirst(t: Terms, f: Funding, options: seq<Candidate>) returns (i: nat)
    requires BestMove(t, f, options).Some?
    ensures i < |options| && options[i] == BestMove(t, f, options).value
    ensures forall j :: 0 <= j < i && Legal(t, f, options[j]) ==>
              RatioOf(f.picks, options[j]) != RatioOf(f.picks, options[i])
  {
    hide Legal, RatioOf;
    var n := |options| - 1;
    var before := BestMove(t, f, options[..n]);
    if before == BestMove(t, f, options) {
      i := BestIsFirst(t, f, options[..n]);
    } else {
      i := n;
      BestMoveMeans(t, f, options[..n]);
      assert forall j :: 0 <= j < n ==> options[..n][j] == options[j];
    }
  }

  lemma {:induction false} OptionsOnce(cs: seq<Candidate>, bs: seq<string>)
    requires NoRepeats(cs) && NoRepeats(bs)
    ensures NoRepeats(OptionsAt(cs, bs))
  {
    if bs != [] {
      var n := |bs| - 1;
      OptionsOnce(cs, bs[..n]);
      OptionsMeans(cs, bs[..n]);
      OfMeans(cs, bs[n]);
      assert bs[n] !in bs[..n];
      hide Of, NoRepeats;
      SumOnce(OptionsAt(cs, bs[..n]), Of(cs, bs[n]));
    }
  }

  lemma {:induction false} OptionsInside(cs: seq<Candidate>, bs: seq<string>, b: string, x: Candidate, y: Candidate)
    requires b in bs && Before(Of(cs, b), x, y)
    ensures Before(OptionsAt(cs, bs), x, y)
  {
    var n := |bs| - 1;
    assert bs == bs[..n] + [bs[n]];
    hide Before, Of;
    if b in bs[..n] { OptionsInside(cs, bs[..n], b, x, y); }
    BeforeInSum(OptionsAt(cs, bs[..n]), Of(cs, bs[n]), x, y);
  }

  lemma {:induction false} OptionsFollow(cs: seq<Candidate>, bs: seq<string>, a: Candidate, d: Candidate)
    requires Before(bs, a.building, d.building) && a in cs && d in cs
    ensures Before(OptionsAt(cs, bs), a, d)
  {
    var n := |bs| - 1;
    BeforeCases(bs, a.building, d.building);
    OfMeans(cs, bs[n]);
    hide Before, Of;
    if Before(bs[..n], a.building, d.building) {
      OptionsFollow(cs, bs[..n], a, d);
    } else {
      OptionsMeans(cs, bs[..n]);
    }
    BeforeInSum(OptionsAt(cs, bs[..n]), Of(cs, bs[n]), a, d);
  }

  lemma {:induction false} BuildingsOfSum(x: seq<Candidate>, y: seq<Candidate>, b: string)
    requires y != [] && b !in Buildings(x) && forall c :: c in y ==> c.building == b
    ensures Buildings(x + y) == Buildings(x) + [b]
  {
    var n := |y| - 1;
    assert y[n] in y && (x + y)[..|x| + n] == x + y[..n];
    if n > 0 { BuildingsOfSum(x, y[..n], b); } else { assert x + y[..n] == x; }
  }

  /** Some option of every building is kept. */
  lemma SomeKept(cs: seq<Candidate>, b: string)
    requires NoRepeats(cs) && b in Buildings(cs)
    ensures KeptOf(cs, b) != [] && forall c :: c in KeptOf(cs, b) ==> c.building == b
  {
    BuildingsMeans(cs);
    var c :| c in cs && c.building == b;
    var a := KeptDominator(cs, c);
    PrunedMeans(cs);
    KeptOfBuilding(cs, b);
    assert a in KeptOf(cs, b);
  }

  lemma {:induction false} BuildingsOfKept(cs: seq<Candidate>, bs: seq<string>)
    requires NoRepeats(cs) && NoRepeats(bs) && forall b :: b in bs ==> b in Buildings(cs)
    ensures Buildings(KeptAt(cs, bs)) == bs
  {
    if bs != [] {
      var n := |bs| - 1;
      assert bs[n] in bs && bs[n] !in bs[..n] && bs == bs[..n] + [bs[n]];
      SomeKept(cs, bs[n]);
      hide NoRepeats, KeptOf;
      BuildingsOfKept(cs, bs[..n]);
      BuildingsOfSum(KeptAt(cs, bs[..n]), KeptOf(cs, bs[n]), bs[n]);
    } else {
      assert KeptAt(cs, bs) == [];
    }
  }

  /** Pruning keeps the order of the buildings. */
  lemma SameBuildings(cs: seq<Candidate>)
    requires NoRepeats(cs)
    ensures Buildings(Pruned(cs)) == Buildings(cs) && NoRepeats(Buildings(cs))
  {
    BuildingsMeans(cs);
    hide Buildings;
    BuildingsOfKept(cs, Buildings(cs));
  }

  /** What comes first in a list is at a building that comes first. */
  lemma FirstBuilding(cs: seq<Candidate>, bs: seq<string>, e: Candidate, u: Candidate)
    requires NoRepeats(cs) && NoRepeats(bs) && e in cs && u in cs && e.building in bs && u.building in bs
    requires e.building != u.building && Before(OptionsAt(cs, bs), e, u)
    ensures Before(bs, e.building, u.building)
  {
    OptionsOnce(cs, bs);
    OptionsMeans(cs, bs);
    OneWay(bs, e.building, u.building);
    OneWay(OptionsAt(cs, bs), e, u);
    hide Before, NoRepeats, OptionsAt;
    if Before(bs, u.building, e.building) { OptionsFollow(cs, bs, u, e); }
  }

  /** Nothing as good stands before the best swap of a list. */
  lemma NothingBefore(t: Terms, f: Funding, cs: seq<Candidate>, bs: seq<string>, u: Candidate)
    requires NoRepeats(cs) && NoRepeats(bs) && BestMove(t, f, OptionsAt(cs, bs)).Some?
    requires var e := BestMove(t, f, OptionsAt(cs, bs)).value;
             Legal(t, f, u) && RatioOf(f.picks, u) == RatioOf(f.picks, e)
    ensures !Before(OptionsAt(cs, bs), u, BestMove(t, f, OptionsAt(cs, bs)).value)
  {
    OptionsOnce(cs, bs);
    hide Legal, RatioOf, OptionsAt;
    var i := BestIsFirst(t, f, OptionsAt(cs, bs));
  }

  /** The best swap of a list that holds the kept options is a choice among them, once it is
      one of them. */
  lemma BestIsChoice(t: Terms, f: Funding, cs: seq<Candidate>, some: seq<Candidate>)
    requires NoRepeats(some) && BestMove(t, f, OptionsAt(some, Buildings(some))).Some?
    requires (forall u :: u in cs ==> u in some) && BestMove(t, f, OptionsAt(some, Buildings(some))).value in cs
    ensures Choice(t, f, cs, Buildings(some), BestMove(t, f, OptionsAt(some, Buildings(some))).value)
  {
    var bs := Buildings(some);
    var list := OptionsAt(some, bs);
    var e := BestMove(t, f, list).value;
    AllOptions(some);
    BuildingsMeans(some);
    OptionsOnce(some, bs);
    BestMoveMeans(t, f, list);
    hide Legal, RatioOf, Above, Before, NoRepeats, OptionsAt, Buildings, BestMove;
    forall u | u in cs && Legal(t, f, u) ensures !Above(RatioOf(f.picks, u), RatioOf(f.picks, e)) { assert u in list; }
    forall u | u in cs && Legal(t, f, u) && RatioOf(f.picks, u) == RatioOf(f.picks, e)
      ensures u.building == e.building || Before(bs, e.building, u.building)
    {
      if u.building != e.building {
        NothingBefore(t, f, some, bs, u);
        OneWay(list, u, e);
        FirstBuilding(some, bs, e, u);
      }
    }
  }

  // ------------------------------------------------ both runs take choices among the kept

  /** The best swap among all options is a kept one. */
  lemma BestIsKept(t: Terms, f: Funding, cs: seq<Candidate>)
    requires NoRepeats(cs) && OneDistrict(cs) && Steep(cs, f)
    requires BestMove(t, f, OptionsAt(cs, Buildings(cs))).Some?
    ensures BestMove(t, f, OptionsAt(cs, Buildings(cs))).value in Pruned(cs)
  {
    var bs := Buildings(cs);
    var list := OptionsAt(cs, bs);
    var d := BestMove(t, f, list).value;
    AllOptions(cs);
    BestMoveMeans(t, f, list);
    BuildingsMeans(cs);
    var a := KeptDominator(cs, d);
    InDistrict(cs, a, d);
    PrunedMeans(cs);
    DominatorIsNoWorse(t, f, a, d);
    if a != d {
      assert a in list;
      hide Pruned, OptionsAt, Buildings, NoRepeats, BestMove, Before, Legal;
      EqualRatioAlike(cs, f, a, d);
      OfKeepsBefore(cs, a, d);
      OptionsInside(cs, bs, d.building, a, d);
      NothingBefore(t, f, cs, bs, a);
    }
  }

  lemma EqualRatioAlike(cs: seq<Candidate>, f: Funding, a: Candidate, d: Candidate)
    requires Steep(cs, f) && a in cs && d in cs && Dominates(a, d) && Gain(f.picks, d) > 0.0
    requires !Above(RatioOf(f.picks, a), RatioOf(f.picks, d)) && !Above(RatioOf(f.picks, d), RatioOf(f.picks, a))
    ensures a.cost == d.cost && a.value == d.value && RatioOf(f.picks, a) == RatioOf(f.picks, d)
  {
    var more, less, gain, extra := Gain(f.picks, a), Extra(f.picks, a), Gain(f.picks, d), Extra(f.picks, d);
    assert more >= gain && less <= extra && less > 0.0;
    Products(more, gain, less, extra);
    Quotients(more, less, gain, extra);
  }

  /** The result once no legal swap is left. */
  function Settled(t: Terms, cs: seq<Candidate>, f: Funding): Funding {
    Upgraded(t, cs, f, Improvable(cs, f.picks))
  }

  lemma {:induction false} EnoughMoves(t: Terms, cs: seq<Candidate>, all: seq<Candidate>, f: Funding, moves: nat)
    requires Sound(t, f, all) && OneDistrict(all) && (forall c :: c in cs ==> c in all)
    requires Improvable(cs, f.picks) <= moves
    ensures Upgraded(t, cs, f, moves) == Settled(t, cs, f)
    decreases moves
  {
    hide Sound, OneDistrict, Legal, Swap, BestMove, Upgraded;
    var options := OptionsAt(cs, Buildings(cs));
    var few := Improvable(cs, f.picks);
    AllOptions(cs);
    BestMoveMeans(t, f, options);
    OneMove(t, cs, f, moves);
    OneMove(t, cs, f, few);
    var best := BestMove(t, f, options);
    if best.Some? {
      SwapKeeps(t, f, best.value, all);
      FewerImprovable(t, f, best.value, all, cs);
      EnoughMoves(t, cs, all, Swap(f, best.value), moves - 1);
      if few < moves { EnoughMoves(t, cs, all, Swap(f, best.value), few - 1); }
    }
  }

  lemma SettledStep(t: Terms, cs: seq<Candidate>, all: seq<Candidate>, f: Funding)
    requires Sound(t, f, all) && OneDistrict(all) && (forall c :: c in cs ==> c in all)
    ensures var best := BestMove(t, f, OptionsAt(cs, Buildings(cs)));
            && Settled(t, cs, f) == (if best.None? then f else Settled(t, cs, Swap(f, best.value)))
            && (best.Some? ==> Sound(t, Swap(f, best.value), all) && best.value in cs && Legal(t, f, best.value))
  {
    hide Sound, OneDistrict, Legal, Swap, BestMove, Upgraded, Improvable, Gain, RatioOf;
    var best := BestMove(t, f, OptionsAt(cs, Buildings(cs)));
    AllOptions(cs);
    BestMoveMeans(t, f, OptionsAt(cs, Buildings(cs)));
    hide OptionsAt, Buildings;
    OneMove(t, cs, f, Improvable(cs, f.picks));
    if best.Some? {
      SwapKeeps(t, f, best.value, all);
      FewerImprovable(t, f, best.value, all, cs);
      EnoughMoves(t, cs, all, Swap(f, best.value), Improvable(cs, f.picks) - 1);
    }
  }

  lemma FirstIsCheapest(t: Terms, cs: seq<Candidate>, f: Funding, e: Candidate)
    requires NoRepeats(cs) && BestMove(t, f, OptionsAt(Pruned(cs), Buildings(Pruned(cs)))).Some?
    requires var o := BestMove(t, f, OptionsAt(Pruned(cs), Buildings(Pruned(cs)))).value;
             && o in Pruned(cs) && e in Pruned(cs) && o != e && o.building == e.building
             && Legal(t, f, e) && RatioOf(f.picks, o) == RatioOf(f.picks, e)
    ensures BestMove(t, f, OptionsAt(Pruned(cs), Buildings(Pruned(cs)))).value.cost < e.cost
  {
    var kept := Pruned(cs);
    var bs := Buildings(kept);
    var o := BestMove(t, f, OptionsAt(kept, bs)).value;
    KeptAreIncomparable(cs, o, e);
    KeptAreIncomparable(cs, e, o);
    hide Pruned, OptionsAt, Buildings, NoRepeats, BestMove, Before, Legal, RatioOf;
    if e.cost < o.cost {
      PrunedOnce(cs);
      BuildingsMeans(kept);
      KeptByCost(cs, e, o);
      OfKeepsBefore(kept, e, o);
      OptionsInside(kept, bs, o.building, e, o);
      NothingBefore(t, f, kept, bs, e);
    }
  }

  lemma PrunedInDistrict(cs: seq<Candidate>)
    requires OneDistrict(cs)
    ensures OneDistrict(Pruned(cs)) && forall c :: c in Pruned(cs) ==> c in cs
  {
    PrunedMeans(cs);
  }

  /** On the kept options, taking any choice first ends where the run itself ends: it passes
      through that choice. */
  lemma {:induction false} PassesThrough(t: Terms, cs: seq<Candidate>, f: Funding, e: Candidate)
    requires NoRepeats(cs) && OneDistrict(cs) && Sound(t, f, Pruned(cs)) && Steep(Pruned(cs), f)
    requires Choice(t, f, Pruned(cs), Buildings(cs), e)
    ensures Settled(t, Pruned(cs), f) == Settled(t, Pruned(cs), Swap(f, e))
    decreases Improvable(Pruned(cs), f.picks)
  {
    var kept := Pruned(cs);
    PrunedInDistrict(cs);
    SameBuildings(cs);
    PrunedOnce(cs);
    SettledStep(t, kept, kept, f);
    AllOptions(kept);
    BestMoveMeans(t, f, OptionsAt(kept, Buildings(kept)));
    hide Pruned, OptionsAt, BestMove, Settled, Swap, Legal, RatioOf;
    BuildingsMeans(kept);
    hide Buildings, NoRepeats;
    var o := BestMove(t, f, OptionsAt(kept, Buildings(kept))).value;
    BestIsChoice(t, f, kept, kept);
    ChoicesAgree(t, f, kept, Buildings(cs), o, e);
    if o != e {
      assert Apart(f.picks) && o.district == e.district;
      FirstIsCheapest(t, cs, f, e);
      hide Sound, Steep, Choice, OneDistrict, Before;
      ThenTheDearer(t, f, kept, Buildings(cs), o, e);
      FewerImprovable(t, f, o, kept, kept);
      PassesThrough(t, cs, Swap(f, o), e);
      SwapTwice(f, o, e);
    }
  }

  lemma ThenTheDearer(t: Terms, f: Funding, cs: seq<Candidate>, bs: seq<string>, o: Candidate, e: Candidate)
    requires Sound(t, f, cs) && OneDistrict(cs) && Steep(cs, f)
    requires Choice(t, f, cs, bs, o) && Choice(t, f, cs, bs, e)
    requires o.building == e.building && o.cost < e.cost && RatioOf(f.picks, o) == RatioOf(f.picks, e)
    ensures Sound(t, Swap(f, o), cs) && Steep(cs, Swap(f, o)) && Choice(t, Swap(f, o), cs, bs, e)
  {
    SwapKeeps(t, f, o, cs);
    SteepStays(t, f, cs, o);
    StillChoice(t, f, cs, bs, o, e);
  }

  lemma SoundAmongAll(t: Terms, cs: seq<Candidate>, f: Funding)
    requires Sound(t, f, Pruned(cs))
    ensures Sound(t, f, cs)
  {
    PrunedMeans(cs);
  }

  /** From a funding by kept options to which nothing better comes cheaper, both runs settle
      on the same result, though the swaps on the way can differ. */
  lemma {:induction false} SettlesAlike(t: Terms, cs: seq<Candidate>, f: Funding)
    requires NoRepeats(cs) && OneDistrict(cs) && Sound(t, f, Pruned(cs)) && Steep(cs, f)
    ensures Settled(t, cs, f) == Settled(t, Pruned(cs), f)
    decreases Improvable(cs, f.picks)
  {
    var kept := Pruned(cs);
    PrunedInDistrict(cs);
    SoundAmongAll(t, cs, f);
    SettledStep(t, cs, cs, f);
    SettledStep(t, kept, kept, f);
    BestRatioSurvives(t, f, cs);
    hide Pruned, OptionsAt, BestMove, Settled, Swap, Legal, RatioOf, Sound;
    var best := BestMove(t, f, OptionsAt(cs, Buildings(cs)));
    if best.Some? {
      BestIsKept(t, f, cs);
      BestIsChoice(t, f, kept, cs);
      BestIsBest(t, f, cs);
      hide Buildings, NoRepeats, Choice, Best;
      SteepStays(t, f, cs, best.value);
      SwapKeeps(t, f, best.value, kept);
      FewerImprovable(t, f, best.value, cs, cs);
      SettlesAlike(t, cs, Swap(f, best.value));
      PassesThrough(t, cs, f, best.value);
    }
  }

  lemma BestIsBest(t: Terms, f: Funding, cs: seq<Candidate>)
    requires BestMove(t, f, OptionsAt(cs, Buildings(cs))).Some?
    ensures Best(t, f, cs, BestMove(t, f, OptionsAt(cs, Buildings(cs))).value)
  {
    var list := OptionsAt(cs, Buildings(cs));
    AllOptions(cs);
    BestMoveMeans(t, f, list);
    hide OptionsAt, Buildings, BestMove, Legal, RatioOf, Above;
    var e := BestMove(t, f, list).value;
    forall u | u in cs && Legal(t, f, u) ensures !Above(RatioOf(f.picks, u), RatioOf(f.picks, e)) { assert u in list; }
  }

  // ------------------------------------------------ the whole upgrade

  lemma {:induction false} ImprovableIsSize(s: seq<Candidate>, picks: seq<Candidate>)
    requires NoRepeats(s)
    ensures Improvable(s, picks) == |Better(s, picks)|
  {
    hide Gain;
    if s == [] {
      assert Better(s, picks) == {};
    } else {
      var n := |s| - 1;
      ImprovableIsSize(s[..n], picks);
      LastOnlyOnce(s, s[n]);
      BetterMore(s, picks);
      hide Better, NoRepeats;
    }
  }

  lemma BetterMore(s: seq<Candidate>, picks: seq<Candidate>)
    requires s != [] && s[|s| - 1] !in s[..|s| - 1]
    ensures var n := |s| - 1;
            && Better(s, picks) == Better(s[..n], picks) + (if Gain(picks, s[n]) > 0.0 then {s[n]} else {})
            && s[n] !in Better(s[..n], picks)
  {
    hide Gain;
    assert s == s[..|s| - 1] + [s[|s| - 1]];
  }

  function Better(s: seq<Candidate>, picks: seq<Candidate>): set<Candidate> {
    set c | c in s && Gain(picks, c) > 0.0
  }

  lemma KeptImproveLess(cs: seq<Candidate>, picks: seq<Candidate>)
    requires NoRepeats(cs)
    ensures Improvable(Pruned(cs), picks) <= Improvable(cs, picks)
  {
    PrunedOnce(cs);
    PrunedMeans(cs);
    ImprovableIsSize(cs, picks);
    ImprovableIsSize(Pruned(cs), picks);
    SubsetSize(Better(Pruned(cs), picks), Better(cs, picks));
  }

  /** Pruning leaves the result of the strong heuristic as it was wherever it leaves that of
      greedy, unless the program stops at its cap on the moves. */
  lemma UpgradeUnchanged(t: Terms, cs: seq<Candidate>)
    requires t.budget >= 0.0 && NoRepeats(cs) && OneDistrict(cs) && NothingFree(cs)
    requires Greedy(t, Pruned(cs)) == Greedy(t, cs) && Improvable(cs, Greedy(t, cs).picks) <= MAX_MOVES
    ensures Upgraded(t, Pruned(cs), Greedy(t, Pruned(cs)), MAX_MOVES) == Upgraded(t, cs, Greedy(t, cs), MAX_MOVES)
  {
    var f, kept := Greedy(t, cs), Pruned(cs);
    GreedySteep(t, cs);
    KeptImproveLess(cs, f.picks);
    PrunedInDistrict(cs);
    GreedyIsSound(t, kept);
    hide Pruned, Greedy, Sound, OneDistrict, Upgraded, Steep, NoRepeats, NothingFree, Settled;
    SoundAmongAll(t, cs, f);
    SettlesAlike(t, cs, f);
    EnoughMoves(t, cs, cs, f, MAX_MOVES);
    EnoughMoves(t, kept, kept, f, MAX_MOVES);
  }

  /** So for every portfolio the program makes the strong heuristic is unaffected whenever no
      option that greedy funds has a cheaper one as dense at its building. */
  lemma PortfolioUpgradeUnchanged(t: Terms, r: Rules, bs: seq<Building>, catalog: seq<Intervention>, limit: nat)
    requires DistinctIds(catalog) && DistinctBuildings(bs) && t.budget >= 0.0
    requires var cs := Portfolio(r, bs, catalog, limit);
             CheapestOfTies(cs, Greedy(t, cs).picks) && Improvable(cs, Greedy(t, cs).picks) <= MAX_MOVES
    ensures var cs := Portfolio(r, bs, catalog, limit);
            Upgraded(t, Pruned(cs), Greedy(t, Pruned(cs)), MAX_MOVES) == Upgraded(t, cs, Greedy(t, cs), MAX_MOVES)
  {
    hide Greedy, Pruned, Portfolio, NoRepeats, OneDistrict, NothingFree, Grouped, CheapestOfTies, DistinctIds, Upgraded;
    PortfolioMeans(r, bs, catalog, limit);
    PortfolioUnchangedIff(t, r, bs, catalog, limit);
    UpgradeUnchanged(t, Portfolio(r, bs, catalog, limit));
  }

  // ------------------------------------------------ when greedy itself is affected

  lemma SortedOfThree(x: Candidate, y: Candidate, z: Candidate)
    requires DensestFirst(x, y) && DensestFirst(y, z)
    ensures Sort(DensestFirst, [x, y, z]) == [x, y, z]
  {
    SortTwo(DensestFirst, x, y);
    assert [x, y, z][..2] == [x, y];
    assert Sort(DensestFirst, [x, y, z]) == Insert(DensestFirst, Sort(DensestFirst, [x, y]), z);
  }

  lemma FitThree(t: Terms, x: Candidate, y: Candidate, z: Candidate)
    ensures FirstFit(t, [x, y, z]) == Visit(t, Visit(t, Visit(t, NOTHING, x), y), z)
  {
    hide Visit;
    FitTwo(t, x, y);
    assert [x, y, z][..2] == [x, y];
  }

  lemma PrunedThree(large: Candidate, small: Candidate, other: Candidate)
    requires large.building == small.building != other.building
    requires small.cost < large.cost && small.value < large.value
    ensures Pruned([large, small, other]) == [small, large, other]
  {
    var cs, b, c := [large, small, other], large.building, other.building;
    assert CheapestFirst(small, large) && !CheapestFirst(large, small);
    hide Of, Buildings, Sort, Frontier, KeptOf, KeptAt, CheapestFirst;
    OfThree(large, small, other);
    BuildingsOfThree(large, small, other);
    SortTwo(CheapestFirst, large, small);
    SortTwo(CheapestFirst, other, other);
    FrontierTwo(small, large);
    FrontierTwo(other, other);
    KeptFrom(cs, b);
    KeptFrom(cs, c);
    KeptAtTwo(cs, b, c);
  }

  lemma KeptFrom(cs: seq<Candidate>, b: string)
    ensures KeptOf(cs, b) == Frontier(Sort(CheapestFirst, Of(cs, b)))
  {}

  lemma KeptAtTwo(cs: seq<Candidate>, b: string, c: string)
    ensures KeptAt(cs, [b, c]) == KeptOf(cs, b) + KeptOf(cs, c)
  {
    hide KeptOf;
    assert [b, c][..1] == [b] && [b][..0] == [];
    assert KeptAt(cs, []) == [];
    assert [] + KeptOf(cs, b) == KeptOf(cs, b);
  }

  lemma OfThree(large: Candidate, small: Candidate, other: Candidate)
    requires large.building == small.building != other.building
    ensures Of([large, small, other], large.building) == [large, small]
    ensures Of([large, small, other], other.building) == [other]
  {
    var cs, b, c := [large, small, other], large.building, other.building;
    assert cs[..2] == [large, small] && cs[..2][..1] == [large] && [large][..0] == [];
    assert Of([], b) == [] && Of([large], b) == [large] && Of([large, small], b) == [large, small];
    assert Of([], c) == [] && Of([large], c) == [] && Of([large, small], c) == [];
  }

  lemma BuildingsOfThree(large: Candidate, small: Candidate, other: Candidate)
    requires large.building == small.building != other.building
    ensures Buildings([large, small, other]) == [large.building, other.building]
  {
    var cs, b := [large, small, other], large.building;
    assert cs[..2] == [large, small] && cs[..2][..1] == [large] && [large][..0] == [];
    assert Buildings([]) == [] && Buildings([large]) == [b] && Buildings([large, small]) == [b];
  }

  /** Where nothing is legal the upgrade adds nothing. */
  lemma NothingToUpgrade(t: Terms, cs: seq<Candidate>, f: Funding)
    requires forall c :: c in cs ==> !Legal(t, f, c)
    ensures Upgraded(t, cs, f, MAX_MOVES) == f
  {
    hide Legal, BestMove, OptionsAt, Upgraded;
    AllOptions(cs);
    BestMoveMeans(t, f, OptionsAt(cs, Buildings(cs)));
    OneMove(t, cs, f, MAX_MOVES);
  }

  lemma CurrentOfOne(x: Candidate, b: string)
    ensures Current([x], b) == if x.building == b then Some(0) else None
  {
    assert [x][..0] == [] && Current([], b) == None;
  }

  lemma CurrentOfTwo(x: Candidate, y: Candidate, b: string)
    requires x.building != y.building
    ensures Current([x, y], b)
         == if y.building == b then Some(1) else if x.building == b then Some(0) else None
  {
    CurrentOfOne(x, b);
    assert [x, y][..1] == [x];
  }

  /** And where greedy is affected the upgrade can end elsewhere too: without pruning the whole
      budget goes to the large option; with it greedy funds the small one and another building,
      and neither can be upgraded any more. */
  lemma UpgradeCanDiffer(t: Terms, large: Candidate, small: Candidate, other: Candidate)
    requires large.building == small.building != other.building && t.cap.None?
    requires Density(small) == Density(large) > Density(other) && other.value > 0.0 && other.cost > 0.0
    requires 0.0 < small.cost < large.cost <= t.budget && 0.0 < small.value < large.value
    requires small.cost + other.cost <= t.budget < large.cost + other.cost
    ensures var cs := [large, small, other];
            && Upgraded(t, cs, Greedy(t, cs), MAX_MOVES).picks == [large]
            && Upgraded(t, Pruned(cs), Greedy(t, Pruned(cs)), MAX_MOVES).picks == [small, other]
  {
    var cs := [large, small, other];
    PrunedThree(large, small, other);
    SortedOfThree(large, small, other);
    SortedOfThree(small, large, other);
    FitThree(t, large, small, other);
    FitThree(t, small, large, other);
    hide Pruned, Sort, FirstFit, Density, Upgraded;
    var f, g := Greedy(t, cs), Greedy(t, [small, large, other]);
    LargeAlone(t, large, small, other);
    SmallAndOther(t, large, small, other);
    NothingToUpgrade(t, cs, f);
    NothingToUpgrade(t, [small, large, other], g);
  }

  lemma LargeAlone(t: Terms, large: Candidate, small: Candidate, other: Candidate)
    requires large.building == small.building != other.building && t.cap.None?
    requires 0.0 < small.value < large.value && 0.0 < large.cost <= t.budget < large.cost + other.cost
    ensures var f := Visit(t, Visit(t, Visit(t, NOTHING, large), small), other);
            f.picks == [large] && forall c :: c in [large, small, other] ==> !Legal(t, f, c)
  {
    var f := Visit(t, NOTHING, large);
    assert f == Fund(NOTHING, large) && f.picks == [large];
    assert f.picks[0].building == small.building;
    assert Visit(t, f, small) == f && Visit(t, f, other) == f;
    CurrentOfOne(large, large.building);
    CurrentOfOne(large, other.building);
    hide Current, Visit;
    assert !Legal(t, f, large) && !Legal(t, f, small) && !Legal(t, f, other);
  }

  lemma SmallAndOther(t: Terms, large: Candidate, small: Candidate, other: Candidate)
    requires large.building == small.building != other.building && t.cap.None? && other.value > 0.0
    requires 0.0 < small.value && 0.0 < small.cost < large.cost && 0.0 < other.cost
    requires small.cost + other.cost <= t.budget < large.cost + other.cost
    ensures var f := Visit(t, Visit(t, Visit(t, NOTHING, small), large), other);
            f.picks == [small, other] && forall c :: c in [small, large, other] ==> !Legal(t, f, c)
  {
    var f := Visit(t, NOTHING, small);
    assert f == Fund(NOTHING, small) && f.picks == [small];
    assert f.picks[0].building == large.building;
    assert Visit(t, f, large) == f;
    assert !Holds(f.picks, other.building);
    var g := Visit(t, f, other);
    assert g == Fund(f, other) && g.picks == [small, other];
    CurrentOfTwo(small, other, small.building);
    CurrentOfTwo(small, other, other.building);
    hide Current, Visit;
    assert !Legal(t, g, small) && !Legal(t, g, large) && !Legal(t, g, other);
  }
}
