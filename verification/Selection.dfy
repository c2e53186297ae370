/** Which buildings make the fixture: `spread`, a two-pass greedy choice under a cap per
    map cell, and `choose`, which fills a quota per group and then tops up.

    A candidate is a dictionary the program compares by identity; `id` plays that part,
    so two candidates are equal here exactly when they are the same object. */
module Selection {
  import opened Rounding
  import opened Sets
  import opened Sorting

  const CELL_DEGREES := 0.003
  const PER_CELL := 3

  datatype Item = Item(id: nat, lat: real, lon: real, area: real, kind: string)

  type Cell = (int, int)

  /** Conversion of a float to an int, towards zero. */
  function Trunc(r: real): int { if r >= 0.0 then r.Floor else -((-r).Floor) }

  function CellOf(x: Item): Cell { (Trunc(x.lat / CELL_DEGREES), Trunc(x.lon / CELL_DEGREES)) }

  // ------------------------------------------------ sequences without repetition

  function Elems(s: seq<Item>): set<Item> { set x | x in s }

  predicate Distinct(s: seq<Item>) { |Elems(s)| == |s| }

  function Min(a: int, b: int): int { if a <= b then a else b }

  lemma ElemsOfConcat(a: seq<Item>, b: seq<Item>)
    ensures Elems(a + b) == Elems(a) + Elems(b)
  {}

  lemma {:induction false} ElemsAtMostLength(s: seq<Item>)
    ensures |Elems(s)| <= |s|
  {
    if s != [] {
      var n := |s| - 1;
      ElemsAtMostLength(s[..n]);
      assert s == s[..n] + [s[n]];
      assert Elems(s) == Elems(s[..n]) + {s[n]};
    }
  }

  lemma DistinctParts(a: seq<Item>, b: seq<Item>)
    requires Distinct(a + b)
    ensures Distinct(a) && Distinct(b) && Elems(a) !! Elems(b)
  {
    ElemsOfConcat(a, b);
    ElemsAtMostLength(a);
    ElemsAtMostLength(b);
    assert |Elems(a) * Elems(b)| == 0;
    forall x | x in Elems(a) ensures x !in Elems(b) { assert x !in Elems(a) * Elems(b); }
  }

  lemma DistinctConcat(a: seq<Item>, b: seq<Item>)
    requires Distinct(a) && Distinct(b) && Elems(a) !! Elems(b)
    ensures Distinct(a + b)
  {
    ElemsOfConcat(a, b);
  }

  lemma DistinctAppend(s: seq<Item>, x: Item)
    requires Distinct(s) && x !in s
    ensures Distinct(s + [x]) && Elems(s + [x]) == Elems(s) + {x}
  {
    assert Elems([x]) == {x};
    DistinctConcat(s, [x]);
    ElemsOfConcat(s, [x]);
  }

  lemma DistinctPrefix(s: seq<Item>, n: nat)
    requires Distinct(s) && n <= |s|
    ensures Distinct(s[..n]) && Elems(s[..n]) <= Elems(s)
  {
    assert s == s[..n] + s[n..];
    DistinctParts(s[..n], s[n..]);
  }

  /** The last element of a repetition-free sequence does not occur before. */
  lemma DistinctLast(s: seq<Item>)
    requires Distinct(s) && s != []
    ensures Distinct(s[..|s| - 1]) && s[|s| - 1] !in s[..|s| - 1]
    ensures Elems(s) == Elems(s[..|s| - 1]) + {s[|s| - 1]}
  {
    var n := |s| - 1;
    assert s == s[..n] + [s[n]];
    DistinctParts(s[..n], [s[n]]);
    ElemsOfConcat(s[..n], [s[n]]);
    assert s[n] in Elems([s[n]]);
  }

  // ------------------------------------------------ the first pass

  function CountIn(s: seq<Item>, c: Cell): nat {
    if s == [] then 0
    else CountIn(s[..|s| - 1], c) + if CellOf(s[|s| - 1]) == c then 1 else 0
  }

  /** Candidates in preference order, skipping one whose cell is already full. */
  function Greedy(candidates: seq<Item>): seq<Item> {
    if candidates == [] then []
    else
      var n := |candidates| - 1;
      var taken := Greedy(candidates[..n]);
      if CountIn(taken, CellOf(candidates[n])) >= PER_CELL then taken else taken + [candidates[n]]
  }

  function Without(candidates: seq<Item>, taken: seq<Item>): seq<Item> {
    if candidates == [] then []
    else
      var n := |candidates| - 1;
      Without(candidates[..n], taken) + if candidates[n] in taken then [] else [candidates[n]]
  }

  /** Greedy picks, then the skipped candidates in order, cut at a positive `count`. A
      count of zero or less never equals the length tested by the program, so nothing is
      cut at all. */
  function Spread(candidates: seq<Item>, count: int): seq<Item> {
    var all := Greedy(candidates) + Without(candidates, Greedy(candidates));
    if count >= 1 then all[..Min(count, |all|)] else all
  }

  lemma GreedyGrows(candidates: seq<Item>)
    requires candidates != []
    ensures Greedy(candidates[..|candidates| - 1]) <= Greedy(candidates)
  {}

  lemma {:induction false} GreedyPrefix(candidates: seq<Item>, n: nat)
    requires n <= |candidates|
    ensures Greedy(candidates[..n]) <= Greedy(candidates)
    decreases |candidates|
  {
    hide Greedy;
    if n < |candidates| {
      var m := |candidates| - 1;
      assert candidates[..m][..n] == candidates[..n];
      GreedyPrefix(candidates[..m], n);
      GreedyGrows(candidates);
    } else {
      assert candidates[..n] == candidates;
    }
  }

  lemma {:induction false} WithoutPrefix(candidates: seq<Item>, taken: seq<Item>, n: nat)
    requires n <= |candidates|
    ensures Without(candidates[..n], taken) <= Without(candidates, taken)
    decreases |candidates|
  {
    if n < |candidates| {
      var m := |candidates| - 1;
      assert candidates[..m][..n] == candidates[..n];
      WithoutPrefix(candidates[..m], taken, n);
    } else {
      assert candidates[..n] == candidates;
    }
  }

  lemma GreedyTakesTheFirst(candidates: seq<Item>)
    requires candidates != []
    ensures Greedy(candidates) != []
  {}

  lemma OnNothing(candidates: seq<Item>)
    ensures Greedy(candidates[..0]) == [] && forall c :: CountIn([], c) == 0
    ensures forall taken :: Without(candidates[..0], taken) == []
    ensures Largest([]) == [] && forall g :: InGroup(candidates[..0], g) == []
  {}

  lemma GreedyStep(candidates: seq<Item>, i: nat)
    requires i < |candidates|
    ensures Greedy(candidates[..i + 1])
         == Greedy(candidates[..i])
          + if CountIn(Greedy(candidates[..i]), CellOf(candidates[i])) >= PER_CELL then [] else [candidates[i]]
  {
    assert candidates[..i + 1][..i] == candidates[..i];
  }

  lemma WithoutStep(candidates: seq<Item>, taken: seq<Item>, i: nat)
    requires i < |candidates|
    ensures Without(candidates[..i + 1], taken)
         == Without(candidates[..i], taken) + if candidates[i] in taken then [] else [candidates[i]]
  {
    assert candidates[..i + 1][..i] == candidates[..i];
  }

  lemma CountStep(s: seq<Item>, x: Item)
    ensures forall c :: CountIn(s + [x], c) == CountIn(s, c) + if CellOf(x) == c then 1 else 0
  {}

  /** The program's procedure: the counting dictionary, the early return, and the second
      pass that relaxes the limit. */
  method SpreadOut(candidates: seq<Item>, count: int) returns (picked: seq<Item>)
    ensures picked == Spread(candidates, count)
  {
    hide Greedy, Without, CountIn, CellOf;
    picked := [];
    var used: map<Cell, int> := map[];
    OnNothing(candidates);
    for i := 0 to |candidates|
      invariant picked == Greedy(candidates[..i])
      invariant forall c :: (if c in used then used[c] else 0) == CountIn(picked, c)
      invariant count >= 1 ==> |picked| < count
    {
      var item := candidates[i];
      var cell := CellOf(item);
      GreedyStep(candidates, i);
      if (if cell in used then used[cell] else 0) < PER_CELL {
        CountStep(picked, item);
        used := used[cell := (if cell in used then used[cell] else 0) + 1];
        picked := picked + [item];
        if |picked| == count {
          GreedyPrefix(candidates, i + 1);
          return;
        }
      }
    }
    assert candidates[..|candidates|] == candidates;
    ghost var greedy := picked;
    var chosen := set x | x in picked;
    var i := 0;
    while i < |candidates|
      invariant i <= |candidates|
      invariant picked == greedy + Without(candidates[..i], greedy)
      invariant count >= 1 ==> |picked| <= count
      decreases |candidates| - i
    {
      if |picked| == count {
        GreedyTakesTheFirst(candidates);
        WithoutPrefix(candidates, greedy, i);
        return;
      }
      WithoutStep(candidates, greedy, i);
      if candidates[i] !in chosen {
        picked := picked + [candidates[i]];
      }
      i := i + 1;
    }
    assert candidates[..i] == candidates;
  }

  // ------------------------------------------------ what is returned

  lemma {:induction false} GreedyIsSelection(candidates: seq<Item>)
    requires Distinct(candidates)
    ensures Distinct(Greedy(candidates)) && Elems(Greedy(candidates)) <= Elems(candidates)
  {
    if candidates != [] {
      var n := |candidates| - 1;
      DistinctLast(candidates);
      GreedyIsSelection(candidates[..n]);
      assert candidates[n] !in Elems(Greedy(candidates[..n]));
      DistinctAppend(Greedy(candidates[..n]), candidates[n]);
    }
  }

  lemma {:induction false} WithoutIsTheRest(candidates: seq<Item>, taken: seq<Item>)
    requires Distinct(candidates)
    ensures Distinct(Without(candidates, taken))
    ensures Elems(Without(candidates, taken)) == Elems(candidates) - Elems(taken)
  {
    if candidates != [] {
      var n := |candidates| - 1;
      DistinctLast(candidates);
      WithoutIsTheRest(candidates[..n], taken);
      var rest := Without(candidates[..n], taken);
      assert rest + [] == rest;
      assert candidates[n] !in Elems(rest);
      if candidates[n] !in taken {
        DistinctAppend(rest, candidates[n]);
      }
    }
  }

  /** Exactly min(count, n) pairwise different candidates; all of them when the count is
      zero or less. */
  lemma SpreadExact(candidates: seq<Item>, count: int)
    requires Distinct(candidates)
    ensures Distinct(Spread(candidates, count)) && Elems(Spread(candidates, count)) <= Elems(candidates)
    ensures |Spread(candidates, count)| == if count >= 1 then Min(count, |candidates|) else |candidates|
  {
    var g := Greedy(candidates);
    var w := Without(candidates, g);
    GreedyIsSelection(candidates);
    WithoutIsTheRest(candidates, g);
    DistinctConcat(g, w);
    ElemsOfConcat(g, w);
    assert Elems(g + w) == Elems(candidates);
    DistinctPrefix(g + w, Min(if count >= 1 then count else |g + w|, |g + w|));
    assert (g + w)[..|g + w|] == g + w;
  }

  // ------------------------------------------------ how good the choice is

  function InCell(s: set<Item>, c: Cell): set<Item> { set x | x in s && CellOf(x) == c }

  /** A selection that keeps to the limit in every cell. */
  ghost predicate Capped(s: set<Item>) { forall c :: |InCell(s, c)| <= PER_CELL }

  lemma {:induction false} CountIsSize(s: seq<Item>, c: Cell)
    requires Distinct(s)
    ensures CountIn(s, c) == |InCell(Elems(s), c)|
  {
    if s != [] {
      var n := |s| - 1;
      DistinctLast(s);
      CountIsSize(s[..n], c);
      if CellOf(s[n]) == c {
        assert InCell(Elems(s), c) == InCell(Elems(s[..n]), c) + {s[n]};
      } else {
        assert InCell(Elems(s), c) == InCell(Elems(s[..n]), c);
      }
    }
  }

  lemma InCellMore(s: seq<Item>, x: Item, c: Cell)
    ensures |InCell(Elems(s + [x]), c)| <= |InCell(Elems(s), c)| + if CellOf(x) == c then 1 else 0
  {
    ElemsOfConcat(s, [x]);
    if CellOf(x) == c {
      assert InCell(Elems(s + [x]), c) == InCell(Elems(s), c) + {x};
    } else {
      assert InCell(Elems(s + [x]), c) == InCell(Elems(s), c);
    }
  }

  lemma CappedMore(g: seq<Item>, x: Item)
    requires Distinct(g) && Capped(Elems(g)) && CountIn(g, CellOf(x)) < PER_CELL
    ensures Capped(Elems(g + [x]))
  {
    CountIsSize(g, CellOf(x));
    hide CellOf, Elems, InCell, CountIn;
    forall c ensures |InCell(Elems(g + [x]), c)| <= PER_CELL { InCellMore(g, x, c); }
  }

  lemma {:induction false} GreedyIsCapped(candidates: seq<Item>)
    requires Distinct(candidates)
    ensures Capped(Elems(Greedy(candidates)))
  {
    if candidates == [] {
      forall c ensures |InCell(Elems(Greedy(candidates)), c)| <= PER_CELL { assert InCell({}, c) == {}; }
    } else {
      hide Capped, Elems, CellOf, CountIn;
      var n := |candidates| - 1;
      DistinctLast(candidates);
      GreedyIsCapped(candidates[..n]);
      GreedyIsSelection(candidates[..n]);
      var g := Greedy(candidates[..n]);
      if CountIn(g, CellOf(candidates[n])) < PER_CELL { CappedMore(g, candidates[n]); }
    }
  }

  lemma SubsetOfCapped(a: set<Item>, b: set<Item>)
    requires a <= b && Capped(b)
    ensures Capped(a)
  {
    forall c ensures |InCell(a, c)| <= PER_CELL { SubsetSize(InCell(a, c), InCell(b, c)); }
  }

  /** A selection that uses a candidate the greedy pass skipped can use, in its place,
      one the pass had taken from the same cell. */
  lemma Exchange(taken: set<Item>, sel: set<Item>, x: Item) returns (y: Item)
    requires Capped(sel) && x in sel && x !in taken
    requires |InCell(taken, CellOf(x))| >= PER_CELL
    ensures y in taken && y !in sel && Capped(sel - {x} + {y}) && |sel - {x} + {y}| == |sel|
  {
    var cell := CellOf(x);
    var mine := InCell(sel, cell) - {x};
    assert |mine| < PER_CELL;
    if InCell(taken, cell) <= mine { SubsetSize(InCell(taken, cell), mine); }
    y :| y in InCell(taken, cell) && y !in mine;
    forall c ensures |InCell(sel - {x} + {y}, c)| <= PER_CELL {
      if c == cell {
        assert InCell(sel - {x} + {y}, c) == mine + {y};
      } else {
        assert InCell(sel - {x} + {y}, c) == InCell(sel, c);
      }
    }
  }

  /** No selection that keeps to the limit is larger than the greedy one. */
  lemma {:induction false} GreedyIsLargest(candidates: seq<Item>, sel: set<Item>)
    requires Distinct(candidates) && sel <= Elems(candidates) && Capped(sel)
    ensures |sel| <= |Greedy(candidates)|
    decreases |candidates|
  {
    if candidates != [] {
      var n := |candidates| - 1;
      var x := candidates[n];
      var before := candidates[..n];
      DistinctLast(candidates);
      var g := Greedy(before);
      if x !in sel {
        GreedyIsLargest(before, sel);
      } else if |Greedy(candidates)| > |g| {
        SubsetOfCapped(sel - {x}, sel);
        GreedyIsLargest(before, sel - {x});
      } else {
        GreedyIsSelection(before);
        CountIsSize(g, CellOf(x));
        var y := Exchange(Elems(g), sel, x);
        GreedyIsLargest(before, sel - {x} + {y});
      }
    }
  }

  /** The result breaks the limit in some cell only when every selection of its size
      breaks it somewhere. */
  lemma CappedWheneverPossible(candidates: seq<Item>, count: int)
    requires Distinct(candidates) && count >= 1
    ensures Capped(Elems(Spread(candidates, count)))
       <==> exists sel :: sel <= Elems(candidates) && |sel| == Min(count, |candidates|) && Capped(sel)
  {
    SpreadExact(candidates, count);
    var r := Spread(candidates, count);
    if Capped(Elems(r)) {
      assert Elems(r) <= Elems(candidates) && |Elems(r)| == Min(count, |candidates|);
    }
    if sel :| sel <= Elems(candidates) && |sel| == Min(count, |candidates|) && Capped(sel) {
      GreedyIsLargest(candidates, sel);
      var g := Greedy(candidates);
      assert r == g[..|r|];
      GreedyIsSelection(candidates);
      GreedyIsCapped(candidates);
      DistinctPrefix(g, |r|);
      SubsetOfCapped(Elems(r), Elems(g));
    }
  }

  /** What the first pass has picked when it stops. */
  function FirstPass(candidates: seq<Item>, count: int): seq<Item>
    requires count >= 1
  {
    Greedy(candidates)[..Min(count, |Greedy(candidates)|)]
  }

  /** Preference order is respected in the strongest sense: from every prefix of the
      candidates the first pass takes at least as many as any selection of at most
      `count` that keeps to the limit. */
  lemma BestOnEveryPrefix(candidates: seq<Item>, count: int, n: nat, sel: set<Item>)
    requires Distinct(candidates) && count >= 1 && n <= |candidates|
    requires sel <= Elems(candidates) && Capped(sel) && |sel| <= count
    ensures |sel * Elems(candidates[..n])| <= |Elems(FirstPass(candidates, count)) * Elems(candidates[..n])|
  {
    var prefix := candidates[..n];
    DistinctPrefix(candidates, n);
    var mine := sel * Elems(prefix);
    SubsetOfCapped(mine, sel);
    GreedyIsLargest(prefix, mine);
    SubsetSize(mine, sel);
    GreedyPrefix(candidates, n);
    GreedyIsSelection(prefix);
    var g := Greedy(prefix);
    var k := Min(count, |g|);
    DistinctPrefix(g, k);
    assert g[..k] == FirstPass(candidates, count)[..k];
    assert Elems(g[..k]) <= Elems(FirstPass(candidates, count)) * Elems(prefix);
    SubsetSize(Elems(g[..k]), Elems(FirstPass(candidates, count)) * Elems(prefix));
  }

  // ------------------------------------------------ quotas per group

  const QUOTAS: seq<(string, int)> :=
    [("state", 20), ("education", 12), ("health", 8), ("safety", 6), ("civic_life", 4)]
  const TOTAL_QUOTA := 50

  function GroupOf(x: Item): string {
    if x.kind == "school" then "education"
    else if x.kind == "hospital" || x.kind == "clinic" then "health"
    else if x.kind == "police" || x.kind == "fire_station" then "safety"
    else if x.kind == "library" then "civic_life"
    else "state"
  }

  function Share(group: nat, count: int): int
    requires group < |QUOTAS|
  {
    RoundHalfEven((QUOTAS[group].1 * count) as real / TOTAL_QUOTA as real)
  }

  /** Members of one group, in their original order. */
  function InGroup(usable: seq<Item>, group: string): seq<Item> {
    if usable == [] then []
    else
      var n := |usable| - 1;
      InGroup(usable[..n], group) + if GroupOf(usable[n]) == group then [usable[n]] else []
  }

  predicate LargestFirst(a: Item, b: Item) { a.area >= b.area }

  /** The stable sort by decreasing area. */
  function Largest(s: seq<Item>): seq<Item> { Sort(LargestFirst, s) }

  function Pool(usable: seq<Item>, group: nat): seq<Item>
    requires group < |QUOTAS|
  {
    Largest(InGroup(usable, QUOTAS[group].0))
  }

  /** What the first `groups` groups contribute, when group g is given `shares[g]`. */
  function FromGroups(usable: seq<Item>, shares: seq<int>, groups: nat): seq<Item>
    requires groups <= |QUOTAS| == |shares|
  {
    if groups == 0 then []
    else
      var pool := Pool(usable, groups - 1);
      FromGroups(usable, shares, groups - 1) + Spread(pool, Min(shares[groups - 1], |pool|))
  }

  function ToppedUp(usable: seq<Item>, chosen: seq<Item>, count: int): seq<Item> {
    if |chosen| < count then chosen + Spread(Largest(Without(usable, chosen)), count - |chosen|) else chosen
  }

  /** The choice for given shares, cut to `count`. */
  function ChooseWith(usable: seq<Item>, count: nat, shares: seq<int>): seq<Item>
    requires |shares| == |QUOTAS|
  {
    var all := ToppedUp(usable, FromGroups(usable, shares, |QUOTAS|), count);
    all[..Min(count, |all|)]
  }

  function Shares(count: int): seq<int> { seq(|QUOTAS|, g requires 0 <= g < |QUOTAS| => Share(g, count)) }

  lemma InGroupStep(usable: seq<Item>, i: nat, group: string)
    requires i < |usable|
    ensures InGroup(usable[..i + 1], group)
         == InGroup(usable[..i], group) + if GroupOf(usable[i]) == group then [usable[i]] else []
  {
    assert usable[..i + 1][..i] == usable[..i];
  }

  /** The dictionary of groups, each sorted. */
  method Pools(usable: seq<Item>) returns (byGroup: map<string, seq<Item>>)
    ensures forall k: nat :: k < |QUOTAS| ==>
              Pool(usable, k) == if QUOTAS[k].0 in byGroup then byGroup[QUOTAS[k].0] else []
  {
    hide InGroup, Largest, GroupOf;
    byGroup := map[];
    assert forall g :: InGroup(usable[..0], g) == [] by { OnNothing(usable); }
    for i := 0 to |usable|
      invariant forall g :: (if g in byGroup then byGroup[g] else []) == InGroup(usable[..i], g)
    {
      var group := GroupOf(usable[i]);
      forall g ensures InGroup(usable[..i + 1], g) == InGroup(usable[..i], g) + if group == g then [usable[i]] else [] {
        InGroupStep(usable, i, g);
      }
      byGroup := byGroup[group := (if group in byGroup then byGroup[group] else []) + [usable[i]]];
    }
    assert usable[..|usable|] == usable;
    byGroup := map g | g in byGroup :: Largest(byGroup[g]);
    assert Largest([]) == [] by { OnNothing(usable); }
  }

  /** The program's procedure: the groups, the quota loop and the top-up. */
  method Choose(usable: seq<Item>, count: nat) returns (chosen: seq<Item>)
    ensures chosen == ChooseWith(usable, count, Shares(count))
  {
    hide Spread, Largest, Pool, Share;
    var byGroup := Pools(usable);
    chosen := [];
    for k := 0 to |QUOTAS|
      invariant chosen == FromGroups(usable, Shares(count), k)
    {
      var group := QUOTAS[k].0;
      var pool := if group in byGroup then byGroup[group] else [];
      assert pool == Pool(usable, k);
      var share := Share(k, count);
      var more := SpreadOut(pool, Min(share, |pool|));
      chosen := chosen + more;
    }
    if |chosen| < count {
      var rest := Largest(Without(usable, chosen));
      var more := SpreadOut(rest, count - |chosen|);
      chosen := chosen + more;
    }
    chosen := chosen[..Min(count, |chosen|)];
  }

  // ------------------------------------------------ exactly the number asked for

  lemma LargestIsPermutation(s: seq<Item>)
    requires Distinct(s)
    ensures Distinct(Largest(s)) && Elems(Largest(s)) == Elems(s) && multiset(Largest(s)) == multiset(s)
  {
    SortMembers(LargestFirst, s);
    SortContains(LargestFirst, s);
  }

  lemma LargestIsSorted(s: seq<Item>)
    ensures forall i, j :: 0 <= i < j < |Largest(s)| ==> Largest(s)[i].area >= Largest(s)[j].area
    ensures forall a, b :: Before(s, a, b) && a.area == b.area ==> Before(Largest(s), a, b)
  {
    SortOrdered(LargestFirst, s);
    forall a, b | Before(s, a, b) && a.area == b.area ensures Before(Largest(s), a, b) {
      SortIsStable(LargestFirst, s, a, b);
    }
  }

  lemma {:induction false} InGroupIsFilter(usable: seq<Item>, group: string)
    requires Distinct(usable)
    ensures Distinct(InGroup(usable, group))
    ensures Elems(InGroup(usable, group)) == set x | x in usable && GroupOf(x) == group
  {
    hide GroupOf;
    if usable != [] {
      var n := |usable| - 1;
      DistinctLast(usable);
      InGroupIsFilter(usable[..n], group);
      var mine := InGroup(usable[..n], group);
      assert mine + [] == mine;
      assert usable[n] !in Elems(mine);
      if GroupOf(usable[n]) == group { DistinctAppend(mine, usable[n]); }
    }
  }

  /** One group's contribution: its share, or its whole pool when the pool is smaller or
      when the share is zero or negative. */
  lemma GroupContribution(usable: seq<Item>, group: nat, share: int)
    requires Distinct(usable) && group < |QUOTAS|
    ensures var pool := Pool(usable, group);
            var part := Spread(pool, Min(share, |pool|));
            && Distinct(part)
            && Elems(part) <= Elems(pool) == set x | x in usable && GroupOf(x) == QUOTAS[group].0
            && |part| == if share >= 1 then Min(share, |pool|) else |pool|
  {
    var members := InGroup(usable, QUOTAS[group].0);
    InGroupIsFilter(usable, QUOTAS[group].0);
    LargestIsPermutation(members);
    SpreadExact(Largest(members), Min(share, |Largest(members)|));
  }

  lemma GroupNamesDiffer(a: nat, b: nat)
    requires a < b < |QUOTAS|
    ensures QUOTAS[a].0 != QUOTAS[b].0
  {}

  /** x is usable and belongs to one of the first groups. */
  predicate Covered(usable: seq<Item>, groups: nat, x: Item)
    requires groups <= |QUOTAS|
  {
    x in usable && exists g :: 0 <= g < groups && GroupOf(x) == QUOTAS[g].0
  }

  lemma {:induction false} FromGroupsDistinct(usable: seq<Item>, shares: seq<int>, groups: nat)
    requires Distinct(usable) && groups <= |QUOTAS| == |shares|
    ensures Distinct(FromGroups(usable, shares, groups))
    ensures forall x :: x in FromGroups(usable, shares, groups) ==> Covered(usable, groups, x)
  {
    if groups > 0 {
      hide GroupOf, Spread, Pool;
      var g := groups - 1;
      FromGroupsDistinct(usable, shares, g);
      GroupContribution(usable, g, shares[g]);
      var before := FromGroups(usable, shares, g);
      var part := Spread(Pool(usable, g), Min(shares[g], |Pool(usable, g)|));
      forall x | x in Elems(part) ensures Covered(usable, groups, x) && x !in Elems(before) {
        assert x in Elems(Pool(usable, g));
        assert GroupOf(x) == QUOTAS[g].0;
        if Covered(usable, g, x) {
          var k :| 0 <= k < g && GroupOf(x) == QUOTAS[k].0;
          GroupNamesDiffer(k, g);
        }
      }
      DistinctConcat(before, part);
      forall x | x in before + part ensures Covered(usable, groups, x) {
        if x in before { assert Covered(usable, g, x); } else { assert x in Elems(part); }
      }
    }
  }

  /** Exactly `count` pairwise different buildings out of the usable ones, or all of them
      when there are fewer, whatever the shares are rounded to. */
  lemma ChooseExact(usable: seq<Item>, count: nat, shares: seq<int>)
    requires Distinct(usable) && |shares| == |QUOTAS|
    ensures var r := ChooseWith(usable, count, shares);
            Distinct(r) && Elems(r) <= Elems(usable) && |r| == Min(count, |usable|)
  {
    var chosen := FromGroups(usable, shares, |QUOTAS|);
    FromGroupsDistinct(usable, shares, |QUOTAS|);
    forall x | x in Elems(chosen) ensures x in Elems(usable) { assert Covered(usable, |QUOTAS|, x); }
    SubsetSize(Elems(chosen), Elems(usable));
    hide FromGroups;
    ToppedUpExact(usable, chosen, count);
    DistinctPrefix(ToppedUp(usable, chosen, count), Min(count, |ToppedUp(usable, chosen, count)|));
  }

  lemma ToppedUpExact(usable: seq<Item>, chosen: seq<Item>, count: nat)
    requires Distinct(usable) && Distinct(chosen) && Elems(chosen) <= Elems(usable)
    ensures var all := ToppedUp(usable, chosen, count);
            && Distinct(all) && Elems(all) <= Elems(usable)
            && |all| == if |chosen| < count then Min(count, |usable|) else |chosen|
  {
    SubsetSize(Elems(chosen), Elems(usable));
    if |chosen| < count {
      hide Largest, Spread, Without;
      var rest := Without(usable, chosen);
      WithoutIsTheRest(usable, chosen);
      LargestIsPermutation(rest);
      SpreadExact(Largest(rest), count - |chosen|);
      DistinctConcat(chosen, Spread(Largest(rest), count - |chosen|));
      ElemsOfConcat(chosen, Spread(Largest(rest), count - |chosen|));
      assert |Elems(rest)| == |usable| - |chosen|;
    }
  }
}
