/** Which buildings are taken, said without the passes: the first three of every map cell come
    before the others, quotas fill each group from its largest, and the rest by size. */
module Preference {
  import opened Rounding
  import opened Selection
  import opened Sets
  import opened Sorting

  // ------------------------------------------------ cells

  /** Two places of one cell are less than 0.006 degrees apart either way, and less than 0.003
      unless the equator or the zero meridian lies between them. */
  lemma SameCellIsClose(x: Item, y: Item)
    requires CellOf(x) == CellOf(y)
    ensures -0.006 < x.lat - y.lat < 0.006 && -0.006 < x.lon - y.lon < 0.006
    ensures (x.lat >= 0.0 && y.lat >= 0.0) || (x.lat <= 0.0 && y.lat <= 0.0) ==> -0.003 < x.lat - y.lat < 0.003
    ensures (x.lon >= 0.0 && y.lon >= 0.0) || (x.lon <= 0.0 && y.lon <= 0.0) ==> -0.003 < x.lon - y.lon < 0.003
  {
    TruncIsClose(x.lat / 0.003, y.lat / 0.003);
    TruncIsClose(x.lon / 0.003, y.lon / 0.003);
    hide Trunc;
    assert (x.lat / 0.003) * 0.003 == x.lat && (y.lat / 0.003) * 0.003 == y.lat;
    assert (x.lon / 0.003) * 0.003 == x.lon && (y.lon / 0.003) * 0.003 == y.lon;
  }

  lemma TruncIsClose(a: real, b: real)
    requires Trunc(a) == Trunc(b)
    ensures -2.0 < a - b < 2.0
    ensures (a >= 0.0 && b >= 0.0) || (a <= 0.0 && b <= 0.0) ==> -1.0 < a - b < 1.0
  {}

  predicate Between(r: real, m: nat) { m as real * 0.003 <= r < (m + 1) as real * 0.003 }

  /** Two places between the same multiples of 0.003 degrees are in one cell. */
  lemma CloseIsSameCell(x: Item, y: Item, m: nat, n: nat)
    requires Between(x.lat, m) && Between(y.lat, m) && Between(x.lon, n) && Between(y.lon, n)
    ensures CellOf(x) == CellOf(y) == (m, n)
  {
    TruncOf(x.lat, m);
    TruncOf(y.lat, m);
    TruncOf(x.lon, n);
    TruncOf(y.lon, n);
  }

  lemma TruncOf(r: real, m: nat)
    requires Between(r, m)
    ensures Trunc(r / 0.003) == m
  {
    var q := r / 0.003;
    assert q * 0.003 == r;
  }

  // ------------------------------------------------ the order of preference

  /** Fewer than three candidates of its cell are listed before it. */
  predicate Early(candidates: seq<Item>, i: nat)
    requires i < |candidates|
  {
    CountIn(candidates[..i], CellOf(candidates[i])) < 3
  }

  /** The early come first, and otherwise the order of the list decides. */
  predicate Preferred(candidates: seq<Item>, i: nat, j: nat)
    requires i < |candidates| && j < |candidates|
  {
    if Early(candidates, i) == Early(candidates, j) then i < j else Early(candidates, i)
  }

  lemma {:induction false} DistinctIsOnce(s: seq<Item>)
    requires Distinct(s)
    ensures NoRepeats(s)
  {
    if s != [] {
      DistinctLast(s);
      DistinctIsOnce(s[..|s| - 1]);
      assert s == s[..|s| - 1] + [s[|s| - 1]];
    }
  }

  lemma {:induction false} GreedyCounts(candidates: seq<Item>, c: Cell)
    ensures CountIn(Greedy(candidates), c)
         == if CountIn(candidates, c) < 3 then CountIn(candidates, c) else 3
  {
    hide CellOf;
    if candidates != [] {
      var n := |candidates| - 1;
      GreedyCounts(candidates[..n], c);
      GreedyCounts(candidates[..n], CellOf(candidates[n]));
      CountStep(Greedy(candidates[..n]), candidates[n]);
    }
  }

  lemma LastGreedy(candidates: seq<Item>)
    requires Distinct(candidates) && candidates != []
    ensures var n := |candidates| - 1;
            && Distinct(candidates[..n]) && candidates[n] !in candidates[..n]
            && (candidates[n] in Greedy(candidates) <==> Early(candidates, n))
            && forall x :: x != candidates[n] ==> (x in Greedy(candidates) <==> x in Greedy(candidates[..n]))
  {
    var n := |candidates| - 1;
    DistinctLast(candidates);
    GreedyIsSelection(candidates[..n]);
    GreedyCounts(candidates[..n], CellOf(candidates[n]));
    hide CountIn, CellOf, Distinct;
    assert candidates[n] !in Elems(Greedy(candidates[..n]));
  }

  lemma {:induction false} GreedyIsEarly(candidates: seq<Item>, i: nat)
    requires Distinct(candidates) && i < |candidates|
    ensures candidates[i] in Greedy(candidates) <==> Early(candidates, i)
  {
    hide Greedy, CountIn, CellOf, Distinct;
    var n := |candidates| - 1;
    LastGreedy(candidates);
    if i < n {
      assert candidates[..n][..i] == candidates[..i] && candidates[..n][i] == candidates[i];
      assert candidates[i] in candidates[..n];
      GreedyIsEarly(candidates[..n], i);
    }
  }

  lemma {:induction false} GreedyKeepsBefore(candidates: seq<Item>, x: Item, y: Item)
    requires Distinct(candidates) && Before(candidates, x, y) && x in Greedy(candidates) && y in Greedy(candidates)
    ensures Before(Greedy(candidates), x, y)
  {
    var n := |candidates| - 1;
    var taken := Greedy(candidates[..n]);
    BeforeCases(candidates, x, y);
    DistinctIsOnce(candidates);
    DistinctLast(candidates);
    GreedyIsSelection(candidates[..n]);
    BeforeApart(candidates, x, y);
    assert x in taken by { assert x != candidates[n]; }
    hide Before, CountIn, NoRepeats;
    if Before(candidates[..n], x, y) {
      BeforeApart(candidates[..n], x, y) by { DistinctIsOnce(candidates[..n]); }
      assert y != candidates[n];
      assert y in taken;
      GreedyKeepsBefore(candidates[..n], x, y);
      if Greedy(candidates) != taken { BeforeInLonger(taken, candidates[n], x, y); }
    } else {
      assert y !in Elems(candidates[..n]);
      assert Greedy(candidates) == taken + [y];
      BeforeLast(taken, x, y);
    }
  }

  /** In a list without repetitions what stands before something is not its last element. */
  lemma BeforeApart(s: seq<Item>, x: Item, y: Item)
    requires NoRepeats(s) && Before(s, x, y)
    ensures x != y && x in s && y in s && s != [] && x != s[|s| - 1]
  {}

  lemma {:induction false} WithoutKeepsBefore(candidates: seq<Item>, taken: seq<Item>, x: Item, y: Item)
    requires Before(candidates, x, y) && x !in taken && y !in taken
    ensures Before(Without(candidates, taken), x, y)
  {
    var n := |candidates| - 1;
    BeforeCases(candidates, x, y);
    hide Before;
    var rest := Without(candidates[..n], taken);
    if Before(candidates[..n], x, y) {
      WithoutKeepsBefore(candidates[..n], taken, x, y);
      BeforeInLonger(rest, candidates[n], x, y);
      assert rest + [] == rest;
    } else {
      WithoutHas(candidates[..n], taken, x);
      BeforeLast(rest, x, y);
    }
  }

  lemma {:induction false} WithoutHas(candidates: seq<Item>, taken: seq<Item>, x: Item)
    requires x in candidates && x !in taken
    ensures x in Without(candidates, taken)
  {
    var n := |candidates| - 1;
    if x in candidates[..n] {
      WithoutHas(candidates[..n], taken, x);
    } else {
      assert candidates == candidates[..n] + [candidates[n]];
    }
  }

  function Everything(candidates: seq<Item>): seq<Item> {
    Greedy(candidates) + Without(candidates, Greedy(candidates))
  }

  lemma EverythingOnce(candidates: seq<Item>)
    requires Distinct(candidates)
    ensures NoRepeats(Everything(candidates)) && forall x :: x in Everything(candidates) <==> x in candidates
  {
    var g := Greedy(candidates);
    GreedyIsSelection(candidates);
    WithoutIsTheRest(candidates, g);
    DistinctConcat(g, Without(candidates, g));
    DistinctIsOnce(Everything(candidates));
    forall x ensures x in Everything(candidates) <==> x in candidates {
      assert x in g ==> x in Elems(g);
      assert x in Without(candidates, g) <==> x in Elems(Without(candidates, g));
    }
  }

  lemma PreferredIsBefore(candidates: seq<Item>, i: nat, j: nat)
    requires Distinct(candidates) && i < |candidates| && j < |candidates| && Preferred(candidates, i, j)
    ensures Before(Everything(candidates), candidates[i], candidates[j])
  {
    var g := Greedy(candidates);
    var w := Without(candidates, g);
    GreedyIsEarly(candidates, i);
    GreedyIsEarly(candidates, j);
    hide Early, Greedy, Without, Before;
    if i < j { ByIndex(candidates, i, j); }
    if candidates[i] in g && candidates[j] in g {
      GreedyKeepsBefore(candidates, candidates[i], candidates[j]);
    } else if candidates[i] in g {
      WithoutHas(candidates, g, candidates[j]);
    } else {
      WithoutKeepsBefore(candidates, g, candidates[i], candidates[j]);
    }
    BeforeInSum(g, w, candidates[i], candidates[j]);
  }

  lemma BeforeInStart(all: seq<Item>, k: nat, x: Item, y: Item)
    requires NoRepeats(all) && k <= |all| && Before(all, x, y) && y in all[..k]
    ensures x in all[..k] && Before(all[..k], x, y)
  {
    var i, j :| 0 <= i < j < |all| && all[i] == x && all[j] == y;
    var m :| 0 <= m < k && all[..k][m] == y;
    assert m == j && all[..k][i] == x;
  }

  lemma SpreadIsStart(candidates: seq<Item>, count: int) returns (k: nat)
    ensures k <= |Everything(candidates)| && Spread(candidates, count) == Everything(candidates)[..k]
  {
    var all := Everything(candidates);
    k := if count >= 1 then Min(count, |all|) else |all|;
    assert all[..|all|] == all;
  }

  /** What is taken, and in which order: with a candidate every one preferred to it, before it. */
  lemma SpreadMeans(candidates: seq<Item>, count: int, i: nat, j: nat)
    requires Distinct(candidates) && i < |candidates| && j < |candidates| && Preferred(candidates, i, j)
    requires candidates[j] in Spread(candidates, count)
    ensures candidates[i] in Spread(candidates, count)
    ensures Before(Spread(candidates, count), candidates[i], candidates[j])
  {
    hide *;
    var k := SpreadIsStart(candidates, count);
    EverythingOnce(candidates);
    PreferredIsBefore(candidates, i, j);
    BeforeInStart(Everything(candidates), k, candidates[i], candidates[j]);
  }

  // ------------------------------------------------ passed over only for a full cell

  /** At least three of the list are in the cell of y, and each is as large at least. */
  predicate Crowded(chosen: seq<Item>, y: Item) {
    |set z | z in chosen && CellOf(z) == CellOf(y) && z.area >= y.area| >= 3
  }

  /** Where a taken candidate is listed after one that was not taken before it, the cell of the
      latter is full of candidates listed before it and taken before the former. */
  lemma PassedOver(candidates: seq<Item>, count: int, i: nat, j: nat) returns (three: seq<Item>)
    requires Distinct(candidates) && i < j < |candidates| && candidates[j] in Spread(candidates, count)
    requires !Before(Spread(candidates, count), candidates[i], candidates[j])
    ensures Distinct(three) && CountIn(three, CellOf(candidates[i])) == 3
    ensures forall z :: z in three ==> z in candidates[..i] && Before(Spread(candidates, count), z, candidates[j])
  {
    if Preferred(candidates, i, j) { SpreadMeans(candidates, count, i, j); }
    assert Early(candidates, j) && !Early(candidates, i);
    three := Greedy(candidates[..i]);
    GreedyCounts(candidates[..i], CellOf(candidates[i]));
    DistinctPrefix(candidates, i);
    GreedyIsSelection(candidates[..i]);
    hide Greedy, Spread, CountIn, CellOf, Distinct;
    forall z | z in three ensures z in candidates[..i] && Before(Spread(candidates, count), z, candidates[j]) {
      assert z in Elems(three);
      var k :| 0 <= k < i && candidates[..i][k] == z;
      GreedyIsEarly(candidates[..i], k);
      assert candidates[..i][..k] == candidates[..k];
      SpreadMeans(candidates, count, k, j);
    }
  }

  lemma CrowdedBy(chosen: seq<Item>, three: seq<Item>, y: Item)
    requires Distinct(three) && CountIn(three, CellOf(y)) == 3
    requires forall z :: z in three ==> z in chosen && z.area >= y.area
    ensures Crowded(chosen, y)
  {
    CountIsSize(three, CellOf(y));
    var some := InCell(Elems(three), CellOf(y));
    var all := set z | z in chosen && CellOf(z) == CellOf(y) && z.area >= y.area;
    hide CountIn, CellOf, Distinct;
    SubsetSize(some, all);
  }

  /** In a pool sorted by size: whatever is taken, only what is in a full cell and larger is
      passed over for it. */
  lemma LargerWasPassedOver(some: seq<Item>, count: int, x: Item, y: Item, chosen: seq<Item>)
    requires Distinct(some) && y in some && x in Spread(Largest(some), count) && y.area > x.area
    requires !Before(Spread(Largest(some), count), y, x)
    requires forall z :: Before(Spread(Largest(some), count), z, x) ==> z in chosen
    ensures Crowded(chosen, y)
  {
    hide *;
    var pool := Largest(some);
    var i, j := PoolPositions(some, count, x, y);
    var three := PassedOver(pool, count, i, j);
    forall z | z in three ensures z in chosen && z.area >= y.area {
      var k :| 0 <= k < i && pool[..i][k] == z;
      assert pool[k] == z;
    }
    CrowdedBy(chosen, three, y);
  }

  lemma LargestMembers(some: seq<Item>)
    requires Distinct(some)
    ensures Distinct(Largest(some)) && forall x :: x in Largest(some) <==> x in some
  {
    LargestIsPermutation(some);
    hide Largest, Distinct;
    forall x ensures x in Largest(some) <==> x in some { assert x in Elems(some) <==> x in Elems(Largest(some)); }
  }

  lemma SpreadMembers(pool: seq<Item>, count: int)
    requires Distinct(pool)
    ensures forall x :: x in Spread(pool, count) ==> x in pool
  {
    SpreadExact(pool, count);
    hide Spread, Distinct;
    forall x | x in Spread(pool, count) ensures x in pool { assert x in Elems(Spread(pool, count)); }
  }

  lemma PoolPositions(some: seq<Item>, count: int, x: Item, y: Item) returns (i: nat, j: nat)
    requires Distinct(some) && y in some && x in Spread(Largest(some), count) && y.area > x.area
    ensures var pool := Largest(some);
            && Distinct(pool) && i < j < |pool| && pool[i] == y && pool[j] == x
            && forall k :: 0 <= k < i ==> pool[k].area >= y.area
  {
    hide *;
    var pool := Largest(some);
    LargestMembers(some);
    LargestIsSorted(some);
    SpreadMembers(pool, count);
    i :| 0 <= i < |pool| && pool[i] == y;
    j :| 0 <= j < |pool| && pool[j] == x;
  }

  // ------------------------------------------------ the quotas

  /** How many of the usable buildings are in a group. */
  function Size(usable: seq<Item>, k: nat): nat
    requires k < |QUOTAS|
  {
    |set x | x in usable && GroupOf(x) == QUOTAS[k].0|
  }

  /** What the quota of a group brings: its share, if that is positive and there are so many,
      and otherwise all of it. */
  function Brought(usable: seq<Item>, shares: seq<int>, k: nat): nat
    requires k < |QUOTAS| == |shares|
  {
    var share := shares[k];
    if 1 <= share < Size(usable, k) then share else Size(usable, k)
  }

  function BroughtBefore(usable: seq<Item>, shares: seq<int>, k: nat): nat
    requires k <= |QUOTAS| == |shares|
  {
    if k == 0 then 0 else BroughtBefore(usable, shares, k - 1) + Brought(usable, shares, k - 1)
  }

  /** The share of a group is its quota of the count, rounded. */
  lemma SharesAreNear(k: nat, count: nat)
    requires k < |QUOTAS|
    ensures |Shares(count)| == |QUOTAS|
    ensures var exact := (QUOTAS[k].1 * count) as real / 50.0; -0.5 <= Shares(count)[k] as real - exact <= 0.5
  {
    RoundMeans((QUOTAS[k].1 * count) as real / 50.0);
    hide RoundHalfEven;
  }

  lemma {:induction false} FromGroupsLength(usable: seq<Item>, shares: seq<int>, k: nat)
    requires Distinct(usable) && k <= |QUOTAS| == |shares|
    ensures |FromGroups(usable, shares, k)| == BroughtBefore(usable, shares, k)
  {
    if k > 0 {
      hide *;
      FromGroupsLength(usable, shares, k - 1);
      OneMorePart(usable, shares, k - 1);
      PartMembers(usable, shares, k - 1);
      BroughtMore(usable, shares, k - 1);
    }
  }

  lemma PoolSize(usable: seq<Item>, k: nat)
    requires Distinct(usable) && k < |QUOTAS|
    ensures |Pool(usable, k)| == Size(usable, k)
    ensures Distinct(InGroup(usable, QUOTAS[k].0))
  {
    InGroupIsFilter(usable, QUOTAS[k].0);
    LargestIsPermutation(InGroup(usable, QUOTAS[k].0));
  }

  lemma {:induction false} FromGroupsStart(usable: seq<Item>, shares: seq<int>, k: nat, m: nat)
    requires k <= m <= |QUOTAS| == |shares|
    ensures FromGroups(usable, shares, k) <= FromGroups(usable, shares, m)
  {
    if k < m {
      hide Spread, Pool, Share;
      FromGroupsStart(usable, shares, k, m - 1);
    }
  }

  function Part(usable: seq<Item>, shares: seq<int>, k: nat): seq<Item>
    requires k < |QUOTAS| == |shares|
  {
    Spread(Pool(usable, k), Min(shares[k], |Pool(usable, k)|))
  }

  lemma ChosenStart(usable: seq<Item>, count: nat, shares: seq<int>, k: nat, i: nat)
    requires k <= |QUOTAS| == |shares|
    requires i < |ChooseWith(usable, count, shares)| && i < |FromGroups(usable, shares, k)|
    ensures ChooseWith(usable, count, shares)[i] == FromGroups(usable, shares, k)[i]
  {
    hide FromGroups, Spread, Largest, Without;
    FromGroupsStart(usable, shares, k, |QUOTAS|);
  }

  lemma PartOfChoice(usable: seq<Item>, count: nat, shares: seq<int>, k: nat, i: nat)
    requires Distinct(usable) && k < |QUOTAS| == |shares| && i < |ChooseWith(usable, count, shares)|
    requires BroughtBefore(usable, shares, k) <= i < BroughtBefore(usable, shares, k + 1)
    ensures var (chosen, part, start) :=
              (ChooseWith(usable, count, shares), Part(usable, shares, k), BroughtBefore(usable, shares, k));
            i - start < |part| && Follows(chosen, start, part) && chosen[i] == part[i - start]
  {
    hide ChooseWith, Part, FromGroups, BroughtBefore, Distinct;
    var chosen, part := ChooseWith(usable, count, shares), Part(usable, shares, k);
    var from, longer := FromGroups(usable, shares, k), FromGroups(usable, shares, k + 1);
    FromGroupsLength(usable, shares, k);
    FromGroupsLength(usable, shares, k + 1);
    OneMorePart(usable, shares, k);
    forall m | 0 <= m < |part| && |from| + m < |chosen| ensures chosen[|from| + m] == part[m] {
      ChosenStart(usable, count, shares, k + 1, |from| + m);
      assert longer[|from| + m] == part[m];
    }
  }

  lemma OneMorePart(usable: seq<Item>, shares: seq<int>, k: nat)
    requires k < |QUOTAS| == |shares|
    ensures FromGroups(usable, shares, k + 1) == FromGroups(usable, shares, k) + Part(usable, shares, k)
  {
    hide Spread, Pool, Share;
  }

  /** The part a group brings: some of the group, each once. */
  lemma PartMembers(usable: seq<Item>, shares: seq<int>, k: nat)
    requires Distinct(usable) && k < |QUOTAS| == |shares|
    ensures var part := Part(usable, shares, k);
            && NoRepeats(part) && |Elems(part)| == |part| == Brought(usable, shares, k)
            && forall x :: x in part ==> x in usable && GroupOf(x) == QUOTAS[k].0
  {
    GroupContribution(usable, k, shares[k]);
    PoolSize(usable, k);
    hide GroupOf, Spread, Pool, Share;
    DistinctIsOnce(Part(usable, shares, k));
    forall x | x in Part(usable, shares, k) ensures x in usable && GroupOf(x) == QUOTAS[k].0 {
      assert x in Elems(Part(usable, shares, k));
      assert x in Elems(Pool(usable, k));
    }
  }

  lemma PartIsSpread(usable: seq<Item>, shares: seq<int>, k: nat) returns (share: int)
    requires Distinct(usable) && k < |QUOTAS| == |shares|
    ensures var some := InGroup(usable, QUOTAS[k].0);
            && Distinct(some) && Part(usable, shares, k) == Spread(Largest(some), share)
            && forall y :: y in some <==> y in usable && GroupOf(y) == QUOTAS[k].0
  {
    share := Min(shares[k], |Pool(usable, k)|);
    var some := InGroup(usable, QUOTAS[k].0);
    InGroupIsFilter(usable, QUOTAS[k].0);
    hide GroupOf, Spread, Share, InGroup, Distinct, Largest;
    forall y ensures y in some <==> y in usable && GroupOf(y) == QUOTAS[k].0 { assert y in some <==> y in Elems(some); }
  }

  /** Position by position: where the quota of a group is being filled the choice has a building
      of that group, and one of the same group that is larger and left out is in a cell already
      full of others at least as large. */
  lemma ChosenByQuota(usable: seq<Item>, count: nat, shares: seq<int>, k: nat, i: nat, y: Item)
    requires Distinct(usable) && k < |QUOTAS| == |shares| && i < |ChooseWith(usable, count, shares)|
    requires BroughtBefore(usable, shares, k) <= i < BroughtBefore(usable, shares, k + 1)
    ensures var chosen := ChooseWith(usable, count, shares);
            && chosen[i] in usable && GroupOf(chosen[i]) == QUOTAS[k].0
            && (y in usable && y !in chosen && GroupOf(y) == QUOTAS[k].0 && y.area > chosen[i].area ==>
                  Crowded(chosen, y))
  {
    hide *;
    var chosen, part := ChooseWith(usable, count, shares), Part(usable, shares, k);
    var m := i - BroughtBefore(usable, shares, k);
    PartOfChoice(usable, count, shares, k, i);
    PartMembers(usable, shares, k);
    assert chosen[i] == part[m];
    var share := PartIsSpread(usable, shares, k);
    var some := InGroup(usable, QUOTAS[k].0);
    if y in usable && y !in chosen && GroupOf(y) == QUOTAS[k].0 && y.area > chosen[i].area {
      OnlyTakenBefore(chosen, part, BroughtBefore(usable, shares, k), m, y);
      LargerWasPassedOver(some, share, chosen[i], y, chosen);
    }
  }

  /** From `start` on, as far as it goes, the choice is the part. */
  predicate Follows(chosen: seq<Item>, start: nat, part: seq<Item>) {
    forall p :: 0 <= p < |part| && start + p < |chosen| ==> chosen[start + p] == part[p]
  }

  lemma SumFollows(from: seq<Item>, part: seq<Item>, i: nat)
    requires |from| <= i < |from| + |part|
    ensures Follows(from + part, |from|, part) && (from + part)[i] == part[i - |from|]
  {}

  /** What stands in the part before a chosen position is chosen. */
  lemma OnlyTakenBefore(chosen: seq<Item>, part: seq<Item>, start: nat, m: nat, y: Item)
    requires NoRepeats(part) && m < |part| && start + m < |chosen|
    requires Follows(chosen, start, part)
    ensures forall z :: Before(part, z, part[m]) ==> z in chosen
    ensures y !in chosen ==> !Before(part, y, part[m])
  {
    forall z | Before(part, z, part[m]) ensures z in chosen {
      var p, q :| 0 <= p < q < |part| && part[p] == z && part[q] == part[m];
      assert chosen[start + p] == z;
    }
  }

  /** Past the quotas every building, whatever its group, that is larger and left out is in a
      cell already full of others at least as large. */
  lemma ChosenByTopUp(usable: seq<Item>, count: nat, shares: seq<int>, i: nat, y: Item)
    requires Distinct(usable) && |QUOTAS| == |shares| && BroughtBefore(usable, shares, |QUOTAS|) <= i
    requires i < |ChooseWith(usable, count, shares)|
    ensures var chosen := ChooseWith(usable, count, shares);
            && chosen[i] in usable
            && (y in usable && y !in chosen && y.area > chosen[i].area ==> Crowded(chosen, y))
  {
    hide *;
    var from := FromGroups(usable, shares, |QUOTAS|);
    TopUp(usable, count, shares, i);
    LargestLeft(from, Without(usable, from), count - |from|, i, y);
  }

  /** The same, of any list followed by a spread over the others. */
  lemma LargestLeft(from: seq<Item>, rest: seq<Item>, n: int, i: nat, y: Item)
    requires Distinct(rest) && NoRepeats(Spread(Largest(rest), n))
    requires |from| <= i < |from| + |Spread(Largest(rest), n)|
    ensures var chosen := from + Spread(Largest(rest), n);
            && chosen[i] in Spread(Largest(rest), n)
            && (y in rest && y !in chosen && y.area > chosen[i].area ==> Crowded(chosen, y))
  {
    hide *;
    var part := Spread(Largest(rest), n);
    var chosen, m := from + part, i - |from|;
    SumFollows(from, part, i);
    if y in rest && y !in chosen && y.area > chosen[i].area {
      OnlyTakenBefore(chosen, part, |from|, m, y);
      LargerWasPassedOver(rest, n, chosen[i], y, chosen);
    }
  }

  lemma TopUp(usable: seq<Item>, count: nat, shares: seq<int>, i: nat)
    requires Distinct(usable) && |QUOTAS| == |shares| && BroughtBefore(usable, shares, |QUOTAS|) <= i
    requires i < |ChooseWith(usable, count, shares)|
    ensures var from := FromGroups(usable, shares, |QUOTAS|);
            var rest := Without(usable, from);
            var part := Spread(Largest(rest), count - |from|);
            && ChooseWith(usable, count, shares) == from + part && |from| <= i
            && NoRepeats(part) && (forall x :: x in part ==> x in usable)
            && Distinct(rest) && (forall y :: y in rest <==> y in usable && y !in from)
  {
    hide *;
    var from := FromGroups(usable, shares, |QUOTAS|);
    var rest := Without(usable, from);
    var part := Spread(Largest(rest), count - |from|);
    FromGroupsLength(usable, shares, |QUOTAS|);
    ChoiceIs(usable, count, shares);
    RestOnce(usable, from);
    TopUpMembers(rest, count - |from|);
    assert (from + part)[..|from + part|] == from + part;
  }

  lemma ChoiceIs(usable: seq<Item>, count: nat, shares: seq<int>)
    requires |shares| == |QUOTAS|
    ensures var (chosen, from) := (ChooseWith(usable, count, shares), FromGroups(usable, shares, |QUOTAS|));
            var all := from + Spread(Largest(Without(usable, from)), count - |from|);
            && (|from| >= count ==> |chosen| == count)
            && (|from| < count ==> |chosen| <= count && chosen == if count < |all| then all[..count] else all[..|all|])
  {
    hide FromGroups, Spread, Largest, Without;
  }

  lemma RestOnce(usable: seq<Item>, from: seq<Item>)
    requires Distinct(usable)
    ensures Distinct(Without(usable, from)) && forall y :: y in Without(usable, from) <==> y in usable && y !in from
  {
    WithoutIsTheRest(usable, from);
    forall y ensures y in Without(usable, from) <==> y in usable && y !in from {
      assert y in Without(usable, from) <==> y in Elems(Without(usable, from));
    }
  }

  lemma TopUpMembers(rest: seq<Item>, n: int)
    requires Distinct(rest)
    ensures var part := Spread(Largest(rest), n);
            && NoRepeats(part) && (forall x :: x in part ==> x in rest)
            && (n >= 1 ==> |part| <= n)
  {
    LargestIsPermutation(rest);
    SpreadExact(Largest(rest), n);
    hide Largest, Spread;
    var part := Spread(Largest(rest), n);
    DistinctIsOnce(part);
    forall x | x in part ensures x in rest { assert x in Elems(part) && x in Elems(rest); }
  }

  /** So each group whose quota is filled within the count has at least what its quota brings. */
  lemma QuotaIsMet(usable: seq<Item>, count: nat, shares: seq<int>, k: nat)
    requires Distinct(usable) && k < |QUOTAS| == |shares| && BroughtBefore(usable, shares, k + 1) <= count
    ensures var chosen := ChooseWith(usable, count, shares);
            |set x | x in chosen && GroupOf(x) == QUOTAS[k].0| >= Brought(usable, shares, k)
  {
    hide *;
    var chosen, part := ChooseWith(usable, count, shares), Part(usable, shares, k);
    var start := BroughtBefore(usable, shares, k);
    BroughtMore(usable, shares, k);
    PartMembers(usable, shares, k);
    WithinTheCount(usable, count, shares, k + 1);
    var mine := set x | x in chosen && GroupOf(x) == QUOTAS[k].0;
    forall x | x in part ensures x in mine {
      var m :| 0 <= m < |part| && part[m] == x;
      PartOfChoice(usable, count, shares, k, start + m);
      assert chosen[start + m] == x;
    }
    ElemsWithin(part, mine);
  }

  lemma BroughtMore(usable: seq<Item>, shares: seq<int>, k: nat)
    requires k < |QUOTAS| == |shares|
    ensures BroughtBefore(usable, shares, k + 1) == BroughtBefore(usable, shares, k) + Brought(usable, shares, k)
  {}

  lemma ElemsWithin(part: seq<Item>, mine: set<Item>)
    requires forall x :: x in part ==> x in mine
    ensures |Elems(part)| <= |mine|
  {
    SubsetSize(Elems(part), mine);
  }

  lemma WithinTheCount(usable: seq<Item>, count: nat, shares: seq<int>, k: nat)
    requires Distinct(usable) && k <= |QUOTAS| == |shares| && BroughtBefore(usable, shares, k) <= count
    ensures |ChooseWith(usable, count, shares)| >= BroughtBefore(usable, shares, k)
  {
    FromGroupsLength(usable, shares, k);
    FromGroupsStart(usable, shares, k, |QUOTAS|);
    hide FromGroups, Spread, Largest, Without;
  }
}
