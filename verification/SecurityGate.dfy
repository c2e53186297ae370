/** The verdict of the security gate over the findings of its scanners and the list of
    accepted exceptions. */
module SecurityGate {
  import opened Wrappers

  datatype Finding = Finding(tool: string, rule: string, path: string, line: int, title: string, suppressed: bool) {
    function Key(): string { tool + ":" + rule }
  }

  /** An accepted finding; `expires` is the last day the acceptance is valid. */
  datatype Entry = Entry(key: string, path: Option<string>, expires: int, owner: string, reason: string)

  predicate Contains(part: string, whole: string) {
    exists i :: 0 <= i <= |whole| && part <= whole[i..]
  }

  predicate Covers(e: Entry, f: Finding) {
    && e.key == f.Key()
    && (e.path.None? || e.path.value == "" || Contains(e.path.value, f.path))
  }

  predicate Expired(e: Entry, today: int) { e.expires < today }

  predicate Excuses(e: Entry, f: Finding, today: int) { !Expired(e, today) && Covers(e, f) }

  /** The first entry, in the order of the list, that excuses the finding. */
  function CoverOf(es: seq<Entry>, f: Finding, today: int): (r: Option<nat>)
    ensures r.Some? ==> r.value < |es| && Excuses(es[r.value], f, today)
    ensures r.Some? ==> forall i :: 0 <= i < r.value ==> !Excuses(es[i], f, today)
    ensures r.None? ==> forall i :: 0 <= i < |es| ==> !Excuses(es[i], f, today)
  {
    if es == [] then None
    else
      var n := |es| - 1;
      var before := CoverOf(es[..n], f, today);
      if before.Some? then before else if Excuses(es[n], f, today) then Some(n) else None
  }

  function Live(fs: seq<Finding>): seq<Finding> {
    if fs == [] then [] else Live(fs[..|fs| - 1]) + if fs[|fs| - 1].suppressed then [] else [fs[|fs| - 1]]
  }

  function Suppressed(fs: seq<Finding>): seq<Finding> {
    if fs == [] then [] else Suppressed(fs[..|fs| - 1]) + if fs[|fs| - 1].suppressed then [fs[|fs| - 1]] else []
  }

  function Blocking(fs: seq<Finding>, es: seq<Entry>, today: int): seq<Finding> {
    if fs == [] then []
    else
      var last := fs[|fs| - 1];
      Blocking(fs[..|fs| - 1], es, today) + if CoverOf(es, last, today).None? then [last] else []
  }

  /** The excused findings, each with the entry that excuses it. */
  function Excused(fs: seq<Finding>, es: seq<Entry>, today: int): seq<(Finding, Entry)> {
    if fs == [] then []
    else
      var last := fs[|fs| - 1];
      var cover := CoverOf(es, last, today);
      Excused(fs[..|fs| - 1], es, today) + if cover.Some? then [(last, es[cover.value])] else []
  }

  /** What has been matched against the entry at `i`. */
  function Matched(fs: seq<Finding>, es: seq<Entry>, today: int, i: nat): seq<Finding> {
    if fs == [] then []
    else
      var last := fs[|fs| - 1];
      Matched(fs[..|fs| - 1], es, today, i) + if CoverOf(es, last, today) == Some(i) then [last] else []
  }

  /** The indices of the entries that are still valid and that no finding needed. */
  function Unused(fs: seq<Finding>, es: seq<Entry>, today: int, upTo: nat): (r: seq<nat>)
    requires upTo <= |es|
    ensures forall k :: 0 <= k < |r| ==> r[k] < upTo
  {
    if upTo == 0 then []
    else
      var i := upTo - 1;
      Unused(fs, es, today, i) + if Idle(fs, es, today, i) then [i] else []
  }

  predicate Idle(fs: seq<Finding>, es: seq<Entry>, today: int, i: nat)
    requires i < |es|
  {
    !Expired(es[i], today) && Matched(fs, es, today, i) == []
  }

  datatype Verdict = Verdict(blocking: seq<Finding>, excused: seq<(Finding, Entry)>, suppressed: seq<Finding>,
                             expired: seq<Entry>, unused: seq<nat>, exit: int)

  function ExpiredOf(es: seq<Entry>, today: int): seq<Entry> {
    if es == [] then []
    else
      var last := es[|es| - 1];
      ExpiredOf(es[..|es| - 1], today) + if Expired(last, today) then [last] else []
  }

  function VerdictOf(fs: seq<Finding>, es: seq<Entry>, today: int): Verdict {
    var live := Live(fs);
    var blocking, expired := Blocking(live, es, today), ExpiredOf(es, today);
    Verdict(blocking, Excused(live, es, today), Suppressed(fs), expired, Unused(live, es, today, |es|),
            if blocking != [] || expired != [] then 1 else 0)
  }

  /** The program: the suppressed findings are set aside, one pass over the others notes on
      each entry what it was matched with, and one pass over the entries follows. */
  method Judge(fs: seq<Finding>, es: seq<Entry>, today: int) returns (v: Verdict)
    ensures v == VerdictOf(fs, es, today)
  {
    hide CoverOf, Matched, Blocking, Excused, Live;
    var live, suppressed := SetAside(fs);
    var blocking, excused, matched := Match(live, es, today);
    var expired, unused: seq<nat> := [], [];
    for i := 0 to |es|
      invariant expired == ExpiredOf(es[..i], today) && unused == Unused(live, es, today, i)
    {
      assert es[..i + 1][..i] == es[..i];
      if Expired(es[i], today) { expired := expired + [es[i]]; }
      else if matched[i] == [] { unused := unused + [i]; }
    }
    assert es[..|es|] == es;
    v := Verdict(blocking, excused, suppressed, expired, unused, if blocking != [] || expired != [] then 1 else 0);
  }

  method SetAside(fs: seq<Finding>) returns (live: seq<Finding>, suppressed: seq<Finding>)
    ensures live == Live(fs) && suppressed == Suppressed(fs)
  {
    suppressed, live := [], [];
    for i := 0 to |fs|
      invariant suppressed == Suppressed(fs[..i]) && live == Live(fs[..i])
    {
      assert fs[..i + 1][..i] == fs[..i];
      if fs[i].suppressed { suppressed := suppressed + [fs[i]]; } else { live := live + [fs[i]]; }
    }
    assert fs[..|fs|] == fs;
  }

  method Match(live: seq<Finding>, es: seq<Entry>, today: int)
    returns (blocking: seq<Finding>, excused: seq<(Finding, Entry)>, matched: seq<seq<Finding>>)
    ensures blocking == Blocking(live, es, today) && excused == Excused(live, es, today)
    ensures |matched| == |es| && forall k :: 0 <= k < |es| ==> matched[k] == Matched(live, es, today, k)
  {
    hide CoverOf;
    blocking, excused, matched := [], [], seq(|es|, i => []);
    for i := 0 to |live|
      invariant |matched| == |es|
      invariant blocking == Blocking(live[..i], es, today) && excused == Excused(live[..i], es, today)
      invariant forall k :: 0 <= k < |es| ==> matched[k] == Matched(live[..i], es, today, k)
    {
      assert live[..i + 1][..i] == live[..i];
      var cover := FirstCover(es, live[i], today);
      if cover.None? {
        blocking := blocking + [live[i]];
      } else {
        matched := matched[cover.value := matched[cover.value] + [live[i]]];
        excused := excused + [(live[i], es[cover.value])];
      }
    }
    assert live[..|live|] == live;
  }

  method FirstCover(es: seq<Entry>, f: Finding, today: int) returns (r: Option<nat>)
    ensures r == CoverOf(es, f, today)
  {
    for i := 0 to |es|
      invariant forall k :: 0 <= k < i ==> !Excuses(es[k], f, today)
    {
      if Excuses(es[i], f, today) { return Some(i); }
    }
    r := None;
  }

  // ------------------------------------------------ what the exit code means

  lemma {:induction false} LiveMeans(fs: seq<Finding>)
    ensures forall f :: f in Live(fs) <==> f in fs && !f.suppressed
  {
    if fs != [] {
      LiveMeans(fs[..|fs| - 1]);
      assert fs == fs[..|fs| - 1] + [fs[|fs| - 1]];
    }
  }

  lemma {:induction false} BlockingMeans(fs: seq<Finding>, es: seq<Entry>, today: int)
    ensures forall f :: f in Blocking(fs, es, today) <==> f in fs && CoverOf(es, f, today).None?
  {
    if fs != [] {
      BlockingMeans(fs[..|fs| - 1], es, today);
      assert fs == fs[..|fs| - 1] + [fs[|fs| - 1]];
    }
  }

  lemma {:induction false} ExpiredMeans(es: seq<Entry>, today: int)
    ensures forall e :: e in ExpiredOf(es, today) <==> e in es && Expired(e, today)
  {
    if es != [] {
      ExpiredMeans(es[..|es| - 1], today);
      assert es == es[..|es| - 1] + [es[|es| - 1]];
    }
  }

  predicate Accepted(f: Finding, es: seq<Entry>, today: int) {
    f.suppressed || exists i :: 0 <= i < |es| && Excuses(es[i], f, today)
  }

  /** The build passes exactly when no exception has expired and every finding was either
      suppressed in the source or is covered by an exception. */
  lemma PassesIff(fs: seq<Finding>, es: seq<Entry>, today: int)
    ensures VerdictOf(fs, es, today).exit == 0 <==>
              && (forall i :: 0 <= i < |es| ==> !Expired(es[i], today))
              && (forall i :: 0 <= i < |fs| ==> Accepted(fs[i], es, today))
  {
    NoneBlockingIff(fs, es, today);
    NoneExpiredIff(es, today);
    hide Accepted, Expired, Blocking, Live, ExpiredOf, Excused, Suppressed, Unused;
  }

  lemma NoneBlockingIff(fs: seq<Finding>, es: seq<Entry>, today: int)
    ensures Blocking(Live(fs), es, today) == [] <==> forall i :: 0 <= i < |fs| ==> Accepted(fs[i], es, today)
  {
    LiveMeans(fs);
    BlockingMeans(Live(fs), es, today);
    hide Blocking, Live, CoverOf, Excuses;
    var blocking := Blocking(Live(fs), es, today);
    if blocking != [] {
      assert blocking[0] in blocking;
      var i :| 0 <= i < |fs| && fs[i] == blocking[0];
      assert !Accepted(fs[i], es, today);
    } else {
      forall i | 0 <= i < |fs| ensures Accepted(fs[i], es, today) { assert fs[i] in fs; }
    }
  }

  lemma NoneExpiredIff(es: seq<Entry>, today: int)
    ensures ExpiredOf(es, today) == [] <==> forall i :: 0 <= i < |es| ==> !Expired(es[i], today)
  {
    ExpiredMeans(es, today);
    hide ExpiredOf, Expired;
    var expired := ExpiredOf(es, today);
    if expired != [] { assert expired[0] in expired; }
  }

  /** The expired exceptions that are listed: those past their last day, each as often as given. */
  lemma {:induction false} ExpiredAreListed(es: seq<Entry>, today: int, e: Entry)
    ensures multiset(ExpiredOf(es, today))[e] == if today > e.expires then multiset(es)[e] else 0
  {
    hide *;
    OneMoreExpired(es, today);
    if es != [] { ExpiredAreListed(es[..|es| - 1], today, e); }
  }

  lemma OneMoreExpired(es: seq<Entry>, today: int)
    ensures es == [] ==> ExpiredOf(es, today) == []
    ensures es != [] ==>
              var (rest, last) := (es[..|es| - 1], es[|es| - 1]);
              && multiset(es) == multiset(rest) + multiset{last}
              && multiset(ExpiredOf(es, today))
                   == multiset(ExpiredOf(rest, today)) + if today > last.expires then multiset{last} else multiset{}
  {
    if es != [] { assert es == es[..|es| - 1] + [es[|es| - 1]]; }
  }

  /** The scope of an entry, when it has one, is somewhere in the path. */
  ghost predicate InScope(e: Entry, path: string) {
    e.path.None? || e.path.value == "" || exists start, rest: string :: path == start + e.path.value + rest
  }

  /** An entry covers a finding of its tool and rule, wherever it is or only within its scope. */
  lemma CoversIff(e: Entry, f: Finding)
    ensures Covers(e, f) <==> e.key == f.tool + ":" + f.rule && InScope(e, f.path)
  {
    if e.path.Some? { ContainsIff(e.path.value, f.path); }
    hide Contains;
  }

  lemma ContainsIff(part: string, whole: string)
    ensures Contains(part, whole) <==> exists start, rest: string :: whole == start + part + rest
  {
    hide *;
    if Contains(part, whole) { var start, rest := Around(part, whole); }
    if exists start, rest: string :: whole == start + part + rest {
      var start, rest: string :| whole == start + part + rest;
      Inside(part, start, rest);
    }
  }

  lemma Around(part: string, whole: string) returns (start: string, rest: string)
    requires Contains(part, whole)
    ensures whole == start + part + rest
  {
    var i :| 0 <= i <= |whole| && part <= whole[i..];
    start, rest := whole[..i], whole[i + |part|..];
  }

  lemma Inside(part: string, start: string, rest: string)
    ensures Contains(part, start + part + rest)
  {
    assert (start + part + rest)[|start|..] == part + rest;
  }

  /** The verdict from the dates, the names and the paths alone: the build passes exactly when
      no exception is past its last day and every finding is suppressed in the source or named
      by an exception in whose scope it is. */
  lemma PassesInFullIff(fs: seq<Finding>, es: seq<Entry>, today: int)
    ensures VerdictOf(fs, es, today).exit == 0 <==>
              && (forall i :: 0 <= i < |es| ==> today <= es[i].expires)
              && (forall f :: f in fs && !f.suppressed ==>
                    exists e :: e in es && e.key == f.tool + ":" + f.rule && InScope(e, f.path))
  {
    PassesIff(fs, es, today);
    if forall i :: 0 <= i < |es| ==> today <= es[i].expires {
      hide VerdictOf, Covers, InScope;
      forall f | f in fs && !f.suppressed
        ensures Accepted(f, es, today) <==>
                  exists e :: e in es && e.key == f.tool + ":" + f.rule && InScope(e, f.path)
      {
        AcceptedIff(f, es, today);
      }
    }
  }

  lemma AcceptedIff(f: Finding, es: seq<Entry>, today: int)
    requires !f.suppressed && forall i :: 0 <= i < |es| ==> today <= es[i].expires
    ensures Accepted(f, es, today) <==> exists e :: e in es && e.key == f.tool + ":" + f.rule && InScope(e, f.path)
  {
    hide Covers, InScope;
    if Accepted(f, es, today) {
      var i :| 0 <= i < |es| && Excuses(es[i], f, today);
      CoversIff(es[i], f);
    }
    if exists e :: e in es && e.key == f.tool + ":" + f.rule && InScope(e, f.path) {
      var e :| e in es && e.key == f.tool + ":" + f.rule && InScope(e, f.path);
      CoversIff(e, f);
      var i :| 0 <= i < |es| && es[i] == e;
      assert Excuses(es[i], f, today);
    }
  }

  /** Neither the order of the reports nor the order of the list matters. */
  lemma OrderIrrelevant(fs: seq<Finding>, fs': seq<Finding>, es: seq<Entry>, es': seq<Entry>, today: int)
    requires multiset(fs) == multiset(fs') && multiset(es) == multiset(es')
    ensures VerdictOf(fs, es, today).exit == VerdictOf(fs', es', today).exit
  {
    PassesIff(fs, es, today);
    PassesIff(fs', es', today);
    if VerdictOf(fs, es, today).exit == 0 { PassesElsewhere(fs, fs', es, es', today); }
    if VerdictOf(fs', es', today).exit == 0 { PassesElsewhere(fs', fs, es', es, today); }
  }

  lemma PassesElsewhere(fs: seq<Finding>, fs': seq<Finding>, es: seq<Entry>, es': seq<Entry>, today: int)
    requires multiset(fs) == multiset(fs') && multiset(es) == multiset(es')
    requires VerdictOf(fs, es, today).exit == 0
    ensures VerdictOf(fs', es', today).exit == 0
  {
    PassesIff(fs, es, today);
    PassesIff(fs', es', today);
    forall i | 0 <= i < |es'| ensures !Expired(es'[i], today) {
      assert es'[i] in multiset(es);
    }
    forall i | 0 <= i < |fs'| ensures Accepted(fs'[i], es', today) {
      assert fs'[i] in multiset(fs);
      var k :| 0 <= k < |fs| && fs[k] == fs'[i];
      assert Accepted(fs[k], es, today);
      if !fs[k].suppressed {
        var j :| 0 <= j < |es| && Excuses(es[j], fs[k], today);
        assert es[j] in multiset(es');
      }
    }
  }

  /** More findings never turn a failing build into a passing one. */
  lemma FindingsOnlyHurt(fs: seq<Finding>, more: seq<Finding>, es: seq<Entry>, today: int)
    requires VerdictOf(fs, es, today).exit != 0
    ensures VerdictOf(fs + more, es, today).exit != 0
  {
    PassesIff(fs, es, today);
    PassesIff(fs + more, es, today);
    if VerdictOf(fs + more, es, today).exit == 0 {
      forall i | 0 <= i < |fs| ensures Accepted(fs[i], es, today) { assert (fs + more)[i] == fs[i]; }
    }
  }

  lemma {:induction false} SuppressedMeans(fs: seq<Finding>)
    ensures forall f :: f in Suppressed(fs) <==> f in fs && f.suppressed
  {
    if fs != [] {
      SuppressedMeans(fs[..|fs| - 1]);
      assert fs == fs[..|fs| - 1] + [fs[|fs| - 1]];
    }
  }

  /** Each excused finding is listed with a valid entry that covers it, and no entry above that
      one does. */
  lemma {:induction false} ExcusedMeans(fs: seq<Finding>, es: seq<Entry>, today: int, p: (Finding, Entry))
    requires p in Excused(fs, es, today)
    ensures p.0 in fs && exists i :: 0 <= i < |es| && es[i] == p.1 && Excuses(es[i], p.0, today)
                                    && forall k :: 0 <= k < i ==> !Excuses(es[k], p.0, today)
  {
    hide Excuses;
    var n := |fs| - 1;
    if p in Excused(fs[..n], es, today) {
      ExcusedMeans(fs[..n], es, today, p);
    } else {
      var i := CoverOf(es, fs[n], today).value;
      assert es[i] == p.1;
    }
  }

  /** Every finding ends in exactly one of the three lists. */
  lemma {:induction false} NoneLost(fs: seq<Finding>, es: seq<Entry>, today: int)
    ensures var v := VerdictOf(fs, es, today); |v.blocking| + |v.excused| + |v.suppressed| == |fs|
  {
    SplitLive(fs);
    SplitJudged(Live(fs), es, today);
  }

  lemma {:induction false} SplitLive(fs: seq<Finding>)
    ensures |Live(fs)| + |Suppressed(fs)| == |fs|
  {
    if fs != [] { SplitLive(fs[..|fs| - 1]); }
  }

  lemma {:induction false} SplitJudged(fs: seq<Finding>, es: seq<Entry>, today: int)
    ensures |Blocking(fs, es, today)| + |Excused(fs, es, today)| == |fs|
  {
    if fs != [] { SplitJudged(fs[..|fs| - 1], es, today); }
  }

  // ------------------------------------------------ deleting what is unused

  /** The entries whose flag is set. */
  function Kept(es: seq<Entry>, keep: seq<bool>): seq<Entry>
    requires |keep| == |es|
  {
    if es == [] then []
    else
      var n := |es| - 1;
      Kept(es[..n], keep[..n]) + if keep[n] then [es[n]] else []
  }

  /** How many flags are set before `i`. */
  function Rank(keep: seq<bool>, i: nat): nat
    requires i <= |keep|
  {
    if i == 0 then 0 else Rank(keep, i - 1) + if keep[i - 1] then 1 else 0
  }

  lemma {:induction false} RankOfPrefix(keep: seq<bool>, n: nat, i: nat)
    requires i <= n <= |keep|
    ensures Rank(keep[..n], i) == Rank(keep, i)
  {
    if i > 0 { RankOfPrefix(keep, n, i - 1); }
  }

  lemma {:induction false} KeptLength(es: seq<Entry>, keep: seq<bool>)
    requires |keep| == |es|
    ensures |Kept(es, keep)| == Rank(keep, |keep|)
  {
    if es != [] {
      KeptLength(es[..|es| - 1], keep[..|es| - 1]);
      RankOfPrefix(keep, |es| - 1, |es| - 1);
    }
  }

  /** Which entry stands at `j` after the deletion. */
  lemma {:induction false} KeptAt(es: seq<Entry>, keep: seq<bool>, j: nat) returns (i: nat)
    requires |keep| == |es| && j < |Kept(es, keep)|
    ensures i < |es| && keep[i] && Rank(keep, i) == j && es[i] == Kept(es, keep)[j]
  {
    var n := |es| - 1;
    if j < |Kept(es[..n], keep[..n])| {
      i := KeptAt(es[..n], keep[..n], j);
      RankOfPrefix(keep, n, i);
    } else {
      i := n;
      KeptLength(es[..n], keep[..n]);
      RankOfPrefix(keep, n, n);
    }
  }

  /** Deleting entries that are not the one a finding is excused by changes nothing for it:
      the same entry, at its new place, still excuses it. */
  lemma {:induction false} CoverAfterDeletion(es: seq<Entry>, keep: seq<bool>, f: Finding, today: int)
    requires |keep| == |es|
    requires CoverOf(es, f, today).Some? ==> keep[CoverOf(es, f, today).value]
    ensures var c, c' := CoverOf(es, f, today), CoverOf(Kept(es, keep), f, today);
            && (c.None? <==> c'.None?)
            && (c.Some? ==> c'.value == Rank(keep, c.value) && Kept(es, keep)[c'.value] == es[c.value])
  {
    if es != [] {
      var n := |es| - 1;
      var before := Kept(es[..n], keep[..n]);
      CoverAfterDeletion(es[..n], keep[..n], f, today);
      KeptLength(es[..n], keep[..n]);
      RankOfPrefix(keep, n, n);
      var c := CoverOf(es, f, today);
      if c.Some? { RankOfPrefix(keep, n, if c.value < n then c.value else n); }
      if keep[n] {
        assert Kept(es, keep)[..|before|] == before;
      } else {
        assert Kept(es, keep) == before;
      }
    }
  }

  /** Keep every entry that is expired or that some finding needed. */
  function InUse(fs: seq<Finding>, es: seq<Entry>, today: int): seq<bool> {
    seq(|es|, i requires 0 <= i < |es| => Expired(es[i], today) || Matched(fs, es, today, i) != [])
  }

  lemma {:induction false} MatchedWitness(fs: seq<Finding>, es: seq<Entry>, today: int, i: nat) returns (k: nat)
    requires Matched(fs, es, today, i) != []
    ensures k < |fs| && CoverOf(es, fs[k], today) == Some(i)
  {
    k := |fs| - 1;
    if CoverOf(es, fs[k], today) != Some(i) { k := MatchedWitness(fs[..k], es, today, i); }
  }

  lemma {:induction false} MatchedBy(fs: seq<Finding>, es: seq<Entry>, today: int, i: nat, k: nat)
    requires k < |fs| && CoverOf(es, fs[k], today) == Some(i)
    ensures Matched(fs, es, today, i) != []
  {
    if k < |fs| - 1 { MatchedBy(fs[..|fs| - 1], es, today, i, k); }
  }

  lemma {:induction false} SameJudgement(fs: seq<Finding>, es: seq<Entry>, es': seq<Entry>, today: int)
    requires forall k :: 0 <= k < |fs| ==> SameCover(fs[k], es, es', today)
    ensures Blocking(fs, es, today) == Blocking(fs, es', today) && Excused(fs, es, today) == Excused(fs, es', today)
  {
    if fs != [] {
      assert SameCover(fs[|fs| - 1], es, es', today);
      SameJudgement(fs[..|fs| - 1], es, es', today);
    }
  }

  predicate SameCover(f: Finding, es: seq<Entry>, es': seq<Entry>, today: int) {
    var c, c' := CoverOf(es, f, today), CoverOf(es', f, today);
    if c.None? then c'.None? else c'.Some? && es'[c'.value] == es[c.value]
  }

  lemma {:induction false} ExpiredKept(es: seq<Entry>, keep: seq<bool>, today: int)
    requires |keep| == |es| && forall i :: 0 <= i < |es| && Expired(es[i], today) ==> keep[i]
    ensures ExpiredOf(Kept(es, keep), today) == ExpiredOf(es, today)
  {
    if es != [] {
      var n := |es| - 1;
      var before := Kept(es[..n], keep[..n]);
      ExpiredKept(es[..n], keep[..n], today);
      if keep[n] { assert Kept(es, keep)[..|before|] == before; } else { assert Kept(es, keep) == before; }
    }
  }

  lemma {:induction false} UnusedMeans(fs: seq<Finding>, es: seq<Entry>, today: int, upTo: nat)
    requires upTo <= |es|
    ensures forall i: nat :: i in Unused(fs, es, today, upTo) <==> i < upTo && Idle(fs, es, today, i)
  {
    if upTo > 0 {
      hide Idle;
      UnusedMeans(fs, es, today, upTo - 1);
    }
  }

  /** Deleting every entry that was reported unused leaves what blocks, what is excused and
      by what, what has expired and the exit code as they were, and leaves nothing unused. */
  lemma UnusedCanGo(fs: seq<Finding>, es: seq<Entry>, today: int)
    ensures var after := Kept(es, InUse(Live(fs), es, today));
            var v, v' := VerdictOf(fs, es, today), VerdictOf(fs, after, today);
            v' == v.(unused := [])
    ensures forall i :: 0 <= i < |es| ==>
              (!InUse(Live(fs), es, today)[i] <==> i in VerdictOf(fs, es, today).unused)
  {
    var live := Live(fs);
    var keep := InUse(live, es, today);
    var after := Kept(es, keep);
    UnusedMeans(live, es, today, |es|);
    forall k | 0 <= k < |live| ensures SameCover(live[k], es, after, today) {
      KeptForFinding(live, es, today, k);
    }
    SameJudgement(live, es, after, today);
    ExpiredKept(es, keep, today);
    NothingUnusedAfter(live, es, today);
  }

  lemma KeptForFinding(live: seq<Finding>, es: seq<Entry>, today: int, k: nat)
    requires k < |live|
    ensures var keep := InUse(live, es, today);
            var c := CoverOf(es, live[k], today);
            && SameCover(live[k], es, Kept(es, keep), today)
            && (c.Some? ==> keep[c.value] && CoverOf(Kept(es, keep), live[k], today) == Some(Rank(keep, c.value)))
  {
    var c := CoverOf(es, live[k], today);
    if c.Some? { MatchedBy(live, es, today, c.value, k); }
    CoverAfterDeletion(es, InUse(live, es, today), live[k], today);
  }

  lemma NothingUnusedAfter(live: seq<Finding>, es: seq<Entry>, today: int)
    ensures var after := Kept(es, InUse(live, es, today)); Unused(live, after, today, |after|) == []
  {
    var keep := InUse(live, es, today);
    var after := Kept(es, keep);
    UnusedMeans(live, after, today, |after|);
    var unused := Unused(live, after, today, |after|);
    if unused != [] {
      var j := unused[0];
      assert j in unused;
      var i := KeptAt(es, keep, j);
      var k := MatchedWitness(live, es, today, i);
      KeptForFinding(live, es, today, k);
      MatchedBy(live, after, today, j, k);
    }
  }
}
