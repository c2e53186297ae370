/** The per-building signature chain: canonical form, signing, the walk, the checkpoint
    test, and the chain the seeder builds.

    Signatures are symbolic: a signature is the key, the previous signature and the signed
    payload themselves, so two signatures are equal only if all three are. That is the
    standard idealisation of a keyed hash nobody can forge or collide. Anything else that
    can be stored in the column is an `Other`. */
module HashChain {
  import opened Rounding
  import opened Wrappers

  datatype Id = Id(text: string)
  type Key = nat

  /** A power printed with four decimals: the minus sign and the digits. */
  datatype FixedKw = FixedKw(negative: bool, units: nat)

  datatype Payload = Payload(building: Id, second: int, kw: FixedKw, source: Id, num: int)

  datatype Sig = Genesis | Mac(key: Key, prev: Sig, payload: Payload) | Other(bytes: nat)

  /** A stored reading; `ts` is in microseconds since the epoch. */
  datatype Row = Row(building: Id, ts: int, kw: real, source: Id, num: int, sig: Sig)

  const KW_UNITS := 10000.0
  const MICROS := 1_000_000

  function Printed(kw: real): FixedKw {
    var magnitude := if kw < 0.0 then -kw else kw;
    var units := RoundHalfEven(magnitude * KW_UNITS);
    FixedKw(kw < 0.0, if units < 0 then 0 else units)
  }

  /** Whole seconds, rounded towards zero. */
  function EpochSeconds(ts: int): int { if ts >= 0 then ts / MICROS else -((-ts) / MICROS) }

  function Canonical(row: Row): Payload {
    Payload(row.building, EpochSeconds(row.ts), Printed(row.kw), row.source, row.num)
  }

  function Sign(key: Key, row: Row, prev: Sig): Sig { Mac(key, prev, Canonical(row)) }

  // ------------------------------------------------ the walk

  datatype Reason = Modified | Deleted | Reordered
  datatype Break = Break(index: int, ts: int, num: int, reason: Reason)
  datatype Verdict = Verdict(ok: bool, checked: nat, firstBreak: Option<Break>)

  function BrokenAt(rows: seq<Row>, i: nat, reason: Reason): Verdict
    requires i < |rows|
  {
    Verdict(false, i, Some(Break(i, rows[i].ts, rows[i].num, reason)))
  }

  function Walk(key: Key, rows: seq<Row>, i: nat, prev: Sig, expected: Option<int>): Verdict
    requires i <= |rows|
    decreases |rows| - i
  {
    if i == |rows| then Verdict(true, |rows|, None)
    else if expected.Some? && rows[i].num != expected.value then
      BrokenAt(rows, i, if rows[i].num > expected.value then Deleted else Reordered)
    else if Sign(key, rows[i], prev) != rows[i].sig then BrokenAt(rows, i, Modified)
    else Walk(key, rows, i + 1, rows[i].sig, Some(rows[i].num + 1))
  }

  method VerifyChain(key: Key, rows: seq<Row>, start: Sig, expectFirst: Option<int>) returns (r: Verdict)
    ensures r == Walk(key, rows, 0, start, expectFirst)
  {
    var prev := start;
    var expected := expectFirst;
    for i := 0 to |rows|
      invariant Walk(key, rows, 0, start, expectFirst) == Walk(key, rows, i, prev, expected)
    {
      var row := rows[i];
      if expected.Some? && row.num != expected.value {
        var reason := if row.num > expected.value then Deleted else Reordered;
        return Verdict(false, i, Some(Break(i, row.ts, row.num, reason)));
      }
      if Sign(key, row, prev) != row.sig {
        return Verdict(false, i, Some(Break(i, row.ts, row.num, Modified)));
      }
      prev := row.sig;
      expected := Some(row.num + 1);
    }
    return Verdict(true, |rows|, None);
  }

  // ------------------------------------------------ what the walk decides

  function PrevSig(rows: seq<Row>, i: nat): Sig
    requires i < |rows|
  {
    if i == 0 then Genesis else rows[i - 1].sig
  }

  /** Row i is numbered and signed as the continuation of row i-1 alone. */
  predicate Follows(key: Key, rows: seq<Row>, i: nat)
    requires i < |rows|
  {
    && (i > 0 ==> rows[i].num == rows[i - 1].num + 1)
    && rows[i].sig == Sign(key, rows[i], PrevSig(rows, i))
  }

  /** The walk the verifier makes: from the genesis value, numbering from the first row. */
  function WalkOf(key: Key, rows: seq<Row>): Verdict
    requires rows != []
  {
    Walk(key, rows, 0, Genesis, Some(rows[0].num))
  }

  predicate Clean(key: Key, rows: seq<Row>) { forall i :: 0 <= i < |rows| ==> Follows(key, rows, i) }

  function ReasonAt(rows: seq<Row>, i: nat): Reason
    requires i < |rows|
  {
    if i > 0 && rows[i].num > rows[i - 1].num + 1 then Deleted
    else if i > 0 && rows[i].num < rows[i - 1].num + 1 then Reordered
    else Modified
  }

  function ExpectedAt(rows: seq<Row>, i: nat): Option<int>
    requires i <= |rows| && rows != []
  {
    if i == 0 then Some(rows[0].num) else Some(rows[i - 1].num + 1)
  }

  lemma {:induction false} WalkFrom(key: Key, rows: seq<Row>, i: nat, k: nat)
    requires rows != [] && i <= k <= |rows|
    requires forall j :: i <= j < k ==> Follows(key, rows, j)
    requires k < |rows| ==> !Follows(key, rows, k)
    ensures Walk(key, rows, i, if i == 0 then Genesis else rows[i - 1].sig, ExpectedAt(rows, i))
         == if k < |rows| then BrokenAt(rows, k, ReasonAt(rows, k)) else Verdict(true, |rows|, None)
    decreases k - i
  {
    if i < k {
      assert Follows(key, rows, i);
      WalkFrom(key, rows, i + 1, k);
    }
  }

  /** The walk is clean exactly on clean chains. */
  lemma WalkAcceptsIff(key: Key, rows: seq<Row>)
    requires rows != []
    ensures WalkOf(key, rows).ok <==> Clean(key, rows)
  {
    if Clean(key, rows) {
      WalkFrom(key, rows, 0, |rows|);
    } else {
      var k := FirstBad(key, rows);
      WalkFrom(key, rows, 0, k);
    }
  }

  lemma FirstBad(key: Key, rows: seq<Row>) returns (k: nat)
    requires !Clean(key, rows)
    ensures k < |rows| && !Follows(key, rows, k) && forall j :: 0 <= j < k ==> Follows(key, rows, j)
  {
    k := 0;
    while Follows(key, rows, k)
      invariant k < |rows| && forall j :: 0 <= j < k ==> Follows(key, rows, j)
      invariant exists j :: k <= j < |rows| && !Follows(key, rows, j)
      decreases |rows| - k
    {
      k := k + 1;
    }
  }

  /** A broken chain is reported at the first row that does not continue its predecessor,
      with the reason its numbering gives. */
  lemma WalkReportsFirstBreak(key: Key, rows: seq<Row>, k: nat)
    requires k < |rows| && !Follows(key, rows, k)
    requires forall j :: 0 <= j < k ==> Follows(key, rows, j)
    ensures WalkOf(key, rows) == BrokenAt(rows, k, ReasonAt(rows, k))
  {
    WalkFrom(key, rows, 0, k);
  }

  /** The report of a break names a row by its place, its time and its number, and counts the
      rows before it as checked; without a break every row is. */
  lemma BreakNamesRow(key: Key, rows: seq<Row>)
    requires rows != []
    ensures var v := WalkOf(key, rows);
            && (v.ok ==> v.firstBreak.None? && v.checked == |rows|)
            && (!v.ok ==> v.firstBreak.Some?)
            && (!v.ok ==>
                  var b := v.firstBreak.value;
                  0 <= b.index == v.checked < |rows| && b.ts == rows[b.index].ts && b.num == rows[b.index].num)
  {
    if Clean(key, rows) {
      WalkFrom(key, rows, 0, |rows|);
    } else {
      var k := FirstUnlinked(key, rows, 0);
      WalkReportsFirstBreak(key, rows, k);
    }
  }

  lemma {:induction false} FirstUnlinked(key: Key, rows: seq<Row>, from: nat) returns (k: nat)
    requires from <= |rows| && !Clean(key, rows) && forall j :: 0 <= j < from ==> Follows(key, rows, j)
    ensures k < |rows| && !Follows(key, rows, k) && forall j :: 0 <= j < k ==> Follows(key, rows, j)
    decreases |rows| - from
  {
    hide Follows;
    if !Follows(key, rows, from) { return from; }
    k := FirstUnlinked(key, rows, from + 1);
  }

  // ------------------------------------------------ chains as they are written

  /** A clean chain numbered from zero, as the seeder and the ingester write it. */
  predicate IsChain(key: Key, rows: seq<Row>) {
    Clean(key, rows) && (rows != [] ==> rows[0].num == 0)
  }

  lemma {:induction false} NumberedFromZero(key: Key, rows: seq<Row>, i: nat)
    requires IsChain(key, rows) && i < |rows|
    ensures rows[i].num == i
  {
    if i > 0 {
      assert Follows(key, rows, i);
      NumberedFromZero(key, rows, i - 1);
    }
  }

  lemma PrefixIsChain(key: Key, rows: seq<Row>, n: nat)
    requires IsChain(key, rows) && n <= |rows|
    ensures IsChain(key, rows[..n])
  {
    forall i | 0 <= i < n ensures Follows(key, rows[..n], i) { assert Follows(key, rows, i); }
  }

  lemma Extend(key: Key, rows: seq<Row>, row: Row)
    requires IsChain(key, rows) && row.num == |rows|
    requires row.sig == Sign(key, row, if rows == [] then Genesis else rows[|rows| - 1].sig)
    ensures IsChain(key, rows + [row])
  {
    var longer := rows + [row];
    forall i | 0 <= i < |longer| ensures Follows(key, longer, i) {
      if i < |rows| {
        assert Follows(key, rows, i);
      } else if i > 0 {
        NumberedFromZero(key, rows, i - 1);
      }
    }
  }

  datatype Checkpoint = Checkpoint(building: Id, ts: int, lastSeq: int, headSig: Sig)

  datatype Seeded = Seeded(rows: seq<Row>, head: Checkpoint)

  /** One building of the seeder: sign the series row by row and anchor the head. An empty
      series has no last row to anchor, which the program meets with an exception. */
  method SeedBuilding(key: Key, building: Id, source: Id, series: seq<(int, real)>, end: int)
    returns (r: Option<Seeded>)
    ensures r.None? <==> series == []
    ensures r.Some? ==>
              && IsChain(key, r.value.rows) && |r.value.rows| == |series|
              && r.value.head == Checkpoint(building, end, |series| - 1, r.value.rows[|series| - 1].sig)
              && forall i :: 0 <= i < |series| ==>
                   var row := r.value.rows[i];
                   && row.building == building && row.source == source && row.num == i
                   && row.ts == series[i].0 && row.kw == Round4(series[i].1)
                   && -0.00005 <= row.kw - series[i].1 <= 0.00005
  {
    var prev := Genesis;
    var rows: seq<Row> := [];
    for n := 0 to |series|
      invariant |rows| == n && IsChain(key, rows)
      invariant prev == if rows == [] then Genesis else rows[|rows| - 1].sig
      invariant forall i :: 0 <= i < n ==>
                  && rows[i].building == building && rows[i].source == source && rows[i].num == i
                  && rows[i].ts == series[i].0 && rows[i].kw == Round4(series[i].1)
                  && -0.00005 <= rows[i].kw - series[i].1 <= 0.00005
    {
      Round4IsNear(series[n].1);
      var row := Row(building, series[n].0, Round4(series[n].1), source, n, Genesis);
      prev := Sign(key, row, prev);
      Extend(key, rows, row.(sig := prev));
      rows := rows + [row.(sig := prev)];
    }
    if rows == [] { return None; }
    return Some(Seeded(rows, Checkpoint(building, end, rows[|rows| - 1].num, rows[|rows| - 1].sig)));
  }

  /** Rounding to four decimals. */
  function Round4(kw: real): real {
    var p := Printed(kw);
    (if p.negative then -(p.units as real) else p.units as real) / KW_UNITS
  }

  lemma Round4IsNear(kw: real)
    ensures -0.00005 <= Round4(kw) - kw <= 0.00005
  {
    PrintedIsNear(kw);
  }

  /** The printed digits are those of the power, to the fourth decimal, and its sign. */
  lemma PrintedIsNear(kw: real)
    ensures var p := Printed(kw);
            && (p.negative <==> kw < 0.0)
            && var shown := if p.negative then -(p.units as real) else p.units as real;
               -0.5 <= kw * 10000.0 - shown <= 0.5
  {
    var magnitude := if kw < 0.0 then -kw else kw;
    RoundMeans(magnitude * KW_UNITS);
    hide RoundHalfEven;
  }

  /** Instants of one second are less than a second apart, on either side of the epoch. */
  lemma SecondIsShort(a: int, b: int)
    requires EpochSeconds(a) == EpochSeconds(b)
    ensures -2_000_000 < a - b < 2_000_000
    ensures (a >= 0 && b >= 0) || (a <= 0 && b <= 0) ==> -1_000_000 < a - b < 1_000_000
  {}

  // ------------------------------------------------ tampering with one row

  lemma FollowsElsewhere(key: Key, rows: seq<Row>, i: nat, row: Row, j: nat)
    requires IsChain(key, rows) && i < |rows| && j < |rows| && j != i && j != i + 1
    ensures Follows(key, rows[i := row], j)
  {
    assert Follows(key, rows, j);
  }

  /** Replacing row i > 0 by any row at all, re-signed or not: the walk stays clean exactly
      when the new row carries the number i, a signature valid on the row before it, and,
      unless it is the last row, the very signature the old row had. */
  lemma ReplacedRowVerdict(key: Key, rows: seq<Row>, i: nat, row: Row)
    requires IsChain(key, rows) && 0 < i < |rows|
    ensures WalkOf(key, rows[i := row]).ok <==>
              && row.num == i
              && row.sig == Sign(key, row, rows[i - 1].sig)
              && (i + 1 < |rows| ==> row.sig == rows[i].sig)
  {
    var t := rows[i := row];
    WalkAcceptsIff(key, t);
    NumberedFromZero(key, rows, i - 1);
    NumberedFromZero(key, rows, i);
    if i + 1 < |rows| {
      assert Follows(key, rows, i + 1);
      NumberedFromZero(key, rows, i + 1);
    }
    if Clean(key, t) {
      assert Follows(key, t, i);
      if i + 1 < |rows| { assert Follows(key, t, i + 1); }
    }
    forall j | 0 <= j < |rows| && j != i && j != i + 1 ensures Follows(key, t, j) {
      FollowsElsewhere(key, rows, i, row, j);
    }
  }

  /** Replacing the first row. It is never told which number to carry, so alone in the
      table any row signed on the genesis value passes; with others behind it only its old
      signature does. */
  lemma ReplacedFirstRowVerdict(key: Key, rows: seq<Row>, row: Row)
    requires IsChain(key, rows) && rows != []
    ensures WalkOf(key, rows[0 := row]).ok <==>
              row.sig == Sign(key, row, Genesis) && (1 < |rows| ==> row.sig == rows[0].sig)
  {
    var t := rows[0 := row];
    WalkAcceptsIff(key, t);
    assert Follows(key, rows, 0);
    if 1 < |rows| { assert Follows(key, rows, 1); }
    if Clean(key, t) {
      assert Follows(key, t, 0);
      if 1 < |rows| { assert Follows(key, t, 1); }
    }
    forall j | 0 <= j < |rows| && j != 0 && j != 1 ensures Follows(key, t, j) {
      FollowsElsewhere(key, rows, 0, row, j);
    }
  }

  /** Editing the data of any row and leaving its signature: unseen exactly when the
      canonical form is unchanged, and otherwise reported at that very row. */
  lemma EditedRowVerdict(key: Key, rows: seq<Row>, i: nat, row: Row)
    requires IsChain(key, rows) && i < |rows| && row.sig == rows[i].sig
    ensures Canonical(row) == Canonical(rows[i]) ==> WalkOf(key, rows[i := row]).ok
    ensures Canonical(row) != Canonical(rows[i]) ==>
              WalkOf(key, rows[i := row]) == BrokenAt(rows[i := row], i, ReasonAt(rows[i := row], i))
  {
    var t := rows[i := row];
    assert Follows(key, rows, i);
    forall j | 0 <= j < i ensures Follows(key, t, j) { FollowsElsewhere(key, rows, i, row, j); }
    if Canonical(row) == Canonical(rows[i]) {
      forall j | 0 <= j < |rows| ensures Follows(key, t, j) { assert Follows(key, rows, j); }
      WalkAcceptsIff(key, t);
    } else {
      assert !Follows(key, t, i);
      WalkReportsFirstBreak(key, t, i);
    }
  }

  /** Of an edit to the time and the reading of a row the chain sees exactly what changes the
      whole second or the printed reading. */
  lemma EditUnseenIff(key: Key, rows: seq<Row>, i: nat, ts: int, kw: real)
    requires IsChain(key, rows) && i < |rows|
    ensures WalkOf(key, rows[i := rows[i].(ts := ts, kw := kw)]).ok <==>
              EpochSeconds(ts) == EpochSeconds(rows[i].ts) && Printed(kw) == Printed(rows[i].kw)
  {
    EditedRowVerdict(key, rows, i, rows[i].(ts := ts, kw := kw));
  }

  /** An edit that moves the reading by more than a ten-thousandth, or the time by a second or
      more, is reported at that very row as modified; across the epoch, where two seconds count
      as one, by two seconds or more. */
  lemma LargeEditIsSeen(key: Key, rows: seq<Row>, i: nat, ts: int, kw: real)
    requires IsChain(key, rows) && i < |rows|
    requires var row := rows[i];
             || kw - row.kw > 0.0001 || row.kw - kw > 0.0001
             || (((ts >= 0 && row.ts >= 0) || (ts <= 0 && row.ts <= 0)) && !(-1_000_000 < ts - row.ts < 1_000_000))
             || !(-2_000_000 < ts - row.ts < 2_000_000)
    ensures var t := rows[i := rows[i].(ts := ts, kw := kw)]; WalkOf(key, t) == BrokenAt(t, i, Modified)
  {
    var row := rows[i].(ts := ts, kw := kw);
    if EpochSeconds(ts) == EpochSeconds(rows[i].ts) { SecondIsShort(ts, rows[i].ts); }
    PrintedIsNear(kw);
    PrintedIsNear(rows[i].kw);
    hide Printed, EpochSeconds;
    assert Canonical(row) != Canonical(rows[i]);
    EditedRowVerdict(key, rows, i, row);
    if i > 0 { assert Follows(key, rows, i); }
  }

  /** So a move of 1.8 seconds across the epoch is not seen. */
  lemma AcrossTheEpoch(key: Key, rows: seq<Row>, i: nat)
    requires IsChain(key, rows) && i < |rows| && rows[i].ts == -900_000
    ensures WalkOf(key, rows[i := rows[i].(ts := 900_000)]).ok
  {
    EditUnseenIff(key, rows, i, 900_000, rows[i].kw);
    assert rows[i].(ts := 900_000, kw := rows[i].kw) == rows[i].(ts := 900_000);
  }

  /** An edit of the building, the source or the number, whatever else is edited with it, is
      reported at that very row: as modified, or by what the number says. */
  lemma FieldEditIsSeen(key: Key, rows: seq<Row>, i: nat, row: Row)
    requires IsChain(key, rows) && i < |rows| && row.sig == rows[i].sig
    requires row.building != rows[i].building || row.source != rows[i].source || row.num != rows[i].num
    ensures var t := rows[i := row];
            WalkOf(key, t) == BrokenAt(t, i, if i == 0 || row.num == i then Modified
                                             else if row.num > i then Deleted else Reordered)
  {
    EditedRowVerdict(key, rows, i, row);
    NumberedFromZero(key, rows, i);
    if i > 0 { NumberedFromZero(key, rows, i - 1); }
  }

  lemma SameSecond(ts: int) returns (ts': int)
    ensures ts' != ts && EpochSeconds(ts') == EpochSeconds(ts)
  {
    ts' := if ts >= 0 then (if ts % MICROS == 0 then ts + 1 else ts - 1)
           else (if (-ts) % MICROS == 0 then ts - 1 else ts + 1);
  }

  lemma PrintedAlike(kw: real) returns (kw': real)
    ensures kw' != kw && Printed(kw') == Printed(kw)
  {
    var magnitude := if kw < 0.0 then -kw else kw;
    var units := RoundsAlike(magnitude * KW_UNITS);
    hide RoundHalfEven;
    var other := units / KW_UNITS;
    assert other * KW_UNITS == units;
    assert other > 0.0 && other != magnitude;
    kw' := if kw < 0.0 then -other else other;
  }

  /** Every row of every chain has such an edit, in both fields at once. */
  lemma EveryRowHasUnseenEdit(key: Key, rows: seq<Row>, i: nat) returns (ts: int, kw: real)
    requires IsChain(key, rows) && i < |rows|
    ensures ts != rows[i].ts && kw != rows[i].kw && WalkOf(key, rows[i := rows[i].(ts := ts, kw := kw)]).ok
  {
    ts := SameSecond(rows[i].ts);
    kw := PrintedAlike(rows[i].kw);
    EditUnseenIff(key, rows, i, ts, kw);
  }

  // ------------------------------------------------ deleting rows

  function Keep(rows: seq<Row>, kept: seq<nat>): seq<Row>
    requires forall i :: 0 <= i < |kept| ==> kept[i] < |rows|
  {
    seq(|kept|, i requires 0 <= i < |kept| => rows[kept[i]])
  }

  predicate Increasing(kept: seq<nat>, n: nat) {
    && (forall i :: 0 <= i < |kept| ==> kept[i] < n)
    && (forall i, j :: 0 <= i < j < |kept| ==> kept[i] < kept[j])
  }

  lemma {:induction false} KeptAtLeast(kept: seq<nat>, n: nat, i: nat)
    requires Increasing(kept, n) && i < |kept|
    ensures kept[i] >= i
  {
    if i > 0 { KeptAtLeast(kept, n, i - 1); }
  }

  /** Deleting any set of rows from a chain: what remains is accepted exactly when it is a
      prefix. Otherwise the break is at the first row out of place, "modified" when the
      head of the table is gone and "deleted" at any later gap. */
  lemma DeletionVerdict(key: Key, rows: seq<Row>, kept: seq<nat>, k: nat)
    requires IsChain(key, rows) && Increasing(kept, |rows|) && kept != []
    requires k <= |kept| && (forall i :: 0 <= i < k ==> kept[i] == i) && (k < |kept| ==> kept[k] != k)
    ensures var rest := Keep(rows, kept);
            WalkOf(key, rest) == if k == |kept| then Verdict(true, |kept|, None)
                                 else BrokenAt(rest, k, if k == 0 then Modified else Deleted)
  {
    var rest := Keep(rows, kept);
    forall i | 0 <= i < k ensures Follows(key, rest, i) {
      assert kept[i] == i;
      assert Follows(key, rows, i);
    }
    if k < |kept| {
      KeptAtLeast(kept, |rows|, k);
      var m := kept[k];
      assert Follows(key, rows, m) && m > k;
      NumberedFromZero(key, rows, m);
      assert Follows(key, rows, m - 1);
      if k > 0 { NumberedFromZero(key, rows, k - 1); }
      WalkReportsFirstBreak(key, rest, k);
    } else {
      WalkFrom(key, rest, 0, |kept|);
    }
  }

  // ------------------------------------------------ what a head signature pins down

  /** Two clean chains with the same head signature have the same signed content, row by
      row, back to the genesis value. */
  lemma {:induction false} HeadPinsHistory(key: Key, a: seq<Row>, b: seq<Row>)
    requires Clean(key, a) && Clean(key, b) && a != [] && b != []
    requires a[|a| - 1].sig == b[|b| - 1].sig
    ensures |a| == |b|
    ensures forall i :: 0 <= i < |a| ==> a[i].sig == b[i].sig && Canonical(a[i]) == Canonical(b[i])
    decreases |a|
  {
    var m, n := |a| - 1, |b| - 1;
    assert Follows(key, a, m) && Follows(key, b, n);
    if m > 0 { assert Follows(key, a, m - 1); }
    if n > 0 { assert Follows(key, b, n - 1); }
    if m > 0 {
      forall i | 0 <= i < m ensures Follows(key, a[..m], i) { assert Follows(key, a, i); }
      forall i | 0 <= i < n ensures Follows(key, b[..n], i) { assert Follows(key, b, i); }
      HeadPinsHistory(key, a[..m], b[..n]);
      forall i | 0 <= i < m ensures a[i].sig == b[i].sig && Canonical(a[i]) == Canonical(b[i]) {
        assert a[..m][i] == a[i] && b[..n][i] == b[i];
      }
    }
  }

  /** With a different key the very first row fails. */
  lemma WrongKeyFailsAtOnce(key: Key, other: Key, rows: seq<Row>)
    requires Clean(key, rows) && rows != [] && other != key
    ensures WalkOf(other, rows) == BrokenAt(rows, 0, Modified)
  {
    assert Follows(key, rows, 0);
    WalkReportsFirstBreak(other, rows, 0);
  }

  // ------------------------------------------------ the checkpoint test

  /** The tail test against an anchored (sequence, signature) pair. */
  function AgainstCheckpoint(rows: seq<Row>, at: int, sig: Sig): Verdict {
    if rows == [] then
      Verdict(at < 0, 0, if at < 0 then None else Some(Break(0, MIN_TS, at, Deleted)))
    else
      var last := rows[|rows| - 1];
      if last.num < at then
        Verdict(false, |rows|, Some(Break(|rows| - 1, last.ts, last.num, Deleted)))
      else if last.num == at && last.sig != sig then
        Verdict(false, |rows|, Some(Break(|rows| - 1, last.ts, last.num, Modified)))
      else Verdict(true, |rows|, None)
  }

  /** The smallest representable date, in the unit of `ts`. */
  const MIN_TS := -62_135_596_800_000_000

  /** Truncation: every proper prefix of a chain still walks clean, and every one of them,
      the empty one included, fails against the recorded head, as a deletion. */
  lemma TruncationNeedsTheAnchor(key: Key, rows: seq<Row>, n: nat)
    requires IsChain(key, rows) && n < |rows|
    ensures n > 0 ==> WalkOf(key, rows[..n]).ok
    ensures var v := AgainstCheckpoint(rows[..n], |rows| - 1, rows[|rows| - 1].sig);
            !v.ok && v.firstBreak.value.reason == Deleted
    ensures AgainstCheckpoint(rows, |rows| - 1, rows[|rows| - 1].sig).ok
  {
    NumberedFromZero(key, rows, |rows| - 1);
    PrefixIsChain(key, rows, n);
    if n > 0 {
      WalkAcceptsIff(key, rows[..n]);
      NumberedFromZero(key, rows, n - 1);
    }
  }

  /** On a chain the test asks for the anchored number of rows, and compares signatures
      only when the anchored row is the last one. */
  lemma CheckpointOnChain(key: Key, rows: seq<Row>, at: nat, sig: Sig)
    requires IsChain(key, rows)
    ensures AgainstCheckpoint(rows, at, sig).ok
       <==> at + 1 < |rows| || (at + 1 == |rows| && sig == rows[at].sig)
  {
    if rows != [] { NumberedFromZero(key, rows, |rows| - 1); }
  }

  // ------------------------------------------------ the guarantee

  /** The tables agree on everything that is signed. */
  predicate SameContent(a: seq<Row>, b: seq<Row>) {
    |a| == |b| && forall i :: 0 <= i < |a| ==> a[i].sig == b[i].sig && Canonical(a[i]) == Canonical(b[i])
  }

  /** Let `history` be every row ever signed for a building and let the anchor record its
      row number `at`. However the table was altered, if the last signature in it is one
      that was really issued, a clean walk and a passed checkpoint test together mean that
      the table is, in everything signed, a prefix of the history that reaches at least
      the anchored row. */
  lemma TamperEvidence(key: Key, history: seq<Row>, at: nat, table: seq<Row>, m: nat)
    requires IsChain(key, history) && at < |history|
    requires m < |history| && table != [] && table[|table| - 1].sig == history[m].sig
    requires WalkOf(key, table).ok && AgainstCheckpoint(table, at, history[at].sig).ok
    ensures at <= m && SameContent(table, history[..m + 1])
  {
    WalkAcceptsIff(key, table);
    PrefixIsChain(key, history, m + 1);
    HeadPinsHistory(key, table, history[..m + 1]);
    var last := |table| - 1;
    assert Canonical(table[last]) == Canonical(history[..m + 1][last]);
    NumberedFromZero(key, history, m);
  }
}
