/** The integrity report for one building, and the verifier running while the ingester
    writes rows and checkpoints.

    The anchor file is a sequence of lines, the database's own checkpoints a sequence of
    rows. Steps are the commits of the ingester, each line it appends to the file, a
    restart, and the three reads of the verifier. A step that cannot be taken changes
    nothing. */
module ChainVerifier {
  import opened HashChain
  import opened Ingester
  import opened Wrappers

  // ------------------------------------------------ reading the anchor

  /** The first line with the largest number for this building. */
  function Scan(lines: seq<Checkpoint>, b: Id): Option<Checkpoint> {
    if lines == [] then None
    else
      var n := |lines| - 1;
      var best := Scan(lines[..n], b);
      if lines[n].building != b then best
      else if best.None? || lines[n].lastSeq > best.value.lastSeq then Some(lines[n])
      else best
  }

  /** Scan only the end of the file, and all of it when the building is not there. */
  function Latest(lines: seq<Checkpoint>, b: Id, skipped: nat): Option<Checkpoint>
    requires skipped <= |lines|
  {
    var found := Scan(lines[skipped..], b);
    if found.Some? || skipped == 0 then found else Scan(lines, b)
  }

  lemma {:induction false} ScanFinds(lines: seq<Checkpoint>, b: Id)
    ensures var r := Scan(lines, b);
            && (r.Some? ==> r.value in lines && r.value.building == b)
            && (forall i :: 0 <= i < |lines| && lines[i].building == b ==>
                  r.Some? && lines[i].lastSeq <= r.value.lastSeq)
  {
    if lines != [] {
      var n := |lines| - 1;
      ScanFinds(lines[..n], b);
      assert forall i :: 0 <= i < n ==> lines[..n][i] == lines[i];
    }
  }

  /** Of lines with one number the first is taken. */
  lemma {:induction false} ScanIsFirst(lines: seq<Checkpoint>, b: Id) returns (i: nat)
    requires Scan(lines, b).Some?
    ensures i < |lines| && lines[i] == Scan(lines, b).value
    ensures forall k :: 0 <= k < i && lines[k].building == b ==> lines[k].lastSeq < lines[i].lastSeq
  {
    var n := |lines| - 1;
    ScanFinds(lines[..n], b);
    assert forall k :: 0 <= k < n ==> lines[..n][k] == lines[k];
    if Scan(lines[..n], b) == Scan(lines, b) { i := ScanIsFirst(lines[..n], b); } else { i := n; }
  }

  /** Lines of one building are appended with numbers that never decrease. */
  predicate NonDecreasing(lines: seq<Checkpoint>, b: Id) {
    forall i, j :: 0 <= i < j < |lines| && lines[i].building == b == lines[j].building ==>
      lines[i].lastSeq <= lines[j].lastSeq
  }

  /** Reading only the end of the file finds the same head number as reading all of it. */
  lemma TailIsEnough(lines: seq<Checkpoint>, b: Id, skipped: nat)
    requires skipped <= |lines| && NonDecreasing(lines, b)
    ensures var tail, all := Latest(lines, b, skipped), Scan(lines, b);
            && (tail.None? <==> all.None?)
            && (tail.Some? ==> tail.value in lines && tail.value.building == b)
            && (tail.Some? ==> tail.value.lastSeq == all.value.lastSeq)
  {
    var tail := lines[skipped..];
    ScanFinds(lines, b);
    ScanFinds(tail, b);
    if Scan(tail, b).Some? {
      var i :| 0 <= i < |lines| && lines[i] == Scan(lines, b).value;
      var k :| 0 <= k < |tail| && tail[k] == Scan(tail, b).value;
      assert lines[skipped + k] == tail[k];
      if i >= skipped { assert tail[i - skipped] == lines[i]; }
    }
  }

  // ------------------------------------------------ the report

  datatype Hint = NoHint | TableEmptied | CheckKey | TailDeleted | AnchorsDisagree

  datatype Report = Report(rows: nat, chainOk: bool, checkpointOk: Option<bool>, checkpointSeq: Option<int>,
                           anchored: bool, anchorMatchesDatabase: Option<bool>, firstBreak: Option<Break>, hint: Hint)

  function HintFor(firstRowFailed: bool, checkpointOk: Option<bool>, matches: Option<bool>): Hint {
    if firstRowFailed then CheckKey
    else if checkpointOk == Some(false) then TailDeleted
    else if matches == Some(false) then AnchorsDisagree
    else NoHint
  }

  /** The report made from a checkpoint the caller may have given, the latest anchor, the
      database's newest checkpoint and the rows. */
  function ReportOf(key: Key, givenSeq: Option<int>, givenSig: Option<Sig>,
                    latest: Option<Checkpoint>, stored: Option<Checkpoint>, rows: seq<Row>): Report {
    var anchor := if givenSeq.None? || givenSig.None? then latest else None;
    var num := if anchor.Some? then Some(anchor.value.lastSeq) else givenSeq;
    var sig := if anchor.Some? then Some(anchor.value.headSig) else givenSig;
    var matches := if anchor.Some? && stored.Some? then
                     Some(anchor.value.lastSeq == stored.value.lastSeq && anchor.value.headSig == stored.value.headSig)
                   else None;
    var checkpointOk := if num.Some? && sig.Some? then Some(AgainstCheckpoint(rows, num.value, sig.value).ok) else None;
    if rows == [] then
      Report(0, if checkpointOk.None? then true else checkpointOk.value, checkpointOk, num, anchor.Some?, matches, None,
             if checkpointOk == Some(false) then TableEmptied else NoHint)
    else
      var walk := WalkOf(key, rows);
      var b := walk.firstBreak;
      var firstRowFailed := b.Some? && b.value.index == 0 && b.value.reason == Modified;
      Report(|rows|, walk.ok, checkpointOk, num, anchor.Some?, matches, walk.firstBreak,
             HintFor(firstRowFailed, checkpointOk, matches))
  }

  /** The two copies match exactly when both are there and agree in number and signature. On an
      intact chain that the anchor vouches for, copies that do not are all there is to tell. */
  lemma MatchIff(key: Key, latest: Option<Checkpoint>, stored: Option<Checkpoint>, rows: seq<Row>)
    ensures var r := ReportOn(key, latest, stored, rows);
            && (r.anchorMatchesDatabase.None? <==> latest.None? || stored.None?)
            && (r.anchorMatchesDatabase == Some(true) ==>
                  latest.value.lastSeq == stored.value.lastSeq && latest.value.headSig == stored.value.headSig)
            && (r.anchorMatchesDatabase == Some(false) ==>
                  latest.value.lastSeq != stored.value.lastSeq || latest.value.headSig != stored.value.headSig)
            && (r.chainOk && r.checkpointOk != Some(false) ==>
                  (r.hint == AnchorsDisagree <==> rows != [] && r.anchorMatchesDatabase == Some(false))
                  && (r.hint == NoHint <==> rows == [] || r.anchorMatchesDatabase != Some(false)))
  {
    if rows != [] { BreakNamesRow(key, rows); }
    hide WalkOf, AgainstCheckpoint;
  }

  /** The report on the anchor file, as the endpoint asks for it. */
  function ReportOn(key: Key, latest: Option<Checkpoint>, stored: Option<Checkpoint>, rows: seq<Row>): Report {
    ReportOf(key, None, None, latest, stored, rows)
  }

  /** A checkpoint the caller gives in full stands in for the anchor: the rows are tested against
      it, the file plays no part, and the two copies are not compared. Given in part it counts
      for nothing as soon as there is an anchor. */
  lemma GivenCheckpoint(key: Key, seq_: int, sig: Sig, latest: Option<Checkpoint>, stored: Option<Checkpoint>,
                        rows: seq<Row>)
    ensures var r := ReportOf(key, Some(seq_), Some(sig), latest, stored, rows);
            && !r.anchored && r.anchorMatchesDatabase.None? && r.checkpointSeq == Some(seq_)
            && r.checkpointOk == Some(AgainstCheckpoint(rows, seq_, sig).ok)
    ensures latest.Some? ==>
              && ReportOf(key, Some(seq_), None, latest, stored, rows) == ReportOn(key, latest, stored, rows)
              && ReportOf(key, None, Some(sig), latest, stored, rows) == ReportOn(key, latest, stored, rows)
  {
    hide AgainstCheckpoint, WalkOf;
  }

  /** The deletion of every row is reported broken as soon as there is an anchor. */
  lemma EmptiedTableIsBroken(key: Key, anchor: Checkpoint, stored: Option<Checkpoint>)
    requires anchor.lastSeq >= 0
    ensures var r := ReportOn(key, Some(anchor), stored, []);
            !r.chainOk && r.checkpointOk == Some(false) && r.hint == TableEmptied
  {}

  /** A verifier with the wrong key is told to check the key, whatever the anchors say. */
  lemma WrongKeyIsNamed(key: Key, other: Key, rows: seq<Row>, latest: Option<Checkpoint>, stored: Option<Checkpoint>)
    requires Clean(key, rows) && rows != [] && other != key
    ensures var r := ReportOn(other, latest, stored, rows);
            !r.chainOk && r.hint == CheckKey
  {
    WrongKeyFailsAtOnce(key, other, rows);
  }

  /** The hint is given exactly when the first row is not signed as the first of a chain under
      the verifier's key, whatever the other rows and the anchors say. */
  lemma KeyHintIff(key: Key, latest: Option<Checkpoint>, stored: Option<Checkpoint>, rows: seq<Row>)
    requires rows != []
    ensures ReportOn(key, latest, stored, rows).hint == CheckKey <==> rows[0].sig != Sign(key, rows[0], Genesis)
  {
    if Clean(key, rows) {
      assert Follows(key, rows, 0);
      WalkFrom(key, rows, 0, |rows|);
    } else {
      var k := FirstBad(key, rows);
      WalkReportsFirstBreak(key, rows, k);
    }
  }

  /** The hint that the tail was deleted is given exactly when the first row does begin a chain,
      there is an anchor, and the rows fail its test. Whether the rest of the walk is clean does
      not matter. */
  lemma TailHintIff(key: Key, latest: Option<Checkpoint>, stored: Option<Checkpoint>, rows: seq<Row>)
    requires rows != []
    ensures ReportOn(key, latest, stored, rows).hint == TailDeleted <==>
              && rows[0].sig == Sign(key, rows[0], Genesis)
              && latest.Some? && !AgainstCheckpoint(rows, latest.value.lastSeq, latest.value.headSig).ok
  {
    KeyHintIff(key, latest, stored, rows);
    hide WalkOf, AgainstCheckpoint;
  }

  /** So it is also given when nothing was deleted and the walk is broken: the last row of a
      checkpointed chain was replaced. */
  lemma TailHintWithoutDeletion(key: Key, rows: seq<Row>, row: Row, anchor: Checkpoint, stored: Option<Checkpoint>)
    requires IsChain(key, rows) && |rows| >= 2 && row.sig != rows[|rows| - 1].sig
    requires row.num == |rows| - 1 && row.sig != Sign(key, row, rows[|rows| - 2].sig)
    requires anchor.lastSeq == |rows| - 1 && anchor.headSig == rows[|rows| - 1].sig
    ensures var read := rows[|rows| - 1 := row];
            var r := ReportOn(key, Some(anchor), stored, read);
            r.rows == |rows| && !r.chainOk && r.hint == TailDeleted
  {
    var n := |rows| - 1;
    var read := rows[n := row];
    assert Follows(key, rows, 0);
    TailHintIff(key, Some(anchor), stored, read);
    WalkAcceptsIff(key, read);
    assert !Follows(key, read, n);
  }

  /** The hint to check the key is given, with the right key, when the oldest rows were deleted. */
  lemma MissingHeadAlsoNamesTheKey(key: Key, rows: seq<Row>, n: nat, latest: Option<Checkpoint>,
                                   stored: Option<Checkpoint>)
    requires IsChain(key, rows) && 0 < n < |rows|
    ensures var r := ReportOn(key, latest, stored, rows[n..]);
            !r.chainOk && r.hint == CheckKey
  {
    var kept := seq(|rows| - n, i requires 0 <= i < |rows| - n => n + i);
    DeletionVerdict(key, rows, kept, 0);
    assert Keep(rows, kept) == rows[n..];
  }

  /** A report with a clean walk and a passed checkpoint test, on a table whose last
      signature was really issued, vouches for the history: what is stored is, in
      everything signed, a prefix of what was ingested that reaches the anchored row. */
  lemma ReportVouches(key: Key, history: seq<Row>, anchor: Checkpoint, stored: Option<Checkpoint>, table: seq<Row>,
                      m: nat)
    requires IsChain(key, history) && 0 <= anchor.lastSeq < |history| && anchor.headSig == history[anchor.lastSeq].sig
    requires m < |history| && table != [] && table[|table| - 1].sig == history[m].sig
    requires var r := ReportOn(key, Some(anchor), stored, table); r.chainOk && r.checkpointOk == Some(true)
    ensures anchor.lastSeq <= m && SameContent(table, history[..m + 1])
  {
    TamperEvidence(key, history, anchor.lastSeq, table, m);
  }

  // ------------------------------------------------ the verifier while the ingester runs

  /** What the verifier of one building has read so far. */
  datatype Reader = Reader(anchor: Option<Option<Checkpoint>>, stored: Option<Option<Checkpoint>>,
                           rows: Option<seq<Row>>)

  const UNREAD := Reader(None, None, None)

  datatype World = World(store: Store, dbCheckpoints: seq<Checkpoint>, anchor: seq<Checkpoint>,
                         unwritten: seq<Checkpoint>, reader: Reader)

  datatype Step =
    | WriteBatch(pending: seq<Reading>, weather: Weather)
    | CommitCheckpoint(order: seq<Id>, now: int)   // one round: the database part
    | AppendLine                                   // one line of the round to the file
    | Restart
    | SeeAnchor(skipped: nat) | SeeStored | SeeRows

  /** Which order the verifier reads in: the program's, or rows before anything else. */
  datatype Setting = Setting(config: Config, b: Id, rowsFirst: bool)

  /** The heads worth recording, in the order the dictionary is walked. */
  function Records(heads: Heads, order: seq<Id>, now: int): seq<Checkpoint> {
    if order == [] then []
    else
      var n := |order| - 1;
      var head := HeadIn(heads, order[n]);
      Records(heads, order[..n], now)
      + if head.lastNum >= 0 then [Checkpoint(order[n], now, head.lastNum, head.lastSig)] else []
  }

  predicate SameSlot(a: Checkpoint, c: Checkpoint) { a.building == c.building && a.ts == c.ts }

  /** The insert of the checkpoint rows: one row per building and second. */
  function AddRecords(db: seq<Checkpoint>, records: seq<Checkpoint>): seq<Checkpoint> {
    if records == [] then db
    else
      var n := |records| - 1;
      var before := AddRecords(db, records[..n]);
      if exists i :: 0 <= i < |before| && SameSlot(before[i], records[n]) then before else before + [records[n]]
  }

  /** Writes may fail in any way, and lose their confirmation; only one that forks the chain of
      the building is not among the steps. */
  predicate Enabled(t: Setting, w: World, step: Step) {
    match step
    case WriteBatch(pending, weather) => !Forks(t.config, w.store, pending, weather, t.b)
    case CommitCheckpoint(_, _) => w.unwritten == []
    case AppendLine => w.unwritten != []
    case Restart => true
    case SeeAnchor(skipped) => w.reader.anchor.None? && skipped <= |w.anchor| && (t.rowsFirst ==> w.reader.rows.Some?)
    case SeeStored => w.reader.anchor.Some? && w.reader.stored.None?
    case SeeRows => w.reader.rows.None? && (if t.rowsFirst then w.reader == UNREAD else w.reader.stored.Some?)
  }

  function Apply(t: Setting, w: World, step: Step): World {
    if !Enabled(t, w, step) then w else
    match step
    case WriteBatch(pending, weather) => w.(store := Written(t.config, w.store, pending, weather).0)
    case CommitCheckpoint(order, now) =>
      var records := Records(w.store.heads, order, now);
      w.(dbCheckpoints := AddRecords(w.dbCheckpoints, records), unwritten := records)
    case AppendLine => w.(anchor := w.anchor + [w.unwritten[0]], unwritten := w.unwritten[1..])
    case Restart => w.(store := Store(w.store.table, LoadHeads(w.store.table)), unwritten := [])
    case SeeAnchor(skipped) => w.(reader := w.reader.(anchor := Some(Latest(w.anchor, t.b, skipped))))
    case SeeStored => w.(reader := w.reader.(stored := Some(Scan(w.dbCheckpoints, t.b))))
    case SeeRows => w.(reader := w.reader.(rows := Some(RowsOf(w.store.table, t.b))))
  }

  function Run(t: Setting, w: World, steps: seq<Step>): World {
    if steps == [] then w else Apply(t, Run(t, w, steps[..|steps| - 1]), steps[|steps| - 1])
  }

  predicate Finished(w: World) { w.reader.anchor.Some? && w.reader.stored.Some? && w.reader.rows.Some? }

  function FinalReport(t: Setting, w: World): Report
    requires Finished(w)
  {
    ReportOn(t.config.key, w.reader.anchor.value, w.reader.stored.value, w.reader.rows.value)
  }

  // ------------------------------------------------ the invariant

  /** The checkpoint describes a row that is in the table. */
  predicate Backed(table: Table, c: Checkpoint) {
    0 <= c.lastSeq < |RowsOf(table, c.building)| && RowsOf(table, c.building)[c.lastSeq].sig == c.headSig
  }

  /** The lines of the building are backed, and none is ahead of the head in memory. */
  predicate AllBacked(s: Store, lines: seq<Checkpoint>, b: Id) {
    forall i :: 0 <= i < |lines| && lines[i].building == b ==>
      Backed(s.table, lines[i]) && lines[i].lastSeq <= HeadIn(s.heads, b).lastNum
  }

  /** What the reader has seen is still true of the table, and when the rows were read
      last, what it saw before them is true of those rows. */
  predicate ReaderSound(t: Setting, table: Table, r: Reader) {
    && (r.anchor.Some? && r.anchor.value.Some? ==>
          r.anchor.value.value.building == t.b && Backed(table, r.anchor.value.value))
    && (r.stored.Some? && r.stored.value.Some? ==>
          r.stored.value.value.building == t.b && Backed(table, r.stored.value.value))
    && (r.rows.Some? ==> IsChain(t.config.key, r.rows.value) && r.rows.value <= RowsOf(table, t.b))
    && (r.stored.Some? ==> r.anchor.Some?)
    && (r.rows.Some? && !t.rowsFirst ==> r.anchor.Some?)
    && (r.rows.Some? && !t.rowsFirst && r.anchor.value.Some? ==> r.anchor.value.value.lastSeq < |r.rows.value|)
  }

  ghost predicate Sound(t: Setting, w: World) {
    && LinkedAt(t.config.key, w.store.table, w.store.heads, t.b)
    && AllBacked(w.store, w.dbCheckpoints, t.b) && AllBacked(w.store, w.anchor, t.b)
    && AllBacked(w.store, w.unwritten, t.b)
    && ReaderSound(t, w.store.table, w.reader)
  }

  lemma AllBackedStays(s: Store, s': Store, lines: seq<Checkpoint>, b: Id)
    requires RowsOf(s.table, b) <= RowsOf(s'.table, b) && HeadIn(s.heads, b).lastNum <= HeadIn(s'.heads, b).lastNum
    requires AllBacked(s, lines, b)
    ensures AllBacked(s', lines, b)
  {}

  lemma ReaderStaysSound(t: Setting, table: Table, table': Table, r: Reader)
    requires RowsOf(table, t.b) <= RowsOf(table', t.b) && ReaderSound(t, table, r)
    ensures ReaderSound(t, table', r)
  {}

  lemma {:induction false} RecordsAreBacked(key: Key, s: Store, order: seq<Id>, now: int, b: Id)
    requires LinkedAt(key, s.table, s.heads, b)
    ensures AllBacked(s, Records(s.heads, order, now), b)
  {
    if order != [] {
      var n := |order| - 1;
      RecordsAreBacked(key, s, order[..n], now, b);
      var k := LinkedHead(key, s.table, s.heads, b);
      hide LinkedAt;
    }
  }

  lemma {:induction false} AddRecordsBacked(s: Store, db: seq<Checkpoint>, records: seq<Checkpoint>, b: Id)
    requires AllBacked(s, db, b) && AllBacked(s, records, b)
    ensures AllBacked(s, AddRecords(db, records), b)
  {
    if records != [] {
      hide Backed;
      AddRecordsBacked(s, db, records[..|records| - 1], b);
    }
  }

  lemma LatestIsLine(lines: seq<Checkpoint>, b: Id, skipped: nat, s: Store)
    requires skipped <= |lines| && AllBacked(s, lines, b)
    ensures var r := Latest(lines, b, skipped);
            r.Some? ==> r.value.building == b && Backed(s.table, r.value)
  {
    ScanFinds(lines, b);
    ScanFinds(lines[skipped..], b);
    var r := Latest(lines, b, skipped);
    if r.Some? {
      var i :| 0 <= i < |lines| && lines[i] == r.value;
    }
  }

  lemma StepKeepsSound(t: Setting, w: World, step: Step)
    requires Sound(t, w)
    ensures Sound(t, Apply(t, w, step))
  {
    var key := t.config.key;
    if Enabled(t, w, step) {
      match step
      case WriteBatch(pending, weather) =>
        WriteLinks(t.config, w.store, pending, weather, t.b);
        WriteGrows(t.config, w.store, pending, weather, t.b);
        hide Written, Forks;
        MoveStore(t, w, Written(t.config, w.store, pending, weather).0);
      case CommitCheckpoint(order, now) =>
        RecordsAreBacked(key, w.store, order, now, t.b);
        AddRecordsBacked(w.store, w.dbCheckpoints, Records(w.store.heads, order, now), t.b);
      case AppendLine =>
      case Restart =>
        RestartLinks(key, w.store, t.b);
        MoveStore(t, w, Store(w.store.table, LoadHeads(w.store.table)));
      case SeeAnchor(skipped) => LatestIsLine(w.anchor, t.b, skipped, w.store);
      case SeeStored =>
        LatestIsLine(w.dbCheckpoints, t.b, 0, w.store);
        assert w.dbCheckpoints[0..] == w.dbCheckpoints;
      case SeeRows => ChainOfLinked(key, w.store, t.b);
    }
  }

  lemma MoveStore(t: Setting, w: World, s: Store)
    requires Sound(t, w) && LinkedAt(t.config.key, s.table, s.heads, t.b)
    requires RowsOf(w.store.table, t.b) <= RowsOf(s.table, t.b)
    requires HeadIn(w.store.heads, t.b).lastNum <= HeadIn(s.heads, t.b).lastNum
    ensures Sound(t, w.(store := s))
  {
    hide LinkedAt;
    AllBackedStays(w.store, s, w.dbCheckpoints, t.b);
    AllBackedStays(w.store, s, w.anchor, t.b);
    AllBackedStays(w.store, s, w.unwritten, t.b);
    ReaderStaysSound(t, w.store.table, s.table, w.reader);
    hide AllBacked, ReaderSound, Backed;
  }

  lemma {:induction false} EveryRunIsSound(t: Setting, w: World, steps: seq<Step>)
    requires Sound(t, w)
    ensures Sound(t, Run(t, w, steps))
  {
    if steps != [] {
      hide Apply, Sound;
      EveryRunIsSound(t, w, steps[..|steps| - 1]);
      StepKeepsSound(t, Run(t, w, steps[..|steps| - 1]), steps[|steps| - 1]);
    }
  }

  lemma {:induction false} RecordsAreHeads(heads: Heads, order: seq<Id>, now: int, b: Id)
    ensures forall i :: 0 <= i < |Records(heads, order, now)| && Records(heads, order, now)[i].building == b ==>
              Records(heads, order, now)[i].lastSeq == HeadIn(heads, b).lastNum
  {
    if order != [] {
      RecordsAreHeads(heads, order[..|order| - 1], now, b);
      RecordsMore(heads, order, now);
      hide Records, HeadIn;
    }
  }

  lemma RoundKeepsOrder(s: Store, order: seq<Id>, now: int, lines: seq<Checkpoint>, b: Id)
    requires AllBacked(s, lines, b) && NonDecreasing(lines, b)
    ensures NonDecreasing(lines + Records(s.heads, order, now), b)
  {
    var more := Records(s.heads, order, now);
    RecordsAreHeads(s.heads, order, now, b);
    forall i, j | 0 <= i < j < |lines + more| && (lines + more)[i].building == b == (lines + more)[j].building
      ensures (lines + more)[i].lastSeq <= (lines + more)[j].lastSeq
    {
      if i < |lines| <= j { assert (lines + more)[i] == lines[i] && (lines + more)[j] == more[j - |lines|]; }
      if |lines| <= i { assert (lines + more)[i] == more[i - |lines|] && (lines + more)[j] == more[j - |lines|]; }
    }
  }

  /** In every run the file stays ordered for the building, appends in flight included, so
      looking at its end only is always enough. */
  lemma {:induction false} FileStaysOrdered(t: Setting, w: World, steps: seq<Step>)
    requires Sound(t, w) && NonDecreasing(w.anchor + w.unwritten, t.b)
    ensures var w' := Run(t, w, steps); NonDecreasing(w'.anchor + w'.unwritten, t.b)
  {
    if steps != [] {
      var step := steps[|steps| - 1];
      var v := Run(t, w, steps[..|steps| - 1]);
      FileStaysOrdered(t, w, steps[..|steps| - 1]);
      EveryRunIsSound(t, w, steps[..|steps| - 1]);
      StepKeepsOrder(t, v, step);
    }
  }

  lemma StepKeepsOrder(t: Setting, w: World, step: Step)
    requires Sound(t, w) && NonDecreasing(w.anchor + w.unwritten, t.b)
    ensures var w' := Apply(t, w, step); NonDecreasing(w'.anchor + w'.unwritten, t.b)
  {
    if Enabled(t, w, step) {
      var w' := Apply(t, w, step);
      if step.CommitCheckpoint? {
        hide Written, Records;
        assert w.anchor + w.unwritten == w.anchor;
        RoundKeepsOrder(w.store, step.order, step.now, w.anchor, t.b);
      } else if step.AppendLine? {
        hide Written;
        assert w'.anchor + w'.unwritten == w.anchor + w.unwritten;
      } else if step.Restart? {
        hide Written;
        assert forall i :: 0 <= i < |w.anchor| ==> (w.anchor + w.unwritten)[i] == w.anchor[i];
        assert w'.anchor + w'.unwritten == w.anchor;
      }
    }
  }

  /** A restart puts memory at the end of the chain, loses the lines of a round not yet written,
      and nothing else. */
  lemma RestartCatchesUp(t: Setting, w: World)
    requires Sound(t, w)
    ensures var w' := Apply(t, w, Restart);
            && HealthyAt(t.config.key, w'.store.table, w'.store.heads, t.b) && w'.store.table == w.store.table
            && w'.unwritten == [] && w'.anchor == w.anchor && w'.dbCheckpoints == w.dbCheckpoints
            && w'.reader == w.reader
  {
    RestartLinks(t.config.key, w.store, t.b);
  }

  /** A freshly seeded building, with the ingester started on it, is a sound beginning. */
  lemma SeededIsSound(t: Setting, rows: seq<Row>, head: Checkpoint)
    requires IsChain(t.config.key, rows) && rows != [] && Ascending(rows) && AllOf(rows, t.b)
    requires head.building == t.b && head.lastSeq == |rows| - 1 && head.headSig == rows[|rows| - 1].sig
    ensures Sound(t, World(Store(map[t.b := rows], LoadHeads(map[t.b := rows])), [head], [head], [], UNREAD))
  {
    var table := map[t.b := rows];
    LoadedAt(t.config.key, table, t.b);
    HealthyIsLinked(t.config.key, table, LoadHeads(table), t.b);
    HeadNumber(t.config.key, rows);
  }

  // ------------------------------------------------ no false alarm

  /** With nobody tampering, and however the ingester's commits, confirmed or not, its appends
      and restarts fall between the three reads of the verifier, the walk is clean, the checkpoint test
      does not fail, and no hint speaks of a wrong key or of deleted rows. */
  lemma NoFalseAlarm(t: Setting, w: World, steps: seq<Step>)
    requires Sound(t, w) && !t.rowsFirst && Finished(Run(t, w, steps))
    ensures var r := FinalReport(t, Run(t, w, steps));
            && r.chainOk && r.firstBreak == None
            && r.checkpointOk != Some(false) && (r.anchored ==> r.checkpointOk == Some(true))
            && (r.hint == NoHint || r.hint == AnchorsDisagree)
  {
    EveryRunIsSound(t, w, steps);
    var w' := Run(t, w, steps);
    var rows := w'.reader.rows.value;
    if rows != [] { WalkAcceptsIff(t.config.key, rows); WalkFrom(t.config.key, rows, 0, |rows|); }
    var anchor := w'.reader.anchor.value;
    if anchor.Some? {
      CheckpointOnChain(t.config.key, rows, anchor.value.lastSeq, anchor.value.headSig);
    }
  }

  lemma {:induction false} CleanNumbers(key: Key, rows: seq<Row>, i: nat, j: nat)
    requires Clean(key, rows) && i <= j < |rows|
    ensures rows[j].num == rows[i].num + (j - i)
  {
    if i < j {
      CleanNumbers(key, rows, i, j - 1);
      assert Follows(key, rows, j);
    }
  }

  /** Rows read in some order, each of them. */
  predicate Reordering(order: seq<nat>, n: nat) {
    (forall p :: 0 <= p < |order| ==> order[p] < n) && forall i: nat :: i < n ==> i in order
  }

  /** The one kind of write left out of these runs is seen: after a fork every report on the
      building is that of a broken chain, in whatever order rows of one number are read. */
  lemma ForkIsReported(c: Config, s: Store, pending: seq<Reading>, weather: Weather, b: Id, order: seq<nat>,
                       latest: Option<Checkpoint>, stored: Option<Checkpoint>)
    requires LinkedAt(c.key, s.table, s.heads, b) && Forks(c, s, pending, weather, b)
    requires Reordering(order, |RowsOf(Written(c, s, pending, weather).0.table, b)|)
    ensures var rows := RowsOf(Written(c, s, pending, weather).0.table, b);
            !ReportOn(c.key, latest, stored, Keep(rows, order)).chainOk
  {
    var i, j := ForkRepeatsNumber(c, s, pending, weather, b);
    hide Written, Forks, LinkedAt;
    var rows := RowsOf(Written(c, s, pending, weather).0.table, b);
    var read := Keep(rows, order);
    assert i in order && j in order;
    var p :| 0 <= p < |order| && order[p] == i;
    var q :| 0 <= q < |order| && order[q] == j;
    assert read[p] == rows[i] && read[q] == rows[j];
    if Clean(c.key, read) {
      if p < q { CleanNumbers(c.key, read, p, q); } else { CleanNumbers(c.key, read, q, p); }
    }
    WalkAcceptsIff(c.key, read);
  }

  /** The comparison of the two anchors is not protected in the same way, but it can only
      ever differ in how far the two have got: equal numbers mean equal signatures. */
  lemma AnchorsDifferOnlyInNumber(t: Setting, w: World, steps: seq<Step>)
    requires Sound(t, w) && Finished(Run(t, w, steps))
    requires Run(t, w, steps).reader.anchor.value.Some? && Run(t, w, steps).reader.stored.value.Some?
    ensures var w' := Run(t, w, steps);
            FinalReport(t, w').anchorMatchesDatabase == Some(true) <==>
              w'.reader.anchor.value.value.lastSeq == w'.reader.stored.value.value.lastSeq
  {
    EveryRunIsSound(t, w, steps);
  }

  // ------------------------------------------------ when the two copies agree

  /** How far the lines have got with this building; -1 before the first. */
  function NumberOf(lines: seq<Checkpoint>, b: Id): int {
    var found := Scan(lines, b);
    if found.None? then -1 else found.value.lastSeq
  }

  lemma NumberMore(s: Store, lines: seq<Checkpoint>, c: Checkpoint, b: Id)
    requires AllBacked(s, lines, b) && c.lastSeq >= 0
    ensures NumberOf(lines + [c], b)
         == if c.building == b && c.lastSeq > NumberOf(lines, b) then c.lastSeq else NumberOf(lines, b)
    ensures NumberOf(lines, b) >= -1
  {
    assert (lines + [c])[..|lines|] == lines;
    ScanFinds(lines, b);
    if Scan(lines, b).Some? {
      var i :| 0 <= i < |lines| && lines[i] == Scan(lines, b).value;
      assert Backed(s.table, lines[i]);
    }
  }

  /** No line is ahead of the head in memory. */
  lemma NumberBounded(s: Store, lines: seq<Checkpoint>, b: Id)
    requires AllBacked(s, lines, b) && HeadIn(s.heads, b).lastNum >= -1
    ensures -1 <= NumberOf(lines, b) <= HeadIn(s.heads, b).lastNum
  {
    ScanFinds(lines, b);
    if Scan(lines, b).Some? {
      var i :| 0 <= i < |lines| && lines[i] == Scan(lines, b).value;
      assert Backed(s.table, lines[i]);
    }
  }

  /** The newest number of this building that a round has to record. */
  predicate Recorded(w: World, order: seq<Id>, b: Id) { b in order && HeadIn(w.store.heads, b).lastNum >= 0 }

  predicate SlotTaken(db: seq<Checkpoint>, b: Id, now: int) {
    exists i :: 0 <= i < |db| && db[i].building == b && db[i].ts == now
  }

  lemma RecordsMore(heads: Heads, order: seq<Id>, now: int)
    requires order != []
    ensures var n := |order| - 1;
            var head := HeadIn(heads, order[n]);
            Records(heads, order, now) == Records(heads, order[..n], now)
              + if head.lastNum >= 0 then [Checkpoint(order[n], now, head.lastNum, head.lastSig)] else []
  {}

  /** What a round does to the file, building by building. */
  lemma {:induction false} RoundInFile(t: Setting, w: World, order: seq<Id>, now: int)
    requires Sound(t, w)
    ensures var lines := w.anchor + Records(w.store.heads, order, now);
            && AllBacked(w.store, lines, t.b)
            && NumberOf(lines, t.b)
                 == if Recorded(w, order, t.b) then HeadIn(w.store.heads, t.b).lastNum else NumberOf(w.anchor, t.b)
  {
    var heads := w.store.heads;
    RecordsAreBacked(t.config.key, w.store, order, now, t.b);
    if order == [] {
      assert w.anchor + [] == w.anchor;
    } else {
      var k := |order| - 1;
      var before := Records(heads, order[..k], now);
      var head := HeadIn(heads, order[k]);
      RoundInFile(t, w, order[..k], now);
      RecordedMore(w, order, t.b);
      HeadReaches(t, w);
      RecordsMore(heads, order, now);
      hide Records, NumberOf, Sound, AllBacked, HeadIn, Recorded;
      if head.lastNum >= 0 {
        var line := Checkpoint(order[k], now, head.lastNum, head.lastSig);
        NumberMore(w.store, w.anchor + before, line, t.b);
        assert w.anchor + (before + [line]) == (w.anchor + before) + [line];
      } else {
        assert before + [] == before;
      }
    }
  }

  lemma RecordedMore(w: World, order: seq<Id>, b: Id)
    requires order != []
    ensures var k := |order| - 1;
            Recorded(w, order, b) <==>
              Recorded(w, order[..k], b) || (order[k] == b && HeadIn(w.store.heads, b).lastNum >= 0)
  {
    assert order == order[..|order| - 1] + [order[|order| - 1]];
  }

  /** And to the database, which takes one row per building and second. */
  lemma {:induction false} RoundInTable(t: Setting, w: World, order: seq<Id>, now: int)
    requires Sound(t, w)
    ensures var db := AddRecords(w.dbCheckpoints, Records(w.store.heads, order, now));
            && AllBacked(w.store, db, t.b)
            && NumberOf(db, t.b) == (if Recorded(w, order, t.b) && !SlotTaken(w.dbCheckpoints, t.b, now)
                                   then HeadIn(w.store.heads, t.b).lastNum else NumberOf(w.dbCheckpoints, t.b))
            && (SlotTaken(db, t.b, now) <==> SlotTaken(w.dbCheckpoints, t.b, now) || Recorded(w, order, t.b))
  {
    var heads := w.store.heads;
    RecordsAreBacked(t.config.key, w.store, order, now, t.b);
    AddRecordsBacked(w.store, w.dbCheckpoints, Records(heads, order, now), t.b);
    if order != [] {
      var k := |order| - 1;
      var before := Records(heads, order[..k], now);
      var head := HeadIn(heads, order[k]);
      RoundInTable(t, w, order[..k], now);
      RecordedMore(w, order, t.b);
      HeadReaches(t, w);
      RecordsMore(heads, order, now);
      hide Records, NumberOf, Sound, AllBacked, AddRecords, SlotTaken, HeadIn, RowsOf, Recorded;
      if head.lastNum >= 0 {
        AddOne(w.store, w.dbCheckpoints, before, Checkpoint(order[k], now, head.lastNum, head.lastSig), t.b);
      } else {
        assert before + [] == before;
      }
    }
  }

  lemma AddOne(s: Store, db: seq<Checkpoint>, before: seq<Checkpoint>, line: Checkpoint, b: Id)
    requires AllBacked(s, AddRecords(db, before), b) && line.lastSeq >= 0
    ensures var (d, d') := (AddRecords(db, before), AddRecords(db, before + [line]));
            && NumberOf(d', b) == (if line.building == b && !SlotTaken(d, b, line.ts) && line.lastSeq > NumberOf(d, b)
                                   then line.lastSeq else NumberOf(d, b))
            && (SlotTaken(d', b, line.ts) <==> SlotTaken(d, b, line.ts) || line.building == b)
  {
    var d := AddRecords(db, before);
    AddOneRecord(db, before, line);
    NumberMore(s, d, line, b);
    TakenMore(d, line, b);
    hide NumberOf, SlotTaken, AddRecords, AllBacked;
  }

  lemma AddOneRecord(db: seq<Checkpoint>, before: seq<Checkpoint>, line: Checkpoint)
    ensures var d := AddRecords(db, before);
            AddRecords(db, before + [line]) == if SlotTaken(d, line.building, line.ts) then d else d + [line]
  {
    assert (before + [line])[..|before|] == before;
  }

  lemma TakenMore(d: seq<Checkpoint>, line: Checkpoint, b: Id)
    ensures SlotTaken(d + [line], b, line.ts) <==> SlotTaken(d, b, line.ts) || line.building == b
  {
    assert forall i :: 0 <= i < |d| ==> (d + [line])[i] == d[i];
    assert (d + [line])[|d|] == line;
  }

  /** No line is beyond the head in memory. */
  lemma HeadReaches(t: Setting, w: World)
    requires Sound(t, w)
    ensures var n := HeadIn(w.store.heads, t.b).lastNum;
            -1 <= n && n >= NumberOf(w.dbCheckpoints, t.b) && n >= NumberOf(w.anchor, t.b)
  {
    var k := LinkedHead(t.config.key, w.store.table, w.store.heads, t.b);
    NumberBounded(w.store, w.dbCheckpoints, t.b);
    NumberBounded(w.store, w.anchor, t.b);
  }

  /** A round in which the database gets further with this building. */
  predicate Raises(t: Setting, w: World, step: Step) {
    && step.CommitCheckpoint? && Enabled(t, w, step) && Recorded(w, step.order, t.b)
    && !SlotTaken(w.dbCheckpoints, t.b, step.now) && HeadIn(w.store.heads, t.b).lastNum > NumberOf(w.dbCheckpoints, t.b)
  }

  lemma StepNumber(t: Setting, w: World, step: Step)
    requires Sound(t, w)
    ensures var (before, after) := (NumberOf(w.dbCheckpoints, t.b), NumberOf(Apply(t, w, step).dbCheckpoints, t.b));
            if Raises(t, w, step) then after > before else after == before
  {
    if step.CommitCheckpoint? && Enabled(t, w, step) {
      RoundInTable(t, w, step.order, step.now);
      HeadReaches(t, w);
    }
    hide NumberOf, Records, AddRecords, Sound, Written, LoadHeads, Latest, Scan;
  }

  predicate RaisedWithin(t: Setting, w: World, steps: seq<Step>) {
    exists k :: 0 <= k < |steps| && Raises(t, Run(t, w, steps[..k]), steps[k])
  }

  lemma RaisedAppend(t: Setting, w: World, steps: seq<Step>)
    requires steps != []
    ensures var n := |steps| - 1;
            RaisedWithin(t, w, steps) <==> RaisedWithin(t, w, steps[..n]) || Raises(t, Run(t, w, steps[..n]), steps[n])
  {
    hide Run, Raises;
    var n := |steps| - 1;
    assert forall k :: 0 <= k < n ==> steps[..n][k] == steps[k] && steps[..n][..k] == steps[..k];
    if RaisedWithin(t, w, steps[..n]) {
      var k :| 0 <= k < n && Raises(t, Run(t, w, steps[..n][..k]), steps[..n][k]);
      assert Raises(t, Run(t, w, steps[..k]), steps[k]);
    }
  }

  /** Over any steps the database's number never falls, and it rises exactly when a round
      among them raised it. */
  lemma {:induction false} RisesIff(t: Setting, w: World, steps: seq<Step>)
    requires Sound(t, w)
    ensures var (before, after) := (NumberOf(w.dbCheckpoints, t.b), NumberOf(Run(t, w, steps).dbCheckpoints, t.b));
            if RaisedWithin(t, w, steps) then after > before else after == before
  {
    if steps != [] {
      var n := |steps| - 1;
      EveryRunIsSound(t, w, steps[..n]);
      RisesIff(t, w, steps[..n]);
      StepNumber(t, Run(t, w, steps[..n]), steps[n]);
      RaisedAppend(t, w, steps);
      hide Sound, NumberOf, Raises, RaisedWithin, Apply;
    }
  }

  // ------------------------------------------------ the comparison over the run

  /** A read that was made stays as it was made. */
  lemma {:induction false} ReadsStay(t: Setting, w: World, steps: seq<Step>, i: nat)
    requires i <= |steps|
    ensures var (r, r') := (Run(t, w, steps[..i]).reader, Run(t, w, steps).reader);
            && (r.anchor.Some? ==> r'.anchor == r.anchor) && (r.stored.Some? ==> r'.stored == r.stored)
  {
    if i == |steps| {
      assert steps[..i] == steps;
    } else {
      assert steps[..|steps| - 1][..i] == steps[..i];
      ReadsStay(t, w, steps[..|steps| - 1], i);
    }
  }

  predicate Reads(t: Setting, w: World, steps: seq<Step>, i: nat, j: nat) {
    && i < j < |steps|
    && steps[i].SeeAnchor? && Enabled(t, Run(t, w, steps[..i]), steps[i])
    && steps[j].SeeStored? && Enabled(t, Run(t, w, steps[..j]), steps[j])
  }

  /** In a finished run the file was read at one step and the table at a later one. */
  lemma WhenRead(t: Setting, w: World, steps: seq<Step>) returns (i: nat, j: nat)
    requires w.reader.anchor.None? && w.reader.stored.None? && Run(t, w, steps).reader.stored.Some?
    ensures Reads(t, w, steps, i, j)
  {
    j := AnchorOrStored(t, w, steps, true);
    i := AnchorOrStored(t, w, steps[..j], false);
    assert steps[..j][..i] == steps[..i];
  }

  lemma {:induction false} AnchorOrStored(t: Setting, w: World, steps: seq<Step>, stored: bool) returns (i: nat)
    requires w.reader.anchor.None? && w.reader.stored.None?
    requires var r := Run(t, w, steps).reader; if stored then r.stored.Some? else r.anchor.Some?
    ensures i < |steps| && (if stored then steps[i].SeeStored? else steps[i].SeeAnchor?)
    ensures Enabled(t, Run(t, w, steps[..i]), steps[i])
  {
    var n := |steps| - 1;
    var r := Run(t, w, steps[..n]).reader;
    if if stored then r.stored.Some? else r.anchor.Some? {
      i := AnchorOrStored(t, w, steps[..n], stored);
      assert steps[..n][..i] == steps[..i];
    } else {
      i := n;
    }
  }

  lemma RunOn(t: Setting, w: World, steps: seq<Step>, i: nat, j: nat)
    requires i <= j <= |steps|
    ensures Run(t, w, steps[..j]) == Run(t, Run(t, w, steps[..i]), steps[i..j])
    decreases j
  {
    hide Apply;
    if i < j {
      RunOn(t, w, steps, i, j - 1);
      assert steps[..j][..j - 1] == steps[..j - 1] && steps[i..j][..j - 1 - i] == steps[i..j - 1];
    } else {
      assert steps[i..j] == [];
    }
  }

  /** What the two reads bring back. */
  lemma WhatAnchorRead(t: Setting, w: World, steps: seq<Step>, i: nat)
    requires Sound(t, w) && NonDecreasing(w.anchor + w.unwritten, t.b)
    requires i < |steps| && steps[i].SeeAnchor? && Enabled(t, Run(t, w, steps[..i]), steps[i])
    ensures var (r, wi) := (Run(t, w, steps).reader, Run(t, w, steps[..i]));
            && r.anchor.Some?
            && (if r.anchor.value.None? then -1 else r.anchor.value.value.lastSeq) == NumberOf(wi.anchor, t.b)
  {
    var wi := Run(t, w, steps[..i]);
    FileStaysOrdered(t, w, steps[..i]);
    hide Run, Sound, Scan, Latest;
    OrderedStart(wi.anchor, wi.unwritten, t.b);
    TailIsEnough(wi.anchor, t.b, steps[i].skipped);
    hide NonDecreasing;
    RunThen(t, w, steps[..i], steps[i]);
    assert steps[..i] + [steps[i]] == steps[..i + 1];
    ReadsStay(t, w, steps, i + 1);
  }

  lemma WhatStoredRead(t: Setting, w: World, steps: seq<Step>, j: nat)
    requires j < |steps| && steps[j].SeeStored? && Enabled(t, Run(t, w, steps[..j]), steps[j])
    ensures var (r, wj) := (Run(t, w, steps).reader, Run(t, w, steps[..j]));
            r.stored.Some? && r.stored.value == Scan(wj.dbCheckpoints, t.b)
  {
    hide Run, Scan, Latest;
    RunThen(t, w, steps[..j], steps[j]);
    assert steps[..j] + [steps[j]] == steps[..j + 1];
    ReadsStay(t, w, steps, j + 1);
  }

  lemma OrderedStart(x: seq<Checkpoint>, y: seq<Checkpoint>, b: Id)
    requires NonDecreasing(x + y, b)
    ensures NonDecreasing(x, b)
  {
    assert forall i :: 0 <= i < |x| ==> (x + y)[i] == x[i];
  }

  /** The comparison over any run. Where the file and the table are level for the building when
      the file is read, the copies match exactly when no round between the two reads raised
      the database's number. Where the table is ahead they never match, and where the file is
      ahead they match exactly when rounds between the reads brought the table level with it. */
  lemma CopiesMatchIff(t: Setting, w: World, steps: seq<Step>, i: nat, j: nat)
    requires Sound(t, w) && NonDecreasing(w.anchor + w.unwritten, t.b) && Finished(Run(t, w, steps))
    requires Reads(t, w, steps, i, j)
    requires Run(t, w, steps).reader.anchor.value.Some? && Run(t, w, steps).reader.stored.value.Some?
    ensures var (wi, wj) := (Run(t, w, steps[..i]), Run(t, w, steps[..j]));
            var (file, db) := (NumberOf(wi.anchor, t.b), NumberOf(wi.dbCheckpoints, t.b));
            var same := FinalReport(t, Run(t, w, steps)).anchorMatchesDatabase;
            && (file == db ==> (same == Some(true) <==> !RaisedWithin(t, wi, steps[i..j])))
            && (file < db ==> same == Some(false))
            && (file > db ==> (same == Some(true) <==> NumberOf(wj.dbCheckpoints, t.b) == file))
  {
    WhatAnchorRead(t, w, steps, i);
    WhatStoredRead(t, w, steps, j);
    AnchorsDifferOnlyInNumber(t, w, steps);
    EveryRunIsSound(t, w, steps[..i]);
    RunOn(t, w, steps, i, j);
    hide Run, Sound, Raises, RaisedWithin, Scan, NonDecreasing;
    RisesIff(t, Run(t, w, steps[..i]), steps[i..j]);
  }

  // ------------------------------------------------ when file and table are level

  /** The file, with the lines still to be written, has got as far as the table. */
  predicate Level(w: World, b: Id) { NumberOf(w.anchor + w.unwritten, b) == NumberOf(w.dbCheckpoints, b) }

  /** The steps that can change that: a round that records the building, and a restart. */
  predicate Settles(t: Setting, w: World, step: Step) {
    step.Restart? || (step.CommitCheckpoint? && Enabled(t, w, step) && Recorded(w, step.order, t.b))
  }

  /** They leave the two level when the round's second was not yet taken or the table had
      nothing to gain, and when the restart drops no line that the table has. */
  predicate Evens(t: Setting, w: World, step: Step)
    requires Settles(t, w, step)
  {
    if step.Restart? then NumberOf(w.anchor, t.b) == NumberOf(w.dbCheckpoints, t.b)
    else !SlotTaken(w.dbCheckpoints, t.b, step.now)
         || HeadIn(w.store.heads, t.b).lastNum == NumberOf(w.dbCheckpoints, t.b)
  }

  lemma LevelAfter(t: Setting, w: World, step: Step)
    requires Sound(t, w)
    ensures Level(Apply(t, w, step), t.b) <==> if Settles(t, w, step) then Evens(t, w, step) else Level(w, t.b)
  {
    if step.CommitCheckpoint? && Enabled(t, w, step) {
      RoundInTable(t, w, step.order, step.now);
      RoundInFile(t, w, step.order, step.now);
      assert w.anchor + w.unwritten == w.anchor;
    }
    if step.AppendLine? && Enabled(t, w, step) {
      assert w.anchor + [w.unwritten[0]] + w.unwritten[1..] == w.anchor + w.unwritten;
    }
    assert w.anchor + [] == w.anchor;
    hide NumberOf, Records, AddRecords, Sound, Written, LoadHeads, Latest, Scan, HeadIn, SlotTaken;
  }

  predicate NoneSettles(t: Setting, w: World, steps: seq<Step>, from: nat) {
    forall k :: from <= k < |steps| ==> !Settles(t, Run(t, w, steps[..k]), steps[k])
  }

  lemma {:induction false} LevelKept(t: Setting, w: World, steps: seq<Step>, from: nat)
    requires Sound(t, w) && from <= |steps| && NoneSettles(t, w, steps, from)
    ensures Level(Run(t, w, steps), t.b) <==> Level(Run(t, w, steps[..from]), t.b)
  {
    hide Sound, Level, Evens, Settles, Apply;
    var n := |steps| - 1;
    if from == |steps| {
      assert steps[..from] == steps;
    } else {
      assert !Settles(t, Run(t, w, steps[..n]), steps[n]);
      NoneSettlesBefore(t, w, steps, from);
      hide NoneSettles;
      EveryRunIsSound(t, w, steps[..n]);
      LevelKept(t, w, steps[..n], from);
      LevelAfter(t, Run(t, w, steps[..n]), steps[n]);
      assert steps[..n][..from] == steps[..from];
    }
  }

  lemma NoneSettlesBefore(t: Setting, w: World, steps: seq<Step>, from: nat)
    requires steps != [] && NoneSettles(t, w, steps, from) && from < |steps|
    ensures NoneSettles(t, w, steps[..|steps| - 1], from)
  {
    hide Run, Settles;
    var n := |steps| - 1;
    forall k | from <= k < n ensures !Settles(t, Run(t, w, steps[..n][..k]), steps[..n][k]) {
      assert steps[..n][..k] == steps[..k] && steps[..n][k] == steps[k];
    }
  }

  /** Over any run the last step that can change it decides: with no such step the two are
      level if they were, and otherwise if that step evened them. */
  lemma LevelIff(t: Setting, w: World, steps: seq<Step>)
    requires Sound(t, w)
    ensures NoneSettles(t, w, steps, 0) ==> (Level(Run(t, w, steps), t.b) <==> Level(w, t.b))
    ensures forall k: nat ::
              k < |steps| && Settles(t, Run(t, w, steps[..k]), steps[k]) && NoneSettles(t, w, steps, k + 1) ==>
                (Level(Run(t, w, steps), t.b) <==> Evens(t, Run(t, w, steps[..k]), steps[k]))
  {
    if NoneSettles(t, w, steps, 0) {
      LevelKept(t, w, steps, 0);
      assert steps[..0] == [];
    }
    hide Sound, Level, Evens, Settles, Apply, Run, NoneSettles;
    forall k: nat | k < |steps| && Settles(t, Run(t, w, steps[..k]), steps[k]) && NoneSettles(t, w, steps, k + 1)
      ensures Level(Run(t, w, steps), t.b) <==> Evens(t, Run(t, w, steps[..k]), steps[k])
    {
      LastDecides(t, w, steps, k);
    }
  }

  lemma LastDecides(t: Setting, w: World, steps: seq<Step>, k: nat)
    requires Sound(t, w) && k < |steps|
    requires Settles(t, Run(t, w, steps[..k]), steps[k]) && NoneSettles(t, w, steps, k + 1)
    ensures Level(Run(t, w, steps), t.b) <==> Evens(t, Run(t, w, steps[..k]), steps[k])
  {
    hide Sound, Level, Evens, Settles, Apply, Run, NoneSettles;
    LevelKept(t, w, steps, k + 1);
    EveryRunIsSound(t, w, steps[..k]);
    LevelAfter(t, Run(t, w, steps[..k]), steps[k]);
    RunThen(t, w, steps[..k], steps[k]);
    assert steps[..k] + [steps[k]] == steps[..k + 1];
  }

  // ------------------------------------------------ the false alarms that do exist

  lemma RunThen(t: Setting, w: World, steps: seq<Step>, step: Step)
    ensures Run(t, w, steps + [step]) == Apply(t, Run(t, w, steps), step)
  {}

  /** Runs of four, five and six steps, unfolded. */
  lemma FourSteps(t: Setting, w: World, s: seq<Step>)
    requires |s| == 4
    ensures Run(t, w, s) == Apply(t, Apply(t, Apply(t, Apply(t, w, s[0]), s[1]), s[2]), s[3])
  {
    assert Run(t, w, []) == w;
    hide Run, Apply;
    assert [] + [s[0]] == s[..1] && s[..1] + [s[1]] == s[..2] && s[..2] + [s[2]] == s[..3] && s[..3] + [s[3]] == s;
    RunThen(t, w, [], s[0]);
    RunThen(t, w, s[..1], s[1]);
    RunThen(t, w, s[..2], s[2]);
    RunThen(t, w, s[..3], s[3]);
  }

  lemma FiveSteps(t: Setting, w: World, s: seq<Step>)
    requires |s| == 5
    ensures Run(t, w, s) == Apply(t, Apply(t, Apply(t, Apply(t, Apply(t, w, s[0]), s[1]), s[2]), s[3]), s[4])
  {
    hide Run, Apply;
    FourSteps(t, w, s[..4]);
    RunThen(t, w, s[..4], s[4]);
    assert s[..4] + [s[4]] == s;
  }

  lemma SixSteps(t: Setting, w: World, s: seq<Step>)
    requires |s| == 6
    ensures Run(t, w, s)
         == Apply(t, Apply(t, Apply(t, Apply(t, Apply(t, Apply(t, w, s[0]), s[1]), s[2]), s[3]), s[4]), s[5])
  {
    hide Run, Apply;
    FiveSteps(t, w, s[..5]);
    RunThen(t, w, s[..5], s[5]);
    assert s[..5] + [s[5]] == s;
  }

  /** What one round of checkpoints records for a single building. */
  lemma OneRecord(t: Setting, w: World, now: int)
    requires HealthyAt(t.config.key, w.store.table, w.store.heads, t.b)
    requires Sound(t, w) && RowsOf(w.store.table, t.b) != []
    ensures var rows := RowsOf(w.store.table, t.b);
            Records(w.store.heads, [t.b], now) == [Checkpoint(t.b, now, |rows| - 1, rows[|rows| - 1].sig)]
  {
    var rows := RowsOf(w.store.table, t.b);
    HeadNumber(t.config.key, rows);
    assert [t.b][..0] == [];
    assert Records(w.store.heads, [], now) == [];
  }

  /** A line appended to the file is found, or something at least as far along is. */
  lemma AppendedIsFound(lines: seq<Checkpoint>, c: Checkpoint)
    ensures var r := Latest(lines + [c], c.building, 0);
            r.Some? && r.value.building == c.building && r.value.lastSeq >= c.lastSeq
  {
    ScanFinds(lines + [c], c.building);
    assert (lines + [c])[0..] == lines + [c];
    assert (lines + [c])[|lines|] == c;
  }

  /** An anchor beyond the rows reads as a deleted tail. */
  lemma AnchorBeyondRows(key: Key, rows: seq<Row>, anchor: Checkpoint, stored: Option<Checkpoint>)
    requires IsChain(key, rows) && rows != [] && anchor.lastSeq >= |rows|
    ensures var r := ReportOn(key, Some(anchor), stored, rows);
            r.chainOk && r.checkpointOk == Some(false) && r.hint == TailDeleted
  {
    CheckpointOnChain(key, rows, anchor.lastSeq, anchor.headSig);
    WalkAcceptsIff(key, rows);
    WalkFrom(key, rows, 0, |rows|);
  }

  /** The world after a flush and one round of checkpoints for this building alone. */
  function FlushAndRound(t: Setting, w: World, pending: seq<Reading>, now: int): World {
    Apply(t, Apply(t, Apply(t, w, WriteBatch(pending, Fine)), CommitCheckpoint([t.b], now)), AppendLine)
  }

  lemma FlushAndRoundMeans(t: Setting, w: World, pending: seq<Reading>, now: int)
    requires HealthyAt(t.config.key, w.store.table, w.store.heads, t.b)
    requires Sound(t, w) && w.unwritten == []
    requires RowsOf(Written(t.config, w.store, pending, Fine).0.table, t.b) != []
    ensures var store := Written(t.config, w.store, pending, Fine).0;
            var rows := RowsOf(store.table, t.b);
            var line := Checkpoint(t.b, now, |rows| - 1, rows[|rows| - 1].sig);
            FlushAndRound(t, w, pending, now)
            == World(store, AddRecords(w.dbCheckpoints, [line]), w.anchor + [line], [], w.reader)
  {
    hide Written, Sound, AddRecords, Records;
    FineWrite(t.config, w.store, pending, t.b);
    var w1 := Apply(t, w, WriteBatch(pending, Fine));
    StepKeepsSound(t, w, WriteBatch(pending, Fine));
    OneRecord(t, w1, now);
  }

  /** Reading the rows first. Whatever the building looks like, one flush that adds a row
      and one checkpoint between the reading of the rows and the reading of the anchor
      make an untouched table be reported as truncated. */
  lemma RowsFirstFalseAlarm(t: Setting, w: World, pending: seq<Reading>, now: int)
    requires HealthyAt(t.config.key, w.store.table, w.store.heads, t.b)
    requires Sound(t, w) && t.rowsFirst && w.reader == UNREAD && w.unwritten == []
    requires RowsOf(w.store.table, t.b) != []
    requires RowsOf(w.store.table, t.b) < RowsOf(Written(t.config, w.store, pending, Fine).0.table, t.b)
    ensures var w' := Run(t, w, [SeeRows, WriteBatch(pending, Fine), CommitCheckpoint([t.b], now), AppendLine,
                                 SeeAnchor(0), SeeStored]);
            Finished(w') && FinalReport(t, w').chainOk && FinalReport(t, w').checkpointOk == Some(false)
            && FinalReport(t, w').hint == TailDeleted
  {
    hide Run, Written, AddRecords, Records, Latest, Scan, ReportOf;
    var rows := RowsOf(w.store.table, t.b);
    var w1 := Apply(t, w, SeeRows);
    var round := FlushAndRound(t, w1, pending, now);
    SixSteps(t, w, [SeeRows, WriteBatch(pending, Fine), CommitCheckpoint([t.b], now), AppendLine, SeeAnchor(0),
                    SeeStored]);
    StepKeepsSound(t, w, SeeRows);
    FlushAndRoundMeans(t, w1, pending, now);
    var rows' := RowsOf(round.store.table, t.b);
    var line := Checkpoint(t.b, now, |rows'| - 1, rows'[|rows'| - 1].sig);
    AppendedIsFound(w.anchor, line);
    AnchorBeyondRows(t.config.key, rows, Latest(w.anchor + [line], t.b, 0).value, Scan(round.dbCheckpoints, t.b));
  }

  /** The three reads, in the program's order. */
  lemma Sees(t: Setting, w: World, step: Step)
    requires !t.rowsFirst && w.reader.rows.None?
    ensures step == SeeAnchor(0) && w.reader == UNREAD ==>
              Apply(t, w, step) == w.(reader := UNREAD.(anchor := Some(Latest(w.anchor, t.b, 0))))
    ensures step == SeeStored && w.reader.anchor.Some? && w.reader.stored.None? ==>
              Apply(t, w, step) == w.(reader := w.reader.(stored := Some(Scan(w.dbCheckpoints, t.b))))
    ensures step == SeeRows && w.reader.stored.Some? ==>
              Apply(t, w, step) == w.(reader := w.reader.(rows := Some(RowsOf(w.store.table, t.b))))
  {
    hide Latest, Scan, Written, Records, AddRecords, LoadHeads, RowsOf;
  }

  lemma Commits(t: Setting, w: World, now: int)
    requires w.unwritten == []
    ensures var records := Records(w.store.heads, [t.b], now);
            Apply(t, w, CommitCheckpoint([t.b], now))
              == w.(dbCheckpoints := AddRecords(w.dbCheckpoints, records), unwritten := records)
  {
    hide Latest, Scan, Written, Records, AddRecords, LoadHeads, RowsOf;
  }

  lemma Appends(t: Setting, w: World, line: Checkpoint)
    requires w.unwritten == [line]
    ensures Apply(t, w, AppendLine) == w.(anchor := w.anchor + [line], unwritten := [])
  {
    hide Latest, Scan, Written, Records, AddRecords, LoadHeads, RowsOf;
  }

  /** What the reader has in hand when a round of checkpoints falls after its first read. */
  lemma ReadAroundRound(t: Setting, w: World, now: int)
    requires HealthyAt(t.config.key, w.store.table, w.store.heads, t.b)
    requires Sound(t, w) && !t.rowsFirst && w.reader == UNREAD && w.unwritten == []
    requires RowsOf(w.store.table, t.b) != []
    requires !SlotTaken(w.dbCheckpoints, t.b, now)
    ensures var rows := RowsOf(w.store.table, t.b);
            var line := Checkpoint(t.b, now, |rows| - 1, rows[|rows| - 1].sig);
            Run(t, w, [SeeAnchor(0), CommitCheckpoint([t.b], now), SeeStored, SeeRows]).reader
            == Reader(Some(Scan(w.anchor, t.b)), Some(Scan(w.dbCheckpoints + [line], t.b)), Some(rows))
  {
    var rows := RowsOf(w.store.table, t.b);
    var line := Checkpoint(t.b, now, |rows| - 1, rows[|rows| - 1].sig);
    hide Run, Records, Scan, Sound, AddRecords, Latest, Apply;
    FourSteps(t, w, [SeeAnchor(0), CommitCheckpoint([t.b], now), SeeStored, SeeRows]);
    OneRecord(t, w, now);
    NewSlot(w.dbCheckpoints, line);
    var w1 := w.(reader := UNREAD.(anchor := Some(Scan(w.anchor, t.b))));
    Sees(t, w, SeeAnchor(0));
    var w2 := w1.(dbCheckpoints := w.dbCheckpoints + [line], unwritten := [line]);
    Commits(t, w1, now);
    Sees(t, w2, SeeStored);
    Sees(t, Apply(t, w2, SeeStored), SeeRows);
  }

  /** The two copies of the anchor, with the program's own order of reading. A checkpoint
      committed to the database after the file was read makes them disagree. */
  lemma RoundBetweenTheReads(t: Setting, w: World, now: int)
    requires HealthyAt(t.config.key, w.store.table, w.store.heads, t.b)
    requires Sound(t, w) && !t.rowsFirst && w.reader == UNREAD && w.unwritten == []
    requires Scan(w.anchor, t.b).Some? && Scan(w.anchor, t.b).value.lastSeq < |RowsOf(w.store.table, t.b)| - 1
    requires !SlotTaken(w.dbCheckpoints, t.b, now)
    ensures var w' := Run(t, w, [SeeAnchor(0), CommitCheckpoint([t.b], now), SeeStored, SeeRows]);
            && Finished(w')
            && FinalReport(t, w').chainOk && FinalReport(t, w').checkpointOk == Some(true)
            && FinalReport(t, w').anchorMatchesDatabase == Some(false) && FinalReport(t, w').hint == AnchorsDisagree
  {
    hide Run, Scan, ReportOf, Backed;
    var steps := [SeeAnchor(0), CommitCheckpoint([t.b], now), SeeStored, SeeRows];
    var rows := RowsOf(w.store.table, t.b);
    AnchorMeansRows(t, w);
    ReadAroundRound(t, w, now);
    var line := Checkpoint(t.b, now, |rows| - 1, rows[|rows| - 1].sig);
    AppendedIsFound(w.dbCheckpoints, line);
    assert (w.dbCheckpoints + [line])[0..] == w.dbCheckpoints + [line];
    MismatchIsHarmless(t, w, steps);
  }

  /** What the reader has in hand after a round that the database ignored. */
  lemma ReadAfterRound(t: Setting, w: World, now: int)
    requires HealthyAt(t.config.key, w.store.table, w.store.heads, t.b)
    requires Sound(t, w) && !t.rowsFirst && w.reader == UNREAD && w.unwritten == []
    requires RowsOf(w.store.table, t.b) != []
    requires SlotTaken(w.dbCheckpoints, t.b, now)
    ensures var rows := RowsOf(w.store.table, t.b);
            var line := Checkpoint(t.b, now, |rows| - 1, rows[|rows| - 1].sig);
            var w' := Run(t, w, [CommitCheckpoint([t.b], now), AppendLine, SeeAnchor(0), SeeStored, SeeRows]);
            && w'.reader
                 == Reader(Some(Latest(w.anchor + [line], t.b, 0)), Some(Scan(w.dbCheckpoints, t.b)), Some(rows))
            && w'.unwritten == []
  {
    var rows := RowsOf(w.store.table, t.b);
    var line := Checkpoint(t.b, now, |rows| - 1, rows[|rows| - 1].sig);
    hide Run, Records, Scan, Sound, AddRecords, Latest, RowsOf, Apply;
    FiveSteps(t, w, [CommitCheckpoint([t.b], now), AppendLine, SeeAnchor(0), SeeStored, SeeRows]);
    OneRecord(t, w, now);
    Commits(t, w, now);
    Appends(t, w.(unwritten := [line]), line);
    var w2 := w.(anchor := w.anchor + [line]);
    Sees(t, w2, SeeAnchor(0));
    Sees(t, Apply(t, w2, SeeAnchor(0)), SeeStored);
    Sees(t, Apply(t, Apply(t, w2, SeeAnchor(0)), SeeStored), SeeRows);
  }

  /** A second checkpoint within the same second is dropped by the database and kept by the
      file, so the two disagree with nothing in motion. */
  lemma SameSecondDisagrees(t: Setting, w: World, now: int)
    requires HealthyAt(t.config.key, w.store.table, w.store.heads, t.b)
    requires Sound(t, w) && !t.rowsFirst && w.reader == UNREAD && w.unwritten == []
    requires SlotTaken(w.dbCheckpoints, t.b, now)
    requires NumberOf(w.dbCheckpoints, t.b) < |RowsOf(w.store.table, t.b)| - 1
    ensures var w' := Run(t, w, [CommitCheckpoint([t.b], now), AppendLine, SeeAnchor(0), SeeStored, SeeRows]);
            && Finished(w') && w'.unwritten == []
            && FinalReport(t, w').chainOk && FinalReport(t, w').checkpointOk == Some(true)
            && FinalReport(t, w').anchorMatchesDatabase == Some(false) && FinalReport(t, w').hint == AnchorsDisagree
  {
    hide Run, Scan, ReportOf, Backed;
    ScanFinds(w.dbCheckpoints, t.b);
    var rows := RowsOf(w.store.table, t.b);
    StoredMeansRows(t, w);
    ReadAfterRound(t, w, now);
    var line := Checkpoint(t.b, now, |rows| - 1, rows[|rows| - 1].sig);
    AppendedIsFound(w.anchor, line);
    MismatchIsHarmless(t, w, [CommitCheckpoint([t.b], now), AppendLine, SeeAnchor(0), SeeStored, SeeRows]);
  }

  lemma AnchorMeansRows(t: Setting, w: World)
    requires Sound(t, w) && Scan(w.anchor, t.b).Some?
    ensures RowsOf(w.store.table, t.b) != []
  {
    ScanFinds(w.anchor, t.b);
    var c := Scan(w.anchor, t.b).value;
    var i :| 0 <= i < |w.anchor| && w.anchor[i] == c;
    assert Backed(w.store.table, c);
  }

  /** A disagreement between the copies of an untouched building is only that. */
  lemma MismatchIsHarmless(t: Setting, w: World, steps: seq<Step>)
    requires Sound(t, w) && !t.rowsFirst && Finished(Run(t, w, steps))
    requires var r := Run(t, w, steps).reader;
             && r.anchor.value.Some? && r.stored.value.Some? && r.rows.value != []
             && r.anchor.value.value.lastSeq != r.stored.value.value.lastSeq
    ensures var r := FinalReport(t, Run(t, w, steps));
            && r.chainOk && r.checkpointOk == Some(true)
            && r.anchorMatchesDatabase == Some(false) && r.hint == AnchorsDisagree
  {
    hide Run, Sound;
    NoFalseAlarm(t, w, steps);
    AnchorsDifferOnlyInNumber(t, w, steps);
  }

  lemma StoredMeansRows(t: Setting, w: World)
    requires Sound(t, w)
    requires exists i :: 0 <= i < |w.dbCheckpoints| && w.dbCheckpoints[i].building == t.b
    ensures RowsOf(w.store.table, t.b) != []
  {}

  lemma NewSlot(db: seq<Checkpoint>, c: Checkpoint)
    requires forall i :: 0 <= i < |db| ==> !SameSlot(db[i], c)
    ensures AddRecords(db, [c]) == db + [c]
  {}
}
