/** What the stored rows say: each carries a reading that came in, unchanged, and what is not
    stored is no news. */
module StoredReadings {
  import opened HashChain
  import opened Ingester
  import Sorting
  import opened Wrappers

  /** The row is this reading: building, instant, power and source as they came. */
  predicate Carries(row: Row, r: Reading) {
    row.building == r.building && row.ts == r.ts && row.kw == r.kw && row.source == r.source
  }

  predicate CarriesOne(row: Row, readings: seq<Reading>) {
    exists i :: 0 <= i < |readings| && Carries(row, readings[i])
  }

  lemma CarriesOneMore(row: Row, readings: seq<Reading>)
    requires readings != [] && CarriesOne(row, readings[..|readings| - 1])
    ensures CarriesOne(row, readings)
  {
    hide Carries;
    var i :| 0 <= i < |readings| - 1 && Carries(row, readings[..|readings| - 1][i]);
    assert Carries(row, readings[i]);
  }

  // ------------------------------------------------ one write

  lemma {:induction false} SignedRowsCarry(key: Key, heads: Heads, table: Table, pending: seq<Reading>)
    ensures forall row :: row in SignBatch(key, heads, table, pending).rows ==> CarriesOne(row, pending)
  {
    if pending != [] {
      var n := |pending| - 1;
      SignedRowsCarry(key, heads, table, pending[..n]);
      var before := SignBatch(key, heads, table, pending[..n]);
      var last := NextRow(key, HeadIn(heads + before.heads, pending[n].building), pending[n]);
      assert Carries(last, pending[n]);
      forall row | row in SignBatch(key, heads, table, pending).rows ensures CarriesOne(row, pending) {
        if row in before.rows { CarriesOneMore(row, pending); } else { assert row == last; }
      }
    }
  }

  lemma {:induction false} AddedAreRows(table: Table, rows: seq<Row>, b: Id, n: nat)
    requires |RowsOf(table, b)| <= n < |RowsOf(InsertAll(table, rows), b)|
    ensures exists k :: 0 <= k < |rows| && rows[k] == RowsOf(InsertAll(table, rows), b)[n]
  {
    if rows != [] {
      var m := |rows| - 1;
      var mid := InsertAll(table, rows[..m]);
      InsertAllGrows(table, rows[..m], b);
      if n < |RowsOf(mid, b)| {
        AddedAreRows(table, rows[..m], b, n);
        var k :| 0 <= k < m && rows[..m][k] == RowsOf(mid, b)[n];
        assert rows[k] == RowsOf(InsertAll(table, rows), b)[n];
      } else {
        assert rows[m] == RowsOf(InsertAll(table, rows), b)[n];
      }
    }
  }

  /** Whatever the write and however it ends: each row it adds carries a reading of the batch. */
  lemma AddedRowsCarry(c: Config, s: Store, pending: seq<Reading>, w: Weather, b: Id, n: nat)
    requires |RowsOf(s.table, b)| <= n < |RowsOf(Written(c, s, pending, w).0.table, b)|
    ensures CarriesOne(RowsOf(Written(c, s, pending, w).0.table, b)[n], pending)
  {
    var rows := SignBatch(c.key, s.heads, s.table, pending).rows;
    WrittenMeans(c, s, pending, w, b);
    hide Written, SignBatch, InsertAll, CarriesOne;
    AddedAreRows(s.table, rows, b, n);
    SignedRowsCarry(c.key, s.heads, s.table, pending);
    var row := RowsOf(Written(c, s, pending, w).0.table, b)[n];
    assert row in rows;
  }

  /** The reading is in the table, in a row of its own added since there were n of them, or a
      row at least as new is. */
  predicate Placed(table: Table, n: nat, r: Reading) {
    var rows := RowsOf(table, r.building);
    (exists k :: n <= k < |rows| && Carries(rows[k], r)) || (exists k :: 0 <= k < |rows| && rows[k].ts >= r.ts)
  }

  lemma StaysPlaced(table: Table, table': Table, n: nat, r: Reading)
    requires Placed(table, n, r) && RowsOf(table, r.building) <= RowsOf(table', r.building)
    ensures Placed(table', n, r)
  {
    var rows, rows' := RowsOf(table, r.building), RowsOf(table', r.building);
    if k :| n <= k < |rows| && Carries(rows[k], r) {
      assert Carries(rows'[k], r);
    } else {
      var k :| 0 <= k < |rows| && rows[k].ts >= r.ts;
      assert rows'[k].ts >= r.ts;
    }
  }

  lemma LastIsPlaced(key: Key, s: Store, batch: Batch, r: Reading)
    requires AgreesAt(key, s, batch, r.building)
    ensures Placed(InsertAll(s.table, SignOne(key, s.heads, s.table, batch, r).rows), |RowsOf(s.table, r.building)|, r)
  {
    var mid := InsertAll(s.table, batch.rows);
    var heads' := s.heads + batch.heads;
    var head := HeadIn(heads', r.building);
    var row := NextRow(key, head, r);
    var rows := RowsOf(mid, r.building);
    RowBuilding(key, head, r);
    DuplicateAgainstGrown(s, mid, head, key, heads', r);
    if Duplicate(head, s.table, r) {
      HeadDecides(key, mid, heads', r);
      assert rows != [] && rows[|rows| - 1].ts >= r.ts;
    } else {
      OneMoreRow(s.table, batch.rows, row, r.building);
      NextRowExtends(key, mid, heads', r);
      assert Carries(row, r);
      hide Duplicate, NextRow, InsertAll, Insert, HealthyAt;
      assert RowsOf(InsertAll(s.table, batch.rows + [row]), r.building)[|rows|] == row;
    }
  }

  lemma SignOneGrows(key: Key, s: Store, batch: Batch, r: Reading, b: Id)
    ensures RowsOf(InsertAll(s.table, batch.rows), b)
         <= RowsOf(InsertAll(s.table, SignOne(key, s.heads, s.table, batch, r).rows), b)
  {
    var row := NextRow(key, HeadIn(s.heads + batch.heads, r.building), r);
    OneMoreRow(s.table, batch.rows, row, b);
    InsertGrows(InsertAll(s.table, batch.rows), row, b);
    hide NextRow, Duplicate, Insert, InsertAll;
  }

  lemma {:induction false} EachIsPlaced(key: Key, s: Store, pending: seq<Reading>, i: nat)
    requires i < |pending| && HealthyAt(key, s.table, s.heads, pending[i].building)
    ensures Placed(InsertAll(s.table, SignBatch(key, s.heads, s.table, pending).rows),
                   |RowsOf(s.table, pending[i].building)|, pending[i])
  {
    hide *;
    var n := |pending| - 1;
    var before := SignBatch(key, s.heads, s.table, pending[..n]);
    SignBatchStep(key, s.heads, s.table, pending, n);
    assert pending[..n + 1] == pending;
    if i < n {
      assert pending[..n][i] == pending[i];
      EachIsPlaced(key, s, pending[..n], i);
      SignOneGrows(key, s, before, pending[n], pending[i].building);
      StaysPlaced(InsertAll(s.table, before.rows),
                  InsertAll(s.table, SignOne(key, s.heads, s.table, before, pending[n]).rows),
                  |RowsOf(s.table, pending[i].building)|, pending[i]);
    } else {
      SignBatchAgreesAt(key, s, pending[..n], pending[n].building);
      LastIsPlaced(key, s, before, pending[n]);
    }
  }

  /** A commit puts every reading of the batch into the table as it came, unless the table then
      holds a row of its building that is at least as new. */
  lemma CommittedReadings(c: Config, s: Store, pending: seq<Reading>, w: Weather, i: nat)
    requires Healthy(c.key, s.table, s.heads) && Written(c, s, pending, w).1.Committed? && i < |pending|
    ensures Placed(Written(c, s, pending, w).0.table, |RowsOf(s.table, pending[i].building)|, pending[i])
  {
    EachIsPlaced(c.key, s, pending, i) by {
      hide Written;
      assert HealthyAt(c.key, s.table, s.heads, pending[i].building);
    }
    hide *;
    TableOfCommit(c, s, pending, w);
  }

  lemma TableOfCommit(c: Config, s: Store, pending: seq<Reading>, w: Weather)
    requires Written(c, s, pending, w).1.Committed?
    ensures Written(c, s, pending, w).0.table == InsertAll(s.table, SignBatch(c.key, s.heads, s.table, pending).rows)
  {
    hide SignBatch, Insert, Acceptable;
    assert InsertAll(s.table, []) == s.table;
  }

  // ------------------------------------------------ the isolating path

  /** The retry keeps exactly the readings of known buildings, each as often as it came. */
  lemma {:induction false} UsableMeans(pending: seq<Reading>, known: set<Id>, r: Reading)
    ensures multiset(Usable(pending, known))[r] == if r.building in known then multiset(pending)[r] else 0
    ensures r in Usable(pending, known) <==> r in pending && r.building in known
  {
    if pending != [] {
      var n := |pending| - 1;
      UsableMeans(pending[..n], known, r);
      assert pending == pending[..n] + [pending[n]];
    }
  }

  /** How many of the readings are for unknown buildings. */
  function Unknown(pending: seq<Reading>, known: set<Id>): nat {
    if pending == [] then 0
    else Unknown(pending[..|pending| - 1], known) + if pending[|pending| - 1].building in known then 0 else 1
  }

  lemma {:induction false} UnknownAreLeftOut(pending: seq<Reading>, known: set<Id>)
    ensures |Usable(pending, known)| + Unknown(pending, known) == |pending|
  {
    if pending != [] { UnknownAreLeftOut(pending[..|pending| - 1], known); }
  }

  /** When the foreign key refuses a batch and the database answers, the readings of unknown
      buildings are counted as rejected, one by one, and every other reading is stored as it
      came, unless the table then holds a row at least as new. */
  lemma KnownAreStored(c: Config, s: State, arrivals: seq<Message>, fate: Fate, r: Reading)
    requires Healthy(c.key, s.store.table, s.store.heads)
    requires s.queue != [] && |s.queue| <= MAX_QUEUED_READINGS && fate == Fate(Fine, false, Fine)
    requires Written(c, s.store, Taken(c, s), Fine).1.Refused?
    ensures var s' := Flushed(c, s, arrivals, fate).0;
            && s'.counts.rejected == s.counts.rejected + Unknown(Taken(c, s), c.known)
            && (r in Taken(c, s) && r.building in c.known ==>
                  Placed(s'.store.table, |RowsOf(s.store.table, r.building)|, r))
  {
    var pending := Taken(c, s);
    var usable := Usable(pending, c.known);
    UnknownBuildingsDoNotBlock(c, s, arrivals, fate);
    UnknownAreLeftOut(pending, c.known);
    ReceiveAllBalance(s.(queue := Left(c, s)), arrivals);
    FlushStores(c, s, arrivals, fate);
    var store' := Written(c, s.store, pending, Fine).0;
    WriteKeepsHealthy(c, s.store, pending, Fine);
    assert store'.table == s.store.table by { FailedWriteLeavesNoTrace(c, s.store, pending, Fine, r.building); }
    if r in pending && r.building in c.known {
      UsableMeans(pending, c.known, r);
      var i :| 0 <= i < |usable| && usable[i] == r;
      UsableLength(pending, c.known);
      KnownIsCommitted(c, store', usable);
      hide Written, Usable, Placed, Healthy, Flushed, ReceiveAll;
      CommittedReadings(c, store', usable, Fine, i);
    }
  }

  // ------------------------------------------------ the queue

  /** The queue, within its bound, is the end of a list, and all of it unless it is full. */
  predicate EndOf(q: seq<Reading>, all: seq<Reading>) {
    && |q| <= |all| && |q| <= MAX_QUEUED_READINGS && q == all[|all| - |q|..]
    && (|q| < |all| ==> |q| == MAX_QUEUED_READINGS)
  }

  lemma ReceiveKeepsEnd(s: State, m: Message, all: seq<Reading>)
    requires EndOf(s.queue, all)
    ensures EndOf(Receive(s, m).queue, if m.Good? then all + [m.reading] else all)
  {
    if m.Good? {
      var q := s.queue;
      assert (all + [m.reading])[|all| - |q|..] == q + [m.reading];
      if Full(s) { assert q[1..] + [m.reading] == (all + [m.reading])[|all| - |q| + 1..]; }
    }
  }

  lemma WholeIsEnd(q: seq<Reading>)
    requires |q| <= MAX_QUEUED_READINGS
    ensures EndOf(q, q)
  {}

  lemma NoMessages(s: State)
    ensures ReceiveAll(s, []) == s && Carried([]) == []
  {}

  lemma OneMoreMessage(s: State, arrivals: seq<Message>)
    requires arrivals != []
    ensures var n := |arrivals| - 1;
            && ReceiveAll(s, arrivals) == Receive(ReceiveAll(s, arrivals[..n]), arrivals[n])
            && Carried(arrivals) == Carried(arrivals[..n]) + if arrivals[n].Good? then [arrivals[n].reading] else []
  {
    hide Receive;
  }

  /** A full queue keeps the newest: what it holds is the end of what it held followed by what
      came in. */
  lemma {:induction false} QueueKeepsNewest(s: State, arrivals: seq<Message>)
    requires |s.queue| <= MAX_QUEUED_READINGS
    ensures EndOf(ReceiveAll(s, arrivals).queue, s.queue + Carried(arrivals))
  {
    hide *;
    if arrivals == [] {
      NoMessages(s);
      WholeIsEnd(s.queue);
      assert s.queue + [] == s.queue;
    } else {
      var n := |arrivals| - 1;
      var all := s.queue + Carried(arrivals[..n]);
      QueueKeepsNewest(s, arrivals[..n]);
      OneMoreMessage(s, arrivals);
      ReceiveKeepsEnd(ReceiveAll(s, arrivals[..n]), arrivals[n], all);
      assert s.queue + Carried(arrivals) == if arrivals[n].Good? then all + [arrivals[n].reading] else all;
    }
  }

  /** After a failed write the oldest wait first: the batch is back in front of what waited,
      cut at the bound of the queue. */
  lemma FailedFlushQueue(c: Config, s: State, arrivals: seq<Message>, fate: Fate)
    requires s.queue != [] && |s.queue| <= MAX_QUEUED_READINGS && fate.first == FailsBefore
    ensures var q := Flushed(c, s, arrivals, fate).0.queue;
            var waiting := ReceiveAll(s.(queue := s.queue[|Taken(c, s)|..]), arrivals).queue;
            && q <= s.queue[..|Taken(c, s)|] + waiting
            && (|q| < |Taken(c, s)| + |waiting| ==> |q| == MAX_QUEUED_READINGS)
  {
    assert s.queue[|Taken(c, s)|..] == Left(c, s);
    hide ReceiveAll, Usable;
  }

  // ------------------------------------------------ whole runs

  /** The reading waited at the start or came in a message of the run. */
  predicate Heard(s: State, events: seq<Event>, r: Reading) {
    r in s.queue || exists i :: 0 <= i < |events| && Brings(events[i], r)
  }

  predicate Brings(e: Event, r: Reading) {
    match e
    case Arrives(m) => m == Good(r)
    case Flushes(arrivals, _) => Good(r) in arrivals
    case Restarts => false
  }

  lemma {:induction false} CarriedMeans(arrivals: seq<Message>)
    ensures forall r :: r in Carried(arrivals) <==> Good(r) in arrivals
  {
    if arrivals != [] {
      CarriedMeans(arrivals[..|arrivals| - 1]);
      assert arrivals == arrivals[..|arrivals| - 1] + [arrivals[|arrivals| - 1]];
    }
  }

  lemma ReceivedAre(s: State, arrivals: seq<Message>, r: Reading)
    requires |s.queue| <= MAX_QUEUED_READINGS && r in ReceiveAll(s, arrivals).queue
    ensures r in s.queue || Good(r) in arrivals
  {
    hide *;
    QueueKeepsNewest(s, arrivals);
    CarriedMeans(arrivals);
    EndIsPart(ReceiveAll(s, arrivals).queue, s.queue + Carried(arrivals), r);
  }

  lemma EndIsPart(q: seq<Reading>, all: seq<Reading>, r: Reading)
    requires EndOf(q, all) && r in q
    ensures r in all
  {}

  /** What waits after an event waited before it or came with it. */
  lemma WaitingWasHeard(c: Config, s: State, e: Event, r: Reading)
    requires |s.queue| <= MAX_QUEUED_READINGS && r in Next(c, s, e).queue
    ensures r in s.queue || Brings(e, r)
  {
    match e
    case Restarts =>
    case Arrives(m) =>
      assert [m][..0] == [] && ReceiveAll(s, []) == s && ReceiveAll(s, [m]) == Receive(ReceiveAll(s, [m][..0]), m);
      ReceivedAre(s, [m], r);
    case Flushes(arrivals, fate) =>
      if s.queue != [] {
        FlushQueue(c, s, arrivals, fate, r);
        if r in Meanwhile(c, s, arrivals).queue { ReceivedAre(s.(queue := Left(c, s)), arrivals, r); }
      }
  }

  lemma FlushQueue(c: Config, s: State, arrivals: seq<Message>, fate: Fate, r: Reading)
    requires s.queue != [] && r in Flushed(c, s, arrivals, fate).0.queue
    ensures r in Taken(c, s) || r in Meanwhile(c, s, arrivals).queue
  {
    hide ReceiveAll, Usable, Written;
  }

  /** A row that an event adds carries a reading that waited. */
  lemma AddedByEvent(c: Config, s: State, e: Event, b: Id, n: nat)
    requires |RowsOf(s.store.table, b)| <= n < |RowsOf(Next(c, s, e).store.table, b)|
    ensures CarriesOne(RowsOf(Next(c, s, e).store.table, b)[n], s.queue)
  {
    assert e.Flushes? && s.queue != [];
    var pending := Taken(c, s);
    var store' := Written(c, s.store, pending, e.fate.first).0;
    var usable := Retried(c, pending, e.fate);
    FlushStores(c, s, e.arrivals, e.fate);
    WriteGrows(c, s.store, pending, e.fate.first, b);
    var row := RowsOf(Next(c, s, e).store.table, b)[n];
    hide Written, Flushed, ReceiveAll;
    if n < |RowsOf(store'.table, b)| {
      WriteGrows(c, store', usable, e.fate.second, b);
      AddedRowsCarry(c, s.store, pending, e.fate.first, b, n);
    } else {
      AddedRowsCarry(c, store', usable, e.fate.second, b, n);
      UsableCarry(row, pending, if e.fate.lookupFails then {} else c.known);
    }
    QueuedCarry(row, s.queue, |pending|);
  }

  lemma UsableCarry(row: Row, pending: seq<Reading>, known: set<Id>)
    requires CarriesOne(row, Usable(pending, known))
    ensures CarriesOne(row, pending)
  {
    var i :| 0 <= i < |Usable(pending, known)| && Carries(row, Usable(pending, known)[i]);
    UsableMeans(pending, known, Usable(pending, known)[i]);
    var k :| 0 <= k < |pending| && pending[k] == Usable(pending, known)[i];
  }

  lemma QueuedCarry(row: Row, queue: seq<Reading>, k: nat)
    requires k <= |queue| && CarriesOne(row, queue[..k])
    ensures CarriesOne(row, queue)
  {
    var i :| 0 <= i < k && Carries(row, queue[..k][i]);
    assert Carries(row, queue[i]);
  }

  /** Over any run, lost confirmations and restarts included, each row the run adds carries a
      reading that waited at its start or came in during it, unchanged. */
  lemma {:induction false} RunStoresReadings(c: Config, s: State, events: seq<Event>, b: Id, n: nat)
    returns (r: Reading)
    requires |s.queue| <= MAX_QUEUED_READINGS
    requires |RowsOf(s.store.table, b)| <= n < |RowsOf(Run(c, s, events).store.table, b)|
    ensures Carries(RowsOf(Run(c, s, events).store.table, b)[n], r) && Heard(s, events, r)
  {
    var m := |events| - 1;
    var before := Run(c, s, events[..m]);
    NextGrows(c, before, events[m], b);
    hide Next, Carries, Brings;
    if n < |RowsOf(before.store.table, b)| {
      r := RunStoresReadings(c, s, events[..m], b, n);
      HeardLonger(s, events, r);
    } else {
      AddedByEvent(c, before, events[m], b, n);
      var row := RowsOf(Run(c, s, events).store.table, b)[n];
      var i :| 0 <= i < |before.queue| && Carries(row, before.queue[i]);
      r := before.queue[i];
      WaitingHeard(c, s, events[..m], r);
      HeardLonger(s, events, r);
    }
  }

  lemma HeardLonger(s: State, events: seq<Event>, r: Reading)
    requires events != [] && Heard(s, events[..|events| - 1], r)
    ensures Heard(s, events, r)
  {
    hide Brings;
    if r !in s.queue {
      var i :| 0 <= i < |events| - 1 && Brings(events[..|events| - 1][i], r);
      assert Brings(events[i], r);
    }
  }

  lemma {:induction false} WaitingHeard(c: Config, s: State, events: seq<Event>, r: Reading)
    requires |s.queue| <= MAX_QUEUED_READINGS && r in Run(c, s, events).queue
    ensures Heard(s, events, r)
  {
    if events != [] {
      var m := |events| - 1;
      RunConserves(c, s, events[..m]);
      hide Next, Brings, Balance;
      WaitingWasHeard(c, Run(c, s, events[..m]), events[m], r);
      if r in Run(c, s, events[..m]).queue {
        WaitingHeard(c, s, events[..m], r);
        HeardLonger(s, events, r);
      }
    }
  }

  // ------------------------------------------------ what the counters count

  /** Every known building, once. */
  predicate Lists(names: seq<Id>, known: set<Id>) { Sorting.NoRepeats(names) && forall b :: b in known ==> b in names }

  /** How many rows the table holds of these buildings. */
  function Stored(table: Table, names: seq<Id>): nat {
    if names == [] then 0 else Stored(table, names[..|names| - 1]) + |RowsOf(table, names[|names| - 1])|
  }

  function CountEach(rows: seq<Row>, names: seq<Id>): nat {
    if names == [] then 0 else CountEach(rows, names[..|names| - 1]) + CountOf(rows, names[|names| - 1])
  }

  lemma {:induction false} StoredMore(table: Table, table': Table, rows: seq<Row>, names: seq<Id>)
    requires forall b :: |RowsOf(table', b)| == |RowsOf(table, b)| + CountOf(rows, b)
    ensures Stored(table', names) == Stored(table, names) + CountEach(rows, names)
  {
    if names != [] {
      hide RowsOf, CountOf;
      StoredMore(table, table', rows, names[..|names| - 1]);
    }
  }

  lemma {:induction false} CountEachStep(rows: seq<Row>, row: Row, names: seq<Id>)
    requires Sorting.NoRepeats(names)
    ensures CountEach(rows + [row], names) == CountEach(rows, names) + if row.building in names then 1 else 0
  {
    if names != [] {
      var n := |names| - 1;
      CountEachStep(rows, row, names[..n]);
      assert names == names[..n] + [names[n]] && (rows + [row])[..|rows|] == rows;
    }
  }

  lemma {:induction false} NoneOfEach(names: seq<Id>)
    ensures CountEach([], names) == 0
  {
    if names != [] { NoneOfEach(names[..|names| - 1]); }
  }

  lemma {:induction false} EachIsCounted(rows: seq<Row>, names: seq<Id>)
    requires Sorting.NoRepeats(names) && forall i :: 0 <= i < |rows| ==> rows[i].building in names
    ensures CountEach(rows, names) == |rows|
  {
    if rows == [] {
      NoneOfEach(names);
    } else {
      var n := |rows| - 1;
      EachIsCounted(rows[..n], names);
      CountEachStep(rows[..n], rows[n], names);
      assert rows == rows[..n] + [rows[n]];
    }
  }

  /** What a commit reports as written is what the table has gained. */
  lemma WrittenIsStored(c: Config, s: Store, pending: seq<Reading>, w: Weather, names: seq<Id>)
    requires Healthy(c.key, s.table, s.heads) && Lists(names, c.known) && w != FailsAfterCommit
    ensures var (s', out) := Written(c, s, pending, w);
            Stored(s'.table, names) == Stored(s.table, names) + if out.Committed? then out.written else 0
  {
    var rows := SignBatch(c.key, s.heads, s.table, pending).rows;
    if Written(c, s, pending, w).1.Committed? && rows != [] {
      forall b ensures |RowsOf(InsertAll(s.table, rows), b)| == |RowsOf(s.table, b)| + CountOf(rows, b) {
        NothingDiscarded(c, s, pending, b);
      }
      StoredMore(s.table, InsertAll(s.table, rows), rows, names);
      EachIsCounted(rows, names);
      hide SignBatch, Stored, CountEach, InsertAll, Healthy;
    }
  }

  /** Without a lost confirmation a flush counts as written exactly the rows the table gains. */
  lemma FlushCountsRows(c: Config, s: State, arrivals: seq<Message>, fate: Fate, names: seq<Id>)
    requires Healthy(c.key, s.store.table, s.store.heads) && |s.queue| <= MAX_QUEUED_READINGS && Lists(names, c.known)
    requires fate.first != FailsAfterCommit && fate.second != FailsAfterCommit
    ensures var s' := Flushed(c, s, arrivals, fate).0;
            Stored(s'.store.table, names) + s.counts.written == Stored(s.store.table, names) + s'.counts.written
  {
    hide Written, Usable, Healthy, Lists, ReceiveAll, Stored, Balance;
    var pending, usable := Taken(c, s), Retried(c, Taken(c, s), fate);
    ReceiveAllBalance(s.(queue := Left(c, s)), arrivals);
    WriteKeepsHealthy(c, s.store, pending, fate.first);
    WrittenIsStored(c, s.store, pending, fate.first, names);
    WrittenIsStored(c, Written(c, s.store, pending, fate.first).0, usable, fate.second, names);
  }

  /** From one start to the next, without a lost confirmation: the counter of written readings
      has risen by the number of rows the table has gained. */
  lemma {:induction false} RunCountsRows(c: Config, s: State, events: seq<Event>, names: seq<Id>)
    requires Healthy(c.key, s.store.table, s.store.heads) && |s.queue| <= MAX_QUEUED_READINGS && Lists(names, c.known)
    requires forall i :: 0 <= i < |events| ==> Truthful(events[i]) && !events[i].Restarts?
    ensures var s' := Run(c, s, events);
            Stored(s'.store.table, names) + s.counts.written == Stored(s.store.table, names) + s'.counts.written
  {
    if events != [] {
      var n := |events| - 1;
      var before := Run(c, s, events[..n]);
      RunConserves(c, s, events[..n]);
      RunKeepsHealthy(c, s, events[..n]);
      RunCountsRows(c, s, events[..n], names);
      assert Truthful(events[n]);
      hide Healthy, Lists, Flushed, Stored, Balance;
      if events[n].Flushes? { FlushCountsRows(c, before, events[n].arrivals, events[n].fate, names); }
    }
  }

  /** The messages that carry no reading. */
  function Unreadable(arrivals: seq<Message>): nat {
    if arrivals == [] then 0
    else Unreadable(arrivals[..|arrivals| - 1]) + if arrivals[|arrivals| - 1].Good? then 0 else 1
  }

  lemma {:induction false} UnreadableAreCounted(s: State, arrivals: seq<Message>)
    ensures ReceiveAll(s, arrivals).counts.malformed == s.counts.malformed + Unreadable(arrivals)
    ensures |Carried(arrivals)| + Unreadable(arrivals) == |arrivals|
  {
    if arrivals != [] { UnreadableAreCounted(s, arrivals[..|arrivals| - 1]); }
  }

  /** A flush counts as malformed the messages that came meanwhile and carry no reading. */
  lemma FlushCountsUnreadable(c: Config, s: State, arrivals: seq<Message>, fate: Fate)
    requires s.queue != []
    ensures Flushed(c, s, arrivals, fate).0.counts.malformed == s.counts.malformed + Unreadable(arrivals)
  {
    hide Written, Usable, ReceiveAll;
    UnreadableAreCounted(s.(queue := Left(c, s)), arrivals);
  }
}
