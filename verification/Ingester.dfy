/** The ingester: a bounded queue of readings, and the write path that numbers, signs and
    stores them.

    The database is the field `table`: per building, its rows in the order they were
    inserted. Its failures are inputs: a write can fail before anything is stored, or
    after the commit took effect but before the ingester heard of it. */
module Ingester {
  import opened HashChain
  import opened Wrappers

  datatype Reading = Reading(building: Id, ts: int, kw: real, source: Id)

  /** The in-memory head of one chain. */
  datatype Head = Head(lastNum: int, lastSig: Sig, lastTs: Option<int>)

  const FRESH := Head(-1, Genesis, None)
  const MAX_QUEUED_READINGS: nat := 100_000

  type Table = map<Id, seq<Row>>
  type Heads = map<Id, Head>

  function RowsOf(table: Table, b: Id): seq<Row> { if b in table then table[b] else [] }

  function HeadIn(heads: Heads, b: Id): Head { if b in heads then heads[b] else FRESH }

  function HeadOf(rows: seq<Row>): Head {
    if rows == [] then FRESH
    else Head(rows[|rows| - 1].num, rows[|rows| - 1].sig, Some(rows[|rows| - 1].ts))
  }

  predicate HasTs(rows: seq<Row>, ts: int) { exists i :: 0 <= i < |rows| && rows[i].ts == ts }

  // ------------------------------------------------ signing a batch

  datatype Batch = Batch(rows: seq<Row>, heads: Heads, duplicates: nat)

  function NextRow(key: Key, head: Head, r: Reading): Row {
    var unsigned := Row(r.building, r.ts, r.kw, r.source, head.lastNum + 1, Genesis);
    unsigned.(sig := Sign(key, unsigned, head.lastSig))
  }

  predicate Duplicate(head: Head, table: Table, r: Reading) {
    (head.lastTs.Some? && r.ts <= head.lastTs.value) || HasTs(RowsOf(table, r.building), r.ts)
  }

  /** One turn of the signing loop: drop a redelivered or stored reading, or number and
      sign it after the head held aside for its building. */
  function SignOne(key: Key, heads: Heads, table: Table, batch: Batch, r: Reading): Batch {
    var head := HeadIn(heads + batch.heads, r.building);
    if Duplicate(head, table, r) then batch.(duplicates := batch.duplicates + 1)
    else
      var row := NextRow(key, head, r);
      Batch(batch.rows + [row], batch.heads[r.building := Head(row.num, row.sig, Some(row.ts))], batch.duplicates)
  }

  function SignBatch(key: Key, heads: Heads, table: Table, pending: seq<Reading>): Batch {
    if pending == [] then Batch([], map[], 0)
    else
      var n := |pending| - 1;
      SignOne(key, heads, table, SignBatch(key, heads, table, pending[..n]), pending[n])
  }

  /** INSERT ... ON CONFLICT DO NOTHING on (building, timestamp). */
  function Insert(table: Table, row: Row): Table {
    if HasTs(RowsOf(table, row.building), row.ts) then table
    else table[row.building := RowsOf(table, row.building) + [row]]
  }

  function InsertAll(table: Table, rows: seq<Row>): Table {
    if rows == [] then table else Insert(InsertAll(table, rows[..|rows| - 1]), rows[|rows| - 1])
  }

  // ------------------------------------------------ one write

  datatype Store = Store(table: Table, heads: Heads)

  datatype Weather = Fine | FailsBefore | FailsAfterCommit

  datatype Outcome = Committed(written: nat, duplicates: nat) | Refused | Raised

  datatype Config = Config(key: Key, known: set<Id>, batchRows: nat)

  /** Every building mentioned gets an entry, a fresh one when it had none. */
  function Touched(heads: Heads, pending: seq<Reading>): Heads {
    if pending == [] then heads
    else
      var n := |pending| - 1;
      var before := Touched(heads, pending[..n]);
      if pending[n].building in before then before else before[pending[n].building := FRESH]
  }

  predicate Acceptable(c: Config, rows: seq<Row>) { forall i :: 0 <= i < |rows| ==> rows[i].building in c.known }

  /** Store and outcome of writing one batch: the foreign key refuses a batch that names an
      unknown building, and the heads advance only when the commit is known to have
      happened. */
  function Written(c: Config, s: Store, pending: seq<Reading>, w: Weather): (Store, Outcome) {
    if w == FailsBefore then (s, Raised)
    else
      var batch := SignBatch(c.key, s.heads, s.table, pending);
      var touched := Touched(s.heads, pending);
      if batch.rows == [] then (Store(s.table, touched), Committed(0, batch.duplicates))
      else if !Acceptable(c, batch.rows) then (Store(s.table, touched), Refused)
      else if w == FailsAfterCommit then (Store(InsertAll(s.table, batch.rows), touched), Raised)
      else (Store(InsertAll(s.table, batch.rows), touched + batch.heads), Committed(|batch.rows|, batch.duplicates))
  }

  // ------------------------------------------------ the health of the store

  predicate Ascending(rows: seq<Row>) { forall i, j :: 0 <= i < j < |rows| ==> rows[i].ts < rows[j].ts }

  predicate AllOf(rows: seq<Row>, b: Id) { forall i :: 0 <= i < |rows| ==> rows[i].building == b }

  /** The rows of one building form an intact chain in time order, and the memory of the
      ingester ends where they end. */
  ghost predicate HealthyAt(key: Key, table: Table, heads: Heads, b: Id) {
    var rows := RowsOf(table, b);
    IsChain(key, rows) && Ascending(rows) && AllOf(rows, b) && HeadIn(heads, b) == HeadOf(rows)
  }

  ghost predicate Healthy(key: Key, table: Table, heads: Heads) { forall b :: HealthyAt(key, table, heads, b) }

  /** Rows are only ever added at the end. */
  ghost predicate Grows(old_: Table, new_: Table) { forall b :: RowsOf(old_, b) <= RowsOf(new_, b) }

  lemma NewerThanHead(rows: seq<Row>, ts: int)
    requires Ascending(rows) && (HeadOf(rows).lastTs.Some? ==> ts > HeadOf(rows).lastTs.value)
    ensures !HasTs(rows, ts) && forall i :: 0 <= i < |rows| ==> rows[i].ts < ts
  {}

  /** While the store is healthy, the timestamp of the head alone decides: asking the
      database finds nothing that the head does not already exclude. */
  lemma HeadDecides(key: Key, table: Table, heads: Heads, r: Reading)
    requires HealthyAt(key, table, heads, r.building)
    ensures var head := HeadIn(heads, r.building);
            Duplicate(head, table, r) <==> head.lastTs.Some? && r.ts <= head.lastTs.value
  {}

  /** Signing the next reading after a head that matches the table extends the chain, and
      concerns no other building. */
  lemma NextRowExtends(key: Key, table: Table, heads: Heads, r: Reading)
    requires HealthyAt(key, table, heads, r.building)
    requires !Duplicate(HeadIn(heads, r.building), table, r)
    ensures var row := NextRow(key, HeadIn(heads, r.building), r);
            var (table', heads') := (Insert(table, row), heads[r.building := Head(row.num, row.sig, Some(row.ts))]);
            && RowsOf(table', r.building) == RowsOf(table, r.building) + [row]
            && HealthyAt(key, table', heads', r.building)
            && forall b :: b != r.building ==>
                 RowsOf(table', b) == RowsOf(table, b) && HeadIn(heads', b) == HeadIn(heads, b)
  {
    var b := r.building;
    var rows := RowsOf(table, b);
    var row := NextRow(key, HeadIn(heads, b), r);
    if rows != [] { NumberedFromZero(key, rows, |rows| - 1); }
    NewerThanHead(rows, r.ts);
    Extend(key, rows, row);
  }

  lemma GrowsTransitive(a: Table, b: Table, c: Table)
    requires Grows(a, b) && Grows(b, c)
    ensures Grows(a, c)
  {}

  function CountOf(rows: seq<Row>, b: Id): nat {
    if rows == [] then 0
    else CountOf(rows[..|rows| - 1], b) + if rows[|rows| - 1].building == b then 1 else 0
  }

  /** What a prefix of the batch has achieved for a building: with its rows stored and its
      heads applied the building would be healthy, and none of its rows is discarded as a
      conflict. */
  ghost predicate AgreesAt(key: Key, s: Store, batch: Batch, b: Id) {
    var table := InsertAll(s.table, batch.rows);
    && HealthyAt(key, table, s.heads + batch.heads, b) && RowsOf(s.table, b) <= RowsOf(table, b)
    && |RowsOf(table, b)| == |RowsOf(s.table, b)| + CountOf(batch.rows, b)
  }

  /** The same for every building, and every reading became a row or a counted duplicate. */
  ghost predicate BatchAgrees(key: Key, s: Store, batch: Batch, n: nat) {
    && Healthy(key, InsertAll(s.table, batch.rows), s.heads + batch.heads)
    && Grows(s.table, InsertAll(s.table, batch.rows))
    && (forall b :: |RowsOf(InsertAll(s.table, batch.rows), b)| == |RowsOf(s.table, b)| + CountOf(batch.rows, b))
    && |batch.rows| + batch.duplicates == n
  }

  lemma RowBuilding(key: Key, head: Head, r: Reading)
    ensures NextRow(key, head, r).building == r.building
  {}

  /** One more row in a batch: what it does to the rows of a building and to its count. */
  lemma OneMoreRow(table: Table, rows: seq<Row>, row: Row, b: Id)
    ensures InsertAll(table, rows + [row]) == Insert(InsertAll(table, rows), row)
    ensures CountOf(rows + [row], b) == CountOf(rows, b) + if row.building == b then 1 else 0
    ensures row.building != b ==> RowsOf(InsertAll(table, rows + [row]), b) == RowsOf(InsertAll(table, rows), b)
  {
    assert (rows + [row])[..|rows|] == rows;
  }

  /** The stored rows only grow during the batch, so a timestamp found in the table as it
      was before is found in the table as it will be. */
  lemma DuplicateAgainstGrown(s: Store, table': Table, head: Head, key: Key, heads': Heads, r: Reading)
    requires RowsOf(s.table, r.building) <= RowsOf(table', r.building)
    requires HealthyAt(key, table', heads', r.building) && head == HeadIn(heads', r.building)
    ensures Duplicate(head, s.table, r) <==> Duplicate(head, table', r)
  {}

  /** A row of another building changes nothing for this one. */
  lemma AgreesElsewhere(key: Key, s: Store, batch: Batch, row: Row, last: Head, b: Id)
    requires AgreesAt(key, s, batch, b) && row.building != b
    ensures AgreesAt(key, s, Batch(batch.rows + [row], batch.heads[row.building := last], batch.duplicates), b)
  {
    OneMoreRow(s.table, batch.rows, row, b);
    hide InsertAll, CountOf, IsChain;
  }

  lemma AgreesHere(key: Key, s: Store, batch: Batch, r: Reading)
    requires AgreesAt(key, s, batch, r.building)
    requires !Duplicate(HeadIn(s.heads + batch.heads, r.building), s.table, r)
    ensures var row := NextRow(key, HeadIn(s.heads + batch.heads, r.building), r);
            var heads' := batch.heads[r.building := Head(row.num, row.sig, Some(row.ts))];
            AgreesAt(key, s, Batch(batch.rows + [row], heads', batch.duplicates), r.building)
  {
    hide Duplicate, NextRow, InsertAll, Insert, CountOf, HealthyAt;
    var mid := InsertAll(s.table, batch.rows);
    var heads' := s.heads + batch.heads;
    var head := HeadIn(heads', r.building);
    var row := NextRow(key, head, r);
    RowBuilding(key, head, r);
    OneMoreRow(s.table, batch.rows, row, r.building);
    DuplicateAgainstGrown(s, mid, head, key, heads', r);
    NextRowExtends(key, mid, heads', r);
    var last := Head(row.num, row.sig, Some(row.ts));
    assert heads'[r.building := last] == s.heads + batch.heads[r.building := last];
  }

  lemma SignOneAgrees(key: Key, s: Store, batch: Batch, r: Reading, b: Id)
    requires AgreesAt(key, s, batch, b)
    ensures AgreesAt(key, s, SignOne(key, s.heads, s.table, batch, r), b)
  {
    hide AgreesAt, Duplicate;
    var head := HeadIn(s.heads + batch.heads, r.building);
    var row := NextRow(key, head, r);
    if !Duplicate(head, s.table, r) {
      if r.building == b {
        AgreesHere(key, s, batch, r);
      } else {
        AgreesElsewhere(key, s, batch, row, Head(row.num, row.sig, Some(row.ts)), b);
      }
    } else {
      AgreesIgnoresCount(key, s, batch, b);
    }
  }

  lemma AgreesIgnoresCount(key: Key, s: Store, batch: Batch, b: Id)
    requires AgreesAt(key, s, batch, b)
    ensures AgreesAt(key, s, batch.(duplicates := batch.duplicates + 1), b)
  {}

  lemma {:induction false} SignBatchAgreesAt(key: Key, s: Store, pending: seq<Reading>, b: Id)
    requires HealthyAt(key, s.table, s.heads, b)
    ensures AgreesAt(key, s, SignBatch(key, s.heads, s.table, pending), b)
  {
    if pending == [] {
      assert s.heads + map[] == s.heads;
    } else {
      var n := |pending| - 1;
      hide AgreesAt;
      SignBatchAgreesAt(key, s, pending[..n], b);
      SignOneAgrees(key, s, SignBatch(key, s.heads, s.table, pending[..n]), pending[n], b);
    }
  }

  lemma SignBatchAgrees(key: Key, s: Store, pending: seq<Reading>)
    requires Healthy(key, s.table, s.heads)
    ensures BatchAgrees(key, s, SignBatch(key, s.heads, s.table, pending), |pending|)
  {
    SignedCounts(key, s.heads, s.table, pending);
    var batch := SignBatch(key, s.heads, s.table, pending);
    var table := InsertAll(s.table, batch.rows);
    hide HealthyAt, SignBatch;
    forall b
      ensures HealthyAt(key, table, s.heads + batch.heads, b) && RowsOf(s.table, b) <= RowsOf(table, b)
      ensures |RowsOf(table, b)| == |RowsOf(s.table, b)| + CountOf(batch.rows, b)
    {
      assert HealthyAt(key, s.table, s.heads, b);
      SignBatchAgreesAt(key, s, pending, b);
    }
  }

  lemma {:induction false} TouchedSameHeads(heads: Heads, pending: seq<Reading>, more: Heads, b: Id)
    ensures HeadIn(Touched(heads, pending) + more, b) == HeadIn(heads + more, b)
    ensures HeadIn(Touched(heads, pending), b) == HeadIn(heads, b)
  {
    if pending != [] { TouchedSameHeads(heads, pending[..|pending| - 1], more, b); }
  }

  lemma SameHeadsStayHealthy(key: Key, table: Table, heads: Heads, heads': Heads)
    requires Healthy(key, table, heads) && forall b :: HeadIn(heads', b) == HeadIn(heads, b)
    ensures Healthy(key, table, heads')
  {
    forall b ensures HealthyAt(key, table, heads', b) { assert HealthyAt(key, table, heads, b); }
  }

  // ------------------------------------------------ main results about one write

  /** A write that ends in a commit keeps every chain intact and in step with the memory,
      only appends, and turns each pending reading into one stored row or one duplicate. */
  lemma CommittedWrite(c: Config, s: Store, pending: seq<Reading>, w: Weather)
    requires Healthy(c.key, s.table, s.heads) && Written(c, s, pending, w).1.Committed?
    ensures var (s', out) := Written(c, s, pending, w);
            && Healthy(c.key, s'.table, s'.heads) && Grows(s.table, s'.table)
            && out.written + out.duplicates == |pending|
  {
    var batch := SignBatch(c.key, s.heads, s.table, pending);
    SignBatchAgrees(c.key, s, pending);
    var s' := Written(c, s, pending, w).0;
    forall b ensures HeadIn(s'.heads, b) == HeadIn(s.heads + batch.heads, b) {
      TouchedSameHeads(s.heads, pending, batch.heads, b);
      if batch.rows == [] { NoRowsNoHeads(c.key, s.heads, s.table, pending); }
    }
    SameHeadsStayHealthy(c.key, s'.table, s.heads + batch.heads, s'.heads);
  }

  lemma {:induction false} NoRowsNoHeads(key: Key, heads: Heads, table: Table, pending: seq<Reading>)
    requires SignBatch(key, heads, table, pending).rows == []
    ensures SignBatch(key, heads, table, pending).heads == map[]
  {
    if pending != [] { NoRowsNoHeads(key, heads, table, pending[..|pending| - 1]); }
  }

  /** The rows a commit adds per building are all of the rows signed for it: nothing that
      was numbered is discarded by the conflict clause. */
  lemma NothingDiscarded(c: Config, s: Store, pending: seq<Reading>, b: Id)
    requires Healthy(c.key, s.table, s.heads)
    ensures var batch := SignBatch(c.key, s.heads, s.table, pending);
            |RowsOf(InsertAll(s.table, batch.rows), b)| == |RowsOf(s.table, b)| + CountOf(batch.rows, b)
  {
    SignBatchAgrees(c.key, s, pending);
  }

  /** A write that is refused, or fails before its commit, leaves the table and every head
      as they were, healthy or not. */
  lemma FailedWriteLeavesNoTrace(c: Config, s: Store, pending: seq<Reading>, w: Weather, b: Id)
    requires !Written(c, s, pending, w).1.Committed? && w != FailsAfterCommit
    ensures Written(c, s, pending, w).0.table == s.table
    ensures HeadIn(Written(c, s, pending, w).0.heads, b) == HeadIn(s.heads, b)
  {
    TouchedSameHeads(s.heads, pending, map[], b);
  }

  /** Trying the same batch again signs exactly the same rows. */
  lemma {:induction false} RetrySignsTheSame(key: Key, heads: Heads, heads': Heads, table: Table, pending: seq<Reading>)
    requires forall b :: HeadIn(heads', b) == HeadIn(heads, b)
    ensures SignBatch(key, heads', table, pending) == SignBatch(key, heads, table, pending)
  {
    if pending != [] {
      var n := |pending| - 1;
      RetrySignsTheSame(key, heads, heads', table, pending[..n]);
      var batch := SignBatch(key, heads, table, pending[..n]);
      var b := pending[n].building;
      assert HeadIn(heads' + batch.heads, b) == if b in batch.heads then batch.heads[b] else HeadIn(heads', b);
      assert HeadIn(heads + batch.heads, b) == if b in batch.heads then batch.heads[b] else HeadIn(heads, b);
    }
  }

  // ------------------------------------------------ when memory and table disagree

  /** Storing the row signed after an arbitrary head, wherever the ordering by number puts
      it: the result is an intact chain exactly when that head was the head of the table. */
  lemma ForkIff(key: Key, rows: seq<Row>, head: Head, r: Reading, p: nat)
    requires IsChain(key, rows) && p <= |rows|
    ensures var row := NextRow(key, head, r);
            IsChain(key, rows[..p] + [row] + rows[p..]) <==>
              p == |rows| && head.lastNum == HeadOf(rows).lastNum && head.lastSig == HeadOf(rows).lastSig
  {
    var n := |rows|;
    var row := NextRow(key, head, r);
    var t := rows[..p] + [row] + rows[p..];
    if n > 0 { NumberedFromZero(key, rows, n - 1); }
    if IsChain(key, t) {
      if p < n {
        assert t[p + 1] == rows[p];
        NumberedFromZero(key, rows, p);
        NumberedFromZero(key, t, p + 1);
      }
      NumberedFromZero(key, t, n);
      assert t == rows + [row];
      assert Follows(key, t, n);
    }
    if p == n && head.lastNum == HeadOf(rows).lastNum && head.lastSig == HeadOf(rows).lastSig {
      assert t == rows + [row];
      Extend(key, rows, row);
    }
  }

  /** The store after a commit whose confirmation was lost: the rows are in, and no head has
      moved. */
  lemma LostConfirmation(c: Config, s: Store, pending: seq<Reading>, b: Id)
    requires Healthy(c.key, s.table, s.heads) && Written(c, s, pending, FailsAfterCommit).1.Raised?
    ensures var s' := Written(c, s, pending, FailsAfterCommit).0;
            var batch := SignBatch(c.key, s.heads, s.table, pending);
            && s'.table == InsertAll(s.table, batch.rows) && batch.rows != []
            && HeadIn(s'.heads, b) == HeadIn(s.heads, b)
            && HealthyAt(c.key, s'.table, s.heads + batch.heads, b)
            && |RowsOf(s'.table, b)| == |RowsOf(s.table, b)| + CountOf(batch.rows, b)
  {
    SignBatchAgrees(c.key, s, pending);
    TouchedSameHeads(s.heads, pending, map[], b);
  }

  lemma {:induction false} SomeBuilding(rows: seq<Row>)
    requires rows != []
    ensures CountOf(rows, rows[|rows| - 1].building) > 0
  {}

  /** Under a lost confirmation memory and table agree afterwards exactly when the batch had
      nothing to store, or nothing the database accepts. Restarting brings them together. */
  lemma LostConfirmationHealthyIff(c: Config, s: Store, pending: seq<Reading>)
    requires Healthy(c.key, s.table, s.heads)
    ensures var s' := Written(c, s, pending, FailsAfterCommit).0;
            var rows := SignBatch(c.key, s.heads, s.table, pending).rows;
            && (Healthy(c.key, s'.table, s'.heads) <==> rows == [] || !Acceptable(c, rows))
            && Healthy(c.key, s'.table, LoadHeads(s'.table))
  {
    var (s', out) := Written(c, s, pending, FailsAfterCommit);
    var batch := SignBatch(c.key, s.heads, s.table, pending);
    if out.Raised? {
      var b := batch.rows[|batch.rows| - 1].building;
      LostConfirmation(c, s, pending, b);
      SomeBuilding(batch.rows);
      HeadNumber(c.key, RowsOf(s'.table, b));
      assert HealthyAt(c.key, s.table, s.heads, b);
      HeadNumber(c.key, RowsOf(s.table, b));
      hide HealthyAt, Written, SignBatch;
      assert !HealthyAt(c.key, s'.table, s'.heads, b) by { HeadTooLow(c.key, s'.table, s'.heads, s.table, s.heads, b); }
      SignBatchAgrees(c.key, s, pending);
      ResumeIsHealthy(c.key, s'.table, s.heads + batch.heads);
    } else {
      forall b ensures HeadIn(s'.heads, b) == HeadIn(s.heads, b) { TouchedSameHeads(s.heads, pending, map[], b); }
      SameHeadsStayHealthy(c.key, s.table, s.heads, s'.heads);
      ResumeIsHealthy(c.key, s'.table, s'.heads);
    }
  }

  lemma HeadTooLow(key: Key, table: Table, heads: Heads, before: Table, old_: Heads, b: Id)
    requires HealthyAt(key, before, old_, b) && HeadIn(heads, b) == HeadIn(old_, b)
    requires |RowsOf(table, b)| > |RowsOf(before, b)|
    ensures !HealthyAt(key, table, heads, b)
  {
    HeadNumber(key, RowsOf(before, b));
    if HealthyAt(key, table, heads, b) { HeadNumber(key, RowsOf(table, b)); }
  }

  /** After that the next reading of the building that is new, and that the database accepts,
      is stored under a number already taken: the chain forks, wherever the ordering by number
      puts the row. */
  lemma LostConfirmationForks(c: Config, s: Store, pending: seq<Reading>, next: Reading, p: nat)
    requires Healthy(c.key, s.table, s.heads) && Written(c, s, pending, FailsAfterCommit).1.Raised?
    requires CountOf(SignBatch(c.key, s.heads, s.table, pending).rows, next.building) > 0
    requires var s' := Written(c, s, pending, FailsAfterCommit).0;
             && p <= |RowsOf(s'.table, next.building)| && next.building in c.known
             && !Duplicate(HeadIn(s'.heads, next.building), s'.table, next)
    ensures var s' := Written(c, s, pending, FailsAfterCommit).0;
            var s'' := Written(c, s', [next], Fine).0;
            var rows := RowsOf(s'.table, next.building);
            var row := NextRow(c.key, HeadIn(s'.heads, next.building), next);
            && IsChain(c.key, rows) && RowsOf(s''.table, next.building) == rows + [row]
            && !IsChain(c.key, RowsOf(s''.table, next.building))
            && !IsChain(c.key, rows[..p] + [row] + rows[p..])
  {
    hide Written, SignBatch, NextRow, Duplicate, IsChain, CountOf;
    HeadBehind(c, s, pending, next.building);
    ForkAfter(c, Written(c, s, pending, FailsAfterCommit).0, next, p);
  }

  lemma HeadBehind(c: Config, s: Store, pending: seq<Reading>, b: Id)
    requires Healthy(c.key, s.table, s.heads) && Written(c, s, pending, FailsAfterCommit).1.Raised?
    requires CountOf(SignBatch(c.key, s.heads, s.table, pending).rows, b) > 0
    ensures var s' := Written(c, s, pending, FailsAfterCommit).0;
            IsChain(c.key, RowsOf(s'.table, b)) && HeadIn(s'.heads, b).lastNum < HeadOf(RowsOf(s'.table, b)).lastNum
  {
    LostConfirmation(c, s, pending, b);
    assert HealthyAt(c.key, s.table, s.heads, b);
    hide Written, SignBatch, IsChain, CountOf;
    HeadNumber(c.key, RowsOf(s.table, b));
    HeadNumber(c.key, RowsOf(Written(c, s, pending, FailsAfterCommit).0.table, b));
  }

  lemma ForkAfter(c: Config, s: Store, next: Reading, p: nat)
    requires var rows := RowsOf(s.table, next.building);
             && IsChain(c.key, rows) && p <= |rows| && HeadIn(s.heads, next.building).lastNum != HeadOf(rows).lastNum
             && next.building in c.known && !Duplicate(HeadIn(s.heads, next.building), s.table, next)
    ensures var rows := RowsOf(s.table, next.building);
            var row := NextRow(c.key, HeadIn(s.heads, next.building), next);
            && RowsOf(Written(c, s, [next], Fine).0.table, next.building) == rows + [row]
            && !IsChain(c.key, rows + [row]) && !IsChain(c.key, rows[..p] + [row] + rows[p..])
  {
    hide Written, NextRow, Duplicate, IsChain, RowsOf, HeadIn, HeadOf;
    var rows := RowsOf(s.table, next.building);
    var head := HeadIn(s.heads, next.building);
    WriteOne(c, s, next);
    ForkIff(c.key, rows, head, next, p);
    ForkIff(c.key, rows, head, next, |rows|);
    var row := NextRow(c.key, head, next);
    assert rows[..|rows|] + [row] + rows[|rows|..] == rows + [row];
  }

  /** A new reading of a known building is signed after the head held for it and appended. */
  lemma WriteOne(c: Config, s: Store, r: Reading)
    requires r.building in c.known && !Duplicate(HeadIn(s.heads, r.building), s.table, r)
    ensures RowsOf(Written(c, s, [r], Fine).0.table, r.building)
         == RowsOf(s.table, r.building) + [NextRow(c.key, HeadIn(s.heads, r.building), r)]
  {
    assert [r][..0] == [] && s.heads + map[] == s.heads;
    var empty := SignBatch(c.key, s.heads, s.table, []);
    var row := NextRow(c.key, HeadIn(s.heads, r.building), r);
    assert SignBatch(c.key, s.heads, s.table, [r]) == SignOne(c.key, s.heads, s.table, empty, r);
    assert empty.rows + [row] == [row];
    assert [row][..0] == [];
    assert InsertAll(s.table, [row]) == Insert(InsertAll(s.table, []), row);
  }

  predicate Signed(rows: seq<Row>, r: Reading) {
    exists k :: 0 <= k < |rows| && rows[k].building == r.building && rows[k].ts == r.ts
  }

  predicate Stale(head: Head, r: Reading) { head.lastTs.Some? && r.ts <= head.lastTs.value }

  /** Newer than its chain when the batch began, and dropped because a newer one stood before
      it in the batch. */
  predicate Late(s: Store, rows: seq<Row>, r: Reading) { !Stale(HeadIn(s.heads, r.building), r) && !Signed(rows, r) }

  lemma {:induction false} InsertAllHasTs(table: Table, rows: seq<Row>, r: Reading)
    ensures HasTs(RowsOf(InsertAll(table, rows), r.building), r.ts) <==>
              HasTs(RowsOf(table, r.building), r.ts) || Signed(rows, r)
  {
    if rows != [] {
      var n := |rows| - 1;
      var mid := InsertAll(table, rows[..n]);
      InsertAllHasTs(table, rows[..n], r);
      assert Signed(rows, r) <==> Signed(rows[..n], r) || (rows[n].building == r.building && rows[n].ts == r.ts) by {
        assert forall k :: 0 <= k < n ==> rows[..n][k] == rows[k];
      }
      hide Signed, InsertAll;
      InsertHasTs(mid, rows[n], r);
      assert InsertAll(table, rows) == Insert(mid, rows[n]) by { InsertAllStep(table, rows); }
    }
  }

  lemma InsertAllStep(table: Table, rows: seq<Row>)
    requires rows != []
    ensures InsertAll(table, rows) == Insert(InsertAll(table, rows[..|rows| - 1]), rows[|rows| - 1])
  {}

  lemma InsertHasTs(table: Table, row: Row, r: Reading)
    ensures HasTs(RowsOf(Insert(table, row), r.building), r.ts) <==>
              HasTs(RowsOf(table, r.building), r.ts) || (row.building == r.building && row.ts == r.ts)
  {
    var rows := RowsOf(table, row.building);
    if !HasTs(rows, row.ts) && row.building == r.building {
      assert forall i :: 0 <= i < |rows| ==> (rows + [row])[i] == rows[i];
      assert (rows + [row])[|rows|] == row;
    }
  }

  lemma {:induction false} NothingSignedIff(key: Key, heads: Heads, table: Table, pending: seq<Reading>)
    ensures var batch := SignBatch(key, heads, table, pending);
            && (batch.rows == [] <==>
                  forall i :: 0 <= i < |pending| ==> Duplicate(HeadIn(heads, pending[i].building), table, pending[i]))
            && (batch.rows == [] ==> batch.duplicates == |pending|)
  {
    if pending != [] {
      var n := |pending| - 1;
      NothingSignedIff(key, heads, table, pending[..n]);
      var before := SignBatch(key, heads, table, pending[..n]);
      hide Duplicate, NextRow;
      if before.rows == [] {
        NoRowsNoHeads(key, heads, table, pending[..n]);
        assert heads + map[] == heads;
      }
      assert forall i :: 0 <= i < n ==> pending[..n][i] == pending[i];
    }
  }

  /** The batch whose confirmation was lost is tried again: it finds its own rows stored. All
      of it is dropped, and neither table nor head moves, exactly when no reading came late. */
  lemma RetryDropsAllIff(c: Config, s: Store, pending: seq<Reading>)
    requires Healthy(c.key, s.table, s.heads) && Written(c, s, pending, FailsAfterCommit).1.Raised?
    ensures var s' := Written(c, s, pending, FailsAfterCommit).0;
            var (s'', out) := Written(c, s', pending, Fine);
            var rows := SignBatch(c.key, s.heads, s.table, pending).rows;
            && (out == Committed(0, |pending|) <==> forall i :: 0 <= i < |pending| ==> !Late(s, rows, pending[i]))
            && (out == Committed(0, |pending|) ==>
                  s''.table == s'.table && forall b :: HeadIn(s''.heads, b) == HeadIn(s'.heads, b))
  {
    var s' := Written(c, s, pending, FailsAfterCommit).0;
    var rows := SignBatch(c.key, s.heads, s.table, pending).rows;
    forall i | 0 <= i < |pending|
      ensures Duplicate(HeadIn(s'.heads, pending[i].building), s'.table, pending[i]) <==> !Late(s, rows, pending[i])
    {
      DuplicateOnRetry(c, s, pending, pending[i]);
    }
    NothingSignedIff(c.key, s'.heads, s'.table, pending);
    SignedCounts(c.key, s'.heads, s'.table, pending);
    forall b ensures HeadIn(Touched(s'.heads, pending), b) == HeadIn(s'.heads, b) {
      TouchedSameHeads(s'.heads, pending, map[], b);
    }
    hide SignBatch, Late, Duplicate, Touched;
  }

  lemma DuplicateOnRetry(c: Config, s: Store, pending: seq<Reading>, r: Reading)
    requires Healthy(c.key, s.table, s.heads) && Written(c, s, pending, FailsAfterCommit).1.Raised?
    ensures var s' := Written(c, s, pending, FailsAfterCommit).0;
            var rows := SignBatch(c.key, s.heads, s.table, pending).rows;
            Duplicate(HeadIn(s'.heads, r.building), s'.table, r) <==> !Late(s, rows, r)
  {
    LostConfirmation(c, s, pending, r.building);
    assert HealthyAt(c.key, s.table, s.heads, r.building);
    HeadDecides(c.key, s.table, s.heads, r);
    InsertAllHasTs(s.table, SignBatch(c.key, s.heads, s.table, pending).rows, r);
    hide Written, SignBatch, InsertAll, HasTs, Signed, Healthy, HealthyAt;
  }

  lemma SignedMore(rows: seq<Row>, row: Row, r: Reading)
    ensures Signed(rows, r) ==> Signed(rows + [row], r)
    ensures row.building == r.building && row.ts == r.ts ==> Signed(rows + [row], r)
  {
    if Signed(rows, r) {
      var k :| 0 <= k < |rows| && rows[k].building == r.building && rows[k].ts == r.ts;
      assert (rows + [row])[k] == rows[k];
    }
    assert (rows + [row])[|rows|] == row;
  }

  /** The head held aside for a building is that of a reading of the batch which was signed. */
  lemma {:induction false} AsideIsSigned(key: Key, heads: Heads, table: Table, pending: seq<Reading>, b: Id)
    returns (j: nat)
    requires b in SignBatch(key, heads, table, pending).heads
    ensures j < |pending| && pending[j].building == b
    ensures var batch := SignBatch(key, heads, table, pending);
            batch.heads[b].lastTs == Some(pending[j].ts) && Signed(batch.rows, pending[j])
  {
    var n := |pending| - 1;
    var before := SignBatch(key, heads, table, pending[..n]);
    var head := HeadIn(heads + before.heads, pending[n].building);
    var row := NextRow(key, head, pending[n]);
    if Duplicate(head, table, pending[n]) {
      j := AsideIsSigned(key, heads, table, pending[..n], b);
    } else {
      if pending[n].building == b { j := n; } else { j := AsideIsSigned(key, heads, table, pending[..n], b); }
      SignedMore(before.rows, row, pending[j]);
    }
  }

  predicate InOrder(pending: seq<Reading>) {
    forall i, j :: 0 <= i < j < |pending| && pending[i].building == pending[j].building ==>
      pending[i].ts <= pending[j].ts
  }

  /** In a batch whose readings are in order no reading comes late. */
  lemma {:induction false} InOrderIsNeverLate(key: Key, s: Store, pending: seq<Reading>)
    requires Healthy(key, s.table, s.heads) && InOrder(pending)
    ensures forall i :: 0 <= i < |pending| ==> !Late(s, SignBatch(key, s.heads, s.table, pending).rows, pending[i])
  {
    if pending != [] {
      var n := |pending| - 1;
      InOrderIsNeverLate(key, s, pending[..n]);
      var before := SignBatch(key, s.heads, s.table, pending[..n]);
      var rows := SignBatch(key, s.heads, s.table, pending).rows;
      LastIsNotLate(key, s, pending);
      forall i | 0 <= i < n ensures !Late(s, rows, pending[i]) {
        assert pending[..n][i] == pending[i];
        assert !Late(s, before.rows, pending[i]);
        if rows != before.rows { SignedMore(before.rows, rows[|rows| - 1], pending[i]); }
      }
    }
  }

  lemma LastIsNotLate(key: Key, s: Store, pending: seq<Reading>)
    requires Healthy(key, s.table, s.heads) && InOrder(pending) && pending != []
    ensures !Late(s, SignBatch(key, s.heads, s.table, pending).rows, pending[|pending| - 1])
  {
    var n := |pending| - 1;
    var r := pending[n];
    var before := SignBatch(key, s.heads, s.table, pending[..n]);
    var head := HeadIn(s.heads + before.heads, r.building);
    assert HealthyAt(key, s.table, s.heads, r.building);
    HeadDecides(key, s.table, s.heads, r);
    SignedMore(before.rows, NextRow(key, head, r), r);
    hide Healthy, HealthyAt, HasTs;
    if Duplicate(head, s.table, r) && r.building in before.heads {
      var j := AsideIsSigned(key, s.heads, s.table, pending[..n], r.building);
      assert pending[j].ts <= r.ts;
    }
  }

  lemma HeadNumber(key: Key, rows: seq<Row>)
    requires IsChain(key, rows)
    ensures HeadOf(rows).lastNum == |rows| - 1
  {
    if rows != [] { NumberedFromZero(key, rows, |rows| - 1); }
  }

  // ------------------------------------------------ resuming after a restart

  /** Index of the row with the largest number. */
  function MaxRow(rows: seq<Row>): (m: nat)
    requires rows != []
    ensures m < |rows| && forall i :: 0 <= i < |rows| ==> rows[i].num <= rows[m].num
  {
    if |rows| == 1 then 0
    else
      var n := |rows| - 1;
      var m := MaxRow(rows[..n]);
      assert forall i :: 0 <= i < n ==> rows[..n][i] == rows[i];
      if rows[n].num > rows[m].num then n else m
  }

  function LoadHeads(table: Table): Heads {
    map b | b in table && table[b] != [] ::
      var row := table[b][MaxRow(table[b])]; Head(row.num, row.sig, Some(row.ts))
  }

  lemma LoadedAt(key: Key, table: Table, b: Id)
    requires var rows := RowsOf(table, b); IsChain(key, rows) && Ascending(rows) && AllOf(rows, b)
    ensures HealthyAt(key, table, LoadHeads(table), b)
  {
    var rows := RowsOf(table, b);
    if rows != [] {
      NumberedFromZero(key, rows, |rows| - 1);
      NumberedFromZero(key, rows, MaxRow(rows));
    }
  }

  /** Reloading the heads from an intact table continues every chain where it ended. */
  lemma ResumeIsHealthy(key: Key, table: Table, heads: Heads)
    requires Healthy(key, table, heads)
    ensures Healthy(key, table, LoadHeads(table))
  {
    forall b ensures HealthyAt(key, table, LoadHeads(table), b) {
      assert HealthyAt(key, table, heads, b);
      LoadedAt(key, table, b);
    }
  }

  // ------------------------------------------------ one building, whatever becomes of the writes

  /** The rows of the building form an intact chain in time order, and the memory of the
      ingester is where they end or, after a lost confirmation, where they ended before. */
  ghost predicate LinkedAt(key: Key, table: Table, heads: Heads, b: Id) {
    var rows := RowsOf(table, b);
    && IsChain(key, rows) && Ascending(rows) && AllOf(rows, b)
    && exists k: nat :: k <= |rows| && HeadIn(heads, b) == HeadOf(rows[..k])
  }

  lemma HealthyIsLinked(key: Key, table: Table, heads: Heads, b: Id)
    requires HealthyAt(key, table, heads, b)
    ensures LinkedAt(key, table, heads, b)
  {
    var rows := RowsOf(table, b);
    assert rows[..|rows|] == rows;
  }

  lemma LinkedHead(key: Key, table: Table, heads: Heads, b: Id) returns (k: nat)
    requires LinkedAt(key, table, heads, b)
    ensures k <= |RowsOf(table, b)| && HeadIn(heads, b) == HeadOf(RowsOf(table, b)[..k])
    ensures HeadIn(heads, b).lastNum == k - 1 && HeadOf(RowsOf(table, b)).lastNum == |RowsOf(table, b)| - 1
    ensures HeadIn(heads, b) == HeadOf(RowsOf(table, b)) <==> k == |RowsOf(table, b)|
  {
    var rows := RowsOf(table, b);
    k :| k <= |rows| && HeadIn(heads, b) == HeadOf(rows[..k]);
    PrefixIsChain(key, rows, k);
    HeadNumber(key, rows[..k]);
    HeadNumber(key, rows);
    assert rows[..|rows|] == rows;
  }

  /** The write reaches the database and stores something. */
  predicate Stores(c: Config, s: Store, pending: seq<Reading>, w: Weather) {
    var rows := SignBatch(c.key, s.heads, s.table, pending).rows;
    w != FailsBefore && rows != [] && Acceptable(c, rows)
  }

  /** It stores rows of the building that were signed after a head which is not the head of
      its table. */
  predicate Forks(c: Config, s: Store, pending: seq<Reading>, w: Weather, b: Id) {
    && Stores(c, s, pending, w) && CountOf(SignBatch(c.key, s.heads, s.table, pending).rows, b) > 0
    && HeadIn(s.heads, b) != HeadOf(RowsOf(s.table, b))
  }

  lemma WrittenMeans(c: Config, s: Store, pending: seq<Reading>, w: Weather, b: Id)
    ensures var s' := Written(c, s, pending, w).0;
            var batch := SignBatch(c.key, s.heads, s.table, pending);
            if Stores(c, s, pending, w) then
              s'.table == InsertAll(s.table, batch.rows) &&
              HeadIn(s'.heads, b) == if w == Fine then HeadIn(s.heads + batch.heads, b) else HeadIn(s.heads, b)
            else
              s'.table == s.table && HeadIn(s'.heads, b) == HeadIn(s.heads, b)
  {
    TouchedSameHeads(s.heads, pending, map[], b);
    TouchedSameHeads(s.heads, pending, SignBatch(c.key, s.heads, s.table, pending).heads, b);
  }

  lemma {:induction false} InsertAllGrows(table: Table, rows: seq<Row>, b: Id)
    ensures RowsOf(table, b) <= RowsOf(InsertAll(table, rows), b)
  {
    if rows != [] { InsertAllGrows(table, rows[..|rows| - 1], b); }
  }

  /** A building none of whose readings is signed is not touched. */
  lemma {:induction false} UntouchedBuilding(key: Key, s: Store, pending: seq<Reading>, b: Id)
    requires CountOf(SignBatch(key, s.heads, s.table, pending).rows, b) == 0
    ensures var batch := SignBatch(key, s.heads, s.table, pending);
            b !in batch.heads && RowsOf(InsertAll(s.table, batch.rows), b) == RowsOf(s.table, b)
  {
    if pending != [] {
      var n := |pending| - 1;
      var before := SignBatch(key, s.heads, s.table, pending[..n]);
      var head := HeadIn(s.heads + before.heads, pending[n].building);
      var row := NextRow(key, head, pending[n]);
      RowBuilding(key, head, pending[n]);
      OneMoreRow(s.table, before.rows, row, b);
      hide NextRow, Duplicate, InsertAll, CountOf;
      UntouchedBuilding(key, s, pending[..n], b);
    }
  }

  lemma InsertGrows(table: Table, row: Row, b: Id)
    ensures RowsOf(table, b) <= RowsOf(Insert(table, row), b)
  {}

  /** The first row a batch adds to a building carries the number after the head in memory. */
  lemma {:induction false} FirstAdded(key: Key, s: Store, pending: seq<Reading>, b: Id)
    requires CountOf(SignBatch(key, s.heads, s.table, pending).rows, b) > 0
    ensures var (rows, n) := (RowsOf(InsertAll(s.table, SignBatch(key, s.heads, s.table, pending).rows), b),
                              |RowsOf(s.table, b)|);
            RowsOf(s.table, b) <= rows && n < |rows| && rows[n].num == HeadIn(s.heads, b).lastNum + 1
  {
    var m := |pending| - 1;
    var before := SignBatch(key, s.heads, s.table, pending[..m]);
    var r := pending[m];
    var head := HeadIn(s.heads + before.heads, r.building);
    var row := NextRow(key, head, r);
    RowBuilding(key, head, r);
    OneMoreRow(s.table, before.rows, row, b);
    var mid := InsertAll(s.table, before.rows);
    InsertGrows(mid, row, b);
    if CountOf(before.rows, b) > 0 {
      hide NextRow, Duplicate, CountOf, InsertAll, Insert;
      FirstAdded(key, s, pending[..m], b);
    } else {
      UntouchedBuilding(key, s, pending[..m], b);
      assert RowsOf(Insert(mid, row), b) == RowsOf(s.table, b) + [row];
    }
  }

  /** Signed after a head left behind it breaks the chain. */
  lemma BehindBreaks(key: Key, s: Store, pending: seq<Reading>, b: Id)
    requires IsChain(key, RowsOf(s.table, b)) && HeadIn(s.heads, b).lastNum != HeadOf(RowsOf(s.table, b)).lastNum
    requires CountOf(SignBatch(key, s.heads, s.table, pending).rows, b) > 0
    ensures !IsChain(key, RowsOf(InsertAll(s.table, SignBatch(key, s.heads, s.table, pending).rows), b))
  {
    FirstAdded(key, s, pending, b);
    HeadNumber(key, RowsOf(s.table, b));
    hide SignBatch, InsertAll, CountOf, IsChain, HeadOf;
    var rows := RowsOf(InsertAll(s.table, SignBatch(key, s.heads, s.table, pending).rows), b);
    if IsChain(key, rows) { NumberedFromZero(key, rows, |RowsOf(s.table, b)|); }
  }

  /** A fork puts two rows of one number into the table. */
  lemma ForkRepeatsNumber(c: Config, s: Store, pending: seq<Reading>, w: Weather, b: Id) returns (i: nat, j: nat)
    requires LinkedAt(c.key, s.table, s.heads, b) && Forks(c, s, pending, w, b)
    ensures var rows := RowsOf(Written(c, s, pending, w).0.table, b);
            i < j < |rows| && rows[i].num == rows[j].num
  {
    var old_ := RowsOf(s.table, b);
    i := LinkedHead(c.key, s.table, s.heads, b);
    j := |old_|;
    WrittenMeans(c, s, pending, w, b);
    FirstAdded(c.key, s, pending, b);
    NumberedFromZero(c.key, old_, i);
    hide Written, SignBatch, InsertAll, CountOf;
    assert RowsOf(Written(c, s, pending, w).0.table, b)[i] == old_[i];
  }

  lemma BrokenStays(key: Key, rows: seq<Row>, more: seq<Row>)
    requires rows <= more && !IsChain(key, rows)
    ensures !IsChain(key, more)
  {
    assert more[..|rows|] == rows;
    if IsChain(key, more) { PrefixIsChain(key, more, |rows|); }
  }

  lemma LinkedOn(key: Key, table: Table, heads: Heads, table': Table, heads': Heads, b: Id)
    requires LinkedAt(key, table, heads, b) && HeadIn(heads', b) == HeadIn(heads, b)
    requires RowsOf(table, b) <= RowsOf(table', b)
    requires IsChain(key, RowsOf(table', b)) && Ascending(RowsOf(table', b)) && AllOf(RowsOf(table', b), b)
    ensures LinkedAt(key, table', heads', b)
  {
    var k := LinkedHead(key, table, heads, b);
    assert RowsOf(table', b)[..k] == RowsOf(table, b)[..k];
  }

  /** A write that stores rows of the building after the head of its table. */
  lemma LevelWrite(c: Config, s: Store, pending: seq<Reading>, w: Weather, b: Id)
    requires LinkedAt(c.key, s.table, s.heads, b) && HeadIn(s.heads, b) == HeadOf(RowsOf(s.table, b))
    requires Stores(c, s, pending, w)
    ensures var s' := Written(c, s, pending, w).0;
            LinkedAt(c.key, s'.table, s'.heads, b) && HeadIn(s'.heads, b).lastNum >= HeadIn(s.heads, b).lastNum
  {
    var s' := Written(c, s, pending, w).0;
    var batch := SignBatch(c.key, s.heads, s.table, pending);
    assert HealthyAt(c.key, s.table, s.heads, b);
    SignBatchAgreesAt(c.key, s, pending, b);
    WrittenMeans(c, s, pending, w, b);
    HeadNumber(c.key, RowsOf(s.table, b));
    HeadNumber(c.key, RowsOf(s'.table, b));
    hide Written, SignBatch, InsertAll, Stores, LinkedAt;
    if w == Fine {
      assert HealthyAt(c.key, s'.table, s'.heads, b);
      HealthyIsLinked(c.key, s'.table, s'.heads, b);
    } else {
      LinkedOn(c.key, s.table, s.heads, s'.table, s'.heads, b);
    }
  }

  /** One write: the building's table stays a chain exactly when the write does not fork it,
      and then memory is still somewhere on that chain. */
  lemma WriteLinks(c: Config, s: Store, pending: seq<Reading>, w: Weather, b: Id)
    requires LinkedAt(c.key, s.table, s.heads, b)
    ensures var s' := Written(c, s, pending, w).0;
            && (IsChain(c.key, RowsOf(s'.table, b)) <==> !Forks(c, s, pending, w, b))
            && (!Forks(c, s, pending, w, b) ==>
                  && LinkedAt(c.key, s'.table, s'.heads, b)
                  && HeadIn(s'.heads, b).lastNum >= HeadIn(s.heads, b).lastNum)
  {
    var batch := SignBatch(c.key, s.heads, s.table, pending);
    var s' := Written(c, s, pending, w).0;
    WrittenMeans(c, s, pending, w, b);
    var k := LinkedHead(c.key, s.table, s.heads, b);
    if CountOf(batch.rows, b) == 0 { UntouchedBuilding(c.key, s, pending, b); }
    hide Written, SignBatch, InsertAll, CountOf, IsChain, Stores, HeadOf;
    if !Stores(c, s, pending, w) || CountOf(batch.rows, b) == 0 {
      LinkedOn(c.key, s.table, s.heads, s'.table, s'.heads, b);
    } else if k < |RowsOf(s.table, b)| {
      BehindBreaks(c.key, s, pending, b);
    } else {
      LevelWrite(c, s, pending, w, b);
    }
  }

  /** A write that goes well keeps memory at the end of the chain. */
  lemma FineWrite(c: Config, s: Store, pending: seq<Reading>, b: Id)
    requires HealthyAt(c.key, s.table, s.heads, b)
    ensures var s' := Written(c, s, pending, Fine).0;
            HealthyAt(c.key, s'.table, s'.heads, b) && !Forks(c, s, pending, Fine, b)
  {
    SignBatchAgreesAt(c.key, s, pending, b);
    WrittenMeans(c, s, pending, Fine, b);
    hide Written, SignBatch, InsertAll, Stores, IsChain;
  }

  lemma WriteGrows(c: Config, s: Store, pending: seq<Reading>, w: Weather, b: Id)
    ensures RowsOf(s.table, b) <= RowsOf(Written(c, s, pending, w).0.table, b)
  {
    WrittenMeans(c, s, pending, w, b);
    InsertAllGrows(s.table, SignBatch(c.key, s.heads, s.table, pending).rows, b);
  }

  // ------------------------------------------------ the queue and the flush

  datatype Counts = Counts(written: nat, duplicates: nat, rejected: nat, overflowed: nat, malformed: nat)

  datatype State = State(store: Store, queue: seq<Reading>, counts: Counts)

  /** How one flush fares: the first write, the lookup of the known buildings, the second
      write. */
  datatype Fate = Fate(first: Weather, lookupFails: bool, second: Weather)

  /** A message from the broker: it does not parse, or a field is missing or not of its type,
      or it carries a reading. */
  datatype Message = Garbled | BadField | Good(reading: Reading)

  predicate Full(s: State) { |s.queue| == MAX_QUEUED_READINGS }

  /** At a full queue the loss is counted once the message parses, before its fields are
      read; the oldest reading is discarded when there is a reading to take its place. */
  function Receive(s: State, m: Message): State {
    if m.Garbled? then s.(counts := s.counts.(malformed := s.counts.malformed + 1))
    else
      var counted := if Full(s) then s.counts.(overflowed := s.counts.overflowed + 1) else s.counts;
      if m.BadField? then s.(counts := counted.(malformed := counted.malformed + 1))
      else s.(queue := (if Full(s) then s.queue[1..] else s.queue) + [m.reading], counts := counted)
  }

  function ReceiveAll(s: State, arrivals: seq<Message>): State {
    if arrivals == [] then s else Receive(ReceiveAll(s, arrivals[..|arrivals| - 1]), arrivals[|arrivals| - 1])
  }

  /** The readings the messages carry. */
  function Carried(arrivals: seq<Message>): seq<Reading> {
    if arrivals == [] then []
    else
      var last := arrivals[|arrivals| - 1];
      Carried(arrivals[..|arrivals| - 1]) + if last.Good? then [last.reading] else []
  }

  /** Messages that were counted as a loss although nothing was discarded. */
  function Miscounted(s: State, arrivals: seq<Message>): nat {
    if arrivals == [] then 0
    else
      var n := |arrivals| - 1;
      Miscounted(s, arrivals[..n]) + if arrivals[n].BadField? && Full(ReceiveAll(s, arrivals[..n])) then 1 else 0
  }

  function Min(a: nat, b: nat): nat { if a <= b then a else b }

  /** Extending a bounded queue on the left discards from the right. */
  function PutBack(pending: seq<Reading>, queue: seq<Reading>): seq<Reading> {
    (pending + queue)[..Min(MAX_QUEUED_READINGS, |pending| + |queue|)]
  }

  function Usable(pending: seq<Reading>, known: set<Id>): seq<Reading> {
    if pending == [] then []
    else
      var n := |pending| - 1;
      Usable(pending[..n], known) + if pending[n].building in known then [pending[n]] else []
  }

  /** The readings a refused batch is retried with. */
  function Retried(c: Config, pending: seq<Reading>, fate: Fate): seq<Reading> {
    Usable(pending, if fate.lookupFails then {} else c.known)
  }

  /** `_write_without_unknown` and what `flush` does with its result. */
  function Isolated(c: Config, s: State, pending: seq<Reading>, fate: Fate): (r: (State, bool)) {
    var usable := Retried(c, pending, fate);
    var refused := if |pending| >= |usable| then |pending| - |usable| else 0;
    var s1 := s.(counts := s.counts.(rejected := s.counts.rejected + refused));
    if usable == [] then (s1, false)
    else
      var (store', out) := Written(c, s1.store, usable, fate.second);
      match out
      case Committed(w, d) =>
        if w == 0 then (s1.(store := store'), false)
        else
          var counts := s1.counts.(written := s1.counts.written + w, duplicates := s1.counts.duplicates + d);
          (s1.(store := store', counts := counts), false)
      case Refused =>
        (s1.(store := store', counts := s1.counts.(rejected := s1.counts.rejected + |usable|)), false)
      case Raised => (s1.(store := store'), true)
  }

  function Taken(c: Config, s: State): seq<Reading> { s.queue[..Min(c.batchRows, |s.queue|)] }

  function Left(c: Config, s: State): seq<Reading> { s.queue[Min(c.batchRows, |s.queue|)..] }

  /** The queue once the batch is taken and the readings that arrive meanwhile are in. */
  function Meanwhile(c: Config, s: State, arrivals: seq<Message>): State {
    ReceiveAll(s.(queue := Left(c, s)), arrivals)
  }

  /** State after a flush, and whether an exception left it. */
  function Flushed(c: Config, s: State, arrivals: seq<Message>, fate: Fate): (State, bool) {
    if s.queue == [] then (s, false)
    else
      var pending := Taken(c, s);
      var s1 := Meanwhile(c, s, arrivals);
      var (store', out) := Written(c, s.store, pending, fate.first);
      match out
      case Committed(w, d) =>
        (s1.(store := store',
             counts := s1.counts.(written := s1.counts.written + w, duplicates := s1.counts.duplicates + d)), false)
      case Raised => (s1.(store := store', queue := PutBack(pending, s1.queue)), true)
      case Refused => Isolated(c, s1.(store := store'), pending, fate)
  }

  // ------------------------------------------------ where every reading goes

  /** Readings that are waiting or have been counted. */
  function Balance(s: State): nat {
    |s.queue| + s.counts.written + s.counts.duplicates + s.counts.rejected + s.counts.overflowed
  }

  lemma {:induction false} ReceiveAllBalance(s: State, arrivals: seq<Message>)
    requires |s.queue| <= MAX_QUEUED_READINGS
    ensures var s' := ReceiveAll(s, arrivals);
            && Balance(s') == Balance(s) + |Carried(arrivals)| + Miscounted(s, arrivals)
            && s'.store == s.store
            && |s'.queue| == Min(MAX_QUEUED_READINGS, |s.queue| + |Carried(arrivals)|)
            && s'.counts == s.counts.(overflowed := s'.counts.overflowed, malformed := s'.counts.malformed)
    ensures |s.queue| + |Carried(arrivals)| <= MAX_QUEUED_READINGS ==>
              ReceiveAll(s, arrivals).queue == s.queue + Carried(arrivals)
  {
    if arrivals == [] {
      assert s.queue + [] == s.queue;
    } else {
      var n := |arrivals| - 1;
      ReceiveAllBalance(s, arrivals[..n]);
      var before := ReceiveAll(s, arrivals[..n]);
      assert ReceiveAll(s, arrivals) == Receive(before, arrivals[n]);
      hide ReceiveAll;
      assert s.queue + Carried(arrivals[..n]) + [] == s.queue + Carried(arrivals[..n]);
      if arrivals[n].Good? {
        assert s.queue + Carried(arrivals) == s.queue + Carried(arrivals[..n]) + [arrivals[n].reading];
      }
    }
  }

  /** No message with a bad field came while the queue was full. */
  predicate FieldsGoodWhenFull(s: State, arrivals: seq<Message>) {
    forall i :: 0 <= i < |arrivals| && arrivals[i].BadField? ==> !Full(ReceiveAll(s, arrivals[..i]))
  }

  lemma {:induction false} NoneMiscountedIff(s: State, arrivals: seq<Message>)
    ensures Miscounted(s, arrivals) == 0 <==> FieldsGoodWhenFull(s, arrivals)
  {
    if arrivals != [] {
      var n := |arrivals| - 1;
      hide Receive, ReceiveAll;
      NoneMiscountedIff(s, arrivals[..n]);
      assert forall i :: 0 <= i < n ==> arrivals[..n][..i] == arrivals[..i];
    }
  }

  /** The counter of discarded readings is exact - it rises by what came in less what the
      queue gained - exactly when no message with a bad field meets a full queue. */
  lemma OverflowExactIff(s: State, arrivals: seq<Message>)
    requires |s.queue| <= MAX_QUEUED_READINGS
    ensures var s' := ReceiveAll(s, arrivals);
            FieldsGoodWhenFull(s, arrivals) <==>
              s'.counts.overflowed - s.counts.overflowed == |Carried(arrivals)| - (|s'.queue| - |s.queue|)
  {
    ReceiveAllBalance(s, arrivals);
    NoneMiscountedIff(s, arrivals);
  }

  lemma {:induction false} UsableLength(pending: seq<Reading>, known: set<Id>)
    ensures |Usable(pending, known)| <= |pending|
    ensures forall i :: 0 <= i < |Usable(pending, known)| ==> Usable(pending, known)[i].building in known
  {
    if pending != [] { UsableLength(pending[..|pending| - 1], known); }
  }

  lemma {:induction false} SignedCounts(key: Key, heads: Heads, table: Table, pending: seq<Reading>)
    ensures var b := SignBatch(key, heads, table, pending); |b.rows| + b.duplicates == |pending|
  {
    if pending != [] { SignedCounts(key, heads, table, pending[..|pending| - 1]); }
  }

  lemma CommittedCounts(c: Config, s: Store, pending: seq<Reading>, w: Weather)
    ensures var out := Written(c, s, pending, w).1; out.Committed? ==> out.written + out.duplicates == |pending|
  {
    SignedCounts(c.key, s.heads, s.table, pending);
  }

  /** Readings of a retried batch that end up neither counted nor back in the queue. */
  function Mislaid(c: Config, store: Store, usable: seq<Reading>, w: Weather): nat {
    if usable == [] then 0
    else
      match Written(c, store, usable, w).1
      case Committed(n, d) => if n == 0 then |usable| else 0
      case Refused => 0
      case Raised => |usable|
  }

  /** Readings that a flush leaves neither waiting nor counted: those pushed out of a full
      queue by the batch put back, a retried batch whose second write raises, and the
      duplicates of a retried batch that wrote nothing. */
  function Unaccounted(c: Config, s: State, arrivals: seq<Message>, fate: Fate): nat {
    var pending := Taken(c, s);
    var waiting := |Meanwhile(c, s, arrivals).queue|;
    var (store', out) := Written(c, s.store, pending, fate.first);
    match out
    case Committed(_, _) => 0
    case Raised =>
      if waiting + |pending| > MAX_QUEUED_READINGS then waiting + |pending| - MAX_QUEUED_READINGS else 0
    case Refused =>
      Mislaid(c, store', Retried(c, pending, fate), fate.second)
  }

  lemma IsolatedBalance(c: Config, s: State, pending: seq<Reading>, fate: Fate)
    ensures var s' := Isolated(c, s, pending, fate).0;
            var usable := Retried(c, pending, fate);
            Balance(s') + Mislaid(c, s.store, usable, fate.second) == Balance(s) + |pending| && s'.queue == s.queue
  {
    var usable := Retried(c, pending, fate);
    UsableLength(pending, if fate.lookupFails then {} else c.known);
    CommittedCounts(c, s.store, usable, fate.second);
    hide Written, Usable;
  }

  /** Conservation: what a flush takes from the queue is written, counted as a duplicate or
      rejected, or is back in the queue - except for the unaccounted readings. */
  lemma FlushConserves(c: Config, s: State, arrivals: seq<Message>, fate: Fate)
    requires s.queue != [] && |s.queue| <= MAX_QUEUED_READINGS
    ensures var s' := Flushed(c, s, arrivals, fate).0;
            && Balance(s') + Unaccounted(c, s, arrivals, fate)
                 == Balance(s) + |Carried(arrivals)| + Miscounted(s.(queue := Left(c, s)), arrivals)
            && |s'.queue| <= MAX_QUEUED_READINGS
  {
    var pending := Taken(c, s);
    MeanwhileBalance(c, s, arrivals);
    var s1 := Meanwhile(c, s, arrivals);
    CommittedCounts(c, s.store, pending, fate.first);
    var (store', out) := Written(c, s.store, pending, fate.first);
    PutBackLength(pending, s1.queue);
    IsolatedBalance(c, s1.(store := store'), pending, fate);
    hide Written, Meanwhile, Taken, Left, PutBack, Carried, Miscounted, Mislaid, Isolated, Retried;
  }

  lemma MeanwhileBalance(c: Config, s: State, arrivals: seq<Message>)
    requires |s.queue| <= MAX_QUEUED_READINGS
    ensures var s1 := Meanwhile(c, s, arrivals);
            && Balance(s1) + |Taken(c, s)|
                 == Balance(s) + |Carried(arrivals)| + Miscounted(s.(queue := Left(c, s)), arrivals)
            && |s1.queue| <= MAX_QUEUED_READINGS && s1.store == s.store
  {
    ReceiveAllBalance(s.(queue := Left(c, s)), arrivals);
    hide ReceiveAll, Carried, Miscounted;
  }

  lemma PutBackLength(pending: seq<Reading>, queue: seq<Reading>)
    ensures |PutBack(pending, queue)| == Min(MAX_QUEUED_READINGS, |pending| + |queue|)
  {}

  /** Nothing goes missing exactly when there is room to put a failed batch back and, on
      the path that isolates unknown buildings, the second write neither raises nor finds
      only duplicates. */
  lemma NothingMissingIff(c: Config, s: State, arrivals: seq<Message>, fate: Fate)
    requires s.queue != [] && |s.queue| <= MAX_QUEUED_READINGS
    ensures var pending := Taken(c, s);
            var (store', out) := Written(c, s.store, pending, fate.first);
            var usable := Retried(c, pending, fate);
            Balance(Flushed(c, s, arrivals, fate).0)
              == Balance(s) + |Carried(arrivals)| + Miscounted(s.(queue := Left(c, s)), arrivals) <==>
              && (out.Raised? ==> |Meanwhile(c, s, arrivals).queue| + |pending| <= MAX_QUEUED_READINGS)
              && (out.Refused? && usable != [] ==>
                    var second := Written(c, store', usable, fate.second).1;
                    !second.Raised? && !(second.Committed? && second.written == 0))
  {
    FlushConserves(c, s, arrivals, fate);
  }

  /** A write that fails with room in the queue costs nothing but time: the queue is what
      it was, in order, with the arrivals behind, and no head has moved. */
  lemma FailedFlushOnlyWaits(c: Config, s: State, arrivals: seq<Message>, fate: Fate, b: Id)
    requires s.queue != [] && |s.queue| + |Carried(arrivals)| <= MAX_QUEUED_READINGS && fate.first == FailsBefore
    ensures var (s', raised) := Flushed(c, s, arrivals, fate);
            && raised && s'.queue == s.queue + Carried(arrivals)
            && s'.counts == ReceiveAll(s.(queue := Left(c, s)), arrivals).counts
            && s'.store.table == s.store.table && HeadIn(s'.store.heads, b) == HeadIn(s.store.heads, b)
  {
    ReceiveAllBalance(s.(queue := Left(c, s)), arrivals);
    assert s.queue == Taken(c, s) + Left(c, s);
    assert Taken(c, s) + (Left(c, s) + Carried(arrivals)) == s.queue + Carried(arrivals);
  }

  lemma {:induction false} SignedBuildings(c: Config, heads: Heads, table: Table, pending: seq<Reading>)
    requires forall i :: 0 <= i < |pending| ==> pending[i].building in c.known
    ensures Acceptable(c, SignBatch(c.key, heads, table, pending).rows)
  {
    if pending != [] {
      var n := |pending| - 1;
      assert pending[n].building in c.known;
      SignedBuildings(c, heads, table, pending[..n]);
      var before := SignBatch(c.key, heads, table, pending[..n]);
      var head := HeadIn(heads + before.heads, pending[n].building);
      RowBuilding(c.key, head, pending[n]);
      assert SignBatch(c.key, heads, table, pending).rows
          == before.rows + if Duplicate(head, table, pending[n]) then [] else [NextRow(c.key, head, pending[n])];
    }
  }

  /** Readings for unknown buildings do not block the others: when the database answers,
      the batch is gone from the queue, exactly the unknown readings are rejected, and
      every known one is written or is a duplicate. */
  lemma UnknownBuildingsDoNotBlock(c: Config, s: State, arrivals: seq<Message>, fate: Fate)
    requires s.queue != [] && |s.queue| <= MAX_QUEUED_READINGS && fate == Fate(Fine, false, Fine)
    requires Written(c, s.store, Taken(c, s), Fine).1.Refused?
    ensures var (s', raised) := Flushed(c, s, arrivals, fate);
            var s1 := Meanwhile(c, s, arrivals);
            var usable := Usable(Taken(c, s), c.known);
            && !raised && s'.queue == s1.queue
            && s'.counts.rejected == s1.counts.rejected + |Taken(c, s)| - |usable|
            && (usable != [] ==> Written(c, s.store, usable, Fine).1.Committed?)
  {
    var pending := Taken(c, s);
    var usable := Usable(pending, c.known);
    UsableLength(pending, c.known);
    KnownIsCommitted(c, s.store, usable);
    KnownIsCommitted(c, Written(c, s.store, pending, Fine).0, usable);
    hide Written;
  }

  lemma KnownIsCommitted(c: Config, s: Store, usable: seq<Reading>)
    requires forall i :: 0 <= i < |usable| ==> usable[i].building in c.known
    ensures Written(c, s, usable, Fine).1.Committed?
  {
    SignedBuildings(c, s.heads, s.table, usable);
  }

  /** Every flush that is not told a lie about a commit keeps the store healthy. */
  lemma FlushKeepsHealthy(c: Config, s: State, arrivals: seq<Message>, fate: Fate)
    requires Healthy(c.key, s.store.table, s.store.heads) && |s.queue| <= MAX_QUEUED_READINGS
    requires fate.first != FailsAfterCommit && fate.second != FailsAfterCommit
    ensures var s' := Flushed(c, s, arrivals, fate).0;
            Healthy(c.key, s'.store.table, s'.store.heads) && Grows(s.store.table, s'.store.table)
  {
    hide Written, Usable, HealthyAt;
    var pending := Taken(c, s);
    ReceiveAllBalance(s.(queue := Left(c, s)), arrivals);
    WriteKeepsHealthy(c, s.store, pending, fate.first);
    var store' := Written(c, s.store, pending, fate.first).0;
    var usable := Retried(c, pending, fate);
    WriteKeepsHealthy(c, store', usable, fate.second);
    GrowsTransitive(s.store.table, store'.table, Written(c, store', usable, fate.second).0.table);
    forall b ensures RowsOf(s.store.table, b) <= RowsOf(s.store.table, b) {}
  }

  lemma WriteKeepsHealthy(c: Config, s: Store, pending: seq<Reading>, w: Weather)
    requires Healthy(c.key, s.table, s.heads) && w != FailsAfterCommit
    ensures var s' := Written(c, s, pending, w).0;
            Healthy(c.key, s'.table, s'.heads) && Grows(s.table, s'.table)
  {
    var (s', out) := Written(c, s, pending, w);
    if out.Committed? {
      CommittedWrite(c, s, pending, w);
    } else {
      forall b ensures HeadIn(s'.heads, b) == HeadIn(s.heads, b) { FailedWriteLeavesNoTrace(c, s, pending, w, b); }
      SameHeadsStayHealthy(c.key, s.table, s.heads, s'.heads);
      forall b ensures RowsOf(s.table, b) <= RowsOf(s.table, b) {}
    }
  }

  // ------------------------------------------------ whole runs

  /** A message arrives, a flush is made while others do, or the process is started anew. */
  datatype Event = Arrives(m: Message) | Flushes(arrivals: seq<Message>, fate: Fate) | Restarts

  /** The process as it starts: heads from the table, nothing waiting, nothing counted. */
  function Started(table: Table): State {
    State(Store(table, LoadHeads(table)), [], Counts(0, 0, 0, 0, 0))
  }

  function Next(c: Config, s: State, e: Event): State {
    match e
    case Arrives(m) => Receive(s, m)
    case Flushes(arrivals, fate) => Flushed(c, s, arrivals, fate).0
    case Restarts => Started(s.store.table)
  }

  function Run(c: Config, s: State, events: seq<Event>): State {
    if events == [] then s else Next(c, Run(c, s, events[..|events| - 1]), events[|events| - 1])
  }

  /** Readings that came in, messages wrongly counted as a loss, readings unaccounted for, and
      what was waiting or counted when the process was started anew. */
  datatype Ledger = Ledger(received: nat, miscounted: nat, unaccounted: nat, forgotten: nat)

  /** A flush of an empty queue is over before anything can arrive. */
  function LedgerOf(c: Config, s: State, e: Event): Ledger {
    match e
    case Arrives(m) => Ledger(|Carried([m])|, Miscounted(s, [m]), 0, 0)
    case Flushes(arrivals, fate) =>
      if s.queue == [] then Ledger(0, 0, 0, 0)
      else
        Ledger(|Carried(arrivals)|, Miscounted(s.(queue := Left(c, s)), arrivals), Unaccounted(c, s, arrivals, fate), 0)
    case Restarts => Ledger(0, 0, 0, Balance(s))
  }

  function Totals(c: Config, s: State, events: seq<Event>): Ledger {
    if events == [] then Ledger(0, 0, 0, 0)
    else
      var n := |events| - 1;
      var before, last := Totals(c, s, events[..n]), LedgerOf(c, Run(c, s, events[..n]), events[n]);
      Ledger(before.received + last.received, before.miscounted + last.miscounted,
             before.unaccounted + last.unaccounted, before.forgotten + last.forgotten)
  }

  lemma NextConserves(c: Config, s: State, e: Event)
    requires |s.queue| <= MAX_QUEUED_READINGS
    ensures var (s', l) := (Next(c, s, e), LedgerOf(c, s, e));
            && Balance(s') + l.unaccounted + l.forgotten == Balance(s) + l.received + l.miscounted
            && |s'.queue| <= MAX_QUEUED_READINGS
  {
    match e
    case Arrives(m) =>
      ReceiveAllBalance(s, [m]);
      assert [m][..0] == [] && ReceiveAll(s, []) == s;
      assert ReceiveAll(s, [m]) == Receive(ReceiveAll(s, [m][..0]), m);
    case Flushes(arrivals, fate) =>
      if s.queue != [] { FlushConserves(c, s, arrivals, fate); }
    case Restarts =>
  }

  /** Over any run of messages, flushes and restarts, every reading that came in is waiting or
      counted once, but for the wrong counts, for what the flushes left unaccounted and for what
      the restarts forgot. */
  lemma {:induction false} RunConserves(c: Config, s: State, events: seq<Event>)
    requires |s.queue| <= MAX_QUEUED_READINGS
    ensures var (s', l) := (Run(c, s, events), Totals(c, s, events));
            && Balance(s') + l.unaccounted + l.forgotten == Balance(s) + l.received + l.miscounted
            && |s'.queue| <= MAX_QUEUED_READINGS
  {
    if events != [] {
      var n := |events| - 1;
      hide Next, LedgerOf, Balance;
      RunConserves(c, s, events[..n]);
      NextConserves(c, Run(c, s, events[..n]), events[n]);
    }
  }

  predicate Truthful(e: Event) { e.Flushes? ==> e.fate.first != FailsAfterCommit && e.fate.second != FailsAfterCommit }

  /** Over any run without a lost confirmation every chain stays intact and in step with the
      memory, and no stored row is ever removed or changed. */
  lemma {:induction false} RunKeepsHealthy(c: Config, s: State, events: seq<Event>)
    requires Healthy(c.key, s.store.table, s.store.heads) && |s.queue| <= MAX_QUEUED_READINGS
    requires forall i :: 0 <= i < |events| ==> Truthful(events[i])
    ensures var s' := Run(c, s, events);
            Healthy(c.key, s'.store.table, s'.store.heads) && Grows(s.store.table, s'.store.table)
  {
    hide Healthy, Balance, Flushed, Totals, Next;
    if events == [] {
      forall b ensures RowsOf(s.store.table, b) <= RowsOf(s.store.table, b) {}
    } else {
      var n := |events| - 1;
      var before := Run(c, s, events[..n]);
      RunConserves(c, s, events[..n]);
      RunKeepsHealthy(c, s, events[..n]);
      NextKeepsHealthy(c, before, events[n]);
      GrowsTransitive(s.store.table, before.store.table, Next(c, before, events[n]).store.table);
    }
  }

  lemma NextKeepsHealthy(c: Config, s: State, e: Event)
    requires Healthy(c.key, s.store.table, s.store.heads) && |s.queue| <= MAX_QUEUED_READINGS && Truthful(e)
    ensures var s' := Next(c, s, e);
            Healthy(c.key, s'.store.table, s'.store.heads) && Grows(s.store.table, s'.store.table)
  {
    hide Healthy, Flushed;
    match e
    case Arrives(m) => forall b ensures RowsOf(s.store.table, b) <= RowsOf(s.store.table, b) {}
    case Flushes(arrivals, fate) => FlushKeepsHealthy(c, s, arrivals, fate);
    case Restarts =>
      ResumeIsHealthy(c.key, s.store.table, s.store.heads);
      forall b ensures RowsOf(s.store.table, b) <= RowsOf(s.store.table, b) {}
  }

  // ------------------------------------------------ lost confirmations included

  /** One of the writes of a flush forks the building's chain. */
  predicate EventForks(c: Config, s: State, e: Event, b: Id) {
    e.Flushes? && s.queue != [] &&
    var pending := Taken(c, s);
    var (store', out) := Written(c, s.store, pending, e.fate.first);
    || Forks(c, s.store, pending, e.fate.first, b)
    || (out.Refused? && Forks(c, store', Retried(c, pending, e.fate), e.fate.second, b))
  }

  predicate ForkedWithin(c: Config, s: State, events: seq<Event>, b: Id) {
    exists i :: 0 <= i < |events| && EventForks(c, Run(c, s, events[..i]), events[i], b)
  }

  /** The stores a flush goes through: after its first write, and after its second if there is
      one. */
  lemma FlushStores(c: Config, s: State, arrivals: seq<Message>, fate: Fate)
    requires s.queue != []
    ensures var pending := Taken(c, s);
            var (store', out) := Written(c, s.store, pending, fate.first);
            var usable := Retried(c, pending, fate);
            Flushed(c, s, arrivals, fate).0.store
              == if out.Refused? && usable != [] then Written(c, store', usable, fate.second).0 else store'
  {
    hide Written, Usable, ReceiveAll;
  }

  lemma RefusedDoesNotStore(c: Config, s: Store, pending: seq<Reading>, w: Weather)
    requires Written(c, s, pending, w).1.Refused?
    ensures !Stores(c, s, pending, w)
  {}

  lemma NothingDoesNotStore(c: Config, s: Store, w: Weather)
    ensures !Stores(c, s, [], w)
  {}

  /** One event: the building's table only grows, and stays a chain exactly when no write of
      the event forks it; a restart puts memory at its end. */
  lemma NextLinks(c: Config, s: State, e: Event, b: Id)
    requires LinkedAt(c.key, s.store.table, s.store.heads, b)
    ensures var s' := Next(c, s, e);
            && (IsChain(c.key, RowsOf(s'.store.table, b)) <==> !EventForks(c, s, e, b))
            && (!EventForks(c, s, e, b) ==> LinkedAt(c.key, s'.store.table, s'.store.heads, b))
            && (e.Restarts? ==> HealthyAt(c.key, s'.store.table, s'.store.heads, b))
  {
    hide LinkedAt, Written, Forks, Usable, Flushed, Stores, IsChain, HealthyAt;
    match e
    case Arrives(m) => ChainOfLinked(c.key, s.store, b);
    case Restarts => RestartLinks(c.key, s.store, b);
    case Flushes(arrivals, fate) =>
      if s.queue == [] {
        ChainOfLinked(c.key, s.store, b);
        assert Next(c, s, e) == s by { NothingToFlush(c, s, arrivals, fate); }
      } else {
        FlushLinks(c, s, arrivals, fate, b);
      }
  }

  lemma NothingToFlush(c: Config, s: State, arrivals: seq<Message>, fate: Fate)
    requires s.queue == []
    ensures Flushed(c, s, arrivals, fate).0 == s
  {}

  lemma ChainOfLinked(key: Key, s: Store, b: Id)
    requires LinkedAt(key, s.table, s.heads, b)
    ensures IsChain(key, RowsOf(s.table, b))
  {}

  lemma RestartLinks(key: Key, s: Store, b: Id)
    requires LinkedAt(key, s.table, s.heads, b)
    ensures HealthyAt(key, s.table, LoadHeads(s.table), b) && LinkedAt(key, s.table, LoadHeads(s.table), b)
    ensures IsChain(key, RowsOf(s.table, b))
    ensures HeadIn(LoadHeads(s.table), b).lastNum >= HeadIn(s.heads, b).lastNum
  {
    var k := LinkedHead(key, s.table, s.heads, b);
    LoadedAt(key, s.table, b);
    HealthyIsLinked(key, s.table, LoadHeads(s.table), b);
  }

  lemma FlushLinks(c: Config, s: State, arrivals: seq<Message>, fate: Fate, b: Id)
    requires LinkedAt(c.key, s.store.table, s.store.heads, b) && s.queue != []
    ensures var s' := Flushed(c, s, arrivals, fate).0;
            && (IsChain(c.key, RowsOf(s'.store.table, b)) <==> !EventForks(c, s, Flushes(arrivals, fate), b))
            && (!EventForks(c, s, Flushes(arrivals, fate), b) ==> LinkedAt(c.key, s'.store.table, s'.store.heads, b))
  {
    var pending := Taken(c, s);
    var (store', out) := Written(c, s.store, pending, fate.first);
    var usable := Retried(c, pending, fate);
    FlushStores(c, s, arrivals, fate);
    WriteLinks(c, s.store, pending, fate.first, b);
    if out.Refused? {
      RefusedDoesNotStore(c, s.store, pending, fate.first);
      if usable == [] { NothingDoesNotStore(c, store', fate.second); }
      assert !Forks(c, s.store, pending, fate.first, b);
      hide LinkedAt, Written, Usable, Flushed, Stores, IsChain;
      WriteLinks(c, store', usable, fate.second, b);
    }
  }

  lemma NextGrows(c: Config, s: State, e: Event, b: Id)
    ensures RowsOf(s.store.table, b) <= RowsOf(Next(c, s, e).store.table, b)
  {
    if e.Flushes? && s.queue != [] {
      var pending := Taken(c, s);
      FlushStores(c, s, e.arrivals, e.fate);
      WriteGrows(c, s.store, pending, e.fate.first, b);
      WriteGrows(c, Written(c, s.store, pending, e.fate.first).0, Retried(c, pending, e.fate), e.fate.second, b);
    }
    hide Written, Usable, ReceiveAll;
  }

  lemma ForkedAppend(c: Config, s: State, events: seq<Event>, b: Id)
    requires events != []
    ensures var n := |events| - 1;
            ForkedWithin(c, s, events, b) <==>
              ForkedWithin(c, s, events[..n], b) || EventForks(c, Run(c, s, events[..n]), events[n], b)
  {
    hide Run, EventForks;
    var n := |events| - 1;
    assert forall i :: 0 <= i < n ==> events[..n][i] == events[i] && events[..n][..i] == events[..i];
    if ForkedWithin(c, s, events[..n], b) {
      var i :| 0 <= i < n && EventForks(c, Run(c, s, events[..n][..i]), events[..n][i], b);
      assert EventForks(c, Run(c, s, events[..i]), events[i], b);
    }
  }

  /** Over any run, lost confirmations and restarts included: the table of a building is a
      chain at the end exactly when no write of the run stored a row of it signed after a head
      that was not the table's. */
  lemma {:induction false} ChainStaysIff(c: Config, s: State, events: seq<Event>, b: Id)
    requires LinkedAt(c.key, s.store.table, s.store.heads, b)
    ensures var s' := Run(c, s, events);
            && (IsChain(c.key, RowsOf(s'.store.table, b)) <==> !ForkedWithin(c, s, events, b))
            && (!ForkedWithin(c, s, events, b) ==> LinkedAt(c.key, s'.store.table, s'.store.heads, b))
  {
    hide LinkedAt, IsChain, Next, EventForks;
    if events == [] {
      ChainOfLinked(c.key, s.store, b);
    } else {
      var n := |events| - 1;
      var before := Run(c, s, events[..n]);
      ChainStaysIff(c, s, events[..n], b);
      ForkedAppend(c, s, events, b);
      hide ForkedWithin;
      if ForkedWithin(c, s, events[..n], b) {
        NextGrows(c, before, events[n], b);
        BrokenStays(c.key, RowsOf(before.store.table, b), RowsOf(Next(c, before, events[n]).store.table, b));
      } else {
        NextLinks(c, before, events[n], b);
      }
    }
  }

  // ------------------------------------------------ the object

  class Process {
    const config: Config
    var table: Table
    var heads: Heads
    var queue: seq<Reading>
    var written: nat
    var duplicates: nat
    var rejected: nat
    var overflowed: nat
    var malformed: nat

    ghost function Now(): State
      reads this
    {
      State(Store(table, heads), queue, Counts(written, duplicates, rejected, overflowed, malformed))
    }

    constructor (config: Config, table: Table)
      ensures this.config == config
      ensures Now() == Started(table)
    {
      this.config := config;
      this.table, heads, queue := table, LoadHeads(table), [];
      written, duplicates, rejected, overflowed, malformed := 0, 0, 0, 0, 0;
    }

    /** One message from the broker: parse, count a full queue, read the fields, append. */
    method OnMessage(m: Message)
      modifies this
      ensures Now() == Receive(old(Now()), m)
    {
      if m.Garbled? {
        malformed := malformed + 1;
        return;
      }
      if |queue| == MAX_QUEUED_READINGS { overflowed := overflowed + 1; }
      if m.BadField? {
        malformed := malformed + 1;
        return;
      }
      if |queue| == MAX_QUEUED_READINGS { queue := queue[1..]; }
      queue := queue + [m.reading];
    }

    /** Sign and store one batch. */
    method Write(pending: seq<Reading>, weather: Weather) returns (out: Outcome)
      modifies this`table, this`heads
      ensures (Store(table, heads), out) == Written(config, old(Now()).store, pending, weather)
    {
      if weather == FailsBefore { return Raised; }
      var rows: seq<Row> := [];
      var ahead: Heads := map[];
      var dropped: nat := 0;
      for i := 0 to |pending|
        invariant table == old(table) && heads == Touched(old(heads), pending[..i])
        invariant Batch(rows, ahead, dropped) == SignBatch(config.key, old(heads), old(table), pending[..i])
      {
        var r := pending[i];
        TouchedStep(old(heads), pending, i);
        SignBatchStep(config.key, old(heads), old(table), pending, i);
        if r.building !in heads { heads := heads[r.building := FRESH]; }
        var head := if r.building in ahead then ahead[r.building] else heads[r.building];
        if (head.lastTs.Some? && r.ts <= head.lastTs.value) || HasTs(RowsOf(table, r.building), r.ts) {
          dropped := dropped + 1;
        } else {
          var row := NextRow(config.key, head, r);
          rows := rows + [row];
          ahead := ahead[r.building := Head(row.num, row.sig, Some(row.ts))];
        }
      }
      assert pending[..|pending|] == pending;
      if rows == [] { return Committed(0, dropped); }
      if exists i :: 0 <= i < |rows| && rows[i].building !in config.known { return Refused; }
      table := InsertAll(table, rows);
      if weather == FailsAfterCommit { return Raised; }
      heads := heads + ahead;
      return Committed(|rows|, dropped);
    }

    /** Pop the oldest readings, up to the batch size. */
    method TakeBatch() returns (pending: seq<Reading>)
      modifies this`queue
      ensures pending == Taken(config, old(Now())) && queue == Left(config, old(Now()))
      ensures queue == old(queue)[|pending|..] && pending == old(queue)[..|pending|]
      ensures |pending| <= config.batchRows && (|pending| < config.batchRows ==> queue == [])
    {
      pending := [];
      while queue != [] && |pending| < config.batchRows
        invariant |pending| <= config.batchRows
        invariant pending + queue == old(queue)
        decreases |queue|
      {
        pending, queue := pending + [queue[0]], queue[1..];
      }
    }

    method OnMessages(arrivals: seq<Message>)
      modifies this
      ensures Now() == ReceiveAll(old(Now()), arrivals)
    {
      for i := 0 to |arrivals|
        invariant Now() == ReceiveAll(old(Now()), arrivals[..i])
      {
        assert arrivals[..i + 1][..i] == arrivals[..i];
        OnMessage(arrivals[i]);
      }
      assert arrivals[..|arrivals|] == arrivals;
    }

    /** Write one batch from the front of the queue; `arrivals` come in while it is away. */
    method Flush(arrivals: seq<Message>, fate: Fate) returns (raised: bool)
      modifies this
      ensures (Now(), raised) == Flushed(config, old(Now()), arrivals, fate)
    {
      hide Written, Isolated, Usable, PutBack, ReceiveAll, Taken, Left;
      if queue == [] { return false; }
      var pending := TakeBatch();
      ReceiveAllStore(Now(), arrivals);
      OnMessages(arrivals);
      var out := Write(pending, fate.first);
      match out
      case Committed(w, d) =>
        duplicates := duplicates + d;
        written := written + w;
        return false;
      case Raised =>
        queue := PutBack(pending, queue);
        return true;
      case Refused =>
        raised := WriteWithoutUnknown(pending, fate);
    }

    /** Retry a refused batch without the readings the portfolio cannot accept. */
    method WriteWithoutUnknown(pending: seq<Reading>, fate: Fate) returns (raised: bool)
      modifies this
      ensures (Now(), raised) == Isolated(config, old(Now()), pending, fate)
    {
      hide Written, Usable, SignBatch;
      var known := if fate.lookupFails then {} else config.known;
      var usable := Usable(pending, known);
      UsableLength(pending, known);
      rejected := rejected + |pending| - |usable|;
      if usable == [] { return false; }
      var out := Write(usable, fate.second);
      match out
      case Committed(w, d) =>
        if w != 0 {
          duplicates := duplicates + d;
          written := written + w;
        }
        return false;
      case Refused =>
        rejected := rejected + |usable|;
        return false;
      case Raised =>
        return true;
    }
  }

  lemma TouchedStep(heads: Heads, pending: seq<Reading>, i: nat)
    requires i < |pending|
    ensures var before := Touched(heads, pending[..i]);
            var b := pending[i].building;
            && Touched(heads, pending[..i + 1]) == (if b in before then before else before[b := FRESH])
            && forall more :: HeadIn(before + more, b) == HeadIn(heads + more, b)
  {
    assert pending[..i + 1][..i] == pending[..i];
    var b := pending[i].building;
    forall more: Heads ensures HeadIn(Touched(heads, pending[..i]) + more, b) == HeadIn(heads + more, b) {
      TouchedSameHeads(heads, pending[..i], more, b);
    }
  }

  lemma SignBatchStep(key: Key, heads: Heads, table: Table, pending: seq<Reading>, i: nat)
    requires i < |pending|
    ensures SignBatch(key, heads, table, pending[..i + 1])
         == SignOne(key, heads, table, SignBatch(key, heads, table, pending[..i]), pending[i])
  {
    assert pending[..i + 1][..i] == pending[..i];
  }

  lemma {:induction false} ReceiveAllStore(s: State, arrivals: seq<Message>)
    ensures ReceiveAll(s, arrivals).store == s.store
  {
    if arrivals != [] { ReceiveAllStore(s, arrivals[..|arrivals| - 1]); }
  }
}
