/**
 The index of active metadata keys: each request row keeps all of its metadata in `raw` and those of the
 active keys in `indexed`. The writer splits inline; activating a key later backfills old rows and
 deactivating it cleans them up, batch by batch.
 */
module MetadataIndex {
  import opened Wrappers

  type Metadata = map<string, string>

  datatype Row = Row(apiKey: Option<nat>, raw: Metadata, indexed: Option<Metadata>)

  type Rows = map<nat, Row>

  datatype Job = Backfill(name: string) | Cleanup(name: string)

  function IndexOf(row: Row): Metadata {
    if row.indexed.Some? then row.indexed.value else map[]
  }

  /** The `WHERE` clause of the batch statement. */
  predicate Needs(job: Job, key: nat, row: Row) {
    && row.apiKey == Some(key)
    && match job
       case Backfill(name) => name in row.raw && name !in IndexOf(row)
       case Cleanup(name) => name in IndexOf(row)
  }

  /** The `SET` clause. */
  function Changed(job: Job, row: Row): Row {
    match job
    case Backfill(name) => row.(indexed := Some(
      if name in row.raw then IndexOf(row)[name := row.raw[name]] else IndexOf(row)))
    case Cleanup(name) => row.(indexed := Some(IndexOf(row) - {name}))
  }

  function Needing(job: Job, key: nat, rows: Rows): set<nat> {
    set id <- rows.Keys | Needs(job, key, rows[id])
  }

  function ChangedAt(job: Job, rows: Rows, ids: set<nat>): Rows {
    map id <- rows.Keys :: if id in ids then Changed(job, rows[id]) else rows[id]
  }

  /** What a job is for: every row that needs the change has it. */
  function Swept(job: Job, key: nat, rows: Rows): Rows {
    ChangedAt(job, rows, Needing(job, key, rows))
  }

  // ---- The batch loop ---------------------------------------------------------------------------

  lemma ChangedRowsNeedNothing(job: Job, key: nat, rows: Rows, ids: set<nat>)
    requires ids <= Needing(job, key, rows)
    ensures Needing(job, key, ChangedAt(job, rows, ids)) == Needing(job, key, rows) - ids
  {
  }

  lemma ChangeInTwoBatches(job: Job, rows: Rows, a: set<nat>, b: set<nat>)
    requires a !! b
    ensures ChangedAt(job, ChangedAt(job, rows, a), b) == ChangedAt(job, rows, a + b)
  {
  }

  method PickSome(ids: set<nat>, n: nat) returns (picked: set<nat>)
    requires n <= |ids|
    ensures picked <= ids && |picked| == n
  {
    picked := {};
    var rest := ids;
    for i := 0 to n
      invariant picked <= ids && |picked| == i && rest == ids - picked && |rest| == |ids| - i
    {
      var id :| id in rest;
      picked, rest := picked + {id}, rest - {id};
    }
  }

  /** What one successful statement with this limit may make of a table, and how many rows it reports. */
  ghost predicate Statement(job: Job, key: nat, limit: nat, before: Rows, after: Rows, n: nat) {
    && n == Min(limit, |Needing(job, key, before)|)
    && exists ids :: ids <= Needing(job, key, before) && |ids| == n && after == ChangedAt(job, before, ids)
  }

  class Table {
    var rows: Rows
    ghost var errors: nat  // how many statements have reported an error

    constructor (rows: Rows)
      ensures this.rows == rows && errors == 0
    {
      this.rows, errors := rows, 0;
    }

    /**
     One statement: up to `limit` of the rows in need, in no particular order, are changed. A negative limit
     is an error, and a statement that reports an error may have been applied.
     */
    method UpdateBatch(job: Job, key: nat, limit: int) returns (r: Result<nat, Failed>, ghost ids: set<nat>)
      modifies this
      ensures ids <= Needing(job, key, old(rows)) && rows == ChangedAt(job, old(rows), ids)
      ensures limit < 0 ==> r.Err? && ids == {}
      ensures r.Ok? ==> r.value == |ids| == Min(limit, |Needing(job, key, old(rows))|)
      ensures r.Ok? ==> Statement(job, key, limit, old(rows), rows, r.value)
      ensures errors == old(errors) + ErrorsIn(r)
    {
      var out := AnyOutcome();
      if limit < 0 || !TookEffect(out) {
        assert ChangedAt(job, rows, {}) == rows;
        errors := errors + 1;
        return Err(Failed), {};
      }
      var picked := PickSome(Needing(job, key, rows), Min(limit, |Needing(job, key, rows)|));
      rows := ChangedAt(job, rows, picked);
      if !out.Success? {
        errors := errors + 1;
        return Err(Failed), picked;
      }
      return Ok(|picked|), picked;
    }

    /** One statement of a sweep that has already changed the rows `done` of the table `start`. */
    method NextBatch(job: Job, key: nat, limit: int, ghost start: Rows, ghost done: set<nat>)
      returns (r: Result<nat, Failed>, ghost all: set<nat>)
      requires done <= Needing(job, key, start) && rows == ChangedAt(job, start, done)
      modifies this
      ensures done <= all <= Needing(job, key, start) && rows == ChangedAt(job, start, all)
      ensures r.Ok? ==> limit >= 0 && |all| == |done| + r.value && r.value <= limit
      ensures r.Ok? && r.value < limit ==> all == Needing(job, key, start)
      ensures r.Ok? && r.value > 0 ==> |Needing(job, key, start) - all| < |Needing(job, key, start) - done|
      ensures limit < 0 ==> all == done && r.Err?
      ensures errors == old(errors) + ErrorsIn(r)
    {
      ChangedRowsNeedNothing(job, key, start, done);
      ghost var ids;
      r, ids := UpdateBatch(job, key, limit);
      ChangeInTwoBatches(job, start, done, ids);
      BatchSizes(Needing(job, key, start), done, ids);
      all := done + ids;
    }

    /**
     `BackfillIndexedMetadata` and `CleanupIndexedMetadata`, which are this same loop over two statements.
     If no statement fails, every row in need is changed and counted, once, in `total / batchSize + 1`
     statements; on an error the rows of the finished batches, and perhaps of the failed one, are changed and nothing
     else is. A batch size of zero is excluded: the loop would not end.
     */
    method Sweep(job: Job, key: nat, batchSize: int)
      returns (total: nat, ok: bool, ghost done: set<nat>, ghost statements: nat)
      requires batchSize != 0
      modifies this
      ensures done <= Needing(job, key, old(rows)) && rows == ChangedAt(job, old(rows), done) && statements > 0
      ensures ok <==> errors == old(errors)
      ensures ok ==> done == Needing(job, key, old(rows)) && total == |done|
      ensures ok ==> batchSize > 0 && statements == total / batchSize + 1
      ensures !ok ==> total <= |done| && (batchSize > 0 ==> total == Multiple(statements - 1, batchSize))
      ensures batchSize < 0 ==> !ok && total == 0 && done == {}
    {
      total, ok, done, statements := 0, true, {}, 0;
      ghost var start := rows;
      assert ChangedAt(job, start, {}) == start;
      var more := true;
      while more
        invariant done <= Needing(job, key, start) && rows == ChangedAt(job, start, done)
        invariant (ok <==> errors == old(errors)) && (more ==> ok)
        invariant if ok then total == |done| else total <= |done|
        invariant Counted(batchSize, total, statements, ok, more)
        invariant !more && ok ==> done == Needing(job, key, start)
        invariant batchSize < 0 ==> done == {}
        decreases more, |Needing(job, key, start) - done|
      {
        var r;
        ghost var finished := done;
        r, done := NextBatch(job, key, batchSize, start, done);
        SubsetIsNoLarger(finished, done);
        statements := statements + 1;
        if r.Err? {
          ok, more := false, false;
        } else {
          total := total + r.value;
          more := r.value >= batchSize;
        }
      }
      if ok {
        CountStatements(total, batchSize, statements);
      }
    }
  }

  /** How `total` and the number of statements go together, in the loop and behind it. */
  ghost predicate Counted(batchSize: int, total: nat, statements: nat, ok: bool, more: bool) {
    if more then batchSize > 0 ==> total == Multiple(statements, batchSize)
    else
      && statements > 0 && (ok ==> batchSize > 0)
      && (batchSize > 0 ==> Multiple(statements - 1, batchSize) <= total)
      && (ok ==> total < Multiple(statements - 1, batchSize) + batchSize)
      && (!ok && batchSize > 0 ==> total == Multiple(statements - 1, batchSize))
  }

  lemma CountStatements(total: nat, b: nat, statements: nat)
    requires b > 0 && statements > 0
    requires Multiple(statements - 1, b) <= total < Multiple(statements - 1, b) + b
    ensures statements == total / b + 1
  {
    MultipleIsProduct(statements - 1, b);
    QuotientIs(total, b, statements - 1);
  }

  lemma BatchSizes(need: set<nat>, done: set<nat>, ids: set<nat>)
    requires done <= need && ids <= need - done
    ensures |done + ids| == |done| + |ids| && |need - done - ids| == |need - done| - |ids|
    ensures |ids| == |need - done| ==> done + ids == need
    ensures ids != {} ==> |need - (done + ids)| < |need - done|
    ensures |need| == |done| + |need - done|
  {
    assert done + (need - done) == need;
    assert ids + (need - done - ids) == need - done;
    assert need - (done + ids) == need - done - ids;
    if |ids| == |need - done| {
      SubsetOfSameSize(ids, need - done);
    }
  }

  /** Successive statements: `tables[i]` becomes `tables[i + 1]`, reporting `ns[i]` rows. */
  ghost predicate Statements(job: Job, key: nat, limit: nat, tables: seq<Rows>, ns: seq<nat>) {
    && |tables| == |ns| + 1
    && forall i, j :: 0 <= i < |ns| && j == i + 1 ==> Statement(job, key, limit, tables[i], tables[j], ns[i])
  }

  lemma StatementLeaves(job: Job, key: nat, limit: nat, before: Rows, after: Rows, n: nat)
    requires Statement(job, key, limit, before, after, n)
    ensures |Needing(job, key, after)| == |Needing(job, key, before)| - n
    ensures limit == 0 ==> after == before && n == 0
  {
    var ids :| ids <= Needing(job, key, before) && |ids| == n && after == ChangedAt(job, before, ids);
    ChangedRowsNeedNothing(job, key, before, ids);
    SubsetDifference(Needing(job, key, before), ids);
    if n == 0 {
      assert ids == {};
      assert ChangedAt(job, before, {}) == before;
    }
  }

  lemma SubsetDifference(all: set<nat>, part: set<nat>)
    requires part <= all
    ensures |all - part| == |all| - |part|
  {
    assert all == (all - part) + part;
  }

  /** Full batches work off their size each; with a limit of zero nothing is ever worked off. */
  lemma {:induction false} FullBatchesLeave(job: Job, key: nat, limit: nat, tables: seq<Rows>, ns: seq<nat>, i: nat)
    requires Statements(job, key, limit, tables, ns) && i <= |ns| && forall j :: 0 <= j < i ==> ns[j] == limit
    ensures |Needing(job, key, tables[i])| == |Needing(job, key, tables[0])| - Multiple(i, limit)
    ensures limit == 0 ==> tables[i] == tables[0]
    decreases i
  {
    if i == 0 {
    } else {
      FullBatchesLeave(job, key, limit, tables, ns, i - 1);
      StatementLeaves(job, key, limit, tables[i - 1], tables[i], ns[i - 1]);
    }
  }

  lemma {:induction false} MultipleGrows(n: nat, b: nat)
    requires b > 0
    ensures Multiple(n, b) >= n
  {
    if n == 0 {
    } else {
      MultipleGrows(n - 1, b);
    }
  }

  /**
   Of any run of more statements than there are rows in need, one reports fewer rows than asked for, which is
   what ends the loop, exactly when the batch size is positive. With a batch size of zero no statement ever does,
   and the table stays as it is: the loop runs on for good.
   */
  lemma LoopEndsExactlyWhen(job: Job, key: nat, b: nat, tables: seq<Rows>, ns: seq<nat>)
    requires Statements(job, key, b, tables, ns) && |ns| > |Needing(job, key, tables[0])|
    ensures (exists i :: 0 <= i < |ns| && ns[i] < b) <==> b > 0
    ensures b == 0 ==> forall i :: 0 <= i <= |ns| ==> tables[i] == tables[0]
  {
    if b == 0 {
      forall i | 0 <= i <= |ns|
        ensures tables[i] == tables[0]
      {
        NoRowsAreReported(job, key, tables, ns);
        FullBatchesLeave(job, key, b, tables, ns, i);
      }
    } else if forall i :: 0 <= i < |ns| ==> ns[i] >= b {
      StatementsReportAtMost(job, key, b, tables, ns);
      FullBatchesLeave(job, key, b, tables, ns, |ns|);
      MultipleGrows(|ns|, b);
    }
  }

  lemma StatementsReportAtMost(job: Job, key: nat, b: nat, tables: seq<Rows>, ns: seq<nat>)
    requires Statements(job, key, b, tables, ns)
    ensures forall i :: 0 <= i < |ns| ==> ns[i] <= b
  {
    forall i | 0 <= i < |ns|
      ensures ns[i] <= b
    {
      var j := i + 1;
      assert Statement(job, key, b, tables[i], tables[j], ns[i]);
    }
  }

  lemma NoRowsAreReported(job: Job, key: nat, tables: seq<Rows>, ns: seq<nat>)
    requires Statements(job, key, 0, tables, ns)
    ensures forall i :: 0 <= i < |ns| ==> ns[i] == 0
  {
    StatementsReportAtMost(job, key, 0, tables, ns);
  }

  // ---- The inline split -------------------------------------------------------------------------

  function Split(raw: Metadata, active: set<string>): Metadata {
    map name <- raw.Keys | name in active :: raw[name]
  }

  /** The writer visits the metadata in an arbitrary order. */
  method SplitMetadata(raw: Metadata, active: set<string>) returns (indexed: Metadata)
    ensures indexed == Split(raw, active)
    ensures forall name :: name in indexed <==> name in raw && name in active
    ensures forall name <- indexed :: indexed[name] == raw[name]
  {
    indexed := map[];
    var rest := raw.Keys;
    while rest != {}
      invariant rest <= raw.Keys
      invariant indexed == Split(raw, active - rest)
    {
      var name :| name in rest;
      if name in active {
        indexed := indexed[name := raw[name]];
      }
      rest := rest - {name};
    }
    assert active - {} == active;
  }

  /** Every row of the key is indexed as the writer would have split it with these active names. */
  ghost predicate SplitBy(rows: Rows, key: nat, active: set<string>) {
    forall id <- rows :: rows[id].apiKey == Some(key) ==> IndexOf(rows[id]) == Split(rows[id].raw, active)
  }

  /** A backfill brings the rows to the split with one more active name. */
  lemma BackfillMatchesInlineSplit(rows: Rows, key: nat, name: string, active: set<string>)
    requires SplitBy(rows, key, active)
    ensures SplitBy(Swept(Backfill(name), key, rows), key, active + {name})
  {
    var swept := Swept(Backfill(name), key, rows);
    forall id <- swept | swept[id].apiKey == Some(key)
      ensures IndexOf(swept[id]) == Split(swept[id].raw, active + {name})
    {
      assert IndexOf(rows[id]) == Split(rows[id].raw, active);
    }
  }

  /** A cleanup brings them to the split with one active name less. */
  lemma CleanupMatchesInlineSplit(rows: Rows, key: nat, name: string, active: set<string>)
    requires SplitBy(rows, key, active)
    ensures SplitBy(Swept(Cleanup(name), key, rows), key, active - {name})
  {
    var swept := Swept(Cleanup(name), key, rows);
    forall id <- swept | swept[id].apiKey == Some(key)
      ensures IndexOf(swept[id]) == Split(swept[id].raw, active - {name})
    {
      assert IndexOf(rows[id]) == Split(rows[id].raw, active);
    }
  }

  datatype Change = Activate(name: string) | Deactivate(name: string)

  function JobOf(c: Change): Job {
    match c
    case Activate(name) => Backfill(name)
    case Deactivate(name) => Cleanup(name)
  }

  function ActiveAfter(active: set<string>, changes: seq<Change>): set<string> {
    if changes == [] then active
    else
      var before := ActiveAfter(active, changes[..|changes| - 1]);
      var c := changes[|changes| - 1];
      if c.Activate? then before + {c.name} else before - {c.name}
  }

  function RowsAfter(rows: Rows, key: nat, changes: seq<Change>): Rows {
    if changes == [] then rows
    else Swept(JobOf(changes[|changes| - 1]), key, RowsAfter(rows, key, changes[..|changes| - 1]))
  }

  /** Main result: after any sequence of activations and deactivations the old rows are indexed like new ones. */
  lemma {:induction false} OldRowsAreIndexedLikeNewOnes(rows: Rows, key: nat, active: set<string>, changes: seq<Change>)
    requires SplitBy(rows, key, active)
    ensures SplitBy(RowsAfter(rows, key, changes), key, ActiveAfter(active, changes))
    decreases |changes|
  {
    if changes == [] {
    } else {
      var n := |changes| - 1;
      OldRowsAreIndexedLikeNewOnes(rows, key, active, changes[..n]);
      var before, names := RowsAfter(rows, key, changes[..n]), ActiveAfter(active, changes[..n]);
      match changes[n]
      case Activate(name) => BackfillMatchesInlineSplit(before, key, name, names);
      case Deactivate(name) => CleanupMatchesInlineSplit(before, key, name, names);
    }
  }

  // ---- One key, without that assumption ---------------------------------------------------------

  /**
   After a backfill every row of the key has its raw value in the index exactly when no row had another value
   there before: a backfill keeps the entries it finds.
   */
  lemma BackfilledValuesAreRawExactlyWhen(rows: Rows, key: nat, name: string)
    ensures
      var swept := Swept(Backfill(name), key, rows);
      (forall id <- swept :: swept[id].apiKey == Some(key) && name in swept[id].raw ==>
        name in IndexOf(swept[id]) && IndexOf(swept[id])[name] == swept[id].raw[name])
      <==>
      (forall id <- rows :: rows[id].apiKey == Some(key) && name in rows[id].raw && name in IndexOf(rows[id]) ==>
        IndexOf(rows[id])[name] == rows[id].raw[name])
  {
    var swept := Swept(Backfill(name), key, rows);
    forall id <- rows
      ensures id in swept && swept[id].raw == rows[id].raw && swept[id].apiKey == rows[id].apiKey
    {
    }
    if id :| id in rows && rows[id].apiKey == Some(key) && name in rows[id].raw && name in IndexOf(rows[id])
             && IndexOf(rows[id])[name] != rows[id].raw[name] {
      assert swept[id] == rows[id];
    }
  }

  /** Two tables that differ at most in that a null index stands for an empty one. */
  ghost predicate SameButNull(a: Rows, b: Rows) {
    && a.Keys == b.Keys
    && forall id <- a :: a[id].apiKey == b[id].apiKey && a[id].raw == b[id].raw && IndexOf(a[id]) == IndexOf(b[id])
  }

  /** Cleanup undoes backfill, up to null, exactly when the table had no entry for the name. */
  lemma CleanupUndoesBackfillExactlyWhen(rows: Rows, key: nat, name: string)
    ensures SameButNull(Swept(Cleanup(name), key, Swept(Backfill(name), key, rows)), rows)
       <==> (forall id <- rows :: rows[id].apiKey == Some(key) ==> name !in IndexOf(rows[id]))
  {
    var filled := Swept(Backfill(name), key, rows);
    var cleaned := Swept(Cleanup(name), key, filled);
    forall id <- rows
      ensures id in cleaned && cleaned[id].apiKey == rows[id].apiKey && cleaned[id].raw == rows[id].raw
      ensures IndexOf(cleaned[id]) == if rows[id].apiKey == Some(key) then IndexOf(rows[id]) - {name}
        else IndexOf(rows[id])
    {
      CleanupAfterBackfill(rows, key, name, id);
    }
    if id :| id in rows && rows[id].apiKey == Some(key) && name in IndexOf(rows[id]) {
      assert name !in IndexOf(cleaned[id]);
    }
  }

  lemma CleanupAfterBackfill(rows: Rows, key: nat, name: string, id: nat)
    requires id in rows
    ensures
      var row := Swept(Cleanup(name), key, Swept(Backfill(name), key, rows))[id];
      && row.apiKey == rows[id].apiKey && row.raw == rows[id].raw
      && IndexOf(row) == (if rows[id].apiKey == Some(key) then IndexOf(rows[id]) - {name} else IndexOf(rows[id]))
  {
    var filled := Swept(Backfill(name), key, rows)[id];
    if rows[id].apiKey == Some(key) {
      assert IndexOf(filled) - {name} == IndexOf(rows[id]) - {name};
    }
  }

  /** A job touches no row of another key, no raw metadata, and no other name in an index. */
  lemma NothingElseChanges(job: Job, key: nat, rows: Rows, id: nat)
    requires id in rows
    ensures Swept(job, key, rows).Keys == rows.Keys
    ensures
      var row := Swept(job, key, rows)[id];
      && row.apiKey == rows[id].apiKey && row.raw == rows[id].raw
      && IndexOf(row) - {job.name} == IndexOf(rows[id]) - {job.name}
      && (rows[id].apiKey != Some(key) ==> row == rows[id])
  {
  }

  function Touched(job: Job, key: nat, row: Row): Row {
    if Needs(job, key, row) then Changed(job, row) else row
  }

  lemma SweptTwice(a: Job, b: Job, key: nat, rows: Rows, id: nat)
    requires id in rows
    ensures Swept(b, key, Swept(a, key, rows)).Keys == rows.Keys
    ensures Swept(b, key, Swept(a, key, rows))[id] == Touched(b, key, Touched(a, key, rows[id]))
  {
    assert Swept(a, key, rows)[id] == Touched(a, key, rows[id]);
  }

  lemma RowJobsCommute(a: Job, b: Job, key: nat, row: Row)
    requires a.name != b.name
    ensures
      var ab, ba := Touched(a, key, Touched(b, key, row)), Touched(b, key, Touched(a, key, row));
      ab.apiKey == ba.apiKey && ab.raw == ba.raw && IndexOf(ab) == IndexOf(ba)
  {
  }

  /** Jobs for different names may run in either order. */
  lemma JobsCommute(a: Job, b: Job, key: nat, rows: Rows)
    requires a.name != b.name
    ensures SameButNull(Swept(a, key, Swept(b, key, rows)), Swept(b, key, Swept(a, key, rows)))
  {
    var ab, ba := Swept(a, key, Swept(b, key, rows)), Swept(b, key, Swept(a, key, rows));
    assert ab.Keys == rows.Keys == ba.Keys;
    forall id | id in rows
      ensures ab[id].apiKey == ba[id].apiKey && ab[id].raw == ba[id].raw && IndexOf(ab[id]) == IndexOf(ba[id])
    {
      SweptTwice(b, a, key, rows, id);
      SweptTwice(a, b, key, rows, id);
      RowJobsCommute(a, b, key, rows[id]);
    }
  }
}
