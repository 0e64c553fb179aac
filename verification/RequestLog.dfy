/**
 The objects behind the pipeline: the `llm_requests` table, Butler's ingest endpoint, the log writer
 and the batch reporter. Each method is proved to perform a run of `UsagePipeline` steps; `Flush` is
 moreover proved to drain its organisation when nothing fails.
 */
module RequestLog {
  import Runs
  import opened Wrappers
  import opened Pages
  import opened UsagePipeline

  predicate IsOpen(row: Row, o: Org) {
    !row.synced && row.org == Some(o)
  }

  /** Unsynced rows of the organisation, oldest first, and none of them is younger than one that is left out. */
  ghost predicate OldestOpen(rows: map<nat, Row>, o: Org, page: seq<nat>) {
    && (forall id <- page :: id in rows && IsOpen(rows[id], o))
    && (forall i, j :: 0 <= i < j < |page| ==> rows[page[i]].createdAt <= rows[page[j]].createdAt)
    && (forall id, other :: id in page && other in rows && IsOpen(rows[other], o) && other !in page ==>
          rows[id].createdAt <= rows[other].createdAt)
  }

  lemma PageIsOldestOpen(rows: map<nat, Row>, o: Org, page: seq<nat>, limit: nat)
    requires IsPage(page, Unsynced(rows, o), CreatedAt(rows), limit)
    ensures OldestOpen(rows, o, page)
  {
    assert forall id <- rows :: CreatedAt(rows)[id] == rows[id].createdAt;
    assert forall id <- page :: id in Unsynced(rows, o);
  }

  class RequestTable {
    var rows: map<nat, Row>
    ghost var errors: nat  // how many statements have reported an error

    constructor ()
      ensures rows == map[] && errors == 0
    {
      rows, errors := map[], 0;
    }

    method FetchUnsyncedRecords(o: Org, limit: int) returns (r: Result<seq<nat>, Failed>)
      modifies `errors
      ensures r.Ok? ==> limit >= 0 && IsPage(r.value, Unsynced(rows, o), CreatedAt(rows), limit)
      ensures r.Ok? ==> OldestOpen(rows, o, r.value)
      ensures errors == old(errors) + ErrorsIn(r)
    {
      var failed: bool := *;
      if limit < 0 || failed {  // PostgreSQL: LIMIT must not be negative
        errors := errors + 1;
        return Err(Failed);
      }
      var page := SelectPage(Unsynced(rows, o), CreatedAt(rows), limit);
      PageIsOldestOpen(rows, o, page, limit);
      r := Ok(page);
    }

    method MarkSynced(ids: seq<nat>) returns (out: Outcome)
      modifies this
      ensures rows == if TookEffect(out) then MarkRows(old(rows), ids) else old(rows)
      ensures errors == old(errors) + Errors(out)
      ensures ids == [] ==> out.Success?
    {
      if |ids| == 0 {
        assert MarkRows(rows, ids) == rows;
        return Success;
      }
      out := AnyOutcome();
      if TookEffect(out) {
        rows := MarkRows(rows, ids);
      }
      errors := errors + Errors(out);
    }

    method InsertRow(id: nat, org: Option<Org>) returns (out: Outcome, at: int)
      requires id !in rows
      modifies this
      ensures rows == if TookEffect(out) then old(rows)[id := Row(org, at, false)] else old(rows)
      ensures errors == old(errors) + Errors(out)
    {
      out := AnyOutcome();
      at := *;
      if TookEffect(out) {
        rows := rows[id := Row(org, at, false)];
      }
      errors := errors + Errors(out);
    }
  }

  class Butler {
    var accepted: set<nat>
    ghost var acknowledged: seq<seq<nat>>  // the batches it answered with 200, in order
    ghost var errors: nat                  // how many requests have reported an error

    constructor ()
      ensures accepted == {} && acknowledged == [] && errors == 0
    {
      accepted := {};
      acknowledged, errors := [], 0;
    }

    /** Assumed contract: a batch answered with 200 is ingested; one answered otherwise may be. */
    method Ingest(ids: seq<nat>) returns (out: Outcome)
      modifies this
      ensures accepted == if TookEffect(out) then old(accepted) + Elements(ids) else old(accepted)
      ensures acknowledged == if out.Success? then old(acknowledged) + [ids] else old(acknowledged)
      ensures errors == old(errors) + Errors(out)
    {
      out := AnyOutcome();
      if TookEffect(out) {
        accepted := accepted + set id | id in ids;
      }
      if out.Success? {
        acknowledged := acknowledged + [ids];
      }
      errors := errors + Errors(out);
    }
  }

  // ---- The reporter -----------------------------------------------------------------------------

  ghost predicate SortedBy(ids: seq<nat>, rank: map<nat, int>) {
    && (forall id <- ids :: id in rank)
    && (forall i, j :: 0 <= i < j < |ids| ==> rank[ids[i]] <= rank[ids[j]])
  }

  /** The progress of a flush: `sent` has been worked off `start`, oldest first, `open` remains. */
  ghost predicate Progress(start: set<nat>, sent: seq<nat>, open: set<nat>, rank: map<nat, int>) {
    && start <= rank.Keys
    && Distinct(sent) && Elements(sent) !! open && Elements(sent) + open == start
    && SortedBy(sent, rank)
    && (forall x, y :: x in sent && y in open ==> rank[x] <= rank[y])
  }

  lemma SortedAppend(a: seq<nat>, b: seq<nat>, rank: map<nat, int>)
    requires SortedBy(a, rank) && SortedBy(b, rank) && forall x, y :: x in a && y in b ==> rank[x] <= rank[y]
    ensures SortedBy(a + b, rank)
  {
    forall i, j | 0 <= i < j < |a + b|
      ensures rank[(a + b)[i]] <= rank[(a + b)[j]]
    {
      if i < |a| <= j {
        assert a[i] in a && b[j - |a|] in b;
      }
    }
  }

  lemma ElementsAppend(a: seq<nat>, b: seq<nat>)
    ensures Elements(a + b) == Elements(a) + Elements(b)
  {
  }

  lemma PageLeavesTheRest(page: seq<nat>, open: set<nat>, rank: map<nat, int>, limit: nat)
    requires open <= rank.Keys && IsPage(page, open, rank, limit)
    ensures Elements(page) <= open && SortedBy(page, rank) && |open - Elements(page)| == |open| - |page|
    ensures forall x, y :: x in page && y in open - Elements(page) ==> rank[x] <= rank[y]
  {
    ShortPageIsAll(page, open, rank, limit);
  }

  lemma Moved(start: set<nat>, done: set<nat>, open: set<nat>, batch: set<nat>)
    requires done !! open && done + open == start && batch <= open
    ensures (done + batch) !! (open - batch) && (done + batch) + (open - batch) == start
  {
  }

  lemma PageIsNew(sent: seq<nat>, open: set<nat>, page: seq<nat>)
    requires Distinct(sent) && Distinct(page) && Elements(sent) !! open && Elements(page) <= open
    ensures Distinct(sent + page)
  {
    forall x | x in page
      ensures x !in sent
    {
      assert x in Elements(page) && x !in Elements(sent);
    }
    DistinctAppend(sent, page);
  }

  lemma RestIsYounger(sent: seq<nat>, open: set<nat>, rank: map<nat, int>, page: seq<nat>)
    requires (forall x <- sent :: x in rank) && open <= rank.Keys && Elements(page) <= open
    requires forall x, y :: x in sent && y in open ==> rank[x] <= rank[y]
    requires forall x, y :: x in page && y in open - Elements(page) ==> rank[x] <= rank[y]
    ensures forall x :: x in sent + page ==> x in rank
    ensures forall x, y :: x in sent + page && y in open - Elements(page) ==> rank[x] <= rank[y]
  {
    forall x | x in sent + page
      ensures x in rank && forall y :: y in open - Elements(page) ==> rank[x] <= rank[y]
    {
      if x !in sent {
        assert x in page && x in Elements(page);
      }
    }
  }

  lemma PageInOrder(sent: seq<nat>, open: set<nat>, rank: map<nat, int>, page: seq<nat>)
    requires SortedBy(sent, rank) && SortedBy(page, rank) && open <= rank.Keys && Elements(page) <= open
    requires forall x, y :: x in sent && y in open ==> rank[x] <= rank[y]
    ensures SortedBy(sent + page, rank)
  {
    forall x, y | x in sent && y in page
      ensures rank[x] <= rank[y]
    {
      assert y in Elements(page);
    }
    SortedAppend(sent, page, rank);
  }

  lemma ProgressPage(start: set<nat>, sent: seq<nat>, open: set<nat>, rank: map<nat, int>, page: seq<nat>, limit: nat)
    requires Progress(start, sent, open, rank) && IsPage(page, open, rank, limit)
    ensures Progress(start, sent + page, open - Elements(page), rank)
    ensures |open - Elements(page)| == |open| - |page|
  {
    PageLeavesTheRest(page, open, rank, limit);
    ElementsAppend(sent, page);
    Moved(start, Elements(sent), open, Elements(page));
    PageIsNew(sent, open, page);
    PageInOrder(sent, open, rank, page);
    RestIsYounger(sent, open, rank, page);
  }

  /** The pipeline with this table and this Butler, and the reporter of `o` in the given phase. */
  function With(s: State, rows: map<nat, Row>, accepted: set<nat>, o: Org, phase: Phase): State {
    s.(rows := rows, accepted := accepted, reporters := s.reporters[o := phase])
  }

  lemma SendRuns(s: State, trace: seq<Action>, rows: map<nat, Row>, accepted: set<nat>, o: Org, ids: seq<nat>,
                 limit: nat, out: Outcome)
    requires Exec(s, trace) == Some(With(s, rows, accepted, o, Idle))
    requires ids != [] && IsPage(ids, Unsynced(rows, o), CreatedAt(rows), limit)
    ensures Exec(s, trace + [Fetch(o, ids, limit), Send(o, out)])
         == Some(With(s, rows, if TookEffect(out) then accepted + Elements(ids) else accepted,
                      o, if out.Success? then Sent(ids) else Idle))
  {
    var s0 := With(s, rows, accepted, o, Idle);
    var s1 := With(s, rows, accepted, o, Fetched(ids));
    assert s0.reporters[o := Fetched(ids)] == s1.reporters;
    Runs.ExecSnoc(Step, s, trace, Fetch(o, ids, limit));
    Runs.ExecSnoc(Step, s, trace + [Fetch(o, ids, limit)], Send(o, out));
    assert trace + [Fetch(o, ids, limit), Send(o, out)] == trace + [Fetch(o, ids, limit)] + [Send(o, out)];
    assert s1.reporters[o := Sent(ids)] == s.reporters[o := Sent(ids)];
    assert s1.reporters[o := Idle] == s.reporters[o := Idle];
  }

  lemma MarkRuns(s: State, trace: seq<Action>, rows: map<nat, Row>, accepted: set<nat>, o: Org, ids: seq<nat>,
                 out: Outcome)
    requires Exec(s, trace) == Some(With(s, rows, accepted, o, Sent(ids)))
    ensures Exec(s, trace + [Mark(o, out)])
         == Some(With(s, if TookEffect(out) then MarkRows(rows, ids) else rows, accepted, o, Idle))
  {
    Runs.ExecSnoc(Step, s, trace, Mark(o, out));
    assert With(s, rows, accepted, o, Sent(ids)).reporters[o := Idle] == s.reporters[o := Idle];
  }

  lemma MarksCompose(rows: map<nat, Row>, xs: seq<nat>, ys: seq<nat>)
    ensures MarkRows(MarkRows(rows, xs), ys) == MarkRows(rows, xs + ys)
    ensures CreatedAt(MarkRows(rows, xs)) == CreatedAt(rows)
  {
  }

  /** What a flush has done so far without a failure. */
  ghost predicate Drained(rows0: map<nat, Row>, rows: map<nat, Row>, o: Org, batches: seq<seq<nat>>, limit: int) {
    && rows == MarkRows(rows0, Flatten(batches))
    && Progress(Unsynced(rows0, o), Flatten(batches), Unsynced(rows, o), CreatedAt(rows0))
    && (limit > 0 ==>
          |batches| + Batches(|Unsynced(rows, o)|, limit) == Batches(|Unsynced(rows0, o)|, limit))
  }

  lemma DrainedBatch(rows0: map<nat, Row>, rows: map<nat, Row>, o: Org, batches: seq<seq<nat>>, limit: nat,
                     page: seq<nat>)
    requires Drained(rows0, rows, o, batches, limit) && page != []
    requires IsPage(page, Unsynced(rows, o), CreatedAt(rows), limit)
    ensures Drained(rows0, MarkRows(rows, page), o, batches + [page], limit)
    ensures |Unsynced(MarkRows(rows, page), o)| == |Unsynced(rows, o)| - |page|
    ensures |page| < limit ==> Unsynced(MarkRows(rows, page), o) == {}
  {
    FlattenSnoc(batches, page);
    MarksCompose(rows0, Flatten(batches), page);
    MarkingIsExact(rows, o, page);
    ProgressPage(Unsynced(rows0, o), Flatten(batches), Unsynced(rows, o), CreatedAt(rows0), page, limit);
    ShortPageIsAll(page, Unsynced(rows, o), CreatedAt(rows), limit);
  }

  /**
   In terms of the rows: the batches hold each row of the organisation that was unsynced exactly once, oldest first;
   exactly these have been marked, and nothing else has changed.
   */
  ghost predicate DeliveredOldestFirst(rows0: map<nat, Row>, rows: map<nat, Row>, o: Org, sent: seq<nat>) {
    && Distinct(sent) && (forall id :: id in sent <==> id in rows0 && IsOpen(rows0[id], o))
    && (forall i, j :: 0 <= i < j < |sent| ==> rows0[sent[i]].createdAt <= rows0[sent[j]].createdAt)
    && rows.Keys == rows0.Keys
    && forall id <- rows.Keys :: rows[id] == if rows0[id].org == Some(o) then rows0[id].(synced := true) else rows0[id]
  }

  /**
   Once nothing of the organisation is left unsynced, every row has been delivered, oldest first, in `ceil(k / limit)`
   batches.
   */
  lemma DrainedCompletely(rows0: map<nat, Row>, rows: map<nat, Row>, o: Org, batches: seq<seq<nat>>, limit: nat)
    requires limit > 0 && Drained(rows0, rows, o, batches, limit) && Unsynced(rows, o) == {}
    ensures DeliveredOldestFirst(rows0, rows, o, Flatten(batches))
    ensures |batches| == (|Flatten(batches)| + limit - 1) / limit
  {
    var sent := Flatten(batches);
    assert forall id :: id in sent <==> id in Elements(sent);
    assert Elements(sent) == Unsynced(rows0, o);
    assert forall id <- rows0 :: CreatedAt(rows0)[id] == rows0[id].createdAt;
    forall id | id in rows
      ensures rows[id] == if rows0[id].org == Some(o) then rows0[id].(synced := true) else rows0[id]
    {
      assert id in sent <==> id in Elements(sent);
      assert id !in Unsynced(rows, o);
    }
    DistinctCount(sent);
    BatchesIsCeiling(|sent|, limit);
  }

  class Reporter {
    const orgID: Org
    const batchMaxSize: int

    constructor (orgID: Org, batchMaxSize: int)
      ensures this.orgID == orgID && this.batchMaxSize == batchMaxSize
    {
      this.orgID := orgID;
      this.batchMaxSize := batchMaxSize;
    }

    /** One turn of the flush loop; `more` asks for another one, `ok` tells that no statement failed. */
    method FlushPage(store: RequestTable, butler: Butler, ghost before: State, ghost trace0: seq<Action>)
      returns (ok: bool, more: bool, ghost sent: seq<seq<nat>>, ghost trace: seq<Action>)
      requires Exec(before, trace0) == Some(With(before, store.rows, butler.accepted, orgID, Idle))
      modifies store, butler
      ensures Exec(before, trace) == Some(With(before, store.rows, butler.accepted, orgID, Idle))
      ensures ok <==> store.errors == old(store.errors) && butler.errors == old(butler.errors)
      ensures store.errors >= old(store.errors) && butler.errors >= old(butler.errors)
      ensures more ==> ok && |sent| == 1
      ensures ok && sent == [] ==>
        store.rows == old(store.rows) && butler.acknowledged == old(butler.acknowledged)
        && (batchMaxSize > 0 ==> Unsynced(store.rows, orgID) == {})
      ensures ok && sent != [] ==>
        && |sent| == 1 && sent[0] != [] && batchMaxSize > 0
        && IsPage(sent[0], Unsynced(old(store.rows), orgID), CreatedAt(old(store.rows)), batchMaxSize)
        && OldestOpen(old(store.rows), orgID, sent[0])
        && store.rows == MarkRows(old(store.rows), sent[0])
        && butler.acknowledged == old(butler.acknowledged) + [sent[0]]
        && more == (|sent[0]| == batchMaxSize)
    {
      trace, sent := trace0, [];
      var fetched := store.FetchUnsyncedRecords(orgID, batchMaxSize);
      if fetched.Err? {
        return false, false, sent, trace;
      }
      var ids := fetched.value;
      if |ids| == 0 {
        return true, false, sent, trace;
      }
      ghost var rows, accepted := store.rows, butler.accepted;
      var delivered := butler.Ingest(ids);
      SendRuns(before, trace, rows, accepted, orgID, ids, batchMaxSize, delivered);
      trace := trace + [Fetch(orgID, ids, batchMaxSize), Send(orgID, delivered)];
      if !delivered.Success? {
        return false, false, sent, trace;
      }
      var marked := store.MarkSynced(ids);
      MarkRuns(before, trace, rows, butler.accepted, orgID, ids, marked);
      trace := trace + [Mark(orgID, marked)];
      if !marked.Success? {
        return false, false, sent, trace;
      }
      return true, |ids| >= batchMaxSize, [ids], trace;
    }

    /** The same with what the flush has done so far. */
    method FlushTurn(store: RequestTable, butler: Butler, ghost before: State, ghost trace0: seq<Action>,
                     ghost rows0: map<nat, Row>, ghost batches0: seq<seq<nat>>, ghost ack0: seq<seq<nat>>)
      returns (ok: bool, more: bool, ghost batches: seq<seq<nat>>, ghost trace: seq<Action>)
      requires Exec(before, trace0) == Some(With(before, store.rows, butler.accepted, orgID, Idle))
      requires Drained(rows0, store.rows, orgID, batches0, batchMaxSize) && butler.acknowledged == ack0 + batches0
      modifies store, butler
      ensures Exec(before, trace) == Some(With(before, store.rows, butler.accepted, orgID, Idle))
      ensures ok <==> store.errors == old(store.errors) && butler.errors == old(butler.errors)
      ensures store.errors >= old(store.errors) && butler.errors >= old(butler.errors)
      ensures ok ==> Drained(rows0, store.rows, orgID, batches, batchMaxSize) && butler.acknowledged == ack0 + batches
      ensures more ==> ok && |Unsynced(store.rows, orgID)| < |Unsynced(old(store.rows), orgID)|
      ensures ok && !more && batchMaxSize > 0 ==> Unsynced(store.rows, orgID) == {}
    {
      batches := batches0;
      ghost var rows := store.rows;
      ghost var sent;
      ok, more, sent, trace := FlushPage(store, butler, before, trace0);
      if ok && sent != [] {
        DrainedBatch(rows0, rows, orgID, batches, batchMaxSize, sent[0]);
        AppendSnoc(ack0, batches, sent[0]);
        batches := batches + [sent[0]];
      }
    }

    /**
     Fetch, send and mark until a short page or an error. `ok` tells that nothing failed.
     `before` is any state of the pipeline this store and this Butler belong to.
     */
    method Flush(store: RequestTable, butler: Butler, ghost before: State)
      returns (ok: bool, ghost batches: seq<seq<nat>>, ghost trace: seq<Action>)
      requires before.rows == store.rows && before.accepted == butler.accepted
      requires orgID in before.reporters && before.reporters[orgID].Idle?
      modifies store, butler
      // Every outcome is a run of the pipeline, so all its invariants hold.
      ensures Exec(before, trace) == Some(With(before, store.rows, butler.accepted, orgID, Idle))
      // It is `ok` exactly if nothing failed.
      ensures ok <==> store.errors == old(store.errors) && butler.errors == old(butler.errors)
      // Without a failure the whole organisation is drained (see `DrainedCompletely`).
      ensures ok ==> butler.acknowledged == old(butler.acknowledged) + batches
      ensures ok ==> Drained(old(store.rows), store.rows, orgID, batches, batchMaxSize)
      ensures ok && batchMaxSize > 0 ==>
        && DeliveredOldestFirst(old(store.rows), store.rows, orgID, Flatten(batches))
        && |batches| == (|Flatten(batches)| + batchMaxSize - 1) / batchMaxSize
    {
      batches, trace := [], [];
      ghost var rows0, ack0 := store.rows, butler.acknowledged;
      assert MarkRows(rows0, []) == rows0;
      assert With(before, rows0, butler.accepted, orgID, Idle) == before;
      ok := true;
      var more := true;
      while more
        invariant more ==> ok
        invariant store.errors >= old(store.errors) && butler.errors >= old(butler.errors)
        invariant ok <==> store.errors == old(store.errors) && butler.errors == old(butler.errors)
        invariant Exec(before, trace) == Some(With(before, store.rows, butler.accepted, orgID, Idle))
        invariant ok ==> butler.acknowledged == ack0 + batches
        invariant ok ==> Drained(rows0, store.rows, orgID, batches, batchMaxSize)
        invariant ok && !more && batchMaxSize > 0 ==> Unsynced(store.rows, orgID) == {}
        decreases more, |Unsynced(store.rows, orgID)|
      {
        ok, more, batches, trace := FlushTurn(store, butler, before, trace, rows0, batches, ack0);
      }
      if ok && batchMaxSize > 0 {
        DrainedCompletely(rows0, store.rows, orgID, batches, batchMaxSize);
      }
    }
  }

  // ---- The writer -------------------------------------------------------------------------------

  datatype Log = Log(id: nat, org: Option<Org>)

  function Ids(logs: seq<Log>): seq<nat> {
    seq(|logs|, i requires 0 <= i < |logs| => logs[i].id)
  }

  class Writer {
    var logChan: seq<Log>
    var done: bool
    const db: RequestTable

    constructor (db: RequestTable)
      ensures logChan == [] && !done && this.db == db
    {
      logChan, done := [], false;
      this.db := db;
    }

    /** This channel, flag and table are those of pipeline state `s`. */
    ghost predicate Shows(s: State)
      reads this, db
    {
      && s.queue == Ids(logChan) && s.closed == done && s.rows == db.rows && s.writing.None?
      && forall log <- logChan :: log.id < |s.orgOf| && s.orgOf[log.id] == log.org && log.id !in db.rows
    }

    /** Non-blocking send on the channel: a full channel drops the log. */
    method WriteRequestLog(log: Log, ghost s: State) returns (ghost t: State)
      requires Shows(s) && log.id == |s.orgOf| && log.id !in db.rows
      modifies this`logChan
      ensures Step(s, Offer(log.org)) == Some(t) && Shows(t)
      ensures logChan == if |old(logChan)| < QUEUE_CAPACITY then old(logChan) + [log] else old(logChan)
    {
      t := Step(s, Offer(log.org)).value;
      if |logChan| < QUEUE_CAPACITY {
        logChan := logChan + [log];
        assert Ids(logChan) == Ids(old(logChan)) + [log.id];
      }
    }

    method Close(ghost s: State) returns (ghost t: State)
      requires Shows(s)
      modifies this`done
      ensures Step(s, UsagePipeline.Close) == Some(t) && Shows(t)
    {
      done := true;
      t := s.(closed := true);
    }

    /** One receive from the channel and the insert of what was received. */
    method WriteNext(ghost s: State) returns (out: Outcome, at: int, ghost t: State)
      requires Shows(s) && logChan != [] && !s.writerStopped && Distinct(s.queue)
      modifies this`logChan, db
      ensures Exec(s, [Take, Insert(at, out)]) == Some(t) && Shows(t) && Distinct(t.queue)
      ensures !t.writerStopped && t.closed == s.closed
      ensures s.queue != [] && s.queue == [s.queue[0]] + t.queue && |t.queue| == |logChan|
      ensures t.taken == s.taken + [s.queue[0]]
      ensures logChan == old(logChan)[1..]
      ensures db.rows == if TookEffect(out) then old(db.rows)[old(logChan)[0].id := Row(old(logChan)[0].org, at, false)]
                         else old(db.rows)
    {
      var log := logChan[0];
      assert Ids(logChan)[0] == log.id;
      ghost var taken := Step(s, Take).value;
      logChan := logChan[1..];
      assert Ids(logChan) == Ids(old(logChan))[1..];
      assert forall other <- logChan :: other.id != log.id by {
        assert forall i :: 0 < i < |old(logChan)| ==> Ids(old(logChan))[i] == old(logChan)[i].id;
      }
      out, at := db.InsertRow(log.id, log.org);
      t := Step(taken, Insert(at, out)).value;
      assert s.queue == [s.queue[0]] + t.queue;
      assert [] + [Take] == [Take] && [Take] + [Insert(at, out)] == [Take, Insert(at, out)];
      Runs.ExecSnoc(Step, s, [], Take);
      Runs.ExecSnoc(Step, s, [Take], Insert(at, out));
    }

    /** The writer's last act after `Close`: everything still in the channel is written, in order. */
    method DrainAndStop(ghost s: State) returns (ghost trace: seq<Action>, ghost t: State)
      requires Shows(s) && s.closed && !s.writerStopped && Distinct(s.queue)
      modifies this`logChan, db
      ensures Exec(s, trace) == Some(t) && Shows(t) && t.writerStopped
      ensures logChan == [] && t.taken == s.taken + s.queue
    {
      trace, t := [], s;
      while |logChan| > 0
        invariant Exec(s, trace) == Some(t) && Shows(t) && Distinct(t.queue)
        invariant !t.writerStopped && t.closed
        invariant t.taken + t.queue == s.taken + s.queue && |t.queue| == |logChan|
        decreases |logChan|
      {
        ghost var before := t;
        var out, at;
        out, at, t := WriteNext(before);
        Runs.ExecAppend(Step, s, trace, [Take, Insert(at, out)]);
        trace := trace + [Take, Insert(at, out)];
        ConsSnoc(before.taken, before.queue[0], t.queue);
      }
      Runs.ExecSnoc(Step, s, trace, StopWriter);
      trace := trace + [StopWriter];
      t := t.(writerStopped := true);
    }
  }
}
