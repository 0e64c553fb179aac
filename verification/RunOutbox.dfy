/**
 The upward path of run rows (replay runs and eval runs alike): a row is reported while
 `synced_at IS NULL OR synced_at < updated_at`, and the mark stamps `synced_at = now()` without looking
 at `updated_at` again. One results reporter runs against the table; `SharedOutbox` has several.

 `content` stands for the reported fields of a row. `now` never decreases, but several statements may see the same
 time, and a write may be stamped with an earlier one: `now()` is the time at which its transaction began.
 */
module RunOutbox {
  import Runs
  import opened Wrappers
  import opened Pages

  const BATCH_SIZE: nat := 500

  datatype Row = Row(content: nat, updatedAt: int, syncedAt: Option<int>)

  datatype Phase = Idle | Fetched(snapshot: map<nat, nat>) | Posted(snapshot: map<nat, nat>)

  datatype State = State(rows: map<nat, Row>, butler: map<nat, nat>, now: int, phase: Phase)

  datatype Action =
    | Write(id: nat, content: nat, at: int)
    | Fetch(page: seq<nat>)
    | Post(out: Outcome)
    | Mark(out: Outcome, at: int)
    | Crash

  predicate Unsynced(row: Row) {
    row.syncedAt.None? || row.syncedAt.value < row.updatedAt
  }

  function UnsyncedIds(rows: map<nat, Row>): set<nat> {
    set id <- rows.Keys | Unsynced(rows[id])
  }

  function UpdateTimes(rows: map<nat, Row>): map<nat, int> {
    map id <- rows.Keys :: rows[id].updatedAt
  }

  function Contents(rows: map<nat, Row>, ids: seq<nat>): map<nat, nat> {
    map id <- rows.Keys | id in ids :: rows[id].content
  }

  /** Any write bumps `updated_at` and leaves `synced_at`. */
  function Written(rows: map<nat, Row>, id: nat, content: nat, at: int): map<nat, Row> {
    rows[id := Row(content, at, if id in rows then rows[id].syncedAt else None)]
  }

  function Stamped(rows: map<nat, Row>, ids: set<nat>, at: int): map<nat, Row> {
    map id <- rows.Keys :: if id in ids then rows[id].(syncedAt := Some(at)) else rows[id]
  }

  ghost function Step(s: State, a: Action): Option<State> {
    match a
    case Write(id, content, at) =>
      Some(s.(rows := Written(s.rows, id, content, at), now := Max(s.now, at)))
    case Fetch(page) =>
      if s.phase.Idle? && page != [] && IsPage(page, UnsyncedIds(s.rows), UpdateTimes(s.rows), BATCH_SIZE)
      then Some(s.(phase := Fetched(Contents(s.rows, page)))) else None
    case Post(out) =>
      if !s.phase.Fetched? then None
      else Some(s.(butler := if TookEffect(out) then s.butler + s.phase.snapshot else s.butler,
                   phase := if out.Success? then Posted(s.phase.snapshot) else Idle))
    case Mark(out, at) =>
      if !s.phase.Posted? || at < s.now then None
      else Some(s.(rows := if TookEffect(out) then Stamped(s.rows, s.phase.snapshot.Keys, at) else s.rows,
                   now := at, phase := Idle))
    case Crash => Some(s.(phase := Idle))
  }

  ghost function Exec(s: State, actions: seq<Action>): Option<State> {
    Runs.Exec(Step, s, actions)
  }

  /** A row the query skips has the same reported fields at Butler as locally. */
  ghost predicate Agreement(s: State) {
    forall id <- s.rows.Keys :: !Unsynced(s.rows[id]) ==> id in s.butler && s.butler[id] == s.rows[id].content
  }

  function InFlight(s: State): map<nat, nat> {
    if s.phase.Idle? then map[] else s.phase.snapshot
  }

  ghost predicate Inv(s: State) {
    && Agreement(s)
    && (forall id <- s.rows.Keys :: s.rows[id].updatedAt <= s.now)
    && (forall id <- InFlight(s).Keys :: id in s.rows && InFlight(s)[id] == s.rows[id].content)
    && (s.phase.Posted? ==>
          forall id <- s.phase.snapshot.Keys :: id in s.butler && s.butler[id] == s.phase.snapshot[id])
  }

  /**
   The guard a writer could check: the row is not between its fetch and its mark, and its last mark was
   made at an earlier time than its stamp. (A write that changes no reported field is harmless anyway.)
   */
  predicate Guarded(s: State, a: Action) {
    a.Write? ==>
      && (a.id in InFlight(s) ==> a.content == InFlight(s)[a.id])
      && (a.id in s.rows && s.rows[a.id].syncedAt.Some? && s.rows[a.id].syncedAt.value >= a.at ==>
            a.id in s.butler && a.content == s.butler[a.id])
  }

  lemma StepKeeps(s: State, a: Action, t: State)
    requires Inv(s) && Guarded(s, a) && Step(s, a) == Some(t)
    ensures Inv(t)
  {
    if a.Fetch? {
      assert forall id <- a.page :: id in UnsyncedIds(s.rows);
    }
  }

  ghost predicate GuardedRun(s: State, actions: seq<Action>) {
    actions != [] ==>
      var n := |actions| - 1;
      GuardedRun(s, actions[..n]) && Exec(s, actions[..n]).Some? && Guarded(Exec(s, actions[..n]).value, actions[n])
  }

  const EMPTY := State(map[], map[], 0, Idle)

  /** Main result: in every run whose writes are guarded, skipped rows agree with Butler. */
  lemma {:induction false} AgreementInGuardedRuns(actions: seq<Action>, s: State)
    requires GuardedRun(EMPTY, actions) && Exec(EMPTY, actions) == Some(s)
    ensures Inv(s) && Agreement(s)
    decreases |actions|
  {
    if actions == [] {
    } else {
      var n := |actions| - 1;
      AgreementInGuardedRuns(actions[..n], Exec(EMPTY, actions[..n]).value);
      StepKeeps(Exec(EMPTY, actions[..n]).value, actions[n], s);
    }
  }

  /** The mark stamps a row that was rewritten since it was posted. */
  lemma MarkBreaks(s: State, id: nat) returns (t: State)
    requires s.phase.Posted? && id in s.phase.snapshot && id in s.rows && s.rows[id].updatedAt <= s.now
    requires id in s.butler && s.butler[id] != s.rows[id].content
    ensures Step(s, Mark(Success, s.now)) == Some(t) && !Agreement(t)
  {
    t := Step(s, Mark(Success, s.now)).value;
    assert t.rows[id] == s.rows[id].(syncedAt := Some(s.now));
    assert !Unsynced(t.rows[id]);
  }

  /** The reporter finishes what it holds although the row differs from it. */
  lemma FinishBreaks(s: State, id: nat) returns (rest: seq<Action>, t: State)
    requires id in InFlight(s) && id in s.rows && s.rows[id].updatedAt <= s.now
    requires InFlight(s)[id] != s.rows[id].content
    requires s.phase.Posted? ==> id in s.butler && s.butler[id] == s.phase.snapshot[id]
    ensures Exec(s, rest) == Some(t) && !Agreement(t) && forall a <- rest :: !a.Write?
  {
    if s.phase.Posted? {
      t := MarkBreaks(s, id);
      Runs.ExecOne(Step, s, [], s, Mark(Success, s.now), t);
      rest := [] + [Mark(Success, s.now)];
    } else {
      var m := Step(s, Post(Success)).value;
      t := MarkBreaks(m, id);
      Runs.ExecOne(Step, s, [], s, Post(Success), m);
      Runs.ExecOne(Step, s, [] + [Post(Success)], m, Mark(Success, m.now), t);
      rest := [] + [Post(Success)] + [Mark(Success, m.now)];
    }
  }

  /**
   The guard is exact. A guarded write keeps the invariant; behind an unguarded one there is always a
   run without any further write in which a skipped row differs from what Butler has: the reporter
   simply finishes.
   */
  lemma GuardIsExact(s: State, id: nat, content: nat, at: int, t: State) returns (rest: seq<Action>, u: State)
    requires Inv(s) && Step(s, Write(id, content, at)) == Some(t)
    ensures Guarded(s, Write(id, content, at)) ==> Inv(t)
    ensures !Guarded(s, Write(id, content, at)) ==>
      Exec(t, rest) == Some(u) && !Agreement(u) && forall a <- rest :: !a.Write?
  {
    rest, u := [], t;
    if Guarded(s, Write(id, content, at)) {
      StepKeeps(s, Write(id, content, at), t);
    } else if id in InFlight(s) && content != InFlight(s)[id] {
      WriteInFlight(s, id, content, at, t);
      rest, u := FinishBreaks(t, id);
    } else {
      assert !Unsynced(t.rows[id]);
    }
  }

  lemma WriteInFlight(s: State, id: nat, content: nat, at: int, t: State)
    requires Inv(s) && Step(s, Write(id, content, at)) == Some(t) && id in InFlight(s) && content != InFlight(s)[id]
    ensures InFlight(t) == InFlight(s) && id in t.rows && t.rows[id].content == content && t.rows[id].updatedAt <= t.now
    ensures t.phase.Posted? ==> id in t.butler && t.butler[id] == t.phase.snapshot[id]
  {
  }

  /** A new row is fetched and posted. */
  lemma PostedOnce() returns (s: State)
    ensures Exec(EMPTY, [Write(1, 10, 1), Fetch([1]), Post(Success)]) == Some(s)
    ensures s == State(map[1 := Row(10, 1, None)], map[1 := 10], 1, Posted(map[1 := 10]))
  {
    var s1 := State(map[1 := Row(10, 1, None)], map[], 1, Idle);
    assert UnsyncedIds(s1.rows) == {1};
    assert IsPage([1], UnsyncedIds(s1.rows), UpdateTimes(s1.rows), BATCH_SIZE);
    assert Contents(s1.rows, [1]) == map[1 := 10];
    var s2 := s1.(phase := Fetched(map[1 := 10]));
    s := State(s1.rows, map[1 := 10], 1, Posted(map[1 := 10]));
    assert map[] + map[1 := 10] == map[1 := 10];
    Runs.ExecOne(Step, EMPTY, [], EMPTY, Write(1, 10, 1), s1);
    Runs.ExecOne(Step, EMPTY, [] + [Write(1, 10, 1)], s1, Fetch([1]), s2);
    Runs.ExecOne(Step, EMPTY, [] + [Write(1, 10, 1)] + [Fetch([1])], s2, Post(Success), s);
    assert [] + [Write(1, 10, 1)] + [Fetch([1])] + [Post(Success)] == [Write(1, 10, 1), Fetch([1]), Post(Success)];
  }

  /** The first way to break it: the row is rewritten between its post and its mark. */
  lemma LateWriteIsLost() returns (s: State)
    ensures Exec(EMPTY, [Write(1, 10, 1), Fetch([1]), Post(Success)] + [Write(1, 11, 2)] + [Mark(Success, 3)])
         == Some(s)
    ensures s.butler == map[1 := 10] && s.rows == map[1 := Row(11, 2, Some(3))] && !Unsynced(s.rows[1])
  {
    var p := PostedOnce();
    var run := [Write(1, 10, 1), Fetch([1]), Post(Success)];
    var m := p.(rows := map[1 := Row(11, 2, None)], now := 2);
    assert Written(p.rows, 1, 11, 2) == m.rows;
    s := State(map[1 := Row(11, 2, Some(3))], p.butler, 3, Idle);
    assert p.phase.snapshot.Keys == {1};
    assert Stamped(m.rows, {1}, 3) == s.rows;
    Runs.ExecOne(Step, EMPTY, run, p, Write(1, 11, 2), m);
    Runs.ExecOne(Step, EMPTY, run + [Write(1, 11, 2)], m, Mark(Success, 3), s);
  }

  /** The second: it is rewritten after the mark, but stamped with the very same time or an earlier one. */
  lemma WriteStampedBeforeTheMarkIsLost(at: int) returns (s: State)
    requires at <= 3
    ensures Exec(EMPTY, [Write(1, 10, 1), Fetch([1]), Post(Success)] + [Mark(Success, 3)] + [Write(1, 11, at)])
         == Some(s)
    ensures s.butler == map[1 := 10] && s.rows == map[1 := Row(11, at, Some(3))] && !Unsynced(s.rows[1])
  {
    var p := PostedOnce();
    var run := [Write(1, 10, 1), Fetch([1]), Post(Success)];
    var m := State(map[1 := Row(10, 1, Some(3))], p.butler, 3, Idle);
    assert p.phase.snapshot.Keys == {1};
    assert Stamped(p.rows, {1}, 3) == m.rows;
    s := m.(rows := map[1 := Row(11, at, Some(3))]);
    assert Written(m.rows, 1, 11, at) == s.rows;
    Runs.ExecOne(Step, EMPTY, run, p, Mark(Success, 3), m);
    Runs.ExecOne(Step, EMPTY, run + [Mark(Success, 3)], m, Write(1, 11, at), s);
  }

  // ---- The reporter -----------------------------------------------------------------------------

  predicate IsOpen(row: Row) {
    row.syncedAt.Some? ==> row.syncedAt.value < row.updatedAt
  }

  /** Rows to report, in the order of their updates, and none of them was updated later than one that is left out. */
  ghost predicate OldestOpen(rows: map<nat, Row>, page: seq<nat>) {
    && (forall id <- page :: id in rows && IsOpen(rows[id]))
    && (forall i, j :: 0 <= i < j < |page| ==> rows[page[i]].updatedAt <= rows[page[j]].updatedAt)
    && (forall id, other :: id in page && other in rows && IsOpen(rows[other]) && other !in page ==>
          rows[id].updatedAt <= rows[other].updatedAt)
  }

  lemma PageIsOldestOpen(rows: map<nat, Row>, page: seq<nat>, limit: nat)
    requires IsPage(page, UnsyncedIds(rows), UpdateTimes(rows), limit)
    ensures OldestOpen(rows, page)
  {
    assert forall id <- rows :: UpdateTimes(rows)[id] == rows[id].updatedAt;
    assert forall id <- page :: id in UnsyncedIds(rows);
  }

  class RunTable {
    var rows: map<nat, Row>
    var now: int
    ghost var errors: nat  // how many statements have reported an error

    constructor ()
      ensures rows == map[] && now == 0 && errors == 0
    {
      rows, now, errors := map[], 0, 0;
    }

    method FetchUnsynced(limit: nat) returns (r: Result<seq<nat>, Failed>)
      modifies `errors
      ensures r.Ok? ==> IsPage(r.value, UnsyncedIds(rows), UpdateTimes(rows), limit)
      ensures r.Ok? ==> OldestOpen(rows, r.value)
      ensures errors == old(errors) + ErrorsIn(r)
    {
      if * {
        errors := errors + 1;
        return Err(Failed);
      }
      var page := SelectPage(UnsyncedIds(rows), UpdateTimes(rows), limit);
      PageIsOldestOpen(rows, page, limit);
      r := Ok(page);
    }

    method MarkSynced(ids: seq<nat>) returns (out: Outcome)
      modifies this
      ensures now >= old(now)
      ensures rows == if TookEffect(out) then Stamped(old(rows), Elements(ids), now) else old(rows)
      ensures errors == old(errors) + Errors(out)
    {
      var elapsed: nat :| true;
      now := now + elapsed;
      out := AnyOutcome();
      if TookEffect(out) {
        rows := Stamped(rows, (set id | id in ids), now);
      }
      errors := errors + Errors(out);
    }
  }

  class Butler {
    var runs: map<nat, nat>
    ghost var errors: nat  // how many requests have reported an error

    constructor ()
      ensures runs == map[] && errors == 0
    {
      runs, errors := map[], 0;
    }

    /** Assumed contract: an accepted status update replaces what Butler had of the run. */
    method Apply(updates: map<nat, nat>) returns (out: Outcome)
      modifies this
      ensures runs == if TookEffect(out) then old(runs) + updates else old(runs)
      ensures errors == old(errors) + Errors(out)
    {
      out := AnyOutcome();
      if TookEffect(out) {
        runs := runs + updates;
      }
      errors := errors + Errors(out);
    }
  }

  /** The status updates for a page of runs, and their ids. */
  method BuildUpdates(page: seq<nat>, rows: map<nat, Row>) returns (updates: map<nat, nat>, ids: seq<nat>)
    requires forall id <- page :: id in rows
    ensures updates == Contents(rows, page) && updates.Keys == Elements(page) && ids == page
  {
    updates, ids := map[], [];
    for i := 0 to |page|
      invariant ids == page[..i] && updates == Contents(rows, page[..i])
    {
      assert page[..i + 1] == page[..i] + [page[i]] && page[i] in page;
      updates := updates[page[i] := rows[page[i]].content];
      ids := ids + [page[i]];
    }
    assert page[..|page|] == page;
  }

  /** A page that was fetched is posted and, if that succeeds, marked. */
  method PostAndMark(table: RunTable, butler: Butler, page: seq<nat>, updates: map<nat, nat>, ghost s: State)
    returns (ok: bool, ghost trace: seq<Action>, ghost t: State)
    requires s == State(table.rows, butler.runs, table.now, Fetched(updates)) && updates.Keys == Elements(page)
    modifies table, butler
    ensures Exec(s, trace) == Some(t) && t == State(table.rows, butler.runs, table.now, Idle)
    ensures ok <==> table.errors == old(table.errors) && butler.errors == old(butler.errors)
    ensures table.errors >= old(table.errors) && butler.errors >= old(butler.errors)
    ensures ok ==> butler.runs == old(butler.runs) + updates
    ensures ok ==> table.rows == Stamped(old(table.rows), Elements(page), table.now)
  {
    var posted := butler.Apply(updates);
    t := Step(s, Post(posted)).value;
    Runs.ExecOne(Step, s, [], s, Post(posted), t);
    trace := [] + [Post(posted)];
    if !posted.Success? {
      return false, trace, t;
    }
    ghost var before := t;
    var marked := table.MarkSynced(page);
    t := Step(before, Mark(marked, table.now)).value;
    Runs.ExecOne(Step, s, trace, before, Mark(marked, table.now), t);
    trace := trace + [Mark(marked, table.now)];
    ok := marked.Success?;
  }

  /** In terms of the rows: the oldest open page is with Butler as it was, and stamped; nothing else has changed. */
  ghost predicate Reported(rows0: map<nat, Row>, rows: map<nat, Row>, runs0: map<nat, nat>, runs: map<nat, nat>,
                           page: seq<nat>, now: int)
  {
    && OldestOpen(rows0, page)
    && (forall id :: id in runs <==> id in runs0 || id in page)
    && (forall id <- runs :: runs[id] == if id in page then rows0[id].content else runs0[id])
    && rows.Keys == rows0.Keys
    && forall id <- rows :: rows[id] == if id in page then rows0[id].(syncedAt := Some(now)) else rows0[id]
  }

  lemma PageIsReported(rows0: map<nat, Row>, runs0: map<nat, nat>, page: seq<nat>, now: int)
    requires OldestOpen(rows0, page)
    ensures Reported(rows0, Stamped(rows0, Elements(page), now), runs0, runs0 + Contents(rows0, page), page, now)
  {
  }

  /**
   One tick of `flushReplayRuns`: a page is fetched, posted and marked; any error ends the tick, and `ok` tells
   that there was none.
   */
  method FlushRuns(table: RunTable, butler: Butler, ghost s: State)
    returns (ok: bool, ghost page: seq<nat>, ghost trace: seq<Action>, ghost t: State)
    requires s.rows == table.rows && s.now == table.now && s.butler == butler.runs && s.phase.Idle?
    modifies table, butler
    ensures Exec(s, trace) == Some(t) && t == State(table.rows, butler.runs, table.now, Idle)
    ensures ok <==> table.errors == old(table.errors) && butler.errors == old(butler.errors)
    ensures ok ==>
      && IsPage(page, UnsyncedIds(old(table.rows)), UpdateTimes(old(table.rows)), BATCH_SIZE)
      && Reported(old(table.rows), table.rows, old(butler.runs), butler.runs, page, table.now)
  {
    trace, t, page, ok := [], s, [], false;
    var fetched := table.FetchUnsynced(BATCH_SIZE);
    if fetched.Err? {
      return;
    }
    page := fetched.value;
    PageIsReported(table.rows, butler.runs, page, table.now);
    if |fetched.value| == 0 {
      ok := true;
      return;
    }
    var updates, ids := BuildUpdates(fetched.value, table.rows);
    ghost var m := s.(phase := Fetched(updates));
    Runs.ExecOne(Step, s, [], s, Fetch(page), m);
    ghost var rest;
    ghost var rows0, runs0 := table.rows, butler.runs;
    ok, rest, t := PostAndMark(table, butler, ids, updates, m);
    Runs.ExecJoin(Step, s, [] + [Fetch(page)], m, rest, t);
    trace := [] + [Fetch(page)] + rest;
    if ok {
      PageIsReported(rows0, runs0, page, table.now);
    }
  }
}
