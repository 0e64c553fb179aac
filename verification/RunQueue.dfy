/**
 The local queue of replay runs: Butler delivers a run, possibly many times; workers claim the oldest
 pending one in a transaction that locks its row; status updates follow. Eval runs are kept in a table
 of the same shape by statements of the same form.

 A worker's transaction is two steps here, the locking select and the commit, so transactions of
 several workers overlap. Statements on a locked row wait, that is, they are not possible until the
 lock is gone.
 */
module RunQueue {
  import Runs
  import opened Wrappers
  import opened Pages

  datatype Status = Pending | Running | Completed | Failed | Other(name: string)

  /** `spec` stands for the columns Butler owns, `summary` for the metrics of a finished run. */
  datatype Run = Run(status: Status, createdAt: int, spec: nat, updatedAt: int,
                     startedAt: Option<int>, completedAt: Option<int>, error: Option<string>, summary: Option<nat>)

  type Worker = nat

  datatype State = State(
    runs: map<nat, Run>,
    locks: map<Worker, nat>,   // open claim transactions and the row each has locked
    claims: map<nat, nat>,     // history: committed claims per run
    reopened: map<nat, nat>)   // history: status updates that put a started run back to pending

  datatype Action =
    | Deliver(id: nat, status: Status, createdAt: Option<int>, spec: nat, now: int)
    | Select(w: Worker, id: nat)
    | Commit(w: Worker, out: Outcome, now: int)
    | Rollback(w: Worker)
    | SetStatus(id: nat, status: Status, error: Option<string>, now: int)
    | SetSummary(id: nat, summary: nat, now: int)

  const EMPTY := State(map[], map[], map[], map[])

  function Count(m: map<nat, nat>, id: nat): nat {
    if id in m then m[id] else 0
  }

  function CreationTimes(runs: map<nat, Run>): map<nat, int> {
    map id <- runs.Keys :: runs[id].createdAt
  }

  function Locked(locks: map<Worker, nat>): set<nat> {
    set w <- locks.Keys :: locks[w]
  }

  /** What `WHERE status = 'pending' ... FOR UPDATE SKIP LOCKED` ranges over. */
  function Claimable(s: State): set<nat> {
    set id <- s.runs.Keys | s.runs[id].status == Pending && id !in Locked(s.locks)
  }

  /** `UpsertReplayRun`: a first delivery inserts, a redelivery refreshes only Butler's columns. */
  function Upserted(runs: map<nat, Run>, id: nat, status: Status, createdAt: Option<int>, spec: nat, now: int): Run {
    if id in runs then runs[id].(spec := spec, updatedAt := now)
    else Run(status, if createdAt.Some? then createdAt.value else now, spec, now, None, None, None, None)
  }

  function Started(run: Run, now: int): Run {
    run.(status := Running, startedAt := Some(now), updatedAt := now)
  }

  /** The four branches of `UpdateReplayRunStatus`. */
  function WithStatus(run: Run, status: Status, error: Option<string>, now: int): Run {
    match status
    case Running => Started(run, now)
    case Completed => run.(status := Completed, completedAt := Some(now), updatedAt := now)
    case Failed => run.(status := Status.Failed, error := error, completedAt := Some(now), updatedAt := now)
    case _ => run.(status := status, updatedAt := now)
  }

  ghost function Step(s: State, a: Action): Option<State> {
    match a
    case Deliver(id, status, createdAt, spec, now) =>
      if id in Locked(s.locks) then None
      else Some(s.(runs := s.runs[id := Upserted(s.runs, id, status, createdAt, spec, now)]))
    case Select(w, id) =>
      if w !in s.locks && IsPage([id], Claimable(s), CreationTimes(s.runs), 1)
      then Some(s.(locks := s.locks[w := id])) else None
    case Commit(w, out, now) =>
      if w !in s.locks || s.locks[w] !in s.runs then None
      else
        var id := s.locks[w];
        var unlocked := s.(locks := s.locks - {w});
        if TookEffect(out) then
          Some(unlocked.(runs := s.runs[id := Started(s.runs[id], now)],
                                claims := s.claims[id := Count(s.claims, id) + 1]))
        else Some(unlocked)
    case Rollback(w) =>
      Some(s.(locks := s.locks - {w}))
    case SetStatus(id, status, error, now) =>
      if id !in s.runs || id in Locked(s.locks) then None
      else
        var t := s.(runs := s.runs[id := WithStatus(s.runs[id], status, error, now)]);
        if Reopens(s, a) then Some(t.(reopened := s.reopened[id := Count(s.reopened, id) + 1])) else Some(t)
    case SetSummary(id, summary, now) =>
      if id !in s.runs || id in Locked(s.locks) then None
      else Some(s.(runs := s.runs[id := s.runs[id].(summary := Some(summary), updatedAt := now)]))
  }

  /** A status update that takes a run which is no longer pending back to pending. */
  predicate Reopens(s: State, a: Action) {
    a.SetStatus? && a.status == Pending && a.id in s.runs && s.runs[a.id].status != Pending
  }

  ghost function Exec(s: State, actions: seq<Action>): Option<State> {
    Runs.Exec(Step, s, actions)
  }

  // ---- At most one claim ------------------------------------------------------------------------

  /** Two transactions never hold the same row, and a held row is pending. */
  ghost predicate Exclusive(s: State) {
    && (forall v, w :: v in s.locks && w in s.locks && v != w ==> s.locks[v] != s.locks[w])
    && (forall w <- s.locks.Keys :: s.locks[w] in s.runs && s.runs[s.locks[w]].status == Pending)
  }

  /** Each claim beyond the first has been paid for by a reopening. */
  ghost predicate ClaimsCovered(s: State) {
    forall id: nat :: Covered(s, id)
  }

  ghost predicate Inv(s: State) {
    Exclusive(s) && ClaimsCovered(s)
  }

  ghost predicate Covered(s: State, id: nat) {
    Count(s.claims, id) <= Count(s.reopened, id) + (if id in s.runs && s.runs[id].status != Pending then 1 else 0)
  }

  /** What the invariant needs of a step on the rows: locked rows stay pending, and no claim goes uncovered. */
  lemma KeptByRows(s: State, t: State)
    requires Inv(s) && t.locks == s.locks
    requires forall w <- s.locks.Keys :: s.locks[w] in t.runs && t.runs[s.locks[w]].status == Pending
    requires forall id: nat :: Covered(s, id) ==> Covered(t, id)
    ensures Inv(t)
  {
    forall id: nat
      ensures Covered(t, id)
    {
      assert Covered(s, id);
    }
  }

  lemma SameClaims(s: State, t: State)
    requires ClaimsCovered(s) && t.runs == s.runs && t.claims == s.claims && t.reopened == s.reopened
    ensures ClaimsCovered(t)
  {
    forall id: nat
      ensures Covered(t, id)
    {
      assert Covered(s, id);
    }
  }

  lemma CommitKeeps(s: State, a: Action, t: State)
    requires a.Commit? && Inv(s) && Step(s, a) == Some(t)
    ensures Inv(t)
  {
    var id := s.locks[a.w];
    forall other: nat
      ensures Covered(t, other)
    {
      assert Covered(s, other);
    }
  }

  lemma SelectKeeps(s: State, a: Action, t: State)
    requires a.Select? && Inv(s) && Step(s, a) == Some(t)
    ensures Inv(t)
  {
    assert a.id in [a.id] && a.id in Claimable(s);
    assert forall v <- s.locks.Keys :: s.locks[v] in Locked(s.locks);
    SameClaims(s, t);
  }

  lemma RollbackKeeps(s: State, a: Action, t: State)
    requires a.Rollback? && Inv(s) && Step(s, a) == Some(t)
    ensures Inv(t)
  {
    SameClaims(s, t);
  }

  lemma DeliverKeeps(s: State, a: Action, t: State)
    requires a.Deliver? && Inv(s) && Step(s, a) == Some(t)
    ensures Inv(t)
  {
    assert forall v <- s.locks.Keys :: s.locks[v] in Locked(s.locks);
    KeptByRows(s, t);
  }

  lemma SetStatusKeeps(s: State, a: Action, t: State)
    requires a.SetStatus? && Inv(s) && Step(s, a) == Some(t)
    ensures Inv(t)
  {
    assert forall v <- s.locks.Keys :: s.locks[v] in Locked(s.locks);
    KeptByRows(s, t);
  }

  lemma SetSummaryKeeps(s: State, a: Action, t: State)
    requires a.SetSummary? && Inv(s) && Step(s, a) == Some(t)
    ensures Inv(t)
  {
    assert forall v <- s.locks.Keys :: s.locks[v] in Locked(s.locks);
    KeptByRows(s, t);
  }

  lemma StepKeeps(s: State, a: Action, t: State)
    requires Inv(s) && Step(s, a) == Some(t)
    ensures Inv(t)
  {
    match a
    case Commit(_, _, _) => CommitKeeps(s, a, t);
    case Select(_, _) => SelectKeeps(s, a, t);
    case Rollback(_) => RollbackKeeps(s, a, t);
    case Deliver(_, _, _, _, _) => DeliverKeeps(s, a, t);
    case SetStatus(_, _, _, _) => SetStatusKeeps(s, a, t);
    case SetSummary(_, _, _) => SetSummaryKeeps(s, a, t);
  }

  lemma {:induction false} RunKeeps(s: State, actions: seq<Action>, t: State)
    requires Inv(s) && Exec(s, actions) == Some(t)
    ensures Inv(t)
    decreases |actions|
  {
    if actions == [] {
    } else {
      var n := |actions| - 1;
      RunKeeps(s, actions[..n], Exec(s, actions[..n]).value);
      StepKeeps(Exec(s, actions[..n]).value, actions[n], t);
    }
  }

  /**
   Main result, without any assumption on who updates statuses: a run has at most one committed claim
   more than it has been put back to pending, however often it is redelivered and however many workers
   claim, roll back or lose the answer to their commit.
   */
  lemma ClaimsAreBounded(actions: seq<Action>, s: State)
    requires Exec(EMPTY, actions) == Some(s)
    ensures forall id: nat :: Count(s.claims, id) <= 1 + Count(s.reopened, id)
    ensures forall v, w :: v in s.locks && w in s.locks && v != w ==> s.locks[v] != s.locks[w]
  {
    RunKeeps(EMPTY, actions, s);
    forall id: nat
      ensures Count(s.claims, id) <= 1 + Count(s.reopened, id)
    {
      assert Covered(s, id);
    }
  }

  /** What the two histories count: status updates that reopen the run, and commits of claims that took effect. */
  lemma HistoriesCount(s: State, a: Action, t: State, id: nat)
    requires Step(s, a) == Some(t)
    ensures Count(t.reopened, id) == Count(s.reopened, id)
      + if a.SetStatus? && a.id == id && a.status == Pending && s.runs[id].status != Pending then 1 else 0
    ensures Count(t.claims, id) == Count(s.claims, id)
      + if a.Commit? && TookEffect(a.out) && s.locks[a.w] == id then 1 else 0
  {
  }

  // ---- Statuses only advance --------------------------------------------------------------------

  /** pending, then running, then completed or failed. */
  predicate Precedes(a: Status, b: Status) {
    a == b || (a == Pending && (b == Running || b == Completed || b == Status.Failed))
           || (a == Running && (b == Completed || b == Status.Failed))
  }

  /** Callers of the status update never write an earlier status. */
  predicate Lawful(s: State, a: Action) {
    a.SetStatus? && a.id in s.runs ==> Precedes(s.runs[a.id].status, a.status)
  }

  ghost predicate LawfulRun(s: State, actions: seq<Action>) {
    actions != [] ==>
      var n := |actions| - 1;
      LawfulRun(s, actions[..n]) && Exec(s, actions[..n]).Some? && Lawful(Exec(s, actions[..n]).value, actions[n])
  }

  lemma StepAdvances(s: State, a: Action, t: State)
    requires Inv(s) && Lawful(s, a) && Step(s, a) == Some(t)
    ensures forall id <- s.runs.Keys :: id in t.runs && Precedes(s.runs[id].status, t.runs[id].status)
                                        && t.runs[id].createdAt == s.runs[id].createdAt
    ensures forall id: nat :: Count(t.reopened, id) == Count(s.reopened, id)
  {
  }

  /**
   In a run whose status updates never go back, every run only moves pending -> running -> completed or
   failed, keeps its creation time, and gains at most one claim in its whole life.
   */
  lemma {:induction false} StatusesOnlyAdvance(s: State, actions: seq<Action>, t: State)
    requires Inv(s) && LawfulRun(s, actions) && Exec(s, actions) == Some(t)
    ensures Inv(t)
    ensures forall id <- s.runs.Keys :: id in t.runs && Precedes(s.runs[id].status, t.runs[id].status)
                                        && t.runs[id].createdAt == s.runs[id].createdAt
    ensures forall id <- s.runs.Keys ::
      && (s.runs[id].status != Pending ==> t.runs[id].status != Pending)
      && (s.runs[id].status == Running ==> t.runs[id].status in {Running, Completed, Status.Failed})
      && (s.runs[id].status in {Completed, Status.Failed} ==> t.runs[id].status == s.runs[id].status)
    ensures forall id: nat :: Count(t.reopened, id) == Count(s.reopened, id)
    decreases |actions|
  {
    if actions == [] {
    } else {
      var n := |actions| - 1;
      var before := Exec(s, actions[..n]).value;
      StatusesOnlyAdvance(s, actions[..n], before);
      StepAdvances(before, actions[n], t);
      StepKeeps(before, actions[n], t);
    }
  }

  lemma AtMostOneClaim(actions: seq<Action>, s: State)
    requires LawfulRun(EMPTY, actions) && Exec(EMPTY, actions) == Some(s)
    ensures forall id: nat :: Count(s.claims, id) <= 1
  {
    StatusesOnlyAdvance(EMPTY, actions, s);
    ClaimsAreBounded(actions, s);
  }

  /**
   A claim whose commit reported an error may still have started the run. No worker holds it then, and
   none will ever be offered it again: at most once, not at least once.
   */
  lemma StartedRunsAreNeverSelected(s: State, actions: seq<Action>, t: State, w: Worker, id: nat)
    requires Inv(s) && id in s.runs && s.runs[id].status != Pending
    requires LawfulRun(s, actions) && Exec(s, actions) == Some(t)
    ensures Step(t, Select(w, id)) == None
  {
    StatusesOnlyAdvance(s, actions, t);
    assert id in [id] && id !in Claimable(t);
  }

  /** Nobody puts a run back to pending. */
  ghost predicate NoReopening(actions: seq<Action>) {
    forall a <- actions :: a.SetStatus? ==> a.status != Pending
  }

  ghost predicate ClaimsAgain(s: State, rest: seq<Action>, t: State, id: nat) {
    Exec(s, rest) == Some(t) && NoReopening(rest) && Count(t.claims, id) > Count(s.claims, id)
  }

  /**
   Exactly which runs are claimed, or claimed once more, in some continuation in which nobody puts runs back to
   pending: those that are pending now. So a claimed run that was put back can always be claimed a second time.
   */
  lemma ClaimedAgainExactlyWhenPending(actions: seq<Action>, s: State, id: nat)
    requires Exec(EMPTY, actions) == Some(s) && id in s.runs
    ensures (exists rest, t :: ClaimsAgain(s, rest, t, id)) <==> s.runs[id].status == Pending
  {
    RunKeeps(EMPTY, actions, s);
    if s.runs[id].status == Pending {
      var release, m := ReleaseAll(s);
      var claims, t := ClaimDownTo(m, id);
      Runs.ExecJoin(Step, s, release, m, claims, t);
      assert ClaimsAgain(s, release + claims, t, id);
    } else {
      forall rest, t | Exec(s, rest) == Some(t) && NoReopening(rest)
        ensures !ClaimsAgain(s, rest, t, id)
      {
        StartedStaysStarted(s, rest, t, id);
      }
    }
  }

  lemma {:induction false} StartedStaysStarted(s: State, rest: seq<Action>, t: State, id: nat)
    requires Inv(s) && id in s.runs && s.runs[id].status != Pending
    requires Exec(s, rest) == Some(t) && NoReopening(rest)
    ensures Inv(t) && id in t.runs && t.runs[id].status != Pending && Count(t.claims, id) == Count(s.claims, id)
    decreases |rest|
  {
    if rest == [] {
    } else {
      var n := |rest| - 1;
      var m := Exec(s, rest[..n]).value;
      assert rest[n] in rest;
      StartedStaysStarted(s, rest[..n], m, id);
      StepKeeps(m, rest[n], t);
      StepKeepsStarted(m, rest[n], t, id);
    }
  }

  lemma StepKeepsStarted(s: State, a: Action, t: State, id: nat)
    requires Inv(s) && id in s.runs && s.runs[id].status != Pending && Step(s, a) == Some(t)
    requires a.SetStatus? ==> a.status != Pending
    ensures id in t.runs && t.runs[id].status != Pending && Count(t.claims, id) == Count(s.claims, id)
  {
  }

  /** Every open transaction rolls back. */
  lemma {:induction false} ReleaseAll(s: State) returns (actions: seq<Action>, t: State)
    ensures Exec(s, actions) == Some(t) && NoReopening(actions) && t == s.(locks := map[])
    decreases |s.locks|
  {
    if s.locks == map[] {
      actions, t := [], s;
    } else {
      var w :| w in s.locks;
      var m := s.(locks := s.locks - {w});
      MapDropSize(s.locks, w);
      var rest;
      rest, t := ReleaseAll(m);
      Runs.ExecCons(Step, s, Rollback(w), m, rest);
      actions := [Rollback(w)] + rest;
    }
  }

  /** Oldest first, pending runs are claimed until it is this one's turn. */
  lemma {:induction false} ClaimDownTo(s: State, id: nat) returns (actions: seq<Action>, t: State)
    requires s.locks == map[] && id in s.runs && s.runs[id].status == Pending
    ensures Exec(s, actions) == Some(t) && NoReopening(actions) && Count(t.claims, id) > Count(s.claims, id)
    decreases |Claimable(s)|
  {
    assert id in Claimable(s);
    var oldest := LeastExists(Claimable(s), CreationTimes(s.runs));
    if s.runs[id].createdAt <= s.runs[oldest].createdAt {
      oldest := id;
    }
    assert forall other <- s.runs.Keys :: s.runs[other].status == Pending ==> other in Claimable(s);
    var m := ClaimRuns(s, 0, oldest, Success, 0);
    actions, t := [] + [Select(0, oldest)] + [Commit(0, Success, 0)], m;
    if oldest == id {
    } else {
      assert Claimable(m) == Claimable(s) - {oldest};
      var more;
      more, t := ClaimDownTo(m, id);
      Runs.ExecJoin(Step, s, actions, m, more, t);
      actions := actions + more;
    }
  }

  // ---- Redelivery -------------------------------------------------------------------------------

  /** A redelivered job leaves what the worker wrote: status, times, error and summary. */
  lemma RedeliveryKeepsProgress(s: State, a: Action, t: State)
    requires a.Deliver? && a.id in s.runs && Step(s, a) == Some(t)
    ensures t.runs[a.id] == s.runs[a.id].(spec := a.spec, updatedAt := a.now)
    ensures t.claims == s.claims && t.locks == s.locks
    ensures forall other <- s.runs.Keys :: other != a.id ==> t.runs[other] == s.runs[other]
    ensures Claimable(t) == Claimable(s)
  {
  }

  // ---- The repository ---------------------------------------------------------------------------

  lemma ClaimRuns(s: State, w: Worker, id: nat, out: Outcome, now: int) returns (t: State)
    requires s.locks == map[] && id in s.runs && s.runs[id].status == Pending
    requires forall other <- s.runs.Keys :: s.runs[other].status == Pending ==>
      s.runs[id].createdAt <= s.runs[other].createdAt
    ensures Exec(s, [] + [Select(w, id)] + [Commit(w, out, now)]) == Some(t) && t.locks == map[]
    ensures t.runs == if TookEffect(out) then s.runs[id := Started(s.runs[id], now)] else s.runs
    ensures t.claims == if TookEffect(out) then s.claims[id := Count(s.claims, id) + 1] else s.claims
  {
    var held := s.(locks := s.locks[w := id]);
    assert id in Claimable(s) && |Claimable(s)| >= 1 by {
      assert Claimable(s) >= {id};
      SubsetIsNoLarger({id}, Claimable(s));
    }
    assert IsPage([id], Claimable(s), CreationTimes(s.runs), 1);
    Runs.ExecOne(Step, s, [], s, Select(w, id), held);
    t := Step(held, Commit(w, out, now)).value;
    Runs.ExecOne(Step, s, [] + [Select(w, id)], held, Commit(w, out, now), t);
    assert t.locks == map[];
  }

  datatype Claimed = NoWork | Error | Got(id: nat, run: Run)

  /** The end of a claim transaction that has locked `id`, and nothing of the row has changed since. */
  lemma CommitRuns(s: State, w: Worker, out: Outcome, now: int) returns (t: State)
    requires Inv(s) && w in s.locks
    ensures Step(s, Commit(w, out, now)) == Some(t) && Inv(t) && t.locks == s.locks - {w}
    ensures t.runs == if TookEffect(out) then s.runs[s.locks[w] := Started(s.runs[s.locks[w]], now)] else s.runs
    ensures s.locks[w] !in Locked(t.locks)
  {
    t := Step(s, Commit(w, out, now)).value;
    StepKeeps(s, Commit(w, out, now), t);
    if TookEffect(out) {
      assert t.runs[s.locks[w]].status == Running;
    }
    forall v | v in t.locks
      ensures t.locks[v] != s.locks[w]
    {
    }
  }

  lemma RollbackRuns(s: State, w: Worker) returns (t: State)
    requires Inv(s) && w in s.locks
    ensures Step(s, Rollback(w)) == Some(t) && Inv(t) && t == s.(locks := s.locks - {w})
    ensures s.locks[w] !in Locked(t.locks)
  {
    t := Step(s, Rollback(w)).value;
    StepKeeps(s, Rollback(w), t);
    forall v | v in t.locks
      ensures t.locks[v] != s.locks[w]
    {
    }
  }

  /** Transactions that end: what a statement on a locked row waits for. */
  ghost predicate OnlyEnds(actions: seq<Action>) {
    forall a <- actions :: a.Commit? || a.Rollback?
  }

  /** A pending row that no transaction holds. */
  ghost predicate IsFree(runs: map<nat, Run>, locks: map<Worker, nat>, id: nat) {
    id in runs && runs[id].status == Pending && forall w <- locks :: locks[w] != id
  }

  class ReplayRepository {
    var runs: map<nat, Run>
    /** The rows locked by open claim transactions, of any worker. */
    var locks: map<Worker, nat>
    ghost var state: State
    /** Failed statements of this caller. */
    ghost var failures: nat

    ghost predicate Valid()
      reads this
    {
      Inv(state) && state.runs == runs && state.locks == locks
    }

    constructor ()
      ensures Valid() && state == EMPTY && failures == 0
    {
      runs, locks, state, failures := map[], map[], EMPTY, 0;
    }

    /** A statement on a locked row waits until the transaction that holds it has committed or rolled back. */
    method Wait(id: nat) returns (ghost trace: seq<Action>)
      requires Valid()
      modifies `runs, `locks, `state
      ensures Valid() && Exec(old(state), trace) == Some(state) && OnlyEnds(trace)
      ensures id !in Locked(locks) && (id !in Locked(old(locks)) ==> trace == [])
      ensures runs.Keys == old(runs).Keys && forall other <- runs :: other != id ==> runs[other] == old(runs)[other]
    {
      trace := [];
      if id !in Locked(locks) {
        return;
      }
      var w :| w in locks && locks[w] == id;
      var commits := *;
      if commits {
        var now: int := *;
        ghost var t := CommitRuns(state, w, Success, now);
        Runs.ExecOne(Step, state, [], state, Commit(w, Success, now), t);
        trace := [] + [Commit(w, Success, now)];
        runs, locks, state := runs[id := Started(runs[id], now)], locks - {w}, t;
      } else {
        ghost var t := RollbackRuns(state, w);
        Runs.ExecOne(Step, state, [], state, Rollback(w), t);
        trace := [] + [Rollback(w)];
        locks, state := locks - {w}, t;
      }
    }

    /** The statement on a row that nobody holds. */
    method InsertOrRefresh(id: nat, status: Status, createdAt: Option<int>, spec: nat, now: int,
                           ghost start: State, ghost before: seq<Action>)
      returns (ghost trace: seq<Action>)
      requires Valid() && id !in Locked(locks) && Exec(start, before) == Some(state)
      modifies `runs, `state
      ensures Valid() && Exec(start, trace) == Some(state)
      ensures id in runs && runs == old(runs)[id := runs[id]] && runs[id].spec == spec && runs[id].updatedAt == now
      ensures id !in old(runs) ==>
        && runs[id].status == status && runs[id].createdAt == (if createdAt.Some? then createdAt.value else now)
        && runs[id].startedAt.None? && runs[id].completedAt.None? && runs[id].error.None? && runs[id].summary.None?
      ensures id in old(runs) ==>
        runs[id] == old(runs)[id].(spec := runs[id].spec, updatedAt := runs[id].updatedAt)
    {
      ghost var a := Deliver(id, status, createdAt, spec, now);
      ghost var t := Step(state, a).value;
      StepKeeps(state, a, t);
      Runs.ExecOne(Step, start, before, state, a, t);
      trace := before + [a];
      runs, state := runs[id := Upserted(runs, id, status, createdAt, spec, now)], t;
    }

    /** `seen` is the state in which the statement ran, after what it had to wait for. */
    method UpsertReplayRun(id: nat, status: Status, createdAt: Option<int>, spec: nat, now: int)
      returns (out: Outcome, ghost seen: State, ghost trace: seq<Action>)
      requires Valid()
      modifies this
      ensures Valid() && Exec(old(state), trace) == Some(state)
      ensures (id !in Locked(old(locks)) ==> seen == old(state)) && seen.runs.Keys == old(runs).Keys
      ensures !TookEffect(out) ==> runs == seen.runs
      ensures TookEffect(out) ==> runs.Keys == seen.runs.Keys + {id}
      ensures TookEffect(out) ==> runs[id].spec == spec && runs[id].updatedAt == now
      ensures forall other <- seen.runs :: other != id ==> runs[other] == seen.runs[other]
      // A first delivery is what Butler sent; nothing has happened to the run yet.
      ensures TookEffect(out) && id !in old(runs) ==>
        && runs[id].status == status && runs[id].createdAt == (if createdAt.Some? then createdAt.value else now)
        && runs[id].startedAt.None? && runs[id].completedAt.None? && runs[id].error.None? && runs[id].summary.None?
      ensures TookEffect(out) && id !in old(runs) && status == Pending ==>
        IsFree(runs, locks, id) && id in Claimable(state)
      // A redelivery leaves the rest.
      ensures TookEffect(out) && id in old(runs) ==>
        runs[id] == seen.runs[id].(spec := runs[id].spec, updatedAt := runs[id].updatedAt)
      ensures failures == old(failures) + if out.Success? then 0 else 1
    {
      trace := Wait(id);
      seen := state;
      out := AnyOutcome();
      if TookEffect(out) {
        trace := InsertOrRefresh(id, status, createdAt, spec, now, old(state), trace);
      }
      if !out.Success? {
        failures := failures + 1;
      }
    }

    /** The locking select: the oldest pending row that no transaction holds, if there is one. */
    method SelectOldestPending() returns (oldest: Option<nat>)
      requires Valid()
      ensures oldest.None? ==> forall id <- runs :: !IsFree(runs, locks, id)
      ensures oldest.Some? ==> oldest.value in Claimable(state)
      ensures oldest.Some? ==> IsPage([oldest.value], Claimable(state), CreationTimes(runs), 1)
      ensures oldest.Some? ==>
        && oldest.value in runs && IsFree(runs, locks, oldest.value)
        && forall id <- runs :: IsFree(runs, locks, id) ==> runs[oldest.value].createdAt <= runs[id].createdAt
    {
      var pending := set id <- runs.Keys | runs[id].status == Pending && id !in Locked(locks);
      assert pending == Claimable(state);
      assert forall id <- runs :: id in pending <==> IsFree(runs, locks, id);
      var page := SelectPage(pending, CreationTimes(runs), 1);
      if |page| == 0 {
        return None;
      }
      var id := page[0];
      assert page == [id] && id in page;
      forall other | other in pending
        ensures runs[id].createdAt <= runs[other].createdAt
      {
        assert other in page <==> other == id;
      }
      oldest := Some(id);
    }

    /** Another worker begins or ends a claim. */
    method OtherStep(other: Worker) returns (ghost trace: seq<Action>)
      requires Valid()
      modifies `runs, `locks, `state
      ensures Valid() && Exec(old(state), trace) == Some(state)
      ensures forall w <- old(locks) :: w != other ==>
        && w in locks && locks[w] == old(locks)[w]
        && locks[w] in runs && locks[w] in old(runs) && runs[locks[w]] == old(runs)[locks[w]]
    {
      trace := [];
      if other !in locks {
        var oldest := SelectOldestPending();
        if oldest.Some? {
          ghost var t := Step(state, Select(other, oldest.value)).value;
          StepKeeps(state, Select(other, oldest.value), t);
          Runs.ExecOne(Step, state, [], state, Select(other, oldest.value), t);
          trace := [] + [Select(other, oldest.value)];
          locks, state := locks[other := oldest.value], t;
        }
      } else {
        var now: int, commits: bool := *, *;
        ghost var t := CommitRuns(state, other, if commits then Success else Failure(false), now);
        ghost var a := Commit(other, if commits then Success else Failure(false), now);
        Runs.ExecOne(Step, state, [], state, a, t);
        trace := [] + [a];
        runs := if commits then runs[locks[other] := Started(runs[locks[other]], now)] else runs;
        locks, state := locks - {other}, t;
      }
    }

    /** Other workers run while this one holds its lock; none of them gets at its row. */
    method OthersRun(w: Worker) returns (ghost trace: seq<Action>)
      requires Valid() && w in locks
      modifies `runs, `locks, `state
      ensures Valid() && Exec(old(state), trace) == Some(state)
      ensures w in locks && locks[w] == old(locks)[w] && locks[w] in runs && runs[locks[w]] == old(runs)[old(locks)[w]]
    {
      trace := [];
      var rounds: nat :| true;
      for i := 0 to rounds
        invariant Valid() && Exec(old(state), trace) == Some(state)
        invariant w in locks && locks[w] == old(locks)[w] && runs[locks[w]] == old(runs)[old(locks)[w]]
      {
        var other: Worker :| true;
        if other != w {
          ghost var before := state;
          ghost var more := OtherStep(other);
          Runs.ExecJoin(Step, old(state), trace, before, more, state);
          trace := trace + more;
        }
      }
    }

    /**
     One worker's transaction, among those of others: it locks the oldest pending run that nobody holds, starts
     it and commits. There is no work exactly if there was no such run, and an error exactly if a statement failed.
     */
    method ClaimPendingReplayRun(w: Worker, now: int) returns (r: Claimed, ghost trace: seq<Action>)
      requires Valid() && w !in locks
      modifies this
      ensures Valid() && Exec(old(state), trace) == Some(state) && w !in locks
      ensures r == Error <==> failures > old(failures)
      ensures r == NoWork ==> state == old(state) && forall id <- old(runs) :: !IsFree(old(runs), old(locks), id)
      ensures r.Got? ==>
        && r.id in old(runs) && IsFree(old(runs), old(locks), r.id) && r.id in runs
        && (forall id <- old(runs) ::
              IsFree(old(runs), old(locks), id) ==> old(runs)[r.id].createdAt <= old(runs)[id].createdAt)
        && runs[r.id] == old(runs)[r.id].(status := Running, startedAt := Some(now), updatedAt := now)
        && r.run == old(runs)[r.id].(status := Running)
    {
      trace := [];
      var failed: bool := *;
      if failed {
        failures := failures + 1;
        return Error, trace;
      }
      var oldest := SelectOldestPending();
      if oldest.None? {
        return NoWork, trace;
      }
      var id, run := oldest.value, runs[oldest.value];
      ghost var t := Step(state, Select(w, id)).value;
      StepKeeps(state, Select(w, id), t);
      Runs.ExecOne(Step, state, [], state, Select(w, id), t);
      trace := [] + [Select(w, id)];
      locks, state := locks[w := id], t;
      ghost var held := state;
      ghost var more := OthersRun(w);
      Runs.ExecJoin(Step, old(state), trace, held, more, state);
      trace := trace + more;
      var out := CommitClaim(w, id, now, old(state), trace);
      trace := trace + [Commit(w, out, now)];
      r := if out.Success? then Got(id, run.(status := Running)) else Error;
    }

    /** The update of the locked row and the commit. */
    method CommitClaim(w: Worker, id: nat, now: int, ghost start: State, ghost before: seq<Action>)
      returns (out: Outcome)
      requires Valid() && w in locks && locks[w] == id && id in runs && Exec(start, before) == Some(state)
      modifies this
      ensures Valid() && Exec(start, before + [Commit(w, out, now)]) == Some(state) && locks == old(locks) - {w}
      ensures runs == if TookEffect(out) then old(runs)[id := Started(old(runs)[id], now)] else old(runs)
      ensures failures == old(failures) + if out.Success? then 0 else 1
    {
      out := AnyOutcome();
      ghost var t := CommitRuns(state, w, out, now);
      Runs.ExecOne(Step, start, before, state, Commit(w, out, now), t);
      if TookEffect(out) {
        runs := runs[id := Started(runs[id], now)];
      }
      if !out.Success? {
        failures := failures + 1;
      }
      locks, state := locks - {w}, t;
    }

    /** The columns that the four branches set. */
    method StatusColumns(run: Run, status: Status, error: Option<string>, now: int) returns (r: Run)
      ensures r == WithStatus(run, status, error, now)
    {
      match status {
        case Running => r := run.(status := status, startedAt := Some(now), updatedAt := now);
        case Completed => r := run.(status := status, completedAt := Some(now), updatedAt := now);
        case Failed => r := run.(status := status, error := error, completedAt := Some(now), updatedAt := now);
        case _ => r := run.(status := status, updatedAt := now);
      }
    }

    /** The update of an existing row that nobody holds. */
    method SetColumns(id: nat, status: Status, error: Option<string>, now: int, ghost start: State,
                      ghost before: seq<Action>)
      returns (ghost trace: seq<Action>)
      requires Valid() && id in runs && id !in Locked(locks) && Exec(start, before) == Some(state)
      modifies `runs, `state
      ensures Valid() && Exec(start, trace) == Some(state)
      ensures runs == old(runs)[id := WithStatus(old(runs)[id], status, error, now)]
    {
      var run := StatusColumns(runs[id], status, error, now);
      ghost var t := Step(state, SetStatus(id, status, error, now)).value;
      StepKeeps(state, SetStatus(id, status, error, now), t);
      Runs.ExecOne(Step, start, before, state, SetStatus(id, status, error, now), t);
      trace := before + [SetStatus(id, status, error, now)];
      runs, state := runs[id := run], t;
    }

    /** Not `ok` exactly if there is no row with that id (`ErrReplayRunNotFound`) or the statement failed. */
    method UpdateReplayRunStatus(id: nat, status: Status, error: Option<string>, now: int)
      returns (ok: bool, ghost seen: State, ghost trace: seq<Action>)
      requires Valid()
      modifies this
      ensures Valid() && Exec(old(state), trace) == Some(state)
      ensures (id !in Locked(old(locks)) ==> seen == old(state)) && seen.runs.Keys == old(runs).Keys
      ensures ok <==> id in old(runs) && failures == old(failures)
      ensures runs.Keys == seen.runs.Keys
      ensures forall other <- seen.runs :: other != id ==> runs[other] == seen.runs[other]
      ensures ok ==>
        var was, run := seen.runs[id], runs[id];
        && run.status == status && run.updatedAt == now
        && run.startedAt == (if status == Running then Some(now) else was.startedAt)
        && run.completedAt == (if status == Completed || status == Status.Failed then Some(now) else was.completedAt)
        && run.error == (if status == Status.Failed then error else was.error)
        && run == was.(status := run.status, startedAt := run.startedAt, completedAt := run.completedAt,
                       error := run.error, updatedAt := run.updatedAt)
      ensures id !in old(runs) ==> runs == seen.runs
    {
      trace := Wait(id);
      seen := state;
      var out := AnyOutcome();
      if id in runs && TookEffect(out) {
        trace := SetColumns(id, status, error, now, old(state), trace);
      }
      if !out.Success? {
        failures := failures + 1;
      }
      ok := out.Success? && id in runs;
    }

    /** The metrics of a finished run; not `ok` exactly if there is no row with that id or the statement failed. */
    method UpdateReplayRunSummary(id: nat, summary: nat, now: int)
      returns (ok: bool, ghost seen: State, ghost trace: seq<Action>)
      requires Valid()
      modifies this
      ensures Valid() && Exec(old(state), trace) == Some(state)
      ensures (id !in Locked(old(locks)) ==> seen == old(state)) && seen.runs.Keys == old(runs).Keys
      ensures ok <==> id in old(runs) && failures == old(failures)
      ensures runs.Keys == seen.runs.Keys
      ensures forall other <- seen.runs :: other != id ==> runs[other] == seen.runs[other]
      ensures ok ==> runs[id] == seen.runs[id].(summary := Some(summary), updatedAt := now)
    {
      trace := Wait(id);
      seen := state;
      var out := AnyOutcome();
      if id in runs && TookEffect(out) {
        ghost var a := SetSummary(id, summary, now);
        ghost var t := Step(state, a).value;
        StepKeeps(state, a, t);
        Runs.ExecOne(Step, old(state), trace, state, a, t);
        trace := trace + [a];
        runs, state := runs[id := runs[id].(summary := Some(summary), updatedAt := now)], t;
      }
      if !out.Success? {
        failures := failures + 1;
      }
      ok := out.Success? && id in runs;
    }
  }
}
