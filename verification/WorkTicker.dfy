/**
 The work tick: Butler leases out a batch of jobs, each is dispatched to its syncer or executor, and each
 is acknowledged or failed on its own. An answer of Butler may be lost on the way; a lease that runs out
 puts its job back, so that it is delivered again.
 */
module WorkTicker {
  import Runs
  import opened Wrappers

  datatype Status = Pending | Leased | Done | Failed

  datatype Phase = Idle | Working(rest: seq<nat>) | Marking(job: nat, ok: bool, rest: seq<nat>)

  /** `leases` and `executions` count per job; `succeeded` and `refused` record how dispatches ended. */
  datatype State = State(jobs: map<nat, Status>, phase: Phase, leases: map<nat, nat>, executions: map<nat, nat>,
                         succeeded: set<nat>, refused: set<nat>)

  datatype Action =
    | Enqueue(job: nat)
    | Lease(batch: seq<nat>, delivered: bool)
    | Execute(ok: bool)
    | Mark(out: Outcome)
    | Expire(job: nat)
    | Crash

  const EMPTY := State(map[], Idle, map[], map[], {}, {})

  function Count(m: map<nat, nat>, job: nat): nat {
    if job in m then m[job] else 0
  }

  function Bumped(m: map<nat, nat>, jobs: set<nat>): map<nat, nat> {
    map j <- m.Keys + jobs :: Count(m, j) + if j in jobs then 1 else 0
  }

  function WithStatus(jobs: map<nat, Status>, changed: set<nat>, status: Status): map<nat, Status> {
    map j <- jobs.Keys :: if j in changed then status else jobs[j]
  }

  function Next(rest: seq<nat>): Phase {
    if rest == [] then Idle else Working(rest)
  }

  ghost function Step(s: State, a: Action): Option<State> {
    match a
    case Enqueue(j) => if j in s.jobs then None else Some(s.(jobs := s.jobs[j := Pending]))
    case Lease(batch, delivered) =>
      if !s.phase.Idle? || !Distinct(batch) || exists j <- batch :: j !in s.jobs || s.jobs[j] != Pending then None
      else Some(s.(jobs := WithStatus(s.jobs, Elements(batch), Leased), leases := Bumped(s.leases, Elements(batch)),
                   phase := if delivered then Next(batch) else Idle))
    case Execute(ok) =>
      if !s.phase.Working? || s.phase.rest == [] then None
      else
        var j := s.phase.rest[0];
        Some(s.(phase := Marking(j, ok, s.phase.rest[1..]), executions := Bumped(s.executions, {j}),
                succeeded := if ok then s.succeeded + {j} else s.succeeded,
                refused := if ok then s.refused else s.refused + {j}))
    case Mark(out) =>
      if !s.phase.Marking? then None
      else
        var status := if s.phase.ok then Done else Status.Failed;
        Some(s.(jobs := if TookEffect(out) then WithStatus(s.jobs, {s.phase.job}, status) else s.jobs,
                phase := Next(s.phase.rest)))
    case Expire(j) =>
      if j in s.jobs && s.jobs[j] == Leased then Some(s.(jobs := s.jobs[j := Pending])) else None
    case Crash => Some(s.(phase := Idle))
  }

  ghost function Exec(s: State, actions: seq<Action>): Option<State> {
    Runs.Exec(Step, s, actions)
  }

  // ---- Every run --------------------------------------------------------------------------------

  function Waiting(phase: Phase): seq<nat> {
    if phase.Idle? then [] else phase.rest
  }

  /** A job is acknowledged only after its dispatch succeeded, and failed only after it did not. */
  ghost predicate Honest(s: State) {
    && (forall j <- s.jobs :: (s.jobs[j] == Done ==>
        j in s.succeeded) && (s.jobs[j] == Status.Failed ==> j in s.refused))
    && (s.phase.Marking? ==> s.phase.job in if s.phase.ok then s.succeeded else s.refused)
  }

  /** Every execution uses up a lease, and every job still waiting in a tick has one left. */
  ghost predicate Paid(s: State, j: nat) {
    Count(s.executions, j) + (if j in Waiting(s.phase) then 1 else 0) <= Count(s.leases, j)
  }

  ghost predicate Inv(s: State) {
    Honest(s) && Distinct(Waiting(s.phase)) && forall j: nat :: Paid(s, j)
  }

  lemma HonestStep(s: State, a: Action, t: State)
    requires Honest(s) && Step(s, a) == Some(t)
    ensures Honest(t)
  {
  }

  lemma PaidStep(s: State, a: Action, t: State, j: nat)
    requires Paid(s, j) && Distinct(Waiting(s.phase)) && Step(s, a) == Some(t)
    ensures Paid(t, j)
  {
    if a.Execute? {
      assert s.phase.rest == [s.phase.rest[0]] + s.phase.rest[1..];
    }
  }

  lemma DistinctStep(s: State, a: Action, t: State)
    requires Distinct(Waiting(s.phase)) && Step(s, a) == Some(t)
    ensures Distinct(Waiting(t.phase))
  {
  }

  lemma {:induction false} RunKeeps(s: State, actions: seq<Action>, t: State)
    requires Inv(s) && Exec(s, actions) == Some(t)
    ensures Inv(t)
    decreases |actions|
  {
    if actions == [] {
    } else {
      var n := |actions| - 1;
      var m := Exec(s, actions[..n]).value;
      RunKeeps(s, actions[..n], m);
      HonestStep(m, actions[n], t);
      DistinctStep(m, actions[n], t);
      forall j: nat
        ensures Paid(t, j)
      {
        assert Paid(m, j);
        PaidStep(m, actions[n], t, j);
      }
    }
  }

  /**
   Main result: in every run, with answers lost at any point, leases that run out and crashes, a job that
   Butler has as done was dispatched successfully, one it has as failed was refused, and no job is executed more
   often than it was leased.
   */
  lemma DoneJobsWereExecuted(actions: seq<Action>, s: State, j: nat)
    requires Exec(EMPTY, actions) == Some(s)
    ensures j in s.jobs && s.jobs[j] == Done ==> j in s.succeeded
    ensures j in s.jobs && s.jobs[j] == Status.Failed ==> j in s.refused
    ensures Count(s.executions, j) <= Count(s.leases, j)
  {
    RunKeeps(EMPTY, actions, s);
    assert Paid(s, j);
  }

  /** A job that is not pending has one lease that has not run out. */
  lemma {:induction false} LeasesRunOut(actions: seq<Action>, s: State, j: nat)
    requires Exec(EMPTY, actions) == Some(s)
    ensures Count(s.leases, j) <= multiset(actions)[Expire(j)] + if j in s.jobs && s.jobs[j] != Pending then 1 else 0
    decreases |actions|
  {
    if actions == [] {
    } else {
      LeasesRunOut(actions[..|actions| - 1], Exec(EMPTY, actions[..|actions| - 1]).value, j);
      assert actions == actions[..|actions| - 1] + [actions[|actions| - 1]];
    }
  }

  /** A job is executed at most once, and once more for each time its lease ran out. */
  lemma ExecutionsAreBounded(actions: seq<Action>, s: State, j: nat)
    requires Exec(EMPTY, actions) == Some(s)
    ensures Count(s.executions, j) <= 1 + multiset(actions)[Expire(j)]
  {
    DoneJobsWereExecuted(actions, s, j);
    LeasesRunOut(actions, s, j);
  }

  ghost predicate RunsAgain(s: State, rest: seq<Action>, t: State, j: nat) {
    Exec(s, rest) == Some(t) && Count(t.executions, j) > Count(s.executions, j)
  }

  predicate Open(s: State, j: nat) {
    j in s.jobs && (s.jobs[j] == Pending || s.jobs[j] == Leased)
  }

  /**
   Exactly which jobs are executed again, or at all, in some continuation: those whose mark has not reached
   Butler, and those that still wait in the tick. So a lost acknowledgement can always repeat its job.
   */
  lemma RepeatsExactlyWhen(actions: seq<Action>, s: State, j: nat)
    requires Exec(EMPTY, actions) == Some(s) && j in s.jobs
    ensures (exists rest, t :: RunsAgain(s, rest, t, j)) <==> Open(s, j) || j in Waiting(s.phase)
  {
    if j in Waiting(s.phase) {
      var rest, t := ExecuteWaiting(s, j);
      assert RunsAgain(s, rest, t, j);
    } else if Open(s, j) {
      var rest, t := ReleaseAndExecute(s, j);
      assert RunsAgain(s, rest, t, j);
    } else {
      forall rest, t | Exec(s, rest) == Some(t)
        ensures !RunsAgain(s, rest, t, j)
      {
        ClosedStaysClosed(s, rest, t, j);
      }
    }
  }

  lemma {:induction false} ClosedStaysClosed(s: State, rest: seq<Action>, t: State, j: nat)
    requires j in s.jobs && !Open(s, j) && j !in Waiting(s.phase) && Exec(s, rest) == Some(t)
    ensures j in t.jobs && !Open(t, j) && j !in Waiting(t.phase) && Count(t.executions, j) == Count(s.executions, j)
    decreases |rest|
  {
    if rest == [] {
    } else {
      var n := |rest| - 1;
      var m := Exec(s, rest[..n]).value;
      ClosedStaysClosed(s, rest[..n], m, j);
      StepKeepsClosed(m, rest[n], t, j);
    }
  }

  lemma StepKeepsClosed(s: State, a: Action, t: State, j: nat)
    requires j in s.jobs && !Open(s, j) && j !in Waiting(s.phase) && Step(s, a) == Some(t)
    ensures j in t.jobs && !Open(t, j) && j !in Waiting(t.phase) && Count(t.executions, j) == Count(s.executions, j)
  {
    if a.Execute? {
      assert s.phase.rest[0] in s.phase.rest;
    }
  }

  /** The tick goes on until it is the job's turn. */
  lemma {:induction false} ExecuteWaiting(s: State, j: nat) returns (rest: seq<Action>, t: State)
    requires j in Waiting(s.phase)
    ensures Exec(s, rest) == Some(t) && Count(t.executions, j) > Count(s.executions, j)
    decreases |Waiting(s.phase)|, s.phase.Marking?
  {
    var a := if s.phase.Marking? then Mark(Success) else Execute(true);
    var m := Step(s, a).value;
    if a.Execute? && s.phase.rest[0] == j {
      t := m;
      Runs.ExecOne(Step, s, [], s, a, t);
      rest := [] + [a];
    } else {
      var more;
      more, t := ExecuteWaiting(m, j);
      Runs.ExecCons(Step, s, a, m, more);
      rest := [a] + more;
    }
  }

  /** The steward restarts, the lease runs out if there is one, and the job is leased and executed. */
  lemma ReleaseAndExecute(s: State, j: nat) returns (rest: seq<Action>, t: State)
    requires Open(s, j)
    ensures Exec(s, rest) == Some(t) && Count(t.executions, j) > Count(s.executions, j)
  {
    var idle := s.(phase := Idle);
    Runs.ExecOne(Step, s, [], s, Crash, idle);
    rest := [] + [Crash];
    var free := idle;
    if idle.jobs[j] == Leased {
      free := idle.(jobs := idle.jobs[j := Pending]);
      Runs.ExecOne(Step, s, rest, idle, Expire(j), free);
      rest := rest + [Expire(j)];
    }
    var leased := Step(free, Lease([j], true)).value;
    Runs.ExecOne(Step, s, rest, free, Lease([j], true), leased);
    rest := rest + [Lease([j], true)];
    t := Step(leased, Execute(true)).value;
    Runs.ExecOne(Step, s, rest, leased, Execute(true), t);
    rest := rest + [Execute(true)];
  }

  // ---- Dispatch ---------------------------------------------------------------------------------

  datatype Item = Item(job: nat, jobType: string, run: Option<nat>)

  datatype Syncer = Keys | CloudStorage | ProviderKeys | Experiments

  /** What one item has the steward do. */
  datatype Call = Sync(which: Syncer) | ExecuteReplay(run: nat) | ExecuteEval(run: nat)

  function SyncerOf(jobType: string): Option<Syncer> {
    match jobType
    case "sync_api_keys" => Some(Keys)
    case "sync_cloud_storage" => Some(CloudStorage)
    case "sync_provider_keys" => Some(ProviderKeys)
    case "sync_experiments" => Some(Experiments)
    case _ => None
  }

  /** `None`: the syncer is not configured, the run is missing, or the type is unknown. */
  function CallFor(item: Item, configured: set<Syncer>): Option<Call> {
    if SyncerOf(item.jobType).Some? then
      if SyncerOf(item.jobType).value in configured then Some(Sync(SyncerOf(item.jobType).value)) else None
    else if item.run.None? then None
    else if item.jobType == "replay" then Some(ExecuteReplay(item.run.value))
    else if item.jobType == "eval" then Some(ExecuteEval(item.run.value))
    else None
  }

  function Jobs(items: seq<Item>): seq<nat> {
    seq(|items|, i requires 0 <= i < |items| => items[i].job)
  }

  /** How the dispatches of some items ended: one result each, and what cannot be called does not succeed. */
  ghost predicate Dispatched(items: seq<Item>, configured: set<Syncer>, results: seq<bool>) {
    && |results| == |items|
    && forall i :: 0 <= i < |items| && CallFor(items[i], configured).None? ==> !results[i]
  }

  lemma {:induction false} SuccessesAreCounted(results: seq<bool>)
    ensures Successes(results) == multiset(results)[true]
    ensures |results| == multiset(results)[true] + multiset(results)[false]
    decreases |results|
  {
    if results == [] {
    } else {
      var n := |results| - 1;
      SuccessesAreCounted(results[..n]);
      assert results == results[..n] + [results[n]];
    }
  }

  lemma DispatchedSnoc(items: seq<Item>, item: Item, configured: set<Syncer>, results: seq<bool>, ok: bool)
    requires Dispatched(items, configured, results) && (CallFor(item, configured).None? ==> !ok)
    ensures Dispatched(items + [item], configured, results + [ok])
    ensures Successes(results + [ok]) == Successes(results) + if ok then 1 else 0
    ensures CallsOf(items + [item], configured)
         == CallsOf(items, configured)
          + if CallFor(item, configured).Some? then [CallFor(item, configured).value] else []
  {
    assert (items + [item])[..|items|] == items && (results + [ok])[..|results|] == results;
  }

  function CallsOf(items: seq<Item>, configured: set<Syncer>): seq<Call> {
    if items == [] then []
    else
      var before, last := CallsOf(items[..|items| - 1], configured), CallFor(items[|items| - 1], configured);
      if last.Some? then before + [last.value] else before
  }

  function Successes(results: seq<bool>): nat {
    if results == [] then 0 else Successes(results[..|results| - 1]) + if results[|results| - 1] then 1 else 0
  }

  class Butler {
    var jobs: map<nat, Status>
    ghost var leases: map<nat, nat>

    constructor ()
      ensures jobs == map[] && leases == map[]
    {
      jobs, leases := map[], map[];
    }

    /** Assumed contract: some pending jobs are leased, each once; the answer may get lost. */
    method GetWork() returns (r: Result<seq<Item>, Wrappers.Failed>, ghost batch: seq<nat>)
      modifies this
      ensures Distinct(batch) && (forall j <- batch :: j in old(jobs) && old(jobs)[j] == Pending)
      ensures jobs == WithStatus(old(jobs), Elements(batch), Leased) && leases == Bumped(old(leases), Elements(batch))
      ensures r.Ok? ==> Jobs(r.value) == batch
    {
      var items: seq<Item> := [];
      batch := [];
      var rest := set j <- jobs.Keys | jobs[j] == Pending;
      var more := true;
      while more && rest != {}
        invariant Distinct(batch) && Jobs(items) == batch
        invariant rest <= (set j <- jobs.Keys | jobs[j] == Pending) && forall j <- batch :: j !in rest
        invariant forall j <- batch :: j in jobs && jobs[j] == Pending
        invariant jobs == old(jobs) && leases == old(leases)
        decreases more, rest
      {
        var j :| j in rest;
        var jobType: string, run: Option<nat> := AnyJob();
        items, batch, rest := items + [Item(j, jobType, run)], batch + [j], rest - {j};
        more := *;
      }
      jobs := WithStatus(jobs, set item <- items :: item.job, Leased);
      leases := Bumped(leases, Elements(batch));
      ItemsAreTheBatch(items);
      var lost := *;
      r := if lost then Err(Wrappers.Failed.Failed) else Ok(items);
    }

    /** An acknowledgement or a failure; if it goes wrong the ticker only logs that. */
    method MarkResult(job: nat, ok: bool) returns (out: Outcome)
      modifies this`jobs
      ensures jobs == if TookEffect(out) then WithStatus(old(jobs), {job}, if ok then Done else Status.Failed)
        else old(jobs)
    {
      out := AnyOutcome();
      if TookEffect(out) {
        jobs := WithStatus(jobs, {job}, if ok then Done else Status.Failed);
      }
    }
  }

  method AnyJob() returns (jobType: string, run: Option<nat>) {
    jobType, run := *, *;
  }

  lemma ItemsAreTheBatch(items: seq<Item>)
    ensures (set item <- items :: item.job) == Elements(Jobs(items))
  {
    forall i | 0 <= i < |items|
      ensures Jobs(items)[i] == items[i].job && items[i] in items
    {
    }
  }

  const JOB_TYPES := {"sync_api_keys", "sync_cloud_storage", "sync_provider_keys", "sync_experiments", "replay", "eval"}

  predicate Calls(call: Call, possible: bool, before: seq<Call>, after: seq<Call>) {
    after == if possible then before + [call] else before
  }

  class Ticker {
    const configured: set<Syncer>
    ghost var calls: seq<Call>

    constructor (configured: set<Syncer>)
      ensures this.configured == configured && calls == []
    {
      this.configured := configured;
      calls := [];
    }

    /** A call of a syncer or executor succeeds or not. */
    method Invoke(call: Call) returns (ok: bool)
      modifies this
      ensures calls == old(calls) + [call]
    {
      calls := calls + [call];
      ok := *;
    }

    method Dispatch(item: Item) returns (ok: bool)
      modifies this
      ensures calls == old(calls) + (if CallFor(item, configured).Some? then [CallFor(item, configured).value] else [])
      ensures CallFor(item, configured).None? ==> !ok
      ensures item.jobType == "sync_api_keys" ==> Calls(Sync(Keys), Keys in configured, old(calls), calls)
      ensures item.jobType == "sync_cloud_storage" ==>
        Calls(Sync(CloudStorage), CloudStorage in configured, old(calls), calls)
      ensures item.jobType == "sync_provider_keys" ==>
        Calls(Sync(ProviderKeys), ProviderKeys in configured, old(calls), calls)
      ensures item.jobType == "sync_experiments" ==>
        Calls(Sync(Experiments), Experiments in configured, old(calls), calls)
      ensures item.jobType == "replay" && item.run.Some? ==>
        Calls(ExecuteReplay(item.run.value), true, old(calls), calls)
      ensures item.jobType == "eval" && item.run.Some? ==>
        Calls(ExecuteEval(item.run.value), true, old(calls), calls)
      ensures item.jobType in {"replay", "eval"} && item.run.None? ==> calls == old(calls) && !ok
      ensures item.jobType !in JOB_TYPES ==> calls == old(calls) && !ok
    {
      match item.jobType {
        case "sync_api_keys" =>
          if Keys !in configured { return false; }
          ok := Invoke(Sync(Keys));
        case "sync_cloud_storage" =>
          if CloudStorage !in configured { return false; }
          ok := Invoke(Sync(CloudStorage));
        case "sync_provider_keys" =>
          if ProviderKeys !in configured { return false; }
          ok := Invoke(Sync(ProviderKeys));
        case "sync_experiments" =>
          if Experiments !in configured { return false; }
          ok := Invoke(Sync(Experiments));
        case "replay" =>
          if item.run.None? { return false; }
          ok := Invoke(ExecuteReplay(item.run.value));
        case "eval" =>
          if item.run.None? { return false; }
          ok := Invoke(ExecuteEval(item.run.value));
        case _ =>
          return false;
      }
    }

    /** One item: its dispatch, then its mark, whatever became of the items before it. */
    method Work(item: Item, butler: Butler, ghost rest: seq<nat>, ghost s: State, ghost before: seq<Action>,
                ghost m: State)
      returns (ok: bool, ghost trace: seq<Action>, ghost t: State)
      requires Exec(s, before) == Some(m) && m.phase == Working([item.job] + rest) && m.jobs == butler.jobs
      modifies this, butler`jobs
      ensures Exec(s, trace) == Some(t) && t.phase == Next(rest) && t.jobs == butler.jobs && t.leases == m.leases
      ensures calls == old(calls) + (if CallFor(item, configured).Some? then [CallFor(item, configured).value] else [])
      ensures CallFor(item, configured).None? ==> !ok
      ensures Results(trace) == Results(before) + [ok]
      ensures OnlyWorked(before, trace)
    {
      ok := Dispatch(item);
      ghost var executed := Step(m, Execute(ok)).value;
      Runs.ExecOne(Step, s, before, m, Execute(ok), executed);
      assert ([item.job] + rest)[1..] == rest;
      var out := butler.MarkResult(item.job, ok);
      t := Step(executed, Mark(out)).value;
      Runs.ExecOne(Step, s, before + [Execute(ok)], executed, Mark(out), t);
      trace := before + [Execute(ok)] + [Mark(out)];
      ResultsSnoc(before, Execute(ok));
      ResultsSnoc(before + [Execute(ok)], Mark(out));
    }

    /** Item `i` of a batch, after `results` of those before it. */
    method WorkNext(items: seq<Item>, i: nat, butler: Butler, ghost results: seq<bool>, ghost s: State,
                    ghost before: seq<Action>, ghost m: State, ghost earlier: seq<bool>, ghost called: seq<Call>)
      returns (ok: bool, ghost results': seq<bool>, ghost trace: seq<Action>, ghost t: State)
      requires i < |items| && Exec(s, before) == Some(m) && m.phase == Next(Jobs(items[i..])) && m.jobs == butler.jobs
      requires calls == called + CallsOf(items[..i], configured)
      requires Dispatched(items[..i], configured, results) && Results(before) == earlier + results
      modifies this, butler`jobs
      ensures Exec(s, trace) == Some(t) && t.phase == Next(Jobs(items[i + 1..]))
      ensures t.jobs == butler.jobs && t.leases == m.leases
      ensures calls == called + CallsOf(items[..i + 1], configured)
      ensures Dispatched(items[..i + 1], configured, results') && Results(trace) == earlier + results'
      ensures Successes(results') == Successes(results) + (if ok then 1 else 0) && |results'| == |results| + 1
      ensures OnlyWorked(before, trace)
    {
      NextItem(items, i);
      ok, trace, t := Work(items[i], butler, Jobs(items[i + 1..]), s, before, m);
      DispatchedSnoc(items[..i], items[i], configured, results, ok);
      AppendSnoc(earlier, results, ok);
      results' := results + [ok];
    }

    /** The loop over a batch. */
    method WorkAll(items: seq<Item>, butler: Butler, ghost s: State, ghost before: seq<Action>, ghost m: State)
      returns (succeeded: nat, failed: nat, ghost results: seq<bool>, ghost trace: seq<Action>, ghost t: State)
      requires Exec(s, before) == Some(m) && m.phase == Next(Jobs(items)) && m.jobs == butler.jobs
      modifies this, butler`jobs
      ensures Exec(s, trace) == Some(t) && t.phase.Idle? && t.jobs == butler.jobs && t.leases == m.leases
      ensures Dispatched(items, configured, results) && Results(trace) == Results(before) + results
      ensures calls == old(calls) + CallsOf(items, configured)
      ensures succeeded == Successes(results) && failed == |results| - succeeded
      ensures OnlyWorked(before, trace)
    {
      succeeded, failed, results, trace, t := 0, 0, [], before, m;
      for i := 0 to |items|
        invariant Exec(s, trace) == Some(t) && t.phase == Next(Jobs(items[i..]))
        invariant t.jobs == butler.jobs && t.leases == m.leases
        invariant calls == old(calls) + CallsOf(items[..i], configured)
        invariant Dispatched(items[..i], configured, results) && Results(trace) == Results(before) + results
        invariant succeeded == Successes(results) && failed == |results| - succeeded
        invariant OnlyWorked(before, trace)
      {
        ghost var trace0, t0 := trace, t;
        var ok;
        ok, results, trace, t := WorkNext(items, i, butler, results, s, trace0, t0, Results(before), old(calls));
        WorkedOn(before, trace0, trace);
        if ok {
          succeeded := succeeded + 1;
        } else {
          failed := failed + 1;
        }
      }
      assert items[..|items|] == items && items[|items|..] == [];
    }

    /** The request for work. */
    method LeaseWork(butler: Butler, ghost s: State)
      returns (work: Result<seq<Item>, Wrappers.Failed>, ghost trace: seq<Action>, ghost m: State)
      requires s.phase.Idle? && s.jobs == butler.jobs && s.leases == butler.leases
      modifies butler
      ensures Exec(s, trace) == Some(m) && Results(trace) == []
      ensures |trace| == 1 && trace[0].Lease? && trace[0].delivered == work.Ok?
      ensures work.Ok? ==> Jobs(work.value) == trace[0].batch
      ensures m.phase == (if work.Ok? then Next(Jobs(work.value)) else Idle)
      ensures m.jobs == butler.jobs && m.leases == butler.leases
    {
      ghost var batch;
      work, batch := butler.GetWork();
      m := LeaseRuns(s, batch, work.Ok?);
      trace := [] + [Lease(batch, work.Ok?)];
      ResultsSnoc([], Lease(batch, work.Ok?));
    }

    /** Every item of a delivered batch is dispatched once and marked once, in order, with its own result. */
    method Tick(butler: Butler, ghost s: State)
      returns (succeeded: nat, failed: nat, ghost results: seq<bool>, ghost items: seq<Item>,
               ghost trace: seq<Action>, ghost t: State)
      requires s.phase.Idle? && s.jobs == butler.jobs && s.leases == butler.leases
      modifies this, butler
      ensures Exec(s, trace) == Some(t) && t.phase.Idle? && t.jobs == butler.jobs && t.leases == butler.leases
      ensures Dispatched(items, configured, results) && Results(trace) == results
      ensures calls == old(calls) + CallsOf(items, configured)
      ensures succeeded == multiset(results)[true] && failed == multiset(results)[false]
      // One lease, and then nothing but the executions and marks of what was delivered.
      ensures trace != [] && trace[0].Lease? && Jobs(items) == if trace[0].delivered then trace[0].batch else []
      ensures OnlyWorked([trace[0]], trace)
    {
      succeeded, failed, results, items := 0, 0, [], [];
      var work;
      ghost var before, m;
      work, before, m := LeaseWork(butler, s);
      trace, t := before, m;
      if work.Err? {
        return;
      }
      items := work.value;
      succeeded, failed, results, trace, t := WorkAll(work.value, butler, s, before, m);
      SuccessesAreCounted(results);
    }
  }

  lemma LeaseRuns(s: State, batch: seq<nat>, delivered: bool) returns (t: State)
    requires s.phase.Idle? && Distinct(batch) && forall j <- batch :: j in s.jobs && s.jobs[j] == Pending
    ensures Exec(s, [] + [Lease(batch, delivered)]) == Some(t)
    ensures t == s.(jobs := WithStatus(s.jobs, Elements(batch), Leased), leases := Bumped(s.leases, Elements(batch)),
                    phase := if delivered then Next(batch) else Idle)
  {
    t := Step(s, Lease(batch, delivered)).value;
    Runs.ExecOne(Step, s, [], s, Lease(batch, delivered), t);
  }

  /** `b` continues `a` by executions and marks. */
  ghost predicate OnlyWorked(a: seq<Action>, b: seq<Action>) {
    a <= b && forall i :: |a| <= i < |b| ==> b[i].Execute? || b[i].Mark?
  }

  lemma WorkedOn(a: seq<Action>, b: seq<Action>, c: seq<Action>)
    requires OnlyWorked(a, b) && OnlyWorked(b, c)
    ensures OnlyWorked(a, c)
  {
  }

  lemma NextItem(items: seq<Item>, i: nat)
    requires i < |items|
    ensures Jobs(items[i..]) == [items[i].job] + Jobs(items[i + 1..])
    ensures items[..i + 1] == items[..i] + [items[i]]
  {
  }

  /** The dispatch results of a run, in order. */
  ghost function Results(trace: seq<Action>): seq<bool> {
    if trace == [] then []
    else
      var before, last := Results(trace[..|trace| - 1]), trace[|trace| - 1];
      if last.Execute? then before + [last.ok] else before
  }

  lemma ResultsSnoc(trace: seq<Action>, a: Action)
    ensures Results(trace + [a]) == Results(trace) + if a.Execute? then [a.ok] else []
  {
    assert (trace + [a])[..|trace|] == trace;
  }
}
