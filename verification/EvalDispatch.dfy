/**
 Dispatch of an eval job: the bundle's set, then its items, then the run are upserted one statement at
 a time, without a transaction. Any statement may fail and end the dispatch; Butler then delivers the
 job again. Rows are modelled without their timestamps.
 */
module EvalDispatch {
  import Runs
  import opened Wrappers

  datatype Item = Item(id: nat, setId: nat, request: nat)

  datatype Set = Set(id: nat, name: string, description: Option<string>)

  datatype Run = Run(id: nat, setId: nat, status: string, targetModel: string, evaluators: string)

  datatype Bundle = Bundle(run: Run, evalSet: Set, items: seq<Item>)

  /** `requests` are the rows of `llm_requests` that items may refer to. */
  datatype Db = Db(requests: set<nat>, sets: map<nat, Set>, items: map<(nat, nat), nat>, runs: map<nat, Run>)

  datatype Op = SetOp(s: Set) | ItemOp(item: Item) | RunOp(run: Run)

  /** One upsert statement; `None` when it violates a key. */
  function Perform(db: Db, op: Op): Option<Db> {
    match op
    case SetOp(s) =>
      Some(db.(sets := db.sets[s.id := s]))
    case ItemOp(item) =>
      if (item.setId, item.request) in db.items then Some(db)
      else if item.setId !in db.sets || item.request !in db.requests || item.id in db.items.Values then None
      else Some(db.(items := db.items[(item.setId, item.request) := item.id]))
    case RunOp(run) =>
      if run.setId !in db.sets then None
      else
        var status := if run.id in db.runs then db.runs[run.id].status else run.status;
        Some(db.(runs := db.runs[run.id := run.(status := status)]))
  }

  function PerformAll(db: Db, ops: seq<Op>): Option<Db> {
    if ops == [] then Some(db)
    else
      var before := PerformAll(db, ops[..|ops| - 1]);
      if before.None? then None else Perform(before.value, ops[|ops| - 1])
  }

  function ItemOps(items: seq<Item>): seq<Op> {
    seq(|items|, i requires 0 <= i < |items| => ItemOp(items[i]))
  }

  /** The statements of one dispatch, in the order in which they are issued. */
  function Ops(b: Bundle): seq<Op> {
    [SetOp(b.evalSet)] + ItemOps(b.items) + [RunOp(b.run)]
  }

  lemma PerformSnoc(db: Db, ops: seq<Op>, op: Op)
    ensures PerformAll(db, ops + [op])
         == if PerformAll(db, ops).None? then None else Perform(PerformAll(db, ops).value, op)
  {
    assert (ops + [op])[..|ops|] == ops;
  }

  lemma {:induction false} PerformAppend(db: Db, xs: seq<Op>, ys: seq<Op>)
    ensures PerformAll(db, xs + ys)
         == if PerformAll(db, xs).None? then None else PerformAll(PerformAll(db, xs).value, ys)
    decreases |ys|
  {
    if ys == [] {
      assert xs + ys == xs;
    } else {
      var front, last := ys[..|ys| - 1], ys[|ys| - 1];
      assert xs + ys == (xs + front) + [last];
      PerformSnoc(db, xs + front, last);
      PerformAppend(db, xs, front);
    }
  }

  // ---- Repeating a partly failed dispatch -------------------------------------------------------

  /** Performing the statement again changes nothing. */
  predicate Settled(db: Db, op: Op) {
    Perform(db, op) == Some(db)
  }

  lemma PerformedIsSettled(db: Db, op: Op, out: Db)
    requires Perform(db, op) == Some(out)
    ensures Settled(out, op)
  {
    match op
    case SetOp(s) => assert out.sets[s.id := s] == out.sets;
    case RunOp(run) => assert out.runs[run.id := out.runs[run.id]] == out.runs;
    case ItemOp(_) =>
  }

  /** Two different statements of one bundle never write the same row differently. */
  predicate Compatible(a: Op, b: Op) {
    (a.SetOp? && b.SetOp? ==> a == b) && (a.RunOp? && b.RunOp? ==> a == b)
  }

  lemma SettledStays(db: Db, settled: Op, op: Op, out: Db)
    requires Settled(db, settled) && Perform(db, op) == Some(out) && Compatible(settled, op)
    ensures Settled(out, settled)
  {
    if settled == op {
      PerformedIsSettled(db, op, out);
    } else {
      match settled
      case SetOp(s) => assert out.sets == db.sets;
      case RunOp(run) => assert out.runs == db.runs;
      case ItemOp(item) =>
        assert db.items[(item.setId, item.request) := item.id] == db.items ==> (item.setId, item.request) in db.items;
    }
  }

  lemma OpsCompatible(b: Bundle)
    ensures forall x, y :: x in Ops(b) && y in Ops(b) ==> Compatible(x, y)
  {
  }

  lemma {:induction false} PrefixSettled(db: Db, ops: seq<Op>, out: Db)
    requires PerformAll(db, ops) == Some(out)
    requires forall x, y :: x in ops && y in ops ==> Compatible(x, y)
    ensures forall op <- ops :: Settled(out, op)
    decreases |ops|
  {
    if ops == [] {
    } else {
      var front, last := ops[..|ops| - 1], ops[|ops| - 1];
      var before := PerformAll(db, front).value;
      PrefixSettled(db, front, before);
      PerformedIsSettled(before, last, out);
      forall op | op in ops
        ensures Settled(out, op)
      {
        assert ops == front + [last];
        if op in front {
          SettledStays(before, op, last, out);
        }
      }
    }
  }

  lemma {:induction false} SettledAllStay(db: Db, ops: seq<Op>)
    requires forall op <- ops :: Settled(db, op)
    ensures PerformAll(db, ops) == Some(db)
    decreases |ops|
  {
    if ops == [] {
    } else {
      assert forall op <- ops[..|ops| - 1] :: op in ops;
      SettledAllStay(db, ops[..|ops| - 1]);
      assert ops[|ops| - 1] in ops;
    }
  }

  lemma RetryOps(db: Db, ops: seq<Op>, k: nat, full: Db)
    requires k <= |ops| && PerformAll(db, ops) == Some(full)
    requires forall x, y :: x in ops && y in ops ==> Compatible(x, y)
    ensures PerformAll(db, ops[..k]).Some?
    ensures PerformAll(PerformAll(db, ops[..k]).value, ops) == Some(full)
  {
    var done, rest := ops[..k], ops[k..];
    assert ops == done + rest;
    PerformAppend(db, done, rest);
    var part := PerformAll(db, done).value;
    PrefixSettled(db, done, part);
    SettledAllStay(part, done);
    PerformAppend(part, done, rest);
  }

  /**
   Main result. If an undisturbed dispatch of the bundle would succeed, then after one that was cut off
   behind any statement, the next one succeeds as well and reaches the same database.
   */
  lemma RetryReachesTheSameState(db: Db, b: Bundle, k: nat, full: Db)
    requires k <= |Ops(b)| && PerformAll(db, Ops(b)) == Some(full)
    ensures PerformAll(db, Ops(b)[..k]).Some?
    ensures PerformAll(PerformAll(db, Ops(b)[..k]).value, Ops(b)) == Some(full)
  {
    OpsCompatible(b);
    RetryOps(db, Ops(b), k, full);
  }

  /** Any number of cut-off attempts. */
  function Attempts(db: Db, ops: seq<Op>, cuts: seq<nat>): Option<Db> {
    if cuts == [] then Some(db)
    else
      var before := Attempts(db, ops, cuts[..|cuts| - 1]);
      var cut := cuts[|cuts| - 1];
      if before.None? || cut > |ops| then None else PerformAll(before.value, ops[..cut])
  }

  lemma {:induction false} RetryOpsRepeatedly(db: Db, ops: seq<Op>, cuts: seq<nat>, full: Db)
    requires PerformAll(db, ops) == Some(full) && forall cut <- cuts :: cut <= |ops|
    requires forall x, y :: x in ops && y in ops ==> Compatible(x, y)
    ensures Attempts(db, ops, cuts).Some?
    ensures PerformAll(Attempts(db, ops, cuts).value, ops) == Some(full)
    decreases |cuts|
  {
    if cuts == [] {
    } else {
      var n := |cuts| - 1;
      assert cuts[n] in cuts && forall cut <- cuts[..n] :: cut in cuts;
      RetryOpsRepeatedly(db, ops, cuts[..n], full);
      RetryOps(Attempts(db, ops, cuts[..n]).value, ops, cuts[n], full);
    }
  }

  /** The same after any number of dispatches that were cut off, each behind any statement. */
  lemma AnyNumberOfRetries(db: Db, b: Bundle, cuts: seq<nat>, full: Db)
    requires PerformAll(db, Ops(b)) == Some(full) && forall cut <- cuts :: cut <= |Ops(b)|
    ensures Attempts(db, Ops(b), cuts).Some?
    ensures PerformAll(Attempts(db, Ops(b), cuts).value, Ops(b)) == Some(full)
  {
    OpsCompatible(b);
    RetryOpsRepeatedly(db, Ops(b), cuts, full);
  }

  // ---- When a dispatch succeeds at all ----------------------------------------------------------

  function PairOf(item: Item): (nat, nat) {
    (item.setId, item.request)
  }

  /** Item `i` is inserted: neither the table nor an earlier item has its set and request. */
  ghost predicate IsNew(db: Db, items: seq<Item>, i: nat)
    requires i < |items|
  {
    PairOf(items[i]) !in db.items && forall j :: 0 <= j < i ==> PairOf(items[j]) != PairOf(items[i])
  }

  /** No key is violated: its set and request exist, and nobody has its id. */
  ghost predicate Fits(db: Db, items: seq<Item>, i: nat)
    requires i < |items|
  {
    && items[i].setId in db.sets && items[i].request in db.requests && items[i].id !in db.items.Values
    && forall j :: 0 <= j < i && IsNew(db, items, j) ==> items[j].id != items[i].id
  }

  ghost predicate AllFit(db: Db, items: seq<Item>, n: nat)
    requires n <= |items|
  {
    forall i :: 0 <= i < n && IsNew(db, items, i) ==> Fits(db, items, i)
  }

  /** The table of items after the first `n`. */
  ghost predicate HasItems(db: Db, items: seq<Item>, n: nat, out: Db)
    requires n <= |items|
  {
    out == db.(items := out.items) && HasPairs(db, items, n, out) && HasIds(db, items, n, out)
  }

  ghost predicate HasPairs(db: Db, items: seq<Item>, n: nat, out: Db)
    requires n <= |items|
  {
    forall p :: p in out.items <==> p in db.items || exists j :: 0 <= j < n && PairOf(items[j]) == p
  }

  ghost predicate HasIds(db: Db, items: seq<Item>, n: nat, out: Db)
    requires n <= |items|
  {
    forall id :: id in out.items.Values <==>
      id in db.items.Values || exists j :: 0 <= j < n && IsNew(db, items, j) && items[j].id == id
  }

  lemma NextItemFits(db: Db, items: seq<Item>, n: nat, before: Db)
    requires n < |items| && HasItems(db, items, n, before)
    ensures PairOf(items[n]) in before.items <==> !IsNew(db, items, n)
    ensures Perform(before, ItemOp(items[n])).Some? <==> IsNew(db, items, n) ==> Fits(db, items, n)
  {
  }

  lemma NextPairs(db: Db, items: seq<Item>, n: nat, before: Db, after: Db)
    requires n < |items| && HasPairs(db, items, n, before) && Perform(before, ItemOp(items[n])) == Some(after)
    ensures HasPairs(db, items, n + 1, after)
  {
  }

  lemma NextIds(db: Db, items: seq<Item>, n: nat, before: Db, after: Db)
    requires n < |items| && HasIds(db, items, n, before) && Perform(before, ItemOp(items[n])) == Some(after)
    requires PairOf(items[n]) in before.items <==> !IsNew(db, items, n)
    ensures HasIds(db, items, n + 1, after)
  {
    if IsNew(db, items, n) {
      ValuesGrow(before.items, PairOf(items[n]), items[n].id);
      assert after.items.Values == before.items.Values + {items[n].id};
    } else {
      assert after == before;
    }
  }

  lemma NextItem(db: Db, items: seq<Item>, n: nat, before: Db)
    requires n < |items| && HasItems(db, items, n, before)
    ensures Perform(before, ItemOp(items[n])).Some? <==> IsNew(db, items, n) ==> Fits(db, items, n)
    ensures Perform(before, ItemOp(items[n])).Some? ==>
      HasItems(db, items, n + 1, Perform(before, ItemOp(items[n])).value)
  {
    NextItemFits(db, items, n, before);
    if Perform(before, ItemOp(items[n])).Some? {
      NextPairs(db, items, n, before, Perform(before, ItemOp(items[n])).value);
      NextIds(db, items, n, before, Perform(before, ItemOp(items[n])).value);
    }
  }

  lemma AllFitSnoc(db: Db, items: seq<Item>, n: nat)
    requires n < |items|
    ensures AllFit(db, items, n + 1) <==> AllFit(db, items, n) && (IsNew(db, items, n) ==> Fits(db, items, n))
  {
  }

  lemma ValuesGrow<K, V>(m: map<K, V>, k: K, v: V)
    requires k !in m
    ensures m[k := v].Values == m.Values + {v}
  {
    forall x | x in m.Values
      ensures x in m[k := v].Values
    {
      var key :| key in m && m[key] == x;
      assert m[k := v][key] == x;
    }
    assert m[k := v][k] == v;
  }

  lemma {:induction false} ItemsSucceedExactlyWhen(db: Db, items: seq<Item>, n: nat)
    requires n <= |items|
    ensures PerformAll(db, ItemOps(items)[..n]).Some? <==> AllFit(db, items, n)
    ensures AllFit(db, items, n) ==> HasItems(db, items, n, PerformAll(db, ItemOps(items)[..n]).value)
    decreases n
  {
    if n == 0 {
    } else {
      ItemsSucceedExactlyWhen(db, items, n - 1);
      AllFitSnoc(db, items, n - 1);
      var ops := ItemOps(items);
      assert ops[..n] == ops[..n - 1] + [ItemOp(items[n - 1])];
      PerformSnoc(db, ops[..n - 1], ItemOp(items[n - 1]));
      if AllFit(db, items, n - 1) {
        NextItem(db, items, n - 1, PerformAll(db, ops[..n - 1]).value);
      }
    }
  }

  /**
   Main result: an undisturbed dispatch succeeds exactly when the run belongs to the bundle's set or one that is
   there, and every item that neither the table nor an earlier item has, has its set, a logged request and an id of
   its own. A bundle with an item whose request is missing fails at every delivery until that is logged.
   */
  lemma DispatchSucceedsExactlyWhen(db: Db, b: Bundle)
    ensures
      var stored := db.(sets := db.sets[b.evalSet.id := b.evalSet]);
      PerformAll(db, Ops(b)).Some? <==> b.run.setId in stored.sets && AllFit(stored, b.items, |b.items|)
  {
    var stored := db.(sets := db.sets[b.evalSet.id := b.evalSet]);
    var first, items := [SetOp(b.evalSet)], ItemOps(b.items);
    assert items[..|items|] == items && Ops(b) == (first + items) + [RunOp(b.run)];
    PerformSnoc(db, [], SetOp(b.evalSet));
    assert [] + first == first;
    PerformAppend(db, first, items);
    PerformSnoc(db, first + items, RunOp(b.run));
    ItemsSucceedExactlyWhen(stored, b.items, |b.items|);
  }

  // ---- Order: a stored run is complete ----------------------------------------------------------

  type Dispatcher = nat

  datatype Phase = Idle | Busy(b: Bundle, next: nat)

  /** `first` records the bundle that first inserted each run. */
  datatype State = State(db: Db, first: map<nat, Bundle>, phases: map<Dispatcher, Phase>)

  datatype Action =
    | Begin(d: Dispatcher, b: Bundle)
    | Statement(d: Dispatcher, out: Outcome)
    | Work(id: nat, status: string)
    | LogRequest(id: nat)
    | Crash

  ghost function Step(s: State, a: Action): Option<State> {
    match a
    case Begin(d, b) =>
      if d in s.phases && s.phases[d].Busy? then None else Some(s.(phases := s.phases[d := Busy(b, 0)]))
    case Statement(d, out) =>
      if d !in s.phases || s.phases[d].Idle? || s.phases[d].next >= |Ops(s.phases[d].b)| then None
      else
        var Busy(b, next) := s.phases[d];
        var after := Perform(s.db, Ops(b)[next]);
        var idle := s.phases[d := Idle];
        if after.None? || !TookEffect(out) then Some(s.(phases := idle))
        else
          Some(State(after.value,
                     if Ops(b)[next].RunOp? && b.run.id !in s.db.runs then s.first[b.run.id := b] else s.first,
                     if out.Success? && next + 1 < |Ops(b)| then s.phases[d := Busy(b, next + 1)] else idle))
    case Work(id, status) =>
      if id in s.db.runs then Some(s.(db := s.db.(runs := s.db.runs[id := s.db.runs[id].(status := status)]))) else None
    case LogRequest(id) =>
      Some(s.(db := s.db.(requests := s.db.requests + {id})))
    case Crash =>
      Some(s.(phases := map[]))
  }

  ghost function Exec(s: State, actions: seq<Action>): Option<State> {
    Runs.Exec(Step, s, actions)
  }

  ghost predicate OpDone(db: Db, op: Op) {
    match op
    case SetOp(s) => s.id in db.sets
    case ItemOp(item) => (item.setId, item.request) in db.items
    case RunOp(run) => run.id in db.runs
  }

  ghost predicate Complete(db: Db, b: Bundle) {
    b.evalSet.id in db.sets && forall item <- b.items :: (item.setId, item.request) in db.items
  }

  /** Stored runs have their set, and all of the bundle that first inserted them. */
  ghost predicate RunsComplete(s: State) {
    forall id <- s.db.runs.Keys ::
      s.db.runs[id].setId in s.db.sets && id in s.first && Complete(s.db, s.first[id])
  }

  /** The statements that a dispatcher has behind it have taken effect. */
  ghost predicate PhaseDone(db: Db, phase: Phase) {
    phase.Busy? ==> forall i :: 0 <= i < phase.next && i < |Ops(phase.b)| ==> OpDone(db, Ops(phase.b)[i])
  }

  ghost predicate PhasesDone(s: State) {
    forall d <- s.phases.Keys :: PhaseDone(s.db, s.phases[d])
  }

  ghost predicate Inv(s: State) {
    RunsComplete(s) && PhasesDone(s)
  }

  /** No statement undoes another. */
  ghost predicate DbGrows(a: Db, b: Db) {
    a.sets.Keys <= b.sets.Keys && a.items.Keys <= b.items.Keys && a.runs.Keys <= b.runs.Keys
  }

  lemma PhaseStaysDone(a: Db, b: Db, phase: Phase)
    requires DbGrows(a, b) && PhaseDone(a, phase)
    ensures PhaseDone(b, phase)
  {
    if phase.Busy? {
      forall i | 0 <= i < phase.next && i < |Ops(phase.b)|
        ensures OpDone(b, Ops(phase.b)[i])
      {
        assert OpDone(a, Ops(phase.b)[i]);
      }
    }
  }

  lemma DoneMeansComplete(db: Db, b: Bundle)
    requires forall i :: 0 <= i < |Ops(b)| - 1 ==> OpDone(db, Ops(b)[i])
    ensures Complete(db, b)
  {
    assert Ops(b)[0] == SetOp(b.evalSet) && OpDone(db, Ops(b)[0]);
    forall item | item in b.items
      ensures (item.setId, item.request) in db.items
    {
      var i :| 0 <= i < |b.items| && b.items[i] == item;
      assert Ops(b)[i + 1] == ItemOp(item) && OpDone(db, Ops(b)[i + 1]);
    }
  }

  lemma PerformGrows(db: Db, op: Op, out: Db)
    requires Perform(db, op) == Some(out)
    ensures DbGrows(db, out) && OpDone(out, op)
    ensures !op.RunOp? ==> out.runs == db.runs
    ensures op.RunOp? ==> out.runs.Keys == db.runs.Keys + {op.run.id} && out.runs[op.run.id].setId in out.sets
                          && forall id <- db.runs :: id != op.run.id ==> out.runs[id] == db.runs[id]
  {
  }

  /** A statement that does not take effect ends its dispatch and changes nothing else. */
  lemma IdleKeeps(s: State, d: Dispatcher)
    requires Inv(s)
    ensures Inv(s.(phases := s.phases[d := Idle]))
  {
  }

  lemma RunStatementKeeps(s: State, b: Bundle, next: nat, db: Db, first: map<nat, Bundle>)
    requires Inv(s) && next < |Ops(b)| && PhaseDone(s.db, Busy(b, next)) && Perform(s.db, Ops(b)[next]) == Some(db)
    requires first == if Ops(b)[next].RunOp? && b.run.id !in s.db.runs then s.first[b.run.id := b] else s.first
    ensures RunsComplete(s.(db := db, first := first))
  {
    var op := Ops(b)[next];
    PerformGrows(s.db, op, db);
    if op.RunOp? {
      assert next == |Ops(b)| - 1 && op.run == b.run;
      DoneMeansComplete(s.db, b);
    }
    forall id | id in db.runs
      ensures db.runs[id].setId in db.sets && id in first && Complete(db, first[id])
    {
      if id in s.db.runs {
        assert Complete(s.db, s.first[id]);
      }
    }
  }

  lemma StatementKeeps(s: State, a: Action, t: State)
    requires a.Statement? && Inv(s) && Step(s, a) == Some(t)
    ensures Inv(t)
  {
    var Busy(b, next) := s.phases[a.d];
    var op := Ops(b)[next];
    if Perform(s.db, op).Some? && TookEffect(a.out) {
      PerformGrows(s.db, op, t.db);
      assert PhaseDone(s.db, s.phases[a.d]);
      RunStatementKeeps(s, b, next, t.db, t.first);
      forall d | d in t.phases
        ensures PhaseDone(t.db, t.phases[d])
      {
        if d != a.d {
          PhaseStaysDone(s.db, t.db, s.phases[d]);
        } else {
          PhaseStaysDone(s.db, t.db, Busy(b, next));
        }
      }
    } else {
      IdleKeeps(s, a.d);
    }
  }

  lemma OtherStepKeeps(s: State, a: Action, t: State)
    requires !a.Statement? && Inv(s) && Step(s, a) == Some(t)
    ensures Inv(t)
  {
    assert DbGrows(s.db, t.db) && t.db.items == s.db.items && t.first == s.first;
    forall id | id in t.db.runs
      ensures t.db.runs[id].setId in t.db.sets && id in t.first && Complete(t.db, t.first[id])
    {
      assert Complete(s.db, s.first[id]) && t.db.runs[id].setId == s.db.runs[id].setId;
    }
    forall d | d in t.phases
      ensures PhaseDone(t.db, t.phases[d])
    {
      if d in s.phases && t.phases[d] == s.phases[d] {
        PhaseStaysDone(s.db, t.db, s.phases[d]);
      }
    }
  }

  lemma {:induction false} RunKeeps(s: State, actions: seq<Action>, t: State)
    requires Inv(s) && Exec(s, actions) == Some(t)
    ensures Inv(t)
    decreases |actions|
  {
    if actions == [] {
    } else {
      var n := |actions| - 1;
      var before := Exec(s, actions[..n]).value;
      RunKeeps(s, actions[..n], before);
      if actions[n].Statement? {
        StatementKeeps(before, actions[n], t);
      } else {
        OtherStepKeeps(before, actions[n], t);
      }
    }
  }

  /**
   Main result. In every interleaving of dispatchers, failures, crashes and worker updates, a stored
   eval run has its eval set and every item of the bundle that first inserted it.
   */
  lemma StoredRunsAreComplete(requests: set<nat>, actions: seq<Action>, s: State)
    requires Exec(State(Db(requests, map[], map[], map[]), map[], map[]), actions) == Some(s)
    ensures forall id <- s.db.runs.Keys ::
      && s.db.runs[id].setId in s.db.sets && id in s.first && s.first[id].evalSet.id in s.db.sets
      && forall item <- s.first[id].items :: (item.setId, item.request) in s.db.items
  {
    RunKeeps(State(Db(requests, map[], map[], map[]), map[], map[]), actions, s);
  }

  /** A dispatch that has begun and issued `k` statements, each with success. */
  ghost function Undisturbed(d: Dispatcher, b: Bundle, k: nat): seq<Action> {
    if k == 0 then [Begin(d, b)] else Undisturbed(d, b, k - 1) + [Statement(d, Success)]
  }

  lemma NextStatement(s: State, d: Dispatcher, b: Bundle, k: nat) returns (t: State)
    requires d in s.phases && s.phases[d] == Busy(b, k) && k + 1 < |Ops(b)| && Perform(s.db, Ops(b)[k]).Some?
    ensures Step(s, Statement(d, Success)) == Some(t)
    ensures t.db == Perform(s.db, Ops(b)[k]).value && d in t.phases && t.phases[d] == Busy(b, k + 1)
  {
    t := Step(s, Statement(d, Success)).value;
  }

  lemma BeginRuns(s: State, d: Dispatcher, b: Bundle) returns (t: State)
    requires d in s.phases ==> s.phases[d].Idle?
    ensures Exec(s, [Begin(d, b)]) == Some(t) && t == s.(phases := s.phases[d := Busy(b, 0)])
  {
    t := s.(phases := s.phases[d := Busy(b, 0)]);
    Runs.ExecOne(Step, s, [], s, Begin(d, b), t);
    assert [] + [Begin(d, b)] == [Begin(d, b)];
  }

  lemma PerformPrefix(db: Db, ops: seq<Op>, k: nat)
    requires 0 < k <= |ops| && PerformAll(db, ops[..k]).Some?
    ensures PerformAll(db, ops[..k - 1]).Some?
    ensures Perform(PerformAll(db, ops[..k - 1]).value, ops[k - 1]) == PerformAll(db, ops[..k])
  {
    assert ops[..k] == ops[..k - 1] + [ops[k - 1]];
    PerformSnoc(db, ops[..k - 1], ops[k - 1]);
  }

  /** An undisturbed dispatch is such a run, statement after statement, short of its last one. */
  lemma {:induction false} DispatchRuns(s: State, d: Dispatcher, b: Bundle, k: nat) returns (t: State)
    requires (d in s.phases ==> s.phases[d].Idle?) && k < |Ops(b)| && PerformAll(s.db, Ops(b)[..k]).Some?
    ensures Exec(s, Undisturbed(d, b, k)) == Some(t)
    ensures t.db == PerformAll(s.db, Ops(b)[..k]).value && d in t.phases && t.phases[d] == Busy(b, k)
    decreases k
  {
    if k == 0 {
      t := BeginRuns(s, d, b);
      assert Ops(b)[..0] == [];
    } else {
      PerformPrefix(s.db, Ops(b), k);
      var before := DispatchRuns(s, d, b, k - 1);
      t := NextStatement(before, d, b, k - 1);
      Runs.ExecOne(Step, s, Undisturbed(d, b, k - 1), before, Statement(d, Success), t);
    }
  }

  /** Its last statement stores the run and ends it, and a worker may then set the run's status. */
  lemma LastStatementRuns(s: State, d: Dispatcher, b: Bundle, status: string) returns (t: State, u: State)
    requires d in s.phases && s.phases[d] == Busy(b, |Ops(b)| - 1) && b.run.setId in s.db.sets
    ensures Exec(s, [Statement(d, Success), Work(b.run.id, status)]) == Some(u)
    ensures Step(s, Statement(d, Success)) == Some(t) && t.phases[d].Idle? && Stores(s.db, RunOp(b.run), t.db)
    ensures u.db.runs == t.db.runs[b.run.id := t.db.runs[b.run.id].(status := status)]
  {
    assert Ops(b)[|Ops(b)| - 1] == RunOp(b.run);
    t := Step(s, Statement(d, Success)).value;
    PerformedIsStored(s.db, RunOp(b.run), t.db);
    u := Step(t, Work(b.run.id, status)).value;
    Runs.ExecOne(Step, s, [], s, Statement(d, Success), t);
    Runs.ExecOne(Step, s, [] + [Statement(d, Success)], t, Work(b.run.id, status), u);
    assert [] + [Statement(d, Success)] + [Work(b.run.id, status)]
        == [Statement(d, Success), Work(b.run.id, status)];
  }

  // ---- What the statements store ----------------------------------------------------------------

  /**
   Row by row: a set is replaced; an item is inserted unless its set has that request; a run takes the bundle's
   columns, and its status only if it is new. Nothing else changes.
   */
  ghost predicate Stores(before: Db, op: Op, after: Db) {
    && after.requests == before.requests
    && (!op.SetOp? ==> after.sets == before.sets)
    && (!op.ItemOp? ==> after.items == before.items)
    && (!op.RunOp? ==> after.runs == before.runs)
    && match op
       case SetOp(s) =>
         s.id in after.sets && after.sets == before.sets[s.id := after.sets[s.id]] && after.sets[s.id] == s
       case ItemOp(item) =>
         var p := PairOf(item);
         p in after.items && if p in before.items then after.items == before.items
                             else after.items - {p} == before.items && after.items[p] == item.id
       case RunOp(run) =>
         && run.id in after.runs && after.runs == before.runs[run.id := after.runs[run.id]]
         && after.runs[run.id].id == run.id && after.runs[run.id].setId == run.setId
         && after.runs[run.id].targetModel == run.targetModel && after.runs[run.id].evaluators == run.evaluators
         && (run.id in before.runs ==> after.runs[run.id].status == before.runs[run.id].status)
         && (run.id !in before.runs ==> after.runs[run.id].status == run.status)
  }

  lemma PerformedIsStored(db: Db, op: Op, out: Db)
    requires Perform(db, op) == Some(out)
    ensures Stores(db, op, out)
  {
    if op.ItemOp? && PairOf(op.item) !in db.items {
      assert out.items - {PairOf(op.item)} == db.items;
    }
  }

  /** The steps of every dispatcher store just that, or nothing. */
  lemma StatementStores(s: State, a: Action, t: State)
    requires a.Statement? && Step(s, a) == Some(t)
    ensures
      var Busy(b, next) := s.phases[a.d];
      next < |Ops(b)| && (t.db == s.db || Stores(s.db, Ops(b)[next], t.db))
  {
    var Busy(b, next) := s.phases[a.d];
    if Perform(s.db, Ops(b)[next]).Some? {
      PerformedIsStored(s.db, Ops(b)[next], Perform(s.db, Ops(b)[next]).value);
    }
  }

  /** However often its job is delivered again, a stored run keeps its status in every run until a worker sets it. */
  lemma {:induction false} StatusStaysUntilWork(s: State, actions: seq<Action>, t: State, id: nat)
    requires id in s.db.runs && Exec(s, actions) == Some(t) && forall a <- actions :: a.Work? ==> a.id != id
    ensures id in t.db.runs && t.db.runs[id].status == s.db.runs[id].status
    decreases |actions|
  {
    if actions == [] {
    } else {
      var n := |actions| - 1;
      var m := Exec(s, actions[..n]).value;
      assert actions[n] in actions;
      StatusStaysUntilWork(s, actions[..n], m, id);
      if actions[n].Statement? {
        StatementStores(m, actions[n], t);
      }
    }
  }

  /** The table of items after the first `n` of a bundle: the old ones, and of each new pair the first item. */
  ghost predicate ItemsStored(before: map<(nat, nat), nat>, items: seq<Item>, n: int, after: map<(nat, nat), nat>)
    requires 0 <= n <= |items|
  {
    && (forall p <- before :: p in after && after[p] == before[p])
    && (forall i :: 0 <= i < n ==> PairOf(items[i]) in after)
    && forall p <- after :: p !in before ==> exists i :: 0 <= i < n && IsFirst(items, i, p) && after[p] == items[i].id
  }

  ghost predicate IsFirst(items: seq<Item>, i: int, p: (nat, nat))
    requires 0 <= i < |items|
  {
    PairOf(items[i]) == p && forall j :: 0 <= j < i ==> PairOf(items[j]) != p
  }

  lemma NextItemStored(before: map<(nat, nat), nat>, items: seq<Item>, n: nat, db: Db, after: Db)
    requires n < |items| && ItemsStored(before, items, n, db.items) && Stores(db, ItemOp(items[n]), after)
    ensures ItemsStored(before, items, n + 1, after.items)
  {
    var q := PairOf(items[n]);
    forall p | p in db.items
      ensures p in after.items && after.items[p] == db.items[p]
    {
      if q !in db.items {
        assert p in after.items - {q};
      }
    }
    forall p | p in after.items && p !in before
      ensures exists i :: 0 <= i < n + 1 && IsFirst(items, i, p) && after.items[p] == items[i].id
    {
      if p in db.items {
        var i :| 0 <= i < n && IsFirst(items, i, p) && db.items[p] == items[i].id;
      } else {
        assert p !in after.items - {q} ==> p == q;
        assert IsFirst(items, n, q);
      }
    }
  }

  // ---- The executor -----------------------------------------------------------------------------

  class EvalRepository {
    var db: Db
    ghost var errors: nat  // how many statements have reported an error

    constructor (requests: set<nat>)
      ensures db == Db(requests, map[], map[], map[]) && errors == 0
    {
      db, errors := Db(requests, map[], map[], map[]), 0;
    }

    /** One statement of a dispatch that began in `start` and has performed `done`. */
    method Issue(op: Op, ghost start: Db, ghost done0: seq<Op>) returns (ok: bool, ghost done: seq<Op>)
      requires PerformAll(start, done0) == Some(db)
      modifies this
      ensures PerformAll(start, done) == Some(db)
      ensures done == done0 + [op] || (!ok && done == done0)
      ensures errors == old(errors) + (if ok then 0 else 1) && (Perform(old(db), op).None? ==> !ok)
      ensures Stores(old(db), op, db) || (!ok && db == old(db))
    {
      done := done0;
      PerformSnoc(start, done0, op);
      var after := Perform(db, op);
      if after.None? {
        errors := errors + 1;
        return false, done;
      }
      var out := AnyOutcome();
      if TookEffect(out) {
        PerformedIsStored(db, op, after.value);
        db := after.value;
        done := done0 + [op];
      }
      errors := errors + Errors(out);
      ok := out.Success?;
    }

    /**
     `fetched` is Butler's answer: an error, no such run, or the bundle. `done` is what took effect. It succeeds
     exactly if there is a bundle and no statement fails.
     */
    method ExecuteEval(fetched: Result<Option<Bundle>, Failed>) returns (ok: bool, ghost done: seq<Op>)
      modifies this
      ensures fetched.Err? || fetched.value.None? ==> !ok && db == old(db)
      ensures fetched.Ok? && fetched.value.Some? ==> done <= Ops(fetched.value.value)
      ensures PerformAll(old(db), done) == Some(db)
      ensures ok ==> done == Ops(fetched.value.value)
      ensures ok <==> fetched.Ok? && fetched.value.Some? && errors == old(errors)
      // Whatever fails, stored runs keep their status.
      ensures forall id <- old(db).runs :: id in db.runs && db.runs[id].status == old(db).runs[id].status
      ensures ok ==>
        var b := fetched.value.value;
        && db.requests == old(db).requests && db.sets == old(db).sets[b.evalSet.id := b.evalSet]
        && ItemsStored(old(db).items, b.items, |b.items|, db.items)
        && b.run.id in db.runs && db.runs == old(db).runs[b.run.id := db.runs[b.run.id]]
        && db.runs[b.run.id]
           == b.run.(status := if b.run.id in old(db).runs then old(db).runs[b.run.id].status else b.run.status)
    {
      ok, done := false, [];
      if fetched.Err? || fetched.value.None? {
        return;
      }
      var b := fetched.value.value;
      ghost var start := db;
      ok, done := Issue(SetOp(b.evalSet), start, done);
      assert Ops(b)[..1] == [] + [SetOp(b.evalSet)];
      if !ok {
        return;
      }
      ok, done := UpsertItems(b, start, done);
      if !ok {
        return;
      }
      assert Ops(b) == Ops(b)[..|b.items| + 1] + [RunOp(b.run)];
      ok, done := Issue(RunOp(b.run), start, done);
    }

    /** The items one by one, behind the statement of their set. */
    method UpsertItems(b: Bundle, ghost start: Db, ghost done0: seq<Op>) returns (ok: bool, ghost done: seq<Op>)
      requires PerformAll(start, done0) == Some(db) && done0 == Ops(b)[..1]
      modifies this
      ensures PerformAll(start, done) == Some(db) && done <= Ops(b)
      ensures if ok then errors == old(errors) else errors > old(errors)
      ensures db == old(db).(items := db.items)
      ensures ok ==> done == Ops(b)[..|b.items| + 1] && ItemsStored(old(db).items, b.items, |b.items|, db.items)
    {
      ok, done := true, done0;
      var i := 0;
      while ok && i < |b.items|
        invariant 0 <= i <= |b.items|
        invariant PerformAll(start, done) == Some(db) && done <= Ops(b)
        invariant ok ==> done == Ops(b)[..i + 1]
        invariant if ok then errors == old(errors) else errors > old(errors)
        invariant db == old(db).(items := db.items)
        invariant ok ==> ItemsStored(old(db).items, b.items, i, db.items)
      {
        assert Ops(b)[..i + 2] == Ops(b)[..i + 1] + [ItemOp(b.items[i])];
        ghost var before := db;
        ok, done := Issue(ItemOp(b.items[i]), start, done);
        if ok {
          NextItemStored(old(db).items, b.items, i, before, db);
        }
        i := i + 1;
      }
    }
  }
}
