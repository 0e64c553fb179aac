/**
 The path of a usage log, from the proxy's offer to Butler, as a system of atomic steps:
 bounded queue -> writer goroutine -> `llm_requests` -> one batch reporter per organisation.
 Steps of the proxy, the writer and all reporters interleave in any order, and every insert,
 send and mark may fail, with or without having taken effect.

 Logs are numbered by the order in which they are offered; the number stands for the
 freshly drawn UUID of the log.
 */
module UsagePipeline {
  import Runs
  import opened Wrappers
  import opened Pages

  type Org = nat

  const QUEUE_CAPACITY: nat := 1000

  datatype Row = Row(org: Option<Org>, createdAt: int, synced: bool)

  /** What a reporter holds between two of its statements. */
  datatype Phase = Idle | Fetched(ids: seq<nat>) | Sent(ids: seq<nat>)

  datatype State = State(
    orgOf: seq<Option<Org>>,      // one entry per log offered so far
    dropped: set<nat>,
    queue: seq<nat>,
    writing: Option<nat>,
    insertFailed: set<nat>,
    lost: set<nat>,               // in memory when the process died
    rows: map<nat, Row>,          // the llm_requests table
    taken: seq<nat>,              // history: logs the writer took, in order
    closed: bool,
    writerStopped: bool,
    reporters: map<Org, Phase>,
    accepted: set<nat>)           // what Butler has ingested

  datatype Action =
    | Offer(org: Option<Org>)
    | Take
    | Insert(at: int, out: Outcome)
    | Close
    | StopWriter
    | Crash
    | StartReporter(o: Org)
    | StopReporter(o: Org)
    | Fetch(o: Org, page: seq<nat>, limit: nat)
    | Send(o: Org, out: Outcome)
    | Mark(o: Org, out: Outcome)

  const INITIAL := State([], {}, [], None, {}, {}, map[], [], false, false, map[], {})

  function CreatedAt(rows: map<nat, Row>): map<nat, int> {
    map id <- rows.Keys :: rows[id].createdAt
  }

  /** Rows the unsynced query of organisation `o` ranges over. */
  function Unsynced(rows: map<nat, Row>, o: Org): set<nat> {
    set id <- rows.Keys | !rows[id].synced && rows[id].org == Some(o)
  }

  /** `UPDATE llm_requests SET synced_to_butler = true WHERE id IN ids`. */
  function MarkRows(rows: map<nat, Row>, ids: seq<nat>): map<nat, Row> {
    map id <- rows.Keys :: if id in ids then rows[id].(synced := true) else rows[id]
  }

  ghost function Step(s: State, a: Action): Option<State> {
    match a
    case Offer(org) =>
      var id := |s.orgOf|;
      var s1 := s.(orgOf := s.orgOf + [org]);
      if |s.queue| < QUEUE_CAPACITY then Some(s1.(queue := s.queue + [id]))
      else Some(s1.(dropped := s.dropped + {id}))
    case Take =>
      if s.queue == [] || s.writing.Some? || s.writerStopped then None
      else Some(s.(queue := s.queue[1..], writing := Some(s.queue[0]), taken := s.taken + [s.queue[0]]))
    case Insert(at, out) =>
      if s.writing.None? || s.writing.value >= |s.orgOf| then None
      else
        var id := s.writing.value;
        if TookEffect(out) then Some(s.(writing := None, rows := s.rows[id := Row(s.orgOf[id], at, false)]))
        else Some(s.(writing := None, insertFailed := s.insertFailed + {id}))
    case Close => Some(s.(closed := true))
    case StopWriter =>
      if s.closed && s.queue == [] && s.writing.None? then Some(s.(writerStopped := true)) else None
    case Crash =>
      Some(s.(lost := s.lost + Elements(s.queue) + (if s.writing.Some? then {s.writing.value} else {}),
              queue := [], writing := None, closed := false, writerStopped := false,
              reporters := map o <- s.reporters.Keys :: Idle))
    case StartReporter(o) =>
      if o in s.reporters then None else Some(s.(reporters := s.reporters[o := Idle]))
    case StopReporter(o) =>
      if Holds(s, o).Idle? then Some(s.(reporters := s.reporters - {o})) else None
    case Fetch(o, page, limit) =>
      if o in s.reporters && s.reporters[o].Idle? && page != []
         && IsPage(page, Unsynced(s.rows, o), CreatedAt(s.rows), limit)
      then Some(s.(reporters := s.reporters[o := Fetched(page)])) else None
    case Send(o, out) =>
      if !Holds(s, o).Fetched? then None
      else
        var ids := Holds(s, o).ids;
        Some(s.(reporters := s.reporters[o := if out.Success? then Sent(ids) else Idle],
                accepted := if TookEffect(out) then s.accepted + Elements(ids) else s.accepted))
    case Mark(o, out) =>
      if !Holds(s, o).Sent? then None
      else
        Some(s.(reporters := s.reporters[o := Idle],
                rows := if TookEffect(out) then MarkRows(s.rows, Holds(s, o).ids) else s.rows))
  }

  function Holds(s: State, o: Org): Phase {
    if o in s.reporters then s.reporters[o] else Idle
  }

  /** The state after a run of steps, or `None` when some step was not possible. */
  ghost function Exec(s: State, actions: seq<Action>): Option<State> {
    Runs.Exec(Step, s, actions)
  }

  // ---- Safety over every run -------------------------------------------------------------------

  datatype Place = Dropped | Queued | Writing | InsertFailed | Lost | StoredUnsynced | StoredSynced

  predicate At(s: State, id: nat, p: Place) {
    match p
    case Dropped => id in s.dropped
    case Queued => id in s.queue
    case Writing => s.writing == Some(id)
    case InsertFailed => id in s.insertFailed
    case Lost => id in s.lost
    case StoredUnsynced => id in s.rows && !s.rows[id].synced
    case StoredSynced => id in s.rows && s.rows[id].synced
  }

  ghost predicate InExactlyOnePlace(s: State, id: nat) {
    exists p :: At(s, id, p) && forall q :: At(s, id, q) ==> q == p
  }

  ghost predicate Increasing(ids: seq<nat>) {
    forall i, j :: 0 <= i < j < |ids| ==> ids[i] < ids[j]
  }

  function Pending(s: State): set<nat> {
    set id | id in s.queue
  }

  function InHand(s: State): set<nat> {
    if s.writing.Some? then {s.writing.value} else {}
  }

  /** No log is in two places, or nowhere, or somewhere before it was offered. */
  ghost predicate Partitioned(s: State) {
    && Pending(s) !! InHand(s) !! s.dropped !! s.insertFailed !! s.lost !! s.rows.Keys
    && Pending(s) + InHand(s) + s.dropped + s.insertFailed + s.lost + s.rows.Keys == Below(|s.orgOf|)
  }

  function InFlight(phase: Phase): seq<nat> {
    if phase.Idle? then [] else phase.ids
  }

  /** What a reporter holds are stored rows of its own organisation, and after the send they are at Butler. */
  ghost predicate PhaseOk(rows: map<nat, Row>, accepted: set<nat>, o: Org, phase: Phase) {
    forall id <- InFlight(phase) :: id in rows && rows[id].org == Some(o) && (phase.Sent? ==> id in accepted)
  }

  /** Rows and Butler only hold what the writer stored, and synced rows are at Butler. */
  ghost predicate RowsOk(s: State) {
    && (forall id <- s.rows.Keys :: id < |s.orgOf| && s.rows[id].org == s.orgOf[id])
    && (forall id <- s.rows.Keys :: s.rows[id].synced ==> id in s.accepted)
    && (forall id <- s.accepted :: id in s.rows && s.rows[id].org.Some?)
  }

  ghost predicate Delivered(s: State) {
    RowsOk(s) && forall o <- s.reporters.Keys :: PhaseOk(s.rows, s.accepted, o, s.reporters[o])
  }

  /** Rows stay and keep their organisation; only the synced flag may rise. Butler forgets nothing. */
  ghost predicate Grows(s: State, t: State) {
    && s.accepted <= t.accepted
    && (forall id <- s.rows.Keys :: id in t.rows && t.rows[id].org == s.rows[id].org
                                    && (s.rows[id].synced ==> t.rows[id].synced))
  }

  /** Logs leave the queue in the order in which they were offered. */
  ghost predicate Fifo(s: State) {
    && |s.queue| <= QUEUE_CAPACITY
    && Increasing(s.taken + s.queue)
    && (forall i :: 0 <= i < |s.taken + s.queue| ==> (s.taken + s.queue)[i] < |s.orgOf|)
    && (s.writing.Some? ==> s.taken != [] && s.writing.value == s.taken[|s.taken| - 1])
  }

  ghost predicate Inv(s: State) {
    Fifo(s) && Partitioned(s) && Delivered(s)
  }

  lemma FifoOffer(s: State, org: Option<Org>, t: State)
    requires Fifo(s) && Step(s, Offer(org)) == Some(t)
    ensures Fifo(t)
  {
    assert |s.queue| < QUEUE_CAPACITY ==> t.taken + t.queue == s.taken + s.queue + [|s.orgOf|];
  }

  lemma FifoTakeOrCrash(s: State, a: Action, t: State)
    requires a.Take? || a.Crash?
    requires Fifo(s) && Step(s, a) == Some(t)
    ensures Fifo(t)
  {
    var all := s.taken + s.queue;
    if a.Take? {
      assert t.taken + t.queue == all;
    } else {
      assert t.taken + t.queue == s.taken;
      assert forall i :: 0 <= i < |s.taken| ==> s.taken[i] == all[i];
    }
  }

  lemma FifoStep(s: State, a: Action, t: State)
    requires Fifo(s) && Step(s, a) == Some(t)
    ensures Fifo(t)
  {
    match a
    case Offer(org) => FifoOffer(s, org, t);
    case Take => FifoTakeOrCrash(s, a, t);
    case Crash => FifoTakeOrCrash(s, a, t);
    case _ =>
  }

  /** Taking the head of the queue moves just that log. */
  lemma TakeMovesHead(s: State, t: State)
    requires Fifo(s) && Step(s, Take) == Some(t)
    ensures Pending(t) + {s.queue[0]} == Pending(s) && s.queue[0] !in Pending(t)
  {
    var all := s.taken + s.queue;
    assert forall i :: 0 <= i < |s.queue| ==> all[|s.taken| + i] == s.queue[i];
    assert s.queue == [s.queue[0]] + t.queue;
  }

  lemma PartitionedOffer(s: State, org: Option<Org>, t: State)
    requires Partitioned(s) && Step(s, Offer(org)) == Some(t)
    ensures Partitioned(t)
  {
    assert Pending(t) == if |s.queue| < QUEUE_CAPACITY then Pending(s) + {|s.orgOf|} else Pending(s);
  }

  lemma PartitionedInsert(s: State, a: Action, t: State)
    requires a.Insert? && Partitioned(s) && Step(s, a) == Some(t)
    ensures Partitioned(t)
  {
    assert Pending(t) == Pending(s) && InHand(t) == {};
    if TookEffect(a.out) {
      assert t.rows.Keys == s.rows.Keys + InHand(s);
    } else {
      assert t.insertFailed == s.insertFailed + InHand(s);
    }
  }

  lemma PartitionedCrash(s: State, t: State)
    requires Partitioned(s) && Step(s, Crash) == Some(t)
    ensures Partitioned(t)
  {
    assert Elements(s.queue) == Pending(s) && Pending(t) == {};
  }

  /** Closing the writer and the steps of the reporters move no log. */
  lemma OthersMoveNoLog(s: State, a: Action, t: State)
    requires !a.Offer? && !a.Take? && !a.Insert? && !a.Crash? && Step(s, a) == Some(t)
    ensures t.orgOf == s.orgOf && t.dropped == s.dropped && t.queue == s.queue && t.writing == s.writing
    ensures t.insertFailed == s.insertFailed && t.lost == s.lost && t.rows.Keys == s.rows.Keys
  {
    if a.Mark? && TookEffect(a.out) {
      assert MarkRows(s.rows, Holds(s, a.o).ids).Keys == s.rows.Keys;
    }
  }

  lemma PartitionedUnmoved(s: State, t: State)
    requires Partitioned(s)
    requires t.orgOf == s.orgOf && t.dropped == s.dropped && t.queue == s.queue && t.writing == s.writing
    requires t.insertFailed == s.insertFailed && t.lost == s.lost && t.rows.Keys == s.rows.Keys
    ensures Partitioned(t)
  {
    assert Pending(t) == Pending(s) && InHand(t) == InHand(s);
  }

  lemma PartitionedStep(s: State, a: Action, t: State)
    requires Fifo(s) && Partitioned(s) && Step(s, a) == Some(t)
    ensures Partitioned(t)
  {
    match a
    case Offer(org) => PartitionedOffer(s, org, t);
    case Take => TakeMovesHead(s, t);
    case Insert(_, _) => PartitionedInsert(s, a, t);
    case Crash => PartitionedCrash(s, t);
    case _ =>
      OthersMoveNoLog(s, a, t);
      PartitionedUnmoved(s, t);
  }

  lemma RowsInsert(s: State, a: Action, t: State)
    requires a.Insert? && Partitioned(s) && RowsOk(s) && Step(s, a) == Some(t)
    ensures RowsOk(t) && Grows(s, t)
  {
    var id := s.writing.value;
    assert id in InHand(s) && id !in s.rows.Keys;
    if TookEffect(a.out) {
      RowAdded(s, id, a.at, t);
    } else {
      assert t.rows == s.rows && t.accepted == s.accepted && t.orgOf == s.orgOf;
    }
  }

  lemma RowAdded(s: State, id: nat, at: int, t: State)
    requires RowsOk(s) && id < |s.orgOf| && id !in s.rows
    requires t.rows == s.rows[id := Row(s.orgOf[id], at, false)] && t.orgOf == s.orgOf && t.accepted == s.accepted
    ensures RowsOk(t) && Grows(s, t)
  {
  }

  lemma RowsSend(s: State, a: Action, t: State)
    requires a.Send? && Delivered(s) && Step(s, a) == Some(t)
    ensures RowsOk(t) && Grows(s, t)
  {
    assert PhaseOk(s.rows, s.accepted, a.o, s.reporters[a.o]);
    assert t.rows == s.rows && t.orgOf == s.orgOf;
    assert forall id <- t.accepted :: id in s.accepted || id in Holds(s, a.o).ids;
  }

  lemma RowsMark(s: State, a: Action, t: State)
    requires a.Mark? && Delivered(s) && Step(s, a) == Some(t)
    ensures RowsOk(t) && Grows(s, t)
  {
    assert PhaseOk(s.rows, s.accepted, a.o, s.reporters[a.o]);
    assert t.accepted == s.accepted && t.orgOf == s.orgOf;
  }

  lemma RowsUntouched(s: State, a: Action, t: State)
    requires !a.Insert? && !a.Send? && !a.Mark? && Step(s, a) == Some(t)
    ensures t.rows == s.rows && t.accepted == s.accepted && s.orgOf <= t.orgOf
  {
  }

  lemma RowsStep(s: State, a: Action, t: State)
    requires Partitioned(s) && Delivered(s) && Step(s, a) == Some(t)
    ensures RowsOk(t) && Grows(s, t)
  {
    match a
    case Insert(_, _) => RowsInsert(s, a, t);
    case Send(_, _) => RowsSend(s, a, t);
    case Mark(_, _) => RowsMark(s, a, t);
    case _ => RowsUntouched(s, a, t);
  }

  /** What a reporter may hold after a step: what it held, nothing, a page just fetched, or a batch just accepted. */
  lemma PhaseAfter(s: State, a: Action, t: State, o: Org)
    requires Step(s, a) == Some(t) && o in t.reporters
    ensures
      || (o in s.reporters && t.reporters[o] == s.reporters[o])
      || t.reporters[o].Idle?
      || (t.reporters[o].Fetched? && t.rows == s.rows && forall id <- t.reporters[o].ids :: id in Unsynced(s.rows, o))
      || (t.reporters[o].Sent? && o in s.reporters && s.reporters[o] == Fetched(t.reporters[o].ids)
          && Elements(t.reporters[o].ids) <= t.accepted)
  {
  }

  lemma DeliveredStep(s: State, a: Action, t: State)
    requires Partitioned(s) && Delivered(s) && Step(s, a) == Some(t)
    ensures Delivered(t) && Grows(s, t)
  {
    RowsStep(s, a, t);
    forall o | o in t.reporters
      ensures PhaseOk(t.rows, t.accepted, o, t.reporters[o])
    {
      PhaseAfter(s, a, t, o);
      PhaseStaysOk(s, t, o);
    }
  }

  lemma PhaseStaysOk(s: State, t: State, o: Org)
    requires Delivered(s) && Grows(s, t) && o in t.reporters
    requires
      || (o in s.reporters && t.reporters[o] == s.reporters[o])
      || t.reporters[o].Idle?
      || (t.reporters[o].Fetched? && t.rows == s.rows && forall id <- t.reporters[o].ids :: id in Unsynced(s.rows, o))
      || (t.reporters[o].Sent? && o in s.reporters && s.reporters[o] == Fetched(t.reporters[o].ids)
          && Elements(t.reporters[o].ids) <= t.accepted)
    ensures PhaseOk(t.rows, t.accepted, o, t.reporters[o])
  {
    if o in s.reporters {
      assert PhaseOk(s.rows, s.accepted, o, s.reporters[o]);
    }
    forall id | id in InFlight(t.reporters[o])
      ensures id in t.rows && t.rows[id].org == Some(o) && (t.reporters[o].Sent? ==> id in t.accepted)
    {
      if t.reporters[o].Sent? {
        assert id in Elements(t.reporters[o].ids);
      }
    }
  }

  /**
   Main result. In every interleaving every log ever offered is in exactly one place, the queue is
   bounded and first-in first-out, and a row marked synced has been accepted by Butler.
   */
  lemma {:induction false} SafeInEveryRun(actions: seq<Action>, s: State)
    requires Exec(INITIAL, actions) == Some(s)
    ensures Inv(s)
    ensures forall id: nat :: id < |s.orgOf| <==> InExactlyOnePlace(s, id)
    ensures |s.queue| <= QUEUE_CAPACITY && Increasing(s.taken + s.queue)
    ensures forall id <- s.rows.Keys :: s.rows[id].synced ==> id in s.accepted && s.rows[id].org.Some?
    decreases |actions|
  {
    if actions == [] {
    } else {
      var before := Exec(INITIAL, actions[..|actions| - 1]).value;
      var a := actions[|actions| - 1];
      SafeInEveryRun(actions[..|actions| - 1], before);
      FifoStep(before, a, s);
      PartitionedStep(before, a, s);
      DeliveredStep(before, a, s);
    }
    forall id: nat
      ensures id < |s.orgOf| <==> InExactlyOnePlace(s, id)
    {
      OnePlace(s, id);
    }
  }

  lemma OnePlace(s: State, id: nat)
    requires Partitioned(s)
    ensures id < |s.orgOf| <==> InExactlyOnePlace(s, id)
  {
    var p := if id in s.queue then Queued else if s.writing == Some(id) then Writing
             else if id in s.dropped then Dropped else if id in s.insertFailed then InsertFailed
             else if id in s.lost then Lost
             else if id in s.rows && s.rows[id].synced then StoredSynced else StoredUnsynced;
    assert id in Pending(s) <==> id in s.queue;
    assert id in InHand(s) <==> s.writing == Some(id);
    assert id < |s.orgOf| <==> id in Below(|s.orgOf|);
    assert id < |s.orgOf| ==> At(s, id, p);
    assert forall q :: At(s, id, q) ==> q == p && id < |s.orgOf|;
  }

  // ---- Nothing stored is lost to the reporter ---------------------------------------------------

  /** From any safe state on, no run removes a row, clears a synced flag or changes an organisation. */
  lemma {:induction false} RowsAreKept(s: State, actions: seq<Action>, t: State)
    requires Inv(s) && Exec(s, actions) == Some(t)
    ensures Inv(t) && Grows(s, t)
    decreases |actions|
  {
    if actions == [] {
    } else {
      var before := Exec(s, actions[..|actions| - 1]).value;
      var a := actions[|actions| - 1];
      RowsAreKept(s, actions[..|actions| - 1], before);
      FifoStep(before, a, t);
      PartitionedStep(before, a, t);
      DeliveredStep(before, a, t);
    }
  }

  function Round(o: Org, page: seq<nat>, limit: nat): seq<Action> {
    [Fetch(o, page, limit), Send(o, Success), Mark(o, Success)]
  }

  lemma ExecThree(s: State, a: Action, b: Action, c: Action, s1: State, s2: State, s3: State)
    requires Step(s, a) == Some(s1) && Step(s1, b) == Some(s2) && Step(s2, c) == Some(s3)
    ensures Exec(s, [a, b, c]) == Some(s3)
  {
    assert [] + [a] == [a] && [a] + [b] == [a, b] && [a, b] + [c] == [a, b, c];
    Runs.ExecSnoc(Step, s, [], a);
    Runs.ExecSnoc(Step, s, [a], b);
    Runs.ExecSnoc(Step, s, [a, b], c);
  }

  lemma MarkingIsExact(rows: map<nat, Row>, o: Org, ids: seq<nat>)
    requires forall id <- ids :: id in Unsynced(rows, o)
    ensures Unsynced(MarkRows(rows, ids), o) == Unsynced(rows, o) - Elements(ids)
    ensures forall p :: p != o ==> Unsynced(MarkRows(rows, ids), p) == Unsynced(rows, p)
  {
    var after := MarkRows(rows, ids);
    forall id, p | id in rows
      ensures id in Unsynced(after, p) <==> id in Unsynced(rows, p) && id !in ids
    {
    }
    forall p | p != o
      ensures Unsynced(after, p) == Unsynced(rows, p)
    {
      assert forall id <- ids :: id !in Unsynced(rows, p);
    }
  }

  /** One undisturbed fetch, send and mark moves exactly its page from unsynced to delivered. */
  lemma RoundDrains(s: State, o: Org, page: seq<nat>, limit: nat) returns (t: State)
    requires o in s.reporters && s.reporters[o].Idle? && page != []
    requires IsPage(page, Unsynced(s.rows, o), CreatedAt(s.rows), limit)
    ensures Exec(s, Round(o, page, limit)) == Some(t)
    ensures t.reporters == s.reporters && t.rows == MarkRows(s.rows, page)
    ensures t.accepted == s.accepted + Elements(page)
  {
    var s1 := s.(reporters := s.reporters[o := Fetched(page)]);
    var s2 := s1.(reporters := s.reporters[o := Sent(page)], accepted := s.accepted + Elements(page));
    t := s2.(reporters := s.reporters, rows := MarkRows(s.rows, page));
    assert s1.reporters[o := Sent(page)] == s2.reporters;
    assert s2.reporters[o := Idle] == s.reporters;
    ExecThree(s, Fetch(o, page, limit), Send(o, Success), Mark(o, Success), s1, s2, t);
  }

  /**
   No stored row that carries an organisation is lost to its reporter: in every safe state with the
   reporter idle, `Batches(k, limit)` rounds (that is, `ceil(k / limit)`) deliver and mark all `k`
   unsynced rows of the organisation, whatever became of earlier sends, and touch no other organisation.
   */
  lemma {:induction false} EveryRowCanBeDelivered(s: State, o: Org, limit: nat) returns (actions: seq<Action>, t: State)
    requires Inv(s) && o in s.reporters && s.reporters[o].Idle? && limit > 0
    ensures Exec(s, actions) == Some(t)
    ensures |actions| == 3 * Batches(|Unsynced(s.rows, o)|, limit)
    ensures forall id <- s.rows.Keys :: s.rows[id].org == Some(o) ==>
      id in t.rows && t.rows[id].synced && id in t.accepted
    ensures forall p :: p != o ==> Unsynced(t.rows, p) == Unsynced(s.rows, p)
    decreases |Unsynced(s.rows, o)|
  {
    var open := Unsynced(s.rows, o);
    if open == {} {
      actions, t := [], s;
      assert forall id <- s.rows.Keys :: id !in open;
    } else {
      var page := PageExists(open, CreatedAt(s.rows), limit);
      ShortPageIsAll(page, open, CreatedAt(s.rows), limit);
      var mid := RoundDrains(s, o, page, limit);
      MarkingIsExact(s.rows, o, page);
      RowsAreKept(s, Round(o, page, limit), mid);
      var rest;
      rest, t := EveryRowCanBeDelivered(mid, o, limit);
      actions := Round(o, page, limit) + rest;
      Runs.ExecAppend(Step, s, Round(o, page, limit), rest);
      assert |open - Elements(page)| == |open| - |page|;
      forall id | id in s.rows && s.rows[id].org == Some(o)
        ensures id in t.rows && t.rows[id].synced && id in t.accepted
      {
        assert id in mid.rows && mid.rows[id].org == Some(o);
      }
    }
  }
}
