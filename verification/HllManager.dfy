/**
 The counter manager: per key a sketch of the values seen and a count since the last flush, written back to
 the metadata key table by a periodic flush that runs while further values are added.

 A sketch is the set of values inserted. The snapshot that a flush takes of an entry copies its count but
 shares its sketch.
 */
module HllManager {
  import Runs
  import opened Wrappers

  type Key = nat
  type Sketch = set<string>

  datatype Entry = Entry(sketch: Sketch, dirty: bool, count: nat)

  datatype Row = Row(sketch: Option<Sketch>, count: nat)

  /** A marshalled entry on its way to the table. */
  datatype Sending = Sending(key: Key, sketch: Sketch, count: nat)

  /** What happened since the start: values and number of adds, counts lost, and the rows' counts at first sight. */
  datatype Ledger = Ledger(added: map<Key, Sketch>, adds: map<Key, nat>, lost: map<Key, nat>, base: map<Key, nat>)

  datatype State = State(mem: map<Key, Entry>, rows: map<Key, Row>, flight: map<Key, nat>, sending: Option<Sending>,
                         ledger: Ledger)

  datatype Action =
    | Add(key: Key, value: string)
    | Register(key: Key)
    | Snapshot
    | Marshal(key: Key, ok: bool)
    | Update(out: Outcome)

  function Count(m: map<Key, nat>, k: Key): nat {
    if k in m then m[k] else 0
  }

  function Values(m: map<Key, Sketch>, k: Key): Sketch {
    if k in m then m[k] else {}
  }

  function EntryAt(mem: map<Key, Entry>, k: Key): Entry {
    if k in mem then mem[k] else Entry({}, true, 0)
  }

  function AfterAdd(mem: map<Key, Entry>, k: Key, v: string): map<Key, Entry> {
    mem[k := Entry(EntryAt(mem, k).sketch + {v}, true, EntryAt(mem, k).count + 1)]
  }

  function NoteAdd(l: Ledger, k: Key, v: string): Ledger {
    l.(added := l.added[k := Values(l.added, k) + {v}], adds := l.adds[k := Count(l.adds, k) + 1])
  }

  function NoteLoss(l: Ledger, k: Key, n: nat): Ledger {
    l.(lost := l.lost[k := Count(l.lost, k) + n])
  }

  function DirtyCounts(mem: map<Key, Entry>): map<Key, nat> {
    map k <- mem.Keys | mem[k].dirty :: mem[k].count
  }

  function Cleaned(mem: map<Key, Entry>): map<Key, Entry> {
    map k <- mem.Keys :: if mem[k].dirty then Entry(mem[k].sketch, false, 0) else mem[k]
  }

  /** The update statement; it changes nothing when the key has no row. */
  function Written(rows: map<Key, Row>, s: Sending): map<Key, Row> {
    if s.key in rows then rows[s.key := Row(Some(s.sketch), rows[s.key].count + s.count)] else rows
  }

  ghost function Step(s: State, a: Action): Option<State> {
    match a
    case Add(k, v) => Some(s.(mem := AfterAdd(s.mem, k, v), ledger := NoteAdd(s.ledger, k, v)))
    case Register(k) =>
      if k in s.rows then Some(s)
      else Some(s.(rows := s.rows[k := Row(None, 0)], ledger := s.ledger.(base := s.ledger.base[k := 0])))
    case Snapshot =>
      if s.flight != map[] || s.sending.Some? then None
      else Some(s.(mem := Cleaned(s.mem), flight := DirtyCounts(s.mem)))
    case Marshal(k, ok) =>
      if k !in s.flight || k !in s.mem || s.sending.Some? then None
      else if ok then
        Some(s.(flight := s.flight - {k}, sending := Some(Sending(k, s.mem[k].sketch, s.flight[k]))))
      else Some(s.(flight := s.flight - {k}, ledger := NoteLoss(s.ledger, k, s.flight[k])))
    case Update(out) =>
      if s.sending.None? then None
      else if TookEffect(out) && s.sending.value.key in s.rows then
        Some(s.(rows := Written(s.rows, s.sending.value), sending := None))
      else Some(s.(sending := None, ledger := NoteLoss(s.ledger, s.sending.value.key, s.sending.value.count)))
  }

  ghost function Exec(s: State, actions: seq<Action>): Option<State> {
    Runs.Exec(Step, s, actions)
  }

  // ---- Conservation -----------------------------------------------------------------------------

  function SentCount(s: State, k: Key): nat {
    if s.sending.Some? && s.sending.value.key == k then s.sending.value.count else 0
  }

  /** What the table's count of a key has gained since its row was first seen. */
  function Gain(s: State, k: Key): int {
    if k in s.rows then s.rows[k].count - Count(s.ledger.base, k) else 0
  }

  ghost predicate Conserved(s: State, k: Key) {
    Count(s.ledger.adds, k)
      == Gain(s, k) + EntryAt(s.mem, k).count + Count(s.flight, k) + SentCount(s, k) + Count(s.ledger.lost, k)
  }

  ghost predicate Inv(s: State) {
    && (forall k: Key :: Conserved(s, k))
    && (forall k: Key :: Values(s.ledger.added, k) <= EntryAt(s.mem, k).sketch)
    && (forall k <- s.mem :: !s.mem[k].dirty ==> s.mem[k].count == 0)
    && (forall k <- s.flight :: k in s.mem)
    && (s.sending.Some? ==>
          && s.sending.value.key in s.mem && s.sending.value.key !in s.flight
          && s.sending.value.sketch <= s.mem[s.sending.value.key].sketch)
  }

  /** A start-up: any table, and any sketches loaded from it into memory. */
  ghost predicate Start(s: State) {
    && s.flight == map[] && s.sending.None?
    && (forall k <- s.mem :: !s.mem[k].dirty && s.mem[k].count == 0)
    && s.ledger.added == map[] && s.ledger.adds == map[] && s.ledger.lost == map[]
    && s.ledger.base == map k <- s.rows.Keys :: s.rows[k].count
  }

  lemma AddKeepsCounts(s: State, k: Key, v: string, t: State, j: Key)
    requires Conserved(s, j) && Step(s, Add(k, v)) == Some(t)
    ensures Conserved(t, j)
  {
  }

  lemma AddKeepsValues(s: State, k: Key, v: string, t: State, j: Key)
    requires Values(s.ledger.added, j) <= EntryAt(s.mem, j).sketch && Step(s, Add(k, v)) == Some(t)
    ensures Values(t.ledger.added, j) <= EntryAt(t.mem, j).sketch
  {
  }

  lemma AddKeeps(s: State, k: Key, v: string, t: State)
    requires Inv(s) && Step(s, Add(k, v)) == Some(t)
    ensures Inv(t)
  {
    forall j: Key
      ensures Conserved(t, j)
      ensures Values(t.ledger.added, j) <= EntryAt(t.mem, j).sketch
    {
      assert Conserved(s, j) && Values(s.ledger.added, j) <= EntryAt(s.mem, j).sketch;
      AddKeepsCounts(s, k, v, t, j);
      AddKeepsValues(s, k, v, t, j);
    }
    assert t.rows == s.rows && t.flight == s.flight && t.sending == s.sending;
  }

  lemma RegisterKeeps(s: State, k: Key, t: State)
    requires Inv(s) && Step(s, Register(k)) == Some(t)
    ensures Inv(t)
  {
    forall j: Key
      ensures Conserved(t, j)
    {
      assert Conserved(s, j);
    }
  }

  lemma SnapshotKeeps(s: State, t: State)
    requires Inv(s) && Step(s, Snapshot) == Some(t)
    ensures Inv(t)
  {
    forall j: Key
      ensures Conserved(t, j)
    {
      assert Conserved(s, j);
    }
  }

  lemma MarshalKeeps(s: State, k: Key, ok: bool, t: State)
    requires Inv(s) && Step(s, Marshal(k, ok)) == Some(t)
    ensures Inv(t)
  {
    forall j: Key
      ensures Conserved(t, j)
    {
      assert Conserved(s, j);
    }
  }

  lemma UpdateKeeps(s: State, out: Outcome, t: State)
    requires Inv(s) && Step(s, Update(out)) == Some(t)
    ensures Inv(t)
  {
    forall j: Key
      ensures Conserved(t, j)
    {
      assert Conserved(s, j);
    }
  }

  lemma StepKeeps(s: State, a: Action, t: State)
    requires Inv(s) && Step(s, a) == Some(t)
    ensures Inv(t)
  {
    match a
    case Add(k, v) => AddKeeps(s, k, v, t);
    case Register(k) => RegisterKeeps(s, k, t);
    case Snapshot => SnapshotKeeps(s, t);
    case Marshal(k, ok) => MarshalKeeps(s, k, ok, t);
    case Update(out) => UpdateKeeps(s, out, t);
  }

  lemma {:induction false} InvInEveryRun(start: State, actions: seq<Action>, s: State)
    requires Inv(start) && Exec(start, actions) == Some(s)
    ensures Inv(s)
    decreases |actions|
  {
    if actions == [] {
    } else {
      var n := |actions| - 1;
      var m := Exec(start, actions[..n]).value;
      InvInEveryRun(start, actions[..n], m);
      StepKeeps(m, actions[n], s);
    }
  }

  /**
   Main result: in every interleaving of adds, registrations and flush steps, for each key the adds are
   the table's gain, the count in memory, the counts in flight, and the counts lost.
   */
  lemma CountsAreConserved(start: State, actions: seq<Action>, s: State, k: Key)
    requires Start(start) && Exec(start, actions) == Some(s)
    ensures Count(s.ledger.adds, k)
         == Gain(s, k) + EntryAt(s.mem, k).count + Count(s.flight, k) + SentCount(s, k) + Count(s.ledger.lost, k)
    ensures Values(s.ledger.added, k) <= EntryAt(s.mem, k).sketch
  {
    InvInEveryRun(start, actions, s);
    assert Conserved(s, k);
  }

  /** The steps that lose the count of an entry: it cannot be marshalled, or its update fails or meets no row. */
  ghost predicate Loses(s: State, a: Action, k: Key) {
    || (a.Marshal? && a.key == k && !a.ok)
    || (a.Update? && s.sending.Some? && s.sending.value.key == k && !(TookEffect(a.out) && k in s.rows))
  }

  /** Nothing but these steps adds to the loss, and they add just the count of that snapshot. */
  lemma LossGrowsOnlyBySuchSteps(s: State, a: Action, t: State, k: Key)
    requires Step(s, a) == Some(t)
    ensures Count(t.ledger.lost, k) == Count(s.ledger.lost, k)
         + (if !Loses(s, a, k) then 0 else if a.Marshal? then s.flight[k] else s.sending.value.count)
  {
  }

  /** The table's count of a key never shrinks, and grows only by an update that took effect. */
  lemma GainGrowsOnlyByUpdates(s: State, a: Action, t: State, k: Key)
    requires Step(s, a) == Some(t)
    ensures Gain(t, k) == Gain(s, k)
         + (if a.Update? && s.sending.value.key == k && !Loses(s, a, k) then s.sending.value.count else 0)
  {
  }

  // ---- The sketch -------------------------------------------------------------------------------

  /** Adds and registrations: what may come between the marshalling of an entry and its update. */
  ghost predicate IsOther(a: Action) {
    a.Add? || a.Register?
  }

  lemma {:induction false} OthersLeaveTheFlush(s: State, others: seq<Action>, t: State)
    requires Exec(s, others) == Some(t) && forall a <- others :: IsOther(a)
    ensures t.sending == s.sending && t.flight == s.flight
    ensures forall k <- s.rows :: k in t.rows && t.rows[k] == s.rows[k]
    decreases |others|
  {
    if others == [] {
    } else {
      var n := |others| - 1;
      assert others[n] in others;
      OthersLeaveTheFlush(s, others[..n], Exec(s, others[..n]).value);
    }
  }

  /**
   Main result: however a run went before, a flush of a key that succeeds persists every value added to it
   before the entry was marshalled, whatever is added meanwhile.
   */
  lemma SuccessfulFlushPersistsAllAdded(start: State, actions: seq<Action>, s: State, k: Key,
                                        m: State, others: seq<Action>, u: State, out: Outcome, t: State)
    requires Start(start) && Exec(start, actions) == Some(s)
    requires Step(s, Marshal(k, true)) == Some(m)
    requires Exec(m, others) == Some(u) && (forall a <- others :: IsOther(a))
    requires Step(u, Update(out)) == Some(t) && TookEffect(out) && k in u.rows
    ensures k in t.rows && t.rows[k].sketch.Some? && Values(s.ledger.added, k) <= t.rows[k].sketch.value
    ensures t.rows[k].count == u.rows[k].count + s.flight[k]
  {
    CountsAreConserved(start, actions, s, k);
    OthersLeaveTheFlush(m, others, u);
  }

  /** The sketch that the table holds for a key. */
  function Persisted(s: State, k: Key): Sketch {
    if k in s.rows && s.rows[k].sketch.Some? then s.rows[k].sketch.value else {}
  }

  ghost predicate Covered(s: State, k: Key) {
    && Persisted(s, k) <= EntryAt(s.mem, k).sketch
    && (s.sending.Some? && s.sending.value.key == k ==> Persisted(s, k) <= s.sending.value.sketch)
  }

  lemma StepKeepsCovered(s: State, a: Action, t: State, k: Key)
    requires Inv(s) && Covered(s, k) && Step(s, a) == Some(t)
    ensures Covered(t, k) && Persisted(s, k) <= Persisted(t, k)
  {
  }

  lemma {:induction false} CoveredInEveryRun(start: State, actions: seq<Action>, s: State, k: Key)
    requires Start(start) && Covered(start, k) && Exec(start, actions) == Some(s)
    ensures Inv(s) && Covered(s, k) && Persisted(start, k) <= Persisted(s, k)
    decreases |actions|
  {
    if actions == [] {
      StartHasInv(start);
    } else {
      var n := |actions| - 1;
      var m := Exec(start, actions[..n]).value;
      CoveredInEveryRun(start, actions[..n], m, k);
      StepKeeps(m, actions[n], s);
      StepKeepsCovered(m, actions[n], s, k);
    }
  }

  lemma StartHasInv(s: State)
    requires Start(s)
    ensures Inv(s)
  {
    forall k: Key
      ensures Conserved(s, k)
    {
    }
  }

  /**
   The persisted sketch of a key can only grow, in every run, exactly when start-up loaded it: a sketch
   that could not be loaded is replaced by the next flush.
   */
  lemma PersistedGrowsExactlyWhenLoaded(start: State, k: Key)
    requires Start(start)
    ensures (forall actions, s :: Exec(start, actions) == Some(s) ==> Persisted(start, k) <= Persisted(s, k))
       <==> Persisted(start, k) <= EntryAt(start.mem, k).sketch
  {
    if Persisted(start, k) <= EntryAt(start.mem, k).sketch {
      forall actions, s | Exec(start, actions) == Some(s)
        ensures Persisted(start, k) <= Persisted(s, k)
      {
        CoveredInEveryRun(start, actions, s, k);
      }
    } else {
      var x :| x in Persisted(start, k) && x !in EntryAt(start.mem, k).sketch;
      var v := x + "+";
      assert |v| == |x| + 1;
      var actions, s := FlushOne(start, k, v, Success);
      assert x !in Persisted(s, k);
    }
  }

  /** The run that adds one value and flushes its key. */
  lemma FlushOne(start: State, k: Key, v: string, out: Outcome) returns (actions: seq<Action>, s: State)
    requires Start(start)
    ensures Exec(start, actions) == Some(s) && actions == [Add(k, v), Snapshot, Marshal(k, true), Update(out)]
    ensures Quiet(s, k)
    ensures TookEffect(out) && k in start.rows ==> Persisted(s, k) == EntryAt(start.mem, k).sketch + {v}
    ensures !TookEffect(out) ==> s.rows == start.rows
    ensures s.ledger.added == map[k := {v}]
  {
    var s1, s2 := AddAndSnapshot(start, k, v);
    var s3 := Step(s2, Marshal(k, true)).value;
    s := Step(s3, Update(out)).value;
    Runs.ExecOne(Step, start, [], start, Add(k, v), s1);
    Runs.ExecOne(Step, start, [] + [Add(k, v)], s1, Snapshot, s2);
    Runs.ExecOne(Step, start, [] + [Add(k, v)] + [Snapshot], s2, Marshal(k, true), s3);
    Runs.ExecOne(Step, start, [] + [Add(k, v)] + [Snapshot] + [Marshal(k, true)], s3, Update(out), s);
    actions := [] + [Add(k, v)] + [Snapshot] + [Marshal(k, true)] + [Update(out)];
  }

  lemma AddAndSnapshot(start: State, k: Key, v: string) returns (s1: State, s2: State)
    requires Start(start)
    ensures Step(start, Add(k, v)) == Some(s1) && Step(s1, Snapshot) == Some(s2)
    ensures s2.flight == map[k := 1] && s2.sending.None? && s2.rows == start.rows
    ensures k in s2.mem && s2.mem[k] == Entry(EntryAt(start.mem, k).sketch + {v}, false, 0)
    ensures s2.ledger.added == map[k := {v}]
  {
    s1 := Step(start, Add(k, v)).value;
    s2 := Step(s1, Snapshot).value;
    assert {} + {v} == {v};
    assert DirtyCounts(s1.mem) == map[k := 1];
  }

  // ---- What a failed flush leaves behind --------------------------------------------------------

  /** No flush will touch the key until a value is added to it. */
  ghost predicate Quiet(s: State, k: Key) {
    && (k in s.mem ==> !s.mem[k].dirty)
    && k !in s.flight
    && (s.sending.Some? ==> s.sending.value.key != k)
  }

  lemma StepKeepsQuiet(s: State, a: Action, t: State, k: Key)
    requires Quiet(s, k) && k in s.rows && Step(s, a) == Some(t) && !(a.Add? && a.key == k)
    ensures Quiet(t, k) && k in t.rows && t.rows[k] == s.rows[k]
  {
  }

  lemma {:induction false} QuietUntilNextAdd(s: State, actions: seq<Action>, t: State, k: Key)
    requires Quiet(s, k) && k in s.rows && Exec(s, actions) == Some(t)
    requires !AddsTo(actions, k)
    ensures Quiet(t, k) && k in t.rows && t.rows[k] == s.rows[k]
    decreases |actions|
  {
    if actions == [] {
    } else {
      var n := |actions| - 1;
      var m := Exec(s, actions[..n]).value;
      assert forall a <- actions[..n] :: a in actions;
      QuietUntilNextAdd(s, actions[..n], m, k);
      assert actions[n] in actions;
      StepKeepsQuiet(m, actions[n], t, k);
    }
  }

  ghost predicate AddsTo(actions: seq<Action>, k: Key) {
    exists a <- actions :: a.Add? && a.key == k
  }

  /** Steps of a flush that fail wherever they can empty the flight; they add nothing and touch no row. */
  lemma {:induction false} DrainFlight(s: State) returns (actions: seq<Action>, t: State)
    requires Inv(s)
    ensures Exec(s, actions) == Some(t) && forall a <- actions :: !a.Add?
    ensures Inv(t) && t.flight == map[] && t.sending.None? && t.rows == s.rows && t.mem == s.mem
    ensures t.ledger.added == s.ledger.added
    decreases s.sending.Some?, |s.flight|
  {
    if s.sending.Some? || s.flight != map[] {
      var a := AnyFailure(s);
      var m := Step(s, a).value;
      StepKeeps(s, a, m);
      var rest;
      if s.sending.None? {
        MapDropSize(s.flight, a.key);
      }
      rest, t := DrainFlight(m);
      Runs.ExecCons(Step, s, a, m, rest);
      actions := [a] + rest;
    } else {
      actions, t := [], s;
    }
  }

  lemma AnyFailure(s: State) returns (a: Action)
    requires Inv(s) && (s.sending.Some? || s.flight != map[])
    ensures Step(s, a).Some? && !a.Add?
    ensures a == if s.sending.Some? then Update(Failure(false)) else Marshal(a.key, false)
  {
    if s.sending.Some? {
      a := Update(Failure(false));
    } else {
      var k :| k in s.flight;
      a := Marshal(k, false);
    }
  }

  /** From any state between two flushes: one value is added to the key, and its flush succeeds. */
  lemma AddAndFlush(s: State, k: Key, v: string) returns (actions: seq<Action>, t: State)
    requires Inv(s) && s.flight == map[] && s.sending.None? && k in s.rows
    ensures actions == [Add(k, v), Snapshot, Marshal(k, true), Update(Success)] && Exec(s, actions) == Some(t)
    ensures Values(s.ledger.added, k) <= Persisted(t, k) && v in Persisted(t, k)
  {
    var s1 := Step(s, Add(k, v)).value;
    AddKeeps(s, k, v, s1);
    var s2 := Step(s1, Snapshot).value;
    assert k in DirtyCounts(s1.mem) && k in s2.mem && s2.mem[k].sketch == s1.mem[k].sketch;
    var s3 := Step(s2, Marshal(k, true)).value;
    t := Step(s3, Update(Success)).value;
    Runs.ExecOne(Step, s, [], s, Add(k, v), s1);
    Runs.ExecOne(Step, s, [] + [Add(k, v)], s1, Snapshot, s2);
    Runs.ExecOne(Step, s, [] + [Add(k, v)] + [Snapshot], s2, Marshal(k, true), s3);
    Runs.ExecOne(Step, s, [] + [Add(k, v)] + [Snapshot] + [Marshal(k, true)], s3, Update(Success), t);
    actions := [] + [Add(k, v)] + [Snapshot] + [Marshal(k, true)] + [Update(Success)];
  }

  /**
   Main result, for every reachable state: a value of a quiet key that did not get into the table stays out
   of it through any number of further flushes, and it gets there with any next value `w` of that key, and so
   does all else that was added. A flush that fails clears the dirty mark all the same.
   */
  lemma UnpersistedUntilTheNextAdd(start: State, actions: seq<Action>, s: State, k: Key, v: string, w: string)
    requires Start(start) && Exec(start, actions) == Some(s)
    requires Quiet(s, k) && k in s.rows && v in Values(s.ledger.added, k) && v !in Persisted(s, k)
    ensures forall rest, t :: Exec(s, rest) == Some(t) && !AddsTo(rest, k) ==> v !in Persisted(t, k)
    ensures exists rest, t :: PersistsBy(s, rest, t, k, w)
  {
    forall rest: seq<Action>, t | Exec(s, rest) == Some(t) && !AddsTo(rest, k)
      ensures v !in Persisted(t, k)
    {
      QuietUntilNextAdd(s, rest, t, k);
    }
    StartHasInv(start);
    InvInEveryRun(start, actions, s);
    var drain, m := DrainFlight(s);
    var flush, t := AddAndFlush(m, k, w);
    Runs.ExecJoin(Step, s, drain, m, flush, t);
    assert PersistsBy(s, drain + flush, t, k, w);
  }

  /** A run whose only add is that of `w` to `k` and after which the table has all values of `k`. */
  ghost predicate PersistsBy(s: State, rest: seq<Action>, t: State, k: Key, w: string) {
    && Exec(s, rest) == Some(t)
    && (forall a <- rest :: a.Add? ==> a == Add(k, w))
    && Values(s.ledger.added, k) <= Persisted(t, k)
  }

  /** Such states do occur: one failed update leaves a quiet key with a value that is not in the table. */
  lemma FailedFlushLeavesItsKeyQuiet(start: State, k: Key, v: string) returns (failed: seq<Action>, s: State)
    requires Start(start) && k in start.rows && v !in Persisted(start, k)
    ensures Exec(start, failed) == Some(s) && Quiet(s, k) && k in s.rows
    ensures v in Values(s.ledger.added, k) && v !in Persisted(s, k)
  {
    failed, s := FlushOne(start, k, v, Failure(false));
  }

  // ---- The manager ------------------------------------------------------------------------------

  class KeyTable {
    var rows: map<Key, Row>

    constructor (rows: map<Key, Row>)
      ensures this.rows == rows
    {
      this.rows := rows;
    }

    /** `INSERT … ON CONFLICT DO NOTHING` */
    method Register(k: Key)
      modifies this
      ensures rows == if k in old(rows) then old(rows) else old(rows)[k := Row(None, 0)]
    {
      if k !in rows {
        rows := rows[k := Row(None, 0)];
      }
    }

    method Update(s: Sending) returns (out: Outcome)
      modifies this
      ensures rows == if TookEffect(out) then Written(old(rows), s) else old(rows)
    {
      out := AnyOutcome();
      if TookEffect(out) {
        rows := Written(rows, s);
      }
    }
  }

  method AnyValue() returns (k: Key, v: string) {
    k, v := *, *;
  }

  class Manager {
    const table: KeyTable
    var hlls: map<Key, Entry>
    ghost var ledger: Ledger

    /** The manager's part of a state; a flush keeps its snapshot and what it is sending to itself. */
    ghost function View(flight: map<Key, nat>, sending: Option<Sending>): State
      reads this, table
    {
      State(hlls, table.rows, flight, sending, ledger)
    }

    constructor (table: KeyTable, loaded: map<Key, Sketch>)
      ensures this.table == table && Start(View(map[], None))
      ensures hlls == map k <- loaded.Keys :: Entry(loaded[k], false, 0)
    {
      this.table := table;
      hlls := map k <- loaded.Keys :: Entry(loaded[k], false, 0);
      ledger := Ledger(map[], map[], map[], map k <- table.rows.Keys :: table.rows[k].count);
    }

    method AddValue(k: Key, v: string)
      modifies this
      ensures hlls == AfterAdd(old(hlls), k, v) && ledger == NoteAdd(old(ledger), k, v)
      ensures k in hlls && hlls[k].dirty && hlls == old(hlls)[k := hlls[k]]
      ensures hlls[k].sketch == (if k in old(hlls) then old(hlls)[k].sketch else {}) + {v}
      ensures hlls[k].count == (if k in old(hlls) then old(hlls)[k].count else 0) + 1
    {
      if k !in hlls {
        hlls := hlls[k := Entry({}, true, 0)];
      }
      var entry := hlls[k];
      hlls := hlls[k := Entry(entry.sketch + {v}, true, entry.count + 1)];
      ledger := NoteAdd(ledger, k, v);
      assert hlls == AfterAdd(old(hlls), k, v);
    }

    /** Requests add values and register keys while a flush is between two of its steps. */
    method OthersRun(ghost flight: map<Key, nat>, ghost sending: Option<Sending>) returns (ghost others: seq<Action>)
      modifies this, table
      ensures Exec(old(View(flight, sending)), others) == Some(View(flight, sending))
      ensures forall a <- others :: IsOther(a)
      ensures old(hlls.Keys) <= hlls.Keys
    {
      others := [];
      var rounds: nat :| true;
      for i := 0 to rounds
        invariant Exec(old(View(flight, sending)), others) == Some(View(flight, sending))
        invariant forall a <- others :: IsOther(a)
        invariant old(hlls.Keys) <= hlls.Keys
      {
        ghost var before := View(flight, sending);
        var k, v := AnyValue();
        if * {
          AddValue(k, v);
          Runs.ExecOne(Step, old(View(flight, sending)), others, before, Add(k, v), View(flight, sending));
          others := others + [Add(k, v)];
        } else {
          if k !in table.rows {
            ledger := ledger.(base := ledger.base[k := 0]);
          }
          table.Register(k);
          Runs.ExecOne(Step, old(View(flight, sending)), others, before, Register(k), View(flight, sending));
          others := others + [Register(k)];
        }
      }
    }

    /** Under the lock: the dirty entries are copied out and reset, one by one. */
    method TakeSnapshot() returns (toFlush: map<Key, nat>)
      modifies this
      ensures toFlush == DirtyCounts(old(hlls)) && hlls == Cleaned(old(hlls)) && ledger == old(ledger)
      ensures forall k :: k in toFlush <==> k in old(hlls) && old(hlls)[k].dirty
      ensures forall k <- toFlush :: toFlush[k] == old(hlls)[k].count
      ensures hlls.Keys == old(hlls).Keys
      ensures forall k <- hlls :: hlls[k] == if k in toFlush then Entry(old(hlls)[k].sketch, false, 0) else old(hlls)[k]
    {
      toFlush := map[];
      var rest := hlls.Keys;
      ghost var all := hlls;
      while rest != {}
        invariant rest <= all.Keys && hlls.Keys == all.Keys && ledger == old(ledger)
        invariant forall k <- all.Keys ::
          hlls[k] == if k !in rest && all[k].dirty then Entry(all[k].sketch, false, 0) else all[k]
        invariant forall k :: k in toFlush <==> k in all && k !in rest && all[k].dirty
        invariant forall k <- toFlush :: toFlush[k] == all[k].count
      {
        var k :| k in rest;
        rest := rest - {k};
        var v := hlls[k];
        if v.dirty {
          toFlush := toFlush[k := v.count];
          hlls := hlls[k := Entry(v.sketch, false, 0)];
        }
      }
    }

    /** One round of the flush: the entry is marshalled, then sent; a failure is only logged. */
    method FlushKey(k: Key, ghost flight: map<Key, nat>, count: nat)
      returns (ghost trace: seq<Action>)
      requires k in flight && k in hlls && flight[k] == count
      modifies this, table
      ensures Exec(old(View(flight, None)), trace) == Some(View(flight - {k}, None))
      ensures MarshalledIn(trace) == {k}
      ensures old(hlls.Keys) <= hlls.Keys
    {
      ghost var s := View(flight, None);
      var ok := *;
      trace := [] + [Marshal(k, ok)];
      MarshalledAppend([], [Marshal(k, ok)]);
      if !ok {
        ledger := NoteLoss(ledger, k, count);
        Runs.ExecOne(Step, s, [], s, Marshal(k, ok), View(flight - {k}, None));
        return;
      }
      var sending := Sending(k, hlls[k].sketch, count);
      Runs.ExecOne(Step, s, [], s, Marshal(k, ok), View(flight - {k}, Some(sending)));
      ghost var others := OthersRun(flight - {k}, Some(sending));
      Runs.ExecAppend(Step, s, trace, others);
      MarshalledAppend(trace, others);
      trace := trace + others;
      ghost var before := View(flight - {k}, Some(sending));
      var out := table.Update(sending);
      if !(TookEffect(out) && k in table.rows) {
        ledger := NoteLoss(ledger, k, count);
      }
      Runs.ExecOne(Step, s, trace, before, Update(out), View(flight - {k}, None));
      MarshalledAppend(trace, [Update(out)]);
      trace := trace + [Update(out)];
    }

    /** Other requests run, then it is the turn of one key of the snapshot. */
    method FlushNext(rest: map<Key, nat>, ghost s: State, ghost before: seq<Action>)
      returns (k: Key, ghost trace: seq<Action>)
      requires rest != map[] && rest.Keys <= hlls.Keys && Exec(s, before) == Some(View(rest, None))
      modifies this, table
      ensures k in rest && rest.Keys <= hlls.Keys
      ensures before <= trace && Exec(s, trace) == Some(View(rest - {k}, None))
      ensures MarshalledIn(trace) == MarshalledIn(before) + {k}
    {
      k :| k in rest;
      ghost var others := OthersRun(rest, None);
      Runs.ExecAppend(Step, s, before, others);
      MarshalledAppend(before, others);
      ghost var round := FlushKey(k, rest, rest[k]);
      Runs.ExecAppend(Step, s, before + others, round);
      MarshalledAppend(before + others, round);
      trace := before + others + round;
    }

    /** The first step of a flush. */
    method BeginFlush() returns (toFlush: map<Key, nat>, ghost trace: seq<Action>)
      modifies this
      ensures Exec(old(View(map[], None)), trace) == Some(View(toFlush, None))
      ensures Snapshot in trace && MarshalledIn(trace) == {}
      ensures toFlush.Keys == DirtyCounts(old(hlls)).Keys && toFlush.Keys <= hlls.Keys
    {
      ghost var s := View(map[], None);
      toFlush := TakeSnapshot();
      Runs.ExecOne(Step, s, [], s, Snapshot, View(toFlush, None));
      trace := [] + [Snapshot];
    }

    /** A flush is a snapshot and then, in any order, one round for each key that was dirty, and no other. */
    method Flush() returns (ghost trace: seq<Action>)
      modifies this, table
      ensures Exec(old(View(map[], None)), trace) == Some(View(map[], None))
      ensures Snapshot in trace && MarshalledIn(trace) == DirtyCounts(old(hlls)).Keys
    {
      ghost var s := View(map[], None);
      var toFlush;
      toFlush, trace := BeginFlush();
      var rest := toFlush;
      while rest != map[]
        invariant Exec(s, trace) == Some(View(rest, None))
        invariant rest.Keys <= hlls.Keys
        invariant MarshalledIn(trace) + rest.Keys == toFlush.Keys
        invariant Snapshot in trace
        decreases |rest|
      {
        var k;
        k, trace := FlushNext(rest, s, trace);
        MapDropSize(rest, k);
        rest := rest - {k};
      }
    }
  }

  /** The keys that a run tried to marshal. */
  ghost function MarshalledIn(trace: seq<Action>): set<Key> {
    set a <- trace | a.Marshal? :: a.key
  }

  lemma MarshalledAppend(a: seq<Action>, b: seq<Action>)
    ensures MarshalledIn(a + b) == MarshalledIn(a) + MarshalledIn(b)
  {
    forall x
      ensures x in a + b <==> x in a || x in b
    {
    }
  }
}
