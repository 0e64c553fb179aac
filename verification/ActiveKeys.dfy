/**
 The writer's cache of active metadata names, beside the changes of these names and the sweeps over the rows: when
 is a new row indexed as a backfill would have done it? One API key is followed.
 */
module ActiveKeys {
  import Runs
  import opened Wrappers
  import opened MetadataIndex

  datatype Entry = Entry(names: set<string>, expiresAt: nat)

  /** Where the writer stands with a log: it looks into the cache, may have to query, and splits by what it has. */
  datatype Phase = Idle | Asking | Got(names: set<string>) | Has(names: set<string>)

  /** A query that is refused counts as an empty answer, which is cached; one that breaks off is not cached. */
  datatype Reply = Answered | Refused | BrokenOff

  /** `active` are the names now marked as active, `ttl` is configured. */
  datatype State = State(key: nat, ttl: nat, active: set<string>, entry: Option<Entry>, now: nat, phase: Phase,
                         rows: Rows)

  datatype Action =
    | Tick(d: nat)
    | Activate(name: string)
    | Deactivate(name: string)
    | Invalidate
    | Look
    | Query(reply: Reply)
    | Keep
    | Insert(id: nat, raw: Metadata)
    | Skip
    | Sweep(job: Job)

  /** An entry is no longer good at its expiry. */
  predicate Fresh(s: State) {
    s.entry.Some? && s.now < s.entry.value.expiresAt
  }

  function NewRow(key: nat, raw: Metadata, names: set<string>): Row {
    Row(Some(key), raw, Some(Split(raw, names)))
  }

  /** `Skip` is an insert that fails: the log is dropped. `Sweep` is a finished job. */
  ghost function Step(s: State, a: Action): Option<State> {
    match a
    case Tick(d) => Some(s.(now := s.now + d))
    case Activate(name) => Some(s.(active := s.active + {name}))
    case Deactivate(name) => Some(s.(active := s.active - {name}))
    case Invalidate => Some(s.(entry := None))
    case Look =>
      if !s.phase.Idle? then None
      else Some(s.(phase := if Fresh(s) then Has(s.entry.value.names) else Asking))
    case Query(reply) =>
      if !s.phase.Asking? then None
      else Some(s.(phase := match reply
                            case Answered => Got(s.active)
                            case Refused => Got({})
                            case BrokenOff => Has({})))
    case Keep =>
      if !s.phase.Got? then None
      else Some(s.(entry := Some(Entry(s.phase.names, s.now + s.ttl)), phase := Has(s.phase.names)))
    case Insert(id, raw) =>
      if !s.phase.Has? || id in s.rows then None
      else Some(s.(rows := s.rows[id := NewRow(s.key, raw, s.phase.names)], phase := Idle))
    case Skip => if s.phase.Has? then Some(s.(phase := Idle)) else None
    case Sweep(job) => Some(s.(rows := Swept(job, s.key, s.rows)))
  }

  ghost function Exec(s: State, actions: seq<Action>): Option<State> {
    Runs.Exec(Step, s, actions)
  }

  // ---- One row ----------------------------------------------------------------------------------

  /** A row is split as by the active names exactly when its own names are in the writer's set just if active. */
  lemma SplitsAlikeExactlyWhen(raw: Metadata, names: set<string>, active: set<string>)
    ensures Split(raw, names) == Split(raw, active) <==> forall name <- raw :: name in names <==> name in active
  {
    if Split(raw, names) == Split(raw, active) {
      forall name | name in raw
        ensures name in names <==> name in active
      {
        assert name in Split(raw, names) <==> name in Split(raw, active);
      }
    }
  }

  // ---- One name ---------------------------------------------------------------------------------

  predicate Indexed(row: Row, key: nat, name: string) {
    row.apiKey == Some(key) && name in row.raw ==> name in IndexOf(row)
  }

  ghost predicate AllIndexed(s: State, name: string) {
    forall id <- s.rows :: Indexed(s.rows[id], s.key, name)
  }

  /** The writer has a set without the name in its hands, or in a cache it will look into while that is good. */
  predicate Stale(s: State, name: string) {
    || ((s.phase.Got? || s.phase.Has?) && name !in s.phase.names)
    || ((s.phase.Idle? || s.phase.Has?) && Fresh(s) && name !in s.entry.value.names)
  }

  /** The name stays active, is not cleaned up, and no query fails. */
  ghost predicate Calm(actions: seq<Action>, name: string) {
    forall a <- actions :: a != Action.Deactivate(name) && a != Sweep(Cleanup(name)) && (a.Query? ==> a.reply.Answered?)
  }

  lemma StepKeepsIndexed(s: State, a: Action, t: State, name: string)
    requires name in s.active && AllIndexed(s, name) && !Stale(s, name) && Step(s, a) == Some(t) && Calm([a], name)
    ensures name in t.active && AllIndexed(t, name) && !Stale(t, name)
  {
    assert a in [a];
    if a.Insert? {
      assert name in a.raw ==> name in Split(a.raw, s.phase.names);
    }
  }

  lemma {:induction false} RunKeepsIndexed(s: State, actions: seq<Action>, t: State, name: string)
    requires name in s.active && AllIndexed(s, name) && !Stale(s, name) && Exec(s, actions) == Some(t)
    requires Calm(actions, name)
    ensures name in t.active && AllIndexed(t, name) && !Stale(t, name)
    decreases |actions|
  {
    if actions == [] {
    } else {
      var n := |actions| - 1;
      assert actions[n] in actions;
      RunKeepsIndexed(s, actions[..n], Exec(s, actions[..n]).value, name);
      StepKeepsIndexed(Exec(s, actions[..n]).value, actions[n], t, name);
    }
  }

  ghost predicate Misses(s: State, rest: seq<Action>, t: State, name: string) {
    Calm(rest, name) && Exec(s, rest) == Some(t) && !AllIndexed(t, name)
  }

  lemma InsertedRowIsMissed(s: State, id: nat, raw: Metadata, t: State, name: string)
    requires name in raw && Step(s, Insert(id, raw)) == Some(t) && name !in s.phase.names
    ensures !AllIndexed(t, name)
  {
    assert id in t.rows && name !in Split(raw, s.phase.names);
    assert !Indexed(t.rows[id], t.key, name);
  }

  /** With a stale set in its hands the writer only has to insert a row. */
  lemma InsertMisses(s: State, name: string) returns (rest: seq<Action>, t: State)
    requires s.phase.Has? && name !in s.phase.names
    ensures Misses(s, rest, t, name)
  {
    var id := UnusedId(s.rows.Keys);
    var raw: Metadata := map[name := ""];
    t := Step(s, Insert(id, raw)).value;
    InsertedRowIsMissed(s, id, raw, t, name);
    Runs.ExecOne(Step, s, [], s, Insert(id, raw), t);
    rest := [] + [Insert(id, raw)];
  }

  lemma MissesAfter(s: State, a: Action, m: State, rest: seq<Action>, t: State, name: string)
    requires Step(s, a) == Some(m) && Calm([a], name) && Misses(m, rest, t, name)
    ensures Misses(s, [a] + rest, t, name)
  {
    Runs.ExecCons(Step, s, a, m, rest);
    assert a in [a];
  }

  lemma {:induction false} StaleMisses(s: State, name: string) returns (rest: seq<Action>, t: State)
    requires Stale(s, name)
    ensures Misses(s, rest, t, name)
    decreases if s.phase.Idle? then 0 else 1
  {
    if s.phase.Has? && name !in s.phase.names {
      rest, t := InsertMisses(s, name);
    } else if s.phase.Got? {
      var m := Step(s, Keep).value;
      rest, t := InsertMisses(m, name);
      MissesAfter(s, Keep, m, rest, t, name);
      rest := [Keep] + rest;
    } else if s.phase.Idle? {
      var m := Step(s, Look).value;
      rest, t := InsertMisses(m, name);
      MissesAfter(s, Look, m, rest, t, name);
      rest := [Look] + rest;
    } else {
      var idle := Step(s, Skip).value;
      rest, t := StaleMisses(idle, name);
      MissesAfter(s, Skip, idle, rest, t, name);
      rest := [Skip] + rest;
    }
  }

  /**
   Main result: once a backfill of an active name has finished, every row is indexed by the name for good, in all
   runs in which the name stays active and no query fails, exactly when the writer has no set without the name, be it
   in its hands or in the cache.
   */
  lemma IndexedForGoodExactlyWhen(s: State, name: string)
    requires name in s.active && AllIndexed(s, name)
    ensures (forall rest, t :: Calm(rest, name) && Exec(s, rest) == Some(t) ==> AllIndexed(t, name))
       <==> !Stale(s, name)
  {
    if Stale(s, name) {
      var rest, t := StaleMisses(s, name);
    } else {
      forall rest, t | Calm(rest, name) && Exec(s, rest) == Some(t)
        ensures AllIndexed(t, name)
      {
        RunKeepsIndexed(s, rest, t, name);
      }
    }
  }

  /**
   From an activation, with its invalidation and a finished backfill, on every row is indexed by the name, and for good
   exactly when the writer did not have a set without it in its hands: one that has queried just before the
   activation enters that set just after the invalidation.
   */
  lemma ActivationHoldsExactlyWhen(s: State, name: string, activated: State, invalidated: State, t: State)
    requires Step(s, Action.Activate(name)) == Some(activated)
    requires Step(activated, Invalidate) == Some(invalidated)
    requires Step(invalidated, Sweep(Backfill(name))) == Some(t)
    ensures AllIndexed(t, name)
    ensures (forall rest, u :: Calm(rest, name) && Exec(t, rest) == Some(u) ==> AllIndexed(u, name))
       <==> !((s.phase.Got? || s.phase.Has?) && name !in s.phase.names)
  {
    IndexedForGoodExactlyWhen(t, name);
  }

  /** One failed query is enough as well, although nothing else is stale: its empty answer is cached. */
  lemma FailedQueryMisses(s: State, name: string) returns (t: State)
    requires s.phase.Idle? && !Fresh(s)
    ensures Exec(s, [Look, Query(Refused), Keep]) == Some(t) && t.active == s.active && t.rows == s.rows
    ensures Stale(t, name) && (s.ttl > 0 ==> Fresh(t) && t.entry.value == Entry({}, s.now + s.ttl))
  {
    var m1 := Step(s, Look).value;
    var m2 := Step(m1, Query(Refused)).value;
    t := Step(m2, Keep).value;
    Runs.ExecOne(Step, s, [], s, Look, m1);
    Runs.ExecOne(Step, s, [] + [Look], m1, Query(Refused), m2);
    Runs.ExecOne(Step, s, [] + [Look] + [Query(Refused)], m2, Keep, t);
    assert [] + [Look] + [Query(Refused)] + [Keep] == [Look, Query(Refused), Keep];
  }

  /** A row that was missed stays so in every run until the name is backfilled once more, and then no longer. */
  lemma {:induction false} MissedUntilTheNextBackfill(s: State, actions: seq<Action>, t: State, id: nat, name: string)
    requires id in s.rows && !Indexed(s.rows[id], s.key, name) && Exec(s, actions) == Some(t)
    requires Sweep(Backfill(name)) !in actions
    ensures id in t.rows && !Indexed(t.rows[id], t.key, name)
    ensures Indexed(Step(t, Sweep(Backfill(name))).value.rows[id], t.key, name)
    decreases |actions|
  {
    if actions == [] {
    } else {
      var n := |actions| - 1;
      assert actions[n] in actions;
      MissedUntilTheNextBackfill(s, actions[..n], Exec(s, actions[..n]).value, id, name);
    }
  }

  // ---- The writer's part ------------------------------------------------------------------------

  class IndexWriter {
    const ttl: nat
    /** The names marked as active, by API key. */
    var active: map<nat, set<string>>
    var cache: map<nat, Entry>
    var now: nat
    var rows: Rows
    ghost var phase: Phase

    ghost function View(key: nat): State
      reads this
    {
      State(key, ttl, if key in active then active[key] else {}, if key in cache then Some(cache[key]) else None,
            now, phase, rows)
    }

    constructor (ttl: nat)
      ensures forall key: nat :: View(key) == State(key, ttl, {}, None, 0, Idle, map[])
    {
      this.ttl := ttl;
      active, cache, now, rows, phase := map[], map[], 0, map[], Idle;
    }

    /** A query that is refused gives an empty set; one that breaks off gives an error. */
    method FetchActiveKeys(key: nat) returns (r: Result<set<string>, Failed>, ghost reply: Reply)
      requires phase.Asking?
      modifies `phase
      ensures Step(old(View(key)), Query(reply)) == Some(View(key))
      ensures r.Err? <==> reply.BrokenOff?
      ensures phase == if r.Ok? then Got(r.value) else Has({})
    {
      var refused, brokenOff: bool := *, *;
      if refused {
        phase := Got({});
        return Ok({}), Refused;
      }
      if brokenOff {
        phase := Has({});
        return Err(Failed), BrokenOff;
      }
      var names: set<string> := if key in active then active[key] else {};
      phase := Got(names);
      return Ok(names), Answered;
    }

    /** What the writer gets; it takes an error for an empty set. */
    method GetActiveKeys(key: nat) returns (names: set<string>, ghost trace: seq<Action>)
      requires phase.Idle?
      modifies `phase, `cache
      ensures Exec(old(View(key)), trace) == Some(View(key)) && phase == Has(names)
      ensures if Fresh(old(View(key))) then trace == [Look]
              else trace == [Look, Query(BrokenOff)] || exists reply :: trace == [Look, Query(reply), Keep]
      ensures key in old(cache) && now < old(cache)[key].expiresAt ==>
        names == old(cache)[key].names && cache == old(cache)
      ensures !(key in old(cache) && now < old(cache)[key].expiresAt) ==>
        && (names == {} || (key in active && names == active[key]))
        && (cache == old(cache)[key := Entry(names, now + ttl)] || (names == {} && cache == old(cache)))
    {
      ghost var s := View(key);
      if key in cache && now < cache[key].expiresAt {
        names, phase := cache[key].names, Has(cache[key].names);
        Runs.ExecOne(Step, s, [], s, Look, View(key));
        return names, [] + [Look];
      }
      phase := Asking;
      ghost var asking := View(key);
      Runs.ExecOne(Step, s, [], s, Look, asking);
      var r;
      ghost var reply;
      r, reply := FetchActiveKeys(key);
      ghost var replied := View(key);
      Runs.ExecOne(Step, s, [] + [Look], asking, Query(reply), replied);
      trace := [Look, Query(reply)];
      assert [] + [Look] + [Query(reply)] == trace;
      if r.Err? {
        return {}, trace;
      }
      names := r.value;
      cache, phase := cache[key := Entry(names, now + ttl)], Has(names);
      Runs.ExecOne(Step, s, trace, replied, Keep, View(key));
      trace := trace + [Keep];
    }

    method InvalidateAPIKey(key: nat)
      modifies `cache
      ensures Step(old(View(key)), Invalidate) == Some(View(key))
      ensures forall other: nat :: other != key ==> View(other) == old(View(other))
    {
      cache := cache - {key};
    }

    /** The insert of a log that is split by the set in hand; it may fail. */
    method InsertLog(key: nat, id: nat, raw: Metadata, active: set<string>)
      returns (stored: bool, ghost last: Action)
      requires phase == Has(active) && id !in rows
      modifies `phase, `rows
      ensures phase.Idle? && Step(old(View(key)), last) == Some(View(key))
      ensures last == if stored then Insert(id, raw) else Skip
      ensures if stored then rows == old(rows)[id := rows[id]] && id in rows else rows == old(rows)
      ensures stored ==>
        && rows[id].apiKey == Some(key) && rows[id].raw == raw && rows[id].indexed.Some?
        && (forall name :: name in rows[id].indexed.value <==> name in raw && name in active)
        && (forall name <- rows[id].indexed.value :: rows[id].indexed.value[name] == raw[name])
    {
      stored := *;
      var indexed := SplitMetadata(raw, active);
      if stored {
        rows := rows[id := Row(Some(key), raw, Some(indexed))];
      }
      phase := Idle;
      last := if stored then Insert(id, raw) else Skip;
    }

    /** The set the writer gets, and the run by which it gets it. */
    method FetchNames(key: nat) returns (names: set<string>, ghost trace: seq<Action>)
      requires phase.Idle?
      modifies `phase, `cache
      ensures Exec(old(View(key)), trace) == Some(View(key)) && phase == Has(names)
      ensures key in old(cache) && now < old(cache)[key].expiresAt ==> names == old(cache)[key].names
    {
      names, trace := GetActiveKeys(key);
    }

    /** A log of an API key. */
    method WriteKeyed(key: nat, id: nat, raw: Metadata)
      returns (stored: bool, ghost names: set<string>, ghost last: Action, ghost trace: seq<Action>)
      requires phase.Idle? && id !in rows
      modifies `phase, `cache, `rows
      ensures phase.Idle? && Exec(old(View(key)), trace + [last]) == Some(View(key))
      ensures last == if stored then Insert(id, raw) else Skip
      ensures if stored then rows == old(rows)[id := rows[id]] && id in rows else rows == old(rows)
      ensures key in old(cache) && now < old(cache)[key].expiresAt ==> names == old(cache)[key].names
      ensures stored ==>
        && rows[id].apiKey == Some(key) && rows[id].raw == raw && rows[id].indexed.Some?
        && (forall name :: name in rows[id].indexed.value <==> name in raw && name in names)
        && (forall name <- rows[id].indexed.value :: rows[id].indexed.value[name] == raw[name])
    {
      var active;
      active, trace := FetchNames(key);
      names := active;
      ghost var s := View(key);
      stored, last := InsertLog(key, id, raw, active);
      Runs.ExecOne(Step, old(View(key)), trace, s, last, View(key));
    }

    /** A log of an API key, or of none, whose metadata is then not indexed. */
    method WriteLog(key: Option<nat>, id: nat, raw: Metadata)
      returns (stored: bool, ghost names: set<string>, ghost trace: seq<Action>)
      requires phase.Idle? && id !in rows
      modifies `phase, `cache, `rows
      ensures phase.Idle? && rows.Keys == old(rows).Keys + if stored then {id} else {}
      ensures forall other <- old(rows) :: rows[other] == old(rows)[other]
      ensures key.Some? ==> Exec(old(View(key.value)), trace) == Some(View(key.value))
      ensures key.Some? ==> trace != [] && trace[|trace| - 1] == if stored then Insert(id, raw) else Skip
      ensures key.None? && stored ==> rows[id] == Row(None, raw, Some(map[]))
      ensures key.Some? && key.value in old(cache) && now < old(cache)[key.value].expiresAt ==>
        names == old(cache)[key.value].names
      ensures key.Some? && stored ==>
        && rows[id].apiKey == key && rows[id].raw == raw && rows[id].indexed.Some?
        && (forall name :: name in rows[id].indexed.value <==> name in raw && name in names)
        && (forall name <- rows[id].indexed.value :: rows[id].indexed.value[name] == raw[name])
    {
      trace, names := [], {};
      if key.None? {
        stored := *;
        if stored {
          rows := rows[id := Row(None, raw, Some(map[]))];
        }
        return;
      }
      ghost var last;
      stored, names, last, trace := WriteKeyed(key.value, id, raw);
      trace := trace + [last];
    }
  }
}
