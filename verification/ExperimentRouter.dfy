/**
 Routing of requests through experiments: a cached list of each organisation's active experiments, the
 first one that matches, and a weighted choice of its arm.
 */
module ExperimentRouter {
  import Runs
  import opened Wrappers
  import opened ArmSelection

  type Metadata = map<string, string>

  datatype Experiment = Experiment(id: nat, org: nat, status: string, apiKey: Option<nat>, filters: Metadata,
                                   stickyKey: Option<string>, startsAt: int, endsAt: int, arms: seq<Arm>)

  // ---- Matching ---------------------------------------------------------------------------------

  /** A read of a Go map: an absent key reads as the empty string. */
  function Lookup(m: Metadata, k: string): string {
    if k in m then m[k] else ""
  }

  ghost predicate Matches(filters: Metadata, m: Metadata) {
    forall k <- filters :: Lookup(m, k) == filters[k]
  }

  /** The documented rule: every filter key has an exact-match value in the metadata. */
  ghost predicate MatchesExactly(filters: Metadata, m: Metadata) {
    forall k <- filters :: k in m && m[k] == filters[k]
  }

  /** The keys are visited in an arbitrary order and the loop stops at the first mismatch. */
  method MatchesFilters(filters: Metadata, m: Metadata) returns (ok: bool)
    ensures ok <==> forall k <- filters :: (if k in m then m[k] else "") == filters[k]
  {
    var rest := filters.Keys;
    while rest != {}
      invariant rest <= filters.Keys
      invariant forall k <- filters.Keys - rest :: Lookup(m, k) == filters[k]
    {
      var k :| k in rest;
      if Lookup(m, k) != filters[k] {
        return false;
      }
      rest := rest - {k};
    }
    return true;
  }

  /** The code follows the documented rule on all metadata exactly when no filter asks for the empty string. */
  lemma FilterRuleHoldsExactlyWhen(filters: Metadata)
    ensures (forall m :: Matches(filters, m) <==> MatchesExactly(filters, m))
       <==> (forall k <- filters :: filters[k] != "")
  {
    if k :| k in filters && filters[k] == "" {
      var m := filters - {k};
      assert Lookup(m, k) == "";
      assert Matches(filters, m) && !MatchesExactly(filters, m);
    }
  }

  // ---- The store --------------------------------------------------------------------------------

  predicate InWindow(e: Experiment, now: int) {
    e.startsAt <= now <= e.endsAt
  }

  predicate IsActive(e: Experiment, org: nat, now: int) {
    e.org == org && e.status == "active" && InWindow(e, now)
  }

  ghost predicate IsActiveList(rows: set<Experiment>, org: nat, now: int, exps: seq<Experiment>) {
    && Distinct(exps)
    && forall e :: e in exps <==> e in rows && IsActive(e, org, now)
  }

  /** A query on behalf of a request, and what it listed unless it failed. */
  datatype Asked = Asked(id: nat, org: nat, now: int, listed: Option<seq<Experiment>>)

  ghost function AskedBy(asked: seq<Asked>, id: nat): seq<Asked> {
    if asked == [] then []
    else AskedBy(asked[..|asked| - 1], id) + if asked[|asked| - 1].id == id then [asked[|asked| - 1]] else []
  }

  lemma AskedBySnoc(asked: seq<Asked>, id: nat, a: Asked)
    ensures AskedBy(asked + [a], id) == AskedBy(asked, id) + if a.id == id then [a] else []
  {
    assert (asked + [a])[..|asked|] == asked;
  }

  /** The experiments of a store, each with its arms in the order in which they are listed. */
  class Store {
    var rows: set<Experiment>
    ghost var asked: seq<Asked>

    constructor (rows: set<Experiment>)
      ensures this.rows == rows && asked == []
    {
      this.rows, asked := rows, [];
    }

    /** The rows come in no particular order. */
    method ListActiveExperiments(org: nat, now: int, ghost id: nat) returns (r: Result<seq<Experiment>, Failed>)
      modifies `asked
      ensures r.Ok? ==> IsActiveList(rows, org, now, r.value)
      ensures r.Ok? ==> Distinct(r.value) && forall e :: e in r.value <==>
        e in rows && e.org == org && e.status == "active" && e.startsAt <= now <= e.endsAt
      ensures asked == old(asked) + [Asked(id, org, now, if r.Ok? then Some(r.value) else None)]
    {
      var failed: bool := *;
      if failed {
        asked := asked + [Asked(id, org, now, None)];
        return Err(Failed);
      }
      var exps: seq<Experiment> := [];
      var rest := rows;
      while rest != {}
        invariant rest <= rows && Distinct(exps)
        invariant forall e :: e in exps <==> e in rows - rest && IsActive(e, org, now)
      {
        var e :| e in rest;
        assert e !in exps;
        rest := rest - {e};
        if e.org == org && e.status == "active" && e.startsAt <= now && e.endsAt >= now {
          exps := exps + [e];
        }
      }
      asked := asked + [Asked(id, org, now, Some(exps))];
      return Ok(exps);
    }
  }

  // ---- The answer over one list -----------------------------------------------------------------

  type Hash = h: nat | h < TWO_32 witness 0

  datatype Request = Request(org: nat, apiKey: Option<nat>, metadata: Metadata, model: string, now: int)

  datatype Answer =
    | NoRoute
    | Panicked
    | Assigned(experiment: nat, arm: nat, assignedModel: string, originalModel: string)

  predicate KeyAllows(e: Experiment, apiKey: Option<nat>) {
    e.apiKey.None? || apiKey == e.apiKey
  }

  /** The experiments that the scan does not skip. */
  ghost predicate Eligible(e: Experiment, r: Request) {
    && e.status == "active"
    && KeyAllows(e, r.apiKey)
    && Matches(e.filters, r.metadata)
    && Total(e.arms) > 0
  }

  /** The hash of a non-empty sticky value. */
  function StickyHash(e: Experiment, m: Metadata, hash: string -> Hash): Option<nat> {
    if e.stickyKey.Some? && Lookup(m, e.stickyKey.value) != "" then Some(hash(Lookup(m, e.stickyKey.value)))
    else None
  }

  ghost predicate IsAssignment(e: Experiment, r: Request, hash: string -> Hash, random: nat, a: Answer) {
    exists c ::
      && IsChoice(e.arms, StickyHash(e, r.metadata, hash), random, c)
      && a == AnswerOf(e, r, c)
  }

  ghost function AnswerOf(e: Experiment, r: Request, c: Choice): Answer {
    match c
    case NoArm => NoRoute
    case DivisionByZero => Panicked
    case Picked(i) =>
      if 0 <= i < |e.arms| then Assigned(e.id, e.arms[i].id, e.arms[i].model, r.model) else NoRoute
  }

  /** The first eligible experiment of the list decides. */
  ghost predicate IsAnswer(exps: seq<Experiment>, r: Request, hash: string -> Hash, random: nat, a: Answer) {
    || (a == NoRoute && forall e <- exps :: !Eligible(e, r))
    || exists k :: DecidesAt(exps, r, k) && IsAssignment(exps[k], r, hash, random, a)
  }

  ghost predicate DecidesAt(exps: seq<Experiment>, r: Request, k: int) {
    && 0 <= k < |exps|
    && Eligible(exps[k], r)
    && forall j :: 0 <= j < k ==> !Eligible(exps[j], r)
  }

  /** In terms of the request: why the scan passes over an experiment. */
  ghost predicate Skipped(e: Experiment, r: Request) {
    || e.status != "active"
    || (e.apiKey.Some? && r.apiKey != e.apiKey)
    || (exists k <- e.filters :: (if k in r.metadata then r.metadata[k] else "") != e.filters[k])
    || Total(e.arms) <= 0
  }

  /** The request carries a value to stick to. */
  predicate Sticks(e: Experiment, m: Metadata) {
    e.stickyKey.Some? && e.stickyKey.value in m && m[e.stickyKey.value] != ""
  }

  /** The arm: by the hash of the sticky value if there is one, and else by the random number. */
  ghost predicate AssignsDrawn(e: Experiment, r: Request, hash: string -> Hash, random: nat, a: Answer) {
    if Sticks(e, r.metadata) then
      if Total(e.arms) % TWO_32 == 0 then a == Panicked
      else AssignsPicked(e, r, hash(r.metadata[e.stickyKey.value]) % (Total(e.arms) % TWO_32), a)
    else Total(e.arms) != 0 && AssignsPicked(e, r, random % Total(e.arms), a)
  }

  ghost predicate AssignsPicked(e: Experiment, r: Request, draw: int, a: Answer) {
    exists i :: Picks(e.arms, draw, i) && a == Assigned(e.id, e.arms[i].id, e.arms[i].model, r.model)
  }

  /** The first experiment that is not passed over assigns. */
  ghost predicate FirstAssigns(exps: seq<Experiment>, r: Request, hash: string -> Hash, random: nat, a: Answer) {
    exists k :: 0 <= k < |exps| && FirstLeft(exps, r, k) && AssignsDrawn(exps[k], r, hash, random, a)
  }

  ghost predicate FirstLeft(exps: seq<Experiment>, r: Request, k: int)
    requires 0 <= k < |exps|
  {
    !Skipped(exps[k], r) && forall j :: 0 <= j < k ==> Skipped(exps[j], r)
  }

  lemma SkippedExactlyWhen(e: Experiment, r: Request)
    ensures Skipped(e, r) <==> !Eligible(e, r)
  {
    assert forall k <- e.filters :: Lookup(r.metadata, k) == if k in r.metadata then r.metadata[k] else "";
  }

  lemma AssignsDrawnExactlyWhen(e: Experiment, r: Request, hash: string -> Hash, random: nat, a: Answer)
    requires Total(e.arms) > 0
    ensures IsAssignment(e, r, hash, random, a) <==> AssignsDrawn(e, r, hash, random, a)
  {
    var h := StickyHash(e, r.metadata, hash);
    if IsAssignment(e, r, hash, random, a) {
      var c :| IsChoice(e.arms, h, random, c) && a == AnswerOf(e, r, c);
    }
    if AssignsDrawn(e, r, hash, random, a) {
      if a == Panicked {
        assert IsChoice(e.arms, h, random, DivisionByZero);
      } else {
        var draw := if Sticks(e, r.metadata) then hash(r.metadata[e.stickyKey.value]) % (Total(e.arms) % TWO_32)
                    else random % Total(e.arms);
        var i :| Picks(e.arms, draw, i) && a == Assigned(e.id, e.arms[i].id, e.arms[i].model, r.model);
        assert IsChoice(e.arms, h, random, Picked(i)) && a == AnswerOf(e, r, Picked(i));
      }
    }
  }

  /** The answer over a list, in terms of the request. */
  lemma AnswersExactlyWhen(exps: seq<Experiment>, r: Request, hash: string -> Hash, random: nat, a: Answer)
    ensures IsAnswer(exps, r, hash, random, a)
       <==> (a == NoRoute && forall e <- exps :: Skipped(e, r)) || FirstAssigns(exps, r, hash, random, a)
  {
    forall e | e in exps
      ensures Skipped(e, r) <==> !Eligible(e, r)
      ensures Total(e.arms) > 0 ==> (IsAssignment(e, r, hash, random, a) <==> AssignsDrawn(e, r, hash, random, a))
    {
      SkippedExactlyWhen(e, r);
      if Total(e.arms) > 0 {
        AssignsDrawnExactlyWhen(e, r, hash, random, a);
      }
    }
    assert forall k :: 0 <= k < |exps| ==> exps[k] in exps;
    assert forall k :: 0 <= k < |exps| ==> (DecidesAt(exps, r, k) <==> FirstLeft(exps, r, k));
  }

  lemma NoArmsNoWeight(arms: seq<Arm>)
    ensures Total(arms) > 0 ==> arms != []
  {
  }

  /** The scan of the list. */
  method FirstMatch(exps: seq<Experiment>, r: Request, hash: string -> Hash, random: nat) returns (a: Answer)
    ensures IsAnswer(exps, r, hash, random, a)
    ensures (a == NoRoute && forall e <- exps :: Skipped(e, r)) || FirstAssigns(exps, r, hash, random, a)
  {
    for k := 0 to |exps|
      invariant forall j :: 0 <= j < k ==> !Eligible(exps[j], r)
    {
      var e := exps[k];
      NoArmsNoWeight(e.arms);
      if e.status != "active" || !KeyAllows(e, r.apiKey) {
        continue;
      }
      var ok := MatchesFilters(e.filters, r.metadata);
      assert ok <==> Matches(e.filters, r.metadata);
      if !ok || |e.arms| == 0 {
        continue;
      }
      var c := SelectArm(e.arms, StickyHash(e, r.metadata, hash), random);
      if c.NoArm? {
        continue;
      }
      assert DecidesAt(exps, r, k);
      a := if c.DivisionByZero? then Panicked
           else Assigned(e.id, e.arms[c.i].id, e.arms[c.i].model, r.model);
      assert a == AnswerOf(e, r, c);
      AnswersExactlyWhen(exps, r, hash, random, a);
      return;
    }
    AnswersExactlyWhen(exps, r, hash, random, NoRoute);
    return NoRoute;
  }

  lemma ChoicesAreUnique(arms: seq<Arm>, hash: Option<nat>, random: nat, random': nat, c: Choice, c': Choice)
    requires IsChoice(arms, hash, random, c) && IsChoice(arms, hash, random', c')
    requires hash.Some? || random == random'
    ensures c == c'
  {
    if c.Picked? && c'.Picked? {
      OnePickOnly(arms, DrawOf(Total(arms), hash, random), c.i, c'.i);
    }
  }

  /**
   While the list is unchanged an answer is a function of the request and the draw, and if the first experiment that
   is not passed over finds a value to stick to in the request, the answer is the same whatever is drawn.
   */
  lemma StickyChoiceIsStable(exps: seq<Experiment>, r: Request, hash: string -> Hash,
                             random: nat, random': nat, a: Answer, a': Answer)
    requires IsAnswer(exps, r, hash, random, a) && IsAnswer(exps, r, hash, random', a')
    requires random == random' || forall k :: 0 <= k < |exps| && FirstLeft(exps, r, k) ==> Sticks(exps[k], r.metadata)
    ensures a == a'
  {
    AnswersExactlyWhen(exps, r, hash, random, a);
    AnswersExactlyWhen(exps, r, hash, random', a');
    if FirstAssigns(exps, r, hash, random, a) && FirstAssigns(exps, r, hash, random', a') {
      var k :| 0 <= k < |exps| && FirstLeft(exps, r, k) && AssignsDrawn(exps[k], r, hash, random, a);
      var k' :| 0 <= k' < |exps| && FirstLeft(exps, r, k') && AssignsDrawn(exps[k'], r, hash, random', a');
      assert k == k';
      DrawnOnce(exps[k], r, hash, random, random', a, a');
    }
  }

  lemma DrawnOnce(e: Experiment, r: Request, hash: string -> Hash, random: nat, random': nat, a: Answer, a': Answer)
    requires AssignsDrawn(e, r, hash, random, a) && AssignsDrawn(e, r, hash, random', a')
    requires random == random' || Sticks(e, r.metadata)
    ensures a == a'
  {
    if a != Panicked {
      var draw := if Sticks(e, r.metadata) then hash(r.metadata[e.stickyKey.value]) % (Total(e.arms) % TWO_32)
                  else random % Total(e.arms);
      var i :| Picks(e.arms, draw, i) && a == Assigned(e.id, e.arms[i].id, e.arms[i].model, r.model);
      var i' :| Picks(e.arms, draw, i') && a' == Assigned(e.id, e.arms[i'].id, e.arms[i'].model, r.model);
      OnePickOnly(e.arms, draw, i, i');
    }
  }

  lemma DecidesOnce(exps: seq<Experiment>, r: Request, j: int, k: int)
    requires DecidesAt(exps, r, j) && DecidesAt(exps, r, k)
    ensures j == k
  {
  }

  // ---- The cache --------------------------------------------------------------------------------

  const CACHE_TTL: nat := 30_000_000_000

  /**
   A successful query for a request of time `now`: what the store held when asked, what it listed, and when the
   list was cached. All times are readings of one clock.
   */
  datatype Query = Query(org: nat, now: int, askedAt: int, rows: set<Experiment>, exps: seq<Experiment>, cachedAt: int)

  /** Where a request stands. Its time is read first; then it looks at the cache, and asks the store if it misses. */
  datatype Stage = Begun | Asking | Got(askedAt: int, rows: set<Experiment>, exps: seq<Experiment>) | Refused

  datatype Pending = Pending(r: Request, stage: Stage)

  /** Where a list came from. */
  datatype Source = FromCache(q: Query) | Queried(q: Query) | Stale(q: Query) | Nothing

  function ListOf(from: Source): seq<Experiment> {
    if from.Nothing? then [] else from.q.exps
  }

  datatype State = State(rows: set<Experiment>, cache: map<nat, Query>, clock: int, pending: map<nat, Pending>,
                         served: Option<(Request, Source)>)

  datatype Action =
    | Tick(d: nat)
    | Change(rows: set<Experiment>)
    | Begin(id: nat, org: nat, apiKey: Option<nat>, metadata: Metadata, model: string)
    | Hit(id: nat)
    | Miss(id: nat)
    | Ask(id: nat, exps: seq<Experiment>)
    | AskFails(id: nat)
    | Keep(id: nat)
    | Fallback(id: nat)

  predicate IsFresh(s: State, org: nat) {
    org in s.cache && s.clock - s.cache[org].cachedAt < CACHE_TTL
  }

  ghost predicate StageIs(s: State, id: nat, stage: Stage) {
    id in s.pending && s.pending[id].stage == stage
  }

  function Served(s: State, id: nat, from: Source): State
    requires id in s.pending
  {
    s.(pending := s.pending - {id}, served := Some((s.pending[id].r, from)))
  }

  ghost function Step(s: State, a: Action): Option<State> {
    match a
    case Tick(d) => Some(s.(clock := s.clock + d, served := None))
    case Change(rows) => Some(s.(rows := rows, served := None))
    case Begin(id, org, apiKey, metadata, model) =>
      if id in s.pending then None
      else
        var r := Request(org, apiKey, metadata, model, s.clock);
        Some(s.(pending := s.pending[id := Pending(r, Begun)], served := None))
    case Hit(id) =>
      if !StageIs(s, id, Begun) || !IsFresh(s, s.pending[id].r.org) then None
      else Some(Served(s, id, FromCache(s.cache[s.pending[id].r.org])))
    case Miss(id) =>
      if !StageIs(s, id, Begun) || IsFresh(s, s.pending[id].r.org) then None
      else Some(s.(pending := s.pending[id := s.pending[id].(stage := Asking)], served := None))
    case Ask(id, exps) =>
      if !StageIs(s, id, Asking) || !IsActiveList(s.rows, s.pending[id].r.org, s.pending[id].r.now, exps) then None
      else
        Some(s.(pending := s.pending[id := s.pending[id].(stage := Got(s.clock, s.rows, exps))], served := None))
    case AskFails(id) =>
      if !StageIs(s, id, Asking) then None
      else Some(s.(pending := s.pending[id := s.pending[id].(stage := Refused)], served := None))
    case Keep(id) =>
      if id !in s.pending || !s.pending[id].stage.Got? then None
      else
        var q := QueryOf(s.pending[id], s.clock);
        Some(Served(s.(cache := s.cache[q.org := q]), id, Queried(q)))
    case Fallback(id) =>
      if !StageIs(s, id, Refused) then None
      else
        var org := s.pending[id].r.org;
        Some(Served(s, id, if org in s.cache then Stale(s.cache[org]) else Nothing))
  }

  function QueryOf(p: Pending, clock: int): Query
    requires p.stage.Got?
  {
    Query(p.r.org, p.r.now, p.stage.askedAt, p.stage.rows, p.stage.exps, clock)
  }

  ghost function Exec(s: State, actions: seq<Action>): Option<State> {
    Runs.Exec(Step, s, actions)
  }

  ghost predicate Start(s: State) {
    s.cache == map[] && s.pending == map[] && s.served.None?
  }

  // ---- What every answer rests on ---------------------------------------------------------------

  ghost predicate Sound(q: Query, clock: int) {
    IsActiveList(q.rows, q.org, q.now, q.exps) && q.now <= q.askedAt <= q.cachedAt <= clock
  }

  ghost predicate PendingOk(p: Pending, clock: int) {
    && p.r.now <= clock
    && (p.stage.Got? ==>
          p.r.now <= p.stage.askedAt <= clock && IsActiveList(p.stage.rows, p.r.org, p.r.now, p.stage.exps))
  }

  ghost predicate Inv(s: State) {
    && (forall org <- s.cache :: s.cache[org].org == org && Sound(s.cache[org], s.clock))
    && (forall id <- s.pending :: PendingOk(s.pending[id], s.clock))
  }

  lemma StepKeeps(s: State, a: Action, t: State)
    requires Inv(s) && Step(s, a) == Some(t)
    ensures Inv(t)
  {
    if a.Keep? {
      assert PendingOk(s.pending[a.id], s.clock);
    }
  }

  lemma {:induction false} RunKeeps(s: State, actions: seq<Action>, t: State)
    requires Inv(s) && Exec(s, actions) == Some(t)
    ensures Inv(t)
    decreases |actions|
  {
    if actions == [] {
    } else {
      var n := |actions| - 1;
      RunKeeps(s, actions[..n], Exec(s, actions[..n]).value);
      StepKeeps(Exec(s, actions[..n]).value, actions[n], t);
    }
  }

  /** A request falls back only after its own query failed. */
  lemma {:induction false} RefusedMeansFailed(start: State, actions: seq<Action>, s: State, id: nat)
    requires Start(start) && Exec(start, actions) == Some(s) && StageIs(s, id, Refused)
    ensures AskFails(id) in actions
    decreases |actions|
  {
    if actions == [] {
    } else {
      var n := |actions| - 1;
      var m := Exec(start, actions[..n]).value;
      if StageIs(m, id, Refused) {
        RefusedMeansFailed(start, actions[..n], m, id);
      } else {
        assert actions[n] == AskFails(id);
      }
    }
  }

  /** What a list may be used for, by a request served at time `clock`. */
  ghost predicate Justifies(from: Source, r: Request, clock: int) {
    match from
    case FromCache(q) => q.org == r.org && Sound(q, clock) && clock < q.cachedAt + CACHE_TTL
    case Queried(q) => q.org == r.org && Sound(q, clock) && q.now == r.now
    case Stale(q) => q.org == r.org && Sound(q, clock)
    case Nothing => true
  }

  /**
   Main result: in every run of overlapping requests, changes of the store and failures, the list that serves a
   request is one that the store gave for its organisation: cached less than one TTL ago, or in answer to this very
   request, or, only after this request's own query failed, an older one or none.
   */
  lemma EveryAnswerIsJustified(start: State, actions: seq<Action>, s: State, a: Action, t: State)
    requires Start(start) && Exec(start, actions) == Some(s) && Step(s, a) == Some(t) && t.served.Some?
    ensures Justifies(t.served.value.1, t.served.value.0, t.clock) && t.served.value.0.now <= t.clock
    ensures t.served.value.1.Stale? || t.served.value.1.Nothing? ==> a.Fallback? && AskFails(a.id) in actions
  {
    RunKeeps(start, actions, s);
    StepKeeps(s, a, t);
    assert PendingOk(s.pending[a.id], s.clock);
    if a.Fallback? {
      RefusedMeansFailed(start, actions, s, a.id);
    }
  }

  ghost predicate AssignsArmOf(a: Answer, e: Experiment, r: Request) {
    && a.Assigned? && a.experiment == e.id && a.originalModel == r.model
    && (e.apiKey.None? || r.apiKey == e.apiKey)
    && (forall k <- e.filters :: (if k in r.metadata then r.metadata[k] else "") == e.filters[k])
    && exists arm <- e.arms :: arm.weight > 0 && a.arm == arm.id && a.assignedModel == arm.model
  }

  /** An assignment comes from a listed experiment that the request matches, and from an arm with positive weight. */
  lemma AssignedIsListed(exps: seq<Experiment>, r: Request, hash: string -> Hash, random: nat, a: Answer)
    requires IsAnswer(exps, r, hash, random, a)
    ensures a.Assigned? ==> exists e <- exps :: AssignsArmOf(a, e, r)
  {
    if a.Assigned? {
      var k :| DecidesAt(exps, r, k) && IsAssignment(exps[k], r, hash, random, a);
      var e := exps[k];
      var c :| IsChoice(e.arms, StickyHash(e, r.metadata, hash), random, c) && a == AnswerOf(e, r, c);
      PickIsPositive(e.arms, DrawOf(Total(e.arms), StickyHash(e, r.metadata, hash), random), c.i);
      assert e.arms[c.i] in e.arms;
      SkippedExactlyWhen(e, r);
      assert AssignsArmOf(a, e, r) && e in exps;
    }
  }

  // ---- What caching costs -----------------------------------------------------------------------

  /**
   How far a cached list can be off, in every run: an experiment on it may have ended before the request's time, by
   less than one TTL and the time its query took, or start after it, but not after the look at the cache.
   */
  lemma WindowIsMissedByAtMost(start: State, actions: seq<Action>, s: State, id: nat, t: State, e: Experiment)
    requires Start(start) && Exec(start, actions) == Some(s) && Step(s, Hit(id)) == Some(t)
    requires e in ListOf(t.served.value.1)
    ensures
      var (r, from) := t.served.value;
      && from.FromCache? && e in from.q.rows
      && r.now - e.endsAt < CACHE_TTL + (from.q.cachedAt - from.q.now)
      && e.startsAt <= t.clock
  {
    EveryAnswerIsJustified(start, actions, s, Hit(id), t);
    var q := t.served.value.1.q;
    assert IsActive(e, q.org, q.now) && e in q.rows;
  }

  /** The rows in their listing order, restricted to those active at a time. */
  function ActiveOf(order: seq<Experiment>, org: nat, now: int): seq<Experiment> {
    if order == [] then []
    else if IsActive(order[0], org, now) then [order[0]] + ActiveOf(order[1..], org, now)
    else ActiveOf(order[1..], org, now)
  }

  lemma {:induction false} ActiveOfIsActive(order: seq<Experiment>, org: nat, now: int)
    ensures forall e :: e in ActiveOf(order, org, now) <==> e in order && IsActive(e, org, now)
    decreases |order|
  {
    if order == [] {
    } else {
      ActiveOfIsActive(order[1..], org, now);
      assert order == [order[0]] + order[1..];
    }
  }

  /** The experiment of a list that decides a request. */
  ghost function Decider(exps: seq<Experiment>, r: Request): Option<Experiment> {
    if exps == [] then None
    else if Eligible(exps[0], r) then Some(exps[0])
    else Decider(exps[1..], r)
  }

  lemma {:induction false} DeciderDecides(exps: seq<Experiment>, r: Request)
    ensures Decider(exps, r).None? <==> forall e <- exps :: !Eligible(e, r)
    ensures forall k :: DecidesAt(exps, r, k) ==> Decider(exps, r) == Some(exps[k])
    decreases |exps|
  {
    if exps == [] {
    } else {
      DeciderDecides(exps[1..], r);
      assert exps == [exps[0]] + exps[1..];
      forall k | DecidesAt(exps, r, k)
        ensures Decider(exps, r) == Some(exps[k])
      {
        if k > 0 {
          DecidesInRest(exps, r, k);
        }
      }
    }
  }

  lemma DecidesInRest(exps: seq<Experiment>, r: Request, k: int)
    requires k > 0 && DecidesAt(exps, r, k)
    ensures DecidesAt(exps[1..], r, k - 1) && !Eligible(exps[0], r)
  {
    forall j | 0 <= j < k - 1
      ensures !Eligible(exps[1..][j], r)
    {
      var i := j + 1;
      assert exps[1..][j] == exps[i];
    }
  }

  /**
   No eligible experiment is active at only one of the two times, in listing order up to the one that decides at
   time `at`.
   */
  ghost predicate SteadyUpToDecider(order: seq<Experiment>, r: Request, at: int) {
    order != [] ==>
      if IsActive(order[0], r.org, at) && Eligible(order[0], r) then IsActive(order[0], r.org, r.now)
      else
        && (Eligible(order[0], r) ==> !IsActive(order[0], r.org, r.now))
        && SteadyUpToDecider(order[1..], r, at)
  }

  /**
   Over unchanged rows, the list of time `at` and that of the request's own time have the same decider exactly when
   no eligible experiment, up to and including the decider, has a window edge between the two times.
   */
  lemma {:induction false} SameDeciderExactlyWhen(order: seq<Experiment>, r: Request, at: int)
    requires Distinct(order)
    ensures Decider(ActiveOf(order, r.org, at), r) == Decider(ActiveOf(order, r.org, r.now), r)
       <==> SteadyUpToDecider(order, r, at)
    decreases |order|
  {
    if order == [] {
    } else {
      var rest := order[1..];
      assert order == [order[0]] + rest && order[0] !in rest;
      SameDeciderExactlyWhen(rest, r, at);
      ActiveOfIsActive(rest, r.org, at);
      ActiveOfIsActive(rest, r.org, r.now);
      DeciderOfCons(order[0], ActiveOf(rest, r.org, at), r);
      DeciderOfCons(order[0], ActiveOf(rest, r.org, r.now), r);
      DeciderIsListed(ActiveOf(rest, r.org, at), r);
      DeciderIsListed(ActiveOf(rest, r.org, r.now), r);
    }
  }

  lemma DeciderOfCons(e: Experiment, exps: seq<Experiment>, r: Request)
    ensures Decider([e] + exps, r) == if Eligible(e, r) then Some(e) else Decider(exps, r)
  {
    assert ([e] + exps)[1..] == exps;
  }

  lemma DeciderIsListed(exps: seq<Experiment>, r: Request)
    ensures Decider(exps, r).Some? ==> Decider(exps, r).value in exps
  {
  }

  /** Two lists with the same decider give the same answer for the same draw. */
  lemma SameDeciderSameAnswer(exps: seq<Experiment>, exps': seq<Experiment>, r: Request, hash: string -> Hash,
                              random: nat, a: Answer, a': Answer)
    requires IsAnswer(exps, r, hash, random, a) && IsAnswer(exps', r, hash, random, a')
    requires Decider(exps, r) == Decider(exps', r)
    ensures a == a'
  {
    DeciderDecides(exps, r);
    DeciderDecides(exps', r);
    if Decider(exps, r).Some? {
      var j :| DecidesAt(exps, r, j) && IsAssignment(exps[j], r, hash, random, a);
      var k :| DecidesAt(exps', r, k) && IsAssignment(exps'[k], r, hash, random, a');
      AssignmentIsUnique(exps[j], r, hash, random, a, a');
    }
  }

  lemma AssignmentIsUnique(e: Experiment, r: Request, hash: string -> Hash, random: nat, a: Answer, a': Answer)
    requires IsAssignment(e, r, hash, random, a) && IsAssignment(e, r, hash, random, a')
    ensures a == a'
  {
    var h := StickyHash(e, r.metadata, hash);
    var c :| IsChoice(e.arms, h, random, c) && a == AnswerOf(e, r, c);
    var c' :| IsChoice(e.arms, h, random, c') && a' == AnswerOf(e, r, c');
    ChoicesAreUnique(e.arms, h, random, random, c, c');
  }

  /** Different deciders with different ids give different answers, unless both divide by zero. */
  lemma OtherDeciderOtherAnswer(exps: seq<Experiment>, exps': seq<Experiment>, r: Request, hash: string -> Hash,
                                random: nat, a: Answer, a': Answer)
    requires IsAnswer(exps, r, hash, random, a) && IsAnswer(exps', r, hash, random, a')
    requires Decider(exps, r) != Decider(exps', r)
    requires forall e, e' :: e in exps && e' in exps' && e.id == e'.id ==> e == e'
    ensures a != a' || a == Panicked
  {
    DeciderDecides(exps, r);
    DeciderDecides(exps', r);
    if Decider(exps, r).Some? {
      AnswerNamesDecider(exps, r, hash, random, a);
    }
    if Decider(exps', r).Some? {
      AnswerNamesDecider(exps', r, hash, random, a');
    }
  }

  lemma AnswerNamesDecider(exps: seq<Experiment>, r: Request, hash: string -> Hash, random: nat, a: Answer)
    requires IsAnswer(exps, r, hash, random, a) && Decider(exps, r).Some?
    ensures Decider(exps, r).value in exps
    ensures a == Panicked || (a.Assigned? && a.experiment == Decider(exps, r).value.id)
  {
    DeciderDecides(exps, r);
    var k :| DecidesAt(exps, r, k) && IsAssignment(exps[k], r, hash, random, a);
    var e := exps[k];
    var c :| IsChoice(e.arms, StickyHash(e, r.metadata, hash), random, c) && a == AnswerOf(e, r, c);
  }

  /**
   Main result: over rows that have not changed since its query, a cached answer is the one that the store would
   have given at the request's own time, for the same draw, exactly when no eligible experiment up to the
   decider has a window edge between the two times (short of two divisions by zero).
   */
  lemma CachedIsUncachedExactlyWhen(q: Query, r: Request, clock: int, order: seq<Experiment>, hash: string -> Hash,
                                    random: nat, a: Answer, a': Answer)
    requires Justifies(FromCache(q), r, clock)
    requires Distinct(order) && q.exps == ActiveOf(order, r.org, q.now)
    requires forall e, e' :: e in order && e' in order && e.id == e'.id ==> e == e'
    requires IsAnswer(q.exps, r, hash, random, a)
    requires IsAnswer(ActiveOf(order, r.org, r.now), r, hash, random, a')
    ensures SteadyUpToDecider(order, r, q.now) ==> a == a'
    ensures !SteadyUpToDecider(order, r, q.now) ==> a != a' || a == Panicked
  {
    var uncached := ActiveOf(order, r.org, r.now);
    SameDeciderExactlyWhen(order, r, q.now);
    if SteadyUpToDecider(order, r, q.now) {
      SameDeciderSameAnswer(q.exps, uncached, r, hash, random, a, a');
    } else {
      ActiveOfIsActive(order, r.org, q.now);
      ActiveOfIsActive(order, r.org, r.now);
      OtherDeciderOtherAnswer(q.exps, uncached, r, hash, random, a, a');
    }
  }

  /** A run of requests 1 and 2 from an empty cache, in which the second is served what the first has cached. */
  lemma TwoRequests(e: Experiment, first: nat, second: nat, model: string, early: bool)
    returns (actions: seq<Action>, s: State)
    requires IsActive(e, 1, first) && (early <==> second < first) && (second >= first ==> second - first < CACHE_TTL)
    ensures Exec(State({e}, map[], 0, map[], None), actions) == Some(s)
    ensures s.served
         == Some((Request(1, None, map[], model, second), FromCache(Query(1, first, first, {e}, [e], first))))
  {
    var s0 := State({e}, map[], 0, map[], None);
    var q := Query(1, first, first, {e}, [e], first);
    var b := Begin(2, 1, None, map[], model);
    var w := Pending(Request(1, None, map[], model, second), Begun);
    var t1, t2, t3, t4;
    if early {
      t1 := s0.(clock := second);
      actions := Runs.Extended(Step, s0, [], s0, Tick(second), t1);
      t2 := t1.(pending := map[2 := w]);
      actions := Runs.Extended(Step, s0, actions, t1, b, t2);
      t3 := t2.(clock := first);
      actions := Runs.Extended(Step, s0, actions, t2, Tick(first - second), t3);
      actions, t4 := CacheByFirst(s0, actions, t3, e, first);
    } else {
      t1 := s0.(clock := first);
      actions := Runs.Extended(Step, s0, [], s0, Tick(first), t1);
      actions, t2 := CacheByFirst(s0, actions, t1, e, first);
      t3 := t2.(clock := second, served := None);
      actions := Runs.Extended(Step, s0, actions, t2, Tick(second - first), t3);
      t4 := t3.(pending := t3.pending[2 := w]);
      actions := Runs.Extended(Step, s0, actions, t3, b, t4);
    }
    s := ServeSecond(t4, q, w);
    actions := Runs.Extended(Step, s0, actions, t4, Hit(2), s);
  }

  lemma ServeSecond(s: State, q: Query, w: Pending) returns (t: State)
    requires s.cache == map[1 := q] && s.clock - q.cachedAt < CACHE_TTL && s.pending == map[2 := w]
    requires w.stage == Begun && w.r.org == 1
    ensures Step(s, Hit(2)) == Some(t) && t.served == Some((w.r, FromCache(q)))
  {
    t := Step(s, Hit(2)).value;
  }

  /** Request 1 comes, misses, asks and caches, all at one instant. */
  lemma CacheByFirst(start: State, before: seq<Action>, s: State, e: Experiment, at: nat)
    returns (actions: seq<Action>, t: State)
    requires Exec(start, before) == Some(s) && s.rows == {e} && s.cache == map[] && 1 !in s.pending && s.served.None?
    requires s.clock == at && IsActive(e, 1, at)
    ensures Exec(start, actions) == Some(t)
    ensures t.cache == map[1 := Query(1, at, at, {e}, [e], at)] && t.pending == s.pending
    ensures t.clock == at && t.rows == s.rows
  {
    var r := Request(1, None, map[], "", at);
    var b := Begin(1, 1, None, map[], "");
    var s1 := StateWith(s, Pending(r, Begun));
    var s2 := StateWith(s, Pending(r, Asking));
    var s3 := StateWith(s, Pending(r, Got(at, {e}, [e])));
    MissesAndAsks(s, e, r);
    t := Step(s3, Keep(1)).value;
    assert s3.pending - {1} == s.pending;
    actions := Runs.Extended(Step, start, before, s, b, s1);
    actions := Runs.Extended(Step, start, actions, s1, Miss(1), s2);
    actions := Runs.Extended(Step, start, actions, s2, Ask(1, [e]), s3);
    actions := Runs.Extended(Step, start, actions, s3, Keep(1), t);
  }

  function StateWith(s: State, p: Pending): State {
    s.(pending := s.pending[1 := p])
  }

  lemma MissesAndAsks(s: State, e: Experiment, r: Request)
    requires s.rows == {e} && s.cache == map[] && s.served.None? && r.org == 1 && r.now == s.clock
    requires IsActive(e, 1, s.clock)
    ensures Step(StateWith(s, Pending(r, Begun)), Miss(1)) == Some(StateWith(s, Pending(r, Asking)))
    ensures Step(StateWith(s, Pending(r, Asking)), Ask(1, [e]))
         == Some(StateWith(s, Pending(r, Got(s.clock, {e}, [e]))))
  {
    var s1, s2 := StateWith(s, Pending(r, Begun)), StateWith(s, Pending(r, Asking));
    assert s1.pending[1 := Pending(r, Asking)] == s2.pending;
    assert s2.pending[1 := Pending(r, Got(s.clock, {e}, [e]))] == s.pending[1 := Pending(r, Got(s.clock, {e}, [e]))];
    assert IsActiveList({e}, 1, s.clock, [e]);
  }

  /** The answer that assigns the only arm of the only experiment. */
  lemma OnlyArmIsAssigned(e: Experiment, r: Request, hash: string -> Hash)
    requires e.status == "active" && e.apiKey.None? && e.filters == map[] && e.stickyKey.None?
    requires |e.arms| == 1 && e.arms[0].weight == 1
    ensures IsAnswer([e], r, hash, 0, Assigned(e.id, e.arms[0].id, e.arms[0].model, r.model))
  {
    assert Prefix(e.arms, 0) == 0;
    assert Prefix(e.arms, 1) == 1;
    assert Picks(e.arms, 0, 0);
    assert IsChoice(e.arms, None, 0, Picked(0));
    assert Assigned(e.id, e.arms[0].id, e.arms[0].model, r.model) == AnswerOf(e, r, Picked(0));
    assert DecidesAt([e], r, 0) && IsAssignment([e][0], r, hash, 0, AnswerOf(e, r, Picked(0)));
  }

  /**
   The documented rule that a request's time is inside the window fails on both sides: for every time `end`, a
   cached list assigns an experiment one tick after it has ended; and for every start, a request whose time was
   read one tick before is assigned the experiment that another request has cached meanwhile.
   */
  lemma AssignedOutsideTheWindow(edge: nat, ended: bool, hash: string -> Hash)
    returns (actions: seq<Action>, s: State, e: Experiment, a: Answer)
    requires edge > 0
    ensures Exec(State({e}, map[], 0, map[], None), actions) == Some(s) && s.served.Some?
    ensures
      var (r, from) := s.served.value;
      && from.FromCache? && from.q.exps == [e] && IsAnswer([e], r, hash, 0, a) && a.Assigned? && a.experiment == e.id
      && if ended then e.endsAt == edge && r.now == edge + 1 else e.startsAt == edge && r.now == edge - 1
  {
    e := Experiment(1, 1, "active", None, map[], None, if ended then 0 else edge, if ended then edge else edge + 1,
                    [Arm(5, "m", 1)]);
    var second := if ended then edge + 1 else edge - 1;
    actions, s := TwoRequests(e, edge, second, "n", !ended);
    var r := Request(1, None, map[], "n", second);
    OnlyArmIsAssigned(e, r, hash);
    a := Assigned(1, 5, "m", "n");
  }

  // ---- The router -------------------------------------------------------------------------------

  datatype Cached = Cached(exps: seq<Experiment>, fetchedAt: int)

  method AnyRequest() returns (org: nat, apiKey: Option<nat>, metadata: Metadata, model: string) {
    org, apiKey, metadata, model :| true;
  }

  class Router {
    const store: Store
    var cache: map<nat, Cached>
    var clock: int
    /** The requests between the reading of their time and their answer. */
    var pending: map<nat, Pending>
    ghost var queries: map<nat, Query>
    ghost var served: Option<(Request, Source)>

    ghost function View(): State
      reads this, store
    {
      State(store.rows, queries, clock, pending, served)
    }

    ghost predicate Valid()
      reads this, store
    {
      && Inv(View())
      && cache.Keys == queries.Keys
      && forall org <- cache :: cache[org] == Cached(queries[org].exps, queries[org].cachedAt)
    }

    constructor (store: Store)
      ensures Valid() && Start(View()) && clock == 0 && this.store == store
    {
      this.store := store;
      cache, clock, pending, queries, served := map[], 0, map[], map[], None;
    }

    /** The caller reads the request's time; the look at the cache comes later. */
    method ReadClock(id: nat, org: nat, apiKey: Option<nat>, metadata: Metadata, model: string,
                     ghost start: State, ghost before: seq<Action>)
      returns (r: Request, ghost trace: seq<Action>)
      requires Valid() && Exec(start, before) == Some(View()) && id !in pending
      modifies `pending, `served
      ensures Valid() && Exec(start, trace) == Some(View())
      ensures r == Request(org, apiKey, metadata, model, clock) && pending == old(pending)[id := Pending(r, Begun)]
    {
      r := Request(org, apiKey, metadata, model, clock);
      ghost var s := View();
      pending, served := pending[id := Pending(r, Begun)], None;
      trace := before + [Begin(id, org, apiKey, metadata, model)];
      Runs.ExecOne(Step, start, before, s, Begin(id, org, apiKey, metadata, model), View());
    }

    ghost predicate IsAt(id: nat, stage: Stage)
      reads this
    {
      id in pending && pending[id].stage == stage
    }

    /** The look at the cache. */
    method LookAtCache(id: nat, ghost start: State, ghost before: seq<Action>)
      returns (exps: Option<seq<Experiment>>, ghost trace: seq<Action>)
      requires Valid() && Exec(start, before) == Some(View()) && IsAt(id, Begun)
      modifies `pending, `served
      ensures Valid() && Exec(start, trace) == Some(View())
      ensures exps.Some? <==> IsFresh(old(View()), old(pending)[id].r.org)
      ensures exps.Some? ==>
        var r := old(pending)[id].r;
        && pending == old(pending) - {id} && trace == before + [Hit(id)]
        && served == Some((r, FromCache(queries[r.org]))) && exps.value == queries[r.org].exps
      ensures exps.None? ==> pending == old(pending)[id := Pending(old(pending)[id].r, Asking)]
    {
      var r := pending[id].r;
      ghost var s := View();
      if r.org in cache && clock - cache[r.org].fetchedAt < CACHE_TTL {
        exps := Some(cache[r.org].exps);
        pending, served := pending - {id}, Some((r, FromCache(queries[r.org])));
        Runs.ExecOne(Step, start, before, s, Hit(id), View());
        trace := before + [Hit(id)];
      } else {
        exps := None;
        pending, served := pending[id := Pending(r, Asking)], None;
        Runs.ExecOne(Step, start, before, s, Miss(id), View());
        trace := before + [Miss(id)];
      }
    }

    /** What a query listed for a request, unless it failed. */
    function Listed(id: nat): (l: Option<seq<Experiment>>)
      requires id in pending
      reads this
      ensures l.Some? ==> pending[id].stage.Got?
    {
      if pending[id].stage.Got? then Some(pending[id].stage.exps) else None
    }

    /** The query of a request that found no fresh list. */
    method AskStore(id: nat, ghost start: State, ghost before: seq<Action>) returns (ghost trace: seq<Action>)
      requires Valid() && Exec(start, before) == Some(View()) && IsAt(id, Asking)
      modifies `pending, `served, store`asked
      ensures Valid() && Exec(start, trace) == Some(View())
      ensures id in pending && (pending[id].stage.Got? || pending[id].stage.Refused?)
      ensures pending == old(pending)[id := Pending(old(pending)[id].r, pending[id].stage)]
      ensures store.asked
           == old(store.asked) + [Asked(id, old(pending)[id].r.org, old(pending)[id].r.now, Listed(id))]
    {
      var r := pending[id].r;
      ghost var s := View();
      var answer := store.ListActiveExperiments(r.org, r.now, id);
      if answer.Err? {
        pending, served := pending[id := Pending(r, Refused)], None;
        Runs.ExecOne(Step, start, before, s, AskFails(id), View());
        trace := before + [AskFails(id)];
      } else {
        pending, served := pending[id := Pending(r, Got(clock, store.rows, answer.value))], None;
        Runs.ExecOne(Step, start, before, s, Ask(id, answer.value), View());
        StepKeeps(s, Ask(id, answer.value), View());
        trace := before + [Ask(id, answer.value)];
      }
    }

    /** The list is cached, stamped with the time at which it came back, and serves its request. */
    method StoreList(id: nat, ghost start: State, ghost before: seq<Action>)
      returns (exps: seq<Experiment>, ghost trace: seq<Action>)
      requires Valid() && Exec(start, before) == Some(View()) && id in pending && pending[id].stage.Got?
      modifies `cache, `pending, `queries, `served
      ensures Valid() && Exec(start, trace) == Some(View())
      ensures exps == old(pending)[id].stage.exps && pending == old(pending) - {id}
      ensures served == Some((old(pending)[id].r, Queried(QueryOf(old(pending)[id], clock))))
      ensures cache == old(cache)[old(pending)[id].r.org := Cached(exps, clock)]
    {
      var r := pending[id].r;
      exps := pending[id].stage.exps;
      ghost var s, q := View(), QueryOf(pending[id], clock);
      ghost var t := Step(s, Keep(id)).value;
      StepKeeps(s, Keep(id), t);
      Runs.ExecOne(Step, start, before, s, Keep(id), t);
      trace := before + [Keep(id)];
      cache, queries := cache[r.org := Cached(exps, clock)], queries[r.org := q];
      pending, served := pending - {id}, Some((r, Queried(q)));
    }

    /** A failed query falls back on the cached list, however old, or on none. */
    method FallBack(id: nat, ghost start: State, ghost before: seq<Action>)
      returns (exps: seq<Experiment>, ghost trace: seq<Action>)
      requires Valid() && Exec(start, before) == Some(View()) && IsAt(id, Refused)
      modifies `pending, `served
      ensures Valid() && Exec(start, trace) == Some(View()) && pending == old(pending) - {id}
      ensures
        var org := old(pending)[id].r.org;
        && served == Some((old(pending)[id].r, if org in cache then Stale(queries[org]) else Nothing))
        && exps == if org in cache then queries[org].exps else []
    {
      var r := pending[id].r;
      ghost var s := View();
      exps := if r.org in cache then cache[r.org].exps else [];
      pending := pending - {id};
      served := Some((r, if r.org in cache then Stale(queries[r.org]) else Nothing));
      Runs.ExecOne(Step, start, before, s, Fallback(id), View());
      trace := before + [Fallback(id)];
    }

    /** The next statement of another request, or its arrival. */
    method OtherStep(id: nat, ghost start: State, ghost before: seq<Action>) returns (ghost trace: seq<Action>)
      requires Valid() && Exec(start, before) == Some(View())
      modifies `cache, `pending, `queries, `served, store`asked
      ensures Valid() && Exec(start, trace) == Some(View())
      ensures forall other :: other != id ==> AskedBy(store.asked, other) == old(AskedBy(store.asked, other))
      ensures forall other <- old(pending) :: other != id ==>
        other in pending && pending[other] == old(pending)[other]
    {
      if id !in pending {
        var org, apiKey, metadata, model := AnyRequest();
        var r;
        r, trace := ReadClock(id, org, apiKey, metadata, model, start, before);
      } else {
        var exps;
        match pending[id].stage {
          case Begun =>
            var hit;
            hit, trace := LookAtCache(id, start, before);
          case Asking =>
            ghost var asked := store.asked;
            trace := AskStore(id, start, before);
            forall other | other != id
              ensures AskedBy(store.asked, other) == AskedBy(asked, other)
            {
              AskedBySnoc(asked, other, store.asked[|asked|]);
            }
          case Got(_, _, _) =>
            exps, trace := StoreList(id, start, before);
          case Refused =>
            exps, trace := FallBack(id, start, before);
        }
      }
    }

    /** Time goes by. */
    method Wait(ghost start: State, ghost before: seq<Action>) returns (ghost trace: seq<Action>)
      requires Valid() && Exec(start, before) == Some(View())
      modifies `clock, `served
      ensures Valid() && Exec(start, trace) == Some(View()) && clock >= old(clock)
    {
      var d: nat :| true;
      ghost var s := View();
      clock, served := clock + d, None;
      Runs.ExecOne(Step, start, before, s, Tick(d), View());
      StepKeeps(s, Tick(d), View());
      trace := before + [Tick(d)];
    }

    /** The synchronisation rewrites the rows. */
    method ChangeRows(ghost start: State, ghost before: seq<Action>) returns (ghost trace: seq<Action>)
      requires Valid() && Exec(start, before) == Some(View())
      modifies `served, store`rows
      ensures Valid() && Exec(start, trace) == Some(View())
    {
      var rows: set<Experiment> :| true;
      ghost var s := View();
      store.rows, served := rows, None;
      Runs.ExecOne(Step, start, before, s, Change(rows), View());
      StepKeeps(s, Change(rows), View());
      trace := before + [Change(rows)];
    }

    /** Time, changes of the rows and any number of other requests, while request `id` waits. */
    method OthersRun(id: nat, ghost start: State, ghost before: seq<Action>) returns (ghost trace: seq<Action>)
      requires Valid() && Exec(start, before) == Some(View()) && id in pending
      modifies this, store
      ensures Valid() && Exec(start, trace) == Some(View()) && clock >= old(clock)
      ensures id in pending && pending[id] == old(pending)[id]
      ensures AskedBy(store.asked, id) == old(AskedBy(store.asked, id))
    {
      trace := before;
      var rounds: nat :| true;
      for i := 0 to rounds
        invariant Valid() && Exec(start, trace) == Some(View()) && clock >= old(clock)
        invariant id in pending && pending[id] == old(pending)[id]
        invariant AskedBy(store.asked, id) == old(AskedBy(store.asked, id))
      {
        trace := Wait(start, trace);
        trace := ChangeRows(start, trace);
        var other: nat :| true;
        if other != id {
          trace := OtherStep(other, start, trace);
        }
      }
    }

    /**
     The list for a request. It comes from the cache exactly if the cached one is fresh at the first look, and
     then nothing is asked; otherwise the store is asked once, a successful answer is the list, and only a
     failure brings an older list or none.
     */
    method GetExperiments(id: nat) returns (exps: seq<Experiment>, ghost from: Source, ghost trace: seq<Action>)
      requires Valid() && IsAt(id, Begun)
      modifies this, store
      ensures Valid() && Exec(old(View()), trace) == Some(View()) && clock >= old(clock) && id !in pending
      ensures served == Some((old(pending)[id].r, from)) && Justifies(from, old(pending)[id].r, clock)
      ensures exps == ListOf(from)
      ensures from.FromCache? <==>
        var org := old(pending)[id].r.org;
        org in old(cache) && old(clock) - old(cache)[org].fetchedAt < CACHE_TTL
      ensures from.FromCache? ==> trace == [Hit(id)]
      ensures AskedBy(store.asked, id) == old(AskedBy(store.asked, id)) + QueriesFor(id, old(pending)[id].r, from)
    {
      ghost var s := View();
      var r := pending[id].r;
      var cached;
      cached, trace := LookAtCache(id, s, []);
      if cached.Some? {
        assert [] + [Hit(id)] == [Hit(id)];
        return cached.value, FromCache(queries[r.org]), trace;
      }
      trace := OthersRun(id, s, trace);
      ghost var asked := store.asked;
      trace := AskStore(id, s, trace);
      AskedBySnoc(asked, id, store.asked[|asked|]);
      trace := OthersRun(id, s, trace);
      if pending[id].stage.Got? {
        ghost var q := QueryOf(pending[id], clock);
        assert PendingOk(pending[id], clock);
        exps, trace := StoreList(id, s, trace);
        from := Queried(q);
      } else {
        from := if r.org in cache then Stale(queries[r.org]) else Nothing;
        exps, trace := FallBack(id, s, trace);
      }
    }

    /**
     The answer is the first match, for the drawn number, on the list that serves the request. An assigned
     experiment was active and inside its window at that list's query.
     */
    method Route(id: nat, hash: string -> Hash, random: nat)
      returns (a: Answer, ghost from: Source, ghost trace: seq<Action>)
      requires Valid() && IsAt(id, Begun)
      modifies this, store
      ensures Valid() && Exec(old(View()), trace) == Some(View()) && id !in pending
      ensures served == Some((old(pending)[id].r, from)) && Justifies(from, old(pending)[id].r, clock)
      ensures from.FromCache? <==>
        var org := old(pending)[id].r.org;
        org in old(cache) && old(clock) - old(cache)[org].fetchedAt < CACHE_TTL
      ensures from.FromCache? ==> trace == [Hit(id)]
      ensures AskedBy(store.asked, id) == old(AskedBy(store.asked, id)) + QueriesFor(id, old(pending)[id].r, from)
      ensures
        var r, exps := old(pending)[id].r, ListOf(from);
        (a == NoRoute && forall e <- exps :: Skipped(e, r)) || FirstAssigns(exps, r, hash, random, a)
      ensures from.Nothing? ==> a == NoRoute
      ensures a.Assigned? ==>
        var r := old(pending)[id].r;
        !from.Nothing? && exists e <- from.q.rows ::
          && AssignsArmOf(a, e, r)
          && e.org == r.org && e.status == "active" && e.startsAt <= from.q.now <= e.endsAt
    {
      var r, exps := pending[id].r, [];
      exps, from, trace := GetExperiments(id);
      a := FirstMatch(exps, r, hash, random);
      AssignedIsListed(exps, r, hash, random, a);
    }
  }

  /** The queries that a request sends, and what they answer, given where its list came from. */
  function QueriesFor(id: nat, r: Request, from: Source): seq<Asked> {
    match from
    case FromCache(_) => []
    case Queried(q) => [Asked(id, r.org, r.now, Some(q.exps))]
    case _ => [Asked(id, r.org, r.now, None)]
  }
}
