/**
 The API key cache in front of the key storage. A lookup reads the storage and enters its answer, positive
 or negative, into the cache afterwards; in between the storage, the cache and other lookups move on.
 Eviction may drop any entry.
 */
module KeyCache {
  import Runs
  import opened Wrappers

  type Hash = nat

  /** What the storage says about a key. `info` stands for the fields that a caller gets. */
  datatype Status = Absent | Inactive | Revoked | Active(info: nat)

  datatype Answer = Accepted(info: nat) | InvalidKey | KeyRevoked | KeyInactive

  /** `info` is there for a valid key and missing for an invalid one. */
  datatype Cached = Cached(info: Option<nat>, expiresAt: nat)

  /** A lookup that has read the storage. */
  datatype Lookup = Lookup(hash: Hash, status: Status, readAt: nat)

  /** A lookup that has ended. */
  datatype Done = Done(lookup: Lookup, doneAt: nat)

  datatype Reply = Reply(hash: Hash, answer: Answer)

  datatype State = State(storage: map<Hash, Status>, cache: map<Hash, Cached>, now: nat, missed: map<nat, Hash>,
                         lookups: map<nat, Lookup>, log: seq<Done>, reply: Option<Reply>)

  datatype Action =
    | Tick(d: nat)
    | Store(hash: Hash, status: Status)
    | Hit(hash: Hash)
    | Miss(id: nat, hash: Hash)
    | Read(id: nat)
    | Fail(id: nat)
    | Finish(id: nat)
    | Drop(hash: Hash)

  const CACHE_SIZE: nat := 4096

  const TTL: nat := 300_000_000_000

  function StatusOf(storage: map<Hash, Status>, hash: Hash): Status {
    if hash in storage then storage[hash] else Absent
  }

  /** An entry is still good at its very last instant. */
  predicate Usable(cache: map<Hash, Cached>, hash: Hash, now: nat) {
    hash in cache && now <= cache[hash].expiresAt
  }

  /** The answer of a lookup. */
  function AnswerTo(status: Status): Answer {
    match status
    case Absent => InvalidKey
    case Inactive => KeyInactive
    case Revoked => KeyRevoked
    case Active(info) => Accepted(info)
  }

  /** The answer of the cache: whatever made a key invalid, it is reported as inactive. */
  function CachedAnswer(entry: Cached): Answer {
    if entry.info.Some? then Accepted(entry.info.value) else KeyInactive
  }

  function EntryFor(status: Status, now: nat): Cached {
    Cached(if status.Active? then Some(status.info) else None, now + TTL)
  }

  /**
   A lookup misses, which removes an expired entry, then reads the storage or fails to, then enters what it read;
   meanwhile others may have filled the entry it missed. `Drop` is an eviction or an invalidation; a full cache
   has no room for another key before it has dropped one.
   */
  ghost function Step(s: State, a: Action): Option<State> {
    match a
    case Tick(d) => Some(s.(now := s.now + d, reply := None))
    case Store(h, status) => Some(s.(storage := s.storage[h := status], reply := None))
    case Hit(h) =>
      if !Usable(s.cache, h, s.now) then None
      else Some(s.(reply := Some(Reply(h, CachedAnswer(s.cache[h])))))
    case Miss(id, h) =>
      if id in s.missed || id in s.lookups || Usable(s.cache, h, s.now) then None
      else Some(s.(cache := s.cache - {h}, missed := s.missed[id := h], reply := None))
    case Read(id) =>
      if id !in s.missed then None
      else
        var l := Lookup(s.missed[id], StatusOf(s.storage, s.missed[id]), s.now);
        Some(s.(missed := s.missed - {id}, lookups := s.lookups[id := l], reply := None))
    case Fail(id) => Some(s.(missed := s.missed - {id}, reply := None))
    case Finish(id) =>
      if id !in s.lookups || (s.lookups[id].hash !in s.cache && |s.cache| >= CACHE_SIZE) then None
      else
        var l := s.lookups[id];
        Some(s.(cache := s.cache[l.hash := EntryFor(l.status, s.now)], lookups := s.lookups - {id},
                log := s.log + [Done(l, s.now)], reply := Some(Reply(l.hash, AnswerTo(l.status)))))
    case Drop(h) => Some(s.(cache := s.cache - {h}, reply := None))
  }

  ghost function Exec(s: State, actions: seq<Action>): Option<State> {
    Runs.Exec(Step, s, actions)
  }

  ghost predicate Start(s: State) {
    s.cache == map[] && s.missed == map[] && s.lookups == map[] && s.log == [] && s.reply.None?
  }

  // ---- Freshness --------------------------------------------------------------------------------

  /** At some instant of the run the time was `at` and the storage said `status` of the key. */
  ghost predicate Held(start: State, actions: seq<Action>, hash: Hash, status: Status, at: nat) {
    exists i :: HeldAfter(start, actions, i, hash, status, at)
  }

  ghost predicate HeldAfter(start: State, actions: seq<Action>, i: int, hash: Hash, status: Status, at: nat) {
    && 0 <= i <= |actions|
    && Exec(start, actions[..i]).Some?
    && Exec(start, actions[..i]).value.now == at
    && StatusOf(Exec(start, actions[..i]).value.storage, hash) == status
  }

  lemma HeldLater(start: State, actions: seq<Action>, a: Action, hash: Hash, status: Status, at: nat)
    requires Held(start, actions, hash, status, at)
    ensures Held(start, actions + [a], hash, status, at)
  {
    var i :| HeldAfter(start, actions, i, hash, status, at);
    assert (actions + [a])[..i] == actions[..i];
    assert HeldAfter(start, actions + [a], i, hash, status, at);
  }

  lemma HeldNow(start: State, actions: seq<Action>, s: State, hash: Hash)
    requires Exec(start, actions) == Some(s)
    ensures Held(start, actions, hash, StatusOf(s.storage, hash), s.now)
  {
    assert actions[..|actions|] == actions;
    assert HeldAfter(start, actions, |actions|, hash, StatusOf(s.storage, hash), s.now);
  }

  /** The ended lookup that an entry rests on. */
  ghost predicate RestsOn(hash: Hash, entry: Cached, d: Done) {
    && d.lookup.hash == hash
    && entry == EntryFor(d.lookup.status, d.doneAt)
  }

  /** The cache keeps to its size, and every entry is what some ended lookup put there. */
  ghost predicate Backed(s: State) {
    && |s.cache| <= CACHE_SIZE
    && forall h <- s.cache :: exists d <- s.log :: RestsOn(h, s.cache[h], d)
  }

  ghost predicate InOrder(s: State) {
    && (forall d <- s.log :: d.lookup.readAt <= d.doneAt <= s.now)
    && forall id <- s.lookups :: s.lookups[id].readAt <= s.now
  }

  ghost predicate HeldRead(start: State, actions: seq<Action>, l: Lookup) {
    Held(start, actions, l.hash, l.status, l.readAt)
  }

  /** Every lookup saw what the storage said at the time of its read. */
  ghost predicate Truthful(start: State, actions: seq<Action>, s: State) {
    && (forall d <- s.log :: HeldRead(start, actions, d.lookup))
    && forall id <- s.lookups :: HeldRead(start, actions, s.lookups[id])
  }

  lemma TruthLasts(start: State, actions: seq<Action>, a: Action, s: State)
    requires Truthful(start, actions, s)
    ensures Truthful(start, actions + [a], s)
  {
    forall d | d in s.log
      ensures HeldRead(start, actions + [a], d.lookup)
    {
      HeldLater(start, actions, a, d.lookup.hash, d.lookup.status, d.lookup.readAt);
    }
    forall id | id in s.lookups
      ensures HeldRead(start, actions + [a], s.lookups[id])
    {
      HeldLater(start, actions, a, s.lookups[id].hash, s.lookups[id].status, s.lookups[id].readAt);
    }
  }

  lemma ReadKeepsTruth(start: State, actions: seq<Action>, s: State, id: nat, t: State)
    requires Truthful(start, actions, s) && Exec(start, actions) == Some(s) && Step(s, Read(id)) == Some(t)
    ensures Truthful(start, actions + [Read(id)], t)
  {
    var a, h := Read(id), s.missed[id];
    TruthLasts(start, actions, a, s);
    HeldNow(start, actions, s, h);
    HeldLater(start, actions, a, h, StatusOf(s.storage, h), s.now);
    assert HeldRead(start, actions + [a], t.lookups[id]);
    assert forall i <- t.lookups :: i == id || t.lookups[i] == s.lookups[i];
  }

  lemma FinishKeepsTruth(start: State, actions: seq<Action>, s: State, id: nat, t: State)
    requires Truthful(start, actions, s) && Step(s, Finish(id)) == Some(t)
    ensures Truthful(start, actions + [Finish(id)], t)
  {
    TruthLasts(start, actions, Finish(id), s);
    forall d | d in t.log
      ensures HeldRead(start, actions + [Finish(id)], d.lookup)
    {
      if d !in s.log {
        assert d.lookup == s.lookups[id];
      }
    }
  }

  lemma StepKeepsTruth(start: State, actions: seq<Action>, s: State, a: Action, t: State)
    requires Truthful(start, actions, s) && Exec(start, actions) == Some(s) && Step(s, a) == Some(t)
    ensures Truthful(start, actions + [a], t)
  {
    match a
    case Read(id) => ReadKeepsTruth(start, actions, s, id, t);
    case Finish(id) => FinishKeepsTruth(start, actions, s, id, t);
    case _ => TruthLasts(start, actions, a, s);
  }

  lemma StepKeepsOrder(s: State, a: Action, t: State)
    requires InOrder(s) && Step(s, a) == Some(t)
    ensures InOrder(t)
  {
  }

  lemma FinishKeepsEntries(s: State, id: nat, t: State)
    requires (forall h <- s.cache :: exists d <- s.log :: RestsOn(h, s.cache[h], d))
    requires Step(s, Finish(id)) == Some(t)
    ensures forall h <- t.cache :: exists d <- t.log :: RestsOn(h, t.cache[h], d)
  {
    var d := Done(s.lookups[id], s.now);
    assert d in t.log && RestsOn(d.lookup.hash, t.cache[d.lookup.hash], d);
    forall h | h in t.cache
      ensures exists d <- t.log :: RestsOn(h, t.cache[h], d)
    {
      if h != d.lookup.hash {
        var e :| e in s.log && RestsOn(h, s.cache[h], e);
        assert e in t.log;
      }
    }
  }

  lemma DropKeepsBacked(s: State, t: State, h: Hash)
    requires Backed(s) && t.cache == s.cache - {h} && t.log == s.log
    ensures Backed(t)
  {
    MapDropSize(s.cache, h);
    assert forall k <- t.cache :: t.cache[k] == s.cache[k];
  }

  lemma FinishKeepsBacked(s: State, id: nat, t: State)
    requires Backed(s) && Step(s, Finish(id)) == Some(t)
    ensures Backed(t)
  {
    FinishKeepsEntries(s, id, t);
    MapAddSize(s.cache, s.lookups[id].hash, EntryFor(s.lookups[id].status, s.now));
  }

  lemma SameEntriesBacked(s: State, t: State)
    requires Backed(s) && t.cache == s.cache && t.log == s.log
    ensures Backed(t)
  {
  }

  lemma StepKeepsBacked(s: State, a: Action, t: State)
    requires Backed(s) && Step(s, a) == Some(t)
    ensures Backed(t)
  {
    match a
    case Miss(id, h) => DropKeepsBacked(s, t, h);
    case Finish(id) => FinishKeepsBacked(s, id, t);
    case Drop(h) => DropKeepsBacked(s, t, h);
    case _ => SameEntriesBacked(s, t);
  }

  lemma {:induction false} BackedInEveryRun(start: State, actions: seq<Action>, s: State)
    requires Start(start) && Exec(start, actions) == Some(s)
    ensures Backed(s) && InOrder(s)
    decreases |actions|
  {
    if actions == [] {
    } else {
      var n := |actions| - 1;
      var m := Exec(start, actions[..n]).value;
      BackedInEveryRun(start, actions[..n], m);
      StepKeepsBacked(m, actions[n], s);
      StepKeepsOrder(m, actions[n], s);
    }
  }

  lemma LastIsLast(actions: seq<Action>)
    requires actions != []
    ensures actions[..|actions| - 1] + [actions[|actions| - 1]] == actions
  {
  }

  lemma {:induction false} TrueInEveryRun(start: State, actions: seq<Action>, s: State)
    requires Start(start) && Exec(start, actions) == Some(s)
    ensures Truthful(start, actions, s)
    decreases |actions|
  {
    if actions == [] {
    } else {
      var front, last := actions[..|actions| - 1], actions[|actions| - 1];
      TrueInEveryRun(start, front, Exec(start, front).value);
      StepKeepsTruth(start, front, Exec(start, front).value, last, s);
      LastIsLast(actions);
    }
  }

  /**
   Main result: in every run, an answer rests on a lookup of that key that ended at most one TTL ago and
   that read the storage truly: an accepted key was active then, with the same info, and a rejected one was not.
   */
  lemma AnswersAreFresh(start: State, actions: seq<Action>, s: State, a: Action, t: State) returns (d: Done)
    requires Start(start) && Exec(start, actions) == Some(s)
    requires (a.Hit? || a.Finish?) && Step(s, a) == Some(t)
    ensures Held(start, actions, t.reply.value.hash, d.lookup.status, d.lookup.readAt)
    ensures d.lookup.readAt <= d.doneAt <= t.now <= d.doneAt + TTL && d.lookup.hash == t.reply.value.hash
    ensures d.lookup.status.Active? <==> t.reply.value.answer.Accepted?
    ensures d.lookup.status.Active? ==> t.reply.value.answer.info == d.lookup.status.info
    ensures a.Finish? || d in s.log
  {
    BackedInEveryRun(start, actions, s);
    TrueInEveryRun(start, actions, s);
    if a.Hit? {
      d :| d in s.log && RestsOn(a.hash, s.cache[a.hash], d);
      assert HeldRead(start, actions, d.lookup);
    } else {
      assert HeldRead(start, actions, s.lookups[a.id]);
      d := Done(s.lookups[a.id], s.now);
    }
  }

  /** The lookup of a key that ended last. */
  function LastDone(log: seq<Done>, hash: Hash): Option<Done> {
    if log == [] then None
    else if log[|log| - 1].lookup.hash == hash then Some(log[|log| - 1])
    else LastDone(log[..|log| - 1], hash)
  }

  lemma LastDoneSnoc(log: seq<Done>, d: Done, hash: Hash)
    ensures LastDone(log + [d], hash) == if d.lookup.hash == hash then Some(d) else LastDone(log, hash)
  {
    assert (log + [d])[..|log|] == log;
  }

  /** Every entry was made by the last lookup of its key. */
  ghost predicate MadeLast(s: State, hash: Hash) {
    hash in s.cache ==>
      && LastDone(s.log, hash).Some?
      && RestsOn(hash, s.cache[hash], LastDone(s.log, hash).value) && LastDone(s.log, hash).value.doneAt <= s.now
  }

  lemma StepKeepsMadeLast(s: State, a: Action, t: State, hash: Hash)
    requires MadeLast(s, hash) && Step(s, a) == Some(t)
    ensures MadeLast(t, hash)
  {
    if a.Finish? {
      LastDoneSnoc(s.log, Done(s.lookups[a.id], s.now), hash);
    }
  }

  lemma {:induction false} EntriesMadeLast(start: State, actions: seq<Action>, s: State, hash: Hash)
    requires Start(start) && Exec(start, actions) == Some(s)
    ensures MadeLast(s, hash)
    decreases |actions|
  {
    if actions == [] {
    } else {
      var n := |actions| - 1;
      EntriesMadeLast(start, actions[..n], Exec(start, actions[..n]).value, hash);
      StepKeepsMadeLast(Exec(start, actions[..n]).value, actions[n], s, hash);
    }
  }

  /**
   In every run, a hit repeats the answer that the last lookup of its key gave, no longer than one TTL ago, exactly
   when that found the key active or inactive: the cache does not keep why a key was invalid.
   */
  lemma HitRepeatsTheAnswerExactlyWhen(start: State, actions: seq<Action>, s: State, hash: Hash, t: State)
    requires Start(start) && Exec(start, actions) == Some(s) && Step(s, Hit(hash)) == Some(t)
    ensures LastDone(s.log, hash).Some?
    ensures
      var d := LastDone(s.log, hash).value;
      && d.lookup.hash == hash && d.doneAt <= t.now <= d.doneAt + TTL
      && (t.reply == Some(Reply(hash, AnswerTo(d.lookup.status)))
          <==> d.lookup.status.Active? || d.lookup.status.Inactive?)
  {
    EntriesMadeLast(start, actions, s, hash);
  }

  /** The other case: the key is found revoked, and the next answer is that it is inactive. */
  lemma CachedRevocationReadsAsInactive(hash: Hash) returns (first: State, second: State)
    ensures Exec(State(map[hash := Revoked], map[], 0, map[], map[], [], None), [Miss(0, hash), Read(0), Finish(0)])
         == Some(first)
    ensures Step(first, Hit(hash)) == Some(second)
    ensures first.reply == Some(Reply(hash, KeyRevoked)) && second.reply == Some(Reply(hash, KeyInactive))
  {
    var s0 := State(map[hash := Revoked], map[], 0, map[], map[], [], None);
    assert s0.cache - {hash} == map[];
    var s2 := MissAndRead(s0, hash);
    first := FinishOnly(s2, Lookup(hash, Revoked, 0));
    second := first.(reply := Some(Reply(hash, KeyInactive)));
    Runs.ExecOne(Step, s0, [] + [Miss(0, hash)] + [Read(0)], s2, Finish(0), first);
    assert [] + [Miss(0, hash)] + [Read(0)] + [Finish(0)] == [Miss(0, hash), Read(0), Finish(0)];
  }

  /** The bound is tight: for the whole TTL after it was read, a key that has been revoked since is accepted. */
  lemma RevokedKeyIsAcceptedYet(hash: Hash, info: nat, age: nat) returns (s: State, t: State)
    requires age <= TTL
    ensures Exec(State(map[hash := Active(info)], map[], 0, map[], map[], [], None),
                 [Miss(0, hash), Read(0), Finish(0), Store(hash, Revoked), Tick(age)]) == Some(s)
    ensures hash in s.storage && s.storage[hash] == Revoked && s.now == age
    ensures Step(s, Hit(hash)) == Some(t) && t.reply == Some(Reply(hash, Accepted(info)))
  {
    var s0 := State(map[hash := Active(info)], map[], 0, map[], map[], [], None);
    assert s0.cache - {hash} == map[];
    var read := MissAndRead(s0, hash);
    var first := FinishOnly(read, Lookup(hash, Active(info), 0));
    Runs.ExecOne(Step, s0, [] + [Miss(0, hash)] + [Read(0)], read, Finish(0), first);
    var before := [] + [Miss(0, hash)] + [Read(0)] + [Finish(0)];
    var revoked := Step(first, Store(hash, Revoked)).value;
    Runs.ExecOne(Step, s0, before, first, Store(hash, Revoked), revoked);
    s := Step(revoked, Tick(age)).value;
    Runs.ExecOne(Step, s0, before + [Store(hash, Revoked)], revoked, Tick(age), s);
    assert before + [Store(hash, Revoked)] + [Tick(age)]
        == [Miss(0, hash), Read(0), Finish(0), Store(hash, Revoked), Tick(age)];
    t := Step(s, Hit(hash)).value;
  }

  /** A miss and the read that follows at once, with no other lookup under way. */
  lemma MissAndRead(s: State, hash: Hash) returns (t: State)
    requires s.missed == map[] && s.lookups == map[] && !Usable(s.cache, hash, s.now)
    ensures Exec(s, [] + [Miss(0, hash)] + [Read(0)]) == Some(t)
    ensures t == s.(cache := s.cache - {hash}, reply := None,
                    lookups := map[0 := Lookup(hash, StatusOf(s.storage, hash), s.now)])
  {
    var m := s.(cache := s.cache - {hash}, missed := map[0 := hash], reply := None);
    assert m.missed - {0} == map[];
    t := m.(missed := map[], lookups := map[0 := Lookup(hash, StatusOf(s.storage, hash), s.now)]);
    Runs.ExecOne(Step, s, [], s, Miss(0, hash), m);
    Runs.ExecOne(Step, s, [] + [Miss(0, hash)], m, Read(0), t);
  }

  /** A miss whose read fails. */
  lemma MissAndFail(s: State, hash: Hash) returns (t: State)
    requires s.missed == map[] && s.lookups == map[] && !Usable(s.cache, hash, s.now)
    ensures Exec(s, [] + [Miss(0, hash)] + [Fail(0)]) == Some(t)
    ensures t == s.(cache := s.cache - {hash}, reply := None)
  {
    var m := s.(cache := s.cache - {hash}, missed := map[0 := hash], reply := None);
    assert m.missed - {0} == map[];
    t := m.(missed := map[]);
    Runs.ExecOne(Step, s, [], s, Miss(0, hash), m);
    Runs.ExecOne(Step, s, [] + [Miss(0, hash)], m, Fail(0), t);
  }

  /** A run whose lookups take no time: each is finished at the instant of its read. */
  ghost predicate AtomicLookups(s: State) {
    forall d <- s.log :: d.lookup.readAt == d.doneAt
  }

  /** With atomic lookups the storage itself is at most one TTL behind every answer of the cache. */
  lemma HitsAreAtMostOneTtlOld(start: State, actions: seq<Action>, s: State, hash: Hash, t: State)
    returns (status: Status, at: nat)
    requires Start(start) && Exec(start, actions) == Some(s) && AtomicLookups(s)
    requires Step(s, Hit(hash)) == Some(t)
    ensures Held(start, actions, hash, status, at) && at <= t.now <= at + TTL
    ensures t.reply.value.answer == if status.Active? then Accepted(status.info) else KeyInactive
  {
    var d := AnswersAreFresh(start, actions, s, Hit(hash), t);
    status, at := d.lookup.status, d.lookup.readAt;
  }

  // ---- Revocation -------------------------------------------------------------------------------

  /** Nothing left over from before the revocation can still accept the key. */
  ghost predicate Cleared(s: State, hash: Hash) {
    && (Usable(s.cache, hash, s.now) ==> s.cache[hash].info.None?)
    && forall id <- s.lookups :: s.lookups[id].hash == hash ==> !s.lookups[id].status.Active?
  }

  ghost predicate NoReactivation(actions: seq<Action>, hash: Hash) {
    forall a <- actions :: a.Store? && a.hash == hash ==> !a.status.Active?
  }

  ghost predicate Accepts(s: State, hash: Hash) {
    s.reply.Some? && s.reply.value.hash == hash && s.reply.value.answer.Accepted?
  }

  lemma ClearedStaysCleared(s: State, a: Action, t: State, hash: Hash)
    requires Cleared(s, hash) && !StatusOf(s.storage, hash).Active?
    requires Step(s, a) == Some(t) && (a.Store? && a.hash == hash ==> !a.status.Active?)
    ensures Cleared(t, hash) && !StatusOf(t.storage, hash).Active? && !Accepts(t, hash)
  {
  }

  lemma {:induction false} NeverAcceptedAgain(s: State, actions: seq<Action>, t: State, hash: Hash)
    requires Cleared(s, hash) && !StatusOf(s.storage, hash).Active?
    requires Exec(s, actions) == Some(t) && NoReactivation(actions, hash)
    ensures Cleared(t, hash) && !StatusOf(t.storage, hash).Active? && (actions != [] ==> !Accepts(t, hash))
    decreases |actions|
  {
    if actions == [] {
    } else {
      var n := |actions| - 1;
      NeverAcceptedAgain(s, actions[..n], Exec(s, actions[..n]).value, hash);
      assert actions[n] in actions;
      ClearedStaysCleared(Exec(s, actions[..n]).value, actions[n], t, hash);
    }
  }

  /**
   A key that the storage no longer has as active is never accepted again, in any run without reactivation,
   exactly when the cache has no usable positive entry and no lookup that saw the key active is under way.
   So invalidating the cache after a revocation takes effect at once unless a lookup straddles it.
   */
  lemma RevocationIsFinalExactlyWhen(s: State, hash: Hash)
    requires !StatusOf(s.storage, hash).Active?
    ensures Cleared(s, hash) <==>
      forall actions, t :: actions != [] && Exec(s, actions) == Some(t) && NoReactivation(actions, hash) ==>
          !Accepts(t, hash)
  {
    if Cleared(s, hash) {
      forall actions, t | actions != [] && Exec(s, actions) == Some(t) && NoReactivation(actions, hash)
        ensures !Accepts(t, hash)
      {
        NeverAcceptedAgain(s, actions, t, hash);
      }
    } else {
      var actions, t := AcceptingRun(s, hash);
      assert actions != [] && NoReactivation(actions, hash);
    }
  }

  lemma AcceptingRun(s: State, hash: Hash) returns (actions: seq<Action>, t: State)
    requires !Cleared(s, hash)
    ensures actions != [] && Exec(s, actions) == Some(t) && Accepts(t, hash) && NoReactivation(actions, hash)
  {
    if Usable(s.cache, hash, s.now) && s.cache[hash].info.Some? {
      t := Step(s, Hit(hash)).value;
      Runs.ExecOne(Step, s, [], s, Hit(hash), t);
      actions := [] + [Hit(hash)];
    } else {
      var id :| id in s.lookups && s.lookups[id].hash == hash && s.lookups[id].status.Active?;
      actions, t := FinishWithRoom(s, id);
    }
  }

  /** A lookup can always finish, after evictions if need be. */
  lemma {:induction false} FinishWithRoom(s: State, id: nat) returns (actions: seq<Action>, t: State)
    requires id in s.lookups
    ensures actions != [] && Exec(s, actions) == Some(t) && forall a <- actions :: !a.Store?
    ensures t.reply == Some(Reply(s.lookups[id].hash, AnswerTo(s.lookups[id].status)))
    decreases |s.cache|
  {
    if s.lookups[id].hash in s.cache || |s.cache| < CACHE_SIZE {
      t := Step(s, Finish(id)).value;
      Runs.ExecOne(Step, s, [], s, Finish(id), t);
      actions := [] + [Finish(id)];
    } else {
      assert s.cache.Keys != {};
      var victim :| victim in s.cache.Keys;
      MapDropSize(s.cache, victim);
      var m := Step(s, Drop(victim)).value;
      var rest;
      rest, t := FinishWithRoom(m, id);
      Runs.ExecCons(Step, s, Drop(victim), m, rest);
      actions := [Drop(victim)] + rest;
    }
  }

  // ---- The resolver -----------------------------------------------------------------------------

  class Storage {
    var keys: map<Hash, Status>
    ghost var failures: nat

    constructor (keys: map<Hash, Status>)
      ensures this.keys == keys && failures == 0
    {
      this.keys, failures := keys, 0;
    }

    method GetAPIKeyByHash(hash: Hash) returns (r: Result<Status, Failed>)
      modifies `failures
      ensures r.Ok? ==> r.value == StatusOf(keys, hash)
      ensures r.Ok? ==> if hash in keys then r.value == keys[hash] else r.value.Absent?
      ensures failures == old(failures) + if r.Err? then 1 else 0
    {
      var failed := *;
      if failed {
        failures := failures + 1;
        return Err(Failed);
      }
      return Ok(StatusOf(keys, hash));
    }
  }

  datatype ResolveError = NotResolved(answer: Answer) | StorageFailed

  /** The steps of adding an answer to the cache. */
  lemma FinishWithin(s: State, l: Lookup, dropped: Option<Hash>) returns (trace: seq<Action>, t: State)
    requires s.missed == map[] && s.lookups == map[0 := l] && |s.cache| <= CACHE_SIZE
    requires dropped.Some? <==> l.hash !in s.cache && |s.cache| == CACHE_SIZE
    requires dropped.Some? ==> dropped.value in s.cache
    ensures Exec(s, trace) == Some(t) && trace == if dropped.None? then [Finish(0)]
      else [Drop(dropped.value), Finish(0)]
    ensures
      var kept := if dropped.Some? then s.cache - {dropped.value} else s.cache;
      t == State(s.storage, kept[l.hash := EntryFor(l.status, s.now)], s.now, map[], map[], s.log + [Done(l, s.now)],
                 Some(Reply(l.hash, AnswerTo(l.status))))
  {
    if dropped.None? {
      t := FinishOnly(s, l);
      trace := [Finish(0)];
    } else {
      t := DropAndFinish(s, l, dropped.value);
      trace := [Drop(dropped.value), Finish(0)];
    }
  }

  lemma FinishOnly(s: State, l: Lookup) returns (t: State)
    requires s.missed == map[] && s.lookups == map[0 := l] && (l.hash in s.cache || |s.cache| < CACHE_SIZE)
    ensures Step(s, Finish(0)) == Some(t) && Exec(s, [Finish(0)]) == Some(t)
    ensures t == State(s.storage, s.cache[l.hash := EntryFor(l.status, s.now)], s.now, map[], map[],
                       s.log + [Done(l, s.now)], Some(Reply(l.hash, AnswerTo(l.status))))
  {
    t := Step(s, Finish(0)).value;
    assert s.lookups - {0} == map[];
    Runs.ExecOne(Step, s, [], s, Finish(0), t);
    assert [] + [Finish(0)] == [Finish(0)];
  }

  lemma HitOnly(s: State, hash: Hash) returns (t: State)
    requires Usable(s.cache, hash, s.now)
    ensures Exec(s, [Hit(hash)]) == Some(t) && t == s.(reply := Some(Reply(hash, CachedAnswer(s.cache[hash]))))
  {
    t := Step(s, Hit(hash)).value;
    Runs.ExecOne(Step, s, [], s, Hit(hash), t);
    assert [] + [Hit(hash)] == [Hit(hash)];
  }

  lemma DropAndFinish(s: State, l: Lookup, victim: Hash) returns (t: State)
    requires s.missed == map[] && s.lookups == map[0 := l] && victim in s.cache && |s.cache| <= CACHE_SIZE
    ensures Exec(s, [Drop(victim), Finish(0)]) == Some(t)
    ensures t == State(s.storage, (s.cache - {victim})[l.hash := EntryFor(l.status, s.now)], s.now, map[], map[],
                       s.log + [Done(l, s.now)], Some(Reply(l.hash, AnswerTo(l.status))))
  {
    MapDropSize(s.cache, victim);
    var m := s.(cache := s.cache - {victim}, reply := None);
    t := FinishOnly(m, l);
    Runs.ExecCons(Step, s, Drop(victim), m, [Finish(0)]);
    assert [Drop(victim)] + [Finish(0)] == [Drop(victim), Finish(0)];
  }

  class Resolver {
    const storage: Storage
    var cache: map<Hash, Cached>
    var now: nat
    ghost var log: seq<Done>

    ghost function View(): State
      reads this, storage
    {
      State(storage.keys, cache, now, map[], map[], log, None)
    }

    ghost predicate Valid()
      reads this, storage
    {
      |cache| <= CACHE_SIZE
    }

    constructor (storage: Storage)
      ensures this.storage == storage && Valid() && Start(View())
    {
      this.storage := storage;
      cache, now, log := map[], 0, [];
    }

    /** An expired entry is removed on the way. */
    method GetFromCache(hash: Hash) returns (cached: Option<Cached>)
      modifies `cache
      ensures cached.Some? <==> Usable(old(cache), hash, now)
      ensures cached.Some? ==> cache == old(cache) && cached.value == old(cache)[hash]
      ensures cached.None? ==> cache == old(cache) - {hash}
    {
      if hash !in cache {
        assert cache - {hash} == cache;
        return None;
      }
      if now > cache[hash].expiresAt {
        cache := cache - {hash};
        return None;
      }
      return Some(cache[hash]);
    }

    /** Adding to a full cache drops some other entry. */
    method Add(hash: Hash, entry: Cached) returns (ghost dropped: Option<Hash>)
      requires Valid()
      modifies `cache
      ensures Valid()
      ensures dropped.Some? <==> hash !in old(cache) && |old(cache)| == CACHE_SIZE
      ensures dropped.Some? ==> dropped.value in old(cache)
      ensures cache == (if dropped.Some? then old(cache) - {dropped.value} else old(cache))[hash := entry]
    {
      dropped := None;
      if hash !in cache && |cache| >= CACHE_SIZE {
        assert cache.Keys != {};
        var victim :| victim in cache.Keys;
        MapDropSize(cache, victim);
        cache := cache - {victim};
        dropped := Some(victim);
      }
      MapAddSize(cache, hash, entry);
      cache := cache[hash := entry];
    }

    /** A miss whose read succeeded: the answer is cached, perhaps in place of another key's. */
    method FinishLookup(hash: Hash, status: Status, ghost s: State)
      returns (ghost trace: seq<Action>, ghost t: State)
      requires Valid() && s == View().(lookups := map[0 := Lookup(hash, status, now)])
      modifies `cache, `log
      ensures Valid() && Exec(s, trace) == Some(t) && t.(reply := None) == View()
      ensures trace == [Finish(0)] || exists h :: trace == [Drop(h), Finish(0)]
      ensures t.reply == Some(Reply(hash, AnswerTo(status)))
      ensures hash in cache && cache[hash] == Cached(if status.Active? then Some(status.info) else None, now + TTL)
    {
      ghost var dropped := Add(hash, EntryFor(status, now));
      trace, t := FinishWithin(s, Lookup(hash, status, now), dropped);
      log := t.log;
    }

    method AnswerFor(status: Status) returns (r: Result<nat, ResolveError>)
      ensures AnswersAs(status, r) && r != Err(StorageFailed) && AnswerIn(r) == AnswerTo(status)
      ensures r.Ok? <==> status.Active?
    {
      match status {
        case Absent => r := Err(NotResolved(InvalidKey));
        case Revoked => r := Err(NotResolved(KeyRevoked));
        case Inactive => r := Err(NotResolved(KeyInactive));
        case Active(info) => r := Ok(info);
      }
    }

    /** A miss in state `s` and the read of this status, which is then cached. */
    method ReadAndFinish(hash: Hash, status: Status, ghost s: State)
      returns (ghost trace: seq<Action>, ghost t: State)
      requires Valid() && View() == s.(cache := s.cache - {hash}) && !Usable(s.cache, hash, s.now)
      requires status == StatusOf(storage.keys, hash)
      modifies `cache, `log
      ensures Valid() && Exec(s, trace) == Some(t) && t.(reply := None) == View()
      ensures trace == [Miss(0, hash), Read(0), Finish(0)]
              || exists h :: trace == [Miss(0, hash), Read(0), Drop(h), Finish(0)]
      ensures t.reply == Some(Reply(hash, AnswerTo(status)))
      ensures hash in cache && cache[hash] == Cached(if status.Active? then Some(status.info) else None, now + TTL)
    {
      ghost var read := MissAndRead(s, hash);
      ghost var finish;
      finish, t := FinishLookup(hash, status, read);
      Runs.ExecJoin(Step, s, [] + [Miss(0, hash)] + [Read(0)], read, finish, t);
      trace := [] + [Miss(0, hash)] + [Read(0)] + finish;
      if finish != [Finish(0)] {
        ghost var h :| finish == [Drop(h), Finish(0)];
        assert trace == [Miss(0, hash), Read(0), Drop(h), Finish(0)];
      }
    }

    /** The rest of a resolution that has missed, in state `s` before it, and dropped an expired entry. */
    method LookUp(hash: Hash, ghost s: State)
      returns (r: Result<nat, ResolveError>, ghost trace: seq<Action>, ghost t: State)
      requires Valid() && View() == s.(cache := s.cache - {hash}) && !Usable(s.cache, hash, s.now)
      modifies `cache, `log, storage`failures
      ensures Valid() && Exec(s, trace) == Some(t) && t.(reply := None) == View()
      ensures if r == Err(StorageFailed) then trace == [Miss(0, hash), Fail(0)]
              else trace == [Miss(0, hash), Read(0), Finish(0)]
                   || exists h :: trace == [Miss(0, hash), Read(0), Drop(h), Finish(0)]
      ensures r == Err(StorageFailed) <==> storage.failures > old(storage.failures)
      ensures r != Err(StorageFailed) ==> t.reply == Some(Reply(hash, AnswerIn(r)))
      ensures if r == Err(StorageFailed) then cache == old(cache)
              else AnswersAs(if hash in storage.keys then storage.keys[hash] else Absent, r)
                   && hash in cache && cache[hash] == Cached(if r.Ok? then Some(r.value) else None, now + TTL)
    {
      var status := storage.GetAPIKeyByHash(hash);
      if status.Err? {
        t := MissAndFail(s, hash);
        return Err(StorageFailed), [] + [Miss(0, hash)] + [Fail(0)], t;
      }
      trace, t := ReadAndFinish(hash, status.value, s);
      r := AnswerFor(status.value);
    }

    /**
     One resolution: an answer from the cache, or a read of the storage and an entry for what it said; a storage
     error is reported exactly when that read failed, and leaves nothing behind.
     */
    method ResolveHash(hash: Hash) returns (r: Result<nat, ResolveError>, ghost trace: seq<Action>, ghost t: State)
      requires Valid()
      modifies `cache, `log, storage`failures
      ensures Valid() && Exec(old(View()), trace) == Some(t) && t.(reply := None) == View()
      ensures if Usable(old(cache), hash, now) then trace == [Hit(hash)]
              else if r == Err(StorageFailed) then trace == [Miss(0, hash), Fail(0)]
              else trace == [Miss(0, hash), Read(0), Finish(0)]
                   || exists h :: trace == [Miss(0, hash), Read(0), Drop(h), Finish(0)]
      ensures r == Err(StorageFailed) <==> storage.failures > old(storage.failures)
      ensures r != Err(StorageFailed) ==> t.reply == Some(Reply(hash, AnswerIn(r)))
      // A usable entry answers, whatever the storage says.
      ensures hash in old(cache) && now <= old(cache)[hash].expiresAt ==>
        && cache == old(cache)
        && r == if old(cache)[hash].info.Some? then Ok(old(cache)[hash].info.value) else Err(NotResolved(KeyInactive))
      // Otherwise the storage does, and its answer is cached.
      ensures !(hash in old(cache) && now <= old(cache)[hash].expiresAt) ==>
        if r == Err(StorageFailed) then cache == old(cache) - {hash}
        else AnswersAs(if hash in storage.keys then storage.keys[hash] else Absent, r)
             && hash in cache && cache[hash] == Cached(if r.Ok? then Some(r.value) else None, now + TTL)
    {
      ghost var s := View();
      var cached := GetFromCache(hash);
      if cached.Some? {
        t := HitOnly(s, hash);
        trace := [Hit(hash)];
        r := if cached.value.info.None? then Err(NotResolved(KeyInactive)) else Ok(cached.value.info.value);
        return;
      }
      MapDropSize(old(cache), hash);
      r, trace, t := LookUp(hash, s);
    }

    /** The empty key is rejected without looking anywhere. */
    method ResolveAPIKey(apiKey: string, hasher: string -> Hash)
      returns (r: Result<nat, ResolveError>, ghost trace: seq<Action>, ghost t: State)
      requires Valid()
      modifies `cache, `log, storage`failures
      ensures Valid() && Exec(old(View()), trace) == Some(t) && t.(reply := None) == View()
      ensures r == Err(StorageFailed) <==> storage.failures > old(storage.failures)
      ensures apiKey == "" ==> r == Err(NotResolved(InvalidKey)) && trace == []
      ensures apiKey != "" && r != Err(StorageFailed) ==> t.reply == Some(Reply(hasher(apiKey), AnswerIn(r)))
    {
      if apiKey == "" {
        return Err(NotResolved(InvalidKey)), [], View();
      }
      r, trace, t := ResolveHash(hasher(apiKey));
    }

    method InvalidateCache(hash: Hash)
      requires Valid()
      modifies `cache
      ensures Valid() && cache == old(cache) - {hash} && Step(old(View()), Drop(hash)) == Some(View())
    {
      MapDropSize(cache, hash);
      cache := cache - {hash};
    }
  }

  /** What the resolver answers for each status. */
  predicate AnswersAs(status: Status, r: Result<nat, ResolveError>) {
    match status
    case Absent => r == Err(NotResolved(InvalidKey))
    case Inactive => r == Err(NotResolved(KeyInactive))
    case Revoked => r == Err(NotResolved(KeyRevoked))
    case Active(info) => r == Ok(info)
  }

  function AnswerIn(r: Result<nat, ResolveError>): Answer
    requires r != Err(StorageFailed)
  {
    match r
    case Ok(info) => Accepted(info)
    case Err(NotResolved(answer)) => answer
  }
}
