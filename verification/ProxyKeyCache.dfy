/**
 The two caches of the proxy key resolver: one from a key's hash to its entry, with an expiry, and one from
 hash and provider to the decrypted provider key, without. A value of the second is good while the first
 has an unexpired entry for the hash. A full resolution renews the first and fills both. Lookups overlap; the two
 reads of a full resolution are one step.
 */
module ProxyKeyCache {
  import Runs
  import opened Wrappers

  /** A hexadecimal digest. */
  type Hash = h: string | ':' !in h

  datatype ProxyKey = ProxyKey(id: nat, owner: nat, active: bool, revoked: bool)

  /**
   Proxy keys by hash, and provider keys by proxy key and provider. An encrypted provider key stands for what
   decrypting it gives, which is nothing when that fails.
   */
  datatype Store = Store(keys: map<Hash, ProxyKey>, mappings: map<(nat, string), Option<string>>)

  datatype ProxyError = NotFound | KeyRevoked | KeyInactive | WrongOwner | NoMapping | DecryptFailed | StoreFailed

  datatype Resolved = Resolved(value: string, keyId: nat)

  /** The resolution without any cache. */
  function Resolve(store: Store, hash: Hash, provider: string, owner: nat): Result<Resolved, ProxyError> {
    if hash !in store.keys then Err(NotFound)
    else
      var k := store.keys[hash];
      if !k.active then Err(if k.revoked then KeyRevoked else KeyInactive)
      else if k.owner != owner then Err(WrongOwner)
      else if (k.id, provider) !in store.mappings then Err(NoMapping)
      else
        match store.mappings[(k.id, provider)]
        case None => Err(DecryptFailed)
        case Some(value) => Ok(Resolved(value, k.id))
  }

  /** What each answer of a full resolution says about the store, check by check. */
  ghost predicate Explains(store: Store, hash: Hash, provider: string, owner: nat, r: Result<Resolved, ProxyError>) {
    match r
    case Err(NotFound) => hash !in store.keys
    case Err(KeyRevoked) => hash in store.keys && !store.keys[hash].active && store.keys[hash].revoked
    case Err(KeyInactive) => hash in store.keys && !store.keys[hash].active && !store.keys[hash].revoked
    case Err(WrongOwner) => IsActiveKey(store, hash) && store.keys[hash].owner != owner
    case Err(NoMapping) => IsOwnKey(store, hash, owner) && (store.keys[hash].id, provider) !in store.mappings
    case Err(DecryptFailed) =>
      && IsOwnKey(store, hash, owner) && (store.keys[hash].id, provider) in store.mappings
      && store.mappings[(store.keys[hash].id, provider)].None?
    case Err(StoreFailed) => false
    case Ok(Resolved(value, keyId)) =>
      && IsOwnKey(store, hash, owner) && keyId == store.keys[hash].id && (keyId, provider) in store.mappings
      && store.mappings[(keyId, provider)] == Some(value)
  }

  predicate IsActiveKey(store: Store, hash: Hash) {
    hash in store.keys && store.keys[hash].active
  }

  predicate IsOwnKey(store: Store, hash: Hash, owner: nat) {
    IsActiveKey(store, hash) && store.keys[hash].owner == owner
  }

  /** Of all conceivable answers just the one of the resolution fits the store. */
  lemma ResolvesExactlyWhen(store: Store, hash: Hash, provider: string, owner: nat, r: Result<Resolved, ProxyError>)
    ensures r == Resolve(store, hash, provider, owner) <==> Explains(store, hash, provider, owner, r)
  {
  }

  // ---- Cache keys -------------------------------------------------------------------------------

  function ProvKey(hash: Hash, provider: string): string {
    hash + ":" + provider
  }

  lemma FirstColon(h: Hash, p: string)
    ensures ProvKey(h, p)[|h|] == ':' && forall i :: 0 <= i < |h| ==> ProvKey(h, p)[i] != ':'
  {
    forall i | 0 <= i < |h|
      ensures ProvKey(h, p)[i] != ':'
    {
      assert ProvKey(h, p)[i] == h[i] && h[i] in h;
    }
  }

  /** Hash and provider can be read back from the joined cache key, whatever the provider's name contains. */
  lemma ProvKeysAreDistinct(h: Hash, p: string, h': Hash, p': string)
    requires ProvKey(h, p) == ProvKey(h', p')
    ensures h == h' && p == p'
  {
    var key := ProvKey(h, p);
    FirstColon(h, p);
    FirstColon(h', p');
    assert |h| == |h'|;
    assert h == key[..|h|] && h' == key[..|h'|];
    assert p == key[|h| + 1..] && p' == key[|h'| + 1..];
  }

  // ---- Steps ------------------------------------------------------------------------------------

  datatype KeyEntry = KeyEntry(keyId: nat, expiresAt: nat)

  /** A full resolution that has read the storage and found everything in order. */
  datatype Lookup = Lookup(hash: Hash, provider: string, owner: nat, result: Resolved, readAt: nat)

  /** One that has filled the caches. */
  datatype Done = Done(lookup: Lookup, doneAt: nat)

  datatype State = State(store: Store, keyCache: map<Hash, KeyEntry>, provCache: map<string, string>, now: nat,
                         lookups: map<nat, Lookup>, log: seq<Done>)

  datatype Action =
    | Tick(d: nat)
    | Change(store: Store)
    | Hit(hash: Hash, provider: string)
    | Read(id: nat, hash: Hash, provider: string, owner: nat)
    | Finish(id: nat)
    | DropKey(hash: Hash)
    | DropValue(key: string)

  const KEY_CACHE_SIZE: nat := 4096

  const PROV_CACHE_SIZE: nat := 16384

  const TTL: nat := 300_000_000_000

  function Start(store: Store): State {
    State(store, map[], map[], 0, map[], [])
  }

  /** An entry is no longer good at its expiry. */
  predicate Fresh(s: State, hash: Hash) {
    hash in s.keyCache && s.now < s.keyCache[hash].expiresAt
  }

  predicate Hits(s: State, hash: Hash, provider: string) {
    ProvKey(hash, provider) in s.provCache && Fresh(s, hash)
  }

  function HitResult(s: State, hash: Hash, provider: string): Resolved
    requires Hits(s, hash, provider)
  {
    Resolved(s.provCache[ProvKey(hash, provider)], s.keyCache[hash].keyId)
  }

  /** What the resolver answers. */
  function Answer(s: State, hash: Hash, provider: string, owner: nat): Result<Resolved, ProxyError> {
    if Hits(s, hash, provider) then Ok(HitResult(s, hash, provider))
    else Resolve(s.store, hash, provider, owner)
  }

  predicate HasRoom(s: State, hash: Hash, provider: string) {
    && (hash in s.keyCache || |s.keyCache| < KEY_CACHE_SIZE)
    && (ProvKey(hash, provider) in s.provCache || |s.provCache| < PROV_CACHE_SIZE)
  }

  function Filled(s: State, l: Lookup): State {
    s.(keyCache := s.keyCache[l.hash := KeyEntry(l.result.keyId, s.now + TTL)],
       provCache := s.provCache[ProvKey(l.hash, l.provider) := l.result.value],
       log := s.log + [Done(l, s.now)])
  }

  /**
   A lookup that misses reads the storage, and later fills the caches; others may do so in between. One that hits
   or fails changes nothing. A drop is an eviction, or for a key's entry an invalidation.
   */
  ghost function Step(s: State, a: Action): Option<State> {
    match a
    case Tick(d) => Some(s.(now := s.now + d))
    case Change(store) => Some(s.(store := store))
    case Hit(h, p) => if Hits(s, h, p) then Some(s) else None
    case Read(id, h, p, owner) =>
      var r := Resolve(s.store, h, p, owner);
      if id in s.lookups || Hits(s, h, p) || r.Err? then None
      else Some(s.(lookups := s.lookups[id := Lookup(h, p, owner, r.value, s.now)]))
    case Finish(id) =>
      if id !in s.lookups || !HasRoom(s, s.lookups[id].hash, s.lookups[id].provider) then None
      else Some(Filled(s.(lookups := s.lookups - {id}), s.lookups[id]))
    case DropKey(h) => Some(s.(keyCache := s.keyCache - {h}))
    case DropValue(key) => Some(s.(provCache := s.provCache - {key}))
  }

  ghost function Exec(s: State, actions: seq<Action>): Option<State> {
    Runs.Exec(Step, s, actions)
  }

  // ---- What a hit rests on ----------------------------------------------------------------------

  /** At some instant of the run this resolution succeeded against the store. */
  ghost predicate Happened(start: State, actions: seq<Action>, l: Lookup) {
    exists i :: HappenedAfter(start, actions, i, l)
  }

  ghost predicate HappenedAfter(start: State, actions: seq<Action>, i: int, l: Lookup) {
    && 0 <= i <= |actions|
    && Exec(start, actions[..i]).Some?
    && var s := Exec(start, actions[..i]).value;
       s.now == l.readAt && Resolve(s.store, l.hash, l.provider, l.owner) == Ok(l.result)
  }

  ghost predicate Known(s: State, l: Lookup) {
    (exists id <- s.lookups :: s.lookups[id] == l) || exists d <- s.log :: d.lookup == l
  }

  lemma {:induction false} LookupsHappened(store: Store, actions: seq<Action>, s: State, l: Lookup)
    requires Exec(Start(store), actions) == Some(s) && Known(s, l)
    ensures Happened(Start(store), actions, l)
    decreases |actions|
  {
    if actions == [] {
    } else {
      var n := |actions| - 1;
      var m := Exec(Start(store), actions[..n]).value;
      if Known(m, l) {
        LookupsHappened(store, actions[..n], m, l);
        var i :| HappenedAfter(Start(store), actions[..n], i, l);
        assert actions[..n][..i] == actions[..i];
        assert HappenedAfter(Start(store), actions, i, l);
      } else {
        NewlyKnown(m, actions[n], s, l);
        assert HappenedAfter(Start(store), actions, n, l);
      }
    }
  }

  lemma NewlyKnown(s: State, a: Action, t: State, l: Lookup)
    requires Step(s, a) == Some(t) && !Known(s, l) && Known(t, l)
    ensures s.now == l.readAt && Resolve(s.store, l.hash, l.provider, l.owner) == Ok(l.result)
  {
  }

  /** The last resolution of a key that filled the caches. */
  function LastOf(log: seq<Done>, hash: Hash): Option<Done> {
    if log == [] then None
    else if log[|log| - 1].lookup.hash == hash then Some(log[|log| - 1])
    else LastOf(log[..|log| - 1], hash)
  }

  /** And the last one of a key and a provider. */
  function LastFor(log: seq<Done>, hash: Hash, provider: string): Option<Done> {
    if log == [] then None
    else
      var l := log[|log| - 1].lookup;
      if l.hash == hash && l.provider == provider then Some(log[|log| - 1])
      else LastFor(log[..|log| - 1], hash, provider)
  }

  lemma LastSnoc(log: seq<Done>, d: Done, hash: Hash, provider: string)
    ensures LastOf(log + [d], hash) == if d.lookup.hash == hash then Some(d) else LastOf(log, hash)
    ensures LastFor(log + [d], hash, provider)
         == if d.lookup.hash == hash && d.lookup.provider == provider then Some(d) else LastFor(log, hash, provider)
  {
    assert (log + [d])[..|log|] == log;
  }

  lemma {:induction false} LastIsLogged(log: seq<Done>, hash: Hash, provider: string)
    ensures LastOf(log, hash).Some? ==> LastOf(log, hash).value in log && LastOf(log, hash).value.lookup.hash == hash
    ensures LastFor(log, hash, provider).Some? ==>
      var d := LastFor(log, hash, provider).value;
      d in log && d.lookup.hash == hash && d.lookup.provider == provider
    decreases |log|
  {
    if log == [] {
    } else {
      LastIsLogged(log[..|log| - 1], hash, provider);
    }
  }

  /** Both entries were made by the last resolution that could make them. */
  ghost predicate MadeLast(s: State, hash: Hash, provider: string) {
    && (hash in s.keyCache ==>
          && LastOf(s.log, hash).Some?
          && var d := LastOf(s.log, hash).value;
             s.keyCache[hash] == KeyEntry(d.lookup.result.keyId, d.doneAt + TTL) && d.doneAt <= s.now)
    && (ProvKey(hash, provider) in s.provCache ==>
          && LastFor(s.log, hash, provider).Some?
          && s.provCache[ProvKey(hash, provider)] == LastFor(s.log, hash, provider).value.lookup.result.value)
  }

  lemma SameProvKey(l: Lookup, hash: Hash, provider: string)
    ensures ProvKey(l.hash, l.provider) == ProvKey(hash, provider) <==> l.hash == hash && l.provider == provider
  {
    if ProvKey(l.hash, l.provider) == ProvKey(hash, provider) {
      ProvKeysAreDistinct(l.hash, l.provider, hash, provider);
    }
  }

  lemma StepKeepsMadeLast(s: State, a: Action, t: State, hash: Hash, provider: string)
    requires MadeLast(s, hash, provider) && Step(s, a) == Some(t)
    ensures MadeLast(t, hash, provider)
  {
    if a.Finish? {
      LastSnoc(s.log, Done(s.lookups[a.id], s.now), hash, provider);
      SameProvKey(s.lookups[a.id], hash, provider);
    }
  }

  lemma {:induction false} EntriesMadeLast(store: Store, actions: seq<Action>, s: State, hash: Hash, provider: string)
    requires Exec(Start(store), actions) == Some(s)
    ensures MadeLast(s, hash, provider)
    decreases |actions|
  {
    if actions == [] {
    } else {
      var n := |actions| - 1;
      EntriesMadeLast(store, actions[..n], Exec(Start(store), actions[..n]).value, hash, provider);
      StepKeepsMadeLast(Exec(Start(store), actions[..n]).value, actions[n], s, hash, provider);
    }
  }

  /**
   Main result: in every run of overlapping lookups, a hit rests on the last resolution of its key, which ended less
   than one TTL ago, and returns the value of the last resolution of its key and provider. Both read the storage
   truly at some instant.
   */
  lemma HitsRestOnResolutions(store: Store, actions: seq<Action>, s: State, hash: Hash, provider: string)
    requires Exec(Start(store), actions) == Some(s) && Hits(s, hash, provider)
    ensures LastOf(s.log, hash).Some? && LastFor(s.log, hash, provider).Some?
    ensures
      var ofKey, ofValue := LastOf(s.log, hash).value, LastFor(s.log, hash, provider).value;
      && Happened(Start(store), actions, ofKey.lookup) && Happened(Start(store), actions, ofValue.lookup)
      && ofKey.lookup.hash == ofValue.lookup.hash == hash && ofValue.lookup.provider == provider
      && ofKey.doneAt <= s.now < ofKey.doneAt + TTL
      && HitResult(s, hash, provider) == Resolved(ofValue.lookup.result.value, ofKey.lookup.result.keyId)
  {
    EntriesMadeLast(store, actions, s, hash, provider);
    LastIsLogged(s.log, hash, provider);
    LookupsHappened(store, actions, s, LastOf(s.log, hash).value.lookup);
    LookupsHappened(store, actions, s, LastFor(s.log, hash, provider).value.lookup);
  }

  // ---- When the cache is exact ------------------------------------------------------------------

  lemma {:induction false} StoreUnchanged(start: State, actions: seq<Action>, s: State)
    requires Exec(start, actions) == Some(s) && forall a <- actions :: !a.Change?
    ensures s.store == start.store
    decreases |actions|
  {
    if actions == [] {
    } else {
      var n := |actions| - 1;
      assert actions[n] in actions;
      StoreUnchanged(start, actions[..n], Exec(start, actions[..n]).value);
    }
  }

  lemma HappenedUnchanged(start: State, actions: seq<Action>, l: Lookup)
    requires Happened(start, actions, l) && forall a <- actions :: !a.Change?
    ensures Resolve(start.store, l.hash, l.provider, l.owner) == Ok(l.result)
  {
    var i :| HappenedAfter(start, actions, i, l);
    StoreUnchanged(start, actions[..i], Exec(start, actions[..i]).value);
  }

  /**
   While the store does not change, the resolver answers just what a full resolution would, for any caller,
   exactly when it is not a hit by a caller other than the key's owner: a hit does not compare the owner.
   */
  lemma TransparentExactlyWhen(store: Store, actions: seq<Action>, s: State,
                               hash: Hash, provider: string, owner: nat)
    requires Exec(Start(store), actions) == Some(s) && (forall a <- actions :: !a.Change?)
    ensures Answer(s, hash, provider, owner) == Resolve(store, hash, provider, owner)
       <==> (Hits(s, hash, provider) ==> hash in store.keys && store.keys[hash].owner == owner)
  {
    StoreUnchanged(Start(store), actions, s);
    if Hits(s, hash, provider) {
      HitsRestOnResolutions(store, actions, s, hash, provider);
      HappenedUnchanged(Start(store), actions, LastOf(s.log, hash).value.lookup);
      HappenedUnchanged(Start(store), actions, LastFor(s.log, hash, provider).value.lookup);
    }
  }

  /** A resolution with nothing in between. */
  lemma ReadAndFill(start: State, before: seq<Action>, s: State, id: nat, h: Hash, p: string, owner: nat)
    returns (l: Lookup, t: State)
    requires Exec(start, before) == Some(s) && id !in s.lookups && !Hits(s, h, p) && HasRoom(s, h, p)
    requires Resolve(s.store, h, p, owner).Ok?
    ensures l == Lookup(h, p, owner, Resolve(s.store, h, p, owner).value, s.now) && t == Filled(s, l)
    ensures Exec(start, before + [Read(id, h, p, owner)] + [Finish(id)]) == Some(t)
  {
    l := Lookup(h, p, owner, Resolve(s.store, h, p, owner).value, s.now);
    t := Filled(s, l);
    var m := s.(lookups := s.lookups[id := l]);
    assert m.lookups - {id} == s.lookups;
    Runs.ExecOne(Step, start, before, s, Read(id, h, p, owner), m);
    Runs.ExecOne(Step, start, before + [Read(id, h, p, owner)], m, Finish(id), t);
  }

  /** The other case: after the owner's lookup every other caller is answered where a full resolution refuses. */
  lemma HitForAnotherOwner(store: Store, hash: Hash, provider: string, owner: nat, other: nat) returns (s: State)
    requires Resolve(store, hash, provider, owner).Ok? && other != owner
    ensures Exec(Start(store), [Read(0, hash, provider, owner), Finish(0)]) == Some(s)
    ensures Answer(s, hash, provider, other) == Resolve(store, hash, provider, owner)
    ensures Resolve(s.store, hash, provider, other) == Err(WrongOwner)
  {
    var l;
    l, s := ReadAndFill(Start(store), [], Start(store), 0, hash, provider, owner);
    assert [] + [Read(0, hash, provider, owner)] + [Finish(0)] == [Read(0, hash, provider, owner), Finish(0)];
  }

  // ---- How long a value lives -------------------------------------------------------------------

  ghost predicate OneProvider(actions: seq<Action>, hash: Hash, provider: string) {
    forall a <- actions :: a.Read? && a.hash == hash ==> a.provider == provider
  }

  ghost predicate OnlyFor(s: State, hash: Hash, provider: string) {
    && (forall id <- s.lookups :: s.lookups[id].hash == hash ==> s.lookups[id].provider == provider)
    && LastOf(s.log, hash) == LastFor(s.log, hash, provider)
  }

  lemma {:induction false} OneProviderOnly(store: Store, actions: seq<Action>, s: State, hash: Hash, provider: string)
    requires Exec(Start(store), actions) == Some(s) && OneProvider(actions, hash, provider)
    ensures OnlyFor(s, hash, provider)
    decreases |actions|
  {
    if actions == [] {
    } else {
      var n := |actions| - 1;
      var m := Exec(Start(store), actions[..n]).value;
      OneProviderOnly(store, actions[..n], m, hash, provider);
      assert actions[n] in actions;
      if actions[n].Finish? {
        LastSnoc(m.log, Done(m.lookups[actions[n].id], m.now), hash, provider);
      }
    }
  }

  /** A key that is only ever used with one provider gets what a resolution gave that ended less than one TTL ago. */
  lemma OneProviderStaysInStep(store: Store, actions: seq<Action>, s: State, hash: Hash, provider: string)
    requires Exec(Start(store), actions) == Some(s) && OneProvider(actions, hash, provider)
    requires Hits(s, hash, provider)
    ensures LastFor(s.log, hash, provider).Some?
    ensures
      var d := LastFor(s.log, hash, provider).value;
      && Happened(Start(store), actions, d.lookup) && d.doneAt <= s.now < d.doneAt + TTL
      && HitResult(s, hash, provider) == d.lookup.result
  {
    HitsRestOnResolutions(store, actions, s, hash, provider);
    OneProviderOnly(store, actions, s, hash, provider);
  }

  ghost predicate Serves(s: State, hash: Hash, provider: string, value: string) {
    Hits(s, hash, provider) && HitResult(s, hash, provider).value == value
  }

  /** A resolution that renews the key's entry and does not replace this value of this provider. */
  predicate Revives(provider: string, value: string, q: string, result: Resolved) {
    q != provider || result.value == value
  }

  ghost predicate UnderWay(s: State, hash: Hash, provider: string, value: string) {
    exists id <- s.lookups ::
      s.lookups[id].hash == hash && Revives(provider, value, s.lookups[id].provider, s.lookups[id].result)
  }

  ghost predicate Possible(store: Store, hash: Hash, provider: string, value: string) {
    exists q, o :: Resolve(store, hash, q, o).Ok? && Revives(provider, value, q, Resolve(store, hash, q, o).value)
  }

  /** Without a change of the store, the value is served now or later. */
  ghost predicate ServedAgain(s: State, rest: seq<Action>, t: State, hash: Hash, provider: string, value: string) {
    (forall a <- rest :: !a.Change?) && Exec(s, rest) == Some(t) && Serves(t, hash, provider, value)
  }

  predicate Bounded(s: State) {
    |s.keyCache| <= KEY_CACHE_SIZE && |s.provCache| <= PROV_CACHE_SIZE
  }

  /** `t` comes of `s` by evictions that spare the value of `kept`. */
  ghost predicate Evicts(s: State, drops: seq<Action>, t: State, kept: string) {
    && Exec(s, drops) == Some(t) && (forall a <- drops :: !a.Change?)
    && t.store == s.store && t.now == s.now && t.lookups == s.lookups
    && (kept in s.provCache ==> kept in t.provCache && t.provCache[kept] == s.provCache[kept])
  }

  lemma RoomForKey(s: State, h: Hash, kept: string) returns (drops: seq<Action>, t: State)
    requires |s.keyCache| <= KEY_CACHE_SIZE
    ensures Evicts(s, drops, t, kept) && t.provCache == s.provCache
    ensures h in t.keyCache || |t.keyCache| < KEY_CACHE_SIZE
  {
    drops, t := [], s;
    if h !in s.keyCache && |s.keyCache| == KEY_CACHE_SIZE {
      var victim :| victim in s.keyCache.Keys;
      MapDropSize(s.keyCache, victim);
      t := s.(keyCache := s.keyCache - {victim});
      Runs.ExecOne(Step, s, [], s, DropKey(victim), t);
      drops := [] + [DropKey(victim)];
    }
  }

  lemma RoomForValue(s: State, key: string, kept: string) returns (drops: seq<Action>, t: State)
    requires |s.provCache| <= PROV_CACHE_SIZE
    ensures Evicts(s, drops, t, kept) && t.keyCache == s.keyCache
    ensures key in t.provCache || |t.provCache| < PROV_CACHE_SIZE
  {
    drops, t := [], s;
    if key !in s.provCache && |s.provCache| == PROV_CACHE_SIZE {
      var victim := OtherKey(s.provCache, kept);
      MapDropSize(s.provCache, victim);
      t := s.(provCache := s.provCache - {victim});
      Runs.ExecOne(Step, s, [], s, DropValue(victim), t);
      drops := [] + [DropValue(victim)];
    }
  }

  /** Evictions make room for a key and a provider. */
  lemma MakeRoom(s: State, h: Hash, q: string, kept: string) returns (drops: seq<Action>, t: State)
    requires Bounded(s)
    ensures Evicts(s, drops, t, kept) && HasRoom(t, h, q)
  {
    var first, m := RoomForKey(s, h, kept);
    var second;
    second, t := RoomForValue(m, ProvKey(h, q), kept);
    Runs.ExecJoin(Step, s, first, m, second, t);
    drops := first + second;
  }

  lemma OtherKey<V>(m: map<string, V>, k: string) returns (other: string)
    requires |m| >= 2
    ensures other in m && other != k
  {
    if m.Keys <= {k} {
      SubsetIsNoLarger(m.Keys, {k});
      assert false;
    }
    other :| other in m && other != k;
  }

  lemma {:induction false} BoundedInEveryRun(store: Store, actions: seq<Action>, s: State)
    requires Exec(Start(store), actions) == Some(s)
    ensures Bounded(s)
    decreases |actions|
  {
    if actions == [] {
    } else {
      var n := |actions| - 1;
      BoundedInEveryRun(store, actions[..n], Exec(Start(store), actions[..n]).value);
      StepKeepsBounds(Exec(Start(store), actions[..n]).value, actions[n], s);
    }
  }

  lemma StepKeepsBounds(s: State, a: Action, t: State)
    requires Bounded(s) && Step(s, a) == Some(t)
    ensures Bounded(t)
  {
    match a
    case DropKey(h) => MapDropSize(s.keyCache, h);
    case DropValue(k) => MapDropSize(s.provCache, k);
    case Finish(id) =>
      var l := s.lookups[id];
      MapAddSize(s.keyCache, l.hash, KeyEntry(l.result.keyId, s.now + TTL));
      MapAddSize(s.provCache, ProvKey(l.hash, l.provider), l.result.value);
    case _ =>
  }

  /** A lookup that is under way ends, and the value is good again. */
  lemma FinishRevives(s: State, id: nat, hash: Hash, provider: string, value: string)
    returns (rest: seq<Action>, t: State)
    requires Bounded(s)
    requires ProvKey(hash, provider) in s.provCache && s.provCache[ProvKey(hash, provider)] == value
    requires id in s.lookups && s.lookups[id].hash == hash
    requires Revives(provider, value, s.lookups[id].provider, s.lookups[id].result)
    ensures ServedAgain(s, rest, t, hash, provider, value)
  {
    var l := s.lookups[id];
    var drops, m := MakeRoom(s, hash, l.provider, ProvKey(hash, provider));
    t := Filled(m.(lookups := m.lookups - {id}), l);
    SameProvKey(l, hash, provider);
    Runs.ExecOne(Step, s, drops, m, Finish(id), t);
    rest := drops + [Finish(id)];
  }

  /** Nothing brings the value back. */
  ghost predicate Dead(s: State, hash: Hash, provider: string, value: string) {
    && !Serves(s, hash, provider, value)
    && !UnderWay(s, hash, provider, value)
    && !Possible(s.store, hash, provider, value)
  }

  lemma ReadKeepsDead(s: State, a: Action, t: State, hash: Hash, provider: string, value: string)
    requires Dead(s, hash, provider, value) && a.Read? && Step(s, a) == Some(t)
    ensures Dead(t, hash, provider, value)
  {
    var l := t.lookups[a.id];
    assert l.hash == hash ==> !Revives(provider, value, l.provider, l.result);
    forall id | id in t.lookups
      ensures t.lookups[id].hash == hash ==> !Revives(provider, value, t.lookups[id].provider, t.lookups[id].result)
    {
      assert id != a.id ==> id in s.lookups;
    }
    assert t.store == s.store;
  }

  lemma FinishKeepsDead(s: State, a: Action, t: State, hash: Hash, provider: string, value: string)
    requires Dead(s, hash, provider, value) && a.Finish? && Step(s, a) == Some(t)
    ensures Dead(t, hash, provider, value)
  {
    SameProvKey(s.lookups[a.id], hash, provider);
    forall id | id in t.lookups
      ensures t.lookups[id].hash == hash ==> !Revives(provider, value, t.lookups[id].provider, t.lookups[id].result)
    {
      assert id in s.lookups && s.lookups[id] == t.lookups[id];
    }
    assert t.store == s.store;
  }

  lemma StepKeepsDead(s: State, a: Action, t: State, hash: Hash, provider: string, value: string)
    requires Dead(s, hash, provider, value) && Step(s, a) == Some(t) && !a.Change?
    ensures Dead(t, hash, provider, value)
  {
    match a
    case Read(_, _, _, _) => ReadKeepsDead(s, a, t, hash, provider, value);
    case Finish(_) => FinishKeepsDead(s, a, t, hash, provider, value);
    case _ =>
  }

  lemma {:induction false} DeadStaysDead(s: State, actions: seq<Action>, t: State,
                                         hash: Hash, provider: string, value: string)
    requires Dead(s, hash, provider, value) && Exec(s, actions) == Some(t) && forall a <- actions :: !a.Change?
    ensures Dead(t, hash, provider, value)
    decreases |actions|
  {
    if actions == [] {
    } else {
      var n := |actions| - 1;
      assert actions[n] in actions;
      DeadStaysDead(s, actions[..n], Exec(s, actions[..n]).value, hash, provider, value);
      StepKeepsDead(Exec(s, actions[..n]).value, actions[n], t, hash, provider, value);
    }
  }

  /**
   Main result: a cached value, whatever the store has by now, is served in some run without a change of the store
   exactly when its key's entry is good, or can be renewed: by a resolution, under way or possible, for another
   provider, or for this one with the same value.
   */
  lemma ServedAgainExactlyWhen(s: State, hash: Hash, provider: string, value: string)
    requires Bounded(s)
    requires ProvKey(hash, provider) in s.provCache && s.provCache[ProvKey(hash, provider)] == value
    ensures (exists rest, t :: ServedAgain(s, rest, t, hash, provider, value)) <==>
      Fresh(s, hash) || UnderWay(s, hash, provider, value) || Possible(s.store, hash, provider, value)
  {
    if Fresh(s, hash) {
      assert ServedAgain(s, [], s, hash, provider, value);
    } else if UnderWay(s, hash, provider, value) {
      var id :| id in s.lookups && s.lookups[id].hash == hash
        && Revives(provider, value, s.lookups[id].provider, s.lookups[id].result);
      var rest, t := FinishRevives(s, id, hash, provider, value);
    } else if Possible(s.store, hash, provider, value) {
      var rest, t := ResolutionRevives(s, hash, provider, value);
    } else {
      forall rest: seq<Action>, t: State | (forall a <- rest :: !a.Change?) && Exec(s, rest) == Some(t)
        ensures !Serves(t, hash, provider, value)
      {
        DeadStaysDead(s, rest, t, hash, provider, value);
      }
    }
  }

  lemma ResolutionRevives(s: State, hash: Hash, provider: string, value: string) returns (rest: seq<Action>, t: State)
    requires Bounded(s)
    requires ProvKey(hash, provider) in s.provCache && s.provCache[ProvKey(hash, provider)] == value
    requires !Fresh(s, hash) && Possible(s.store, hash, provider, value)
    ensures ServedAgain(s, rest, t, hash, provider, value)
  {
    var q, o :| Resolve(s.store, hash, q, o).Ok? && Revives(provider, value, q, Resolve(s.store, hash, q, o).value);
    var id := UnusedId(s.lookups.Keys);
    var read := Read(id, hash, q, o);
    var m := Step(s, read).value;
    var more;
    more, t := FinishRevives(m, id, hash, provider, value);
    Runs.ExecCons(Step, s, read, m, more);
    rest := [read] + more;
  }

  /**
   So an invalidated key's values are not dead: the next lookup of the key for another provider makes them good
   again, and so does one that was under way.
   */
  lemma InvalidatedValueReturnsExactlyWhen(s: State, hash: Hash, provider: string, value: string, t: State)
    requires Bounded(s)
    requires ProvKey(hash, provider) in s.provCache && s.provCache[ProvKey(hash, provider)] == value
    requires Step(s, DropKey(hash)) == Some(t)
    ensures (exists rest, u :: ServedAgain(t, rest, u, hash, provider, value)) <==>
      UnderWay(s, hash, provider, value) || Possible(s.store, hash, provider, value)
  {
    MapDropSize(s.keyCache, hash);
    ServedAgainExactlyWhen(t, hash, provider, value);
  }

  // ---- Revocation -------------------------------------------------------------------------------

  /** No full resolution of the key succeeds, for any provider and any caller. */
  ghost predicate Refused(store: Store, hash: Hash) {
    forall q, o :: Resolve(store, hash, q, o).Err?
  }

  /** In terms of the store: the key is unknown, inactive, or has no provider key that can be decrypted. */
  lemma RefusedExactlyWhen(store: Store, hash: Hash)
    ensures Refused(store, hash) <==>
      || hash !in store.keys
      || !store.keys[hash].active
      || forall p :: (store.keys[hash].id, p) in store.mappings ==> store.mappings[(store.keys[hash].id, p)].None?
  {
    if hash in store.keys && store.keys[hash].active {
      forall p
        ensures Resolve(store, hash, p, store.keys[hash].owner).Ok? <==>
          (store.keys[hash].id, p) in store.mappings && store.mappings[(store.keys[hash].id, p)].Some?
      {
      }
    }
  }

  ghost predicate StaysRefused(actions: seq<Action>, hash: Hash) {
    forall a <- actions :: a.Change? ==> Refused(a.store, hash)
  }

  ghost predicate StillServes(s: State, hash: Hash) {
    (exists p :: Hits(s, hash, p)) || exists id <- s.lookups :: s.lookups[id].hash == hash
  }

  lemma StepKeepsSilent(s: State, a: Action, t: State, hash: Hash)
    requires Refused(s.store, hash) && !StillServes(s, hash) && Step(s, a) == Some(t)
    requires a.Change? ==> Refused(a.store, hash)
    ensures Refused(t.store, hash) && !StillServes(t, hash)
  {
    forall p
      ensures !Hits(t, hash, p)
    {
      assert !Hits(s, hash, p);
      if a.Finish? {
        SameProvKey(s.lookups[a.id], hash, p);
      }
    }
    assert a.Read? ==> Resolve(s.store, a.hash, a.provider, a.owner).Ok?;
  }

  lemma {:induction false} SilentStaysSilent(s: State, actions: seq<Action>, t: State, hash: Hash)
    requires Refused(s.store, hash) && !StillServes(s, hash) && Exec(s, actions) == Some(t)
    requires StaysRefused(actions, hash)
    ensures Refused(t.store, hash) && !StillServes(t, hash)
    decreases |actions|
  {
    if actions == [] {
    } else {
      var n := |actions| - 1;
      assert actions[n] in actions;
      SilentStaysSilent(s, actions[..n], Exec(s, actions[..n]).value, hash);
      StepKeepsSilent(Exec(s, actions[..n]).value, actions[n], t, hash);
    }
  }

  /** The key is still answered from the cache in this run, in which it stays refused. */
  ghost predicate AnsweredYet(s: State, rest: seq<Action>, t: State, hash: Hash, p: string) {
    StaysRefused(rest, hash) && Exec(s, rest) == Some(t) && Hits(t, hash, p)
  }

  /**
   Main result: a key that the store refuses is never answered from the cache again, in any run in which it stays
   refused, exactly when there is no good entry with a value now and no resolution that saw it in order is under way.
   */
  lemma RevocationIsFinalExactlyWhen(s: State, hash: Hash)
    requires Bounded(s) && Refused(s.store, hash)
    ensures (exists rest, t, p :: AnsweredYet(s, rest, t, hash, p)) <==> StillServes(s, hash)
  {
    if exists p :: Hits(s, hash, p) {
      var p :| Hits(s, hash, p);
      assert AnsweredYet(s, [], s, hash, p);
    } else if exists id <- s.lookups :: s.lookups[id].hash == hash {
      var id :| id in s.lookups && s.lookups[id].hash == hash;
      var l := s.lookups[id];
      var drops, m := MakeRoom(s, hash, l.provider, ProvKey(hash, l.provider));
      var t := Filled(m.(lookups := m.lookups - {id}), l);
      Runs.ExecOne(Step, s, drops, m, Finish(id), t);
      assert AnsweredYet(s, drops + [Finish(id)], t, hash, l.provider);
    } else {
      forall rest, t, p | StaysRefused(rest, hash) && Exec(s, rest) == Some(t)
        ensures !Hits(t, hash, p)
      {
        SilentStaysSilent(s, rest, t, hash);
      }
    }
  }

  // ---- The age of a value -----------------------------------------------------------------------

  /**
   A value has no bound on its age: for every key and every two providers of it, while lookups for the one renew the
   key's entry, the value found for the other outlives its change in the store by any time.
   */
  lemma ValueAgeIsUnbounded(before: Store, after: Store, h: Hash, p: string, owner: nat, q: string, o: nat, age: nat)
    returns (actions: seq<Action>, s: State)
    requires q != p && Resolve(before, h, p, owner).Ok? && Resolve(after, h, q, o).Ok?
    ensures Exec(Start(before), actions) == Some(s) && s.now >= age && s.store == after
    ensures Serves(s, h, p, Resolve(before, h, p, owner).value.value)
    ensures LastFor(s.log, h, p).Some? && LastFor(s.log, h, p).value.doneAt == 0
  {
    var first := Start(before);
    var l, second := ReadAndFill(first, [], first, 0, h, p, owner);
    actions := [] + [Read(0, h, p, owner)] + [Finish(0)];
    LastSnoc([], Done(l, 0), h, p);
    assert first.log + [Done(l, 0)] == [] + [Done(l, 0)];
    var third := second.(store := after);
    Runs.ExecOne(Step, first, actions, second, Change(after), third);
    actions, s := Renewals(first, actions + [Change(after)], third, h, p, l.result.value, q, o, age);
  }

  ghost predicate Outlives(s: State, h: Hash, p: string, value: string, q: string, o: nat) {
    && q != p && Resolve(s.store, h, q, o).Ok? && s.lookups == map[]
    && h in s.keyCache && s.provCache.Keys <= {ProvKey(h, p), ProvKey(h, q)} && Serves(s, h, p, value)
    && LastFor(s.log, h, p).Some? && LastFor(s.log, h, p).value.doneAt == 0
  }

  lemma {:induction false} Renewals(start: State, prefix: seq<Action>, s: State,
                                    h: Hash, p: string, value: string, q: string, o: nat, rounds: nat)
    returns (actions: seq<Action>, t: State)
    requires Exec(start, prefix) == Some(s) && Outlives(s, h, p, value, q, o)
    ensures Exec(start, actions) == Some(t) && Outlives(t, h, p, value, q, o)
    ensures t.now >= s.now + rounds && t.store == s.store
    decreases rounds
  {
    if rounds == 0 {
      actions, t := prefix, s;
    } else {
      var more, m := RenewOnce(start, prefix, s, h, p, value, q, o);
      actions, t := Renewals(start, more, m, h, p, value, q, o, rounds - 1);
    }
  }

  /** The entry runs out, and a lookup for the other provider renews it. */
  lemma RenewOnce(start: State, prefix: seq<Action>, s: State, h: Hash, p: string, value: string, q: string, o: nat)
    returns (actions: seq<Action>, t: State)
    requires Exec(start, prefix) == Some(s) && Outlives(s, h, p, value, q, o)
    ensures Exec(start, actions) == Some(t) && Outlives(t, h, p, value, q, o) && t.now > s.now && t.store == s.store
  {
    var d := s.keyCache[h].expiresAt - s.now;
    var late := s.(now := s.now + d);
    Runs.ExecOne(Step, start, prefix, s, Tick(d), late);
    RoomForTwo(late, h, p, q);
    var l;
    l, t := ReadAndFill(start, prefix + [Tick(d)], late, 0, h, q, o);
    actions := prefix + [Tick(d)] + [Read(0, h, q, o)] + [Finish(0)];
    SameProvKey(l, h, p);
    LastSnoc(late.log, Done(l, late.now), h, p);
  }

  lemma RoomForTwo(s: State, h: Hash, p: string, q: string)
    requires h in s.keyCache && s.provCache.Keys <= {ProvKey(h, p), ProvKey(h, q)}
    ensures HasRoom(s, h, q)
  {
    var two := {ProvKey(h, p), ProvKey(h, q)};
    SubsetIsNoLarger(s.provCache.Keys, two);
    assert |two| <= 2;
  }

  // ---- The resolver -----------------------------------------------------------------------------

  const PROXY_KEY_PREFIX := "mdm_pk_"

  class ProxyResolver {
    var store: Store
    var keyCache: map<Hash, KeyEntry>
    var provCache: map<string, string>
    var now: nat
    ghost var log: seq<Done>
    /** Failed reads of the storage. */
    ghost var failures: nat

    ghost function View(): State
      reads this
    {
      State(store, keyCache, provCache, now, map[], log)
    }

    ghost predicate Valid()
      reads this
    {
      |keyCache| <= KEY_CACHE_SIZE && |provCache| <= PROV_CACHE_SIZE
    }

    constructor (store: Store)
      ensures Valid() && View() == Start(store)
    {
      this.store := store;
      keyCache, provCache, now, log, failures := map[], map[], 0, [], 0;
    }

    /** Makes room in the first cache; which entry goes is not specified. */
    method EvictKey(hash: Hash) returns (ghost trace: seq<Action>)
      requires Valid()
      modifies `keyCache
      ensures Valid() && Exec(old(View()), trace) == Some(View())
      ensures hash in keyCache || |keyCache| < KEY_CACHE_SIZE
      ensures forall a <- trace :: a.DropKey?
      ensures hash in old(keyCache) ==> keyCache == old(keyCache)
      ensures hash !in old(keyCache) ==> hash !in keyCache
    {
      trace := [];
      if hash !in keyCache && |keyCache| >= KEY_CACHE_SIZE {
        assert keyCache.Keys != {};
        var victim :| victim in keyCache.Keys;
        MapDropSize(keyCache, victim);
        keyCache := keyCache - {victim};
        Runs.ExecOne(Step, old(View()), [], old(View()), DropKey(victim), View());
        trace := [] + [DropKey(victim)];
      }
    }

    method EvictValue(key: string) returns (ghost trace: seq<Action>)
      requires Valid()
      modifies `provCache
      ensures Valid() && Exec(old(View()), trace) == Some(View())
      ensures key in provCache || |provCache| < PROV_CACHE_SIZE
      ensures forall a <- trace :: a.DropValue?
      ensures key in old(provCache) ==> provCache == old(provCache)
      ensures key !in old(provCache) ==> key !in provCache
    {
      trace := [];
      if key !in provCache && |provCache| >= PROV_CACHE_SIZE {
        assert provCache.Keys != {};
        var victim :| victim in provCache.Keys;
        MapDropSize(provCache, victim);
        provCache := provCache - {victim};
        Runs.ExecOne(Step, old(View()), [], old(View()), DropValue(victim), View());
        trace := [] + [DropValue(victim)];
      }
    }

    method Fill(hash: Hash, provider: string, r: Resolved, ghost l: Lookup)
      requires Valid() && HasRoom(View(), hash, provider)
      requires l.hash == hash && l.provider == provider && l.result == r
      modifies `keyCache, `provCache, `log
      ensures Valid() && View() == Filled(old(View()), l)
    {
      MapAddSize(keyCache, hash, KeyEntry(r.keyId, now + TTL));
      MapAddSize(provCache, ProvKey(hash, provider), r.value);
      keyCache := keyCache[hash := KeyEntry(r.keyId, now + TTL)];
      provCache := provCache[ProvKey(hash, provider) := r.value];
      log := log + [Done(l, now)];
    }

    /** Both results of a full resolution, which was read as `l`, are cached, after evictions if need be. */
    method CacheResults(hash: Hash, provider: string, r: Resolved, ghost l: Lookup) returns (ghost trace: seq<Action>)
      requires Valid() && l.hash == hash && l.provider == provider && l.result == r
      modifies `keyCache, `provCache, `log
      ensures Valid() && Exec(old(View()).(lookups := map[0 := l]), trace) == Some(View())
      ensures trace != [] && trace[|trace| - 1] == Finish(0)
      ensures forall i :: 0 <= i < |trace| - 1 ==> trace[i].DropKey? || trace[i].DropValue?
      ensures hash in keyCache && keyCache[hash] == KeyEntry(r.keyId, now + TTL)
      ensures ProvKey(hash, provider) in provCache && provCache[ProvKey(hash, provider)] == r.value
    {
      ghost var s := View();
      ghost var t1 := EvictKey(hash);
      ghost var t2 := EvictValue(ProvKey(hash, provider));
      Runs.ExecAppend(Step, s, t1, t2);
      DropsOnly(s, t1 + t2, View(), l);
      ghost var ready := View();
      trace := t1 + t2 + [Finish(0)];
      Fill(hash, provider, r, l);
      FinishOnly(ready, l);
      Runs.ExecOne(Step, s.(lookups := map[0 := l]), t1 + t2, ready.(lookups := map[0 := l]), Finish(0), View());
    }

    /** Reads of the storage can fail on the way, which changes nothing. */
    method LookUp(hash: Hash, provider: string, owner: nat) returns (r: Result<Resolved, ProxyError>)
      modifies `failures
      ensures r == Err(StoreFailed) <==> failures > old(failures)
      ensures r != Err(StoreFailed) ==> Explains(store, hash, provider, owner, r)
    {
      var failed: bool := *;
      if failed {
        failures := failures + 1;
        return Err(StoreFailed);
      }
      if hash !in store.keys {
        return Err(NotFound);
      }
      var k := store.keys[hash];
      if !k.active {
        return Err(if k.revoked then KeyRevoked else KeyInactive);
      }
      if k.owner != owner {
        return Err(WrongOwner);
      }
      failed := *;
      if failed {
        failures := failures + 1;
        return Err(StoreFailed);
      }
      if (k.id, provider) !in store.mappings {
        return Err(NoMapping);
      }
      var value := store.mappings[(k.id, provider)];
      return if value.None? then Err(DecryptFailed) else Ok(Resolved(value.value, k.id));
    }

    /** Without a hit: one read and, if it found everything in order, the filling of both caches. */
    method ResolveFully(hash: Hash, provider: string, owner: nat)
      returns (r: Result<Resolved, ProxyError>, ghost trace: seq<Action>)
      requires Valid() && !Hits(View(), hash, provider)
      modifies `keyCache, `provCache, `log, `failures
      ensures Valid() && Exec(old(View()), trace) == Some(View())
      ensures r == Err(StoreFailed) <==> failures > old(failures)
      ensures r != Err(StoreFailed) ==> Explains(store, hash, provider, owner, r)
      ensures r.Err? ==> trace == [] && keyCache == old(keyCache) && provCache == old(provCache)
      ensures r.Ok? ==> IsCached(keyCache, provCache, now, hash, provider, r.value)
      ensures r.Ok? ==> IsReadAndFill(trace, hash, provider, owner)
    {
      ghost var s := View();
      trace := [];
      r := LookUp(hash, provider, owner);
      ResolvesExactlyWhen(store, hash, provider, owner, r);
      if r.Ok? {
        ghost var l := Lookup(hash, provider, owner, r.value, now);
        ghost var more := CacheResults(hash, provider, r.value, l);
        Runs.ExecCons(Step, s, Read(0, hash, provider, owner), s.(lookups := map[0 := l]), more);
        trace := [Read(0, hash, provider, owner)] + more;
      }
    }

    method ResolveProxyKey(authKey: string, provider: string, owner: nat, hasher: string -> Hash)
      returns (r: Reply, ghost trace: seq<Action>)
      requires Valid()
      modifies `keyCache, `provCache, `log, `failures
      ensures Valid() && Exec(old(View()), trace) == Some(View())
      ensures r == NotAProxyKey <==> !(PROXY_KEY_PREFIX <= authKey)
      ensures r == Answered(Err(StoreFailed)) <==> failures > old(failures)
      // A hit is an unexpired entry of the key beside a value of key and provider, whatever the store says.
      ensures
        var hash := hasher(authKey);
        r != NotAProxyKey && GoodEntries(old(keyCache), old(provCache), now, hash, provider) ==>
          && r == Answered(Ok(Resolved(old(provCache)[ProvKey(hash, provider)], old(keyCache)[hash].keyId)))
          && trace == [Hit(hash, provider)] && keyCache == old(keyCache) && provCache == old(provCache)
      // Any other answer is what the store says, and a successful one is cached.
      ensures
        var hash := hasher(authKey);
        r != NotAProxyKey && !GoodEntries(old(keyCache), old(provCache), now, hash, provider) ==>
          && (r != Answered(Err(StoreFailed)) ==> Explains(store, hash, provider, owner, r.result))
          && (r.result.Err? ==> trace == [] && keyCache == old(keyCache) && provCache == old(provCache))
          && (r.result.Ok? ==>
                IsCached(keyCache, provCache, now, hash, provider, r.result.value)
                && IsReadAndFill(trace, hash, provider, owner))
    {
      if !(PROXY_KEY_PREFIX <= authKey) {
        return NotAProxyKey, [];
      }
      var hash := hasher(authKey);
      ghost var s := View();
      if ProvKey(hash, provider) in provCache {
        var value := provCache[ProvKey(hash, provider)];
        if hash in keyCache && now < keyCache[hash].expiresAt {
          Runs.ExecOne(Step, s, [], s, Hit(hash, provider), s);
          return Answered(Ok(Resolved(value, keyCache[hash].keyId))), [] + [Hit(hash, provider)];
        }
      }
      var found;
      found, trace := ResolveFully(hash, provider, owner);
      r := Answered(found);
    }

    method InvalidateCache(hash: Hash)
      requires Valid()
      modifies `keyCache
      ensures Valid() && keyCache == old(keyCache) - {hash}
      ensures Step(old(View()), DropKey(hash)) == Some(View())
    {
      MapDropSize(keyCache, hash);
      keyCache := keyCache - {hash};
    }
  }

  lemma FinishOnly(s: State, l: Lookup)
    requires s.lookups == map[] && HasRoom(s, l.hash, l.provider)
    ensures Step(s.(lookups := map[0 := l]), Finish(0)) == Some(Filled(s, l))
  {
    var m := s.(lookups := map[0 := l]);
    assert m.lookups - {0} == map[];
    assert m.(lookups := map[]) == s;
  }

  /** Evictions do not touch the lookups that are under way. */
  lemma {:induction false} DropsOnly(s: State, drops: seq<Action>, t: State, l: Lookup)
    requires Exec(s, drops) == Some(t) && s.lookups == map[] && forall a <- drops :: a.DropKey? || a.DropValue?
    ensures Exec(s.(lookups := map[0 := l]), drops) == Some(t.(lookups := map[0 := l])) && t.lookups == map[]
    decreases |drops|
  {
    if drops == [] {
    } else {
      var n := |drops| - 1;
      assert drops[n] in drops;
      DropsOnly(s, drops[..n], Exec(s, drops[..n]).value, l);
    }
  }

  /** Both caches hold what was resolved, for one TTL from now. */
  predicate IsCached(keyCache: map<Hash, KeyEntry>, provCache: map<string, string>, now: nat,
                     hash: Hash, provider: string, r: Resolved)
  {
    && hash in keyCache && keyCache[hash] == KeyEntry(r.keyId, now + TTL)
    && ProvKey(hash, provider) in provCache && provCache[ProvKey(hash, provider)] == r.value
  }

  /** One read and one filling, with evictions in between. */
  predicate IsReadAndFill(trace: seq<Action>, hash: Hash, provider: string, owner: nat) {
    && |trace| >= 2 && trace[0] == Read(0, hash, provider, owner) && trace[|trace| - 1] == Finish(0)
    && forall i :: 0 < i < |trace| - 1 ==> trace[i].DropKey? || trace[i].DropValue?
  }

  predicate GoodEntries(keyCache: map<Hash, KeyEntry>, provCache: map<string, string>, now: nat,
                        hash: Hash, provider: string)
  {
    ProvKey(hash, provider) in provCache && hash in keyCache && now < keyCache[hash].expiresAt
  }

  datatype Reply = NotAProxyKey | Answered(result: Result<Resolved, ProxyError>)
}
