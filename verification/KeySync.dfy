/** The API key syncer and the `api_keys` upsert, proved to be runs of the cursor protocol. */
module KeySync {
  import Runs
  import opened Wrappers
  import opened Pages
  import opened CursorSync

  /** The fields of a key that a sync transfers; `updated_at` is the record's stamp. */
  datatype KeyBody = KeyBody(keyHash: string, name: string, active: bool, createdAt: int, behavior: string)

  datatype KeyRow = KeyRow(keyHash: string, name: string, active: bool, createdAt: int, updatedAt: int,
                           behavior: string)

  /** The row shows version `r`: every transferred field, with the default for an absent behaviour. */
  ghost predicate Shows(row: KeyRow, r: Record<KeyBody>) {
    && row.keyHash == r.body.keyHash && row.name == r.body.name && row.active == r.body.active
    && row.updatedAt == r.at
    && (r.body.behavior != "" ==> row.behavior == r.body.behavior)
    && (r.body.behavior == "" ==> row.behavior == "passthrough")
  }

  /** The unique constraint on `key_hash` lets the row of `id` have this hash. */
  ghost predicate HashFree(rows: map<nat, KeyRow>, id: nat, keyHash: string) {
    forall other <- rows :: other != id ==> rows[other].keyHash != keyHash
  }

  ghost predicate UniqueHashes(rows: map<nat, KeyRow>) {
    forall i, j :: i in rows && j in rows && i != j ==> rows[i].keyHash != rows[j].keyHash
  }

  lemma RowKeepsHashesUnique(rows: map<nat, KeyRow>, id: nat, row: KeyRow)
    requires UniqueHashes(rows) && HashFree(rows, id, row.keyHash)
    ensures UniqueHashes(rows[id := row])
  {
  }

  class KeyStore {
    var rows: map<nat, KeyRow>
    ghost var versions: Table<KeyBody>  // what was last upserted under each id
    ghost var errors: nat               // how many statements have reported an error

    ghost predicate Valid()
      reads this
    {
      && (forall id <- versions.Keys :: id in rows && versions[id].id == id && Shows(rows[id], versions[id]))
      && UniqueHashes(rows)
    }

    constructor ()
      ensures Valid() && rows == map[] && versions == map[] && errors == 0
    {
      rows, versions, errors := map[], map[], 0;
    }

    /**
     `INSERT ... ON CONFLICT (id) DO UPDATE` of one key; the creation time of an existing row stays, and a hash
     that another row has is an error.
     */
    method UpsertRow(k: Record<KeyBody>) returns (out: Outcome)
      requires Valid()
      modifies this
      ensures Valid() && errors == old(errors) + Errors(out)
      ensures (exists other <- old(rows) :: other != k.id && old(rows)[other].keyHash == k.body.keyHash) ==>
        out == Failure(false)
      ensures versions == if TookEffect(out) then old(versions)[k.id := k] else old(versions)
      ensures forall id <- old(rows).Keys :: id in rows && rows[id].createdAt == old(rows)[id].createdAt
                                             && (id != k.id ==> rows[id] == old(rows)[id])
      ensures !TookEffect(out) ==> rows == old(rows)
      ensures TookEffect(out) ==> rows.Keys == old(rows).Keys + {k.id} && Shows(rows[k.id], k)
      ensures TookEffect(out) && k.id !in old(rows) ==> rows[k.id].createdAt == k.body.createdAt
    {
      var behavior := k.body.behavior;
      if behavior == "" {
        behavior := "passthrough";
      }
      var taken := exists other <- rows :: other != k.id && rows[other].keyHash == k.body.keyHash;
      if taken {
        errors := errors + 1;
        return Failure(false);
      }
      out := AnyOutcome();
      if TookEffect(out) {
        StoreRow(k, behavior);
      }
      errors := errors + Errors(out);
    }

    /** The statement on a hash that no other row has. */
    method StoreRow(k: Record<KeyBody>, behavior: string)
      requires Valid() && HashFree(rows, k.id, k.body.keyHash)
      requires behavior == if k.body.behavior == "" then "passthrough" else k.body.behavior
      modifies `rows, `versions
      ensures Valid() && versions == old(versions)[k.id := k]
      ensures k.id in rows && rows == old(rows)[k.id := rows[k.id]] && Shows(rows[k.id], k)
      ensures rows[k.id].createdAt == if k.id in old(rows) then old(rows)[k.id].createdAt else k.body.createdAt
    {
      var created := if k.id in rows then rows[k.id].createdAt else k.body.createdAt;
      var row := KeyRow(k.body.keyHash, k.body.name, k.body.active, created, k.at, behavior);
      RowKeepsHashesUnique(rows, k.id, row);
      rows := rows[k.id := row];
      versions := versions[k.id := k];
    }

    /** Row by row and without a transaction: an error leaves the rows before it in place. */
    method UpsertAPIKeys(keys: seq<Record<KeyBody>>, ghost s: State<KeyBody>)
      returns (ok: bool, ghost trace: seq<Action<KeyBody>>, ghost t: State<KeyBody>)
      requires Valid() && s.local == versions && s.phase.Applying? && s.phase.rest == keys
      modifies this
      ensures Valid() && Exec(s, trace) == Some(t) && t.local == versions
      ensures t == s.(local := versions, phase := if ok then Applying(s.phase.next, []) else Idle)
      ensures ok ==> versions == Upsert(old(versions), keys)
      ensures ok <==> errors == old(errors)
      ensures errors >= old(errors)
    {
      trace, t := [], s;
      var i := 0;
      while i < |keys|
        invariant 0 <= i <= |keys| && Valid() && errors == old(errors)
        invariant t == s.(local := versions, phase := Applying(s.phase.next, keys[i..])) && Exec(s, trace) == Some(t)
        invariant Upsert(versions, keys[i..]) == Upsert(old(versions), keys)
      {
        var out := UpsertRow(keys[i]);
        assert keys[i..][1..] == keys[i + 1..];
        Runs.ExecSnoc(Step<KeyBody>, s, trace, Action.UpsertRow(out));
        trace := trace + [Action.UpsertRow(out)];
        t := Step(t, Action.UpsertRow(out)).value;
        if !out.Success? {
          return false, trace, t;
        }
        i := i + 1;
      }
      ok := true;
    }
  }

  class ButlerKeys {
    var records: Table<KeyBody>
    ghost var errors: nat  // how many requests have failed

    constructor (records: Table<KeyBody>)
      ensures this.records == records && errors == 0
    {
      this.records, errors := records, 0;
    }

    /** `GET /api/v1/steward/api-keys?updated_after=..&limit=200`, by its assumed contract. */
    method Get(updatedAfter: int) returns (r: Result<seq<Record<KeyBody>>, Failed>, ghost ids: seq<nat>)
      modifies `errors
      ensures r.Ok? ==>
        && IsPage(ids, After(records, updatedAfter), Stamps(records), PAGE_LIMIT)
        && r.value == Records(records, ids)
      ensures errors == old(errors) + ErrorsIn(r)
    {
      if * {
        errors := errors + 1;
        return Err(Failed), [];
      }
      var page := SelectPage(After(records, updatedAfter), Stamps(records), PAGE_LIMIT);
      return Ok(Records(records, page)), page;
    }
  }

  class KeySyncer {
    var cursor: int

    constructor ()
      ensures cursor == 0
    {
      cursor := 0;
    }

    /** One request of the fetch loop: append the page and raise the watermark to its newest stamp. */
    method FetchPage(butler: ButlerKeys, from: int, all0: seq<Record<KeyBody>>, ghost s: State<KeyBody>)
      returns (ok: bool, more: bool, all: seq<Record<KeyBody>>, cur: int, ghost a: Action<KeyBody>,
               ghost t: State<KeyBody>)
      requires Inv(s) && s.phase == Fetching(from, all0) && s.butler == butler.records
      modifies butler`errors
      ensures butler.errors == old(butler.errors) + (if ok then 0 else 1)
      ensures Step(s, a) == Some(t) && Inv(t)
      ensures !ok ==> t == s.(phase := Idle) && !more
      ensures ok ==> t == s.(phase := if more then Fetching(cur, all) else if all == [] then Idle
        else Applying(cur, all))
      ensures ok && more ==> |After(s.butler, cur)| < |After(s.butler, from)|
      ensures ok && !more ==> Mirrors(Upsert(s.local, all), s.butler, s.latest)
    {
      cur, all := from, all0;
      var got;
      ghost var ids;
      got, ids := butler.Get(cur);
      if got.Err? {
        return false, false, all, cur, FetchFails, s.(phase := Idle);
      }
      a := CursorSync.FetchPage(ids);
      t := PageTurn(s, ids, got.value);
      cur := RaiseCursor(cur, got.value);
      return true, |got.value| >= PAGE_LIMIT, all + got.value, cur, a, t;
    }

    method RaiseCursor(from: int, page: seq<Record<KeyBody>>) returns (cur: int)
      ensures cur == Raise(from, page)
      ensures cur >= from && forall r <- page :: r.at <= cur
      ensures cur == from || exists r <- page :: r.at == cur
    {
      cur := from;
      for i := 0 to |page|
        invariant cur == Raise(from, page[..i])
      {
        assert page[..i + 1][..i] == page[..i];
        if page[i].at > cur {
          cur := page[i].at;
        }
      }
      assert page[..|page|] == page;
      RaiseBounds(from, page);
    }

    /** Collects pages until a short one. */
    method Fetch(butler: ButlerKeys, from: int, ghost s: State<KeyBody>)
      returns (ok: bool, all: seq<Record<KeyBody>>, cur: int, ghost trace: seq<Action<KeyBody>>,
               ghost t: State<KeyBody>)
      requires Inv(s) && s.phase == Fetching(from, []) && s.butler == butler.records
      modifies butler`errors
      ensures butler.errors == old(butler.errors) + (if ok then 0 else 1)
      ensures Exec(s, trace) == Some(t) && Inv(t)
      ensures t == s.(phase := if !ok || all == [] then Idle else Applying(cur, all))
      ensures ok ==> Mirrors(Upsert(s.local, all), s.butler, s.latest)
    {
      cur, all, ok := from, [], true;
      trace, t := [], s;
      var more := true;
      while more
        invariant more ==> ok
        invariant butler.errors == old(butler.errors) + (if ok then 0 else 1)
        invariant Inv(t) && Exec(s, trace) == Some(t)
        invariant t == s.(phase := if more then Fetching(cur, all) else if !ok || all == [] then Idle
          else Applying(cur, all))
        invariant ok && !more ==> Mirrors(Upsert(s.local, all), s.butler, s.latest)
        decreases more, |After(butler.records, cur)|
      {
        ghost var before := t;
        ghost var a;
        ok, more, all, cur, a, t := FetchPage(butler, cur, all, before);
        Runs.ExecOne(Step<KeyBody>, s, trace, before, a, t);
        trace := trace + [a];
      }
    }

    /** The rows are upserted, then the cursor advances. */
    method Apply(store: KeyStore, keys: seq<Record<KeyBody>>, newCursor: int, ghost s: State<KeyBody>)
      returns (ok: bool, ghost trace: seq<Action<KeyBody>>, ghost t: State<KeyBody>)
      requires store.Valid() && Inv(s) && s.phase == Applying(newCursor, keys)
      requires s.local == store.versions && s.cursor == cursor
      modifies this, store
      ensures Exec(s, trace) == Some(t) && Inv(t)
      ensures store.Valid() && t == s.(local := store.versions, cursor := cursor, phase := Idle)
      ensures cursor == if ok then newCursor else old(cursor)
      ensures ok <==> store.errors == old(store.errors)
      ensures store.errors >= old(store.errors)
      ensures ok ==> store.versions == Upsert(old(store.versions), keys)
    {
      ok, trace, t := store.UpsertAPIKeys(keys, s);
      RunKeeps(s, trace, t);
      if !ok {
        return;
      }
      cursor := newCursor;
      ghost var m := t;
      t := AdvanceRuns(s, trace, m);
      trace := trace + [Advance];
    }

    /** The cursor advances only after every row has been upserted; `ok` tells that nothing failed. */
    method Sync(butler: ButlerKeys, store: KeyStore, ghost s: State<KeyBody>)
      returns (ok: bool, ghost trace: seq<Action<KeyBody>>, ghost t: State<KeyBody>)
      requires store.Valid() && Inv(s) && s.phase.Idle?
      requires s.butler == butler.records && s.local == store.versions && s.cursor == cursor
      modifies this, store, butler`errors
      ensures Exec(s, trace) == Some(t) && Inv(t)
      ensures store.Valid() && t == s.(local := store.versions, cursor := cursor)
      ensures ok <==> store.errors == old(store.errors) && butler.errors == old(butler.errors)
      ensures cursor >= old(cursor)
      ensures !ok ==> cursor == old(cursor)
      ensures ok ==> Mirrors(store.versions, butler.records, s.latest)
    {
      ghost var s1 := StartRuns(s);
      var keys, newCursor;
      ghost var fetching, s2;
      ok, keys, newCursor, fetching, s2 := Fetch(butler, cursor, s1);
      Runs.ExecJoin(Step<KeyBody>, s, [] + [Start], s1, fetching, s2);
      trace, t := [] + [Start] + fetching, s2;
      if !ok || |keys| == 0 {
        return;
      }
      ghost var applying;
      ok, applying, t := Apply(store, keys, newCursor, s2);
      Runs.ExecJoin(Step<KeyBody>, s, trace, s2, applying, t);
      trace := trace + applying;
    }
  }
}
