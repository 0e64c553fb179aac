/**
 Mirroring of experiments and their arms: one transaction upserts every record, upserts its arms and
 deletes the arms the record no longer lists. An arm row keeps the experiment it was inserted under,
 which is why the mirror of the arms has a condition.
 */
module ExperimentStore {
  import opened Wrappers
  import opened CursorSync

  datatype Arm = Arm(id: nat, experiment: nat, name: string, model: string, weight: int, control: bool)

  /** What a sync transfers of an experiment; `updated_at` is the record's stamp. */
  datatype Body = Body(org: nat, status: string, apiKey: Option<nat>, filters: map<string, string>,
                       stickyKey: Option<string>, starts: int, ends: int, arms: seq<Arm>)

  datatype Row = Row(org: nat, status: string, apiKey: Option<nat>, filters: map<string, string>,
                     stickyKey: Option<string>, starts: int, ends: int, updatedAt: int)

  datatype Db = Db(experiments: map<nat, Row>, arms: map<nat, Arm>)

  function UpsertRow(db: Db, rec: Record<Body>): Db {
    var b := rec.body;
    var org := if rec.id in db.experiments then db.experiments[rec.id].org else b.org;
    db.(experiments := db.experiments[rec.id :=
      Row(org, b.status, b.apiKey, b.filters, b.stickyKey, b.starts, b.ends, rec.at)])
  }

  /** `None`: the foreign key to `experiments` is violated. */
  function UpsertArm(db: Db, arm: Arm): Option<Db> {
    if arm.id in db.arms then
      Some(db.(arms := db.arms[arm.id := arm.(experiment := db.arms[arm.id].experiment)]))
    else if arm.experiment in db.experiments then
      Some(db.(arms := db.arms[arm.id := arm]))
    else
      None
  }

  function UpsertArms(db: Db, arms: seq<Arm>): Option<Db>
    decreases |arms|
  {
    if arms == [] then Some(db)
    else
      var next := UpsertArm(db, arms[0]);
      if next.None? then None else UpsertArms(next.value, arms[1..])
  }

  function ArmIds(arms: seq<Arm>): set<nat> {
    set arm <- arms :: arm.id
  }

  /** `DELETE ... WHERE experiment_id = e AND id NOT IN keep`. */
  function DeleteOrphans(db: Db, e: nat, keep: set<nat>): Db {
    db.(arms := map id <- db.arms.Keys | db.arms[id].experiment != e || id in keep :: db.arms[id])
  }

  function UpsertExperiment(db: Db, rec: Record<Body>): Option<Db> {
    var withArms := UpsertArms(UpsertRow(db, rec), rec.body.arms);
    if withArms.None? then None
    else Some(DeleteOrphans(withArms.value, rec.id, ArmIds(rec.body.arms)))
  }

  function LocalArms(db: Db, e: nat): map<nat, Arm> {
    map id <- db.arms.Keys | db.arms[id].experiment == e :: db.arms[id]
  }

  // ---- Which experiment an arm ends up with -----------------------------------------------------

  /** The experiment an upsert leaves arm `id` under: that of the existing row, else of the first insert. */
  function Home(arms: map<nat, Arm>, incoming: seq<Arm>, id: nat): Option<nat>
    decreases |incoming|
  {
    if id in arms then Some(arms[id].experiment)
    else if incoming == [] then None
    else if incoming[0].id == id then Some(incoming[0].experiment)
    else Home(arms, incoming[1..], id)
  }

  lemma {:induction false} HomeFrame(a: map<nat, Arm>, b: map<nat, Arm>, incoming: seq<Arm>, id: nat)
    requires id in a <==> id in b
    requires id in a ==> a[id].experiment == b[id].experiment
    ensures Home(a, incoming, id) == Home(b, incoming, id)
    decreases |incoming|
  {
    if incoming == [] {
    } else {
      HomeFrame(a, b, incoming[1..], id);
    }
  }

  lemma {:induction false} UpsertArmsHomes(db: Db, arms: seq<Arm>, out: Db)
    requires UpsertArms(db, arms) == Some(out)
    ensures out.experiments == db.experiments && out.arms.Keys == db.arms.Keys + ArmIds(arms)
    ensures forall id <- out.arms.Keys :: Home(db.arms, arms, id) == Some(out.arms[id].experiment)
    decreases |arms|
  {
    if arms == [] {
    } else {
      var next := UpsertArm(db, arms[0]).value;
      UpsertArmsHomes(next, arms[1..], out);
      assert ArmIds(arms) == {arms[0].id} + ArmIds(arms[1..]);
      forall id | id in out.arms
        ensures Home(db.arms, arms, id) == Home(next.arms, arms[1..], id)
      {
        if id != arms[0].id {
          HomeFrame(db.arms, next.arms, arms[1..], id);
        }
      }
    }
  }

  /**
   Exactly when the mirror of the arms is right: after an upsert the experiment's local arms are those
   of the record if and only if each listed arm belongs to the experiment, by the row it already has
   or else by its first insert.
   */
  lemma ArmsMirroredExactlyWhen(db: Db, rec: Record<Body>, out: Db)
    requires UpsertExperiment(db, rec) == Some(out)
    ensures LocalArms(out, rec.id).Keys == ArmIds(rec.body.arms)
       <==> forall arm <- rec.body.arms :: Home(db.arms, rec.body.arms, arm.id) == Some(rec.id)
    ensures LocalArms(out, rec.id).Keys <= ArmIds(rec.body.arms)
  {
    var arms := rec.body.arms;
    var mid := UpsertArms(UpsertRow(db, rec), arms).value;
    UpsertArmsHomes(UpsertRow(db, rec), arms, mid);
    forall id | id in ArmIds(arms)
      ensures id in LocalArms(out, rec.id) <==> Home(db.arms, arms, id) == Some(rec.id)
    {
    }
    if LocalArms(out, rec.id).Keys == ArmIds(arms) {
      forall arm | arm in arms
        ensures Home(db.arms, arms, arm.id) == Some(rec.id)
      {
        assert arm.id in ArmIds(arms);
      }
    }
  }

  // ---- The mirror under stable ownership --------------------------------------------------------

  /** Butler's arms keep their experiment: `owner` assigns each arm id one experiment for good. */
  ghost predicate Owned(rec: Record<Body>, owner: nat -> nat) {
    && (forall arm <- rec.body.arms :: arm.experiment == rec.id && owner(arm.id) == rec.id)
    && (forall i, j :: 0 <= i < j < |rec.body.arms| ==> rec.body.arms[i].id != rec.body.arms[j].id)
  }

  ghost predicate ArmsOwned(db: Db, owner: nat -> nat) {
    forall id <- db.arms.Keys :: db.arms[id].id == id && db.arms[id].experiment == owner(id)
  }

  ghost predicate Lists(local: map<nat, Arm>, arms: seq<Arm>) {
    local.Keys == ArmIds(arms) && forall arm <- arms :: arm.id in local && local[arm.id] == arm
  }

  /** Row and arms show version `rec`; the organisation is that of the first version. */
  ghost predicate Shows(db: Db, rec: Record<Body>) {
    && rec.id in db.experiments
    && db.experiments[rec.id] == Row(db.experiments[rec.id].org, rec.body.status, rec.body.apiKey, rec.body.filters,
                                     rec.body.stickyKey, rec.body.starts, rec.body.ends, rec.at)
    && Lists(LocalArms(db, rec.id), rec.body.arms)
  }

  lemma {:induction false} OwnedArmsUpsert(db: Db, arms: seq<Arm>, e: nat, owner: nat -> nat)
    requires ArmsOwned(db, owner) && e in db.experiments
    requires forall arm <- arms :: arm.experiment == e && owner(arm.id) == e
    requires forall i, j :: 0 <= i < j < |arms| ==> arms[i].id != arms[j].id
    ensures UpsertArms(db, arms).Some?
    ensures var out := UpsertArms(db, arms).value;
      && out.experiments == db.experiments && ArmsOwned(out, owner)
      && out.arms.Keys == db.arms.Keys + ArmIds(arms)
      && (forall arm <- arms :: out.arms[arm.id] == arm)
      && (forall id <- db.arms.Keys :: id !in ArmIds(arms) ==> out.arms[id] == db.arms[id])
    decreases |arms|
  {
    if arms == [] {
    } else {
      assert arms[0] in arms;
      OwnedArmUpsert(db, arms[0], e, owner);
      OwnedArmsUpsert(UpsertArm(db, arms[0]).value, arms[1..], e, owner);
      assert ArmIds(arms) == {arms[0].id} + ArmIds(arms[1..]);
      assert arms[0].id !in ArmIds(arms[1..]);
    }
  }

  lemma OwnedArmUpsert(db: Db, arm: Arm, e: nat, owner: nat -> nat)
    requires ArmsOwned(db, owner) && e in db.experiments && arm.experiment == e && owner(arm.id) == e
    ensures UpsertArm(db, arm).Some?
    ensures var out := UpsertArm(db, arm).value;
      && out.experiments == db.experiments && ArmsOwned(out, owner) && out.arms == db.arms[arm.id := arm]
  {
  }

  /** Deleting the orphans of `e` leaves its listed arms and every other experiment's arms. */
  lemma OrphansOnly(db: Db, e: nat, arms: seq<Arm>)
    requires forall arm <- arms :: arm.id in db.arms && db.arms[arm.id] == arm && arm.experiment == e
    ensures var out := DeleteOrphans(db, e, ArmIds(arms));
      && Lists(LocalArms(out, e), arms)
      && (forall f :: f != e ==> LocalArms(out, f) == LocalArms(db, f))
  {
    var out := DeleteOrphans(db, e, ArmIds(arms));
    assert forall arm <- arms :: arm.id in ArmIds(arms);
    assert LocalArms(out, e).Keys == ArmIds(arms);
  }

  lemma OthersUntouched(db: Db, mid: Db, arms: seq<Arm>, e: nat, f: nat, owner: nat -> nat)
    requires ArmsOwned(db, owner) && ArmsOwned(mid, owner) && e != f
    requires mid.arms.Keys == db.arms.Keys + ArmIds(arms) && forall arm <- arms :: owner(arm.id) == e
    requires forall id <- db.arms.Keys :: id !in ArmIds(arms) ==> mid.arms[id] == db.arms[id]
    ensures LocalArms(mid, f) == LocalArms(db, f)
  {
    assert forall id <- ArmIds(arms) :: owner(id) == e;
  }

  /** An upsert of an owned record never fails on the foreign key, shows the record and touches no other experiment. */
  lemma UpsertShows(db: Db, rec: Record<Body>, owner: nat -> nat)
    requires ArmsOwned(db, owner) && Owned(rec, owner)
    ensures UpsertExperiment(db, rec).Some?
    ensures var out := UpsertExperiment(db, rec).value;
      && ArmsOwned(out, owner) && Shows(out, rec)
      && (forall arm <- rec.body.arms :: arm.id in out.arms && out.arms[arm.id] == arm)
      && (forall id <- out.arms :: out.arms[id].experiment == rec.id ==> id in ArmIds(rec.body.arms))
      && (forall e <- db.experiments.Keys :: e != rec.id ==>
            e in out.experiments && out.experiments[e] == db.experiments[e] && LocalArms(out, e) == LocalArms(db, e))
  {
    var arms := rec.body.arms;
    var row := UpsertRow(db, rec);
    OwnedArmsUpsert(row, arms, rec.id, owner);
    var mid := UpsertArms(row, arms).value;
    assert forall arm <- arms :: arm.id in ArmIds(arms);
    OrphansOnly(mid, rec.id, arms);
    assert row.arms == db.arms;
    forall e | e in db.experiments && e != rec.id
      ensures LocalArms(mid, e) == LocalArms(db, e)
    {
      OthersUntouched(db, mid, arms, rec.id, e, owner);
    }
  }

  /** An upsert leaves the organisation of a row; a new row gets that of the record. */
  lemma UpsertKeepsOrg(db: Db, rec: Record<Body>)
    requires UpsertExperiment(db, rec).Some?
    ensures var after := UpsertExperiment(db, rec).value.experiments;
      && after.Keys == db.experiments.Keys + {rec.id}
      && (forall e <- db.experiments :: after[e].org == db.experiments[e].org)
      && (rec.id !in db.experiments ==> after[rec.id].org == rec.body.org)
  {
    UpsertArmsHomes(UpsertRow(db, rec), rec.body.arms, UpsertArms(UpsertRow(db, rec), rec.body.arms).value);
  }

  /** After the first `n` records: rows keep their organisation, and a new one has that of its first record. */
  ghost predicate OrgsKept(before: map<nat, Row>, records: seq<Record<Body>>, n: nat, after: map<nat, Row>)
    requires n <= |records|
  {
    && (forall e <- before :: e in after && after[e].org == before[e].org)
    && (forall i :: 0 <= i < n ==> records[i].id in after)
    && forall e <- after :: e !in before ==> OrgOfFirst(records, n, e, after[e].org)
  }

  ghost predicate OrgOfFirst(records: seq<Record<Body>>, n: nat, e: nat, org: nat)
    requires n <= |records|
  {
    exists i :: IsFirstOf(records, i, n, e) && org == records[i].body.org
  }

  ghost predicate IsFirstOf(records: seq<Record<Body>>, i: int, n: nat, e: nat)
    requires n <= |records|
  {
    0 <= i < n && records[i].id == e && forall j :: 0 <= j < i ==> records[j].id != e
  }

  lemma NextOrgKept(before: map<nat, Row>, records: seq<Record<Body>>, n: nat, rows: map<nat, Row>,
                    after: map<nat, Row>)
    requires n < |records| && OrgsKept(before, records, n, rows)
    requires after.Keys == rows.Keys + {records[n].id}
    requires forall e <- rows :: after[e].org == rows[e].org
    requires records[n].id !in rows ==> after[records[n].id].org == records[n].body.org
    ensures OrgsKept(before, records, n + 1, after)
  {
    assert forall i :: 0 <= i < n ==> records[i].id in rows && records[i].id in after;
    forall e | e in after && e !in before
      ensures OrgOfFirst(records, n + 1, e, after[e].org)
    {
      assert e in rows || e == records[n].id;
      if e in rows {
        var i :| IsFirstOf(records, i, n, e) && rows[e].org == records[i].body.org;
        assert IsFirstOf(records, i, n + 1, e);
      } else {
        assert IsFirstOf(records, n, n + 1, e);
      }
    }
  }

  class Store {
    var db: Db
    ghost const owner: nat -> nat
    ghost var versions: Table<Body>

    ghost predicate Valid()
      reads this
    {
      && ArmsOwned(db, owner)
      && forall e <- versions.Keys :: versions[e].id == e && Shows(db, versions[e])
    }

    constructor (ghost owner: nat -> nat)
      ensures Valid() && this.owner == owner && versions == map[] && db == Db(map[], map[])
    {
      this.owner := owner;
      db := Db(map[], map[]);
      versions := map[];
    }

    /** Record `i` of a transaction over `tx`. */
    method UpsertNext(tx: Db, records: seq<Record<Body>>, i: nat, ghost shown: Table<Body>)
      returns (next: Db, ghost shown': Table<Body>)
      requires i < |records| && Owned(records[i], owner) && ArmsOwned(tx, owner)
      requires OrgsKept(db.experiments, records, i, tx.experiments)
      requires forall e <- shown.Keys :: shown[e].id == e && Shows(tx, shown[e])
      ensures ArmsOwned(next, owner) && OrgsKept(db.experiments, records, i + 1, next.experiments)
      ensures shown' == shown[records[i].id := records[i]]
      ensures forall e <- shown'.Keys :: shown'[e].id == e && Shows(next, shown'[e])
    {
      var rec := records[i];
      UpsertShows(tx, rec, owner);
      UpsertKeepsOrg(tx, rec);
      next := UpsertExperiment(tx, rec).value;
      NextOrgKept(db.experiments, records, i, tx.experiments, next.experiments);
      shown' := shown[rec.id := rec];
    }

    /** All records or none; the protocol step `UpsertBatch`. */
    method UpsertExperiments(records: seq<Record<Body>>, ghost s: State<Body>)
      returns (out: Outcome, ghost t: State<Body>)
      requires Valid() && forall rec <- records :: Owned(rec, owner)
      requires s.phase.Applying? && s.phase.rest == records && s.local == versions
      modifies this
      ensures Valid()
      ensures Step(s, UpsertBatch(out)) == Some(t) && t.local == versions
      ensures !TookEffect(out) ==> db == old(db)
      ensures TookEffect(out) ==> versions == Upsert(old(versions), records)
      ensures TookEffect(out) ==> OrgsKept(old(db).experiments, records, |records|, db.experiments)
    {
      var tx := db;
      ghost var shown := versions;
      t := s;
      if |records| == 0 {
        t := t.(phase := Applying(s.phase.next, []));
        return Success, t;
      }
      for i := 0 to |records|
        invariant db == old(db) && versions == old(versions)
        invariant ArmsOwned(tx, owner)
        invariant OrgsKept(db.experiments, records, i, tx.experiments)
        invariant forall e <- shown.Keys :: shown[e].id == e && Shows(tx, shown[e])
        invariant Upsert(shown, records[i..]) == Upsert(versions, records)
      {
        var failed: bool := *;
        if failed {
          t := s.(phase := Idle);
          return Failure(false), t;
        }
        assert records[i..][1..] == records[i + 1..];
        tx, shown := UpsertNext(tx, records, i, shown);
      }
      out := AnyOutcome();
      if TookEffect(out) {
        db := tx;
        versions := shown;
      }
      t := Step(s, UpsertBatch(out)).value;
    }
  }
}
