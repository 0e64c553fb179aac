/**
 Downward mirroring by cursor: pages of records changed strictly after a watermark are collected,
 upserted in order, and only then the watermark moves. The same protocol serves API keys (row by row)
 and experiments (one transaction). Butler may write between any two steps, and every request, row
 upsert and commit may fail.

 `local` maps each id to the version of the record that was last upserted.

 Named assumption on Butler (its code is not part of this model), `ButlerContract`: a record is never
 deleted, no two records carry the same `updated_at`, and every write is stamped later than all
 earlier ones. A page is the first `PAGE_LIMIT` records strictly after the cursor, in order.
 */
module CursorSync {
  import Runs
  import opened Wrappers
  import opened Pages

  const PAGE_LIMIT: nat := 200

  datatype Record<T> = Record(id: nat, at: int, body: T)

  type Table<T> = map<nat, Record<T>>

  datatype Phase<T> =
    | Idle
    | Fetching(cur: int, all: seq<Record<T>>)
    | Applying(next: int, rest: seq<Record<T>>)

  datatype State<T> = State(
    butler: Table<T>,
    latest: int,            // Butler's newest stamp
    local: Table<T>,
    cursor: int,
    phase: Phase<T>)

  datatype Action<T> =
    | ButlerWrite(r: Record<T>)
    | Start
    | FetchPage(page: seq<nat>)
    | FetchFails
    | UpsertRow(out: Outcome)
    | UpsertBatch(out: Outcome)
    | Advance
    | Restart

  function Stamps<T>(butler: Table<T>): map<nat, int> {
    map id <- butler.Keys :: butler[id].at
  }

  /** Butler's records changed strictly after `cur`. */
  function After<T>(butler: Table<T>, cur: int): set<nat> {
    set id <- butler.Keys | butler[id].at > cur
  }

  function Records<T>(butler: Table<T>, page: seq<nat>): seq<Record<T>>
    requires forall id <- page :: id in butler
  {
    seq(|page|, i requires 0 <= i < |page| => butler[page[i]])
  }

  /** The newest stamp of the page, or the cursor if none is newer. */
  function Raise<T>(cur: int, rs: seq<Record<T>>): int {
    if rs == [] then cur else Max(Raise(cur, rs[..|rs| - 1]), rs[|rs| - 1].at)
  }

  function Upsert<T>(local: Table<T>, rs: seq<Record<T>>): Table<T>
    decreases |rs|
  {
    if rs == [] then local else Upsert(local[rs[0].id := rs[0]], rs[1..])
  }

  ghost function Step<T>(s: State<T>, a: Action<T>): Option<State<T>> {
    match a
    case ButlerWrite(r) =>
      if r.at > s.latest then Some(s.(butler := s.butler[r.id := r], latest := r.at)) else None
    case Start =>
      if s.phase.Idle? then Some(s.(phase := Fetching(s.cursor, []))) else None
    case FetchPage(page) =>
      if s.phase.Fetching? && IsPage(page, After(s.butler, s.phase.cur), Stamps(s.butler), PAGE_LIMIT) then
        Some(s.(phase := NextPhase(s.phase, Records(s.butler, page))))
      else None
    case FetchFails =>
      if s.phase.Fetching? then Some(s.(phase := Idle)) else None
    case UpsertRow(out) =>
      if s.phase.Applying? && s.phase.rest != [] then
        var r := s.phase.rest[0];
        Some(s.(local := if TookEffect(out) then s.local[r.id := r] else s.local,
                phase := if out.Success? then Applying(s.phase.next, s.phase.rest[1..]) else Idle))
      else None
    case UpsertBatch(out) =>
      if s.phase.Applying? then
        Some(s.(local := if TookEffect(out) then Upsert(s.local, s.phase.rest) else s.local,
                phase := if out.Success? then Applying(s.phase.next, []) else Idle))
      else None
    case Advance =>
      if s.phase.Applying? && s.phase.rest == [] then Some(s.(cursor := s.phase.next, phase := Idle)) else None
    case Restart => Some(s.(cursor := 0, phase := Idle))
  }

  /** A full page asks for the next one; a short one ends the fetch, with nothing to do if all pages were empty. */
  function NextPhase<T>(phase: Phase<T>, rs: seq<Record<T>>): Phase<T>
    requires phase.Fetching?
  {
    var all, cur := phase.all + rs, Raise(phase.cur, rs);
    if |rs| >= PAGE_LIMIT then Fetching(cur, all)
    else if all == [] then Idle
    else Applying(cur, all)
  }

  ghost function Exec<T>(s: State<T>, actions: seq<Action<T>>): Option<State<T>> {
    Runs.Exec(Step<T>, s, actions)
  }

  // ---- Facts about pages and upserts ------------------------------------------------------------

  lemma {:induction false} RaiseBounds<T>(cur: int, rs: seq<Record<T>>)
    ensures cur <= Raise(cur, rs)
    ensures forall r <- rs :: r.at <= Raise(cur, rs)
    ensures Raise(cur, rs) == cur || exists r <- rs :: r.at == Raise(cur, rs)
    decreases |rs|
  {
    if rs == [] {
    } else {
      var front, last := rs[..|rs| - 1], rs[|rs| - 1];
      RaiseBounds(cur, front);
      assert rs == front + [last];
      assert last in rs;
    }
  }

  /** An upsert leaves other ids alone. */
  lemma {:induction false} UpsertLeaves<T>(local: Table<T>, rs: seq<Record<T>>, id: nat)
    requires forall r <- rs :: r.id != id
    ensures id in Upsert(local, rs) <==> id in local
    ensures id in local ==> Upsert(local, rs)[id] == local[id]
    decreases |rs|
  {
    if rs == [] {
    } else {
      assert rs[0] in rs;
      UpsertLeaves(local[rs[0].id := rs[0]], rs[1..], id);
    }
  }

  lemma {:induction false} UpsertAppend<T>(local: Table<T>, xs: seq<Record<T>>, ys: seq<Record<T>>)
    ensures Upsert(local, xs + ys) == Upsert(Upsert(local, xs), ys)
    decreases |xs|
  {
    if xs == [] {
      assert xs + ys == ys;
    } else {
      assert (xs + ys)[1..] == xs[1..] + ys;
      UpsertAppend(local[xs[0].id := xs[0]], xs[1..], ys);
    }
  }

  /** Records with distinct ids are all held after their upsert. */
  lemma {:induction false} UpsertHolds<T>(local: Table<T>, rs: seq<Record<T>>, k: nat)
    requires k < |rs| && forall j :: k < j < |rs| ==> rs[j].id != rs[k].id
    ensures rs[k].id in Upsert(local, rs) && Upsert(local, rs)[rs[k].id] == rs[k]
    decreases |rs|
  {
    var next := local[rs[0].id := rs[0]];
    if k > 0 {
      UpsertHolds(next, rs[1..], k - 1);
    } else {
      UpsertLeaves(next, rs[1..], rs[0].id);
    }
  }

  // ---- The invariant ----------------------------------------------------------------------------

  ghost predicate ButlerContract<T>(butler: Table<T>, latest: int) {
    && (forall id <- butler.Keys :: butler[id].id == id && 0 < butler[id].at <= latest)
    && (forall i, j :: i in butler && j in butler && i != j ==> butler[i].at != butler[j].at)
  }

  /** Every record of Butler up to `upto` is held in that very version. */
  ghost predicate Mirrors<T>(local: Table<T>, butler: Table<T>, upto: int) {
    forall id <- butler.Keys :: butler[id].at <= upto ==> id in local && local[id] == butler[id]
  }

  /** Collected records are versions Butler has or has replaced since, all newer than the cursor. */
  ghost predicate Versions<T>(rs: seq<Record<T>>, butler: Table<T>, cursor: int) {
    forall r <- rs :: r.id in butler && cursor < r.at <= butler[r.id].at
  }

  ghost predicate PhaseOk<T>(s: State<T>) {
    match s.phase
    case Idle => true
    case Fetching(cur, all) =>
      s.cursor <= cur <= s.latest && Versions(all, s.butler, s.cursor) && Mirrors(Upsert(s.local, all), s.butler, cur)
    case Applying(next, rest) =>
      s.cursor <= next <= s.latest && Versions(rest, s.butler, s.cursor)
      && Mirrors(Upsert(s.local, rest), s.butler, next)
  }

  ghost predicate Inv<T>(s: State<T>) {
    && ButlerContract(s.butler, s.latest)
    && 0 <= s.cursor <= s.latest
    && Mirrors(s.local, s.butler, s.cursor)
    && PhaseOk(s)
  }

  /** Between a page's lowest and highest stamp Butler has only the page. */
  lemma PageIsInterval<T>(butler: Table<T>, latest: int, cur: int, page: seq<nat>, id: nat)
    requires ButlerContract(butler, latest)
    requires IsPage(page, After(butler, cur), Stamps(butler), PAGE_LIMIT)
    requires id in butler
    ensures cur < butler[id].at <= Raise(cur, Records(butler, page)) <==> id in page
  {
    if id in page {
      var i :| 0 <= i < |page| && page[i] == id;
      RaiseBounds(cur, Records(butler, page));
      assert Records(butler, page)[i] in Records(butler, page);
      assert id in After(butler, cur);
    } else if cur < butler[id].at {
      PageIsBelow(butler, latest, cur, page, id);
    }
  }

  lemma PageIsBelow<T>(butler: Table<T>, latest: int, cur: int, page: seq<nat>, id: nat)
    requires ButlerContract(butler, latest)
    requires IsPage(page, After(butler, cur), Stamps(butler), PAGE_LIMIT)
    requires id in butler && id !in page && cur < butler[id].at
    ensures Raise(cur, Records(butler, page)) < butler[id].at
  {
    var rs := Records(butler, page);
    RaiseBounds(cur, rs);
    assert id in After(butler, cur);
    forall r | r in rs
      ensures r.at < butler[id].at
    {
      var i :| 0 <= i < |page| && rs[i] == r;
      assert page[i] in page && Stamps(butler)[page[i]] <= Stamps(butler)[id];
    }
  }

  lemma RaiseWithin<T>(butler: Table<T>, latest: int, cur: int, page: seq<nat>)
    requires ButlerContract(butler, latest) && cur <= latest
    requires forall id <- page :: id in butler
    ensures cur <= Raise(cur, Records(butler, page)) <= latest
  {
    RaiseBounds(cur, Records(butler, page));
  }

  lemma PageTakesItsOwn<T>(butler: Table<T>, latest: int, cur: int, page: seq<nat>)
    requires ButlerContract(butler, latest)
    requires IsPage(page, After(butler, cur), Stamps(butler), PAGE_LIMIT)
    ensures After(butler, Raise(cur, Records(butler, page))) == After(butler, cur) - Elements(page)
  {
    var next := Raise(cur, Records(butler, page));
    RaiseBounds(cur, Records(butler, page));
    forall id | id in butler
      ensures id in After(butler, next) <==> id in After(butler, cur) && id !in Elements(page)
    {
      PageIsInterval(butler, latest, cur, page, id);
    }
  }

  /**
   Termination of the fetch loop: while Butler does not write, each page removes exactly its own
   records from what lies after the cursor, and after a short page nothing does.
   */
  lemma PageShrinksRest<T>(butler: Table<T>, latest: int, cur: int, page: seq<nat>)
    requires ButlerContract(butler, latest)
    requires IsPage(page, After(butler, cur), Stamps(butler), PAGE_LIMIT)
    ensures var next := Raise(cur, Records(butler, page));
      && After(butler, next) == After(butler, cur) - Elements(page)
      && |After(butler, next)| == |After(butler, cur)| - |page|
      && (|page| < PAGE_LIMIT ==> After(butler, next) == {})
  {
    PageTakesItsOwn(butler, latest, cur, page);
    ShortPageIsAll(page, After(butler, cur), Stamps(butler), PAGE_LIMIT);
  }

  lemma PageVersions<T>(butler: Table<T>, latest: int, cursor: int, cur: int, all: seq<Record<T>>, page: seq<nat>)
    requires ButlerContract(butler, latest) && cursor <= cur && Versions(all, butler, cursor)
    requires forall id <- page :: id in butler && cur < butler[id].at
    ensures Versions(all + Records(butler, page), butler, cursor)
  {
    var rs := Records(butler, page);
    forall r | r in all + rs
      ensures r.id in butler && cursor < r.at <= butler[r.id].at
    {
      if r !in all {
        var i :| 0 <= i < |page| && rs[i] == r;
        assert page[i] in page;
      }
    }
  }

  lemma PageHolds<T>(local: Table<T>, butler: Table<T>, page: seq<nat>, id: nat)
    requires Distinct(page) && (forall x <- page :: x in butler && butler[x].id == x) && id in butler
    ensures id in page ==>
      id in Upsert(local, Records(butler, page)) && Upsert(local, Records(butler, page))[id] == butler[id]
    ensures id !in page && id in local ==>
      id in Upsert(local, Records(butler, page)) && Upsert(local, Records(butler, page))[id] == local[id]
  {
    var rs := Records(butler, page);
    assert forall i :: 0 <= i < |page| ==> page[i] in page && rs[i].id == page[i];
    if id in page {
      var k :| 0 <= k < |page| && page[k] == id;
      UpsertHolds(local, rs, k);
    } else {
      UpsertLeaves(local, rs, id);
    }
  }

  lemma PageMirrors<T>(local: Table<T>, butler: Table<T>, latest: int, cur: int, all: seq<Record<T>>, page: seq<nat>)
    requires ButlerContract(butler, latest) && Mirrors(Upsert(local, all), butler, cur)
    requires IsPage(page, After(butler, cur), Stamps(butler), PAGE_LIMIT)
    ensures Mirrors(Upsert(local, all + Records(butler, page)), butler, Raise(cur, Records(butler, page)))
  {
    var rs := Records(butler, page);
    UpsertAppend(local, all, rs);
    forall id | id in butler && butler[id].at <= Raise(cur, rs)
      ensures id in Upsert(local, all + rs) && Upsert(local, all + rs)[id] == butler[id]
    {
      PageIsInterval(butler, latest, cur, page, id);
      PageHolds(Upsert(local, all), butler, page, id);
    }
  }

  lemma FetchPageKeeps<T>(s: State<T>, page: seq<nat>, t: State<T>)
    requires Inv(s) && Step(s, FetchPage(page)) == Some(t)
    ensures Inv(t)
  {
    PageVersions(s.butler, s.latest, s.cursor, s.phase.cur, s.phase.all, page);
    PageMirrors(s.local, s.butler, s.latest, s.phase.cur, s.phase.all, page);
    RaiseWithin(s.butler, s.latest, s.phase.cur, page);
  }

  /** A write stamped after `upto` leaves the mirror up to there alone. */
  lemma MirrorsAfterWrite<T>(local: Table<T>, butler: Table<T>, upto: int, r: Record<T>)
    requires Mirrors(local, butler, upto) && upto < r.at
    ensures Mirrors(local, butler[r.id := r], upto)
  {
  }

  /** Whatever Butler writes lies after the cursor, so that a later page returns it. */
  lemma WritesLieAfterTheCursor<T>(s: State<T>, r: Record<T>, t: State<T>)
    requires Inv(s) && Step(s, ButlerWrite(r)) == Some(t)
    ensures r.id in After(t.butler, t.cursor) && t.butler[r.id] == r
    ensures forall id <- s.butler :: id != r.id ==> id in t.butler && t.butler[id] == s.butler[id]
  {
  }

  lemma ButlerWriteKeeps<T>(s: State<T>, r: Record<T>, t: State<T>)
    requires Inv(s) && Step(s, ButlerWrite(r)) == Some(t)
    ensures Inv(t)
  {
    MirrorsAfterWrite(s.local, s.butler, s.cursor, r);
    match s.phase
    case Idle =>
    case Fetching(cur, all) => MirrorsAfterWrite(Upsert(s.local, all), s.butler, cur, r);
    case Applying(next, rest) => MirrorsAfterWrite(Upsert(s.local, rest), s.butler, next, r);
  }

  lemma UpsertKeeps<T>(s: State<T>, a: Action<T>, t: State<T>)
    requires a.UpsertRow? || a.UpsertBatch?
    requires Inv(s) && Step(s, a) == Some(t)
    ensures Inv(t)
  {
    if a.UpsertRow? {
      assert s.phase.rest[0] in s.phase.rest;
      assert forall r <- s.phase.rest[1..] :: r in s.phase.rest;
    } else {
      assert Upsert(t.local, []) == t.local;
    }
  }

  lemma StepKeeps<T>(s: State<T>, a: Action<T>, t: State<T>)
    requires Inv(s) && Step(s, a) == Some(t)
    ensures Inv(t)
    ensures !a.Restart? ==> s.cursor <= t.cursor
  {
    match a
    case ButlerWrite(r) => ButlerWriteKeeps(s, r, t);
    case FetchPage(page) => FetchPageKeeps(s, page, t);
    case UpsertRow(_) => UpsertKeeps(s, a, t);
    case UpsertBatch(_) => UpsertKeeps(s, a, t);
    case _ =>
  }

  // ---- Main results -----------------------------------------------------------------------------

  /** A fresh process: cursor zero, whatever rows an earlier process left behind. */
  ghost predicate Init<T>(s: State<T>) {
    ButlerContract(s.butler, s.latest) && s.latest >= 0 && s.cursor == 0 && s.phase.Idle?
  }

  /**
   Main result. However syncs, failures, restarts and Butler's own writes interleave, every record of
   Butler up to the cursor is held locally in Butler's current version.
   */
  lemma MirrorInEveryRun<T>(s0: State<T>, actions: seq<Action<T>>, s: State<T>)
    requires Init(s0) && Exec(s0, actions) == Some(s)
    ensures Inv(s) && Mirrors(s.local, s.butler, s.cursor)
  {
    RunKeeps(s0, actions, s);
  }

  lemma {:induction false} RunKeeps<T>(s: State<T>, actions: seq<Action<T>>, t: State<T>)
    requires Inv(s) && Exec(s, actions) == Some(t)
    ensures Inv(t)
    decreases |actions|
  {
    if actions == [] {
    } else {
      var n := |actions| - 1;
      RunKeeps(s, actions[..n], Exec(s, actions[..n]).value);
      StepKeeps(Exec(s, actions[..n]).value, actions[n], t);
    }
  }

  /** Only a restart of the process takes the cursor back. */
  lemma {:induction false} CursorNeverDecreases<T>(s: State<T>, actions: seq<Action<T>>, t: State<T>)
    requires Inv(s) && Exec(s, actions) == Some(t)
    requires forall a <- actions :: !a.Restart?
    ensures Inv(t) && s.cursor <= t.cursor
    decreases |actions|
  {
    if actions == [] {
    } else {
      var n := |actions| - 1;
      var before := Exec(s, actions[..n]).value;
      CursorNeverDecreases(s, actions[..n], before);
      StepKeeps(before, actions[n], t);
    }
  }

  /** An undisturbed sync that ends well has mirrored Butler completely. */
  lemma CompleteAfterShortPage<T>(s: State<T>, page: seq<nat>, t: State<T>)
    requires Inv(s) && Step(s, FetchPage(page)) == Some(t) && |page| < PAGE_LIMIT
    ensures t.phase.Idle? ==> Mirrors(t.local, t.butler, t.latest)
    ensures t.phase.Applying? ==> Mirrors(Upsert(t.local, t.phase.rest), t.butler, t.latest)
  {
    FetchPageKeeps(s, page, t);
    PageMirrors(s.local, s.butler, s.latest, s.phase.cur, s.phase.all, page);
    PageShrinksRest(s.butler, s.latest, s.phase.cur, page);
    var next := Raise(s.phase.cur, Records(s.butler, page));
    assert forall id <- s.butler.Keys :: id !in After(s.butler, next);
  }

  /** Everything a fetch loop needs to know about one page. */
  lemma PageTurn<T>(s: State<T>, ids: seq<nat>, rs: seq<Record<T>>) returns (t: State<T>)
    requires Inv(s) && s.phase.Fetching?
    requires IsPage(ids, After(s.butler, s.phase.cur), Stamps(s.butler), PAGE_LIMIT) && rs == Records(s.butler, ids)
    ensures Step(s, FetchPage(ids)) == Some(t) && Inv(t)
    ensures t == s.(phase := NextPhase(s.phase, rs))
    ensures |rs| >= PAGE_LIMIT ==> |After(s.butler, Raise(s.phase.cur, rs))| < |After(s.butler, s.phase.cur)|
    ensures |rs| < PAGE_LIMIT ==> Mirrors(Upsert(s.local, s.phase.all + rs), s.butler, s.latest)
  {
    t := s.(phase := NextPhase(s.phase, rs));
    FetchPageKeeps(s, ids, t);
    PageShrinksRest(s.butler, s.latest, s.phase.cur, ids);
    if |rs| < PAGE_LIMIT {
      CompleteAfterShortPage(s, ids, t);
    }
  }

  lemma StartRuns<T>(s: State<T>) returns (t: State<T>)
    requires Inv(s) && s.phase.Idle?
    ensures t == s.(phase := Fetching(s.cursor, [])) && Exec(s, [] + [Start]) == Some(t) && Inv(t)
  {
    t := s.(phase := Fetching(s.cursor, []));
    assert Upsert(s.local, []) == s.local;
    Runs.ExecOne(Step<T>, s, [], s, Start, t);
  }

  lemma AdvanceRuns<T>(s: State<T>, trace: seq<Action<T>>, m: State<T>) returns (t: State<T>)
    requires Exec(s, trace) == Some(m) && Inv(m) && m.phase.Applying? && m.phase.rest == []
    ensures t == m.(cursor := m.phase.next, phase := Idle) && Inv(t) && Exec(s, trace + [Advance]) == Some(t)
    ensures m.cursor <= t.cursor
  {
    t := m.(cursor := m.phase.next, phase := Idle);
    StepKeeps(m, Advance, t);
    Runs.ExecOne(Step<T>, s, trace, m, Advance, t);
  }

  // ---- Distinct stamps are needed ---------------------------------------------------------------

  /**
   Which records a page loses, whatever the stamps: one that lay after the cursor and is not on the page is
   behind the new cursor exactly when it is tied with the newest record of the page, that is, when a tie
   straddles the page boundary.
   */
  lemma LostExactlyWhenTiedAcrossTheBoundary<T>(butler: Table<T>, cur: int, page: seq<nat>, id: nat)
    requires IsPage(page, After(butler, cur), Stamps(butler), PAGE_LIMIT)
    requires id in After(butler, cur) && id !in page
    ensures id !in After(butler, Raise(cur, Records(butler, page)))
       <==> butler[id].at == Raise(cur, Records(butler, page))
  {
    var rs := Records(butler, page);
    RaiseBounds(cur, rs);
    forall r | r in rs
      ensures r.at <= butler[id].at
    {
      var i :| 0 <= i < |page| && rs[i] == r;
      assert page[i] in page && Stamps(butler)[page[i]] <= Stamps(butler)[id];
    }
  }

  /** `n` records, all with the same stamp. */
  function TiedButler(n: nat): Table<nat> {
    map id <- Below(n) :: Record(id, 1, id)
  }

  /**
   Were two records allowed the same stamp, a page boundary between them would lose one for good: an
   undisturbed sync against more equally stamped records than a page holds advances the cursor past a
   record it never held, and no later page returns it.
   */
  lemma TiesAreLost(n: nat) returns (page: seq<nat>, s: State<nat>, missed: nat)
    requires n > PAGE_LIMIT
    ensures Exec(State(TiedButler(n), 1, map[], 0, Idle),
                 [Start, FetchPage(page), FetchPage([]), UpsertBatch(Success), Advance]) == Some(s)
    ensures s.cursor == 1 && missed in s.butler && missed !in s.local
    ensures After(s.butler, s.cursor) == {}
  {
    var butler := TiedButler(n);
    page, missed := TiedPage(n);
    TiedRecords(n, page, missed);
    var rs := Records(butler, page);
    var s0 := State(butler, 1, map[], 0, Idle);
    s := State(butler, 1, Upsert(s0.local, rs), 1, Idle);
    var s1 := s0.(phase := Fetching(0, []));
    var s2 := s0.(phase := Fetching(1, rs));
    var s3 := s0.(phase := Applying(1, rs));
    var s4 := s0.(local := s.local, phase := Applying(1, []));
    TiedFetch(n, s1, page, s2);
    TiedSecondFetch(n, s2, s3);
    ExecFive(s0, Start, FetchPage(page), FetchPage([]), UpsertBatch(Success), Advance, s1, s2, s3, s4, s);
  }

  lemma AllAreTied(n: nat)
    ensures After(TiedButler(n), 0) == Below(n) == Stamps(TiedButler(n)).Keys
  {
    forall id: nat
      ensures id in After(TiedButler(n), 0) <==> id in Below(n)
    {
    }
  }

  lemma TiedFetch(n: nat, s: State<nat>, page: seq<nat>, t: State<nat>)
    requires s.butler == TiedButler(n) && s.phase == Fetching(0, []) && |page| == PAGE_LIMIT
    requires IsPage(page, After(s.butler, 0), Stamps(s.butler), PAGE_LIMIT)
    requires Raise(0, Records(s.butler, page)) == 1
    requires t == s.(phase := Fetching(1, Records(s.butler, page)))
    ensures Step(s, FetchPage(page)) == Some(t)
  {
    assert [] + Records(s.butler, page) == Records(s.butler, page);
  }

  lemma TiedSecondFetch(n: nat, s: State<nat>, t: State<nat>)
    requires s.butler == TiedButler(n) && s.phase.Fetching? && s.phase.cur == 1 && s.phase.all != []
    requires t == s.(phase := Applying(1, s.phase.all))
    ensures Step(s, FetchPage([])) == Some(t) && After(s.butler, 1) == {}
  {
    assert After(s.butler, 1) == {};
    assert Records(s.butler, []) == [] && s.phase.all + [] == s.phase.all;
  }

  /** The page boundary falls inside the tie. */
  lemma TiedPage(n: nat) returns (page: seq<nat>, missed: nat)
    requires n > PAGE_LIMIT
    ensures IsPage(page, After(TiedButler(n), 0), Stamps(TiedButler(n)), PAGE_LIMIT) && |page| == PAGE_LIMIT
    ensures missed < n && missed !in page && forall id <- page :: id < n
  {
    AllAreTied(n);
    BelowSize(n);
    page := PageExists(After(TiedButler(n), 0), Stamps(TiedButler(n)), PAGE_LIMIT);
    missed := LeftOver(page, n);
  }

  lemma LeftOver(page: seq<nat>, n: nat) returns (missed: nat)
    requires Distinct(page) && |page| < n && forall id <- page :: id in Below(n)
    ensures missed < n && missed !in page
  {
    DistinctCount(page);
    BelowSize(n);
    assert Elements(page) <= Below(n) && Elements(page) != Below(n);
    missed :| missed in Below(n) && missed !in Elements(page);
  }

  lemma TiedRecords(n: nat, page: seq<nat>, missed: nat)
    requires page != [] && missed !in page && forall id <- page :: id < n
    ensures var rs := Records(TiedButler(n), page); Raise(0, rs) == 1 && missed !in Upsert(map[], rs)
  {
    var rs := Records(TiedButler(n), page);
    RaiseBounds(0, rs);
    assert rs[0] in rs && rs[0].at == 1;
    forall r | r in rs
      ensures r.id != missed && r.at == 1
    {
      var i :| 0 <= i < |rs| && rs[i] == r;
      assert page[i] in page && r.id == page[i];
    }
    UpsertLeaves(map[], rs, missed);
  }

  lemma ExecFive<T>(s0: State<T>, a: Action<T>, b: Action<T>, c: Action<T>, d: Action<T>, e: Action<T>,
                    s1: State<T>, s2: State<T>, s3: State<T>, s4: State<T>, s5: State<T>)
    requires Step(s0, a) == Some(s1) && Step(s1, b) == Some(s2) && Step(s2, c) == Some(s3)
    requires Step(s3, d) == Some(s4) && Step(s4, e) == Some(s5)
    ensures Exec(s0, [a, b, c, d, e]) == Some(s5)
  {
    assert [] + [a] == [a] && [a] + [b] == [a, b] && [a, b] + [c] == [a, b, c];
    assert [a, b, c] + [d] == [a, b, c, d] && [a, b, c, d] + [e] == [a, b, c, d, e];
    Runs.ExecSnoc(Step<T>, s0, [], a);
    Runs.ExecSnoc(Step<T>, s0, [a], b);
    Runs.ExecSnoc(Step<T>, s0, [a, b], c);
    Runs.ExecSnoc(Step<T>, s0, [a, b, c], d);
    Runs.ExecSnoc(Step<T>, s0, [a, b, c, d], e);
  }
}
