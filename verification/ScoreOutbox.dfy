/**
 The upward path of eval results with their scores nested: up to 500 unsynced results and then up to 2000
 unsynced scores are fetched, the scores are bucketed under their results, one request carries both,
 and then the results and the scores are marked. Scores whose result is not in the batch wait. The worker
 inserts results and scores, and rewrites scores, at any time in between.
 */
module ScoreOutbox {
  import Runs
  import opened Wrappers
  import opened Pages

  const RESULT_LIMIT: nat := 500
  const SCORE_LIMIT: nat := 4 * RESULT_LIMIT

  datatype Result = Result(createdAt: int, synced: bool)

  /** `content` stands for the score and its reason. */
  datatype Score = Score(result: nat, createdAt: int, content: nat, synced: bool)

  /** One entry of the request: a result id and the ids of the scores sent under it. */
  datatype Payload = Payload(result: nat, scores: seq<nat>)

  // ---- Bucketing --------------------------------------------------------------------------------

  /** The scores of one result, in the order of the page. */
  function ScoresOf(page: seq<nat>, resultOf: map<nat, nat>, r: nat): seq<nat> {
    if page == [] then []
    else
      var rest, last := ScoresOf(page[..|page| - 1], resultOf, r), page[|page| - 1];
      if last in resultOf && resultOf[last] == r then rest + [last] else rest
  }

  method BucketScores(page: seq<nat>, resultOf: map<nat, nat>) returns (buckets: map<nat, seq<nat>>)
    requires forall id <- page :: id in resultOf
    ensures forall r :: (if r in buckets then buckets[r] else []) == ScoresOf(page, resultOf, r)
  {
    buckets := map[];
    for i := 0 to |page|
      invariant forall r :: (if r in buckets then buckets[r] else []) == ScoresOf(page[..i], resultOf, r)
    {
      assert page[..i + 1][..i] == page[..i];
      var r := resultOf[page[i]];
      buckets := buckets[r := (if r in buckets then buckets[r] else []) + [page[i]]];
    }
    assert page[..|page|] == page;
  }

  function SentScores(payloads: seq<Payload>): seq<nat> {
    if payloads == [] then [] else SentScores(payloads[..|payloads| - 1]) + payloads[|payloads| - 1].scores
  }

  lemma SentScoresSnoc(payloads: seq<Payload>, p: Payload)
    ensures SentScores(payloads + [p]) == SentScores(payloads) + p.scores
  {
    assert (payloads + [p])[..|payloads|] == payloads;
  }

  /** Copies one bucket, noting its ids. */
  method Collect(bucket: seq<nat>, ids0: seq<nat>) returns (specs: seq<nat>, ids: seq<nat>)
    ensures specs == bucket && ids == ids0 + bucket
  {
    specs, ids := [], ids0;
    for j := 0 to |bucket|
      invariant specs == bucket[..j] && ids == ids0 + specs
    {
      assert bucket[..j + 1] == bucket[..j] + [bucket[j]];
      specs := specs + [bucket[j]];
      ids := ids + [bucket[j]];
    }
  }

  /** One payload per result, with that result's scores. */
  ghost predicate Bucketed(results: seq<nat>, page: seq<nat>, resultOf: map<nat, nat>, payloads: seq<Payload>) {
    && |payloads| == |results|
    && forall i :: 0 <= i < |results| ==> payloads[i] == Payload(results[i], ScoresOf(page, resultOf, results[i]))
  }

  /** The loop over the results: one payload each, and the ids of all scores that go along. */
  method BuildPayloads(results: seq<nat>, page: seq<nat>, resultOf: map<nat, nat>)
    returns (payloads: seq<Payload>, resultIds: seq<nat>, syncedScoreIds: seq<nat>)
    requires forall id <- page :: id in resultOf
    ensures Bucketed(results, page, resultOf, payloads)
    ensures resultIds == results && syncedScoreIds == SentScores(payloads)
  {
    var buckets := BucketScores(page, resultOf);
    payloads, resultIds, syncedScoreIds := [], [], [];
    for i := 0 to |results|
      invariant Bucketed(results[..i], page, resultOf, payloads)
      invariant resultIds == results[..i] && syncedScoreIds == SentScores(payloads)
    {
      var bucket := if results[i] in buckets then buckets[results[i]] else [];
      var specs;
      specs, syncedScoreIds := Collect(bucket, syncedScoreIds);
      var payload := Payload(results[i], specs);
      assert results[..i + 1] == results[..i] + [results[i]];
      SentScoresSnoc(payloads, payload);
      BucketedSnoc(results[..i], results[i], page, resultOf, payloads);
      payloads := payloads + [payload];
      resultIds := resultIds + [results[i]];
    }
    assert results[..|results|] == results;
  }

  lemma BucketedSnoc(results: seq<nat>, r: nat, page: seq<nat>, resultOf: map<nat, nat>, payloads: seq<Payload>)
    requires Bucketed(results, page, resultOf, payloads)
    ensures Bucketed(results + [r], page, resultOf, payloads + [Payload(r, ScoresOf(page, resultOf, r))])
  {
  }

  function ResultsIn(payloads: seq<Payload>): set<nat> {
    set p <- payloads :: p.result
  }

  lemma BucketedResults(results: seq<nat>, page: seq<nat>, resultOf: map<nat, nat>, payloads: seq<Payload>)
    requires Bucketed(results, page, resultOf, payloads)
    ensures ResultsIn(payloads) == Elements(results)
  {
    forall r | r in results
      ensures r in ResultsIn(payloads)
    {
      var i :| 0 <= i < |results| && results[i] == r;
      assert payloads[i] in payloads;
    }
  }

  lemma {:induction false} ScoresOfIsFilter(page: seq<nat>, resultOf: map<nat, nat>, r: nat)
    requires Distinct(page) && forall id <- page :: id in resultOf
    ensures Distinct(ScoresOf(page, resultOf, r))
    ensures forall id :: id in ScoresOf(page, resultOf, r) <==> id in page && resultOf[id] == r
    decreases |page|
  {
    if page == [] {
    } else {
      var front, last := page[..|page| - 1], page[|page| - 1];
      assert page == front + [last];
      ScoresOfIsFilter(front, resultOf, r);
    }
  }

  /**
   Bucketing is a partition: of the fetched scores exactly those whose result is in the batch are sent,
   each once and under its own result.
   */
  lemma {:induction false} BucketingIsAPartition(results: seq<nat>, page: seq<nat>, resultOf: map<nat, nat>,
                                                 payloads: seq<Payload>)
    requires Distinct(results) && Distinct(page) && forall id <- page :: id in resultOf
    requires Bucketed(results, page, resultOf, payloads)
    ensures Distinct(SentScores(payloads))
    ensures forall id :: id in SentScores(payloads) <==> id in page && resultOf[id] in results
    ensures forall p, id :: p in payloads && id in p.scores ==> id in resultOf && resultOf[id] == p.result
    decreases |results|
  {
    if results == [] {
    } else {
      var n := |results| - 1;
      assert results == results[..n] + [results[n]];
      BucketingIsAPartition(results[..n], page, resultOf, payloads[..n]);
      ScoresOfIsFilter(page, resultOf, results[n]);
      assert payloads == payloads[..n] + [payloads[n]];
      DistinctAppend(SentScores(payloads[..n]), payloads[n].scores);
    }
  }

  // ---- The outbox -------------------------------------------------------------------------------

  /** What a tick holds between its statements; `sent` has the contents of the scores that go along. */
  datatype Phase =
    | Idle
    | GotResults(rs: seq<nat>)
    | Ready(rs: seq<nat>, sent: map<nat, nat>)
    | Posted(rs: seq<nat>, sent: map<nat, nat>)
    | ResultsMarked(sent: map<nat, nat>)

  datatype State = State(results: map<nat, Result>, scores: map<nat, Score>,
                         butlerResults: set<nat>, butlerScores: map<nat, nat>, phase: Phase)

  datatype Action =
    | AddResult(id: nat, at: int)
    | AddScore(id: nat, result: nat, content: nat, at: int)
    | Rescore(id: nat, content: nat)
    | FetchResults(rs: seq<nat>)
    | FetchScores(ss: seq<nat>)
    | Post(out: Outcome)
    | MarkResults(out: Outcome)
    | MarkScores(out: Outcome)
    | EndTick

  const EMPTY := State(map[], map[], {}, map[], Idle)

  function OpenResults(results: map<nat, Result>): set<nat> {
    set id <- results.Keys | !results[id].synced
  }

  function OpenScores(scores: map<nat, Score>): set<nat> {
    set id <- scores.Keys | !scores[id].synced
  }

  function ResultTimes(results: map<nat, Result>): map<nat, int> {
    map id <- results.Keys :: results[id].createdAt
  }

  function ScoreTimes(scores: map<nat, Score>): map<nat, int> {
    map id <- scores.Keys :: scores[id].createdAt
  }

  /** Of the fetched scores, those whose result is in the batch, with their contents. */
  function Sent(scores: map<nat, Score>, rs: seq<nat>, ss: seq<nat>): map<nat, nat> {
    map id <- scores.Keys | id in ss && scores[id].result in rs :: scores[id].content
  }

  function MarkedResults(results: map<nat, Result>, ids: seq<nat>): map<nat, Result> {
    map id <- results.Keys :: if id in ids then results[id].(synced := true) else results[id]
  }

  function MarkedScores(scores: map<nat, Score>, ids: set<nat>): map<nat, Score> {
    map id <- scores.Keys :: if id in ids then scores[id].(synced := true) else scores[id]
  }

  /** A failed fetch or post ends the tick; a failed mark of the results does not keep the scores from being marked. */
  ghost function Step(s: State, a: Action): Option<State> {
    match a
    case AddResult(id, at) =>
      if id in s.results then None else Some(s.(results := s.results[id := Result(at, false)]))
    case AddScore(id, r, content, at) =>
      if id in s.scores || r !in s.results then None
      else Some(s.(scores := s.scores[id := Score(r, at, content, false)]))
    case Rescore(id, content) =>
      if id !in s.scores then None
      else Some(s.(scores := s.scores[id := s.scores[id].(content := content, synced := false)]))
    case FetchResults(rs) =>
      if s.phase.Idle? && rs != [] && IsPage(rs, OpenResults(s.results), ResultTimes(s.results), RESULT_LIMIT)
      then Some(s.(phase := GotResults(rs))) else None
    case FetchScores(ss) =>
      if s.phase.GotResults? && IsPage(ss, OpenScores(s.scores), ScoreTimes(s.scores), SCORE_LIMIT)
      then Some(s.(phase := Ready(s.phase.rs, Sent(s.scores, s.phase.rs, ss)))) else None
    case Post(out) =>
      if !s.phase.Ready? then None
      else
        var took := TookEffect(out);
        Some(s.(butlerResults := if took then s.butlerResults + Elements(s.phase.rs) else s.butlerResults,
                butlerScores := if took then s.butlerScores + s.phase.sent else s.butlerScores,
                phase := if out.Success? then Posted(s.phase.rs, s.phase.sent) else Idle))
    case MarkResults(out) =>
      if !s.phase.Posted? then None
      else Some(s.(results := if TookEffect(out) then MarkedResults(s.results, s.phase.rs) else s.results,
                   phase := ResultsMarked(s.phase.sent)))
    case MarkScores(out) =>
      if !s.phase.ResultsMarked? then None
      else Some(s.(scores := if TookEffect(out) then MarkedScores(s.scores, s.phase.sent.Keys) else s.scores,
                   phase := Idle))
    case EndTick => Some(s.(phase := Idle))
  }

  ghost function Exec(s: State, actions: seq<Action>): Option<State> {
    Runs.Exec(Step, s, actions)
  }

  function InFlight(phase: Phase): map<nat, nat> {
    if phase.Idle? || phase.GotResults? then map[] else phase.sent
  }

  function InBatch(phase: Phase): seq<nat> {
    if phase.Idle? || phase.ResultsMarked? then [] else phase.rs
  }

  predicate AtButler(phase: Phase) {
    phase.Posted? || phase.ResultsMarked?
  }

  // ---- What is marked has reached Butler --------------------------------------------------------

  ghost predicate Delivered(s: State) {
    && (forall id <- s.results.Keys :: s.results[id].synced ==> id in s.butlerResults)
    && (forall id <- s.scores.Keys :: s.scores[id].synced ==> id in s.butlerScores)
    && (forall id <- s.scores.Keys :: s.scores[id].result in s.results)
  }

  /** What a tick holds. */
  ghost predicate Held(s: State) {
    && (s.phase.GotResults? || s.phase.Ready? || s.phase.Posted? ==> s.phase.rs != [])
    && (forall id <- InBatch(s.phase) ::
          id in s.results && !s.results[id].synced && (AtButler(s.phase) ==> id in s.butlerResults))
    && (forall id <- InFlight(s.phase) :: id in s.scores && (AtButler(s.phase) ==> id in s.butlerScores))
  }

  ghost predicate Inv(s: State) {
    Delivered(s) && Held(s)
  }

  lemma StepKeepsDelivered(s: State, a: Action, t: State)
    requires Inv(s) && Step(s, a) == Some(t)
    ensures Delivered(t)
  {
  }

  lemma StepKeeps(s: State, a: Action, t: State)
    requires Inv(s) && Step(s, a) == Some(t)
    ensures Inv(t)
  {
    StepKeepsDelivered(s, a, t);
    match a
    case FetchResults(rs) => assert forall id <- rs :: id in OpenResults(s.results);
    case _ =>
  }

  lemma {:induction false} RunKeeps(s: State, actions: seq<Action>, t: State)
    requires Inv(s) && Exec(s, actions) == Some(t)
    ensures Inv(t)
    decreases |actions|
  {
    if actions == [] {
    } else {
      var n := |actions| - 1;
      RunKeeps(s, actions[..n], Exec(s, actions[..n]).value);
      StepKeeps(Exec(s, actions[..n]).value, actions[n], t);
    }
  }

  /** In every run, whatever the worker writes in between: some version of every marked score has reached Butler. */
  lemma MarkedIsDelivered(actions: seq<Action>, s: State)
    requires Exec(EMPTY, actions) == Some(s)
    ensures forall id <- s.results.Keys :: s.results[id].synced ==> id in s.butlerResults
    ensures forall id <- s.scores.Keys :: s.scores[id].synced ==> id in s.butlerScores
  {
    RunKeeps(EMPTY, actions, s);
  }

  /** A score the query skips has the same content at Butler as locally. */
  ghost predicate Agreement(s: State) {
    forall id <- s.scores.Keys :: s.scores[id].synced ==>
      id in s.butlerScores && s.butlerScores[id] == s.scores[id].content
  }

  /** The guard the worker could check: a score between its fetch and its mark is not given another content. */
  predicate Guarded(s: State, a: Action) {
    a.Rescore? && a.id in InFlight(s.phase) ==> a.content == InFlight(s.phase)[a.id]
  }

  ghost predicate GuardedInv(s: State) {
    && Agreement(s)
    && (forall id <- InFlight(s.phase) :: id in s.scores && s.scores[id].content == InFlight(s.phase)[id])
    && (AtButler(s.phase) ==>
          forall id <- InFlight(s.phase) :: id in s.butlerScores && s.butlerScores[id] == InFlight(s.phase)[id])
  }

  lemma WritesKeepAgreement(s: State, a: Action, t: State)
    requires a.AddResult? || a.AddScore? || a.Rescore?
    requires GuardedInv(s) && Guarded(s, a) && Step(s, a) == Some(t)
    ensures GuardedInv(t)
  {
  }

  lemma PostKeepsAgreement(s: State, a: Action, t: State)
    requires a.Post? && GuardedInv(s) && Step(s, a) == Some(t)
    ensures GuardedInv(t)
  {
    forall id | id in t.scores && t.scores[id].synced
      ensures id in t.butlerScores && t.butlerScores[id] == t.scores[id].content
    {
    }
  }

  lemma StepKeepsAgreement(s: State, a: Action, t: State)
    requires GuardedInv(s) && Guarded(s, a) && Step(s, a) == Some(t)
    ensures GuardedInv(t)
  {
    match a
    case AddResult(_, _) => WritesKeepAgreement(s, a, t);
    case AddScore(_, _, _, _) => WritesKeepAgreement(s, a, t);
    case Rescore(_, _) => WritesKeepAgreement(s, a, t);
    case Post(_) => PostKeepsAgreement(s, a, t);
    case _ =>
  }

  ghost predicate GuardedRun(s: State, actions: seq<Action>) {
    actions != [] ==>
      var n := |actions| - 1;
      GuardedRun(s, actions[..n]) && Exec(s, actions[..n]).Some? && Guarded(Exec(s, actions[..n]).value, actions[n])
  }

  /** Main result: in every run whose writes are guarded, skipped scores agree with Butler. */
  lemma {:induction false} AgreementInGuardedRuns(actions: seq<Action>, s: State)
    requires GuardedRun(EMPTY, actions) && Exec(EMPTY, actions) == Some(s)
    ensures GuardedInv(s) && Agreement(s)
    decreases |actions|
  {
    if actions == [] {
    } else {
      var n := |actions| - 1;
      AgreementInGuardedRuns(actions[..n], Exec(EMPTY, actions[..n]).value);
      StepKeepsAgreement(Exec(EMPTY, actions[..n]).value, actions[n], s);
    }
  }

  /**
   The guard is exact. Behind an unguarded write there is always a run without any further write after which a
   skipped score differs from what Butler has: the tick simply finishes.
   */
  lemma GuardIsExact(s: State, id: nat, content: nat, t: State) returns (rest: seq<Action>, u: State)
    requires GuardedInv(s) && Step(s, Rescore(id, content)) == Some(t)
    ensures Guarded(s, Rescore(id, content)) ==> GuardedInv(t)
    ensures !Guarded(s, Rescore(id, content)) ==>
      Exec(t, rest) == Some(u) && !Agreement(u) && forall a <- rest :: a.Post? || a.MarkResults? || a.MarkScores?
  {
    rest, u := [], t;
    if Guarded(s, Rescore(id, content)) {
      StepKeepsAgreement(s, Rescore(id, content), t);
    } else {
      rest, u := Finish(t);
      assert u.scores[id].synced && u.scores[id].content == content;
    }
  }

  /** The rest of a tick, without failures, from wherever it stands. */
  lemma {:induction false} Finish(s: State) returns (rest: seq<Action>, t: State)
    requires s.phase.Ready? || AtButler(s.phase)
    ensures Exec(s, rest) == Some(t) && t.phase.Idle? && forall a <- rest :: a.Post? || a.MarkResults? || a.MarkScores?
    ensures t.scores == MarkedScores(s.scores, InFlight(s.phase).Keys)
    ensures t.butlerScores == if s.phase.Ready? then s.butlerScores + s.phase.sent else s.butlerScores
    ensures t.results == if s.phase.ResultsMarked? then s.results else MarkedResults(s.results, s.phase.rs)
    decreases if s.phase.Ready? then 2 else if s.phase.Posted? then 1 else 0
  {
    var a := if s.phase.Ready? then Post(Success)
             else if s.phase.Posted? then MarkResults(Success)
             else MarkScores(Success);
    var m := Step(s, a).value;
    if s.phase.ResultsMarked? {
      Runs.ExecOne(Step, s, [], s, a, m);
      rest, t := [] + [a], m;
    } else {
      var more;
      more, t := Finish(m);
      Runs.ExecCons(Step, s, a, m, more);
      rest := [a] + more;
    }
  }

  // ---- Scores that are lost ---------------------------------------------------------------------

  /** The steps of the reporter in a run. */
  ghost function Own(trace: seq<Action>): seq<Action> {
    if trace == [] then []
    else
      var before, last := Own(trace[..|trace| - 1]), trace[|trace| - 1];
      if IsWrite(last) then before else before + [last]
  }

  predicate IsWrite(a: Action) {
    a.AddResult? || a.AddScore? || a.Rescore?
  }

  lemma OwnSnoc(trace: seq<Action>, a: Action)
    ensures Own(trace + [a]) == Own(trace) + if IsWrite(a) then [] else [a]
  {
    assert (trace + [a])[..|trace|] == trace;
  }

  const FINISH := [Post(Success), MarkResults(Success), MarkScores(Success)]

  /** From the fetch of the scores on, no statement of the tick fails; the worker writes what and when it likes. */
  ghost predicate Completes(s: State, ss: seq<nat>, rest: seq<Action>, t: State) {
    && Step(s, FetchScores(ss)).Some?
    && Exec(Step(s, FetchScores(ss)).value, rest) == Some(t)
    && Own(rest) == FINISH
  }

  /** Where a tick stands that has made `done` of its last three steps, among any writes. */
  ghost predicate After(m: State, done: nat, u: State)
    requires m.phase.Ready?
  {
    var rs, sent := m.phase.rs, m.phase.sent;
    && u.phase == (match done
                   case 0 => Ready(rs, sent)
                   case 1 => Posted(rs, sent)
                   case 2 => ResultsMarked(sent)
                   case _ => Idle)
    && u.butlerScores == (if done == 0 then m.butlerScores else m.butlerScores + sent)
    && (forall r <- m.results.Keys ::
          r in u.results && (u.results[r].synced <==> m.results[r].synced || (done >= 2 && r in rs)))
    && (forall id <- m.scores.Keys :: KeepsScore(m, id, u))
  }

  /** A score stays with its result, and it stays open if it is not on its way. */
  ghost predicate KeepsScore(m: State, id: nat, u: State)
    requires m.phase.Ready? && id in m.scores
  {
    && id in u.scores && u.scores[id].result == m.scores[id].result
    && (id !in m.phase.sent && !m.scores[id].synced ==> !u.scores[id].synced)
  }

  lemma AfterStep(m: State, done: nat, u: State, a: Action, v: State)
    requires m.phase.Ready? && After(m, done, u) && Step(u, a) == Some(v)
    requires IsWrite(a) || (done < 3 && a == FINISH[done])
    ensures After(m, if IsWrite(a) then done else done + 1, v)
  {
  }

  lemma {:induction false} AfterRun(m: State, actions: seq<Action>, u: State)
    requires m.phase.Ready? && Exec(m, actions) == Some(u) && Own(actions) <= FINISH
    ensures After(m, |Own(actions)|, u)
    decreases |actions|
  {
    if actions == [] {
    } else {
      var front, last := actions[..|actions| - 1], actions[|actions| - 1];
      assert Own(front) <= Own(actions);
      AfterRun(m, front, Exec(m, front).value);
      AfterStep(m, |Own(front)|, Exec(m, front).value, last, u);
    }
  }

  /** The tick can always be finished. */
  lemma CanFinish(m: State) returns (t: State)
    requires m.phase.Ready?
    ensures Exec(m, FINISH) == Some(t) && Own(FINISH) == FINISH
    ensures t.results.Keys == m.results.Keys && t.scores.Keys == m.scores.Keys
    ensures forall id <- m.scores :: t.scores[id].createdAt == m.scores[id].createdAt
  {
    var m1 := Step(m, Post(Success)).value;
    var m2 := Step(m1, MarkResults(Success)).value;
    t := Step(m2, MarkScores(Success)).value;
    Runs.ExecOne(Step, m, [], m, Post(Success), m1);
    Runs.ExecOne(Step, m, [] + [Post(Success)], m1, MarkResults(Success), m2);
    Runs.ExecOne(Step, m, [] + [Post(Success)] + [MarkResults(Success)], m2, MarkScores(Success), t);
    OwnSnoc([], Post(Success));
    OwnSnoc([] + [Post(Success)], MarkResults(Success));
    OwnSnoc([] + [Post(Success)] + [MarkResults(Success)], MarkScores(Success));
    assert [] + [Post(Success)] + [MarkResults(Success)] + [MarkScores(Success)] == FINISH;
  }

  /** The result is marked already: a score that is still open is never sent. */
  ghost predicate Orphaned(s: State, id: nat)
    requires id in s.scores
  {
    s.scores[id].result in s.results && s.results[s.scores[id].result].synced
  }

  ghost predicate Forgotten(s: State, id: nat) {
    && id in s.scores && !s.scores[id].synced && Orphaned(s, id)
    && s.scores[id].result !in InBatch(s.phase) && id !in InFlight(s.phase)
  }

  /** Butler does not have the score, and it is not on its way (see `LeftBehindForGood`). */
  ghost predicate Lost(s: State, id: nat) {
    Forgotten(s, id) && id !in s.butlerScores
  }

  /** A score that exists when the scores are fetched. */
  lemma LostIsOffThePage(s: State, ss: seq<nat>, rest: seq<Action>, t: State, id: nat)
    requires Inv(s) && s.phase.GotResults? && Completes(s, ss, rest, t)
    requires id in s.scores && id !in s.butlerScores
    ensures Lost(t, id) <==> Orphaned(s, id) || (s.scores[id].result in s.phase.rs && id !in ss)
  {
    var m := Step(s, FetchScores(ss)).value;
    AfterRun(m, rest, t);
    assert KeepsScore(m, id, t);
  }

  /** One that is added while the tick is under way. */
  lemma NewcomerIsLost(s: State, ss: seq<nat>, id: nat, content: nat, at: int) returns (rest: seq<Action>, t: State)
    requires Inv(s) && s.phase.GotResults? && Step(s, FetchScores(ss)).Some?
    requires id !in s.scores && id !in s.butlerScores
    ensures rest == [AddScore(id, s.phase.rs[0], content, at)] + FINISH && Completes(s, ss, rest, t) && Lost(t, id)
    ensures t.scores.Keys == s.scores.Keys + {id}
  {
    var m := Step(s, FetchScores(ss)).value;
    var add := AddScore(id, s.phase.rs[0], content, at);
    assert s.phase.rs[0] in InBatch(s.phase);
    var u := Step(m, add).value;
    t := CanFinish(u);
    AfterRun(u, FINISH, t);
    assert KeepsScore(u, id, t);
    rest := [add] + FINISH;
    Runs.ExecCons(Step, m, add, u, FINISH);
    OwnCons(add, FINISH);
  }

  lemma {:induction false} OwnCons(write: Action, rest: seq<Action>)
    requires IsWrite(write)
    ensures Own([write] + rest) == Own(rest)
    decreases |rest|
  {
    if rest == [] {
      assert [write] + rest == [] + [write];
      OwnSnoc([], write);
    } else {
      var n := |rest| - 1;
      OwnCons(write, rest[..n]);
      OwnSnoc([write] + rest[..n], rest[n]);
      assert [write] + rest == ([write] + rest[..n]) + [rest[n]];
    }
  }

  /**
   Main result: which scores a tick without failures can lose, in terms of the state before it fetches the scores,
   among those that Butler does not have: every score that is not there yet, for the worker may add it to a result
   of the batch; those whose result is marked already; and of those that are there with their result in the batch
   just the ones with at least 2000 other open scores that are not younger.
   */
  lemma CanBeLostExactlyWhen(s: State, id: nat)
    requires Inv(s) && s.phase.GotResults? && id !in s.butlerScores
    ensures (exists ss, rest, t :: Completes(s, ss, rest, t) && Lost(t, id)) <==>
      || id !in s.scores
      || Orphaned(s, id)
      || (s.scores[id].result in s.phase.rs
          && |NotYounger(OpenScores(s.scores), ScoreTimes(s.scores), id)| >= SCORE_LIMIT)
  {
    var open, times := OpenScores(s.scores), ScoreTimes(s.scores);
    if id !in s.scores {
      var ss := PageExists(open, times, SCORE_LIMIT);
      var rest, t := NewcomerIsLost(s, ss, id, 0, 0);
    } else {
      OnEveryPageExactlyWhen(open, times, SCORE_LIMIT, id);
      var off := PageExists(open, times, SCORE_LIMIT);
      if |NotYounger(open, times, id)| >= SCORE_LIMIT {
        off :| IsPage(off, open, times, SCORE_LIMIT) && id !in off;
      }
      var t := CanFinish(Step(s, FetchScores(off)).value);
      assert Completes(s, off, FINISH, t);
      forall ss, rest, t | Completes(s, ss, rest, t)
        ensures Lost(t, id) <==> Orphaned(s, id) || (s.scores[id].result in s.phase.rs && id !in ss)
      {
        LostIsOffThePage(s, ss, rest, t, id);
      }
    }
  }

  /** And which ones it must lose, whatever the worker writes and however the query orders equal times. */
  lemma MustBeLostExactlyWhen(s: State, id: nat)
    requires Inv(s) && s.phase.GotResults? && id !in s.butlerScores
    ensures (forall ss, rest, t :: Completes(s, ss, rest, t) ==> Lost(t, id)) <==>
      && id in s.scores
      && (|| Orphaned(s, id)
          || (s.scores[id].result in s.phase.rs
              && |Older(OpenScores(s.scores), ScoreTimes(s.scores), id)| >= SCORE_LIMIT))
  {
    var open, times := OpenScores(s.scores), ScoreTimes(s.scores);
    var page := PageExists(open, times, SCORE_LIMIT);
    if id !in s.scores {
      var t := CanFinish(Step(s, FetchScores(page)).value);
      assert Completes(s, page, FINISH, t);
    } else {
      OnNoPageExactlyWhen(open, times, SCORE_LIMIT, id);
      if |Older(open, times, id)| < SCORE_LIMIT {
        page :| IsPage(page, open, times, SCORE_LIMIT) && id in page;
      }
      var t := CanFinish(Step(s, FetchScores(page)).value);
      assert Completes(s, page, FINISH, t);
      forall ss, rest, t | Completes(s, ss, rest, t)
        ensures Lost(t, id) <==> Orphaned(s, id) || (s.scores[id].result in s.phase.rs && id !in ss)
      {
        LostIsOffThePage(s, ss, rest, t, id);
      }
    }
  }

  lemma StepKeepsForgotten(s: State, a: Action, t: State, id: nat)
    requires Inv(s) && Forgotten(s, id) && Step(s, a) == Some(t)
    ensures Forgotten(t, id)
    ensures id in t.butlerScores <==> id in s.butlerScores
    ensures id in s.butlerScores ==> t.butlerScores[id] == s.butlerScores[id]
  {
    if a.FetchResults? {
      assert forall r <- a.rs :: r in OpenResults(s.results);
    }
  }

  /** Once its result is marked, an open score outside the tick is never sent again, however often it is rewritten. */
  lemma {:induction false} LeftBehindForGood(s: State, actions: seq<Action>, t: State, id: nat)
    requires Inv(s) && Forgotten(s, id) && Exec(s, actions) == Some(t)
    ensures Inv(t) && Forgotten(t, id)
    ensures id in t.butlerScores <==> id in s.butlerScores
    ensures id in s.butlerScores ==> t.butlerScores[id] == s.butlerScores[id]
    decreases |actions|
  {
    if actions == [] {
    } else {
      var n := |actions| - 1;
      var before := Exec(s, actions[..n]).value;
      LeftBehindForGood(s, actions[..n], before, id);
      StepKeeps(before, actions[n], t);
      StepKeepsForgotten(before, actions[n], t, id);
    }
  }

  /** What such a tick has lost stays lost: no run behind it brings it to Butler. */
  lemma LostForGood(s: State, ss: seq<nat>, rest: seq<Action>, t: State, later: seq<Action>, u: State, id: nat)
    requires Inv(s) && Completes(s, ss, rest, t) && Lost(t, id) && Exec(t, later) == Some(u)
    ensures Lost(u, id)
  {
    CompletionKeeps(s, ss, rest, t);
    LeftBehindForGood(t, later, u, id);
  }

  /** One result with `n` scores, one after the other. */
  function ManyScores(n: nat): State {
    State(map[0 := Result(0, false)], map id <- Below(n) :: Score(0, id, id, false), {}, map[], Idle)
  }

  lemma {:induction false} ManyScoresAreReachable(n: nat) returns (actions: seq<Action>)
    ensures Exec(EMPTY, actions) == Some(ManyScores(n))
    decreases n
  {
    if n == 0 {
      assert ManyScores(0).scores == map[];
      Runs.ExecOne(Step, EMPTY, [], EMPTY, AddResult(0, 0), ManyScores(0));
      actions := [] + [AddResult(0, 0)];
    } else {
      var before := ManyScoresAreReachable(n - 1);
      var m := n - 1;
      assert ManyScores(m).scores[m := Score(0, m, m, false)] == ManyScores(n).scores;
      Runs.ExecOne(Step, EMPTY, before, ManyScores(m), AddScore(m, 0, m, m), ManyScores(n));
      actions := before + [AddScore(m, 0, m, m)];
    }
  }

  /**
   A reachable state that loses a score by the limit: with more than 2000 scores of one new result, the tick without
   any failure loses the youngest, whatever the worker writes meanwhile and later.
   */
  lemma AScoreIsLost(n: nat, ss: seq<nat>, rest: seq<Action>, t: State, later: seq<Action>, u: State)
    requires n > SCORE_LIMIT && Completes(Ticking(n), ss, rest, t)
    requires Exec(t, later) == Some(u)
    ensures Lost(u, n - 1)
  {
    TickingInv(n);
    TickLosesTheYounger(n, n - 1, ss, rest, t);
    LostForGood(Ticking(n), ss, rest, t, later, u, n - 1);
  }

  /** And one that loses the only score there is: it is added after the tick has fetched the scores. */
  lemma TheOnlyScoreIsLost(id: nat, content: nat, at: int) returns (t: State)
    ensures Exec(EMPTY, [AddResult(0, 0), FetchResults([0]), FetchScores([]), AddScore(id, 0, content, at)] + FINISH)
         == Some(t)
    ensures t.scores.Keys == {id} && Lost(t, id)
  {
    TickingInv(0);
    OneOpenResult(0);
    NothingIsOpen();
    var rest;
    rest, t := NewcomerIsLost(Ticking(0), [], id, content, at);
    var m := Step(Ticking(0), FetchScores([])).value;
    Runs.ExecCons(Step, Ticking(0), FetchScores([]), m, rest);
    Runs.ExecCons(Step, ManyScores(0), FetchResults([0]), Ticking(0), [FetchScores([])] + rest);
    Runs.ExecCons(Step, EMPTY, AddResult(0, 0), ManyScores(0), [FetchResults([0])] + ([FetchScores([])] + rest));
    assert [AddResult(0, 0)] + ([FetchResults([0])] + ([FetchScores([])] + rest))
        == [AddResult(0, 0), FetchResults([0]), FetchScores([]), AddScore(id, 0, content, at)] + FINISH;
  }

  lemma NothingIsOpen()
    ensures Step(EMPTY, AddResult(0, 0)) == Some(ManyScores(0))
    ensures Ticking(0).scores == map[] && Step(Ticking(0), FetchScores([])).Some?
  {
    assert ManyScores(0).scores == map[];
    assert OpenScores(Ticking(0).scores) == {};
  }

  // ---- Scores that block others -----------------------------------------------------------------

  /** At least as many forgotten scores as a page holds are older than this one, which Butler does not have. */
  ghost predicate Blocked(s: State, id: nat, blockers: set<nat>) {
    && |blockers| >= SCORE_LIMIT
    && id in s.scores && id !in s.butlerScores && id !in InFlight(s.phase)
    && forall b <- blockers :: Forgotten(s, b) && s.scores[b].createdAt < s.scores[id].createdAt
  }

  lemma StepKeepsBlocked(s: State, a: Action, t: State, id: nat, blockers: set<nat>)
    requires Inv(s) && Blocked(s, id, blockers) && Step(s, a) == Some(t)
    ensures Blocked(t, id, blockers)
  {
    forall b | b in blockers
      ensures Forgotten(t, b) && t.scores[b].createdAt < t.scores[id].createdAt
    {
      StepKeepsForgotten(s, a, t, b);
    }
    if a.FetchScores? {
      var open, times := OpenScores(s.scores), ScoreTimes(s.scores);
      assert blockers <= Older(open, times, id);
      SubsetIsNoLarger(blockers, Older(open, times, id));
      OnNoPageExactlyWhen(open, times, SCORE_LIMIT, id);
    }
  }

  /**
   Scores that are left behind stay open, and the query reads the oldest open ones: 2000 of them keep every younger
   score from Butler in every run, its result marked or not.
   */
  lemma {:induction false} BlockedForGood(s: State, actions: seq<Action>, t: State, id: nat, blockers: set<nat>)
    requires Inv(s) && Blocked(s, id, blockers) && Exec(s, actions) == Some(t)
    ensures Inv(t) && Blocked(t, id, blockers)
    decreases |actions|
  {
    if actions == [] {
    } else {
      var n := |actions| - 1;
      var before := Exec(s, actions[..n]).value;
      BlockedForGood(s, actions[..n], before, id, blockers);
      StepKeeps(before, actions[n], t);
      StepKeepsBlocked(before, actions[n], t, id, blockers);
    }
  }

  /** Such states do occur: a tick over 4000 scores of one result blocks the score of the next result. */
  lemma BlockingIsReachable(n: nat) returns (actions: seq<Action>, s: State, blockers: set<nat>)
    requires n >= 2 * SCORE_LIMIT
    ensures Exec(EMPTY, actions) == Some(s) && Inv(s) && s.phase.Idle?
    ensures Blocked(s, n, blockers) && !Orphaned(s, n)
  {
    var t;
    actions, t, blockers := ManyAreForgotten(n);
    var t1 := t.(results := t.results[1 := Result(n, false)]);
    s := t1.(scores := t1.scores[n := Score(1, n, 0, false)]);
    Runs.ExecOne(Step, EMPTY, actions, t, AddResult(1, n), t1);
    Runs.ExecOne(Step, EMPTY, actions + [AddResult(1, n)], t1, AddScore(n, 1, 0, n), s);
    actions := actions + [AddResult(1, n)] + [AddScore(n, 1, 0, n)];
    RunKeeps(EMPTY, actions, s);
  }

  lemma ManyAreForgotten(n: nat) returns (actions: seq<Action>, t: State, blockers: set<nat>)
    requires n >= 2 * SCORE_LIMIT
    ensures Exec(EMPTY, actions) == Some(t) && t.phase.Idle?
    ensures 1 !in t.results && n !in t.scores && n !in t.butlerScores
    ensures |blockers| >= SCORE_LIMIT && forall b <- blockers :: Forgotten(t, b) && t.scores[b].createdAt < n
  {
    var ss;
    actions, ss, t := UndisturbedTick(n);
    blockers := Below(n) - Below(SCORE_LIMIT);
    BelowSize(n);
    BelowSize(SCORE_LIMIT);
    assert Below(SCORE_LIMIT) <= Below(n);
    forall b | b in blockers
      ensures Forgotten(t, b) && t.scores[b].createdAt < n
    {
      TickLosesTheYounger(n, b, ss, FINISH, t);
    }
  }

  lemma UndisturbedTick(n: nat) returns (actions: seq<Action>, ss: seq<nat>, t: State)
    ensures Exec(EMPTY, actions) == Some(t) && Completes(Ticking(n), ss, FINISH, t)
    ensures t.phase.Idle? && t.results.Keys == {0} && t.scores.Keys == Below(n)
    ensures n !in t.butlerScores && forall id <- t.scores :: t.scores[id].createdAt == id
  {
    var before := TickingIsReachable(n);
    var m;
    ss, m, t := Undisturbed(Ticking(n));
    Runs.ExecOne(Step, EMPTY, before, Ticking(n), FetchScores(ss), m);
    actions := before + [FetchScores(ss)];
    Runs.ExecJoin(Step, EMPTY, actions, m, FINISH, t);
    actions := actions + FINISH;
  }

  lemma TickingIsReachable(n: nat) returns (actions: seq<Action>)
    ensures Exec(EMPTY, actions) == Some(Ticking(n))
  {
    var before := ManyScoresAreReachable(n);
    OneOpenResult(n);
    Runs.ExecOne(Step, EMPTY, before, ManyScores(n), FetchResults([0]), Ticking(n));
    actions := before + [FetchResults([0])];
  }

  /** A tick without failures and without writes. */
  lemma Undisturbed(s: State) returns (ss: seq<nat>, m: State, t: State)
    requires s.phase.GotResults?
    ensures Step(s, FetchScores(ss)) == Some(m) && Exec(m, FINISH) == Some(t) && Completes(s, ss, FINISH, t)
    ensures t.phase.Idle? && t.results.Keys == s.results.Keys && t.scores.Keys == s.scores.Keys
    ensures t.butlerScores.Keys <= s.butlerScores.Keys + s.scores.Keys
    ensures forall id <- t.scores :: t.scores[id].createdAt == s.scores[id].createdAt
  {
    ss := PageExists(OpenScores(s.scores), ScoreTimes(s.scores), SCORE_LIMIT);
    m := Step(s, FetchScores(ss)).value;
    t := CanFinish(m);
    AfterRun(m, FINISH, t);
  }

  /** A tick over many scores of one result loses every one that is younger than the first 2000. */
  lemma TickLosesTheYounger(n: nat, id: nat, ss: seq<nat>, rest: seq<Action>, t: State)
    requires SCORE_LIMIT <= id < n && Completes(Ticking(n), ss, rest, t)
    ensures Lost(t, id)
  {
    TickingInv(n);
    HowManyAreOlder(n, id);
    MustBeLostExactlyWhen(Ticking(n), id);
  }

  /** A tick that has just fetched the one result. */
  function Ticking(n: nat): State {
    ManyScores(n).(phase := GotResults([0]))
  }

  lemma TickingInv(n: nat)
    ensures Inv(Ticking(n))
  {
  }

  lemma OneOpenResult(n: nat)
    ensures Step(ManyScores(n), FetchResults([0])) == Some(Ticking(n))
  {
    var s := ManyScores(n);
    assert OpenResults(s.results) == {0};
    assert IsPage([0], {0}, ResultTimes(s.results), RESULT_LIMIT);
  }

  lemma CompletionKeeps(s: State, ss: seq<nat>, rest: seq<Action>, t: State)
    requires Inv(s) && Completes(s, ss, rest, t)
    ensures Inv(t)
  {
    var m := Step(s, FetchScores(ss)).value;
    StepKeeps(s, FetchScores(ss), m);
    RunKeeps(m, rest, t);
  }

  lemma ManyOpenScores(n: nat)
    ensures OpenScores(ManyScores(n).scores) == Below(n) == ScoreTimes(ManyScores(n).scores).Keys
    ensures forall id <- Below(n) :: ScoreTimes(ManyScores(n).scores)[id] == id
  {
  }

  lemma OlderIs(all: set<nat>, rank: map<nat, int>, m: nat, older: set<nat>)
    requires all <= rank.Keys && (forall id <- all :: rank[id] == id) && m in all && older <= all
    requires forall id <- all :: id in older <==> id < m
    ensures Older(all, rank, m) == older
  {
  }

  lemma HowManyAreOlder(n: nat, m: nat)
    requires m < n
    ensures m in OpenScores(ManyScores(n).scores)
    ensures |Older(OpenScores(ManyScores(n).scores), ScoreTimes(ManyScores(n).scores), m)| == m
  {
    ManyOpenScores(n);
    BelowSize(m);
    OlderIs(OpenScores(ManyScores(n).scores), ScoreTimes(ManyScores(n).scores), m, Below(m));
  }

  // ---- The reporter -----------------------------------------------------------------------------

  /** One more step of the run that began in `start`. */
  lemma Extend(start: State, trace: seq<Action>, s: State, a: Action, t: State)
    requires Exec(start, trace) == Some(s) && Inv(s) && Step(s, a) == Some(t)
    ensures Exec(start, trace + [a]) == Some(t) && Inv(t)
    ensures Own(trace + [a]) == Own(trace) + if IsWrite(a) then [] else [a]
  {
    Runs.ExecOne(Step, start, trace, s, a, t);
    StepKeeps(s, a, t);
    OwnSnoc(trace, a);
  }

  method AnyWrite() returns (id: nat, result: nat, content: nat, at: int) {
    id, result, content, at := *, *, *, *;
  }

  /** Open results, oldest first, and none of them is younger than one that is left out. */
  ghost predicate OldestResults(results: map<nat, Result>, page: seq<nat>) {
    && (forall id <- page :: id in results && !results[id].synced)
    && (forall i, j :: 0 <= i < j < |page| ==> results[page[i]].createdAt <= results[page[j]].createdAt)
    && (forall id, other :: id in page && other in results && !results[other].synced && other !in page ==>
          results[id].createdAt <= results[other].createdAt)
  }

  lemma PageIsOldestResults(results: map<nat, Result>, page: seq<nat>)
    requires IsPage(page, OpenResults(results), ResultTimes(results), RESULT_LIMIT)
    ensures OldestResults(results, page)
  {
    assert forall id <- results :: ResultTimes(results)[id] == results[id].createdAt;
    assert forall id <- page :: id in OpenResults(results);
  }

  /** And likewise of the scores. */
  ghost predicate OldestScores(scores: map<nat, Score>, page: seq<nat>) {
    && (forall id <- page :: id in scores && !scores[id].synced)
    && (forall i, j :: 0 <= i < j < |page| ==> scores[page[i]].createdAt <= scores[page[j]].createdAt)
    && (forall id, other :: id in page && other in scores && !scores[other].synced && other !in page ==>
          scores[id].createdAt <= scores[other].createdAt)
  }

  lemma PageIsOldestScores(scores: map<nat, Score>, page: seq<nat>)
    requires IsPage(page, OpenScores(scores), ScoreTimes(scores), SCORE_LIMIT)
    ensures OldestScores(scores, page)
  {
    assert forall id <- scores :: ScoreTimes(scores)[id] == scores[id].createdAt;
    assert forall id <- page :: id in OpenScores(scores);
  }

  class EvalOutbox {
    var results: map<nat, Result>
    var scores: map<nat, Score>
    var butlerResults: set<nat>
    var butlerScores: map<nat, nat>
    ghost var phase: Phase
    ghost var errors: nat  // how many statements and requests have reported an error

    ghost function View(): State
      reads this
    {
      State(results, scores, butlerResults, butlerScores, phase)
    }

    constructor ()
      ensures View() == EMPTY && errors == 0
    {
      results, scores, butlerResults, butlerScores, phase, errors := map[], map[], {}, map[], Idle, 0;
    }

    /** The worker writes while a tick is between two of its statements. */
    method WorkersRun(ghost start: State, ghost before: seq<Action>) returns (ghost trace: seq<Action>)
      requires Exec(start, before) == Some(View()) && Inv(View())
      modifies `results, `scores
      ensures Exec(start, trace) == Some(View()) && Inv(View()) && Own(trace) == Own(before)
    {
      trace := before;
      var rounds: nat :| true;
      for i := 0 to rounds
        invariant Exec(start, trace) == Some(View()) && Inv(View()) && Own(trace) == Own(before)
      {
        ghost var s := View();
        var id, result, content, at := AnyWrite();
        if id !in results {
          results := results[id := Result(at, false)];
          Extend(start, trace, s, AddResult(id, at), View());
          trace := trace + [AddResult(id, at)];
        } else if id in scores {
          scores := scores[id := scores[id].(content := content, synced := false)];
          Extend(start, trace, s, Rescore(id, content), View());
          trace := trace + [Rescore(id, content)];
        } else if result in results {
          scores := scores[id := Score(result, at, content, false)];
          Extend(start, trace, s, AddScore(id, result, content, at), View());
          trace := trace + [AddScore(id, result, content, at)];
        }
      }
    }

    method FetchUnsyncedEvalResults() returns (r: Option<seq<nat>>)
      modifies `errors
      ensures errors == old(errors) + (if r.Some? then 0 else 1)
      ensures r.Some? ==> IsPage(r.value, OpenResults(results), ResultTimes(results), RESULT_LIMIT)
      ensures r.Some? ==> OldestResults(results, r.value)
    {
      var failed: bool := *;
      if failed {
        errors := errors + 1;
        return None;
      }
      var rs := SelectPage(OpenResults(results), ResultTimes(results), RESULT_LIMIT);
      PageIsOldestResults(results, rs);
      return Some(rs);
    }

    method FetchUnsyncedEvalResultScores() returns (r: Option<seq<nat>>)
      modifies `errors
      ensures errors == old(errors) + (if r.Some? then 0 else 1)
      ensures r.Some? ==> IsPage(r.value, OpenScores(scores), ScoreTimes(scores), SCORE_LIMIT)
      ensures r.Some? ==> OldestScores(scores, r.value)
    {
      var failed: bool := *;
      if failed {
        errors := errors + 1;
        return None;
      }
      var ss := SelectPage(OpenScores(scores), ScoreTimes(scores), SCORE_LIMIT);
      PageIsOldestScores(scores, ss);
      return Some(ss);
    }

    /** The request for a page of results and a page of scores, with the contents the scores have now. */
    method BuildRequest(rs: seq<nat>, ss: seq<nat>)
      returns (payloads: seq<Payload>, resultIds: seq<nat>, scoreIds: seq<nat>, contents: map<nat, nat>)
      requires Distinct(rs) && Distinct(ss) && forall id <- ss :: id in scores
      ensures resultIds == rs && contents == Sent(scores, rs, ss) && Elements(scoreIds) == contents.Keys
      ensures ResultsIn(payloads) == Elements(rs) && Elements(SentScores(payloads)) == contents.Keys
    {
      var resultOf := map id <- scores.Keys :: scores[id].result;
      payloads, resultIds, scoreIds := BuildPayloads(rs, ss, resultOf);
      BucketingIsAPartition(rs, ss, resultOf, payloads);
      BucketedResults(rs, ss, resultOf, payloads);
      contents := map id <- scores.Keys | id in ss && scores[id].result in rs :: scores[id].content;
      assert Elements(SentScores(payloads)) == contents.Keys;
    }

    /** Assumed contract: Butler keeps each result, and of each score the content last taken in. */
    method SendToButler(payloads: seq<Payload>, contents: map<nat, nat>) returns (out: Outcome)
      requires Elements(SentScores(payloads)) == contents.Keys
      modifies `butlerResults, `butlerScores, `errors
      ensures butlerResults == if TookEffect(out) then old(butlerResults) + ResultsIn(payloads) else old(butlerResults)
      ensures butlerScores == if TookEffect(out) then old(butlerScores) + contents else old(butlerScores)
      ensures errors == old(errors) + Errors(out)
    {
      out := AnyOutcome();
      if TookEffect(out) {
        butlerResults := butlerResults + ResultsIn(payloads);
        butlerScores := butlerScores + contents;
      }
      errors := errors + Errors(out);
    }

    method MarkEvalResultsSynced(ids: seq<nat>) returns (out: Outcome)
      modifies `results, `errors
      ensures results == if TookEffect(out) then MarkedResults(old(results), ids) else old(results)
      ensures errors == old(errors) + Errors(out)
    {
      out := AnyOutcome();
      if TookEffect(out) {
        results := MarkedResults(results, ids);
      }
      errors := errors + Errors(out);
    }

    /** With no ids there is no statement. */
    method MarkEvalResultScoresSynced(ids: seq<nat>) returns (out: Outcome)
      modifies `scores, `errors
      ensures scores == if TookEffect(out) then MarkedScores(old(scores), Elements(ids)) else old(scores)
      ensures errors == old(errors) + Errors(out)
    {
      if |ids| == 0 {
        assert MarkedScores(scores, Elements(ids)) == scores;
        return Success;
      }
      out := AnyOutcome();
      if TookEffect(out) {
        scores := MarkedScores(scores, set id | id in ids);
      }
      errors := errors + Errors(out);
    }

    /** The scores are read, after the results, and the request is built; a failed read ends the tick. */
    method ReadScores(rs: seq<nat>, ghost start: State, ghost before: seq<Action>)
      returns (ok: bool, payloads: seq<Payload>, resultIds: seq<nat>, scoreIds: seq<nat>, contents: map<nat, nat>,
               ghost ss: seq<nat>, ghost trace: seq<Action>)
      requires Exec(start, before) == Some(View()) && Inv(View()) && phase == GotResults(rs) && Distinct(rs)
      modifies `phase, `errors
      ensures Exec(start, trace) == Some(View()) && Inv(View())
      ensures errors == old(errors) + (if ok then 0 else 1) && (!ok ==> phase.Idle?)
      ensures ok ==>
        && phase == Ready(resultIds, contents) && Elements(scoreIds) == contents.Keys
        && ResultsIn(payloads) == Elements(resultIds) && Elements(SentScores(payloads)) == contents.Keys
        && resultIds == rs && Own(trace) == Own(before) + [FetchScores(ss)]
    {
      ok, payloads, resultIds, scoreIds, contents, ss := false, [], [], [], map[], [];
      ghost var s := View();
      var fetched := FetchUnsyncedEvalResultScores();
      if fetched.None? {
        phase := Idle;
        Extend(start, before, s, EndTick, View());
        trace := before + [EndTick];
        return;
      }
      assert forall id <- fetched.value :: id in OpenScores(scores);
      payloads, resultIds, scoreIds, contents := BuildRequest(rs, fetched.value);
      ok, ss := true, fetched.value;
      phase := Ready(resultIds, contents);
      Extend(start, before, s, FetchScores(ss), View());
      trace := before + [FetchScores(ss)];
    }

    /** The results are read; with none open the tick is over. */
    method ReadResults() returns (ended: Ended, rs: seq<nat>, ghost trace: seq<Action>)
      requires Inv(View()) && phase.Idle?
      modifies `phase, `errors
      ensures Exec(old(View()), trace) == Some(View()) && Inv(View())
      ensures errors == old(errors) + (if ended == Broken then 1 else 0)
      ensures ended == NothingOpen ==> OpenResults(results) == {}
      ensures ended != Complete ==> trace == [] && phase.Idle?
      ensures ended == Complete ==>
        trace == [FetchResults(rs)] && Own(trace) == trace && phase == GotResults(rs) && Distinct(rs)
    {
      ended, rs, trace := Broken, [], [];
      var fetched := FetchUnsyncedEvalResults();
      if fetched.None? {
        return;
      }
      rs := fetched.value;
      if |rs| == 0 {
        ShortPageIsAll(rs, OpenResults(results), ResultTimes(results), RESULT_LIMIT);
        ended := NothingOpen;
        return;
      }
      ended, phase := Complete, GotResults(rs);
      Extend(old(View()), [], old(View()), FetchResults(rs), View());
      trace := [FetchResults(rs)];
      assert [] + trace == trace && Own([]) == [];
    }

    /** The marks; the scores are marked even when marking the results has failed. */
    method MarkBoth(resultIds: seq<nat>, scoreIds: seq<nat>, ghost start: State, ghost before: seq<Action>)
      returns (markResults: Outcome, markScores: Outcome, ghost trace: seq<Action>)
      requires Exec(start, before) == Some(View()) && Inv(View())
      requires phase.Posted? && phase.rs == resultIds && phase.sent.Keys == Elements(scoreIds)
      modifies `results, `scores, `phase, `errors
      ensures Exec(start, trace) == Some(View()) && Inv(View()) && phase.Idle?
      ensures Own(trace) == Own(before) + [MarkResults(markResults)] + [MarkScores(markScores)]
      ensures errors == old(errors) + Errors(markResults) + Errors(markScores)
    {
      trace := WorkersRun(start, before);
      ghost var s := View();
      markResults := MarkEvalResultsSynced(resultIds);
      phase := ResultsMarked(phase.sent);
      Extend(start, trace, s, MarkResults(markResults), View());
      trace := trace + [MarkResults(markResults)];
      trace := WorkersRun(start, trace);
      s := View();
      markScores := MarkEvalResultScoresSynced(scoreIds);
      phase := Idle;
      Extend(start, trace, s, MarkScores(markScores), View());
      trace := trace + [MarkScores(markScores)];
    }

    /** The request and, if it is accepted, the marks. */
    method SendAndMark(payloads: seq<Payload>, resultIds: seq<nat>, scoreIds: seq<nat>, contents: map<nat, nat>,
                       ghost start: State, ghost before: seq<Action>)
      returns (ok: bool, ghost trace: seq<Action>)
      requires Exec(start, before) == Some(View()) && Inv(View()) && phase == Ready(resultIds, contents)
      requires Elements(scoreIds) == contents.Keys
      requires ResultsIn(payloads) == Elements(resultIds) && Elements(SentScores(payloads)) == contents.Keys
      modifies this
      ensures Exec(start, trace) == Some(View()) && Inv(View()) && phase.Idle?
      ensures if ok then errors == old(errors) else errors > old(errors)
      ensures ok ==> Own(trace) == Own(before) + [Post(Success)] + [MarkResults(Success)] + [MarkScores(Success)]
    {
      trace := WorkersRun(start, before);
      ghost var s := View();
      var post := SendToButler(payloads, contents);
      phase := if post.Success? then Posted(resultIds, contents) else Idle;
      Extend(start, trace, s, Post(post), View());
      trace := trace + [Post(post)];
      if !post.Success? {
        return false, trace;
      }
      var markResults, markScores;
      markResults, markScores, trace := MarkBoth(resultIds, scoreIds, start, trace);
      ok := markResults.Success? && markScores.Success?;
    }

    /**
     A tick, with the worker's writes in between, is a run of the outbox. It is broken exactly if something
     failed; otherwise there was nothing open, or each of its five steps was made, once, in this order.
     */
    method FlushEvalResults() returns (ended: Ended, ghost trace: seq<Action>)
      requires Inv(View()) && phase.Idle?
      modifies this
      ensures Exec(old(View()), trace) == Some(View()) && Inv(View()) && phase.Idle?
      ensures ended == Broken <==> errors > old(errors)
      ensures ended == NothingOpen ==> OpenResults(old(results)) == {} && trace == []
      ensures ended == Complete ==> exists rs, ss :: Own(trace) == WholeTick(rs, ss)
    {
      ghost var start := View();
      var rs;
      ended, rs, trace := ReadResults();
      if ended != Complete {
        return;
      }
      trace := WorkersRun(start, trace);
      var ok, payloads, resultIds, scoreIds, contents;
      ghost var ss;
      ok, payloads, resultIds, scoreIds, contents, ss, trace := ReadScores(rs, start, trace);
      if !ok {
        return Broken, trace;
      }
      ok, trace := SendAndMark(payloads, resultIds, scoreIds, contents, start, trace);
      ended := if ok then Complete else Broken;
      assert ok ==> Own(trace) == WholeTick(rs, ss);
    }
  }

  /** How a tick ended: something failed, no result was open, or all of it was done. */
  datatype Ended = Broken | NothingOpen | Complete

  function WholeTick(rs: seq<nat>, ss: seq<nat>): seq<Action> {
    [FetchResults(rs)] + [FetchScores(ss)] + [Post(Success)] + [MarkResults(Success)] + [MarkScores(Success)]
  }
}
