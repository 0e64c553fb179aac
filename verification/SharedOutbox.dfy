/**
 The same table of runs under several results reporters. The steward starts a reporter for each organisation,
 each with the Butler of its own, but their queries and marks do not look at a row's organisation.

 Each flush is taken here at its best: nothing fails and nothing comes between its statements.
 */
module SharedOutbox {
  import Runs
  import RunOutbox
  import opened Wrappers
  import opened Pages

  type Rows = map<nat, RunOutbox.Row>

  /** What the Butler of each organisation has. */
  type Butlers = map<nat, map<nat, nat>>

  /** `orgOf` tells whose run a row is. */
  datatype State = State(rows: Rows, orgOf: map<nat, nat>, butlers: Butlers, now: int)

  datatype Action =
    | Write(id: nat, org: nat, content: nat, at: int)
    | Flush(reporter: nat, page: seq<nat>, at: int)

  function At(butlers: Butlers, org: nat): map<nat, nat> {
    if org in butlers then butlers[org] else map[]
  }

  ghost predicate IsNextPage(rows: Rows, page: seq<nat>) {
    IsPage(page, RunOutbox.UnsyncedIds(rows), RunOutbox.UpdateTimes(rows), RunOutbox.BATCH_SIZE)
  }

  /** A row keeps its organisation. */
  ghost function Step(s: State, a: Action): Option<State> {
    if a.at <= s.now then None
    else
      match a
      case Write(id, org, content, at) =>
        Some(s.(rows := RunOutbox.Written(s.rows, id, content, at),
                orgOf := if id in s.orgOf then s.orgOf else s.orgOf[id := org], now := at))
      case Flush(reporter, page, at) =>
        if !IsNextPage(s.rows, page) then None
        else
          var butler := At(s.butlers, reporter) + RunOutbox.Contents(s.rows, page);
          Some(s.(rows := RunOutbox.Stamped(s.rows, Elements(page), at), butlers := s.butlers[reporter := butler],
                  now := at))
  }

  ghost function Exec(s: State, actions: seq<Action>): Option<State> {
    Runs.Exec(Step, s, actions)
  }

  ghost predicate AtHome(s: State, id: nat) {
    id in s.orgOf && id in s.rows && id in At(s.butlers, s.orgOf[id])
    && At(s.butlers, s.orgOf[id])[id] == s.rows[id].content
  }

  /** A row that the query skips has the same reported fields at the Butler of its own organisation. */
  ghost predicate AgreesAtHome(s: State) {
    forall id <- s.rows.Keys :: !RunOutbox.Unsynced(s.rows[id]) ==> AtHome(s, id)
  }

  predicate Among(a: Action, reporters: set<nat>, orgs: set<nat>) {
    match a
    case Write(_, org, _, _) => org in orgs
    case Flush(reporter, _, _) => reporter in reporters
  }

  const EMPTY := State(map[], map[], map[], 0)

  ghost predicate AlwaysAgrees(reporters: set<nat>, orgs: set<nat>) {
    forall actions: seq<Action>, s: State ::
      (forall a <- actions :: Among(a, reporters, orgs)) && Exec(EMPTY, actions) == Some(s) ==> AgreesAtHome(s)
  }

  ghost predicate Inv(s: State, orgs: set<nat>) {
    && AgreesAtHome(s) && s.orgOf.Keys == s.rows.Keys && (forall id <- s.orgOf :: s.orgOf[id] in orgs)
    && forall id <- s.rows.Keys ::
         s.rows[id].updatedAt <= s.now && (s.rows[id].syncedAt.Some? ==> s.rows[id].syncedAt.value <= s.now)
  }

  lemma StepKeeps(s: State, a: Action, t: State, reporters: set<nat>, orgs: set<nat>)
    requires forall r <- reporters, p <- orgs :: r == p
    requires Inv(s, orgs) && Among(a, reporters, orgs) && Step(s, a) == Some(t)
    ensures Inv(t, orgs)
  {
    forall id | id in t.rows && !RunOutbox.Unsynced(t.rows[id])
      ensures AtHome(t, id)
    {
      if a.Flush? && id !in a.page {
        assert t.rows[id] == s.rows[id] && AtHome(s, id);
      }
    }
  }

  lemma {:induction false} RunKeeps(actions: seq<Action>, s: State, reporters: set<nat>, orgs: set<nat>)
    requires forall r <- reporters, p <- orgs :: r == p
    requires (forall a <- actions :: Among(a, reporters, orgs)) && Exec(EMPTY, actions) == Some(s)
    ensures Inv(s, orgs)
    decreases |actions|
  {
    if actions == [] {
    } else {
      var n := |actions| - 1;
      RunKeeps(actions[..n], Exec(EMPTY, actions[..n]).value, reporters, orgs);
      StepKeeps(Exec(EMPTY, actions[..n]).value, actions[n], s, reporters, orgs);
    }
  }

  /** The reporter of another organisation takes a new row to its own Butler, and marks it. */
  lemma TakenElsewhere(reporter: nat, org: nat) returns (actions: seq<Action>, s: State)
    requires reporter != org
    ensures actions == [Write(1, org, 10, 1), Flush(reporter, [1], 2)]
    ensures Exec(EMPTY, actions) == Some(s) && !AgreesAtHome(s)
  {
    var written := State(map[1 := RunOutbox.Row(10, 1, None)], map[1 := org], map[], 1);
    assert RunOutbox.UnsyncedIds(written.rows) == {1};
    assert IsNextPage(written.rows, [1]);
    s := Step(written, Flush(reporter, [1], 2)).value;
    Runs.ExecOne(Step, EMPTY, [], EMPTY, Write(1, org, 10, 1), written);
    Runs.ExecOne(Step, EMPTY, [] + [Write(1, org, 10, 1)], written, Flush(reporter, [1], 2), s);
    actions := [Write(1, org, 10, 1), Flush(reporter, [1], 2)];
    assert [] + [Write(1, org, 10, 1)] + [Flush(reporter, [1], 2)] == actions;
    assert s.rows[1] == RunOutbox.Row(10, 1, Some(2));
  }

  /**
   Main result: skipped rows agree with the Butler of their own organisation in all runs exactly when no reporter
   runs on the table except that of the one organisation whose rows it holds.
   */
  lemma AgreesAtHomeExactlyWhenAlone(reporters: set<nat>, orgs: set<nat>)
    ensures AlwaysAgrees(reporters, orgs) <==> forall r <- reporters, p <- orgs :: r == p
  {
    if forall r <- reporters, p <- orgs :: r == p {
      forall actions: seq<Action>, s: State |
        (forall a <- actions :: Among(a, reporters, orgs)) && Exec(EMPTY, actions) == Some(s)
        ensures AgreesAtHome(s)
      {
        RunKeeps(actions, s, reporters, orgs);
      }
    } else {
      var r, p :| r in reporters && p in orgs && r != p;
      var actions, s := TakenElsewhere(r, p);
      assert forall a <- actions :: Among(a, reporters, orgs);
    }
  }
}
