/** Runs of a step system: what a sequence of actions leads to, or `None` when one of them is not possible. */
module Runs {
  import opened Wrappers

  ghost function Exec<S, A>(step: (S, A) -> Option<S>, s: S, actions: seq<A>): Option<S> {
    if actions == [] then Some(s)
    else
      var before := Exec(step, s, actions[..|actions| - 1]);
      if before.None? then None else step(before.value, actions[|actions| - 1])
  }

  lemma ExecSnoc<S, A>(step: (S, A) -> Option<S>, s: S, actions: seq<A>, a: A)
    ensures Exec(step, s, actions + [a])
         == if Exec(step, s, actions).None? then None else step(Exec(step, s, actions).value, a)
  {
    assert (actions + [a])[..|actions|] == actions;
  }

  /** A run that led to `m`, and one more step. */
  lemma ExecOne<S, A>(step: (S, A) -> Option<S>, s: S, actions: seq<A>, m: S, a: A, t: S)
    requires Exec(step, s, actions) == Some(m) && step(m, a) == Some(t)
    ensures Exec(step, s, actions + [a]) == Some(t)
  {
    ExecSnoc(step, s, actions, a);
  }

  /** The same where only the end of the run matters. */
  lemma Extended<S, A>(step: (S, A) -> Option<S>, s: S, actions: seq<A>, m: S, a: A, t: S) returns (longer: seq<A>)
    requires Exec(step, s, actions) == Some(m) && step(m, a) == Some(t)
    ensures Exec(step, s, longer) == Some(t)
  {
    longer := actions + [a];
    ExecOne(step, s, actions, m, a, t);
  }

  lemma {:induction false} ExecAppend<S, A>(step: (S, A) -> Option<S>, s: S, xs: seq<A>, ys: seq<A>)
    ensures Exec(step, s, xs + ys)
         == if Exec(step, s, xs).None? then None else Exec(step, Exec(step, s, xs).value, ys)
    decreases |ys|
  {
    if ys == [] {
      assert xs + ys == xs;
    } else {
      var front, last := ys[..|ys| - 1], ys[|ys| - 1];
      assert xs + ys == (xs + front) + [last];
      ExecSnoc(step, s, xs + front, last);
      ExecAppend(step, s, xs, front);
    }
  }

  lemma ExecJoin<S, A>(step: (S, A) -> Option<S>, s: S, xs: seq<A>, m: S, ys: seq<A>, t: S)
    requires Exec(step, s, xs) == Some(m) && Exec(step, m, ys) == Some(t)
    ensures Exec(step, s, xs + ys) == Some(t)
  {
    ExecAppend(step, s, xs, ys);
  }

  lemma ExecCons<S, A>(step: (S, A) -> Option<S>, s: S, a: A, m: S, rest: seq<A>)
    requires step(s, a) == Some(m)
    ensures Exec(step, s, [a] + rest) == Exec(step, m, rest)
  {
    ExecOne(step, s, [], s, a, m);
    assert [] + [a] == [a];
    ExecAppend(step, s, [a], rest);
  }
}
