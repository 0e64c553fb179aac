/**
 The one query shape every queue of the steward is read with:
 `SELECT id ... WHERE <candidate> ORDER BY <rank> LIMIT <limit>`.
 Rows of equal rank may come back in any order, so a page is a relation and not a function.
 */
module Pages {
  import opened Wrappers

  ghost predicate IsPage(page: seq<nat>, candidates: set<nat>, rank: map<nat, int>, limit: nat)
    requires candidates <= rank.Keys
  {
    && |page| == Min(limit, |candidates|)
    && Distinct(page)
    && (forall x <- page :: x in candidates)
    && (forall i, j :: 0 <= i < j < |page| ==> rank[page[i]] <= rank[page[j]])
    && (forall x, y :: x in page && y in candidates && y !in page ==> rank[x] <= rank[y])
  }

  lemma {:induction false} LeastExists(s: set<nat>, rank: map<nat, int>) returns (m: nat)
    requires s != {} && s <= rank.Keys
    ensures m in s && forall x <- s :: rank[m] <= rank[x]
    decreases s
  {
    m :| m in s;
    if s == {m} {
    } else {
      var n := LeastExists(s - {m}, rank);
      if rank[n] < rank[m] {
        m := n;
      }
    }
  }

  /** The oldest candidates in order, with `rest` still to choose from. */
  ghost predicate Chosen(page: seq<nat>, rest: set<nat>, candidates: set<nat>, rank: map<nat, int>)
    requires candidates <= rank.Keys
  {
    && rest == candidates - Elements(page)
    && |page| + |rest| == |candidates|
    && Distinct(page)
    && (forall x <- page :: x in candidates)
    && (forall i, j :: 0 <= i < j < |page| ==> rank[page[i]] <= rank[page[j]])
    && (forall x, y :: x in page && y in rest ==> rank[x] <= rank[y])
  }

  lemma ChooseLeast(page: seq<nat>, rest: set<nat>, candidates: set<nat>, rank: map<nat, int>, m: nat)
    requires candidates <= rank.Keys && Chosen(page, rest, candidates, rank)
    requires m in rest && forall x <- rest :: rank[m] <= rank[x]
    ensures Chosen(page + [m], rest - {m}, candidates, rank)
  {
    assert Elements(page + [m]) == Elements(page) + {m};
    assert m !in Elements(page);
    assert forall x <- page + [m] :: x in page || x == m;
  }

  /** Answers the query; callers learn only that the answer is a page. */
  method SelectPage(candidates: set<nat>, rank: map<nat, int>, limit: nat) returns (page: seq<nat>)
    requires candidates <= rank.Keys
    ensures IsPage(page, candidates, rank, limit)
  {
    page := [];
    var rest := candidates;
    while |page| < limit && rest != {}
      invariant Chosen(page, rest, candidates, rank) && |page| <= limit
      decreases rest
    {
      ghost var least := LeastExists(rest, rank);
      var m: nat :| m in rest && forall x <- rest :: rank[m] <= rank[x];
      ChooseLeast(page, rest, candidates, rank, m);
      page := page + [m];
      rest := rest - {m};
    }
  }

  /** A short page has returned every candidate. */
  lemma ShortPageIsAll(page: seq<nat>, candidates: set<nat>, rank: map<nat, int>, limit: nat)
    requires candidates <= rank.Keys && IsPage(page, candidates, rank, limit)
    ensures Elements(page) <= candidates && |Elements(page)| == |page|
    ensures |page| < limit ==> Elements(page) == candidates
  {
    DistinctCount(page);
    if |page| < limit {
      SubsetOfSameSize(Elements(page), candidates);
    }
  }

  /** Every query has an answer. */
  lemma {:induction false} PageExists(candidates: set<nat>, rank: map<nat, int>, limit: nat) returns (page: seq<nat>)
    requires candidates <= rank.Keys
    ensures IsPage(page, candidates, rank, limit)
    decreases limit
  {
    if limit == 0 || candidates == {} {
      page := [];
    } else {
      var m := LeastExists(candidates, rank);
      var rest := PageExists(candidates - {m}, rank, limit - 1);
      page := [m] + rest;
    }
  }

  // ---- Which candidates a page can miss ---------------------------------------------------------

  function Older(candidates: set<nat>, rank: map<nat, int>, x: nat): set<nat>
    requires candidates <= rank.Keys && x in candidates
  {
    set y <- candidates | rank[y] < rank[x]
  }

  function NotYounger(candidates: set<nat>, rank: map<nat, int>, x: nat): set<nat>
    requires candidates <= rank.Keys && x in candidates
  {
    set y <- candidates | y != x && rank[y] <= rank[x]
  }

  lemma FewNotYounger(page: seq<nat>, candidates: set<nat>, rank: map<nat, int>, limit: nat, x: nat)
    requires candidates <= rank.Keys && x in candidates && IsPage(page, candidates, rank, limit)
    requires |NotYounger(candidates, rank, x)| < limit
    ensures x in page
  {
    if x !in page {
      ShortPageIsAll(page, candidates, rank, limit);
      assert forall y <- page :: y in candidates && rank[y] <= rank[x];
      SubsetIsNoLarger(Elements(page), NotYounger(candidates, rank, x));
    }
  }

  lemma ManyOlder(page: seq<nat>, candidates: set<nat>, rank: map<nat, int>, limit: nat, x: nat)
    requires candidates <= rank.Keys && x in candidates && IsPage(page, candidates, rank, limit)
    requires |Older(candidates, rank, x)| >= limit
    ensures x !in page
  {
    if x in page {
      ShortPageIsAll(page, candidates, rank, limit);
      assert forall y <- Older(candidates, rank, x) :: y in page;
      SubsetIsNoLarger(Older(candidates, rank, x) + {x}, Elements(page));
    }
  }

  /** The same order, except that `x` goes before, or behind, the candidates it is tied with. */
  function Untied(rank: map<nat, int>, x: nat, first: bool): map<nat, int> {
    map y <- rank.Keys :: 2 * rank[y] + if (y == x) == first then 0 else 1
  }

  lemma UntiedPage(page: seq<nat>, candidates: set<nat>, rank: map<nat, int>, limit: nat, x: nat, first: bool)
    requires candidates <= rank.Keys && IsPage(page, candidates, Untied(rank, x, first), limit)
    ensures IsPage(page, candidates, rank, limit)
  {
    var r := Untied(rank, x, first);
    forall i, j | 0 <= i < j < |page|
      ensures rank[page[i]] <= rank[page[j]]
    {
      assert r[page[i]] <= r[page[j]];
    }
    forall y, z | y in page && z in candidates && z !in page
      ensures rank[y] <= rank[z]
    {
      assert r[y] <= r[z];
    }
  }

  /** A candidate is on every possible page exactly when fewer others than the limit are as old. */
  lemma OnEveryPageExactlyWhen(candidates: set<nat>, rank: map<nat, int>, limit: nat, x: nat)
    requires candidates <= rank.Keys && x in candidates
    ensures (forall page :: IsPage(page, candidates, rank, limit) ==> x in page)
       <==> |NotYounger(candidates, rank, x)| < limit
  {
    if |NotYounger(candidates, rank, x)| < limit {
      forall page | IsPage(page, candidates, rank, limit)
        ensures x in page
      {
        FewNotYounger(page, candidates, rank, limit, x);
      }
    } else {
      var page := PageExists(candidates, Untied(rank, x, false), limit);
      UntiedPage(page, candidates, rank, limit, x, false);
      assert Older(candidates, Untied(rank, x, false), x) == NotYounger(candidates, rank, x);
      ManyOlder(page, candidates, Untied(rank, x, false), limit, x);
    }
  }

  /** And on none exactly when at least as many as the limit are older. */
  lemma OnNoPageExactlyWhen(candidates: set<nat>, rank: map<nat, int>, limit: nat, x: nat)
    requires candidates <= rank.Keys && x in candidates
    ensures (forall page :: IsPage(page, candidates, rank, limit) ==> x !in page)
       <==> |Older(candidates, rank, x)| >= limit
  {
    if |Older(candidates, rank, x)| >= limit {
      forall page | IsPage(page, candidates, rank, limit)
        ensures x !in page
      {
        ManyOlder(page, candidates, rank, limit, x);
      }
    } else {
      var page := PageExists(candidates, Untied(rank, x, true), limit);
      UntiedPage(page, candidates, rank, limit, x, true);
      assert NotYounger(candidates, Untied(rank, x, true), x) == Older(candidates, rank, x);
      FewNotYounger(page, candidates, Untied(rank, x, true), limit, x);
    }
  }
}
