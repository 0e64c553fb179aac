/** Small result types and sequence facts shared by every component. */
module Wrappers {

  datatype Option<+T> = None | Some(value: T)

  datatype Result<+T, +E> = Ok(value: T) | Err(error: E)

  /** How a statement or request ends; one that reports an error may still have been applied. */
  datatype Outcome = Success | Failure(applied: bool)

  predicate TookEffect(out: Outcome) {
    out.Success? || out.applied
  }

  /** How many errors a statement or request reported. */
  function Errors(out: Outcome): nat {
    if out.Success? then 0 else 1
  }

  function ErrorsIn<T, E>(r: Result<T, E>): nat {
    if r.Ok? then 0 else 1
  }

  /** The environment decides. */
  method AnyOutcome() returns (out: Outcome) {
    out := *;
  }

  /** An error of the store or of the network; callers only tell it from success. */
  datatype Failed = Failed

  function Min(a: int, b: int): int {
    if a <= b then a else b
  }

  function Max(a: int, b: int): int {
    if a <= b then b else a
  }

  /** How many batches of at most `b` it takes to work off `k`. */
  function Batches(k: nat, b: nat): nat
    requires b > 0
  {
    if k == 0 then 0 else 1 + Batches(k - Min(b, k), b)
  }

  lemma QuotientIs(a: nat, b: nat, q: nat)
    requires b > 0 && q * b <= a < q * b + b
    ensures a / b == q
  {
    var d := a / b;
    assert a == d * b + a % b;
    if d < q {
      ProductMonotone(d + 1, q, b);
    } else if d > q {
      ProductMonotone(q + 1, d, b);
    }
  }

  lemma ProductMonotone(x: nat, y: nat, b: nat)
    requires x <= y
    ensures x * b <= y * b
  {
  }

  /** `n` batches of `b`. */
  function Multiple(n: nat, b: nat): nat {
    if n == 0 then 0 else Multiple(n - 1, b) + b
  }

  lemma {:induction false} MultipleIsProduct(n: nat, b: nat)
    ensures Multiple(n, b) == n * b
  {
    if n == 0 {
    } else {
      MultipleIsProduct(n - 1, b);
      assert n * b == (n - 1) * b + b;
    }
  }

  /** The number of batches is `ceil(k / b)`. */
  lemma {:induction false} BatchesIsCeiling(k: nat, b: nat)
    requires b > 0
    ensures Batches(k, b) == (k + b - 1) / b
    decreases k
  {
    if k == 0 {
      QuotientIs(b - 1, b, 0);
    } else if k <= b {
      QuotientIs(k + b - 1, b, 1);
    } else {
      BatchesIsCeiling(k - b, b);
      NextQuotient(k - 1, b);
    }
  }

  lemma NextQuotient(a: nat, b: nat)
    requires b > 0
    ensures (a + b) / b == a / b + 1
  {
    var q := a / b;
    assert a == q * b + a % b;
    assert (q + 1) * b == q * b + b;
    QuotientIs(a + b, b, q + 1);
  }

  /** The first `n` natural numbers. */
  function Below(n: nat): (r: set<nat>)
    ensures forall i: nat :: i in r <==> i < n
  {
    if n == 0 then {} else Below(n - 1) + {n - 1}
  }

  lemma {:induction false} BelowSize(n: nat)
    ensures |Below(n)| == n
  {
    if n == 0 {
    } else {
      BelowSize(n - 1);
    }
  }

  ghost predicate Distinct<T>(s: seq<T>) {
    forall i, j :: 0 <= i < j < |s| ==> s[i] != s[j]
  }

  lemma DistinctAppend<T>(a: seq<T>, b: seq<T>)
    requires Distinct(a) && Distinct(b) && forall x <- a :: x !in b
    ensures Distinct(a + b)
  {
    forall i, j | 0 <= i < j < |a + b|
      ensures (a + b)[i] != (a + b)[j]
    {
      if i < |a| <= j {
        assert a[i] in a && b[j - |a|] in b;
      }
    }
  }

  ghost function Elements<T>(s: seq<T>): set<T> {
    set x | x in s
  }

  lemma AppendSnoc<T>(a: seq<T>, b: seq<T>, x: T)
    ensures a + (b + [x]) == (a + b) + [x]
  {
  }

  lemma ConsSnoc<T>(a: seq<T>, x: T, b: seq<T>)
    ensures a + ([x] + b) == (a + [x]) + b
  {
  }

  function Flatten<T>(ss: seq<seq<T>>): seq<T> {
    if ss == [] then [] else Flatten(ss[..|ss| - 1]) + ss[|ss| - 1]
  }

  lemma FlattenSnoc<T>(ss: seq<seq<T>>, s: seq<T>)
    ensures Flatten(ss + [s]) == Flatten(ss) + s
  {
    assert (ss + [s])[..|ss|] == ss;
  }

  lemma {:induction false} FlattenAppend<T>(xs: seq<seq<T>>, ys: seq<seq<T>>)
    ensures Flatten(xs + ys) == Flatten(xs) + Flatten(ys)
    decreases |ys|
  {
    if ys == [] {
      assert xs + ys == xs;
    } else {
      var front, last := ys[..|ys| - 1], ys[|ys| - 1];
      assert xs + ys == (xs + front) + [last];
      FlattenSnoc(xs + front, last);
      FlattenAppend(xs, front);
    }
  }

  /** A sequence without repetition has as many elements as its set of elements. */
  lemma {:induction false} DistinctCount<T>(s: seq<T>)
    requires Distinct(s)
    ensures |Elements(s)| == |s|
    decreases |s|
  {
    if s == [] {
    } else {
      var front, last := s[..|s| - 1], s[|s| - 1];
      assert Distinct(front);
      DistinctCount(front);
      assert s == front + [last];
      assert Elements(s) == Elements(front) + {last};
      assert last !in Elements(front);
    }
  }

  /** Equal size and inclusion make two finite sets equal. */
  lemma SubsetOfSameSize<T>(a: set<T>, b: set<T>)
    requires a <= b && |a| == |b|
    ensures a == b
  {
    if a != b {
      assert !(b <= a);
      var x :| x in b && x !in a;
      SubsetIsNoLarger(a, b - {x});
    }
  }

  lemma {:induction false} SubsetIsNoLarger<T>(a: set<T>, b: set<T>)
    requires a <= b
    ensures |a| <= |b|
    decreases a
  {
    if a == {} {
    } else {
      var x :| x in a;
      SubsetIsNoLarger(a - {x}, b - {x});
    }
  }

  /** A finite set leaves some number out. */
  lemma UnusedId(ids: set<nat>) returns (id: nat)
    ensures id !in ids
  {
    BelowSize(|ids| + 1);
    if Below(|ids| + 1) <= ids {
      SubsetIsNoLarger(Below(|ids| + 1), ids);
      assert false;
    }
    id :| id in Below(|ids| + 1) && id !in ids;
  }

  lemma MapAddSize<K, V>(m: map<K, V>, k: K, v: V)
    ensures |m[k := v]| == if k in m then |m| else |m| + 1
  {
    assert m[k := v].Keys == m.Keys + {k};
    if k in m {
      assert m.Keys + {k} == m.Keys;
    }
  }

  lemma MapDropSize<K, V>(m: map<K, V>, k: K)
    ensures (m - {k}).Keys == m.Keys - {k}
    ensures |m - {k}| == if k in m then |m| - 1 else |m|
  {
    assert (m - {k}).Keys == m.Keys - {k};
    if k !in m {
      assert m.Keys - {k} == m.Keys;
    }
  }
}
