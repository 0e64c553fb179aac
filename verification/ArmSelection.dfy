/**
 Weighted choice of an experiment arm: a draw below the total weight is counted down arm by arm. A
 sticky value draws by its 32-bit hash instead of at random.
 */
module ArmSelection {
  import opened Wrappers

  datatype Arm = Arm(id: nat, model: string, weight: int)

  const TWO_32: nat := 0x1_0000_0000

  /** The sum of the first `k` weights. */
  function Prefix(arms: seq<Arm>, k: nat): int
    requires k <= |arms|
  {
    if k == 0 then 0 else Prefix(arms, k - 1) + arms[k - 1].weight
  }

  function Total(arms: seq<Arm>): int {
    Prefix(arms, |arms|)
  }

  /** The draw `n >= 0` picks arm `i`: the first one whose cumulated weight exceeds the draw. */
  ghost predicate Picks(arms: seq<Arm>, n: int, i: int) {
    && 0 <= i < |arms|
    && n < Prefix(arms, i + 1)
    && forall j :: 0 <= j <= i ==> Prefix(arms, j) <= n
  }

  datatype Choice = NoArm | DivisionByZero | Picked(i: int)

  /**
   The draw of a selection: `hash` of a non-empty sticky value if there is one, else a random number,
   given as an arbitrary `random` reduced to the range. Go divides by `uint32(total)`, which is zero
   when the total is a multiple of 2^32.
   */
  function DrawOf(total: int, hash: Option<nat>, random: nat): int
    requires total > 0 && (hash.Some? ==> total % TWO_32 != 0)
  {
    if hash.Some? then hash.value % (total % TWO_32) else random % total
  }

  /** The outcome of a selection, for one hash or random number. */
  ghost predicate IsChoice(arms: seq<Arm>, hash: Option<nat>, random: nat, c: Choice) {
    && (c == NoArm <==> Total(arms) <= 0)
    && (c == DivisionByZero <==> Total(arms) > 0 && hash.Some? && Total(arms) % TWO_32 == 0)
    && (c.Picked? ==> Picks(arms, DrawOf(Total(arms), hash, random), c.i))
  }

  method SelectArm(arms: seq<Arm>, hash: Option<nat>, random: nat) returns (c: Choice)
    ensures IsChoice(arms, hash, random, c)
    ensures c.Picked? ==> arms[c.i].weight > 0
    ensures c.Picked? && hash.Some? ==> Picks(arms, hash.value % (Total(arms) % TWO_32), c.i)
    ensures c.Picked? && hash.None? ==> Picks(arms, random % Total(arms), c.i)
  {
    var total := 0;
    for i := 0 to |arms|
      invariant total == Prefix(arms, i)
    {
      total := total + arms[i].weight;
    }
    if total <= 0 {
      return NoArm;
    }
    if hash.Some? && total % TWO_32 == 0 {
      return DivisionByZero;
    }
    var n := if hash.Some? then hash.value % (total % TWO_32) else random % total;
    ghost var draw := n;
    var i, found := 0, false;
    while i < |arms| && !found
      invariant 0 <= i <= |arms|
      invariant forall j :: 0 <= j <= i ==> Prefix(arms, j) <= draw
      invariant if found then i < |arms| && draw < Prefix(arms, i + 1) else n == draw - Prefix(arms, i)
      decreases |arms| - i, !found
    {
      n := n - arms[i].weight;
      if n < 0 {
        found := true;
      } else {
        i := i + 1;
      }
    }
    if found {
      PickIsPositive(arms, draw, i);
      return Picked(i);
    }
    assert false;  // the fallback to the last arm is unreachable
  }

  /** Weights that fit a 32-bit column can sum to 2^32. */
  lemma WeightsThatDivideByZero() returns (arms: seq<Arm>)
    ensures (forall arm <- arms :: 0 < arm.weight < 0x8000_0000) && Total(arms) == TWO_32
    ensures forall h: nat, random: nat, c :: IsChoice(arms, Some(h), random, c) ==> c == DivisionByZero
  {
    var a, b, c := Arm(1, "m", 2147483647), Arm(2, "m", 2147483647), Arm(3, "m", 2);
    arms := [a, b, c];
    assert Prefix(arms, 0) == 0;
    assert Prefix(arms, 1) == 2147483647;
    assert Prefix(arms, 2) == 4294967294;
  }

  /** A picked arm has positive weight. */
  lemma PickIsPositive(arms: seq<Arm>, n: int, i: int)
    requires Picks(arms, n, i)
    ensures arms[i].weight > 0
  {
    assert Prefix(arms, i) <= n;
  }

  /** Below the total exactly one arm is picked, so counting down never runs off the end. */
  lemma {:induction false} SomeArmIsPicked(arms: seq<Arm>, n: int, k: nat) returns (i: int)
    requires k <= |arms| && n < Prefix(arms, k) && n >= 0
    ensures Picks(arms, n, i) && i < k && arms[i].weight > 0
    ensures forall j :: Picks(arms, n, j) ==> j == i
    decreases k
  {
    if n < Prefix(arms, k - 1) {
      i := SomeArmIsPicked(arms, n, k - 1);
    } else if forall j :: 0 <= j < k ==> Prefix(arms, j) <= n {
      i := k - 1;
    } else {
      var j :| 0 <= j < k && Prefix(arms, j) > n;
      i := SomeArmIsPicked(arms, n, j);
    }
    PickIsPositive(arms, n, i);
    forall j | Picks(arms, n, j)
      ensures j == i
    {
      OnePickOnly(arms, n, i, j);
    }
  }

  lemma OnePickOnly(arms: seq<Arm>, n: int, i: int, j: int)
    requires Picks(arms, n, i) && Picks(arms, n, j)
    ensures i == j
  {
    var a, b := i + 1, j + 1;
    assert !(a <= j) && !(b <= i);
  }

  // ---- How many draws pick an arm ---------------------------------------------------------------

  /** The highest cumulated weight of the first `k` arms. */
  function Peak(arms: seq<Arm>, k: nat): int
    requires k <= |arms|
  {
    if k == 0 then 0 else Max(Peak(arms, k - 1), Prefix(arms, k))
  }

  lemma {:induction false} PeakBounds(arms: seq<Arm>, k: nat)
    requires k <= |arms|
    ensures Peak(arms, k) >= 0
    ensures forall j :: 0 <= j <= k ==> Prefix(arms, j) <= Peak(arms, k)
    ensures exists j :: 0 <= j <= k && Prefix(arms, j) == Peak(arms, k)
    decreases k
  {
    if k == 0 {
      assert Prefix(arms, 0) == Peak(arms, 0);
    } else {
      PeakBounds(arms, k - 1);
      if Peak(arms, k) == Peak(arms, k - 1) {
        var j :| 0 <= j <= k - 1 && Prefix(arms, j) == Peak(arms, k - 1);
        assert Prefix(arms, j) == Peak(arms, k);
      } else {
        assert Prefix(arms, k) == Peak(arms, k);
      }
    }
  }

  /** Arm `i` takes the draws between the peaks before and after it, whatever the signs of the weights. */
  lemma PickedBetweenPeaks(arms: seq<Arm>, n: int, i: nat)
    requires i < |arms| && n >= 0
    ensures Picks(arms, n, i) <==> Peak(arms, i) <= n < Peak(arms, i + 1)
  {
    PeakBounds(arms, i);
  }

  function Interval(a: int, b: int): (r: set<int>)
    ensures forall x :: x in r <==> a <= x < b
    decreases b - a
  {
    if a >= b then {} else {a} + Interval(a + 1, b)
  }

  lemma {:induction false} IntervalSize(a: int, b: int)
    ensures |Interval(a, b)| == Max(0, b - a)
    decreases b - a
  {
    if a >= b {
    } else {
      IntervalSize(a + 1, b);
      assert a !in Interval(a + 1, b);
    }
  }

  ghost function DrawsFor(arms: seq<Arm>, i: nat): set<int> {
    set n: int | 0 <= n < Total(arms) && Picks(arms, n, i)
  }

  /** For arbitrary integer weights: the draws of arm `i` are as many as the peak rises there, up to the total. */
  lemma DrawsForAnyWeights(arms: seq<Arm>, i: nat)
    requires i < |arms| && Total(arms) > 0
    ensures |DrawsFor(arms, i)| == Min(Peak(arms, i + 1), Total(arms)) - Min(Peak(arms, i), Total(arms))
  {
    var lo, hi := Min(Peak(arms, i), Total(arms)), Min(Peak(arms, i + 1), Total(arms));
    PeakBounds(arms, i);
    forall n
      ensures n in DrawsFor(arms, i) <==> n in Interval(lo, hi)
    {
      if n >= 0 {
        PickedBetweenPeaks(arms, n, i);
      }
    }
    assert DrawsFor(arms, i) == Interval(lo, hi);
    IntervalSize(lo, hi);
  }

  predicate NonNegative(arms: seq<Arm>) {
    forall arm <- arms :: arm.weight >= 0
  }

  lemma {:induction false} NonNegativePeaks(arms: seq<Arm>, k: nat)
    requires k <= |arms| && NonNegative(arms)
    ensures Peak(arms, k) == Prefix(arms, k) && 0 <= Prefix(arms, k)
    ensures forall j :: 0 <= j <= k ==> Prefix(arms, j) <= Prefix(arms, k)
    decreases k
  {
    if k == 0 {
    } else {
      assert arms[k - 1] in arms;
      NonNegativePeaks(arms, k - 1);
    }
  }

  /** Exact fairness: of the `W` draws exactly `w_i` pick arm `i`. */
  lemma ExactlyWeightManyDraws(arms: seq<Arm>, i: nat)
    requires i < |arms| && NonNegative(arms) && Total(arms) > 0
    ensures |DrawsFor(arms, i)| == arms[i].weight
  {
    NonNegativePeaks(arms, |arms|);
    NonNegativePeaks(arms, i);
    NonNegativePeaks(arms, i + 1);
    DrawsForAnyWeights(arms, i);
  }

  // ---- How many hashes pick an arm --------------------------------------------------------------

  /** A sticky value with hash `h` goes to arm `i`. */
  ghost predicate HashPicks(arms: seq<Arm>, h: nat, i: nat)
    requires Total(arms) > 0
  {
    Picks(arms, h % Total(arms), i)
  }

  ghost function HashesFor(arms: seq<Arm>, bound: nat, i: nat): set<nat>
    requires Total(arms) > 0
  {
    set h: nat | h < bound && HashPicks(arms, h, i)
  }

  /** Hashes below `bound` with a residue in `[lo, hi)`: full rounds plus the part of the last one. */
  function Hits(q: nat, r: nat, lo: nat, hi: nat): int {
    (hi - lo) * q + Max(0, Min(hi, r) - lo)
  }

  /** One more hash value joins the set of arm `i` exactly when its residue lies in the arm's interval. */
  lemma HashesNext(arms: seq<Arm>, h: nat, i: nat)
    requires i < |arms| && NonNegative(arms) && Total(arms) > 0
    ensures |HashesFor(arms, h + 1, i)| == |HashesFor(arms, h, i)|
         + (if Prefix(arms, i) <= h % Total(arms) < Prefix(arms, i + 1) then 1 else 0)
  {
    NonNegativePeaks(arms, i);
    NonNegativePeaks(arms, i + 1);
    PickedBetweenPeaks(arms, h % Total(arms), i);
    assert h !in HashesFor(arms, h, i);
    if HashPicks(arms, h, i) {
      assert HashesFor(arms, h + 1, i) == HashesFor(arms, h, i) + {h};
    } else {
      assert HashesFor(arms, h + 1, i) == HashesFor(arms, h, i);
    }
  }

  lemma {:induction false} HashesForCount(arms: seq<Arm>, bound: nat, i: nat)
    requires i < |arms| && NonNegative(arms) && Total(arms) > 0
    ensures 0 <= Prefix(arms, i) <= Prefix(arms, i + 1) <= Total(arms)
    ensures |HashesFor(arms, bound, i)|
         == Hits(bound / Total(arms), bound % Total(arms), Prefix(arms, i), Prefix(arms, i + 1))
    decreases bound
  {
    NonNegativePeaks(arms, |arms|);
    NonNegativePeaks(arms, i);
    NonNegativePeaks(arms, i + 1);
    if bound == 0 {
      assert HashesFor(arms, 0, i) == {};
      DivModSmall(0, Total(arms));
    } else {
      HashesForCount(arms, bound - 1, i);
      HashesNext(arms, bound - 1, i);
      HitsOfNext(bound - 1, Total(arms), Prefix(arms, i), Prefix(arms, i + 1));
    }
  }

  lemma HitsOfNext(h: nat, w: nat, lo: nat, hi: nat)
    requires lo <= hi <= w && w > 0
    ensures Hits((h + 1) / w, (h + 1) % w, lo, hi)
         == Hits(h / w, h % w, lo, hi) + (if lo <= h % w < hi then 1 else 0)
  {
    NextDivMod(h, w);
    HitsNext(h / w, h % w, lo, hi, w);
  }

  lemma DivModSmall(a: nat, w: nat)
    requires a < w
    ensures a / w == 0 && a % w == a
  {
  }

  lemma NextDivMod(h: nat, w: nat)
    requires w > 0
    ensures if h % w == w - 1 then (h + 1) / w == h / w + 1 && (h + 1) % w == 0
            else (h + 1) / w == h / w && (h + 1) % w == h % w + 1
  {
    var q, r := h / w, h % w;
    assert h == q * w + r;
    if r == w - 1 {
      assert h + 1 == (q + 1) * w;
      QuotientIs(h + 1, w, q + 1);
    } else {
      QuotientIs(h + 1, w, q);
    }
    assert h + 1 == (h + 1) / w * w + (h + 1) % w;
  }

  lemma HitsNext(q: nat, r: nat, lo: nat, hi: nat, w: nat)
    requires lo <= hi <= w && r < w
    ensures (if r == w - 1 then Hits(q + 1, 0, lo, hi) else Hits(q, r + 1, lo, hi))
         == Hits(q, r, lo, hi) + (if lo <= r < hi then 1 else 0)
  {
    assert (hi - lo) * (q + 1) == (hi - lo) * q + (hi - lo);
  }

  /**
   Bias of the sticky choice: of the 2^32 hash values between `w_i * floor(2^32 / W)` and
   `w_i * ceil(2^32 / W)` go to arm `i`.
   */
  lemma HashBias(arms: seq<Arm>, i: nat)
    requires i < |arms| && NonNegative(arms) && 0 < Total(arms) < TWO_32
    ensures arms[i].weight * (TWO_32 / Total(arms)) <= |HashesFor(arms, TWO_32, i)|
    ensures |HashesFor(arms, TWO_32, i)| <= arms[i].weight * ((TWO_32 + Total(arms) - 1) / Total(arms))
  {
    HashBiasBelow(arms, i, TWO_32);
  }

  lemma HashBiasBelow(arms: seq<Arm>, i: nat, bound: nat)
    requires i < |arms| && NonNegative(arms) && 0 < Total(arms)
    ensures arms[i].weight * (bound / Total(arms)) <= |HashesFor(arms, bound, i)|
    ensures |HashesFor(arms, bound, i)| <= arms[i].weight * ((bound + Total(arms) - 1) / Total(arms))
  {
    assert arms[i] in arms;
    HashesForCount(arms, bound, i);
    HitsBounds(bound, Total(arms), Prefix(arms, i), Prefix(arms, i + 1));
  }

  lemma HitsBounds(bound: nat, w: nat, lo: nat, hi: nat)
    requires lo <= hi <= w && w > 0
    ensures (hi - lo) * (bound / w) <= Hits(bound / w, bound % w, lo, hi) <= (hi - lo) * ((bound + w - 1) / w)
  {
    var q, r := bound / w, bound % w;
    assert bound == q * w + r;
    if r == 0 {
      QuotientIs(bound + w - 1, w, q);
    } else {
      assert (q + 1) * w == q * w + w;
      QuotientIs(bound + w - 1, w, q + 1);
      assert (hi - lo) * (q + 1) == (hi - lo) * q + (hi - lo);
    }
  }
}
