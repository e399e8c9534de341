/** Percentiles read off a histogram of response times. */
module Percentile {
  import opened Rounding

  // ---------- the histogram ----------

  predicate Increasing(edges: seq<int>) {
    forall i, j :: 0 <= i < j < |edges| ==> edges[i] < edges[j]
  }

  /** Bucket `i` is closed above by `edges[i]`; the last bucket is open. */
  predicate InBucket(ms: real, edges: seq<int>, i: nat) {
    i <= |edges| && (i > 0 ==> edges[i - 1] as real < ms) && (i < |edges| ==> ms <= edges[i] as real)
  }

  function Bucket(ms: real, edges: seq<int>): (i: nat)
    ensures i <= |edges| && (i < |edges| ==> ms <= edges[i] as real)
    ensures forall j :: 0 <= j < i ==> edges[j] as real < ms
  {
    if edges == [] then 0
    else
      var i := Bucket(ms, edges[..|edges| - 1]);
      if i == |edges| - 1 && ms > edges[i] as real then |edges| else i
  }

  method HistIndex(ms: real, edges: seq<int>) returns (i: nat)
    ensures i == Bucket(ms, edges)
  {
    i := 0;
    while i < |edges|
      invariant i <= |edges|
      invariant forall j :: 0 <= j < i ==> edges[j] as real < ms
    {
      if ms <= edges[i] as real {
        return;
      }
      i := i + 1;
    }
  }

  lemma BucketUnique(ms: real, edges: seq<int>, i: nat)
    requires Increasing(edges)
    ensures InBucket(ms, edges, i) <==> i == Bucket(ms, edges)
  {
  }

  function Placed(counts: seq<nat>, ms: real, edges: seq<int>): seq<nat>
    requires |counts| == |edges| + 1
  {
    counts[Bucket(ms, edges) := counts[Bucket(ms, edges)] + 1]
  }

  method Observe(hist: array<nat>, ms: real, edges: seq<int>)
    requires hist.Length == |edges| + 1
    modifies hist
    ensures hist[..] == Placed(old(hist[..]), ms, edges)
  {
    var i := HistIndex(ms, edges);
    hist[i] := hist[i] + 1;
  }

  function Histogram(samples: seq<real>, edges: seq<int>): (r: seq<nat>)
    ensures |r| == |edges| + 1
  {
    if samples == [] then seq(|edges| + 1, _ => 0)
    else Placed(Histogram(samples[..|samples| - 1], edges), samples[|samples| - 1], edges)
  }

  function Sum(counts: seq<nat>): nat {
    if counts == [] then 0 else Sum(counts[..|counts| - 1]) + counts[|counts| - 1]
  }

  // ---------- the percentile ----------

  datatype Value = NoValue | Value(ms: real)

  function Lower(edges: seq<int>, k: nat): real
    requires k <= |edges|
  {
    if k == 0 then 0.0 else edges[k - 1] as real
  }

  /** Bucket `k` is where `target` samples are reached. */
  predicate Reached(counts: seq<nat>, target: real, k: nat) {
    && k < |counts| && counts[k] > 0
    && target <= (Sum(counts[..k]) + counts[k]) as real
    && (Sum(counts[..k]) as real < target || Sum(counts[..k]) == 0)
  }

  function Within(counts: seq<nat>, edges: seq<int>, target: real, k: nat): real
    requires k < |counts| && counts[k] > 0 && |counts| == |edges| + 1 && edges != []
  {
    if k == |edges| then edges[k - 1] as real
    else Between(Lower(edges, k), edges[k] as real, Share(target, Sum(counts[..k]), counts[k]))
  }

  /** The part of bucket content `c` that is needed beyond `cum` to reach the target. */
  function Share(target: real, cum: nat, c: nat): real
    requires c > 0
  {
    (target - cum as real) / c as real
  }

  function Between(lo: real, hi: real, t: real): real {
    lo + Scaled(hi - lo, t)
  }

  function Scaled(d: real, t: real): real {
    d * t
  }

  /** The value divides its bucket as the target divides the bucket's content; in the open bucket it is the last edge. */
  lemma WithinIs(counts: seq<nat>, edges: seq<int>, target: real, k: nat)
    requires k < |counts| && counts[k] > 0 && |counts| == |edges| + 1 && edges != []
    ensures var v, lo := Within(counts, edges, target, k), if k == 0 then 0.0 else edges[k - 1] as real;
            if k == |edges| then v == lo
            else (v - lo) * counts[k] as real == (edges[k] as real - lo) * (target - Sum(counts[..k]) as real)
  {
    if k < |edges| {
      var c, share := counts[k] as real, Share(target, Sum(counts[..k]), counts[k]);
      assert share * c == target - Sum(counts[..k]) as real;
      ScaledTimes(edges[k] as real - Lower(edges, k), share, c);
    }
  }

  lemma ScaledTimes(d: real, t: real, c: real)
    ensures Scaled(d, t) * c == d * (t * c)
  {
  }

  predicate ReadOff(counts: seq<nat>, edges: seq<int>, target: real, v: real)
    requires |counts| == |edges| + 1 && edges != []
  {
    exists k :: 0 <= k < |counts| && Reached(counts, target, k) && v == Within(counts, edges, target, k)
  }

  lemma {:induction false} SumSplits(counts: seq<nat>, k: nat)
    requires k <= |counts|
    ensures Sum(counts[..k]) <= Sum(counts)
    ensures k < |counts| ==> Sum(counts[..k + 1]) == Sum(counts[..k]) + counts[k]
  {
    if k < |counts| {
      assert counts[..k + 1][..k] == counts[..k];
      if k < |counts| - 1 {
        SumSplits(counts[..|counts| - 1], k);
        assert counts[..|counts| - 1][..k] == counts[..k];
      }
    } else {
      assert counts[..k] == counts;
    }
  }

  /** How many samples make up the share `q` of `total`. */
  function Target(total: nat, q: real): real {
    total as real * q
  }

  method HistPercentile(counts: seq<nat>, edges: seq<int>, q: real) returns (r: Value)
    requires |counts| == |edges| + 1 && edges != []
    ensures r.NoValue? <==> Sum(counts) == 0
    ensures r.Value? && q > 1.0 ==> r.ms == edges[|edges| - 1] as real
    ensures r.Value? && q <= 1.0 ==> ReadOff(counts, edges, Target(Sum(counts), q), r.ms)
  {
    var total := Sum(counts);
    if total == 0 {
      return NoValue;
    }
    AllBelowTarget(total, q);
    var ms := ReadTarget(counts, edges, Target(total, q));
    r := Value(ms);
  }

  /** The loop of the percentile: the first non-empty bucket where the running count reaches the target. */
  method ReadTarget(counts: seq<nat>, edges: seq<int>, target: real) returns (ms: real)
    requires |counts| == |edges| + 1 && edges != [] && Sum(counts) > 0
    ensures if target <= Sum(counts) as real then ReadOff(counts, edges, target, ms) else ms == edges[|edges| - 1] as real
  {
    var cum := 0;
    for i := 0 to |counts|
      invariant cum == Sum(counts[..i])
      invariant cum == 0 || cum as real < target
    {
      var c := counts[i];
      SumSplits(counts, i);
      SumSplits(counts, i + 1);
      if c > 0 && target <= (cum + c) as real {
        assert Reached(counts, target, i);
        if i >= |edges| {
          ms := edges[|edges| - 1] as real;
        } else {
          var lo := if i == 0 then 0.0 else edges[i - 1] as real;
          ms := Between(lo, edges[i] as real, Share(target, cum, c));
        }
        assert ms == Within(counts, edges, target, i);
        return;
      }
      cum := cum + c;
    }
    assert counts[..|counts|] == counts;
    ms := edges[|edges| - 1] as real;
  }

  lemma AllBelowTarget(total: nat, q: real)
    requires total > 0
    ensures Target(total, q) > total as real <==> q > 1.0
  {
    var n := total as real;
    assert Target(total, q) - n == n * (q - 1.0);
    if q > 1.0 {
      NotNegative(n, q - 1.0);
    } else {
      NotNegative(n, 1.0 - q);
      assert n * (q - 1.0) == -(n * (1.0 - q));
    }
  }

  // ---------- what it says about the samples ----------

  /** How many samples lie in buckets below `k`. */
  function InBucketsBelow(samples: seq<real>, edges: seq<int>, k: nat): nat {
    if samples == [] then 0
    else InBucketsBelow(samples[..|samples| - 1], edges, k) + if Bucket(samples[|samples| - 1], edges) < k then 1 else 0
  }

  function Below(samples: seq<real>, ms: real): nat {
    if samples == [] then 0 else Below(samples[..|samples| - 1], ms) + if samples[|samples| - 1] < ms then 1 else 0
  }

  function AtMost(samples: seq<real>, ms: real): nat {
    if samples == [] then 0 else AtMost(samples[..|samples| - 1], ms) + if samples[|samples| - 1] <= ms then 1 else 0
  }

  /** `ms` is the `rank`-th smallest sample, counting from one and with repetitions. */
  predicate Ranked(samples: seq<real>, rank: int, ms: real) {
    Below(samples, ms) < rank <= AtMost(samples, ms)
  }

  lemma {:induction false} CountsConcat(a: seq<real>, b: seq<real>, ms: real)
    ensures Below(a + b, ms) == Below(a, ms) + Below(b, ms) && AtMost(a + b, ms) == AtMost(a, ms) + AtMost(b, ms)
  {
    if b == [] {
      assert a + b == a;
    } else {
      CountsConcat(a, b[..|b| - 1], ms);
      assert (a + b)[..|a + b| - 1] == a + b[..|b| - 1];
    }
  }

  lemma WithoutOne(a: seq<real>, x: real, b: seq<real>) returns (j: nat)
    requires multiset(a + [x]) == multiset(b)
    ensures j < |b| && b[j] == x && multiset(a) == multiset(b[..j] + b[j + 1..])
  {
    assert x in multiset(a + [x]);
    j :| 0 <= j < |b| && b[j] == x;
    assert b == b[..j] + [x] + b[j + 1..];
    assert multiset(a) == multiset(a + [x]) - multiset{x};
    assert multiset(b[..j] + b[j + 1..]) == multiset(b) - multiset{x};
  }

  lemma CountsWithOne(front: seq<real>, x: real, back: seq<real>, ms: real)
    ensures Below(front + [x] + back, ms) == Below(front + back, ms) + if x < ms then 1 else 0
    ensures AtMost(front + [x] + back, ms) == AtMost(front + back, ms) + if x <= ms then 1 else 0
  {
    CountsConcat(front, back, ms);
    CountsConcat(front + [x], back, ms);
    assert (front + [x])[..|front|] == front;
  }

  /** The counts do not depend on the order of the samples. */
  lemma {:induction false} CountsAnyOrder(a: seq<real>, b: seq<real>, ms: real)
    requires multiset(a) == multiset(b)
    ensures Below(a, ms) == Below(b, ms) && AtMost(a, ms) == AtMost(b, ms)
  {
    assert |multiset(a)| == |a| && |multiset(b)| == |b|;
    if a != [] {
      var init, x := a[..|a| - 1], a[|a| - 1];
      assert a == init + [x];
      var j := WithoutOne(init, x, b);
      CountsAnyOrder(init, b[..j] + b[j + 1..], ms);
      CountsWithOne(b[..j], x, b[j + 1..], ms);
      assert b == b[..j] + [x] + b[j + 1..];
    }
  }

  lemma {:induction false} CountsOfSorted(s: seq<real>, ms: real, k: nat)
    requires k < |s| && s[k] == ms && forall i, j :: 0 <= i < j < |s| ==> s[i] <= s[j]
    ensures Below(s, ms) <= k < AtMost(s, ms) <= |s|
  {
    var n := |s| - 1;
    if k < n {
      CountsOfSorted(s[..n], ms, k);
    } else {
      AllAtMost(s, ms);
    }
  }

  lemma {:induction false} AllAtMost(s: seq<real>, ms: real)
    requires s != [] && s[|s| - 1] == ms && forall i :: 0 <= i < |s| ==> s[i] <= ms
    ensures AtMost(s, ms) == |s| && Below(s, ms) < |s|
  {
    CountsBounded(s[..|s| - 1], ms);
  }

  lemma {:induction false} CountsBounded(s: seq<real>, ms: real)
    ensures Below(s, ms) <= AtMost(s, ms) <= |s|
    ensures (forall i :: 0 <= i < |s| ==> s[i] <= ms) ==> AtMost(s, ms) == |s|
  {
    if s != [] {
      CountsBounded(s[..|s| - 1], ms);
    }
  }

  /** That is, it has that place when the samples are sorted. */
  lemma RankedSorted(samples: seq<real>, sorted: seq<real>, rank: int)
    requires multiset(samples) == multiset(sorted) && forall i, j :: 0 <= i < j < |sorted| ==> sorted[i] <= sorted[j]
    requires 1 <= rank <= |sorted|
    ensures Ranked(samples, rank, sorted[rank - 1])
  {
    CountsAnyOrder(samples, sorted, sorted[rank - 1]);
    CountsOfSorted(sorted, sorted[rank - 1], rank - 1);
  }

  lemma PlacedSum(counts: seq<nat>, ms: real, edges: seq<int>, k: nat)
    requires |counts| == |edges| + 1 && k <= |counts|
    ensures Sum(Placed(counts, ms, edges)[..k]) == Sum(counts[..k]) + if Bucket(ms, edges) < k then 1 else 0
  {
    var b := Bucket(ms, edges);
    PlusOneSum(counts, b, k);
  }

  lemma {:induction false} PlusOneSum(counts: seq<nat>, b: nat, k: nat)
    requires b < |counts| && k <= |counts|
    ensures Sum(counts[b := counts[b] + 1][..k]) == Sum(counts[..k]) + if b < k then 1 else 0
  {
    var more := counts[b := counts[b] + 1];
    if k > 0 {
      PlusOneSum(counts, b, k - 1);
      assert more[..k][..k - 1] == more[..k - 1] && counts[..k][..k - 1] == counts[..k - 1];
    }
  }

  lemma {:induction false} HistogramSums(samples: seq<real>, edges: seq<int>, k: nat)
    requires k <= |edges| + 1
    ensures Sum(Histogram(samples, edges)[..k]) == InBucketsBelow(samples, edges, k)
  {
    if samples == [] {
      ZeroSum(Histogram(samples, edges), k);
    } else {
      HistogramSums(samples[..|samples| - 1], edges, k);
      PlacedSum(Histogram(samples[..|samples| - 1], edges), samples[|samples| - 1], edges, k);
    }
  }

  lemma {:induction false} ZeroSum(counts: seq<nat>, k: nat)
    requires k <= |counts| && forall i :: 0 <= i < |counts| ==> counts[i] == 0
    ensures Sum(counts[..k]) == 0
  {
    if k > 0 {
      ZeroSum(counts, k - 1);
      assert counts[..k][..k - 1] == counts[..k - 1];
    }
  }

  lemma {:induction false} AllCounted(samples: seq<real>, edges: seq<int>)
    ensures Sum(Histogram(samples, edges)) == |samples|
  {
    HistogramSums(samples, edges, |edges| + 1);
    assert Histogram(samples, edges)[..|edges| + 1] == Histogram(samples, edges);
    AllBelowTop(samples, edges);
  }

  lemma {:induction false} AllBelowTop(samples: seq<real>, edges: seq<int>)
    ensures InBucketsBelow(samples, edges, |edges| + 1) == |samples|
  {
    if samples != [] {
      AllBelowTop(samples[..|samples| - 1], edges);
    }
  }

  lemma BucketMonotone(a: real, b: real, edges: seq<int>)
    requires a <= b
    ensures Bucket(a, edges) <= Bucket(b, edges)
  {
    assert Bucket(b, edges) < |edges| ==> b <= edges[Bucket(b, edges)] as real;
  }

  lemma {:induction false} LowerBucketsBelow(samples: seq<real>, edges: seq<int>, ms: real)
    ensures InBucketsBelow(samples, edges, Bucket(ms, edges)) <= Below(samples, ms)
    ensures AtMost(samples, ms) <= InBucketsBelow(samples, edges, Bucket(ms, edges) + 1)
  {
    if samples != [] {
      LowerBucketsBelow(samples[..|samples| - 1], edges, ms);
      var x := samples[|samples| - 1];
      if x <= ms {
        BucketMonotone(x, ms, edges);
      } else {
        BucketMonotone(ms, x, edges);
      }
    }
  }

  lemma {:induction false} BelowGrows(samples: seq<real>, edges: seq<int>, j: nat, k: nat)
    requires j <= k
    ensures InBucketsBelow(samples, edges, j) <= InBucketsBelow(samples, edges, k)
  {
    if samples != [] {
      BelowGrows(samples[..|samples| - 1], edges, j, k);
    }
  }

  /** The bucket where the target is reached is the bucket of the sample whose rank is the target rounded up. */
  lemma RankedBucket(samples: seq<real>, edges: seq<int>, target: real, k: nat, ms: real)
    requires target > 0.0 && Reached(Histogram(samples, edges), target, k)
    requires Ranked(samples, Ceil(target), ms)
    ensures Bucket(ms, edges) == k
  {
    var counts := Histogram(samples, edges);
    SumSplits(counts, k);
    HistogramSums(samples, edges, k);
    HistogramSums(samples, edges, k + 1);
    LowerBucketsBelow(samples, edges, ms);
    var b := Bucket(ms, edges);
    if b < k {
      BelowGrows(samples, edges, b + 1, k);
    } else if k < b {
      BelowGrows(samples, edges, k + 1, b);
    }
  }

  lemma Interpolated(lo: real, hi: real, t: real)
    requires lo <= hi && 0.0 < t <= 1.0
    ensures lo <= Between(lo, hi, t) <= hi && (lo < hi ==> lo < Between(lo, hi, t))
  {
    PartOf(hi - lo, t);
  }

  lemma PartOf(d: real, t: real)
    requires d >= 0.0 && 0.0 < t <= 1.0
    ensures 0.0 <= Scaled(d, t) <= d && (d > 0.0 ==> Scaled(d, t) > 0.0)
  {
    NotNegative(d, t);
    NotNegative(d, 1.0 - t);
    assert d * (1.0 - t) == d - d * t;
  }

  lemma NotNegative(a: real, b: real)
    requires a >= 0.0 && b >= 0.0
    ensures a * b >= 0.0 && (a > 0.0 && b > 0.0 ==> a * b > 0.0)
  {
  }

  lemma ShareRange(target: real, cum: nat, c: nat)
    requires c > 0 && cum as real < target <= (cum + c) as real
    ensures 0.0 < Share(target, cum, c) <= 1.0
  {
    var x := target - cum as real;
    var y := x / c as real;
    assert y * c as real == x;
  }

  lemma PositiveTarget(n: nat, q: real)
    requires n > 0 && q > 0.0
    ensures Target(n, q) > 0.0
  {
  }

  lemma WithinBounds(counts: seq<nat>, edges: seq<int>, target: real, k: nat)
    requires |counts| == |edges| + 1 && edges != [] && Increasing(edges) && edges[0] > 0 && target > 0.0
    requires Reached(counts, target, k)
    ensures Lower(edges, k) <= Within(counts, edges, target, k)
    ensures if k < |edges| then InBucket(Within(counts, edges, target, k), edges, k) && Within(counts, edges, target, k) > 0.0
            else Within(counts, edges, target, k) == Lower(edges, k)
  {
    if k < |edges| {
      ShareRange(target, Sum(counts[..k]), counts[k]);
      Interpolated(Lower(edges, k), edges[k] as real, Share(target, Sum(counts[..k]), counts[k]));
    }
  }

  lemma RankInRange(n: nat, q: real)
    requires n > 0 && 0.0 < q <= 1.0
    ensures 1 <= Ceil(Target(n, q)) <= n
  {
    PositiveTarget(n, q);
    AllBelowTarget(n, q);
  }

  /** For any samples, increasing positive edges and `q` in (0, 1], the reported value lies in the same bucket as the true
      `ceil(q * N)`-th smallest sample; for the open last bucket it is that bucket's lower edge. */
  lemma PercentileInBucket(samples: seq<real>, sorted: seq<real>, edges: seq<int>, q: real, v: real, rank: int)
    requires edges != [] && edges[0] > 0 && (forall i, j :: 0 <= i < j < |edges| ==> edges[i] < edges[j])
    requires 0.0 < q <= 1.0 && samples != []
    requires multiset(samples) == multiset(sorted) && forall i, j :: 0 <= i < j < |sorted| ==> sorted[i] <= sorted[j]
    requires ReadOff(Histogram(samples, edges), edges, Target(Sum(Histogram(samples, edges)), q), v)
    requires rank == Ceil(Target(|samples|, q))
    ensures 1 <= rank <= |sorted|
    ensures var ms := sorted[rank - 1]; var b := Bucket(ms, edges);
            if b == |edges| then v == edges[b - 1] as real < ms else Bucket(v, edges) == b && v > 0.0
  {
    assert |multiset(samples)| == |samples| && |multiset(sorted)| == |sorted|;
    RankInRange(|samples|, q);
    RankedSorted(samples, sorted, rank);
    PositiveTarget(|samples|, q);
    AllCounted(samples, edges);
    TargetInBucket(samples, edges, Target(|samples|, q), v, sorted[rank - 1]);
  }

  lemma TargetInBucket(samples: seq<real>, edges: seq<int>, target: real, v: real, ms: real)
    requires edges != [] && Increasing(edges) && edges[0] > 0 && target > 0.0
    requires ReadOff(Histogram(samples, edges), edges, target, v)
    requires Ranked(samples, Ceil(target), ms)
    ensures var b := Bucket(ms, edges);
            if b == |edges| then v == Lower(edges, b) < ms else Bucket(v, edges) == b && v > 0.0
  {
    var counts := Histogram(samples, edges);
    var k :| 0 <= k < |counts| && Reached(counts, target, k) && v == Within(counts, edges, target, k);
    RankedBucket(samples, edges, target, k, ms);
    WithinBounds(counts, edges, target, k);
    BucketUnique(v, edges, k);
    BucketUnique(ms, edges, k);
  }

  lemma {:induction false} PrefixGrows(counts: seq<nat>, j: nat, k: nat)
    requires j <= k <= |counts|
    ensures Sum(counts[..j]) <= Sum(counts[..k])
  {
    if j < k {
      PrefixGrows(counts, j, k - 1);
      SumSplits(counts, k - 1);
    }
  }

  lemma BetweenGrows(lo: real, hi: real, a: real, b: real)
    requires lo <= hi && a <= b
    ensures Between(lo, hi, a) <= Between(lo, hi, b)
  {
    ScaledGrows(hi - lo, a, b);
  }

  lemma ScaledGrows(d: real, a: real, b: real)
    requires d >= 0.0 && a <= b
    ensures Scaled(d, a) <= Scaled(d, b)
  {
    NotNegative(d, b - a);
    assert d * (b - a) == d * b - d * a;
  }

  lemma ShareGrows(t1: real, t2: real, cum: nat, c: nat)
    requires c > 0 && t1 <= t2
    ensures Share(t1, cum, c) <= Share(t2, cum, c)
  {
    var a, b := Share(t1, cum, c), Share(t2, cum, c);
    assert a * c as real == t1 - cum as real && b * c as real == t2 - cum as real;
  }

  lemma ReachedOrder(counts: seq<nat>, t1: real, t2: real, k1: nat, k2: nat)
    requires 0.0 < t1 <= t2 && Reached(counts, t1, k1) && Reached(counts, t2, k2)
    ensures k1 <= k2
  {
    SumSplits(counts, k2);
    if k2 < k1 {
      PrefixGrows(counts, k2 + 1, k1);
    }
  }

  lemma SameBucket(counts: seq<nat>, edges: seq<int>, t1: real, t2: real, k: nat)
    requires |counts| == |edges| + 1 && edges != [] && Increasing(edges) && edges[0] > 0
    requires k < |counts| && counts[k] > 0 && t1 <= t2
    ensures Within(counts, edges, t1, k) <= Within(counts, edges, t2, k)
  {
    if k < |edges| {
      var cum, c := Sum(counts[..k]), counts[k];
      ShareGrows(t1, t2, cum, c);
      BetweenGrows(Lower(edges, k), edges[k] as real, Share(t1, cum, c), Share(t2, cum, c));
    }
  }

  lemma LowerBucket(edges: seq<int>, k1: nat, k2: nat, v1: real, v2: real)
    requires Increasing(edges) && k1 < k2 <= |edges| && InBucket(v1, edges, k1) && Lower(edges, k2) <= v2
    ensures v1 <= v2
  {
  }

  lemma TargetMonotone(counts: seq<nat>, edges: seq<int>, t1: real, t2: real, v1: real, v2: real)
    requires |counts| == |edges| + 1 && edges != [] && Increasing(edges) && edges[0] > 0 && 0.0 < t1 <= t2
    requires ReadOff(counts, edges, t1, v1) && ReadOff(counts, edges, t2, v2)
    ensures v1 <= v2
  {
    var k1 :| 0 <= k1 < |counts| && Reached(counts, t1, k1) && v1 == Within(counts, edges, t1, k1);
    var k2 :| 0 <= k2 < |counts| && Reached(counts, t2, k2) && v2 == Within(counts, edges, t2, k2);
    ReachedOrder(counts, t1, t2, k1, k2);
    WithinBounds(counts, edges, t1, k1);
    WithinBounds(counts, edges, t2, k2);
    if k1 == k2 {
      SameBucket(counts, edges, t1, t2, k1);
    } else {
      LowerBucket(edges, k1, k2, v1, v2);
    }
  }

  /** A higher percentile is never reported lower. */
  lemma PercentileMonotone(counts: seq<nat>, edges: seq<int>, q1: real, q2: real, v1: real, v2: real)
    requires |counts| == |edges| + 1 && edges != [] && edges[0] > 0
    requires (forall i, j :: 0 <= i < j < |edges| ==> edges[i] < edges[j]) && 0.0 < q1 <= q2 && Sum(counts) > 0
    requires ReadOff(counts, edges, Target(Sum(counts), q1), v1) && ReadOff(counts, edges, Target(Sum(counts), q2), v2)
    ensures v1 <= v2
  {
    var n := Sum(counts);
    PositiveTarget(n, q1);
    TargetGrows(n, q1, q2);
    TargetMonotone(counts, edges, Target(n, q1), Target(n, q2), v1, v2);
  }

  lemma TargetGrows(n: nat, q1: real, q2: real)
    requires q1 <= q2
    ensures Target(n, q1) <= Target(n, q2)
  {
    NotNegative(n as real, q2 - q1);
    assert Target(n, q2) - Target(n, q1) == n as real * (q2 - q1);
  }
}
