/** Time buckets: where they start, and how far apart the starts of two times can be. */
module Buckets {

  /** A ballot commits within the grace period after it has read the clock. */
  const GRACE_S := 60

  /** The start of the bucket that a time falls in: `t - t % bucket`, by counting whole buckets off. */
  function BucketStart(t: int, bucket: int): int
    requires bucket > 0
    decreases if t < 0 then bucket - t else if t < bucket then 0 else t
  {
    if t < 0 then BucketStart(t + bucket, bucket) - bucket
    else if t < bucket then 0
    else BucketStart(t - bucket, bucket) + bucket
  }

  lemma {:induction false} BucketStartIs(t: int, bucket: int)
    requires bucket > 0
    ensures BucketStart(t, bucket) == t - t % bucket
    decreases if t < 0 then bucket - t else if t < bucket then 0 else t
  {
    if t < 0 {
      BucketStartIs(t + bucket, bucket);
      ModPlus(t, bucket);
    } else if t < bucket {
      SmallMod(t, bucket);
    } else {
      BucketStartIs(t - bucket, bucket);
      ModPlus(t - bucket, bucket);
      assert t - bucket + bucket == t;
    }
  }

  lemma SmallMod(t: int, bucket: int)
    requires 0 <= t < bucket
    ensures t % bucket == t
  {
  }

  lemma ModPlus(x: int, b: int)
    requires b > 0
    ensures (x + b) % b == x % b
  {
    var p, r := x / b, x % b;
    assert x + b == (p + 1) * b + r;
    QuotientUnique(x + b, p + 1, r, b);
  }

  lemma QuotientUnique(x: int, p: int, r: int, b: int)
    requires b > 0 && x == p * b + r && 0 <= r < b
    ensures x % b == r && x / b == p
  {
    var q, m := x / b, x % b;
    assert (p - q) * b == m - r;
    if p > q {
      Times(b, 1, p - q);
    } else if p < q {
      Times(b, 1, q - p);
    }
  }

  lemma Times(b: int, x: int, y: int)
    requires b > 0 && x <= y
    ensures b * x <= b * y
  {
  }

  lemma {:induction false} StartOfStart(t: int, bucket: int)
    requires bucket > 0
    ensures BucketStart(BucketStart(t, bucket), bucket) == BucketStart(t, bucket) <= t < BucketStart(t, bucket) + bucket
    decreases if t < 0 then bucket - t else if t < bucket then 0 else t
  {
    if t < 0 {
      StartOfStart(t + bucket, bucket);
    } else if t >= bucket {
      StartOfStart(t - bucket, bucket);
    }
  }

  /** Buckets follow each other without overlap. */
  lemma {:induction false} BucketStarts(a: int, b: int, bucket: int)
    requires bucket > 0 && a <= b
    ensures BucketStart(a, bucket) <= BucketStart(b, bucket)
    ensures BucketStart(a, bucket) < BucketStart(b, bucket) ==> BucketStart(a, bucket) + bucket <= BucketStart(b, bucket)
    decreases if b >= bucket then b else 0, if a < 0 then -a else 0
  {
    StartOfStart(a, bucket);
    StartOfStart(b, bucket);
    if b >= bucket {
      if a >= bucket {
        BucketStarts(a - bucket, b - bucket, bucket);
      } else if b - bucket >= a {
        BucketStarts(a, b - bucket, bucket);
      }
    } else if a < 0 {
      if b < 0 {
        BucketStarts(a + bucket, b + bucket, bucket);
      } else if a + bucket <= b {
        BucketStarts(a + bucket, b, bucket);
      }
    }
  }

  /** A start lies in its own bucket, and one bucket earlier everything moves by one bucket. */
  lemma {:induction false} BucketShifts(t: int, bucket: int)
    requires bucket > 0
    ensures BucketStart(t - bucket, bucket) == BucketStart(t, bucket) - bucket
    decreases if t < 0 then bucket - t else if t < bucket then 0 else t
  {
    if t < 0 {
      BucketShifts(t + bucket, bucket);
    }
  }

  lemma BucketOf(t: int, s: int, bucket: int)
    requires bucket > 0 && BucketStart(s, bucket) == s <= t < s + bucket
    ensures BucketStart(t, bucket) == s
  {
    BucketStarts(s, t, bucket);
    StartOfStart(t, bucket);
  }

  /** A start plus any time. */
  lemma {:induction false} BucketFrom(s: int, y: int, bucket: int)
    requires bucket > 0 && BucketStart(s, bucket) == s
    ensures BucketStart(s + y, bucket) == s + BucketStart(y, bucket)
    decreases if s < 0 then -s else s
  {
    if s > 0 {
      StartOfStart(s, bucket);
      BucketShifts(s, bucket);
      BucketFrom(s - bucket, y, bucket);
      BucketShifts(s + y, bucket);
    } else if s < 0 {
      BucketShifts(s + bucket, bucket);
      BucketFrom(s + bucket, y, bucket);
      BucketShifts(s + y + bucket, bucket);
    }
  }

  /** The most that the starts of two times can differ that lie `len` apart. */
  function Span(len: nat, bucket: int): int
    requires bucket > 0
  {
    if len == 0 then 0 else BucketStart(len - 1, bucket) + bucket
  }

  lemma SpanBounds(a: int, b: int, len: nat, bucket: int)
    requires bucket > 0 && a <= b <= a + len
    ensures BucketStart(b, bucket) - BucketStart(a, bucket) <= Span(len, bucket)
  {
    if len > 0 {
      var s := BucketStart(a, bucket);
      StartOfStart(a, bucket);
      BucketStarts(b, s + bucket + (len - 1), bucket);
      BucketFrom(s, bucket + (len - 1), bucket);
      BucketShifts(bucket + (len - 1), bucket);
    }
  }

  /** From the last second of a bucket on it is reached. */
  lemma SpanReached(len: nat, bucket: int)
    requires bucket > 0
    ensures BucketStart(bucket - 1 + len, bucket) - BucketStart(bucket - 1, bucket) == Span(len, bucket)
  {
    BucketOf(bucket - 1, 0, bucket);
    if len > 0 {
      BucketShifts(bucket - 1 + len, bucket);
    }
  }

  /** It is the length rounded up to whole buckets. */
  lemma SpanIs(len: nat, bucket: int)
    requires bucket > 0
    ensures Span(len, bucket) == (len + bucket - 1) / bucket * bucket
  {
    if len == 0 {
      assert (bucket - 1) / bucket == 0;
    } else {
      BucketStartIs(len - 1, bucket);
      var q, m := (len - 1) / bucket, (len - 1) % bucket;
      assert len - 1 == q * bucket + m;
      assert len + bucket - 1 == (q + 1) * bucket + m;
      QuotientUnique(len + bucket - 1, q + 1, m, bucket);
    }
  }

  lemma SpanGrows(len: nat, len': nat, bucket: int)
    requires bucket > 0 && len <= len'
    ensures 0 <= Span(len, bucket) <= Span(len', bucket)
  {
    if len > 0 {
      BucketStarts(0, len - 1, bucket);
      BucketStarts(len - 1, len' - 1, bucket);
    } else if len' > 0 {
      BucketStarts(0, len' - 1, bucket);
    }
  }
}
