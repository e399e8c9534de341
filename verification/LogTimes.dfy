/** When the entries of an append-only log are stamped and committed, and how far their ids come out of order. */
module LogTimes {
  import opened ObjectIds
  import opened Buckets

  /** An entry's id carries the start of the bucket of its clock reading, moved `ahead`; the entry is committed at most `lag`
      seconds after that reading. */
  datatype Timing = Timing(bucket: int, ahead: int, lag: nat)

  predicate Usable(tm: Timing) {
    tm.bucket > 0
  }

  type UsableTiming = tm: Timing | Usable(tm) witness Timing(1, 0, 0)

  /** A ballot's id carries the end of its bucket. */
  function OfBallots(bucket: int): UsableTiming
    requires bucket > 0
  {
    Timing(bucket, bucket, GRACE_S)
  }

  /** An ordinary id carries the second in which it was made. */
  function OfClock(lag: nat): UsableTiming {
    Timing(1, 0, lag)
  }

  function Stamp(t: int, tm: UsableTiming): int {
    BucketStart(t, tm.bucket) + tm.ahead
  }

  /** An entry that read the clock at `t` and commits at `now`. */
  datatype Entry = Entry(id: Oid, body: string, t: int, now: int)

  predicate CanCommit(c: Coll, clock: int, e: Entry, tm: UsableTiming) {
    clock <= e.now && e.now - tm.lag <= e.t <= e.now && e.id.sec == Stamp(e.t, tm) && e.id !in c
  }

  function Committed(c: Coll, es: seq<Entry>): Coll {
    if es == [] then c
    else
      var e := es[|es| - 1];
      Committed(c, es[..|es| - 1])[e.id := e.body]
  }

  function ClockAfter(clock: int, es: seq<Entry>): int {
    if es == [] then clock else es[|es| - 1].now
  }

  predicate CanCommitAll(c: Coll, clock: int, es: seq<Entry>, tm: UsableTiming) {
    es != [] ==>
      var init := es[..|es| - 1];
      && CanCommitAll(c, clock, init, tm)
      && CanCommit(Committed(c, init), ClockAfter(clock, init), es[|es| - 1], tm)
  }

  /** Entries committed one after the other, between `clock` and `clock'`, lead from `a` to `b`. */
  ghost predicate CommitsLead(a: Coll, b: Coll, clock: int, clock': int, tm: UsableTiming) {
    exists es :: CanCommitAll(a, clock, es, tm) && Committed(a, es) == b && ClockAfter(clock, es) <= clock'
  }

  // ---------- bounds on the ids ----------

  /** No id is later than that of an entry that reads the clock now. */
  predicate Timely(c: Coll, clock: int, tm: UsableTiming) {
    forall x :: x in c ==> x.sec <= Stamp(clock, tm)
  }

  /** `b` is `a` and entries with ids no earlier than that of a clock reading at `low`. */
  predicate Adds(a: Coll, b: Coll, low: int, tm: UsableTiming) {
    SubColl(a, b) && forall x :: x in b && x !in a ==> x.sec >= Stamp(low, tm)
  }

  lemma StampGrows(a: int, b: int, tm: UsableTiming)
    requires a <= b
    ensures Stamp(a, tm) <= Stamp(b, tm)
  {
    BucketStarts(a, b, tm.bucket);
  }

  lemma {:induction false} EntriesAdd(c: Coll, clock: int, es: seq<Entry>, tm: UsableTiming)
    requires Timely(c, clock, tm) && CanCommitAll(c, clock, es, tm)
    ensures Adds(c, Committed(c, es), clock - tm.lag, tm) && Timely(Committed(c, es), ClockAfter(clock, es), tm)
    ensures clock <= ClockAfter(clock, es)
  {
    if es != [] {
      var init, e := es[..|es| - 1], es[|es| - 1];
      EntriesAdd(c, clock, init, tm);
      StampGrows(ClockAfter(clock, init), e.now, tm);
      StampGrows(e.t, e.now, tm);
      StampGrows(clock - tm.lag, e.t, tm);
    }
  }

  lemma CommitsAdd(a: Coll, b: Coll, clock: int, clock': int, tm: UsableTiming)
    requires CommitsLead(a, b, clock, clock', tm) && Timely(a, clock, tm)
    ensures Adds(a, b, clock - tm.lag, tm) && Timely(b, clock', tm) && clock <= clock'
  {
    var es :| CanCommitAll(a, clock, es, tm) && Committed(a, es) == b && ClockAfter(clock, es) <= clock';
    EntriesAdd(a, clock, es, tm);
    StampGrows(ClockAfter(clock, es), clock', tm);
  }

  lemma AddsTrans(a: Coll, b: Coll, c: Coll, low: int, low': int, tm: UsableTiming)
    requires Adds(a, b, low, tm) && Adds(b, c, low', tm) && low <= low'
    ensures Adds(a, c, low, tm)
  {
    StampGrows(low, low', tm);
  }

  /** Entries that come after a reading at `clock`, and ids up to `clock'`, are at most this far out of order. */
  function Disorder(len: nat, tm: UsableTiming): int {
    Span(len + tm.lag, tm.bucket)
  }

  /** What was read of `b` while it came to be from `a` within `len` seconds grows within the overlap, if the disorder does. */
  lemma ReadGrows(a: Coll, part: Coll, b: Coll, clock: int, clock': int, len: nat, tm: UsableTiming)
    requires Adds(a, b, clock - tm.lag, tm) && SubColl(a, part) && Timely(part, clock', tm)
    requires clock <= clock' <= clock + len && Disorder(len, tm) <= OVERLAP_S && SubColl(part, b)
    ensures Grows(part, b)
  {
    SpanBounds(clock - tm.lag, clock', len + tm.lag, tm.bucket);
  }

  // ---------- how far out of order ----------

  /** An entry comes at most `Disorder(0)` out of order. */
  lemma LateBy(c: Coll, clock: int, e: Entry, tm: UsableTiming)
    requires Timely(c, clock, tm) && CanCommit(c, clock, e, tm)
    ensures forall y :: y in c ==> e.id.sec >= y.sec - Disorder(0, tm)
    ensures Timely(c[e.id := e.body], e.now, tm)
  {
    SpanBounds(clock - tm.lag, clock, tm.lag, tm.bucket);
    StampGrows(clock - tm.lag, e.t, tm);
    StampGrows(clock, e.now, tm);
    StampGrows(e.t, e.now, tm);
  }

  ghost predicate AlwaysGrow(tm: UsableTiming) {
    forall c, clock, es ::
      Timely(c, clock, tm) && CanCommitAll(c, clock, es, tm) ==> Grows(c, Committed(c, es))
  }

  /** The first reading is in the last second of a bucket, the second one `len` seconds after its commit. */
  function Early(rest: nat, tm: UsableTiming): Entry {
    Entry(Oid(Stamp(tm.bucket - 1, tm), rest), "", tm.bucket - 1, tm.bucket - 1 + tm.lag)
  }

  function Late(len: nat, rest: nat, tm: UsableTiming): Entry {
    var t := tm.bucket - 1 + tm.lag + len;
    Entry(Oid(Stamp(t, tm), rest), "", t, t)
  }

  lemma EarlyLate(len: nat, tm: UsableTiming)
    ensures Stamp(Late(len, 0, tm).t, tm) - Stamp(Early(0, tm).t, tm) == Disorder(len, tm) >= 0
    ensures Stamp(Late(0, 0, tm).t, tm) >= Stamp(Early(0, tm).t, tm)
    ensures Stamp(Late(len, 0, tm).t, tm) >= Stamp(Late(0, 0, tm).t, tm)
  {
    SpanReached(len + tm.lag, tm.bucket);
    SpanGrows(0, len + tm.lag, tm.bucket);
    StampGrows(Early(0, tm).t, Late(0, 0, tm).t, tm);
    StampGrows(Late(0, 0, tm).t, Late(len, 0, tm).t, tm);
  }

  /** Entries keep to the overlap in every run if and only if their disorder does. */
  lemma AlwaysGrowIff(tm: UsableTiming)
    ensures AlwaysGrow(tm) <==> Disorder(0, tm) <= OVERLAP_S
  {
    if Disorder(0, tm) <= OVERLAP_S {
      forall c, clock, es | Timely(c, clock, tm) && CanCommitAll(c, clock, es, tm)
        ensures Grows(c, Committed(c, es))
      {
        EntriesAdd(c, clock, es, tm);
        ReadGrows(c, c, Committed(c, es), clock, clock, 0, tm);
      }
    } else {
      DisorderBreaksGrowth(tm);
    }
  }

  lemma DisorderBreaksGrowth(tm: UsableTiming)
    requires Disorder(0, tm) > OVERLAP_S
    ensures !AlwaysGrow(tm)
  {
    var z, y := Late(0, 0, tm), Early(0, tm);
    EarlyLate(0, tm);
    var c, es := map[z.id := ""], [y];
    assert es[..0] == [];
    assert CanCommitAll(c, z.now, [], tm);
    assert CanCommitAll(c, z.now, es, tm);
    assert Timely(c, z.now, tm);
    assert Committed(c, []) == c;
    assert Committed(c, es) == c[y.id := ""];
    assert y.id in Committed(c, es) && !Grows(c, Committed(c, es));
  }

  /** For ballots, whose bucket is at least the grace period, the bucket has to be at most the overlap; for ordinary ids, the
      time from an id to its commit. */
  lemma DisorderIs(len: nat, bucket: int, lag: nat)
    requires bucket > 0
    ensures Disorder(len, OfBallots(bucket)) == (len + GRACE_S + bucket - 1) / bucket * bucket
    ensures bucket >= 60 ==> Disorder(0, OfBallots(bucket)) == bucket
    ensures Disorder(len, OfClock(lag)) == len + lag
  {
    SpanIs(len + GRACE_S, bucket);
    SpanIs(len + lag, 1);
    if bucket >= GRACE_S {
      BucketOf(GRACE_S - 1, 0, bucket);
      BucketOf(0, 0, bucket);
    }
  }

  // ---------- short commits ----------

  lemma CommitNone(c: Coll, clock: int, clock': int, tm: UsableTiming)
    requires clock <= clock'
    ensures CommitsLead(c, c, clock, clock', tm)
  {
    assert CanCommitAll(c, clock, [], tm) && Committed(c, []) == c && ClockAfter(clock, []) == clock;
  }

  lemma CommitOne(c: Coll, e: Entry, clock: int, clock': int, tm: UsableTiming)
    requires CanCommit(c, clock, e, tm) && e.now <= clock'
    ensures CommitsLead(c, c[e.id := e.body], clock, clock', tm)
  {
    assert [e][..0] == [];
    assert CanCommitAll(c, clock, [], tm);
    assert CanCommitAll(c, clock, [e], tm);
    assert Committed(c, [e]) == c[e.id := e.body];
  }

  lemma CommitMore(a: Coll, b: Coll, e: Entry, clock: int, now: int, clock': int, tm: UsableTiming)
    requires CommitsLead(a, b, clock, now, tm) && CanCommit(b, now, e, tm) && e.now <= clock'
    ensures CommitsLead(a, b[e.id := e.body], clock, clock', tm)
  {
    var es :| CanCommitAll(a, clock, es, tm) && Committed(a, es) == b && ClockAfter(clock, es) <= now;
    assert (es + [e])[..|es|] == es;
    assert CanCommitAll(a, clock, es + [e], tm) && Committed(a, es + [e]) == b[e.id := e.body];
  }
}
