/** Making checkpoints while ballots are cast: exactly when the chain of an untouched log verifies. */
module AuditRuns {
  import opened ObjectIds
  import opened Buckets
  import opened AuditChain

  /** A checkpoint folded from `events` when `seen` checkpoints existed, and still to be inserted. */
  datatype Draft = Draft(cp: Checkpoint, seen: nat, events: seq<Vote>)

  datatype World = World(log: seq<Vote>, cps: seq<Checkpoint>, drafts: map<nat, Draft>, clock: int)

  /** `castAt` and `id` come from clock readings at `t0` and `t`; the ballot is committed at `now`. */
  datatype Event =
    | Cast(vote: Vote, t0: int, t: int, now: int)
    | Read(actor: nat, now: int)
    | Insert(actor: nat)

  predicate Can(w: World, e: Event, bucket: int)
    requires bucket > 0
  {
    match e
    case Cast(v, t0, t, now) =>
      && w.clock <= now && now - GRACE_S <= t0 <= t <= now
      && v.castAt == BucketStart(t0, bucket) && v.id.sec == BucketStart(t, bucket) + bucket
      && forall u :: u in w.log ==> u.id != v.id
    case Read(_, now) => w.clock <= now
    case Insert(a) => a in w.drafts
  }

  function InsertVote(log: seq<Vote>, v: Vote): seq<Vote> {
    if log == [] || Lt(log[|log| - 1].id, v.id) then log + [v]
    else InsertVote(log[..|log| - 1], v) + [log[|log| - 1]]
  }

  /** The sealed ballots after the last checkpoint. */
  function Pending(w: World, now: int, bucket: int): seq<Vote>
    requires bucket > 0
  {
    Keep(w.log, CastBefore(BoundAt(w.cps, |w.cps|), BucketStart(now - GRACE_S, bucket)))
  }

  function DraftOf(w: World, events: seq<Vote>): Draft
    requires events != []
  {
    var n := |w.cps|;
    Draft(Checkpoint(BoundAt(w.cps, n), events[|events| - 1].id, Fold(HashAt(w.cps, n), events)), n, events)
  }

  /** The unique indexes on both ends of a range. */
  predicate Clashes(cps: seq<Checkpoint>, cp: Checkpoint) {
    exists i :: 0 <= i < |cps| && (cps[i].from == cp.from || cps[i].to == cp.to)
  }

  function Without(drafts: map<nat, Draft>, a: nat): (r: map<nat, Draft>)
    ensures forall b :: b in r <==> b in drafts && b != a
    ensures forall b :: b in r ==> r[b] == drafts[b]
  {
    map b | b in drafts && b != a :: drafts[b]
  }

  function Next(w: World, e: Event, bucket: int): World
    requires bucket > 0 && Can(w, e, bucket)
  {
    match e
    case Cast(v, _, _, now) => w.(log := InsertVote(w.log, v), clock := now)
    case Read(a, now) =>
      var events := Pending(w, now, bucket);
      if events == [] then w.(clock := now) else w.(drafts := w.drafts[a := DraftOf(w, events)], clock := now)
    case Insert(a) =>
      var cp := w.drafts[a].cp;
      w.(cps := if Clashes(w.cps, cp) then w.cps else w.cps + [cp], drafts := Without(w.drafts, a))
  }

  datatype Run = Begin | Then(before: Run, event: Event)

  function End(r: Run, bucket: int): World
    requires bucket > 0 && Valid(r, bucket)
    decreases r, 1
  {
    match r
    case Begin => World([], [], map[], 0)
    case Then(before, e) => Next(End(before, bucket), e, bucket)
  }

  predicate Valid(r: Run, bucket: int)
    requires bucket > 0
    decreases r, 0
  {
    r.Then? ==> Valid(r.before, bucket) && Can(End(r.before, bucket), r.event, bucket)
  }

  // ---------- what every run keeps ----------

  /** A draft starts at the checkpoint it saw and folds, in order, ballots of the log that lie in its range. */
  predicate DraftInv(w: World, d: Draft) {
    && d.seen <= |w.cps| && d.cp.from == BoundAt(w.cps, d.seen)
    && (d.cp.from.After? ==> Lt(d.cp.from.id, d.cp.to))
    && d.cp.hash == Fold(HashAt(w.cps, d.seen), d.events)
    && Sorted(d.events) && forall v :: v in d.events ==> v in w.log && Matches(Range(d.cp), v)
  }

  predicate Inv(w: World) {
    && Sorted(w.log) && Contiguous(w.cps)
    && forall a :: a in w.drafts ==> DraftInv(w, w.drafts[a])
  }

  lemma {:induction false} InsertSorted(log: seq<Vote>, v: Vote)
    requires Sorted(log) && forall u :: u in log ==> u.id != v.id
    ensures Sorted(InsertVote(log, v))
    ensures forall u :: u in InsertVote(log, v) <==> u in log || u == v
  {
    if log != [] {
      var init, last := log[..|log| - 1], log[|log| - 1];
      assert last in log;
      InsertSorted(init, v);
      if !Lt(last.id, v.id) {
        assert log == init + [last];
        forall u | u in InsertVote(init, v)
          ensures Lt(u.id, last.id)
        {
          assert u in init || u == v;
        }
      }
    }
  }

  lemma {:induction false} InsertOutside(log: seq<Vote>, v: Vote, q: Query)
    requires !Matches(q, v)
    ensures Keep(InsertVote(log, v), q) == Keep(log, q)
  {
    if log == [] || Lt(log[|log| - 1].id, v.id) {
      assert (log + [v])[..|log|] == log;
    } else {
      var init, last := log[..|log| - 1], log[|log| - 1];
      InsertOutside(init, v, q);
      assert (InsertVote(init, v) + [last])[..|InsertVote(init, v)|] == InsertVote(init, v);
    }
  }

  lemma {:induction false} InsertInside(log: seq<Vote>, v: Vote, q: Query)
    requires Matches(q, v)
    ensures |Keep(InsertVote(log, v), q)| == |Keep(log, q)| + 1
  {
    if log == [] || Lt(log[|log| - 1].id, v.id) {
      assert (log + [v])[..|log|] == log;
    } else {
      var init, last := log[..|log| - 1], log[|log| - 1];
      InsertInside(init, v, q);
      assert (InsertVote(init, v) + [last])[..|InsertVote(init, v)|] == InsertVote(init, v);
    }
  }

  lemma PendingIsDraft(w: World, now: int, bucket: int)
    requires bucket > 0 && Sorted(w.log) && Pending(w, now, bucket) != []
    ensures DraftInv(w, DraftOf(w, Pending(w, now, bucket)))
  {
    var q := CastBefore(BoundAt(w.cps, |w.cps|), BucketStart(now - GRACE_S, bucket));
    var events := Pending(w, now, bucket);
    KeepMembers(w.log, q);
    var last := events[|events| - 1];
    assert last in events;
    forall v | v in events
      ensures Matches(UpTo(q.from, last.id), v)
    {
      var i :| 0 <= i < |events| && events[i] == v;
      assert i < |events| - 1 ==> Lt(v.id, last.id);
    }
  }

  /** Of two drafts for one range, the second finds its lower end taken. */
  lemma OvertakenClashes(w: World, d: Draft)
    requires Contiguous(w.cps) && DraftInv(w, d) && d.seen < |w.cps|
    ensures Clashes(w.cps, d.cp)
  {
    assert Linked(w.cps, d.seen);
  }

  lemma DraftStays(w: World, w': World, d: Draft)
    requires DraftInv(w, d) && w.cps <= w'.cps && forall v :: v in w.log ==> v in w'.log
    ensures DraftInv(w', d)
  {
    assert BoundAt(w'.cps, d.seen) == BoundAt(w.cps, d.seen) && HashAt(w'.cps, d.seen) == HashAt(w.cps, d.seen);
  }

  lemma NextKeepsInv(w: World, e: Event, bucket: int)
    requires bucket > 0 && Inv(w) && Can(w, e, bucket)
    ensures Inv(Next(w, e, bucket))
  {
    var w' := Next(w, e, bucket);
    if e.Cast? {
      InsertSorted(w.log, e.vote);
    } else if e.Read? {
      if Pending(w, e.now, bucket) != [] {
        PendingIsDraft(w, e.now, bucket);
      }
    } else {
      InsertedLinks(w, w.drafts[e.actor]);
    }
    forall a | a in w'.drafts
      ensures DraftInv(w', w'.drafts[a])
    {
      if a in w.drafts && w'.drafts[a] == w.drafts[a] {
        DraftStays(w, w', w.drafts[a]);
      }
    }
  }

  lemma InsertedLinks(w: World, d: Draft)
    requires Contiguous(w.cps) && DraftInv(w, d)
    ensures Contiguous(if Clashes(w.cps, d.cp) then w.cps else w.cps + [d.cp])
    ensures !Clashes(w.cps, d.cp) ==> d.seen == |w.cps|
  {
    if d.seen < |w.cps| {
      OvertakenClashes(w, d);
    }
    if !Clashes(w.cps, d.cp) {
      var more := w.cps + [d.cp];
      forall i | 0 <= i < |more|
        ensures Linked(more, i)
      {
        assert BoundAt(more, i) == BoundAt(w.cps, i);
        if i < |w.cps| {
          assert Linked(w.cps, i);
        }
      }
    }
  }

  lemma {:induction false} AlwaysInv(r: Run, bucket: int)
    requires bucket > 0 && Valid(r, bucket)
    ensures Inv(End(r, bucket))
  {
    if r.Then? {
      AlwaysInv(r.before, bucket);
      NextKeepsInv(End(r.before, bucket), r.event, bucket);
    }
  }

  // ---------- exactly when the chain goes on verifying ----------

  /** What a query before the step can tell: a ballot lies in no range that is closed, and a checkpoint is inserted only if
      the log holds no other ballot in its range than those folded. */
  predicate Safe(w: World, e: Event, bucket: int)
    requires bucket > 0 && Can(w, e, bucket)
  {
    match e
    case Cast(v, _, _, _) => forall i :: 0 <= i < |w.cps| ==> !Matches(Range(w.cps[i]), v)
    case Read(_, _) => true
    case Insert(a) =>
      var d := w.drafts[a];
      Clashes(w.cps, d.cp) || forall v :: v in w.log && Matches(Range(d.cp), v) ==> v in d.events
  }

  lemma CastSafeIff(w: World, e: Event, bucket: int)
    requires bucket > 0 && Inv(w) && e.Cast? && Can(w, e, bucket) && Verifies(w.log, w.cps)
    ensures Verifies(InsertVote(w.log, e.vote), w.cps) <==> Safe(w, e, bucket)
  {
    forall i | 0 <= i < |w.cps|
      ensures Recomputes(InsertVote(w.log, e.vote), w.cps, i) <==> !Matches(Range(w.cps[i]), e.vote)
    {
      var q := Range(w.cps[i]);
      assert Recomputes(w.log, w.cps, i);
      if Matches(q, e.vote) {
        InsertInside(w.log, e.vote, q);
        FoldDepth(HashAt(w.cps, i), Keep(w.log, q));
        FoldDepth(HashAt(w.cps, i), Keep(InsertVote(w.log, e.vote), q));
      } else {
        InsertOutside(w.log, e.vote, q);
      }
    }
  }

  lemma SameLast(us: seq<Vote>, vs: seq<Vote>)
    requires Sorted(us) && Sorted(vs) && us != [] && vs != [] && forall v :: v in us <==> v in vs
    ensures us[|us| - 1] == vs[|vs| - 1]
  {
    assert us[|us| - 1] in us && vs[|vs| - 1] in vs;
    assert us[|us| - 1] in vs && vs[|vs| - 1] in us;
    var i :| 0 <= i < |vs| && vs[i] == us[|us| - 1];
    var j :| 0 <= j < |us| && us[j] == vs[|vs| - 1];
  }

  lemma SameInit(us: seq<Vote>, vs: seq<Vote>, x: Vote)
    requires Sorted(us) && Sorted(vs) && us != [] && vs != [] && forall v :: v in us <==> v in vs
    requires us[|us| - 1] == vs[|vs| - 1] && x in us[..|us| - 1]
    ensures x in vs[..|vs| - 1]
  {
    var i :| 0 <= i < |us| - 1 && us[i] == x;
    assert x in us && x in vs;
    var j :| 0 <= j < |vs| && vs[j] == x;
    assert Lt(x.id, us[|us| - 1].id);
    assert vs[..|vs| - 1][j] == x;
  }

  lemma {:induction false} SortedSame(us: seq<Vote>, vs: seq<Vote>)
    requires Sorted(us) && Sorted(vs) && forall v :: v in us <==> v in vs
    ensures us == vs
  {
    if us != [] {
      assert us[0] in vs;
    }
    if vs != [] {
      assert vs[0] in us;
      SameLast(us, vs);
      var us', vs' := us[..|us| - 1], vs[..|vs| - 1];
      forall x
        ensures x in us' <==> x in vs'
      {
        if x in us' {
          SameInit(us, vs, x);
        }
        if x in vs' {
          SameInit(vs, us, x);
        }
      }
      SortedSame(us', vs');
      assert us == us' + [us[|us| - 1]] && vs == vs' + [vs[|vs| - 1]];
    }
  }

  lemma DraftExactIff(w: World, d: Draft)
    requires Sorted(w.log) && DraftInv(w, d)
    ensures Fold(HashAt(w.cps, d.seen), Keep(w.log, Range(d.cp))) == d.cp.hash
            <==> forall v :: v in w.log && Matches(Range(d.cp), v) ==> v in d.events
  {
    var kept := Keep(w.log, Range(d.cp));
    KeepMembers(w.log, Range(d.cp));
    FoldInjective(HashAt(w.cps, d.seen), kept, d.events);
    if Commits(kept) == Commits(d.events) {
      forall v | v in kept
        ensures v in d.events
      {
        var i :| 0 <= i < |kept| && kept[i] == v;
        assert Commits(kept)[i] == Commits(d.events)[i];
        assert d.events[i] in w.log;
        SameId(w.log, v, d.events[i]);
      }
    } else if forall v :: v in kept ==> v in d.events {
      SortedSame(kept, d.events);
    }
  }

  lemma SameId(log: seq<Vote>, u: Vote, v: Vote)
    requires Sorted(log) && u in log && v in log && u.id == v.id
    ensures u == v
  {
  }

  lemma InsertSafeIff(w: World, e: Event, bucket: int)
    requires bucket > 0 && Inv(w) && e.Insert? && Can(w, e, bucket) && Verifies(w.log, w.cps)
    ensures Verifies(w.log, Next(w, e, bucket).cps) <==> Safe(w, e, bucket)
  {
    var d := w.drafts[e.actor];
    InsertedLinks(w, d);
    if !Clashes(w.cps, d.cp) {
      DraftExactIff(w, d);
      AppendedVerifiesIff(w.log, w.cps, d.cp);
    }
  }

  lemma AppendedVerifiesIff(log: seq<Vote>, cps: seq<Checkpoint>, cp: Checkpoint)
    requires Verifies(log, cps)
    ensures Verifies(log, cps + [cp]) <==> Fold(HashAt(cps, |cps|), Keep(log, Range(cp))) == cp.hash
  {
    var more, n := cps + [cp], |cps|;
    forall i | 0 <= i < n
      ensures Recomputes(log, more, i)
    {
      assert HashAt(more, i) == HashAt(cps, i);
      assert Recomputes(log, cps, i);
    }
    assert Recomputes(log, more, n) <==> Fold(HashAt(cps, n), Keep(log, Range(cp))) == cp.hash;
  }

  predicate AlwaysVerifies(r: Run, bucket: int)
    requires bucket > 0 && Valid(r, bucket)
  {
    && (r.Then? ==> AlwaysVerifies(r.before, bucket))
    && Verifies(End(r, bucket).log, End(r, bucket).cps)
  }

  predicate AllSafe(r: Run, bucket: int)
    requires bucket > 0 && Valid(r, bucket)
  {
    r.Then? ==> AllSafe(r.before, bucket) && Safe(End(r.before, bucket), r.event, bucket)
  }

  /** Over every run of ballots and callers that make checkpoints, also at the same time, the checkpoints are contiguous, and
      the chain verifies at every moment if and only if every step was safe. */
  lemma {:induction false} AlwaysVerifiesIff(r: Run, bucket: int)
    requires bucket > 0 && Valid(r, bucket)
    ensures Contiguous(End(r, bucket).cps)
    ensures AlwaysVerifies(r, bucket) <==> AllSafe(r, bucket)
  {
    AlwaysInv(r, bucket);
    if r.Then? {
      AlwaysVerifiesIff(r.before, bucket);
      AlwaysInv(r.before, bucket);
      var w := End(r.before, bucket);
      if Verifies(w.log, w.cps) {
        if r.event.Cast? {
          CastSafeIff(w, r.event, bucket);
        } else if r.event.Insert? {
          InsertSafeIff(w, r.event, bucket);
        }
      }
    }
  }

  // ---------- ballots that keep to one bucket ----------

  /** What a checkpoint folds is exactly its range if and only if every unsealed ballot has a larger id. */
  lemma SealedRangeIff(log: seq<Vote>, from: Bound, limit: int)
    requires Sorted(log) && Keep(log, CastBefore(from, limit)) != []
    ensures var events := Keep(log, CastBefore(from, limit));
            var last := events[|events| - 1].id;
            Keep(log, UpTo(from, last)) == events
            <==> forall v :: v in log && (from.After? ==> Lt(from.id, v.id)) && v.castAt >= limit ==> Lt(last, v.id)
  {
    var q := CastBefore(from, limit);
    var events := Keep(log, q);
    var last := events[|events| - 1];
    var up := UpTo(from, last.id);
    KeepMembers(log, q);
    KeepMembers(log, up);
    assert last in events;
    forall v | v in events
      ensures Matches(up, v)
    {
      var i :| 0 <= i < |events| && events[i] == v;
      assert i < |events| - 1 ==> Lt(v.id, last.id);
    }
    if forall v :: v in log && (from.After? ==> Lt(from.id, v.id)) && v.castAt >= limit ==> Lt(last.id, v.id) {
      KeepSame(log, q, up);
    } else if Keep(log, up) == events {
      forall v | v in log && Matches(up, v)
        ensures v.castAt < limit
      {
        assert v in Keep(log, up);
      }
    }
  }

  /** A ballot whose two clock readings fall in one bucket. */
  predicate InOneBucket(e: Event, bucket: int)
    requires bucket > 0
  {
    e.Cast? ==> BucketStart(e.t0, bucket) == BucketStart(e.t, bucket)
  }

  predicate NeverStraddles(r: Run, bucket: int)
    requires bucket > 0
  {
    r.Then? ==> NeverStraddles(r.before, bucket) && InOneBucket(r.event, bucket)
  }

  /** The last id of a range is out of reach of any ballot still to come. */
  predicate Closed(to: Oid, w: World, bucket: int)
    requires bucket > 0
  {
    to.sec <= BucketStart(w.clock - GRACE_S, bucket)
  }

  /** Every ballot's id carries the end of the bucket that its time is the start of. */
  predicate Aligned(log: seq<Vote>, bucket: int)
    requires bucket > 0
  {
    forall v :: v in log ==> v.castAt == BucketStart(v.castAt, bucket) && v.id.sec == v.castAt + bucket
  }

  predicate DraftClosed(w: World, d: Draft, bucket: int)
    requires bucket > 0
  {
    Closed(d.cp.to, w, bucket) && forall v :: v in w.log && Matches(Range(d.cp), v) ==> v in d.events
  }

  predicate ClosedInv(w: World, bucket: int)
    requires bucket > 0
  {
    && Aligned(w.log, bucket)
    && (forall i :: 0 <= i < |w.cps| ==> Closed(w.cps[i].to, w, bucket))
    && (forall a :: a in w.drafts ==> DraftClosed(w, w.drafts[a], bucket))
  }

  /** A later ballot lies behind every range that is closed. */
  lemma CastIsLater(w: World, e: Event, to: Oid, bucket: int)
    requires bucket > 0 && e.Cast? && Can(w, e, bucket) && Closed(to, w, bucket)
    ensures Lt(to, e.vote.id)
  {
    BucketStarts(w.clock - GRACE_S, e.t, bucket);
  }

  lemma LaterClosed(w: World, w': World, to: Oid, bucket: int)
    requires bucket > 0 && Closed(to, w, bucket) && w.clock <= w'.clock
    ensures Closed(to, w', bucket)
  {
    BucketStarts(w.clock - GRACE_S, w'.clock - GRACE_S, bucket);
  }

  lemma CastKeepsClosed(w: World, e: Event, bucket: int)
    requires bucket > 0 && Inv(w) && ClosedInv(w, bucket) && e.Cast? && Can(w, e, bucket) && InOneBucket(e, bucket)
    ensures ClosedInv(Next(w, e, bucket), bucket) && Safe(w, e, bucket)
  {
    var w' := Next(w, e, bucket);
    InsertSorted(w.log, e.vote);
    StartOfStart(e.t0, bucket);
    forall i | 0 <= i < |w.cps|
      ensures !Matches(Range(w.cps[i]), e.vote) && Closed(w.cps[i].to, w', bucket)
    {
      CastIsLater(w, e, w.cps[i].to, bucket);
      LaterClosed(w, w', w.cps[i].to, bucket);
    }
    forall a | a in w.drafts
      ensures DraftClosed(w', w.drafts[a], bucket)
    {
      CastIsLater(w, e, w.drafts[a].cp.to, bucket);
      LaterClosed(w, w', w.drafts[a].cp.to, bucket);
    }
  }

  lemma PendingClosed(w: World, now: int, bucket: int)
    requires bucket > 0 && Sorted(w.log) && Aligned(w.log, bucket) && Pending(w, now, bucket) != []
    ensures DraftClosed(w.(clock := now), DraftOf(w, Pending(w, now, bucket)), bucket)
  {
    var from, limit := BoundAt(w.cps, |w.cps|), BucketStart(now - GRACE_S, bucket);
    var events := Pending(w, now, bucket);
    KeepMembers(w.log, CastBefore(from, limit));
    var last := events[|events| - 1];
    assert last in events;
    StartOfStart(now - GRACE_S, bucket);
    BucketStarts(last.castAt, now - GRACE_S, bucket);
  }

  lemma NextKeepsClosed(w: World, e: Event, bucket: int)
    requires bucket > 0 && Inv(w) && ClosedInv(w, bucket) && Can(w, e, bucket) && InOneBucket(e, bucket)
    ensures ClosedInv(Next(w, e, bucket), bucket) && Safe(w, e, bucket)
  {
    var w' := Next(w, e, bucket);
    if e.Cast? {
      CastKeepsClosed(w, e, bucket);
    } else if e.Read? {
      forall i | 0 <= i < |w.cps|
        ensures Closed(w.cps[i].to, w', bucket)
      {
        LaterClosed(w, w', w.cps[i].to, bucket);
      }
      forall a | a in w.drafts
        ensures DraftClosed(w', w.drafts[a], bucket)
      {
        LaterClosed(w, w', w.drafts[a].cp.to, bucket);
      }
      if Pending(w, e.now, bucket) != [] {
        PendingClosed(w, e.now, bucket);
      }
    } else {
      assert DraftClosed(w, w.drafts[e.actor], bucket);
    }
  }

  /** As long as every ballot reads the clock within one bucket, every step is safe and every run verifies. */
  lemma {:induction false} HonestRunVerifies(r: Run, bucket: int)
    requires bucket > 0 && Valid(r, bucket) && NeverStraddles(r, bucket)
    ensures AlwaysVerifies(r, bucket) && ClosedInv(End(r, bucket), bucket)
  {
    AlwaysVerifiesIff(r, bucket);
    if r.Then? {
      HonestRunVerifies(r.before, bucket);
      AlwaysInv(r.before, bucket);
      AlwaysVerifiesIff(r.before, bucket);
      NextKeepsClosed(End(r.before, bucket), r.event, bucket);
    }
  }

  // ---------- a ballot that does not ----------

  /** A ballot for several positions may read the clock on both sides of a bucket's end: its time is from one bucket and its id
      from the next. For every bucket length and every such ballot whose id is not the least of its bucket, a checkpoint
      can end behind a ballot that it leaves out: within three more steps the untouched log no longer verifies. */
  lemma StraddlingBallotBreaksTheChain(e: Event, bucket: int)
    requires bucket >= 60 && e.Cast? && Can(World([], [], map[], 0), e, bucket)
    requires !InOneBucket(e, bucket) && e.vote.id.rest > 0
    ensures exists r: Run :: && Valid(r, bucket) && !Verifies(End(r, bucket).log, End(r, bucket).cps)
                             && r.Then? && r.before.Then? && r.before.before.Then? && r.before.before.before == Then(Begin, e)
  {
    var v, s := e.vote, BucketStart(e.t, bucket);
    StartOfStart(e.t0, bucket);
    StartOfStart(e.t, bucket);
    BucketStarts(e.t0, e.t, bucket);
    assert e.t0 < s;
    BucketOf(e.now, s, bucket);
    var u := Vote(Oid(s + bucket, 0), "", s, NoRound, 2);
    var e2 := Cast(u, e.now, e.now, e.now);
    var w0, w1, w2 := World([], [], map[], 0), World([v], [], map[], e.now), World([u, v], [], map[], e.now);
    OneMore(Begin, e, w0, w1, bucket);
    InsertBelow(u, v);
    OneMore(Then(Begin, e), e2, w1, w2, bucket);
    CheckpointTooFar(Then(Then(Begin, e), e2), w2, u, v, s, bucket);
  }

  lemma InsertBelow(u: Vote, v: Vote)
    requires Lt(u.id, v.id)
    ensures InsertVote([v], u) == [u, v]
  {
    assert [v][..0] == [];
    assert InsertVote([], u) == [u];
  }

  lemma OnePending(w: World, u: Vote, v: Vote, s: int, bucket: int)
    requires bucket > 0 && w == World([u, v], [], map[], w.clock) && BucketStart(s, bucket) == s
    requires v.castAt < s <= u.castAt
    ensures Pending(w, s + GRACE_S, bucket) == [v]
  {
    TwoKept(u, v, CastBefore(Start, s));
  }

  lemma CheckpointTooFar(r: Run, w: World, u: Vote, v: Vote, s: int, bucket: int)
    requires bucket > 0 && Valid(r, bucket) && End(r, bucket) == w && w == World([u, v], [], map[], w.clock)
    requires w.clock <= s + GRACE_S && BucketStart(s, bucket) == s
    requires v.castAt < s <= u.castAt && Lt(u.id, v.id)
    ensures exists r': Run :: && Valid(r', bucket) && !Verifies(End(r', bucket).log, End(r', bucket).cps)
                              && r'.Then? && r'.before.Then? && r'.before.before == r
  {
    var d := DraftOf(w, [v]);
    var w3, w4 := World([u, v], [], map[0 := d], s + GRACE_S), World([u, v], [d.cp], map[], s + GRACE_S);
    ReadsOne(w, u, v, s, bucket);
    OneMore(r, Read(0, s + GRACE_S), w, w3, bucket);
    var r3 := Then(r, Read(0, s + GRACE_S));
    InsertsOne(w3, d, bucket);
    OneMore(r3, Insert(0), w3, w4, bucket);
    BadEnd(Then(r3, Insert(0)), u, v, d, w4, bucket);
  }

  lemma BadEnd(r: Run, u: Vote, v: Vote, d: Draft, w: World, bucket: int)
    requires bucket > 0 && Valid(r, bucket) && End(r, bucket) == w && w.log == [u, v] && w.cps == [d.cp]
    requires Lt(u.id, v.id) && d.cp == Checkpoint(Start, v.id, Fold(Genesis, [v]))
    ensures !Verifies(End(r, bucket).log, End(r, bucket).cps)
  {
    ExtraBallot(u, v, d);
    assert !Recomputes(w.log, w.cps, 0);
  }

  lemma ReadsOne(w: World, u: Vote, v: Vote, s: int, bucket: int)
    requires bucket > 0 && w == World([u, v], [], map[], w.clock) && w.clock <= s + GRACE_S
    requires BucketStart(s, bucket) == s && v.castAt < s <= u.castAt
    ensures var e := Read(0, s + GRACE_S);
            Can(w, e, bucket) && Next(w, e, bucket) == World([u, v], [], map[0 := DraftOf(w, [v])], s + GRACE_S)
  {
    OnePending(w, u, v, s, bucket);
  }

  lemma InsertsOne(w: World, d: Draft, bucket: int)
    requires bucket > 0 && w.cps == [] && w.drafts == map[0 := d]
    ensures Can(w, Insert(0), bucket) && Next(w, Insert(0), bucket) == World(w.log, [d.cp], map[], w.clock)
  {
  }

  lemma ExtraBallot(u: Vote, v: Vote, d: Draft)
    requires Lt(u.id, v.id) && d.cp == Checkpoint(Start, v.id, Fold(Genesis, [v]))
    ensures !Recomputes([u, v], [d.cp], 0)
  {
    TwoKept(u, v, Range(d.cp));
    assert Keep([u, v], Range(d.cp)) == [u, v];
    FoldDepth(Genesis, [u, v]);
    FoldDepth(Genesis, [v]);
  }

  lemma OneMore(r: Run, e: Event, w: World, w': World, bucket: int)
    requires bucket > 0 && Valid(r, bucket) && End(r, bucket) == w && Can(w, e, bucket) && Next(w, e, bucket) == w'
    ensures Valid(Then(r, e), bucket) && End(Then(r, e), bucket) == w'
  {
  }

  lemma TwoKept(u: Vote, v: Vote, q: Query)
    ensures Keep([u, v], q) == (if Matches(q, u) then [u] else []) + (if Matches(q, v) then [v] else [])
  {
    assert [u, v][..1] == [u] && [u][..0] == [];
    assert Keep([], q) == [];
    assert Keep([u], q) == if Matches(q, u) then [u] else [];
  }
}
