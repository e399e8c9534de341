/** Mirroring the append-only logs: exactly when entries that come out of order, while a turn takes its time, are all mirrored;
    and what becomes of entries that are deleted or changed. */
module MirrorLogs {
  import opened ObjectIds
  import opened Buckets
  import opened LogTimes
  import opened Mirror
  import opened MirrorRuns
  import BackupLogs

  const VOTES := BackupLogs.VOTES
  const EDITS := BackupLogs.EDITS

  // ---------- a log that only grows ----------

  /** During a turn the log only grows: each read sees all that the one before saw, and perhaps more. */
  ghost predicate TurnGrows(live: Coll, t: Turn, live': Coll) {
    && Grows(live, t.first) && Grows(live, live')
    && SubColl(t.first, t.prune) && SubColl(t.prune, t.copy) && SubColl(t.copy, t.newest) && SubColl(t.newest, live')
  }

  /** What the first read has not seen is at most the overlap older than the newest id. */
  ghost predicate Prompt(t: Turn, live': Coll) {
    forall x, y :: x in live' && x !in t.first && y in t.newest ==> x.sec >= y.sec - OVERLAP_S
  }

  ghost predicate StepGrows(w: World, e: Event, w': World, n: Name) {
    var live, live' := CollAt(w.live, n), CollAt(w'.live, n);
    match e
    case Write => Grows(live, live')
    case Sync(_, _, names, turns) =>
      if n in names then TurnGrows(live, TurnAt(turns, n), live') && Prompt(TurnAt(turns, n), live') else Grows(live, live')
    case FailedSync(_, names, turns) =>
      if n in names then TurnGrows(live, TurnAt(turns, n), live') else Grows(live, live')
  }

  /** Along the run the log only grows so, during the turns and between them. */
  ghost predicate OnlyGrows(r: Run, n: Name) {
    r.Then? ==> OnlyGrows(r.before, n) && StepGrows(End(r.before), r.event, r.world, n)
  }

  /** The overlap point is far enough back for everything that the mirror lacks. */
  predicate Trailing(m: Coll, live: Coll, mark: Oid) {
    && mark in live && SubColl(m, live)
    && forall x :: x in live && x !in m ==> x.sec >= mark.sec - OVERLAP_S
  }

  ghost predicate LogInv(w: World, n: Name) {
    var m, live := Current(w, n), CollAt(w.live, n);
    w.state.host.Host? ==>
      && (Tracked(w.state, n) ==> Trailing(m, live, w.state.marks[n]))
      && (Digested(w, n) ==> w.state.digests[n] == map[] && SubColl(m, live))
  }

  lemma TrailingKept(m: Coll, live: Coll, mark: Oid)
    requires Trailing(m, live, mark)
    ensures KeptUp(m, live, mark) && m + From(live, Back(mark)) == live
  {
    OverlapExactIff(m, live, mark);
  }

  lemma TrailingGrows(m: Coll, a: Coll, b: Coll, mark: Oid)
    requires Trailing(m, a, mark) && Grows(a, b)
    ensures Trailing(m, b, mark)
  {
  }

  /** The mirror holds what some read of the turn saw. */
  predicate Agrees(m: Coll, t: Turn) {
    m == t.first || m == t.copy
  }

  lemma RescuedGrows(was: Coll, now: Coll, t: Turn)
    requires Rescued(was, now, t) && SubColl(t.prune, t.copy)
    ensures now == t.copy
  {
    forall id
      ensures Same(now, t.copy, id)
    {
      assert if id in t.copy then Same(now, t.copy, id)
             else id !in now || (id in t.prune && (Same(now, was, id) || Same(now, t.first, id)));
    }
    PointwiseEqual(now, t.copy);
  }

  /** What a sync finds saved about a log. */
  lemma FoundByTurn(w: World, e: Event, n: Name)
    requires e.Sync? && LogInv(w, n)
    ensures var from, full := Effective(w.state, e.host), e.full || Switches(w, e.host);
            var was, live := CollAt(MirrorOn(w, e.host), n), CollAt(w.live, n);
            && (Tracked(from, n) && !full ==> Trailing(was, live, from.marks[n]))
            && (forall t :: Skips(from, n, t, full) && !(Tracked(from, n) && !full) ==>
                  from.digests[n] == map[] && SubColl(was, live))
  {
  }

  lemma SyncAgrees(w: World, e: Event, w': World, n: Name)
    requires e.Sync? && Step(w, e, w') && LogInv(w, n) && n in e.names && StepGrows(w, e, w', n)
    ensures Agrees(CollAt(MirrorOn(w', e.host), n), TurnAt(e.turns, n))
  {
    var t, full, from := TurnAt(e.turns, n), e.full || Switches(w, e.host), Effective(w.state, e.host);
    var was, now := CollAt(MirrorOn(w, e.host), n), CollAt(MirrorOn(w', e.host), n);
    assert Synced(n, t, was, now, from, w'.state, full);
    FoundByTurn(w, e, n);
    if Tracked(from, n) && !full {
      TrackedTurn(n, t, was, now, from, w'.state, CollAt(w.live, n));
    } else {
      DigestTurn(n, t, was, now, from, w'.state, full, CollAt(w.live, n));
    }
  }

  lemma TrackedTurn(n: Name, t: Turn, was: Coll, now: Coll, from: State, to: State, live: Coll)
    requires Synced(n, t, was, now, from, to, false) && Grows(live, t.first) && SubColl(t.prune, t.copy)
    requires Tracked(from, n) && Trailing(was, live, from.marks[n])
    ensures Agrees(now, t)
  {
    TrailingGrows(was, live, t.first, from.marks[n]);
    TrailingKept(was, t.first, from.marks[n]);
    if Rescued(was, now, t) {
      RescuedGrows(was, now, t);
    }
  }

  lemma DigestTurn(n: Name, t: Turn, was: Coll, now: Coll, from: State, to: State, full: bool, live: Coll)
    requires Synced(n, t, was, now, from, to, full) && Grows(live, t.first) && SubColl(t.prune, t.copy)
    requires !(Tracked(from, n) && !full)
    requires Skips(from, n, t, full) ==> from.digests[n] == map[] && SubColl(was, live)
    ensures Agrees(now, t)
  {
    if Skips(from, n, t, full) {
      NothingIn(was, live, t.first);
    } else {
      ReconcileAgreesIff(was, t.prune, t.copy);
    }
  }

  lemma NothingIn(was: Coll, live: Coll, first: Coll)
    requires SubColl(was, live) && Grows(live, first) && first == map[]
    ensures was == map[]
  {
    forall x
      ensures x !in was
    {
      assert x in was ==> x in live;
      assert x in live ==> x in first;
    }
  }

  /** A turn that sees all that was there before leaves a watermark that the mirror trails. */
  lemma AgreeingTrails(m: Coll, t: Turn, live': Coll, mark: Oid)
    requires Agrees(m, t) && SubColl(t.first, t.copy) && SubColl(t.copy, live') && SubColl(t.newest, live')
    requires Prompt(t, live') && IsLast(t.newest, mark)
    ensures Trailing(m, live', mark)
  {
  }

  lemma SyncKeepsInv(w: World, e: Event, w': World, n: Name)
    requires e.Sync? && Step(w, e, w') && AppendOnly(n) && LogInv(w, n) && n in e.names && StepGrows(w, e, w', n)
    ensures LogInv(w', n)
  {
    var t, full, from := TurnAt(e.turns, n), e.full || Switches(w, e.host), Effective(w.state, e.host);
    var was, now := CollAt(MirrorOn(w, e.host), n), CollAt(MirrorOn(w', e.host), n);
    var live, live' := CollAt(w.live, n), CollAt(w'.live, n);
    SyncAgrees(w, e, w', n);
    assert Synced(n, t, was, now, from, w'.state, full);
    assert w'.state.host == Host(e.host) && Current(w', n) == now;
    ReadsChain(live, t, live');
    if Tracked(from, n) {
      MarkRead(live, t.newest, from.marks[n]);
    }
    if t.newest != map[] {
      AgreeingTrails(now, t, live', w'.state.marks[n]);
    } else {
      NothingSeen(t, now);
    }
  }

  lemma MarkRead(live: Coll, newest: Coll, mark: Oid)
    requires mark in live && SubColl(live, newest)
    ensures newest != map[]
  {
    assert mark in newest;
  }

  lemma ReadsChain(live: Coll, t: Turn, live': Coll)
    requires TurnGrows(live, t, live')
    ensures SubColl(live, t.newest) && SubColl(t.first, t.copy) && SubColl(t.first, live') && SubColl(t.copy, live')
  {
  }

  lemma NothingSeen(t: Turn, now: Coll)
    requires t.newest == map[] && SubColl(t.first, t.copy) && SubColl(t.copy, t.newest) && Agrees(now, t)
    ensures now == map[] && t.first == map[]
  {
    assert forall x :: x in t.first ==> x in t.copy;
    assert forall x :: x in t.copy ==> x in t.newest;
  }

  lemma FailureKeepsInv(w: World, e: Event, w': World, n: Name)
    requires e.FailedSync? && Step(w, e, w') && LogInv(w, n) && n in e.names && StepGrows(w, e, w', n)
    ensures LogInv(w', n)
  {
    var t, live, live' := TurnAt(e.turns, n), CollAt(w.live, n), CollAt(w'.live, n);
    ReadsChain(live, t, live');
    if w.state.host.Host? {
      var m, m' := Current(w, n), Current(w', n);
      if Switches(w, e.host) {
        assert m' == m;
      } else {
        assert Blended(m, m', t);
      }
      if SubColl(m, live) {
        StaysWithin(m, m', live, t, live', Switches(w, e.host));
      }
    }
  }

  /** Whatever lands of a turn that fails, the mirror holds nothing but the log, and no less than before. */
  lemma StaysWithin(m: Coll, m': Coll, live: Coll, t: Turn, live': Coll, same: bool)
    requires SubColl(m, live) && Grows(live, live') && SubColl(live, t.first) && SubColl(t.first, t.prune)
    requires SubColl(t.prune, t.copy)
    requires SubColl(t.first, live') && SubColl(t.copy, live') && (if same then m' == m else Blended(m, m', t))
    ensures SubColl(m', live') && forall x :: x in m ==> x in m'
  {
    if !same {
      forall x | x in m'
        ensures x in live' && m'[x] == live'[x]
      {
        assert Same(m', m, x) || Same(m', t.first, x) || Same(m', t.copy, x) || (x !in m' && x !in t.prune);
      }
      forall x | x in m
        ensures x in m'
      {
        assert Same(m', m, x) || Same(m', t.first, x) || Same(m', t.copy, x) || (x !in m' && x !in t.prune);
      }
    }
  }

  lemma AsideKeepsInv(w: World, e: Event, w': World, n: Name)
    requires Step(w, e, w') && LogInv(w, n) && StepGrows(w, e, w', n) && (e.Write? || n !in e.names)
    ensures LogInv(w', n)
  {
    if e.Sync? {
      var from := Effective(w.state, e.host);
      assert w'.state.host == Host(e.host);
      assert SameAt(from.digests, w'.state.digests, n) && SameAt(from.marks, w'.state.marks, n);
      assert CollAt(MirrorOn(w', e.host), n) == CollAt(MirrorOn(w, e.host), n);
    } else if e.FailedSync? && w.state.host.Host? && Switches(w, e.host) {
      assert MirrorOn(w', w.state.host.fp) == MirrorOn(w, w.state.host.fp);
    }
    if Tracked(w.state, n) && w.state.host.Host? {
      TrailingGrows(Current(w, n), CollAt(w.live, n), CollAt(w'.live, n), w.state.marks[n]);
    }
  }

  lemma {:induction false} AlwaysInv(r: Run, n: Name)
    requires Valid(r) && AppendOnly(n) && OnlyGrows(r, n)
    ensures LogInv(End(r), n)
  {
    if r.Then? {
      var w, e := End(r.before), r.event;
      AlwaysInv(r.before, n);
      if e.Sync? && n in e.names {
        SyncKeepsInv(w, e, r.world, n);
      } else if e.FailedSync? && n in e.names {
        FailureKeepsInv(w, e, r.world, n);
      } else {
        AsideKeepsInv(w, e, r.world, n);
      }
    }
  }

  /** Along every run of syncs and failed syncs, to one cluster or several, a completed sync leaves a log that only grew within
      the overlap as a read of its turn saw it. */
  lemma MirrorAgreement(r: Run, n: Name)
    requires Valid(r) && r.Then? && r.event.Sync? && n in r.event.names && AppendOnly(n) && OnlyGrows(r, n)
    ensures Agrees(CollAt(MirrorOn(r.world, r.event.host), n), TurnAt(r.event.turns, n))
  {
    AlwaysInv(r.before, n);
    SyncAgrees(End(r.before), r.event, r.world, n);
  }

  // ---------- entries that come out of order ----------

  /** During a turn of at most `len` seconds entries are committed; its first read has all that was there at its start, and each
      read what the one before had. */
  ghost predicate TurnCommits(live: Coll, t: Turn, live': Coll, clock: int, clock': int, len: nat, tm: UsableTiming) {
    exists start, c1, c2 ::
      && CommitsLead(live, start, clock, c1, tm) && CommitsLead(start, t.newest, c1, c2, tm) && c2 <= c1 + len
      && CommitsLead(t.newest, live', c2, clock', tm)
      && SubColl(start, t.first) && SubColl(t.first, t.prune) && SubColl(t.prune, t.copy) && SubColl(t.copy, t.newest)
  }

  ghost predicate StepCommits(w: World, e: Event, w': World, n: Name, clock: int, clock': int, len: nat, tm: UsableTiming) {
    var live, live' := CollAt(w.live, n), CollAt(w'.live, n);
    if !e.Write? && n in e.names then TurnCommits(live, TurnAt(e.turns, n), live', clock, clock', len, tm)
    else CommitsLead(live, live', clock, clock', tm)
  }

  /** A run in which entries of the log are only committed, from none on, and turns last at most `len` seconds; it has reached
      `clock`. */
  ghost predicate CommitsOnly(r: Run, n: Name, clock: int, len: nat, tm: UsableTiming) {
    match r
    case Begin(live, _) => CollAt(live, n) == map[] && clock == 0
    case Then(before, e, w) =>
      exists c0 :: CommitsOnly(before, n, c0, len, tm) && StepCommits(End(before), e, w, n, c0, clock, len, tm)
  }

  lemma CommitsGrow(a: Coll, b: Coll, clock: int, clock': int, tm: UsableTiming)
    requires CommitsLead(a, b, clock, clock', tm) && Timely(a, clock, tm) && Disorder(0, tm) <= OVERLAP_S
    ensures Grows(a, b) && Timely(b, clock', tm)
  {
    CommitsAdd(a, b, clock, clock', tm);
    ReadGrows(a, a, b, clock, clock, 0, tm);
  }

  lemma TurnCommitsGrow(live: Coll, t: Turn, live': Coll, clock: int, clock': int, len: nat, tm: UsableTiming)
    requires TurnCommits(live, t, live', clock, clock', len, tm) && Timely(live, clock, tm) && Disorder(len, tm) <= OVERLAP_S
    ensures TurnGrows(live, t, live') && Prompt(t, live') && Timely(live', clock', tm)
  {
    var start, c1, c2 :|
      && CommitsLead(live, start, clock, c1, tm) && CommitsLead(start, t.newest, c1, c2, tm) && c2 <= c1 + len
      && CommitsLead(t.newest, live', c2, clock', tm)
      && SubColl(start, t.first) && SubColl(t.first, t.prune) && SubColl(t.prune, t.copy) && SubColl(t.copy, t.newest);
    BackupLogs.LeadsAdd(live, start, t.newest, live', clock, c1, c2, clock', tm);
    CommitsAdd(t.newest, live', c2, clock', tm);
    AddsTrans(live, t.newest, live', clock - tm.lag, c2 - tm.lag, tm);
    TurnReads(live, start, t, live', clock, c1, c2, len, tm);
  }

  lemma TurnReads(live: Coll, start: Coll, t: Turn, live': Coll, clock: int, c1: int, c2: int, len: nat, tm: UsableTiming)
    requires Timely(live, clock, tm) && Timely(t.newest, c2, tm) && c1 <= c2 <= c1 + len && SubColl(live, start)
    requires Adds(live, t.newest, clock - tm.lag, tm) && Adds(live, live', clock - tm.lag, tm)
    requires Adds(start, live', c1 - tm.lag, tm) && Disorder(len, tm) <= OVERLAP_S && SubColl(t.newest, live')
    requires SubColl(start, t.first) && SubColl(t.first, t.prune) && SubColl(t.prune, t.copy) && SubColl(t.copy, t.newest)
    ensures TurnGrows(live, t, live') && Prompt(t, live')
  {
    ReadGrows(live, live, t.first, clock, clock, len, tm);
    ReadGrows(live, live, live', clock, clock, len, tm);
    SpanBounds(c1 - tm.lag, c2, len + tm.lag, tm.bucket);
  }

  lemma {:induction false} CommitsOnlyGrow(r: Run, n: Name, clock: int, len: nat, tm: UsableTiming)
    requires CommitsOnly(r, n, clock, len, tm) && Disorder(len, tm) <= OVERLAP_S
    ensures OnlyGrows(r, n) && Timely(CollAt(End(r).live, n), clock, tm)
  {
    if r.Then? {
      var c0 :| CommitsOnly(r.before, n, c0, len, tm) && StepCommits(End(r.before), r.event, r.world, n, c0, clock, len, tm);
      CommitsOnlyGrow(r.before, n, c0, len, tm);
      SpanGrows(tm.lag, len + tm.lag, tm.bucket);
      var live, live' := CollAt(End(r.before).live, n), CollAt(r.world.live, n);
      if !r.event.Write? && n in r.event.names {
        TurnCommitsGrow(live, TurnAt(r.event.turns, n), live', c0, clock, len, tm);
      } else {
        CommitsGrow(live, live', c0, clock, tm);
      }
    }
  }

  /** The last event is a completed sync of the log. */
  predicate Syncs(r: Run, n: Name) {
    r.Then? && r.event.Sync? && n in r.event.names
  }

  predicate LogMirrored(r: Run, n: Name)
    requires Syncs(r, n)
  {
    Agrees(CollAt(MirrorOn(r.world, r.event.host), n), TurnAt(r.event.turns, n))
  }

  ghost predicate AlwaysMirrored(n: Name, len: nat, tm: UsableTiming) {
    forall r, clock :: Valid(r) && CommitsOnly(r, n, clock, len, tm) && Syncs(r, n) ==> LogMirrored(r, n)
  }

  /** Over every run of syncs whose turns last at most `len` seconds, some of them failing perhaps, every completed sync mirrors a
      log as it read it if and only if the entries' disorder over that time is at most the overlap. */
  lemma LogMirrorIff(log: Log, len: nat, tm: UsableTiming)
    ensures AlwaysMirrored(Appended(log), len, tm) <==> Disorder(len, tm) <= OVERLAP_S
  {
    var n := Appended(log);
    if Disorder(len, tm) <= OVERLAP_S {
      forall r, clock | Valid(r) && CommitsOnly(r, n, clock, len, tm) && Syncs(r, n)
        ensures LogMirrored(r, n)
      {
        CommitsOnlyGrow(r, n, clock, len, tm);
        MirrorAgreement(r, n);
      }
    } else {
      SlowTurnNotMirrored(log, len, tm);
    }
  }

  /** For ballots the time from a turn's start to its end, with the grace period, rounded up to whole buckets, has to be at most
      the overlap; for ordinary ids, that time with the time from an id to its commit. */
  lemma MirrorIff(bucket: int, log: Log, lag: nat, len: nat)
    requires bucket > 0
    ensures AlwaysMirrored(VOTES, len, OfBallots(bucket)) <==> (len + GRACE_S + bucket - 1) / bucket * bucket <= OVERLAP_S
    ensures AlwaysMirrored(Appended(log), len, OfClock(lag)) <==> len + lag <= 120
  {
    LogMirrorIff(VoteEvents, len, OfBallots(bucket));
    LogMirrorIff(log, len, OfClock(lag));
    DisorderIs(len, bucket, lag);
  }

  // ---------- two syncs ----------

  /** A full sync with turn `t` that leaves the live log at `live`, then writes, and an incremental sync of `c1` at a
      standstill. */
  function TwoSyncs(n: Name, before: Coll, t: Turn, live: Coll, last: Oid, c1: Coll, last': Oid): Run {
    var st0 := State(Only(n, t.first), map[n := last], Host("a"));
    var w1 := World(Only(n, live), map["a" := Only(n, t.copy)], st0);
    var w2 := World(Only(n, c1), map["a" := Only(n, t.copy)], st0);
    var w3 := World(Only(n, c1), map["a" := Only(n, t.copy + From(c1, Back(last)))],
                    State(Only(n, t.first), map[n := last'], Host("a")));
    Then(Then(Then(Begin(Only(n, before), map[]), Sync("a", true, [n], map[n := t]), w1), Write, w2),
         Sync("a", false, [n], map[n := Frozen(c1)]), w3)
  }

  lemma FirstSync(n: Name, before: Coll, t: Turn, live: Coll, last: Oid)
    requires AppendOnly(n) && t.prune == t.copy && IsLast(t.newest, last)
    ensures Step(End(Begin(Only(n, before), map[])), Sync("a", true, [n], map[n := t]),
                 World(Only(n, live), map["a" := Only(n, t.copy)], State(Only(n, t.first), map[n := last], Host("a"))))
  {
    assert n in [n];
    ReconcileAgreesIff(map[], t.prune, t.copy);
  }

  lemma SecondSync(n: Name, before: Coll, t: Turn, live: Coll, last: Oid, c1: Coll, last': Oid)
    requires AppendOnly(n) && IsLast(c1, last')
    ensures var r := TwoSyncs(n, before, t, live, last, c1, last');
            Step(End(r.before), r.event, r.world)
  {
    var r := TwoSyncs(n, before, t, live, last, c1, last');
    var w, m := End(r.before), Only(n, t.copy);
    assert m[n := t.copy + From(c1, Back(last))] == Only(n, t.copy + From(c1, Back(last)));
    OneSynced(n, Frozen(c1), m, t.copy + From(c1, Back(last)), w.state, r.world.state, "a");
    assert w.mirrors["a" := MirrorOn(r.world, "a")] == r.world.mirrors;
  }

  lemma TwoSyncsMirror(n: Name, before: Coll, t: Turn, live: Coll, last: Oid, c1: Coll, last': Oid)
    requires AppendOnly(n) && t.prune == t.copy && IsLast(t.newest, last) && IsLast(c1, last')
    ensures var r := TwoSyncs(n, before, t, live, last, c1, last');
            && Valid(r) && AllSyncsOk(r) && Syncs(r, n) && CollAt(r.world.live, n) == c1
            && CollAt(MirrorOn(r.world, "a"), n) == t.copy + From(c1, Back(last))
  {
    var r := TwoSyncs(n, before, t, live, last, c1, last');
    FirstSync(n, before, t, live, last);
    SecondSync(n, before, t, live, last, c1, last');
    assert Valid(r.before.before) && AllSyncsOk(r.before.before);
    assert Valid(r.before) && AllSyncsOk(r.before);
  }

  lemma TwoSyncsCommit(n: Name, t: Turn, live: Coll, last: Oid, c1: Coll, last': Oid, t1: int, t2: int, len: nat,
                       tm: UsableTiming)
    requires TurnCommits(map[], t, live, 0, t1, len, tm) && CommitsLead(live, c1, t1, t2, tm)
    ensures CommitsOnly(TwoSyncs(n, map[], t, live, last, c1, last'), n, t2, len, tm)
  {
    var r := TwoSyncs(n, map[], t, live, last, c1, last');
    var r1 := r.before.before;
    OneMoreStep(r1.before, n, 0, t1, r1.event, r1.world, len, tm);
    OneMoreStep(r1, n, t1, t2, Write, r.before.world, len, tm);
    StillTurn(c1, t2, len, tm);
    OneMoreStep(r.before, n, t2, t2, r.event, r.world, len, tm);
  }

  lemma OneMoreStep(before: Run, n: Name, c0: int, clock: int, e: Event, w: World, len: nat, tm: UsableTiming)
    requires CommitsOnly(before, n, c0, len, tm) && StepCommits(End(before), e, w, n, c0, clock, len, tm)
    ensures CommitsOnly(Then(before, e, w), n, clock, len, tm)
  {
  }

  lemma StillTurn(c: Coll, clock: int, len: nat, tm: UsableTiming)
    ensures TurnCommits(c, Frozen(c), c, clock, clock, len, tm)
  {
    CommitNone(c, clock, clock, tm);
  }

  /** The last sync read the log as it is, and the mirror lacks an entry. */
  ghost predicate Lacks(r: Run, n: Name) {
    && Syncs(r, n) && TurnAt(r.event.turns, n) == Frozen(CollAt(r.world.live, n))
    && exists x :: x in CollAt(r.world.live, n) && x !in CollAt(MirrorOn(r.world, r.event.host), n)
  }

  /** A turn long enough: after its copy an entry commits that read the clock early, and before its last read another one far
      enough ahead, whose id becomes the watermark. The next sync, at a standstill, does not read back to the first. */
  lemma SlowTurnNotMirrored(log: Log, len: nat, tm: UsableTiming)
    requires Disorder(len, tm) > OVERLAP_S
    ensures exists r, clock ::
              && Valid(r) && AllSyncsOk(r) && CommitsOnly(r, Appended(log), clock, len, tm)
              && Syncs(r, Appended(log)) && TurnAt(r.event.turns, Appended(log)) == Frozen(CollAt(r.world.live, Appended(log)))
              && exists x :: x in CollAt(r.world.live, Appended(log))
                             && x !in CollAt(MirrorOn(r.world, r.event.host), Appended(log))
    ensures !AlwaysMirrored(Appended(log), len, tm)
  {
    var n := Appended(log);
    var w, y, z := Late(0, 1, tm), Early(0, tm), Late(len, 2, tm);
    var start, live := map[w.id := ""], map[w.id := "", y.id := "", z.id := ""];
    var t := Turn(start, start, start, live);
    SlowIds(len, tm);
    SlowTurn(len, tm);
    SlowRun(n, t, live, z.id, y.id, z.now, len, tm);
    var r := TwoSyncs(n, map[], t, live, z.id, live, z.id);
    assert Valid(r) && AllSyncsOk(r) && CommitsOnly(r, n, z.now, len, tm) && Lacks(r, n);
  }

  lemma SlowRun(n: Name, t: Turn, live: Coll, last: Oid, y: Oid, clock: int, len: nat, tm: UsableTiming)
    requires AppendOnly(n) && t.prune == t.copy && t.newest == live && IsLast(live, last)
    requires TurnCommits(map[], t, live, 0, clock, len, tm) && y in live && y !in t.copy + From(live, Back(last))
    ensures var r := TwoSyncs(n, map[], t, live, last, live, last);
            Valid(r) && AllSyncsOk(r) && CommitsOnly(r, n, clock, len, tm) && Lacks(r, n) && !LogMirrored(r, n)
  {
    SlowLacks(n, t, live, last, y);
    CommitNone(live, clock, clock, tm);
    TwoSyncsCommit(n, t, live, last, live, last, clock, clock, len, tm);
  }

  lemma SlowLacks(n: Name, t: Turn, live: Coll, last: Oid, y: Oid)
    requires AppendOnly(n) && t.prune == t.copy && t.newest == live && IsLast(live, last)
    requires y in live && y !in t.copy + From(live, Back(last))
    ensures var r := TwoSyncs(n, map[], t, live, last, live, last);
            Valid(r) && AllSyncsOk(r) && Lacks(r, n) && !LogMirrored(r, n)
  {
    TwoSyncsMirror(n, map[], t, live, last, live, last);
    var r := TwoSyncs(n, map[], t, live, last, live, last);
    assert y in live && y !in CollAt(MirrorOn(r.world, "a"), n);
  }

  lemma SlowIds(len: nat, tm: UsableTiming)
    requires Disorder(len, tm) > OVERLAP_S
    ensures var y, w, z := Early(0, tm), Late(0, 1, tm), Late(len, 2, tm);
            var start, live := map[w.id := ""], map[w.id := "", y.id := "", z.id := ""];
            IsLast(live, z.id) && y.id !in start + From(live, Back(z.id))
  {
    EarlyLate(len, tm);
  }

  lemma SlowTurn(len: nat, tm: UsableTiming)
    requires Disorder(len, tm) > OVERLAP_S
    ensures var y, w, z := Early(0, tm), Late(0, 1, tm), Late(len, 2, tm);
            var start, live := map[w.id := ""], map[w.id := "", y.id := "", z.id := ""];
            TurnCommits(map[], Turn(start, start, start, live), live, 0, z.now, len, tm)
  {
    var y, w, z := Early(0, tm), Late(0, 1, tm), Late(len, 2, tm);
    var start, live := map[w.id := ""], map[w.id := "", y.id := "", z.id := ""];
    CommitOne(map[], w, 0, w.now, tm);
    BackupLogs.FirstLead(len, tm);
    CommitNone(live, z.now, z.now, tm);
    assert SubColl(start, live) && z.now <= w.now + len;
  }

  /** Even if no turn takes any time: an entry that read the clock early commits after a sync that has seen one far enough
      ahead. */
  lemma LateEntryNotMirrored(log: Log, tm: UsableTiming)
    requires Disorder(0, tm) > OVERLAP_S
    ensures exists r, clock ::
              && Valid(r) && AllSyncsOk(r) && TurnsStill(r, Appended(log)) && CommitsOnly(r, Appended(log), clock, 0, tm)
              && Syncs(r, Appended(log)) && TurnAt(r.event.turns, Appended(log)) == Frozen(CollAt(r.world.live, Appended(log)))
              && exists x :: x in CollAt(r.world.live, Appended(log))
                             && x !in CollAt(MirrorOn(r.world, r.event.host), Appended(log))
  {
    var n := Appended(log);
    var y, z := Early(0, tm), Late(0, 1, tm);
    var c0, c1 := map[z.id := ""], map[z.id := "", y.id := ""];
    EarlyLate(0, tm);
    LateIds(tm);
    TwoSyncsMirror(n, map[], Frozen(c0), c0, z.id, c1, z.id);
    CommitOne(map[], z, 0, z.now, tm);
    LateTurn(tm);
    CommitOne(c0, y, z.now, z.now, tm);
    TwoSyncsCommit(n, Frozen(c0), c0, z.id, c1, z.id, z.now, z.now, 0, tm);
    var r := TwoSyncs(n, map[], Frozen(c0), c0, z.id, c1, z.id);
    StillSyncs(n, map[], c0, z.id, c1, z.id);
    assert y.id in c1 && y.id !in c0 + From(c1, Back(z.id));
    assert CommitsOnly(r, n, z.now, 0, tm) && Lacks(r, n);
  }

  lemma LateIds(tm: UsableTiming)
    requires Disorder(0, tm) > OVERLAP_S
    ensures var y, z := Early(0, tm), Late(0, 1, tm);
            var c0, c1 := map[z.id := ""], map[z.id := "", y.id := ""];
            IsLast(c0, z.id) && IsLast(c1, z.id) && y.id !in c0 + From(c1, Back(z.id)) && c1 == c0[y.id := ""]
  {
    EarlyLate(0, tm);
  }

  lemma LateTurn(tm: UsableTiming)
    ensures var z := Late(0, 1, tm);
            TurnCommits(map[], Frozen(map[z.id := ""]), map[z.id := ""], 0, z.now, 0, tm)
  {
    var z := Late(0, 1, tm);
    var c0 := map[z.id := ""];
    CommitOne(map[], z, 0, z.now, tm);
    CommitNone(c0, z.now, z.now, tm);
    assert SubColl(c0, c0);
  }

  lemma StillSyncs(n: Name, before: Coll, c0: Coll, last: Oid, c1: Coll, last': Oid)
    ensures TurnsStill(TwoSyncs(n, before, Frozen(c0), c0, last, c1, last'), n)
  {
    var r := TwoSyncs(n, before, Frozen(c0), c0, last, c1, last');
    assert TurnsStill(r.before.before.before, n);
    assert TurnsStill(r.before.before, n);
    assert TurnsStill(r.before, n);
  }

  // ---------- entries that are deleted or changed ----------

  /** Ballots deleted by a reset of the election stay in the mirror until the next full sync. */
  lemma ResetStaysMirrored(x: Oid, z: Oid, was: string, now: string)
    requires Lt(x, z)
    ensures exists r ::
              && Valid(r) && AllSyncsOk(r) && TurnsStill(r, VOTES) && Syncs(r, VOTES) && r.event.host == "a"
              && CollAt(r.world.live, VOTES) == map[z := now]
              && CollAt(MirrorOn(r.world, "a"), VOTES) == map[x := was, z := now]
  {
    var c0, c1 := map[x := was], map[z := now];
    BackupLogs.OneIsLast(x, was);
    BackupLogs.OneIsLast(z, now);
    BackupLogs.OneFrom(z, now, x);
    TwoSyncsMirror(VOTES, c0, Frozen(c0), c0, x, c1, z);
    StillSyncs(VOTES, c0, c0, x, c1, z);
    var r := TwoSyncs(VOTES, c0, Frozen(c0), c0, x, c1, z);
    assert c0 + c1 == map[x := was, z := now];
    assert Valid(r) && Syncs(r, VOTES);
  }

  /** After an entry of a log that otherwise only grew has been changed, the next incremental sync at a standstill makes the
      mirror equal if and only if the entry is not older than the overlap point. */
  lemma EditedMirroredIff(r: Run, n: Name, x: Oid)
    requires Valid(r) && r.Then? && r.event.Write? && OnlyGrows(r.before, n)
    requires End(r).state.host.Host? && Tracked(End(r).state, n)
    requires Edited(CollAt(End(r.before).live, n), CollAt(End(r).live, n), x)
    ensures NextAgrees(End(r), n, CollAt(End(r).live, n)) <==> !Lt(x, Back(End(r).state.marks[n]))
  {
    var w, w' := End(r.before), End(r);
    AlwaysInv(r.before, n);
    EditedKeptUp(Current(w, n), CollAt(w.live, n), CollAt(w'.live, n), w.state.marks[n], x);
    CaughtIff(w', n);
  }

  lemma EditedKeptUp(m: Coll, live: Coll, live': Coll, mark: Oid, x: Oid)
    requires Trailing(m, live, mark) && Edited(live, live', x)
    ensures KeptUp(m, live', mark) <==> !Lt(x, Back(mark))
  {
    var grown := live'[x := live[x]];
    TrailingGrows(m, live, grown, mark);
    TrailingKept(m, grown, mark);
    assert forall y :: y in live' && y != x ==> grown[y] == live'[y];
    assert grown.Keys == live'.Keys;
  }

  /** Undoing an edit marks its entry in the log and adds another one. If the marked one is older than the overlap, the mirror has
      no mark until the next full sync. */
  lemma UndoNotMirrored(x: Oid, y: Oid, z: Oid, edit: string, undone: string, other: string, undo: string)
    requires Lt(x, Back(y)) && Lt(y, z) && edit != undone
    ensures exists r ::
              && Valid(r) && AllSyncsOk(r) && TurnsStill(r, EDITS) && Syncs(r, EDITS) && r.event.host == "a"
              && CollAt(r.world.live, EDITS) == map[x := undone, y := other, z := undo]
              && CollAt(MirrorOn(r.world, "a"), EDITS) == map[x := edit, y := other, z := undo]
  {
    var c0, c1 := map[x := edit, y := other], map[x := undone, y := other, z := undo];
    BackupLogs.UndoIds(x, y, z, edit, undone, other, undo);
    UndoLast(x, y, z, undone, other, undo);
    TwoSyncsMirror(EDITS, c0, Frozen(c0), c0, y, c1, z);
    StillSyncs(EDITS, c0, c0, y, c1, z);
    var r := TwoSyncs(EDITS, c0, Frozen(c0), c0, y, c1, z);
    assert Valid(r) && Syncs(r, EDITS);
  }

  lemma UndoLast(x: Oid, y: Oid, z: Oid, undone: string, other: string, undo: string)
    requires Lt(x, Back(y)) && Lt(y, z)
    ensures IsLast(map[x := undone, y := other, z := undo], z)
  {
  }
}
