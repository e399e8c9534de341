/** Backups of the append-only logs: exactly when entries that come out of order, while an export takes its time, are all
    restored; and what becomes of entries that are deleted or changed. */
module BackupLogs {
  import opened ObjectIds
  import opened Buckets
  import opened LogTimes
  import opened Backup
  import opened BackupRuns

  const VOTES := Appended(VoteEvents)
  const EDITS := Appended(StudentEditAudit)

  /** An export reads on while entries are committed: it has all that was there at its start, and nothing that was not there at
      its end, `len` seconds later at most. */
  ghost predicate Scanned(probe: Coll, seen: Coll, after: Coll, clock: int, clock': int, len: nat, tm: UsableTiming) {
    exists first, last, c1, c2 ::
      && CommitsLead(probe, first, clock, c1, tm) && CommitsLead(first, last, c1, c2, tm) && c2 <= c1 + len
      && SubColl(first, seen) && SubColl(seen, last) && CommitsLead(last, after, c2, clock', tm)
  }

  /** A run in which entries of the log are only committed, from none on, and exports of it last at most `len` seconds; it has
      reached `clock`. */
  ghost predicate CommitsOnly(r: Run, n: Name, clock: int, len: nat, tm: UsableTiming) {
    match r
    case Begin(w) => CollAt(w.live, n) == map[] && clock == 0
    case Then(before, e, w) =>
      exists c0, c1 ::
        && CommitsOnly(before, n, c0, len, tm)
        && CommitsLead(CollAt(before.w.live, n), CollAt(e.probe, n), c0, c1, tm)
        && Scanned(CollAt(e.probe, n), CollAt(e.seen, n), CollAt(e.after, n), c1, clock, len, tm)
  }

  lemma ScanGrows(probe: Coll, seen: Coll, after: Coll, clock: int, clock': int, len: nat, tm: UsableTiming)
    requires Timely(probe, clock, tm) && Scanned(probe, seen, after, clock, clock', len, tm) && Disorder(len, tm) <= OVERLAP_S
    ensures Grows(probe, seen) && Grows(seen, after) && Timely(after, clock', tm)
  {
    var first, last, c1, c2 :|
      && CommitsLead(probe, first, clock, c1, tm) && CommitsLead(first, last, c1, c2, tm) && c2 <= c1 + len
      && SubColl(first, seen) && SubColl(seen, last) && CommitsLead(last, after, c2, clock', tm);
    LeadsAdd(probe, first, last, after, clock, c1, c2, clock', tm);
    ReadParts(probe, first, seen, last, after, clock, c1, c2, len, tm);
  }

  lemma LeadsAdd(a: Coll, b: Coll, c: Coll, d: Coll, t0: int, t1: int, t2: int, t3: int, tm: UsableTiming)
    requires Timely(a, t0, tm) && CommitsLead(a, b, t0, t1, tm) && CommitsLead(b, c, t1, t2, tm) && CommitsLead(c, d, t2, t3, tm)
    ensures t0 <= t1 <= t2 <= t3 && Timely(b, t1, tm) && Timely(c, t2, tm) && Timely(d, t3, tm)
    ensures Adds(a, c, t0 - tm.lag, tm) && Adds(b, d, t1 - tm.lag, tm) && SubColl(a, b) && SubColl(c, d)
  {
    CommitsAdd(a, b, t0, t1, tm);
    CommitsAdd(b, c, t1, t2, tm);
    CommitsAdd(c, d, t2, t3, tm);
    AddsTrans(a, b, c, t0 - tm.lag, t1 - tm.lag, tm);
    AddsTrans(b, c, d, t1 - tm.lag, t2 - tm.lag, tm);
  }

  lemma ReadParts(probe: Coll, first: Coll, seen: Coll, last: Coll, after: Coll, clock: int, c1: int, c2: int, len: nat,
                  tm: UsableTiming)
    requires Timely(probe, clock, tm) && Timely(last, c2, tm) && clock <= c1 <= c2 <= c1 + len
    requires Adds(probe, last, clock - tm.lag, tm) && Adds(first, after, c1 - tm.lag, tm) && SubColl(probe, first)
    requires SubColl(first, seen) && SubColl(seen, last) && SubColl(last, after) && Disorder(len, tm) <= OVERLAP_S
    ensures Grows(probe, seen) && Grows(seen, after)
  {
    ReadGrows(probe, probe, seen, clock, clock, len, tm);
    ReadGrows(first, seen, after, c1, c2, len, tm);
  }

  lemma {:induction false} CommitsOnlyGrow(r: Run, n: Name, clock: int, len: nat, tm: UsableTiming)
    requires Valid(r) && CommitsOnly(r, n, clock, len, tm) && Disorder(len, tm) <= OVERLAP_S
    ensures OnlyGrows(r, n) && Timely(CollAt(r.w.live, n), clock, tm)
  {
    if r.Then? {
      var e, live := r.e, CollAt(r.before.w.live, n);
      var c0, c1 :|
        && CommitsOnly(r.before, n, c0, len, tm)
        && CommitsLead(live, CollAt(e.probe, n), c0, c1, tm)
        && Scanned(CollAt(e.probe, n), CollAt(e.seen, n), CollAt(e.after, n), c1, clock, len, tm);
      CommitsOnlyGrow(r.before, n, c0, len, tm);
      CommitsAdd(live, CollAt(e.probe, n), c0, c1, tm);
      ReadGrows(live, live, CollAt(e.probe, n), c0, c0, len, tm);
      ScanGrows(CollAt(e.probe, n), CollAt(e.seen, n), CollAt(e.after, n), c1, clock, len, tm);
    }
  }

  /** The chain of the newest full and the later incrementals gives the log as last exported. */
  ghost predicate LogRestored(r: Run, n: Name) {
    Restored(Chain(r.w.s.bucket), n) == CollAt(r.w.snap, n)
  }

  ghost predicate AlwaysRestored(n: Name, len: nat, tm: UsableTiming) {
    forall r, clock :: Valid(r) && CommitsOnly(r, n, clock, len, tm) ==> LogRestored(r, n)
  }

  /** Over every run of backups whose exports last at most `len` seconds, restoring gives every exported entry of a log if and
      only if the entries' disorder over that time is at most the overlap of incremental backups. */
  lemma LogBackupsIff(log: Log, len: nat, tm: UsableTiming)
    ensures AlwaysRestored(Appended(log), len, tm) <==> Disorder(len, tm) <= OVERLAP_S
  {
    var n := Appended(log);
    if Disorder(len, tm) <= OVERLAP_S {
      forall r, clock | Valid(r) && CommitsOnly(r, n, clock, len, tm)
        ensures LogRestored(r, n)
      {
        CommitsOnlyGrow(r, n, clock, len, tm);
        RunKeeps(r, n);
      }
    } else {
      LateEntryNotBackedUp(log, len, tm);
    }
  }

  /** For ballots the time from an export's start to its end, with the grace period, rounded up to whole buckets, has to be at
      most the overlap; for ordinary ids, that time with the time from an id to its commit. */
  lemma BackupsIff(bucket: int, log: Log, lag: nat, len: nat)
    requires bucket > 0
    ensures AlwaysRestored(VOTES, len, OfBallots(bucket)) <==> (len + GRACE_S + bucket - 1) / bucket * bucket <= OVERLAP_S
    ensures AlwaysRestored(Appended(log), len, OfClock(lag)) <==> len + lag <= 120
  {
    LogBackupsIff(VoteEvents, len, OfBallots(bucket));
    LogBackupsIff(log, len, OfClock(lag));
    DisorderIs(len, bucket, lag);
  }

  // ---------- two backups ----------

  /** A full backup that exports `c0` while the log comes to be `live`, and then an incremental one of `c1`. */
  function Full(n: Name, probe: Coll, c0: Coll, live: Coll): Event {
    Event(Kind.Full, 1, Only(n, probe), Only(n, c0), Only(n, live), false, false, Completes, Uploaded)
  }

  function Incremental(n: Name, c1: Coll): Event {
    Event(Kind.Incr, 2, Only(n, c1), Only(n, c1), Only(n, c1), false, false, Completes, Uploaded)
  }

  function Nothing(): World {
    World(State([], Never, map[]), map[], map[])
  }

  function AfterFull(n: Name, c0: Coll, live: Coll, last: Oid): World {
    var files := FullFiles(Only(n, c0));
    World(State([Prefix(1, Kind.Full, Manifest(files))], Hashes(files), map[n := last]), Only(n, live),
          Snapped(map[], files.Keys, Only(n, c0)))
  }

  lemma FullStep(n: Name, probe: Coll, c0: Coll, live: Coll, last: Oid)
    requires AppendOnly(n) && IsLast(c0, last)
    ensures Step(Nothing(), Full(n, probe, c0, live), AfterFull(n, c0, live, last))
  {
    var files := FullFiles(Only(n, c0));
    forall m
      ensures Moved(map[], files, map[n := last], true, m)
    {
    }
  }

  function AfterIncr(n: Name, c0: Coll, live: Coll, last: Oid, c1: Coll, last': Oid): World {
    var w := AfterFull(n, c0, live, last);
    var files := IncrFiles(w.s.wm, Only(n, c1), Only(n, c1));
    World(State(w.s.bucket + [Prefix(2, Kind.Incr, Manifest(files))], w.s.last, map[n := last']), Only(n, c1),
          Snapped(w.snap, files.Keys, Only(n, c1)))
  }

  lemma IncrDue(n: Name, last: Oid, c1: Coll, last': Oid)
    requires AppendOnly(n) && IsLast(From(c1, Back(last)), last') && Lt(last, last')
    ensures forall m :: m in IncrFiles(map[n := last], Only(n, c1), Only(n, c1)) <==> m == n
    ensures Advanced(map[n := last], IncrFiles(map[n := last], Only(n, c1), Only(n, c1)), map[n := last'], false)
  {
    var files := IncrFiles(map[n := last], Only(n, c1), Only(n, c1));
    assert last' in c1 && Lt(last, last');
    assert HasNew(c1, map[n := last], n);
    assert n in files;
    forall m
      ensures Moved(map[n := last], files, map[n := last'], false, m)
    {
      assert m in files <==> m == n;
    }
  }

  lemma IncrStep(n: Name, c0: Coll, live: Coll, last: Oid, c1: Coll, last': Oid)
    requires AppendOnly(n) && IsLast(From(c1, Back(last)), last') && Lt(last, last')
    ensures Step(AfterFull(n, c0, live, last), Incremental(n, c1), AfterIncr(n, c0, live, last, c1, last'))
    ensures ExportsIncr(AfterFull(n, c0, live, last), Incremental(n, c1), n)
  {
    IncrDue(n, last, c1, last');
    var s, files := AfterFull(n, c0, live, last).s, IncrFiles(map[n := last], Only(n, c1), Only(n, c1));
    assert EffectiveKind(s, Kind.Incr).Incr? && Files(s, Kind.Incr, Only(n, c1), Only(n, c1)) == files;
    assert n in files;
  }

  function TwoBackups(n: Name, probe: Coll, c0: Coll, live: Coll, last: Oid, c1: Coll, last': Oid): Run {
    Then(Then(Begin(Nothing()), Full(n, probe, c0, live), AfterFull(n, c0, live, last)), Incremental(n, c1),
         AfterIncr(n, c0, live, last, c1, last'))
  }

  /** What the two backups restore, exactly. */
  lemma TwoBackupsRestore(n: Name, probe: Coll, c0: Coll, live: Coll, last: Oid, c1: Coll, last': Oid)
    requires AppendOnly(n) && IsLast(c0, last) && IsLast(From(c1, Back(last)), last') && Lt(last, last')
    ensures var r := TwoBackups(n, probe, c0, live, last, c1, last');
            && Valid(r) && CollAt(r.w.snap, n) == c1
            && Restored(Chain(r.w.s.bucket), n) == c0 + From(c1, Back(last))
  {
    var r := TwoBackups(n, probe, c0, live, last, c1, last');
    FullStep(n, probe, c0, live, last);
    IncrStep(n, c0, live, last, c1, last');
    StepChain(Nothing(), r.before.e, r.before.w, n);
    StepChain(r.before.w, r.e, r.w, n);
  }

  // ---------- an entry that comes late ----------

  /** Some entry that was exported last is in no backup file. */
  ghost predicate Misses(r: Run, n: Name) {
    exists x :: x in CollAt(r.w.snap, n) && x !in Restored(Chain(r.w.s.bucket), n)
  }

  /** An entry `y` that read the clock early commits behind the point that an export has reached, and before the export is over
      `z` does, far enough ahead: with the next incremental from 120 seconds before `z` on, no backup holds `y`. */
  lemma LateEntryNotBackedUp(log: Log, len: nat, tm: UsableTiming)
    requires Disorder(len, tm) > OVERLAP_S
    ensures exists r, clock :: Valid(r) && CommitsOnly(r, Appended(log), clock, len, tm) && Misses(r, Appended(log))
  {
    var first, seen, live, z, c1, u, y, t1, t2 := LateCase(len, tm);
    LateRun(Appended(log), first, seen, live, z, c1, u, y, t1, t2, len, tm);
  }

  lemma LateCase(len: nat, tm: UsableTiming)
    returns (first: Coll, seen: Coll, live: Coll, z: Oid, c1: Coll, u: Oid, y: Oid, t1: int, t2: int)
    requires Disorder(len, tm) > OVERLAP_S
    ensures CommitsLead(map[], first, 0, t1, tm) && Scanned(first, seen, live, t1, t2, len, tm)
    ensures CommitsLead(live, c1, t2, t2, tm) && IsLast(seen, z) && IsLast(From(c1, Back(z)), u) && Lt(z, u)
    ensures y in c1 && y !in seen + From(c1, Back(z))
  {
    var ey, ew, ez, eu := Early(0, tm), Late(0, 1, tm), Late(len, 2, tm), Late(len, 3, tm);
    LateIds(len, tm);
    LateCommits(len, tm);
    first, seen := map[ew.id := ""], map[ew.id := "", ez.id := ""];
    live := map[ew.id := "", ey.id := "", ez.id := ""];
    z, c1, u, y, t1, t2 := ez.id, live[eu.id := ""], eu.id, ey.id, ew.now, ez.now;
  }

  lemma LateCommits(len: nat, tm: UsableTiming)
    requires Disorder(len, tm) > OVERLAP_S
    ensures var y, w, z, u := Early(0, tm), Late(0, 1, tm), Late(len, 2, tm), Late(len, 3, tm);
            var first, seen, live := map[w.id := ""], map[w.id := "", z.id := ""], map[w.id := "", y.id := "", z.id := ""];
            && CommitsLead(map[], first, 0, w.now, tm) && Scanned(first, seen, live, w.now, z.now, len, tm)
            && CommitsLead(live, live[u.id := ""], z.now, z.now, tm)
  {
    LateFirst(tm);
    FirstScan(len, tm);
    LateNext(len, tm);
  }

  lemma LateFirst(tm: UsableTiming)
    ensures var w := Late(0, 1, tm); CommitsLead(map[], map[w.id := ""], 0, w.now, tm)
  {
    var w := Late(0, 1, tm);
    CommitOne(map[], w, 0, w.now, tm);
  }

  lemma LateNext(len: nat, tm: UsableTiming)
    requires Disorder(len, tm) > OVERLAP_S
    ensures var y, w, z, u := Early(0, tm), Late(0, 1, tm), Late(len, 2, tm), Late(len, 3, tm);
            var live := map[w.id := "", y.id := "", z.id := ""];
            CommitsLead(live, live[u.id := ""], z.now, z.now, tm)
  {
    var u := Late(len, 3, tm);
    var live := map[Late(0, 1, tm).id := "", Early(0, tm).id := "", Late(len, 2, tm).id := ""];
    assert u.id !in live;
    CommitOne(live, u, u.now, u.now, tm);
  }

  lemma LateRun(n: Name, first: Coll, seen: Coll, live: Coll, z: Oid, c1: Coll, u: Oid, y: Oid, t1: int, t2: int, len: nat,
                tm: UsableTiming)
    requires AppendOnly(n) && CommitsLead(map[], first, 0, t1, tm) && Scanned(first, seen, live, t1, t2, len, tm)
    requires CommitsLead(live, c1, t2, t2, tm) && IsLast(seen, z) && IsLast(From(c1, Back(z)), u) && Lt(z, u)
    requires y in c1 && y !in seen + From(c1, Back(z))
    ensures exists r, clock :: Valid(r) && CommitsOnly(r, n, clock, len, tm) && Misses(r, n)
  {
    var r := TwoBackups(n, first, seen, live, z, c1, u);
    TwoBackupsRestore(n, first, seen, live, z, c1, u);
    TwoBackupsCommit(n, first, seen, live, z, c1, u, t1, t2, len, tm);
    assert y in CollAt(r.w.snap, n) && y !in Restored(Chain(r.w.s.bucket), n);
    assert Misses(r, n);
  }

  lemma LateIds(len: nat, tm: UsableTiming)
    requires Disorder(len, tm) > OVERLAP_S
    ensures var y, w, z, u := Early(0, tm), Late(0, 1, tm), Late(len, 2, tm), Late(len, 3, tm);
            var c0, c1 := map[w.id := "", z.id := ""], map[w.id := "", y.id := "", z.id := ""][u.id := ""];
            && IsLast(c0, z.id) && IsLast(From(c1, Back(z.id)), u.id) && Lt(z.id, u.id)
            && y.id !in c0 + From(c1, Back(z.id))
  {
    EarlyLate(len, tm);
  }

  lemma TwoBackupsCommit(n: Name, first: Coll, seen: Coll, live: Coll, z: Oid, c1: Coll, u: Oid, t1: int, t2: int, len: nat,
                         tm: UsableTiming)
    requires CommitsLead(map[], first, 0, t1, tm) && Scanned(first, seen, live, t1, t2, len, tm)
    requires CommitsLead(live, c1, t2, t2, tm)
    ensures CommitsOnly(TwoBackups(n, first, seen, live, z, c1, u), n, t2, len, tm)
  {
    var r := TwoBackups(n, first, seen, live, z, c1, u);
    OneMore(r.before.before, n, 0, t1, t2, r.before.e, r.before.w, len, tm);
    SecondScan(c1, t2, len, tm);
    OneMore(r.before, n, t2, t2, t2, r.e, r.w, len, tm);
  }

  lemma OneMore(before: Run, n: Name, c0: int, c1: int, clock: int, e: Event, w: World, len: nat, tm: UsableTiming)
    requires CommitsOnly(before, n, c0, len, tm)
    requires CommitsLead(CollAt(before.w.live, n), CollAt(e.probe, n), c0, c1, tm)
    requires Scanned(CollAt(e.probe, n), CollAt(e.seen, n), CollAt(e.after, n), c1, clock, len, tm)
    ensures CommitsOnly(Then(before, e, w), n, clock, len, tm)
  {
  }

  lemma FirstScan(len: nat, tm: UsableTiming)
    requires Disorder(len, tm) > OVERLAP_S
    ensures var y, w, z := Early(0, tm), Late(0, 1, tm), Late(len, 2, tm);
            var first, seen, live := map[w.id := ""], map[w.id := "", z.id := ""], map[w.id := "", y.id := "", z.id := ""];
            Scanned(first, seen, live, w.now, z.now, len, tm)
  {
    var y, w, z := Early(0, tm), Late(0, 1, tm), Late(len, 2, tm);
    var first, seen, live := map[w.id := ""], map[w.id := "", z.id := ""], map[w.id := "", y.id := "", z.id := ""];
    FirstLead(len, tm);
    CommitNone(first, w.now, w.now, tm);
    CommitNone(live, z.now, z.now, tm);
    assert SubColl(first, seen) && SubColl(seen, live) && z.now <= w.now + len;
  }

  lemma FirstLead(len: nat, tm: UsableTiming)
    requires Disorder(len, tm) > OVERLAP_S
    ensures var y, w, z := Early(0, tm), Late(0, 1, tm), Late(len, 2, tm);
            CommitsLead(map[w.id := ""], map[w.id := "", y.id := "", z.id := ""], w.now, z.now, tm)
  {
    var y, w, z := Early(0, tm), Late(0, 1, tm), Late(len, 2, tm);
    var first := map[w.id := ""];
    CommitOne(first, y, w.now, w.now, tm);
    CommitMore(first, first[y.id := ""], z, w.now, w.now, z.now, tm);
    assert first[y.id := ""][z.id := ""] == map[w.id := "", y.id := "", z.id := ""];
  }

  lemma SecondScan(c: Coll, clock: int, len: nat, tm: UsableTiming)
    ensures CommitsLead(c, c, clock, clock, tm) && Scanned(c, c, c, clock, clock, len, tm)
  {
    CommitNone(c, clock, clock, tm);
  }

  // ---------- entries that are deleted or changed ----------

  /** Ballots deleted by a reset of the election come back with the next full and later incrementals. */
  lemma ResetComesBack(x: Oid, z: Oid, was: string, now: string)
    requires Lt(x, z)
    ensures exists r ::
              && Valid(r) && CollAt(r.w.snap, VOTES) == map[z := now]
              && Restored(Chain(r.w.s.bucket), VOTES) == map[x := was, z := now]
  {
    OneIsLast(x, was);
    OneIsLast(z, now);
    OneFrom(z, now, x);
    var c0 := map[x := was];
    TwoBackupsRestore(VOTES, c0, c0, c0, x, map[z := now], z);
    assert map[x := was] + map[z := now] == map[x := was, z := now];
    assert Restored(Chain(TwoBackups(VOTES, c0, c0, c0, x, map[z := now], z).w.s.bucket), VOTES) == map[x := was, z := now];
  }

  lemma OneIsLast(x: Oid, body: string)
    ensures IsLast(map[x := body], x)
  {
  }

  lemma OneFrom(z: Oid, body: string, x: Oid)
    requires Lt(x, z)
    ensures From(map[z := body], Back(x)) == map[z := body]
  {
  }

  /** Undoing an edit marks its entry in the log and adds another one. If the marked one is older than the overlap, no backup
      before the next full has the mark. */
  lemma UndoNotBackedUp(x: Oid, y: Oid, z: Oid, edit: string, undone: string, other: string, undo: string)
    requires Lt(x, Back(y)) && Lt(y, z) && edit != undone
    ensures exists r ::
              && Valid(r) && CollAt(r.w.snap, EDITS) == map[x := undone, y := other, z := undo]
              && Restored(Chain(r.w.s.bucket), EDITS) == map[x := edit, y := other, z := undo]
  {
    var c0, c1 := map[x := edit, y := other], map[x := undone, y := other, z := undo];
    UndoIds(x, y, z, edit, undone, other, undo);
    TwoBackupsRestore(EDITS, c0, c0, c0, y, c1, z);
    var r := TwoBackups(EDITS, c0, c0, c0, y, c1, z);
    assert Valid(r) && CollAt(r.w.snap, EDITS) == c1;
  }

  lemma UndoIds(x: Oid, y: Oid, z: Oid, edit: string, undone: string, other: string, undo: string)
    requires Lt(x, Back(y)) && Lt(y, z)
    ensures var c0, c1 := map[x := edit, y := other], map[x := undone, y := other, z := undo];
            && IsLast(c0, y) && IsLast(From(c1, Back(y)), z)
            && c0 + From(c1, Back(y)) == map[x := edit, y := other, z := undo]
  {
    var c1 := map[x := undone, y := other, z := undo];
    assert From(c1, Back(y)) == map[y := other, z := undo];
  }
}
