/** An issuer of the official list that nobody interrupts, and the code that issues it. */
module CandidateSweep {
  import opened CandidateSteps

  function Iterate<T>(f: T -> T, x: T, n: nat): T {
    if n == 0 then x else f(Iterate(f, x, n - 1))
  }

  lemma {:induction false} IterateFirst<T>(f: T -> T, x: T, y: T, n: nat)
    requires n > 0 && f(x) == y
    ensures Iterate(f, x, n) == Iterate(f, y, n - 1)
  {
    if n > 1 {
      IterateFirst(f, x, y, n - 1);
    }
  }

  lemma IterateTwice<T>(f: T -> T, x: T, y: T, z: T, n: nat)
    requires n >= 2 && f(x) == y && f(y) == z
    ensures Iterate(f, x, n) == Iterate(f, z, n - 2)
  {
    IterateFirst(f, x, y, n);
    IterateFirst(f, y, z, n - 1);
  }

  function Going(a: nat): World -> World {
    w => GoStep(w, a, 0)
  }

  /** `n` steps of `a` with nobody else moving. */
  function Gos(w: World, a: nat, n: nat): World {
    Iterate(Going(a), w, n)
  }

  /** A sweep by `a` that nothing interrupts for `n` steps; six are enough for a whole one. */
  function Swept(w: World, a: nat, now: int, n: nat): World {
    Gos(Set(w, a, SweepLatest(now, w.look, LatestOf(w.lists))), a, n)
  }

  predicate Differs(lists: seq<CList>, sections: Sections) {
    var latest := LatestOf(lists);
    latest.Found? ==> lists[latest.index].sections != sections
  }

  /** What a sweep on its own is to do. */
  predicate Issues(w: World, now: int) {
    w.approved != [] && Differs(w.lists, w.approved) && (LatestOf(w.lists).Found? ==> Quiet(w.dirty, now))
  }

  function IssuedLists(lists: seq<CList>, job: Job): seq<CList> {
    SupersedeOthers(lists + [NewList(job, MaxSeq(lists) + 1)], |lists|)
  }

  /** A list goes out if there are candidates and either no list is current, or a change was marked at least 120 seconds ago and
      the current list that was issued last shows other names. */
  lemma IssuesIff(w: World, now: int)
    ensures Issues(w, now)
            <==> && w.approved != []
                 && ((forall i :: 0 <= i < |w.lists| ==> !w.lists[i].current)
                     || (w.dirty.Dirty? && now >= w.dirty.at + 120
                         && exists i :: 0 <= i < |w.lists| && LatestOf(w.lists) == Found(i) && w.lists[i].sections != w.approved))
  {
    var latest := LatestOf(w.lists);
    assert latest.Found? ==> w.lists[latest.index].current;
  }

  /** It gets the number after the greatest one, is current, and no other list is. */
  lemma IssuedListsAre(lists: seq<CList>, job: Job)
    ensures var r, n := IssuedLists(lists, job), |lists|;
            && |r| == n + 1
            && (forall i :: 0 <= i < n ==> r[i] == lists[i].(current := false))
            && r[n] == CList(r[n].number, job.sections, job.look, job.now, true)
            && (forall i :: 0 <= i < n ==> lists[i].number < r[n].number)
            && (r[n].number == 1 || exists i :: 0 <= i < n && lists[i].number == r[n].number - 1)
  {
    MaxIsTaken(lists);
  }

  lemma {:induction false} MaxIsTaken(lists: seq<CList>)
    ensures MaxSeq(lists) == 0 || exists i :: 0 <= i < |lists| && lists[i].number == MaxSeq(lists)
  {
    if lists != [] {
      var n := |lists| - 1;
      MaxIsTaken(lists[..n]);
      if MaxSeq(lists) != 0 && lists[n].number != MaxSeq(lists) {
        var i :| 0 <= i < n && lists[..n][i].number == MaxSeq(lists);
        assert lists[i] == lists[..n][i];
      }
    }
  }

  /** A sweep leaves the flag if there are no candidates, or if a list is current and the last mark is not yet 120 seconds old;
      otherwise it clears it, whether it issued a list or found the newest one up to date. */
  lemma ClearsIff(w: World, now: int)
    ensures AfterReads(w, now).Idle?
            <==> || w.approved == []
                 || ((exists i :: 0 <= i < |w.lists| && w.lists[i].current) && (w.dirty.Dirty? ==> now < w.dirty.at + 120))
  {
  }

  lemma SetTwice(w: World, a: nat, pc: Pc, pc': Pc)
    ensures Set(Set(w, a, pc), a, pc') == Set(w, a, pc')
  {
  }

  /** The first two steps of a sweep, uninterrupted: where it stands after its reads. */
  function AfterReads(w: World, now: int): Pc {
    var job := Job(false, now, w.look, w.approved, w.dirty);
    if (LatestOf(w.lists).Found? && !Quiet(w.dirty, now)) || w.approved == [] then Idle
    else if Differs(w.lists, w.approved) then Ready(job)
    else Clearing(job)
  }

  lemma ReadsAlone(w: World, a: nat, now: int, n: nat)
    requires n >= 2
    ensures Swept(w, a, now, n) == Gos(Set(w, a, AfterReads(w, now)), a, n - 2)
  {
    var w0 := Set(w, a, SweepLatest(now, w.look, LatestOf(w.lists)));
    var w1 := GoStep(w0, a, 0);
    SetTwice(w, a, w0.actors[a], w1.actors[a]);
    assert w1 == Set(w, a, w1.actors[a]);
    SetTwice(w, a, w1.actors[a], AfterReads(w, now));
    IterateTwice(Going(a), w0, w1, Set(w, a, AfterReads(w, now)), n);
  }

  /** The first list goes out at once, a later one after a quiet spell and only if it differs, and none that is empty; the
      flag is cleared exactly when the newest list is then up to date. */
  lemma SweptAlone(w: World, a: nat, now: int, n: nat)
    requires n >= 6
    ensures var w' := Swept(w, a, now, n);
            && w'.approved == w.approved && w'.actors == w.actors[a := Idle]
            && w'.lists == (if Issues(w, now) then IssuedLists(w.lists, Job(false, now, w.look, w.approved, w.dirty))
                            else w.lists)
            && w'.late == (w.late && !Issues(w, now))
            && w'.dirty == (if AfterReads(w, now).Idle? then w.dirty else Clean)
            && w'.pending == w.pending && w'.look == w.look && w'.clock == w.clock
  {
    ReadsAlone(w, a, now, n);
    AfterReadsAlone(w, a, AfterReads(w, now), n - 2);
  }

  lemma AfterReadsAlone(w: World, a: nat, pc: Pc, n: nat)
    requires (pc.Idle? || pc.Ready? || pc.Clearing?) && n >= 4
    ensures var w' := Gos(Set(w, a, pc), a, n);
            w' == if pc.Idle? then Set(w, a, Idle)
                  else if pc.Clearing? then Set(w, a, Idle).(dirty := Cleared(w.dirty, pc.job))
                  else Set(w, a, Idle).(lists := IssuedLists(w.lists, pc.job), late := false,
                                        dirty := Cleared(w.dirty, pc.job))
  {
    var w2 := Set(w, a, pc);
    SetTwice(w, a, pc, Idle);
    if pc.Ready? {
      IssuesAlone(w2, a, pc.job, n);
    } else if pc.Clearing? {
      var w3 := Set(w, a, Idle).(dirty := Cleared(w.dirty, pc.job));
      IterateFirst(Going(a), w2, w3, n);
      IdleForever(w3, a, n - 1);
    } else {
      IdleForever(w2, a, n);
    }
  }

  lemma NumberStep(w: World, a: nat, job: Job)
    requires PcOf(w, a) == Ready(job)
    ensures GoStep(w, a, 0) == Set(w, a, Numbered(job, MaxSeq(w.lists) + 1))
    ensures !Taken(w.lists, MaxSeq(w.lists) + 1)
  {
  }

  lemma InsertStep(w: World, a: nat, job: Job, s: nat)
    requires PcOf(w, a) == Numbered(job, s) && !Taken(w.lists, s)
    ensures GoStep(w, a, 0)
            == Set(w, a, Inserted(job, |w.lists|)).(lists := w.lists + [NewList(job, s)], late := false)
  {
  }

  lemma SupersedeStep(w: World, a: nat, job: Job, n: nat)
    requires PcOf(w, a) == Inserted(job, n)
    ensures GoStep(w, a, 0)
            == Set(w, a, Clearing(job)).(lists := SupersedeOthers(w.lists, n), late := w.late || n + 1 < |w.lists|)
  {
  }

  /** The last four steps of an issuer, uninterrupted. */
  lemma IssuesAlone(w: World, a: nat, job: Job, n: nat)
    requires PcOf(w, a) == Ready(job) && n >= 4
    ensures Gos(w, a, n)
            == Set(w, a, Idle).(lists := IssuedLists(w.lists, job), late := false, dirty := Cleared(w.dirty, job))
  {
    var w2 := WithInserted(w, a, job);
    InsertsAlone(w, a, job, n);
    SettlesAlone(w2, a, job, n - 2);
    SetTwice(w, a, Inserted(job, |w.lists|), Idle);
  }

  function WithInserted(w: World, a: nat, job: Job): World {
    Set(w, a, Inserted(job, |w.lists|)).(lists := w.lists + [NewList(job, MaxSeq(w.lists) + 1)], late := false)
  }

  lemma InsertsAlone(w: World, a: nat, job: Job, n: nat)
    requires PcOf(w, a) == Ready(job) && n >= 2
    ensures Gos(w, a, n) == Gos(WithInserted(w, a, job), a, n - 2)
  {
    NumberStep(w, a, job);
    InsertedAfterNumbered(w, a, job);
    IterateTwice(Going(a), w, Set(w, a, Numbered(job, MaxSeq(w.lists) + 1)), WithInserted(w, a, job), n);
  }

  lemma InsertedAfterNumbered(w: World, a: nat, job: Job)
    requires PcOf(w, a) == Ready(job)
    ensures GoStep(Set(w, a, Numbered(job, MaxSeq(w.lists) + 1)), a, 0) == WithInserted(w, a, job)
  {
    var s := MaxSeq(w.lists) + 1;
    NumberStep(w, a, job);
    InsertStep(Set(w, a, Numbered(job, s)), a, job, s);
    SetTwice(w, a, Numbered(job, s), Inserted(job, |w.lists|));
  }

  lemma SettlesAlone(w: World, a: nat, job: Job, n: nat)
    requires w.lists != [] && PcOf(w, a) == Inserted(job, |w.lists| - 1) && n >= 2
    ensures Gos(w, a, n)
            == Set(w, a, Idle).(lists := SupersedeOthers(w.lists, |w.lists| - 1), dirty := Cleared(w.dirty, job))
  {
    var lists := SupersedeOthers(w.lists, |w.lists| - 1);
    var w1 := Set(w, a, Clearing(job)).(lists := lists);
    var w2 := Set(w, a, Idle).(lists := lists, dirty := Cleared(w.dirty, job));
    SupersedeStep(w, a, job, |w.lists| - 1);
    SetTwice(w, a, Clearing(job), Idle);
    IterateTwice(Going(a), w, w1, w2, n);
    IdleForever(w2, a, n - 2);
  }

  lemma {:induction false} IdleForever(w: World, a: nat, n: nat)
    requires PcOf(w, a).Idle?
    ensures Gos(w, a, n) == w
  {
    if n > 0 {
      IdleForever(w, a, n - 1);
    }
  }

  /** The collections of one organisation. */
  class Office {
    var approved: Sections
    var look: string
    var lists: seq<CList>
    var dirty: Flag

    constructor (approved: Sections, look: string)
      ensures this.approved == approved && this.look == look && lists == [] && dirty == Clean
    {
      this.approved, this.look, lists, dirty := approved, look, [], Clean;
    }

    function Snapshot(): World
      reads this
    {
      World(approved, look, lists, dirty, 0, 0, map[], false)
    }

    method MarkDirty(now: int)
      modifies this`dirty
      ensures dirty == Dirty(now)
    {
      dirty := Dirty(now);
    }

    /** Inserts a list with the next number and supersedes the rest; refused when the number is taken by then. */
    method Issue(job: Job) returns (ok: bool)
      modifies this`lists
      ensures ok && lists == IssuedLists(old(lists), job)
    {
      var doc := NewList(job, MaxSeq(lists) + 1);
      if Taken(lists, doc.number) {
        return false;
      }
      lists := lists + [doc];
      lists := SupersedeOthers(lists, |lists| - 1);
      ok := true;
    }

    /** The sweep does what the steps of the interleaved model do when nobody else moves. */
    method MaybeIssue(now: int, due: bool) returns (issued: bool)
      modifies this`lists, this`dirty
      ensures !due ==> lists == old(lists) && dirty == old(dirty)
      ensures due ==> forall n :: n >= 6 ==>
                lists == Swept(old(Snapshot()), 0, now, n).lists && dirty == Swept(old(Snapshot()), 0, now, n).dirty
      ensures issued == (due && old(Issues(Snapshot(), now)))
    {
      forall n | n >= 6 {
        SweptAlone(Snapshot(), 0, now, n);
      }
      issued := false;
      if !due {
        return;
      }
      var latest, seen := LatestOf(lists), dirty;
      if latest.NoList? {
        if approved == [] {
          return;
        }
        issued := Issue(Job(false, now, look, approved, seen));
      } else {
        if seen.Clean? || now - seen.at < QUIET_S || approved == [] {
          return;
        }
        if lists[latest.index].sections != approved {
          issued := Issue(Job(false, now, look, approved, seen));
        }
      }
      if seen.Dirty? && dirty == seen {
        dirty := Clean;
      }
    }
  }
}
