/** What goes wrong with more than one issuer of the official list. */
module CandidateRaces {
  import opened CandidateSteps
  import opened CandidateList
  import opened CandidateSweep
  import opened CandidateHistory
  import opened CandidateSolo

  function GoRun(r: Run, a: nat, n: nat): Run {
    if n == 0 then r else Then(GoRun(r, a, n - 1), Go(a, 0))
  }

  lemma {:induction false} GoRunEnds(r: Run, a: nat, n: nat)
    requires Valid(r)
    ensures Valid(GoRun(r, a, n)) && End(GoRun(r, a, n)) == Gos(End(r), a, n)
  {
    if n > 0 {
      GoRunEnds(r, a, n - 1);
    }
  }

  lemma OneMore(r: Run, e: Event)
    requires Valid(r) && Can(End(r), e)
    ensures Valid(Then(r, e)) && End(Then(r, e)) == Next(End(r), e)
  {
  }

  lemma FirstOfAll(job: Job)
    ensures IssuedLists([], job) == [NewList(job, 1)]
    ensures LatestOf([]) == NoList && LatestOf([NewList(job, 1)]) == Found(0)
  {
  }

  /** Issuing by hand clears the flag whatever it says: a change that lands after its read of the candidates is lost. */
  lemma ManualIssueLosesAChange(x: Sections, y: Sections)
    requires x != [] && x != y
    ensures exists r :: Valid(r) && AllIdle(End(r)) && Lost(End(r))
  {
    var r1 := Then(Begin(x, ""), Manual(0));
    var r2 := Then(r1, Edit(y));
    var r3 := Then(r2, MarkDirty(1));
    OneMore(Begin(x, ""), Manual(0));
    OneMore(r1, Edit(y));
    OneMore(r2, MarkDirty(1));
    var w := World(y, "", [], Dirty(1), 0, 1, map[0 := ManualSections(x)], false);
    assert End(r3) == w;
    var job := Job(true, 0, "", x, Clean);
    FirstOfAll(job);
    OneMore(r3, Go(0, 0));
    var r4 := Then(r3, Go(0, 0));
    assert End(r4) == Set(w, 0, Ready(job));
    var n: nat :| n >= 4;
    IssuesAlone(End(r4), 0, job, n);
    GoRunEnds(r4, 0, n);
    var w' := End(GoRun(r4, 0, n));
    assert Newest(w') == NewList(job, 1);
    assert Lost(w') && AllIdle(w');
  }

  /** A sweep that has read the candidates `y` while the list is `first`, and then a change to `z` that is marked. */
  lemma SlowSweep(r: Run, first: CList, y: Sections, z: Sections)
    requires Valid(r) && first.current && first.sections != [] && first.sections != y && y != []
    requires LatestOf([first]) == Found(0)
    requires End(r) == World(first.sections, "", [first], Clean, 0, 0, map[0 := Idle], false)
    ensures var job := Job(false, 200, "", y, Dirty(1));
            exists r' ::
              Valid(r') && End(r') == World(z, "", [first], Dirty(300), 0, 300, map[0 := Ready(job)], false)
  {
    var r1 := Then(r, Edit(y));
    var r2 := Then(r1, MarkDirty(1));
    OneMore(r, Edit(y));
    OneMore(r1, MarkDirty(1));
    var w2 := World(y, "", [first], Dirty(1), 0, 1, map[0 := Idle], false);
    assert End(r2) == w2;
    var r3 := Then(r2, Sweep(0, 200, true));
    OneMore(r2, Sweep(0, 200, true));
    GoRunEnds(r3, 0, 2);
    ReadsAlone(w2, 0, 200, 2);
    var r5 := GoRun(r3, 0, 2);
    var r6 := Then(r5, Edit(z));
    OneMore(r5, Edit(z));
    OneMore(r6, MarkDirty(300));
    assert Valid(Then(r6, MarkDirty(300)));
  }

  /** Two overlapping sweeps: the slower one, which read the candidates before a change, issues its list after the faster
      one has shown the change and cleared the flag. */
  lemma OverlappingSweepsLoseAChange(x: Sections, y: Sections, z: Sections)
    requires x != [] && y != [] && z != [] && x != y && x != z && y != z
    ensures exists r :: Valid(r) && AllIdle(End(r)) && Lost(End(r))
  {
    var begin := Begin(x, "");
    OneMore(begin, Sweep(0, 0, true));
    var r1 := Then(begin, Sweep(0, 0, true));
    var n: nat :| n >= 6;
    GoRunEnds(r1, 0, n);
    SweptAlone(End(begin), 0, 0, n);
    var first := NewList(Job(false, 0, "", x, Clean), 1);
    FirstOfAll(Job(false, 0, "", x, Clean));
    SlowSweep(GoRun(r1, 0, n), first, y, z);
    var job := Job(false, 200, "", y, Dirty(1));
    var w2 := World(z, "", [first], Dirty(300), 0, 300, map[0 := Ready(job)], false);
    var r2 :| Valid(r2) && End(r2) == w2;
    OvertakenSweep(r2, w2, job, y, z);
  }

  lemma OvertakenSweep(r: Run, w: World, job: Job, y: Sections, z: Sections)
    requires Valid(r) && End(r) == w && w.actors == map[0 := Ready(job)] && !job.manual
    requires job.sections == y && w.approved == z && z != [] && y != z
    requires w.dirty == Dirty(300) && w.pending == 0 && job.seen == Dirty(1) && Differs(w.lists, z)
    ensures exists r :: Valid(r) && AllIdle(End(r)) && Lost(End(r))
  {
    OneMore(r, Sweep(1, 500, true));
    var r3 := Then(r, Sweep(1, 500, true));
    var n: nat :| n >= 6;
    GoRunEnds(r3, 1, n);
    SweptAlone(w, 1, 500, n);
    var r4 := GoRun(r3, 1, n);
    GoRunEnds(r4, 0, n);
    IssuesAlone(End(r4), 0, job, n);
    var w' := End(GoRun(r4, 0, n));
    assert Newest(w').sections == y && w'.approved == z;
    assert Lost(w') && AllIdle(w');
  }

  /** The first sweep has read the candidates; then they change, and the change is marked. */
  lemma ReadBeforeChange(x: Sections, z: Sections)
    requires x != []
    ensures exists r :: Valid(r) && NothingByHand(r)
                        && End(r) == World(z, "", [], Dirty(1), 0, 1, map[0 := Ready(Job(false, 0, "", x, Clean))], false)
  {
    var r0 := Begin(x, "");
    var r1 := Then(r0, Sweep(0, 0, true));
    OneMore(r0, Sweep(0, 0, true));
    GoRunEnds(r1, 0, 2);
    GoRunByNobody(r1, 0, 2);
    ReadsAlone(End(r0), 0, 0, 2);
    var r3 := GoRun(r1, 0, 2);
    OneMore(r3, Edit(z));
    OneMore(Then(r3, Edit(z)), MarkDirty(1));
    var r5 := Then(Then(r3, Edit(z)), MarkDirty(1));
    assert Valid(r5) && NothingByHand(r5);
  }

  /** No sweep need be slow for that while there is no list yet, for then none waits for a quiet spell. */
  lemma FirstListsLoseAChange(x: Sections, z: Sections)
    requires x != [] && z != [] && x != z
    ensures exists r :: Valid(r) && AllIdle(End(r)) && Lost(End(r)) && |End(r).lists| == 2 && NothingByHand(r)
  {
    ReadBeforeChange(x, z);
    var job := Job(false, 0, "", x, Clean);
    var w5 := World(z, "", [], Dirty(1), 0, 1, map[0 := Ready(job)], false);
    var r5 :| Valid(r5) && NothingByHand(r5) && End(r5) == w5;
    OneMore(r5, Sweep(1, 1, true));
    var r6 := Then(r5, Sweep(1, 1, true));
    var n: nat :| n >= 6;
    GoRunEnds(r6, 1, n);
    SweptAlone(w5, 1, 1, n);
    FirstOfAll(Job(false, 1, "", z, Dirty(1)));
    GoRunByNobody(r6, 1, n);
    SecondListIsOlder(GoRun(r6, 1, n), job);
  }

  lemma SecondListIsOlder(r: Run, job: Job)
    requires Valid(r) && NothingByHand(r) && PcOf(End(r), 0) == Ready(job) && |End(r).lists| == 1
    requires End(r).dirty.Clean? && End(r).pending == 0 && job.sections != End(r).approved
    requires forall a :: a in End(r).actors && a != 0 ==> End(r).actors[a].Idle?
    ensures exists r :: Valid(r) && AllIdle(End(r)) && Lost(End(r)) && |End(r).lists| == 2 && NothingByHand(r)
  {
    var n: nat :| n >= 4;
    GoRunEnds(r, 0, n);
    IssuesAlone(End(r), 0, job, n);
    GoRunByNobody(r, 0, n);
    var r' := GoRun(r, 0, n);
    assert Lost(End(r')) && AllIdle(End(r'));
  }

  lemma {:induction false} GoRunByNobody(r: Run, a: nat, n: nat)
    requires NothingByHand(r)
    ensures NothingByHand(GoRun(r, a, n))
  {
    if n > 0 {
      GoRunByNobody(r, a, n - 1);
    }
  }

  lemma FirstInserts(r: Run, job: Job)
    requires Valid(r) && End(r).lists == [] && End(r).actors == map[0 := Ready(job), 1 := Ready(job)]
    ensures exists r' :: Valid(r') && End(r').lists == [NewList(job, 1)]
                         && End(r').actors == map[0 := Inserted(job, 0), 1 := Ready(job)]
  {
    NumberStep(End(r), 0, job);
    OneMore(r, Go(0, 0));
    var r1 := Then(r, Go(0, 0));
    InsertStep(End(r1), 0, job, 1);
    OneMore(r1, Go(0, 0));
    var w2 := End(Then(r1, Go(0, 0)));
    assert w2.lists == [NewList(job, 1)] && w2.actors == map[0 := Inserted(job, 0), 1 := Ready(job)];
  }

  lemma SecondInserts(r: Run, job: Job)
    requires Valid(r) && End(r).lists == [NewList(job, 1)]
    requires End(r).actors == map[0 := Inserted(job, 0), 1 := Ready(job)]
    ensures exists r' :: Valid(r') && |End(r').lists| == 2
                         && End(r').actors == map[0 := Inserted(job, 0), 1 := Inserted(job, 1)]
  {
    NumberStep(End(r), 1, job);
    OneMore(r, Go(1, 0));
    var r1 := Then(r, Go(1, 0));
    InsertStep(End(r1), 1, job, MaxSeq(End(r).lists) + 1);
    OneMore(r1, Go(1, 0));
    var w2 := End(Then(r1, Go(1, 0)));
    assert |w2.lists| == 2 && w2.actors == map[0 := Inserted(job, 0), 1 := Inserted(job, 1)];
  }

  lemma EachSupersedes(r: Run, job: Job)
    requires Valid(r) && |End(r).lists| == 2 && End(r).actors == map[0 := Inserted(job, 0), 1 := Inserted(job, 1)]
    ensures exists r' :: Valid(r') && AllSuperseded(End(r')) && |End(r').lists| == 2
                         && !End(r').lists[0].current && !End(r').lists[1].current
  {
    SupersedeStep(End(r), 1, job, 1);
    OneMore(r, Go(1, 0));
    var r1 := Then(r, Go(1, 0));
    assert End(r1).actors == map[0 := Inserted(job, 0), 1 := Clearing(job)];
    SupersedeStep(End(r1), 0, job, 0);
    OneMore(r1, Go(0, 0));
    var w2 := End(Then(r1, Go(0, 0)));
    assert w2.actors == map[0 := Clearing(job), 1 := Clearing(job)];
    assert AllSuperseded(w2) && |w2.lists| == 2 && !w2.lists[0].current && !w2.lists[1].current;
  }

  /** Two issuers get that far together from the start: both have looked before either has inserted. */
  lemma TwoIssuersReady(x: Sections)
    requires x != []
    ensures var job := Job(true, 0, "", x, Clean);
            exists r :: Valid(r) && End(r).lists == [] && End(r).actors == map[0 := Ready(job), 1 := Ready(job)]
  {
    var job := Job(true, 0, "", x, Clean);
    var r0 := Begin(x, "");
    OneMore(r0, Manual(0));
    var r1 := Then(r0, Manual(0));
    OneMore(r1, Manual(1));
    var r2 := Then(r1, Manual(1));
    OneMore(r2, Go(0, 0));
    var r3 := Then(r2, Go(0, 0));
    assert End(r3).actors == map[0 := Ready(job), 1 := ManualSections(x)];
    OneMore(r3, Go(1, 0));
    assert End(Then(r3, Go(1, 0))).actors == map[0 := Ready(job), 1 := Ready(job)];
  }

  /** Two issuers that supersede each other leave no current list. */
  lemma IssuersCanSupersedeEachOther(x: Sections)
    requires x != []
    ensures exists r :: Valid(r) && AllSuperseded(End(r)) && |End(r).lists| == 2
                        && !End(r).lists[0].current && !End(r).lists[1].current
  {
    var job := Job(true, 0, "", x, Clean);
    TwoIssuersReady(x);
    var r0 :| Valid(r0) && End(r0).lists == [] && End(r0).actors == map[0 := Ready(job), 1 := Ready(job)];
    FirstInserts(r0, job);
    var r1 :| Valid(r1) && End(r1).lists == [NewList(job, 1)] && End(r1).actors == map[0 := Inserted(job, 0), 1 := Ready(job)];
    SecondInserts(r1, job);
    var r2 :| Valid(r2) && |End(r2).lists| == 2 && End(r2).actors == map[0 := Inserted(job, 0), 1 := Inserted(job, 1)];
    EachSupersedes(r2, job);
  }
}
