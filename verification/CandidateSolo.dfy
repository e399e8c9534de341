/** Issuers of the official list, by hand or by sweep, that take turns, among any number of editors. */
module CandidateSolo {
  import opened CandidateSteps
  import opened CandidateList
  import opened CandidateHistory

  /** Nothing is issued and no sweep starts while another issuer is under way. */
  ghost predicate InTurn(r: Run)
    requires Valid(r)
  {
    r.Then? ==>
      && InTurn(r.before)
      && (r.event.Sweep? || r.event.Manual? ==> AllIdle(End(r.before)))
  }

  predicate Past(p: Run, r: Run) {
    p == r || (r.Then? && Past(p, r.before))
  }

  /** The last step of a run, if it started something, did so when everybody was idle. */
  ghost predicate StartedIdle(p: Run)
    requires Valid(p)
  {
    p.Then? && (p.event.Sweep? || p.event.Manual?) ==>
      forall a :: a in End(p.before).actors ==> End(p.before).actors[a] == Idle
  }

  lemma {:induction false} InTurnIff(r: Run)
    requires Valid(r)
    ensures InTurn(r) <==> forall p :: Past(p, r) ==> Valid(p) && StartedIdle(p)
  {
    if r.Then? {
      InTurnIff(r.before);
      assert forall p :: Past(p, r) <==> p == r || Past(p, r.before);
    }
    assert StartedIdle(r) <==> (r.Then? && (r.event.Sweep? || r.event.Manual?) ==> AllIdle(End(r.before)));
  }

  predicate LatestInv(w: World, latest: Found) {
    latest == if w.lists == [] then NoList else Found(|w.lists| - 1)
  }

  /** A mark that came after the reading is still there. */
  predicate ReadInv(w: World, sections: Sections, readAt: int) {
    sections != [] && (readAt < w.clock ==> w.dirty.Dirty?)
  }

  predicate Changed(list: CList, sections: Sections, look: string) {
    list.sections != sections || list.look != look
  }

  predicate DueInv(w: World, job: Job) {
    w.lists != [] ==>
      && Changed(Newest(w), job.sections, job.look)
      && (!job.manual ==> Quiet(job.seen, job.now) && Newest(w).sections != job.sections)
  }

  predicate SoloPc(w: World, pc: Pc, readAt: int, asOf: int) {
    match pc
    case Idle => true
    case SweepLatest(_, _, latest) => LatestInv(w, latest)
    case SweepState(now, _, latest, seen) => LatestInv(w, latest) && (w.lists != [] ==> Quiet(seen, now))
    case ManualSections(sections) => ReadInv(w, sections, readAt)
    case Ready(job) => ReadInv(w, job.sections, readAt) && DueInv(w, job)
    case Numbered(job, _) => ReadInv(w, job.sections, readAt) && DueInv(w, job)
    case Inserted(job, index) => ReadInv(w, job.sections, readAt) && index + 1 == |w.lists| && asOf == readAt
    case Clearing(job) => ReadInv(w, job.sections, readAt) && w.lists != [] && asOf == readAt
  }

  predicate ListsChange(lists: seq<CList>) {
    && (forall i :: 0 <= i < |lists| ==> lists[i].sections != [])
    && (forall i :: 0 < i < |lists| ==> Changed(lists[i - 1], lists[i].sections, lists[i].look))
  }

  predicate OneAtATime(w: World) {
    forall a, b :: a in w.actors && b in w.actors && !w.actors[a].Idle? && !w.actors[b].Idle? ==> a == b
  }

  ghost predicate SoloInv(r: Run)
    requires Valid(r)
  {
    var w := End(r);
    && OneAtATime(w)
    && (forall a :: a in w.actors ==> SoloPc(w, w.actors[a], ReadAt(r, a), AsOf(r)))
    && !w.late
    && ListsChange(w.lists)
  }

  lemma OnlyNewestCurrent(w: World)
    requires Inv(w) && !w.late && AllSuperseded(w)
    ensures LatestInv(w, LatestOf(w.lists))
  {
    var latest := LatestOf(w.lists);
    if w.lists != [] {
      assert !Unsettled(w, |w.lists| - 1);
    }
  }

  /** What a step of the issuer under way has to keep. */
  ghost predicate GoKept(r: Run, a: nat, now: int)
    requires Valid(r) && Valid(Then(r, Go(a, now)))
  {
    var r' := Then(r, Go(a, now));
    var w, w' := End(r), End(r');
    && a in w'.actors && w'.actors == w.actors[a := w'.actors[a]]
    && SoloPc(w', w'.actors[a], ReadAt(r', a), AsOf(r'))
    && !w'.late && ListsChange(w'.lists)
  }

  lemma LookingKeepsSolo(r: Run, a: nat, now: int)
    requires Valid(r) && SoloInv(r) && PcOf(End(r), a).SweepLatest?
    ensures Valid(Then(r, Go(a, now))) && GoKept(r, a, now)
  {
    assert SoloPc(End(r), End(r).actors[a], ReadAt(r, a), AsOf(r));
  }

  lemma ReadingStep(w: World, a: nat, now: int, readAt: int, asOf: int)
    requires PcOf(w, a).SweepState? && SoloPc(w, PcOf(w, a), readAt, asOf)
    ensures var w' := GoStep(w, a, now);
            && w' == Set(w, a, PcOf(w', a))
            && SoloPc(w', PcOf(w', a), w.clock, if Shows(w, Go(a, now)) then w.clock else asOf)
  {
  }

  lemma ReadingKeepsSolo(r: Run, a: nat, now: int)
    requires Valid(r) && SoloInv(r) && PcOf(End(r), a).SweepState?
    ensures Valid(Then(r, Go(a, now))) && GoKept(r, a, now)
  {
    assert SoloPc(End(r), End(r).actors[a], ReadAt(r, a), AsOf(r));
    ReadingStep(End(r), a, now, ReadAt(r, a), AsOf(r));
  }

  lemma OneManual(w: World, a: nat)
    requires Inv(w) && OneAtATime(w) && !w.late && PcOf(w, a).ManualSections?
    ensures LatestInv(w, LatestOf(w.lists))
  {
    forall b | b in w.actors
      ensures !w.actors[b].Inserted?
    {
      assert b != a ==> w.actors[b].Idle?;
    }
    OnlyNewestCurrent(w);
  }

  lemma DecidingStep(w: World, a: nat, now: int, readAt: int, asOf: int)
    requires PcOf(w, a).ManualSections? && SoloPc(w, PcOf(w, a), readAt, asOf) && LatestInv(w, LatestOf(w.lists))
    ensures var w' := GoStep(w, a, now);
            && w' == Set(w, a, PcOf(w', a))
            && SoloPc(w', PcOf(w', a), readAt, asOf)
  {
  }

  lemma DecidingKeepsSolo(r: Run, a: nat, now: int)
    requires Valid(r) && SoloInv(r) && Inv(End(r)) && PcOf(End(r), a).ManualSections?
    ensures Valid(Then(r, Go(a, now))) && GoKept(r, a, now)
  {
    var w := End(r);
    assert SoloPc(w, w.actors[a], ReadAt(r, a), AsOf(r));
    OneManual(w, a);
    DecidingStep(w, a, now, ReadAt(r, a), AsOf(r));
  }

  lemma NumberingKeepsSolo(r: Run, a: nat, now: int)
    requires Valid(r) && SoloInv(r) && (PcOf(End(r), a).Ready? || PcOf(End(r), a).Clearing?)
    ensures Valid(Then(r, Go(a, now))) && GoKept(r, a, now)
  {
    assert SoloPc(End(r), End(r).actors[a], ReadAt(r, a), AsOf(r));
  }

  lemma InsertingKeepsSolo(r: Run, a: nat, now: int)
    requires Valid(r) && SoloInv(r) && Inv(End(r)) && PcOf(End(r), a).Numbered?
    ensures Valid(Then(r, Go(a, now))) && GoKept(r, a, now)
  {
    var w := End(r);
    assert SoloPc(w, w.actors[a], ReadAt(r, a), AsOf(r));
    assert PcInv(w, w.actors[a]);
    NumbersCount(w.lists);
  }

  lemma SupersedingKeepsSolo(r: Run, a: nat, now: int)
    requires Valid(r) && SoloInv(r) && PcOf(End(r), a).Inserted?
    ensures Valid(Then(r, Go(a, now))) && GoKept(r, a, now)
  {
    assert SoloPc(End(r), End(r).actors[a], ReadAt(r, a), AsOf(r));
  }

  lemma GoKeepsSolo(r: Run, a: nat, now: int)
    requires Valid(r) && SoloInv(r) && HistInv(r) && Inv(End(r)) && !PcOf(End(r), a).Idle?
    ensures Valid(Then(r, Go(a, now))) && GoKept(r, a, now)
  {
    var pc := PcOf(End(r), a);
    if pc.SweepLatest? {
      LookingKeepsSolo(r, a, now);
    } else if pc.SweepState? {
      ReadingKeepsSolo(r, a, now);
    } else if pc.ManualSections? {
      DecidingKeepsSolo(r, a, now);
    } else if pc.Ready? || pc.Clearing? {
      NumberingKeepsSolo(r, a, now);
    } else if pc.Numbered? {
      InsertingKeepsSolo(r, a, now);
    } else {
      SupersedingKeepsSolo(r, a, now);
    }
  }

  lemma GoKeptIsSolo(r: Run, a: nat, now: int)
    requires Valid(r) && SoloInv(r) && !PcOf(End(r), a).Idle? && Valid(Then(r, Go(a, now))) && GoKept(r, a, now)
    ensures SoloInv(Then(r, Go(a, now)))
  {
    var r' := Then(r, Go(a, now));
    forall b | b in End(r').actors
      ensures SoloPc(End(r'), End(r').actors[b], ReadAt(r', b), AsOf(r'))
    {
      assert b != a ==> End(r).actors[b].Idle?;
    }
  }

  lemma StartKeepsSolo(r: Run, e: Event)
    requires Valid(r) && SoloInv(r) && Inv(End(r)) && (e.Sweep? || e.Manual?) && AllIdle(End(r))
    ensures Valid(Then(r, e)) && SoloInv(Then(r, e))
  {
    OnlyNewestCurrent(End(r));
  }

  lemma EditKeepsSolo(r: Run, e: Event)
    requires Valid(r) && SoloInv(r) && HistInv(r) && Can(End(r), e) && (e.Edit? || e.Brand? || e.MarkDirty?)
    ensures Valid(Then(r, e)) && SoloInv(Then(r, e))
  {
    var w, w' := End(r), End(Then(r, e));
    forall a | a in w.actors
      ensures SoloPc(w', w.actors[a], ReadAt(Then(r, e), a), AsOf(Then(r, e)))
    {
      assert SoloPc(w, w.actors[a], ReadAt(r, a), AsOf(r));
    }
  }

  lemma {:induction false} AlwaysSolo(r: Run)
    requires Valid(r) && InTurn(r)
    ensures SoloInv(r)
  {
    if r.Then? {
      var before, e := r.before, r.event;
      AlwaysSolo(before);
      AlwaysInv(before);
      AlwaysHist(before);
      if e.Sweep? || e.Manual? {
        StartKeepsSolo(before, e);
      } else if !e.Go? {
        EditKeepsSolo(before, e);
      } else if !PcOf(End(before), e.actor).Idle? {
        GoKeepsSolo(before, e.actor, e.now);
        GoKeptIsSolo(before, e.actor, e.now);
      }
    }
  }

  // ---------- what is lost ----------

  /** A list issued by hand clears the flag, whose mark came after the candidates were read. */
  predicate ClearsLate(r: Run, e: Event)
    requires Valid(r)
  {
    e.Go? && PcOf(End(r), e.actor).Clearing? && PcOf(End(r), e.actor).job.manual && ReadAt(r, e.actor) < End(r).clock
  }

  /** Issuers that take turns turn a run blind exactly by clearing late by hand. */
  lemma TurnsBlindByHand(r: Run, e: Event)
    requires Valid(Then(r, e)) && InTurn(r) && !Blind(r)
    ensures Blind(Then(r, e)) <==> ClearsLate(r, e)
  {
    AlwaysSolo(r);
    AlwaysHist(r);
    TurnsBlindIff(r, e);
    if e.Go? && !PcOf(End(r), e.actor).Idle? {
      assert SoloPc(End(r), PcOf(End(r), e.actor), ReadAt(r, e.actor), AsOf(r));
      if ClearsMark(End(r), e) {
        ClearingReader(r, e);
      }
    }
  }

  predicate NeverBlind(r: Run)
    requires Valid(r)
  {
    !Blind(r) && (r.Then? ==> NeverBlind(r.before))
  }

  predicate NeverLate(r: Run)
    requires Valid(r)
  {
    r.Then? ==> NeverLate(r.before) && !ClearsLate(r.before, r.event)
  }

  lemma {:induction false} NeverBlindIff(r: Run)
    requires Valid(r) && InTurn(r)
    ensures NeverBlind(r) <==> NeverLate(r)
  {
    if r.Then? {
      NeverBlindIff(r.before);
      if NeverBlind(r.before) {
        TurnsBlindByHand(r.before, r.event);
      }
    }
  }

  predicate NothingByHand(r: Run) {
    r.Then? ==> NothingByHand(r.before) && !r.event.Manual?
  }

  predicate BySweep(pc: Pc) {
    && !pc.ManualSections?
    && (pc.Ready? ==> !pc.job.manual)
    && (pc.Numbered? ==> !pc.job.manual)
    && (pc.Inserted? ==> !pc.job.manual)
    && (pc.Clearing? ==> !pc.job.manual)
  }

  lemma GoBySweep(w: World, a: nat, now: int)
    requires BySweep(PcOf(w, a))
    ensures BySweep(PcOf(GoStep(w, a, now), a))
  {
  }

  ghost predicate AllBySweep(r: Run)
    requires Valid(r)
  {
    forall a :: a in End(r).actors ==> BySweep(End(r).actors[a])
  }

  lemma {:induction false} SweepsNeverLate(r: Run)
    requires Valid(r) && NothingByHand(r)
    ensures NeverLate(r) && AllBySweep(r)
  {
    if r.Then? {
      SweepsNeverLate(r.before);
      var w, e := End(r.before), r.event;
      if e.Go? {
        assert BySweep(PcOf(w, e.actor));
        GoLeaves(w, e.actor, e.now);
        GoBySweep(w, e.actor, e.now);
      }
    }
  }

  /** Issuers that take turns, among any editors: when no issuer is under way there is exactly one current list once there is
      any; no list is empty and none repeats the one before. If every list issued by hand was cleared in time, as it is when
      there are only sweeps, then a list that differs from the approved candidates is announced by the flag. */
  lemma NoLostChange(r: Run)
    requires Valid(r) && InTurn(r) && AllIdle(End(r))
    ensures forall i :: 0 <= i < |End(r).lists| ==> (End(r).lists[i].current <==> i == |End(r).lists| - 1)
    ensures forall i :: 0 <= i < |End(r).lists| ==> End(r).lists[i].sections != []
    ensures forall i :: 0 < i < |End(r).lists| ==>
              (End(r).lists[i - 1].sections, End(r).lists[i - 1].look) != (End(r).lists[i].sections, End(r).lists[i].look)
    ensures NothingByHand(r) ==> NeverLate(r)
    ensures NeverLate(r) && End(r).pending == 0 ==> !Lost(End(r))
  {
    AlwaysSolo(r);
    IssuedInSequence(r);
    if NothingByHand(r) {
      SweepsNeverLate(r);
    }
    if NeverLate(r) && End(r).pending == 0 {
      NeverBlindIff(r);
      LostIff(r);
    }
  }

  /** Issuers that take turns bring on a new list after the first only for a change: of the names after a quiet spell, or by
      hand of the names or the look. */
  lemma ReissuedForAChange(r: Run, e: Event)
    requires Valid(r) && InTurn(r) && Valid(Then(r, e)) && e.Go?
    requires End(r).lists != [] && |End(Then(r, e)).lists| > |End(r).lists|
    ensures var pc := PcOf(End(r), e.actor);
            && pc.Numbered? && Newest(End(Then(r, e))).sections == pc.job.sections
            && (Newest(End(r)).sections, Newest(End(r)).look) != (pc.job.sections, pc.job.look)
            && (!pc.job.manual ==>
                  && pc.job.seen.Dirty? && pc.job.now - pc.job.seen.at >= 120
                  && Newest(End(r)).sections != pc.job.sections)
  {
    AlwaysSolo(r);
    assert SoloPc(End(r), PcOf(End(r), e.actor), ReadAt(r, e.actor), AsOf(r));
  }
}
