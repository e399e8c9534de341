/** When a change of the candidates is lost, for any number of issuers, by hand or by sweep. */
module CandidateHistory {
  import opened CandidateSteps

  /** A change that no list shows and no flag announces. */
  predicate Lost(w: World) {
    w.lists != [] && w.pending == 0 && w.dirty.Clean? && Newest(w).sections != w.approved
  }

  // ---------- what a run has seen ----------

  predicate Reads(w: World, e: Event, a: nat) {
    e == Manual(a) || (e.Go? && e.actor == a && PcOf(w, a).SweepState?)
  }

  /** The time of the last mark when `a` last read the candidates. */
  function ReadAt(r: Run, a: nat): int
    requires Valid(r)
  {
    match r
    case Begin(_, _) => 0
    case Then(before, e) => if Reads(End(before), e, a) then End(before).clock else ReadAt(before, a)
  }

  predicate Inserts(w: World, e: Event) {
    e.Go? && PcOf(w, e.actor).Numbered? && !Taken(w.lists, PcOf(w, e.actor).number)
  }

  /** The candidates are read and are what the newest list shows. */
  predicate Shows(w: World, e: Event) {
    (e.Manual? || (e.Go? && PcOf(w, e.actor).SweepState?)) && w.lists != [] && Newest(w).sections == w.approved
  }

  /** The time of the last mark when the candidates were last read to be those of the newest list. */
  function AsOf(r: Run): int
    requires Valid(r)
  {
    match r
    case Begin(_, _) => 0
    case Then(before, e) =>
      if Inserts(End(before), e) then ReadAt(before, e.actor)
      else if Shows(End(before), e) then End(before).clock
      else AsOf(before)
  }

  /** The flag is clean, but a mark came after the newest list was last seen to be up to date. */
  predicate Blind(r: Run)
    requires Valid(r)
  {
    End(r).lists != [] && End(r).dirty.Clean? && AsOf(r) < End(r).clock
  }

  // ---------- the invariant ----------

  /** Sections read at `at` are the candidates still, unless a change came after. */
  predicate Current(w: World, sections: Sections, at: int) {
    at == w.clock && w.pending == 0 ==> sections == w.approved
  }

  predicate Carried(w: World, pc: Pc, readAt: int) {
    match pc
    case ManualSections(sections) => Current(w, sections, readAt)
    case Ready(job) => Current(w, job.sections, readAt)
    case Numbered(job, _) => Current(w, job.sections, readAt)
    case _ => true
  }

  ghost predicate AllCarried(r: Run)
    requires Valid(r)
  {
    forall a :: a in End(r).actors ==> Carried(End(r), End(r).actors[a], ReadAt(r, a))
  }

  predicate NewestInv(w: World, asOf: int) {
    && asOf <= w.clock
    && (w.lists != [] ==> Current(w, Newest(w).sections, asOf))
    && (w.dirty.Dirty? ==> w.dirty.at == w.clock)
  }

  ghost predicate HistInv(r: Run)
    requires Valid(r)
  {
    AllCarried(r) && NewestInv(End(r), AsOf(r))
  }

  lemma ClockGrows(w: World, e: Event)
    requires Can(w, e)
    ensures Next(w, e).clock >= w.clock
  {
  }

  lemma {:induction false} ReadBefore(r: Run, a: nat)
    requires Valid(r)
    ensures ReadAt(r, a) <= End(r).clock
  {
    if r.Then? {
      ReadBefore(r.before, a);
      ClockGrows(End(r.before), r.event);
    }
  }

  lemma GoCarried(w: World, a: nat, now: int, readAt: int)
    requires Carried(w, PcOf(w, a), readAt)
    ensures Carried(GoStep(w, a, now), PcOf(GoStep(w, a, now), a), if PcOf(w, a).SweepState? then w.clock else readAt)
  {
  }

  lemma GoLeaves(w: World, a: nat, now: int)
    ensures var w' := GoStep(w, a, now);
            && w'.approved == w.approved && w'.pending == w.pending && w'.clock == w.clock
            && (forall b :: b in w'.actors && b != a ==> b in w.actors && w'.actors[b] == w.actors[b])
  {
  }

  lemma CarriedOn(r: Run, e: Event, a: nat)
    requires Valid(Then(r, e)) && AllCarried(r) && a in End(Then(r, e)).actors
    ensures Carried(End(Then(r, e)), End(Then(r, e)).actors[a], ReadAt(Then(r, e), a))
  {
    var w := End(r);
    assert Carried(w, PcOf(w, a), ReadAt(r, a));
    if e.Go? {
      GoLeaves(w, e.actor, e.now);
      GoCarried(w, e.actor, e.now, ReadAt(r, e.actor));
    } else {
      ReadBefore(r, a);
    }
  }

  lemma GoKeepsNewest(w: World, a: nat, now: int, readAt: int, asOf: int)
    requires NewestInv(w, asOf) && Carried(w, PcOf(w, a), readAt) && readAt <= w.clock
    ensures var e := Go(a, now);
            NewestInv(GoStep(w, a, now),
                      if Inserts(w, e) then readAt else if Shows(w, e) then w.clock else asOf)
  {
    if PcOf(w, a).Numbered? || PcOf(w, a).Inserted? {
      var w' := GoStep(w, a, now);
      assert w'.dirty == w.dirty && w'.clock == w.clock && w'.pending == w.pending && w'.approved == w.approved;
    }
  }

  lemma {:induction false} AlwaysHist(r: Run)
    requires Valid(r)
    ensures HistInv(r)
  {
    if r.Then? {
      AlwaysHist(r.before);
      var w, e := End(r.before), r.event;
      forall a | a in End(r).actors
        ensures Carried(End(r), End(r).actors[a], ReadAt(r, a))
      {
        CarriedOn(r.before, e, a);
      }
      if e.Go? {
        assert Carried(w, PcOf(w, e.actor), ReadAt(r.before, e.actor));
        ReadBefore(r.before, e.actor);
        GoKeepsNewest(w, e.actor, e.now, ReadAt(r.before, e.actor), AsOf(r.before));
      }
    }
  }

  /** With any number of issuers in any order, a change is lost exactly if every change is marked, the run is blind and the
      newest list differs from the approved candidates. */
  lemma LostIff(r: Run)
    requires Valid(r)
    ensures Lost(End(r)) <==> End(r).pending == 0 && Blind(r) && Newest(End(r)).sections != End(r).approved
  {
    AlwaysHist(r);
  }

  predicate ClearsMark(w: World, e: Event) {
    e.Go? && PcOf(w, e.actor).Clearing? && w.dirty.Dirty? && Cleared(w.dirty, PcOf(w, e.actor).job).Clean?
  }

  /** A run turns blind exactly where the last mark is cleared, by whomever, while the newest list is older than the mark,
      or where an issuer that read before the last mark inserts its list after that mark was cleared. */
  lemma TurnsBlindIff(r: Run, e: Event)
    requires Valid(Then(r, e)) && !Blind(r)
    ensures Blind(Then(r, e))
            <==> || (ClearsMark(End(r), e) && End(r).lists != [] && AsOf(r) < End(r).clock)
                 || (Inserts(End(r), e) && End(r).dirty.Clean? && ReadAt(r, e.actor) < End(r).clock)
  {
    AlwaysHist(r);
    if e.Go? {
      GoTurns(End(r), e.actor, e.now);
    }
  }

  lemma GoTurns(w: World, a: nat, now: int)
    ensures var w' := GoStep(w, a, now);
            && w'.clock == w.clock
            && (w'.lists != [] <==> w.lists != [] || Inserts(w, Go(a, now)))
            && (w'.dirty.Clean? <==> w.dirty.Clean? || ClearsMark(w, Go(a, now)))
  {
  }

  /** A sweep clears only what it saw: when it clears the last mark, it has read the candidates after it. */
  ghost predicate SeenInv(r: Run)
    requires Valid(r)
  {
    var w := End(r);
    forall a :: a in w.actors ==> SeenBefore(w.actors[a], w.clock, ReadAt(r, a))
  }

  predicate SeenBefore(pc: Pc, clock: int, readAt: int) {
    match pc
    case SweepState(_, _, _, seen) => seen.Dirty? ==> seen.at <= clock
    case Ready(job) => job.manual || (job.seen.Dirty? ==> job.seen.at <= readAt)
    case Numbered(job, _) => job.manual || (job.seen.Dirty? ==> job.seen.at <= readAt)
    case Inserted(job, _) => job.manual || (job.seen.Dirty? ==> job.seen.at <= readAt)
    case Clearing(job) => job.manual || (job.seen.Dirty? ==> job.seen.at <= readAt)
    case _ => true
  }

  lemma GoSeen(w: World, a: nat, now: int, readAt: int)
    requires SeenBefore(PcOf(w, a), w.clock, readAt) && (w.dirty.Dirty? ==> w.dirty.at == w.clock)
    ensures SeenBefore(PcOf(GoStep(w, a, now), a), w.clock, if PcOf(w, a).SweepState? then w.clock else readAt)
  {
  }

  lemma {:induction false} AlwaysSeen(r: Run)
    requires Valid(r)
    ensures SeenInv(r)
  {
    if r.Then? {
      AlwaysSeen(r.before);
      AlwaysHist(r.before);
      var w, e := End(r.before), r.event;
      forall a | a in End(r).actors
        ensures SeenBefore(End(r).actors[a], End(r).clock, ReadAt(r, a))
      {
        assert SeenBefore(PcOf(w, a), w.clock, ReadAt(r.before, a));
        if e.Go? {
          GoLeaves(w, e.actor, e.now);
          GoSeen(w, e.actor, e.now, ReadAt(r.before, e.actor));
        }
      }
    }
  }

  /** So where a sweep turns a run blind, it is because an issuer that read earlier got its list in front: the sweep's own
      reading is up to date. By hand, the reading may be the stale one. */
  lemma ClearingReader(r: Run, e: Event)
    requires Valid(r) && ClearsMark(End(r), e)
    ensures !PcOf(End(r), e.actor).job.manual ==> ReadAt(r, e.actor) == End(r).clock
  {
    AlwaysHist(r);
    AlwaysSeen(r);
    ReadBefore(r, e.actor);
    var w := End(r);
    assert SeenBefore(w.actors[e.actor], w.clock, ReadAt(r, e.actor));
  }
}
