/** Issuing the official list of candidates: a dirty flag, a quiet period, a unique number and supersession, by workers
    whose reads and writes interleave with each other and with the editors of the candidates. */
module CandidateSteps {
  import opened CandidateSections

  const QUIET_S := 120

  type Sections = seq<Section>

  /** `look` is the branding that is frozen into a list, `current` that nothing superseded it. */
  datatype CList = CList(number: nat, sections: Sections, look: string, issuedAt: int, current: bool)

  datatype Flag = Clean | Dirty(at: int)

  datatype Found = NoList | Found(index: nat)

  /** What an issuer carries from its reads: `seen` is the flag as read by a sweep. */
  datatype Job = Job(manual: bool, now: int, look: string, sections: Sections, seen: Flag)

  /** Where an issuer stands, after each of its accesses to the database. */
  datatype Pc =
    | Idle
    | SweepLatest(now: int, look: string, latest: Found)
    | SweepState(now: int, look: string, latest: Found, seen: Flag)
    | ManualSections(sections: Sections)
    | Ready(job: Job)
    | Numbered(job: Job, number: nat)
    | Inserted(job: Job, index: nat)
    | Clearing(job: Job)

  /** `approved` are the sections of the approved candidates now; `pending` counts the changes whose mark is still to come.
      `late` records that an issuer of an older list superseded the newest one. */
  datatype World = World(approved: Sections, look: string, lists: seq<CList>, dirty: Flag, pending: nat, clock: int,
                         actors: map<nat, Pc>, late: bool)

  datatype Event =
    | Edit(approved: Sections)
    | Brand(look: string)
    | MarkDirty(at: int)
    | Sweep(actor: nat, now: int, due: bool)   // `due`: vetting has ended and its close-out has run
    | Manual(actor: nat)
    | Go(actor: nat, now: int)

  function PcOf(w: World, a: nat): Pc {
    if a in w.actors then w.actors[a] else Idle
  }

  // ---------- accesses to the database ----------

  /** The current list that was issued last. */
  function LatestOf(lists: seq<CList>): (r: Found)
    ensures r.Found? ==> r.index < |lists| && lists[r.index].current
    ensures r.NoList? ==> forall i :: 0 <= i < |lists| ==> !lists[i].current
    ensures r.Found? ==> forall i :: 0 <= i < |lists| && lists[i].current ==> lists[i].issuedAt <= lists[r.index].issuedAt
  {
    if lists == [] then NoList
    else
      var n := |lists| - 1;
      var r := LatestOf(lists[..n]);
      if lists[n].current && (r.NoList? || lists[r.index].issuedAt <= lists[n].issuedAt) then Found(n) else r
  }

  function MaxSeq(lists: seq<CList>): (r: nat)
    ensures forall i :: 0 <= i < |lists| ==> lists[i].number <= r
  {
    if lists == [] then 0
    else
      var r, last := MaxSeq(lists[..|lists| - 1]), lists[|lists| - 1];
      if last.number > r then last.number else r
  }

  predicate Taken(lists: seq<CList>, s: nat) {
    exists i :: 0 <= i < |lists| && lists[i].number == s
  }

  function SupersedeOthers(lists: seq<CList>, index: nat): (r: seq<CList>)
    ensures |r| == |lists|
    ensures forall i :: 0 <= i < |r| ==> r[i] == lists[i].(current := lists[i].current && i == index)
  {
    seq(|lists|, i requires 0 <= i < |lists| => lists[i].(current := lists[i].current && i == index))
  }

  function NewList(job: Job, s: nat): CList {
    CList(s, job.sections, job.look, job.now, true)
  }

  function Cleared(dirty: Flag, job: Job): Flag {
    if job.manual || (job.seen.Dirty? && dirty == job.seen) then Clean else dirty
  }

  predicate Quiet(seen: Flag, now: int) {
    seen.Dirty? && now - seen.at >= QUIET_S
  }

  /** The newest list. */
  function Newest(w: World): CList
    requires w.lists != []
  {
    w.lists[|w.lists| - 1]
  }

  ghost predicate AllIdle(w: World) {
    forall a :: a in w.actors ==> w.actors[a].Idle?
  }

  // ---------- the steps ----------

  function Set(w: World, a: nat, pc: Pc): World {
    w.(actors := w.actors[a := pc])
  }

  function GoStep(w: World, a: nat, now: int): World {
    match PcOf(w, a)
    case Idle => w
    case SweepLatest(now, look, latest) =>
      if latest.Found? && !Quiet(w.dirty, now) then Set(w, a, Idle) else Set(w, a, SweepState(now, look, latest, w.dirty))
    case SweepState(now, look, latest, seen) =>
      var job := Job(false, now, look, w.approved, seen);
      if w.approved == [] then Set(w, a, Idle)
      else if latest.Found? && latest.index < |w.lists| && w.lists[latest.index].sections == w.approved then
        Set(w, a, Clearing(job))
      else Set(w, a, Ready(job))
    case ManualSections(sections) =>
      var latest := LatestOf(w.lists);
      if latest.Found? && w.lists[latest.index].sections == sections && w.lists[latest.index].look == w.look then
        Set(w, a, Idle)
      else Set(w, a, Ready(Job(true, now, w.look, sections, Clean)))
    case Ready(job) => Set(w, a, Numbered(job, MaxSeq(w.lists) + 1))
    case Numbered(job, s) =>
      if Taken(w.lists, s) then Set(w, a, Idle)
      else Set(w, a, Inserted(job, |w.lists|)).(lists := w.lists + [NewList(job, s)], late := false)
    case Inserted(job, index) =>
      Set(w, a, Clearing(job)).(lists := SupersedeOthers(w.lists, index), late := w.late || index + 1 < |w.lists|)
    case Clearing(job) => Set(w, a, Idle).(dirty := Cleared(w.dirty, job))
  }

  /** An edit is a change of the candidates that is followed by its mark, whose time is later than any before. */
  predicate Can(w: World, e: Event) {
    match e
    case MarkDirty(at) => w.pending > 0 && at > w.clock
    case Sweep(a, _, _) => PcOf(w, a).Idle?
    case Manual(a) => PcOf(w, a).Idle?
    case _ => true
  }

  function Next(w: World, e: Event): World
    requires Can(w, e)
  {
    match e
    case Edit(approved) => w.(approved := approved, pending := w.pending + 1)
    case Brand(look) => w.(look := look)
    case MarkDirty(at) => w.(dirty := Dirty(at), clock := at, pending := w.pending - 1)
    case Sweep(a, now, due) => if due then Set(w, a, SweepLatest(now, w.look, LatestOf(w.lists))) else w
    case Manual(a) => if w.approved == [] then w else Set(w, a, ManualSections(w.approved))
    case Go(a, now) => GoStep(w, a, now)
  }

  datatype Run = Begin(approved: Sections, look: string) | Then(before: Run, event: Event)

  function End(r: Run): World
    requires Valid(r)
    decreases r, 1
  {
    match r
    case Begin(approved, look) => World(approved, look, [], Clean, 0, 0, map[], false)
    case Then(before, e) => Next(End(before), e)
  }

  predicate Valid(r: Run)
    decreases r, 0
  {
    r.Then? ==> Valid(r.before) && Can(End(r.before), r.event)
  }
}
