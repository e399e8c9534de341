/** Restoring from a run of backups: what the plan gives, and exactly when that is what was there. */
module BackupRuns {
  import opened ObjectIds
  import opened Backup

  datatype Plan = Refused | Steps(manifests: seq<View>)

  /** The incremental directories from `from` up to `until`, in time order. */
  function IncrsBetween(bucket: seq<Prefix>, from: nat, until: nat): seq<Prefix> {
    if bucket == [] then []
    else
      var p := bucket[|bucket| - 1];
      IncrsBetween(bucket[..|bucket| - 1], from, until)
        + if p.kind.Incr? && from <= p.ts <= until then [p] else []
  }

  function Manifests(ps: seq<Prefix>): Plan {
    if ps == [] then Steps([])
    else
      match (Manifests(ps[..|ps| - 1]), ps[|ps| - 1].manifest)
      case (Steps(ms), Manifest(c)) => Steps(ms + [c])
      case (_, _) => Refused
  }

  /** The plan reads every manifest it lists and stops at the first one that is missing. From an incremental backup it lists that
      one alone. */
  function PlanSteps(bucket: seq<Prefix>, base: nat, until: nat): Plan
    requires base < |bucket|
  {
    match bucket[base].manifest
    case NoManifest => Refused
    case Manifest(c) =>
      if bucket[base].kind.Incr? then Steps([c])
      else
        match Manifests(IncrsBetween(bucket, bucket[base].ts, until))
        case Steps(ms) => Steps([c] + ms)
        case Refused => Refused
  }

  /** Merging the files of one collection by id, later ones over earlier ones. */
  function Restored(ms: seq<View>, name: Name): Coll {
    if ms == [] then map[] else Restored(ms[..|ms| - 1], name) + CollAt(ms[|ms| - 1], name)
  }

  // ---------- runs ----------

  /** `snap` is each collection as last exported by a completed backup. */
  datatype World = World(s: State, live: View, snap: View)

  /** One attempt, with the database when it starts (`live`), is read, and when it has ended. */
  datatype Event = Event(kind: Kind, ts: nat, probe: View, seen: View, after: View, force: bool, stale: bool, end: End,
                         status: Status)

  predicate Fresh(bucket: seq<Prefix>, ts: nat) {
    forall i :: 0 <= i < |bucket| ==> bucket[i].ts < ts
  }

  /** The live database changes in any way before, during and after an attempt. */
  ghost predicate Step(w: World, e: Event, w': World) {
    && Fresh(w.s.bucket, e.ts)
    && w'.live == e.after
    && Attempt(w.s, e.kind, e.ts, e.probe, e.seen, e.force, e.stale, e.end, w'.s, e.status)
    && w'.snap == if e.status.Uploaded? || e.status.Unsaved?
                  then Snapped(w.snap, Files(w.s, e.kind, e.probe, e.seen).Keys, e.seen) else w.snap
  }

  function Snapped(snap: View, names: set<Name>, seen: View): View {
    map n | n in snap.Keys + names :: if n in names then CollAt(seen, n) else snap[n]
  }

  /** A history of attempts, oldest first. */
  datatype Run = Begin(w: World) | Then(before: Run, e: Event, w: World)

  ghost predicate Valid(r: Run) {
    match r
    case Begin(w) => w.s == State([], Never, map[]) && w.snap == map[]
    case Then(before, e, w) => Valid(before) && Step(before.w, e, w)
  }

  /** Along the run the collection only gains documents, each at most the overlap older than any that is there. */
  ghost predicate OnlyGrows(r: Run, n: Name) {
    r.Then? ==>
      && OnlyGrows(r.before, n)
      && Grows(CollAt(r.before.w.live, n), CollAt(r.e.probe, n))
      && Grows(CollAt(r.e.probe, n), CollAt(r.e.seen, n))
      && Grows(CollAt(r.e.seen, n), CollAt(r.e.after, n))
  }

  predicate Earlier(p: Run, r: Run) {
    p == r || (r.Then? && Earlier(p, r.before))
  }

  /** The manifests a restore of the newest complete full uses. */
  function Chain(bucket: seq<Prefix>): seq<View> {
    if bucket == [] then []
    else
      var init, p := bucket[..|bucket| - 1], bucket[|bucket| - 1];
      match p.manifest
      case NoManifest => Chain(init)
      case Manifest(c) => if p.kind.Full? then [c] else Chain(init) + [c]
  }

  lemma RestoredOne(c: View, n: Name)
    ensures Restored([c], n) == CollAt(c, n)
  {
    assert [c][..0] == [];
    assert Restored([], n) == map[];
  }

  lemma RestoredMore(ms: seq<View>, c: View, n: Name)
    ensures Restored(ms + [c], n) == Restored(ms, n) + CollAt(c, n)
  {
    assert (ms + [c])[..|ms|] == ms;
  }

  lemma ChainMore(bucket: seq<Prefix>, p: Prefix)
    ensures Chain(bucket + [p]) == match p.manifest
                                   case NoManifest => Chain(bucket)
                                   case Manifest(c) => if p.kind.Full? then [c] else Chain(bucket) + [c]
  {
    assert (bucket + [p])[..|bucket|] == bucket;
  }

  // ---------- one incremental, exactly ----------

  /** What an incremental export gives on top of `had` is the collection as exported if and only if nothing in `had` has
      been deleted since, and nothing before the overlap point is missing from `had` or differs. */
  predicate Catches(had: Coll, seen: Coll, wm: map<Name, Oid>, n: Name) {
    had.Keys <= seen.Keys && (n in wm ==> KeptUp(had, seen, wm[n]))
  }

  lemma SinceExactIff(had: Coll, seen: Coll, wm: map<Name, Oid>, n: Name)
    ensures had + Since(seen, wm, n) == seen <==> Catches(had, seen, wm, n)
  {
    if n in wm {
      OverlapExactIff(had, seen, wm[n]);
    } else if had + seen == seen {
      forall x | x in had
        ensures x in seen
      {
        assert x in had + seen;
      }
    }
  }

  /** An append-only collection that only grows is always caught up, wherever in it the watermark is. */
  lemma GrownCatches(had: Coll, seen: Coll, wm: map<Name, Oid>, n: Name)
    requires Grows(had, seen) && (n in wm ==> wm[n] in had)
    ensures Catches(had, seen, wm, n)
  {
  }

  /** The manifest that an attempt leaves behind, if any. */
  predicate Finished(e: Event) {
    e.status.Uploaded? || e.status.Unsaved?
  }

  predicate ExportsIncr(w: World, e: Event, n: Name) {
    Finished(e) && EffectiveKind(w.s, e.kind).Incr? && Due(w.s.wm, e.probe, n)
  }

  /** What each attempt adds to the chain of a collection, whatever happens to the live database. */
  lemma StepChain(w: World, e: Event, w': World, n: Name)
    requires Step(w, e, w')
    ensures var had, now := Restored(Chain(w.s.bucket), n), Restored(Chain(w'.s.bucket), n);
            if Finished(e) && EffectiveKind(w.s, e.kind).Full? then
              now == (if Covered(n) then CollAt(e.seen, n) else map[])
              && CollAt(w'.snap, n) == (if Covered(n) then CollAt(e.seen, n) else CollAt(w.snap, n))
            else if ExportsIncr(w, e, n) then
              now == had + Since(CollAt(e.seen, n), w.s.wm, n) && CollAt(w'.snap, n) == CollAt(e.seen, n)
            else now == had && CollAt(w'.snap, n) == CollAt(w.snap, n)
  {
    var k, files := EffectiveKind(w.s, e.kind), Files(w.s, e.kind, e.probe, e.seen);
    SnapMoves(w.snap, files.Keys, e.seen, n);
    if Finished(e) {
      assert w'.s.bucket == w.s.bucket + [Prefix(e.ts, k, Manifest(files))];
      if k.Full? {
        FullChain(w.s.bucket, e.ts, e.seen, n);
      } else {
        IncrChain(w.s.bucket, e.ts, files, n);
      }
    } else {
      assert w'.s.bucket == w.s.bucket || w'.s.bucket == w.s.bucket + [Prefix(e.ts, k, NoManifest)];
      ChainMore(w.s.bucket, Prefix(e.ts, k, NoManifest));
    }
  }

  lemma SnapMoves(snap: View, names: set<Name>, seen: View, n: Name)
    ensures CollAt(Snapped(snap, names, seen), n) == if n in names then CollAt(seen, n) else CollAt(snap, n)
  {
  }

  lemma FullChain(bucket: seq<Prefix>, ts: nat, seen: View, n: Name)
    ensures Restored(Chain(bucket + [Prefix(ts, Full, Manifest(FullFiles(seen)))]), n)
            == if Covered(n) then CollAt(seen, n) else map[]
  {
    ChainMore(bucket, Prefix(ts, Full, Manifest(FullFiles(seen))));
    RestoredOne(FullFiles(seen), n);
  }

  lemma IncrChain(bucket: seq<Prefix>, ts: nat, files: View, n: Name)
    ensures Restored(Chain(bucket + [Prefix(ts, Incr, Manifest(files))]), n)
            == if n in files then Restored(Chain(bucket), n) + files[n] else Restored(Chain(bucket), n)
  {
    ChainMore(bucket, Prefix(ts, Incr, Manifest(files)));
    RestoredMore(Chain(bucket), files, n);
    assert Restored(Chain(bucket), n) + map[] == Restored(Chain(bucket), n);
  }

  /** After any run, an incremental export of a collection completes its chain if and only if it catches up. */
  lemma IncrExactIff(r: Run, n: Name)
    requires Valid(r) && r.Then? && ExportsIncr(r.before.w, r.e, n)
    ensures Restored(Chain(r.w.s.bucket), n) == CollAt(r.w.snap, n)
            <==> Catches(Restored(Chain(r.before.w.s.bucket), n), CollAt(r.e.seen, n), r.before.w.s.wm, n)
  {
    StepChain(r.before.w, r.e, r.w, n);
    SinceExactIff(Restored(Chain(r.before.w.s.bucket), n), CollAt(r.e.seen, n), r.before.w.s.wm, n);
  }

  // ---------- every run ----------

  ghost predicate CollInv(w: World, n: Name) {
    && Restored(Chain(w.s.bucket), n) == CollAt(w.snap, n)
    && (!Covered(n) ==> CollAt(w.snap, n) == map[])
  }

  /** A watermark is the id of some exported document, not necessarily of the last one. */
  ghost predicate MarkInv(w: World, n: Name) {
    Grows(CollAt(w.snap, n), CollAt(w.live, n)) && (n in w.s.wm ==> w.s.wm[n] in CollAt(w.snap, n))
  }

  lemma MarkMoves(wm: map<Name, Oid>, files: View, wm': map<Name, Oid>, full: bool, n: Name, snap: Coll, snap': Coll)
    requires Moved(wm, files, wm', full, n) && (n in wm ==> wm[n] in snap) && Grows(snap, snap')
    requires n in files ==> forall x :: x in files[n] ==> x in snap'
    ensures n in wm' ==> wm'[n] in snap'
  {
  }

  /** How a growing collection's snapshot follows an attempt. */
  lemma GrowthFollows(w: World, e: Event, w': World, n: Name)
    requires Step(w, e, w') && AppendOnly(n) && Grows(CollAt(w.snap, n), CollAt(w.live, n))
    requires Grows(CollAt(w.live, n), CollAt(e.probe, n)) && Grows(CollAt(e.probe, n), CollAt(e.seen, n))
    requires Grows(CollAt(e.seen, n), CollAt(e.after, n))
    ensures Grows(CollAt(w.snap, n), CollAt(e.seen, n)) && Grows(CollAt(w.snap, n), CollAt(w'.snap, n))
    ensures Grows(CollAt(w'.snap, n), CollAt(w'.live, n))
  {
    var snap := CollAt(w.snap, n);
    GrowsTrans(snap, CollAt(w.live, n), CollAt(e.probe, n));
    GrowsTrans(snap, CollAt(e.probe, n), CollAt(e.seen, n));
    GrowsTrans(snap, CollAt(e.seen, n), CollAt(e.after, n));
    StepChain(w, e, w', n);
  }

  lemma StepKeepsMark(w: World, e: Event, w': World, n: Name)
    requires Step(w, e, w') && AppendOnly(n) && MarkInv(w, n)
    requires Grows(CollAt(w.live, n), CollAt(e.probe, n)) && Grows(CollAt(e.probe, n), CollAt(e.seen, n))
    requires Grows(CollAt(e.seen, n), CollAt(e.after, n))
    ensures MarkInv(w', n)
  {
    GrowthFollows(w, e, w', n);
    if e.status.Uploaded? {
      UploadMoves(w, e, w', n);
      MarkMoves(w.s.wm, Files(w.s, e.kind, e.probe, e.seen), w'.s.wm, EffectiveKind(w.s, e.kind).Full?, n,
                CollAt(w.snap, n), CollAt(w'.snap, n));
    }
  }

  lemma UploadMoves(w: World, e: Event, w': World, n: Name)
    requires Step(w, e, w') && AppendOnly(n) && e.status.Uploaded?
    ensures var files := Files(w.s, e.kind, e.probe, e.seen);
            && Moved(w.s.wm, files, w'.s.wm, EffectiveKind(w.s, e.kind).Full?, n)
            && (n in files ==> forall x :: x in files[n] ==> x in CollAt(w'.snap, n))
  {
    SnapMoves(w.snap, Files(w.s, e.kind, e.probe, e.seen).Keys, e.seen, n);
  }

  lemma StepKeeps(w: World, e: Event, w': World, n: Name)
    requires Step(w, e, w') && CollInv(w, n)
    requires AppendOnly(n) ==> MarkInv(w, n) && Grows(CollAt(w.snap, n), CollAt(e.seen, n))
    ensures CollInv(w', n)
  {
    StepChain(w, e, w', n);
    if ExportsIncr(w, e, n) {
      GrownCatches(CollAt(w.snap, n), CollAt(e.seen, n), w.s.wm, n);
      SinceExactIff(CollAt(w.snap, n), CollAt(e.seen, n), w.s.wm, n);
    }
  }

  lemma {:induction false} RunKeeps(r: Run, n: Name)
    requires Valid(r) && (AppendOnly(n) ==> OnlyGrows(r, n))
    ensures CollInv(r.w, n) && (AppendOnly(n) ==> MarkInv(r.w, n))
  {
    match r
    case Begin(w) =>
      assert Restored([], n) == map[];
    case Then(before, e, w) =>
      RunKeeps(before, n);
      if AppendOnly(n) {
        GrowthFollows(before.w, e, w, n);
        StepKeepsMark(before.w, e, w, n);
      }
      StepKeeps(before.w, e, w, n);
  }

  // ---------- what the chain holds, exactly ----------

  /** The last export of a collection was in a full backup, or in an incremental one that caught up with the chain. */
  ghost predicate LastCaught(r: Run, n: Name) {
    r.Then? ==>
      var had := Restored(Chain(r.before.w.s.bucket), n);
      if Finished(r.e) && EffectiveKind(r.before.w.s, r.e.kind).Full? then true
      else if ExportsIncr(r.before.w, r.e, n) then Catches(had, CollAt(r.e.seen, n), r.before.w.s.wm, n)
      else LastCaught(r.before, n)
  }

  lemma {:induction false} CaughtIff(r: Run, n: Name)
    requires Valid(r)
    ensures Restored(Chain(r.w.s.bucket), n) == CollAt(r.w.snap, n) <==> LastCaught(r, n)
    ensures !Covered(n) ==> CollAt(r.w.snap, n) == map[]
  {
    match r
    case Begin(w) =>
      assert Restored([], n) == map[];
    case Then(before, e, w) =>
      CaughtIff(before, n);
      StepChain(before.w, e, w, n);
      if ExportsIncr(before.w, e, n) {
        IncrExactIff(r, n);
      }
  }

  /** A collection that only a full backup carries is always caught up with, and an append-only one if it only grew, each new
      id at most the overlap older than those there. */
  lemma GrownCaught(r: Run, n: Name)
    requires Valid(r) && (AppendOnly(n) ==> OnlyGrows(r, n))
    ensures LastCaught(r, n)
  {
    RunKeeps(r, n);
    CaughtIff(r, n);
  }

  /** After an entry of an append-only collection has been changed, the next incremental backup completes the chain if and only
      if the entry is not older than the overlap point. */
  lemma EditedRestoredIff(r: Run, n: Name, x: Oid)
    requires Valid(r) && r.Then? && AppendOnly(n) && OnlyGrows(r.before, n) && ExportsIncr(r.before.w, r.e, n)
    requires Edited(CollAt(r.before.w.snap, n), CollAt(r.e.seen, n), x)
    ensures var wm := r.before.w.s.wm;
            Restored(Chain(r.w.s.bucket), n) == CollAt(r.w.snap, n) <==> (n in wm ==> !Lt(x, Back(wm[n])))
  {
    RunKeeps(r.before, n);
    IncrExactIff(r, n);
    EditedCatches(CollAt(r.before.w.snap, n), CollAt(r.e.seen, n), r.before.w.s.wm, n, x);
  }

  lemma EditedCatches(had: Coll, seen: Coll, wm: map<Name, Oid>, n: Name, x: Oid)
    requires Edited(had, seen, x) && (n in wm ==> wm[n] in had)
    ensures Catches(had, seen, wm, n) <==> (n in wm ==> !Lt(x, Back(wm[n])))
  {
    var grown := seen[x := had[x]];
    GrownCatches(had, grown, wm, n);
    forall y | y in seen && y != x
      ensures grown[y] == seen[y]
    {
    }
  }

  // ---------- what a skipped full relies on ----------

  /** A full backup was uploaded, but not recorded, since the last one that was. */
  ghost predicate UnsavedFull(r: Run) {
    r.Then? &&
      if r.e.status.Unsaved? && EffectiveKind(r.before.w.s, r.e.kind).Full? then true
      else if r.e.status.Uploaded? && EffectiveKind(r.before.w.s, r.e.kind).Full? then false
      else UnsavedFull(r.before)
  }

  /** The attempt that led to `p` was a full backup that ended with this status. */
  predicate FullEnded(p: Run, status: Status) {
    p.Then? && p.e.status == status && EffectiveKind(p.before.w.s, p.e.kind).Full?
  }

  /** `p` was an unrecorded full, and no full has been recorded since. */
  ghost predicate StillUnsaved(p: Run, r: Run) {
    && Earlier(p, r) && FullEnded(p, Unsaved)
    && forall q :: Earlier(q, r) && Earlier(p, q) ==> !FullEnded(q, Uploaded)
  }

  lemma {:induction false} EarlierIsPart(p: Run, r: Run)
    ensures Earlier(p, r) ==> p == r || p < r
  {
    if r.Then? {
      EarlierIsPart(p, r.before);
    }
  }

  /** A full is unsaved exactly as long as one was uploaded unrecorded and none has been recorded since. */
  lemma {:induction false} UnsavedFullIff(r: Run)
    ensures UnsavedFull(r) <==> exists p :: StillUnsaved(p, r)
  {
    if r.Then? {
      UnsavedFullIff(r.before);
      if FullEnded(r, Unsaved) {
        forall q | Earlier(q, r) && Earlier(r, q)
          ensures q == r
        {
          EarlierIsPart(q, r);
          EarlierIsPart(r, q);
        }
        assert StillUnsaved(r, r);
      } else if FullEnded(r, Uploaded) {
        assert forall p :: Earlier(p, r) ==> !StillUnsaved(p, r);
      } else {
        assert forall p :: StillUnsaved(p, r) ==> StillUnsaved(p, r.before);
        assert forall p :: StillUnsaved(p, r.before) ==> StillUnsaved(p, r);
      }
    }
  }

  /** The record of the last full names the covered collections; those that no incremental carries are in the chain as recorded,
      unless a full was left unsaved. */
  ghost predicate RecordInv(r: Run) {
    var last := r.w.s.last;
    last.Hashes? ==>
      && (forall n: Name :: n in last.content <==> !n.Other?)
      && (!UnsavedFull(r) ==> forall n: Name :: n.Whole? ==> last.content[n] == Restored(Chain(r.w.s.bucket), n))
  }

  lemma StepKeepsRecord(r: Run)
    requires Valid(r) && r.Then? && RecordInv(r.before)
    ensures RecordInv(r)
  {
    var w, e := r.before.w, r.e;
    forall n: Name | n.Whole?
      ensures r.w.s.last.Hashes? && !UnsavedFull(r) ==>
                n in r.w.s.last.content && r.w.s.last.content[n] == Restored(Chain(r.w.s.bucket), n)
    {
      StepChain(w, e, r.w, n);
    }
  }

  lemma {:induction false} AlwaysRecorded(r: Run)
    requires Valid(r)
    ensures RecordInv(r)
  {
    if r.Then? {
      AlwaysRecorded(r.before);
      StepKeepsRecord(r);
    }
  }

  /** After a full backup that reached its end, uploaded or skipped, the chain gives every collection that no incremental
      carries as it was read, if no full was left unsaved since the last one that was recorded. */
  lemma FullGivesSmall(r: Run, n: Name)
    requires Valid(r) && r.Then? && r.e.kind.Full? && r.e.end.Completes? && n.Whole? && !UnsavedFull(r.before)
    ensures Restored(Chain(r.w.s.bucket), n) == CollAt(r.e.seen, n)
  {
    var w, e := r.before.w, r.e;
    AlwaysRecorded(r.before);
    StepChain(w, e, r.w, n);
    FullSkippedIff(w.s, e.ts, e.probe, e.seen, e.force, e.stale, r.w.s, e.status);
  }

  /** Exactly then, or if what the unsaved full exported is what was read: a skipped full leaves the chain giving what was
      exported last. */
  lemma FullGivesIff(r: Run, n: Name)
    requires Valid(r) && r.Then? && r.e.kind.Full? && r.e.end.Completes? && n.Whole?
    ensures Restored(Chain(r.w.s.bucket), n) == CollAt(r.e.seen, n)
            <==> r.e.status.Uploaded? || CollAt(r.before.w.snap, n) == CollAt(r.e.seen, n)
  {
    var w, e := r.before.w, r.e;
    AlwaysRecorded(r.before);
    StepChain(w, e, r.w, n);
    FullSkippedIff(w.s, e.ts, e.probe, e.seen, e.force, e.stale, r.w.s, e.status);
    GrownCaught(r.before, n);
    CaughtIff(r.before, n);
  }

  /** Three full backups of one small collection, of which the second is uploaded but not recorded. */
  function ThreeFulls(n: Name, x: Coll, y: Coll): Run {
    var fx, fy := FullFiles(Only(n, x)), FullFiles(Only(n, y));
    var p1, p2 := Prefix(1, Full, Manifest(fx)), Prefix(2, Full, Manifest(fy));
    var w1 := World(State([p1], Hashes(fx), map[]), Only(n, x), Snapped(map[], fx.Keys, Only(n, x)));
    var w2 := World(State([p1, p2], Hashes(fx), map[]), Only(n, y), Snapped(w1.snap, fy.Keys, Only(n, y)));
    var e1 := Event(Full, 1, Only(n, x), Only(n, x), Only(n, x), false, false, Completes, Uploaded);
    var e2 := Event(Full, 2, Only(n, y), Only(n, y), Only(n, y), false, false, FailsSaving, Unsaved);
    var e3 := Event(Full, 3, Only(n, x), Only(n, x), Only(n, x), false, false, Completes, Skipped);
    Then(Then(Then(Begin(World(State([], Never, map[]), map[], map[])), e1, w1), e2, w2), e3, w2.(live := Only(n, x)))
  }

  lemma FirstFull(n: Name, x: Coll, y: Coll)
    requires n.Whole?
    ensures var r := ThreeFulls(n, x, y).before.before; Step(r.before.w, r.e, r.w)
  {
    assert Advanced(map[], FullFiles(Only(n, x)), map[], true);
  }

  /** The full that is not recorded is not skipped. */
  lemma ChangedIsNotSkipped(s: State, n: Name, x: Coll, y: Coll)
    requires n.Whole? && x != y && s.last == Hashes(FullFiles(Only(n, x)))
    ensures !WouldSkip(s, Full, Only(n, y), Only(n, y), false, false)
  {
    assert FullFiles(Only(n, x))[n] == x && FullFiles(Only(n, y))[n] == y;
  }

  lemma UnsavedStep(w: World, ts: nat, v: View)
    requires Fresh(w.s.bucket, ts) && !WouldSkip(w.s, Full, v, v, false, false)
    ensures Step(w, Event(Full, ts, v, v, v, false, false, FailsSaving, Unsaved),
                 World(w.s.(bucket := w.s.bucket + [Prefix(ts, Full, Manifest(FullFiles(v)))]), v,
                       Snapped(w.snap, FullFiles(v).Keys, v)))
  {
    assert EffectiveKind(w.s, Full) == Full && Files(w.s, Full, v, v) == FullFiles(v);
  }

  lemma SecondFull(n: Name, x: Coll, y: Coll)
    requires n.Whole? && x != y
    ensures var r := ThreeFulls(n, x, y).before; Step(r.before.w, r.e, r.w)
  {
    var w1 := ThreeFulls(n, x, y).before.before.w;
    ChangedIsNotSkipped(w1.s, n, x, y);
    UnsavedStep(w1, 2, Only(n, y));
  }

  lemma ThirdFull(n: Name, x: Coll, y: Coll)
    requires n.Whole?
    ensures var r := ThreeFulls(n, x, y); Step(r.before.w, r.e, r.w)
  {
  }

  lemma ThreeFullsValid(n: Name, x: Coll, y: Coll)
    requires n.Whole? && x != y
    ensures Valid(ThreeFulls(n, x, y))
  {
    var r := ThreeFulls(n, x, y);
    FirstFull(n, x, y);
    SecondFull(n, x, y);
    ThirdFull(n, x, y);
    assert Valid(r.before.before.before);
    assert Valid(r.before.before);
    assert Valid(r.before);
  }

  /** A full backup that was uploaded but not recorded hides a change that is undone before the next one: that one is skipped, and
      the chain keeps what the unrecorded one exported. */
  lemma UnsavedFullHidesAChange(n: Name, x: Coll, y: Coll)
    requires n.Whole? && x != y
    ensures exists r :: Valid(r) && r.Then? && r.e.kind.Full? && r.e.end.Completes? && r.e.status.Skipped?
                        && CollAt(r.e.seen, n) == x && Restored(Chain(r.w.s.bucket), n) == y
  {
    var r := ThreeFulls(n, x, y);
    ThreeFullsValid(n, x, y);
    StepChain(r.before.before.w, r.before.e, r.before.w, n);
    StepChain(r.before.w, r.e, r.w, n);
    assert r.e.status.Skipped? && CollAt(r.e.seen, n) == x;
  }

  // ---------- the plan of a restore ----------

  predicate Ordered(bucket: seq<Prefix>) {
    forall i, j :: 0 <= i < j < |bucket| ==> bucket[i].ts < bucket[j].ts
  }

  predicate NewestFull(bucket: seq<Prefix>, b: nat) {
    && b < |bucket| && bucket[b].kind.Full? && bucket[b].manifest.Manifest?
    && forall i :: b < i < |bucket| ==> !(bucket[i].kind.Full? && bucket[i].manifest.Manifest?)
  }

  /** No incremental upload after `b` was left unfinished. */
  predicate NoOrphan(bucket: seq<Prefix>, b: nat) {
    forall i :: b < i < |bucket| && bucket[i].kind.Incr? ==> bucket[i].manifest.Manifest?
  }

  lemma {:induction false} NoIncrBefore(bucket: seq<Prefix>, from: nat, until: nat)
    requires forall i :: 0 <= i < |bucket| ==> bucket[i].ts < from || bucket[i].kind.Full?
    ensures IncrsBetween(bucket, from, until) == []
  {
    if bucket != [] {
      NoIncrBefore(bucket[..|bucket| - 1], from, until);
    }
  }

  lemma IncrsLast(bucket: seq<Prefix>, from: nat, until: nat)
    requires bucket != []
    ensures var init, p := bucket[..|bucket| - 1], bucket[|bucket| - 1];
            IncrsBetween(bucket, from, until)
            == if p.kind.Incr? && from <= p.ts <= until then IncrsBetween(init, from, until) + [p]
               else IncrsBetween(init, from, until)
  {
    var rest := IncrsBetween(bucket[..|bucket| - 1], from, until);
    assert rest + [] == rest;
  }

  lemma ManifestsMore(ps: seq<Prefix>, p: Prefix)
    ensures Manifests(ps + [p])
            == if Manifests(ps).Steps? && p.manifest.Manifest? then Steps(Manifests(ps).manifests + [p.manifest.collections])
               else Refused
  {
    assert (ps + [p])[..|ps|] == ps;
  }

  lemma NoOrphanMore(bucket: seq<Prefix>, b: nat)
    requires b < |bucket| - 1
    ensures var init, p := bucket[..|bucket| - 1], bucket[|bucket| - 1];
            NoOrphan(bucket, b) <==> NoOrphan(init, b) && (p.kind.Incr? ==> p.manifest.Manifest?)
  {
    var init := bucket[..|bucket| - 1];
    assert forall i :: 0 <= i < |init| ==> init[i] == bucket[i];
  }

  /** From the newest complete full on, the plan lists the chain. */
  lemma {:induction false} PlanIsChain(bucket: seq<Prefix>, b: nat, until: nat)
    requires Ordered(bucket) && NewestFull(bucket, b)
    requires forall i :: 0 <= i < |bucket| ==> bucket[i].ts <= until
    ensures Planned(bucket[b].manifest.collections, IncrsBetween(bucket, bucket[b].ts, until), Chain(bucket),
                    NoOrphan(bucket, b))
  {
    var init, last := bucket[..|bucket| - 1], bucket[|bucket| - 1];
    if b == |bucket| - 1 {
      NoIncrBefore(bucket, bucket[b].ts, until);
    } else {
      PlanIsChain(init, b, until);
      NoOrphanMore(bucket, b);
      IncrsLast(bucket, bucket[b].ts, until);
      assert bucket == init + [last];
      ChainMore(init, last);
      Follows(bucket[b].manifest.collections, IncrsBetween(init, bucket[b].ts, until), Chain(init), NoOrphan(init, b),
              last);
    }
  }

  /** The incrementals after a full, when all of them are complete, and their chain. */
  predicate Planned(full: View, incrs: seq<Prefix>, chain: seq<View>, complete: bool) {
    if complete then Manifests(incrs).Steps? && chain == [full] + Manifests(incrs).manifests else Manifests(incrs) == Refused
  }

  lemma Follows(full: View, incrs: seq<Prefix>, chain: seq<View>, complete: bool, p: Prefix)
    requires Planned(full, incrs, chain, complete) && (p.kind.Incr? || p.manifest.NoManifest?)
    ensures Planned(full, if p.kind.Incr? then incrs + [p] else incrs,
                    if p.manifest.Manifest? then chain + [p.manifest.collections] else chain,
                    complete && (p.kind.Incr? ==> p.manifest.Manifest?))
  {
    ManifestsMore(incrs, p);
  }

  lemma StepOrdered(w: World, e: Event, w': World)
    requires Step(w, e, w') && Ordered(w.s.bucket)
    ensures Ordered(w'.s.bucket) && w.s.bucket <= w'.s.bucket
  {
  }

  lemma {:induction false} RunOrdered(r: Run)
    requires Valid(r)
    ensures Ordered(r.w.s.bucket)
  {
    if r.Then? {
      RunOrdered(r.before);
      StepOrdered(r.before.w, r.e, r.w);
    }
  }

  /** Backup and restore round trip. After any run of full and incremental attempts, whatever failed or was written
      meanwhile, planning from the newest complete full is refused exactly when a later incremental upload was left
      unfinished. Otherwise a collection is restored as its last completed export saw it if and only if that was a full
      backup, or an incremental one that caught up with what the chain held by then. */
  lemma RoundTrip(r: Run, b: nat, until: nat)
    requires Valid(r) && NewestFull(r.w.s.bucket, b)
    requires forall i :: 0 <= i < |r.w.s.bucket| ==> r.w.s.bucket[i].ts <= until
    ensures var plan := PlanSteps(r.w.s.bucket, b, until);
            && (plan.Steps? <==> NoOrphan(r.w.s.bucket, b))
            && (plan.Steps? ==> forall n :: Restored(plan.manifests, n) == CollAt(r.w.snap, n) <==> LastCaught(r, n))
  {
    PlanIsTheChain(r, b, until);
    forall n
      ensures Restored(Chain(r.w.s.bucket), n) == CollAt(r.w.snap, n) <==> LastCaught(r, n)
    {
      CaughtIff(r, n);
    }
  }

  /** Planned from a full backup, a restore is refused exactly if the manifest of that or of a later incremental is missing;
      from an incremental backup only its own manifest counts. */
  lemma RefusedIff(bucket: seq<Prefix>, b: nat, until: nat)
    requires b < |bucket|
    ensures PlanSteps(bucket, b, until) == Refused
            <==> || bucket[b].manifest == NoManifest
                 || (bucket[b].kind == Full
                     && exists i :: 0 <= i < |bucket| && bucket[i].kind == Incr && bucket[i].manifest == NoManifest
                                    && bucket[b].ts <= bucket[i].ts <= until)
    ensures bucket[b].kind == Incr && bucket[b].manifest.Manifest? ==>
              PlanSteps(bucket, b, until) == Steps([bucket[b].manifest.collections])
  {
    IncrsRefused(bucket, bucket[b].ts, until);
  }

  lemma {:induction false} IncrsRefused(bucket: seq<Prefix>, from: nat, until: nat)
    ensures Manifests(IncrsBetween(bucket, from, until)) == Refused
            <==> exists i :: 0 <= i < |bucket| && bucket[i].kind == Incr && bucket[i].manifest == NoManifest
                             && from <= bucket[i].ts <= until
  {
    if bucket != [] {
      var init, p := bucket[..|bucket| - 1], bucket[|bucket| - 1];
      IncrsRefused(init, from, until);
      IncrsLast(bucket, from, until);
      ManifestsMore(IncrsBetween(init, from, until), p);
      assert forall i :: 0 <= i < |init| ==> init[i] == bucket[i];
    }
  }

  lemma PlanIsTheChain(r: Run, b: nat, until: nat)
    requires Valid(r) && NewestFull(r.w.s.bucket, b)
    requires forall i :: 0 <= i < |r.w.s.bucket| ==> r.w.s.bucket[i].ts <= until
    ensures var plan := PlanSteps(r.w.s.bucket, b, until);
            if NoOrphan(r.w.s.bucket, b) then plan == Steps(Chain(r.w.s.bucket)) else plan == Refused
  {
    RunOrdered(r);
    PlanIsChain(r.w.s.bucket, b, until);
  }

  // ---------- restoring to an earlier moment ----------

  lemma {:induction false} LaterIgnored(bucket: seq<Prefix>, more: seq<Prefix>, from: nat, until: nat)
    requires forall i :: 0 <= i < |more| ==> more[i].ts > until
    ensures IncrsBetween(bucket + more, from, until) == IncrsBetween(bucket, from, until)
  {
    if more == [] {
      assert bucket + more == bucket;
    } else {
      var init := more[..|more| - 1];
      assert (bucket + more)[..|bucket + more| - 1] == bucket + init;
      LaterIgnored(bucket, init, from, until);
    }
  }

  lemma {:induction false} BucketOnlyGrows(p: Run, r: Run)
    requires Valid(r) && Earlier(p, r)
    ensures Valid(p) && p.w.s.bucket <= r.w.s.bucket
  {
    if p != r {
      BucketOnlyGrows(p, r.before);
      RunOrdered(r.before);
      StepOrdered(r.before.w, r.e, r.w);
    }
  }

  /** The earlier moments of a run are those from which it went on, and its present one. */
  lemma {:induction false} EarlierMoments(p: Run, q: Run, r: Run)
    ensures Earlier(r, r) && (r.Then? ==> Earlier(r.before, r))
    ensures Earlier(p, q) && Earlier(q, r) ==> Earlier(p, r)
    ensures r.Begin? && Earlier(p, r) ==> p == r
  {
    if r.Then? {
      EarlierMoments(p, q, r.before);
    }
  }

  /** A restore up to a moment `until` gives each collection as it was last exported by then, although the bucket
      has grown since. */
  lemma PointInTime(p: Run, r: Run, b: nat, until: nat)
    requires Valid(r) && Earlier(p, r) && NewestFull(p.w.s.bucket, b) && NoOrphan(p.w.s.bucket, b)
    requires forall k :: 0 <= k < |p.w.s.bucket| ==> p.w.s.bucket[k].ts <= until
    requires forall k :: |p.w.s.bucket| <= k < |r.w.s.bucket| ==> r.w.s.bucket[k].ts > until
    ensures b < |r.w.s.bucket|
    ensures var plan := PlanSteps(r.w.s.bucket, b, until);
            plan.Steps? && forall n :: Restored(plan.manifests, n) == CollAt(p.w.snap, n) <==> LastCaught(p, n)
  {
    BucketOnlyGrows(p, r);
    var early, late := p.w.s.bucket, r.w.s.bucket;
    assert late == early + late[|early|..];
    SamePlan(early, late[|early|..], b, until);
    RoundTrip(p, b, until);
  }

  lemma SamePlan(bucket: seq<Prefix>, more: seq<Prefix>, b: nat, until: nat)
    requires b < |bucket| && forall i :: 0 <= i < |more| ==> more[i].ts > until
    ensures PlanSteps(bucket + more, b, until) == PlanSteps(bucket, b, until)
  {
    LaterIgnored(bucket, more, bucket[b].ts, until);
  }
}
