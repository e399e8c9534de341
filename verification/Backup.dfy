/** Full and incremental backups of one tenant: one attempt, with the failures it can meet. */
module Backup {
  import opened ObjectIds

  datatype Kind = Full | Incr

  /** One directory in the bucket. The manifest is uploaded last, so an interrupted upload has none. */
  datatype Prefix = Prefix(ts: nat, kind: Kind, manifest: Manifest)
  datatype Manifest = NoManifest | Manifest(collections: View)

  datatype LastFull = Never | Hashes(content: View)

  datatype State = State(bucket: seq<Prefix>, last: LastFull, wm: map<Name, Oid>)

  /** How an attempt ends: completed, or failed before the first file reached the bucket, before the manifest did, or between
      the manifest and the saved state. */
  datatype End = Completes | FailsEarly | FailsUploading | FailsSaving

  datatype Status = Uploaded | Skipped | Failed | Unsaved

  // ---------- one collection ----------

  predicate HasNew(c: Coll, wm: map<Name, Oid>, name: Name) {
    if name in wm then exists x :: x in c && Lt(wm[name], x) else c != map[]
  }

  /** What an incremental reads: everything without a watermark, otherwise from the overlap point on. */
  function Since(c: Coll, wm: map<Name, Oid>, name: Name): Coll {
    if name in wm then From(c, Back(wm[name])) else c
  }

  datatype Export = Export(docs: Coll, count: nat, last: LastId)
  datatype LastId = NoId | LastId(id: Oid)

  method ExportCollection(c: Coll) returns (ex: Export)
    ensures ex.docs == c && ex.count == |c|
    ensures if c == map[] then ex.last == NoId else ex.last.LastId? && IsLast(c, ex.last.id)
  {
    var ids := ReadSorted(c);
    var docs: Coll, count, last := map[], 0, NoId;
    for i := 0 to |ids|
      invariant count == i
      invariant forall x :: x in docs <==> x in ids[..i]
      invariant forall x :: x in docs ==> x in c && docs[x] == c[x]
      invariant if i == 0 then last == NoId else last == LastId(ids[i - 1])
    {
      docs := docs[ids[i] := c[ids[i]]];
      count, last := count + 1, LastId(ids[i]);
    }
    assert ids[..|ids|] == ids;
    assert docs.Keys == c.Keys;
    if c == map[] {
      assert ids == [];
    } else {
      LastOfSorted(c, ids);
    }
    ex := Export(docs, count, last);
  }

  lemma LastOfSorted(c: Coll, ids: seq<Oid>)
    requires c != map[] && forall x :: x in ids <==> x in c
    requires forall i, j :: 0 <= i < j < |ids| ==> Lt(ids[i], ids[j])
    ensures ids != [] && IsLast(c, ids[|ids| - 1])
  {
    var x :| x in c;
    assert x in ids;
    forall y | y in c
      ensures !Lt(ids[|ids| - 1], y)
    {
      var j :| 0 <= j < |ids| && ids[j] == y;
    }
  }

  // ---------- one backup ----------

  predicate Due(wm: map<Name, Oid>, probe: View, n: Name) {
    AppendOnly(n) && HasNew(CollAt(probe, n), wm, n)
  }

  /** `probe` and `seen` are the database when each collection is looked at and when it is read out. */
  function IncrFiles(wm: map<Name, Oid>, probe: View, seen: View): (r: View)
    ensures forall n :: n in r <==> Due(wm, probe, n)
    ensures forall n :: n in r ==> r[n] == Since(CollAt(seen, n), wm, n)
  {
    map n | n in AppendOnlyNames() && Due(wm, probe, n) :: Since(CollAt(seen, n), wm, n)
  }

  function FullFiles(seen: View): (r: View)
    ensures forall n :: n in r <==> Covered(n)
    ensures forall n :: n in r ==> r[n] == CollAt(seen, n)
  {
    map n | n in CoveredNames() :: CollAt(seen, n)
  }

  /** How a backup moves one collection's watermark. */
  ghost predicate Moved(wm: map<Name, Oid>, files: View, wm': map<Name, Oid>, full: bool, n: Name) {
    if n in files && AppendOnly(n) && files[n] != map[] then n in wm' && IsLast(files[n], wm'[n])
    else if n in files && AppendOnly(n) && !full then n !in wm'
    else (n in wm' <==> n in wm) && (n in wm ==> wm'[n] == wm[n])
  }

  ghost predicate Advanced(wm: map<Name, Oid>, files: View, wm': map<Name, Oid>, full: bool) {
    forall n :: Moved(wm, files, wm', full, n)
  }

  /** `stale`: the last full is old enough to be repeated although nothing changed. */
  function WouldSkip(s: State, kind: Kind, probe: View, seen: View, force: bool, stale: bool): bool {
    if kind.Incr? && s.last.Hashes? then IncrFiles(s.wm, probe, seen) == map[]
    else kind.Full? && !force && s.last == Hashes(FullFiles(seen)) && !stale
  }

  function EffectiveKind(s: State, kind: Kind): Kind {
    if s.last.Never? then Full else kind
  }

  function Files(s: State, kind: Kind, probe: View, seen: View): View {
    if EffectiveKind(s, kind).Incr? then IncrFiles(s.wm, probe, seen) else FullFiles(seen)
  }

  /** What one attempt leaves, the watermarks aside. */
  ghost predicate Attempt(s: State, kind: Kind, ts: nat, probe: View, seen: View, force: bool, stale: bool, end: End,
                          s': State, status: Status) {
    var k, files := EffectiveKind(s, kind), Files(s, kind, probe, seen);
    if end == FailsEarly then s' == s && status == Failed
    else if WouldSkip(s, kind, probe, seen, force, stale) then s' == s && status == Skipped
    else if end == FailsUploading then
      s' == s.(bucket := s.bucket + [Prefix(ts, k, NoManifest)]) && status == Failed
    else if end == FailsSaving then
      s' == s.(bucket := s.bucket + [Prefix(ts, k, Manifest(files))]) && status == Unsaved
    else
      && s'.bucket == s.bucket + [Prefix(ts, k, Manifest(files))]
      && s'.last == (if k.Full? then Hashes(files) else s.last)
      && Advanced(s.wm, files, s'.wm, k.Full?)
      && status == Uploaded
  }

  class Engine {
    var bucket: seq<Prefix>
    var last: LastFull
    var wm: map<Name, Oid>

    constructor ()
      ensures Now() == State([], Never, map[])
    {
      bucket, last, wm := [], Never, map[];
    }

    function Now(): State
      reads this
    {
      State(bucket, last, wm)
    }

    method ExportIncr(probe: View, seen: View) returns (files: View, wm': map<Name, Oid>)
      ensures files == IncrFiles(wm, probe, seen) && Advanced(wm, files, wm', false)
    {
      files, wm' := map[], wm;
      var todo := AppendOnlyNames();
      while todo != {}
        invariant todo <= AppendOnlyNames()
        invariant forall n :: n in files <==> n !in todo && Due(wm, probe, n)
        invariant forall n :: n in files ==> files[n] == Since(CollAt(seen, n), wm, n)
        invariant Advanced(wm, files, wm', false)
        decreases todo
      {
        var n :| n in todo;
        todo := todo - {n};
        ghost var files0, wm0 := files, wm';
        if Due(wm, probe, n) {
          var ex := ExportCollection(Since(CollAt(seen, n), wm, n));
          files := files[n := ex.docs];
          wm' := if ex.last.LastId? then wm'[n := ex.last.id] else wm' - {n};
        }
        forall m
          ensures Moved(wm, files, wm', false, m)
        {
          assert Moved(wm, files0, wm0, false, m);
        }
      }
    }

    method ExportFull(seen: View) returns (files: View, wm': map<Name, Oid>)
      ensures files == FullFiles(seen) && Advanced(wm, files, wm', true)
    {
      files, wm' := map[], wm;
      var todo := CoveredNames();
      while todo != {}
        invariant todo <= CoveredNames()
        invariant forall n :: n in files <==> n !in todo && Covered(n)
        invariant forall n :: n in files ==> files[n] == CollAt(seen, n)
        invariant Advanced(wm, files, wm', true)
        decreases todo
      {
        var n :| n in todo;
        todo := todo - {n};
        ghost var files0, wm0 := files, wm';
        var ex := ExportCollection(CollAt(seen, n));
        files := files[n := ex.docs];
        if AppendOnly(n) && ex.last.LastId? {
          wm' := wm'[n := ex.last.id];
        }
        forall m
          ensures Moved(wm, files, wm', true, m)
        {
          assert Moved(wm, files0, wm0, true, m);
        }
      }
    }

    /** The files, the manifest last, and only then the saved state. */
    method Upload(kind: Kind, ts: nat, files: View, wm': map<Name, Oid>, end: End) returns (status: Status)
      requires !end.FailsEarly?
      modifies this
      ensures bucket == old(bucket) + [Prefix(ts, kind, if end.FailsUploading? then NoManifest else Manifest(files))]
      ensures if end.Completes? then wm == wm' && last == (if kind.Full? then Hashes(files) else old(last))
              else wm == old(wm) && last == old(last)
      ensures status == if end.Completes? then Uploaded else if end.FailsSaving? then Unsaved else Failed
    {
      if end == FailsUploading {
        bucket := bucket + [Prefix(ts, kind, NoManifest)];
        return Failed;
      }
      bucket := bucket + [Prefix(ts, kind, Manifest(files))];
      if end == FailsSaving {
        return Unsaved;
      }
      wm := wm';
      if kind.Full? {
        last := Hashes(files);
      }
      status := Uploaded;
    }

    method BackupTenant(kind: Kind, ts: nat, probe: View, seen: View, force: bool, stale: bool, end: End)
      returns (status: Status)
      modifies this
      ensures Attempt(old(Now()), kind, ts, probe, seen, force, stale, end, Now(), status)
      decreases if kind.Incr? then 1 else 0
    {
      if end == FailsEarly {
        return Failed;
      }
      var files: View, wm': map<Name, Oid>;
      if kind.Incr? {
        if last.Never? {
          status := BackupTenant(Full, ts, probe, seen, force, stale, end);
          return;
        }
        files, wm' := ExportIncr(probe, seen);
        if files == map[] {
          return Skipped;
        }
      } else {
        files, wm' := ExportFull(seen);
        if !force && last == Hashes(files) && !stale {
          return Skipped;
        }
      }
      status := Upload(kind, ts, files, wm', end);
    }
  }

  /** Without a recorded full an attempt that is not skipped uploads one, whatever was asked for. A failed one leaves the
      record and the watermarks, and of the bucket all, or a directory without a manifest behind it, or one that is
      complete. */
  lemma AttemptLeaves(s: State, kind: Kind, ts: nat, probe: View, seen: View, force: bool, stale: bool, end: End, s': State,
                      status: Status)
    requires Attempt(s, kind, ts, probe, seen, force, stale, end, s', status) && status != Skipped
    ensures end != FailsEarly && s.last == Never ==> s'.bucket == s.bucket + [Prefix(ts, Full, s'.bucket[|s.bucket|].manifest)]
    ensures end != Completes ==> s'.last == s.last && s'.wm == s.wm
    ensures end == FailsEarly ==> s'.bucket == s.bucket
    ensures end == FailsUploading ==> |s'.bucket| == |s.bucket| + 1 && s'.bucket[|s.bucket|].manifest == NoManifest
    ensures end == FailsSaving || end == Completes ==>
              |s'.bucket| == |s.bucket| + 1 && s'.bucket[|s.bucket|].manifest.Manifest?
    ensures s.bucket <= s'.bucket
    ensures end != FailsEarly ==> s'.bucket[|s.bucket|].ts == ts
  {
  }

  // ---------- when an attempt is skipped ----------

  /** A full backup that reaches its end is skipped if it is neither forced nor due for a fresh copy and every covered
      collection as read is what the last recorded full exported; otherwise it is uploaded. */
  lemma FullSkippedIff(s: State, ts: nat, probe: View, seen: View, force: bool, stale: bool, s': State, status: Status)
    requires Attempt(s, Full, ts, probe, seen, force, stale, Completes, s', status)
    requires s.last.Hashes? ==> forall n: Name :: n in s.last.content <==> !n.Other?
    ensures status.Skipped? || status.Uploaded?
    ensures status.Skipped? <==> !force && !stale && s.last.Hashes?
                                 && forall n: Name :: !n.Other? ==> s.last.content[n] == CollAt(seen, n)
    ensures status.Skipped? ==> s' == s
    ensures status.Uploaded? ==> s'.last.Hashes? && forall n: Name :: !n.Other? ==>
              n in s'.last.content && s'.last.content[n] == CollAt(seen, n)
  {
    var files := FullFiles(seen);
    if s.last.Hashes? && forall n: Name :: !n.Other? ==> s.last.content[n] == CollAt(seen, n) {
      assert s.last.content == files;
    }
  }

  /** An incremental backup with a full one to build on is skipped if no append-only collection has an id beyond its watermark, or
      any document where there is none; otherwise it is uploaded. */
  lemma IncrSkippedIff(s: State, ts: nat, probe: View, seen: View, force: bool, stale: bool, s': State, status: Status)
    requires Attempt(s, Incr, ts, probe, seen, force, stale, Completes, s', status) && s.last.Hashes?
    ensures status.Skipped? || status.Uploaded?
    ensures status.Skipped? <==>
              forall n: Name, x :: n.Appended? && x in CollAt(probe, n) ==>
                n in s.wm && (x.sec < s.wm[n].sec || (x.sec == s.wm[n].sec && x.rest <= s.wm[n].rest))
    ensures status.Skipped? ==> s' == s
  {
    var files := IncrFiles(s.wm, probe, seen);
    if files != map[] {
      var n :| n in files;
      assert Due(s.wm, probe, n);
      if n in s.wm {
        var x :| x in CollAt(probe, n) && Lt(s.wm[n], x);
      } else {
        var x :| x in CollAt(probe, n);
      }
    } else {
      forall n: Name, x | n.Appended? && x in CollAt(probe, n)
        ensures n in s.wm && !Lt(s.wm[n], x)
      {
        assert n !in files;
      }
    }
  }
}
