/** From a run of backups to the restored database: the chain that a plan lists, streamed into a tenant's collections. */
module BackupRestore {
  import opened ObjectIds
  import opened BackupLogs
  import Backup
  import BackupRuns
  import P = RestorePlan
  import O = RestoreOrders
  import R = Restore

  /** How documents are written down: the name of each collection, the text of an id, and the owner. */
  datatype Coding = Coding(key: Name -> P.Name, hex: Oid -> string, orgId: string)

  ghost predicate Faithful(c: Coding) {
    && (forall n, m :: c.key(n) == c.key(m) ==> n == m)
    && (forall x, y :: c.hex(x) == c.hex(y) ==> x == y)
    && (forall n :: c.key(n).Tenant? || c.key(n).SmsUsage?)
  }

  function Coded(c: Coding, x: Oid, body: string): P.Doc {
    P.Doc(c.hex(x), c.orgId, P.OrDefault(c.orgId), body)
  }

  function CodedColl(c: Coding, coll: Coll): P.Coll
    requires Faithful(c)
  {
    map x | x in coll :: c.hex(x) := Coded(c, x, coll[x])
  }

  // ---------- the stream of a chain ----------

  predicate IsItem(c: Coding, i: P.Item, m: View, n: Name, x: Oid) {
    x in CollAt(m, n) && i == (c.key(n), Coded(c, x, CollAt(m, n)[x]))
  }

  ghost predicate InManifest(c: Coding, i: P.Item, m: View) {
    exists n, x :: IsItem(c, i, m, n, x)
  }

  /** The files of one manifest hold its documents and no others, in any order. */
  ghost predicate CarriesOne(c: Coding, part: seq<P.Item>, m: View) {
    forall i :: i in part <==> InManifest(c, i, m)
  }

  /** The files of the manifests, one after the other. */
  ghost predicate Carries(c: Coding, items: seq<P.Item>, ms: seq<View>)
    decreases |ms|
  {
    if ms == [] then items == []
    else
      exists k | 0 <= k <= |items| ::
        Carries(c, items[..k], ms[..|ms| - 1]) && CarriesOne(c, items[k..], ms[|ms| - 1])
  }

  /** A document of the manifest is written down under its collection, its id and its owner. */
  lemma ItemIff(c: Coding, i: P.Item, m: View, n: Name, x: Oid)
    ensures IsItem(c, i, m, n, x)
            <==> && n in m && x in m[n] && i.0 == c.key(n) && i.1.id == c.hex(x) && i.1.orgId == c.orgId
                 && i.1.orgKey == P.OrDefault(c.orgId) && i.1.body == m[n][x]
  {
    assert i == (i.0, i.1);
  }

  lemma {:induction false} DocsIff(items: seq<P.Item>, n: P.Name, d: P.Doc)
    ensures d in P.DocsOf(items, n) <==> (n, d) in items
  {
    if items != [] {
      DocsIff(items[..|items| - 1], n, d);
    }
  }

  lemma OneCoded(c: Coding, part: seq<P.Item>, m: View, n: Name)
    requires Faithful(c) && CarriesOne(c, part, m)
    ensures P.Fold(map[], P.DocsOf(part, c.key(n))) == CodedColl(c, CollAt(m, n))
    ensures forall d :: d in P.DocsOf(part, c.key(n)) ==> InColl(c, d, CollAt(m, n))
  {
    var docs, coll := P.DocsOf(part, c.key(n)), CollAt(m, n);
    P.FoldKeys(docs);
    forall d | d in docs
      ensures InColl(c, d, coll)
    {
      DocsIff(part, c.key(n), d);
      var i := (c.key(n), d);
      assert InManifest(c, i, m);
      var n', x :| IsItem(c, i, m, n', x);
      assert IsCoded(c, d, coll, x);
    }
    forall x | x in coll
      ensures Coded(c, x, coll[x]) in docs
    {
      assert IsItem(c, (c.key(n), Coded(c, x, coll[x])), m, n, x);
      DocsIff(part, c.key(n), Coded(c, x, coll[x]));
    }
    FoldIsCoded(c, docs, coll);
  }

  predicate IsCoded(c: Coding, d: P.Doc, coll: Coll, x: Oid) {
    x in coll && d == Coded(c, x, coll[x])
  }

  ghost predicate InColl(c: Coding, d: P.Doc, coll: Coll) {
    exists x :: IsCoded(c, d, coll, x)
  }

  lemma FoldIsCoded(c: Coding, docs: seq<P.Doc>, coll: Coll)
    requires Faithful(c)
    requires forall d :: d in docs ==> InColl(c, d, coll)
    requires forall x :: x in coll ==> Coded(c, x, coll[x]) in docs
    ensures P.Fold(map[], docs) == CodedColl(c, coll)
  {
    P.FoldKeys(docs);
    var got, want := P.Fold(map[], docs), CodedColl(c, coll);
    forall id | id in got
      ensures id in want && want[id] == got[id]
    {
      assert InColl(c, got[id], coll);
    }
    forall id | id in want
      ensures id in got
    {
      var x :| x in coll && c.hex(x) == id;
      assert Coded(c, x, coll[x]) in docs;
    }
  }

  lemma CodedAt(c: Coding, coll: Coll, x: Oid)
    requires Faithful(c)
    ensures c.hex(x) in CodedColl(c, coll) <==> x in coll
    ensures x in coll ==> CodedColl(c, coll)[c.hex(x)] == Coded(c, x, coll[x])
  {
  }

  lemma CodedFrom(c: Coding, coll: Coll, id: string) returns (x: Oid)
    requires Faithful(c) && id in CodedColl(c, coll)
    ensures x in coll && c.hex(x) == id
  {
    x :| x in coll && c.hex(x) == id;
  }

  lemma CodedMergeAt(c: Coding, a: Coll, b: Coll, x: Oid)
    requires Faithful(c)
    ensures var both, want, id := CodedColl(c, a + b), CodedColl(c, a) + CodedColl(c, b), c.hex(x);
            (id in both <==> id in want) && (id in both ==> both[id] == want[id])
  {
    CodedAt(c, a, x);
    CodedAt(c, b, x);
    CodedAt(c, a + b, x);
  }

  lemma CodedMerge(c: Coding, a: Coll, b: Coll)
    requires Faithful(c)
    ensures CodedColl(c, a + b) == CodedColl(c, a) + CodedColl(c, b)
  {
    var both, want := CodedColl(c, a + b), CodedColl(c, a) + CodedColl(c, b);
    forall id | id in both
      ensures id in want && want[id] == both[id]
    {
      var x := CodedFrom(c, a + b, id);
      CodedMergeAt(c, a, b, x);
    }
    forall id | id in want
      ensures id in both
    {
      var x;
      if id in CodedColl(c, b) {
        x := CodedFrom(c, b, id);
      } else {
        x := CodedFrom(c, a, id);
      }
      CodedMergeAt(c, a, b, x);
    }
  }

  ghost predicate Merges(c: Coding, items: seq<P.Item>, ms: seq<View>, n: Name)
    requires Faithful(c)
  {
    var docs := P.DocsOf(items, c.key(n));
    && P.Fold(map[], docs) == CodedColl(c, BackupRuns.Restored(ms, n))
    && (forall d :: d in docs ==> InSome(c, d, ms, n))
  }

  /** Merging the stream is merging the manifests. */
  lemma {:induction false} StreamMerges(c: Coding, items: seq<P.Item>, ms: seq<View>, n: Name)
    requires Faithful(c) && Carries(c, items, ms)
    ensures Merges(c, items, ms, n)
    decreases |ms|
  {
    if ms == [] {
      NothingMerges(c, n);
    } else {
      var k := LastPart(c, items, ms);
      StreamMerges(c, items[..k], ms[..|ms| - 1], n);
      MergesMore(c, items[..k], items[k..], ms[..|ms| - 1], ms[|ms| - 1], n);
    }
  }

  lemma NothingMerges(c: Coding, n: Name)
    requires Faithful(c)
    ensures Merges(c, [], [], n)
  {
  }

  lemma LastPart(c: Coding, items: seq<P.Item>, ms: seq<View>) returns (k: nat)
    requires ms != [] && Carries(c, items, ms)
    ensures k <= |items| && Carries(c, items[..k], ms[..|ms| - 1]) && CarriesOne(c, items[k..], ms[|ms| - 1])
    ensures items[..k] + items[k..] == items && ms[..|ms| - 1] + [ms[|ms| - 1]] == ms
  {
    k :| 0 <= k <= |items| && Carries(c, items[..k], ms[..|ms| - 1]) && CarriesOne(c, items[k..], ms[|ms| - 1]);
  }

  lemma MergesMore(c: Coding, items: seq<P.Item>, part: seq<P.Item>, ms: seq<View>, m: View, n: Name)
    requires Faithful(c) && Merges(c, items, ms, n) && CarriesOne(c, part, m)
    ensures Merges(c, items + part, ms + [m], n)
  {
    var xs, ys := P.DocsOf(items, c.key(n)), P.DocsOf(part, c.key(n));
    OneCoded(c, part, m, n);
    P.DocsConcat(items, part, c.key(n));
    MergeDocs(c, xs, ys, BackupRuns.Restored(ms, n), CollAt(m, n));
    BackupRuns.RestoredMore(ms, m, n);
    SomeMore(c, xs, ys, ms, m, n);
  }

  /** A document of one of the manifests. */
  ghost predicate InSome(c: Coding, d: P.Doc, ms: seq<View>, n: Name) {
    exists k :: 0 <= k < |ms| && InColl(c, d, CollAt(ms[k], n))
  }

  lemma MergeDocs(c: Coding, xs: seq<P.Doc>, ys: seq<P.Doc>, a: Coll, b: Coll)
    requires Faithful(c)
    requires P.Fold(map[], xs) == CodedColl(c, a) && P.Fold(map[], ys) == CodedColl(c, b)
    ensures P.Fold(map[], xs + ys) == CodedColl(c, a + b)
  {
    P.FoldConcat(map[], xs, ys);
    P.FoldOver(P.Fold(map[], xs), ys);
    CodedMerge(c, a, b);
  }

  lemma SomeMore(c: Coding, xs: seq<P.Doc>, ys: seq<P.Doc>, ms: seq<View>, m: View, n: Name)
    requires forall d :: d in xs ==> InSome(c, d, ms, n)
    requires forall d :: d in ys ==> InColl(c, d, CollAt(m, n))
    ensures forall d :: d in xs + ys ==> InSome(c, d, ms + [m], n)
  {
    forall d | d in xs + ys
      ensures InSome(c, d, ms + [m], n)
    {
      if d in xs {
        var j :| 0 <= j < |ms| && InColl(c, d, CollAt(ms[j], n));
        assert (ms + [m])[j] == ms[j];
      } else {
        assert (ms + [m])[|ms|] == m;
      }
    }
  }

  lemma {:induction false} StreamOwned(c: Coding, items: seq<P.Item>, ms: seq<View>)
    requires Faithful(c) && Carries(c, items, ms)
    ensures P.AllOwned(items, c.orgId, c.orgId)
    decreases |ms|
  {
    if ms != [] {
      var k := LastPart(c, items, ms);
      StreamOwned(c, items[..k], ms[..|ms| - 1]);
      forall i | 0 <= i < |items|
        ensures P.AssertOwned(items[i].0, items[i].1, c.orgId, c.orgId)
      {
        if i < k {
          assert items[..k][i] == items[i];
        } else {
          assert items[k..][i - k] == items[i];
          assert InManifest(c, items[i], ms[|ms| - 1]);
        }
      }
    }
  }

  // ---------- what the chain holds ----------

  /** Each manifest of a chain holds documents of the collection as last exported, and in that version. */
  ghost predicate ChainWithin(ms: seq<View>, snap: Coll, n: Name) {
    forall k :: 0 <= k < |ms| ==> SubColl(CollAt(ms[k], n), snap)
  }

  lemma ChainGrows(ms: seq<View>, m: View, snap: Coll, snap': Coll, n: Name)
    requires ChainWithin(ms, snap, n) && SubColl(snap, snap') && SubColl(CollAt(m, n), snap')
    ensures ChainWithin(ms, snap', n) && ChainWithin(ms + [m], snap', n) && ChainWithin([m], snap', n)
  {
  }

  lemma StepWithin(w: BackupRuns.World, e: BackupRuns.Event, w': BackupRuns.World, n: Name)
    requires BackupRuns.Step(w, e, w') && Covered(n)
    requires ChainWithin(BackupRuns.Chain(w.s.bucket), CollAt(w.snap, n), n)
    requires AppendOnly(n) ==> SubColl(CollAt(w.snap, n), CollAt(e.seen, n))
    ensures ChainWithin(BackupRuns.Chain(w'.s.bucket), CollAt(w'.snap, n), n)
  {
    BackupRuns.StepChain(w, e, w', n);
    var k, files := Backup.EffectiveKind(w.s, e.kind), Backup.Files(w.s, e.kind, e.probe, e.seen);
    var snap, snap' := CollAt(w.snap, n), CollAt(w'.snap, n);
    var chain := BackupRuns.Chain(w.s.bucket);
    if BackupRuns.Finished(e) {
      assert w'.s.bucket == w.s.bucket + [Backup.Prefix(e.ts, k, Backup.Manifest(files))];
      BackupRuns.ChainMore(w.s.bucket, Backup.Prefix(e.ts, k, Backup.Manifest(files)));
      if k.Full? {
        JustOne(files, snap', n);
      } else {
        IncrWithin(w, e, n);
        ChainGrows(chain, files, snap, snap', n);
      }
    } else {
      assert w'.s.bucket == w.s.bucket || w'.s.bucket == w.s.bucket + [Backup.Prefix(e.ts, k, Backup.NoManifest)];
      BackupRuns.ChainMore(w.s.bucket, Backup.Prefix(e.ts, k, Backup.NoManifest));
    }
  }

  lemma JustOne(m: View, snap: Coll, n: Name)
    requires SubColl(CollAt(m, n), snap)
    ensures ChainWithin([m], snap, n)
  {
  }

  lemma IncrWithin(w: BackupRuns.World, e: BackupRuns.Event, n: Name)
    requires BackupRuns.Finished(e) && Backup.EffectiveKind(w.s, e.kind).Incr?
    requires AppendOnly(n) ==> SubColl(CollAt(w.snap, n), CollAt(e.seen, n))
    ensures var files := CollAt(Backup.Files(w.s, e.kind, e.probe, e.seen), n);
            if BackupRuns.ExportsIncr(w, e, n) then SubColl(files, CollAt(e.seen, n)) else files == map[]
  {
  }

  lemma {:induction false} RunWithin(r: BackupRuns.Run, n: Name)
    requires BackupRuns.Valid(r) && Covered(n) && (AppendOnly(n) ==> BackupRuns.OnlyGrows(r, n))
    ensures ChainWithin(BackupRuns.Chain(r.w.s.bucket), CollAt(r.w.snap, n), n)
  {
    if r.Then? {
      RunWithin(r.before, n);
      if AppendOnly(n) {
        BackupRuns.RunKeeps(r.before, n);
        BackupRuns.GrowthFollows(r.before.w, r.e, r.w, n);
      }
      StepWithin(r.before.w, r.e, r.w, n);
    }
  }

  lemma StreamAgrees(c: Coding, docs: seq<P.Doc>, ms: seq<View>, snap: Coll, n: Name)
    requires Faithful(c) && ChainWithin(ms, snap, n)
    requires forall d :: d in docs ==> InSome(c, d, ms, n)
    ensures O.Agreeing(docs)
  {
    forall d | d in docs
      ensures InColl(c, d, snap)
    {
      var k :| 0 <= k < |ms| && InColl(c, d, CollAt(ms[k], n));
      var x :| IsCoded(c, d, CollAt(ms[k], n), x);
      assert SubColl(CollAt(ms[k], n), snap);
      assert IsCoded(c, d, snap, x);
    }
    forall d, e | d in docs && e in docs && d.id == e.id
      ensures d == e
    {
      assert InColl(c, d, snap) && InColl(c, e, snap);
    }
  }

  // ---------- backup, restore, and what is then there ----------

  /** The tenant's documents of collection `n` are those of `snap`, and nobody else's document has changed. */
  ghost predicate AsExported(c: Coding, was: P.Coll, now: P.Coll, snap: Coll, n: Name)
    requires Faithful(c)
  {
    && P.Unowned(now, c.key(n), c.orgId) == P.Unowned(was, c.key(n), c.orgId)
    && R.Owned(now, c.key(n), c.orgId) == CodedColl(c, snap)
  }

  /** The same, but that the tenant's documents stay where the export was empty. */
  ghost predicate GivenBack(c: Coding, was: P.Coll, now: P.Coll, snap: Coll, n: Name)
    requires Faithful(c)
  {
    && P.Unowned(now, c.key(n), c.orgId) == P.Unowned(was, c.key(n), c.orgId)
    && R.Owned(now, c.key(n), c.orgId) == if snap == map[] then R.Owned(was, c.key(n), c.orgId) else CodedColl(c, snap)
  }

  /** The items are those of the newest complete chain, planned at a moment when no later upload was left unfinished. */
  ghost predicate Streams(c: Coding, r: BackupRuns.Run, b: nat, until: nat, items: seq<P.Item>) {
    && BackupRuns.Valid(r) && BackupRuns.NewestFull(r.w.s.bucket, b) && BackupRuns.NoOrphan(r.w.s.bucket, b)
    && (forall i :: 0 <= i < |r.w.s.bucket| ==> r.w.s.bucket[i].ts <= until)
    && var plan := BackupRuns.PlanSteps(r.w.s.bucket, b, until);
       plan.Steps? ==> Carries(c, items, plan.manifests)
  }

  lemma {:induction false} Listed<T>(s: set<T>) returns (r: seq<T>)
    ensures forall x :: x in r <==> x in s
    decreases s
  {
    if s == {} {
      r := [];
    } else {
      var x :| x in s;
      r := Listed(s - {x});
      r := r + [x];
    }
  }

  lemma OneCarried(c: Coding, m: View) returns (part: seq<P.Item>)
    ensures CarriesOne(c, part, m)
  {
    var all := set n, x | n in m && x in m[n] :: (c.key(n), Coded(c, x, m[n][x]));
    part := Listed(all);
    forall i
      ensures i in part <==> InManifest(c, i, m)
    {
      if n, x :| n in m && x in m[n] && i == (c.key(n), Coded(c, x, m[n][x])) {
        assert IsItem(c, i, m, n, x);
      }
    }
  }

  lemma {:induction false} AllCarried(c: Coding, ms: seq<View>) returns (items: seq<P.Item>)
    ensures Carries(c, items, ms)
    decreases |ms|
  {
    if ms == [] {
      items := [];
    } else {
      var init := AllCarried(c, ms[..|ms| - 1]);
      var part := OneCarried(c, ms[|ms| - 1]);
      items := init + part;
      assert items[..|init|] == init && items[|init|..] == part;
    }
  }

  /** Of every run whose newest complete full no unfinished upload has followed, there is such a stream. */
  lemma AlwaysStreams(c: Coding, r: BackupRuns.Run, b: nat, until: nat) returns (items: seq<P.Item>)
    requires BackupRuns.Valid(r)
    requires b < |r.w.s.bucket| && r.w.s.bucket[b].kind.Full? && r.w.s.bucket[b].manifest.Manifest?
    requires forall i :: b < i < |r.w.s.bucket| ==> (r.w.s.bucket[i].kind.Full? <==> r.w.s.bucket[i].manifest.NoManifest?)
    requires forall i :: 0 <= i < |r.w.s.bucket| ==> r.w.s.bucket[i].ts <= until
    ensures Streams(c, r, b, until, items) && Carries(c, items, BackupRuns.Chain(r.w.s.bucket))
  {
    items := AllCarried(c, BackupRuns.Chain(r.w.s.bucket));
    BackupRuns.PlanIsTheChain(r, b, until);
  }

  lemma StreamsChain(c: Coding, r: BackupRuns.Run, b: nat, until: nat, items: seq<P.Item>)
    requires Streams(c, r, b, until, items)
    ensures Carries(c, items, BackupRuns.Chain(r.w.s.bucket))
  {
    BackupRuns.PlanIsTheChain(r, b, until);
  }

  /** What a restore of the stream in order leaves of a collection. */
  lemma RestoredParts(c: Coding, r: BackupRuns.Run, items: seq<P.Item>, db: P.Db, n: Name)
    requires Faithful(c) && BackupRuns.Valid(r) && Carries(c, items, BackupRuns.Chain(r.w.s.bucket))
    requires R.IdsApart(P.At(db, c.key(n)), c.key(n), items, c.orgId)
    ensures var ms, k := BackupRuns.Chain(r.w.s.bucket), c.key(n);
            var now, chain := P.Restored(db, items, k, c.orgId, true), BackupRuns.Restored(ms, n);
            && P.Unowned(now, k, c.orgId) == P.Unowned(P.At(db, k), k, c.orgId)
            && R.Owned(now, k, c.orgId) == if chain == map[] then R.Owned(P.At(db, k), k, c.orgId) else CodedColl(c, chain)
  {
    var ms, k := BackupRuns.Chain(r.w.s.bucket), c.key(n);
    StreamMerges(c, items, ms, n);
    StreamOwned(c, items, ms);
    R.TenantReplaced(db, items, k, c.orgId, c.orgId);
    P.MergedAt(items, k);
    P.NamesHaveDocs(items, k);
    NoneIfEmpty(c, P.DocsOf(items, k), BackupRuns.Restored(ms, n));
  }

  lemma NoneIfEmpty(c: Coding, docs: seq<P.Doc>, coll: Coll)
    requires Faithful(c) && P.Fold(map[], docs) == CodedColl(c, coll)
    ensures docs == [] <==> coll == map[]
  {
    P.FoldKeys(docs);
    if docs != [] {
      assert docs[0].id in CodedColl(c, coll);
    }
    if x :| x in coll {
      assert c.hex(x) in CodedColl(c, coll);
    }
  }

  lemma CodedInjective(c: Coding, a: Coll, b: Coll)
    requires Faithful(c) && CodedColl(c, a) == CodedColl(c, b)
    ensures a == b
  {
    forall x
      ensures x in a <==> x in b
      ensures x in a ==> a[x] == b[x]
    {
      CodedAt(c, a, x);
      CodedAt(c, b, x);
    }
  }

  /** The owned and the unowned documents make up the collection. */
  lemma PartsDetermine(a: P.Coll, b: P.Coll, k: P.Name, orgId: string)
    requires P.Unowned(a, k, orgId) == P.Unowned(b, k, orgId) && R.Owned(a, k, orgId) == R.Owned(b, k, orgId)
    ensures a == b
  {
    assert a == P.Unowned(a, k, orgId) + R.Owned(a, k, orgId);
    assert b == P.Unowned(b, k, orgId) + R.Owned(b, k, orgId);
  }

  /** Whatever database the stream is written into, with ids unlike those of anybody else, and in whatever order its bulks
      land, the collection is as exported afterwards. */
  ghost predicate AlwaysBack(c: Coding, r: BackupRuns.Run, items: seq<P.Item>, size: nat, n: Name)
    requires Faithful(c) && size > 0
  {
    forall db, now ::
      && R.IdsApart(P.At(db, c.key(n)), c.key(n), items, c.orgId)
      && O.Ends(R.Base(db, items, c.key(n), c.orgId, true), O.Batches(items, size), c.key(n), now)
      ==> AsExported(c, P.At(db, c.key(n)), now, CollAt(r.w.snap, n), n)
  }

  /** Backup and restore end to end. After any run of backups, streaming the newest complete chain gives a tenant's collection
      back as last exported, in any database and any order of the bulks, if and only if that export was caught up with, no
      batch holds two versions of a document that no later batch holds again, and the export was not empty. */
  lemma RestoredBackIff(c: Coding, r: BackupRuns.Run, b: nat, until: nat, items: seq<P.Item>, size: nat, n: Name)
    requires Faithful(c) && size > 0 && Streams(c, r, b, until, items)
    ensures AlwaysBack(c, r, items, size, n)
            <==> BackupRuns.LastCaught(r, n) && O.Settled(O.Batches(items, size), c.key(n)) && CollAt(r.w.snap, n) != map[]
  {
    StreamsChain(c, r, b, until, items);
    BackupRuns.CaughtIff(r, n);
    if BackupRuns.LastCaught(r, n) && O.Settled(O.Batches(items, size), c.key(n)) && CollAt(r.w.snap, n) != map[] {
      forall db, now |
        && R.IdsApart(P.At(db, c.key(n)), c.key(n), items, c.orgId)
        && O.Ends(R.Base(db, items, c.key(n), c.orgId, true), O.Batches(items, size), c.key(n), now)
        ensures AsExported(c, P.At(db, c.key(n)), now, CollAt(r.w.snap, n), n)
      {
        CaughtComesBack(c, r, items, size, n, db, now);
      }
    }
    if AlwaysBack(c, r, items, size, n) {
      BackIsCaught(c, r, items, size, n);
      BackIsSettled(c, r, items, size, n);
    }
  }

  lemma CaughtComesBack(c: Coding, r: BackupRuns.Run, items: seq<P.Item>, size: nat, n: Name, db: P.Db, now: P.Coll)
    requires Faithful(c) && size > 0 && BackupRuns.Valid(r) && Carries(c, items, BackupRuns.Chain(r.w.s.bucket))
    requires BackupRuns.LastCaught(r, n) && O.Settled(O.Batches(items, size), c.key(n))
    requires R.IdsApart(P.At(db, c.key(n)), c.key(n), items, c.orgId)
    requires O.Ends(R.Base(db, items, c.key(n), c.orgId, true), O.Batches(items, size), c.key(n), now)
    ensures GivenBack(c, P.At(db, c.key(n)), now, CollAt(r.w.snap, n), n)
  {
    BackupRuns.CaughtIff(r, n);
    RestoredParts(c, r, items, db, n);
    R.StreamRestoresIff(db, items, size, c.key(n), c.orgId, true);
  }

  /** The stream in order is one of the outcomes. */
  lemma InOrderEnds(c: Coding, items: seq<P.Item>, size: nat, n: Name, db: P.Db)
    requires Faithful(c) && size > 0
    ensures O.Ends(R.Base(db, items, c.key(n), c.orgId, true), O.Batches(items, size), c.key(n),
                   P.Restored(db, items, c.key(n), c.orgId, true))
  {
    var k := c.key(n);
    O.BatchesCarry(items, size);
    O.EndsInOrder(R.Base(db, items, k, c.orgId, true), O.Batches(items, size), k);
    R.RestoredOnBase(db, items, k, c.orgId, true);
  }

  lemma InOrderIsBack(c: Coding, r: BackupRuns.Run, items: seq<P.Item>, size: nat, n: Name, db: P.Db)
    requires Faithful(c) && size > 0 && AlwaysBack(c, r, items, size, n)
    requires R.IdsApart(P.At(db, c.key(n)), c.key(n), items, c.orgId)
    ensures AsExported(c, P.At(db, c.key(n)), P.Restored(db, items, c.key(n), c.orgId, true), CollAt(r.w.snap, n), n)
  {
    InOrderEnds(c, items, size, n, db);
  }

  lemma BackIsCaught(c: Coding, r: BackupRuns.Run, items: seq<P.Item>, size: nat, n: Name)
    requires Faithful(c) && size > 0 && BackupRuns.Valid(r) && Carries(c, items, BackupRuns.Chain(r.w.s.bucket))
    requires AlwaysBack(c, r, items, size, n)
    ensures BackupRuns.LastCaught(r, n) && CollAt(r.w.snap, n) != map[]
  {
    var none: P.Db := map[];
    BackupRuns.CaughtIff(r, n);
    InOrderIsBack(c, r, items, size, n, none);
    BackFromNone(c, r, items, n);
    if CollAt(r.w.snap, n) == map[] {
      EmptyStays(c, r, items, size, n);
    }
  }

  lemma BackFromNone(c: Coding, r: BackupRuns.Run, items: seq<P.Item>, n: Name)
    requires Faithful(c) && BackupRuns.Valid(r) && Carries(c, items, BackupRuns.Chain(r.w.s.bucket))
    requires AsExported(c, P.At(map[], c.key(n)), P.Restored(map[], items, c.key(n), c.orgId, true), CollAt(r.w.snap, n), n)
    ensures BackupRuns.Restored(BackupRuns.Chain(r.w.s.bucket), n) == CollAt(r.w.snap, n)
  {
    RestoredParts(c, r, items, map[], n);
    assert R.Owned(map[], c.key(n), c.orgId) == CodedColl(c, map[]);
    CodedInjective(c, BackupRuns.Restored(BackupRuns.Chain(r.w.s.bucket), n), CollAt(r.w.snap, n));
  }

  /** An empty export does not clear what is there. */
  lemma EmptyStays(c: Coding, r: BackupRuns.Run, items: seq<P.Item>, size: nat, n: Name)
    requires Faithful(c) && size > 0 && BackupRuns.Valid(r) && Carries(c, items, BackupRuns.Chain(r.w.s.bucket))
    requires BackupRuns.Restored(BackupRuns.Chain(r.w.s.bucket), n) == map[] && CollAt(r.w.snap, n) == map[]
    ensures !AlwaysBack(c, r, items, size, n)
  {
    var k, d := c.key(n), Coded(c, Oid(0, 0), "");
    var one: P.Coll := map[d.id := d];
    var some: P.Db := map[k := one];
    assert P.Filter(k, c.orgId, d);
    RestoredParts(c, r, items, some, n);
    InOrderEnds(c, items, size, n, some);
    assert d.id in R.Owned(one, k, c.orgId) && d.id !in CodedColl(c, map[]);
    assert !AsExported(c, one, P.Restored(some, items, k, c.orgId, true), map[], n);
  }

  lemma BackIsSettled(c: Coding, r: BackupRuns.Run, items: seq<P.Item>, size: nat, n: Name)
    requires Faithful(c) && size > 0 && AlwaysBack(c, r, items, size, n)
    ensures O.Settled(O.Batches(items, size), c.key(n))
  {
    var k := c.key(n);
    var none: P.Db := map[];
    var base, told := R.Base(none, items, k, c.orgId, true), P.Restored(none, items, k, c.orgId, true);
    InOrderIsBack(c, r, items, size, n, none);
    forall now | O.Ends(base, O.Batches(items, size), k, now)
      ensures now == told
    {
      assert AsExported(c, P.At(none, k), now, CollAt(r.w.snap, n), n);
      PartsDetermine(now, told, k, c.orgId);
    }
    R.StreamRestoresIff(none, items, size, k, c.orgId, true);
  }

  /** A collection that only a full backup carries, or that only grew, is caught up with and settled in every batch size. */
  lemma GrownComesBack(c: Coding, r: BackupRuns.Run, b: nat, until: nat, items: seq<P.Item>, size: nat, n: Name)
    requires Faithful(c) && size > 0 && Streams(c, r, b, until, items)
    requires Covered(n) && (AppendOnly(n) ==> BackupRuns.OnlyGrows(r, n))
    ensures BackupRuns.LastCaught(r, n) && O.Settled(O.Batches(items, size), c.key(n))
  {
    var ms := BackupRuns.Chain(r.w.s.bucket);
    StreamsChain(c, r, b, until, items);
    BackupRuns.GrownCaught(r, n);
    RunWithin(r, n);
    StreamMerges(c, items, ms, n);
    StreamAgrees(c, P.DocsOf(items, c.key(n)), ms, CollAt(r.w.snap, n), n);
    O.BatchesCarry(items, size);
    O.AgreeingSettled(O.Batches(items, size), c.key(n));
  }

  /** The newest complete chain of any run of backups, streamed into any database. */
  method RestoreBackup(db: R.Database, items: seq<P.Item>, orgId: string, size: nat, ghost c: Coding,
                       ghost r: BackupRuns.Run, ghost b: nat, ghost until: nat)
    requires Faithful(c) && c.orgId == orgId && size > 0 && Streams(c, r, b, until, items)
    modifies db
    ensures forall n ::
              && BackupRuns.LastCaught(r, n) && O.Settled(O.Batches(items, size), c.key(n))
              && R.IdsApart(P.At(old(db.colls), c.key(n)), c.key(n), items, orgId)
              ==> GivenBack(c, P.At(old(db.colls), c.key(n)), P.At(db.colls, c.key(n)), CollAt(r.w.snap, n), n)
  {
    ghost var was := db.colls;
    StreamsChain(c, r, b, until, items);
    var ids := R.StreamApply(db, orgId, items, size, true);
    forall n |
      && BackupRuns.LastCaught(r, n) && O.Settled(O.Batches(items, size), c.key(n))
      && R.IdsApart(P.At(was, c.key(n)), c.key(n), items, orgId)
      ensures GivenBack(c, P.At(was, c.key(n)), P.At(db.colls, c.key(n)), CollAt(r.w.snap, n), n)
    {
      CaughtComesBack(c, r, items, size, n, was, P.At(db.colls, c.key(n)));
    }
  }

  // ---------- an entry in two versions ----------

  lemma {:induction false} CarriedIn(c: Coding, items: seq<P.Item>, ms: seq<View>, k: nat, n: Name, x: Oid)
    requires Carries(c, items, ms) && k < |ms| && x in CollAt(ms[k], n)
    ensures (c.key(n), Coded(c, x, CollAt(ms[k], n)[x])) in items
    decreases |ms|
  {
    var i := LastPart(c, items, ms);
    if k < |ms| - 1 {
      assert ms[..|ms| - 1][k] == ms[k];
      CarriedIn(c, items[..i], ms[..|ms| - 1], k, n, x);
    } else {
      assert IsItem(c, (c.key(n), Coded(c, x, CollAt(ms[k], n)[x])), ms[k], n, x);
    }
  }

  /** The chain of two backups between which an edit was undone that is within the overlap. */
  function UndoRun(x: Oid, z: Oid, edit: string, undone: string, undo: string): BackupRuns.Run {
    var c0 := map[x := edit];
    TwoBackups(EDITS, c0, c0, c0, x, map[x := undone, z := undo], z)
  }

  lemma UndoCaught(x: Oid, z: Oid, edit: string, undone: string, undo: string)
    requires Lt(x, z)
    ensures var r := UndoRun(x, z, edit, undone, undo);
            BackupRuns.Valid(r) && BackupRuns.LastCaught(r, EDITS)
  {
    var c0, c1 := map[x := edit], map[x := undone, z := undo];
    UndoMaps(x, z, edit, undone, undo);
    TwoBackupsRestore(EDITS, c0, c0, c0, x, c1, z);
    BackupRuns.CaughtIff(UndoRun(x, z, edit, undone, undo), EDITS);
  }

  lemma UndoMaps(x: Oid, z: Oid, edit: string, undone: string, undo: string)
    requires Lt(x, z)
    ensures var c0, c1 := map[x := edit], map[x := undone, z := undo];
            IsLast(c0, x) && From(c1, Back(x)) == c1 && IsLast(c1, z) && c0 + c1 == c1
  {
    var c0, c1 := map[x := edit], map[x := undone, z := undo];
    assert From(c1, Back(x)).Keys == c1.Keys;
    assert (c0 + c1).Keys == c1.Keys;
  }

  lemma TwoChained(p0: Backup.Prefix, p1: Backup.Prefix)
    requires p0.kind.Full? && p0.manifest.Manifest? && p1.kind.Incr? && p1.manifest.Manifest?
    ensures BackupRuns.Chain([p0, p1]) == [p0.manifest.collections, p1.manifest.collections]
  {
    BackupRuns.ChainMore([], p0);
    BackupRuns.ChainMore([p0], p1);
    assert [] + [p0] == [p0] && [p0] + [p1] == [p0, p1];
  }

  lemma UndoChain(x: Oid, z: Oid, edit: string, undone: string, undo: string)
    requires Lt(x, z)
    ensures var ms := BackupRuns.Chain(UndoRun(x, z, edit, undone, undo).w.s.bucket);
            |ms| == 2 && x in CollAt(ms[0], EDITS) && CollAt(ms[0], EDITS)[x] == edit
  {
    var r := UndoRun(x, z, edit, undone, undo);
    TwoChained(r.w.s.bucket[0], r.w.s.bucket[1]);
  }

  /** Although that chain is caught up with, a restore of it in one batch can bring back the entry from before the undo. */
  lemma UndoCanGoBack(c: Coding, items: seq<P.Item>, size: nat, x: Oid, z: Oid, edit: string, undone: string, undo: string)
    requires Faithful(c) && Lt(x, z) && edit != undone && 0 < |items| <= size
    requires Carries(c, items, BackupRuns.Chain(UndoRun(x, z, edit, undone, undo).w.s.bucket))
    ensures BackupRuns.LastCaught(UndoRun(x, z, edit, undone, undo), EDITS)
    ensures exists now :: O.Ends(map[], O.Batches(items, size), c.key(EDITS), now)
                          && c.hex(x) in now && now[c.hex(x)] == Coded(c, x, edit)
  {
    var ms, k := BackupRuns.Chain(UndoRun(x, z, edit, undone, undo).w.s.bucket), c.key(EDITS);
    UndoCaught(x, z, edit, undone, undo);
    UndoChain(x, z, edit, undone, undo);
    CarriedIn(c, items, ms, 0, EDITS, x);
    DocsIff(items, k, Coded(c, x, edit));
    var now := O.AnyVersionWins(map[], P.DocsOf(items, k), Coded(c, x, edit));
    OneBatch(items, size, k, now);
  }

  lemma OneBatch(items: seq<P.Item>, size: nat, k: P.Name, now: P.Coll)
    requires 0 < |items| <= size && O.Lands(map[], P.DocsOf(items, k), now)
    ensures O.Ends(map[], O.Batches(items, size), k, now)
  {
    assert O.Batches(items, size) == [items] && [items][..0] == [];
    assert O.Ends(map[], [], k, map[]);
  }
}
