/** Restoring one tenant from a verified chain of backup files: merged in memory, or streamed in batches. */
module Restore {
  import opened RestorePlan
  import opened RestoreOrders

  class Database {
    var colls: Db

    constructor (colls: Db)
      ensures this.colls == colls
    {
      this.colls := colls;
    }

    method DeleteMany(n: Name, orgId: string)
      modifies this
      ensures At(colls, n) == Unowned(At(old(colls), n), n, orgId)
      ensures forall m :: m != n ==> At(colls, m) == At(old(colls), m)
    {
      colls := colls[n := Unowned(At(colls, n), n, orgId)];
    }

    /** One unordered bulk of replace-or-insert operations: they land in any order. */
    method BulkWrite(n: Name, docs: seq<Doc>)
      modifies this
      ensures Lands(At(old(colls), n), docs, At(colls, n))
      ensures forall m :: m != n ==> At(colls, m) == At(old(colls), m)
    {
      var c := At(colls, n);
      for i := 0 to |docs|
        invariant c == Fold(At(colls, n), docs[..i]) && colls == old(colls)
      {
        c := c[docs[i].id := docs[i]];
        assert docs[..i + 1][..i] == docs[..i];
      }
      assert docs[..|docs|] == docs;
      colls := colls[n := c];
    }
  }

  // ---------- applying a merged chain ----------

  predicate Keyed(c: Coll) {
    forall id :: id in c ==> c[id].id == id
  }

  method ListDocs(c: Coll) returns (docs: seq<Doc>)
    requires Keyed(c)
    ensures Fold(map[], docs) == c && Agreeing(docs)
  {
    docs := [];
    var todo := c.Keys;
    while todo != {}
      invariant todo <= c.Keys
      invariant forall d :: d in docs ==> d.id in c && c[d.id] == d
      invariant Fold(map[], docs) == map id | id in c && id !in todo :: c[id]
      decreases todo
    {
      var id :| id in todo;
      assert (docs + [c[id]])[..|docs|] == docs;
      docs, todo := docs + [c[id]], todo - {id};
    }
    assert Fold(map[], docs) == c;
  }

  /** The documents of one collection in chunks of `size`. */
  method WriteChunks(db: Database, n: Name, docs: seq<Doc>, size: nat)
    requires size > 0 && Agreeing(docs)
    modifies db
    ensures At(db.colls, n) == Fold(At(old(db.colls), n), docs)
    ensures forall m :: m != n ==> At(db.colls, m) == At(old(db.colls), m)
  {
    var start := 0;
    ghost var was := At(db.colls, n);
    while start < |docs|
      invariant 0 <= start <= |docs|
      invariant At(db.colls, n) == Fold(was, docs[..start])
      invariant forall m :: m != n ==> At(db.colls, m) == At(old(db.colls), m)
    {
      var end := if start + size <= |docs| then start + size else |docs|;
      NextChunk(was, docs, start, end);
      ghost var before := At(db.colls, n);
      db.BulkWrite(n, docs[start..end]);
      LandsAgreeing(before, docs[start..end], At(db.colls, n));
      start := end;
    }
    assert docs[..|docs|] == docs;
  }

  lemma NextChunk(c: Coll, docs: seq<Doc>, start: nat, end: nat)
    requires Agreeing(docs) && start <= end <= |docs|
    ensures Agreeing(docs[start..end])
    ensures Fold(c, docs[..end]) == Fold(Fold(c, docs[..start]), docs[start..end])
  {
    assert docs[..end] == docs[..start] + docs[start..end];
    FoldConcat(c, docs[..start], docs[start..end]);
    AgreeingPart(docs, docs[start..end]);
  }

  lemma AgreeingPart(docs: seq<Doc>, part: seq<Doc>)
    requires Agreeing(docs) && forall d :: d in part ==> d in docs
    ensures Agreeing(part)
  {
    forall id | id in IdsIn(part)
      ensures OneVersion(part, id)
    {
      assert id in IdsIn(docs);
    }
  }

  /** What applying a merged chain makes of collection `n`. */
  function Applied(db: Db, merged: Db, n: Name, orgId: string, replace: bool): Coll {
    if n !in merged then At(db, n)
    else (if replace then Unowned(At(db, n), n, orgId) else At(db, n)) + merged[n]
  }

  method ApplyOne(db: Database, n: Name, c: Coll, orgId: string, replace: bool, size: nat)
    requires size > 0 && Keyed(c)
    modifies db
    ensures At(db.colls, n) == (if replace then Unowned(At(old(db.colls), n), n, orgId) else At(old(db.colls), n)) + c
    ensures forall m :: m != n ==> At(db.colls, m) == At(old(db.colls), m)
  {
    if replace {
      db.DeleteMany(n, orgId);
    }
    ghost var base := At(db.colls, n);
    var docs := ListDocs(c);
    FoldOver(base, docs);
    WriteChunks(db, n, docs, size);
  }

  /** All collections but `todo` are as applying the merged chain leaves them. */
  ghost predicate AppliedBut(db: Db, db0: Db, merged: Db, todo: set<Name>, orgId: string, replace: bool) {
    forall n :: At(db, n) == if n in todo then At(db0, n) else Applied(db0, merged, n, orgId, replace)
  }

  lemma AppliedNext(was: Db, db: Db, db0: Db, merged: Db, todo: set<Name>, n: Name, orgId: string, replace: bool)
    requires AppliedBut(was, db0, merged, todo, orgId, replace) && n in todo && n in merged
    requires At(db, n) == (if replace then Unowned(At(was, n), n, orgId) else At(was, n)) + merged[n]
    requires forall m :: m != n ==> At(db, m) == At(was, m)
    ensures AppliedBut(db, db0, merged, todo - {n}, orgId, replace)
  {
  }

  method ApplyNext(db: Database, merged: Db, n: Name, orgId: string, replace: bool, size: nat, ghost db0: Db,
                   ghost todo: set<Name>)
    requires size > 0 && n in todo && n in merged && AllKeyed(merged)
    requires AppliedBut(db.colls, db0, merged, todo, orgId, replace)
    modifies db
    ensures AppliedBut(db.colls, db0, merged, todo - {n}, orgId, replace)
  {
    ghost var was := db.colls;
    ApplyOne(db, n, merged[n], orgId, replace, size);
    AppliedNext(was, db.colls, db0, merged, todo, n, orgId, replace);
  }

  predicate AllKeyed(merged: Db) {
    forall n :: n in merged ==> Keyed(merged[n])
  }

  /** The sizes of the merged collections but for `todo`. */
  predicate Counted(counts: map<Name, nat>, merged: Db, todo: set<Name>) {
    counts.Keys == merged.Keys - todo && forall n :: n in counts ==> counts[n] == |merged[n]|
  }

  lemma CountedMore(counts: map<Name, nat>, merged: Db, todo: set<Name>, n: Name)
    requires Counted(counts, merged, todo) && n in todo && todo <= merged.Keys
    ensures Counted(counts[n := |merged[n]|], merged, todo - {n})
  {
  }

  method ApplyRestore(db: Database, orgId: string, merged: Db, replace: bool, size: nat)
    returns (counts: map<Name, nat>)
    requires size > 0 && AllKeyed(merged)
    modifies db
    ensures forall n :: At(db.colls, n) == Applied(old(db.colls), merged, n, orgId, replace)
    ensures Counted(counts, merged, {})
    ensures forall name, id :: id in At(old(db.colls), Tenant(name)) && At(old(db.colls), Tenant(name))[id].orgId != orgId
                               && id !in At(merged, Tenant(name))
                               ==> id in At(db.colls, Tenant(name))
                                   && At(db.colls, Tenant(name))[id] == At(old(db.colls), Tenant(name))[id]
  {
    counts := map[];
    var todo := merged.Keys;
    ghost var db0 := db.colls;
    while todo != {}
      invariant todo <= merged.Keys
      invariant AppliedBut(db.colls, db0, merged, todo, orgId, replace)
      invariant Counted(counts, merged, todo)
      decreases todo
    {
      var n :| n in todo;
      ApplyNext(db, merged, n, orgId, replace, size, db0, todo);
      CountedMore(counts, merged, todo, n);
      counts, todo := counts[n := |merged[n]|], todo - {n};
    }
    AppliedAll(db.colls, db0, merged, orgId, replace);
  }

  lemma AppliedAll(db: Db, db0: Db, merged: Db, orgId: string, replace: bool)
    requires AppliedBut(db, db0, merged, {}, orgId, replace)
    ensures forall n :: At(db, n) == Applied(db0, merged, n, orgId, replace)
    ensures forall name, id :: id in At(db0, Tenant(name)) && At(db0, Tenant(name))[id].orgId != orgId
                               && id !in At(merged, Tenant(name))
                               ==> id in At(db, Tenant(name)) && At(db, Tenant(name))[id] == At(db0, Tenant(name))[id]
  {
    forall name, id | id in At(db0, Tenant(name)) && At(db0, Tenant(name))[id].orgId != orgId
                      && id !in At(merged, Tenant(name))
      ensures id in At(db, Tenant(name)) && At(db, Tenant(name))[id] == At(db0, Tenant(name))[id]
    {
      assert At(db, Tenant(name)) == Applied(db0, merged, Tenant(name), orgId, replace);
    }
  }

  // ---------- applying a stream ----------

  lemma DocsOneMore(items: seq<Item>, n: Name, d: Doc, m: Name)
    ensures DocsOf(items + [(n, d)], m) == if m == n then DocsOf(items, m) + [d] else DocsOf(items, m)
  {
    assert (items + [(n, d)])[..|items|] == items;
  }

  lemma NamesConcat(xs: seq<Item>, ys: seq<Item>)
    ensures NamesOf(xs + ys) == NamesOf(xs) + NamesOf(ys)
  {
  }

  /** The documents of `items` by collection, each in stream order. */
  predicate Grouped(byName: map<Name, seq<Doc>>, items: seq<Item>) {
    byName.Keys == NamesOf(items) && forall n :: n in byName ==> byName[n] == DocsOf(items, n)
  }

  /** `byName` with one more document. */
  function With(byName: map<Name, seq<Doc>>, n: Name, d: Doc): map<Name, seq<Doc>> {
    byName[n := (if n in byName then byName[n] else []) + [d]]
  }

  lemma GroupedMore(byName: map<Name, seq<Doc>>, items: seq<Item>, n: Name, d: Doc)
    requires Grouped(byName, items)
    ensures Grouped(With(byName, n, d), items + [(n, d)])
  {
    NamesConcat(items, [(n, d)]);
    forall m | m in With(byName, n, d)
      ensures With(byName, n, d)[m] == DocsOf(items + [(n, d)], m)
    {
      GroupedAt(byName, items, n, d, m);
    }
  }

  lemma GroupedAt(byName: map<Name, seq<Doc>>, items: seq<Item>, n: Name, d: Doc, m: Name)
    requires Grouped(byName, items) && m in With(byName, n, d)
    ensures With(byName, n, d)[m] == DocsOf(items + [(n, d)], m)
  {
    DocsOneMore(items, n, d, m);
    NamesHaveDocs(items, n);
  }

  method GroupBatch(batch: seq<Item>) returns (byName: map<Name, seq<Doc>>)
    ensures Grouped(byName, batch)
  {
    byName := map[];
    for i := 0 to |batch|
      invariant Grouped(byName, batch[..i])
    {
      var n, d := batch[i].0, batch[i].1;
      GroupedMore(byName, batch[..i], n, d);
      assert batch[..i + 1] == batch[..i] + [(n, d)];
      byName := With(byName, n, d);
    }
    assert batch[..|batch|] == batch;
  }

  /** What the batches are written onto: a collection is emptied of the tenant's documents before its first one. */
  function Base(db: Db, items: seq<Item>, n: Name, orgId: string, replace: bool): Coll {
    if n in NamesOf(items) && replace then Unowned(At(db, n), n, orgId) else At(db, n)
  }

  lemma RestoredOnBase(db: Db, items: seq<Item>, n: Name, orgId: string, replace: bool)
    ensures Restored(db, items, n, orgId, replace) == Fold(Base(db, items, n, orgId, replace), DocsOf(items, n))
  {
    NamesHaveDocs(items, n);
  }

  /** Collection `n` is as writing the batches can leave it, and its ids are those of the batches. */
  ghost predicate AfterBatches(db: Db, ids: map<Name, set<string>>, db0: Db, batches: seq<seq<Item>>, n: Name, orgId: string,
                               replace: bool) {
    var items := Flat(batches);
    && Ends(Base(db0, items, n, orgId, replace), batches, n, At(db, n))
    && (n in ids <==> n in NamesOf(items))
    && (n in ids ==> ids[n] == Fold(map[], DocsOf(items, n)).Keys)
  }

  /** As long as a collection is not mentioned the batches leave it alone. */
  lemma {:induction false} EndsUntouched(was: Coll, batches: seq<seq<Item>>, n: Name, now: Coll)
    requires n !in NamesOf(Flat(batches))
    ensures Ends(was, batches, n, now) <==> now == was
  {
    if batches != [] {
      var init, last := batches[..|batches| - 1], batches[|batches| - 1];
      NamesConcat(Flat(init), last);
      NamesHaveDocs(last, n);
      EndsUntouched(was, init, n, was);
      if Ends(was, batches, n, now) {
        var mid :| Ends(was, init, n, mid) && Lands(mid, DocsOf(last, n), now);
        EndsUntouched(was, init, n, mid);
        LandsNothing(mid, now);
      }
      LandsInOrder(was, []);
    }
  }

  lemma LandsNothing(was: Coll, now: Coll)
    ensures Lands(was, [], now) <==> now == was
  {
    LandsInOrder(was, []);
    if Lands(was, [], now) {
      forall id
        ensures RestoreOrders.SameAt(now, was, id)
      {
        LandsAt(was, [], now, id);
      }
      EqualAt(now, was);
    }
  }

  lemma EndsMore(was: Coll, batches: seq<seq<Item>>, batch: seq<Item>, n: Name, mid: Coll, now: Coll)
    requires Ends(was, batches, n, mid) && Lands(mid, DocsOf(batch, n), now)
    ensures Ends(was, batches + [batch], n, now)
  {
    assert (batches + [batch])[..|batches|] == batches;
  }

  /** A batch that does not mention the collection. */
  lemma BatchElsewhere(db: Db, ids: map<Name, set<string>>, db0: Db, batches: seq<seq<Item>>, batch: seq<Item>, n: Name,
                       orgId: string, replace: bool)
    requires AfterBatches(db, ids, db0, batches, n, orgId, replace) && n !in NamesOf(batch)
    ensures AfterBatches(db, ids, db0, batches + [batch], n, orgId, replace)
  {
    NotMentioned(Flat(batches), batch, n);
    FlatMore(batches, batch);
    LandsNothing(At(db, n), At(db, n));
    EndsMore(Base(db0, Flat(batches), n, orgId, replace), batches, batch, n, At(db, n), At(db, n));
  }

  lemma NotMentioned(items: seq<Item>, batch: seq<Item>, n: Name)
    requires n !in NamesOf(batch)
    ensures (n in NamesOf(items + batch) <==> n in NamesOf(items)) && DocsOf(items + batch, n) == DocsOf(items, n)
    ensures DocsOf(batch, n) == []
  {
    NamesConcat(items, batch);
    DocsConcat(items, batch, n);
    NamesHaveDocs(batch, n);
  }

  lemma BatchIds(done: seq<Item>, batch: seq<Item>, n: Name)
    requires n in NamesOf(batch)
    ensures Fold(map[], DocsOf(done + batch, n)).Keys
            == Fold(map[], DocsOf(done, n)).Keys + set d | d in DocsOf(batch, n) :: d.id
    ensures n !in NamesOf(done) ==> Fold(map[], DocsOf(done, n)).Keys == {}
  {
    var xs, ys := DocsOf(done, n), DocsOf(batch, n);
    DocsConcat(done, batch, n);
    NamesHaveDocs(done, n);
    FoldConcat(map[], xs, ys);
    FoldOver(Fold(map[], xs), ys);
    FoldKeys(ys);
  }

  /** A batch's share for one collection. */
  method ApplyName(db: Database, n: Name, docs: seq<Doc>, ids: map<Name, set<string>>, orgId: string, replace: bool,
                   ghost batches: seq<seq<Item>>, ghost batch: seq<Item>, ghost db0: Db)
    returns (ids': map<Name, set<string>>)
    requires n in NamesOf(batch) && docs == DocsOf(batch, n)
    requires AfterBatches(db.colls, ids, db0, batches, n, orgId, replace)
    modifies db
    ensures AfterBatches(db.colls, ids', db0, batches + [batch], n, orgId, replace)
    ensures SameButFor(old(db.colls), ids, db.colls, ids', n)
  {
    ghost var was := db.colls;
    ClearFirst(db, n, ids, orgId, replace);
    ghost var mid := At(db.colls, n);
    db.BulkWrite(n, docs);
    ids' := ids[n := (if n in ids then ids[n] else {}) + set d | d in docs :: d.id];
    NameDone(was, mid, db.colls, ids, db0, batches, batch, n, orgId, replace);
  }

  /** At its first appearance a collection is emptied of the tenant's documents. */
  method ClearFirst(db: Database, n: Name, ids: map<Name, set<string>>, orgId: string, replace: bool)
    modifies db
    ensures At(db.colls, n) == if n !in ids && replace then Unowned(At(old(db.colls), n), n, orgId) else At(old(db.colls), n)
    ensures forall m :: m != n ==> At(db.colls, m) == At(old(db.colls), m)
  {
    if n !in ids && replace {
      db.DeleteMany(n, orgId);
    }
  }

  lemma NameDone(was: Db, mid: Coll, db: Db, ids: map<Name, set<string>>, db0: Db, batches: seq<seq<Item>>, batch: seq<Item>,
                 n: Name, orgId: string, replace: bool)
    requires n in NamesOf(batch) && AfterBatches(was, ids, db0, batches, n, orgId, replace)
    requires mid == if n !in ids && replace then Unowned(At(was, n), n, orgId) else At(was, n)
    requires Lands(mid, DocsOf(batch, n), At(db, n))
    ensures var ids' := ids[n := (if n in ids then ids[n] else {}) + set d | d in DocsOf(batch, n) :: d.id];
            AfterBatches(db, ids', db0, batches + [batch], n, orgId, replace)
  {
    FlatMore(batches, batch);
    NamesConcat(Flat(batches), batch);
    BatchIds(Flat(batches), batch, n);
    var base := Base(db0, Flat(batches + [batch]), n, orgId, replace);
    if n !in NamesOf(Flat(batches)) {
      EndsUntouched(At(db0, n), batches, n, At(was, n));
      EndsUntouched(base, batches, n, mid);
    }
    EndsMore(base, batches, batch, n, mid, At(db, n));
  }

  /** Only collection `n` and its ids may differ. */
  ghost predicate SameButFor(db: Db, ids: map<Name, set<string>>, db': Db, ids': map<Name, set<string>>, n: Name) {
    forall m :: m != n ==> At(db, m) == At(db', m) && (m in ids <==> m in ids') && (m in ids ==> ids[m] == ids'[m])
  }

  function WrittenFor(batches: seq<seq<Item>>, batch: seq<Item>, todo: set<Name>, n: Name): seq<seq<Item>> {
    if n in todo then batches else batches + [batch]
  }

  /** The next batch is written except for the collections of `todo`. */
  ghost predicate BatchBut(db: Db, ids: map<Name, set<string>>, db0: Db, batches: seq<seq<Item>>, batch: seq<Item>,
                           todo: set<Name>, orgId: string, replace: bool) {
    forall n :: AfterBatches(db, ids, db0, WrittenFor(batches, batch, todo, n), n, orgId, replace)
  }

  lemma BatchNext(db: Db, ids: map<Name, set<string>>, db': Db, ids': map<Name, set<string>>, db0: Db,
                  batches: seq<seq<Item>>, batch: seq<Item>, todo: set<Name>, n: Name, orgId: string, replace: bool)
    requires BatchBut(db, ids, db0, batches, batch, todo, orgId, replace) && SameButFor(db, ids, db', ids', n)
    requires AfterBatches(db', ids', db0, batches + [batch], n, orgId, replace)
    ensures BatchBut(db', ids', db0, batches, batch, todo - {n}, orgId, replace)
  {
    forall m
      ensures AfterBatches(db', ids', db0, WrittenFor(batches, batch, todo - {n}, m), m, orgId, replace)
    {
      if m != n {
        assert AfterBatches(db, ids, db0, WrittenFor(batches, batch, todo, m), m, orgId, replace);
      }
    }
  }

  /** A batch is written collection by collection; one is cleared only at its first appearance. */
  method ApplyBatch(db: Database, orgId: string, batch: seq<Item>, replace: bool, ids: map<Name, set<string>>,
                    ghost batches: seq<seq<Item>>, ghost db0: Db)
    returns (ids': map<Name, set<string>>)
    requires forall n :: AfterBatches(db.colls, ids, db0, batches, n, orgId, replace)
    modifies db
    ensures forall n :: AfterBatches(db.colls, ids', db0, batches + [batch], n, orgId, replace)
  {
    ids' := ids;
    var byName := GroupBatch(batch);
    var todo := byName.Keys;
    BatchStarts(db.colls, ids, db0, batches, batch, todo, orgId, replace);
    while todo != {}
      invariant forall n :: n in todo ==> n in byName
      invariant BatchBut(db.colls, ids', db0, batches, batch, todo, orgId, replace)
      decreases todo
    {
      var n :| n in todo;
      ghost var was, had := db.colls, ids';
      assert AfterBatches(was, had, db0, WrittenFor(batches, batch, todo, n), n, orgId, replace);
      ids' := ApplyName(db, n, byName[n], ids', orgId, replace, batches, batch, db0);
      BatchNext(was, had, db.colls, ids', db0, batches, batch, todo, n, orgId, replace);
      todo := todo - {n};
    }
    BatchDone(db.colls, ids', db0, batches, batch, orgId, replace);
  }

  lemma BatchStarts(db: Db, ids: map<Name, set<string>>, db0: Db, batches: seq<seq<Item>>, batch: seq<Item>,
                    todo: set<Name>, orgId: string, replace: bool)
    requires forall n :: AfterBatches(db, ids, db0, batches, n, orgId, replace)
    requires forall n :: n in todo <==> n in NamesOf(batch)
    ensures BatchBut(db, ids, db0, batches, batch, todo, orgId, replace)
  {
    forall n
      ensures AfterBatches(db, ids, db0, WrittenFor(batches, batch, todo, n), n, orgId, replace)
    {
      if n !in todo {
        BatchElsewhere(db, ids, db0, batches, batch, n, orgId, replace);
      }
    }
  }

  lemma BatchDone(db: Db, ids: map<Name, set<string>>, db0: Db, batches: seq<seq<Item>>, batch: seq<Item>, orgId: string,
                  replace: bool)
    requires BatchBut(db, ids, db0, batches, batch, {}, orgId, replace)
    ensures forall n :: AfterBatches(db, ids, db0, batches + [batch], n, orgId, replace)
  {
    forall n
      ensures AfterBatches(db, ids, db0, batches + [batch], n, orgId, replace)
    {
      assert AfterBatches(db, ids, db0, WrittenFor(batches, batch, {}, n), n, orgId, replace);
    }
  }

  /** Every collection is as writing the batches of the stream can leave it. */
  ghost predicate Streamed(db: Db, db0: Db, stream: seq<Item>, size: nat, orgId: string, replace: bool)
    requires size > 0
  {
    forall n :: Ends(Base(db0, stream, n, orgId, replace), Batches(stream, size), n, At(db, n))
  }

  method StreamApply(db: Database, orgId: string, stream: seq<Item>, size: nat, replace: bool)
    returns (ids: map<Name, set<string>>)
    requires size > 0
    modifies db
    ensures Streamed(db.colls, old(db.colls), stream, size, orgId, replace)
    ensures IdsOf(ids, stream)
    ensures forall name, id :: id in At(old(db.colls), Tenant(name)) && At(old(db.colls), Tenant(name))[id].orgId != orgId
                               && (forall d :: (Tenant(name), d) in stream ==> d.id != id)
                               ==> id in At(db.colls, Tenant(name))
                                   && At(db.colls, Tenant(name))[id] == At(old(db.colls), Tenant(name))[id]
  {
    ids := map[];
    var pos := 0;
    assert stream[..0] == [];
    while true
      invariant 0 <= pos <= |stream| && (pos < |stream| ==> Whole(stream[..pos], size))
      invariant forall n :: AfterBatches(db.colls, ids, old(db.colls), Batches(stream[..pos], size), n, orgId, replace)
      decreases |stream| - pos
    {
      var end := if pos + size <= |stream| then pos + size else |stream|;
      var batch := stream[pos..end];
      if batch == [] {
        assert stream[..pos] == stream;
        BatchesLeave(db.colls, ids, old(db.colls), stream, size, orgId, replace);
        OrgsUntouched(old(db.colls), stream, size, orgId, replace, db.colls);
        return;
      }
      ids := ApplyBatch(db, orgId, batch, replace, ids, Batches(stream[..pos], size), old(db.colls));
      BatchesMore(stream[..pos], batch, size);
      assert stream[..end] == stream[..pos] + batch;
      pos := end;
    }
  }

  lemma OrgsUntouched(db: Db, stream: seq<Item>, size: nat, orgId: string, replace: bool, db': Db)
    requires size > 0 && Streamed(db', db, stream, size, orgId, replace)
    ensures forall name, id :: id in At(db, Tenant(name)) && At(db, Tenant(name))[id].orgId != orgId
                               && (forall d :: (Tenant(name), d) in stream ==> d.id != id)
                               ==> id in At(db', Tenant(name)) && At(db', Tenant(name))[id] == At(db, Tenant(name))[id]
  {
    forall name, id | id in At(db, Tenant(name)) && At(db, Tenant(name))[id].orgId != orgId
                      && (forall d :: (Tenant(name), d) in stream ==> d.id != id)
      ensures id in At(db', Tenant(name)) && At(db', Tenant(name))[id] == At(db, Tenant(name))[id]
    {
      OthersUntouched(db, stream, size, Tenant(name), orgId, replace, id, At(db', Tenant(name)));
    }
  }

  lemma BatchesLeave(db: Db, ids: map<Name, set<string>>, db0: Db, stream: seq<Item>, size: nat, orgId: string, replace: bool)
    requires size > 0 && forall n :: AfterBatches(db, ids, db0, Batches(stream, size), n, orgId, replace)
    ensures Streamed(db, db0, stream, size, orgId, replace) && IdsOf(ids, stream)
  {
    forall n
      ensures Ends(Base(db0, stream, n, orgId, replace), Batches(stream, size), n, At(db, n))
      ensures (n in ids <==> n in NamesOf(stream)) && (n in ids ==> ids[n] == Fold(map[], DocsOf(stream, n)).Keys)
    {
      BatchesCarry(stream, size);
      assert AfterBatches(db, ids, db0, Batches(stream, size), n, orgId, replace);
    }
  }

  /** Every outcome of a streamed restore leaves a collection as restoring the whole stream in order does, if and only if
      wherever a batch holds two versions of one of its documents a later batch holds that document again. */
  lemma StreamRestoresIff(db: Db, stream: seq<Item>, size: nat, n: Name, orgId: string, replace: bool)
    requires size > 0
    ensures AlwaysEnds(Base(db, stream, n, orgId, replace), Batches(stream, size), n, Restored(db, stream, n, orgId, replace))
            <==> Settled(Batches(stream, size), n)
  {
    RestoredOnBase(db, stream, n, orgId, replace);
    StreamExactIff(Base(db, stream, n, orgId, replace), stream, size, n);
  }

  // ---------- the two ways agree ----------

  /** Applying the merged chain leaves exactly what streaming the same chain leaves, and carries the same ids. */
  lemma StreamEqualsMerged(db: Db, items: seq<Item>, n: Name, orgId: string, replace: bool)
    ensures Applied(db, Merged(items), n, orgId, replace) == Restored(db, items, n, orgId, replace)
    ensures n in Merged(items) <==> n in NamesOf(items)
    ensures Keyed(At(Merged(items), n)) && At(Merged(items), n) == Fold(map[], DocsOf(items, n))
  {
    MergedAt(items, n);
    FoldKeys(DocsOf(items, n));
    FoldOver(if replace then Unowned(At(db, n), n, orgId) else At(db, n), DocsOf(items, n));
  }

  /** Both ways on the same verified chain, with any two batch sizes: the same collections, wherever a document that a batch of
      the stream holds in two versions is held again by a later batch, and ids that match the counts. */
  method RestoreBothWays(db1: Database, db2: Database, files: seq<File>, orgId: string, tenant: string,
                         includeOrg: bool, replace: bool, size1: nat, size2: nat)
    returns (counts: map<Name, nat>, ids: map<Name, set<string>>)
    requires size1 > 0 && size2 > 0 && db1 != db2 && db1.colls == db2.colls
    requires AllOwned(Stream(files, includeOrg), orgId, tenant)
    modifies db1, db2
    ensures Streamed(db2.colls, old(db2.colls), Stream(files, includeOrg), size2, orgId, replace)
    ensures forall n :: Settled(Batches(Stream(files, includeOrg), size2), n) ==> At(db1.colls, n) == At(db2.colls, n)
    ensures forall n :: n in counts <==> n in ids
    ensures forall n :: n in ids ==> counts[n] == |ids[n]|
  {
    var items := Stream(files, includeOrg);
    forall n
      ensures Applied(db1.colls, Merged(items), n, orgId, replace) == Restored(db1.colls, items, n, orgId, replace)
      ensures n in Merged(items) <==> n in NamesOf(items)
      ensures Keyed(At(Merged(items), n)) && At(Merged(items), n) == Fold(map[], DocsOf(items, n))
    {
      StreamEqualsMerged(db1.colls, items, n, orgId, replace);
    }
    ghost var was := db2.colls;
    var p := PlanRestore(files, orgId, tenant, includeOrg);
    counts := ApplyRestore(db1, orgId, p.merged, replace, size1);
    ids := StreamApply(db2, orgId, items, size2, replace);
    forall n | Settled(Batches(items, size2), n)
      ensures At(db1.colls, n) == At(db2.colls, n)
    {
      StreamRestoresIff(was, items, size2, n, orgId, replace);
    }
    forall n | n in ids
      ensures counts[n] == |ids[n]|
    {
      assert At(p.merged, n) == p.merged[n];
    }
  }

  // ---------- other tenants ----------

  /** No other tenant's document has an id that a restored document of the same collection carries. */
  predicate IdsApart(c: Coll, n: Name, items: seq<Item>, orgId: string) {
    forall i, id :: 0 <= i < |items| && items[i].0 == n && id in c && id == items[i].1.id ==> Filter(n, orgId, c[id])
  }

  lemma {:induction false} DocsAreItems(items: seq<Item>, n: Name, d: Doc)
    requires d in DocsOf(items, n)
    ensures (n, d) in items
  {
    var init, last := items[..|items| - 1], items[|items| - 1];
    if last != (n, d) {
      DocsAreItems(init, n, d);
    }
  }

  /** The collections that ownership is checked for document by document. */
  predicate Scoped(n: Name, orgId: string, tenant: string) {
    !n.Organizations? && (n.SmsUsage? ==> OrDefault(orgId) == OrDefault(tenant))
  }

  function Owned(c: Coll, n: Name, orgId: string): Coll {
    map id | id in c && Filter(n, orgId, c[id]) :: c[id]
  }

  /** A restore leaves other tenants' documents as they were. The tenant's own are afterwards those of the chain, unless the
      chain carries no document of the collection: then nothing is cleared, and they are as they were. */
  lemma TenantReplaced(db: Db, items: seq<Item>, n: Name, orgId: string, tenant: string)
    requires AllOwned(items, orgId, tenant) && Scoped(n, orgId, tenant)
    requires IdsApart(At(db, n), n, items, orgId)
    ensures var after := Restored(db, items, n, orgId, true);
            && Unowned(after, n, orgId) == Unowned(At(db, n), n, orgId)
            && Owned(after, n, orgId)
               == if n in NamesOf(items) then At(Merged(items), n) else Owned(At(db, n), n, orgId)
  {
    if n in NamesOf(items) {
      var docs := DocsOf(items, n);
      var chain, before := Fold(map[], docs), At(db, n);
      StreamEqualsMerged(db, items, n, orgId, true);
      FoldKeys(docs);
      FoldOver(Unowned(before, n, orgId), docs);
      forall id | id in chain
        ensures Filter(n, orgId, chain[id])
        ensures id in before ==> Filter(n, orgId, before[id])
      {
        DocsAreItems(items, n, chain[id]);
        var i :| 0 <= i < |items| && items[i] == (n, chain[id]);
        assert AssertOwned(items[i].0, items[i].1, orgId, tenant);
      }
      UnownedUnderneath(before, chain, n, orgId);
    }
  }

  /** So the tenant's documents are exactly the chain's if and only if the chain carries a document of the collection or the
      tenant had none there. */
  lemma ReplacedIff(db: Db, items: seq<Item>, n: Name, orgId: string, tenant: string)
    requires AllOwned(items, orgId, tenant) && Scoped(n, orgId, tenant)
    requires IdsApart(At(db, n), n, items, orgId)
    ensures Owned(Restored(db, items, n, orgId, true), n, orgId) == At(Merged(items), n)
            <==> n in NamesOf(items) || Owned(At(db, n), n, orgId) == map[]
  {
    TenantReplaced(db, items, n, orgId, tenant);
    MergedAt(items, n);
    NamesHaveDocs(items, n);
  }

  lemma {:induction false} StreamNames(files: seq<File>, includeOrg: bool, n: Name)
    ensures n in NamesOf(Stream(files, includeOrg))
            <==> exists i :: 0 <= i < |files| && files[i].name == n && files[i].docs != [] && !Skips(files[i], includeOrg)
  {
    if files != [] {
      var init, f := files[..|files| - 1], files[|files| - 1];
      StreamNames(init, includeOrg, n);
      NamesConcat(Stream(init, includeOrg), Items(f));
      if f.docs != [] {
        assert Items(f)[0] == (f.name, f.docs[0]);
      }
      assert forall i :: 0 <= i < |init| ==> init[i] == files[i];
    }
  }

  /** A collection that the backup lists, but holds empty, is not cleared: documents made since the backup stay. */
  lemma EmptyNotCleared(db: Db, n: Name, d: Doc, orgId: string)
    requires d.id in At(db, n) && At(db, n)[d.id] == d
    ensures Stream([File(n, [])], true) == []
    ensures d.id in Restored(db, Stream([File(n, [])], true), n, orgId, true)
  {
    assert [File(n, [])][..0] == [];
    assert Items(File(n, [])) == [];
  }

  lemma UnownedUnderneath(before: Coll, chain: Coll, n: Name, orgId: string)
    requires forall id :: id in chain ==> Filter(n, orgId, chain[id]) && (id in before ==> Filter(n, orgId, before[id]))
    ensures Unowned(Unowned(before, n, orgId) + chain, n, orgId) == Unowned(before, n, orgId)
    ensures Owned(Unowned(before, n, orgId) + chain, n, orgId) == chain
  {
  }

  // ---------- whose documents, by their own fields ----------

  /** An id that no document of the batches has is as it was. */
  lemma {:induction false} EndsElsewhere(was: Coll, batches: seq<seq<Item>>, n: Name, id: string, now: Coll)
    requires Ends(was, batches, n, now) && id !in IdsIn(AllDocs(batches, n))
    ensures RestoreOrders.SameAt(now, was, id)
  {
    if batches != [] {
      var init, docs := batches[..|batches| - 1], DocsOf(batches[|batches| - 1], n);
      var mid :| Ends(was, init, n, mid) && Lands(mid, docs, now);
      AllDocsLast(batches, n);
      assert forall d :: d in AllDocs(init, n) || d in docs ==> d in AllDocs(batches, n);
      EndsElsewhere(was, init, n, id, mid);
      LandsAt(mid, docs, now, id);
    }
  }

  lemma NotAmongDocs(stream: seq<Item>, size: nat, n: Name, id: string)
    requires size > 0 && forall d :: (n, d) in stream ==> d.id != id
    ensures id !in IdsIn(AllDocs(Batches(stream, size), n)) && id !in IdsIn(DocsOf(stream, n))
  {
    BatchesCarry(stream, size);
    forall d | d in DocsOf(stream, n)
      ensures d.id != id
    {
      DocsAreItems(stream, n, d);
    }
  }

  /** No document of anybody else is lost or changed, in any outcome of a streamed restore and in the merged one, in any
      collection, mentioned by the chain or not: of the tenant collections one with another organisation's id, of the
      message usage one with another key, and of the organisations any but the one restored. */
  lemma OthersUntouched(db: Db, stream: seq<Item>, size: nat, n: Name, orgId: string, replace: bool, id: string, now: Coll)
    requires size > 0 && Ends(Base(db, stream, n, orgId, replace), Batches(stream, size), n, now)
    requires id in At(db, n) && forall d :: (n, d) in stream ==> d.id != id
    requires match n
             case Tenant(_) => At(db, n)[id].orgId != orgId
             case SmsUsage => At(db, n)[id].orgKey != if orgId == "" then "default" else orgId
             case Organizations => orgId == "" || At(db, n)[id].id != orgId
             case PlatformSettings => !replace
    ensures id in now && now[id] == At(db, n)[id]
    ensures var merged := Applied(db, Merged(stream), n, orgId, replace); id in merged && merged[id] == At(db, n)[id]
  {
    NotAmongDocs(stream, size, n, id);
    EndsElsewhere(Base(db, stream, n, orgId, replace), Batches(stream, size), n, id, now);
    StreamEqualsMerged(db, stream, n, orgId, replace);
    RestoredOnBase(db, stream, n, orgId, replace);
    FoldAt(Base(db, stream, n, orgId, replace), DocsOf(stream, n), id);
  }

  /** With `replace` the tenant's own documents of a collection that the chain mentions are gone unless the chain carries their
      ids. */
  lemma OwnCleared(db: Db, stream: seq<Item>, size: nat, n: Name, orgId: string, id: string, now: Coll)
    requires size > 0 && Ends(Base(db, stream, n, orgId, true), Batches(stream, size), n, now)
    requires id in At(db, n) && (exists d :: (n, d) in stream) && forall d :: (n, d) in stream ==> d.id != id
    requires match n
             case Tenant(_) => At(db, n)[id].orgId == orgId
             case SmsUsage => At(db, n)[id].orgKey == if orgId == "" then "default" else orgId
             case Organizations => orgId != "" && At(db, n)[id].id == orgId
             case PlatformSettings => true
    ensures id !in now && id !in Applied(db, Merged(stream), n, orgId, true)
  {
    var d :| (n, d) in stream;
    assert n in NamesOf(stream);
    NotAmongDocs(stream, size, n, id);
    EndsElsewhere(Base(db, stream, n, orgId, true), Batches(stream, size), n, id, now);
    StreamEqualsMerged(db, stream, n, orgId, true);
    RestoredOnBase(db, stream, n, orgId, true);
    FoldAt(Base(db, stream, n, orgId, true), DocsOf(stream, n), id);
  }

  /** A chain with a document of another organisation in a tenant collection, of another key in the message usage, or with
      platform settings for anybody but the global tenant is refused, and no other chain is. */
  lemma RefusedIff(items: seq<Item>, orgId: string, tenant: string)
    ensures !AllOwned(items, orgId, tenant)
            <==> || (exists n, d :: (Tenant(n), d) in items && d.orgId != orgId)
                 || (exists d :: (SmsUsage, d) in items && d.orgKey != if tenant == "" then "default" else tenant)
                 || (tenant != "_global" && exists d :: (PlatformSettings, d) in items)
  {
    if i :| 0 <= i < |items| && !AssertOwned(items[i].0, items[i].1, orgId, tenant) {
      assert (items[i].0, items[i].1) == items[i] && items[i] in items;
      match items[i].0 {
        case Tenant(n) => assert (Tenant(n), items[i].1) in items;
        case SmsUsage => assert (SmsUsage, items[i].1) in items;
        case PlatformSettings => assert (PlatformSettings, items[i].1) in items;
        case Organizations =>
      }
    }
    if exists n, d :: (Tenant(n), d) in items && d.orgId != orgId {
      var n, d :| (Tenant(n), d) in items && d.orgId != orgId;
      var i :| 0 <= i < |items| && items[i] == (Tenant(n), d);
    }
    if exists d :: (SmsUsage, d) in items && d.orgKey != if tenant == "" then "default" else tenant {
      var d :| (SmsUsage, d) in items && d.orgKey != if tenant == "" then "default" else tenant;
      var i :| 0 <= i < |items| && items[i] == (SmsUsage, d);
    }
    if tenant != "_global" && exists d :: (PlatformSettings, d) in items {
      var d :| (PlatformSettings, d) in items;
      var i :| 0 <= i < |items| && items[i] == (PlatformSettings, d);
    }
  }
}
