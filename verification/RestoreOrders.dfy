/** The order in which the documents of unordered bulks land, and when a stream of batches leaves what it says all the same. */
module RestoreOrders {
  import opened RestorePlan

  // ---------- one bulk ----------

  /** The documents of a bulk land in some order. */
  ghost predicate Lands(was: Coll, docs: seq<Doc>, now: Coll) {
    exists order :: multiset(order) == multiset(docs) && now == Fold(was, order)
  }

  predicate SameAt(a: Coll, b: Coll, id: string) {
    (id in a <==> id in b) && (id in a ==> a[id] == b[id])
  }

  function IdsIn(docs: seq<Doc>): set<string> {
    set d | d in docs :: d.id
  }

  predicate OneVersion(docs: seq<Doc>, id: string) {
    forall d, e :: d in docs && e in docs && d.id == id == e.id ==> d == e
  }

  /** No document comes in two versions. */
  predicate Agreeing(docs: seq<Doc>) {
    forall id :: id in IdsIn(docs) ==> OneVersion(docs, id)
  }

  /** What a fold leaves at one id: one of the versions that it was given, or what was there. */
  lemma FoldAt(c: Coll, docs: seq<Doc>, id: string)
    ensures if id in IdsIn(docs) then id in Fold(c, docs) && Fold(c, docs)[id] in docs && Fold(c, docs)[id].id == id
            else SameAt(Fold(c, docs), c, id)
  {
    FoldOver(c, docs);
    FoldKeys(docs);
  }

  lemma SameMembers(docs: seq<Doc>, order: seq<Doc>)
    requires multiset(order) == multiset(docs)
    ensures forall d :: d in order <==> d in docs
  {
    assert forall d :: d in order <==> d in multiset(order);
  }

  lemma LandsAt(was: Coll, docs: seq<Doc>, now: Coll, id: string)
    requires Lands(was, docs, now)
    ensures if id in IdsIn(docs) then id in now && now[id] in docs && now[id].id == id else SameAt(now, was, id)
  {
    var order :| multiset(order) == multiset(docs) && now == Fold(was, order);
    SameMembers(docs, order);
    FoldAt(was, order, id);
  }

  /** `docs` with the one at `k` moved to the end. */
  function Last(docs: seq<Doc>, k: nat): seq<Doc>
    requires k < |docs|
  {
    docs[..k] + docs[k + 1..] + [docs[k]]
  }

  lemma LastWins(c: Coll, docs: seq<Doc>, k: nat)
    requires k < |docs|
    ensures Lands(c, docs, Fold(c, Last(docs, k)))
    ensures docs[k].id in Fold(c, Last(docs, k)) && Fold(c, Last(docs, k))[docs[k].id] == docs[k]
  {
    assert docs == docs[..k] + [docs[k]] + docs[k + 1..];
    assert multiset(Last(docs, k)) == multiset(docs);
    assert Last(docs, k)[..|docs| - 1] == docs[..k] + docs[k + 1..];
  }

  lemma AnyVersionWins(c: Coll, docs: seq<Doc>, d: Doc) returns (now: Coll)
    requires d in docs
    ensures Lands(c, docs, now) && d.id in now && now[d.id] == d
  {
    var k :| 0 <= k < |docs| && docs[k] == d;
    LastWins(c, docs, k);
    now := Fold(c, Last(docs, k));
  }

  lemma LandsInOrder(c: Coll, docs: seq<Doc>)
    ensures Lands(c, docs, Fold(c, docs))
  {
  }

  /** What an unordered bulk leaves is the same in every order exactly if no document comes in two versions. */
  lemma AnyOrderIff(c: Coll, docs: seq<Doc>)
    ensures (forall now :: Lands(c, docs, now) ==> now == Fold(c, docs)) <==> Agreeing(docs)
  {
    if Agreeing(docs) {
      forall now | Lands(c, docs, now)
        ensures now == Fold(c, docs)
      {
        LandsAgreeing(c, docs, now);
      }
    } else {
      var id :| id in IdsIn(docs) && !OneVersion(docs, id);
      var d, e :| d in docs && e in docs && d.id == id == e.id && d != e;
      var now := AnyVersionWins(c, docs, d);
      var now' := AnyVersionWins(c, docs, e);
    }
  }

  lemma LandsAgreeing(c: Coll, docs: seq<Doc>, now: Coll)
    requires Agreeing(docs) && Lands(c, docs, now)
    ensures now == Fold(c, docs)
  {
    forall id
      ensures SameAt(now, Fold(c, docs), id)
    {
      LandsAt(c, docs, now, id);
      FoldAt(c, docs, id);
    }
    EqualAt(now, Fold(c, docs));
  }

  lemma EqualAt(a: Coll, b: Coll)
    requires forall id :: SameAt(a, b, id)
    ensures a == b
  {
    assert forall id :: id in a <==> SameAt(a, b, id) && id in a;
    forall id
      ensures id in a <==> id in b
      ensures id in a ==> a[id] == b[id]
    {
      assert SameAt(a, b, id);
    }
  }

  // ---------- a stream of batches ----------

  /** The batches in which a stream is taken. */
  function Batches(stream: seq<Item>, size: nat): seq<seq<Item>>
    requires size > 0
  {
    if stream == [] then []
    else if |stream| <= size then [stream]
    else [stream[..size]] + Batches(stream[size..], size)
  }

  function Flat(batches: seq<seq<Item>>): seq<Item> {
    if batches == [] then [] else Flat(batches[..|batches| - 1]) + batches[|batches| - 1]
  }

  function AllDocs(batches: seq<seq<Item>>, n: Name): seq<Doc> {
    DocsOf(Flat(batches), n)
  }

  lemma AllDocsLast(batches: seq<seq<Item>>, n: Name)
    requires batches != []
    ensures AllDocs(batches, n) == AllDocs(batches[..|batches| - 1], n) + DocsOf(batches[|batches| - 1], n)
  {
    DocsConcat(Flat(batches[..|batches| - 1]), batches[|batches| - 1], n);
  }

  /** What writing the batches one after the other, each of them as an unordered bulk, can leave. */
  ghost predicate Ends(was: Coll, batches: seq<seq<Item>>, n: Name, now: Coll) {
    if batches == [] then now == was
    else
      var init, docs := batches[..|batches| - 1], DocsOf(batches[|batches| - 1], n);
      exists mid :: Ends(was, init, n, mid) && Lands(mid, docs, now)
  }

  /** All copies of the document in the last batch that holds it are the same. */
  predicate Final(batches: seq<seq<Item>>, n: Name, id: string) {
    batches != [] ==>
      var docs := DocsOf(batches[|batches| - 1], n);
      if id in IdsIn(docs) then OneVersion(docs, id) else Final(batches[..|batches| - 1], n, id)
  }

  predicate Later(batches: seq<seq<Item>>, n: Name, k: nat, id: string) {
    exists j :: k < j < |batches| && HeldBy(batches, n, j, id)
  }

  ghost predicate Settled(batches: seq<seq<Item>>, n: Name) {
    forall id :: SettledAt(batches, n, id)
  }

  /** The document is settled: wherever a batch holds two versions of it, a later batch holds it again. */
  ghost predicate SettledAt(batches: seq<seq<Item>>, n: Name, id: string) {
    forall k :: 0 <= k < |batches| && !OneVersion(DocsOf(batches[k], n), id) ==> Later(batches, n, k, id)
  }

  predicate HeldBy(batches: seq<seq<Item>>, n: Name, j: nat, id: string)
    requires j < |batches|
  {
    id in IdsIn(DocsOf(batches[j], n))
  }

  lemma LaterMore(batches: seq<seq<Item>>, n: Name, k: nat, id: string)
    requires batches != [] && k < |batches| - 1
    ensures var last := |batches| - 1;
            Later(batches, n, k, id) <==> Later(batches[..last], n, k, id) || id in IdsIn(DocsOf(batches[last], n))
  {
    var last := |batches| - 1;
    var init := batches[..last];
    assert forall j :: 0 <= j < last ==> HeldBy(init, n, j, id) == HeldBy(batches, n, j, id);
    if HeldBy(batches, n, last, id) {
      assert Later(batches, n, k, id);
    }
  }

  lemma NoneLater(batches: seq<seq<Item>>, n: Name, id: string)
    requires batches != []
    ensures !Later(batches, n, |batches| - 1, id)
  {
  }

  lemma {:induction false} FinalIff(batches: seq<seq<Item>>, n: Name, id: string)
    ensures Final(batches, n, id) <==> SettledAt(batches, n, id)
  {
    if batches != [] {
      FinalIff(batches[..|batches| - 1], n, id);
      SettledMore(batches, n, id);
    }
  }

  lemma SettledMore(batches: seq<seq<Item>>, n: Name, id: string)
    requires batches != []
    ensures var docs := DocsOf(batches[|batches| - 1], n);
            SettledAt(batches, n, id)
            <==> if id in IdsIn(docs) then OneVersion(docs, id) else SettledAt(batches[..|batches| - 1], n, id)
  {
    var init, last := batches[..|batches| - 1], |batches| - 1;
    NoneLater(batches, n, id);
    forall k | 0 <= k < last
      ensures init[k] == batches[k]
      ensures Later(batches, n, k, id) <==> Later(init, n, k, id) || id in IdsIn(DocsOf(batches[last], n))
    {
      LaterMore(batches, n, k, id);
    }
  }

  lemma {:induction false} EndsInOrder(was: Coll, batches: seq<seq<Item>>, n: Name)
    ensures Ends(was, batches, n, Fold(was, AllDocs(batches, n)))
  {
    if batches != [] {
      var init, docs := batches[..|batches| - 1], DocsOf(batches[|batches| - 1], n);
      EndsInOrder(was, init, n);
      AllDocsLast(batches, n);
      FoldConcat(was, AllDocs(init, n), docs);
      LandsInOrder(Fold(was, AllDocs(init, n)), docs);
    }
  }

  ghost predicate AlwaysEnds(was: Coll, batches: seq<seq<Item>>, n: Name, told: Coll) {
    forall now :: Ends(was, batches, n, now) ==> now == told
  }

  lemma {:induction false} FinalEnds(was: Coll, batches: seq<seq<Item>>, n: Name, id: string, now: Coll)
    requires Final(batches, n, id) && Ends(was, batches, n, now)
    ensures SameAt(now, Fold(was, AllDocs(batches, n)), id)
  {
    if batches != [] {
      var init, docs := batches[..|batches| - 1], DocsOf(batches[|batches| - 1], n);
      var mid :| Ends(was, init, n, mid) && Lands(mid, docs, now);
      AllDocsLast(batches, n);
      FoldConcat(was, AllDocs(init, n), docs);
      LandsAt(mid, docs, now, id);
      FoldAt(Fold(was, AllDocs(init, n)), docs, id);
      if id !in IdsIn(docs) {
        FinalEnds(was, init, n, id, mid);
      }
    }
  }

  /** Some outcome differs at a document whose last batch holds two versions of it. */
  lemma {:induction false} UnsettledEnds(was: Coll, batches: seq<seq<Item>>, n: Name, id: string) returns (now: Coll)
    requires !Final(batches, n, id)
    ensures Ends(was, batches, n, now) && !SameAt(now, Fold(was, AllDocs(batches, n)), id)
  {
    var init, docs := batches[..|batches| - 1], DocsOf(batches[|batches| - 1], n);
    var told := Fold(was, AllDocs(init, n));
    AllDocsLast(batches, n);
    FoldConcat(was, AllDocs(init, n), docs);
    FoldAt(told, docs, id);
    if id in IdsIn(docs) {
      var d, e :| d in docs && e in docs && d.id == id == e.id && d != e;
      EndsInOrder(was, init, n);
      now := AnyVersionWins(told, docs, if Fold(told, docs)[id] == d then e else d);
    } else {
      var mid := UnsettledEnds(was, init, n, id);
      now := Fold(mid, docs);
      LandsInOrder(mid, docs);
      FoldAt(mid, docs, id);
    }
  }

  /** What the batches leave is what they say, taken in order, in every outcome if and only if wherever one of them holds two
      versions of a document a later one holds it again. */
  lemma BatchesExactIff(was: Coll, batches: seq<seq<Item>>, n: Name)
    ensures AlwaysEnds(was, batches, n, Fold(was, AllDocs(batches, n))) <==> Settled(batches, n)
  {
    if Settled(batches, n) {
      forall now | Ends(was, batches, n, now)
        ensures now == Fold(was, AllDocs(batches, n))
      {
        SettledEnds(was, batches, n, now);
      }
    } else {
      var id :| !SettledAt(batches, n, id);
      UnsettledVaries(was, batches, n, id);
    }
  }

  lemma UnsettledVaries(was: Coll, batches: seq<seq<Item>>, n: Name, id: string)
    requires !SettledAt(batches, n, id)
    ensures !AlwaysEnds(was, batches, n, Fold(was, AllDocs(batches, n)))
  {
    FinalIff(batches, n, id);
    var now := UnsettledEnds(was, batches, n, id);
    var told := Fold(was, AllDocs(batches, n));
    assert Ends(was, batches, n, now) && !SameAt(now, told, id);
  }

  lemma SettledEnds(was: Coll, batches: seq<seq<Item>>, n: Name, now: Coll)
    requires Settled(batches, n) && Ends(was, batches, n, now)
    ensures now == Fold(was, AllDocs(batches, n))
  {
    forall id
      ensures SameAt(now, Fold(was, AllDocs(batches, n)), id)
    {
      FinalIff(batches, n, id);
      FinalEnds(was, batches, n, id, now);
    }
    EqualAt(now, Fold(was, AllDocs(batches, n)));
  }

  // ---------- the batches of a stream ----------

  lemma FlatMore(batches: seq<seq<Item>>, batch: seq<Item>)
    ensures Flat(batches + [batch]) == Flat(batches) + batch
  {
    assert (batches + [batch])[..|batches|] == batches;
  }

  lemma {:induction false} FlatFirst(first: seq<Item>, rest: seq<seq<Item>>)
    ensures Flat([first] + rest) == first + Flat(rest)
  {
    if rest == [] {
      FlatMore([], first);
      assert [] + [first] == [first] + rest;
    } else {
      FlatFirst(first, rest[..|rest| - 1]);
      FlatSwap(first, rest[..|rest| - 1], rest[|rest| - 1]);
      assert rest[..|rest| - 1] + [rest[|rest| - 1]] == rest;
    }
  }

  lemma FlatSwap(first: seq<Item>, init: seq<seq<Item>>, last: seq<Item>)
    requires Flat([first] + init) == first + Flat(init)
    ensures Flat([first] + (init + [last])) == first + Flat(init + [last])
  {
    assert [first] + (init + [last]) == ([first] + init) + [last];
    FlatMore([first] + init, last);
    FlatMore(init, last);
    assert first + Flat(init) + last == first + (Flat(init) + last);
  }

  lemma {:induction false} BatchesCarry(stream: seq<Item>, size: nat)
    requires size > 0
    ensures Flat(Batches(stream, size)) == stream
  {
    if stream != [] {
      if |stream| <= size {
        FlatMore([], stream);
        assert [] + [stream] == [stream];
      } else {
        BatchesCarry(stream[size..], size);
        FlatFirst(stream[..size], Batches(stream[size..], size));
        assert stream == stream[..size] + stream[size..];
      }
    }
  }

  /** What a streamed restore can leave is what the stream says in every outcome if and only if wherever a batch holds two
      versions of a document a later batch holds it again. */
  lemma StreamExactIff(was: Coll, stream: seq<Item>, size: nat, n: Name)
    requires size > 0
    ensures AlwaysEnds(was, Batches(stream, size), n, Fold(was, DocsOf(stream, n))) <==> Settled(Batches(stream, size), n)
  {
    BatchesCarry(stream, size);
    BatchesExactIff(was, Batches(stream, size), n);
  }

  /** A stream without two versions of a document of the collection is settled, whatever its batches. */
  lemma {:induction false} AgreeingSettled(batches: seq<seq<Item>>, n: Name)
    requires Agreeing(AllDocs(batches, n))
    ensures Settled(batches, n)
  {
    forall k, id | 0 <= k < |batches|
      ensures OneVersion(DocsOf(batches[k], n), id)
    {
      DocsAmongAll(batches, n, k);
      forall d, e | d in DocsOf(batches[k], n) && e in DocsOf(batches[k], n) && d.id == id == e.id
        ensures d == e
      {
        assert id in IdsIn(AllDocs(batches, n));
      }
    }
  }

  lemma {:induction false} DocsAmongAll(batches: seq<seq<Item>>, n: Name, k: nat)
    requires k < |batches|
    ensures forall d :: d in DocsOf(batches[k], n) ==> d in AllDocs(batches, n)
  {
    AllDocsLast(batches, n);
    if k < |batches| - 1 {
      assert batches[..|batches| - 1][k] == batches[k];
      DocsAmongAll(batches[..|batches| - 1], n, k);
    }
  }

  /** A whole number of batches. */
  predicate Whole(stream: seq<Item>, size: nat)
    requires size > 0
  {
    stream == [] || (|stream| >= size && Whole(stream[size..], size))
  }

  lemma {:induction false} BatchesMore(stream: seq<Item>, batch: seq<Item>, size: nat)
    requires size > 0 && 0 < |batch| <= size && Whole(stream, size)
    ensures Batches(stream + batch, size) == Batches(stream, size) + [batch]
    ensures |batch| == size ==> Whole(stream + batch, size)
  {
    var all := stream + batch;
    if stream == [] {
      assert all == batch;
    } else {
      assert all[..size] == stream[..size] && all[size..] == stream[size..] + batch;
      BatchesMore(stream[size..], batch, size);
      if |stream| == size {
        assert stream[size..] == [] && stream[..size] == stream;
      }
    }
  }
}
