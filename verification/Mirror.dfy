/** The warm mirror of the live database on a second cluster: one sync, with the failures and the writes it can meet. */
module Mirror {
  import opened ObjectIds

  // ---------- the second cluster ----------

  /** What the cluster answers to a bulk operation: all of it, or a failure after the first `landed` entries. */
  datatype Answer = Done | Broken(landed: nat)

  predicate Same(a: Coll, b: Coll, id: Oid) {
    (id in a <==> id in b) && (id in a ==> a[id] == b[id])
  }

  /** Every id is as in `was` or as in `src`. */
  ghost predicate Between(was: Coll, now: Coll, src: Coll) {
    forall id :: Same(now, was, id) || Same(now, src, id)
  }

  class Cluster {
    var colls: View
    var answers: seq<Answer>   // to the coming bulk operations; all later ones succeed

    constructor (colls: View, answers: seq<Answer>)
      ensures this.colls == colls && this.answers == answers
    {
      this.colls, this.answers := colls, answers;
    }

    method Ask(size: nat) returns (landed: nat)
      modifies this`answers
      ensures landed <= size
      ensures old(answers) == [] ==> landed == size && answers == []
    {
      landed := size;
      if answers != [] {
        if answers[0].Broken? && answers[0].landed < size {
          landed := answers[0].landed;
        }
        answers := answers[1..];
      }
    }

    method BulkReplace(n: Name, src: Coll, ids: seq<Oid>) returns (ok: bool)
      requires forall id :: id in ids ==> id in src
      modifies this
      ensures old(answers) == [] ==> ok && answers == []
      ensures forall m :: m != n ==> CollAt(colls, m) == CollAt(old(colls), m)
      ensures Between(CollAt(old(colls), n), CollAt(colls, n), src)
      ensures ok ==> forall id :: id in ids ==> Same(CollAt(colls, n), src, id)
      ensures forall id :: id !in ids ==> Same(CollAt(colls, n), CollAt(old(colls), n), id)
    {
      var landed := Ask(|ids|);
      var was, now := CollAt(colls, n), CollAt(colls, n);
      for i := 0 to landed
        invariant forall id :: id in ids[..i] ==> Same(now, src, id)
        invariant forall id :: id !in ids[..i] ==> Same(now, was, id)
        invariant colls == old(colls)
      {
        assert ids[..i + 1] == ids[..i] + [ids[i]];
        now := now[ids[i] := src[ids[i]]];
      }
      assert ids[..|ids|] == ids;
      colls := colls[n := now];
      ok := landed == |ids|;
    }

    method DeleteMany(n: Name, ghost src: Coll, ids: seq<Oid>) returns (ok: bool)
      requires forall id :: id in ids ==> id !in src
      modifies this
      ensures old(answers) == [] ==> ok && answers == []
      ensures forall m :: m != n ==> CollAt(colls, m) == CollAt(old(colls), m)
      ensures Between(CollAt(old(colls), n), CollAt(colls, n), src)
      ensures ok ==> forall id :: id in ids ==> id !in CollAt(colls, n)
      ensures forall id :: id !in ids ==> Same(CollAt(colls, n), CollAt(old(colls), n), id)
    {
      var landed := Ask(|ids|);
      var gone := ids[..landed];
      var was := CollAt(colls, n);
      colls := colls[n := map id | id in was && id !in gone :: was[id]];
      assert ids[..|ids|] == ids;
      ok := landed == |ids|;
    }
  }

  lemma PointwiseEqual(a: Coll, b: Coll)
    requires forall id :: Same(a, b, id)
    ensures a == b
  {
    forall id
      ensures id in a <==> id in b
      ensures id in a ==> a[id] == b[id]
    {
      assert Same(a, b, id);
    }
  }

  /** The first ids are written, the others as they were. */
  ghost predicate Written(was: Coll, now: Coll, src: Coll, done: seq<Oid>) {
    && (forall id :: id in done ==> Same(now, src, id))
    && (forall id :: id !in done ==> Same(now, was, id))
  }

  lemma WrittenMore(was: Coll, before: Coll, now: Coll, src: Coll, done: seq<Oid>, batch: seq<Oid>)
    requires Written(was, before, src, done)
    requires (forall id :: id in batch ==> Same(now, src, id)) && forall id :: id !in batch ==> Same(now, before, id)
    ensures Written(was, now, src, done + batch)
  {
    forall id
      ensures id in done + batch ==> Same(now, src, id)
      ensures id !in done + batch ==> Same(now, was, id)
    {
      if id !in batch {
        assert Same(now, before, id);
      }
    }
  }

  lemma WrittenBetween(was: Coll, before: Coll, now: Coll, src: Coll, done: seq<Oid>)
    requires Written(was, before, src, done) && Between(before, now, src)
    ensures Between(was, now, src)
  {
    forall id
      ensures Same(now, was, id) || Same(now, src, id)
    {
      assert Same(now, before, id) || Same(now, src, id);
      assert id in done ==> Same(before, src, id);
    }
  }

  lemma AllWritten(was: Coll, now: Coll, src: Coll, part: Coll, ids: seq<Oid>)
    requires Written(was, now, src, ids) && SubColl(part, src) && forall x :: x in ids <==> x in part
    ensures now == was + part
  {
    forall id
      ensures Same(now, was + part, id)
    {
      if id in part {
        assert Same(now, src, id);
      } else {
        assert Same(now, was, id);
      }
    }
    PointwiseEqual(now, was + part);
  }

  /** Replaces the documents of `part`, a query on `src`, in batches. */
  method Upsert(dst: Cluster, n: Name, src: Coll, part: Coll, size: nat) returns (ok: bool)
    requires size > 0 && SubColl(part, src)
    modifies dst
    ensures old(dst.answers) == [] ==> ok && dst.answers == []
    ensures forall m :: m != n ==> CollAt(dst.colls, m) == CollAt(old(dst.colls), m)
    ensures Between(CollAt(old(dst.colls), n), CollAt(dst.colls, n), src)
    ensures ok ==> CollAt(dst.colls, n) == CollAt(old(dst.colls), n) + part
  {
    var ids := ReadSorted(part);
    var pos := 0;
    ghost var was := CollAt(dst.colls, n);
    while pos < |ids|
      invariant 0 <= pos <= |ids|
      invariant old(dst.answers) == [] ==> dst.answers == []
      invariant forall m :: m != n ==> CollAt(dst.colls, m) == CollAt(old(dst.colls), m)
      invariant Written(was, CollAt(dst.colls, n), src, ids[..pos])
    {
      var end := if pos + size <= |ids| then pos + size else |ids|;
      assert ids[..end] == ids[..pos] + ids[pos..end];
      ghost var before := CollAt(dst.colls, n);
      ok := dst.BulkReplace(n, src, ids[pos..end]);
      WrittenBetween(was, before, CollAt(dst.colls, n), src, ids[..pos]);
      if !ok {
        return;
      }
      WrittenMore(was, before, CollAt(dst.colls, n), src, ids[..pos], ids[pos..end]);
      pos := end;
    }
    assert ids[..pos] == ids;
    ok := true;
    AllWritten(was, CollAt(dst.colls, n), src, part, ids);
  }

  /** Some documents that `keep` lacks are gone, all others as they were. */
  ghost predicate Pruned(was: Coll, now: Coll, keep: Coll) {
    forall id :: Same(now, was, id) || (id !in now && id !in keep)
  }

  /** The first ids are gone, the others as they were. */
  ghost predicate Removed(was: Coll, now: Coll, gone: seq<Oid>) {
    && (forall id :: id in gone ==> id !in now)
    && (forall id :: id !in gone ==> Same(now, was, id))
  }

  lemma RemovedMore(was: Coll, before: Coll, now: Coll, gone: seq<Oid>, batch: seq<Oid>)
    requires Removed(was, before, gone)
    requires (forall id :: id in batch ==> id !in now) && forall id :: id !in batch ==> Same(now, before, id)
    ensures Removed(was, now, gone + batch)
  {
    forall id
      ensures id in gone + batch ==> id !in now
      ensures id !in gone + batch ==> Same(now, was, id)
    {
      if id !in batch {
        assert Same(now, before, id);
      }
    }
  }

  lemma RemovedPruned(was: Coll, before: Coll, now: Coll, keep: Coll, gone: seq<Oid>)
    requires Removed(was, before, gone) && Between(before, now, keep) && forall id :: id in gone ==> id !in keep
    requires forall id :: id in keep ==> Same(now, before, id)
    ensures Pruned(was, now, keep)
  {
    forall id
      ensures Same(now, was, id) || (id !in now && id !in keep)
    {
      assert Same(now, before, id) || Same(now, keep, id);
      if id in gone {
        assert id !in before;
      }
    }
  }

  /** Deletes in chunks what the source no longer had. */
  method Prune(dst: Cluster, n: Name, src: Coll, size: nat) returns (ok: bool)
    requires size > 0
    modifies dst
    ensures old(dst.answers) == [] ==> ok && dst.answers == []
    ensures forall m :: m != n ==> CollAt(dst.colls, m) == CollAt(old(dst.colls), m)
    ensures Pruned(CollAt(old(dst.colls), n), CollAt(dst.colls, n), src)
    ensures ok ==> forall id :: id in CollAt(dst.colls, n) ==> id in src
  {
    ghost var was := CollAt(dst.colls, n);
    var stale := StaleIds(CollAt(dst.colls, n), src);
    var pos := 0;
    while pos < |stale|
      invariant 0 <= pos <= |stale|
      invariant old(dst.answers) == [] ==> dst.answers == []
      invariant forall m :: m != n ==> CollAt(dst.colls, m) == CollAt(old(dst.colls), m)
      invariant Removed(was, CollAt(dst.colls, n), stale[..pos])
    {
      var end := if pos + size <= |stale| then pos + size else |stale|;
      ghost var before := CollAt(dst.colls, n);
      assert forall id :: id in stale[pos..end] ==> id in stale;
      ok := dst.DeleteMany(n, src, stale[pos..end]);
      PruneStep(was, before, CollAt(dst.colls, n), src, stale, pos, end);
      if !ok {
        return;
      }
      pos := end;
    }
    assert stale[..pos] == stale;
    ok := true;
    AllRemoved(was, CollAt(dst.colls, n), src, stale);
  }

  method StaleIds(there: Coll, keep: Coll) returns (ids: seq<Oid>)
    ensures forall id :: id in ids <==> id in there && id !in keep
  {
    ids := ReadSorted(map id | id in there && id !in keep :: there[id]);
  }

  lemma PruneStep(was: Coll, before: Coll, now: Coll, keep: Coll, stale: seq<Oid>, pos: nat, end: nat)
    requires pos <= end <= |stale| && Removed(was, before, stale[..pos])
    requires forall id :: id in stale <==> id in was && id !in keep
    requires Between(before, now, keep) && forall id :: id !in stale[pos..end] ==> Same(now, before, id)
    ensures Pruned(was, now, keep)
    ensures (forall id :: id in stale[pos..end] ==> id !in now) ==> Removed(was, now, stale[..end])
  {
    assert stale[..end] == stale[..pos] + stale[pos..end];
    forall id
      ensures id in stale[..pos] || id in stale[pos..end] ==> id in stale
    {
    }
    RemovedPruned(was, before, now, keep, stale[..pos]);
    if forall id :: id in stale[pos..end] ==> id !in now {
      RemovedMore(was, before, now, stale[..pos], stale[pos..end]);
    }
  }

  lemma AllRemoved(was: Coll, now: Coll, keep: Coll, stale: seq<Oid>)
    requires Removed(was, now, stale) && forall id :: id in stale <==> id in was && id !in keep
    ensures Pruned(was, now, keep) && forall id :: id in now ==> id in keep
  {
    forall id
      ensures Same(now, was, id) || (id !in now && id !in keep)
      ensures id in now ==> id in keep
    {
      if id !in stale {
        assert Same(now, was, id);
      }
    }
  }

  /** What pruning by one view and then copying another leaves. */
  function Reconciled(was: Coll, prune: Coll, copy: Coll): Coll {
    (map id | id in was && id in prune :: was[id]) + copy
  }

  /** Every document is as it was, gone where the pruning view lacked it, or as in the copied view. */
  ghost predicate Drifted(was: Coll, now: Coll, prune: Coll, copy: Coll) {
    forall id :: Same(now, was, id) || (id !in now && id !in prune) || Same(now, copy, id)
  }

  lemma DriftedBoth(was: Coll, mid: Coll, now: Coll, prune: Coll, copy: Coll)
    requires Pruned(was, mid, prune) && Between(mid, now, copy)
    ensures Drifted(was, now, prune, copy)
  {
    forall id
      ensures Same(now, was, id) || (id !in now && id !in prune) || Same(now, copy, id)
    {
      assert Same(mid, was, id) || (id !in mid && id !in prune);
      assert Same(now, mid, id) || Same(now, copy, id);
    }
  }

  lemma PrunedThenCopied(was: Coll, mid: Coll, prune: Coll, copy: Coll)
    requires Pruned(was, mid, prune) && forall id :: id in mid ==> id in prune
    ensures mid + copy == Reconciled(was, prune, copy)
  {
    forall id
      ensures Same(mid + copy, Reconciled(was, prune, copy), id)
    {
      assert Same(mid, was, id) || (id !in mid && id !in prune);
    }
    PointwiseEqual(mid + copy, Reconciled(was, prune, copy));
  }

  /** Deletions first, then every document; the live collection may change in between. */
  method Reconcile(dst: Cluster, n: Name, prune: Coll, copy: Coll, size: nat) returns (ok: bool)
    requires size > 0
    modifies dst
    ensures old(dst.answers) == [] ==> ok && dst.answers == []
    ensures forall m :: m != n ==> CollAt(dst.colls, m) == CollAt(old(dst.colls), m)
    ensures Drifted(CollAt(old(dst.colls), n), CollAt(dst.colls, n), prune, copy)
    ensures ok ==> CollAt(dst.colls, n) == Reconciled(CollAt(old(dst.colls), n), prune, copy)
  {
    ghost var was := CollAt(dst.colls, n);
    ok := Prune(dst, n, prune, size);
    ghost var mid := CollAt(dst.colls, n);
    if ok {
      ok := Upsert(dst, n, copy, copy, size);
      PrunedThenCopied(was, mid, prune, copy);
    }
    DriftedBoth(was, mid, CollAt(dst.colls, n), prune, copy);
  }

  /** The mirror ends as the copied view if and only if nothing was deleted between the pruning and the copy that the mirror
      had. */
  lemma ReconcileAgreesIff(was: Coll, prune: Coll, copy: Coll)
    ensures Reconciled(was, prune, copy) == copy <==> forall id :: id in was && id in prune ==> id in copy
  {
    var now := Reconciled(was, prune, copy);
    if now == copy {
      forall id | id in was && id in prune
        ensures id in copy
      {
        assert id in now;
      }
    } else {
      assert (forall id :: id in was && id in prune ==> id in copy) ==> forall id :: Same(now, copy, id);
      if forall id :: id in was && id in prune ==> id in copy {
        PointwiseEqual(now, copy);
      }
    }
  }

  // ---------- one sync ----------

  const BATCH: nat := 500

  datatype Host = NoHost | Host(fp: string)

  /** The saved state. A digest stands for the content it was computed from. */
  datatype State = State(digests: View, marks: map<Name, Oid>, host: Host)

  /** What the successive reads of one collection's turn see, while the live application goes on writing: the first read
      computes the digest, or reads from the watermark on; then come the ids to prune by, the documents to copy, and the
      newest id. */
  datatype Turn = Turn(first: Coll, prune: Coll, copy: Coll, newest: Coll)

  function Frozen(c: Coll): Turn {
    Turn(c, c, c, c)
  }

  function TurnAt(turns: map<Name, Turn>, n: Name): Turn {
    if n in turns then turns[n] else Frozen(map[])
  }

  predicate Tracked(st: State, n: Name) {
    AppendOnly(n) && n in st.marks
  }

  /** The digest says that nothing changed since the last sync. */
  predicate Skips(st: State, n: Name, t: Turn, full: bool) {
    !full && n in st.digests && st.digests[n] == t.first
  }

  /** After a failed read from the watermark on: the copied view, and what the pruning let stand. */
  ghost predicate Rescued(was: Coll, now: Coll, t: Turn) {
    forall id ::
      if id in t.copy then Same(now, t.copy, id)
      else id !in now || (id in t.prune && (Same(now, was, id) || Same(now, t.first, id)))
  }

  /** What a turn that fails part-way can leave. */
  ghost predicate Blended(was: Coll, now: Coll, t: Turn) {
    forall id :: Same(now, was, id) || Same(now, t.first, id) || Same(now, t.copy, id) || (id !in now && id !in t.prune)
  }

  /** What a completed turn does for one collection. */
  ghost predicate Synced(n: Name, t: Turn, was: Coll, now: Coll, from: State, to: State, full: bool) {
    && (if Tracked(from, n) && !full then
          && (now == was + From(t.first, Back(from.marks[n])) || Rescued(was, now, t))
          && SameAt(from.digests, to.digests, n)
        else
          && now == (if Skips(from, n, t, full) then was else Reconciled(was, t.prune, t.copy))
          && n in to.digests && to.digests[n] == t.first)
    && (if AppendOnly(n) && t.newest != map[] then n in to.marks && IsLast(t.newest, to.marks[n])
        else SameAt(from.marks, to.marks, n))
  }

  predicate SameAt<K, V(==)>(a: map<K, V>, b: map<K, V>, k: K) {
    (k in a <==> k in b) && (k in a ==> a[k] == b[k])
  }

  lemma RescuedAfter(was: Coll, mid: Coll, t: Turn)
    requires Between(was, mid, t.first)
    ensures Rescued(was, Reconciled(mid, t.prune, t.copy), t)
  {
    var now := Reconciled(mid, t.prune, t.copy);
    forall id
      ensures if id in t.copy then Same(now, t.copy, id)
              else id !in now || (id in t.prune && (Same(now, was, id) || Same(now, t.first, id)))
    {
      assert Same(mid, was, id) || Same(mid, t.first, id);
    }
  }

  lemma BlendedAfter(was: Coll, mid: Coll, now: Coll, t: Turn)
    requires Between(was, mid, t.first) && Drifted(mid, now, t.prune, t.copy)
    ensures Blended(was, now, t)
  {
    forall id
      ensures Same(now, was, id) || Same(now, t.first, id) || Same(now, t.copy, id) || (id !in now && id !in t.prune)
    {
      assert Same(mid, was, id) || Same(mid, t.first, id);
      assert Same(now, mid, id) || (id !in now && id !in t.prune) || Same(now, t.copy, id);
    }
  }

  /** The collection itself: from the watermark on with a fallback, or by digest. */
  method CopyOne(dst: Cluster, n: Name, t: Turn, st: State, full: bool) returns (ok: bool)
    modifies dst
    ensures forall m :: m != n ==> CollAt(dst.colls, m) == CollAt(old(dst.colls), m)
    ensures Blended(CollAt(old(dst.colls), n), CollAt(dst.colls, n), t)
    ensures old(dst.answers) == [] ==> ok && dst.answers == []
    ensures ok ==>
              var was, now := CollAt(old(dst.colls), n), CollAt(dst.colls, n);
              if Tracked(st, n) && !full then now == was + From(t.first, Back(st.marks[n])) || Rescued(was, now, t)
              else now == (if Skips(st, n, t, full) then was else Reconciled(was, t.prune, t.copy))
  {
    ghost var was := CollAt(dst.colls, n);
    if Tracked(st, n) && !full {
      ok := Upsert(dst, n, t.first, From(t.first, Back(st.marks[n])), BATCH);
      ghost var mid := CollAt(dst.colls, n);
      if !ok {
        ok := Reconcile(dst, n, t.prune, t.copy, BATCH);
        RescuedAfter(was, mid, t);
      }
      BlendedAfter(was, mid, CollAt(dst.colls, n), t);
    } else {
      ok := true;
      if !Skips(st, n, t, full) {
        ok := Reconcile(dst, n, t.prune, t.copy, BATCH);
      }
      BlendedAfter(was, was, CollAt(dst.colls, n), t);
    }
  }

  method SyncOne(dst: Cluster, n: Name, t: Turn, st: State, full: bool) returns (ok: bool, st': State)
    modifies dst
    ensures forall m :: m != n ==> CollAt(dst.colls, m) == CollAt(old(dst.colls), m)
    ensures Blended(CollAt(old(dst.colls), n), CollAt(dst.colls, n), t)
    ensures old(dst.answers) == [] ==> ok && dst.answers == []
    ensures ok ==> Synced(n, t, CollAt(old(dst.colls), n), CollAt(dst.colls, n), st, st', full)
    ensures st'.host == st.host
    ensures forall m :: m != n ==> SameAt(st.digests, st'.digests, m) && SameAt(st.marks, st'.marks, m)
  {
    st' := st;
    ok := CopyOne(dst, n, t, st, full);
    if !Tracked(st, n) || full {
      st' := st'.(digests := st'.digests[n := t.first]);
    }
    if AppendOnly(n) && t.newest != map[] {
      var newest := Newest(t.newest);
      st' := st'.(marks := st'.marks[n := newest]);
    }
  }

  method Newest(c: Coll) returns (id: Oid)
    requires c != map[]
    ensures IsLast(c, id)
  {
    var ids := ReadSorted(c);
    var x :| x in c;
    assert x in ids;
    id := ids[|ids| - 1];
    forall y | y in c
      ensures !Lt(id, y)
    {
      var j :| 0 <= j < |ids| && ids[j] == y;
    }
  }

  predicate Mirrored(n: Name) {
    !n.Other? || !("system." <= n.name || SecurityOnly(n.name))
  }

  predicate SecurityOnly(name: string) {
    || name == "otps" || name == "admin_otps" || name == "otp_attempts" || name == "login_attempts"
    || name == "revoked_tokens" || name == "ip_rate_limits" || name == "otp_send_state" || name == "otp_guess_state"
    || name == "ip_send_stats"
  }

  /** Every collection that is backed up is mirrored, and of the others all but the system's and the nine that hold short-lived
      authentication and rate-limit state. */
  lemma MirroredIff(n: Name)
    ensures !Mirrored(n) <==>
              && n.Other?
              && (n.name[..if |n.name| < 7 then |n.name| else 7] == "system."
                  || n.name in {"otps", "admin_otps", "otp_attempts", "login_attempts", "revoked_tokens", "ip_rate_limits",
                                "otp_send_state", "otp_guess_state", "ip_send_stats"})
  {
  }

  /** The collections of the live database that are mirrored. */
  method ListNames(live: View) returns (names: seq<Name>)
    ensures forall n :: n in names <==> n in live && Mirrored(n)
    ensures forall i, j :: 0 <= i < j < |names| ==> names[i] != names[j]
  {
    names := [];
    var todo := live.Keys;
    while todo != {}
      invariant todo <= live.Keys
      invariant forall n :: n in names <==> n in live && n !in todo && Mirrored(n)
      invariant forall i, j :: 0 <= i < j < |names| ==> names[i] != names[j]
      decreases todo
    {
      var n :| n in todo;
      todo := todo - {n};
      if Mirrored(n) {
        names := names + [n];
      }
    }
  }

  function Effective(st: State, host: string): State {
    if st.host == Host(host) then st else State(map[], map[], Host(host))
  }

  /** Every collection is as it was, or as far as its turn got. */
  ghost predicate AllBlended(was: View, now: View, turns: map<Name, Turn>) {
    forall n :: Blended(CollAt(was, n), CollAt(now, n), TurnAt(turns, n))
  }

  /** The collections whose counts differ after their turn. */
  ghost predicate Mismatching(mismatches: seq<Name>, done: seq<Name>, turns: map<Name, Turn>, now: View) {
    forall n :: n in mismatches <==> n in done && |TurnAt(turns, n).newest| != |CollAt(now, n)|
  }

  /** One sync of `names`. A failed sync saves nothing. */
  method SyncMirror(dst: Cluster, host: string, names: seq<Name>, turns: map<Name, Turn>, st: State, full: bool)
    returns (ok: bool, st': State, mismatches: seq<Name>)
    requires forall i, j :: 0 <= i < j < |names| ==> names[i] != names[j]
    modifies dst
    ensures forall n :: n !in names ==> CollAt(dst.colls, n) == CollAt(old(dst.colls), n)
    ensures AllBlended(old(dst.colls), dst.colls, turns)
    ensures old(dst.answers) == [] ==> ok
    ensures !ok ==> st' == st
    ensures ok ==> SyncedAll(names, turns, old(dst.colls), dst.colls, st, host, full, st')
    ensures ok ==> forall n :: n in mismatches <==> n in names && |TurnAt(turns, n).newest| != |CollAt(dst.colls, n)|
  {
    var from := Effective(st, host);
    var full' := full || st.host != Host(host);
    var cur := from;
    mismatches := [];
    ok := true;
    for i := 0 to |names|
      invariant old(dst.answers) == [] ==> dst.answers == []
      invariant cur.host == Host(host)
      invariant forall n :: n !in names[..i] ==> CollAt(dst.colls, n) == CollAt(old(dst.colls), n)
      invariant AllBlended(old(dst.colls), dst.colls, turns)
      invariant Done(names[..i], turns, old(dst.colls), dst.colls, from, cur, full') && Untouched(names[..i], from, cur)
      invariant Mismatching(mismatches, names[..i], turns, dst.colls)
    {
      var n := names[i];
      assert n !in names[..i] && names[..i + 1] == names[..i] + [n];
      ghost var before, coll := cur, dst.colls;
      ok, cur := SyncOne(dst, n, TurnAt(turns, n), cur, full');
      BlendedMore(old(dst.colls), coll, dst.colls, turns, n);
      if !ok {
        return false, st, [];
      }
      DoneMore(names[..i], n, turns, old(dst.colls), coll, dst.colls, from, before, cur, full');
      MismatchingMore(mismatches, names[..i], n, turns, coll, dst.colls);
      if |TurnAt(turns, n).newest| != |CollAt(dst.colls, n)| {
        mismatches := mismatches + [n];
      }
    }
    assert names[..|names|] == names;
    st' := cur;
  }

  lemma BlendedMore(was: View, before: View, now: View, turns: map<Name, Turn>, n: Name)
    requires AllBlended(was, before, turns) && CollAt(before, n) == CollAt(was, n)
    requires Blended(CollAt(before, n), CollAt(now, n), TurnAt(turns, n))
    requires forall m :: m != n ==> CollAt(now, m) == CollAt(before, m)
    ensures AllBlended(was, now, turns)
  {
    forall m
      ensures Blended(CollAt(was, m), CollAt(now, m), TurnAt(turns, m))
    {
      assert Blended(CollAt(was, m), CollAt(before, m), TurnAt(turns, m));
    }
  }

  lemma MismatchingMore(mismatches: seq<Name>, done: seq<Name>, n: Name, turns: map<Name, Turn>, before: View, now: View)
    requires Mismatching(mismatches, done, turns, before) && n !in done
    requires forall m :: m != n ==> CollAt(now, m) == CollAt(before, m)
    ensures Mismatching(if |TurnAt(turns, n).newest| != |CollAt(now, n)| then mismatches + [n] else mismatches, done + [n],
                        turns, now)
  {
    var more := if |TurnAt(turns, n).newest| != |CollAt(now, n)| then mismatches + [n] else mismatches;
    forall m
      ensures m in more <==> m in done + [n] && |TurnAt(turns, m).newest| != |CollAt(now, m)|
    {
      assert m in mismatches <==> m in done && |TurnAt(turns, m).newest| != |CollAt(before, m)|;
    }
  }

  /** The collections of `done` have had their turn. */
  ghost predicate Done(done: seq<Name>, turns: map<Name, Turn>, was: View, now: View, from: State, to: State, full: bool) {
    forall n :: n in done ==> Synced(n, TurnAt(turns, n), CollAt(was, n), CollAt(now, n), from, to, full)
  }

  /** What is saved about all other collections is as before. */
  ghost predicate Untouched(done: seq<Name>, from: State, to: State) {
    forall n :: n !in done ==> SameAt(from.digests, to.digests, n) && SameAt(from.marks, to.marks, n)
  }

  lemma SyncedFrom(n: Name, t: Turn, was: Coll, now: Coll, from: State, to: State, from': State, to': State, full: bool)
    requires Synced(n, t, was, now, from, to, full)
    requires SameAt(from.digests, from'.digests, n) && SameAt(from.marks, from'.marks, n)
    requires SameAt(to.digests, to'.digests, n) && SameAt(to.marks, to'.marks, n)
    ensures Synced(n, t, was, now, from', to', full)
  {
  }

  /** The turn of `n` changes neither what was done for earlier collections nor the saved facts of later ones. */
  lemma DoneMore(done: seq<Name>, n: Name, turns: map<Name, Turn>, was: View, before: View, now: View, from: State, mid: State,
                 to: State, full: bool)
    requires n !in done && Done(done, turns, was, before, from, mid, full) && Untouched(done, from, mid)
    requires forall m :: m != n ==> SameAt(mid.digests, to.digests, m) && SameAt(mid.marks, to.marks, m)
    requires forall m :: m != n ==> CollAt(now, m) == CollAt(before, m)
    requires CollAt(before, n) == CollAt(was, n)
    requires Synced(n, TurnAt(turns, n), CollAt(was, n), CollAt(now, n), mid, to, full)
    ensures Done(done + [n], turns, was, now, from, to, full) && Untouched(done + [n], from, to)
  {
    SyncedFrom(n, TurnAt(turns, n), CollAt(was, n), CollAt(now, n), mid, to, from, to, full);
    forall m | m in done
      ensures Synced(m, TurnAt(turns, m), CollAt(was, m), CollAt(now, m), from, to, full)
    {
      SyncedFrom(m, TurnAt(turns, m), CollAt(was, m), CollAt(before, m), from, mid, from, to, full);
    }
    forall m | m !in done + [n]
      ensures SameAt(from.digests, to.digests, m) && SameAt(from.marks, to.marks, m)
    {
      assert SameAt(mid.digests, to.digests, m) && SameAt(mid.marks, to.marks, m);
      assert SameAt(from.digests, mid.digests, m) && SameAt(from.marks, mid.marks, m);
    }
  }

  /** A completed sync: a cluster other than the last one makes it a full sync from nothing. */
  ghost predicate SyncedAll(names: seq<Name>, turns: map<Name, Turn>, was: View, now: View, st: State, host: string,
                            full: bool, st': State) {
    var from := Effective(st, host);
    && st'.host == Host(host)
    && Done(names, turns, was, now, from, st', full || st.host != Host(host))
    && Untouched(names, from, st')
    && (forall n :: n !in names ==> CollAt(was, n) == CollAt(now, n))
  }

  /** A full sync leaves each listed collection as it copied it, whatever the mirror and the saved state were, if nothing was
      deleted between the pruning and the copy. */
  lemma FullSyncAgrees(names: seq<Name>, turns: map<Name, Turn>, was: View, now: View, st: State, host: string, st': State,
                       n: Name)
    requires SyncedAll(names, turns, was, now, st, host, true, st') && n in names
    requires TurnAt(turns, n).prune.Keys <= TurnAt(turns, n).copy.Keys
    ensures CollAt(now, n) == TurnAt(turns, n).copy
  {
    var t := TurnAt(turns, n);
    assert Synced(n, t, CollAt(was, n), CollAt(now, n), Effective(st, host), st', true);
    ReconcileAgreesIff(CollAt(was, n), t.prune, t.copy);
  }

  /** A full sync of everything that is mirrored; what is excluded is never touched. */
  method FullSync(dst: Cluster, host: string, live: View, turns: map<Name, Turn>, st: State) returns (ok: bool, st': State)
    modifies dst
    ensures ok ==> forall n :: n in live && Mirrored(n) ==>
              var t := TurnAt(turns, n); CollAt(dst.colls, n) == Reconciled(CollAt(old(dst.colls), n), t.prune, t.copy)
    ensures forall n :: !Mirrored(n) ==> CollAt(dst.colls, n) == CollAt(old(dst.colls), n)
    ensures old(dst.answers) == [] ==> ok
  {
    var names := ListNames(live);
    var mismatches;
    ok, st', mismatches := SyncMirror(dst, host, names, turns, st, true);
    if ok {
      forall n | n in names
        ensures var t := TurnAt(turns, n);
                CollAt(dst.colls, n) == Reconciled(CollAt(old(dst.colls), n), t.prune, t.copy)
      {
        assert Synced(n, TurnAt(turns, n), CollAt(old(dst.colls), n), CollAt(dst.colls, n), Effective(st, host), st', true);
      }
    }
  }
}
