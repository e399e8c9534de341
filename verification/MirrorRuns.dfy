/** Runs of mirror syncs, to one cluster or several, while the live application goes on writing: exactly when the next sync
    leaves a difference standing. */
module MirrorRuns {
  import opened ObjectIds
  import opened Mirror

  /** `mirrors` holds what is on each cluster. */
  datatype World = World(live: View, mirrors: map<string, View>, state: State)

  datatype Event =
    | Write                               // the live database changes
    | Sync(host: string, full: bool, names: seq<Name>, turns: map<Name, Turn>)
    | FailedSync(host: string, names: seq<Name>, turns: map<Name, Turn>)

  function MirrorOn(w: World, host: string): View {
    if host in w.mirrors then w.mirrors[host] else map[]
  }

  predicate Switches(w: World, host: string) {
    w.state.host != Host(host)
  }

  ghost predicate Step(w: World, e: Event, w': World) {
    match e
    case Write => w' == w.(live := w'.live)
    case Sync(host, full, names, turns) =>
      && SyncedAll(names, turns, MirrorOn(w, host), MirrorOn(w', host), w.state, host, full, w'.state)
      && w'.mirrors == w.mirrors[host := MirrorOn(w', host)]
    case FailedSync(host, names, turns) =>
      && AllBlended(MirrorOn(w, host), MirrorOn(w', host), turns)
      && (forall n :: n !in names ==> CollAt(MirrorOn(w, host), n) == CollAt(MirrorOn(w', host), n))
      && w'.mirrors == w.mirrors[host := MirrorOn(w', host)]
      && w'.state == w.state
  }

  datatype Run = Begin(live: View, mirrors: map<string, View>) | Then(before: Run, event: Event, world: World)

  function End(r: Run): World {
    match r
    case Begin(live, mirrors) => World(live, mirrors, State(map[], map[], NoHost))
    case Then(_, _, w) => w
  }

  ghost predicate Valid(r: Run) {
    r.Then? ==> Valid(r.before) && Step(End(r.before), r.event, r.world)
  }

  ghost predicate AllSyncsOk(r: Run) {
    r.Then? ==> AllSyncsOk(r.before) && !r.event.FailedSync?
  }

  /** The mirror that the saved state is about. */
  function Current(w: World, n: Name): Coll {
    if w.state.host.Host? then CollAt(MirrorOn(w, w.state.host.fp), n) else map[]
  }

  /** A turn of `n` alone, with nothing else changing. */
  predicate OneTurn(w: World, n: Name, t: Turn, e: Event) {
    w.state.host.Host? && e == Sync(w.state.host.fp, false, [n], map[n := t])
  }

  /** Every next incremental sync of the collection, standing still at `c`, makes the mirror equal. */
  ghost predicate NextAgrees(w: World, n: Name, c: Coll) {
    forall e, w' :: OneTurn(w, n, Frozen(c), e) && Step(w, e, w') ==> Current(w', n) == c
  }

  /** What such a sync can leave. */
  function AfterTurn(w: World, n: Name, now: Coll, digests: View, marks: map<Name, Oid>): World {
    if w.state.host.Host? then
      var fp := w.state.host.fp;
      World(w.live, w.mirrors[fp := MirrorOn(w, fp)[n := now]], State(digests, marks, w.state.host))
    else w
  }

  lemma TurnIsStep(w: World, n: Name, t: Turn, now: Coll, digests: View, marks: map<Name, Oid>, e: Event)
    requires OneTurn(w, n, t, e)
    requires Synced(n, t, Current(w, n), now, w.state, State(digests, marks, w.state.host), false)
    requires forall m :: m != n ==> SameAt(w.state.digests, digests, m) && SameAt(w.state.marks, marks, m)
    ensures var w' := AfterTurn(w, n, now, digests, marks);
            Step(w, e, w') && Current(w', n) == now && OneTurn(w', n, t, e)
  {
    var fp := w.state.host.fp;
    OneSynced(n, t, MirrorOn(w, fp), now, w.state, State(digests, marks, w.state.host), fp);
    assert MirrorOn(AfterTurn(w, n, now, digests, marks), fp) == MirrorOn(w, fp)[n := now];
  }

  lemma OneSynced(n: Name, t: Turn, m: View, now: Coll, st: State, st': State, fp: string)
    requires st.host == st'.host == Host(fp) && Synced(n, t, CollAt(m, n), now, st, st', false)
    requires forall k :: k != n ==> SameAt(st.digests, st'.digests, k) && SameAt(st.marks, st'.marks, k)
    ensures SyncedAll([n], map[n := t], m, m[n := now], st, fp, false, st')
  {
    assert forall k :: k != n ==> CollAt(m[n := now], k) == CollAt(m, k);
    assert CollAt(m[n := now], n) == now;
  }

  lemma TurnSynced(w: World, n: Name, t: Turn, e: Event, w': World)
    requires OneTurn(w, n, t, e) && Step(w, e, w')
    ensures w'.state.host == w.state.host && Synced(n, t, Current(w, n), Current(w', n), w.state, w'.state, false)
  {
    assert n in [n];
  }

  /** The watermarks after a turn that has seen `c`. */
  lemma NextMarks(w: World, n: Name, c: Coll) returns (marks: map<Name, Oid>)
    ensures forall m :: m != n ==> SameAt(w.state.marks, marks, m)
    ensures if AppendOnly(n) && c != map[] then n in marks && IsLast(c, marks[n]) else SameAt(w.state.marks, marks, n)
  {
    marks := w.state.marks;
    if AppendOnly(n) && c != map[] {
      var id := HasLast(c);
      marks := marks[n := id];
    }
  }

  // ---------- a collection that is compared by digest ----------

  predicate Digested(w: World, n: Name) {
    w.state.host.Host? && !Tracked(w.state, n) && n in w.state.digests
  }

  /** The saved digest is not that of the mirror. */
  predicate Hidden(w: World, n: Name) {
    Digested(w, n) && w.state.digests[n] != Current(w, n)
  }

  /** Whatever the collection is when the next incremental sync comes, as long as it stands still, the mirror ends equal if and
      only if nothing is hidden. */
  lemma HidesIff(w: World, n: Name)
    requires w.state.host.Host? && !Tracked(w.state, n)
    ensures (forall c :: NextAgrees(w, n, c)) <==> !Hidden(w, n)
  {
    if Hidden(w, n) {
      HiddenStands(w, n);
    } else {
      forall c
        ensures NextAgrees(w, n, c)
      {
        forall e, w' | OneTurn(w, n, Frozen(c), e) && Step(w, e, w')
          ensures Current(w', n) == c
        {
          TurnSynced(w, n, Frozen(c), e, w');
          ReconcileAgreesIff(Current(w, n), c, c);
        }
      }
    }
  }

  lemma HiddenStands(w: World, n: Name)
    requires Hidden(w, n)
    ensures !NextAgrees(w, n, w.state.digests[n])
  {
    var c := w.state.digests[n];
    var marks := NextMarks(w, n, c);
    var e := Sync(w.state.host.fp, false, [n], map[n := Frozen(c)]);
    TurnIsStep(w, n, Frozen(c), Current(w, n), w.state.digests, marks, e);
    assert Current(AfterTurn(w, n, Current(w, n), w.state.digests, marks), n) != c;
  }

  /** Whether a turn prunes and copies. */
  predicate Copies(w: World, e: Event, n: Name) {
    e.Sync? && n in e.names &&
    var from, full := Effective(w.state, e.host), e.full || Switches(w, e.host);
    !(Tracked(from, n) && !full) && !Skips(from, n, TurnAt(e.turns, n), full)
  }

  /** What the digest was computed from is what the mirror then holds: the copied version of every copied document, and of the
      others those that the mirror had and the pruning let stand. */
  predicate Described(t: Turn, was: Coll) {
    && (forall id :: id in t.copy ==> Same(t.first, t.copy, id))
    && (forall id :: id in t.first && id !in t.copy ==> id in t.prune && Same(was, t.first, id))
    && (forall id :: id in was && id in t.prune && id !in t.copy ==> id in t.first)
  }

  lemma DescribedIff(t: Turn, was: Coll)
    ensures t.first == Reconciled(was, t.prune, t.copy) <==> Described(t, was)
    ensures t.prune.Keys <= t.copy.Keys ==> (Described(t, was) <==> t.first == t.copy)
  {
    var now := Reconciled(was, t.prune, t.copy);
    if Described(t, was) {
      forall id
        ensures Same(t.first, now, id)
      {
      }
      PointwiseEqual(t.first, now);
    }
    if t.prune.Keys <= t.copy.Keys {
      ReconcileAgreesIff(was, t.prune, t.copy);
    }
  }

  /** Whether a step hides something of a collection of which nothing is hidden: a turn that copies does if its digest does not
      describe what the mirror then holds, and a failed sync if anything of the collection landed. */
  ghost predicate Hides(w: World, e: Event, w': World, n: Name) {
    match e
    case Write => false
    case Sync(host, _, _, turns) =>
      Copies(w, e, n) && !Tracked(w'.state, n) && !Described(TurnAt(turns, n), CollAt(MirrorOn(w, host), n))
    case FailedSync(host, _, _) =>
      !Switches(w, host) && Digested(w, n) && CollAt(MirrorOn(w', host), n) != CollAt(MirrorOn(w, host), n)
  }

  lemma TurnsHiddenIff(w: World, e: Event, w': World, n: Name)
    requires Step(w, e, w') && !Hidden(w, n)
    ensures Hidden(w', n) <==> Hides(w, e, w', n)
  {
    match e
    case Write =>
    case Sync(_, _, names, _) =>
      if n in names {
        SyncTurnsHidden(w, e, w', n);
      } else {
        SyncPassesBy(w, e, w', n);
      }
    case FailedSync(_, _, _) =>
      FailureTurnsHidden(w, e, w', n);
  }

  lemma SyncTurnsHidden(w: World, e: Event, w': World, n: Name)
    requires Step(w, e, w') && !Hidden(w, n) && e.Sync? && n in e.names
    ensures Hidden(w', n) <==> Hides(w, e, w', n)
  {
    var t, full, from := TurnAt(e.turns, n), e.full || Switches(w, e.host), Effective(w.state, e.host);
    var was, now := CollAt(MirrorOn(w, e.host), n), CollAt(MirrorOn(w', e.host), n);
    assert Synced(n, t, was, now, from, w'.state, full);
    assert w'.state.host == Host(e.host) && Current(w', n) == now;
    DescribedIff(t, was);
  }

  lemma SyncPassesBy(w: World, e: Event, w': World, n: Name)
    requires Step(w, e, w') && !Hidden(w, n) && e.Sync? && n !in e.names
    ensures !Hidden(w', n)
  {
    var from := Effective(w.state, e.host);
    assert w'.state.host == Host(e.host);
    assert SameAt(from.digests, w'.state.digests, n) && SameAt(from.marks, w'.state.marks, n);
    assert CollAt(MirrorOn(w', e.host), n) == CollAt(MirrorOn(w, e.host), n);
  }

  lemma FailureTurnsHidden(w: World, e: Event, w': World, n: Name)
    requires Step(w, e, w') && !Hidden(w, n) && e.FailedSync?
    ensures Hidden(w', n) <==> Hides(w, e, w', n)
  {
    if w.state.host.Host? && Switches(w, e.host) {
      assert MirrorOn(w', w.state.host.fp) == MirrorOn(w, w.state.host.fp);
    }
  }

  ghost predicate NeverHidden(r: Run, n: Name) {
    !Hidden(End(r), n) && (r.Then? ==> NeverHidden(r.before, n))
  }

  ghost predicate NeverHides(r: Run, n: Name) {
    r.Then? ==> NeverHides(r.before, n) && !Hides(End(r.before), r.event, r.world, n)
  }

  /** Along every run of syncs and failed syncs, to one cluster or several, nothing is ever hidden if and only if no step hides
      anything. */
  lemma {:induction false} NeverHiddenIff(r: Run, n: Name)
    requires Valid(r)
    ensures NeverHidden(r, n) <==> NeverHides(r, n)
  {
    if r.Then? {
      NeverHiddenIff(r.before, n);
      if NeverHidden(r.before, n) {
        TurnsHiddenIff(End(r.before), r.event, r.world, n);
      }
    }
  }

  /** Every turn of the collection copied what its digest was computed from, with no document deleted in between. */
  ghost predicate TurnsStill(r: Run, n: Name) {
    r.Then? ==>
      && TurnsStill(r.before, n)
      && (r.event.Sync? && n in r.event.names ==>
            var t := TurnAt(r.event.turns, n); t.first == t.copy && t.prune.Keys <= t.copy.Keys)
  }

  /** So if every sync succeeds and the collection stands still during its turns, nothing is ever hidden. */
  lemma {:induction false} StillNeverHidden(r: Run, n: Name)
    requires Valid(r) && AllSyncsOk(r) && TurnsStill(r, n)
    ensures NeverHidden(r, n)
  {
    if r.Then? {
      StillNeverHidden(r.before, n);
      TurnsHiddenIff(End(r.before), r.event, r.world, n);
      if Copies(End(r.before), r.event, n) {
        DescribedIff(TurnAt(r.event.turns, n), CollAt(MirrorOn(End(r.before), r.event.host), n));
      }
    }
  }

  /** What a completed sync leaves of a collection that is not read by watermark: one that copies makes it the copied view if
      and only if no document that the mirror had was deleted between the pruning and the copy; one that skips leaves it
      as it was read if and only if nothing was hidden. */
  lemma MirrorAgreesIff(w: World, e: Event, w': World, n: Name)
    requires Step(w, e, w') && e.Sync? && n in e.names
    requires !Tracked(Effective(w.state, e.host), n) || e.full || Switches(w, e.host)
    ensures var t, was, now := TurnAt(e.turns, n), CollAt(MirrorOn(w, e.host), n), CollAt(MirrorOn(w', e.host), n);
            if Copies(w, e, n) then now == t.copy <==> forall id :: id in was && id in t.prune ==> id in t.copy
            else now == t.first <==> !Hidden(w, n)
  {
    var t, full, from := TurnAt(e.turns, n), e.full || Switches(w, e.host), Effective(w.state, e.host);
    var was, now := CollAt(MirrorOn(w, e.host), n), CollAt(MirrorOn(w', e.host), n);
    assert Synced(n, t, was, now, from, w'.state, full);
    ReconcileAgreesIff(was, t.prune, t.copy);
  }

  // ---------- a collection that is read by watermark ----------

  predicate Caught(w: World, n: Name)
    requires Tracked(w.state, n)
  {
    KeptUp(Current(w, n), CollAt(w.live, n), w.state.marks[n])
  }

  /** Every next incremental sync of the collection as it now is makes the mirror equal if and only if the mirror has kept up:
      it lacks nothing before the overlap point, in the live version, and holds nothing deleted. */
  lemma CaughtIff(w: World, n: Name)
    requires w.state.host.Host? && Tracked(w.state, n)
    ensures NextAgrees(w, n, CollAt(w.live, n)) <==> Caught(w, n)
  {
    var live, mark := CollAt(w.live, n), w.state.marks[n];
    OverlapExactIff(Current(w, n), live, mark);
    if Caught(w, n) {
      forall e, w' | OneTurn(w, n, Frozen(live), e) && Step(w, e, w')
        ensures Current(w', n) == live
      {
        TurnSynced(w, n, Frozen(live), e, w');
        if Rescued(Current(w, n), Current(w', n), Frozen(live)) {
          RescuedStill(Current(w, n), Current(w', n), live);
        }
      }
    } else {
      var now := Current(w, n) + From(live, Back(mark));
      var marks := NextMarks(w, n, live);
      var e := Sync(w.state.host.fp, false, [n], map[n := Frozen(live)]);
      TurnIsStep(w, n, Frozen(live), now, w.state.digests, marks, e);
      assert Current(AfterTurn(w, n, now, w.state.digests, marks), n) != live;
    }
  }

  lemma RescuedStill(was: Coll, now: Coll, c: Coll)
    requires Rescued(was, now, Frozen(c))
    ensures now == c
  {
    forall id
      ensures Same(now, c, id)
    {
      assert if id in c then Same(now, c, id) else id !in now || (id in c && (Same(now, was, id) || Same(now, c, id)));
    }
    PointwiseEqual(now, c);
  }

  /** A collection that has kept up does so after a write if and only if no mirrored document was deleted, and none before the
      overlap point was inserted or changed. */
  lemma WriteCaughtIff(w: World, w': World, n: Name)
    requires Step(w, Write, w') && Tracked(w.state, n) && Caught(w, n)
    ensures var live, live' := CollAt(w.live, n), CollAt(w'.live, n);
            Caught(w', n) <==>
              && (forall x :: x in Current(w, n) ==> x in live')
              && (forall x :: x in live' && Lt(x, Back(w.state.marks[n])) ==> Same(live, live', x))
  {
  }

  // ---------- what the digest cannot see ----------

  lemma OneCollSynced(n: Name, t: Turn, m: View, full: bool, st: State, m': Coll, st': State)
    requires !AppendOnly(n) && st'.host == Host("a") && n in st'.digests && st'.digests[n] == t.first
    requires st'.digests.Keys <= {n} && st'.marks == map[] && m.Keys <= {n}
    requires if full then st.host == NoHost && m == map[] && m' == t.copy else st == st' && m == map[n := m']
    ensures SyncedAll([n], map[n := t], m, map[n := m'], st, "a", full, st')
  {
    assert n in [n];
    if full {
      ReconcileAgreesIff(map[], t.prune, t.copy);
    }
  }

  lemma OneMore(r: Run, e: Event, w': World)
    requires Valid(r) && Step(End(r), e, w')
    ensures Valid(Then(r, e, w'))
  {
  }

  /** A failed sync gets as far as writing a change, the change is undone in the live database, and the next incremental sync
      finds the old digest and writes nothing. */
  lemma FailedSyncHidesAChange(n: Name, x: Coll, y: Coll)
    requires !AppendOnly(n) && x != y
    ensures exists r: Run :: Valid(r) && r.Then? && r.event == Sync("a", false, [n], map[n := Frozen(x)])
                             && CollAt(MirrorOn(r.world, "a"), n) == y
  {
    var st := State(map[n := x], map[], Host("a"));
    var w1 := World(map[n := x], map["a" := map[n := x]], st);
    var w2 := World(map[n := y], map["a" := map[n := x]], st);
    var w3 := World(map[n := y], map["a" := map[n := y]], st);
    var w4 := World(map[n := x], map["a" := map[n := y]], st);
    var r1 := Then(Begin(map[n := x], map[]), Sync("a", true, [n], map[n := Frozen(x)]), w1);
    OneCollSynced(n, Frozen(x), map[], true, End(r1.before).state, x, st);
    OneMore(r1.before, r1.event, w1);
    OneMore(r1, Write, w2);
    var r2 := Then(r1, Write, w2);
    FailedStep(n, x, y, st);
    OneMore(r2, FailedSync("a", [n], map[n := Frozen(y)]), w3);
    var r3 := Then(r2, FailedSync("a", [n], map[n := Frozen(y)]), w3);
    OneMore(r3, Write, w4);
    LastStepHides(Then(r3, Write, w4), n, x, y, w4, st);
  }

  lemma FailedStep(n: Name, x: Coll, y: Coll, st: State)
    requires !AppendOnly(n) && st.host == Host("a")
    ensures Step(World(map[n := y], map["a" := map[n := x]], st), FailedSync("a", [n], map[n := Frozen(y)]),
                 World(map[n := y], map["a" := map[n := y]], st))
  {
    assert map["a" := map[n := x]]["a" := map[n := y]] == map["a" := map[n := y]];
    assert n in [n];
  }

  lemma LastStepHides(r: Run, n: Name, x: Coll, y: Coll, w: World, st: State)
    requires Valid(r) && End(r) == w && !AppendOnly(n) && st == State(map[n := x], map[], Host("a"))
    requires w == World(map[n := x], map["a" := map[n := y]], st)
    ensures var last := Then(r, Sync("a", false, [n], map[n := Frozen(x)]), w);
            Valid(last) && CollAt(MirrorOn(last.world, "a"), n) == y
  {
    OneCollSynced(n, Frozen(x), map[n := y], false, st, y, st);
    assert w.mirrors == w.mirrors["a" := MirrorOn(w, "a")];
    OneMore(r, Sync("a", false, [n], map[n := Frozen(x)]), w);
  }

  /** Without any failure: the collection changes between digest and copy and later back, and the next incremental sync finds
      the digest of the view that was never copied. */
  lemma MovingTurnHidesAChange(n: Name, x: Coll, y: Coll)
    requires !AppendOnly(n) && x != y
    ensures exists r: Run :: Valid(r) && AllSyncsOk(r) && r.Then? && r.event == Sync("a", false, [n], map[n := Frozen(x)])
                             && CollAt(MirrorOn(r.world, "a"), n) == y
  {
    var st := State(map[n := x], map[], Host("a"));
    var t := Turn(x, y, y, y);
    var w1 := World(map[n := y], map["a" := map[n := y]], st);
    var w2 := World(map[n := x], map["a" := map[n := y]], st);
    var r0 := Begin(map[n := x], map[]);
    OneCollSynced(n, t, map[], true, End(r0).state, y, st);
    OneMore(r0, Sync("a", true, [n], map[n := t]), w1);
    var r1 := Then(r0, Sync("a", true, [n], map[n := t]), w1);
    OneMore(r1, Write, w2);
    LastStepHides(Then(r1, Write, w2), n, x, y, w2, st);
    assert AllSyncsOk(Then(r1, Write, w2));
  }
}
