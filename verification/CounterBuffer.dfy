/** The in-memory analytics buffers: accepting events, sampling concurrency, and merging a snapshot back
    after a flush that did not finish. */
module CounterBuffer {
  import opened CounterCells
  import opened FlushItems

  /** The buffers between two awaits; `pending` are the counter keys of the snapshot being written. */
  datatype Buffers = Buffers(deltas: Deltas, heat: HeatMap, pending: set<CounterKey>, dropped: nat)

  function FieldAt(fs: Fields, f: string): nat {
    if f in fs then fs[f] else 0
  }

  function FieldsAt(d: Deltas, k: CounterKey): Fields {
    if k in d then d[k] else map[]
  }

  function MergeFields(byMax: bool, a: Fields, b: Fields): Fields {
    map f | f in a.Keys + b.Keys ::
      if byMax then Max(FieldAt(a, f), FieldAt(b, f)) else FieldAt(a, f) + FieldAt(b, f)
  }

  /** Number of distinct counter keys held or being written. */
  function Occupied(b: Buffers): nat {
    |b.deltas.Keys + b.pending|
  }

  predicate Admits(b: Buffers, cap: nat, key: CounterKey) {
    key in b.deltas || Occupied(b) < cap
  }

  function Accept(b: Buffers, cap: nat, key: CounterKey, fs: Fields): Buffers {
    if Admits(b, cap, key)
    then b.(deltas := b.deltas[key := MergeFields(false, FieldsAt(b.deltas, key), fs)])
    else b.(dropped := b.dropped + 1)
  }

  predicate AdmitsHit(b: Buffers, cap: nat, s: HeatKey) {
    s in b.heat || |b.heat| < cap
  }

  function Hit(b: Buffers, cap: nat, s: HeatKey, n: nat): Buffers {
    if AdmitsHit(b, cap, s)
    then b.(heat := b.heat[s := (if s in b.heat then b.heat[s] else 0) + n])
    else b.(dropped := b.dropped + 1)
  }

  function Sample(b: Buffers, key: CounterKey, field: string, n: nat): Buffers {
    b.(deltas := b.deltas[key := MergeFields(true, FieldsAt(b.deltas, key), map[field := n])])
  }

  function RestoredCounters(d: Deltas, back: Deltas): Deltas {
    map k | k in d.Keys + back.Keys ::
      if k in back then MergeFields(k.kind == CONC, FieldsAt(d, k), back[k]) else d[k]
  }

  function RestoredHeat(h: HeatMap, back: HeatMap): HeatMap {
    map s | s in h.Keys + back.Keys ::
      (if s in h then h[s] else 0) + (if s in back then back[s] else 0)
  }

  /** Put an unwritten remainder back and end the flush. */
  function GiveBack(b: Buffers, d: Deltas, h: HeatMap): Buffers {
    b.(deltas := RestoredCounters(b.deltas, d), heat := RestoredHeat(b.heat, h), pending := {})
  }

  /** Swap the buffers out; the heat buffer stays when its own interval has not passed. */
  function SwapOut(b: Buffers, includeHeat: bool): Buffers {
    b.(deltas := map[], heat := if includeHeat then map[] else b.heat, pending := b.deltas.Keys)
  }

  // ---------- what each buffer operation does to the amounts held ----------

  /** Adding `fs` to one key combines exactly that key's cells. */
  lemma PutCells(d: Deltas, h: HeatMap, k: CounterKey, fs: Fields)
    ensures CellsOf(d[k := MergeFields(k.kind == CONC, FieldsAt(d, k), fs)], h)
            == Merge(CellsOf(d, h), ItemCells(CounterItem(k, fs)))
  {
    var put := MergeFields(k.kind == CONC, FieldsAt(d, k), fs);
    var d', one: Deltas, none: HeatMap := d[k := put], map[k := fs], map[];
    forall c
      ensures Holds(d', h, c) <==> Holds(d, h, c) || Holds(one, none, c)
      ensures Reads(d', h, c) == Combine(c, Reads(d, h, c), Reads(one, none, c))
    {
      PutCell(d, h, k, fs, c);
    }
    CellsMerge(d', h, d, h, one, none);
  }

  lemma PutCell(d: Deltas, h: HeatMap, k: CounterKey, fs: Fields, c: Cell)
    ensures var d' := d[k := MergeFields(k.kind == CONC, FieldsAt(d, k), fs)];
            && (Holds(d', h, c) <==> Holds(d, h, c) || Holds(map[k := fs], map[], c))
            && Reads(d', h, c) == Combine(c, Reads(d, h, c), Reads(map[k := fs], map[], c))
  {
  }

  lemma AcceptCells(b: Buffers, cap: nat, key: CounterKey, fs: Fields)
    requires key.kind != CONC && Admits(b, cap, key)
    ensures var a := Accept(b, cap, key, fs);
            CellsOf(a.deltas, a.heat) == Merge(CellsOf(b.deltas, b.heat), ItemCells(CounterItem(key, fs)))
  {
    PutCells(b.deltas, b.heat, key, fs);
  }

  /** An event is counted if its key is held or the keys held and being written are fewer than the cap, and otherwise nothing but
      the number of refusals changes. */
  lemma AcceptIff(b: Buffers, cap: nat, key: CounterKey, fs: Fields)
    requires key.kind != CONC
    ensures var a := Accept(b, cap, key, fs);
            if key in b.deltas || |b.deltas.Keys + b.pending| < cap then
              && CellsOf(a.deltas, a.heat) == Merge(CellsOf(b.deltas, b.heat), CellsOf(map[key := fs], map[]))
              && a.deltas.Keys == b.deltas.Keys + {key} && a.heat == b.heat && a.pending == b.pending
              && a.dropped == b.dropped
            else a == b.(dropped := b.dropped + 1)
  {
    if key in b.deltas || |b.deltas.Keys + b.pending| < cap {
      AcceptCells(b, cap, key, fs);
    }
  }

  /** A hit is counted if its spot is held or the spots held are fewer than the cap. */
  lemma HitIff(b: Buffers, cap: nat, s: HeatKey, n: nat)
    ensures var a := Hit(b, cap, s, n);
            if s in b.heat || |b.heat| < cap then
              && CellsOf(a.deltas, a.heat) == Merge(CellsOf(b.deltas, b.heat), CellsOf(map[], map[s := n]))
              && a.heat.Keys == b.heat.Keys + {s} && a.deltas == b.deltas && a.pending == b.pending && a.dropped == b.dropped
            else a == b.(dropped := b.dropped + 1)
  {
    if s in b.heat || |b.heat| < cap {
      HitCells(b, cap, s, n);
    }
  }

  lemma SampleCells(b: Buffers, key: CounterKey, field: string, n: nat)
    requires key.kind == CONC
    ensures var a := Sample(b, key, field, n);
            CellsOf(a.deltas, a.heat)
            == Merge(CellsOf(b.deltas, b.heat), ItemCells(CounterItem(key, map[field := n])))
  {
    PutCells(b.deltas, b.heat, key, map[field := n]);
  }

  lemma HitCells(b: Buffers, cap: nat, s: HeatKey, n: nat)
    requires AdmitsHit(b, cap, s)
    ensures var a := Hit(b, cap, s, n);
            CellsOf(a.deltas, a.heat) == Merge(CellsOf(b.deltas, b.heat), ItemCells(HeatItem(s, n)))
  {
    var a := Hit(b, cap, s, n);
    CellsEqual(CellsOf(a.deltas, a.heat), Merge(CellsOf(b.deltas, b.heat), ItemCells(HeatItem(s, n))));
  }

  lemma GiveBackCells(b: Buffers, d: Deltas, h: HeatMap)
    ensures var a := GiveBack(b, d, h);
            CellsOf(a.deltas, a.heat) == Merge(CellsOf(b.deltas, b.heat), CellsOf(d, h))
  {
    var a := GiveBack(b, d, h);
    forall c
      ensures Holds(a.deltas, a.heat, c) <==> Holds(b.deltas, b.heat, c) || Holds(d, h, c)
      ensures Reads(a.deltas, a.heat, c) == Combine(c, Reads(b.deltas, b.heat, c), Reads(d, h, c))
    {
      GiveBackCell(b, d, h, c);
    }
    CellsMerge(a.deltas, a.heat, b.deltas, b.heat, d, h);
  }

  lemma GiveBackCell(b: Buffers, d: Deltas, h: HeatMap, c: Cell)
    ensures var a := GiveBack(b, d, h);
            && (Holds(a.deltas, a.heat, c) <==> Holds(b.deltas, b.heat, c) || Holds(d, h, c))
            && Reads(a.deltas, a.heat, c) == Combine(c, Reads(b.deltas, b.heat, c), Reads(d, h, c))
  {
  }

  lemma SwapOutCells(b: Buffers, includeHeat: bool)
    ensures var a := SwapOut(b, includeHeat);
            CellsOf(b.deltas, b.heat)
            == Merge(CellsOf(a.deltas, a.heat), CellsOf(b.deltas, if includeHeat then b.heat else map[]))
  {
    var a := SwapOut(b, includeHeat);
    CellsEqual(CellsOf(b.deltas, b.heat),
               Merge(CellsOf(a.deltas, a.heat), CellsOf(b.deltas, if includeHeat then b.heat else map[])));
  }

  lemma CellsEqual(l: Cells, r: Cells)
    requires forall c :: c in l <==> c in r
    requires forall c :: c in l && c in r ==> l[c] == r[c]
    ensures l == r
  {
  }

  // ---------- the bound on counter keys ----------

  /** Concurrency samples bypass the cap; all other keys, held or being written, are counted against it. */
  function Capped(b: Buffers): set<CounterKey> {
    set k | k in b.deltas.Keys + b.pending && k.kind != CONC
  }

  lemma CardMono<T>(a: set<T>, b: set<T>)
    requires a <= b
    ensures |a| <= |b|
  {
    if a != {} {
      var x :| x in a;
      CardMono(a - {x}, b - {x});
    }
  }

  lemma UnionSize<T>(a: set<T>, b: set<T>)
    ensures |a + b| == |a| + |b - a|
  {
    assert a + b == a + (b - a);
  }

  lemma AcceptBound(b: Buffers, cap: nat, key: CounterKey, fs: Fields)
    requires |Capped(b)| <= cap
    ensures |Capped(Accept(b, cap, key, fs))| <= cap
    ensures Capped(b) == set k | k in b.deltas.Keys + b.pending && k.kind != "conc"
  {
    var a := Accept(b, cap, key, fs);
    if key in b.deltas || !Admits(b, cap, key) {
      assert Capped(a) == Capped(b);
    } else {
      CardMono(Capped(b), b.deltas.Keys + b.pending);
      CardMono(Capped(a), Capped(b) + {key});
    }
  }

  // ---------- the buffers as the process holds them ----------

  class Analytics {
    var deltas: Deltas
    var heat: HeatMap
    var pending: set<CounterKey>
    var dropped: nat
    var live: map<(string, string), int>   // (org, session) -> when it was last seen
    var lastFlush: real                    // the time of the last due tick, 0.0 before the first
    const cap: nat

    constructor (cap: nat)
      ensures this.cap == cap && Now() == Buffers(map[], map[], {}, 0) && live == map[]
    {
      this.cap := cap;
      deltas, heat, pending, dropped, live, lastFlush := map[], map[], {}, 0, map[], 0.0;
    }

    function Now(): Buffers
      reads this
    {
      Buffers(deltas, heat, pending, dropped)
    }

    method BufferAdd(key: CounterKey, fields: Fields)
      modifies this`deltas
      ensures deltas == old(deltas)[key := MergeFields(false, FieldsAt(old(deltas), key), fields)]
    {
      var before := FieldsAt(deltas, key);
      var d := before;
      var todo := fields.Keys;
      while todo != {}
        invariant todo <= fields.Keys
        invariant d.Keys == before.Keys + (fields.Keys - todo)
        invariant forall f :: f in d ==>
          d[f] == FieldAt(before, f) + (if f in todo then 0 else FieldAt(fields, f))
        decreases todo
      {
        var f :| f in todo;
        d := d[f := FieldAt(d, f) + fields[f]];
        todo := todo - {f};
      }
      deltas := deltas[key := d];
      assert d == MergeFields(false, before, fields);
    }

    method Inc(key: CounterKey, fields: Fields)
      modifies this`deltas, this`dropped
      ensures Now() == Accept(old(Now()), cap, key, fields)
    {
      if key !in deltas {
        var waiting := |pending - deltas.Keys|;
        UnionSize(deltas.Keys, pending);
        if |deltas| + waiting >= cap {
          dropped := dropped + 1;
          return;
        }
      }
      BufferAdd(key, fields);
    }

    method HeatAdd(s: HeatKey, n: nat)
      modifies this`heat, this`dropped
      ensures Now() == Hit(old(Now()), cap, s, n)
    {
      if s !in heat && |heat| >= cap {
        dropped := dropped + 1;
        return;
      }
      heat := heat[s := (if s in heat then heat[s] else 0) + n];
    }

    /** Drop sessions not seen since `cutoff` and count how many of each organisation's are left. */
    method CountActive(cutoff: int) returns (active: map<string, nat>)
      modifies this`live
      ensures live == map x | x in old(live) && old(live)[x] >= cutoff :: old(live)[x]
      ensures active == ActiveCounts(live)
    {
      active := map[];
      var todo := live.Keys;
      ghost var kept: map<(string, string), int> := map[];
      while todo != {}
        invariant todo <= old(live).Keys
        invariant forall x :: x in live <==> x in old(live) && (x in todo || old(live)[x] >= cutoff)
        invariant forall x :: x in live ==> live[x] == old(live)[x]
        invariant forall x :: x in kept <==> x in live && x !in todo
        invariant forall x :: x in kept ==> kept[x] == live[x]
        invariant active == ActiveCounts(kept)
        decreases todo
      {
        var x :| x in todo;
        todo := todo - {x};
        if live[x] >= cutoff {
          KeepOne(kept, x, live[x]);
          active := active[x.0 := (if x.0 in active then active[x.0] else 0) + 1];
          kept := kept[x := live[x]];
        } else {
          live := live - {x};
        }
      }
      assert kept == live;
    }

    method RaiseField(key: CounterKey, slot: string, n: nat)
      modifies this`deltas
      ensures deltas == old(deltas)[key := MergeFields(true, FieldsAt(old(deltas), key), map[slot := n])]
    {
      var d := FieldsAt(deltas, key);
      MaxOne(d, slot, n);
      deltas := deltas[key := d[slot := Max(FieldAt(d, slot), n)]];
    }

    /** One concurrency sample: every organisation with active sessions keeps the largest count of the slot. */
    method ConcDelta(now: int, day: nat, slot: string)
      modifies this`deltas, this`live
      ensures live == map x | x in old(live) && old(live)[x] >= now - 300 :: old(live)[x]
      ensures deltas == SampleAll(old(deltas), ActiveCounts(live), day, slot)
    {
      var active := CountActive(now - 300);
      var orgs := active.Keys;
      ghost var kept := live;
      assert active - orgs == map[];
      while orgs != {}
        invariant orgs <= active.Keys && live == kept
        invariant deltas == SampleAll(old(deltas), active - orgs, day, slot)
        decreases orgs
      {
        var o :| o in orgs;
        var key := ConcKey(o, day);
        SampleOneMore(old(deltas), active - orgs, o, active[o], day, slot);
        assert active - (orgs - {o}) == (active - orgs)[o := active[o]];
        RaiseField(key, slot, active[o]);
        orgs := orgs - {o};
      }
      assert active - orgs == active;
    }

    method TakeMaxima(key: CounterKey, fields: Fields)
      modifies this`deltas
      ensures deltas == old(deltas)[key := MergeFields(true, FieldsAt(old(deltas), key), fields)]
    {
      var before := FieldsAt(deltas, key);
      var m := before;
      var todo := fields.Keys;
      while todo != {}
        invariant todo <= fields.Keys
        invariant m.Keys == before.Keys + (fields.Keys - todo)
        invariant forall f :: f in m ==>
          m[f] == if f in todo then FieldAt(before, f) else Max(FieldAt(before, f), FieldAt(fields, f))
        decreases todo
      {
        var f :| f in todo;
        m := m[f := Max(FieldAt(m, f), fields[f])];
        todo := todo - {f};
      }
      deltas := deltas[key := m];
      assert m == MergeFields(true, before, fields);
    }

    method RestoreCounters(d: Deltas)
      modifies this`deltas
      ensures deltas == RestoredCounters(old(deltas), d)
    {
      var keys := d.Keys;
      while keys != {}
        invariant keys <= d.Keys
        invariant deltas.Keys == old(deltas).Keys + (d.Keys - keys)
        invariant forall k :: k in deltas ==>
          deltas[k] == if k in d && k !in keys then MergeFields(k.kind == CONC, FieldsAt(old(deltas), k), d[k])
                       else FieldsAt(old(deltas), k)
        decreases keys
      {
        var key :| key in keys;
        assert FieldsAt(deltas, key) == FieldsAt(old(deltas), key);
        if key.kind == CONC {
          TakeMaxima(key, d[key]);
        } else {
          BufferAdd(key, d[key]);
        }
        keys := keys - {key};
      }
      assert deltas == RestoredCounters(old(deltas), d);
    }

    method RestoreHeat(h: HeatMap)
      modifies this`heat
      ensures heat == RestoredHeat(old(heat), h)
    {
      var spots := h.Keys;
      while spots != {}
        invariant spots <= h.Keys
        invariant heat.Keys == old(heat).Keys + (h.Keys - spots)
        invariant forall s :: s in heat ==>
          heat[s] == (if s in old(heat) then old(heat)[s] else 0) + (if s in h && s !in spots then h[s] else 0)
        decreases spots
      {
        var s :| s in spots;
        heat := heat[s := (if s in heat then heat[s] else 0) + h[s]];
        spots := spots - {s};
      }
      assert heat == RestoredHeat(old(heat), h);
    }

    method Restore(d: Deltas, h: HeatMap)
      modifies this`deltas, this`heat
      ensures deltas == RestoredCounters(old(deltas), d) && heat == RestoredHeat(old(heat), h)
    {
      RestoreCounters(d);
      RestoreHeat(h);
    }

    /** The part of a flush before its first await. */
    method BeginFlush(includeHeat: bool) returns (d: Deltas, h: HeatMap)
      modifies this`deltas, this`heat, this`pending
      ensures d == old(deltas) && h == (if includeHeat then old(heat) else map[])
      ensures Now() == SwapOut(old(Now()), includeHeat)
    {
      d, deltas := deltas, map[];
      if includeHeat {
        h, heat := heat, map[];
      } else {
        h := map[];
      }
      pending := d.Keys;
    }

    /** The part of a flush after its last await, when something was left unwritten. */
    method EndFlush(d: Deltas, h: HeatMap)
      modifies this`deltas, this`heat, this`pending
      ensures Now() == GiveBack(old(Now()), d, h)
    {
      Restore(d, h);
      pending := {};
    }
  }

  function ConcKey(org: string, day: nat): CounterKey {
    CounterKey(org, day, CONC, "", "", "all", "all")
  }

  function ActiveIn(live: map<(string, string), int>, org: string): set<(string, string)> {
    set x | x in live && x.0 == org
  }

  function ActiveCounts(live: map<(string, string), int>): map<string, nat> {
    map o | o in (set x | x in live :: x.0) :: |ActiveIn(live, o)|
  }

  predicate IsSampled(counts: map<string, nat>, day: nat, k: CounterKey) {
    k == ConcKey(k.org, day) && k.org in counts
  }

  function ConcKeys(counts: map<string, nat>, day: nat): (r: set<CounterKey>)
    ensures forall k :: k in r <==> IsSampled(counts, day, k)
  {
    set o | o in counts :: ConcKey(o, day)
  }

  function SampledFields(d: Deltas, counts: map<string, nat>, day: nat, slot: string, k: CounterKey): Fields {
    if IsSampled(counts, day, k) then MergeFields(true, FieldsAt(d, k), map[slot := counts[k.org]])
    else FieldsAt(d, k)
  }

  /** The buffer after one sample of each organisation in `counts`. */
  function SampleAll(d: Deltas, counts: map<string, nat>, day: nat, slot: string): Deltas {
    map k | k in d.Keys + ConcKeys(counts, day) :: SampledFields(d, counts, day, slot, k)
  }

  /** A sample raises the field of the slot of each organisation that has live sessions to their number, if it was less, and
      touches nothing else. */
  lemma SampleAt(d: Deltas, live: map<(string, string), int>, day: nat, slot: string, k: CounterKey, f: string)
    ensures var counts, after := ActiveCounts(live), SampleAll(d, ActiveCounts(live), day, slot);
            if (exists x :: x in live && x.0 == k.org) && f == slot && k == CounterKey(k.org, day, "conc", "", "", "all", "all")
            then
              var n := |set x | x in live && x.0 == k.org|;
              k in after && f in after[k]
              && after[k][f] == if k in d && f in d[k] && d[k][f] > n then d[k][f] else n
            else
              (k in after && f in after[k] <==> k in d && f in d[k]) && (k in d && f in d[k] ==> after[k][f] == d[k][f])
  {
    var counts := ActiveCounts(live);
    assert k.org in counts <==> exists x :: x in live && x.0 == k.org;
    assert ActiveIn(live, k.org) == set x | x in live && x.0 == k.org;
  }

  lemma SampledFieldsMore(d: Deltas, counts: map<string, nat>, o: string, n: nat, day: nat, slot: string,
                          k: CounterKey)
    requires o !in counts
    ensures IsSampled(counts[o := n], day, k) <==> IsSampled(counts, day, k) || k == ConcKey(o, day)
    ensures SampledFields(d, counts[o := n], day, slot, k)
            == if k == ConcKey(o, day) then MergeFields(true, FieldsAt(d, k), map[slot := n])
               else SampledFields(d, counts, day, slot, k)
  {
  }

  lemma SampleOneMore(d: Deltas, counts: map<string, nat>, o: string, n: nat, day: nat, slot: string)
    requires o !in counts
    ensures var before, key := SampleAll(d, counts, day, slot), ConcKey(o, day);
            SampleAll(d, counts[o := n], day, slot)
            == before[key := MergeFields(true, FieldsAt(before, key), map[slot := n])]
  {
    var more, key := counts[o := n], ConcKey(o, day);
    var before, after := SampleAll(d, counts, day, slot), SampleAll(d, more, day, slot);
    assert FieldsAt(before, key) == FieldsAt(d, key) by {
      assert !IsSampled(counts, day, key);
    }
    var put := MergeFields(true, FieldsAt(d, key), map[slot := n]);
    forall k
      ensures k in after <==> k in before[key := put]
      ensures k in after ==> after[k] == before[key := put][k]
    {
      SampledFieldsMore(d, counts, o, n, day, slot, k);
      assert k in after <==> k in d || IsSampled(more, day, k);
      assert k in before <==> k in d || IsSampled(counts, day, k);
    }
  }

  lemma KeepOne(kept: map<(string, string), int>, x: (string, string), at: int)
    requires x !in kept
    ensures var c := ActiveCounts(kept);
            ActiveCounts(kept[x := at]) == c[x.0 := (if x.0 in c then c[x.0] else 0) + 1]
  {
    var c, c' := ActiveCounts(kept), ActiveCounts(kept[x := at]);
    assert ActiveIn(kept[x := at], x.0) == ActiveIn(kept, x.0) + {x};
    assert forall o :: o != x.0 ==> ActiveIn(kept[x := at], o) == ActiveIn(kept, o);
    assert c'.Keys == c.Keys + {x.0};
    if x.0 !in c {
      assert ActiveIn(kept, x.0) == {};
    }
  }

  lemma MaxOne(d: Fields, f: string, n: nat)
    ensures d[f := Max(FieldAt(d, f), n)] == MergeFields(true, d, map[f := n])
  {
  }
}
