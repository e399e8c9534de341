/** Writing a snapshot in chunks, and whole runs of events interleaved with flushes that finish, fail at any
    chunk or are cancelled. */
module FlushRuns {
  import opened CounterCells
  import opened FlushItems
  import opened CounterBuffer

  /** How one chunk ends: it lands, it lands and the pause after it is cancelled, or the unordered bulk write
      fails or is cancelled after performing the writes marked in `mask`. */
  datatype ChunkEnd = Written | WrittenThenCancelled | Broken(mask: seq<bool>)

  /** What a write leaves: the store, the items handed back, and what of them landed all the same. */
  datatype WriteResult = WriteResult(store: Cells, stopped: bool, rest: seq<Item>, surplus: Cells)

  function Mask(mask: seq<bool>, n: nat): (r: seq<bool>)
    ensures |r| == n
  {
    seq(n, i requires 0 <= i < n => i < |mask| && mask[i])
  }

  /** A whole chunk, or what is left. */
  function ChunkLen(items: seq<Item>, chunk: nat): (n: nat)
    ensures n <= |items| && n <= chunk && (n == |items| || n == chunk)
  {
    if chunk < |items| then chunk else |items|
  }

  function NextEnd(ends: seq<ChunkEnd>): ChunkEnd {
    if ends == [] then Written else ends[0]
  }

  function LaterEnds(ends: seq<ChunkEnd>): seq<ChunkEnd> {
    if ends == [] then [] else ends[1..]
  }

  function WriteAll(store: Cells, items: seq<Item>, chunk: nat, ends: seq<ChunkEnd>): WriteResult
    requires chunk > 0
    decreases |items|
  {
    if items == [] then WriteResult(store, false, [], map[])
    else
      var n := ChunkLen(items, chunk);
      match NextEnd(ends)
      case Broken(mask) =>
        var landed := CellsOfItems(Landed(items[..n], Mask(mask, n)));
        WriteResult(Merge(store, landed), true, items, landed)
      case WrittenThenCancelled =>
        if n < |items| then WriteResult(Merge(store, CellsOfItems(items[..n])), true, items[n..], map[])
        else WriteResult(Merge(store, CellsOfItems(items)), false, [], map[])
      case Written => WriteAll(Merge(store, CellsOfItems(items[..n])), items[n..], chunk, LaterEnds(ends))
  }

  /** Whatever happens to the chunks: what the store gained and what is handed back make up the snapshot,
      plus exactly what landed of the chunk that broke. */
  lemma {:induction false} WriteConserves(store: Cells, items: seq<Item>, chunk: nat, ends: seq<ChunkEnd>)
    requires chunk > 0
    ensures var r := WriteAll(store, items, chunk, ends);
            Merge(r.store, CellsOfItems(r.rest)) == Merge(Merge(store, CellsOfItems(items)), r.surplus)
    decreases |items|
  {
    var r := WriteAll(store, items, chunk, ends);
    if items == [] {
      MergeUnit(store);
    } else {
      var n := ChunkLen(items, chunk);
      var first, second := CellsOfItems(items[..n]), CellsOfItems(items[n..]);
      CellsOfItemsCut(items, n);
      MergeAssoc(store, first, second);
      MergeUnit(Merge(store, CellsOfItems(items)));
      match NextEnd(ends)
      case Broken(mask) =>
        MergeAssoc(store, r.surplus, CellsOfItems(items));
        MergeComm(r.surplus, CellsOfItems(items));
        MergeAssoc(store, CellsOfItems(items), r.surplus);
      case WrittenThenCancelled =>
        MergeUnit(r.store);
      case Written =>
        WriteConserves(Merge(store, first), items[n..], chunk, LaterEnds(ends));
    }
  }

  lemma WriteUnfolds(store: Cells, items: seq<Item>, chunk: nat, ends: seq<ChunkEnd>)
    requires chunk > 0 && items != []
    ensures var n, end := ChunkLen(items, chunk), NextEnd(ends);
            var landed := CellsOfItems(items[..n]);
            WriteAll(store, items, chunk, ends)
            == if end.Broken? then
                 var some := CellsOfItems(Landed(items[..n], Mask(end.mask, n)));
                 WriteResult(Merge(store, some), true, items, some)
               else if end.WrittenThenCancelled? && n < |items| then
                 WriteResult(Merge(store, landed), true, items[n..], map[])
               else WriteAll(Merge(store, landed), items[n..], chunk, LaterEnds(ends))
  {
    if ChunkLen(items, chunk) == |items| {
      assert items[..|items|] == items;
    }
  }

  /** A chunk that lands is stored, and the next one goes on with the rest and with what comes next. */
  lemma LandsFirst(store: Cells, items: seq<Item>, chunk: nat, ends: seq<ChunkEnd>)
    requires 0 < chunk < |items|
    ensures WriteAll(store, items, chunk, [Written] + ends)
            == WriteAll(Merge(store, CellsOfItems(items[..chunk])), items[chunk..], chunk, ends)
  {
    assert ([Written] + ends)[1..] == ends;
  }

  /** When a chunk breaks, it and all the rest are handed back, although the writes that the server performed are stored. */
  lemma BreaksFirst(store: Cells, items: seq<Item>, chunk: nat, ends: seq<ChunkEnd>, mask: seq<bool>)
    requires 0 < |mask| <= chunk && |mask| <= |items| && (|mask| == chunk || |mask| == |items|)
    ensures var landed := CellsOfItems(Landed(items[..|mask|], mask));
            WriteAll(store, items, chunk, [Broken(mask)] + ends) == WriteResult(Merge(store, landed), true, items, landed)
  {
    assert Mask(mask, |mask|) == mask;
  }

  class MongoStore {
    var cells: Cells

    constructor (cells: Cells)
      ensures this.cells == cells
    {
      this.cells := cells;
    }

    method BulkWrite(ops: seq<Item>)
      modifies this
      ensures cells == Merge(old(cells), CellsOfItems(ops))
    {
      MergeUnit(cells);
      assert ops[..0] == [];
      for i := 0 to |ops|
        invariant cells == Merge(old(cells), CellsOfItems(ops[..i]))
      {
        cells := Merge(cells, ItemCells(ops[i]));
        assert ops[..i + 1] == ops[..i] + [ops[i]];
        CellsOfItemsConcat(ops[..i], [ops[i]]);
        assert [ops[i]][1..] == [];
        MergeUnit(ItemCells(ops[i]));
        MergeAssoc(old(cells), CellsOfItems(ops[..i]), ItemCells(ops[i]));
      }
      assert ops[..|ops|] == ops;
    }

    /** One round of the write loop over what is still to be written. */
    method WriteChunk(tail: seq<Item>, chunk: nat, ends: seq<ChunkEnd>) returns (stopped: bool, rest: seq<Item>)
      requires chunk > 0 && tail != []
      modifies this
      ensures var r := WriteAll(old(cells), tail, chunk, ends);
              if stopped then r.stopped && r.store == cells && r.rest == rest
              else r == WriteAll(cells, rest, chunk, LaterEnds(ends))
      ensures !stopped ==> rest == tail[ChunkLen(tail, chunk)..]
    {
      var n, end := ChunkLen(tail, chunk), NextEnd(ends);
      WriteUnfolds(cells, tail, chunk, ends);
      if end.Broken? {
        BulkWrite(Landed(tail[..n], Mask(end.mask, n)));
        return true, tail;
      }
      BulkWrite(tail[..n]);
      return end.WrittenThenCancelled? && n < |tail|, tail[n..];
    }

    /** `stopped` stands for the exception or the cancellation, `rest` for what it carries. */
    method Write(items: seq<Item>, chunk: nat, ends: seq<ChunkEnd>) returns (stopped: bool, rest: seq<Item>)
      requires chunk > 0
      modifies this
      ensures var r := WriteAll(old(cells), items, chunk, ends);
              cells == r.store && stopped == r.stopped && rest == r.rest
    {
      ghost var goal := WriteAll(cells, items, chunk, ends);
      var left := ends;
      stopped, rest := false, items;
      while rest != []
        invariant !stopped && goal == WriteAll(cells, rest, chunk, left)
        decreases |rest|
      {
        stopped, rest := WriteChunk(rest, chunk, left);
        if stopped {
          return;
        }
        left := LaterEnds(left);
      }
    }
  }

  method ListBuffers(d: Deltas, h: HeatMap) returns (items: seq<Item>)
    ensures Lists(items, d, h)
  {
    items := [];
    var keys, spots := d, h;
    ghost var kept, warm: HeatMap := d, h;
    kept, warm := map[], map[];
    while spots != map[]
      invariant Lists(items, map[], warm)
      invariant spots.Keys !! warm.Keys && spots + warm == h
      decreases spots.Keys
    {
      var s :| s in spots;
      items := [HeatItem(s, spots[s])] + items;
      assert warm[s := spots[s]] - {s} == warm;
      warm, spots := warm[s := spots[s]], spots - {s};
    }
    assert warm == h;
    while keys != map[]
      invariant Lists(items, kept, h)
      invariant keys.Keys !! kept.Keys && keys + kept == d
      decreases keys.Keys
    {
      var k :| k in keys;
      items := [CounterItem(k, keys[k])] + items;
      assert kept[k := keys[k]] - {k} == kept;
      kept, keys := kept[k := keys[k]], keys - {k};
    }
    assert kept == d;
  }

  const TICK_SLACK_S := 1.0

  /** A tick writes when the period has passed, a little slack allowed, or when it is forced. */
  predicate IsDue(last: real, now: real, period: real, force: bool) {
    force || last <= 0.0 || now - last + TICK_SLACK_S >= period
  }

  /** A tick that is not forced waits, after the first, until at most a second of the period is missing. */
  lemma DueIff(last: real, now: real, period: real, force: bool)
    ensures IsDue(last, now, period, force) <==> !(!force && last > 0.0 && last + period > now + 1.0)
  {
  }

  /** One tick with nothing arriving meanwhile. `items` is the order the snapshot was sent in. */
  method FlushOnce(a: Analytics, store: MongoStore, now: real, period: real, force: bool, includeHeat: bool, chunk: nat,
                   ends: seq<ChunkEnd>)
    returns (attempted: bool, ghost items: seq<Item>)
    requires chunk > 0
    modifies a`deltas, a`heat, a`pending, a`lastFlush, store
    ensures if !IsDue(old(a.lastFlush), now, period, force) then
              !attempted && store.cells == old(store.cells) && a.Now() == old(a.Now()) && a.lastFlush == old(a.lastFlush)
            else
              && a.lastFlush == now
              && Lists(items, old(a.deltas), if includeHeat then old(a.heat) else map[])
              && (attempted <==> items != [])
              && var r := WriteAll(old(store.cells), items, chunk, ends);
                 && store.cells == r.store
                 && a.Now() == GiveBack(SwapOut(old(a.Now()), includeHeat), SplitCounters(r.rest), SplitHeat(r.rest))
  {
    if !IsDue(a.lastFlush, now, period, force) {
      return false, [];
    }
    a.lastFlush := now;
    var d, h := a.BeginFlush(includeHeat);
    label swapped:
    var list := ListBuffers(d, h);
    items := list;
    attempted := d != map[] || h != map[];
    ListsSplit(list, d, h);
    RestoreNothing(old@swapped(a.Now()));
    if attempted {
      var stopped, rest := store.Write(list, chunk, ends);
      FinishedLeavesNothing(old(store.cells), list, chunk, ends);
      if stopped {
        a.EndFlush(SplitCounters(rest), SplitHeat(rest));
      } else {
        a.pending := {};
      }
    }
  }

  lemma RestoreNothing(b: Buffers)
    ensures GiveBack(b, map[], map[]) == b.(pending := {})
  {
    assert RestoredCounters(b.deltas, map[]) == b.deltas;
    assert RestoredHeat(b.heat, map[]) == b.heat;
  }

  lemma {:induction false} FinishedLeavesNothing(store: Cells, items: seq<Item>, chunk: nat, ends: seq<ChunkEnd>)
    requires chunk > 0
    ensures var r := WriteAll(store, items, chunk, ends); !r.stopped ==> r.rest == [] && r.surplus == map[]
    decreases |items|
  {
    if items != [] && (ends == [] || ends[0] == Written) {
      var n := ChunkLen(items, chunk);
      FinishedLeavesNothing(Merge(store, CellsOfItems(items[..n])), items[n..], chunk,
                            LaterEnds(ends));
    }
  }

  // ---------- runs: flushes interleaved with arriving events ----------

  /** `accepted` combines what the store started with and every accepted event and sample; `surplus` combines
      what landed of chunks that were then handed back. */
  datatype State = State(b: Buffers, flying: bool, flight: seq<Item>, store: Cells, accepted: Cells, surplus: Cells)

  datatype Step =
    | Event(key: CounterKey, fields: Fields)
    | Click(spot: HeatKey, hits: nat)
    | ConcSample(key: CounterKey, field: string, active: nat)
    | Begin(includeHeat: bool, items: seq<Item>)
    | Chunk(size: nat)
    | Stop(mask: seq<bool>)      // the chunk of |mask| items being written breaks; [] while pausing

  function Start(store: Cells): State {
    State(Buffers(map[], map[], {}, 0), false, [], store, store, map[])
  }

  predicate Can(s: State, step: Step) {
    match step
    case Event(key, _) => key.kind != CONC
    case Click(_, _) => true
    case ConcSample(key, _, _) => key.kind == CONC
    case Begin(heat, items) =>
      !s.flying && items != [] && Lists(items, s.b.deltas, if heat then s.b.heat else map[])
    case Chunk(n) => s.flying && 0 < n <= |s.flight|
    case Stop(mask) => s.flying && |mask| <= |s.flight|
  }

  function Do(s: State, cap: nat, step: Step): State
    requires Can(s, step)
  {
    match step
    case Event(key, fs) =>
      s.(b := Accept(s.b, cap, key, fs),
         accepted := if Admits(s.b, cap, key) then Merge(s.accepted, ItemCells(CounterItem(key, fs))) else s.accepted)
    case Click(spot, n) =>
      s.(b := Hit(s.b, cap, spot, n),
         accepted := if AdmitsHit(s.b, cap, spot) then Merge(s.accepted, ItemCells(HeatItem(spot, n))) else s.accepted)
    case ConcSample(key, f, n) =>
      s.(b := Sample(s.b, key, f, n), accepted := Merge(s.accepted, ItemCells(CounterItem(key, map[f := n]))))
    case Begin(heat, items) =>
      s.(b := SwapOut(s.b, heat), flying := true, flight := items)
    case Chunk(n) =>
      var rest := s.flight[n..];
      s.(store := Merge(s.store, CellsOfItems(s.flight[..n])), flight := rest, flying := rest != [],
         b := if rest == [] then s.b.(pending := {}) else s.b)
    case Stop(mask) =>
      var landed := CellsOfItems(Landed(s.flight[..|mask|], mask));
      s.(store := Merge(s.store, landed), surplus := Merge(s.surplus, landed), flying := false, flight := [],
         b := GiveBack(s.b, SplitCounters(s.flight), SplitHeat(s.flight)))
  }

  predicate Legal(s: State, cap: nat, run: seq<Step>)
    decreases |run|
  {
    run == [] || (Can(s, run[0]) && Legal(Do(s, cap, run[0]), cap, run[1..]))
  }

  function After(s: State, cap: nat, run: seq<Step>): State
    requires Legal(s, cap, run)
    decreases |run|
  {
    if run == [] then s else After(Do(s, cap, run[0]), cap, run[1..])
  }

  function Held(s: State): Cells {
    CellsOf(s.b.deltas, s.b.heat)
  }

  function Everywhere(s: State): Cells {
    Merge(s.store, Merge(Held(s), CellsOfItems(s.flight)))
  }

  /** The accounts balance, and no "conc" cell was over-counted. */
  ghost predicate Balanced(s: State) {
    && Everywhere(s) == Merge(s.accepted, s.surplus)
    && forall c :: IsMax(c) ==> At(s.surplus, c) <= At(s.accepted, c)
  }

  predicate Shaped(s: State, cap: nat) {
    && Distinct(s.flight)
    && ItemKeys(s.flight) <= s.b.pending
    && (!s.flying ==> s.flight == [] && s.b.pending == {})
    && |Capped(s.b)| <= cap
  }

  ghost predicate Inv(s: State, cap: nat) {
    Balanced(s) && Shaped(s, cap)
  }

  lemma AddToHeld(store: Cells, held: Cells, flight: Cells, accepted: Cells, surplus: Cells, x: Cells)
    requires Merge(store, Merge(held, flight)) == Merge(accepted, surplus)
    ensures Merge(store, Merge(Merge(held, x), flight)) == Merge(Merge(accepted, x), surplus)
  {
    MergeAssoc(held, x, flight);
    MergeComm(x, flight);
    MergeAssoc(held, flight, x);
    MergeAssoc(store, Merge(held, flight), x);
    MergeAssoc(accepted, surplus, x);
    MergeComm(surplus, x);
    MergeAssoc(accepted, x, surplus);
  }

  lemma AddBalanced(s: State, t: State, x: Cells)
    requires Balanced(s)
    requires t.store == s.store && t.flight == s.flight && t.surplus == s.surplus
    requires Held(t) == Merge(Held(s), x) && t.accepted == Merge(s.accepted, x)
    ensures Balanced(t)
  {
    AddToHeld(s.store, Held(s), CellsOfItems(s.flight), s.accepted, s.surplus, x);
    forall c | IsMax(c)
      ensures At(t.surplus, c) <= At(t.accepted, c)
    {
      MergeAt(s.accepted, x, c);
    }
  }

  lemma StepEvent(s: State, cap: nat, key: CounterKey, fs: Fields)
    requires Inv(s, cap) && Can(s, Event(key, fs))
    ensures Inv(Do(s, cap, Event(key, fs)), cap)
  {
    var t := Do(s, cap, Event(key, fs));
    AcceptBound(s.b, cap, key, fs);
    assert Balanced(t) by {
      if Admits(s.b, cap, key) {
        AcceptCells(s.b, cap, key, fs);
        AddBalanced(s, t, ItemCells(CounterItem(key, fs)));
      }
    }
  }

  lemma StepClick(s: State, cap: nat, spot: HeatKey, n: nat)
    requires Inv(s, cap)
    ensures Inv(Do(s, cap, Click(spot, n)), cap)
  {
    var t := Do(s, cap, Click(spot, n));
    assert Capped(t.b) == Capped(s.b);
    assert Balanced(t) by {
      if AdmitsHit(s.b, cap, spot) {
        HitCells(s.b, cap, spot, n);
        AddBalanced(s, t, ItemCells(HeatItem(spot, n)));
      }
    }
  }

  lemma AddedKeepsInv(s: State, t: State, cap: nat, x: Cells)
    requires Inv(s, cap) && Capped(t.b) == Capped(s.b) && t.b.pending == s.b.pending && t.flying == s.flying
    requires t.store == s.store && t.flight == s.flight && t.surplus == s.surplus
    requires Held(t) == Merge(Held(s), x) && t.accepted == Merge(s.accepted, x)
    ensures Inv(t, cap)
  {
    AddBalanced(s, t, x);
  }

  lemma SampleKeepsCapped(b: Buffers, key: CounterKey, f: string, n: nat)
    requires key.kind == CONC
    ensures Capped(Sample(b, key, f, n)) == Capped(b)
  {
  }

  lemma StepSample(s: State, cap: nat, key: CounterKey, f: string, n: nat)
    requires Inv(s, cap) && Can(s, ConcSample(key, f, n))
    ensures Inv(Do(s, cap, ConcSample(key, f, n)), cap)
  {
    var t := Do(s, cap, ConcSample(key, f, n));
    SampleCells(s.b, key, f, n);
    SampleKeepsCapped(s.b, key, f, n);
    AddedKeepsInv(s, t, cap, ItemCells(CounterItem(key, map[f := n])));
  }

  lemma StepBegin(s: State, cap: nat, step: Step)
    requires Inv(s, cap) && Can(s, step) && step.Begin?
    ensures Inv(Do(s, cap, step), cap)
  {
    var t := Do(s, cap, step);
    var h: HeatMap := if step.includeHeat then s.b.heat else map[];
    ListsCells(step.items, s.b.deltas, h);
    ListsSplit(step.items, s.b.deltas, h);
    SwapOutCells(s.b, step.includeHeat);
    MergeUnit(Held(s));
    assert Capped(t.b) == Capped(s.b);
  }

  lemma StepChunk(s: State, cap: nat, step: Step)
    requires Inv(s, cap) && Can(s, step) && step.Chunk?
    ensures Inv(Do(s, cap, step), cap)
  {
    var t := Do(s, cap, step);
    var n := step.size;
    var first, rest := CellsOfItems(s.flight[..n]), CellsOfItems(s.flight[n..]);
    CellsOfItemsCut(s.flight, n);
    DistinctSuffix(s.flight, n);
    MergeAssoc(Held(s), first, rest);
    MergeComm(Held(s), first);
    MergeAssoc(first, Held(s), rest);
    MergeAssoc(s.store, first, Merge(Held(s), rest));
    CardMono(Capped(t.b), Capped(s.b));
  }

  lemma StopBalanced(s: State, cap: nat, mask: seq<bool>)
    requires Inv(s, cap) && Can(s, Stop(mask))
    ensures Balanced(Do(s, cap, Stop(mask)))
  {
    var t := Do(s, cap, Stop(mask));
    var part := s.flight[..|mask|];
    var flight, landed := CellsOfItems(s.flight), CellsOfItems(Landed(part, mask));
    assert Held(t) == Merge(Held(s), flight) by {
      DistinctCells(s.flight);
      GiveBackCells(s.b, SplitCounters(s.flight), SplitHeat(s.flight));
    }
    LandedMoves(s.store, Held(t), s.accepted, s.surplus, landed);
    assert Everywhere(t) == Merge(t.accepted, t.surplus) by {
      MergeUnit(Held(t));
    }
    forall c | IsMax(c)
      ensures At(t.surplus, c) <= At(t.accepted, c)
    {
      StopMaximum(s, cap, mask, c);
    }
  }

  lemma StopMaximum(s: State, cap: nat, mask: seq<bool>, c: Cell)
    requires Inv(s, cap) && Can(s, Stop(mask)) && IsMax(c)
    ensures At(Do(s, cap, Stop(mask)).surplus, c) <= At(s.accepted, c)
  {
    var part := s.flight[..|mask|];
    LandedBelow(part, mask, c);
    CellsOfItemsCut(s.flight, |mask|);
    MergeAt(CellsOfItems(part), CellsOfItems(s.flight[|mask|..]), c);
    MergeAt(Held(s), CellsOfItems(s.flight), c);
    MergeAt(s.store, Merge(Held(s), CellsOfItems(s.flight)), c);
    MergeAt(s.accepted, s.surplus, c);
    MergeAt(s.surplus, CellsOfItems(Landed(part, mask)), c);
  }

  lemma LandedMoves(store: Cells, held: Cells, accepted: Cells, surplus: Cells, x: Cells)
    requires Merge(store, held) == Merge(accepted, surplus)
    ensures Merge(Merge(store, x), held) == Merge(accepted, Merge(surplus, x))
  {
    MergeComm(store, x);
    MergeAssoc(x, store, held);
    MergeComm(x, Merge(store, held));
    MergeAssoc(accepted, surplus, x);
  }

  lemma StepStop(s: State, cap: nat, mask: seq<bool>)
    requires Inv(s, cap) && Can(s, Stop(mask))
    ensures Inv(Do(s, cap, Stop(mask)), cap)
  {
    var t := Do(s, cap, Stop(mask));
    StopBalanced(s, cap, mask);
    assert t.b.deltas.Keys == s.b.deltas.Keys + ItemKeys(s.flight);
    CardMono(Capped(t.b), Capped(s.b));
  }

  lemma StepKeepsInv(s: State, cap: nat, step: Step)
    requires Inv(s, cap) && Can(s, step)
    ensures Inv(Do(s, cap, step), cap)
  {
    match step
    case Event(key, fs) => StepEvent(s, cap, key, fs);
    case Click(spot, n) => StepClick(s, cap, spot, n);
    case ConcSample(key, f, n) => StepSample(s, cap, key, f, n);
    case Begin(_, _) => StepBegin(s, cap, step);
    case Chunk(_) => StepChunk(s, cap, step);
    case Stop(mask) => StepStop(s, cap, mask);
  }

  lemma {:induction false} RunKeepsInv(s: State, cap: nat, run: seq<Step>)
    requires Inv(s, cap) && Legal(s, cap, run)
    ensures Inv(After(s, cap, run), cap)
    decreases |run|
  {
    if run != [] {
      StepKeepsInv(s, cap, run[0]);
      RunKeepsInv(Do(s, cap, run[0]), cap, run[1..]);
    }
  }

  lemma StartInv(store: Cells, cap: nat)
    ensures Inv(Start(store), cap)
  {
    MergeUnit(map[]);
    MergeUnit(store);
    var s := Start(store);
    assert Held(s) == map[];
    assert Capped(s.b) == {};
  }

  /** Nothing accepted is ever lost: additive cells add up exactly, with what landed of handed-back chunks as the
      only excess, and "conc" cells hold the maximum of all samples. */
  lemma Conservation(store: Cells, cap: nat, run: seq<Step>, c: Cell)
    requires Legal(Start(store), cap, run)
    ensures var s := After(Start(store), cap, run);
            var inFlight := At(CellsOfItems(s.flight), c);
            if IsMax(c)
            then Max(At(s.store, c), Max(At(Held(s), c), inFlight)) == At(s.accepted, c)
            else At(s.store, c) + At(Held(s), c) + inFlight == At(s.accepted, c) + At(s.surplus, c)
  {
    StartInv(store, cap);
    RunKeepsInv(Start(store), cap, run);
    var s := After(Start(store), cap, run);
    MergeAt(Held(s), CellsOfItems(s.flight), c);
    MergeAt(s.store, Merge(Held(s), CellsOfItems(s.flight)), c);
    MergeAt(s.accepted, s.surplus, c);
  }

  // ---------- nothing is refused below the cap ----------

  /** What a step sends to the buffers, whether it is accepted or not. */
  function SentBy(step: Step): Cells {
    match step
    case Event(key, fs) => CellsOf(map[key := fs], map[])
    case Click(spot, n) => CellsOf(map[], map[spot := n])
    case ConcSample(key, f, n) => CellsOf(map[key := map[f := n]], map[])
    case _ => map[]
  }

  function Sent(run: seq<Step>): Cells {
    if run == [] then map[] else Merge(SentBy(run[0]), Sent(run[1..]))
  }

  function KeysSent(run: seq<Step>): set<CounterKey> {
    (set i | 0 <= i < |run| && run[i].Event? :: run[i].key) + (set i | 0 <= i < |run| && run[i].ConcSample? :: run[i].key)
  }

  function SpotsSent(run: seq<Step>): set<HeatKey> {
    set i | 0 <= i < |run| && run[i].Click? :: run[i].spot
  }

  /** What is held, being written or in flight was sent. */
  predicate WithinSent(s: State, keys: set<CounterKey>, spots: set<HeatKey>) {
    && s.b.deltas.Keys <= keys && s.b.pending <= keys && ItemKeys(s.flight) <= keys
    && s.b.heat.Keys <= spots && SplitHeat(s.flight).Keys <= spots
  }

  lemma {:induction false} SuffixSplit(items: seq<Item>, i: nat)
    requires i <= |items|
    ensures ItemKeys(items[i..]) <= ItemKeys(items) && SplitHeat(items[i..]).Keys <= SplitHeat(items).Keys
  {
    if i == 0 {
      assert items[0..] == items;
    } else {
      SuffixSplit(items[1..], i - 1);
      assert items[1..][i - 1..] == items[i..];
    }
  }

  lemma FewerThan<T>(a: set<T>, b: set<T>, x: T)
    requires a <= b && x in b && x !in a
    ensures |a| < |b|
  {
    CardMono(a, b - {x});
  }

  lemma EventIsAccepted(s: State, cap: nat, key: CounterKey, fs: Fields, keys: set<CounterKey>)
    requires Can(s, Event(key, fs)) && s.b.deltas.Keys <= keys && s.b.pending <= keys && |keys| < cap
    ensures var t := Do(s, cap, Event(key, fs));
            t.accepted == Merge(s.accepted, CellsOf(map[key := fs], map[])) && t.b.dropped == s.b.dropped
            && t.b.deltas.Keys == s.b.deltas.Keys + {key} && t.b.pending == s.b.pending && t.b.heat == s.b.heat
  {
    CardMono(s.b.deltas.Keys + s.b.pending, keys);
    AcceptIff(s.b, cap, key, fs);
  }

  lemma ClickIsAccepted(s: State, cap: nat, spot: HeatKey, n: nat, spots: set<HeatKey>)
    requires s.b.heat.Keys <= spots && spot in spots && |spots| <= cap
    ensures var t := Do(s, cap, Click(spot, n));
            t.accepted == Merge(s.accepted, CellsOf(map[], map[spot := n])) && t.b.dropped == s.b.dropped
            && t.b.heat.Keys == s.b.heat.Keys + {spot} && t.b.deltas == s.b.deltas && t.b.pending == s.b.pending
  {
    if spot !in s.b.heat {
      FewerThan(s.b.heat.Keys, spots, spot);
    }
    HitIff(s.b, cap, spot, n);
  }

  lemma StepIsAccepted(s: State, cap: nat, step: Step, keys: set<CounterKey>, spots: set<HeatKey>)
    requires Can(s, step) && WithinSent(s, keys, spots) && |keys| < cap && |spots| <= cap
    requires (step.Event? || step.ConcSample? ==> step.key in keys) && (step.Click? ==> step.spot in spots)
    ensures var t := Do(s, cap, step);
            t.accepted == Merge(s.accepted, SentBy(step)) && t.b.dropped == s.b.dropped && WithinSent(t, keys, spots)
  {
    match step
    case Event(key, fs) => EventIsAccepted(s, cap, key, fs, keys);
    case Click(spot, n) => ClickIsAccepted(s, cap, spot, n, spots);
    case ConcSample(_, _, _) =>
    case Begin(heat, items) =>
      ListsSplit(items, s.b.deltas, if heat then s.b.heat else map[]);
      MergeUnit(s.accepted);
    case Chunk(n) =>
      SuffixSplit(s.flight, n);
      MergeUnit(s.accepted);
    case Stop(_) => MergeUnit(s.accepted);
  }

  lemma {:induction false} AllAcceptedFrom(s: State, cap: nat, run: seq<Step>, keys: set<CounterKey>, spots: set<HeatKey>)
    requires Legal(s, cap, run) && WithinSent(s, keys, spots) && |keys| < cap && |spots| <= cap
    requires KeysSent(run) <= keys && SpotsSent(run) <= spots
    ensures var t := After(s, cap, run);
            t.accepted == Merge(s.accepted, Sent(run)) && t.b.dropped == s.b.dropped
    decreases |run|
  {
    if run == [] {
      MergeUnit(s.accepted);
    } else {
      SentFirst(run, keys, spots);
      StepIsAccepted(s, cap, run[0], keys, spots);
      AllAcceptedFrom(Do(s, cap, run[0]), cap, run[1..], keys, spots);
      MergeAssoc(s.accepted, SentBy(run[0]), Sent(run[1..]));
    }
  }

  lemma SentFirst(run: seq<Step>, keys: set<CounterKey>, spots: set<HeatKey>)
    requires run != [] && KeysSent(run) <= keys && SpotsSent(run) <= spots
    ensures KeysSent(run[1..]) <= keys && SpotsSent(run[1..]) <= spots
    ensures (run[0].Event? || run[0].ConcSample? ==> run[0].key in keys) && (run[0].Click? ==> run[0].spot in spots)
  {
    assert forall i :: 0 <= i < |run[1..]| ==> run[1..][i] == run[i + 1];
    assert forall i :: 0 <= i < |run[1..]| && (run[1..][i].Event? || run[1..][i].ConcSample?) ==> run[i + 1].key in KeysSent(run);
    assert forall i :: 0 <= i < |run[1..]| && run[1..][i].Click? ==> run[i + 1].spot in SpotsSent(run);
    assert run[0].Event? || run[0].ConcSample? ==> run[0].key in KeysSent(run);
    assert run[0].Click? ==> run[0].spot in SpotsSent(run);
  }

  /** As long as the distinct counter keys that are sent stay below the cap, and the distinct spots within it, every event, click
      and sample of the run is accepted, whatever flushes do meanwhile. */
  lemma AllAccepted(store: Cells, cap: nat, run: seq<Step>)
    requires Legal(Start(store), cap, run) && |KeysSent(run)| < cap && |SpotsSent(run)| <= cap
    ensures After(Start(store), cap, run).accepted == Merge(store, Sent(run))
    ensures After(Start(store), cap, run).b.dropped == 0
  {
    AllAcceptedFrom(Start(store), cap, run, KeysSent(run), SpotsSent(run));
  }

  /** So everything that was sent is stored, held or in flight: concurrency cells by maximum, all others added up, with what
      landed of handed-back chunks as the only excess. */
  lemma EverySentCounted(store: Cells, cap: nat, run: seq<Step>, c: Cell)
    requires Legal(Start(store), cap, run) && |KeysSent(run)| < cap && |SpotsSent(run)| <= cap
    ensures var s := After(Start(store), cap, run);
            var inFlight := At(CellsOfItems(s.flight), c);
            if c.Counter? && c.key.kind == "conc"
            then Max(At(s.store, c), Max(At(Held(s), c), inFlight)) == Max(At(store, c), At(Sent(run), c))
            else At(s.store, c) + At(Held(s), c) + inFlight == At(store, c) + At(Sent(run), c) + At(s.surplus, c)
  {
    Conservation(store, cap, run, c);
    AllAccepted(store, cap, run);
    MergeAt(store, Sent(run), c);
  }

  /** At the cap itself not even that holds: an event of the one key in use is refused while its snapshot is being written. */
  lemma KnownKeyRefused(s: State, key: CounterKey, fs: Fields)
    requires s.flying && s.b.deltas == map[] && s.b.pending == {key} && key.kind != "conc"
    ensures Can(s, Event(key, fs)) && Do(s, 1, Event(key, fs)) == s.(b := s.b.(dropped := s.b.dropped + 1))
  {
    assert s.b.deltas.Keys + s.b.pending == {key};
    AcceptIff(s.b, 1, key, fs);
  }

  /** When no broken chunk landed anything, the accounts balance to the unit. */
  lemma {:induction false} NoSurplus(s: State, cap: nat, run: seq<Step>)
    requires Legal(s, cap, run)
    requires forall i, j :: 0 <= i < |run| && run[i].Stop? && 0 <= j < |run[i].mask| ==> !run[i].mask[j]
    requires s.surplus == map[]
    ensures After(s, cap, run).surplus == map[]
    decreases |run|
  {
    if run != [] {
      if run[0].Stop? {
        var mask := run[0].mask;
        LandedNothing(s.flight[..|mask|], mask);
        MergeUnit(s.surplus);
      }
      assert forall i :: 0 <= i < |run[1..]| ==> run[1..][i] == run[i + 1];
      NoSurplus(Do(s, cap, run[0]), cap, run[1..]);
    }
  }

  /** The excess a stopped flush can cause is bounded by the one chunk that broke. */
  lemma SurplusPerStop(s: State, cap: nat, mask: seq<bool>, c: Cell)
    requires Can(s, Stop(mask)) && !IsMax(c)
    ensures At(Do(s, cap, Stop(mask)).surplus, c)
            <= At(s.surplus, c) + At(CellsOfItems(s.flight[..|mask|]), c)
  {
    LandedBelow(s.flight[..|mask|], mask, c);
    MergeAt(s.surplus, CellsOfItems(Landed(s.flight[..|mask|], mask)), c);
  }

  /** Over every run the counter keys held or being written stay within the cap, concurrency samples aside. */
  lemma BufferBounded(store: Cells, cap: nat, run: seq<Step>)
    requires Legal(Start(store), cap, run)
    ensures var s := After(Start(store), cap, run);
            && |set k | k in s.b.deltas.Keys + s.b.pending && k.kind != "conc"| <= cap
            && forall i :: 0 <= i < |s.flight| && s.flight[i].CounterItem? ==> s.flight[i].key in s.b.pending
  {
    StartInv(store, cap);
    RunKeepsInv(Start(store), cap, run);
    HeldOrWritten(After(Start(store), cap, run), cap);
  }

  lemma HeldOrWritten(s: State, cap: nat)
    requires Shaped(s, cap)
    ensures |set k | k in s.b.deltas.Keys + s.b.pending && k.kind != "conc"| <= cap
    ensures forall i :: 0 <= i < |s.flight| && s.flight[i].CounterItem? ==> s.flight[i].key in s.b.pending
  {
    assert Capped(s.b) == set k | k in s.b.deltas.Keys + s.b.pending && k.kind != "conc";
    forall i | 0 <= i < |s.flight| && s.flight[i].CounterItem?
      ensures s.flight[i].key in s.b.pending
    {
      ItemKeyIn(s.flight, i);
    }
  }

  lemma {:induction false} FlushSteps(s: State, cap: nat, items: seq<Item>, chunk: nat, ends: seq<ChunkEnd>)
    returns (run: seq<Step>)
    requires chunk > 0 && s.flying && s.flight == items && items != []
    ensures Legal(s, cap, run)
    ensures var r, t := WriteAll(s.store, items, chunk, ends), After(s, cap, run);
            && !t.flying && t.store == r.store && t.accepted == s.accepted
            && t.surplus == Merge(s.surplus, r.surplus)
            && t.b == GiveBack(s.b, SplitCounters(r.rest), SplitHeat(r.rest))
    decreases |items|
  {
    var n := ChunkLen(items, chunk);
    MergeUnit(s.surplus);
    RestoreNothing(s.b);
    match NextEnd(ends)
    case Broken(mask) =>
      run := [Stop(Mask(mask, n))];
      OneStep(s, cap, run[0]);
    case WrittenThenCancelled =>
      OneStep(s, cap, Chunk(n));
      if n < |items| {
        var t := Do(s, cap, Chunk(n));
        assert Landed(t.flight[..0], []) == [];
        MergeUnit(t.store);
        OneStep(t, cap, Stop([]));
        run := [Chunk(n), Stop([])];
        assert run[1..] == [Stop([])];
      } else {
        assert items[..n] == items;
        run := [Chunk(n)];
      }
    case Written =>
      var t := Do(s, cap, Chunk(n));
      if n < |items| {
        var more := FlushSteps(t, cap, items[n..], chunk, LaterEnds(ends));
        run := [Chunk(n)] + more;
        assert run[1..] == more;
      } else {
        OneStep(s, cap, Chunk(n));
        run := [Chunk(n)];
      }
  }

  lemma OneStep(s: State, cap: nat, step: Step)
    requires Can(s, step)
    ensures Legal(s, cap, [step]) && After(s, cap, [step]) == Do(s, cap, step)
  {
    assert [step][1..] == [];
  }
}
