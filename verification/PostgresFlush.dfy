/** A flush into Postgres: one transaction under a timeout, which can end it before or after the commit. */
module PostgresFlush {
  import opened CounterCells
  import opened FlushItems
  import opened CounterBuffer
  import opened FlushRuns
  import opened CounterStores

  /** Nothing to write and no pass due: there is no transaction that could fail. */
  function Ended(items: seq<Item>, pass: bool, end: TxEnd): TxEnd {
    if CellsOfItems(items) == map[] && !pass then Commits else end
  }

  /** What goes back to the buffers: nothing of a write that is known to be committed, otherwise all of it. */
  function Rest(items: seq<Item>, end: TxEnd): seq<Item> {
    if end.Commits? then [] else items
  }

  function RowsAfter(rows: Cells, items: seq<Item>, today: nat, pass: bool, end: TxEnd): Cells {
    if items == [] || end.RollsBack? then rows
    else
      var merged := Merge(rows, CellsOfItems(items));
      if pass then Kept(merged, today - RETENTION_DAYS) else merged
  }

  /** One tick with nothing arriving meanwhile, and how its transaction ends. */
  method FlushOncePostgres(a: Analytics, store: PostgresStore, now: real, period: real, force: bool, includeHeat: bool,
                           today: nat, end: TxEnd)
    returns (attempted: bool, ghost items: seq<Item>)
    modifies a`deltas, a`heat, a`pending, a`lastFlush, store
    ensures if !IsDue(old(a.lastFlush), now, period, force) then
              && !attempted && store.rows == old(store.rows) && store.lastRetention == old(store.lastRetention)
              && a.Now() == old(a.Now()) && a.lastFlush == old(a.lastFlush)
            else
              && a.lastFlush == now
              && Lists(items, old(a.deltas), if includeHeat then old(a.heat) else map[])
              && (attempted <==> items != [])
              && var pass := old(store.lastRetention) != Day(today);
                 var ended := Ended(items, pass, end);
                 && store.rows == RowsAfter(old(store.rows), items, today, pass, ended)
                 && store.lastRetention == (if attempted && ended.Commits? then Day(today) else old(store.lastRetention))
                 && a.Now() == GiveBack(SwapOut(old(a.Now()), includeHeat), SplitCounters(Rest(items, ended)),
                                        SplitHeat(Rest(items, ended)))
  {
    if !IsDue(a.lastFlush, now, period, force) {
      return false, [];
    }
    a.lastFlush := now;
    var d, h := a.BeginFlush(includeHeat);
    label swapped:
    items := ListBuffers(d, h);
    attempted := d != map[] || h != map[];
    ListsSplit(items, d, h);
    ListsCells(items, d, h);
    MergeUnit(store.rows);
    RestoreNothing(old@swapped(a.Now()));
    if attempted {
      var ok := store.Write(d, h, today, end);
      if ok {
        a.pending := {};
      } else {
        a.EndFlush(d, h);
      }
    }
  }

  // ---------- as steps of a run ----------

  lemma {:induction false} LandedAll(items: seq<Item>)
    ensures Landed(items, seq(|items|, i => true)) == items
  {
    if items != [] {
      assert seq(|items|, i => true)[1..] == seq(|items[1..]|, i => true);
      LandedAll(items[1..]);
      assert [items[0]] + items[1..] == items;
    }
  }

  /** The transaction as steps: one chunk of everything, a stop that lands nothing, or a stop that lands everything. */
  function StepOf(items: seq<Item>, end: TxEnd): Step {
    match end
    case Commits => Chunk(|items|)
    case RollsBack => Stop([])
    case CommitsUnseen => Stop(seq(|items|, i => true))
  }

  lemma StepLands(s: State, cap: nat, items: seq<Item>, end: TxEnd)
    requires s.flying && s.flight == items && items != []
    ensures Can(s, StepOf(items, end))
    ensures var t := Do(s, cap, StepOf(items, end));
            && !t.flying && t.accepted == s.accepted
            && t.store == (if end.RollsBack? then s.store else Merge(s.store, CellsOfItems(items)))
            && t.surplus == (if end.CommitsUnseen? then Merge(s.surplus, CellsOfItems(items)) else s.surplus)
            && t.b == GiveBack(s.b, SplitCounters(Rest(items, end)), SplitHeat(Rest(items, end)))
  {
    assert items[..|items|] == items && items[..0] == [];
    MergeUnit(s.store);
    MergeUnit(s.surplus);
    RestoreNothing(s.b);
    LandedAll(items);
  }

  /** However its transaction ends, a Postgres tick is a legal step of the interleaved runs: the buffers end the same, and the
      table keeps holding what the store of the run holds, counters of days before the retention limit aside. All that can
      be counted twice is what one transaction wrote, and only if its commit was not seen. */
  lemma TransactionIsAStep(s: State, cap: nat, rows: Cells, items: seq<Item>, today: nat, pass: bool, end: TxEnd, cutoff: int)
    requires s.flying && s.flight == items && items != []
    requires Kept(rows, cutoff) == Kept(s.store, cutoff) && today - RETENTION_DAYS <= cutoff
    ensures FlushRuns.Legal(s, cap, [StepOf(items, end)])
    ensures var t := After(s, cap, [StepOf(items, end)]);
            && !t.flying && t.accepted == s.accepted
            && Kept(RowsAfter(rows, items, today, pass, end), cutoff) == Kept(t.store, cutoff)
            && t.surplus == (if end.CommitsUnseen? then Merge(s.surplus, CellsOfItems(items)) else s.surplus)
            && t.b == GiveBack(s.b, SplitCounters(Rest(items, end)), SplitHeat(Rest(items, end)))
  {
    StepLands(s, cap, items, end);
    OneStep(s, cap, StepOf(items, end));
    KeptMerge(rows, CellsOfItems(items), cutoff);
    KeptMerge(s.store, CellsOfItems(items), cutoff);
    KeptTwice(Merge(rows, CellsOfItems(items)), today - RETENTION_DAYS, cutoff);
  }

  // ---------- whole runs ----------

  /** Any step of the interleaved runs but the chunks, and a transaction that ends. */
  datatype PgStep = Other(step: Step) | Transacts(today: nat, pass: bool, end: TxEnd)

  /** The buffers and accounts of a run, and the table. */
  datatype PgState = PgState(s: State, rows: Cells)

  predicate PgCan(p: PgState, step: PgStep) {
    match step
    case Other(step) => !step.Chunk? && !step.Stop? && Can(p.s, step)
    case Transacts(_, _, _) => p.s.flying && p.s.flight != []
  }

  function AsStep(p: PgState, step: PgStep): Step {
    match step
    case Other(step) => step
    case Transacts(_, _, end) => StepOf(p.s.flight, end)
  }

  lemma StepCan(p: PgState, cap: nat, step: PgStep)
    requires PgCan(p, step)
    ensures Can(p.s, AsStep(p, step))
  {
    if step.Transacts? {
      StepLands(p.s, cap, p.s.flight, step.end);
    }
  }

  function PgDo(p: PgState, cap: nat, step: PgStep): PgState
    requires PgCan(p, step)
  {
    StepCan(p, cap, step);
    PgState(Do(p.s, cap, AsStep(p, step)),
            match step
            case Other(_) => p.rows
            case Transacts(today, pass, end) => RowsAfter(p.rows, p.s.flight, today, pass, end))
  }

  predicate PgLegal(p: PgState, cap: nat, run: seq<PgStep>)
    decreases |run|
  {
    run == [] || (PgCan(p, run[0]) && PgLegal(PgDo(p, cap, run[0]), cap, run[1..]))
  }

  function PgAfter(p: PgState, cap: nat, run: seq<PgStep>): PgState
    requires PgLegal(p, cap, run)
    decreases |run|
  {
    if run == [] then p else PgAfter(PgDo(p, cap, run[0]), cap, run[1..])
  }

  function AsRun(p: PgState, cap: nat, run: seq<PgStep>): seq<Step>
    requires PgLegal(p, cap, run)
    decreases |run|
  {
    if run == [] then [] else [AsStep(p, run[0])] + AsRun(PgDo(p, cap, run[0]), cap, run[1..])
  }

  /** A flush under way can end in each of the three ways, with what `StepLands` says of the buffers. */
  lemma AnyEnding(p: PgState, cap: nat, today: nat, pass: bool, end: TxEnd)
    requires p.s.flying && p.s.flight != []
    ensures PgCan(p, Transacts(today, pass, end)) && Can(p.s, StepOf(p.s.flight, end))
    ensures PgDo(p, cap, Transacts(today, pass, end))
            == PgState(Do(p.s, cap, StepOf(p.s.flight, end)), RowsAfter(p.rows, p.s.flight, today, pass, end))
  {
    StepLands(p.s, cap, p.s.flight, end);
  }

  lemma StepKeepsRows(p: PgState, cap: nat, step: PgStep, cutoff: int)
    requires PgCan(p, step) && Kept(p.rows, cutoff) == Kept(p.s.store, cutoff)
    requires step.Transacts? ==> step.today - RETENTION_DAYS <= cutoff
    ensures var p' := PgDo(p, cap, step); Kept(p'.rows, cutoff) == Kept(p'.s.store, cutoff)
  {
    match step
    case Other(_) =>
    case Transacts(today, pass, end) =>
      TransactionIsAStep(p.s, cap, p.rows, p.s.flight, today, pass, end, cutoff);
      OneStep(p.s, cap, StepOf(p.s.flight, end));
  }

  /** A run into Postgres is a legal interleaved run, whose store holds what the table holds, counters of days before the
      retention limit aside. */
  lemma {:induction false} RunIsLegal(p: PgState, cap: nat, run: seq<PgStep>, cutoff: int)
    requires PgLegal(p, cap, run) && Kept(p.rows, cutoff) == Kept(p.s.store, cutoff)
    requires forall step :: step in run && step.Transacts? ==> step.today - RETENTION_DAYS <= cutoff
    ensures FlushRuns.Legal(p.s, cap, AsRun(p, cap, run))
    ensures var p' := PgAfter(p, cap, run);
            p'.s == After(p.s, cap, AsRun(p, cap, run)) && Kept(p'.rows, cutoff) == Kept(p'.s.store, cutoff)
    decreases |run|
  {
    if run != [] {
      var p1 := PgDo(p, cap, run[0]);
      StepCan(p, cap, run[0]);
      StepKeepsRows(p, cap, run[0], cutoff);
      RunIsLegal(p1, cap, run[1..], cutoff);
      assert AsRun(p, cap, run)[0] == AsStep(p, run[0]) && AsRun(p, cap, run)[1..] == AsRun(p1, cap, run[1..]);
    }
  }

  /** Nothing accepted is ever lost on the way into Postgres: over every run of events, samples and flushes whose transactions
      commit, roll back, or commit unseen, table, buffers and flight together hold what was accepted, with unseen commits as
      the only excess; in every cell that no retention pass of the run can take. */
  lemma PgConservation(rows: Cells, cap: nat, run: seq<PgStep>, cutoff: int, c: Cell)
    requires PgLegal(PgState(Start(rows), rows), cap, run)
    requires forall step :: step in run && step.Transacts? ==> step.today - 400 <= cutoff
    requires c.Counter? ==> c.key.day >= cutoff
    ensures var p := PgAfter(PgState(Start(rows), rows), cap, run);
            var inFlight := At(CellsOfItems(p.s.flight), c);
            if IsMax(c)
            then Max(At(p.rows, c), Max(At(Held(p.s), c), inFlight)) == At(p.s.accepted, c)
            else At(p.rows, c) + At(Held(p.s), c) + inFlight == At(p.s.accepted, c) + At(p.s.surplus, c)
  {
    var p0 := PgState(Start(rows), rows);
    RunIsLegal(p0, cap, run, cutoff);
    Conservation(rows, cap, AsRun(p0, cap, run), c);
    var p := PgAfter(p0, cap, run);
    assert c in p.rows <==> c in Kept(p.rows, cutoff);
    assert c in p.s.store <==> c in Kept(p.s.store, cutoff);
    assert At(p.rows, c) == At(p.s.store, c);
  }

  /** As long as every commit is seen there is no excess. */
  lemma {:induction false} NoUnseenNoSurplus(p: PgState, cap: nat, run: seq<PgStep>)
    requires PgLegal(p, cap, run) && p.s.surplus == map[]
    requires forall step :: step in run && step.Transacts? ==> step.end != CommitsUnseen
    ensures PgAfter(p, cap, run).s.surplus == map[]
    decreases |run|
  {
    if run != [] {
      StepCan(p, cap, run[0]);
      if run[0].Transacts? {
        StepLands(p.s, cap, p.s.flight, run[0].end);
      }
      NoUnseenNoSurplus(PgDo(p, cap, run[0]), cap, run[1..]);
    }
  }
}
