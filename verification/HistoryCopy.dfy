/** The restartable copy of the Mongo history into Postgres: a ledger applies each document once, and a final
    scan compares totals. */
module HistoryCopy {
  import opened CounterCells
  import opened CounterStores
  import opened DocTree

  datatype Source = FromCounters | FromHeat

  /** One Mongo document as the rows it contributes. */
  datatype Part = Part(source: Source, id: nat, cells: Cells)

  datatype CounterDoc = CounterDoc(id: nat, key: CounterKey, body: Node)
  datatype HeatDoc = HeatDoc(id: nat, spot: HeatKey, n: nat)

  type Mark = (Source, nat)

  function MarkOf(p: Part): Mark {
    (p.source, p.id)
  }

  function CounterPart(d: CounterDoc): Part {
    Part(FromCounters, d.id, DocCells(d.key, d.body))
  }

  function HeatPart(d: HeatDoc): Part {
    Part(FromHeat, d.id, map[Heat(d.spot) := d.n])
  }

  function CounterParts(docs: seq<CounterDoc>): seq<Part> {
    seq(|docs|, i requires 0 <= i < |docs| => CounterPart(docs[i]))
  }

  function HeatParts(docs: seq<HeatDoc>): seq<Part> {
    seq(|docs|, i requires 0 <= i < |docs| => HeatPart(docs[i]))
  }

  predicate DistinctMarks(all: seq<Part>) {
    forall i, j :: 0 <= i < j < |all| ==> MarkOf(all[i]) != MarkOf(all[j])
  }

  /** The documents of `all` that the ledger says were applied, each once. */
  function Imported(all: seq<Part>, ledger: set<Mark>): Cells {
    if all == [] then map[]
    else if MarkOf(all[0]) in ledger then Merge(all[0].cells, Imported(all[1..], ledger))
    else Imported(all[1..], ledger)
  }

  function CellsOfParts(all: seq<Part>): Cells {
    if all == [] then map[] else Merge(all[0].cells, CellsOfParts(all[1..]))
  }

  // ---------- one batch ----------

  datatype Table = Table(rows: Cells, ledger: set<Mark>)

  function ApplyPart(t: Table, p: Part): Table {
    if MarkOf(p) in t.ledger then t else Table(Merge(t.rows, p.cells), t.ledger + {MarkOf(p)})
  }

  function ApplyParts(t: Table, parts: seq<Part>): Table {
    if parts == [] then t else ApplyPart(ApplyParts(t, parts[..|parts| - 1]), parts[|parts| - 1])
  }

  /** The rows that applying `parts` adds from one kind of document, and the documents it skips. */
  function RowsAdded(t: Table, parts: seq<Part>, source: Source): nat {
    if parts == [] then 0
    else
      var init, p := parts[..|parts| - 1], parts[|parts| - 1];
      RowsAdded(t, init, source) + if p.source == source && MarkOf(p) !in ApplyParts(t, init).ledger then |p.cells| else 0
  }

  function Skipped(t: Table, parts: seq<Part>): nat {
    if parts == [] then 0
    else
      var init, p := parts[..|parts| - 1], parts[|parts| - 1];
      Skipped(t, init) + if MarkOf(p) in ApplyParts(t, init).ledger then 1 else 0
  }

  function AllRowsOf(parts: seq<Part>, source: Source): nat {
    if parts == [] then 0
    else
      var p := parts[|parts| - 1];
      AllRowsOf(parts[..|parts| - 1], source) + if p.source == source then |p.cells| else 0
  }

  lemma {:induction false} LedgerGrows(t: Table, parts: seq<Part>)
    ensures ApplyParts(t, parts).ledger == t.ledger + set p | p in parts :: MarkOf(p)
  {
    if parts != [] {
      var init, last := parts[..|parts| - 1], parts[|parts| - 1];
      LedgerGrows(t, init);
      assert parts == init + [last];
    }
  }

  /** The first time, a batch counts all its rows and skips nothing. */
  lemma {:induction false} FirstCounts(t: Table, parts: seq<Part>, source: Source)
    requires DistinctMarks(parts) && forall p :: p in parts ==> MarkOf(p) !in t.ledger
    ensures RowsAdded(t, parts, source) == AllRowsOf(parts, source) && Skipped(t, parts) == 0
  {
    if parts != [] {
      var init, last := parts[..|parts| - 1], parts[|parts| - 1];
      FirstCounts(t, init, source);
      LedgerGrows(t, init);
      NewMark(parts);
      assert last in parts;
    }
  }

  lemma NewMark(parts: seq<Part>)
    requires DistinctMarks(parts) && parts != []
    ensures MarkOf(parts[|parts| - 1]) !in set p | p in parts[..|parts| - 1] :: MarkOf(p)
  {
  }

  /** Repeated, it counts no row and skips every document. */
  lemma {:induction false} RepeatCounts(t: Table, parts: seq<Part>, source: Source)
    requires forall p :: p in parts ==> MarkOf(p) in t.ledger
    ensures RowsAdded(t, parts, source) == 0 && Skipped(t, parts) == |parts|
  {
    if parts != [] {
      RepeatCounts(t, parts[..|parts| - 1], source);
      LedgerGrows(t, parts[..|parts| - 1]);
    }
  }

  class HistoryStore {
    const pg: PostgresStore
    var ledger: set<Mark>

    constructor (pg: PostgresStore)
      ensures this.pg == pg && ledger == {}
    {
      this.pg := pg;
      ledger := {};
    }

    function Now(): Table
      reads this, pg
    {
      Table(pg.rows, ledger)
    }

    /** One transaction. When it does not commit, neither the rows nor the ledger change. */
    method CopyHistoryBatch(parts: seq<Part>, commits: bool) returns (counterRows: nat, heatRows: nat, skipped: nat)
      modifies this, pg
      ensures Now() == if commits then ApplyParts(old(Now()), parts) else old(Now())
      ensures commits ==>
                && counterRows == RowsAdded(old(Now()), parts, FromCounters)
                && heatRows == RowsAdded(old(Now()), parts, FromHeat)
                && skipped == Skipped(old(Now()), parts)
    {
      var rowsBefore, ledgerBefore := pg.rows, ledger;
      counterRows, heatRows, skipped := 0, 0, 0;
      for i := 0 to |parts|
        invariant Now() == ApplyParts(old(Now()), parts[..i])
        invariant counterRows == RowsAdded(old(Now()), parts[..i], FromCounters)
        invariant heatRows == RowsAdded(old(Now()), parts[..i], FromHeat)
        invariant skipped == Skipped(old(Now()), parts[..i])
      {
        assert parts[..i + 1][..i] == parts[..i];
        var mark := MarkOf(parts[i]);
        if mark in ledger {
          skipped := skipped + 1;
        } else {
          ledger := ledger + {mark};
          pg.UpsertRows(parts[i].cells);
          if parts[i].source.FromCounters? {
            counterRows := counterRows + |parts[i].cells|;
          } else {
            heatRows := heatRows + |parts[i].cells|;
          }
        }
      }
      assert parts[..|parts|] == parts;
      if !commits {
        pg.rows, ledger := rowsBefore, ledgerBefore;
      }
    }

    /** A page that commits: each of its documents is marked, and counted once. */
    method CopyPage(page: seq<Part>, ghost all: seq<Part>, ghost live: Cells)
      requires Imports(Now(), live, all) && DistinctMarks(all) && forall p :: p in page ==> p in all
      modifies this, pg
      ensures Imports(Now(), live, all) && old(ledger) <= ledger
      ensures forall i :: 0 <= i < |page| ==> MarkOf(page[i]) in ledger
    {
      ghost var t := Now();
      var _, _, _ := CopyHistoryBatch(page, true);
      BatchKeepsImports(t, live, all, page);
    }

    /** A live flush between two pages. */
    method LiveWrite(written: Cells, ghost all: seq<Part>, ghost live: Cells)
      requires Imports(Now(), live, all)
      modifies pg
      ensures Imports(Now(), Merge(live, written), all)
    {
      LiveKeepsImports(Now(), live, all, written);
      pg.UpsertRows(written);
    }

    /** The paginated scan of one collection: pages by id until a page comes back empty. Transaction number
        `stopAt` fails and ends the scan; `arrivals` is what the live app writes between transactions. */
    method CopyCollection(src: seq<Part>, after: int, size: nat, stopAt: nat, arrivals: seq<Cells>,
                          ghost all: seq<Part>, ghost live: Cells)
      returns (finished: bool, ghost live': Cells)
      requires size > 0 && SortedById(src) && DistinctMarks(all) && forall p :: p in src ==> p in all
      requires Imports(Now(), live, all)
      modifies this, pg
      ensures Imports(Now(), live', all) && old(ledger) <= ledger
      ensures exists n :: 0 <= n <= |arrivals| && live' == LiveAfter(live, arrivals, n)
      ensures finished ==> forall i :: 0 <= i < |src| && src[i].id > after ==> MarkOf(src[i]) in ledger
    {
      var seen, done := after, 0;
      live' := live;
      LiveAfterNone(live, arrivals);
      PassedSplits(src, after);
      ghost var n := 0;
      while true
        invariant Imports(Now(), live', all) && old(ledger) <= ledger
        invariant 0 <= n <= |arrivals| && live' == LiveAfter(live, arrivals, n)
        invariant done <= |arrivals| ==> n == done
        invariant Marked(src, after, Passed(src, seen), ledger)
        decreases |src| - Passed(src, seen)
      {
        var page := Page(src, seen, size);
        if page == [] {
          return true, live';
        }
        if done == stopAt {
          var _, _, _ := CopyHistoryBatch(page, false);
          return false, live';
        }
        CopyPage(page, all, live');
        MarkedPage(src, after, Passed(src, seen), page, ledger);
        PassedPage(src, Passed(src, seen) + |page|);
        seen := page[|page| - 1].id;
        if done < |arrivals| {
          LiveAfterOneMore(live, arrivals, done);
          LiveWrite(arrivals[done], all, live');
          live', n := Merge(live', arrivals[done]), done + 1;
        }
        done := done + 1;
      }
    }
  }

  /** What the live app has written after its first `n` flushes. */
  function LiveAfter(live: Cells, arrivals: seq<Cells>, n: nat): Cells
    requires n <= |arrivals|
  {
    Merge(live, MergeAll(arrivals[..n]))
  }

  lemma LiveAfterNone(live: Cells, arrivals: seq<Cells>)
    ensures LiveAfter(live, arrivals, 0) == live
  {
    assert arrivals[..0] == [];
    MergeUnit(live);
  }

  lemma LiveAfterOneMore(live: Cells, arrivals: seq<Cells>, n: nat)
    requires n < |arrivals|
    ensures LiveAfter(live, arrivals, n + 1) == Merge(LiveAfter(live, arrivals, n), arrivals[n])
  {
    assert arrivals[..n + 1] == arrivals[..n] + [arrivals[n]];
    MergeAllConcat(arrivals[..n], [arrivals[n]]);
    MergeAllOne(arrivals[n]);
    MergeAssoc(live, MergeAll(arrivals[..n]), arrivals[n]);
  }

  /** The first `n` documents, as far as they lie beyond `after`, are marked. */
  predicate Marked(src: seq<Part>, after: int, n: nat, ledger: set<Mark>) {
    forall i :: 0 <= i < n && i < |src| && src[i].id > after ==> MarkOf(src[i]) in ledger
  }

  lemma MarkedPage(src: seq<Part>, after: int, n: nat, page: seq<Part>, ledger: set<Mark>)
    requires Marked(src, after, n, ledger) && n + |page| <= |src| && page == src[n..n + |page|]
    requires forall i :: 0 <= i < |page| ==> MarkOf(page[i]) in ledger
    ensures Marked(src, after, n + |page|, ledger)
  {
    forall i | n <= i < n + |page|
      ensures MarkOf(src[i]) in ledger
    {
      assert src[i] == page[i - n];
    }
  }

  predicate SortedById(src: seq<Part>) {
    forall i, j :: 0 <= i < j < |src| ==> src[i].id < src[j].id
  }

  /** Number of documents a scan that has reached `seen` has behind it. */
  function Passed(src: seq<Part>, seen: int): (n: nat)
    ensures n <= |src|
  {
    if src == [] || src[0].id > seen then 0 else 1 + Passed(src[1..], seen)
  }

  /** What the database returns: the next `size` documents beyond `seen` in id order. */
  function Page(src: seq<Part>, seen: int, size: nat): seq<Part> {
    var j := Passed(src, seen);
    if j + size <= |src| then src[j..j + size] else src[j..]
  }

  lemma {:induction false} PassedSplits(src: seq<Part>, seen: int)
    requires SortedById(src)
    ensures forall i :: 0 <= i < |src| ==> (src[i].id <= seen <==> i < Passed(src, seen))
  {
    if src != [] && src[0].id <= seen {
      PassedSplits(src[1..], seen);
      forall i | 0 < i < |src|
        ensures src[i].id <= seen <==> i < Passed(src, seen)
      {
        assert src[i] == src[1..][i - 1];
      }
    }
  }

  /** A page is the next documents beyond `seen`, as many as are asked for if there are so many. */
  lemma PageIs(src: seq<Part>, seen: int, size: nat, j: nat)
    requires SortedById(src) && j <= |src| && forall i :: 0 <= i < |src| ==> (src[i].id <= seen <==> i < j)
    ensures var page := Page(src, seen, size);
            && |page| <= size && j + |page| <= |src| && page == src[j..j + |page|]
            && (|page| < size ==> j + |page| == |src|)
  {
    PassedSplits(src, seen);
    var n := Passed(src, seen);
    assert n < |src| ==> src[n].id > seen;
    assert j < |src| ==> src[j].id > seen;
  }

  lemma PassedPage(src: seq<Part>, n: nat)
    requires SortedById(src) && 0 < n <= |src|
    ensures Passed(src, src[n - 1].id) == n
  {
    PassedSplits(src, src[n - 1].id);
    assert src[n - 1].id <= src[n - 1].id;
  }

  // ---------- what a batch and a live write keep ----------

  /** Everything in Postgres is what the live app wrote, combined with each imported document once. */
  ghost predicate Imports(t: Table, live: Cells, all: seq<Part>) {
    t.rows == Merge(live, Imported(all, t.ledger))
  }

  lemma {:induction false} ImportOne(all: seq<Part>, ledger: set<Mark>, p: Part)
    requires DistinctMarks(all) && p in all && MarkOf(p) !in ledger
    ensures Imported(all, ledger + {MarkOf(p)}) == Merge(Imported(all, ledger), p.cells)
  {
    var more := ledger + {MarkOf(p)};
    if all[0] == p {
      ImportSame(all[1..], ledger, more);
      MergeComm(p.cells, Imported(all[1..], ledger));
    } else {
      assert MarkOf(all[0]) != MarkOf(p);
      ImportOne(all[1..], ledger, p);
      MergeAssoc(all[0].cells, Imported(all[1..], ledger), p.cells);
    }
  }

  lemma {:induction false} ImportSame(all: seq<Part>, l: set<Mark>, l': set<Mark>)
    requires forall i :: 0 <= i < |all| ==> (MarkOf(all[i]) in l <==> MarkOf(all[i]) in l')
    ensures Imported(all, l) == Imported(all, l')
  {
    if all != [] {
      assert forall i :: 0 <= i < |all[1..]| ==> all[1..][i] == all[i + 1];
      ImportSame(all[1..], l, l');
    }
  }

  lemma {:induction false} BatchKeepsImports(t: Table, live: Cells, all: seq<Part>, parts: seq<Part>)
    requires Imports(t, live, all) && DistinctMarks(all) && forall p :: p in parts ==> p in all
    ensures var t' := ApplyParts(t, parts);
            && Imports(t', live, all) && t.ledger <= t'.ledger
            && forall i :: 0 <= i < |parts| ==> MarkOf(parts[i]) in t'.ledger
  {
    if parts != [] {
      var init, p := parts[..|parts| - 1], parts[|parts| - 1];
      BatchKeepsImports(t, live, all, init);
      var m := ApplyParts(t, init);
      if MarkOf(p) !in m.ledger {
        ImportOne(all, m.ledger, p);
        MergeAssoc(live, Imported(all, m.ledger), p.cells);
      }
      assert forall i :: 0 <= i < |init| ==> init[i] == parts[i];
    }
  }

  lemma LiveKeepsImports(t: Table, live: Cells, all: seq<Part>, x: Cells)
    requires Imports(t, live, all)
    ensures Imports(Table(Merge(t.rows, x), t.ledger), Merge(live, x), all)
  {
    var i := Imported(all, t.ledger);
    MergeAssoc(live, i, x);
    MergeComm(i, x);
    MergeAssoc(live, x, i);
  }

  // ---------- any sequence of interrupted runs ----------

  datatype Step = Live(written: Cells) | Batch(parts: seq<Part>, commits: bool)

  function DoStep(t: Table, step: Step): Table {
    match step
    case Live(x) => Table(Merge(t.rows, x), t.ledger)
    case Batch(parts, commits) => if commits then ApplyParts(t, parts) else t
  }

  function After(t: Table, run: seq<Step>): Table {
    if run == [] then t else DoStep(After(t, run[..|run| - 1]), run[|run| - 1])
  }

  /** What the live app wrote over a run. */
  function LiveRows(start: Cells, run: seq<Step>): Cells {
    if run == [] then start
    else
      var before := LiveRows(start, run[..|run| - 1]);
      match run[|run| - 1]
      case Live(x) => Merge(before, x)
      case Batch(_, _) => before
  }

  lemma {:induction false} RunKeepsImports(start: Cells, all: seq<Part>, run: seq<Step>)
    requires DistinctMarks(all)
    requires forall j, p :: 0 <= j < |run| && run[j].Batch? && p in run[j].parts ==> p in all
    ensures Imports(After(Table(start, {}), run), LiveRows(start, run), all)
  {
    if run == [] {
      NothingImported(all);
      MergeUnit(start);
    } else {
      var init, last := run[..|run| - 1], run[|run| - 1];
      assert forall i :: 0 <= i < |init| ==> init[i] == run[i];
      RunKeepsImports(start, all, init);
      var t := After(Table(start, {}), init);
      match last
      case Live(x) => LiveKeepsImports(t, LiveRows(start, init), all, x);
      case Batch(parts, commits) =>
        assert run[|run| - 1].parts == parts;
        BatchKeepsImports(t, LiveRows(start, init), all, parts);
    }
  }

  lemma {:induction false} NothingImported(all: seq<Part>)
    ensures Imported(all, {}) == map[]
  {
    if all != [] {
      NothingImported(all[1..]);
    }
  }

  lemma {:induction false} AllImported(all: seq<Part>, ledger: set<Mark>)
    requires forall i :: 0 <= i < |all| ==> MarkOf(all[i]) in ledger
    ensures Imported(all, ledger) == CellsOfParts(all)
  {
    if all != [] {
      assert forall i :: 0 <= i < |all[1..]| ==> all[1..][i] == all[i + 1];
      AllImported(all[1..], ledger);
    }
  }

  /** The ledger names exactly the documents of the batches that have committed; one that did not commit leaves the table
      alone. */
  lemma {:induction false} LedgerIff(start: Cells, run: seq<Step>, m: Mark)
    ensures m in After(Table(start, {}), run).ledger
            <==> exists j, p :: 0 <= j < |run| && run[j].Batch? && run[j].commits && p in run[j].parts && MarkOf(p) == m
    ensures run != [] && run[|run| - 1].Batch? && !run[|run| - 1].commits ==>
              After(Table(start, {}), run) == After(Table(start, {}), run[..|run| - 1])
  {
    if run != [] {
      var init, last := run[..|run| - 1], run[|run| - 1];
      LedgerIff(start, init, m);
      assert forall j :: 0 <= j < |init| ==> init[j] == run[j];
      if last.Batch? {
        LedgerGrows(After(Table(start, {}), init), last.parts);
      }
    }
  }

  /** Whatever was interrupted, repeated or overlapping before: once every document has been in a committed
      batch, Postgres holds the live rows combined with each document exactly once. */
  lemma ExactlyOnce(start: Cells, all: seq<Part>, run: seq<Step>)
    requires forall i, j :: 0 <= i < j < |all| ==> all[i].id != all[j].id || all[i].source != all[j].source
    requires forall j, p :: 0 <= j < |run| && run[j].Batch? && p in run[j].parts ==> p in all
    requires forall p :: p in all ==> exists j :: 0 <= j < |run| && run[j].Batch? && run[j].commits && p in run[j].parts
    ensures After(Table(start, {}), run).rows == Merge(LiveRows(start, run), CellsOfParts(all))
  {
    RunKeepsImports(start, all, run);
    var ledger := After(Table(start, {}), run).ledger;
    forall i | 0 <= i < |all|
      ensures MarkOf(all[i]) in ledger
    {
      assert all[i] in all;
      var j :| 0 <= j < |run| && run[j].Batch? && run[j].commits && all[i] in run[j].parts;
      CommittedIsMarked(Table(start, {}), run, j, all[i]);
    }
    AllImported(all, ledger);
  }

  lemma {:induction false} PartsMarked(t: Table, parts: seq<Part>, p: Part)
    ensures t.ledger <= ApplyParts(t, parts).ledger
    ensures p in parts ==> MarkOf(p) in ApplyParts(t, parts).ledger
  {
    if parts != [] {
      PartsMarked(t, parts[..|parts| - 1], p);
    }
  }

  lemma {:induction false} CommittedIsMarked(t: Table, run: seq<Step>, j: nat, p: Part)
    requires j < |run| && run[j].Batch? && run[j].commits && p in run[j].parts
    ensures MarkOf(p) in After(t, run).ledger
  {
    var init, last := run[..|run| - 1], run[|run| - 1];
    if last.Batch? {
      PartsMarked(After(t, init), last.parts, p);
    }
    if j < |run| - 1 {
      assert init[j] == run[j];
      CommittedIsMarked(t, init, j, p);
    }
  }
}
