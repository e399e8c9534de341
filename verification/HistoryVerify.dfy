/** The final scan of the history copy: totals per organisation, kind and field over the days before the
    cutoff must match, and each organisation's heat total must not be lower than Mongo's. */
module HistoryVerify {
  import opened CounterCells
  import opened CounterStores
  import opened DocTree
  import opened HistoryCopy

  datatype Group = Group(org: string, kind: string, field: string)

  /** What one total sums: a counter group over the days from `lo` up to and excluding `cutoff`, or all heat of
      an organisation. */
  datatype Selection = ByGroup(g: Group, lo: nat, cutoff: nat) | HeatOf(org: string)

  predicate InWindow(c: Cell, lo: nat, cutoff: nat) {
    c.Counter? && lo <= c.key.day < cutoff
  }

  predicate Selected(sel: Selection, c: Cell) {
    match sel
    case ByGroup(g, lo, cutoff) => InWindow(c, lo, cutoff) && GroupOf(c) == g
    case HeatOf(org) => c.Heat? && c.spot.org == org
  }

  function GroupOf(c: Cell): Group {
    if c.Counter? then Group(c.key.org, c.key.kind, c.field) else Group("", "", "")
  }

  // ---------- sums over finitely many cells ----------

  ghost function SumOver(cs: set<Cell>, m: Cells): nat {
    if cs == {} then 0
    else
      var c :| c in cs;
      At(m, c) + SumOver(cs - {c}, m)
  }

  function Chosen(cs: set<Cell>, sel: Selection): set<Cell> {
    set c | c in cs && Selected(sel, c)
  }

  ghost function Total(m: Cells, sel: Selection): nat {
    SumOver(Chosen(m.Keys, sel), m)
  }

  lemma {:induction false} SumTake(cs: set<Cell>, m: Cells, x: Cell)
    requires x in cs
    ensures SumOver(cs, m) == At(m, x) + SumOver(cs - {x}, m)
  {
    var c :| c in cs && SumOver(cs, m) == At(m, c) + SumOver(cs - {c}, m);
    if c != x {
      SumTake(cs - {c}, m, x);
      SumTake(cs - {x}, m, c);
      assert cs - {c} - {x} == cs - {x} - {c};
    }
  }

  lemma {:induction false} SumWiden(small: set<Cell>, big: set<Cell>, m: Cells)
    requires small <= big && forall c :: c in big - small ==> At(m, c) == 0
    ensures SumOver(small, m) == SumOver(big, m)
    decreases big - small
  {
    if big - small == {} {
      forall c | c in big
        ensures c in small
      {
        assert c !in big - small;
      }
      assert small == big;
    } else {
      var x :| x in big - small;
      SumTake(big, m, x);
      SumWiden(small, big - {x}, m);
    }
  }

  lemma {:induction false} SumMerge(cs: set<Cell>, a: Cells, b: Cells)
    requires forall c :: c in cs ==> !IsMax(c) || At(a, c) == 0 || At(b, c) == 0
    ensures SumOver(cs, Merge(a, b)) == SumOver(cs, a) + SumOver(cs, b)
  {
    if cs != {} {
      var x :| x in cs;
      SumTake(cs, Merge(a, b), x);
      SumTake(cs, a, x);
      SumTake(cs, b, x);
      MergeAt(a, b, x);
      SumMerge(cs - {x}, a, b);
    }
  }

  lemma TotalMerge(a: Cells, b: Cells, sel: Selection)
    requires forall c :: c in a && c in b && Selected(sel, c) ==> !IsMax(c)
    ensures Total(Merge(a, b), sel) == Total(a, sel) + Total(b, sel)
  {
    var cs := Chosen(Merge(a, b).Keys, sel);
    SumMerge(cs, a, b);
    SumWiden(Chosen(a.Keys, sel), cs, a);
    SumWiden(Chosen(b.Keys, sel), cs, b);
  }

  // ---------- the scan ----------

  type Totals = map<Group, nat>

  function TotalAt(t: Totals, g: Group): nat {
    if g in t then t[g] else 0
  }

  /** Add the cells of one document, or of the whole table, to running totals. */
  method AddTotals(t: Totals, m: Cells, lo: nat, cutoff: nat) returns (t': Totals)
    ensures forall g :: TotalAt(t', g) == TotalAt(t, g) + Total(m, ByGroup(g, lo, cutoff))
  {
    t' := t;
    var todo := m.Keys;
    ghost var done: set<Cell> := {};
    while todo != {}
      invariant todo !! done && todo + done == m.Keys
      invariant forall g ::
        TotalAt(t', g) == TotalAt(t, g) + SumOver(Chosen(done, ByGroup(g, lo, cutoff)), m)
      decreases todo
    {
      var c :| c in todo;
      ghost var before, was := t', done;
      if InWindow(c, lo, cutoff) {
        t' := t'[GroupOf(c) := TotalAt(t', GroupOf(c)) + m[c]];
      }
      todo, done := todo - {c}, done + {c};
      forall g
        ensures TotalAt(t', g) == TotalAt(t, g) + SumOver(Chosen(done, ByGroup(g, lo, cutoff)), m)
      {
        OneMore(was, c, ByGroup(g, lo, cutoff), m);
      }
    }
    forall g
      ensures Chosen(done, ByGroup(g, lo, cutoff)) == Chosen(m.Keys, ByGroup(g, lo, cutoff))
    {
    }
  }

  lemma OneMore(done: set<Cell>, c: Cell, sel: Selection, m: Cells)
    requires c !in done && c in m
    ensures SumOver(Chosen(done + {c}, sel), m)
            == SumOver(Chosen(done, sel), m) + if Selected(sel, c) then m[c] else 0
  {
    var old', new' := Chosen(done, sel), Chosen(done + {c}, sel);
    if Selected(sel, c) {
      SumTake(new', m, c);
      assert new' - {c} == old';
    } else {
      assert new' == old';
    }
  }

  /** A row that differs shows in the total of its own organisation, kind and field, if its day is verified, and in no other. */
  lemma OneRowShows(rows: Cells, key: CounterKey, field: string, n: nat, org: string, kind: string, f: string, lo: nat,
                    cutoff: nat)
    requires Counter(key, field) in rows
    ensures var sel := ByGroup(Group(org, kind, f), lo, cutoff);
            var shows := key.org == org && key.kind == kind && field == f && lo <= key.day < cutoff;
            Total(rows[Counter(key, field) := n], sel) + (if shows then rows[Counter(key, field)] else 0)
            == Total(rows, sel) + (if shows then n else 0)
  {
    var sel, c := ByGroup(Group(org, kind, f), lo, cutoff), Counter(key, field);
    var more := rows[c := n];
    assert more.Keys == rows.Keys;
    var cs := Chosen(rows.Keys, sel);
    if c in cs {
      SumTake(cs, rows, c);
      SumTake(cs, more, c);
      SumSame(cs - {c}, rows, more);
    } else {
      SumSame(cs, rows, more);
    }
  }

  lemma {:induction false} SumSame(cs: set<Cell>, a: Cells, b: Cells)
    requires forall c :: c in cs ==> At(a, c) == At(b, c)
    ensures SumOver(cs, a) == SumOver(cs, b)
  {
    if cs != {} {
      var x :| x in cs;
      SumTake(cs, a, x);
      SumTake(cs, b, x);
      SumSame(cs - {x}, a, b);
    }
  }

  ghost function ExpectedTotal(parts: seq<Part>, sel: Selection): nat {
    if parts == [] then 0 else Total(parts[0].cells, sel) + ExpectedTotal(parts[1..], sel)
  }

  lemma {:induction false} ExpectedMore(parts: seq<Part>, p: Part, sel: Selection)
    ensures ExpectedTotal(parts + [p], sel) == ExpectedTotal(parts, sel) + Total(p.cells, sel)
  {
    if parts != [] {
      assert (parts + [p])[1..] == parts[1..] + [p];
      ExpectedMore(parts[1..], p, sel);
    }
  }

  /** True exactly when every organisation/kind/field total agrees over the verified days. */
  method CountersMatch(parts: seq<Part>, rows: Cells, lo: nat, cutoff: nat) returns (ok: bool)
    ensures ok <==> forall g :: ExpectedTotal(parts, ByGroup(g, lo, cutoff)) == Total(rows, ByGroup(g, lo, cutoff))
  {
    var expected: Totals := map[];
    for i := 0 to |parts|
      invariant forall g :: TotalAt(expected, g) == ExpectedTotal(parts[..i], ByGroup(g, lo, cutoff))
    {
      expected := AddTotals(expected, parts[i].cells, lo, cutoff);
      assert parts[..i + 1] == parts[..i] + [parts[i]];
      forall g
        ensures TotalAt(expected, g) == ExpectedTotal(parts[..i + 1], ByGroup(g, lo, cutoff))
      {
        ExpectedMore(parts[..i], parts[i], ByGroup(g, lo, cutoff));
      }
    }
    assert parts[..|parts|] == parts;
    var actual := AddTotals(map[], rows, lo, cutoff);
    var mismatches := set g | g in expected.Keys + actual.Keys && TotalAt(expected, g) != TotalAt(actual, g);
    ok := mismatches == {};
    forall g
      ensures ok ==> TotalAt(expected, g) == TotalAt(actual, g)
    {
      assert g in expected.Keys + actual.Keys && TotalAt(expected, g) != TotalAt(actual, g) ==> g in mismatches;
    }
  }

  // ---------- the scan passes ----------

  predicate NoSharedCells(parts: seq<Part>) {
    forall i, j :: 0 <= i < j < |parts| ==> parts[i].cells.Keys !! parts[j].cells.Keys
  }

  predicate OnlyHeat(parts: seq<Part>) {
    forall i, c :: 0 <= i < |parts| && c in parts[i].cells ==> c.Heat?
  }

  predicate OnlyCounters(parts: seq<Part>) {
    forall i, c :: 0 <= i < |parts| && c in parts[i].cells ==> c.Counter?
  }

  lemma {:induction false} CellOfSome(parts: seq<Part>, c: Cell)
    requires c in CellsOfParts(parts)
    ensures exists i :: 0 <= i < |parts| && c in parts[i].cells
  {
    if c !in parts[0].cells {
      CellOfSome(parts[1..], c);
      var i :| 0 <= i < |parts[1..]| && c in parts[1..][i].cells;
      assert c in parts[i + 1].cells;
    }
  }

  lemma {:induction false} TotalOfParts(parts: seq<Part>, sel: Selection)
    requires NoSharedCells(parts) || sel.HeatOf?
    ensures Total(CellsOfParts(parts), sel) == ExpectedTotal(parts, sel)
  {
    if parts == [] {
      assert Chosen(CellsOfParts([]).Keys, sel) == {};
    } else {
      assert forall i :: 0 <= i < |parts[1..]| ==> parts[1..][i] == parts[i + 1];
      TotalOfParts(parts[1..], sel);
      forall c | c in parts[0].cells && c in CellsOfParts(parts[1..]) && Selected(sel, c)
        ensures !IsMax(c)
      {
        CellOfSome(parts[1..], c);
        var i :| 0 <= i < |parts[1..]| && c in parts[1..][i].cells;
        assert sel.ByGroup? ==> c in parts[i + 1].cells && parts[0].cells.Keys !! parts[i + 1].cells.Keys;
      }
      TotalMerge(parts[0].cells, CellsOfParts(parts[1..]), sel);
    }
  }

  lemma {:induction false} CellsOfPartsConcat(xs: seq<Part>, ys: seq<Part>)
    ensures CellsOfParts(xs + ys) == Merge(CellsOfParts(xs), CellsOfParts(ys))
  {
    if xs == [] {
      assert xs + ys == ys;
      MergeUnit(CellsOfParts(ys));
    } else {
      assert (xs + ys)[1..] == xs[1..] + ys;
      CellsOfPartsConcat(xs[1..], ys);
      MergeAssoc(xs[0].cells, CellsOfParts(xs[1..]), CellsOfParts(ys));
    }
  }

  lemma NothingSelected(m: Cells, sel: Selection)
    requires forall c :: c in m ==> !Selected(sel, c)
    ensures Total(m, sel) == 0
  {
    assert Chosen(m.Keys, sel) == {};
  }

  /** After every document was imported once, no counter total can differ when the live app wrote nothing into the
      verified days and no two counter documents share a row (their keys are unique), "conc" rows included; the heat
      total of every organisation is Mongo's plus what arrived live. */
  lemma ScanPasses(live: Cells, counters: seq<Part>, heat: seq<Part>, rows: Cells, lo: nat, cutoff: nat)
    requires rows == Merge(live, CellsOfParts(counters + heat))
    requires OnlyCounters(counters) && OnlyHeat(heat) && NoSharedCells(counters)
    requires forall c :: c in live && c.Counter? ==> c.key.day < lo || c.key.day >= cutoff
    ensures forall g :: Total(rows, ByGroup(g, lo, cutoff)) == ExpectedTotal(counters, ByGroup(g, lo, cutoff))
    ensures forall org :: Total(rows, HeatOf(org)) == ExpectedTotal(heat, HeatOf(org)) + Total(live, HeatOf(org))
  {
    var cs, hs := CellsOfParts(counters), CellsOfParts(heat);
    CellsOfPartsConcat(counters, heat);
    forall c
      ensures c in cs ==> c.Counter?
      ensures c in hs ==> c.Heat?
    {
      if c in cs {
        CellOfSome(counters, c);
      }
      if c in hs {
        CellOfSome(heat, c);
      }
    }
    forall g
      ensures Total(rows, ByGroup(g, lo, cutoff)) == ExpectedTotal(counters, ByGroup(g, lo, cutoff))
    {
      var sel := ByGroup(g, lo, cutoff);
      TotalOfParts(counters, sel);
      TotalMerge(cs, hs, sel);
      NothingSelected(hs, sel);
      TotalMerge(live, Merge(cs, hs), sel);
      NothingSelected(live, sel);
    }
    forall org
      ensures Total(rows, HeatOf(org)) == ExpectedTotal(heat, HeatOf(org)) + Total(live, HeatOf(org))
    {
      var sel := HeatOf(org);
      TotalOfParts(heat, sel);
      TotalMerge(cs, hs, sel);
      NothingSelected(cs, sel);
      TotalMerge(live, Merge(cs, hs), sel);
    }
  }

  /** Counter documents with distinct keys share no row, whatever is in them. */
  lemma DistinctKeysShareNothing(docs: seq<CounterDoc>)
    requires forall i, j :: 0 <= i < j < |docs| ==> docs[i].key != docs[j].key
    ensures NoSharedCells(CounterParts(docs)) && OnlyCounters(CounterParts(docs))
  {
    var parts := CounterParts(docs);
    forall i, j | 0 <= i < j < |parts|
      ensures parts[i].cells.Keys !! parts[j].cells.Keys
    {
      forall c | c in parts[i].cells
        ensures c !in parts[j].cells
      {
        assert c.key == docs[i].key;
      }
    }
  }

  /** The whole migration: any interrupted and repeated batches, live writes in between, ended by having seen every
      document. Then every counter total over the verified days matches and no heat total is short. */
  lemma CompletedCopyVerifies(start: Cells, docs: seq<CounterDoc>, heat: seq<HeatDoc>, run: seq<Step>,
                              lo: nat, cutoff: nat)
    requires forall i, j :: 0 <= i < j < |docs| ==> docs[i].key != docs[j].key
    requires forall i, j :: 0 <= i < j < |docs| ==> docs[i].id != docs[j].id
    requires forall i, j :: 0 <= i < j < |heat| ==> heat[i].id != heat[j].id
    requires forall j, p :: 0 <= j < |run| && run[j].Batch? && p in run[j].parts ==> p in CounterParts(docs) + HeatParts(heat)
    requires forall p :: p in CounterParts(docs) + HeatParts(heat) ==>
               exists j :: 0 <= j < |run| && run[j].Batch? && run[j].commits && p in run[j].parts
    requires forall c :: c in LiveRows(start, run) && c.Counter? ==> c.key.day < lo || c.key.day >= cutoff
    ensures var rows := After(Table(start, {}), run).rows;
            && (forall g :: ExpectedTotal(CounterParts(docs), ByGroup(g, lo, cutoff)) == Total(rows, ByGroup(g, lo, cutoff)))
            && (forall org :: ExpectedTotal(HeatParts(heat), HeatOf(org)) <= Total(rows, HeatOf(org)))
  {
    var parts, hits := CounterParts(docs), HeatParts(heat);
    ExactlyOnce(start, parts + hits, run);
    DistinctKeysShareNothing(docs);
    ScanPasses(LiveRows(start, run), parts, hits, After(Table(start, {}), run).rows, lo, cutoff);
  }

  // ---------- what every row then reads ----------

  /** What the heat documents count at a spot. */
  function HitsAt(heat: seq<HeatDoc>, s: HeatKey): nat {
    if heat == [] then 0 else (if heat[0].spot == s then heat[0].n else 0) + HitsAt(heat[1..], s)
  }

  lemma {:induction false} HeatPartsAt(heat: seq<HeatDoc>, s: HeatKey)
    ensures At(CellsOfParts(HeatParts(heat)), Heat(s)) == HitsAt(heat, s)
  {
    if heat != [] {
      assert HeatParts(heat)[1..] == HeatParts(heat[1..]);
      HeatPartsAt(heat[1..], s);
      MergeAt(HeatPart(heat[0]).cells, CellsOfParts(HeatParts(heat[1..])), Heat(s));
    }
  }

  lemma {:induction false} HeatPartsElsewhere(heat: seq<HeatDoc>, key: CounterKey, field: string)
    ensures At(CellsOfParts(HeatParts(heat)), Counter(key, field)) == 0
  {
    if heat != [] {
      assert HeatParts(heat)[1..] == HeatParts(heat[1..]);
      HeatPartsElsewhere(heat[1..], key, field);
    }
  }

  /** A document contributes to a counter of its own key what it holds at that path, and to no other. */
  lemma PartAt(d: CounterDoc, c: Cell)
    requires GoodDoc(d.body)
    ensures At(CounterPart(d).cells, c)
            == if c.Counter? && c.key == d.key then OrZero(Look(d.body, Split(c.field))) else 0
  {
    DocCellsIff(d.key, d.body, c);
  }

  lemma {:induction false} CounterPartsAt(docs: seq<CounterDoc>, c: Cell)
    requires forall i :: 0 <= i < |docs| ==> GoodDoc(docs[i].body)
    requires forall i, j :: 0 <= i < j < |docs| ==> docs[i].key != docs[j].key
    ensures c.Heat? || (forall i :: 0 <= i < |docs| ==> docs[i].key != c.key) ==> At(CellsOfParts(CounterParts(docs)), c) == 0
    ensures c.Counter? ==> forall i :: 0 <= i < |docs| && docs[i].key == c.key ==>
              At(CellsOfParts(CounterParts(docs)), c) == OrZero(Look(docs[i].body, Split(c.field)))
  {
    if docs != [] {
      assert CounterParts(docs)[1..] == CounterParts(docs[1..]);
      assert forall i :: 0 <= i < |docs[1..]| ==> docs[1..][i] == docs[i + 1];
      CounterPartsAt(docs[1..], c);
      PartAt(docs[0], c);
      MergeAt(CounterPart(docs[0]).cells, CellsOfParts(CounterParts(docs[1..])), c);
      if c.Counter? {
        forall i | 0 <= i < |docs| && docs[i].key == c.key
          ensures At(CellsOfParts(CounterParts(docs)), c) == OrZero(Look(docs[i].body, Split(c.field)))
        {
          if i == 0 {
            assert forall j :: 0 <= j < |docs[1..]| ==> docs[1..][j].key != c.key;
          } else {
            assert docs[1..][i - 1] == docs[i];
          }
        }
      }
    }
  }

  lemma RowsOf(start: Cells, docs: seq<CounterDoc>, heat: seq<HeatDoc>, run: seq<Step>, c: Cell)
    requires forall i, j :: 0 <= i < j < |docs| ==> docs[i].id != docs[j].id
    requires forall i, j :: 0 <= i < j < |heat| ==> heat[i].id != heat[j].id
    requires forall j, p :: 0 <= j < |run| && run[j].Batch? && p in run[j].parts ==> p in CounterParts(docs) + HeatParts(heat)
    requires forall p :: p in CounterParts(docs) + HeatParts(heat) ==>
               exists j :: 0 <= j < |run| && run[j].Batch? && run[j].commits && p in run[j].parts
    ensures At(After(Table(start, {}), run).rows, c)
            == Combine(c, At(LiveRows(start, run), c),
                       Combine(c, At(CellsOfParts(CounterParts(docs)), c), At(CellsOfParts(HeatParts(heat)), c)))
  {
    var parts, hits := CounterParts(docs), HeatParts(heat);
    ExactlyOnce(start, parts + hits, run);
    CellsOfPartsConcat(parts, hits);
    MergeAt(LiveRows(start, run), Merge(CellsOfParts(parts), CellsOfParts(hits)), c);
    MergeAt(CellsOfParts(parts), CellsOfParts(hits), c);
  }

  /** The whole migration, row by row: after any interrupted and repeated batches that have seen every document, each counter row
      reads what was written live, combined with the number that the document of its key holds at its path. */
  lemma CounterRowExact(start: Cells, docs: seq<CounterDoc>, heat: seq<HeatDoc>, run: seq<Step>, key: CounterKey,
                        field: string)
    requires forall i :: 0 <= i < |docs| ==> GoodDoc(docs[i].body)
    requires forall i, j :: 0 <= i < j < |docs| ==> docs[i].key != docs[j].key
    requires forall i, j :: 0 <= i < j < |docs| ==> docs[i].id != docs[j].id
    requires forall i, j :: 0 <= i < j < |heat| ==> heat[i].id != heat[j].id
    requires forall j, p :: 0 <= j < |run| && run[j].Batch? && p in run[j].parts ==> p in CounterParts(docs) + HeatParts(heat)
    requires forall p :: p in CounterParts(docs) + HeatParts(heat) ==>
               exists j :: 0 <= j < |run| && run[j].Batch? && run[j].commits && p in run[j].parts
    ensures var row, live := At(After(Table(start, {}), run).rows, Counter(key, field)),
                             At(LiveRows(start, run), Counter(key, field));
            && (forall i :: 0 <= i < |docs| && docs[i].key == key ==>
                  var n := OrZero(Look(docs[i].body, Split(field)));
                  row == if key.kind == "conc" then (if live < n then n else live) else live + n)
            && ((forall i :: 0 <= i < |docs| ==> docs[i].key != key) ==> row == live)
  {
    RowsOf(start, docs, heat, run, Counter(key, field));
    CounterPartsAt(docs, Counter(key, field));
    HeatPartsElsewhere(heat, key, field);
  }

  /** And each heat row reads what was written live and what the documents of its spot count. */
  lemma HeatRowExact(start: Cells, docs: seq<CounterDoc>, heat: seq<HeatDoc>, run: seq<Step>, s: HeatKey)
    requires forall i :: 0 <= i < |docs| ==> GoodDoc(docs[i].body)
    requires forall i, j :: 0 <= i < j < |docs| ==> docs[i].key != docs[j].key
    requires forall i, j :: 0 <= i < j < |docs| ==> docs[i].id != docs[j].id
    requires forall i, j :: 0 <= i < j < |heat| ==> heat[i].id != heat[j].id
    requires forall j, p :: 0 <= j < |run| && run[j].Batch? && p in run[j].parts ==> p in CounterParts(docs) + HeatParts(heat)
    requires forall p :: p in CounterParts(docs) + HeatParts(heat) ==>
               exists j :: 0 <= j < |run| && run[j].Batch? && run[j].commits && p in run[j].parts
    ensures At(After(Table(start, {}), run).rows, Heat(s)) == At(LiveRows(start, run), Heat(s)) + HitsAt(heat, s)
  {
    RowsOf(start, docs, heat, run, Heat(s));
    CounterPartsAt(docs, Heat(s));
    HeatPartsAt(heat, s);
  }
}
