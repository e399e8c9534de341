/** The two counter stores: Mongo documents updated with dotted `$inc`/`$max`, and flat Postgres rows upserted
    with add or greatest. Both hold the same cells, and rows can be turned back into the documents. */
module CounterStores {
  import opened CounterCells
  import opened FlushItems
  import opened DocTree

  type Docs = map<CounterKey, Node>

  datatype Row = Row(key: CounterKey, field: string, n: nat)

  // ---------- the cells of a document and of a collection ----------

  /** Field names as the server splits them: no dot inside a name. */
  predicate Plain(node: Node) {
    match node
    case Num(_) => true
    case Obj(kids) => forall k :: k in kids ==> DotFree(k) && Plain(kids[k])
  }

  predicate GoodDoc(node: Node) {
    node.Obj? && Tidy(node) && Plain(node)
  }

  predicate GoodDocs(docs: Docs) {
    forall k :: k in docs ==> GoodDoc(docs[k])
  }

  function FieldNames(node: Node): set<string> {
    set p | p in Flatten(node) && p != [] :: Join(p)
  }

  function ReadField(node: Node, f: string): Lookup {
    Look(node, Split(f))
  }

  /** The numeric fields of one document as rows. */
  function DocCells(k: CounterKey, node: Node): Cells {
    map f | f in FieldNames(node) :: Counter(k, f) := OrZero(ReadField(node, f))
  }

  predicate InDocs(docs: Docs, c: Cell) {
    c.Counter? && c.key in docs && ReadField(docs[c.key], c.field).Found?
  }

  function DocsCells(docs: Docs): Cells {
    map k, f | k in docs && f in FieldNames(docs[k]) :: Counter(k, f) := OrZero(ReadField(docs[k], f))
  }

  lemma {:induction false} LookPlain(node: Node, p: Path)
    requires Plain(node) && Look(node, p).Found?
    ensures forall i :: 0 <= i < |p| ==> DotFree(p[i])
    decreases p
  {
    if p != [] {
      LookPlain(node.kids[p[0]], p[1..]);
      assert p == [p[0]] + p[1..];
    }
  }

  lemma FieldNamesRead(node: Node, f: string)
    requires Plain(node) && node.Obj?
    ensures f in FieldNames(node) <==> ReadField(node, f).Found?
  {
    var p := Split(f);
    JoinSplit(f);
    FlattenLook(node, p);
    if f in FieldNames(node) {
      var q :| q in Flatten(node) && q != [] && f == Join(q);
      FlattenLook(node, q);
      LookPlain(node, q);
      SplitJoin(q);
    }
  }

  /** A document contributes exactly the counters of its key whose path in it leads to a number, each with that number. */
  lemma DocCellsIff(k: CounterKey, node: Node, c: Cell)
    requires GoodDoc(node)
    ensures c in DocCells(k, node) <==> c.Counter? && c.key == k && Look(node, Split(c.field)).Found?
    ensures c in DocCells(k, node) ==> Look(node, Split(c.field)) == Found(DocCells(k, node)[c])
  {
    if c.Counter? {
      FieldNamesRead(node, c.field);
    }
  }

  lemma DocsCellsAt(docs: Docs, c: Cell)
    requires GoodDocs(docs)
    ensures c in DocsCells(docs) <==> InDocs(docs, c)
    ensures c in DocsCells(docs) ==> ReadField(docs[c.key], c.field) == Found(DocsCells(docs)[c])
  {
    if c.Counter? && c.key in docs {
      FieldNamesRead(docs[c.key], c.field);
    }
  }

  // ---------- the server's side of a Mongo write ----------

  /** No field of `names` runs into another. */
  predicate Apart(names: set<string>) {
    forall f, g | f in names && g in names :: !Clash(Split(f), Split(g))
  }

  ghost predicate NamesWithin(node: Node, names: set<string>) {
    forall p :: Look(node, p).Found? ==> exists f :: f in names && p == Split(f)
  }

  /** All fields of one update, in the order the server takes them. */
  ghost function ApplyFields(node: Node, fs: Fields, byMax: bool): Updated
    decreases |fs|
  {
    if fs == map[] then Doc(node)
    else
      var f :| f in fs;
      match Update(node, Split(f), fs[f], byMax)
      case Conflict => Conflict
      case Doc(next) => ApplyFields(next, fs - {f}, byMax)
  }

  lemma {:induction false} UpdatePlain(node: Node, p: Path, n: nat, byMax: bool)
    requires Plain(node) && forall i :: 0 <= i < |p| ==> DotFree(p[i])
    ensures var u := Update(node, p, n, byMax); u.Doc? ==> Plain(u.node)
    ensures Plain(Branch(p, n))
    decreases p
  {
    if p != [] {
      UpdatePlain(if node.Obj? && p[0] in node.kids then node.kids[p[0]] else Num(0), p[1..], n, byMax);
    }
  }

  lemma CompatibleNames(node: Node, names: set<string>, f: string)
    requires Apart(names) && NamesWithin(node, names) && f in names
    ensures Compatible(node, Split(f))
  {
    forall q | Look(node, q).Found?
      ensures !Clash(Split(f), q)
    {
      var g :| g in names && q == Split(g);
    }
  }

  lemma UpdateAnyDoc(node: Node, names: set<string>, f: string, n: nat, byMax: bool, q: Path)
    requires (GoodDoc(node) || node == Obj(map[])) && Apart(names) && NamesWithin(node, names) && f in names
    ensures var p, u := Split(f), Update(node, Split(f), n, byMax);
            && u.Doc? && u.node.Obj? && Tidy(u.node)
            && Look(u.node, q) == if q == p then Found(Joined(byMax, OrZero(Look(node, p)), n)) else Look(node, q)
  {
    var p := Split(f);
    if node == Obj(map[]) {
      var none: map<string, Node> := map[];
      assert none[p[0] := Branch(p[1..], n)] == map[p[0] := Branch(p[1..], n)];
      assert Update(node, p, n, byMax) == Doc(Branch(p, n));
      BranchLook(p, n, q);
    } else {
      CompatibleNames(node, names, f);
      UpdateLook(node, p, n, byMax, q);
    }
  }

  lemma UpdateDoc(node: Node, names: set<string>, f: string, n: nat, byMax: bool)
    requires (GoodDoc(node) || node == Obj(map[])) && Apart(names) && NamesWithin(node, names) && f in names
    ensures var u := Update(node, Split(f), n, byMax);
            && u.Doc? && GoodDoc(u.node) && NamesWithin(u.node, names)
            && forall q :: Look(u.node, q) ==
                 if q == Split(f) then Found(Joined(byMax, OrZero(Look(node, Split(f))), n)) else Look(node, q)
  {
    var p := Split(f);
    SplitDotFree(f);
    UpdatePlain(node, p, n, byMax);
    var u := Update(node, p, n, byMax);
    UpdateAnyDoc(node, names, f, n, byMax, []);
    forall q
      ensures Look(u.node, q) == if q == p then Found(Joined(byMax, OrZero(Look(node, p)), n)) else Look(node, q)
    {
      UpdateAnyDoc(node, names, f, n, byMax, q);
    }
  }

  function ReadFields(fs: Fields, p: Path): nat {
    if p != [] && Join(p) in fs then fs[Join(p)] else 0
  }

  predicate Touches(fs: Fields, p: Path) {
    p != [] && Join(p) in fs && Split(Join(p)) == p
  }

  lemma {:induction false} ApplyFieldsLook(node: Node, names: set<string>, fs: Fields, byMax: bool)
    requires (GoodDoc(node) || (node == Obj(map[]) && fs != map[]))
    requires Apart(names) && NamesWithin(node, names) && fs.Keys <= names
    ensures var u := ApplyFields(node, fs, byMax);
            && u.Doc? && GoodDoc(u.node) && NamesWithin(u.node, names)
            && forall q :: Look(u.node, q) ==
                 if Touches(fs, q) then Found(Joined(byMax, OrZero(Look(node, q)), ReadFields(fs, q)))
                 else Look(node, q)
    decreases |fs|
  {
    if fs != map[] {
      var f :| f in fs && ApplyFields(node, fs, byMax)
               == match Update(node, Split(f), fs[f], byMax)
                  case Conflict => Conflict
                  case Doc(next) => ApplyFields(next, fs - {f}, byMax);
      UpdateDoc(node, names, f, fs[f], byMax);
      var next := Update(node, Split(f), fs[f], byMax).node;
      ApplyFieldsLook(next, names, fs - {f}, byMax);
      JoinSplit(f);
    }
  }

  function DocAt(docs: Docs, k: CounterKey): Node {
    if k in docs then docs[k] else Obj(map[])
  }

  ghost predicate Accepted(docs: Docs, d: Deltas) {
    forall k :: k in d ==> ApplyFields(DocAt(docs, k), d[k], k.kind == CONC).Doc?
  }

  /** Each operation of a bulk write addresses its own document, so their order does not matter. */
  ghost function MongoWrite(docs: Docs, d: Deltas): Docs
    requires Accepted(docs, d)
  {
    map k | k in docs.Keys + d.Keys ::
      if k in d then ApplyFields(DocAt(docs, k), d[k], k.kind == CONC).node else docs[k]
  }

  // ---------- Postgres ----------

  const RETENTION_DAYS := 400

  /** What deleting the counter rows of the days before `cutoff` leaves; heat has no day. */
  function Kept(rows: Cells, cutoff: int): Cells {
    map c | c in rows && !(c.Counter? && c.key.day < cutoff) :: rows[c]
  }

  datatype Day = Never | Day(day: nat)

  /** How a transaction ends: committed, rolled back, or committed while its caller has been cancelled. */
  datatype TxEnd = Commits | RollsBack | CommitsUnseen

  /** What a committed transaction of one write leaves; `pass` tells whether the retention pass is part of it. */
  function Transact(rows: Cells, d: Deltas, h: HeatMap, today: nat, pass: bool): Cells {
    var merged := Merge(rows, CellsOf(d, h));
    if pass then Kept(merged, today - RETENTION_DAYS) else merged
  }

  class PostgresStore {
    var rows: Cells
    var lastRetention: Day   // when the retention pass last ran

    constructor (rows: Cells)
      ensures this.rows == rows && lastRetention == Never
    {
      this.rows, lastRetention := rows, Never;
    }

    method UpsertAdd(c: Cell, n: nat)
      modifies this`rows
      ensures rows == old(rows)[c := At(old(rows), c) + n]
    {
      rows := rows[c := (if c in rows then rows[c] + n else n)];
    }

    method UpsertMax(c: Cell, n: nat)
      modifies this`rows
      ensures rows == old(rows)[c := Max(At(old(rows), c), n)]
    {
      rows := rows[c := (if c in rows then Max(rows[c], n) else n)];
    }

    /** One transaction: additive rows, then maxima, then heat, and once a day the retention pass, even with nothing to
        write. Unless it commits nothing changes, and unless the caller sees it the pass is due again. */
    method Write(d: Deltas, h: HeatMap, today: nat, end: TxEnd) returns (ok: bool)
      modifies this
      ensures rows == if end.RollsBack? then old(rows)
                      else Transact(old(rows), d, h, today, old(lastRetention) != Day(today))
      ensures lastRetention == if end.Commits? then Day(today) else old(lastRetention)
      ensures ok == (end.Commits? || (CellsOf(d, h) == map[] && old(lastRetention) == Day(today)))
    {
      var all, due, before := CellsOf(d, h), lastRetention != Day(today), rows;
      if all == map[] && !due {
        MergeUnit(rows);
        return true;
      }
      ThreeParts(rows, all);
      UpsertRows(Additive(all));
      UpsertRows(Maxima(all));
      UpsertRows(Hits(all));
      if due {
        DeleteBefore(today - RETENTION_DAYS);
      }
      if end.RollsBack? {
        rows := before;
      } else if end.Commits? && due {
        lastRetention := Day(today);
      }
      ok := end.Commits?;
    }

    method DeleteBefore(cutoff: int)
      modifies this`rows
      ensures rows == Kept(old(rows), cutoff)
    {
      var todo := rows.Keys;
      ghost var was := rows;
      while todo != {}
        invariant todo <= was.Keys
        invariant rows == map c | c in was && (c in todo || c in Kept(was, cutoff)) :: was[c]
        decreases todo
      {
        var c :| c in todo;
        if c.Counter? && c.key.day < cutoff {
          rows := rows - {c};
        }
        todo := todo - {c};
      }
    }

    method UpsertRows(part: Cells)
      modifies this`rows
      ensures rows == Merge(old(rows), part)
    {
      var todo := part.Keys;
      while todo != {}
        invariant todo <= part.Keys
        invariant rows.Keys == old(rows).Keys + (part.Keys - todo)
        invariant forall c :: c in rows ==>
          rows[c] == if c in part && c !in todo then Combine(c, At(old(rows), c), part[c]) else old(rows)[c]
        decreases todo
      {
        var c :| c in todo;
        if IsMax(c) {
          UpsertMax(c, part[c]);
        } else {
          UpsertAdd(c, part[c]);
        }
        todo := todo - {c};
      }
      assert rows == Merge(old(rows), part);
    }
  }

  function Additive(all: Cells): Cells {
    map c | c in all && c.Counter? && !IsMax(c) :: all[c]
  }

  function Maxima(all: Cells): Cells {
    map c | c in all && IsMax(c) :: all[c]
  }

  function Hits(all: Cells): Cells {
    map c | c in all && c.Heat? :: all[c]
  }

  lemma ThreeParts(r: Cells, all: Cells)
    ensures Merge(Merge(Merge(r, Additive(all)), Maxima(all)), Hits(all)) == Merge(r, all)
  {
    MergeParts(r, Additive(all), Maxima(all));
    MergeParts(r, Additive(all) + Maxima(all), Hits(all));
    assert Additive(all) + Maxima(all) + Hits(all) == all;
  }

  lemma MergeParts(r: Cells, a: Cells, b: Cells)
    requires a.Keys !! b.Keys
    ensures Merge(Merge(r, a), b) == Merge(r, a + b)
  {
    var l, r' := Merge(Merge(r, a), b), Merge(r, a + b);
    assert l.Keys == r'.Keys;
  }

  // ---------- one write means the same in both stores ----------

  predicate Nonempty(d: Deltas) {
    forall k :: k in d ==> d[k] != map[]
  }

  ghost predicate Within(docs: Docs, names: map<CounterKey, set<string>>) {
    forall k :: k in docs ==> k in names && NamesWithin(docs[k], names[k])
  }

  predicate Uses(d: Deltas, names: map<CounterKey, set<string>>) {
    forall k :: k in d ==> k in names && d[k].Keys <= names[k]
  }

  predicate AllApart(names: map<CounterKey, set<string>>) {
    forall k :: k in names ==> Apart(names[k])
  }

  lemma ReadsThroughSplit(fs: Fields, f: string)
    ensures Touches(fs, Split(f)) <==> f in fs
    ensures f in fs ==> ReadFields(fs, Split(f)) == fs[f]
  {
    JoinSplit(f);
  }

  lemma WriteDoc(docs: Docs, names: map<CounterKey, set<string>>, d: Deltas, k: CounterKey)
    requires GoodDocs(docs) && Within(docs, names) && Uses(d, names) && AllApart(names) && Nonempty(d) && k in d
    ensures var u := ApplyFields(DocAt(docs, k), d[k], k.kind == CONC);
            && u.Doc? && GoodDoc(u.node) && NamesWithin(u.node, names[k])
            && forall f :: ReadField(u.node, f) ==
                 if f in d[k] then Found(Joined(k.kind == CONC, OrZero(ReadField(DocAt(docs, k), f)), d[k][f]))
                 else ReadField(DocAt(docs, k), f)
  {
    var node := DocAt(docs, k);
    ApplyFieldsLook(node, names[k], d[k], k.kind == CONC);
    forall f
      ensures Touches(d[k], Split(f)) <==> f in d[k]
      ensures f in d[k] ==> ReadFields(d[k], Split(f)) == d[k][f]
    {
      ReadsThroughSplit(d[k], f);
    }
  }

  function OldRead(docs: Docs, c: Cell): nat {
    if InDocs(docs, c) then OrZero(ReadField(docs[c.key], c.field)) else 0
  }

  lemma WriteReads(docs: Docs, names: map<CounterKey, set<string>>, d: Deltas, c: Cell)
    requires GoodDocs(docs) && Within(docs, names) && Uses(d, names) && AllApart(names) && Nonempty(d)
    requires Accepted(docs, d)
    ensures InDocs(MongoWrite(docs, d), c) <==> InDocs(docs, c) || Holds(d, map[], c)
    ensures OldRead(MongoWrite(docs, d), c) == Combine(c, OldRead(docs, c), Reads(d, map[], c))
  {
    if c.Counter? {
      JoinSplit(c.field);
      if c.key in d {
        WriteDoc(docs, names, d, c.key);
        assert ReadField(Obj(map[]), c.field) == Missing;
      }
    }
  }

  lemma CellRead(docs: Docs, c: Cell)
    requires GoodDocs(docs)
    ensures c in DocsCells(docs) <==> InDocs(docs, c)
    ensures At(DocsCells(docs), c) == OldRead(docs, c)
  {
    DocsCellsAt(docs, c);
  }

  lemma EqualByReading(l: Cells, r: Cells)
    requires forall c :: (c in l <==> c in r) && At(l, c) == At(r, c)
    ensures l == r
  {
    forall c | c in l
      ensures l[c] == r[c]
    {
      assert At(l, c) == At(r, c);
    }
  }

  /** A dotted update of documents is exactly an upsert of rows. */
  lemma WriteRefines(docs: Docs, names: map<CounterKey, set<string>>, d: Deltas)
    requires GoodDocs(docs) && Within(docs, names) && Uses(d, names) && AllApart(names) && Nonempty(d)
    ensures Accepted(docs, d)
    ensures GoodDocs(MongoWrite(docs, d)) && Within(MongoWrite(docs, d), names)
    ensures DocsCells(MongoWrite(docs, d)) == Merge(DocsCells(docs), CellsOf(d, map[]))
  {
    forall k | k in d
      ensures ApplyFields(DocAt(docs, k), d[k], k.kind == CONC).Doc?
      ensures GoodDoc(ApplyFields(DocAt(docs, k), d[k], k.kind == CONC).node)
      ensures NamesWithin(ApplyFields(DocAt(docs, k), d[k], k.kind == CONC).node, names[k])
    {
      WriteDoc(docs, names, d, k);
    }
    var docs' := MongoWrite(docs, d);
    assert GoodDocs(docs') && Within(docs', names);
    var l, x, y := DocsCells(docs'), DocsCells(docs), CellsOf(d, map[]);
    forall c
      ensures (c in l <==> c in Merge(x, y)) && At(l, c) == At(Merge(x, y), c)
    {
      CellRead(docs, c);
      CellRead(docs', c);
      WriteReads(docs, names, d, c);
      assert c in y <==> Holds(d, map[], c);
      assert At(y, c) == Reads(d, map[], c);
    }
    EqualByReading(l, Merge(x, y));
  }

  // ---------- rebuilding documents from rows ----------

  function KidsAt(docs: Docs, k: CounterKey): map<string, Node> {
    if k in docs && docs[k].Obj? then docs[k].kids else map[]
  }

  function PutRow(docs: Docs, row: Row): Docs {
    docs[row.key := Obj(SetPath(KidsAt(docs, row.key), Split(row.field), row.n))]
  }

  function Rebuild(rows: seq<Row>): Docs {
    if rows == [] then map[] else PutRow(Rebuild(rows[..|rows| - 1]), rows[|rows| - 1])
  }

  method CounterDocumentsFromRows(rows: seq<Row>) returns (docs: Docs)
    ensures docs == Rebuild(rows)
  {
    docs := map[];
    for i := 0 to |rows|
      invariant docs == Rebuild(rows[..i])
    {
      var row := rows[i];
      var doc := KidsAt(docs, row.key);
      docs := docs[row.key := Obj(SetPath(doc, Split(row.field), row.n))];
      assert rows[..i + 1][..i] == rows[..i];
    }
    assert rows[..|rows|] == rows;
  }

  function RowCells(rows: seq<Row>): Cells {
    if rows == [] then map[]
    else
      var last := rows[|rows| - 1];
      RowCells(rows[..|rows| - 1])[Counter(last.key, last.field) := last.n]
  }

  predicate RowsApart(rows: seq<Row>) {
    forall i, j | 0 <= i < |rows| && 0 <= j < |rows| && rows[i].key == rows[j].key ::
      !Clash(Split(rows[i].field), Split(rows[j].field))
  }

  lemma {:induction false} SetPathPlain(kids: map<string, Node>, p: Path, n: nat)
    requires p != [] && Plain(Obj(kids)) && forall i :: 0 <= i < |p| ==> DotFree(p[i])
    ensures Plain(Obj(SetPath(kids, p, n)))
    decreases p
  {
    if |p| > 1 {
      var child := if p[0] in kids && kids[p[0]].Obj? then kids[p[0]].kids else map[];
      SetPathPlain(child, p[1..], n);
    }
  }

  /** Rebuilt documents never hold an empty part or a dotted name, whatever the rows. */
  lemma {:induction false} SetPathTidy(kids: map<string, Node>, p: Path, n: nat)
    requires p != [] && (kids == map[] || Tidy(Obj(kids)))
    ensures Tidy(Obj(SetPath(kids, p, n)))
    decreases p
  {
    assert p[0] in SetPath(kids, p, n);
    if |p| > 1 {
      var child := if p[0] in kids && kids[p[0]].Obj? then kids[p[0]].kids else map[];
      SetPathTidy(child, p[1..], n);
    }
  }

  lemma {:induction false} RebuildGood(rows: seq<Row>)
    ensures GoodDocs(Rebuild(rows))
  {
    if rows != [] {
      var last := rows[|rows| - 1];
      var before := Rebuild(rows[..|rows| - 1]);
      RebuildGood(rows[..|rows| - 1]);
      SplitDotFree(last.field);
      SetPathPlain(KidsAt(before, last.key), Split(last.field), last.n);
      SetPathTidy(KidsAt(before, last.key), Split(last.field), last.n);
    }
  }

  ghost predicate LeavesAreRows(docs: Docs, rows: seq<Row>) {
    forall k, p | k in docs && Look(docs[k], p).Found? ::
      exists i :: 0 <= i < |rows| && rows[i].key == k && p == Split(rows[i].field)
  }

  lemma PutRowReads(docs: Docs, rows: seq<Row>, row: Row)
    requires GoodDocs(docs) && LeavesAreRows(docs, rows) && RowsApart(rows + [row])
    ensures forall q :: Look(PutRow(docs, row)[row.key], q)
                        == if q == Split(row.field) then Found(row.n) else Look(DocAt(docs, row.key), q)
    ensures LeavesAreRows(PutRow(docs, row), rows + [row])
  {
    var kids, p, all := KidsAt(docs, row.key), Split(row.field), rows + [row];
    assert all[|rows|] == row;
    forall q | Look(Obj(kids), q).Found?
      ensures !Clash(p, q)
    {
      var i :| 0 <= i < |rows| && rows[i].key == row.key && q == Split(rows[i].field);
      assert all[i] == rows[i];
    }
    forall q
      ensures Look(PutRow(docs, row)[row.key], q) == if q == p then Found(row.n) else Look(DocAt(docs, row.key), q)
    {
      SetPathLook(kids, p, row.n, q);
    }
    forall k, q | k in PutRow(docs, row) && Look(PutRow(docs, row)[k], q).Found?
      ensures exists i :: 0 <= i < |all| && all[i].key == k && q == Split(all[i].field)
    {
      if k == row.key && q == p {
      } else {
        assert k in docs && Look(docs[k], q).Found?;
        var i :| 0 <= i < |rows| && rows[i].key == k && q == Split(rows[i].field);
        assert all[i] == rows[i];
      }
    }
  }

  lemma PutRowCell(docs: Docs, rows: seq<Row>, row: Row, c: Cell)
    requires GoodDocs(docs) && LeavesAreRows(docs, rows) && RowsApart(rows + [row])
    ensures InDocs(PutRow(docs, row), c) <==> InDocs(docs, c) || c == Counter(row.key, row.field)
    ensures OldRead(PutRow(docs, row), c) == if c == Counter(row.key, row.field) then row.n else OldRead(docs, c)
  {
    PutRowReads(docs, rows, row);
    if c.Counter? {
      JoinSplit(c.field);
      JoinSplit(row.field);
      assert ReadField(Obj(map[]), c.field) == Missing;
    }
  }

  lemma OneCellMore(docs: Docs, docs': Docs, x: Cell, n: nat)
    requires GoodDocs(docs) && GoodDocs(docs')
    requires forall c :: InDocs(docs', c) <==> InDocs(docs, c) || c == x
    requires forall c :: OldRead(docs', c) == if c == x then n else OldRead(docs, c)
    ensures DocsCells(docs') == DocsCells(docs)[x := n]
  {
    forall c
      ensures (c in DocsCells(docs') <==> c in DocsCells(docs)[x := n])
              && At(DocsCells(docs'), c) == At(DocsCells(docs)[x := n], c)
    {
      OneCellAt(docs, docs', x, n, c);
    }
    EqualByReading(DocsCells(docs'), DocsCells(docs)[x := n]);
  }

  lemma OneCellAt(docs: Docs, docs': Docs, x: Cell, n: nat, c: Cell)
    requires GoodDocs(docs) && GoodDocs(docs')
    requires InDocs(docs', c) <==> InDocs(docs, c) || c == x
    requires OldRead(docs', c) == if c == x then n else OldRead(docs, c)
    ensures c in DocsCells(docs') <==> c in DocsCells(docs)[x := n]
    ensures At(DocsCells(docs'), c) == At(DocsCells(docs)[x := n], c)
  {
    CellRead(docs, c);
    CellRead(docs', c);
    PutReads(DocsCells(docs'), DocsCells(docs), x, n, c);
  }

  lemma PutReads(l: Cells, was: Cells, x: Cell, n: nat, c: Cell)
    requires (c in l <==> c in was || c == x) && At(l, c) == if c == x then n else At(was, c)
    ensures (c in l <==> c in was[x := n]) && At(l, c) == At(was[x := n], c)
  {
  }

  lemma RebuildStep(docs: Docs, rows: seq<Row>, row: Row)
    requires GoodDocs(docs) && LeavesAreRows(docs, rows) && RowsApart(rows + [row])
    requires GoodDocs(PutRow(docs, row))
    ensures DocsCells(PutRow(docs, row)) == DocsCells(docs)[Counter(row.key, row.field) := row.n]
  {
    var x := Counter(row.key, row.field);
    forall c
      ensures InDocs(PutRow(docs, row), c) <==> InDocs(docs, c) || c == x
      ensures OldRead(PutRow(docs, row), c) == if c == x then row.n else OldRead(docs, c)
    {
      PutRowCell(docs, rows, row, c);
    }
    OneCellMore(docs, PutRow(docs, row), x, row.n);
  }

  lemma {:induction false} RebuildReads(rows: seq<Row>)
    requires RowsApart(rows)
    ensures DocsCells(Rebuild(rows)) == RowCells(rows)
    ensures LeavesAreRows(Rebuild(rows), rows)
  {
    RebuildGood(rows);
    if rows != [] {
      var init, last := rows[..|rows| - 1], rows[|rows| - 1];
      assert rows == init + [last];
      assert forall i :: 0 <= i < |init| ==> init[i] == rows[i];
      RebuildReads(init);
      RebuildGood(init);
      RebuildStep(Rebuild(init), init, last);
      PutRowReads(Rebuild(init), init, last);
    } else {
      assert DocsCells(map[]) == map[];
    }
  }

  lemma {:induction false} RowCellsHas(rows: seq<Row>, i: nat)
    requires i < |rows|
    ensures Counter(rows[i].key, rows[i].field) in RowCells(rows)
  {
    if i < |rows| - 1 {
      assert rows[..|rows| - 1][i] == rows[i];
      RowCellsHas(rows[..|rows| - 1], i);
    }
  }

  /** Rebuilding keeps every row exactly when no field of a document runs into another of the same document. */
  lemma RebuildExact(rows: seq<Row>)
    ensures DocsCells(Rebuild(rows)) == RowCells(rows) <==> RowsApart(rows)
  {
    if RowsApart(rows) {
      RebuildReads(rows);
    }
    if DocsCells(Rebuild(rows)) == RowCells(rows) {
      var docs := Rebuild(rows);
      RebuildGood(rows);
      forall i, j | 0 <= i < |rows| && 0 <= j < |rows| && rows[i].key == rows[j].key
        ensures !Clash(Split(rows[i].field), Split(rows[j].field))
      {
        RowCellsHas(rows, i);
        RowCellsHas(rows, j);
        DocsCellsAt(docs, Counter(rows[i].key, rows[i].field));
        DocsCellsAt(docs, Counter(rows[j].key, rows[j].field));
        LeavesApart(docs[rows[i].key], Split(rows[i].field), Split(rows[j].field));
      }
    }
  }

  /** Collections holding the same cells hold the same documents. */
  lemma SameCellsSameDocs(a: Docs, b: Docs)
    requires GoodDocs(a) && GoodDocs(b) && DocsCells(a) == DocsCells(b)
    ensures a == b
  {
    SubDocs(a, b);
    SubDocs(b, a);
    forall k | k in a
      ensures a[k] == b[k]
    {
      forall p
        ensures Look(a[k], p) == Look(b[k], p)
      {
        if Look(a[k], p).Found? {
          SameLook(a, b, k, p);
        }
        if Look(b[k], p).Found? {
          SameLook(b, a, k, p);
        }
      }
      SameReadings(a[k], b[k]);
    }
  }

  lemma SameLook(a: Docs, b: Docs, k: CounterKey, p: Path)
    requires GoodDocs(a) && GoodDocs(b) && DocsCells(a) == DocsCells(b) && k in a && Look(a[k], p).Found?
    ensures k in b && Look(b[k], p) == Look(a[k], p)
  {
    LookPlain(a[k], p);
    SplitJoin(p);
    DocsCellsAt(a, Counter(k, Join(p)));
    DocsCellsAt(b, Counter(k, Join(p)));
  }

  lemma SubDocs(a: Docs, b: Docs)
    requires GoodDocs(a) && GoodDocs(b) && DocsCells(a) == DocsCells(b)
    ensures a.Keys <= b.Keys
  {
    forall k | k in a
      ensures k in b
    {
      var p := TidyHasLeaf(a[k]);
      SameLook(a, b, k, p);
    }
  }

  // ---------- whole runs ----------

  /** Every field name a run of writes uses, per document. */
  function NamesOf(run: seq<Deltas>): map<CounterKey, set<string>> {
    if run == [] then map[]
    else
      var later := NamesOf(run[1..]);
      map k | k in later.Keys + run[0].Keys ::
        (if k in later then later[k] else {}) + (if k in run[0] then run[0][k].Keys else {})
  }

  /** The fields that a run writes to one document. */
  lemma {:induction false} NamesIff(run: seq<Deltas>, k: CounterKey, f: string)
    ensures k in NamesOf(run) && f in NamesOf(run)[k] <==> exists i :: 0 <= i < |run| && k in run[i] && f in run[i][k]
  {
    if run != [] {
      var later := run[1..];
      NamesIff(later, k, f);
      assert forall i :: 0 <= i < |later| ==> later[i] == run[i + 1];
      assert k in NamesOf(run) && f in NamesOf(run)[k]
        <==> (k in run[0] && f in run[0][k]) || (k in NamesOf(later) && f in NamesOf(later)[k]);
    }
  }

  ghost predicate Legal(docs: Docs, run: seq<Deltas>)
    decreases |run|
  {
    run == [] || (Accepted(docs, run[0]) && Legal(MongoWrite(docs, run[0]), run[1..]))
  }

  ghost function MongoAfter(docs: Docs, run: seq<Deltas>): Docs
    requires Legal(docs, run)
    decreases |run|
  {
    if run == [] then docs else MongoAfter(MongoWrite(docs, run[0]), run[1..])
  }

  function PostgresAfter(rows: Cells, run: seq<Deltas>): Cells
    decreases |run|
  {
    if run == [] then rows else PostgresAfter(Merge(rows, CellsOf(run[0], map[])), run[1..])
  }

  lemma {:induction false} RunRefines(docs: Docs, names: map<CounterKey, set<string>>, run: seq<Deltas>)
    requires GoodDocs(docs) && Within(docs, names) && AllApart(names)
    requires forall i :: 0 <= i < |run| ==> Uses(run[i], names) && Nonempty(run[i])
    ensures Legal(docs, run)
    ensures GoodDocs(MongoAfter(docs, run))
    ensures DocsCells(MongoAfter(docs, run)) == PostgresAfter(DocsCells(docs), run)
    decreases |run|
  {
    if run != [] {
      WriteRefines(docs, names, run[0]);
      assert forall i :: 0 <= i < |run[1..]| ==> run[1..][i] == run[i + 1];
      RunRefines(MongoWrite(docs, run[0]), names, run[1..]);
    }
  }

  lemma {:induction false} NamesCover(run: seq<Deltas>, i: nat)
    requires i < |run|
    ensures Uses(run[i], NamesOf(run))
  {
    if i > 0 {
      NamesCover(run[1..], i - 1);
      assert run[1..][i - 1] == run[i];
    }
  }

  // ---------- retention ----------

  datatype Write = Write(d: Deltas, h: HeatMap, today: nat, pass: bool)

  /** The table after committed writes without the retention passes, and with them. */
  function AllRows(rows: Cells, ws: seq<Write>): Cells {
    if ws == [] then rows
    else Merge(AllRows(rows, ws[..|ws| - 1]), CellsOf(ws[|ws| - 1].d, ws[|ws| - 1].h))
  }

  function RetainedRows(rows: Cells, ws: seq<Write>): Cells {
    if ws == [] then rows
    else
      var w := ws[|ws| - 1];
      Transact(RetainedRows(rows, ws[..|ws| - 1]), w.d, w.h, w.today, w.pass)
  }

  lemma KeptMerge(a: Cells, b: Cells, cutoff: int)
    ensures Kept(Merge(a, b), cutoff) == Merge(Kept(a, cutoff), Kept(b, cutoff))
  {
    var l, r := Kept(Merge(a, b), cutoff), Merge(Kept(a, cutoff), Kept(b, cutoff));
    assert l.Keys == r.Keys;
  }

  lemma KeptTwice(a: Cells, low: int, high: int)
    requires low <= high
    ensures Kept(Kept(a, low), high) == Kept(a, high)
  {
  }

  /** Over any run of committed writes, whichever of them make a retention pass, the passes take nothing but counters of days
      more than 400 before the latest write: everything else is as if there were none. */
  lemma {:induction false} RetentionKeepsRecent(rows: Cells, ws: seq<Write>, cutoff: int)
    requires forall i :: 0 <= i < |ws| ==> ws[i].today - RETENTION_DAYS <= cutoff
    ensures forall c: Cell :: c.Heat? || c.key.day >= cutoff ==>
              && (c in RetainedRows(rows, ws) <==> c in AllRows(rows, ws))
              && At(RetainedRows(rows, ws), c) == At(AllRows(rows, ws), c)
  {
    RetainedKept(rows, ws, cutoff);
    var retained, all := RetainedRows(rows, ws), AllRows(rows, ws);
    forall c: Cell | c.Heat? || c.key.day >= cutoff
      ensures (c in retained <==> c in all) && At(retained, c) == At(all, c)
    {
      assert c in Kept(retained, cutoff) <==> c in retained;
      assert c in Kept(all, cutoff) <==> c in all;
    }
  }

  lemma {:induction false} RetainedKept(rows: Cells, ws: seq<Write>, cutoff: int)
    requires forall i :: 0 <= i < |ws| ==> ws[i].today - RETENTION_DAYS <= cutoff
    ensures Kept(RetainedRows(rows, ws), cutoff) == Kept(AllRows(rows, ws), cutoff)
  {
    if ws != [] {
      var init, w := ws[..|ws| - 1], ws[|ws| - 1];
      assert forall i :: 0 <= i < |init| ==> init[i] == ws[i];
      RetainedKept(rows, init, cutoff);
      TransactKeepsRecent(RetainedRows(rows, init), AllRows(rows, init), w.d, w.h, w.today, w.pass, cutoff);
    }
  }

  /** A committed write merges its cells, and with a retention pass no counter of a day more than 400 back is left. */
  lemma TransactIff(rows: Cells, d: Deltas, h: HeatMap, today: nat, pass: bool, c: Cell)
    ensures var after, gone := Transact(rows, d, h, today, pass), pass && c.Counter? && c.key.day + 400 < today;
            && (c in after <==> (c in rows || c in CellsOf(d, h)) && !gone)
            && (!gone ==> At(after, c) == Combine(c, At(rows, c), At(CellsOf(d, h), c)))
  {
    MergeAt(rows, CellsOf(d, h), c);
    var merged := Merge(rows, CellsOf(d, h));
    assert c in merged <==> c in rows || c in CellsOf(d, h);
  }

  lemma TransactKeepsRecent(rows: Cells, all: Cells, d: Deltas, h: HeatMap, today: nat, pass: bool, cutoff: int)
    requires Kept(rows, cutoff) == Kept(all, cutoff) && today - RETENTION_DAYS <= cutoff
    ensures Kept(Transact(rows, d, h, today, pass), cutoff) == Kept(Merge(all, CellsOf(d, h)), cutoff)
  {
    KeptMerge(rows, CellsOf(d, h), cutoff);
    KeptMerge(all, CellsOf(d, h), cutoff);
    KeptTwice(Merge(rows, CellsOf(d, h)), today - RETENTION_DAYS, cutoff);
  }

  /** From empty stores, any run of flushes whose fields do not run into each other leaves documents that are
      exactly what rebuilding the Postgres rows gives, in whatever order the rows are read. */
  lemma StoresAgree(run: seq<Deltas>, rows: seq<Row>)
    requires forall k, f, g :: k in NamesOf(run) && f in NamesOf(run)[k] && g in NamesOf(run)[k] ==> !Clash(Split(f), Split(g))
    requires forall i, k :: 0 <= i < |run| && k in run[i] ==> run[i][k] != map[]
    requires RowCells(rows) == PostgresAfter(map[], run)
    ensures Legal(map[], run)
    ensures Rebuild(rows) == MongoAfter(map[], run)
  {
    forall i | 0 <= i < |run|
      ensures Uses(run[i], NamesOf(run)) && Nonempty(run[i])
    {
      NamesCover(run, i);
    }
    assert DocsCells(map[]) == map[];
    RunRefines(map[], NamesOf(run), run);
    var docs := MongoAfter(map[], run);
    RowsApartOfDocs(docs, rows);
    RebuildReads(rows);
    RebuildGood(rows);
    SameCellsSameDocs(Rebuild(rows), docs);
  }

  lemma RowsApartOfDocs(docs: Docs, rows: seq<Row>)
    requires GoodDocs(docs) && DocsCells(docs) == RowCells(rows)
    ensures RowsApart(rows)
  {
    forall i, j | 0 <= i < |rows| && 0 <= j < |rows| && rows[i].key == rows[j].key
      ensures !Clash(Split(rows[i].field), Split(rows[j].field))
    {
      RowCellsHas(rows, i);
      RowCellsHas(rows, j);
      DocsCellsAt(docs, Counter(rows[i].key, rows[i].field));
      DocsCellsAt(docs, Counter(rows[j].key, rows[j].field));
      LeavesApart(docs[rows[i].key], Split(rows[i].field), Split(rows[j].field));
    }
  }

  /** Flattening good documents and rebuilding them gives them back. */
  lemma FlattenRebuild(docs: Docs, rows: seq<Row>)
    requires GoodDocs(docs) && RowCells(rows) == DocsCells(docs)
    ensures Rebuild(rows) == docs
  {
    RowsApartOfDocs(docs, rows);
    RebuildReads(rows);
    RebuildGood(rows);
    SameCellsSameDocs(Rebuild(rows), docs);
  }
}
