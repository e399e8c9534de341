/** The values both analytics stores keep: one number per counter field and one per heat-map spot.
    Counter fields of kind "conc" are combined by maximum, everything else by addition, so the contents of a
    buffer, of a part of a flush and of a store are all elements of one commutative monoid. */
module CounterCells {

  /** Days are counted from a fixed date: ISO day strings compare exactly as these numbers do. */
  datatype CounterKey = CounterKey(org: string, day: nat, kind: string, k1: string, k2: string,
                                   device: string, seg: string)

  datatype HeatKey = HeatKey(org: string, page: string, device: string, seg: string, kind: string,
                             gx: int, gy: int)

  datatype Cell = Counter(key: CounterKey, field: string) | Heat(spot: HeatKey)

  type Cells = map<Cell, nat>
  type Fields = map<string, nat>
  type Deltas = map<CounterKey, Fields>
  type HeatMap = map<HeatKey, nat>

  const CONC := "conc"

  predicate IsMax(c: Cell) {
    c.Counter? && c.key.kind == CONC
  }

  function Max(a: nat, b: nat): nat {
    if a < b then b else a
  }

  function Combine(c: Cell, a: nat, b: nat): nat {
    if IsMax(c) then Max(a, b) else a + b
  }

  /** A cell that was never written reads as 0. */
  function At(m: Cells, c: Cell): nat {
    if c in m then m[c] else 0
  }

  function Merge(a: Cells, b: Cells): Cells {
    map c | c in a.Keys + b.Keys :: Combine(c, At(a, c), At(b, c))
  }

  function MergeAll(parts: seq<Cells>): Cells {
    if parts == [] then map[] else Merge(parts[0], MergeAll(parts[1..]))
  }

  predicate Holds(d: Deltas, h: HeatMap, c: Cell) {
    match c
    case Counter(k, f) => k in d && f in d[k]
    case Heat(s) => s in h
  }

  function Amount(d: Deltas, h: HeatMap, c: Cell): nat
    requires Holds(d, h, c)
  {
    match c
    case Counter(k, f) => d[k][f]
    case Heat(s) => h[s]
  }

  function HeldCells(d: Deltas, h: HeatMap): (r: set<Cell>)
    ensures forall c :: c in r <==> Holds(d, h, c)
  {
    (set k, f | k in d && f in d[k] :: Counter(k, f)) + (set s | s in h :: Heat(s))
  }

  /** Everything held by a counter buffer and a heat buffer together. */
  function CellsOf(d: Deltas, h: HeatMap): (r: Cells)
    ensures forall c :: c in r <==> Holds(d, h, c)
    ensures forall c :: c in r ==> r[c] == Amount(d, h, c)
  {
    map c | c in HeldCells(d, h) :: Amount(d, h, c)
  }

  function Reads(d: Deltas, h: HeatMap, c: Cell): nat {
    if Holds(d, h, c) then Amount(d, h, c) else 0
  }

  /** Buffers combine to a third when they do so cell by cell. */
  lemma CellsMerge(d: Deltas, h: HeatMap, d1: Deltas, h1: HeatMap, d2: Deltas, h2: HeatMap)
    requires forall c :: Holds(d, h, c) <==> Holds(d1, h1, c) || Holds(d2, h2, c)
    requires forall c :: Reads(d, h, c) == Combine(c, Reads(d1, h1, c), Reads(d2, h2, c))
    ensures CellsOf(d, h) == Merge(CellsOf(d1, h1), CellsOf(d2, h2))
  {
    var l, x, y := CellsOf(d, h), CellsOf(d1, h1), CellsOf(d2, h2);
    forall c
      ensures c in l <==> c in Merge(x, y)
      ensures c in l ==> l[c] == Merge(x, y)[c]
    {
      assert At(x, c) == Reads(d1, h1, c) && At(y, c) == Reads(d2, h2, c);
      assert Reads(d, h, c) == Combine(c, Reads(d1, h1, c), Reads(d2, h2, c));
    }
  }

  lemma MergeAt(a: Cells, b: Cells, c: Cell)
    ensures At(Merge(a, b), c) == Combine(c, At(a, c), At(b, c))
  {
  }

  lemma MergeUnit(a: Cells)
    ensures Merge(a, map[]) == a && Merge(map[], a) == a
  {
    assert Merge(a, map[]).Keys == a.Keys && Merge(map[], a).Keys == a.Keys;
  }

  lemma MergeComm(a: Cells, b: Cells)
    ensures Merge(a, b) == Merge(b, a)
  {
    assert Merge(a, b).Keys == Merge(b, a).Keys;
  }

  lemma MergeAssoc(a: Cells, b: Cells, c: Cells)
    ensures Merge(Merge(a, b), c) == Merge(a, Merge(b, c))
  {
    var l, r := Merge(Merge(a, b), c), Merge(a, Merge(b, c));
    assert l.Keys == r.Keys;
    forall x | x in l.Keys
      ensures l[x] == r[x]
    {
      MergeAt(a, b, x);
      MergeAt(b, c, x);
    }
  }

  lemma {:induction false} MergeAllConcat(xs: seq<Cells>, ys: seq<Cells>)
    ensures MergeAll(xs + ys) == Merge(MergeAll(xs), MergeAll(ys))
  {
    if xs == [] {
      assert xs + ys == ys;
      MergeUnit(MergeAll(ys));
    } else {
      assert (xs + ys)[1..] == xs[1..] + ys;
      MergeAllConcat(xs[1..], ys);
      MergeAssoc(xs[0], MergeAll(xs[1..]), MergeAll(ys));
    }
  }

  lemma MergeAllOne(x: Cells)
    ensures MergeAll([x]) == x
  {
    assert [x][1..] == [];
    MergeUnit(x);
  }
}
