/** One flush as the list of writes it is sent as: a counter document with its fields, or one heat-map spot. */
module FlushItems {
  import opened CounterCells

  datatype Item = CounterItem(key: CounterKey, fields: Fields) | HeatItem(spot: HeatKey, n: nat)

  function ItemCells(it: Item): Cells {
    match it
    case CounterItem(k, fs) => CellsOf(map[k := fs], map[])
    case HeatItem(s, n) => CellsOf(map[], map[s := n])
  }

  function CellsOfItems(items: seq<Item>): Cells {
    if items == [] then map[] else Merge(ItemCells(items[0]), CellsOfItems(items[1..]))
  }

  /** `items` lists every entry of the two buffers exactly once, in some order. */
  predicate Lists(items: seq<Item>, d: Deltas, h: HeatMap) {
    if items == [] then d == map[] && h == map[]
    else match items[0]
      case CounterItem(k, fs) => k in d && d[k] == fs && Lists(items[1..], d - {k}, h)
      case HeatItem(s, n) => s in h && h[s] == n && Lists(items[1..], d, h - {s})
  }

  function SplitCounters(items: seq<Item>): Deltas {
    if items == [] then map[]
    else match items[0]
      case CounterItem(k, fs) => SplitCounters(items[1..])[k := fs]
      case HeatItem(_, _) => SplitCounters(items[1..])
  }

  function SplitHeat(items: seq<Item>): HeatMap {
    if items == [] then map[]
    else match items[0]
      case CounterItem(_, _) => SplitHeat(items[1..])
      case HeatItem(s, n) => SplitHeat(items[1..])[s := n]
  }

  function ItemKeys(items: seq<Item>): set<CounterKey> {
    SplitCounters(items).Keys
  }

  lemma {:induction false} ItemKeyIn(items: seq<Item>, i: nat)
    requires i < |items| && items[i].CounterItem?
    ensures items[i].key in ItemKeys(items)
  {
    if i > 0 {
      ItemKeyIn(items[1..], i - 1);
    }
  }

  /** The writes of `items` that a failing unordered bulk write still performed. */
  function Landed(items: seq<Item>, mask: seq<bool>): seq<Item>
    requires |mask| == |items|
  {
    if items == [] then []
    else (if mask[0] then [items[0]] else []) + Landed(items[1..], mask[1..])
  }

  lemma CellsOfSplitCounter(d: Deltas, h: HeatMap, k: CounterKey)
    requires k in d
    ensures CellsOf(d, h) == Merge(ItemCells(CounterItem(k, d[k])), CellsOf(d - {k}, h))
  {
    var l, r := CellsOf(d, h), Merge(ItemCells(CounterItem(k, d[k])), CellsOf(d - {k}, h));
    forall c
      ensures c in l <==> c in r
      ensures c in l ==> l[c] == r[c]
    {
    }
  }

  lemma CellsOfSplitHeat(d: Deltas, h: HeatMap, s: HeatKey)
    requires s in h
    ensures CellsOf(d, h) == Merge(ItemCells(HeatItem(s, h[s])), CellsOf(d, h - {s}))
  {
    var l, r := CellsOf(d, h), Merge(ItemCells(HeatItem(s, h[s])), CellsOf(d, h - {s}));
    forall c
      ensures c in l <==> c in r
      ensures c in l ==> l[c] == r[c]
    {
    }
  }

  lemma {:induction false} ListsCells(items: seq<Item>, d: Deltas, h: HeatMap)
    requires Lists(items, d, h)
    ensures CellsOfItems(items) == CellsOf(d, h)
  {
    if items != [] {
      match items[0]
      case CounterItem(k, fs) =>
        ListsCells(items[1..], d - {k}, h);
        CellsOfSplitCounter(d, h, k);
      case HeatItem(s, n) =>
        ListsCells(items[1..], d, h - {s});
        CellsOfSplitHeat(d, h, s);
    }
  }

  lemma {:induction false} ListsSplit(items: seq<Item>, d: Deltas, h: HeatMap)
    requires Lists(items, d, h)
    ensures d == SplitCounters(items) && h == SplitHeat(items)
  {
    if items != [] {
      match items[0]
      case CounterItem(k, fs) =>
        ListsSplit(items[1..], d - {k}, h);
        assert d == (d - {k})[k := fs];
      case HeatItem(s, n) =>
        ListsSplit(items[1..], d, h - {s});
        assert h == (h - {s})[s := n];
    }
  }

  /** No entry occurs twice. */
  predicate Distinct(items: seq<Item>) {
    Lists(items, SplitCounters(items), SplitHeat(items))
  }

  lemma {:induction false} DistinctSuffix(items: seq<Item>, i: nat)
    requires Distinct(items) && i <= |items|
    ensures Distinct(items[i..]) && ItemKeys(items[i..]) <= ItemKeys(items)
    decreases i
  {
    if i == 0 {
      assert items[0..] == items;
    } else {
      match items[0] {
        case CounterItem(k, fs) => ListsSplit(items[1..], SplitCounters(items) - {k}, SplitHeat(items));
        case HeatItem(s, n) => ListsSplit(items[1..], SplitCounters(items), SplitHeat(items) - {s});
      }
      assert items[i..] == items[1..][i - 1..];
      DistinctSuffix(items[1..], i - 1);
    }
  }

  lemma DistinctCells(items: seq<Item>)
    requires Distinct(items)
    ensures CellsOfItems(items) == CellsOf(SplitCounters(items), SplitHeat(items))
  {
    ListsCells(items, SplitCounters(items), SplitHeat(items));
  }

  lemma {:induction false} CellsOfItemsConcat(xs: seq<Item>, ys: seq<Item>)
    ensures CellsOfItems(xs + ys) == Merge(CellsOfItems(xs), CellsOfItems(ys))
  {
    if xs == [] {
      assert xs + ys == ys;
      MergeUnit(CellsOfItems(ys));
    } else {
      assert (xs + ys)[1..] == xs[1..] + ys;
      CellsOfItemsConcat(xs[1..], ys);
      MergeAssoc(ItemCells(xs[0]), CellsOfItems(xs[1..]), CellsOfItems(ys));
    }
  }

  lemma CellsOfItemsCut(items: seq<Item>, i: nat)
    requires i <= |items|
    ensures CellsOfItems(items) == Merge(CellsOfItems(items[..i]), CellsOfItems(items[i..]))
  {
    var a, b := items[..i], items[i..];
    assert items == a + b;
    CellsOfItemsConcat(a, b);
  }

  /** A cell never holds more than the writes that touch it: what landed is bounded by what was sent. */
  lemma {:induction false} LandedBelow(items: seq<Item>, mask: seq<bool>, c: Cell)
    requires |mask| == |items|
    ensures At(CellsOfItems(Landed(items, mask)), c) <= At(CellsOfItems(items), c)
  {
    if items != [] {
      var rest := Landed(items[1..], mask[1..]);
      LandedBelow(items[1..], mask[1..], c);
      if mask[0] {
        assert Landed(items, mask)[0] == items[0] && Landed(items, mask)[1..] == rest;
        MergeAt(ItemCells(items[0]), CellsOfItems(rest), c);
      } else {
        assert Landed(items, mask) == rest;
      }
      MergeAt(ItemCells(items[0]), CellsOfItems(items[1..]), c);
    }
  }

  lemma {:induction false} LandedNothing(items: seq<Item>, mask: seq<bool>)
    requires |mask| == |items| && forall i :: 0 <= i < |mask| ==> !mask[i]
    ensures Landed(items, mask) == []
  {
    if items != [] {
      LandedNothing(items[1..], mask[1..]);
    }
  }
}
