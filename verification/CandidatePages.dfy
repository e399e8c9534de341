/** Splitting the official list of candidates over pages. */
module CandidatePages {
  import CandidateSections

  const FIRST_PAGE_PX := 620
  const NEXT_PAGE_PX := 715
  const NAME_CHARS := 48
  const HEADING_CHARS := 36

  type Section = CandidateSections.Section

  /** A section, or a part of one, on a page. */
  datatype Block = Block(position: string, continued: bool, startIndex: nat, names: seq<string>)

  type Page = seq<Block>

  // ---------- costs ----------

  /** How many lines a text takes, at least one. */
  function Wraps(length: nat, per: nat): (lines: nat)
    requires per > 0
    ensures lines >= 1
  {
    if length <= per then 1 else 1 + Wraps(length - per, per)
  }

  /** Lines that hold the text, and one fewer would not. */
  lemma {:induction false} WrapsIsLeast(length: nat, per: nat)
    requires per > 0
    ensures Wraps(length, per) * per >= length
    ensures Wraps(length, per) > 1 ==> (Wraps(length, per) - 1) * per < length
  {
    if length > per {
      WrapsIsLeast(length - per, per);
    }
  }

  /** 27 px for every line of a name. */
  function NameCost(name: string): (c: nat)
    ensures c >= 27
  {
    27 * Wraps(|name|, NAME_CHARS)
  }

  /** 36 px for a heading, and 18 px for every further line of it. */
  function HeadingCost(position: string, continued: bool): (c: nat)
    ensures c >= 36
  {
    36 + 18 * (Wraps(|position| + if continued then |" (continued)"| else 0, HEADING_CHARS) - 1)
  }

  /** The heights that a layout reckons with. */
  datatype Metrics = Metrics(name: string -> nat, heading: (string, bool) -> nat)

  ghost predicate Positive(m: Metrics) {
    (forall name :: m.name(name) > 0) && (forall position, continued :: m.heading(position, continued) > 0)
  }

  function NamesCost(m: Metrics, names: seq<string>): nat {
    if names == [] then 0 else NamesCost(m, names[..|names| - 1]) + m.name(names[|names| - 1])
  }

  function BlockCost(m: Metrics, b: Block): nat {
    m.heading(b.position, b.continued) + NamesCost(m, b.names)
  }

  function PageCost(m: Metrics, page: Page): nat {
    if page == [] then 0 else PageCost(m, page[..|page| - 1]) + BlockCost(m, page[|page| - 1])
  }

  function Capacity(page: nat, first: int, rest: int): int {
    if page == 0 then first else rest
  }

  /** As on the printed sheet. */
  function Sheet(): (m: Metrics)
    ensures Positive(m)
  {
    Metrics(NameCost, HeadingCost)
  }

  // ---------- what the pages say ----------

  function Blocks(pages: seq<Page>): seq<Block> {
    if pages == [] then [] else Blocks(pages[..|pages| - 1]) + pages[|pages| - 1]
  }

  datatype Told = Garbled | Told(sections: seq<Section>)

  /** What a reader makes of the blocks: a continued block goes on with the last section, whose title and numbering it has to
      carry on; another one starts a section at zero; and each has a name. */
  function Rejoined(blocks: seq<Block>): Told {
    if blocks == [] then Told([])
    else
      match Rejoined(blocks[..|blocks| - 1])
      case Garbled => Garbled
      case Told(done) => Rejoin(done, blocks[|blocks| - 1])
  }

  function Rejoin(done: seq<Section>, b: Block): Told {
    if b.names == [] then Garbled
    else if !b.continued then
      if b.startIndex == 0 then Told(done + [CandidateSections.Section(b.position, b.names)]) else Garbled
    else if done == [] || done[|done| - 1].position != b.position || b.startIndex != |done[|done| - 1].names| then Garbled
    else Told(done[..|done| - 1] + [CandidateSections.Section(b.position, done[|done| - 1].names + b.names)])
  }

  /** A block is taken only with a name, where a section starts at zero, or where it carries on the title and the numbering. */
  lemma RejoinIff(done: seq<Section>, b: Block)
    ensures Rejoin(done, b) == Garbled
            <==> || b.names == []
                 || (!b.continued && b.startIndex > 0)
                 || (b.continued && (done == [] || done[|done| - 1].position != b.position
                                     || b.startIndex != |done[|done| - 1].names|))
    ensures Rejoin(done, b) != Garbled ==>
              Rejoin(done, b).sections
              == if b.startIndex == 0 && !b.continued then done + [CandidateSections.Section(b.position, b.names)]
                 else done[..|done| - 1] + [CandidateSections.Section(b.position, done[|done| - 1].names + b.names)]
  {
  }

  function Named(sections: seq<Section>): seq<Section> {
    if sections == [] then []
    else
      var s := sections[|sections| - 1];
      Named(sections[..|sections| - 1]) + if s.names == [] then [] else [s]
  }

  /** A page is within its capacity unless it is one block with one name. */
  predicate Fits(m: Metrics, page: Page, capacity: int) {
    page == [] || PageCost(m, page) <= capacity || (|page| == 1 && |page[0].names| == 1)
  }

  /** What the first block of a page would have added to the page before. */
  function Lead(m: Metrics, b: Block): nat {
    if b.names == [] then 0
    else (if b.continued then 0 else m.heading(b.position, false)) + m.name(b.names[0])
  }

  predicate PageOk(m: Metrics, pages: seq<Page>, i: nat, first: int, rest: int)
    requires i < |pages|
  {
    && Fits(m, pages[i], Capacity(i, first, rest))
    && (i + 1 < |pages| ==> pages[i] != [])
    && (i + 1 < |pages| && pages[i + 1] != [] ==>
          PageCost(m, pages[i]) + Lead(m, pages[i + 1][0]) > Capacity(i, first, rest))
  }

  predicate PagesOk(m: Metrics, pages: seq<Page>, first: int, rest: int) {
    forall i :: 0 <= i < |pages| ==> PageOk(m, pages, i, first, rest)
  }

  /** The sections that have names, in order. */
  lemma {:induction false} NamedAre(sections: seq<Section>, s: Section)
    ensures s in Named(sections) <==> s in sections && s.names != []
    ensures (forall t :: t in sections ==> t.names != []) ==> Named(sections) == sections
  {
    if sections != [] {
      NamedAre(sections[..|sections| - 1], s);
      assert sections == sections[..|sections| - 1] + [sections[|sections| - 1]];
    }
  }

  lemma {:induction false} NamedSplits(a: seq<Section>, b: seq<Section>)
    ensures Named(a + b) == Named(a) + Named(b)
  {
    if b == [] {
      assert a + b == a;
    } else {
      var n := |b| - 1;
      NamedSplits(a, b[..n]);
      assert (a + b)[..|a + b| - 1] == a + b[..n];
    }
  }

  /** A page in numbers: what is on it fits, or is one name under one heading; and the first name of the next page, with its
      heading if a section starts there, would have been too much. */
  lemma PageOkIff(m: Metrics, pages: seq<Page>, i: nat, first: int, rest: int)
    requires i < |pages| && (i + 1 < |pages| && pages[i + 1] != [] ==> pages[i + 1][0].names != [])
    ensures var capacity := if i == 0 then first else rest;
            PageOk(m, pages, i, first, rest)
            <==> && (pages[i] == [] || PageCost(m, pages[i]) <= capacity || (|pages[i]| == 1 && |pages[i][0].names| == 1))
                 && (i + 1 < |pages| ==> pages[i] != [])
                 && (i + 1 < |pages| && pages[i + 1] != [] ==>
                       var b := pages[i + 1][0];
                       PageCost(m, pages[i]) + (if b.continued then 0 else m.heading(b.position, false)) + m.name(b.names[0])
                       > capacity)
  {
  }

  // ---------- the algorithm ----------

  /** As many names as fit after `used` and a heading, but at least one. */
  method TakeNames(m: Metrics, names: seq<string>, used: int, heading: nat, capacity: int) returns (n: nat, cost: nat)
    requires names != []
    ensures 1 <= n <= |names| && cost == heading + NamesCost(m, names[..n])
    ensures n > 1 ==> used + cost <= capacity
    ensures n < |names| ==> used + cost + m.name(names[n]) > capacity
  {
    n, cost := 0, heading;
    while n < |names|
      invariant 0 <= n <= |names| && cost == heading + NamesCost(m, names[..n])
      invariant n > 1 ==> used + cost <= capacity
      decreases |names| - n
    {
      var c := m.name(names[n]);
      if n > 0 && used + cost + c > capacity {
        return;
      }
      assert names[..n + 1][..n] == names[..n];
      cost := cost + c;
      n := n + 1;
    }
  }

  function AddBlock(pages: seq<Page>, b: Block): seq<Page>
    requires pages != []
  {
    pages[|pages| - 1 := pages[|pages| - 1] + [b]]
  }

  lemma AddBlockBlocks(pages: seq<Page>, b: Block)
    requires pages != []
    ensures Blocks(AddBlock(pages, b)) == Blocks(pages) + [b]
  {
    var n := |pages| - 1;
    assert AddBlock(pages, b)[..n] == pages[..n];
  }

  lemma NextPageBlocks(pages: seq<Page>)
    ensures Blocks(pages + [[]]) == Blocks(pages)
  {
    assert (pages + [[]])[..|pages|] == pages;
  }

  /** The sections told when section `s` stands after `taken` of its names. */
  function UpTo(before: seq<Section>, s: Section, taken: nat): seq<Section>
    requires taken <= |s.names|
  {
    if taken == 0 then before else before + [CandidateSections.Section(s.position, s.names[..taken])]
  }

  lemma PlacedOneMore(blocks: seq<Block>, before: seq<Section>, s: Section, taken: nat, n: nat)
    requires 1 <= n <= |s.names| - taken && Rejoined(blocks) == Told(UpTo(before, s, taken))
    ensures Rejoined(blocks + [Block(s.position, taken > 0, taken, s.names[taken..taken + n])])
            == Told(UpTo(before, s, taken + n))
  {
    var b := Block(s.position, taken > 0, taken, s.names[taken..taken + n]);
    assert (blocks + [b])[..|blocks|] == blocks;
    assert s.names[..taken + n] == s.names[..taken] + s.names[taken..taken + n];
    var done := UpTo(before, s, taken);
    assert taken > 0 ==> done[..|done| - 1] == before;
    assert Rejoin(done, b) == Told(UpTo(before, s, taken + n));
  }

  /** The last page is new only in the middle of a section, or at the very beginning. */
  predicate LastPage(m: Metrics, pages: seq<Page>, next: nat, first: int, rest: int) {
    var n := |pages|;
    n > 1 && pages[n - 1] == [] ==> PageCost(m, pages[n - 2]) + next > Capacity(n - 2, first, rest)
  }

  lemma NextPageOk(m: Metrics, pages: seq<Page>, first: int, rest: int)
    requires pages != [] && pages[|pages| - 1] != [] && PagesOk(m, pages, first, rest)
    ensures PagesOk(m, pages + [[]], first, rest)
  {
    var more := pages + [[]];
    forall i | 0 <= i < |more|
      ensures PageOk(m, more, i, first, rest)
    {
      if i < |pages| {
        assert PageOk(m, pages, i, first, rest);
      }
    }
  }

  lemma AddBlockOk(m: Metrics, pages: seq<Page>, b: Block, first: int, rest: int)
    requires pages != [] && PagesOk(m, pages, first, rest) && b.names != []
    requires LastPage(m, pages, Lead(m, b), first, rest)
    requires Fits(m, pages[|pages| - 1] + [b], Capacity(|pages| - 1, first, rest))
    ensures PagesOk(m, AddBlock(pages, b), first, rest)
  {
    var more := AddBlock(pages, b);
    forall i | 0 <= i < |more|
      ensures PageOk(m, more, i, first, rest)
    {
      assert PageOk(m, pages, i, first, rest);
      if i + 1 < |pages| {
        assert PageOk(m, pages, i + 1, first, rest);
      }
    }
  }

  /** The pages so far, with `start` names of section `s` placed. */
  ghost predicate State(m: Metrics, pages: seq<Page>, used: int, s: Section, start: nat, first: int, rest: int) {
    && pages != [] && used == PageCost(m, pages[|pages| - 1]) && PagesOk(m, pages, first, rest)
    && start <= |s.names|
    && (if 0 < start < |s.names| then
          pages[|pages| - 1] == [] && LastPage(m, pages, m.name(s.names[start]), first, rest)
        else |pages| > 1 ==> pages[|pages| - 1] != [])
  }

  /** The next block of a section, on this page or a new one. */
  method PlaceBlock(m: Metrics, pages: seq<Page>, used: nat, s: Section, start: nat, first: int, rest: int,
                    ghost before: seq<Section>)
    returns (pages': seq<Page>, used': nat, n: nat)
    requires Positive(m)
    requires start < |s.names| && State(m, pages, used, s, start, first, rest)
    requires Rejoined(Blocks(pages)) == Told(UpTo(before, s, start))
    ensures 1 <= n <= |s.names| - start
    ensures pages' != [] && pages'[|pages'| - 1] != [] && used' == PageCost(m, pages'[|pages'| - 1])
    ensures PagesOk(m, pages', first, rest) && Rejoined(Blocks(pages')) == Told(UpTo(before, s, start + n))
    ensures start + n < |s.names| ==> used' + m.name(s.names[start + n]) > Capacity(|pages'| - 1, first, rest)
  {
    var continued, remaining := start > 0, s.names[start..];
    var heading := m.heading(s.position, continued);
    ghost var lead := (if continued then 0 else heading) + m.name(remaining[0]);
    pages', used' := TurnPage(m, pages, used, heading, remaining[0], lead, first, rest);
    var cost;
    n, cost := TakeNames(m, remaining, used', heading, Capacity(|pages'| - 1, first, rest));
    var b := Block(s.position, continued, start, remaining[..n]);
    assert b.names == s.names[start..start + n] && b.names[0] == remaining[0];
    BlockPlaced(m, pages', used', b, before, s, start, n, first, rest);
    pages', used' := AddBlock(pages', b), used' + cost;
  }

  lemma OneName(m: Metrics, names: seq<string>)
    requires names != []
    ensures |names| == 1 ==> NamesCost(m, names) == m.name(names[0])
  {
    if |names| == 1 {
      assert names[..0] == [];
    }
  }

  lemma BlockFits(m: Metrics, page: Page, b: Block, heading: nat, capacity: int)
    requires b.names != [] && heading == m.heading(b.position, b.continued)
    requires |b.names| > 1 ==> PageCost(m, page) + BlockCost(m, b) <= capacity
    requires page != [] ==> PageCost(m, page) + heading + m.name(b.names[0]) <= capacity
    ensures Fits(m, page + [b], capacity)
  {
    AddBlockCost(m, page, b);
    OneName(m, b.names);
  }

  lemma BlockPlaced(m: Metrics, pages: seq<Page>, used: nat, b: Block, before: seq<Section>, s: Section, start: nat,
                    n: nat, first: int, rest: int)
    requires pages != [] && used == PageCost(m, pages[|pages| - 1])
    requires PagesOk(m, pages, first, rest)
    requires start <= |s.names| && Rejoined(Blocks(pages)) == Told(UpTo(before, s, start))
    requires 1 <= n <= |s.names| - start && b == Block(s.position, start > 0, start, s.names[start..start + n])
    requires LastPage(m, pages, Lead(m, b), first, rest)
    requires var capacity := Capacity(|pages| - 1, first, rest);
             && (n > 1 ==> used + BlockCost(m, b) <= capacity)
             && (pages[|pages| - 1] != [] ==>
                   used + m.heading(b.position, b.continued) + m.name(b.names[0]) <= capacity)
    ensures PagesOk(m, AddBlock(pages, b), first, rest)
    ensures Rejoined(Blocks(AddBlock(pages, b))) == Told(UpTo(before, s, start + n))
    ensures PageCost(m, AddBlock(pages, b)[|pages| - 1]) == used + BlockCost(m, b)
  {
    var page := pages[|pages| - 1];
    BlockFits(m, page, b, m.heading(b.position, b.continued), Capacity(|pages| - 1, first, rest));
    AddBlockCost(m, page, b);
    PlacedOneMore(Blocks(pages), before, s, start, n);
    AddBlockBlocks(pages, b);
    AddBlockOk(m, pages, b, first, rest);
  }

  lemma NextPageState(m: Metrics, pages: seq<Page>, used: nat, s: Section, start: nat, first: int, rest: int)
    requires pages != [] && pages[|pages| - 1] != [] && used == PageCost(m, pages[|pages| - 1])
    requires PagesOk(m, pages, first, rest)
    requires 0 < start < |s.names| && used + m.name(s.names[start]) > Capacity(|pages| - 1, first, rest)
    ensures State(m, pages + [[]], 0, s, start, first, rest)
  {
    NextPageOk(m, pages, first, rest);
  }

  /** The next block, and a new page behind it if names remain. */
  method PlaceNext(m: Metrics, pages: seq<Page>, used: nat, s: Section, start: nat, first: int, rest: int,
                   ghost before: seq<Section>)
    returns (pages': seq<Page>, used': nat, n: nat)
    requires Positive(m)
    requires start < |s.names| && State(m, pages, used, s, start, first, rest)
    requires Rejoined(Blocks(pages)) == Told(UpTo(before, s, start))
    ensures 1 <= n <= |s.names| - start
    ensures State(m, pages', used', s, start + n, first, rest)
    ensures Rejoined(Blocks(pages')) == Told(UpTo(before, s, start + n))
  {
    pages', used', n := PlaceBlock(m, pages, used, s, start, first, rest, before);
    if start + n < |s.names| {
      NextPageState(m, pages', used', s, start + n, first, rest);
      NextPageBlocks(pages');
      pages', used' := pages' + [[]], 0;
    } else {
      DoneState(m, pages', used', s, first, rest);
    }
  }

  lemma DoneState(m: Metrics, pages: seq<Page>, used: nat, s: Section, first: int, rest: int)
    requires pages != [] && pages[|pages| - 1] != [] && used == PageCost(m, pages[|pages| - 1])
    requires PagesOk(m, pages, first, rest)
    ensures State(m, pages, used, s, |s.names|, first, rest)
  {
  }

  method PlaceSection(m: Metrics, pages: seq<Page>, used: nat, s: Section, first: int, rest: int,
                      ghost before: seq<Section>)
    returns (pages': seq<Page>, used': nat)
    requires Positive(m)
    requires State(m, pages, used, s, 0, first, rest)
    requires Rejoined(Blocks(pages)) == Told(UpTo(before, s, 0))
    ensures State(m, pages', used', s, |s.names|, first, rest)
    ensures Rejoined(Blocks(pages')) == Told(UpTo(before, s, |s.names|))
  {
    pages', used' := pages, used;
    var start, n := 0, 0;
    while start < |s.names|
      invariant start <= |s.names|
      invariant State(m, pages', used', s, start, first, rest)
      invariant Rejoined(Blocks(pages')) == Told(UpTo(before, s, start))
    {
      pages', used', n := PlaceNext(m, pages', used', s, start, first, rest, before);
      start := start + n;
    }
  }

  lemma AddBlockCost(m: Metrics, page: Page, b: Block)
    ensures PageCost(m, page + [b]) == PageCost(m, page) + BlockCost(m, b)
  {
    assert (page + [b])[..|page|] == page;
  }

  /** A new page if not even the heading and the next name fit under what is on this one; `lead` is what they would have
      added to the page before. */
  method TurnPage(m: Metrics, pages: seq<Page>, used: nat, heading: nat, name: string, ghost lead: nat, first: int,
                  rest: int)
    returns (pages': seq<Page>, used': nat)
    requires Positive(m)
    requires pages != [] && used == PageCost(m, pages[|pages| - 1]) && PagesOk(m, pages, first, rest)
    requires LastPage(m, pages, lead, first, rest) && (pages[|pages| - 1] != [] ==> lead == heading + m.name(name))
    ensures pages' != [] && used' == PageCost(m, pages'[|pages'| - 1]) && PagesOk(m, pages', first, rest)
    ensures Blocks(pages') == Blocks(pages) && LastPage(m, pages', lead, first, rest)
    ensures pages'[|pages'| - 1] != [] ==> used' + heading + m.name(name) <= Capacity(|pages'| - 1, first, rest)
  {
    pages', used' := pages, used;
    EmptyCostsNothing(m, pages[|pages| - 1]);
    if used > 0 && used + heading + m.name(name) > Capacity(|pages| - 1, first, rest) {
      NextPageOk(m, pages, first, rest);
      NextPageBlocks(pages);
      pages', used' := pages + [[]], 0;
    }
  }

  lemma EmptyCostsNothing(m: Metrics, page: Page)
    requires Positive(m)
    ensures PageCost(m, page) > 0 <==> page != []
  {
  }

  /** The blocks give back every section that has names, in order and numbered through; every page is within its capacity,
      or is one block with one name, and none is ended before it is full. */
  method Layout(m: Metrics, sections: seq<Section>, first: int, rest: int) returns (pages: seq<Page>)
    requires Positive(m)
    ensures Rejoined(Blocks(pages)) == Told(Named(sections))
    ensures pages != [] && PagesOk(m, pages, first, rest)
    ensures |pages| > 1 ==> pages[|pages| - 1] != []
  {
    pages := [[]];
    var used := 0;
    NextPageBlocks([]);
    for k := 0 to |sections|
      invariant Rejoined(Blocks(pages)) == Told(Named(sections[..k]))
      invariant pages != [] && used == PageCost(m, pages[|pages| - 1]) && PagesOk(m, pages, first, rest)
      invariant |pages| > 1 ==> pages[|pages| - 1] != []
    {
      var s := sections[k];
      pages, used := PlaceSection(m, pages, used, s, first, rest, Named(sections[..k]));
      assert sections[..k + 1][..k] == sections[..k];
      assert s.names[..|s.names|] == s.names;
    }
    assert sections[..|sections|] == sections;
  }

  method Paginate(sections: seq<Section>) returns (pages: seq<Page>)
    ensures Rejoined(Blocks(pages)) == Told(Named(sections))
    ensures PagesOk(Sheet(), pages, FIRST_PAGE_PX, NEXT_PAGE_PX)
  {
    pages := Layout(Sheet(), sections, FIRST_PAGE_PX, NEXT_PAGE_PX);
  }

  lemma {:induction false} WrapsUpTo(length: nat, per: nat, lines: nat)
    requires per > 0 && lines > 0 && length <= per * lines
    ensures Wraps(length, per) <= lines
  {
    if length > per {
      assert per * lines == per * (lines - 1) + per;
      WrapsUpTo(length - per, per, lines - 1);
    }
  }

  /** A name or title of `lines` lines costs 27 px a line, or 36 px and 18 px for each further line; continuing a section adds
      twelve characters to its title. */
  lemma SheetCosts(text: string, lines: nat)
    requires lines > 0
    ensures (lines == 1 || 48 * (lines - 1) < |text|) && |text| <= 48 * lines ==> Sheet().name(text) == 27 * lines
    ensures (lines == 1 || 36 * (lines - 1) < |text|) && |text| <= 36 * lines ==>
              Sheet().heading(text, false) == 36 + 18 * (lines - 1)
    ensures (lines == 1 || 36 * (lines - 1) < |text| + 12) && |text| + 12 <= 36 * lines ==>
              Sheet().heading(text, true) == 36 + 18 * (lines - 1)
  {
    WrapsExactly(|text|, 48, lines);
    WrapsExactly(|text|, 36, lines);
    WrapsExactly(|text| + 12, 36, lines);
    assert |" (continued)"| == 12;
  }

  lemma WrapsExactly(length: nat, per: nat, lines: nat)
    requires per > 0 && lines > 0
    ensures (lines == 1 || per * (lines - 1) < length) && length <= per * lines ==> Wraps(length, per) == lines
  {
    WrapsIsLeast(length, per);
    if (lines == 1 || per * (lines - 1) < length) && length <= per * lines {
      WrapsUpTo(length, per, lines);
      if Wraps(length, per) < lines {
        Product(per, Wraps(length, per), lines - 1);
      }
    }
  }

  lemma Product(per: nat, a: nat, b: nat)
    requires a <= b
    ensures per * a <= per * b
  {
  }

  /** A page over its capacity is one heading with one name that the page could not hold. With the capacities of the printed
      sheet that takes a title or a name of ten lines: up to there every page is within its capacity. */
  lemma SheetsFit(pages: seq<Page>, i: nat)
    requires PagesOk(Sheet(), pages, FIRST_PAGE_PX, NEXT_PAGE_PX) && i < |pages|
    requires forall b :: b in pages[i] ==> |b.position| <= 348 && forall name :: name in b.names ==> |name| <= 480
    ensures PageCost(Sheet(), pages[i]) <= if i == 0 then 620 else 715
  {
    assert PageOk(Sheet(), pages, i, FIRST_PAGE_PX, NEXT_PAGE_PX);
    var page := pages[i];
    if |page| == 1 && |page[0].names| == 1 {
      var b := page[0];
      assert page == [] + [b];
      AddBlockCost(Sheet(), [], b);
      OneName(Sheet(), b.names);
      assert b.names[0] in b.names && b in page;
      WrapsUpTo(|b.names[0]|, NAME_CHARS, 10);
      WrapsUpTo(|b.position| + if b.continued then |" (continued)"| else 0, HEADING_CHARS, 10);
    }
  }
}
