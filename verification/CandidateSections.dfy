/** The sections of an official list: candidates in ballot order, grouped by position. */
module CandidateSections {

  datatype Cand = Cand(id: string, order: int, position: string, name: string)

  datatype Section = Section(position: string, names: seq<string>)

  // ---------- the order of the ballot ----------

  predicate Less(a: string, b: string) {
    b != "" && (a == "" || a[0] < b[0] || (a[0] == b[0] && Less(a[1..], b[1..])))
  }

  lemma {:induction false} LessTotal(a: string, b: string)
    ensures a == b || Less(a, b) || Less(b, a)
    ensures !(Less(a, b) && (a == b || Less(b, a)))
  {
    if a != "" && b != "" {
      LessTotal(a[1..], b[1..]);
      assert a == [a[0]] + a[1..] && b == [b[0]] + b[1..];
    }
  }

  lemma {:induction false} LessTrans(a: string, b: string, c: string)
    requires Less(a, b) && Less(b, c)
    ensures Less(a, c)
  {
    if a != "" && a[0] == b[0] == c[0] {
      LessTrans(a[1..], b[1..], c[1..]);
    }
  }

  predicate Before(a: Cand, b: Cand) {
    a.order < b.order || (a.order == b.order && (Less(a.position, b.position) || (a.position == b.position && Less(a.id, b.id))))
  }

  lemma BeforeTotal(a: Cand, b: Cand)
    requires a.id != b.id
    ensures Before(a, b) || Before(b, a)
    ensures !(Before(a, b) && Before(b, a))
  {
    LessTotal(a.position, b.position);
    LessTotal(a.id, b.id);
  }

  lemma BeforeTrans(a: Cand, b: Cand, c: Cand)
    requires Before(a, b) && Before(b, c)
    ensures Before(a, c)
  {
    if Less(a.position, b.position) && Less(b.position, c.position) {
      LessTrans(a.position, b.position, c.position);
    }
    if Less(a.id, b.id) && Less(b.id, c.id) {
      LessTrans(a.id, b.id, c.id);
    }
  }

  /** The texts agree up to `k`, where `a` ends or has the smaller character. */
  predicate DiffersAt(a: string, b: string, k: nat) {
    k <= |a| && k < |b| && a[..k] == b[..k] && (k < |a| ==> a[k] < b[k])
  }

  lemma DiffersLater(a: string, b: string, k: nat)
    requires a != "" && b != "" && a[0] == b[0]
    ensures DiffersAt(a, b, k + 1) <==> DiffersAt(a[1..], b[1..], k)
    ensures !DiffersAt(a, b, 0)
  {
    if k + 1 <= |a| && k + 1 <= |b| {
      assert a[..k + 1] == [a[0]] + a[1..][..k] && b[..k + 1] == [b[0]] + b[1..][..k];
      assert a[..k + 1][1..] == a[1..][..k] && b[..k + 1][1..] == b[1..][..k];
    }
  }

  lemma DiffersAtOnce(a: string, b: string, k: nat)
    requires a != "" && b != "" && a[0] != b[0]
    ensures DiffersAt(a, b, k) <==> k == 0 && a[0] < b[0]
  {
    if 0 < k <= |a| && k <= |b| {
      assert a[..k][0] == a[0] && b[..k][0] == b[0];
    }
  }

  /** Texts are ordered by the first character in which they differ, and a text comes before its continuations. */
  lemma {:induction false} LessIff(a: string, b: string)
    ensures Less(a, b) <==> exists k: nat :: DiffersAt(a, b, k)
  {
    if a == "" || b == "" {
      assert b != "" ==> DiffersAt(a, b, 0);
    } else if a[0] != b[0] {
      DiffersAtOnce(a, b, 0);
      forall k: nat
        ensures DiffersAt(a, b, k) <==> k == 0 && a[0] < b[0]
      {
        DiffersAtOnce(a, b, k);
      }
    } else {
      LessIff(a[1..], b[1..]);
      forall k: nat
        ensures DiffersAt(a, b, k + 1) <==> DiffersAt(a[1..], b[1..], k)
        ensures !DiffersAt(a, b, 0)
      {
        DiffersLater(a, b, k);
      }
      if k: nat :| DiffersAt(a, b, k) {
        DiffersLater(a, b, if k == 0 then 0 else k - 1);
        assert DiffersAt(a[1..], b[1..], k - 1);
      }
    }
  }

  predicate DistinctIds(rows: seq<Cand>) {
    forall i, j :: 0 <= i < j < |rows| ==> rows[i].id != rows[j].id
  }

  predicate InOrder(rows: seq<Cand>) {
    forall i, j :: 0 <= i < j < |rows| ==> Before(rows[i], rows[j])
  }

  /** In ballot order the order numbers ascend, candidates of equal number go by the text of their position, and those of one
      position by their id. */
  lemma InOrderIff(rows: seq<Cand>)
    ensures InOrder(rows) <==> forall i, j :: 0 <= i < j < |rows| ==>
              && rows[i].order <= rows[j].order
              && (rows[i].order == rows[j].order ==>
                    || Less(rows[i].position, rows[j].position)
                    || (rows[i].position == rows[j].position && Less(rows[i].id, rows[j].id)))
  {
  }

  /** Same candidates, in whatever order. */
  ghost predicate SameCands(a: seq<Cand>, b: seq<Cand>) {
    forall c :: c in a <==> c in b
  }

  method SortRows(rows: seq<Cand>) returns (r: seq<Cand>)
    requires DistinctIds(rows)
    ensures InOrder(r) && SameCands(r, rows) && |r| == |rows|
  {
    r := [];
    for i := 0 to |rows|
      invariant InOrder(r) && SameCands(r, rows[..i]) && |r| == i
    {
      var c := rows[i];
      var k := 0;
      while k < |r| && Before(r[k], c)
        invariant 0 <= k <= |r|
        invariant forall j :: 0 <= j < k ==> Before(r[j], c)
      {
        k := k + 1;
      }
      InsertInOrder(r, k, c, rows, i);
      assert rows[..i + 1] == rows[..i] + [c];
      r := r[..k] + [c] + r[k..];
    }
    assert rows[..|rows|] == rows;
  }

  lemma InsertInOrder(r: seq<Cand>, k: nat, c: Cand, rows: seq<Cand>, i: nat)
    requires DistinctIds(rows) && i < |rows| && c == rows[i]
    requires InOrder(r) && SameCands(r, rows[..i]) && k <= |r|
    requires forall j :: 0 <= j < k ==> Before(r[j], c)
    requires k < |r| ==> !Before(r[k], c)
    ensures InOrder(r[..k] + [c] + r[k..])
    ensures forall d :: d in r[..k] + [c] + r[k..] <==> d in r || d == c
  {
    assert r == r[..k] + r[k..];
    forall j | k <= j < |r|
      ensures Before(c, r[j])
    {
      assert r[k] in rows[..i];
      BeforeTotal(r[k], c);
      if k < j {
        BeforeTrans(c, r[k], r[j]);
      }
    }
    Inserted(r, k, c);
  }

  lemma Inserted(r: seq<Cand>, k: nat, c: Cand)
    requires InOrder(r) && k <= |r|
    requires forall j :: 0 <= j < k ==> Before(r[j], c)
    requires forall j :: k <= j < |r| ==> Before(c, r[j])
    ensures InOrder(r[..k] + [c] + r[k..])
  {
    var q := r[..k] + [c] + r[k..];
    forall i, j | 0 <= i < j < |q|
      ensures Before(q[i], q[j])
    {
      assert q[i] == (if i < k then r[i] else if i == k then c else r[i - 1]);
      assert q[j] == (if j < k then r[j] else if j == k then c else r[j - 1]);
    }
  }

  lemma {:induction false} OrderUnique(a: seq<Cand>, b: seq<Cand>)
    requires InOrder(a) && InOrder(b) && SameCands(a, b)
    ensures a == b
  {
    if b != [] {
      assert b[0] in a;
    }
    if a != [] {
      assert a[0] in b;
      assert b[0] in a;
      var i :| 0 <= i < |b| && b[i] == a[0];
      var j :| 0 <= j < |a| && a[j] == b[0];
      if i > 0 && j > 0 {
        NotBoth(a[0], b[0]);
      }
      assert a[0] == b[0];
      TailsSame(a, b);
      OrderUnique(a[1..], b[1..]);
      assert a == [a[0]] + a[1..] && b == [b[0]] + b[1..];
    }
  }

  lemma NotBoth(a: Cand, b: Cand)
    ensures !(Before(a, b) && Before(b, a))
  {
    LessTotal(a.position, b.position);
    LessTotal(a.id, b.id);
  }

  lemma TailsSame(a: seq<Cand>, b: seq<Cand>)
    requires InOrder(a) && InOrder(b) && SameCands(a, b) && a != [] && b != [] && a[0] == b[0]
    ensures SameCands(a[1..], b[1..])
  {
    forall c
      ensures c in a[1..] <==> c in b[1..]
    {
      assert c in a <==> c in b;
      NotBoth(a[0], a[0]);
      assert a == [a[0]] + a[1..] && b == [b[0]] + b[1..];
    }
  }

  // ---------- grouping ----------

  /** Whitespace as Python's `str.split` takes it. */
  predicate Blank(c: char) {
    var n := c as int;
    || 0x09 <= n <= 0x0D || 0x1C <= n <= 0x20 || n == 0x85 || n == 0xA0 || n == 0x1680 || 0x2000 <= n <= 0x200A
    || n == 0x2028 || n == 0x2029 || n == 0x202F || n == 0x205F || n == 0x3000
  }

  /** Runs of blanks become one space, and none is left at the ends. */
  function Squash(s: string): string {
    SquashFrom(s, "", false)
  }

  function SquashFrom(s: string, done: string, gap: bool): string
    decreases s
  {
    if s == "" then done
    else if Blank(s[0]) then SquashFrom(s[1..], done, done != "")
    else SquashFrom(s[1..], done + (if gap then " " else "") + [s[0]], false)
  }

  /** No blank at either end, and no two together. */
  predicate Tidy(s: string) {
    && (s != "" ==> !Blank(s[0]) && !Blank(s[|s| - 1]))
    && (forall i :: 0 <= i < |s| && Blank(s[i]) ==> s[i] == ' ')
    && (forall i :: 0 <= i < |s| - 1 ==> !(Blank(s[i]) && Blank(s[i + 1])))
  }

  lemma {:induction false} SquashTidies(s: string, done: string, gap: bool)
    requires Tidy(done) && (gap ==> done != "")
    ensures Tidy(SquashFrom(s, done, gap))
    decreases s
  {
    if s != "" {
      if Blank(s[0]) {
        SquashTidies(s[1..], done, done != "");
      } else {
        SquashTidies(s[1..], done + (if gap then " " else "") + [s[0]], false);
      }
    }
  }

  lemma {:induction false} TidyKept(s: string, i: nat, gap: bool)
    requires Tidy(s) && i <= |s|
    requires if gap then 0 < i < |s| && Blank(s[i - 1]) else i == 0 || !Blank(s[i - 1])
    ensures SquashFrom(s[i..], if gap then s[..i - 1] else s[..i], gap) == s
    decreases |s| - i
  {
    var done := if gap then s[..i - 1] else s[..i];
    if i == |s| {
      assert s[..i] == s;
    } else if Blank(s[i]) {
      TidyKept(s, i + 1, true);
      assert s[..i + 1 - 1] == done;
    } else {
      TidyKept(s, i + 1, false);
      assert s[..i + 1] == done + (if gap then " " else "") + [s[i]];
    }
  }

  /** Squashing changes nothing more the second time. */
  lemma SquashTwice(s: string)
    ensures Tidy(Squash(s)) && Squash(Squash(s)) == Squash(s)
  {
    SquashTidies(s, "", false);
    TidyKept(Squash(s), 0, false);
  }

  // ---------- what a normalised text keeps ----------

  predicate EndsBlank(s: string) {
    s != "" && Blank(s[|s| - 1])
  }

  /** The characters of a text that are not blank, and whether a blank separates each from the one before. */
  function Marked(s: string): seq<(char, bool)> {
    if s == "" then []
    else
      var init, c := s[..|s| - 1], s[|s| - 1];
      if Blank(c) then Marked(init) else Marked(init) + [(c, EndsBlank(init) && Marked(init) != [])]
  }

  lemma MarkedMore(s: string, c: char)
    ensures Marked(s + [c]) == if Blank(c) then Marked(s) else Marked(s) + [(c, EndsBlank(s) && Marked(s) != [])]
  {
    assert (s + [c])[..|s|] == s;
  }

  lemma {:induction false} MarkedStarts(s: string)
    requires s != "" && !Blank(s[0])
    ensures Marked(s) != []
  {
    if |s| > 1 {
      MarkedStarts(s[..|s| - 1]);
    }
  }

  /** `done` is the normalised part of a text after `before`. */
  predicate Reached(before: string, done: string, gap: bool) {
    Marked(done) == Marked(before) && Tidy(done) && (gap <==> done != "" && EndsBlank(before))
  }

  lemma BlankNext(before: string, c: char, done: string, gap: bool)
    requires Reached(before, done, gap) && Blank(c)
    ensures Reached(before + [c], done, done != "")
  {
    MarkedMore(before, c);
  }

  lemma LetterNext(before: string, c: char, done: string, gap: bool)
    requires Reached(before, done, gap) && !Blank(c)
    ensures Reached(before + [c], done + (if gap then " " else "") + [c], false)
  {
    TidyNext(done, c, gap);
    MarkedMore(before, c);
    if gap {
      MarkedStarts(done);
      MarkedMore(done, ' ');
      MarkedMore(done + " ", c);
    } else {
      assert done + "" == done;
      MarkedMore(done, c);
      NoGap(before, done);
    }
  }

  lemma TidyNext(done: string, c: char, gap: bool)
    requires Tidy(done) && !Blank(c) && (gap ==> done != "")
    ensures Tidy(done + (if gap then " " else "") + [c])
  {
  }

  lemma NoGap(before: string, done: string)
    requires Reached(before, done, false)
    ensures !EndsBlank(done) && (EndsBlank(before) ==> Marked(before) == [])
  {
  }

  lemma {:induction false} SquashMarked(before: string, s: string, done: string, gap: bool)
    requires Reached(before, done, gap)
    ensures Marked(SquashFrom(s, done, gap)) == Marked(before + s)
    decreases s
  {
    if s == "" {
      assert before + s == before;
    } else {
      assert before + [s[0]] + s[1..] == before + s;
      if Blank(s[0]) {
        BlankNext(before, s[0], done, gap);
        SquashMarked(before + [s[0]], s[1..], done, done != "");
      } else {
        LetterNext(before, s[0], done, gap);
        SquashMarked(before + [s[0]], s[1..], done + (if gap then " " else "") + [s[0]], false);
      }
    }
  }

  /** Normalising keeps every character that is not blank, in order, and which of them are apart. */
  lemma SquashKeepsText(s: string)
    ensures Marked(Squash(s)) == Marked(s)
  {
    SquashMarked("", s, "", false);
    assert "" + s == s;
  }

  /** Of ASCII the blanks are the space, the five from tab to carriage return, and the four separators. */
  lemma BlankAscii(c: char)
    requires c as int < 0x80
    ensures Blank(c) <==> c == ' ' || c == '\t' || c == '\n' || c == '\U{0B}' || c == '\U{0C}' || c == '\r'
                          || '\U{1C}' <= c <= '\U{1F}'
  {
  }

  /** The separators beyond ASCII: the next line, the spaces of one width or another, and the ends of a line or paragraph. */
  const SEPARATORS: set<char> := {
    '\U{85}', '\U{A0}', '\U{1680}', '\U{2000}', '\U{2001}', '\U{2002}', '\U{2003}', '\U{2004}', '\U{2005}', '\U{2006}',
    '\U{2007}', '\U{2008}', '\U{2009}', '\U{200A}', '\U{2028}', '\U{2029}', '\U{202F}', '\U{205F}', '\U{3000}'
  }

  lemma BlankBeyondAscii(c: char)
    requires c as int >= 0x80
    ensures Blank(c) <==> c in SEPARATORS
  {
  }

  predicate Listed(c: Cand) {
    Squash(c.name) != ""
  }

  /** The listed names of one position. */
  function NamesFor(rows: seq<Cand>, position: string): seq<string> {
    if rows == [] then []
    else
      var c := rows[|rows| - 1];
      NamesFor(rows[..|rows| - 1], position)
      + if Listed(c) && Squash(c.position) == position then [Squash(c.name)] else []
  }

  /** Positions by first appearance. */
  function Positions(rows: seq<Cand>): seq<string> {
    if rows == [] then []
    else
      var ps, c := Positions(rows[..|rows| - 1]), rows[|rows| - 1];
      if Listed(c) && Squash(c.position) !in ps then ps + [Squash(c.position)] else ps
  }

  function Grouped(rows: seq<Cand>): (r: seq<Section>) {
    seq(|Positions(rows)|, i requires 0 <= i < |Positions(rows)| =>
      Section(Positions(rows)[i], NamesFor(rows, Positions(rows)[i])))
  }

  /** The sections of `rows`, place by place. */
  ghost predicate Holds(sections: seq<Section>, rows: seq<Cand>) {
    && |sections| == |Positions(rows)|
    && forall i :: 0 <= i < |sections| ==> sections[i] == Section(Positions(rows)[i], NamesFor(rows, Positions(rows)[i]))
  }

  /** Where each position's section is. */
  ghost predicate Indexes(byPosition: map<string, nat>, rows: seq<Cand>) {
    && (forall p :: p in byPosition <==> p in Positions(rows))
    && (forall p :: p in byPosition ==> byPosition[p] < |Positions(rows)| && Positions(rows)[byPosition[p]] == p)
  }

  method AddRow(sections: seq<Section>, byPosition: map<string, nat>, c: Cand, ghost rows: seq<Cand>)
    returns (sections': seq<Section>, byPosition': map<string, nat>)
    requires Holds(sections, rows) && Indexes(byPosition, rows)
    ensures Holds(sections', rows + [c]) && Indexes(byPosition', rows + [c])
  {
    sections', byPosition' := sections, byPosition;
    var name, position := Squash(c.name), Squash(c.position);
    assert (rows + [c])[..|rows|] == rows;
    PositionsDistinct(rows);
    if name == "" {
      return;
    }
    if position !in byPosition' {
      NamesNowhere(rows, position);
      byPosition' := byPosition'[position := |sections'|];
      sections' := sections' + [Section(position, [])];
    }
    var k := byPosition'[position];
    sections' := sections'[k := Section(position, sections'[k].names + [name])];
  }

  method BuildSections(candidates: seq<Cand>) returns (sections: seq<Section>)
    requires DistinctIds(candidates)
    ensures exists rows :: InOrder(rows) && SameCands(rows, candidates) && |rows| == |candidates| && sections == Grouped(rows)
  {
    var rows := SortRows(candidates);
    sections := [];
    var byPosition: map<string, nat> := map[];
    for i := 0 to |rows|
      invariant Holds(sections, rows[..i]) && Indexes(byPosition, rows[..i])
    {
      assert rows[..i + 1] == rows[..i] + [rows[i]];
      sections, byPosition := AddRow(sections, byPosition, rows[i], rows[..i]);
    }
    assert rows[..|rows|] == rows;
    assert sections == Grouped(rows);
  }

  lemma {:induction false} PositionsDistinct(rows: seq<Cand>)
    ensures forall i, j :: 0 <= i < j < |Positions(rows)| ==> Positions(rows)[i] != Positions(rows)[j]
  {
    if rows != [] {
      PositionsDistinct(rows[..|rows| - 1]);
    }
  }

  lemma {:induction false} NamesNowhere(rows: seq<Cand>, position: string)
    ensures position in Positions(rows) <==> NamesFor(rows, position) != []
  {
    if rows != [] {
      NamesNowhere(rows[..|rows| - 1], position);
    }
  }

  /** However the database returns the candidates, the list comes out the same: only a real difference is reissued. */
  lemma OrderIrrelevant(rows1: seq<Cand>, rows2: seq<Cand>, cands1: seq<Cand>, cands2: seq<Cand>)
    requires InOrder(rows1) && SameCands(rows1, cands1) && InOrder(rows2) && SameCands(rows2, cands2)
    requires SameCands(cands1, cands2)
    ensures Grouped(rows1) == Grouped(rows2)
  {
    OrderUnique(rows1, rows2);
  }

  function Occurs(names: seq<string>, name: string): nat {
    if names == [] then 0 else Occurs(names[..|names| - 1], name) + if names[|names| - 1] == name then 1 else 0
  }

  /** How many candidates have this name and position once normalised. */
  function Called(rows: seq<Cand>, position: string, name: string): nat {
    if rows == [] then 0
    else
      var c := rows[|rows| - 1];
      Called(rows[..|rows| - 1], position, name)
      + if Squash(c.name) == name && Squash(c.position) == position then 1 else 0
  }

  /** A position lists each name as often as candidates of that position have it, and nothing without a name. */
  lemma {:induction false} NamesAreCandidates(rows: seq<Cand>, position: string, name: string)
    ensures Occurs(NamesFor(rows, position), name) == if name == "" then 0 else Called(rows, position, name)
  {
    if rows != [] {
      var init, c := rows[..|rows| - 1], rows[|rows| - 1];
      NamesAreCandidates(init, position, name);
      var before := NamesFor(init, position);
      assert before + [] == before && (before + [Squash(c.name)])[..|before|] == before;
    }
  }

  /** The candidates of `rows` that a position lists. */
  function ListedAt(rows: seq<Cand>, position: string): (s: set<nat>) {
    set j: nat | j < |rows| && Squash(rows[j].name) != "" && Squash(rows[j].position) == position
  }

  lemma ListedAtMore(rows: seq<Cand>, c: Cand, position: string)
    ensures |ListedAt(rows + [c], position)|
            == |ListedAt(rows, position)| + if Squash(c.name) != "" && Squash(c.position) == position then 1 else 0
  {
    var n := |rows|;
    if Squash(c.name) != "" && Squash(c.position) == position {
      assert ListedAt(rows + [c], position) == ListedAt(rows, position) + {n};
    } else {
      assert ListedAt(rows + [c], position) == ListedAt(rows, position);
    }
  }

  lemma {:induction false} NamesCounted(rows: seq<Cand>, position: string)
    ensures |NamesFor(rows, position)| == |ListedAt(rows, position)|
  {
    if rows != [] {
      var n := |rows| - 1;
      NamesCounted(rows[..n], position);
      assert rows == rows[..n] + [rows[n]];
      ListedAtMore(rows[..n], rows[n], position);
    }
  }

  /** Names stand in the order of their candidates: each after as many as there are listed candidates of its position before. */
  lemma {:induction false} NamesInOrder(rows: seq<Cand>, position: string, i: nat)
    requires i < |rows| && Squash(rows[i].name) != "" && Squash(rows[i].position) == position
    ensures var k := |ListedAt(rows[..i], position)|;
            k < |NamesFor(rows, position)| && NamesFor(rows, position)[k] == Squash(rows[i].name)
  {
    var n := |rows| - 1;
    NamesCounted(rows[..i], position);
    if i < n {
      NamesInOrder(rows[..n], position, i);
      assert rows[..n][..i] == rows[..i];
    }
  }

  /** Sections stand in the order in which their positions first appear: before each there has been one of every earlier
      section. */
  lemma {:induction false} PositionsInOrder(rows: seq<Cand>, i: nat, j: nat, b: nat)
    requires i < j < |Positions(rows)| && b < |rows|
    requires Squash(rows[b].name) != "" && Squash(rows[b].position) == Positions(rows)[j]
    ensures exists a :: 0 <= a < b && Squash(rows[a].name) != "" && Squash(rows[a].position) == Positions(rows)[i]
  {
    var n := |rows| - 1;
    PositionsDistinct(rows);
    if b < n && j < |Positions(rows[..n])| {
      PositionsInOrder(rows[..n], i, j, b);
    } else if b < n {
      assert Positions(rows)[j] !in Positions(rows[..n]);
      AllListed(rows[..n], b);
    } else {
      ListedSomewhere(rows[..n], i);
    }
  }

  lemma {:induction false} AllListed(rows: seq<Cand>, b: nat)
    requires b < |rows| && Squash(rows[b].name) != ""
    ensures Squash(rows[b].position) in Positions(rows)
  {
    if b < |rows| - 1 {
      AllListed(rows[..|rows| - 1], b);
    }
  }

  lemma {:induction false} ListedSomewhere(rows: seq<Cand>, i: nat)
    requires i < |Positions(rows)|
    ensures exists a :: 0 <= a < |rows| && Squash(rows[a].name) != "" && Squash(rows[a].position) == Positions(rows)[i]
  {
    var n := |rows| - 1;
    if i < |Positions(rows[..n])| {
      ListedSomewhere(rows[..n], i);
      var a :| 0 <= a < n && Squash(rows[..n][a].name) != "" && Squash(rows[..n][a].position) == Positions(rows[..n])[i];
      assert rows[a] == rows[..n][a];
    } else {
      assert Squash(rows[n].name) != "" && Squash(rows[n].position) == Positions(rows)[i];
    }
  }

  function Count(sections: seq<Section>): nat {
    if sections == [] then 0 else Count(sections[..|sections| - 1]) + |sections[|sections| - 1].names|
  }

  function ListedCount(rows: seq<Cand>): nat {
    if rows == [] then 0 else ListedCount(rows[..|rows| - 1]) + if Listed(rows[|rows| - 1]) then 1 else 0
  }

  lemma {:induction false} CountBy(rows: seq<Cand>, ps: seq<string>)
    requires forall i, j :: 0 <= i < j < |ps| ==> ps[i] != ps[j]
    requires forall p :: p in Positions(rows) ==> p in ps
    ensures NamesTotal(rows, ps) == ListedCount(rows)
  {
    if rows == [] {
      NoNames(ps);
    } else {
      var init, c := rows[..|rows| - 1], rows[|rows| - 1];
      CountBy(init, ps);
      OneMoreName(init, c, ps);
      assert init + [c] == rows;
      if Listed(c) {
        NamesNowhere(rows, Squash(c.position));
      }
    }
  }

  function NamesTotal(rows: seq<Cand>, ps: seq<string>): nat {
    if ps == [] then 0 else NamesTotal(rows, ps[..|ps| - 1]) + |NamesFor(rows, ps[|ps| - 1])|
  }

  lemma {:induction false} NoNames(ps: seq<string>)
    ensures NamesTotal([], ps) == 0
  {
    if ps != [] {
      NoNames(ps[..|ps| - 1]);
    }
  }

  lemma {:induction false} OneMoreName(rows: seq<Cand>, c: Cand, ps: seq<string>)
    requires forall i, j :: 0 <= i < j < |ps| ==> ps[i] != ps[j]
    ensures NamesTotal(rows + [c], ps)
            == NamesTotal(rows, ps) + if Listed(c) && Squash(c.position) in ps then 1 else 0
  {
    assert (rows + [c])[..|rows|] == rows;
    if ps != [] {
      OneMoreName(rows, c, ps[..|ps| - 1]);
    }
  }

  /** Every candidate with a name is on the list exactly once. */
  lemma EveryCandidateOnce(rows: seq<Cand>)
    ensures Count(Grouped(rows)) == ListedCount(rows)
    ensures Grouped(rows) == [] <==> ListedCount(rows) == 0
  {
    PositionsDistinct(rows);
    CountBy(rows, Positions(rows));
    CountIsTotal(rows, Grouped(rows), Positions(rows));
    if Grouped(rows) != [] {
      var p := Positions(rows)[0];
      NamesNowhere(rows, p);
      TotalPositive(rows, Positions(rows));
    }
  }

  lemma {:induction false} CountIsTotal(rows: seq<Cand>, sections: seq<Section>, ps: seq<string>)
    requires |sections| == |ps| && forall i :: 0 <= i < |ps| ==> sections[i].names == NamesFor(rows, ps[i])
    ensures Count(sections) == NamesTotal(rows, ps)
  {
    if ps != [] {
      CountIsTotal(rows, sections[..|ps| - 1], ps[..|ps| - 1]);
    }
  }

  lemma {:induction false} TotalPositive(rows: seq<Cand>, ps: seq<string>)
    requires ps != [] && NamesFor(rows, ps[0]) != []
    ensures NamesTotal(rows, ps) > 0
  {
    if |ps| > 1 {
      TotalPositive(rows, ps[..|ps| - 1]);
    }
  }
}
