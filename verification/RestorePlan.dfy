/** What restoring a verified chain of backup files means: the stream of its documents, their merge by id, and the plan that
    is refused at a document of another tenant. */
module RestorePlan {

  /** `orgId` and `tenant` "" stand for the legacy data without an organisation. */
  datatype Name = Organizations | PlatformSettings | SmsUsage | Tenant(name: string)

  datatype Doc = Doc(id: string, orgId: string, orgKey: string, body: string)

  type Coll = map<string, Doc>
  type Db = map<Name, Coll>

  /** One file of the chain, and the whole chain in apply order: the full first, then the incrementals. */
  datatype File = File(name: Name, docs: seq<Doc>)

  type Item = (Name, Doc)

  // ---------- ownership ----------

  function OrDefault(s: string): string {
    if s == "" then "default" else s
  }

  predicate Filter(name: Name, orgId: string, d: Doc) {
    match name
    case Organizations => orgId != "" && d.id == orgId
    case PlatformSettings => true
    case SmsUsage => d.orgKey == OrDefault(orgId)
    case Tenant(_) => d.orgId == orgId
  }

  predicate AssertOwned(name: Name, d: Doc, orgId: string, tenant: string) {
    match name
    case Organizations => true
    case PlatformSettings => tenant == "_global"
    case SmsUsage => d.orgKey == OrDefault(tenant)
    case Tenant(_) => d.orgId == orgId
  }

  // ---------- the stream of a chain ----------

  function Items(f: File): seq<Item> {
    seq(|f.docs|, i requires 0 <= i < |f.docs| => (f.name, f.docs[i]))
  }

  predicate Skips(f: File, includeOrg: bool) {
    f.name.Organizations? && !includeOrg
  }

  function Stream(files: seq<File>, includeOrg: bool): seq<Item> {
    if files == [] then []
    else
      var f := files[|files| - 1];
      Stream(files[..|files| - 1], includeOrg) + if Skips(f, includeOrg) then [] else Items(f)
  }

  function DocsOf(items: seq<Item>, n: Name): seq<Doc> {
    if items == [] then []
    else
      var last := items[|items| - 1];
      DocsOf(items[..|items| - 1], n) + if last.0 == n then [last.1] else []
  }

  /** Later documents replace earlier ones with the same id. */
  function Fold(c: Coll, docs: seq<Doc>): Coll {
    if docs == [] then c
    else
      var d := docs[|docs| - 1];
      Fold(c, docs[..|docs| - 1])[d.id := d]
  }

  /** The documents of the files of one collection, file after file. */
  function FileDocs(files: seq<File>, n: Name): seq<Doc> {
    if files == [] then []
    else FileDocs(files[..|files| - 1], n) + if files[|files| - 1].name == n then files[|files| - 1].docs else []
  }

  /** The stream carries every file's documents in order, except that the organisation's own document is left out unless asked
      for. */
  lemma {:induction false} StreamDocs(files: seq<File>, includeOrg: bool, n: Name)
    ensures DocsOf(Stream(files, includeOrg), n) == if n == Organizations && !includeOrg then [] else FileDocs(files, n)
  {
    if files != [] {
      var init, f := files[..|files| - 1], files[|files| - 1];
      StreamDocs(init, includeOrg, n);
      ItemsDocs(f, n, |f.docs|);
      assert Items(f)[..|f.docs|] == Items(f) && f.docs[..|f.docs|] == f.docs;
      DocsConcat(Stream(init, includeOrg), if Skips(f, includeOrg) then [] else Items(f), n);
    }
  }

  lemma {:induction false} ItemsDocs(f: File, n: Name, k: nat)
    requires k <= |f.docs|
    ensures DocsOf(Items(f)[..k], n) == if f.name == n then f.docs[..k] else []
  {
    if k > 0 {
      ItemsDocs(f, n, k - 1);
      assert Items(f)[..k][..k - 1] == Items(f)[..k - 1];
    }
  }

  /** Of several versions of a document the last one is kept. */
  lemma {:induction false} LastWins(docs: seq<Doc>, i: nat)
    requires i < |docs| && forall j :: i < j < |docs| ==> docs[j].id != docs[i].id
    ensures docs[i].id in Fold(map[], docs) && Fold(map[], docs)[docs[i].id] == docs[i]
  {
    if i < |docs| - 1 {
      LastWins(docs[..|docs| - 1], i);
    }
  }

  function NamesOf(items: seq<Item>): set<Name> {
    set i | i in items :: i.0
  }

  function At(db: Db, n: Name): Coll {
    if n in db then db[n] else map[]
  }

  /** One document merged in by its id. */
  function Put(db: Db, n: Name, d: Doc): Db {
    db[n := At(db, n)[d.id := d]]
  }

  function Merged(items: seq<Item>): Db {
    if items == [] then map[]
    else
      var last := items[|items| - 1];
      Put(Merged(items[..|items| - 1]), last.0, last.1)
  }

  lemma {:induction false} MergedAt(items: seq<Item>, n: Name)
    ensures n in Merged(items) <==> n in NamesOf(items)
    ensures At(Merged(items), n) == Fold(map[], DocsOf(items, n))
  {
    if items != [] {
      var init, last := items[..|items| - 1], items[|items| - 1];
      MergedAt(init, n);
      assert items == init + [last];
      NamesOneMore(init, last);
      DocsLast(items, n);
      FoldOneMore(DocsOf(init, n), last.1);
      PutAt(Merged(init), last.0, last.1, n);
    }
  }

  lemma PutAt(db: Db, n: Name, d: Doc, m: Name)
    ensures m in Put(db, n, d) <==> m in db || m == n
    ensures At(Put(db, n, d), m) == if m == n then At(db, n)[d.id := d] else At(db, m)
  {
  }

  lemma DocsLast(items: seq<Item>, n: Name)
    requires items != []
    ensures var init, last := items[..|items| - 1], items[|items| - 1];
            DocsOf(items, n) == if last.0 == n then DocsOf(init, n) + [last.1] else DocsOf(init, n)
  {
    assert DocsOf(items[..|items| - 1], n) + [] == DocsOf(items[..|items| - 1], n);
  }

  lemma NamesOneMore(items: seq<Item>, i: Item)
    ensures NamesOf(items + [i]) == NamesOf(items) + {i.0}
  {
  }

  lemma FoldOneMore(docs: seq<Doc>, d: Doc)
    ensures Fold(map[], docs + [d]) == Fold(map[], docs)[d.id := d]
  {
    assert (docs + [d])[..|docs|] == docs;
  }

  lemma {:induction false} DocsConcat(xs: seq<Item>, ys: seq<Item>, n: Name)
    ensures DocsOf(xs + ys, n) == DocsOf(xs, n) + DocsOf(ys, n)
  {
    if ys == [] {
      assert xs + ys == xs;
    } else {
      assert (xs + ys)[..|xs + ys| - 1] == xs + ys[..|ys| - 1];
      DocsConcat(xs, ys[..|ys| - 1], n);
    }
  }

  lemma {:induction false} FoldConcat(c: Coll, xs: seq<Doc>, ys: seq<Doc>)
    ensures Fold(c, xs + ys) == Fold(Fold(c, xs), ys)
  {
    if ys == [] {
      assert xs + ys == xs;
    } else {
      assert (xs + ys)[..|xs + ys| - 1] == xs + ys[..|ys| - 1];
      FoldConcat(c, xs, ys[..|ys| - 1]);
    }
  }

  lemma {:induction false} FoldOver(c: Coll, docs: seq<Doc>)
    ensures Fold(c, docs) == c + Fold(map[], docs)
  {
    if docs != [] {
      FoldOver(c, docs[..|docs| - 1]);
    }
  }

  lemma {:induction false} FoldKeys(docs: seq<Doc>)
    ensures Fold(map[], docs).Keys == set d | d in docs :: d.id
    ensures forall id :: id in Fold(map[], docs) ==> Fold(map[], docs)[id] in docs && Fold(map[], docs)[id].id == id
  {
    if docs != [] {
      var init, last := docs[..|docs| - 1], docs[|docs| - 1];
      FoldKeys(init);
      assert docs == init + [last];
    }
  }

  lemma {:induction false} NamesHaveDocs(items: seq<Item>, n: Name)
    ensures n in NamesOf(items) <==> DocsOf(items, n) != []
  {
    if items != [] {
      var init, last := items[..|items| - 1], items[|items| - 1];
      assert items == init + [last];
      NamesHaveDocs(init, n);
    }
  }

  // ---------- what a restore leaves ----------

  function Unowned(c: Coll, n: Name, orgId: string): Coll {
    map id | id in c && !Filter(n, orgId, c[id]) :: c[id]
  }

  /** What restoring `items` makes of collection `n`. */
  function Restored(db: Db, items: seq<Item>, n: Name, orgId: string, replace: bool): Coll {
    if n !in NamesOf(items) then At(db, n)
    else Fold(if replace then Unowned(At(db, n), n, orgId) else At(db, n), DocsOf(items, n))
  }

  /** The ids that `items` carries for each collection it mentions. */
  ghost predicate IdsOf(ids: map<Name, set<string>>, items: seq<Item>) {
    && (forall n :: n in ids <==> n in NamesOf(items))
    && forall n :: n in ids ==> ids[n] == Fold(map[], DocsOf(items, n)).Keys
  }

  datatype Planned = Refused | Plan(merged: Db)

  predicate AllOwned(items: seq<Item>, orgId: string, tenant: string) {
    forall i :: 0 <= i < |items| ==> AssertOwned(items[i].0, items[i].1, orgId, tenant)
  }

  /** One file of the chain merged into `merged`, refused at the first document that is not the tenant's. */
  method MergeFile(f: File, merged: Db, ghost before: seq<Item>, orgId: string, tenant: string) returns (p: Planned)
    requires merged == Merged(before) && AllOwned(before, orgId, tenant)
    ensures var items := before + Items(f);
            p == if AllOwned(items, orgId, tenant) then Plan(Merged(items)) else Refused
  {
    var merged' := merged;
    ghost var so := before;
    assert so == before + Items(f)[..0];
    for j := 0 to |f.docs|
      invariant so == before + Items(f)[..j]
      invariant merged' == Merged(so) && AllOwned(so, orgId, tenant)
    {
      if !AssertOwned(f.name, f.docs[j], orgId, tenant) {
        NotAllOwned(before, Items(f), j, orgId, tenant);
        return Refused;
      }
      MergedOneMore(so, f.name, f.docs[j], orgId, tenant);
      so := so + [(f.name, f.docs[j])];
      merged' := Put(merged', f.name, f.docs[j]);
    }
    assert Items(f)[..|f.docs|] == Items(f);
    p := Plan(merged');
  }

  lemma NotAllOwned(before: seq<Item>, items: seq<Item>, j: nat, orgId: string, tenant: string)
    requires j < |items| && !AssertOwned(items[j].0, items[j].1, orgId, tenant)
    ensures !AllOwned(before + items, orgId, tenant)
  {
    assert (before + items)[|before| + j] == items[j];
  }

  lemma MergedOneMore(items: seq<Item>, n: Name, d: Doc, orgId: string, tenant: string)
    ensures Merged(items + [(n, d)]) == Put(Merged(items), n, d)
    ensures AllOwned(items, orgId, tenant) && AssertOwned(n, d, orgId, tenant) ==> AllOwned(items + [(n, d)], orgId, tenant)
  {
    assert (items + [(n, d)])[..|items|] == items;
  }

  method PlanRestore(files: seq<File>, orgId: string, tenant: string, includeOrg: bool) returns (p: Planned)
    ensures var items := Stream(files, includeOrg);
            p == if AllOwned(items, orgId, tenant) then Plan(Merged(items)) else Refused
  {
    p := Plan(map[]);
    for i := 0 to |files|
      invariant AllOwned(Stream(files[..i], includeOrg), orgId, tenant)
      invariant p == Plan(Merged(Stream(files[..i], includeOrg)))
    {
      ghost var before := Stream(files[..i], includeOrg);
      StreamPrefix(files, i + 1, includeOrg);
      assert files[..i + 1][..i] == files[..i];
      if Skips(files[i], includeOrg) {
        assert before + [] == before;
      } else {
        p := MergeFile(files[i], p.merged, before, orgId, tenant);
        if p.Refused? {
          assert Stream(files[..i + 1], includeOrg) == before + Items(files[i]);
          NotOwnedLater(before + Items(files[i]), Stream(files, includeOrg), orgId, tenant);
          return;
        }
      }
    }
    assert files[..|files|] == files;
  }

  lemma NotOwnedLater(xs: seq<Item>, ys: seq<Item>, orgId: string, tenant: string)
    requires xs <= ys && !AllOwned(xs, orgId, tenant)
    ensures !AllOwned(ys, orgId, tenant)
  {
    var i :| 0 <= i < |xs| && !AssertOwned(xs[i].0, xs[i].1, orgId, tenant);
    assert ys[i] == xs[i];
  }

  lemma {:induction false} StreamPrefix(files: seq<File>, i: nat, includeOrg: bool)
    requires i <= |files|
    ensures Stream(files[..i], includeOrg) <= Stream(files, includeOrg)
  {
    if i == |files| {
      assert files[..i] == files;
    } else {
      StreamPrefix(files[..|files| - 1], i, includeOrg);
      assert files[..|files| - 1][..i] == files[..i];
    }
  }
}
