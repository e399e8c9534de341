/** Nested counter documents and dotted field paths: Mongo's dotted updates, flattening a document into rows,
    and writing one row back into a document. */
module DocTree {

  datatype Node = Num(n: nat) | Obj(kids: map<string, Node>)

  type Path = seq<string>

  // ---------- dotted names ----------

  predicate DotFree(s: string) {
    '.' !in s
  }

  function Split(s: string): (r: Path)
    ensures r != []
  {
    if s == [] then [""]
    else
      var rest := Split(s[1..]);
      if s[0] == '.' then [""] + rest else [[s[0]] + rest[0]] + rest[1..]
  }

  function Join(p: Path): string
    requires p != []
  {
    if |p| == 1 then p[0] else p[0] + "." + Join(p[1..])
  }

  lemma {:induction false} SplitDotFree(s: string)
    ensures forall i :: 0 <= i < |Split(s)| ==> DotFree(Split(s)[i])
  {
    if s != [] {
      SplitDotFree(s[1..]);
    }
  }

  lemma {:induction false} JoinSplit(s: string)
    ensures Join(Split(s)) == s
  {
    if s != [] {
      var rest := Split(s[1..]);
      JoinSplit(s[1..]);
      if s[0] == '.' {
        assert ([""] + rest)[1..] == rest;
        assert "" + "." + s[1..] == s;
      } else {
        var first := [s[0]] + rest[0];
        assert Split(s) == [first] + rest[1..] && ([first] + rest[1..])[1..] == rest[1..];
        if |rest| > 1 {
          assert Join(Split(s)) == first + "." + Join(rest[1..]) == [s[0]] + (rest[0] + "." + Join(rest[1..]));
        }
      }
    }
  }

  lemma {:induction false} SplitAtDot(a: string, b: string)
    requires DotFree(a)
    ensures Split(a + "." + b) == [a] + Split(b)
  {
    var s := a + "." + b;
    if a == [] {
      assert s[1..] == b;
    } else {
      assert s[1..] == a[1..] + "." + b;
      SplitAtDot(a[1..], b);
      assert ([a[1..]] + Split(b))[1..] == Split(b);
      assert a[0] in a && [a[0]] + a[1..] == a;
    }
  }

  lemma {:induction false} SplitOne(a: string)
    requires DotFree(a)
    ensures Split(a) == [a]
  {
    if a != [] {
      SplitOne(a[1..]);
      assert a[0] in a && [a[0]] + a[1..] == a;
    }
  }

  lemma {:induction false} SplitJoin(p: Path)
    requires p != [] && forall i :: 0 <= i < |p| ==> DotFree(p[i])
    ensures Split(Join(p)) == p
  {
    if |p| == 1 {
      SplitOne(p[0]);
    } else {
      SplitJoin(p[1..]);
      SplitAtDot(p[0], Join(p[1..]));
    }
  }

  // ---------- reading ----------

  datatype Lookup = Missing | Found(n: nat)

  /** The number a path leads to, if it leads to a number. */
  function Look(node: Node, p: Path): Lookup {
    match node
    case Num(n) => if p == [] then Found(n) else Missing
    case Obj(kids) => if p != [] && p[0] in kids then Look(kids[p[0]], p[1..]) else Missing
  }

  /** Every number of the document with the path that leads to it. */
  function Flatten(node: Node): map<Path, nat> {
    match node
    case Num(n) => map[[] := n]
    case Obj(kids) =>
      map q | q in (set k, p | k in kids && p in Flatten(kids[k]) :: [k] + p) :: Flatten(kids[q[0]])[q[1..]]
  }

  lemma {:induction false} FlattenLook(node: Node, p: Path)
    ensures p in Flatten(node) <==> Look(node, p).Found?
    ensures p in Flatten(node) ==> Look(node, p) == Found(Flatten(node)[p])
    decreases p
  {
    if node.Obj? && p != [] && p[0] in node.kids {
      FlattenLook(node.kids[p[0]], p[1..]);
      assert p == [p[0]] + p[1..];
    }
  }

  // ---------- writing ----------

  /** A new branch with one number at its end. */
  function Branch(p: Path, n: nat): Node {
    if p == [] then Num(n) else Obj(map[p[0] := Branch(p[1..], n)])
  }

  datatype Updated = Conflict | Doc(node: Node)

  /** A dotted `$inc` (or, when `byMax`, `$max`): missing parts are created; the server refuses a path that runs
      into a number or stops at a sub-document. */
  function Update(node: Node, p: Path, n: nat, byMax: bool): Updated {
    match node
    case Num(m) => if p == [] then Doc(Num(if byMax then (if m < n then n else m) else m + n)) else Conflict
    case Obj(kids) =>
      if p == [] then Conflict
      else if p[0] in kids then
        match Update(kids[p[0]], p[1..], n, byMax)
        case Conflict => Conflict
        case Doc(kid) => Doc(Obj(kids[p[0] := kid]))
      else Doc(Obj(kids[p[0] := Branch(p[1..], n)]))
  }

  /** Writing one row into a document being rebuilt: whatever stands in the way of the path is replaced. */
  function SetPath(kids: map<string, Node>, p: Path, n: nat): map<string, Node>
    requires p != []
    decreases p
  {
    if |p| == 1 then kids[p[0] := Num(n)]
    else
      var child := if p[0] in kids && kids[p[0]].Obj? then kids[p[0]].kids else map[];
      kids[p[0] := Obj(SetPath(child, p[1..], n))]
  }

  // ---------- paths that do not run into each other ----------

  predicate Clash(p: Path, q: Path) {
    p != q && (p <= q || q <= p)
  }

  /** One of two paths that clash goes on where the other ends. */
  lemma ClashIff(p: Path, q: Path)
    ensures Clash(p, q) <==> exists rest :: rest != [] && (q == p + rest || p == q + rest)
  {
    if Clash(p, q) {
      var rest := if p <= q then q[|p|..] else p[|q|..];
      assert q == p + rest || p == q + rest;
    }
  }

  ghost predicate Compatible(node: Node, p: Path) {
    forall q :: Look(node, q).Found? ==> !Clash(p, q)
  }

  /** No empty sub-document anywhere below. */
  predicate Tidy(node: Node) {
    match node
    case Num(_) => true
    case Obj(kids) => kids != map[] && forall k :: k in kids ==> Tidy(kids[k])
  }

  lemma {:induction false} TidyHasLeaf(node: Node) returns (p: Path)
    requires Tidy(node)
    ensures Look(node, p).Found?
  {
    match node
    case Num(_) => p := [];
    case Obj(kids) =>
      var k :| k in kids;
      var q := TidyHasLeaf(kids[k]);
      p := [k] + q;
      assert p[1..] == q;
  }

  lemma LookKid(kids: map<string, Node>, k: string, q: Path)
    requires k in kids
    ensures Look(Obj(kids), [k] + q) == Look(kids[k], q)
  {
    assert ([k] + q)[1..] == q;
  }

  lemma CompatibleKid(kids: map<string, Node>, p: Path)
    requires p != [] && p[0] in kids && Compatible(Obj(kids), p)
    ensures Compatible(kids[p[0]], p[1..])
  {
    forall q | Look(kids[p[0]], q).Found?
      ensures !Clash(p[1..], q)
    {
      var q' := [p[0]] + q;
      LookKid(kids, p[0], q);
      assert !Clash(p, q');
      assert p == [p[0]] + p[1..];
      if p[1..] <= q {
        assert p <= q';
      }
      if q <= p[1..] {
        assert q' <= p;
      }
    }
  }

  lemma {:induction false} BranchLook(p: Path, n: nat, q: Path)
    ensures Look(Branch(p, n), q) == (if q == p then Found(n) else Missing) && Tidy(Branch(p, n))
    decreases p
  {
    if p != [] {
      assert p[0] in map[p[0] := Branch(p[1..], n)];
      if q != [] {
        BranchLook(p[1..], n, q[1..]);
        assert q == p <==> q[0] == p[0] && q[1..] == p[1..] by {
          assert q == [q[0]] + q[1..] && p == [p[0]] + p[1..];
        }
      } else {
        BranchLook(p[1..], n, []);
      }
    }
  }

  function OrZero(l: Lookup): nat {
    if l.Found? then l.n else 0
  }

  function Joined(byMax: bool, a: nat, b: nat): nat {
    if byMax then (if a < b then b else a) else a + b
  }

  lemma EmptyPathClashes(node: Node)
    requires Tidy(node) && node.Obj?
    ensures !Compatible(node, [])
  {
    var leaf := TidyHasLeaf(node);
    assert Clash([], leaf);
  }

  lemma ShortPathClashes(kids: map<string, Node>, k: string)
    requires k in kids && kids[k].Obj? && Tidy(kids[k])
    ensures !Compatible(Obj(kids), [k])
  {
    var leaf := TidyHasLeaf(kids[k]);
    LookKid(kids, k, leaf);
    assert Clash([k], [k] + leaf);
  }

  lemma LongPathClashes(kids: map<string, Node>, p: Path)
    requires |p| > 1 && p[0] in kids && kids[p[0]].Num?
    ensures !Compatible(Obj(kids), p)
  {
    LookKid(kids, p[0], []);
    assert Clash(p, [p[0]] + []);
  }

  /** On a path no stored path clashes with, a dotted update succeeds and changes exactly the addressed number. */
  lemma {:induction false} UpdateLook(node: Node, p: Path, n: nat, byMax: bool, q: Path)
    requires Tidy(node) && Compatible(node, p)
    ensures var u := Update(node, p, n, byMax);
            && u.Doc? && Tidy(u.node)
            && Look(u.node, q) == if q == p then Found(Joined(byMax, OrZero(Look(node, p)), n)) else Look(node, q)
    decreases p
  {
    match node
    case Num(m) =>
      assert Look(node, []).Found? && [] <= p;
    case Obj(kids) =>
      if p == [] {
        EmptyPathClashes(node);
      } else {
        if q != [] {
          assert q == [q[0]] + q[1..] && p == [p[0]] + p[1..];
        }
        var inner: Path := if q != [] then q[1..] else [];
        if p[0] in kids {
          CompatibleKid(kids, p);
          UpdateLook(kids[p[0]], p[1..], n, byMax, inner);
        } else {
          BranchLook(p[1..], n, inner);
        }
      }
  }

  lemma {:induction false} SetPathLook(kids: map<string, Node>, p: Path, n: nat, q: Path)
    requires p != [] && (kids == map[] || Tidy(Obj(kids))) && Compatible(Obj(kids), p)
    ensures var d := Obj(SetPath(kids, p, n));
            Tidy(d) && Look(d, q) == if q == p then Found(n) else Look(Obj(kids), q)
    decreases p
  {
    assert p == [p[0]] + p[1..];
    if q != [] {
      assert q == [q[0]] + q[1..];
    }
    if |p| == 1 {
      if p[0] in kids && kids[p[0]].Obj? {
        ShortPathClashes(kids, p[0]);
      }
    } else {
      if p[0] in kids && kids[p[0]].Num? {
        LongPathClashes(kids, p);
      }
      var child := if p[0] in kids && kids[p[0]].Obj? then kids[p[0]].kids else map[];
      if p[0] in kids {
        CompatibleKid(kids, p);
      }
      SetPathLook(child, p[1..], n, if q != [] then q[1..] else []);
    }
  }

  /** Two documents without empty parts that read alike are the same document. */
  lemma {:induction false} SameReadings(a: Node, b: Node)
    requires Tidy(a) && Tidy(b) && forall p :: Look(a, p) == Look(b, p)
    ensures a == b
  {
    assert Look(a, []) == Look(b, []);
    if a.Obj? && b.Obj? {
      SameKeys(a, b);
      SameKeys(b, a);
      forall k | k in a.kids
        ensures a.kids[k] == b.kids[k]
      {
        forall p
          ensures Look(a.kids[k], p) == Look(b.kids[k], p)
        {
          LookKid(a.kids, k, p);
          LookKid(b.kids, k, p);
          assert Look(a, [k] + p) == Look(b, [k] + p);
        }
        SameReadings(a.kids[k], b.kids[k]);
      }
    }
  }

  lemma SameKeys(a: Node, b: Node)
    requires a.Obj? && b.Obj? && Tidy(a) && forall p :: Look(a, p) == Look(b, p)
    ensures a.kids.Keys <= b.kids.Keys
  {
    forall k | k in a.kids
      ensures k in b.kids
    {
      var p := TidyHasLeaf(a.kids[k]);
      LookKid(a.kids, k, p);
      assert Look(b, [k] + p).Found?;
    }
  }

  /** The paths to a document's numbers never run into each other. */
  lemma {:induction false} LeavesApart(node: Node, p: Path, q: Path)
    requires Look(node, p).Found? && Look(node, q).Found?
    ensures !Clash(p, q)
    decreases p
  {
    if p != [] && q != [] {
      assert p == [p[0]] + p[1..] && q == [q[0]] + q[1..];
      if p[0] == q[0] {
        LeavesApart(node.kids[p[0]], p[1..], q[1..]);
        if p <= q {
          assert p[1..] <= q[1..];
        }
        if q <= p {
          assert q[1..] <= p[1..];
        }
      }
    }
  }
}
