/** Document ids carry the second they were made in; collections are maps from id to body. */
module ObjectIds {

  /** Small collections, which only a full backup carries. */
  datatype Small =
    | Voters | Applications | Candidates | Settings | Positions | StudentChanges | ExceptionGrants | AuditCheckpoints
    | PanelMembers | ContactChanges | CandidateLists | CandidateTokens | Certificates | NominationUploads | SmsUsage
    | SmsCampaigns | Rounds | Ties | SharedContactAcks | DeletedApplications

  /** Append-only collections, which an incremental backup carries as well. */
  datatype Log = VoteEvents | AuditLog | StudentEditAudit | RosterLedger

  datatype Name = Whole(small: Small) | Appended(log: Log) | Other(name: string)

  predicate AppendOnly(n: Name) {
    n.Appended?
  }

  predicate Covered(n: Name) {
    !n.Other?
  }

  function AppendOnlyNames(): (r: set<Name>)
    ensures forall n :: n in r <==> AppendOnly(n)
  {
    set l: Log | true :: Appended(l)
  }

  function CoveredNames(): (r: set<Name>)
    ensures forall n :: n in r <==> Covered(n)
  {
    (set s: Small | true :: Whole(s)) + AppendOnlyNames()
  }

  /** `rest` stands for the eight bytes after the timestamp. */
  datatype Oid = Oid(sec: int, rest: nat)

  type Coll = map<Oid, string>
  type View = map<Name, Coll>   // the collections of one database, by name

  const OVERLAP_S := 120

  predicate Lt(a: Oid, b: Oid) {
    a.sec < b.sec || (a.sec == b.sec && a.rest < b.rest)
  }

  /** The smallest id of the second `OVERLAP_S` before `id`. */
  function Back(id: Oid): Oid {
    Oid(id.sec - OVERLAP_S, 0)
  }

  /** The overlap is two minutes. */
  lemma BeforeBack(x: Oid, id: Oid)
    ensures Lt(x, Back(id)) <==> x.sec < id.sec - 120
  {
  }

  function CollAt(v: View, name: Name): Coll {
    if name in v then v[name] else map[]
  }

  predicate IsLast(c: Coll, id: Oid) {
    id in c && forall x :: x in c ==> !Lt(id, x)
  }

  /** A database of one collection. */
  function Only(n: Name, c: Coll): View {
    map[n := c]
  }

  function From(c: Coll, id: Oid): Coll {
    map x | x in c && !Lt(x, id) :: c[x]
  }

  predicate SubColl(part: Coll, c: Coll) {
    forall x :: x in part ==> x in c && c[x] == part[x]
  }

  /** `b` is `a` after insertions only, each new id at most 120 s older than anything present. */
  predicate Grows(a: Coll, b: Coll) {
    && (forall x :: x in a ==> x in b && b[x] == a[x])
    && (forall x, y :: x in b && x !in a && y in a ==> x.sec >= y.sec - OVERLAP_S)
  }

  lemma GrowsTrans(a: Coll, b: Coll, c: Coll)
    requires Grows(a, b) && Grows(b, c)
    ensures Grows(a, c)
  {
  }

  /** Nothing of `had` has been deleted since, and nothing before the overlap point is missing from it or differs. */
  predicate KeptUp(had: Coll, now: Coll, mark: Oid) {
    had.Keys <= now.Keys && forall x :: x in now && Lt(x, Back(mark)) ==> x in had && had[x] == now[x]
  }

  /** Reading on from the overlap point completes what was there if and only if it has kept up so far. */
  lemma OverlapExactIff(had: Coll, now: Coll, mark: Oid)
    ensures had + From(now, Back(mark)) == now <==> KeptUp(had, now, mark)
  {
    var got := had + From(now, Back(mark));
    if got == now {
      forall x | x in had
        ensures x in now
      {
        assert x in got;
      }
      forall x | x in now && Lt(x, Back(mark))
        ensures x in had && had[x] == now[x]
      {
        assert x in got && x !in From(now, Back(mark)) && got[x] == now[x];
      }
    }
  }

  /** So nothing is missed of a collection that grew within the overlap. */
  lemma OverlapCatchesUp(was: Coll, now: Coll, last: Oid)
    requires forall x :: x in was ==> x in now && now[x] == was[x]
    requires forall x, y :: x in now && x !in was && y in was ==> x.sec >= y.sec - 120
    requires IsLast(was, last)
    ensures was + From(now, Back(last)) == now
  {
    OverlapExactIff(was, now, last);
  }

  /** One document of a collection that otherwise only grew has been changed. */
  ghost predicate Edited(was: Coll, now: Coll, x: Oid) {
    x in was && x in now && was[x] != now[x] && Grows(was, now[x := was[x]])
  }

  lemma {:induction false} HasLast(c: Coll) returns (id: Oid)
    requires c != map[]
    ensures IsLast(c, id)
    decreases |c|
  {
    id :| id in c;
    var rest := c - {id};
    assert forall x :: x in c && x != id ==> x in rest;
    if rest != map[] {
      var last := HasLast(rest);
      if Lt(id, last) {
        id := last;
      }
    }
  }

  /** Documents in id order: the id read last is the largest. */
  method ReadSorted(c: Coll) returns (ids: seq<Oid>)
    ensures (forall x :: x in ids <==> x in c) && |ids| == |c|
    ensures forall i, j :: 0 <= i < j < |ids| ==> Lt(ids[i], ids[j])
  {
    ids := [];
    var left := c.Keys;
    while left != {}
      invariant left <= c.Keys && |ids| + |left| == |c|
      invariant forall x :: x in ids <==> x in c && x !in left
      invariant forall i, j :: 0 <= i < j < |ids| ==> Lt(ids[i], ids[j])
      invariant forall i, x :: 0 <= i < |ids| && x in left ==> Lt(ids[i], x)
      decreases left
    {
      var least :| least in left;
      var todo := left - {least};
      while todo != {}
        invariant least in left && todo <= left
        invariant forall x :: x in left && x !in todo && x != least ==> Lt(least, x)
        decreases todo
      {
        var x :| x in todo;
        if Lt(x, least) {
          least := x;
        }
        todo := todo - {x};
      }
      ids, left := ids + [least], left - {least};
    }
  }
}
