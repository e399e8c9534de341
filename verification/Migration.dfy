/** The one-way migration of a database to another cluster. */
module Migration {
  import opened ObjectIds
  import opened Mirror

  datatype Mode = Plan | Copy | Final | Verify

  /** A bulk operation that fails ends the migration with an error. */
  datatype Result =
    | Planned(removals: map<Name, nat>)
    | Refused(name: Name)
    | Broken(name: Name)
    | Passed
    | Failed(mismatches: seq<Name>)

  predicate TooMany(src: Coll, dst: Coll, force: bool, mode: Mode) {
    |dst| > |src| && !force && mode == Copy
  }

  /** What a completed pass over one collection leaves. */
  function Moved(src: Coll, dst: Coll, mode: Mode): Coll {
    match mode
    case Copy => dst + src
    case Final => src
    case _ => dst
  }

  method MigrateOne(src: Coll, dst: Cluster, n: Name, mode: Mode) returns (ok: bool)
    modifies dst
    ensures forall m :: m != n ==> CollAt(dst.colls, m) == CollAt(old(dst.colls), m)
    ensures ok ==> CollAt(dst.colls, n) == Moved(src, CollAt(old(dst.colls), n), mode)
    ensures old(dst.answers) == [] ==> ok && dst.answers == []
  {
    ok := true;
    if mode == Final {
      ok := Reconcile(dst, n, src, src, BATCH);
      ReconcileAgreesIff(CollAt(old(dst.colls), n), src, src);
    } else if mode == Copy {
      ok := Upsert(dst, n, src, src, BATCH);
    }
  }

  function Surplus(src: Coll, dst: Coll): nat {
    if |dst| > |src| then |dst| - |src| else 0
  }

  /** How many documents each target collection has beyond the source. */
  method CollectionPlan(src: View, dst: Cluster, names: seq<Name>) returns (plan: map<Name, nat>)
    ensures forall n :: n in plan <==> n in names
    ensures forall n :: n in plan ==> plan[n] == Surplus(CollAt(src, n), CollAt(dst.colls, n))
    ensures forall n :: n in plan ==> |CollAt(src, n)| + plan[n] >= |CollAt(dst.colls, n)|
                                      && (plan[n] == 0 || |CollAt(src, n)| + plan[n] == |CollAt(dst.colls, n)|)
  {
    plan := map[];
    for i := 0 to |names|
      invariant forall n :: n in plan <==> n in names[..i]
      invariant forall n :: n in plan ==> plan[n] == Surplus(CollAt(src, n), CollAt(dst.colls, n))
    {
      assert names[..i + 1] == names[..i] + [names[i]];
      plan := plan[names[i] := Surplus(CollAt(src, names[i]), CollAt(dst.colls, names[i]))];
    }
    assert names[..|names|] == names;
  }

  method MigrateDatabase(src: View, dst: Cluster, names: seq<Name>, mode: Mode, force: bool) returns (r: Result)
    requires forall i, j :: 0 <= i < j < |names| ==> names[i] != names[j]
    modifies dst
    ensures r.Planned? <==> mode == Plan
    ensures r.Planned? ==> dst.colls == old(dst.colls)
    ensures forall n :: n !in names ==> CollAt(dst.colls, n) == CollAt(old(dst.colls), n)
    ensures old(dst.answers) == [] ==> !r.Broken?
    ensures r.Refused? ==> exists i :: 0 <= i < |names| && RefusedAt(src, old(dst.colls), dst.colls, names, i, mode, force, r)
    ensures r.Passed? || r.Failed? ==> MovedAll(src, old(dst.colls), dst.colls, names, mode, force)
    ensures r.Refused? ==> mode == Copy && !force && |CollAt(old(dst.colls), r.name)| > |CollAt(src, r.name)|
    ensures mode == Copy && !force && (exists n :: n in names && |CollAt(old(dst.colls), n)| > |CollAt(src, n)|)
            ==> !r.Passed? && !r.Failed?
    ensures r.Failed? ==> r.mismatches != []
    ensures r.Passed? ==> forall n :: n in names ==> CollAt(dst.colls, n) == CollAt(src, n)
    ensures r.Failed? ==> forall n :: n in r.mismatches <==> n in names && CollAt(dst.colls, n) != CollAt(src, n)
  {
    if mode == Plan {
      var plan := CollectionPlan(src, dst, names);
      return Planned(plan);
    }
    var mismatches: seq<Name> := [];
    for i := 0 to |names|
      invariant old(dst.answers) == [] ==> dst.answers == []
      invariant forall n :: n !in names[..i] ==> CollAt(dst.colls, n) == CollAt(old(dst.colls), n)
      invariant MovedAll(src, old(dst.colls), dst.colls, names[..i], mode, force)
      invariant Differing(mismatches, src, dst.colls, names[..i])
    {
      var n := names[i];
      assert n !in names[..i] && names[..i + 1] == names[..i] + [n];
      if TooMany(CollAt(src, n), CollAt(dst.colls, n), force, mode) {
        r := Refused(n);
        assert RefusedAt(src, old(dst.colls), dst.colls, names, i, mode, force, r);
        return;
      }
      ghost var before := dst.colls;
      var ok := MigrateOne(CollAt(src, n), dst, n, mode);
      if !ok {
        return Result.Broken(n);
      }
      OneMoreMoved(src, old(dst.colls), before, dst.colls, names[..i], n, mismatches, mode, force);
      if CollAt(dst.colls, n) != CollAt(src, n) {
        mismatches := mismatches + [n];
      }
    }
    assert names[..|names|] == names;
    r := if mismatches == [] then Passed else Failed(mismatches);
  }

  /** The collections of `names` that differ. */
  ghost predicate Differing(mismatches: seq<Name>, src: View, dst: View, names: seq<Name>) {
    forall n :: n in mismatches <==> n in names && CollAt(dst, n) != CollAt(src, n)
  }

  lemma OneMoreMoved(src: View, was: View, before: View, now: View, names: seq<Name>, n: Name, mismatches: seq<Name>,
                     mode: Mode, force: bool)
    requires n !in names && MovedAll(src, was, before, names, mode, force) && Differing(mismatches, src, before, names)
    requires CollAt(before, n) == CollAt(was, n) && !TooMany(CollAt(src, n), CollAt(was, n), force, mode)
    requires CollAt(now, n) == Moved(CollAt(src, n), CollAt(was, n), mode)
    requires forall m :: m != n ==> CollAt(now, m) == CollAt(before, m)
    ensures MovedAll(src, was, now, names + [n], mode, force)
    ensures Differing(if CollAt(now, n) != CollAt(src, n) then mismatches + [n] else mismatches, src, now, names + [n])
  {
    var more := if CollAt(now, n) != CollAt(src, n) then mismatches + [n] else mismatches;
    forall m
      ensures m in more <==> m in names + [n] && CollAt(now, m) != CollAt(src, m)
    {
      assert m in mismatches <==> m in names && CollAt(before, m) != CollAt(src, m);
    }
  }

  ghost predicate MovedAll(src: View, was: View, now: View, names: seq<Name>, mode: Mode, force: bool) {
    forall n :: n in names ==>
      && CollAt(now, n) == Moved(CollAt(src, n), CollAt(was, n), mode)
      && !TooMany(CollAt(src, n), CollAt(was, n), force, mode)
  }

  /** Refused at the first collection that holds more than the source; those before it have been copied. */
  ghost predicate RefusedAt(src: View, was: View, now: View, names: seq<Name>, i: nat, mode: Mode, force: bool, r: Result)
    requires i < |names|
  {
    && r == Refused(names[i]) && TooMany(CollAt(src, names[i]), CollAt(was, names[i]), force, mode)
    && MovedAll(src, was, now, names[..i], mode, force)
    && forall n :: n !in names[..i] ==> CollAt(now, n) == CollAt(was, n)
  }

  /** A copy adds and overwrites, and is made, unless forced, only where the target held no more than the source; the final pass
      makes the target the source; a verification changes nothing. */
  lemma MovedAllIff(src: View, was: View, now: View, names: seq<Name>, mode: Mode, force: bool)
    ensures MovedAll(src, was, now, names, mode, force)
            <==> forall n :: n in names ==>
                   && CollAt(now, n) == (if mode == Copy then CollAt(was, n) + CollAt(src, n)
                                         else if mode == Final then CollAt(src, n) else CollAt(was, n))
                   && (mode == Copy && !force ==> |CollAt(was, n)| <= |CollAt(src, n)|)
  {
  }

  lemma RefusedAtIff(src: View, was: View, now: View, names: seq<Name>, i: nat, mode: Mode, force: bool, r: Result)
    requires i < |names|
    ensures RefusedAt(src, was, now, names, i, mode, force, r)
            <==> && r == Refused(names[i]) && mode == Copy && !force
                 && |CollAt(was, names[i])| > |CollAt(src, names[i])|
                 && (forall n :: n in names[..i] ==> CollAt(now, n) == CollAt(was, n) + CollAt(src, n)
                                                     && |CollAt(was, n)| <= |CollAt(src, n)|)
                 && (forall n :: n !in names[..i] ==> CollAt(now, n) == CollAt(was, n))
  {
  }

  /** A completed final pass always leaves equal collections; a copy does exactly when the target has no document of its
      own; a verification exactly when they were equal. */
  lemma CompletedPassAgreesIff(src: Coll, was: Coll, mode: Mode)
    requires mode != Plan
    ensures Moved(src, was, mode) == src
            <==> match mode case Copy => was.Keys <= src.Keys case Final => true case _ => was == src
  {
    assert was.Keys <= src.Keys ==> was + src == src;
    assert was + src == src ==> was.Keys <= (was + src).Keys;
  }

  /** A target that holds every source id and others besides, which a copy could not make equal, is refused. */
  lemma RefusalCatchesSupersets(src: Coll, was: Coll)
    requires src.Keys <= was.Keys && Moved(src, was, Copy) != src
    ensures TooMany(src, was, false, Copy)
  {
    CompletedPassAgreesIff(src, was, Copy);
    assert src.Keys < was.Keys;
    Smaller(src.Keys, was.Keys);
  }

  lemma Smaller(a: set<Oid>, b: set<Oid>)
    requires a < b
    ensures |a| < |b|
  {
    assert b == a + (b - a);
    assert b - a != {};
  }
}
