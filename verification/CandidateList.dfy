/** Issuing the official list of candidates with any number of issuers. */
module CandidateList {
  import opened CandidateSteps

  predicate Owns(w: World, a: nat, index: nat) {
    a in w.actors && w.actors[a].Inserted? && w.actors[a].index == index
  }

  /** The list at `index` has been inserted, and its issuer has still to supersede the others. */
  ghost predicate Unsettled(w: World, index: nat) {
    exists a :: Owns(w, a, index)
  }

  predicate PcInv(w: World, pc: Pc) {
    match pc
    case Numbered(_, s) => 1 <= s <= |w.lists| + 1
    case Inserted(_, index) => index < |w.lists|
    case _ => true
  }

  ghost predicate Inv(w: World) {
    && (forall i :: 0 <= i < |w.lists| ==> w.lists[i].number == i + 1)
    && (forall a :: a in w.actors ==> PcInv(w, w.actors[a]))
    && (forall a, b, i :: Owns(w, a, i) && Owns(w, b, i) ==> a == b)
    && (forall j :: 0 <= j < |w.lists| && !Unsettled(w, j) ==> forall i :: 0 <= i < j ==> !w.lists[i].current)
    && (w.lists != [] ==> (w.lists[|w.lists| - 1].current <==> !w.late))
  }

  lemma {:induction false} NumbersCount(lists: seq<CList>)
    requires forall i :: 0 <= i < |lists| ==> lists[i].number == i + 1
    ensures MaxSeq(lists) == |lists|
    ensures forall s: nat :: Taken(lists, s) <==> 1 <= s <= |lists|
  {
    if lists != [] {
      NumbersCount(lists[..|lists| - 1]);
    }
    forall s: nat
      ensures Taken(lists, s) <==> 1 <= s <= |lists|
    {
      if 1 <= s <= |lists| {
        assert lists[s - 1].number == s;
      }
    }
  }

  lemma SetKeepsInv(w: World, a: nat, pc: Pc)
    requires Inv(w) && !PcOf(w, a).Inserted? && !pc.Inserted? && PcInv(w, pc)
    ensures Inv(Set(w, a, pc))
  {
    var w' := Set(w, a, pc);
    forall b, i: nat
      ensures Owns(w', b, i) <==> Owns(w, b, i)
    {
    }
    SameOwners(w, w');
  }

  lemma SameOwners(w: World, w': World)
    requires forall a, i: nat :: Owns(w', a, i) <==> Owns(w, a, i)
    ensures forall i: nat :: Unsettled(w', i) <==> Unsettled(w, i)
  {
    forall i: nat
      ensures Unsettled(w', i) <==> Unsettled(w, i)
    {
      if Unsettled(w, i) {
        var a :| Owns(w, a, i);
        assert Owns(w', a, i);
      }
    }
  }

  lemma InsertKeepsInv(w: World, a: nat)
    requires Inv(w) && PcOf(w, a).Numbered?
    ensures Inv(GoStep(w, a, 0))
  {
    NumbersCount(w.lists);
    var w' := GoStep(w, a, 0);
    if Taken(w.lists, w.actors[a].number) {
      SetKeepsInv(w, a, Idle);
    } else {
      forall b, i: nat
        ensures Owns(w', b, i) <==> if b == a then i == |w.lists| else Owns(w, b, i)
      {
      }
      assert Owns(w', a, |w.lists|);
      forall j: nat | Unsettled(w, j)
        ensures Unsettled(w', j)
      {
        var b :| Owns(w, b, j);
        assert Owns(w', b, j);
      }
    }
  }

  lemma SupersedeKeepsInv(w: World, a: nat)
    requires Inv(w) && PcOf(w, a).Inserted?
    ensures Inv(GoStep(w, a, 0))
  {
    var index := w.actors[a].index;
    var w' := GoStep(w, a, 0);
    assert Owns(w, a, index);
    forall b, i: nat
      ensures Owns(w', b, i) <==> b != a && Owns(w, b, i)
    {
    }
    forall j: nat | Unsettled(w, j) && j != index
      ensures Unsettled(w', j)
    {
      var b :| Owns(w, b, j);
      assert Owns(w', b, j);
    }
  }

  /** A step that changes no list, and only where its issuer stands, and perhaps the flag. */
  predicate ListsKept(w: World, a: nat, w': World) {
    && w'.lists == w.lists && w'.late == w.late && a in w'.actors && w'.actors == w.actors[a := w'.actors[a]]
    && !w'.actors[a].Inserted? && PcInv(w, w'.actors[a])
  }

  lemma ReadingGo(w: World, a: nat, now: int)
    requires PcOf(w, a).SweepLatest? || PcOf(w, a).SweepState?
    ensures ListsKept(w, a, GoStep(w, a, now))
  {
  }

  lemma DecidingGo(w: World, a: nat, now: int)
    requires PcOf(w, a).ManualSections? || PcOf(w, a).Clearing?
    ensures ListsKept(w, a, GoStep(w, a, now))
  {
  }

  lemma NumberingGo(w: World, a: nat, now: int)
    requires PcOf(w, a).Ready? && MaxSeq(w.lists) == |w.lists|
    ensures ListsKept(w, a, GoStep(w, a, now))
  {
  }

  lemma NextKeepsInv(w: World, e: Event)
    requires Inv(w) && Can(w, e)
    ensures Inv(Next(w, e))
  {
    if e.Go? {
      var pc := PcOf(w, e.actor);
      if pc.Numbered? {
        InsertKeepsInv(w, e.actor);
      } else if pc.Inserted? {
        SupersedeKeepsInv(w, e.actor);
      } else if !pc.Idle? {
        NumbersCount(w.lists);
        if pc.Ready? {
          NumberingGo(w, e.actor, e.now);
        } else if pc.ManualSections? || pc.Clearing? {
          DecidingGo(w, e.actor, e.now);
        } else {
          ReadingGo(w, e.actor, e.now);
        }
        var pc' := Next(w, e).actors[e.actor];
        SetKeepsInv(w, e.actor, pc');
        SameButFlag(Set(w, e.actor, pc'), Next(w, e));
      }
    } else if e.Sweep? {
      SetKeepsInv(w, e.actor, SweepLatest(e.now, w.look, LatestOf(w.lists)));
    } else if e.Manual? {
      SetKeepsInv(w, e.actor, ManualSections(w.approved));
    } else {
      SameButFlag(w, Next(w, e));
    }
  }

  /** The invariant is about the lists and the issuers alone. */
  lemma SameButFlag(w: World, w': World)
    requires Inv(w) && w'.lists == w.lists && w'.actors == w.actors && w'.late == w.late
    ensures Inv(w')
  {
    forall a, i: nat
      ensures Owns(w', a, i) <==> Owns(w, a, i)
    {
    }
    SameOwners(w, w');
  }

  lemma {:induction false} AlwaysInv(r: Run)
    requires Valid(r)
    ensures Inv(End(r))
  {
    if r.Then? {
      AlwaysInv(r.before);
      NextKeepsInv(End(r.before), r.event);
    }
  }

  ghost predicate AllSuperseded(w: World) {
    forall a :: a in w.actors ==> !w.actors[a].Inserted?
  }

  /** With any number of issuers, lists are numbered 1, 2, … as they are inserted; once every issuer that inserted has also
      superseded, only the newest list can be current, and it is exactly if no issuer of an older list came after it. */
  lemma IssuedInSequence(r: Run)
    requires Valid(r)
    ensures var w := End(r);
            && (forall i :: 0 <= i < |w.lists| ==> w.lists[i].number == i + 1)
            && (AllSuperseded(w) ==> forall i :: 0 <= i < |w.lists| ==>
                  (w.lists[i].current <==> i == |w.lists| - 1 && !w.late))
  {
    AlwaysInv(r);
    var w := End(r);
    if AllSuperseded(w) && w.lists != [] {
      assert !Unsettled(w, |w.lists| - 1);
    }
  }

  // ---------- before vetting has ended ----------

  /** A sweep was due along the run, or a list was issued by hand. */
  predicate Started(r: Run) {
    r.Then? && (Started(r.before) || r.event.Manual? || (r.event.Sweep? && r.event.due))
  }

  /** Until then no list is issued, and no sweep does anything. */
  lemma {:induction false} NothingBeforehand(r: Run)
    requires Valid(r) && !Started(r)
    ensures End(r).lists == [] && forall a :: a in End(r).actors ==> End(r).actors[a] == Idle
    ensures r.Then? && r.event.Sweep? ==> End(r) == End(r.before)
  {
    if r.Then? {
      NothingBeforehand(r.before);
    }
  }
}
