/** The public turnout by group: small groups are folded into "Other" until no published number is about fewer than `k`. */
module SmallGroups {
  import CandidateSections

  datatype Group = Group(name: string, registered: nat, voted: nat)

  datatype Result = Suppressed | Published(groups: seq<Group>)

  const OTHER := "Other"

  function Registered(gs: seq<Group>): nat {
    if gs == [] then 0 else Registered(gs[..|gs| - 1]) + gs[|gs| - 1].registered
  }

  function Voted(gs: seq<Group>): nat {
    if gs == [] then 0 else Voted(gs[..|gs| - 1]) + gs[|gs| - 1].voted
  }

  lemma OneMore(gs: seq<Group>, g: Group)
    ensures Registered(gs + [g]) == Registered(gs) + g.registered && Voted(gs + [g]) == Voted(gs) + g.voted
  {
    assert (gs + [g])[..|gs|] == gs;
  }

  lemma OneMoreTimes(gs: seq<Group>, g: Group, x: Group)
    ensures Times(gs + [g], x) == Times(gs, x) + if g == x then 1 else 0
  {
    assert (gs + [g])[..|gs|] == gs;
  }

  // ---------- sorting ----------

  /** Inserted behind everything that does not come after it, as a stable sort does. */
  function Insert(gs: seq<Group>, g: Group, after: (Group, Group) -> bool): seq<Group> {
    if gs == [] || !after(gs[|gs| - 1], g) then gs + [g]
    else Insert(gs[..|gs| - 1], g, after) + [gs[|gs| - 1]]
  }

  function Sorted(gs: seq<Group>, after: (Group, Group) -> bool): seq<Group> {
    if gs == [] then [] else Insert(Sorted(gs[..|gs| - 1], after), gs[|gs| - 1], after)
  }

  lemma {:induction false} InsertKeeps(gs: seq<Group>, g: Group, after: (Group, Group) -> bool)
    ensures Registered(Insert(gs, g, after)) == Registered(gs) + g.registered
    ensures Voted(Insert(gs, g, after)) == Voted(gs) + g.voted
    ensures |Insert(gs, g, after)| == |gs| + 1
    ensures forall x :: x in Insert(gs, g, after) <==> x in gs || x == g
  {
    if gs == [] || !after(gs[|gs| - 1], g) {
      assert (gs + [g])[..|gs|] == gs;
    } else {
      var init, last := gs[..|gs| - 1], gs[|gs| - 1];
      InsertKeeps(init, g, after);
      var r := Insert(init, g, after);
      assert (r + [last])[..|r|] == r && gs == init + [last];
    }
  }

  lemma {:induction false} SortedKeeps(gs: seq<Group>, after: (Group, Group) -> bool)
    ensures Registered(Sorted(gs, after)) == Registered(gs) && Voted(Sorted(gs, after)) == Voted(gs)
    ensures |Sorted(gs, after)| == |gs|
  {
    if gs != [] {
      SortedKeeps(gs[..|gs| - 1], after);
      InsertKeeps(Sorted(gs[..|gs| - 1], after), gs[|gs| - 1], after);
    }
  }

  lemma {:induction false} SortedMembers(gs: seq<Group>, after: (Group, Group) -> bool)
    ensures forall x :: x in Sorted(gs, after) <==> x in gs
  {
    if gs != [] {
      var init, last := gs[..|gs| - 1], gs[|gs| - 1];
      SortedMembers(init, after);
      InsertKeeps(Sorted(init, after), last, after);
      assert gs == init + [last];
    }
  }

  /** How often a group occurs. */
  function Times(gs: seq<Group>, g: Group): nat {
    if gs == [] then 0 else Times(gs[..|gs| - 1], g) + if gs[|gs| - 1] == g then 1 else 0
  }

  lemma {:induction false} InsertTimes(gs: seq<Group>, g: Group, after: (Group, Group) -> bool, x: Group)
    ensures Times(Insert(gs, g, after), x) == Times(gs, x) + if x == g then 1 else 0
  {
    if gs == [] || !after(gs[|gs| - 1], g) {
      assert (gs + [g])[..|gs|] == gs;
    } else {
      var init, last := gs[..|gs| - 1], gs[|gs| - 1];
      InsertTimes(init, g, after, x);
      assert (Insert(init, g, after) + [last])[..|Insert(init, g, after)|] == Insert(init, g, after);
    }
  }

  lemma {:induction false} SortedTimes(gs: seq<Group>, after: (Group, Group) -> bool, x: Group)
    ensures Times(Sorted(gs, after), x) == Times(gs, x)
  {
    if gs != [] {
      SortedTimes(gs[..|gs| - 1], after, x);
      InsertTimes(Sorted(gs[..|gs| - 1], after), gs[|gs| - 1], after, x);
    }
  }

  lemma {:induction false} TimesConcat(a: seq<Group>, b: seq<Group>, x: Group)
    ensures Times(a + b, x) == Times(a, x) + Times(b, x)
  {
    if b == [] {
      assert a + b == a;
    } else {
      assert (a + b)[..|a + b| - 1] == a + b[..|b| - 1];
      TimesConcat(a, b[..|b| - 1], x);
    }
  }

  predicate Larger(a: Group, b: Group) {
    a.registered > b.registered
  }

  predicate Ascending(gs: seq<Group>) {
    forall i, j :: 0 <= i < j < |gs| ==> gs[i].registered <= gs[j].registered
  }

  lemma {:induction false} InsertAscending(gs: seq<Group>, g: Group)
    requires Ascending(gs)
    ensures Ascending(Insert(gs, g, Larger))
    ensures forall x :: x in Insert(gs, g, Larger) ==> x in gs || x == g
  {
    if gs != [] && Larger(gs[|gs| - 1], g) {
      var init, last := gs[..|gs| - 1], gs[|gs| - 1];
      InsertAscending(init, g);
      var r := Insert(init, g, Larger);
      forall i | 0 <= i < |r|
        ensures r[i].registered <= last.registered
      {
        assert r[i] in r;
      }
    }
  }

  lemma {:induction false} SortedAscending(gs: seq<Group>)
    ensures Ascending(Sorted(gs, Larger))
  {
    if gs != [] {
      SortedAscending(gs[..|gs| - 1]);
      InsertAscending(Sorted(gs[..|gs| - 1], Larger), gs[|gs| - 1]);
    }
  }

  /** Largest first, by label among equals, and "Other" last. */
  predicate Later(a: Group, b: Group) {
    if a.name == OTHER || b.name == OTHER then a.name == OTHER && b.name != OTHER
    else a.registered < b.registered
         || (a.registered == b.registered && CandidateSections.Less(b.name, a.name))
  }

  function FinishGroups(gs: seq<Group>): seq<Group> {
    Sorted(gs, Later)
  }

  lemma LaterOrders(a: Group, b: Group, c: Group)
    ensures Later(a, b) ==> !Later(b, a)
    ensures !Later(a, b) && !Later(b, c) ==> !Later(a, c)
  {
    CandidateSections.LessTotal(a.name, b.name);
    CandidateSections.LessTotal(b.name, c.name);
    CandidateSections.LessTotal(a.name, c.name);
    if CandidateSections.Less(a.name, b.name) && CandidateSections.Less(b.name, c.name) {
      CandidateSections.LessTrans(a.name, b.name, c.name);
    }
  }

  predicate Ordered(gs: seq<Group>) {
    forall i, j :: 0 <= i < j < |gs| ==> !Later(gs[i], gs[j])
  }

  lemma OrderedPlus(gs: seq<Group>, g: Group)
    requires Ordered(gs) && forall x :: x in gs ==> !Later(x, g)
    ensures Ordered(gs + [g])
  {
    assert forall i :: 0 <= i < |gs| ==> gs[i] in gs;
  }

  lemma LastDominates(gs: seq<Group>, g: Group)
    requires Ordered(gs) && gs != [] && !Later(gs[|gs| - 1], g)
    ensures forall x :: x in gs ==> !Later(x, g)
  {
    forall x | x in gs
      ensures !Later(x, g)
    {
      LaterOrders(x, gs[|gs| - 1], g);
    }
  }

  lemma {:induction false} InsertOrdered(gs: seq<Group>, g: Group)
    requires Ordered(gs)
    ensures Ordered(Insert(gs, g, Later))
  {
    if gs == [] {
    } else if !Later(gs[|gs| - 1], g) {
      LastDominates(gs, g);
      OrderedPlus(gs, g);
    } else {
      var init, last := gs[..|gs| - 1], gs[|gs| - 1];
      InsertOrdered(init, g);
      InsertKeeps(init, g, Later);
      LaterOrders(last, g, last);
      OrderedPlus(Insert(init, g, Later), last);
    }
  }

  lemma {:induction false} SortedOrdered(gs: seq<Group>)
    ensures Ordered(Sorted(gs, Later))
  {
    if gs != [] {
      SortedOrdered(gs[..|gs| - 1]);
      InsertOrdered(Sorted(gs[..|gs| - 1], Later), gs[|gs| - 1]);
    }
  }

  /** "Other" comes last, and before it the groups do not grow; those of one size go by their labels. */
  lemma FinishedOrder(gs: seq<Group>, i: nat, j: nat)
    requires i < j < |FinishGroups(gs)|
    ensures var a, b := FinishGroups(gs)[i], FinishGroups(gs)[j];
            if a.name == "Other" then b.name == "Other"
            else
              || b.name == "Other" || a.registered > b.registered
              || (a.registered == b.registered && (a.name == b.name || CandidateSections.Less(a.name, b.name)))
  {
    SortedOrdered(gs);
    CandidateSections.LessTotal(FinishGroups(gs)[i].name, FinishGroups(gs)[j].name);
  }

  // ---------- suppression ----------

  function Large(gs: seq<Group>, k: nat): seq<Group> {
    if gs == [] then []
    else if gs[|gs| - 1].registered < k then Large(gs[..|gs| - 1], k)
    else Large(gs[..|gs| - 1], k) + [gs[|gs| - 1]]
  }

  function Small(gs: seq<Group>, k: nat): seq<Group> {
    if gs == [] then []
    else if gs[|gs| - 1].registered < k then Small(gs[..|gs| - 1], k) + [gs[|gs| - 1]]
    else Small(gs[..|gs| - 1], k)
  }

  lemma {:induction false} Parted(gs: seq<Group>, k: nat)
    ensures Registered(Small(gs, k)) + Registered(Large(gs, k)) == Registered(gs)
    ensures Voted(Small(gs, k)) + Voted(Large(gs, k)) == Voted(gs)
    ensures forall g :: g in Large(gs, k) ==> g.registered >= k
  {
    if gs != [] {
      var init, last := gs[..|gs| - 1], gs[|gs| - 1];
      Parted(init, k);
      OneMore(Small(init, k), last);
      OneMore(Large(init, k), last);
    }
  }

  lemma {:induction false} PartedTimes(gs: seq<Group>, k: nat, x: Group)
    ensures Times(Small(gs, k), x) == if x.registered < k then Times(gs, x) else 0
    ensures Times(Large(gs, k), x) == if x.registered < k then 0 else Times(gs, x)
  {
    if gs != [] {
      var init, last := gs[..|gs| - 1], gs[|gs| - 1];
      PartedTimes(init, k, x);
      OneMoreTimes(Small(init, k), last, x);
      OneMoreTimes(Large(init, k), last, x);
    }
  }

  /** The large groups, smallest first. */
  function Big(gs: seq<Group>, k: nat): seq<Group> {
    Sorted(Large(gs, k), Larger)
  }

  /** "Other" with the small groups and the `n` smallest large ones. */
  function OtherWith(gs: seq<Group>, k: nat, n: nat): Group
    requires n <= |Big(gs, k)|
  {
    var small, taken := Small(gs, k), Big(gs, k)[..n];
    Group(OTHER, Registered(small) + Registered(taken), Voted(small) + Voted(taken))
  }

  /** What is published when the `n` smallest large groups go into "Other". */
  function Outcome(gs: seq<Group>, k: nat, n: nat): seq<Group>
    requires n <= |Big(gs, k)|
  {
    FinishGroups(Big(gs, k)[n..] + [OtherWith(gs, k, n)])
  }

  /** `n` is how many large groups "Other" needs to reach `k`. */
  predicate Needs(gs: seq<Group>, k: nat, n: nat) {
    && n <= |Big(gs, k)| && OtherWith(gs, k, n).registered >= k
    && (n > 0 ==> OtherWith(gs, k, n - 1).registered < k)
  }

  method SuppressSmallGroups(gs: seq<Group>, k: nat) returns (r: Result)
    ensures Small(gs, k) == [] ==> r == if |Big(gs, k)| < 2 then Suppressed else Published(FinishGroups(Big(gs, k)))
    ensures Small(gs, k) != [] && r.Published? ==>
              exists n :: 0 <= n < |Big(gs, k)| && OtherWith(gs, k, n).registered >= k && r.groups == Outcome(gs, k, n)
                          && forall m :: 0 <= m < n ==> OtherWith(gs, k, m).registered < k
    ensures Small(gs, k) != [] && r.Suppressed? ==>
              forall n :: 0 <= n < |Big(gs, k)| ==> OtherWith(gs, k, n).registered < k
  {
    var big, small := Big(gs, k), Small(gs, k);
    if small == [] {
      return if |big| < 2 then Suppressed else Published(FinishGroups(big));
    }
    var other := Group(OTHER, Registered(small), Voted(small));
    ghost var n := 0;
    while other.registered < k && big != []
      invariant 0 <= n <= |Big(gs, k)| && big == Big(gs, k)[n..]
      invariant other == OtherWith(gs, k, n)
      invariant forall m :: 0 <= m < n ==> OtherWith(gs, k, m).registered < k
      decreases |big|
    {
      var g := big[0];
      assert Big(gs, k)[..n + 1][..n] == Big(gs, k)[..n];
      other := other.(registered := other.registered + g.registered, voted := other.voted + g.voted);
      big := big[1..];
      n := n + 1;
    }
    if other.registered < k || big == [] {
      return Suppressed;
    }
    assert Needs(gs, k, n);
    r := Published(FinishGroups(big + [other]));
  }

  // ---------- what a reader of the published groups gets ----------

  lemma {:induction false} SumConcat(a: seq<Group>, b: seq<Group>)
    ensures Registered(a + b) == Registered(a) + Registered(b) && Voted(a + b) == Voted(a) + Voted(b)
  {
    if b == [] {
      assert a + b == a;
    } else {
      assert (a + b)[..|a + b| - 1] == a + b[..|b| - 1];
      SumConcat(a, b[..|b| - 1]);
    }
  }

  /** Published groups are at least two, each of at least `k`, and add up to the totals of the input. */
  lemma PublishedIsSafe(gs: seq<Group>, k: nat, n: nat)
    requires n < |Big(gs, k)| && Needs(gs, k, n)
    ensures var out := Outcome(gs, k, n);
            && |out| >= 2 && (forall g :: g in out ==> g.registered >= k)
            && Registered(out) == Registered(gs) && Voted(out) == Voted(gs)
  {
    BigTotals(gs, k);
    OutcomeFacts(gs, k, n);
  }

  lemma OutcomeFacts(gs: seq<Group>, k: nat, n: nat)
    requires n < |Big(gs, k)|
    ensures var out, small := Outcome(gs, k, n), Small(gs, k);
            && |out| >= 2 && (forall g :: g in out ==> g in Big(gs, k) || g == OtherWith(gs, k, n))
            && Registered(out) == Registered(Big(gs, k)) + Registered(small)
            && Voted(out) == Voted(Big(gs, k)) + Voted(small)
  {
    Regrouped(Big(gs, k), OtherWith(gs, k, n), n);
  }

  lemma BigTotals(gs: seq<Group>, k: nat)
    ensures Registered(Big(gs, k)) == Registered(gs) - Registered(Small(gs, k))
    ensures Voted(Big(gs, k)) == Voted(gs) - Voted(Small(gs, k))
    ensures forall g :: g in Big(gs, k) ==> g.registered >= k
  {
    Parted(gs, k);
    SortedKeeps(Large(gs, k), Larger);
    SortedMembers(Large(gs, k), Larger);
  }

  /** Moving the first `n` groups into another one. */
  lemma Regrouped(big: seq<Group>, other: Group, n: nat)
    requires n < |big|
    ensures var out := FinishGroups(big[n..] + [other]);
            && |out| >= 2 && (forall g :: g in out ==> g in big || g == other)
            && Registered(out) == Registered(big) - Registered(big[..n]) + other.registered
            && Voted(out) == Voted(big) - Voted(big[..n]) + other.voted
  {
    assert big == big[..n] + big[n..];
    SumConcat(big[..n], big[n..]);
    OneMore(big[n..], other);
    SortedKeeps(big[n..] + [other], Later);
    SortedMembers(big[n..] + [other], Later);
  }

  lemma RegroupedTimes(big: seq<Group>, other: Group, n: nat, g: Group)
    requires n <= |big|
    ensures Times(FinishGroups(big[n..] + [other]), g) == Times(big, g) - Times(big[..n], g) + if g == other then 1 else 0
  {
    assert big == big[..n] + big[n..];
    TimesConcat(big[..n], big[n..], g);
    OneMoreTimes(big[n..], other, g);
    SortedTimes(big[n..] + [other], Later, g);
  }

  /** Every group of the input is accounted for: a small one is in "Other", and a large one is published under its own name as
      often as it occurs, or is one of the `n` smallest, which are in "Other" too. */
  lemma EveryGroupPlaced(gs: seq<Group>, k: nat, n: nat, g: Group)
    requires n <= |Big(gs, k)|
    ensures Times(gs, g) == Times(Small(gs, k), g) + Times(Big(gs, k)[..n], g)
                            + Times(Outcome(gs, k, n), g) - (if g == OtherWith(gs, k, n) then 1 else 0)
    ensures g.registered < k ==> Times(Small(gs, k), g) == Times(gs, g)
  {
    PartedTimes(gs, k, g);
    SortedTimes(Large(gs, k), Larger, g);
    RegroupedTimes(Big(gs, k), OtherWith(gs, k, n), n, g);
  }

  /** Without small groups everything is published as it is. */
  lemma AllLargeIsSafe(gs: seq<Group>, k: nat)
    requires Small(gs, k) == []
    ensures var out := FinishGroups(Big(gs, k));
            && (forall g :: Times(out, g) == Times(gs, g)) && (forall g :: g in out ==> g.registered >= k)
            && Registered(out) == Registered(gs) && Voted(out) == Voted(gs)
  {
    Parted(gs, k);
    SortedKeeps(Large(gs, k), Larger);
    SortedKeeps(Big(gs, k), Later);
    SortedMembers(Large(gs, k), Larger);
    SortedMembers(Big(gs, k), Later);
    forall g
      ensures Times(FinishGroups(Big(gs, k)), g) == Times(gs, g)
    {
      PartedTimes(gs, k, g);
      SortedTimes(Large(gs, k), Larger, g);
      SortedTimes(Big(gs, k), Later, g);
      assert Times([], g) == 0;
    }
  }

  lemma {:induction false} PrefixSums(gs: seq<Group>, m: nat, n: nat)
    requires m <= n <= |gs|
    ensures Registered(gs[..m]) <= Registered(gs[..n])
  {
    if m < n {
      PrefixSums(gs, m, n - 1);
      assert gs[..n][..n - 1] == gs[..n - 1];
    }
  }

  /** Something is published exactly if there is a large group left when the others, from the small ones up, make `k`. */
  lemma PublishedIff(gs: seq<Group>, k: nat)
    requires Small(gs, k) != []
    ensures (exists n :: 0 <= n < |Big(gs, k)| && Needs(gs, k, n))
            <==> Big(gs, k) != [] && Registered(Small(gs, k)) + Registered(Big(gs, k)[..|Big(gs, k)| - 1]) >= k
  {
    var big := Big(gs, k);
    if exists n :: 0 <= n < |big| && Needs(gs, k, n) {
      var n :| 0 <= n < |big| && Needs(gs, k, n);
      PrefixSums(big, n, |big| - 1);
    } else if big != [] && OtherWith(gs, k, |big| - 1).registered >= k {
      var n := FirstEnough(gs, k, |big| - 1);
    }
  }

  lemma {:induction false} FirstEnough(gs: seq<Group>, k: nat, n: nat) returns (m: nat)
    requires n < |Big(gs, k)| && OtherWith(gs, k, n).registered >= k
    ensures m <= n && Needs(gs, k, m)
  {
    if n == 0 || OtherWith(gs, k, n - 1).registered < k {
      m := n;
    } else {
      m := FirstEnough(gs, k, n - 1);
    }
  }

  /** The large groups that go into "Other" are the smallest: none that stays is smaller. */
  lemma SmallestGo(gs: seq<Group>, k: nat, n: nat, i: nat, j: nat)
    requires i < n <= j < |Big(gs, k)|
    ensures Big(gs, k)[i].registered <= Big(gs, k)[j].registered
  {
    SortedAscending(Large(gs, k));
  }
}
