/** The hash chain over the ballots of one organisation: making checkpoints, and verifying them. */
module AuditChain {
  import opened ObjectIds

  // ---------- what a hash commits to ----------

  datatype Round = NoRound | Round(name: string)

  /** `version` 0 or 1 marks a ballot from before round-aware voting. */
  datatype Vote = Vote(id: Oid, candidate: string, castAt: int, round: Round, version: nat)

  datatype Payload =
    | V1(id: Oid, candidate: string, castAt: int)
    | V2(id: Oid, candidate: string, castAt: int, round: string)

  /** SHA-256 (section 6.2 of FIPS 180-4) of the previous hash and a payload, taken to be free of collisions. */
  datatype Hash = Genesis | H(prev: Hash, payload: Payload)

  function Commit(v: Vote): Payload {
    if v.version >= 2 then V2(v.id, v.candidate, v.castAt, if v.round.Round? then v.round.name else "round-1")
    else V1(v.id, v.candidate, v.castAt)
  }

  /** What a changed ballot must still share with the one that was hashed: id, candidate, time, and which of the two formats; in
      the newer one also the round, where a missing one is the first round. */
  predicate SameBallot(u: Vote, v: Vote) {
    && u.id == v.id && u.candidate == v.candidate && u.castAt == v.castAt && (u.version >= 2 <==> v.version >= 2)
    && (u.version >= 2 ==> u.round == v.round || {u.round, v.round} == {NoRound, Round("round-1")})
  }

  /** A ballot commits to nothing less and nothing more. */
  lemma CommitIff(u: Vote, v: Vote)
    ensures Commit(u) == Commit(v)
            <==> && u.id == v.id && u.candidate == v.candidate && u.castAt == v.castAt && (u.version >= 2 <==> v.version >= 2)
                 && (u.version >= 2 ==> u.round == v.round || {u.round, v.round} == {NoRound, Round("round-1")})
  {
    var a, b := u.round, v.round;
    assert {a, b} == {NoRound, Round("round-1")} <==>
      (a == NoRound && b == Round("round-1")) || (b == NoRound && a == Round("round-1")) by {
      if {a, b} == {NoRound, Round("round-1")} {
        assert a in {NoRound, Round("round-1")} && b in {NoRound, Round("round-1")};
        assert NoRound in {a, b} && Round("round-1") in {a, b};
      }
    }
  }

  /** The ballots of two sequences are the same, one by one. */
  predicate SameBallots(us: seq<Vote>, vs: seq<Vote>) {
    |us| == |vs| && forall i :: 0 <= i < |us| ==> SameBallot(us[i], vs[i])
  }

  lemma CommitsIff(us: seq<Vote>, vs: seq<Vote>)
    ensures Commits(us) == Commits(vs) <==> SameBallots(us, vs)
  {
    var a, b := Commits(us), Commits(vs);
    if |us| == |vs| {
      forall i | 0 <= i < |us|
        ensures a[i] == b[i] <==> SameBallot(us[i], vs[i])
      {
        CommitIff(us[i], vs[i]);
      }
    }
  }

  function Commits(vs: seq<Vote>): (r: seq<Payload>)
    ensures |r| == |vs| && forall i :: 0 <= i < |vs| ==> r[i] == Commit(vs[i])
  {
    if vs == [] then [] else Commits(vs[..|vs| - 1]) + [Commit(vs[|vs| - 1])]
  }

  function Fold(h: Hash, vs: seq<Vote>): Hash {
    if vs == [] then h else H(Fold(h, vs[..|vs| - 1]), Commit(vs[|vs| - 1]))
  }

  function Depth(h: Hash): nat {
    match h case Genesis => 0 case H(prev, _) => Depth(prev) + 1
  }

  lemma {:induction false} FoldDepth(h: Hash, vs: seq<Vote>)
    ensures Depth(Fold(h, vs)) == Depth(h) + |vs|
  {
    if vs != [] {
      FoldDepth(h, vs[..|vs| - 1]);
    }
  }

  /** From one starting point, equal hashes mean the same ballots, one by one. */
  lemma FoldSameBallots(h: Hash, us: seq<Vote>, vs: seq<Vote>)
    ensures Fold(h, us) == Fold(h, vs) <==> SameBallots(us, vs)
  {
    FoldInjective(h, us, vs);
    CommitsIff(us, vs);
  }

  /** From one starting point, equal hashes mean equal commitments, ballot for ballot. */
  lemma {:induction false} FoldInjective(h: Hash, us: seq<Vote>, vs: seq<Vote>)
    ensures Fold(h, us) == Fold(h, vs) <==> Commits(us) == Commits(vs)
  {
    FoldDepth(h, us);
    FoldDepth(h, vs);
    if |us| == |vs| && us != [] {
      var u, v := us[..|us| - 1], vs[..|vs| - 1];
      FoldInjective(h, u, v);
      assert Commits(us) == Commits(u) + [Commit(us[|us| - 1])];
      assert Commits(vs) == Commits(v) + [Commit(vs[|vs| - 1])];
      if Commits(us) == Commits(vs) {
        assert Commits(u) == Commits(us)[..|u|] == Commits(vs)[..|v|] == Commits(v);
        assert Commit(us[|us| - 1]) == Commits(us)[|u|] == Commits(vs)[|v|] == Commit(vs[|vs| - 1]);
      }
    }
  }

  // ---------- the text that is hashed ----------

  predicate NoBar(s: string) {
    '|' !in s
  }

  function Join(fields: seq<string>): string
    requires fields != []
  {
    if |fields| == 1 then fields[0] else fields[0] + "|" + Join(fields[1..])
  }

  /** The four leading fields of a payload text hold no bar, the round label may hold any. So the text determines the
      version and every field. */
  lemma {:induction false} TextDeterminesFields(a: seq<string>, b: seq<string>)
    requires a != [] && b != [] && Join(a) == Join(b)
    requires forall i :: 0 <= i < |a| && i < 4 ==> NoBar(a[i])
    requires forall i :: 0 <= i < |b| && i < 4 ==> NoBar(b[i])
    requires 4 <= |a| <= 5 && 4 <= |b| <= 5
    ensures a == b
  {
    TextFrom(a, b, 4);
  }

  lemma {:induction false} TextFrom(a: seq<string>, b: seq<string>, n: nat)
    requires n <= |a| <= n + 1 && n <= |b| <= n + 1 && a != [] && b != [] && Join(a) == Join(b)
    requires forall i :: 0 <= i < n ==> NoBar(a[i]) && NoBar(b[i])
    ensures a == b
  {
    if n == 0 {
      assert a == [a[0]] && b == [b[0]];
    } else {
      FirstField(a, b);
      assert a == [a[0]] + a[1..] && b == [b[0]] + b[1..];
      if |a| > 1 && |b| > 1 {
        assert Join(a)[|a[0]| + 1..] == Join(a[1..]);
        assert Join(b)[|b[0]| + 1..] == Join(b[1..]);
        TextFrom(a[1..], b[1..], n - 1);
      }
    }
  }

  /** The first bar of a text, or its end, is where its first field ends. */
  lemma FirstBar(a: seq<string>)
    requires a != [] && NoBar(a[0])
    ensures var s := Join(a);
            && |a[0]| <= |s| && s[..|a[0]|] == a[0]
            && (forall k :: 0 <= k < |a[0]| ==> s[k] != '|')
            && (if |a| > 1 then |a[0]| < |s| && s[|a[0]|] == '|' else |a[0]| == |s|)
  {
    assert forall k :: 0 <= k < |a[0]| ==> Join(a)[k] == a[0][k];
  }

  lemma FirstField(a: seq<string>, b: seq<string>)
    requires a != [] && b != [] && NoBar(a[0]) && NoBar(b[0]) && Join(a) == Join(b)
    ensures a[0] == b[0] && (|a| == 1 <==> |b| == 1)
  {
    FirstBar(a);
    FirstBar(b);
  }

  /** How ids and times are written down, and the hex digest of a text. */
  datatype Writing = Writing(id: Oid -> string, time: int -> string, digest: string -> string)

  const GENESIS := "GENESIS"

  /** The writing is free of bars and of collisions. */
  ghost predicate Sound(w: Writing) {
    && (forall x :: NoBar(w.id(x))) && (forall x, y :: w.id(x) == w.id(y) ==> x == y)
    && (forall t :: NoBar(w.time(t))) && (forall t, u :: w.time(t) == w.time(u) ==> t == u)
    && (forall s :: NoBar(w.digest(s)) && w.digest(s) != GENESIS)
    && (forall s, t :: w.digest(s) == w.digest(t) ==> s == t)
  }

  function Fields(w: Writing, prev: string, p: Payload): (r: seq<string>)
    ensures 4 <= |r| <= 5
  {
    match p
    case V1(id, candidate, castAt) => [prev, w.id(id), candidate, w.time(castAt)]
    case V2(id, candidate, castAt, round) => [prev, w.id(id), candidate, w.time(castAt), round]
  }

  /** The text that is hashed for one ballot. */
  function Text(w: Writing, prev: string, p: Payload): string {
    Join(Fields(w, prev, p))
  }

  /** Two texts are the same exactly if the previous hash, the version and every committed field are. */
  lemma TextIff(w: Writing, prev: string, p: Payload, prev': string, p': Payload)
    requires Sound(w) && NoBar(prev) && NoBar(prev') && NoBar(p.candidate) && NoBar(p'.candidate)
    ensures Text(w, prev, p) == Text(w, prev', p') <==> prev == prev' && p == p'
  {
    var a, b := Fields(w, prev, p), Fields(w, prev', p');
    if Join(a) == Join(b) {
      TextDeterminesFields(a, b);
      assert a[0] == b[0] && a[1] == b[1] && a[2] == b[2] && a[3] == b[3];
    }
  }

  /** The hash of a chain as a text. */
  function Rendered(w: Writing, h: Hash): string {
    match h
    case Genesis => GENESIS
    case H(prev, payload) => w.digest(Text(w, Rendered(w, prev), payload))
  }

  /** Candidate ids hold no bar. */
  predicate PlainIds(h: Hash) {
    h.H? ==> NoBar(h.payload.candidate) && PlainIds(h.prev)
  }

  lemma RenderedPlain(w: Writing, h: Hash)
    requires Sound(w)
    ensures NoBar(Rendered(w, h)) && (Rendered(w, h) == GENESIS <==> h.Genesis?)
  {
  }

  /** So the texts that are stored and compared agree exactly where the hashes of this model do. */
  lemma {:induction false} RenderedIff(w: Writing, h: Hash, h': Hash)
    requires Sound(w) && PlainIds(h) && PlainIds(h')
    ensures Rendered(w, h) == Rendered(w, h') <==> h == h'
  {
    RenderedPlain(w, h);
    RenderedPlain(w, h');
    if h.H? && h'.H? {
      RenderedPlain(w, h.prev);
      RenderedPlain(w, h'.prev);
      TextIff(w, Rendered(w, h.prev), h.payload, Rendered(w, h'.prev), h'.payload);
      RenderedIff(w, h.prev, h'.prev);
    }
  }

  // ---------- checkpoints ----------

  datatype Bound = Start | After(id: Oid)

  datatype Checkpoint = Checkpoint(from: Bound, to: Oid, hash: Hash)

  /** What a range query, or the query for sealed ballots, selects. */
  datatype Query = UpTo(from: Bound, to: Oid) | CastBefore(from: Bound, limit: int)

  predicate Matches(q: Query, v: Vote) {
    && (q.from.After? ==> Lt(q.from.id, v.id))
    && match q case UpTo(_, to) => !Lt(to, v.id) case CastBefore(_, limit) => v.castAt < limit
  }

  /** Ballots in id order. */
  predicate Sorted(log: seq<Vote>) {
    forall i, j :: 0 <= i < j < |log| ==> Lt(log[i].id, log[j].id)
  }

  function Keep(log: seq<Vote>, q: Query): seq<Vote> {
    if log == [] then []
    else Keep(log[..|log| - 1], q) + if Matches(q, log[|log| - 1]) then [log[|log| - 1]] else []
  }

  lemma {:induction false} KeepMembers(log: seq<Vote>, q: Query)
    ensures forall v :: v in Keep(log, q) <==> v in log && Matches(q, v)
    ensures Sorted(log) ==> Sorted(Keep(log, q))
  {
    if log != [] {
      var init, last := log[..|log| - 1], log[|log| - 1];
      assert log == init + [last];
      KeepMembers(init, q);
      var kept := Keep(init, q);
      assert forall i :: 0 <= i < |kept| ==> kept[i] in init;
    }
  }

  function Range(cp: Checkpoint): Query {
    UpTo(cp.from, cp.to)
  }

  function HashAt(cps: seq<Checkpoint>, i: nat): Hash
    requires i <= |cps|
  {
    if i == 0 then Genesis else cps[i - 1].hash
  }

  predicate Recomputes(log: seq<Vote>, cps: seq<Checkpoint>, i: nat)
    requires i < |cps|
  {
    Fold(HashAt(cps, i), Keep(log, Range(cps[i]))) == cps[i].hash
  }

  predicate Verifies(log: seq<Vote>, cps: seq<Checkpoint>) {
    forall i :: 0 <= i < |cps| ==> Recomputes(log, cps, i)
  }

  datatype Verdict = Good(verified: nat, head: Hash) | Bad(first: nat, expected: Hash, recomputed: Hash)

  /** `log` in id order and `cps` in the order of their last ids, as the queries return them. */
  method ChainVerify(log: seq<Vote>, cps: seq<Checkpoint>) returns (r: Verdict)
    ensures r.Good? <==> Verifies(log, cps)
    ensures r.Good? ==> r.verified == |cps| && r.head == HashAt(cps, |cps|)
    ensures r.Bad? ==> r.first < |cps| && !Recomputes(log, cps, r.first)
                       && r.expected == cps[r.first].hash
                       && r.recomputed == Fold(HashAt(cps, r.first), Keep(log, Range(cps[r.first])))
                       && forall j :: 0 <= j < r.first ==> Recomputes(log, cps, j)
  {
    var chain := Genesis;
    for i := 0 to |cps|
      invariant chain == HashAt(cps, i)
      invariant forall j :: 0 <= j < i ==> Recomputes(log, cps, j)
    {
      var events := Keep(log, Range(cps[i]));
      var current := chain;
      for j := 0 to |events|
        invariant current == Fold(chain, events[..j])
      {
        assert events[..j + 1][..j] == events[..j];
        current := H(current, Commit(events[j]));
      }
      assert events[..|events|] == events;
      if current != cps[i].hash {
        assert !Recomputes(log, cps, i);
        return Bad(i, cps[i].hash, current);
      }
      chain := cps[i].hash;
    }
    r := Good(|cps|, chain);
  }

  /** Tamper evidence: beside a log that verifies, another log verifies against the same checkpoints exactly if it holds
      the same ballots in the same order in every range. */
  lemma VerifiesIffSameBallots(log1: seq<Vote>, log2: seq<Vote>, cps: seq<Checkpoint>)
    requires Verifies(log1, cps)
    ensures Verifies(log2, cps)
            <==> forall i :: 0 <= i < |cps| ==> SameBallots(Keep(log1, Range(cps[i])), Keep(log2, Range(cps[i])))
  {
    forall i | 0 <= i < |cps|
      ensures Recomputes(log2, cps, i) <==> SameBallots(Keep(log1, Range(cps[i])), Keep(log2, Range(cps[i])))
    {
      assert Recomputes(log1, cps, i);
      FoldSameBallots(HashAt(cps, i), Keep(log1, Range(cps[i])), Keep(log2, Range(cps[i])));
    }
  }

  /** A checkpoint starts where the one before it ends. */
  predicate Linked(cps: seq<Checkpoint>, i: nat)
    requires i < |cps|
  {
    cps[i].from == BoundAt(cps, i) && (cps[i].from.After? ==> Lt(cps[i].from.id, cps[i].to))
  }

  predicate Contiguous(cps: seq<Checkpoint>) {
    forall i :: 0 <= i < |cps| ==> Linked(cps, i)
  }

  function BoundAt(cps: seq<Checkpoint>, i: nat): Bound
    requires i <= |cps|
  {
    if i == 0 then Start else After(cps[i - 1].to)
  }

  lemma {:induction false} KeepSame(log: seq<Vote>, q: Query, q': Query)
    requires forall v :: v in log ==> (Matches(q, v) <==> Matches(q', v))
    ensures Keep(log, q) == Keep(log, q')
  {
    if log != [] {
      KeepSame(log[..|log| - 1], q, q');
    }
  }

  lemma {:induction false} KeepNone(log: seq<Vote>, q: Query)
    requires forall v :: v in log ==> !Matches(q, v)
    ensures Keep(log, q) == []
  {
    if log != [] {
      KeepNone(log[..|log| - 1], q);
    }
  }

  lemma {:induction false} KeepSplits(log: seq<Vote>, mid: Oid, to: Oid)
    requires Sorted(log) && Lt(mid, to)
    ensures Keep(log, UpTo(Start, to)) == Keep(log, UpTo(Start, mid)) + Keep(log, UpTo(After(mid), to))
  {
    if log != [] {
      var init, v := log[..|log| - 1], log[|log| - 1];
      KeepSplits(init, mid, to);
      if !Lt(mid, v.id) {
        KeepNone(init, UpTo(After(mid), to));
      }
    }
  }

  lemma SameBallotsConcat(us: seq<Vote>, us': seq<Vote>, vs: seq<Vote>, vs': seq<Vote>)
    requires SameBallots(us, us') && SameBallots(vs, vs')
    ensures SameBallots(us + vs, us' + vs')
  {
  }

  /** With contiguous checkpoints, two logs that verify hold, up to the last checkpoint, the same ballots one by one. */
  lemma {:induction false} SameUpToLast(log1: seq<Vote>, log2: seq<Vote>, cps: seq<Checkpoint>)
    requires Sorted(log1) && Sorted(log2) && Contiguous(cps) && cps != []
    requires Verifies(log1, cps) && Verifies(log2, cps)
    ensures var q := UpTo(Start, cps[|cps| - 1].to); SameBallots(Keep(log1, q), Keep(log2, q))
  {
    VerifiesIffSameBallots(log1, log2, cps);
    var n := |cps| - 1;
    assert Linked(cps, n);
    if n > 0 {
      InitVerifies(log1, cps);
      InitVerifies(log2, cps);
      SameUpToLast(log1, log2, cps[..n]);
      var mid, to := cps[n - 1].to, cps[n].to;
      KeepSplits(log1, mid, to);
      KeepSplits(log2, mid, to);
      SameBallotsConcat(Keep(log1, UpTo(Start, mid)), Keep(log2, UpTo(Start, mid)),
                        Keep(log1, UpTo(After(mid), to)), Keep(log2, UpTo(After(mid), to)));
    }
  }

  /** The ballots of `log` up to an id, in order. */
  function UpToId(log: seq<Vote>, to: Oid): seq<Vote> {
    if log == [] then []
    else
      var v := log[|log| - 1];
      UpToId(log[..|log| - 1], to) + if v.id.sec < to.sec || (v.id.sec == to.sec && v.id.rest <= to.rest) then [v] else []
  }

  lemma {:induction false} KeepUpToId(log: seq<Vote>, to: Oid)
    ensures Keep(log, UpTo(Start, to)) == UpToId(log, to)
  {
    if log != [] {
      KeepUpToId(log[..|log| - 1], to);
    }
  }

  /** Tamper evidence: with contiguous checkpoints, two logs that verify agree ballot by ballot up to the last checkpoint in id,
      candidate and time, and in the newer format in the round. So none can be inserted, dropped, moved or changed unnoticed. */
  lemma TamperEvident(log1: seq<Vote>, log2: seq<Vote>, cps: seq<Checkpoint>)
    requires Sorted(log1) && Sorted(log2) && Contiguous(cps) && cps != []
    requires Verifies(log1, cps) && Verifies(log2, cps)
    ensures var us, vs := UpToId(log1, cps[|cps| - 1].to), UpToId(log2, cps[|cps| - 1].to);
            && |us| == |vs|
            && forall i :: 0 <= i < |us| ==>
                 && us[i].id == vs[i].id && us[i].candidate == vs[i].candidate && us[i].castAt == vs[i].castAt
                 && (us[i].version >= 2 ==> us[i].round == vs[i].round
                                            || {us[i].round, vs[i].round} == {NoRound, Round("round-1")})
  {
    SameUpToLast(log1, log2, cps);
    KeepUpToId(log1, cps[|cps| - 1].to);
    KeepUpToId(log2, cps[|cps| - 1].to);
  }

  lemma {:induction false} FoldConcat(h: Hash, us: seq<Vote>, vs: seq<Vote>)
    ensures Fold(h, us + vs) == Fold(Fold(h, us), vs)
  {
    if vs == [] {
      assert us + vs == us;
    } else {
      assert (us + vs)[..|us + vs| - 1] == us + vs[..|vs| - 1];
      FoldConcat(h, us, vs[..|vs| - 1]);
    }
  }

  lemma InitVerifies(log: seq<Vote>, cps: seq<Checkpoint>)
    requires Contiguous(cps) && cps != [] && Verifies(log, cps)
    ensures Contiguous(cps[..|cps| - 1]) && Verifies(log, cps[..|cps| - 1])
  {
    var init := cps[..|cps| - 1];
    forall i | 0 <= i < |init|
      ensures Recomputes(log, init, i) && Linked(init, i)
    {
      assert Linked(cps, i) && BoundAt(init, i) == BoundAt(cps, i);
      assert Recomputes(log, cps, i) && HashAt(init, i) == HashAt(cps, i);
    }
  }

  /** The last hash of contiguous checkpoints that verify is that of every ballot up to the last id, from the very start. */
  lemma {:induction false} HeadIsFold(log: seq<Vote>, cps: seq<Checkpoint>)
    requires Sorted(log) && Contiguous(cps) && cps != [] && Verifies(log, cps)
    ensures cps[|cps| - 1].hash == Fold(Genesis, UpToId(log, cps[|cps| - 1].to))
  {
    var n := |cps| - 1;
    var to := cps[n].to;
    KeepUpToId(log, to);
    assert Linked(cps, n) && Recomputes(log, cps, n);
    if n > 0 {
      InitVerifies(log, cps);
      HeadIsFold(log, cps[..n]);
      var mid := cps[n - 1].to;
      KeepUpToId(log, mid);
      KeepSplits(log, mid, to);
      FoldConcat(Genesis, Keep(log, UpTo(Start, mid)), Keep(log, UpTo(After(mid), to)));
    }
  }

  /** So it is enough to know the last hash: whatever was rewritten, ballots and checkpoints alike, two logs that verify against
      chains with the same last hash hold the same ballots up to there. */
  lemma SameHeadSameBallots(log1: seq<Vote>, cps1: seq<Checkpoint>, log2: seq<Vote>, cps2: seq<Checkpoint>)
    requires Sorted(log1) && Contiguous(cps1) && cps1 != [] && Verifies(log1, cps1)
    requires Sorted(log2) && Contiguous(cps2) && cps2 != [] && Verifies(log2, cps2)
    requires cps1[|cps1| - 1].hash == cps2[|cps2| - 1].hash
    ensures var us, vs := UpToId(log1, cps1[|cps1| - 1].to), UpToId(log2, cps2[|cps2| - 1].to);
            && |us| == |vs|
            && forall i :: 0 <= i < |us| ==>
                 us[i].id == vs[i].id && us[i].candidate == vs[i].candidate && us[i].castAt == vs[i].castAt
  {
    HeadIsFold(log1, cps1);
    HeadIsFold(log2, cps2);
    FoldSameBallots(Genesis, UpToId(log1, cps1[|cps1| - 1].to), UpToId(log2, cps2[|cps2| - 1].to));
  }

  /** A ballot that is altered, in a log that is otherwise as it was, is noticed: verification fails if and only if the ballot
      lies in some range and the alteration is of something that is committed to. */
  lemma AlteredIff(log: seq<Vote>, k: nat, v: Vote, cps: seq<Checkpoint>)
    requires k < |log| && v.id == log[k].id && Sorted(log) && Verifies(log, cps)
    ensures Verifies(log[k := v], cps)
            <==> SameBallot(log[k], v) || forall i :: 0 <= i < |cps| ==> !Matches(Range(cps[i]), v)
  {
    VerifiesIffSameBallots(log, log[k := v], cps);
    forall i | 0 <= i < |cps|
      ensures SameBallots(Keep(log, Range(cps[i])), Keep(log[k := v], Range(cps[i])))
              <==> SameBallot(log[k], v) || !Matches(Range(cps[i]), v)
    {
      AlteredRange(log, k, v, Range(cps[i]));
    }
  }

  lemma {:induction false} AlteredRange(log: seq<Vote>, k: nat, v: Vote, q: Query)
    requires k < |log| && v.id == log[k].id && q.UpTo?
    ensures SameBallots(Keep(log, q), Keep(log[k := v], q)) <==> SameBallot(log[k], v) || !Matches(q, v)
    ensures |Keep(log, q)| == |Keep(log[k := v], q)|
  {
    var n := |log| - 1;
    var log' := log[k := v];
    assert Matches(q, log[k]) <==> Matches(q, v);
    if k == n {
      assert log'[..n] == log[..n];
      LastDiffers(Keep(log[..n], q), log[n], v);
    } else {
      assert log'[..n] == log[..n][k := v] && log'[n] == log[n];
      AlteredRange(log[..n], k, v, q);
      OneMoreSame(Keep(log[..n], q), Keep(log'[..n], q), log[n]);
    }
  }

  lemma LastDiffers(us: seq<Vote>, u: Vote, v: Vote)
    ensures SameBallots(us + [u], us + [v]) <==> SameBallot(u, v)
    ensures SameBallots(us, us) && us + [] == us
  {
    assert (us + [u])[|us|] == u && (us + [v])[|us|] == v;
  }

  lemma OneMoreSame(us: seq<Vote>, vs: seq<Vote>, u: Vote)
    requires |us| == |vs|
    ensures SameBallots(us + [u], vs + [u]) <==> SameBallots(us, vs)
    ensures us + [] == us && vs + [] == vs
  {
    assert forall i :: 0 <= i < |us| ==> (us + [u])[i] == us[i] && (vs + [u])[i] == vs[i];
  }
}
