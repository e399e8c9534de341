/** The token bucket that limits wrong guesses of a one-time code. */
module GuessBucket {
  import opened Rounding

  const CODE_SPACE := 900000.0

  /** The configured limits: free guesses, accepted risk, and the bounds of the refill interval in seconds. */
  datatype Limits = Limits(free: nat, risk: real, lockMin: real, lockMax: real)

  predicate Sane(l: Limits) {
    l.free >= 1 && l.lockMin > 0.0 && l.lockMax > 0.0
  }

  function Max(a: real, b: real): real {
    if a >= b then a else b
  }

  function Min(a: real, b: real): real {
    if a <= b then a else b
  }

  function GuessBudget(l: Limits): (g: real)
    ensures g >= l.free as real + 1.0
  {
    Max(l.risk * CODE_SPACE, l.free as real + 1.0)
  }

  function Clamped(x: real, l: Limits): real {
    Min(Max(x, l.lockMin), l.lockMax)
  }

  function RefillInterval(window: real, l: Limits): real {
    Clamped(window / (GuessBudget(l) - l.free as real), l)
  }

  function Refill(tokens: real, elapsed: real, interval: real, cap: nat): real
    requires interval > 0.0
  {
    Min(cap as real, tokens + Max(elapsed, 0.0) / interval)
  }

  function RetryAfter(tokens: real, interval: real): int {
    var n := Ceil((1.0 - tokens) * interval);
    if n > 1 then n else 1
  }

  // ---------- arithmetic ----------

  lemma DivAdd(a: real, b: real, i: real)
    requires i > 0.0
    ensures a / i + b / i == (a + b) / i
  {
    var x, y := a / i, b / i;
    assert (x + y) * i == a + b;
  }

  lemma DivLe(a: real, i: real, b: real)
    requires i > 0.0
    ensures a / i <= b <==> a <= b * i
    ensures a / i >= b <==> a >= b * i
  {
    var x := a / i;
    assert x * i == a;
    TimesLe(x, b, i);
    TimesLe(b, x, i);
  }

  lemma TimesLe(x: real, y: real, i: real)
    requires i > 0.0
    ensures x <= y <==> x * i <= y * i
  {
    assert (y - x) * i == y * i - x * i;
    if x <= y {
      Product(y - x, i);
    } else {
      Product(x - y, i);
      assert (x - y) * i == -((y - x) * i);
    }
  }

  lemma Product(a: real, b: real)
    requires a >= 0.0 && b > 0.0
    ensures a * b >= 0.0 && (a > 0.0 ==> a * b > 0.0)
  {
  }

  /** Waiting in two parts refills as much as waiting once. */
  lemma RefillSplits(tokens: real, a: real, b: real, interval: real, cap: nat)
    requires interval > 0.0 && a >= 0.0 && b >= 0.0
    ensures Refill(Refill(tokens, a, interval, cap), b, interval, cap) == Refill(tokens, a + b, interval, cap)
  {
    DivAdd(a, b, interval);
    DivLe(b, interval, 0.0);
  }

  /** With less than a token, the answer is the least whole number of seconds after which there is one. */
  lemma RetryAfterIsLeast(tokens: real, interval: real, cap: nat, n: int)
    requires tokens < 1.0 && interval > 0.0 && cap >= 1 && n >= 0
    ensures RetryAfter(tokens, interval) >= 1
    ensures Refill(tokens, n as real, interval, cap) >= 1.0 <==> n >= RetryAfter(tokens, interval)
  {
    var lack := (1.0 - tokens) * interval;
    Product(1.0 - tokens, interval);
    DivLe(n as real, interval, 1.0 - tokens);
    assert n as real >= lack <==> n >= Ceil(lack);
  }

  // ---------- the budget ----------

  /** What a window allows at most, free guesses and refill together, is within the budget exactly if the window is not too
      long for the longest interval. */
  lemma BudgetIff(window: real, l: Limits)
    requires Sane(l) && window >= 0.0
    ensures RefillInterval(window, l) > 0.0
    ensures l.free as real + window / RefillInterval(window, l) <= GuessBudget(l)
            <==> window <= l.lockMax * (GuessBudget(l) - l.free as real)
  {
    var extra := GuessBudget(l) - l.free as real;
    var even, i := window / extra, RefillInterval(window, l);
    DivLe(window, extra, l.lockMin);
    DivLe(window, extra, l.lockMax);
    assert even * extra == window;
    DivLe(window, i, extra);
    TimesLe(even, i, extra);
    TimesLe(i, even, extra);
  }

  /** The budget is the accepted share of the 900 000 codes, and at least one guess more than the free ones. */
  lemma GuessBudgetIs(l: Limits)
    ensures GuessBudget(l) >= l.risk * 900000.0 && GuessBudget(l) >= l.free as real + 1.0
    ensures GuessBudget(l) == l.risk * 900000.0 || GuessBudget(l) == l.free as real + 1.0
  {
  }

  /** The interval spreads the paid guesses evenly over the window, unless that is outside the configured bounds. */
  lemma RefillIntervalIs(window: real, l: Limits)
    requires Sane(l) && l.lockMin <= l.lockMax
    ensures var paid, i := GuessBudget(l) - l.free as real, RefillInterval(window, l);
            && l.lockMin <= i <= l.lockMax
            && (i * paid > window ==> i == l.lockMin) && (i * paid < window ==> i == l.lockMax)
  {
    var paid := GuessBudget(l) - l.free as real;
    assert window / paid * paid == window;
    TimesLe(RefillInterval(window, l), window / paid, paid);
    TimesLe(window / paid, RefillInterval(window, l), paid);
  }

  // ---------- guesses ----------

  /** The stored bucket; `v` is the version that a write compares. */
  datatype Doc = Doc(tokens: real, updatedAt: real, v: nat)

  datatype Stored = Absent | Stored(doc: Doc)

  /** An attempt that has read the clock, and then the bucket. */
  datatype Pc = Idle | Looked(now: real) | Saw(now: real, doc: Doc)

  /** `spent` counts the allowed guesses; `back` adds up how far writes have set the bucket's time back. */
  datatype World = World(bucket: Stored, clock: real, spent: nat, back: real, actors: map<nat, Pc>)

  datatype Event =
    | Wait(seconds: real)
    | FirstGuess(now: real)        // inserts the bucket if there is none, with a time read before
    | Look(actor: nat)             // reads the clock for a try
    | Fetch(actor: nat)            // reads the bucket, or inserts it if there is none
    | Pay(actor: nat)              // refuses, or pays if the bucket is still the one read

  function PcOf(w: World, a: nat): Pc {
    if a in w.actors then w.actors[a] else Idle
  }

  function Set(w: World, a: nat, pc: Pc): World {
    w.(actors := w.actors[a := pc])
  }

  function Opened(w: World, now: real, free: nat): World {
    w.(bucket := Stored(Doc(free as real - 1.0, now, 0)), spent := w.spent + 1)
  }

  predicate Can(w: World, e: Event) {
    match e
    case Wait(seconds) => seconds >= 0.0
    case FirstGuess(now) => 0.0 <= now <= w.clock
    case Fetch(a) => PcOf(w, a).Looked?
    case Pay(a) => PcOf(w, a).Saw?
    case _ => true
  }

  function Next(w: World, e: Event, interval: real, free: nat): World
    requires interval > 0.0 && Can(w, e)
  {
    match e
    case Wait(seconds) => w.(clock := w.clock + seconds)
    case FirstGuess(now) => if w.bucket.Absent? then Opened(w, now, free) else w
    case Look(a) => Set(w, a, Looked(w.clock))
    case Fetch(a) =>
      var now := w.actors[a].now;
      if w.bucket.Absent? then Set(Opened(w, now, free), a, Idle) else Set(w, a, Saw(now, w.bucket.doc))
    case Pay(a) =>
      var Saw(now, doc) := w.actors[a];
      var tokens := Refill(doc.tokens, now - doc.updatedAt, interval, free);
      if tokens < 1.0 || w.bucket.Absent? || w.bucket.doc.v != doc.v then Set(w, a, Idle)
      else
        Set(w, a, Idle).(bucket := Stored(Doc(tokens - 1.0, now, doc.v + 1)), spent := w.spent + 1,
                         back := w.back + Max(doc.updatedAt - now, 0.0))
  }

  predicate PcInv(w: World, pc: Pc) {
    match pc
    case Idle => true
    case Looked(now) => 0.0 <= now <= w.clock
    case Saw(now, doc) =>
      && 0.0 <= now <= w.clock && w.bucket.Stored? && doc.v <= w.bucket.doc.v
      && (doc.v == w.bucket.doc.v ==> doc == w.bucket.doc)
  }

  predicate Inv(w: World, interval: real, free: nat)
    requires interval > 0.0
  {
    && w.back >= 0.0 && w.clock >= 0.0
    && (forall a :: a in w.actors ==> PcInv(w, w.actors[a]))
    && (w.bucket.Absent? ==> w.spent == 0)
    && (w.bucket.Stored? ==>
          var doc := w.bucket.doc;
          0.0 <= doc.tokens && 0.0 <= doc.updatedAt <= w.clock
          && w.spent as real + doc.tokens <= free as real + (doc.updatedAt + w.back) / interval)
  }

  /** Paying keeps the account: a token for every interval that the bucket's time moves on, or is counted as moved back. */
  lemma PayBalances(doc: Doc, now: real, back: real, interval: real, free: nat, spent: nat)
    requires interval > 0.0
    requires spent as real + doc.tokens <= free as real + (doc.updatedAt + back) / interval
    ensures var tokens := Refill(doc.tokens, now - doc.updatedAt, interval, free);
            spent as real + tokens <= free as real + (now + back + Max(doc.updatedAt - now, 0.0)) / interval
  {
    DivAdd(doc.updatedAt + back, Max(now - doc.updatedAt, 0.0), interval);
  }

  lemma PayKeepsInv(w: World, a: nat, interval: real, free: nat)
    requires interval > 0.0 && Inv(w, interval, free) && PcOf(w, a).Saw?
    ensures Inv(Next(w, Pay(a), interval, free), interval, free)
  {
    assert PcInv(w, w.actors[a]);
    var Saw(now, doc) := w.actors[a];
    var w' := Next(w, Pay(a), interval, free);
    forall b | b in w'.actors
      ensures PcInv(w', w'.actors[b])
    {
      if b != a {
        assert PcInv(w, w.actors[b]);
      }
    }
    if w'.spent > w.spent {
      PayBalances(doc, now, w.back, interval, free, w.spent);
    }
  }

  lemma NextKeepsInv(w: World, e: Event, interval: real, free: nat)
    requires interval > 0.0 && free >= 1 && Inv(w, interval, free) && Can(w, e)
    ensures Inv(Next(w, e, interval, free), interval, free)
  {
    var w' := Next(w, e, interval, free);
    if e.Pay? {
      PayKeepsInv(w, e.actor, interval, free);
    } else {
      forall b | b in w'.actors
        ensures PcInv(w', w'.actors[b])
      {
        if b in w.actors {
          assert PcInv(w, w.actors[b]);
        }
      }
      if w.bucket.Absent? && w'.bucket.Stored? {
        DivLe(w'.bucket.doc.updatedAt + w.back, interval, 0.0);
      }
    }
  }

  datatype Run = Begin | Then(before: Run, event: Event)

  function End(r: Run, interval: real, free: nat): World
    requires interval > 0.0 && Valid(r, interval, free)
    decreases r, 1
  {
    match r
    case Begin => World(Absent, 0.0, 0, 0.0, map[])
    case Then(before, e) => Next(End(before, interval, free), e, interval, free)
  }

  predicate Valid(r: Run, interval: real, free: nat)
    requires interval > 0.0
    decreases r, 0
  {
    r.Then? ==> Valid(r.before, interval, free) && Can(End(r.before, interval, free), r.event)
  }

  lemma {:induction false} AlwaysInv(r: Run, interval: real, free: nat)
    requires interval > 0.0 && free >= 1 && Valid(r, interval, free)
    ensures Inv(End(r, interval, free), interval, free)
  {
    if r.Then? {
      AlwaysInv(r.before, interval, free);
      NextKeepsInv(End(r.before, interval, free), r.event, interval, free);
    }
  }

  /** Any number of attempts in any interleaving spend at most the free guesses and one token for every interval of the time
      that has passed, plus of the time by which attempts have set the bucket back. */
  lemma SpendBound(r: Run, interval: real, free: nat)
    requires interval > 0.0 && free >= 1 && Valid(r, interval, free)
    ensures var w := End(r, interval, free);
            w.spent as real <= free as real + (w.clock + w.back) / interval
  {
    AlwaysInv(r, interval, free);
    var w := End(r, interval, free);
    if w.bucket.Stored? {
      DivAdd(w.bucket.doc.updatedAt + w.back, w.clock - w.bucket.doc.updatedAt, interval);
      DivLe(w.clock - w.bucket.doc.updatedAt, interval, 0.0);
    } else {
      DivLe(w.clock + w.back, interval, 0.0);
    }
  }

  // ---------- stale clocks ----------

  /** What a bucket has paid out and still holds, beyond one token for every interval of its time. */
  function Account(spent: nat, doc: Doc, interval: real): real
    requires interval > 0.0
  {
    spent as real + doc.tokens - doc.updatedAt / interval
  }

  lemma QuotientLe(a: real, b: real, i: real)
    requires i > 0.0
    ensures a / i <= b / i <==> a <= b
  {
    DivLe(a, i, b / i);
    assert b / i * i == b;
  }

  /** What paying leaves of a bucket. */
  function Paid(doc: Doc, now: real, interval: real, free: nat): Doc
    requires interval > 0.0
  {
    Doc(Refill(doc.tokens, now - doc.updatedAt, interval, free) - 1.0, now, doc.v + 1)
  }

  /** Paying raises no account exactly if the clock was read no earlier than the bucket was last written. */
  lemma PayRisesIff(doc: Doc, now: real, interval: real, free: nat, spent: nat)
    requires interval > 0.0 && doc.tokens <= free as real
    ensures Account(spent + 1, Paid(doc, now, interval, free), interval) <= Account(spent, doc, interval)
            <==> now >= doc.updatedAt
  {
    QuotientLe(doc.updatedAt, now, interval);
    DivAdd(doc.updatedAt, now - doc.updatedAt, interval);
  }

  /** The attempt gets past its read with a token to pay, and finds the bucket as it was. */
  predicate Pays(w: World, e: Event, interval: real, free: nat)
    requires interval > 0.0
  {
    e.Pay? && PcOf(w, e.actor).Saw? && w.bucket.Stored? &&
    var Saw(now, doc) := w.actors[e.actor];
    w.bucket.doc.v == doc.v && Refill(doc.tokens, now - doc.updatedAt, interval, free) >= 1.0
  }

  /** Every attempt that paid had read the clock no earlier than the bucket was last written. */
  predicate InOrder(r: Run, interval: real, free: nat)
    requires interval > 0.0 && Valid(r, interval, free)
  {
    r.Then? ==>
      && InOrder(r.before, interval, free)
      && var w := End(r.before, interval, free);
         Pays(w, r.event, interval, free) ==> PcOf(w, r.event.actor).now >= w.bucket.doc.updatedAt
  }

  /** No step along the run has raised the account of the bucket. */
  predicate NeverRises(r: Run, interval: real, free: nat)
    requires interval > 0.0 && Valid(r, interval, free)
  {
    r.Then? ==>
      && NeverRises(r.before, interval, free)
      && var w, w' := End(r.before, interval, free), End(r, interval, free);
         w.bucket.Stored? && w'.bucket.Stored? ==>
           Account(w'.spent, w'.bucket.doc, interval) <= Account(w.spent, w.bucket.doc, interval)
  }

  predicate Capped(w: World, free: nat) {
    w.bucket.Stored? ==> w.bucket.doc.tokens <= free as real
  }

  lemma {:induction false} AlwaysCapped(r: Run, interval: real, free: nat)
    requires interval > 0.0 && Valid(r, interval, free)
    ensures Capped(End(r, interval, free), free)
  {
    if r.Then? {
      AlwaysCapped(r.before, interval, free);
    }
  }

  lemma StepRisesIff(w: World, e: Event, interval: real, free: nat)
    requires interval > 0.0 && Inv(w, interval, free) && Capped(w, free) && Can(w, e) && w.bucket.Stored?
    ensures var w' := Next(w, e, interval, free);
            && w'.bucket.Stored?
            && (Account(w'.spent, w'.bucket.doc, interval) <= Account(w.spent, w.bucket.doc, interval)
                <==> (Pays(w, e, interval, free) ==> PcOf(w, e.actor).now >= w.bucket.doc.updatedAt))
  {
    if Pays(w, e, interval, free) {
      assert PcInv(w, w.actors[e.actor]);
      PayRisesIff(w.bucket.doc, w.actors[e.actor].now, interval, free, w.spent);
    }
  }

  /** Along a run no step raises the account exactly if every payment was in order. */
  lemma {:induction false} NeverRisesIff(r: Run, interval: real, free: nat)
    requires interval > 0.0 && free >= 1 && Valid(r, interval, free)
    ensures NeverRises(r, interval, free) <==> InOrder(r, interval, free)
  {
    if r.Then? {
      NeverRisesIff(r.before, interval, free);
      AlwaysInv(r.before, interval, free);
      AlwaysCapped(r.before, interval, free);
      var w := End(r.before, interval, free);
      if w.bucket.Stored? {
        StepRisesIff(w, r.event, interval, free);
      }
    }
  }

  lemma {:induction false} InOrderNeverBack(r: Run, interval: real, free: nat)
    requires interval > 0.0 && free >= 1 && Valid(r, interval, free) && InOrder(r, interval, free)
    ensures End(r, interval, free).back == 0.0
  {
    if r.Then? {
      InOrderNeverBack(r.before, interval, free);
      AlwaysInv(r.before, interval, free);
      var w := End(r.before, interval, free);
      if Pays(w, r.event, interval, free) {
        assert PcInv(w, w.actors[r.event.actor]);
      }
    }
  }

  /** With a single free guess a payment leaves less than a token, and only a later clock refills it. */
  predicate Drained(w: World) {
    w.bucket.Stored? ==> w.bucket.doc.tokens <= 0.0
  }

  lemma {:induction false} SingleInOrder(r: Run, interval: real)
    requires interval > 0.0 && Valid(r, interval, 1)
    ensures InOrder(r, interval, 1) && Drained(End(r, interval, 1))
  {
    if r.Then? {
      SingleInOrder(r.before, interval);
      AlwaysInv(r.before, interval, 1);
      var w := End(r.before, interval, 1);
      if Pays(w, r.event, interval, 1) {
        assert PcInv(w, w.actors[r.event.actor]);
      }
    }
  }

  /** So nobody gets past the budget within the window, as long as every payment is in order; with a single free guess it
      always is. */
  lemma WithinBudget(r: Run, window: real, l: Limits)
    requires Sane(l) && window >= 0.0 && RefillInterval(window, l) > 0.0
    requires Valid(r, RefillInterval(window, l), l.free)
    requires End(r, RefillInterval(window, l), l.free).clock <= window
    requires l.free == 1 || InOrder(r, RefillInterval(window, l), l.free)
    requires window <= l.lockMax * (GuessBudget(l) - l.free as real)
    ensures End(r, RefillInterval(window, l), l.free).spent as real <= GuessBudget(l)
  {
    var i := RefillInterval(window, l);
    var w := End(r, i, l.free);
    if l.free == 1 {
      SingleInOrder(r, i);
    }
    InOrderNeverBack(r, i, l.free);
    SpendBound(r, i, l.free);
    BudgetIff(window, l);
    DivAdd(w.clock, window - w.clock, i);
    DivLe(window - w.clock, i, 0.0);
  }

  // ---------- a stale clock ----------

  /** Any run spends at most the free guesses and one token for every interval of the time that has passed. */
  ghost predicate AlwaysBounded(interval: real, free: nat)
    requires interval > 0.0
  {
    forall r :: Valid(r, interval, free) ==> Bounded(End(r, interval, free), interval, free)
  }

  predicate Bounded(w: World, interval: real, free: nat)
    requires interval > 0.0
  {
    w.spent as real <= free as real + w.clock / interval
  }

  lemma OneMore(r: Run, e: Event, w: World, w': World, interval: real, free: nat)
    requires interval > 0.0
    requires Valid(r, interval, free) && End(r, interval, free) == w && Can(w, e) && Next(w, e, interval, free) == w'
    ensures Valid(Then(r, e), interval, free) && End(Then(r, e), interval, free) == w'
  {
  }

  /** A whole try at one time. */
  lemma OneTry(r: Run, a: nat, w: World, doc: Doc, interval: real, free: nat)
    requires interval > 0.0
    requires Valid(r, interval, free) && End(r, interval, free) == w && w.bucket == Stored(doc)
    requires w.clock >= doc.updatedAt && Refill(doc.tokens, w.clock - doc.updatedAt, interval, free) >= 1.0
    ensures var r' := Then(Then(Then(r, Look(a)), Fetch(a)), Pay(a));
            && Valid(r', interval, free)
            && End(r', interval, free) == w.(actors := w.actors[a := Idle], spent := w.spent + 1,
                                             bucket := Stored(Paid(doc, w.clock, interval, free)))
  {
    var w1, w2 := Set(w, a, Looked(w.clock)), Set(w, a, Saw(w.clock, doc));
    OneMore(r, Look(a), w, w1, interval, free);
    assert Set(w1, a, w2.actors[a]) == w2;
    OneMore(Then(r, Look(a)), Fetch(a), w1, w2, interval, free);
    assert Set(w2, a, Idle) == Set(w, a, Idle);
    OneMore(Then(Then(r, Look(a)), Fetch(a)), Pay(a), w2, Next(w2, Pay(a), interval, free), interval, free);
  }

  lemma RefillOne(tokens: real, interval: real, free: nat)
    requires interval > 0.0 && tokens <= free as real
    ensures Refill(tokens, interval, interval, free) == Min(free as real, tokens + 1.0)
    ensures forall elapsed: real :: elapsed <= 0.0 ==> Refill(tokens, elapsed, interval, free) == tokens
  {
    assert interval / interval == 1.0;
  }

  /** One attempt has read its clock at 0, and an interval later another one has paid. */
  function AfterFirst(interval: real, free: nat): World {
    World(Stored(Doc(free as real - 1.0, interval, 1)), interval, 2, 0.0, map[1 := Looked(0.0), 2 := Idle])
  }

  lemma LookedAtOnce(interval: real, free: nat) returns (r: Run)
    requires interval > 0.0
    ensures Valid(r, interval, free)
    ensures End(r, interval, free)
            == World(Stored(Doc(free as real - 1.0, 0.0, 0)), interval, 1, 0.0, map[1 := Looked(0.0)])
  {
    var w1 := World(Stored(Doc(free as real - 1.0, 0.0, 0)), 0.0, 1, 0.0, map[]);
    var w2 := Set(w1, 1, Looked(0.0));
    r := Then(Begin, FirstGuess(0.0));
    OneMore(Begin, FirstGuess(0.0), World(Absent, 0.0, 0, 0.0, map[]), w1, interval, free);
    OneMore(r, Look(1), w1, w2, interval, free);
    r := Then(r, Look(1));
    OneMore(r, Wait(interval), w2, w2.(clock := interval), interval, free);
    r := Then(r, Wait(interval));
  }

  lemma Overtaken(interval: real, free: nat) returns (r: Run)
    requires interval > 0.0 && free >= 2
    ensures Valid(r, interval, free) && End(r, interval, free) == AfterFirst(interval, free)
  {
    var before := LookedAtOnce(interval, free);
    var doc := Doc(free as real - 1.0, 0.0, 0);
    RefillOne(doc.tokens, interval, free);
    OneTry(before, 2, End(before, interval, free), doc, interval, free);
    r := Then(Then(Then(before, Look(2)), Fetch(2)), Pay(2));
  }

  /** An attempt that read its clock before another one paid sets the bucket's time back. */
  lemma SetBack(interval: real, free: nat) returns (r: Run)
    requires interval > 0.0 && free >= 2
    ensures Valid(r, interval, free)
    ensures var w := End(r, interval, free);
            w.clock == interval && w.spent == 3 && w.bucket == Stored(Doc(free as real - 2.0, 0.0, 2))
  {
    r := Overtaken(interval, free);
    var doc := Doc(free as real - 1.0, interval, 1);
    RefillOne(doc.tokens, interval, free);
    var w1 := AfterFirst(interval, free);
    var w2 := Set(w1, 1, Saw(0.0, doc));
    OneMore(r, Fetch(1), w1, w2, interval, free);
    r := Then(r, Fetch(1));
    OneMore(r, Pay(1), w2, Next(w2, Pay(1), interval, free), interval, free);
    r := Then(r, Pay(1));
  }

  /** The same seconds refill the bucket twice. */
  lemma RefilledTwice(interval: real, free: nat) returns (r: Run)
    requires interval > 0.0 && free >= 2
    ensures Valid(r, interval, free)
    ensures var w := End(r, interval, free);
            w.clock == interval && w.spent == 4 && w.bucket == Stored(Doc(free as real - 2.0, interval, 3))
  {
    var before := SetBack(interval, free);
    var doc := Doc(free as real - 2.0, 0.0, 2);
    RefillOne(doc.tokens, interval, free);
    OneTry(before, 2, End(before, interval, free), doc, interval, free);
    r := Then(Then(Then(before, Look(2)), Fetch(2)), Pay(2));
  }

  /** Tries at one time until no token is left. */
  lemma {:induction false} SpendRest(r: Run, doc: Doc, rest: nat, interval: real, free: nat) returns (r': Run)
    requires interval > 0.0 && Valid(r, interval, free) && rest <= free
    requires var w := End(r, interval, free);
             w.bucket == Stored(doc) && doc.tokens == rest as real && doc.updatedAt == w.clock
    ensures Valid(r', interval, free) && End(r', interval, free).clock == End(r, interval, free).clock
    ensures End(r', interval, free).spent == End(r, interval, free).spent + rest
    decreases rest
  {
    if rest == 0 {
      return r;
    }
    var w := End(r, interval, free);
    RefillOne(doc.tokens, interval, free);
    OneTry(r, 2, w, doc, interval, free);
    var next := Then(Then(Then(r, Look(2)), Fetch(2)), Pay(2));
    r' := SpendRest(next, Paid(doc, w.clock, interval, free), rest - 1, interval, free);
  }

  /** With two or more free guesses, a stale clock gets one guess more than the free ones and the one of the interval. */
  lemma StaleClockOverspends(interval: real, free: nat)
    requires interval > 0.0 && free >= 2
    ensures exists r :: Valid(r, interval, free) && End(r, interval, free).clock == interval
                        && End(r, interval, free).spent == free + 2
  {
    var r := RefilledTwice(interval, free);
    r := SpendRest(r, Doc(free as real - 2.0, interval, 3), free - 2, interval, free);
  }

  /** Whatever the interval, the bound holds of every run exactly if there is a single free guess. */
  lemma AlwaysBoundedIff(interval: real, free: nat)
    requires interval > 0.0 && free >= 1
    ensures AlwaysBounded(interval, free) <==> free == 1
  {
    if free == 1 {
      forall r | Valid(r, interval, 1)
        ensures Bounded(End(r, interval, 1), interval, 1)
      {
        SingleInOrder(r, interval);
        InOrderNeverBack(r, interval, 1);
        SpendBound(r, interval, 1);
      }
    } else {
      StaleClockOverspends(interval, free);
      var r :| Valid(r, interval, free) && End(r, interval, free).clock == interval
               && End(r, interval, free).spent == free + 2;
      RefillOne(0.0, interval, free);
      assert !Bounded(End(r, interval, free), interval, free);
    }
  }
}
