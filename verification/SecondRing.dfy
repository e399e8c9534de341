/** Fifteen minutes of per-second counters in a ring, and the sums, peaks and streaks read from it. */
module SecondRing {

  const N := 900

  datatype Field = Ops | Cmds | Reqs | Errs | Attributed

  /** What one second holds. */
  datatype Cell = Cell(ops: nat, cmds: nat, reqs: nat, errs: nat, attributed: nat, lagMax: real)

  const ZERO := Cell(0, 0, 0, 0, 0, 0.0)

  datatype What =
    | Command(weight: nat)
    | Request(serverError: bool, ops: nat)
    | Lag(ms: real)
    | Tick

  datatype Entry = Entry(sec: int, what: What)

  function Get(c: Cell, f: Field): nat {
    match f case Ops => c.ops case Cmds => c.cmds case Reqs => c.reqs case Errs => c.errs case Attributed => c.attributed
  }

  /** How much an entry adds to a field. */
  function Amount(w: What, f: Field): nat {
    match w
    case Command(weight) => if f == Ops then weight else if f == Cmds then 1 else 0
    case Request(serverError, ops) =>
      if f == Reqs then 1 else if f == Attributed then ops else if f == Errs && serverError then 1 else 0
    case _ => 0
  }

  function Plus(c: Cell, w: What): Cell {
    match w
    case Command(weight) => c.(ops := c.ops + weight, cmds := c.cmds + 1)
    case Request(serverError, ops) =>
      c.(reqs := c.reqs + 1, attributed := c.attributed + ops, errs := if serverError then c.errs + 1 else c.errs)
    case Lag(ms) => if ms > c.lagMax then c.(lagMax := ms) else c
    case Tick => c
  }

  // ---------- the log that the ring stands for ----------

  predicate Touched(log: seq<Entry>, sec: int) {
    exists i :: 0 <= i < |log| && log[i].sec == sec
  }

  /** Everything recorded in one second. */
  function CellOf(log: seq<Entry>, sec: int): Cell {
    if log == [] then ZERO
    else
      var e, c := log[|log| - 1], CellOf(log[..|log| - 1], sec);
      if e.sec == sec then Plus(c, e.what) else c
  }

  /** What a slot holds after a log, for any clock: a new second in the slot starts it afresh. */
  function Slot(log: seq<Entry>, i: int): (int, Cell) {
    if log == [] then (0, ZERO)
    else
      var e, s := log[|log| - 1], Slot(log[..|log| - 1], i);
      if e.sec % N != i then s else (e.sec, Plus(if s.0 == e.sec then s.1 else ZERO, e.what))
  }

  datatype Reading = Absent | Present(cell: Cell)

  function Read(log: seq<Entry>, sec: int): Reading {
    var s := Slot(log, sec % N);
    if s.0 == sec then Present(s.1) else Absent
  }

  class Ring {
    const stamp: array<int>
    const cells: array<Cell>
    ghost var log: seq<Entry>

    ghost predicate Valid()
      reads this, stamp, cells
    {
      && stamp.Length == N && cells.Length == N
      && forall i :: 0 <= i < N ==> Slot(log, i) == (stamp[i], cells[i])
    }

    constructor ()
      ensures Valid() && log == [] && fresh(stamp) && fresh(cells)
    {
      stamp := new int[N](_ => 0);
      cells := new Cell[N](_ => ZERO);
      log := [];
    }

    method Record(sec: int, what: What)
      requires Valid()
      modifies this, stamp, cells
      ensures Valid() && log == old(log) + [Entry(sec, what)]
    {
      var i := sec % N;
      if stamp[i] != sec {
        stamp[i], cells[i] := sec, ZERO;
      }
      cells[i] := Plus(cells[i], what);
      log := log + [Entry(sec, what)];
      assert log[..|log| - 1] == old(log);
    }

    method Value(sec: int) returns (r: Reading)
      requires Valid()
      ensures r == Read(log, sec)
    {
      var i := sec % N;
      r := if stamp[i] != sec then Absent else Present(cells[i]);
    }

    /** The sum over the last `seconds` full seconds, and how many of them exist. */
    method WindowSum(f: Field, seconds: nat, now: int) returns (total: nat, present: nat)
      requires Valid()
      ensures total == ReadSum(log, f, now - 1, seconds) && present == ReadCount(log, now - 1, seconds)
    {
      total, present := 0, 0;
      for age := 0 to seconds
        invariant total == ReadSum(log, f, now - 1, age) && present == ReadCount(log, now - 1, age)
      {
        var value := Value(now - 1 - age);
        if value.Present? {
          present := present + 1;
          total := total + Get(value.cell, f);
        }
      }
    }

    method Peak(now: int, seconds: nat) returns (best: nat)
      requires Valid()
      ensures forall sec :: now - seconds <= sec < now ==> ReadOr0(log, Ops, sec) <= best
      ensures best == 0 || exists sec :: now - seconds <= sec < now && ReadOr0(log, Ops, sec) == best
    {
      best := 0;
      for age := 0 to seconds
        invariant forall sec :: now - age <= sec < now ==> ReadOr0(log, Ops, sec) <= best
        invariant best == 0 || exists sec :: now - age <= sec < now && ReadOr0(log, Ops, sec) == best
      {
        var sec := now - 1 - age;
        var value := Value(sec);
        var ops := if value.Present? then value.cell.ops else 0;
        assert ReadOr0(log, Ops, sec) == ops;
        best := if ops > best then ops else best;
      }
    }

    /** How many of the last full seconds in a row satisfy `p`. */
    method Consecutive(f: Field, p: nat -> bool, now: int, limit: nat) returns (n: nat)
      requires Valid()
      ensures n <= limit && forall sec :: now - n <= sec < now ==> Holds(log, f, p, sec)
      ensures n < limit ==> !Holds(log, f, p, now - 1 - n)
    {
      n := 0;
      while n < limit
        invariant n <= limit && forall sec :: now - n <= sec < now ==> Holds(log, f, p, sec)
      {
        var value := Value(now - 1 - n);
        if value.Absent? || !p(Get(value.cell, f)) {
          return;
        }
        n := n + 1;
      }
    }
  }

  function ReadOr0(log: seq<Entry>, f: Field, sec: int): nat {
    match Read(log, sec) case Absent => 0 case Present(c) => Get(c, f)
  }

  predicate Holds(log: seq<Entry>, f: Field, p: nat -> bool, sec: int) {
    Read(log, sec).Present? && p(Get(Read(log, sec).cell, f))
  }

  function ReadSum(log: seq<Entry>, f: Field, end: int, seconds: nat): nat {
    if seconds == 0 then 0 else ReadSum(log, f, end, seconds - 1) + ReadOr0(log, f, end - (seconds - 1))
  }

  function ReadCount(log: seq<Entry>, end: int, seconds: nat): nat {
    if seconds == 0 then 0
    else ReadCount(log, end, seconds - 1) + if Read(log, end - (seconds - 1)).Present? then 1 else 0
  }

  // ---------- a clock that does not go back ----------

  predicate Forward(log: seq<Entry>) {
    && (forall i :: 0 <= i < |log| ==> log[i].sec > 0)
    && (forall i, j :: 0 <= i < j < |log| ==> log[i].sec <= log[j].sec)
  }

  function Clock(log: seq<Entry>): int {
    if log == [] then 0 else log[|log| - 1].sec
  }

  /** A slot holds the latest second that it stands for, whole. */
  lemma {:induction false} SlotIsLatest(log: seq<Entry>, i: int)
    requires Forward(log) && 0 <= i < N
    ensures var s := Slot(log, i);
            && s.1 == CellOf(log, s.0) && s.0 <= Clock(log)
            && (s.0 == 0 || (s.0 % N == i && Touched(log, s.0)))
            && (forall k :: 0 <= k < |log| && log[k].sec % N == i ==> log[k].sec <= s.0)
  {
    if log != [] {
      var init, e := log[..|log| - 1], log[|log| - 1];
      SlotIsLatest(init, i);
      var s := Slot(init, i);
      if e.sec % N == i {
        assert log[|log| - 1].sec == e.sec;
        if s.0 != e.sec {
          NothingYet(init, e.sec);
        }
      } else if s.0 > 0 {
        var k :| 0 <= k < |init| && init[k].sec == s.0;
        assert log[k].sec == s.0;
      } else {
        ZeroUntouched(init);
      }
    }
  }

  lemma {:induction false} NothingYet(log: seq<Entry>, sec: int)
    requires !Touched(log, sec)
    ensures CellOf(log, sec) == ZERO
  {
    if log != [] {
      var init := log[..|log| - 1];
      assert log[|log| - 1].sec != sec;
      forall k | 0 <= k < |init|
        ensures init[k].sec != sec
      {
        assert log[k].sec != sec;
      }
      NothingYet(init, sec);
    }
  }

  lemma ZeroUntouched(log: seq<Entry>)
    requires Forward(log)
    ensures !Touched(log, 0)
  {
  }

  /** Within 900 seconds of the clock, a reading is exactly what was recorded in that second, or absent if nothing was; never
      another second's data. */
  lemma ReadExact(log: seq<Entry>, sec: int)
    requires Forward(log) && sec > 0 && sec > Clock(log) - 900
    ensures Read(log, sec) == if Touched(log, sec) then Present(CellOf(log, sec)) else Absent
  {
    var i := sec % N;
    SlotIsLatest(log, i);
    var s := Slot(log, i);
    if Touched(log, sec) {
      var k :| 0 <= k < |log| && log[k].sec == sec;
      assert log[k].sec <= s.0;
      assert (s.0 - sec) % N == 0;
    }
  }

  /** The second that is 900 behind the clock has given way to the clock's own. */
  lemma ReadTooOld(log: seq<Entry>, sec: int)
    requires Forward(log) && sec > 0 && log != [] && sec == Clock(log) - N
    ensures Read(log, sec) == Absent
  {
    SlotIsLatest(log, sec % N);
    assert log[|log| - 1].sec % N == sec % N;
  }

  // ---------- sums over the log ----------

  /** Everything that was recorded for a field in the seconds from `first` to `last`. */
  function Recorded(log: seq<Entry>, f: Field, first: int, last: int): nat {
    if log == [] then 0
    else
      var e := log[|log| - 1];
      Recorded(log[..|log| - 1], f, first, last) + if first <= e.sec <= last then Amount(e.what, f) else 0
  }

  lemma {:induction false} CellSums(log: seq<Entry>, f: Field, sec: int)
    ensures Get(CellOf(log, sec), f) == Recorded(log, f, sec, sec)
  {
    if log != [] {
      CellSums(log[..|log| - 1], f, sec);
    }
  }

  /** The lag of a second is the greatest that was recorded in it, or zero. */
  lemma {:induction false} LagIsGreatest(log: seq<Entry>, sec: int)
    ensures forall i :: 0 <= i < |log| && log[i].sec == sec && log[i].what.Lag? ==> log[i].what.ms <= CellOf(log, sec).lagMax
    ensures CellOf(log, sec).lagMax == 0.0
            || exists i :: 0 <= i < |log| && log[i].sec == sec && log[i].what == Lag(CellOf(log, sec).lagMax)
  {
    if log != [] {
      var init := log[..|log| - 1];
      LagIsGreatest(init, sec);
      assert forall i :: 0 <= i < |init| ==> log[i] == init[i];
    }
  }

  lemma {:induction false} RecordedSplits(log: seq<Entry>, f: Field, first: int, last: int)
    requires first <= last
    ensures Recorded(log, f, first, last) == Recorded(log, f, first, first) + Recorded(log, f, first + 1, last)
  {
    if log != [] {
      RecordedSplits(log[..|log| - 1], f, first, last);
    }
  }

  lemma {:induction false} RecordedNothing(log: seq<Entry>, f: Field, first: int, last: int)
    requires first > last
    ensures Recorded(log, f, first, last) == 0
  {
    if log != [] {
      RecordedNothing(log[..|log| - 1], f, first, last);
    }
  }

  /** A window of up to 899 full seconds sums to exactly what the whole log recorded in it. */
  lemma {:induction false} WindowSumExact(log: seq<Entry>, f: Field, now: int, seconds: nat)
    requires Forward(log) && Clock(log) <= now && seconds < 900 && seconds < now
    ensures ReadSum(log, f, now - 1, seconds) == Recorded(log, f, now - seconds, now - 1)
  {
    if seconds == 0 {
      RecordedNothing(log, f, now, now - 1);
    } else {
      var sec := now - seconds;
      WindowSumExact(log, f, now, seconds - 1);
      ReadExact(log, sec);
      CellSums(log, f, sec);
      RecordedSplits(log, f, sec, now - 1);
      if !Touched(log, sec) {
        NothingYet(log, sec);
      }
    }
  }

  /** And the number of seconds that exist is that of the seconds in which something was recorded. */
  lemma {:induction false} PresentExact(log: seq<Entry>, now: int, seconds: nat)
    requires Forward(log) && Clock(log) <= now && seconds < 900 && seconds < now
    ensures ReadCount(log, now - 1, seconds) == |set sec: int | now - seconds <= sec < now && Touched(log, sec)|
  {
    if seconds == 0 {
      assert (set sec: int | now <= sec < now && Touched(log, sec)) == {};
    } else {
      var first := now - seconds;
      PresentExact(log, now, seconds - 1);
      ReadExact(log, first);
      var later, all := set sec: int | first + 1 <= sec < now && Touched(log, sec),
                        set sec: int | first <= sec < now && Touched(log, sec);
      assert all == if Touched(log, first) then later + {first} else later;
    }
  }

  /** A second counts towards a streak exactly if something was recorded in it and its total satisfies `p`. */
  lemma HoldsExact(log: seq<Entry>, f: Field, p: nat -> bool, now: int, sec: int)
    requires Forward(log) && Clock(log) <= now && 0 < sec < now && now - sec < 900
    ensures Holds(log, f, p, sec) <==> Touched(log, sec) && p(Recorded(log, f, sec, sec))
  {
    ReadExact(log, sec);
    CellSums(log, f, sec);
  }

  /** The peak over the default 900 seconds is exact for the latest 899; the first second of the window takes part exactly if
      nothing has been recorded in the running second. */
  lemma PeakWindow(log: seq<Entry>, now: int, sec: int)
    requires Forward(log) && Clock(log) <= now && 0 < sec < now && now - sec <= 900
    ensures ReadOr0(log, Ops, sec) == if now - sec == 900 && Clock(log) == now then 0 else Recorded(log, Ops, sec, sec)
  {
    if now - sec == N && Clock(log) == now {
      ReadTooOld(log, sec);
    } else {
      ReadExact(log, sec);
      CellSums(log, Ops, sec);
      if !Touched(log, sec) {
        NothingYet(log, sec);
      }
    }
  }
}
