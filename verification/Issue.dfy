/**
 Time-based identifiers of the node service.  An identifier is its 100-nanosecond time, its 14-bit
 clock sequence and its 48-bit node (section 4.1 of RFC 4122); the bit layout is not modelled.
 */
module IssueIds {
  const SEQUENCES := 0x4000    // values of a 14-bit clock sequence

  type Sequence = q: nat | q < SEQUENCES

  datatype Id = Id(time: int, sequence: Sequence, node: int)

  /** The counter is an int32: incrementing wraps around. */
  function Increment(clock: int): int {
    if clock == 0x7fff_ffff then -0x8000_0000 else clock + 1
  }

  /** `SetClockSequence` keeps the low 14 bits; Euclidean `%` is that for negative counters too. */
  function Low14(clock: int): Sequence { clock % SEQUENCES }

  /** Fourteen bits: the counter shows up to 2^14 - 1, and after -1 comes 0 again. */
  lemma Low14Bits(clock: int)
    ensures 0 <= clock < 0x4000 ==> Low14(clock) == clock
    ensures Low14(clock + 0x4000) == Low14(clock)
    ensures Low14(-1) == 0x3fff
  {
  }

  lemma Low14Increment(clock: int)
    ensures Low14(Increment(clock)) == (Low14(clock) + 1) % SEQUENCES
  {
  }

  predicate Before(a: Id, b: Id) { a.time < b.time || (a.time == b.time && a.sequence < b.sequence) }
}

/** `Issue` called serially: what one call returns, and the order of any sequence of calls. */
module SerialIssue {
  import opened IssueIds

  datatype Clock = Clock(last: int, counter: int)

  /** One undisturbed call that reads `now`. */
  function Issued(c: Clock, now: int, node: int): (Clock, Id) {
    if c.last == now
    then (Clock(now, Increment(c.counter)), Id(now, Low14(Increment(c.counter)), node))
    else (Clock(now, 0), Id(now, 0, node))
  }

  class NodeService {
    const nodeId: int
    var lastTimestamp: int
    var clock: int

    constructor (nodeId: int)
      ensures View() == Clock(0, 0) && this.nodeId == nodeId
    {
      this.nodeId := nodeId;
      lastTimestamp := 0;
      clock := 0;
    }

    function View(): Clock
      reads this
    {
      Clock(lastTimestamp, clock)
    }

    method CompareAndSwap(expected: int, value: int) returns (swapped: bool)
      modifies this
      ensures swapped <==> old(lastTimestamp) == expected
      ensures lastTimestamp == if swapped then value else old(lastTimestamp)
      ensures clock == old(clock)
    {
      swapped := lastTimestamp == expected;
      if swapped {
        lastTimestamp := value;
      }
    }

    /** `now` is the clock reading; `later` the one taken after a lost race. */
    method Issue(now: int, later: int) returns (id: Id)
      modifies this
      ensures (View(), id) == Issued(old(View()), now, nodeId)
    {
      id := Id(now, 0, nodeId);
      var done := false;
      while !done
        invariant !done ==> View() == old(View()) && id == Id(now, 0, nodeId)
        invariant done ==> (View(), id) == Issued(old(View()), now, nodeId)
        decreases !done
      {
        var curr := id.time;
        var seen := lastTimestamp;
        if seen == curr {
          clock := Increment(clock);
          id := id.(sequence := Low14(clock));
          done := true;
        } else {
          var swapped := CompareAndSwap(seen, curr);
          if swapped {
            clock := 0;
            done := true;
          } else if lastTimestamp > curr {
            id := id.(time := later);
          }
        }
      }
    }
  }

  /** The identifiers of serial calls with these clock readings. */
  function IssueAll(c: Clock, readings: seq<int>, node: int): (ids: seq<Id>)
    ensures |ids| == |readings|
    decreases |readings|
  {
    if readings == [] then []
    else
      var (next, id) := Issued(c, readings[0], node);
      [id] + IssueAll(next, readings[1..], node)
  }

  /** How many calls directly before call `i` read the same tick. */
  function Streak(readings: seq<int>, i: nat): (n: nat)
    requires i < |readings|
    ensures n <= i && forall k :: i - n <= k <= i ==> readings[k] == readings[i]
    ensures n < i ==> readings[i - n - 1] != readings[i]
  {
    if i > 0 && readings[i - 1] == readings[i] then Streak(readings, i - 1) + 1 else 0
  }

  /** The clock sequence before wrapping: a streak from the first call on continues the stored tick. */
  function Position(c: Clock, readings: seq<int>, i: nat): nat
    requires i < |readings|
  {
    var n := Streak(readings, i);
    if n == i && readings[i] == c.last then n + Low14(c.counter) + 1 else n
  }

  lemma {:induction false} StreakTail(readings: seq<int>, i: nat)
    requires 0 < i < |readings|
    ensures var n := Streak(readings[1..], i - 1);
            Streak(readings, i) == if n == i - 1 && readings[0] == readings[i] then i else n
  {
    if i > 1 {
      assert readings[1..][i - 1] == readings[i] && readings[1..][i - 2] == readings[i - 1];
      StreakTail(readings, i - 1);
    }
  }

  /** What any call returns, for any clock: also one that steps back. */
  lemma {:induction false} IssuedAt(c: Clock, readings: seq<int>, node: int, i: nat)
    requires i < |readings|
    ensures IssueAll(c, readings, node)[i] == Id(readings[i], Position(c, readings, i) % SEQUENCES, node)
    decreases i
  {
    var (next, id) := Issued(c, readings[0], node);
    Low14Increment(c.counter);
    if i > 0 {
      IssuedAt(next, readings[1..], node, i - 1);
      assert IssueAll(c, readings, node)[i] == IssueAll(next, readings[1..], node)[i - 1];
      PositionTail(c, readings, i);
    }
  }

  /** Seen from the second call on, a call's position is the same up to wrapping. */
  lemma PositionTail(c: Clock, readings: seq<int>, i: nat)
    requires 0 < i < |readings|
    ensures var next := Issued(c, readings[0], 0).0;
            Position(next, readings[1..], i - 1) % SEQUENCES == Position(c, readings, i) % SEQUENCES
  {
    StreakTail(readings, i);
    assert Low14(0) == 0;
    Low14Increment(c.counter);
    WrapOnce(i, Low14(c.counter) + 1);
  }

  lemma WrapOnce(a: nat, b: nat)
    ensures (a + b % SEQUENCES) % SEQUENCES == (a + b) % SEQUENCES
  {
  }

  // ----- Uniqueness

  ghost predicate Distinct(ids: seq<Id>) {
    forall i, j :: 0 <= i < j < |ids| ==> ids[i] != ids[j]
  }

  /** The calls `i` and `j` read one tick, at positions that 14 bits do not tell apart. */
  predicate Clash(c: Clock, readings: seq<int>, i: nat, j: nat)
    requires i < |readings| && j < |readings|
  {
    && readings[i] == readings[j]
    && Position(c, readings, i) % SEQUENCES == Position(c, readings, j) % SEQUENCES
  }

  lemma SameIdExactly(c: Clock, readings: seq<int>, node: int, i: nat, j: nat)
    requires i < |readings| && j < |readings|
    ensures IssueAll(c, readings, node)[i] == IssueAll(c, readings, node)[j] <==> Clash(c, readings, i, j)
  {
    IssuedAt(c, readings, node, i);
    IssuedAt(c, readings, node, j);
  }

  /**
   Whatever the clock does: the identifiers are pairwise distinct exactly when no two calls read one
   tick at the same place, modulo 2^14, of its streaks.
   */
  lemma DistinctExactly(c: Clock, readings: seq<int>, node: int)
    ensures Distinct(IssueAll(c, readings, node)) <==>
            forall i: nat, j: nat :: i < j < |readings| ==> !Clash(c, readings, i, j)
  {
    var ids := IssueAll(c, readings, node);
    forall i: nat, j: nat | i < j < |readings| ensures Clash(c, readings, i, j) <==> ids[i] == ids[j] {
      SameIdExactly(c, readings, node, i, j);
    }
    if i: nat, j: nat :| i < j < |readings| && Clash(c, readings, i, j) {
      assert ids[i] == ids[j];
    }
  }

  /** The clock never comes back to a tick it has left. */
  ghost predicate Contiguous(readings: seq<int>) {
    forall i, k, j :: 0 <= i < k < j < |readings| && readings[i] == readings[j] ==> readings[k] == readings[i]
  }

  /** No tick is read more than 2^14 times in a row. */
  ghost predicate Sparse(readings: seq<int>) {
    forall i: nat :: i < |readings| ==> Streak(readings, i) < SEQUENCES
  }

  lemma SameStreak(c: Clock, readings: seq<int>, i: nat, j: nat)
    requires i <= j < |readings| && j - i <= Streak(readings, j)
    ensures Streak(readings, j) == Streak(readings, i) + (j - i) && readings[i] == readings[j]
    ensures Position(c, readings, j) == Position(c, readings, i) + (j - i)
    decreases j - i
  {
    if i < j {
      SameStreak(c, readings, i, j - 1);
    }
  }

  lemma SameRemainder(p: nat, d: nat)
    ensures p % SEQUENCES == (p + d) % SEQUENCES <==> d % SEQUENCES == 0
  {
  }

  lemma {:induction false} ContiguousStreak(readings: seq<int>, i: nat, j: nat)
    requires Contiguous(readings) && i <= j < |readings| && readings[i] == readings[j]
    ensures j - i <= Streak(readings, j)
  {
    if i < j {
      assert readings[j - 1] == readings[i];
      ContiguousStreak(readings, i, j - 1);
    }
  }

  /** On such a clock two calls collide exactly when they read one tick a multiple of 2^14 calls apart. */
  lemma Collision(c: Clock, readings: seq<int>, node: int, i: nat, j: nat)
    requires Contiguous(readings) && i < j < |readings|
    ensures IssueAll(c, readings, node)[i] == IssueAll(c, readings, node)[j] <==>
            readings[i] == readings[j] && (j - i) % SEQUENCES == 0
  {
    SameIdExactly(c, readings, node, i, j);
    if readings[i] == readings[j] {
      ContiguousClash(c, readings, i, j);
    }
  }

  lemma ContiguousClash(c: Clock, readings: seq<int>, i: nat, j: nat)
    requires Contiguous(readings) && i < j < |readings| && readings[i] == readings[j]
    ensures Clash(c, readings, i, j) <==> (j - i) % SEQUENCES == 0
  {
    ContiguousStreak(readings, i, j);
    SameStreak(c, readings, i, j);
    SameRemainder(Position(c, readings, i), j - i);
  }

  lemma LongStreakClashes(c: Clock, readings: seq<int>, i: nat)
    requires i < |readings| && Streak(readings, i) >= SEQUENCES
    ensures Clash(c, readings, i - SEQUENCES, i)
  {
    var k := i - SEQUENCES;
    SameStreak(c, readings, k, i);
    OneRoundLater(Position(c, readings, k), Position(c, readings, i));
  }

  lemma OneRoundLater(p: nat, q: nat)
    requires q == p + SEQUENCES
    ensures p % SEQUENCES == q % SEQUENCES
  {
  }

  lemma SparseHasNoClash(c: Clock, readings: seq<int>, i: nat, j: nat)
    requires Contiguous(readings) && i < j < |readings| && Streak(readings, j) < SEQUENCES
    ensures !Clash(c, readings, i, j)
  {
    if readings[i] == readings[j] {
      ContiguousStreak(readings, i, j);
      ContiguousClash(c, readings, i, j);
    }
  }

  /**
   On a clock that never comes back to a tick, identifiers are pairwise distinct exactly when no tick
   is read more than 2^14 times, whatever the service stored before.
   */
  lemma ContiguousUniqueness(c: Clock, readings: seq<int>, node: int)
    requires Contiguous(readings)
    ensures Distinct(IssueAll(c, readings, node)) <==> Sparse(readings)
  {
    DistinctExactly(c, readings, node);
    if i: nat :| i < |readings| && Streak(readings, i) >= SEQUENCES {
      LongStreakClashes(c, readings, i);
    } else {
      forall i: nat, j: nat | i < j < |readings| ensures !Clash(c, readings, i, j) {
        SparseHasNoClash(c, readings, i, j);
      }
    }
  }

  /** Where the clock comes back to a tick, two streaks start, both at sequence zero. */
  lemma ComebackClashes(c: Clock, readings: seq<int>, i: nat, k: nat, j: nat)
    requires c.last !in readings && i < k < j < |readings|
    requires readings[i] == readings[j] && readings[k] != readings[i]
    ensures exists a: nat, b: nat :: a < b < |readings| && Clash(c, readings, a, b)
  {
    var a, b := i - Streak(readings, i), j - Streak(readings, j);
    SameStreak(c, readings, a, i);
    SameStreak(c, readings, b, j);
    assert a < b by {
      assert k < b;
    }
    assert Clash(c, readings, a, b);
  }

  /**
   For clock readings none of which is the stored time (a fresh service on a clock past zero), the
   exact condition is what a caller can see: the clock never comes back to a tick it has left, and
   reads none more than 2^14 times.
   */
  lemma SerialUniqueness(c: Clock, readings: seq<int>, node: int)
    requires c.last !in readings
    ensures Distinct(IssueAll(c, readings, node)) <==> Contiguous(readings) && Sparse(readings)
  {
    if Contiguous(readings) {
      ContiguousUniqueness(c, readings, node);
    } else {
      var i, k, j :| 0 <= i < k < j < |readings| && readings[i] == readings[j] && readings[k] != readings[i];
      DistinctExactly(c, readings, node);
      ComebackClashes(c, readings, i, k, j);
    }
  }

  /** So a clock that steps back to an earlier tick and runs through it again repeats an identifier. */
  lemma BackwardClockRepeats(node: int)
    ensures !Distinct(IssueAll(Clock(0, 0), [5, 4, 5], node)) && Distinct(IssueAll(Clock(0, 0), [5, 4, 3], node))
  {
    var back := [5, 4, 5];
    assert !Contiguous(back) by { assert back[0] == back[2] && back[1] != back[0]; }
    SerialUniqueness(Clock(0, 0), back, node);
    var down := [5, 4, 3];
    assert forall i: nat :: i < |down| ==> Streak(down, i) <= i < SEQUENCES;
    SerialUniqueness(Clock(0, 0), down, node);
  }

  // ----- Order

  predicate NonDecreasing(readings: seq<int>) {
    forall i, j :: 0 <= i < j < |readings| ==> readings[i] <= readings[j]
  }

  /** No tick receives more identifiers than there are clock sequences left for it. */
  ghost predicate Fits(c: Clock, readings: seq<int>) {
    forall i: nat :: i < |readings| ==> Position(c, readings, i) < SEQUENCES
  }

  ghost predicate StrictlyOrdered(ids: seq<Id>) {
    forall i, j :: 0 <= i < j < |ids| ==> Before(ids[i], ids[j])
  }

  lemma Wraps(p: nat)
    ensures p < SEQUENCES ==> p % SEQUENCES == p
    ensures p == SEQUENCES ==> p % SEQUENCES == 0
  {
  }

  lemma FittingIsOrdered(c: Clock, readings: seq<int>, node: int, i: nat, j: nat)
    requires NonDecreasing(readings) && i < j < |readings| && Fits(c, readings)
    ensures Before(IssueAll(c, readings, node)[i], IssueAll(c, readings, node)[j])
  {
    IssuedAt(c, readings, node, i);
    IssuedAt(c, readings, node, j);
    assert readings[i] <= readings[j];
    if readings[i] == readings[j] {
      ContiguousStreak(readings, i, j);
      SameStreak(c, readings, i, j);
      Wraps(Position(c, readings, i));
      Wraps(Position(c, readings, j));
    }
  }

  lemma OverflowingIsNot(readings: seq<int>, node: int, i: nat)
    requires i < |readings| && Position(Clock(0, 0), readings, i) >= SEQUENCES
    ensures !StrictlyOrdered(IssueAll(Clock(0, 0), readings, node))
  {
    var c := Clock(0, 0);
    var k := FirstOverflow(readings, i);
    WrapIsNotAfter(c, readings, node, k);
    var ids := IssueAll(c, readings, node);
    assert !Before(ids[k - 1], ids[k]);
  }

  lemma FirstOverflow(readings: seq<int>, i: nat) returns (k: nat)
    requires i < |readings| && Position(Clock(0, 0), readings, i) >= SEQUENCES
    ensures 0 < k <= i && readings[k - 1] == readings[k] && Position(Clock(0, 0), readings, k) == SEQUENCES
  {
    var c := Clock(0, 0);
    assert Low14(0) == 0;
    k := i - (Position(c, readings, i) - SEQUENCES);
    SameStreak(c, readings, k, i);
  }

  lemma WrapIsNotAfter(c: Clock, readings: seq<int>, node: int, k: nat)
    requires 0 < k < |readings| && Position(c, readings, k) == SEQUENCES
    ensures !Before(IssueAll(c, readings, node)[k - 1], IssueAll(c, readings, node)[k]) || readings[k - 1] < readings[k]
  {
    IssuedAt(c, readings, node, k - 1);
    IssuedAt(c, readings, node, k);
    Wraps(SEQUENCES);
  }

  lemma OrderedReadings(c: Clock, readings: seq<int>, node: int)
    requires StrictlyOrdered(IssueAll(c, readings, node))
    ensures NonDecreasing(readings)
  {
    var ids := IssueAll(c, readings, node);
    forall i, j | 0 <= i < j < |readings| ensures readings[i] <= readings[j] {
      IssuedAt(c, readings, node, i);
      IssuedAt(c, readings, node, j);
      assert Before(ids[i], ids[j]);
    }
  }

  /**
   Serial calls of a fresh service return strictly increasing (time, clock sequence) pairs exactly
   when the clock never steps back and no tick receives more than 2^14 identifiers (2^14 - 1 for time
   zero, where the counter starts at one).
   */
  lemma SerialOrder(readings: seq<int>, node: int)
    ensures var c := Clock(0, 0);
            StrictlyOrdered(IssueAll(c, readings, node)) <==> NonDecreasing(readings) && Fits(c, readings)
  {
    var c := Clock(0, 0);
    if !Fits(c, readings) {
      var i: nat :| i < |readings| && Position(c, readings, i) >= SEQUENCES;
      OverflowingIsNot(readings, node, i);
    } else if NonDecreasing(readings) {
      forall i, j | 0 <= i < j < |readings|
        ensures Before(IssueAll(c, readings, node)[i], IssueAll(c, readings, node)[j])
      {
        FittingIsOrdered(c, readings, node, i, j);
      }
    } else if StrictlyOrdered(IssueAll(c, readings, node)) {
      OrderedReadings(c, readings, node);
    }
  }
}

/**
 Concurrent calls of `Issue`.  One action is one atomic load, compare-and-swap, increment or store,
 or one clock reading.
 */
module ConcurrentIssue {
  import opened Options
  import opened Runs
  import opened IssueIds
  import SerialIssue

  datatype Pc =
    | ReadClock
    | Load                     // top of the loop
    | Bump                     // the stored time is ours: about to increment the counter
    | Swap(seen: int)          // about to compare and swap
    | Reset                    // swapped: about to store 0 in the counter
    | Reload                   // lost the race: about to load again
    | ReadClockAgain           // the stored time is ahead of ours
    | Finished(sequence: Sequence)

  /**
   `charges` is history: for each failed compare-and-swap of this call, the index in `wins` of the
   successful one it is charged to.  `mark` is the length of `wins` when the call last loaded.
   */
  datatype Call = Call(time: int, pc: Pc, mark: nat, charges: seq<nat>)

  /** `wins` lists the calls whose compare-and-swap succeeded, in order. */
  datatype State = State(last: int, counter: int, calls: seq<Call>, wins: seq<nat>)

  const INITIAL := State(0, 0, [], [])

  datatype Action = Begin | Step(call: nat, now: int)

  function Next(s: State, a: Action): Option<State> {
    match a
    case Begin => Some(s.(calls := s.calls + [Call(0, ReadClock, 0, [])]))
    case Step(i, now) =>
      if i >= |s.calls| || s.calls[i].pc.Finished? then None
      else Some(Effect(s, i).(calls := s.calls[i := Advance(s, s.calls[i], now)]))
  }

  function Effect(s: State, i: nat): State
    requires i < |s.calls|
  {
    match s.calls[i].pc
    case Bump => s.(counter := Increment(s.counter))
    case Swap(seen) => if s.last == seen then s.(last := s.calls[i].time, wins := s.wins + [i]) else s
    case Reset => s.(counter := 0)
    case _ => s
  }

  function Advance(s: State, c: Call, now: int): Call {
    match c.pc
    case ReadClock => c.(time := now, pc := Load)
    case Load => c.(pc := if s.last == c.time then Bump else Swap(s.last), mark := |s.wins|)
    case Bump => c.(pc := Finished(Low14(Increment(s.counter))))
    case Swap(seen) =>
      if s.last == seen then c.(pc := Reset) else c.(pc := Reload, charges := c.charges + [c.mark])
    case Reset => c.(pc := Finished(0))
    case Reload => c.(pc := if s.last > c.time then ReadClockAgain else Load)
    case ReadClockAgain => c.(time := now, pc := Load)
    case Finished(_) => c
  }

  // ----- Progress

  predicate Increasing(xs: seq<nat>, bound: nat) {
    && (forall i, j :: 0 <= i < j < |xs| ==> xs[i] < xs[j])
    && (forall i :: 0 <= i < |xs| ==> xs[i] < bound)
  }

  ghost predicate CallInv(s: State, i: nat)
    requires i < |s.calls|
  {
    var c := s.calls[i];
    && Increasing(c.charges, |s.wins|) && c.mark <= |s.wins|
    && (c.pc.Swap? ==> Increasing(c.charges, c.mark) && (s.last != c.pc.seen ==> c.mark < |s.wins|))
    && (forall w :: 0 <= w < |s.wins| && s.wins[w] == i ==> Increasing(c.charges, w))
    && (i in s.wins ==> c.pc.Reset? || c.pc.Finished?)
  }

  ghost predicate Inv(s: State) {
    && (forall i: nat :: i < |s.calls| ==> CallInv(s, i))
    && (forall w :: w in s.wins ==> w < |s.calls|)
    && (forall j, k :: 0 <= j < k < |s.wins| ==> s.wins[j] != s.wins[k])
  }

  lemma StepKeepsCallInv(s: State, a: Action, i: nat)
    requires Inv(s) && Next(s, a).Some? && i < |Next(s, a).value.calls|
    ensures CallInv(Next(s, a).value, i)
  {
    if i < |s.calls| {
      assert CallInv(s, i);
    }
  }

  lemma StepKeepsInv(s: State, a: Action)
    requires Inv(s) && Next(s, a).Some?
    ensures Inv(Next(s, a).value)
  {
    var t := Next(s, a).value;
    forall i: nat | i < |t.calls| ensures CallInv(t, i) {
      StepKeepsCallInv(s, a, i);
    }
    if a.Step? {
      assert CallInv(s, a.call);
    }
  }

  lemma InvHolds(acts: seq<Action>)
    requires Exec(Next, INITIAL, acts).Some?
    ensures Inv(Exec(Next, INITIAL, acts).value)
  {
    forall s, a | Inv(s) && Next(s, a).Some? ensures Inv(Next(s, a).value) {
      StepKeepsInv(s, a);
    }
    Invariant(Next, Inv, INITIAL, acts);
  }

  lemma {:induction false} IncreasingBound(xs: seq<nat>, bound: nat)
    requires Increasing(xs, bound)
    ensures |xs| <= bound
  {
    if xs != [] {
      IncreasingBound(xs[..|xs| - 1], xs[|xs| - 1]);
    }
  }

  /** A repetition-free sequence of indices below `n` that misses `i` has at most `n - 1` members. */
  lemma {:induction false} DistinctBound(xs: seq<nat>, n: nat, missing: set<nat>)
    requires forall x :: x in xs ==> x < n && x !in missing
    requires forall x :: x in missing ==> x < n
    requires forall j, k :: 0 <= j < k < |xs| ==> xs[j] != xs[k]
    ensures |xs| + |missing| <= n
    decreases |xs|
  {
    if xs == [] {
      Pigeonhole(missing, n);
    } else {
      forall x | x in xs[1..] ensures x < n && x !in missing + {xs[0]} {
        var k :| 0 <= k < |xs[1..]| && xs[1..][k] == x;
        assert xs[k + 1] == x && xs[k + 1] in xs;
      }
      assert xs[0] in xs;
      DistinctBound(xs[1..], n, missing + {xs[0]});
    }
  }

  lemma {:induction false} Pigeonhole(xs: set<nat>, n: nat)
    requires forall x :: x in xs ==> x < n
    ensures |xs| <= n
  {
    if n == 0 {
      assert xs == {};
    } else {
      Pigeonhole(xs - {n - 1}, n - 1);
    }
  }

  /**
   Lock-free progress.  In every interleaving, the failed compare-and-swaps of one call are charged
   to successful ones of pairwise different other calls, so among `n` calls none fails more than
   `n - 1` times: every call leaves its loop within `n` iterations.
   */
  lemma ProgressBound(acts: seq<Action>, i: nat)
    requires Exec(Next, INITIAL, acts).Some? && i < |Exec(Next, INITIAL, acts).value.calls|
    ensures var s := Exec(Next, INITIAL, acts).value;
            var charges := s.calls[i].charges;
            && (forall j :: 0 <= j < |charges| ==> charges[j] < |s.wins| && s.wins[charges[j]] != i)
            && (forall j, k :: 0 <= j < k < |charges| ==> s.wins[charges[j]] != s.wins[charges[k]])
            && |charges| < |s.calls|
  {
    InvHolds(acts);
    var s := Exec(Next, INITIAL, acts).value;
    assert CallInv(s, i);
    if w :| 0 <= w < |s.wins| && s.wins[w] == i {
      IncreasingBound(s.calls[i].charges, w);
      DistinctBound(s.wins, |s.calls|, {});
    } else {
      IncreasingBound(s.calls[i].charges, |s.wins|);
      DistinctBound(s.wins, |s.calls|, {i});
    }
  }

  function StepsOf(acts: seq<Action>, i: nat): nat {
    if acts == [] then 0
    else (if acts[0].Step? && acts[0].call == i then 1 else 0) + StepsOf(acts[1..], i)
  }

  /** The most steps a call can have taken, read off its failures and its program counter. */
  function Spent(s: State, i: nat): int {
    if i >= |s.calls| then 0
    else
      var c := s.calls[i];
      4 * |c.charges| + match c.pc
        case ReadClock | ReadClockAgain => 0
        case Reload => -1
        case Load => 1
        case Bump => 2
        case Swap(_) => 2
        case Reset => 3
        case Finished(_) => 4
  }

  lemma {:induction false} StepsAreSpent(s: State, acts: seq<Action>, i: nat)
    requires Exec(Next, s, acts).Some?
    ensures StepsOf(acts, i) <= Spent(Exec(Next, s, acts).value, i) - Spent(s, i)
    decreases |acts|
  {
    if acts != [] {
      StepsAreSpent(Next(s, acts[0]).value, acts[1..], i);
    }
  }

  /**
   Every call finishes.  Whatever the others do, a call that has not finished can take its next step,
   and among `n` calls none takes more than `4 * n` steps.
   */
  lemma EveryCallFinishes(acts: seq<Action>, i: nat, now: int)
    requires Exec(Next, INITIAL, acts).Some? && i < |Exec(Next, INITIAL, acts).value.calls|
    ensures var s := Exec(Next, INITIAL, acts).value;
            && StepsOf(acts, i) <= 4 * |s.calls|
            && (Next(s, Step(i, now)).None? <==> s.calls[i].pc.Finished?)
  {
    ProgressBound(acts, i);
    StepsAreSpent(INITIAL, acts, i);
  }

  // ----- A call alone is the serial one

  /** The actions of call `i` running undisturbed to its end. */
  function Alone(s: State, i: nat, now: int): seq<Action> {
    if s.last == now then [Step(i, now), Step(i, now), Step(i, now)]
    else [Step(i, now), Step(i, now), Step(i, now), Step(i, now)]
  }

  lemma AloneIsSerial(s: State, i: nat, now: int, node: int)
    requires i < |s.calls| && s.calls[i].pc.ReadClock?
    ensures Exec(Next, s, Alone(s, i, now)).Some?
    ensures var t := Exec(Next, s, Alone(s, i, now)).value;
            var (clock, id) := SerialIssue.Issued(SerialIssue.Clock(s.last, s.counter), now, node);
            && t.last == clock.last && t.counter == clock.counter && i < |t.calls|
            && t.calls[i].time == id.time && t.calls[i].pc == Finished(id.sequence)
  {
    var a := Step(i, now);
    var s1 := Next(s, a).value;
    var s2 := Next(s1, a).value;
    var s3 := Next(s2, a).value;
    assert s2.calls[i].pc == if s.last == now then Bump else Swap(s.last);
    if s.last == now {
      assert Exec(Next, s3, []) == Some(s3);
      assert [a, a, a][1..] == [a, a] && [a, a][1..] == [a] && [a][1..] == [];
      assert Exec(Next, s2, [a]) == Some(s3);
      assert Exec(Next, s1, [a, a]) == Some(s3);
    } else {
      assert s3.calls[i].pc == Reset;
      var s4 := Next(s3, a).value;
      assert Exec(Next, s4, []) == Some(s4);
      assert [a, a, a, a][1..] == [a, a, a] && [a, a, a][1..] == [a, a] && [a, a][1..] == [a] && [a][1..] == [];
      assert Exec(Next, s3, [a]) == Some(s4);
      assert Exec(Next, s2, [a, a]) == Some(s4);
      assert Exec(Next, s1, [a, a, a]) == Some(s4);
    }
  }

  lemma StepFirst(s: State, a: Action, rest: seq<Action>)
    requires Next(s, a).Some?
    ensures Exec(Next, s, [a] + rest) == Exec(Next, Next(s, a).value, rest)
  {
    assert ([a] + rest)[1..] == rest;
  }

  /** From the top of the loop a call left alone issues its identifier for the time it has. */
  lemma LoadsAlone(s: State, i: nat, now: int) returns (acts: seq<Action>)
    requires i < |s.calls| && s.calls[i].pc.Load?
    ensures (forall a :: a in acts ==> a == Step(i, now)) && Exec(Next, s, acts).Some?
    ensures var t := Exec(Next, s, acts).value;
            && |t.calls| == |s.calls| && t.calls[i].pc.Finished? && t.calls[i].time == s.calls[i].time == t.last
  {
    var a := Step(i, now);
    var s1 := Next(s, a).value;
    var s2 := Next(s1, a).value;
    assert s1.calls[i].pc == if s.last == s.calls[i].time then Bump else Swap(s.last);
    if s.last == s.calls[i].time {
      acts := [a] + ([a] + []);
      StepFirst(s1, a, []);
      StepFirst(s, a, [a] + []);
      assert Exec(Next, s2, []) == Some(s2);
    } else {
      var s3 := Next(s2, a).value;
      assert s2.calls[i].pc == Reset;
      acts := [a] + ([a] + ([a] + []));
      StepFirst(s2, a, []);
      StepFirst(s1, a, [a] + []);
      StepFirst(s, a, [a] + ([a] + []));
      assert Exec(Next, s3, []) == Some(s3);
    }
  }

  /**
   A call that loses the race and is then left alone never takes the stored time back: it reads the
   clock again exactly when the stored time is ahead of its own, and issues for the time it has then.
   The clock is taken not to be behind the stored time.
   */
  lemma LostRaceRetries(s: State, i: nat, now: int) returns (acts: seq<Action>)
    requires i < |s.calls| && s.calls[i].pc.Swap? && s.calls[i].pc.seen != s.last && s.last <= now
    ensures (forall a :: a in acts ==> a == Step(i, now)) && Exec(Next, s, acts).Some?
    ensures var t := Exec(Next, s, acts).value;
            && |t.calls| == |s.calls| && t.calls[i].pc.Finished? && t.calls[i].time == t.last
            && s.last <= t.last == if s.calls[i].time < s.last then now else s.calls[i].time
  {
    var a := Step(i, now);
    var s1 := Next(s, a).value;
    var s2 := Next(s1, a).value;
    assert s1.calls[i].pc == Reload && s1.last == s2.last == s.last;
    if s.calls[i].time < s.last {
      var s3 := Next(s2, a).value;
      acts := LoadsAlone(s3, i, now);
      StepFirst(s2, a, acts);
      acts := [a] + acts;
    } else {
      acts := LoadsAlone(s2, i, now);
    }
    StepFirst(s1, a, acts);
    StepFirst(s, a, [a] + acts);
    acts := [a] + ([a] + acts);
  }
}
