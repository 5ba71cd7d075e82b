/**
 The rate limiter.  Times are clock readings in nanoseconds.  `Do` runs under a mutex, so its calls
 are serial: each reads the clock, perhaps sleeps, runs the function, and notes the time it returned.
 */
module RateLimiter {

  const DEFAULT_LIMIT := 100_000_000

  /** A call as it happened: clock at entry, start of the function, its return. */
  datatype Call = Call(entry: int, start: int, end: int)

  class Limiter {
    var limit: int
    var lastReqTime: int

    constructor (limit: int, lastReqTime: int)
      ensures this.limit == limit && this.lastReqTime == lastReqTime
    {
      this.limit := limit;
      this.lastReqTime := lastReqTime;
    }

    /**
     `now` is the time at entry, `late` how long a sleep overshoots, `took` how long the function
     runs.
     */
    method Do(now: int, late: nat, took: nat) returns (call: Call)
      modifies this
      ensures limit == Effective(old(limit)) && lastReqTime == call.end
      ensures call.entry == now && call.end == call.start + took
      ensures Paced(Effective(old(limit)), old(lastReqTime), call)
      ensures Prompt(Effective(old(limit)), old(lastReqTime), call, late)
      ensures old(limit) == 0 ==> limit == 100_000_000
    {
      if limit == 0 {
        limit := DEFAULT_LIMIT;
      }
      var lastReq := now - lastReqTime;
      var start := now;
      if lastReq < limit {
        start := now + (limit - lastReq) + late;
      }
      call := Call(now, start, start + took);
      lastReqTime := call.end;
    }
  }

  function Effective(limit: int): int { if limit == 0 then DEFAULT_LIMIT else limit }

  /** What one call guarantees, given when the previous function returned. */
  predicate Paced(limit: int, last: int, call: Call) {
    call.entry <= call.start <= call.end && call.start >= last + limit
  }

  /** A call waits only while it must: for the limit to pass, and as long as its sleep overshoots. */
  predicate Prompt(limit: int, last: int, call: Call, late: nat) {
    if call.entry - last >= limit then call.start == call.entry else call.start - last == limit + late
  }

  /** When the function before call `i` returned. */
  function Before(last: int, calls: seq<Call>, i: nat): int
    requires i <= |calls|
  {
    if i == 0 then last else calls[i - 1].end
  }

  /** Calls in the order in which they held the mutex. */
  predicate Trace(limit: int, last: int, calls: seq<Call>) {
    forall i: nat :: i < |calls| ==> Paced(limit, Before(last, calls, i), calls[i])
  }

  lemma BeforeMore(last: int, calls: seq<Call>, call: Call)
    ensures forall i: nat :: i <= |calls| ==> Before(last, calls + [call], i) == Before(last, calls, i)
  {
  }

  lemma TraceMore(limit: int, last: int, calls: seq<Call>, call: Call)
    requires Trace(limit, last, calls) && Paced(limit, Before(last, calls, |calls|), call)
    ensures Trace(limit, last, calls + [call])
  {
    var more := calls + [call];
    forall i: nat | i < |more| ensures Paced(limit, Before(last, more, i), more[i]) {
      assert Before(last, more, i) == Before(last, calls, i);
    }
  }

  /** Any sequence of calls of one limiter is such a trace. */
  method DoAll(limiter: Limiter, inputs: seq<(int, nat, nat)>) returns (calls: seq<Call>)
    modifies limiter
    ensures |calls| == |inputs| && Trace(Effective(old(limiter.limit)), old(limiter.lastReqTime), calls)
    ensures forall i: nat :: i < |calls| ==>
              && calls[i].entry == inputs[i].0
              && Prompt(
                   Effective(old(limiter.limit)), Before(old(limiter.lastReqTime), calls, i), calls[i], inputs[i].1)
  {
    calls := [];
    for k := 0 to |inputs|
      invariant |calls| == k && Effective(limiter.limit) == Effective(old(limiter.limit))
      invariant limiter.lastReqTime == Before(old(limiter.lastReqTime), calls, k)
      invariant Trace(Effective(old(limiter.limit)), old(limiter.lastReqTime), calls)
      invariant forall i: nat :: i < k ==>
                  && calls[i].entry == inputs[i].0
                  && Prompt(
                   Effective(old(limiter.limit)), Before(old(limiter.lastReqTime), calls, i), calls[i], inputs[i].1)
    {
      var call := limiter.Do(inputs[k].0, inputs[k].1, inputs[k].2);
      BeforeMore(old(limiter.lastReqTime), calls, call);
      TraceMore(Effective(old(limiter.limit)), old(limiter.lastReqTime), calls, call);
      calls := calls + [call];
    }
  }

  /** The starts of two functions are at least as many limits apart as there are calls between. */
  lemma {:induction false} StartsApart(limit: int, last: int, calls: seq<Call>, i: nat, j: nat)
    requires limit > 0 && Trace(limit, last, calls) && i <= j < |calls|
    ensures calls[j].start >= calls[i].start + (j - i) * limit
  {
    if i < j {
      StartsApart(limit, last, calls, i, j - 1);
      assert Paced(limit, Before(last, calls, j), calls[j]);
      assert Paced(limit, Before(last, calls, j - 1), calls[j - 1]);
      assert (j - i) * limit == (j - 1 - i) * limit + limit;
    }
  }

  function StartsIn(calls: seq<Call>, from: int, width: nat): set<nat> {
    set i: nat | i < |calls| && from <= calls[i].start <= from + width
  }

  lemma {:induction false} RangeBound(xs: set<nat>, low: nat, count: nat)
    requires forall x :: x in xs ==> low <= x < low + count
    ensures |xs| <= count
  {
    if count == 0 {
      assert xs == {};
    } else {
      RangeBound(xs - {low + count - 1}, low, count - 1);
    }
  }

  lemma FirstAfter(calls: seq<Call>, from: int) returns (low: nat)
    ensures low <= |calls| && forall i: nat :: i < low ==> calls[i].start < from
    ensures low < |calls| ==> from <= calls[low].start
  {
    low := 0;
    while low < |calls| && calls[low].start < from
      invariant low <= |calls| && forall i: nat :: i < low ==> calls[i].start < from
    {
      low := low + 1;
    }
  }

  /**
   The rate bound: with a positive limit, any time window of length `width` contains at most
   `width / limit + 1` function starts.
   */
  lemma RateBound(limit: int, last: int, calls: seq<Call>, from: int, width: nat)
    requires limit > 0 && Trace(limit, last, calls)
    ensures |StartsIn(calls, from, width)| <= width / limit + 1
  {
    var xs := StartsIn(calls, from, width);
    var low := FirstAfter(calls, from);
    forall x | x in xs ensures low <= x < low + (width / limit + 1) {
      StartsApart(limit, last, calls, low, x);
      AtMostQuotient(x - low, limit, width);
    }
    RangeBound(xs, low, width / limit + 1);
  }

  lemma AtMostQuotient(n: nat, limit: int, width: nat)
    requires limit > 0 && n * limit <= width
    ensures n <= width / limit
  {
    var q := width / limit;
    assert width < (q + 1) * limit;
    if n > q {
      MultiplyMonotone(q + 1, n, limit);
    }
  }

  lemma MultiplyMonotone(a: nat, b: nat, c: nat)
    requires a <= b
    ensures a * c <= b * c
  {
  }
}
