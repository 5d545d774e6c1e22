/** The request rate limiter of the performance script: a start time is reserved under
    a lock and slept for after it is released. Times are reals. */
module RateLimiter {
  import opened Common

  /** One reservation: the clock reading under the lock and the caller's positive delay. */
  datatype Reservation = Reservation(now: real, delay: real)

  function StartOf(next: real, now: real): real {
    MaxReal(now, next)
  }

  /** The start times handed out, in lock order, from the first free time `next`. */
  function Starts(next: real, calls: seq<Reservation>): (starts: seq<real>)
    ensures |starts| == |calls|
    decreases |calls|
  {
    if calls == [] then []
    else
      var start := StartOf(next, calls[0].now);
      [start] + Starts(start + calls[0].delay, calls[1..])
  }

  class Limiter {
    /** The first time no request has reserved yet. */
    var next: real

    constructor ()
      ensures next == 0.0
    {
      next := 0.0;
    }

    /** Reserve a start; the caller then sleeps `wait`. A delay of zero or less reserves nothing. */
    method AwaitSlot(now: real, delay: real) returns (wait: real)
      modifies this
      ensures delay <= 0.0 ==> wait == 0.0 && next == old(next)
      ensures delay > 0.0 ==> [now + wait] == Starts(old(next), [Reservation(now, delay)])
      ensures delay > 0.0 ==> next == now + wait + delay
      ensures 0.0 <= wait
    {
      if delay <= 0.0 { return 0.0; }
      var start := if now < next then next else now;
      next := start + delay;
      wait := start - now;
    }
  }

  predicate PositiveDelays(calls: seq<Reservation>) {
    forall i :: 0 <= i < |calls| ==> calls[i].delay > 0.0
  }

  lemma {:induction false} StartNotBefore(next: real, calls: seq<Reservation>, i: nat)
    requires i < |calls| && PositiveDelays(calls)
    ensures Starts(next, calls)[i] >= calls[i].now
    ensures Starts(next, calls)[i] >= next
    decreases i
  {
    if i != 0 {
      var start := StartOf(next, calls[0].now);
      assert calls[0].delay > 0.0;
      StartNotBefore(start + calls[0].delay, calls[1..], i - 1);
    }
  }

  /** Whatever the clock does and whoever reserves in between, a later start is at least
      the earlier caller's delay after it. */
  lemma {:induction false} StartsAreApart(next: real, calls: seq<Reservation>, i: nat, j: nat)
    requires i < j < |calls| && PositiveDelays(calls)
    ensures Starts(next, calls)[j] >= Starts(next, calls)[i] + calls[i].delay
    decreases i
  {
    var start := StartOf(next, calls[0].now);
    if i == 0 {
      StartNotBefore(start + calls[0].delay, calls[1..], j - 1);
    } else {
      StartsAreApart(start + calls[0].delay, calls[1..], i - 1, j - 1);
    }
  }

  // ----- the limiter never waits longer than spacing demands -----

  /** A schedule that serves the calls in order, none before its `now`, spaced by the delays. */
  predicate Schedule(next: real, calls: seq<Reservation>, times: seq<real>) {
    && |times| == |calls|
    && (forall i :: 0 <= i < |calls| ==> times[i] >= calls[i].now)
    && (calls != [] ==> times[0] >= next)
    && (forall i :: 0 <= i < |calls| - 1 ==> times[i + 1] >= times[i] + calls[i].delay)
  }

  /** Among all such schedules the reserved starts are the earliest, call by call. */
  lemma {:induction false} StartsAreEarliest(next: real, calls: seq<Reservation>, times: seq<real>, i: nat)
    requires Schedule(next, calls, times) && i < |calls|
    ensures Starts(next, calls)[i] <= times[i]
    decreases i
  {
    if i != 0 {
      var start := StartOf(next, calls[0].now);
      assert times[0 + 1] >= times[0] + calls[0].delay;
      EarlierBase(start + calls[0].delay, calls[1..], times[1..]);
      StartsAreEarliest(start + calls[0].delay, calls[1..], times[1..], i - 1);
    }
  }

  lemma EarlierBase(next: real, calls: seq<Reservation>, times: seq<real>)
    requires calls != [] && |times| == |calls| && times[0] >= next
    requires forall i :: 0 <= i < |calls| ==> times[i] >= calls[i].now
    requires forall i :: 0 <= i < |calls| - 1 ==> times[i + 1] >= times[i] + calls[i].delay
    ensures Schedule(next, calls, times)
  {
  }

  // ----- the rate -----

  function Inside(starts: seq<real>, from: real, length: real): nat {
    if starts == [] then 0
    else
      var x := starts[|starts| - 1];
      Inside(starts[..|starts| - 1], from, length) + (if from <= x <= from + length then 1 else 0)
  }

  predicate Spaced(starts: seq<real>, delay: real) {
    forall i, j :: 0 <= i < j < |starts| ==> starts[j] >= starts[i] + delay
  }

  function Times(count: nat, delay: real): real {
    if count == 0 then 0.0 else Times(count - 1, delay) + delay
  }

  /** The last of `c` starts inside the interval lies `c - 1` delays into it. */
  lemma {:induction false} LatestInside(starts: seq<real>, delay: real, from: real, length: real) returns (l: nat)
    requires Spaced(starts, delay) && Inside(starts, from, length) > 0
    ensures l < |starts| && starts[l] <= from + length
    ensures starts[l] >= from + Times(Inside(starts, from, length) - 1, delay)
    decreases |starts|
  {
    var k := |starts| - 1;
    var before := starts[..k];
    if !(from <= starts[k] <= from + length) {
      l := LatestInside(before, delay, from, length);
    } else if Inside(before, from, length) == 0 {
      l := k;
    } else {
      var e := LatestInside(before, delay, from, length);
      assert starts[k] >= starts[e] + delay;
      l := k;
    }
  }

  lemma ProductStep(x: real, delay: real)
    ensures (x - 1.0) * delay + delay == x * delay
  {
  }

  lemma {:induction false} TimesIsProduct(count: nat, delay: real)
    ensures Times(count, delay) == count as real * delay
    decreases count
  {
    if count != 0 {
      TimesIsProduct(count - 1, delay);
      ProductStep(count as real, delay);
    }
  }

  lemma DivisionMonotone(x: real, delay: real, length: real)
    requires delay > 0.0 && x * delay <= length
    ensures x <= length / delay
  {
  }

  lemma {:induction false} QuotientBound(count: nat, delay: real, length: real)
    requires delay > 0.0 && Times(count, delay) <= length
    ensures count <= (length / delay).Floor
  {
    TimesIsProduct(count, delay);
    DivisionMonotone(count as real, delay, length);
  }

  /** With one fixed delay, an interval of length `length` holds at most
      `floor(length / delay) + 1` starts. */
  lemma {:induction false} RateBound(next: real, calls: seq<Reservation>, delay: real, from: real, length: real)
    requires delay > 0.0 && length >= 0.0
    requires forall i :: 0 <= i < |calls| ==> calls[i].delay == delay
    ensures Inside(Starts(next, calls), from, length) <= (length / delay).Floor + 1
  {
    var starts := Starts(next, calls);
    forall i, j | 0 <= i < j < |starts|
      ensures starts[j] >= starts[i] + delay
    {
      StartsAreApart(next, calls, i, j);
    }
    var c := Inside(starts, from, length);
    if c > 0 {
      var l := LatestInside(starts, delay, from, length);
      QuotientBound(c - 1, delay, length);
    } else {
      QuotientBound(0, delay, length);
    }
  }
}
