/**
 * Per-node health tracking of `crates/bn-manager/src/health.rs`: a latency average, a
 * sliding window of outcomes, and the composite score that decides whether a node is
 * healthy. Latencies and scores are exact reals.
 */
module Health {
  import opened Common

  const EMA_ALPHA: real := 0.3
  const WINDOW_SIZE: nat := 100
  const UNHEALTHY_THRESHOLD: real := 0.2
  const W_LATENCY: real := 0.4
  const W_ERROR_RATE: real := 0.6
  const MAX_LATENCY_MS: real := 5000.0

  datatype View = View(emaMs: Option<real>, outcomes: seq<bool>)

  const Fresh := View(None, [])

  function Errors(outcomes: seq<bool>): (n: nat)
    ensures n <= |outcomes|
  {
    if outcomes == [] then 0 else Errors(outcomes[1..]) + if outcomes[0] then 0 else 1
  }

  function ErrorRate(outcomes: seq<bool>): real {
    if outcomes == [] then 0.0 else Errors(outcomes) as real / |outcomes| as real
  }

  function LatencyScore(emaMs: Option<real>): real {
    if emaMs.None? then 0.5 else MaxReal(1.0 - emaMs.value / MAX_LATENCY_MS, 0.0)
  }

  function Score(v: View): real {
    W_LATENCY * LatencyScore(v.emaMs) + W_ERROR_RATE * (1.0 - ErrorRate(v.outcomes))
  }

  predicate IsHealthy(v: View) {
    Score(v) > UNHEALTHY_THRESHOLD
  }

  function UpdateEma(emaMs: Option<real>, ms: real): Option<real> {
    if emaMs.Some? then Some(EMA_ALPHA * ms + (1.0 - EMA_ALPHA) * emaMs.value) else Some(ms)
  }

  /** Drop the oldest outcome once the window is full, then append. */
  function Push(outcomes: seq<bool>, ok: bool): seq<bool> {
    (if WINDOW_SIZE <= |outcomes| then outcomes[1..] else outcomes) + [ok]
  }

  datatype Event = Success(ms: real) | Error

  function Apply(v: View, e: Event): View {
    match e
    case Success(ms) => View(UpdateEma(v.emaMs, ms), Push(v.outcomes, true))
    case Error => View(v.emaMs, Push(v.outcomes, false))
  }

  function Replay(v: View, events: seq<Event>): View
    decreases |events|
  {
    if events == [] then v else Apply(Replay(v, events[..|events| - 1]), events[|events| - 1])
  }

  /** A latency is a duration, so it is never negative. */
  ghost predicate Durations(events: seq<Event>) {
    forall e :: e in events && e.Success? ==> 0.0 <= e.ms
  }

  ghost predicate Reachable(v: View) {
    exists events :: Durations(events) && Replay(Fresh, events) == v
  }

  // ----- the window -----

  function Outcomes(events: seq<Event>): seq<bool> {
    seq(|events|, i requires 0 <= i < |events| => events[i].Success?)
  }

  function Last(s: seq<bool>): seq<bool> {
    if |s| <= WINDOW_SIZE then s else s[|s| - WINDOW_SIZE..]
  }

  lemma PushKeepsLast(all: seq<bool>, ok: bool)
    ensures Push(Last(all), ok) == Last(all + [ok])
  {
  }

  /** Whatever happened, the window holds exactly the last hundred outcomes. */
  lemma {:induction false} WindowIsLastOutcomes(v: View, events: seq<Event>)
    requires |v.outcomes| <= WINDOW_SIZE
    ensures Replay(v, events).outcomes == Last(v.outcomes + Outcomes(events))
    decreases |events|
  {
    var all := v.outcomes + Outcomes(events);
    if events == [] {
      assert all == v.outcomes;
    } else {
      var n := |events| - 1;
      WindowIsLastOutcomes(v, events[..n]);
      var before := v.outcomes + Outcomes(events[..n]);
      assert all == before + [events[n].Success?];
      PushKeepsLast(before, events[n].Success?);
    }
  }

  lemma {:induction false} EmaIsNonNegative(v: View, events: seq<Event>)
    requires Durations(events) && (v.emaMs.Some? ==> 0.0 <= v.emaMs.value)
    ensures var e := Replay(v, events).emaMs; e.Some? ==> 0.0 <= e.value
    decreases |events|
  {
    if events != [] {
      var n := |events| - 1;
      assert events[n] in events && forall e :: e in events[..n] ==> e in events;
      EmaIsNonNegative(v, events[..n]);
    }
  }

  lemma ReachableBounds(v: View)
    requires Reachable(v)
    ensures |v.outcomes| <= WINDOW_SIZE && (v.emaMs.Some? ==> 0.0 <= v.emaMs.value)
  {
    var events :| Durations(events) && Replay(Fresh, events) == v;
    WindowIsLastOutcomes(Fresh, events);
    EmaIsNonNegative(Fresh, events);
  }

  // ----- the score -----

  lemma QuotientBounds(a: real, b: real, lo: real, hi: real)
    requires 0.0 < b && lo * b <= a <= hi * b
    ensures lo <= a / b <= hi
  {
  }

  lemma ErrorRateBounds(outcomes: seq<bool>)
    ensures 0.0 <= ErrorRate(outcomes) <= 1.0
  {
  }

  lemma LatencyScoreBounds(emaMs: Option<real>)
    requires emaMs.Some? ==> 0.0 <= emaMs.value
    ensures 0.0 <= LatencyScore(emaMs) <= 1.0
    ensures LatencyScore(emaMs) > 0.5 <==> emaMs.Some? && emaMs.value < 2500.0
  {
  }

  /** The score of every reachable state lies in [0, 1]. */
  lemma ScoreInUnitInterval(v: View)
    requires Reachable(v)
    ensures 0.0 <= Score(v) <= 1.0
  {
    ReachableBounds(v);
    ErrorRateBounds(v.outcomes);
    LatencyScoreBounds(v.emaMs);
  }

  lemma SlowerScoresLess(a: real, b: real)
    requires 0.0 <= a < b <= 5000.0
    ensures LatencyScore(Some(b)) < LatencyScore(Some(a))
  {
  }

  lemma MoreErrorsScoreLess(n: nat, i: nat, j: nat)
    requires 0 < n && i < j
    ensures i as real / n as real < j as real / n as real
  {
  }

  /** The score falls strictly with the latency up to five seconds and not after, and with
      every error more in a window of one size; a node nothing is known of scores 0.8. */
  lemma {:induction false} ScoreFalls(a: real, b: real, outcomes: seq<bool>, worse: seq<bool>, emaMs: Option<real>)
    requires 0.0 <= a < b
    ensures b <= 5000.0 ==> Score(View(Some(b), outcomes)) < Score(View(Some(a), outcomes))
    ensures 5000.0 <= a ==> Score(View(Some(b), outcomes)) == Score(View(Some(a), outcomes))
    ensures |outcomes| == |worse| && Errors(outcomes) < Errors(worse) ==> Score(View(emaMs, worse)) < Score(View(emaMs, outcomes))
    ensures Score(Fresh) == 0.8 && Score(View(Some(0.0), [])) == 1.0 && Score(View(Some(5000.0), [])) == 0.6
  {
    if b <= 5000.0 { SlowerScoresLess(a, b); }
    if |outcomes| == |worse| && Errors(outcomes) < Errors(worse) {
      MoreErrorsScoreLess(|outcomes|, Errors(outcomes), Errors(worse));
    }
  }

  // ----- runs of equal outcomes -----

  lemma {:induction false} ErrorsConcat(a: seq<bool>, b: seq<bool>)
    ensures Errors(a + b) == Errors(a) + Errors(b)
    decreases |a|
  {
    if a == [] {
      assert a + b == b;
    } else {
      assert (a + b)[1..] == a[1..] + b;
      ErrorsConcat(a[1..], b);
    }
  }

  lemma {:induction false} ErrorsOfConstant(s: seq<bool>, ok: bool)
    requires forall i :: 0 <= i < |s| ==> s[i] == ok
    ensures Errors(s) == if ok then 0 else |s|
    decreases |s|
  {
    if s != [] {
      ErrorsOfConstant(s[1..], ok);
    }
  }

  /** After `n` equal outcomes the last `min(n, 100)` entries of the window are equal. */
  lemma {:induction false} WindowEndsIn(v: View, events: seq<Event>, n: nat, ok: bool)
    requires Reachable(v) && n <= |events| && n <= WINDOW_SIZE
    requires forall i :: |events| - n <= i < |events| ==> events[i].Success? == ok
    ensures var w := Replay(v, events).outcomes;
            n <= |w| <= WINDOW_SIZE && forall i :: |w| - n <= i < |w| ==> w[i] == ok
  {
    ReachableBounds(v);
    WindowIsLastOutcomes(v, events);
  }

  /** At most 66% errors is healthy whatever the latency. */
  lemma FewErrorsAreHealthy(v: View)
    requires v.emaMs.Some? ==> 0.0 <= v.emaMs.value
    requires v.outcomes != [] && 100 * Errors(v.outcomes) <= 66 * |v.outcomes|
    ensures IsHealthy(v)
  {
    LatencyScoreBounds(v.emaMs);
    QuotientBounds(Errors(v.outcomes) as real, |v.outcomes| as real, 0.0, 0.66);
  }

  lemma {:induction false} ErrorsBeforeSuccesses(w: seq<bool>, n: nat)
    requires n <= |w| && forall i :: |w| - n <= i < |w| ==> w[i]
    ensures Errors(w) <= |w| - n
  {
    var k := |w| - n;
    assert w[..k] + w[k..] == w;
    ErrorsConcat(w[..k], w[k..]);
    ErrorsOfConstant(w[k..], true);
  }

  /** Thirty-four consecutive successes make a node healthy, from any reachable state
      and whatever their latencies. */
  lemma {:induction false} ThirtyFourSuccessesHeal(v: View, events: seq<Event>)
    requires Reachable(v) && Durations(events) && 34 <= |events|
    requires forall i :: |events| - 34 <= i < |events| ==> events[i].Success?
    ensures IsHealthy(Replay(v, events))
  {
    var r := Replay(v, events);
    WindowEndsIn(v, events, 34, true);
    ErrorsBeforeSuccesses(r.outcomes, 34);
    ReachableBounds(v);
    EmaIsNonNegative(v, events);
    FewErrorsAreHealthy(r);
  }

  function Repeat(e: Event, n: nat): seq<Event> {
    seq(n, i => e)
  }

  lemma {:induction false} SlowSuccessesKeepEma(v: View, n: nat)
    requires v.emaMs == Some(5000.0) || (v.emaMs.None? && 0 < n)
    ensures Replay(v, Repeat(Success(5000.0), n)).emaMs == Some(5000.0)
    decreases n
  {
    if n == 1 {
      assert Repeat(Success(5000.0), 1)[..0] == [];
    } else if n > 1 {
      assert Repeat(Success(5000.0), n)[..n - 1] == Repeat(Success(5000.0), n - 1);
      SlowSuccessesKeepEma(v, n - 1);
    }
  }

  /** `0.7^n * gap`. */
  function Remaining(gap: real, n: nat): real {
    if n == 0 then gap else 0.7 * Remaining(gap, n - 1)
  }

  /** Steady latencies pull the average towards them geometrically: the distance to go is
      exactly `0.7^n` of what it was. */
  lemma {:induction false} EmaConverges(v: View, ms: real, gap: real, n: nat)
    requires v.emaMs == Some(ms + gap)
    ensures Replay(v, Repeat(Success(ms), n)).emaMs == Some(ms + Remaining(gap, n))
    decreases n
  {
    if n == 0 {
      assert Repeat(Success(ms), 0) == [];
    } else {
      assert Repeat(Success(ms), n)[..n - 1] == Repeat(Success(ms), n - 1);
      EmaConverges(v, ms, gap, n - 1);
    }
  }

  /** The average never leaves the range of the latencies it is made of. */
  lemma {:induction false} EmaWithinRange(events: seq<Event>, lo: real, hi: real)
    requires forall e :: e in events && e.Success? ==> lo <= e.ms <= hi
    ensures var ema := Replay(Fresh, events).emaMs;
            && (ema.Some? <==> exists e :: e in events && e.Success?)
            && (ema.Some? ==> lo <= ema.value <= hi)
    decreases |events|
  {
    if events != [] {
      var n := |events| - 1;
      assert events == events[..n] + [events[n]];
      EmaWithinRange(events[..n], lo, hi);
    }
  }

  lemma {:induction false} ErrorsKeepEma(v: View, events: seq<Event>)
    requires forall e :: e in events ==> e.Error?
    ensures Replay(v, events).emaMs == v.emaMs
    decreases |events|
  {
    if events != [] {
      var n := |events| - 1;
      assert events[n] in events && forall e :: e in events[..n] ==> e in events;
      ErrorsKeepEma(v, events[..n]);
    }
  }

  lemma WindowOfErrorsThenSuccesses()
    ensures var w := Replay(Replay(Fresh, Repeat(Error, 67)), Repeat(Success(5000.0), 33)).outcomes;
            |w| == 100 && Errors(w) == 67
  {
    var errors, slow := Repeat(Error, 67), Repeat(Success(5000.0), 33);
    var v := Replay(Fresh, errors);
    WindowIsLastOutcomes(Fresh, errors);
    assert v.outcomes == Outcomes(errors);
    ErrorsOfConstant(v.outcomes, false);
    WindowIsLastOutcomes(v, slow);
    ErrorsConcat(v.outcomes, Outcomes(slow));
    ErrorsOfConstant(Outcomes(slow), true);
  }

  /** Thirty-three are not enough: sixty-seven errors, then thirty-three slow successes. */
  lemma ThirtyThreeNeedNotHeal() returns (v: View)
    ensures Reachable(v) && !IsHealthy(Replay(v, Repeat(Success(5000.0), 33)))
  {
    var errors := Repeat(Error, 67);
    v := Replay(Fresh, errors);
    assert Durations(errors);
    ErrorsKeepEma(Fresh, errors);
    SlowSuccessesKeepEma(v, 33);
    WindowOfErrorsThenSuccesses();
  }

  /** A node whose average latency is below 2500 ms is healthy whatever its errors. */
  lemma FastNodeNeverUnhealthy(v: View)
    requires Reachable(v) && v.emaMs.Some? && v.emaMs.value < 2500.0
    ensures IsHealthy(v)
  {
    ReachableBounds(v);
    ErrorRateBounds(v.outcomes);
    LatencyScoreBounds(v.emaMs);
  }

  /** After a hundred consecutive errors, latency alone decides: the node is unhealthy
      exactly when it has no latency sample or an average of 2500 ms or more. */
  lemma {:induction false} HundredErrorsDecide(v: View, events: seq<Event>)
    requires Reachable(v) && WINDOW_SIZE <= |events| && forall e :: e in events ==> e.Error?
    ensures IsHealthy(Replay(v, events)) <==> v.emaMs.Some? && v.emaMs.value < 2500.0
  {
    var r := Replay(v, events);
    forall i | |events| - 100 <= i < |events|
      ensures !events[i].Success?
    {
      assert events[i] in events;
    }
    WindowEndsIn(v, events, 100, false);
    ErrorsOfConstant(r.outcomes, false);
    ErrorsKeepEma(v, events);
    ReachableBounds(v);
    LatencyScoreBounds(v.emaMs);
  }

  // ----- the tracker object -----

  class BnHealthTracker {
    var latencyEmaMs: Option<real>
    var outcomes: seq<bool>

    function AsView(): View
      reads this
    {
      View(latencyEmaMs, outcomes)
    }

    constructor ()
      ensures AsView() == Fresh
    {
      latencyEmaMs, outcomes := None, [];
    }

    method RecordSuccess(ms: real)
      modifies this
      ensures AsView() == Apply(old(AsView()), Success(ms))
    {
      latencyEmaMs := UpdateEma(latencyEmaMs, ms);
      PushOutcome(true);
    }

    method RecordError()
      modifies this
      ensures AsView() == Apply(old(AsView()), Error)
    {
      PushOutcome(false);
    }

    method PushOutcome(ok: bool)
      modifies this`outcomes
      ensures outcomes == Push(old(outcomes), ok)
    {
      if WINDOW_SIZE <= |outcomes| {
        outcomes := outcomes[1..];
      }
      outcomes := outcomes + [ok];
    }
  }
}

/**
 * The re-probe counter. `mark_*` hold the write lock; any number of readers run
 * `consume_reprobe_skip` at once, each step of whose load / weak compare-exchange loop
 * is one atomic step here. A weak exchange may also fail for no reason. The number of skips
 * a mark grants is a parameter; the source sets it to 1.
 */
module Reprobe {

  datatype Reader =
    | Out                              // not inside the call
    | Looping(op: string)              // about to load
    | Loaded(op: string, n: nat)       // about to compare-exchange

  /** `granted` counts the calls that returned `true` since the operation was last marked. */
  datatype State = State(
    incapable: set<string>, skips: map<string, nat>,
    readers: map<nat, Reader>, granted: map<string, nat>)

  const Start := State({}, map[], map[], map[])

  datatype Event =
    | MarkIncapable(op: string)
    | MarkCapable(op: string)
    | Enter(reader: nat, op: string)
    | Load(reader: nat)
    | Exchange(reader: nat, spurious: bool)

  datatype Outcome = Nothing | Returned(skip: bool)

  function Of(s: State, r: nat): Reader {
    if r in s.readers then s.readers[r] else Out
  }

  predicate NobodyInside(s: State) {
    forall r :: r in s.readers ==> s.readers[r].Out?
  }

  /** One atomic step, with what the stepping call returns, if it returns. */
  function Step(allowance: nat, s: State, e: Event): (State, Outcome) {
    match e
    case MarkIncapable(op) =>
      if NobodyInside(s)
      then (s.(incapable := s.incapable + {op}, skips := s.skips[op := allowance],
               granted := s.granted[op := 0]), Nothing)
      else (s, Nothing)
    case MarkCapable(op) =>
      if NobodyInside(s)
      then (s.(incapable := s.incapable - {op}, skips := s.skips - {op}, granted := s.granted - {op}), Nothing)
      else (s, Nothing)
    case Enter(r, op) =>
      if !Of(s, r).Out? then (s, Nothing)
      else if op !in s.incapable || op !in s.skips then (s, Returned(false))
      else (s.(readers := s.readers[r := Looping(op)]), Nothing)
    case Load(r) =>
      if !Of(s, r).Looping? || Of(s, r).op !in s.skips then (s, Nothing)
      else
        var op := Of(s, r).op;
        var n := s.skips[op];
        if n == 0 then (s.(readers := s.readers[r := Out]), Returned(false))
        else (s.(readers := s.readers[r := Loaded(op, n)]), Nothing)
    case Exchange(r, spurious) =>
      if !Of(s, r).Loaded? || Of(s, r).op !in s.skips then (s, Nothing)
      else
        var Loaded(op, n) := Of(s, r);
        if spurious || s.skips[op] != n || n == 0 then (s.(readers := s.readers[r := Looping(op)]), Nothing)
        else (s.(skips := s.skips[op := n - 1], readers := s.readers[r := Out],
                 granted := s.granted[op := (if op in s.granted then s.granted[op] else 0) + 1]), Returned(true))
  }

  function Run(allowance: nat, s: State, events: seq<Event>): State
    decreases |events|
  {
    if events == [] then s else Step(allowance, Run(allowance, s, events[..|events| - 1]), events[|events| - 1]).0
  }

  ghost predicate Inv(allowance: nat, s: State) {
    && s.incapable == s.skips.Keys == s.granted.Keys
    && (forall op :: op in s.skips ==> s.granted[op] + s.skips[op] == allowance)
    && (forall r :: r in s.readers && !s.readers[r].Out? ==> s.readers[r].op in s.skips)
    && (forall r :: r in s.readers && s.readers[r].Loaded? ==> 0 < s.readers[r].n)
  }

  /** What an event is about; every other operation keeps its flag and counter. */
  ghost predicate Concerns(s: State, e: Event, op: string) {
    match e
    case MarkIncapable(o) => o == op
    case MarkCapable(o) => o == op
    case Enter(_, o) => o == op
    case Load(r) => !Of(s, r).Out? && Of(s, r).op == op
    case Exchange(r, _) => !Of(s, r).Out? && Of(s, r).op == op
  }

  lemma StepKeepsInv(allowance: nat, s: State, e: Event)
    requires Inv(allowance, s)
    ensures Inv(allowance, Step(allowance, s, e).0)
  {
    var t := Step(allowance, s, e).0;
    match e
    case MarkIncapable(op) => assert t.incapable == t.skips.Keys == t.granted.Keys;
    case MarkCapable(op) => assert t.incapable == t.skips.Keys == t.granted.Keys;
    case Enter(_, _) =>
    case Load(_) =>
    case Exchange(r, _) => assert t.incapable == t.skips.Keys == t.granted.Keys;
  }

  /** In every interleaving: flags and counters cover the same operations, and for each
      flagged operation the skips granted since it was marked plus the skips left are
      exactly the allowance. */
  lemma {:induction false} SkipsAreConserved(allowance: nat, events: seq<Event>)
    ensures var s := Run(allowance, Start, events);
            && s.incapable == s.skips.Keys
            && Inv(allowance, s)
            && forall op :: op in s.incapable ==> s.granted[op] + s.skips[op] == allowance
    decreases |events|
  {
    if events != [] {
      var n := |events| - 1;
      SkipsAreConserved(allowance, events[..n]);
      StepKeepsInv(allowance, Run(allowance, Start, events[..n]), events[n]);
    }
  }

  /** A call excludes the node exactly when it takes one skip off a flagged operation's
      counter; a call that lets the node through takes none. */
  lemma {:induction false} ReturnsMatchTheCounter(allowance: nat, events: seq<Event>, e: Event)
    ensures var s := Run(allowance, Start, events);
            var (t, out) := Step(allowance, s, e);
            && (out == Returned(true) ==> e.Exchange? && Of(s, e.reader).Loaded? && Of(s, e.reader).op in s.incapable
                                          && s.skips[Of(s, e.reader).op] == t.skips[Of(s, e.reader).op] + 1)
            && (out == Returned(false) ==> t.skips == s.skips && t.incapable == s.incapable)
            && (forall op :: op in s.skips && op in t.skips && t.skips[op] < s.skips[op]
                  ==> out == Returned(true) && Of(s, e.reader).op == op)
  {
    SkipsAreConserved(allowance, events);
  }

  lemma {:induction false} RunThree(allowance: nat, s: State, a: Event, b: Event, c: Event)
    ensures Run(allowance, s, [a, b, c])
            == Step(allowance, Step(allowance, Step(allowance, s, a).0, b).0, c).0
  {
    var all, two, one := [a, b, c], [a, b], [a];
    assert all[..2] == two && two[..1] == one && one[..0] == [];
    assert Run(allowance, s, one) == Step(allowance, s, a).0;
    assert Run(allowance, s, two) == Step(allowance, Run(allowance, s, one), b).0;
  }

  /** With nobody reading, a mark flags the operation with the full allowance, and the
      opposite mark clears it. */
  lemma MarksTakeEffect(allowance: nat, s: State, op: string)
    requires NobodyInside(s)
    ensures var t := Step(allowance, s, MarkIncapable(op)).0;
            op in t.incapable && op in t.skips && t.skips[op] == allowance
    ensures var t := Step(allowance, s, MarkCapable(op)).0; op !in t.incapable && op !in t.skips
  {
  }

  /** A reader left alone excludes the node exactly as long as skips are left: on a flagged
      operation with some left it takes one, with none left, or unflagged, it takes nothing. */
  lemma {:induction false} LoneReader(allowance: nat, s: State, r: nat, op: string)
    requires Of(s, r).Out? && s.incapable == s.skips.Keys
    ensures op !in s.incapable ==> Step(allowance, s, Enter(r, op)) == (s, Returned(false))
    ensures op in s.incapable && s.skips[op] == 0 ==>
            var t := Step(allowance, s, Enter(r, op)).0;
            Step(allowance, t, Load(r)).1 == Returned(false) && Step(allowance, t, Load(r)).0.skips == s.skips
    ensures op in s.incapable && 0 < s.skips[op] ==>
            var t := Step(allowance, Step(allowance, s, Enter(r, op)).0, Load(r)).0;
            && Step(allowance, t, Exchange(r, false)).1 == Returned(true)
            && Run(allowance, s, [Enter(r, op), Load(r), Exchange(r, false)]).skips == s.skips[op := s.skips[op] - 1]
            && Of(Run(allowance, s, [Enter(r, op), Load(r), Exchange(r, false)]), r).Out?
  {
    RunThree(allowance, s, Enter(r, op), Load(r), Exchange(r, false));
  }

  /** Operations an event does not concern are untouched. */
  lemma OtherOperationsUntouched(allowance: nat, s: State, e: Event, op: string)
    requires !Concerns(s, e, op)
    ensures var t := Step(allowance, s, e).0;
            && (op in t.incapable <==> op in s.incapable)
            && (op in t.skips <==> op in s.skips)
            && (op in s.skips ==> t.skips[op] == s.skips[op])
  {
  }
}
