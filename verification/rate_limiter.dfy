/**
 The request-rate limiter every remote call goes through, over an abstract
 clock: the caller passes the clock reading taken on entry and how much
 longer than asked the sleep (plus the code around it) took, since neither
 is known to the program.
 */
module RateLimit {

  /** Seconds between requests and the clock reading recorded at the last request. */
  datatype Limiter = Limiter(interval: real, last: real)

  /**
   A limiter for `rpm` requests per minute: the interval is `60 / rpm`
   seconds and the first request is measured against time 0. A zero rate
   raises in the source, so it is excluded here.
   */
  function NewLimiter(rpm: int): (l: Limiter)
    requires rpm != 0
    ensures (rpm as real) * l.interval == 60.0
    ensures l.last == 0.0
  {
    Limiter(60.0 / (rpm as real), 0.0)
  }

  /** The time slept and the limiter afterwards. */
  datatype Waited = Waited(slept: real, limiter: Limiter)

  /**
   `wait()` entered at clock reading `now`: when less than the interval has
   passed since the last request, sleep for the rest of it; then record the
   clock, which has moved on by the sleep and by `overshoot`.
   */
  function Wait(l: Limiter, now: real, overshoot: real): (w: Waited)
    requires overshoot >= 0.0
    ensures w.slept >= 0.0
    ensures w.slept > 0.0 <==> now - l.last < l.interval
    ensures w.slept > 0.0 ==> now + w.slept == l.last + l.interval
    ensures w.limiter.interval == l.interval
    ensures w.limiter.last >= now
    ensures w.limiter.last >= l.last + l.interval
  {
    var elapsed := now - l.last;
    var slept := if elapsed < l.interval then l.interval - elapsed else 0.0;
    Waited(slept, Limiter(l.interval, now + slept + overshoot))
  }

  /** One call of `wait()`: the clock reading on entry and the sleep's overshoot. */
  datatype Tick = Tick(now: real, overshoot: real)

  /** Every overshoot is non-negative. */
  predicate ValidTicks(ticks: seq<Tick>) {
    forall i :: 0 <= i < |ticks| ==> ticks[i].overshoot >= 0.0
  }

  /** The time after index `i` is at least `d` later. */
  predicate Step(times: seq<real>, i: nat, d: real)
    requires i + 1 < |times|
  {
    times[i] + d <= times[i + 1]
  }

  /** Consecutive times at least `d` apart. */
  predicate Spaced(times: seq<real>, d: real) {
    forall i: nat :: i + 1 < |times| ==> Step(times, i, d)
  }

  /**
   The clock readings recorded by a series of `wait()` calls, one per call:
   the times the requests go out. Consecutive requests are at least one
   interval apart, and no request goes out before its caller arrived.
   */
  function Run(l: Limiter, ticks: seq<Tick>): (times: seq<real>)
    requires ValidTicks(ticks)
    ensures |times| == |ticks|
    ensures forall i :: 0 <= i < |times| ==> times[i] >= ticks[i].now
    ensures |times| > 0 ==> times[0] >= l.last + l.interval
    ensures Spaced(times, l.interval)
    decreases |ticks|
  {
    if ticks == [] then []
    else
      var w := Wait(l, ticks[0].now, ticks[0].overshoot);
      var rest := Run(w.limiter, ticks[1..]);
      assert forall i :: 0 <= i < |rest| ==> rest[i] >= ticks[1..][i].now;
      var times := [w.limiter.last] + rest;
      assert forall i: nat :: 0 < i && i + 1 < |times| ==> Step(rest, i - 1, l.interval) && times[i] == rest[i - 1];
      times
  }

  /** `n` gaps of `d` seconds laid end to end. */
  function Gaps(n: nat, d: real): real {
    if n == 0 then 0.0 else Gaps(n - 1, d) + d
  }

  /** `n` gaps of `d` seconds last `n * d` seconds. */
  lemma {:induction false} GapsProduct(n: nat, d: real)
    ensures Gaps(n, d) == (n as real) * d
  {
    if n > 0 {
      GapsProduct(n - 1, d);
      assert (n as real) * d == ((n - 1) as real) * d + d;
    }
  }

  /** Times `n` places apart in a spaced series are at least `n` gaps apart. */
  lemma {:induction false} SpacedGap(times: seq<real>, d: real, i: nat, n: nat)
    requires Spaced(times, d)
    requires i + n < |times|
    ensures times[i + n] - times[i] >= Gaps(n, d)
  {
    if n > 0 {
      SpacedGap(times, d, i, n - 1);
      assert Step(times, i + n - 1, d);
    }
  }

  /** Requests `n` places apart in a run are at least `n` intervals apart. */
  lemma {:induction false} RunSpacing(l: Limiter, ticks: seq<Tick>, i: nat, n: nat)
    requires ValidTicks(ticks)
    requires i + n < |ticks|
    ensures Run(l, ticks)[i + n] - Run(l, ticks)[i] >= Gaps(n, l.interval)
  {
    SpacedGap(Run(l, ticks), l.interval, i, n);
  }

  /** With the limiter for `rpm` requests per minute, any `rpm` consecutive requests span a minute. */
  lemma PerMinute(rpm: int, ticks: seq<Tick>, i: nat)
    requires rpm > 0
    requires ValidTicks(ticks)
    requires i + rpm < |ticks|
    ensures Run(NewLimiter(rpm), ticks)[i + rpm] - Run(NewLimiter(rpm), ticks)[i] >= 60.0
  {
    var l := NewLimiter(rpm);
    GapsProduct(rpm, l.interval);
    assert Gaps(rpm, l.interval) == 60.0;
    SpacedGap(Run(l, ticks), l.interval, i, rpm);
  }

  /** The program's limiter: five requests per minute, twelve seconds apart. */
  const ProgramRate: int := 5

  /** The first call does not sleep once the clock has passed one interval. */
  lemma FirstCallFree(now: real, overshoot: real)
    requires overshoot >= 0.0
    requires now >= 12.0
    ensures Wait(NewLimiter(ProgramRate), now, overshoot).slept == 0.0
  {
  }
}
