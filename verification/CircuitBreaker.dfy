/** The circuit breaker: CLOSED, OPEN and HALF_OPEN with exponential backoff, under any interleaving of the calls in
  * flight. Each check and each record is one atomic step; the clock is a parameter. */
module CircuitBreaker {
  import opened Basics

  datatype Config = Config(failureThreshold: int, resetTimeout: real, backoffRate: real, maxResetTimeout: Option<real>)

  datatype Phase = Closed | Open | HalfOpen

  datatype State = State(failures: int, openCount: int, lastFailure: Option<real>, phase: Phase)

  const FRESH := State(0, 0, None, Closed)

  // ----- Backoff -----

  function Pow(base: real, n: nat): real {
    if n == 0 then 1.0 else base * Pow(base, n - 1)
  }

  function Cap(c: Config): real {
    match c.maxResetTimeout
    case Some(cap) => cap
    case None => c.resetTimeout * 8.0
  }

  /** `effective_reset_timeout`. */
  function Timeout(c: Config, openCount: int): real {
    if c.backoffRate <= 1.0 || openCount <= 1 then c.resetTimeout
    else Min(c.resetTimeout * Pow(c.backoffRate, openCount - 1), Cap(c))
  }

  // ----- The atomic steps -----

  /** `check` lets the call through. */
  predicate Admits(c: Config, s: State, now: real) {
    s.phase == Open ==> s.lastFailure == None || now - s.lastFailure.value >= Timeout(c, s.openCount)
  }

  function AfterCheck(c: Config, s: State, now: real): State {
    if s.phase == Open && Admits(c, s, now) then s.(phase := HalfOpen) else s
  }

  /** The record at the end of a call that returned. */
  function AfterReturn(s: State): State {
    if s.phase == HalfOpen || (s.phase == Closed && s.failures > 0) then FRESH else s
  }

  function AfterFailure(c: Config, s: State, now: real): State {
    var counted := s.(failures := s.failures + 1, lastFailure := Some(now));
    if s.phase == HalfOpen || counted.failures >= c.failureThreshold
    then counted.(openCount := s.openCount + 1, phase := Open)
    else counted
  }

  class CircuitBreakerCore {
    const config: Config
    var failures: int
    var openCount: int
    var lastFailureTime: Option<real>
    var phase: Phase

    function Current(): State
      reads this
    {
      State(failures, openCount, lastFailureTime, phase)
    }

    constructor (config: Config)
      ensures this.config == config && Current() == FRESH
    {
      this.config := config;
      failures := 0;
      openCount := 0;
      lastFailureTime := None;
      phase := Closed;
    }

    method ShouldAttemptReset(now: real) returns (should: bool)
      ensures should == (lastFailureTime == None || now - lastFailureTime.value >= Timeout(config, openCount))
    {
      if lastFailureTime == None {
        return true;
      }
      var elapsed := now - lastFailureTime.value;
      return elapsed >= Timeout(config, openCount);
    }

    /** `admitted` is false when the original raises `CircuitOpenError`. */
    method Check(now: real) returns (admitted: bool)
      modifies this
      ensures admitted == Admits(config, old(Current()), now)
      ensures Current() == AfterCheck(config, old(Current()), now)
    {
      if phase == Closed {
        return true;
      }
      if phase == Open {
        var should := ShouldAttemptReset(now);
        if should {
          phase := HalfOpen;
          return true;
        }
        return false;
      }
      return true;
    }

    method RecordSuccess()
      modifies this
      ensures Current() == FRESH
    {
      failures := 0;
      openCount := 0;
      lastFailureTime := None;
      phase := Closed;
    }

    method RecordFailure(now: real)
      modifies this
      ensures Current() == AfterFailure(config, old(Current()), now)
    {
      failures := failures + 1;
      lastFailureTime := Some(now);
      if phase == HalfOpen {
        openCount := openCount + 1;
        phase := Open;
        return;
      }
      if failures >= config.failureThreshold {
        openCount := openCount + 1;
        phase := Open;
      }
    }

    method Reset()
      modifies this
      ensures Current() == FRESH
    {
      failures := 0;
      openCount := 0;
      lastFailureTime := None;
      phase := Closed;
    }
  }

  /** The locked part of `AsyncCircuitBreaker.call` after the function returned. */
  method CallReturned(core: CircuitBreakerCore)
    modifies core
    ensures core.Current() == AfterReturn(old(core.Current()))
  {
    if core.phase == HalfOpen || (core.phase == Closed && core.failures > 0) {
      core.RecordSuccess();
    }
  }

  /** The locked part after the function raised; `counted` is the failure predicate's answer. */
  method CallRaised(core: CircuitBreakerCore, counted: bool, now: real)
    modifies core
    ensures core.Current() ==
            if counted then AfterFailure(core.config, old(core.Current()), now) else old(core.Current())
  {
    if counted {
      core.RecordFailure(now);
    }
  }

  // ----- Runs -----

  /** The steps of all the calls in flight, in the order in which they take the lock. */
  datatype Event =
    | Begin(at: real)
    | Return
    | Raise(counted: bool, at: real)
    | Reset

  function Apply(c: Config, s: State, e: Event): State {
    match e
    case Begin(at) => AfterCheck(c, s, at)
    case Return => AfterReturn(s)
    case Raise(counted, at) => if counted then AfterFailure(c, s, at) else s
    case Reset => FRESH
  }

  function Run(c: Config, history: seq<Event>): State {
    if history == [] then FRESH else Apply(c, Run(c, history[..|history| - 1]), history[|history| - 1])
  }

  lemma RunStep(c: Config, h: seq<Event>, e: Event)
    ensures Run(c, h + [e]) == Apply(c, Run(c, h), e)
  {
    assert (h + [e])[..|h|] == h;
  }

  /** The counted failures since the last call that returned, or the last reset. */
  function Streak(h: seq<Event>): nat {
    if h == [] then 0
    else
      match h[|h| - 1]
      case Begin(_) => Streak(h[..|h| - 1])
      case Raise(counted, _) => Streak(h[..|h| - 1]) + if counted then 1 else 0
      case _ => 0
  }

  /** The time of the latest counted failure. */
  function LatestFailure(h: seq<Event>): Option<real> {
    if h == [] then None
    else
      match h[|h| - 1]
      case Raise(counted, at) => if counted then Some(at) else LatestFailure(h[..|h| - 1])
      case _ => LatestFailure(h[..|h| - 1])
  }

  /** The counting invariant, and how the counters reflect the history. */
  ghost predicate Inv(c: Config, h: seq<Event>, s: State) {
    && (s.phase == Closed ==>
          s.openCount == 0 && s.failures < c.failureThreshold && s.failures == Streak(h))
    && (s.phase != Closed ==>
          && s.openCount >= 1
          && s.failures == c.failureThreshold - 1 + s.openCount
          && Streak(h) <= s.failures)
    && (s.failures > 0 ==> s.lastFailure.Some? && s.lastFailure == LatestFailure(h))
    && (s.failures == 0 ==> s.lastFailure == None)
  }

  /** Every run, whatever the interleaving of the calls in flight, keeps the counting invariant. */
  lemma {:induction false} CountingInvariant(c: Config, h: seq<Event>)
    requires c.failureThreshold >= 1
    ensures Inv(c, h, Run(c, h))
    decreases |h|
  {
    if h != [] {
      CountingInvariant(c, h[..|h| - 1]);
    }
  }

  /** A step leaves CLOSED exactly when it counts the failure that completes a streak of `failureThreshold` counted
    * failures with no call returning and no reset in between. */
  lemma LeavesClosedIffStreak(c: Config, h: seq<Event>, e: Event)
    requires c.failureThreshold >= 1
    requires Run(c, h).phase == Closed
    ensures Run(c, h + [e]).phase != Closed <==> Streak(h + [e]) == c.failureThreshold
    ensures Run(c, h + [e]).phase != Closed ==> Run(c, h + [e]).phase == Open && e.Raise? && e.counted
  {
    CountingInvariant(c, h);
    CountingInvariant(c, h + [e]);
    RunStep(c, h, e);
    assert (h + [e])[..|h|] == h;
  }

  /** What each step of a run does: a call begins half-open once the timeout has passed since the latest counted
    * failure, a return closes a half-open breaker and clears the failures of a closed one, a counted failure opens a
    * half-open breaker again and opens a closed one at the threshold, and nothing else changes anything. */
  lemma StepsOfRun(c: Config, h: seq<Event>, e: Event)
    requires c.failureThreshold >= 1
    ensures var s, t := Run(c, h), Run(c, h + [e]);
            match e
            case Begin(at) =>
              s.phase == Open ==>
                && LatestFailure(h).Some?
                && t == if at - LatestFailure(h).value >= Timeout(c, s.openCount) then s.(phase := HalfOpen) else s
            case Return => t == if s.phase == Open then s else State(0, 0, None, Closed)
            case Raise(counted, at) =>
              if !counted then t == s
              else
                && t.failures == s.failures + 1 && t.lastFailure == Some(at)
                && (s.phase != Closed || s.failures + 1 == c.failureThreshold ==>
                      t.phase == Open && t.openCount == s.openCount + 1)
                && (s.phase == Closed && s.failures + 1 < c.failureThreshold ==>
                      t.phase == Closed && t.openCount == s.openCount)
            case Reset => t == State(0, 0, None, Closed)
    ensures e.Begin? && Run(c, h).phase != Open ==> Run(c, h + [e]) == Run(c, h)
    ensures Run(c, []) == State(0, 0, None, Closed)
  {
    hide Timeout;
    CountingInvariant(c, h);
    RunStep(c, h, e);
  }

  // ----- Admission -----

  function TimeOf(e: Event): Option<real> {
    match e
    case Begin(at) => Some(at)
    case Raise(_, at) => Some(at)
    case _ => None
  }

  /** The clock never goes back. */
  ghost predicate Timed(h: seq<Event>) {
    forall i, j | 0 <= i < j < |h| && TimeOf(h[i]).Some? && TimeOf(h[j]).Some? ::
      TimeOf(h[i]).value <= TimeOf(h[j]).value
  }

  /** After `h`, no step of `g` resets the breaker or admits a call. */
  ghost predicate Quiet(c: Config, h: seq<Event>, g: seq<Event>) {
    forall i | 0 <= i < |g| :: !g[i].Reset? && (g[i].Begin? ==> !Admits(c, Run(c, h + g[..i]), g[i].at))
  }

  /** The backoff is sane: a positive timeout and, if it grows, a cap that is not below it. */
  predicate Sane(c: Config) {
    c.resetTimeout > 0.0 && (c.backoffRate <= 1.0 || Cap(c) >= c.resetTimeout)
  }

  /** While nothing is admitted and nothing is reset, an open breaker stays open: returns of earlier calls change
    * nothing, and failures of earlier calls only push the next admission back. */
  lemma {:induction false} QuietStaysOpen(c: Config, h: seq<Event>, g: seq<Event>)
    requires c.failureThreshold >= 1
    requires Run(c, h).phase == Open
    requires Timed(h + g) && Quiet(c, h, g)
    ensures var s, t := Run(c, h), Run(c, h + g);
            && t.phase == Open && s.openCount <= t.openCount
            && s.lastFailure.Some? && t.lastFailure.Some? && s.lastFailure.value <= t.lastFailure.value
    decreases |g|
  {
    CountingInvariant(c, h);
    if g == [] {
      assert h + g == h;
    } else {
      var front, e := g[..|g| - 1], g[|g| - 1];
      assert h + g == h + front + [e];
      forall i | 0 <= i < |front| ensures front[..i] == g[..i] && front[i] == g[i] {}
      TimedPrefix(h + front, e);
      QuietStaysOpen(c, h, front);
      RunStep(c, h + front, e);
      assert g[..|g| - 1] == front;
      CountingInvariant(c, h + front);
      if e.Raise? && e.counted {
        LatestFailureIsPast(h + front, e);
      }
    }
  }

  lemma TimedPrefix(h: seq<Event>, e: Event)
    requires Timed(h + [e])
    ensures Timed(h)
  {
    forall i, j | 0 <= i < j < |h| && TimeOf(h[i]).Some? && TimeOf(h[j]).Some?
      ensures TimeOf(h[i]).value <= TimeOf(h[j]).value
    {
      assert (h + [e])[i] == h[i] && (h + [e])[j] == h[j];
    }
  }

  lemma {:induction false} LatestFailureIsPast(h: seq<Event>, e: Event)
    requires Timed(h + [e]) && TimeOf(e).Some?
    ensures LatestFailure(h).Some? ==> LatestFailure(h).value <= TimeOf(e).value
    decreases |h|
  {
    if h != [] {
      var front, last := h[..|h| - 1], h[|h| - 1];
      if last.Raise? && last.counted {
        assert (h + [e])[|h| - 1] == last && (h + [e])[|h|] == e;
      } else {
        forall i, j | 0 <= i < j < |front + [e]| && TimeOf((front + [e])[i]).Some? && TimeOf((front + [e])[j]).Some?
          ensures TimeOf((front + [e])[i]).value <= TimeOf((front + [e])[j]).value
        {
          assert (front + [e])[i] == (h + [e])[i];
          assert (front + [e])[j] == (h + [e])[if j == |front| then |h| else j];
        }
        LatestFailureIsPast(front, e);
      }
    }
  }

  /** After an open breaker has been quiet, the first call admitted comes no earlier than the latest counted failure
    * plus the timeout now in force; if the backoff is sane, that is also no earlier than what any moment since it
    * opened promised. */
  lemma NoEarlyAdmission(c: Config, h: seq<Event>, g: seq<Event>, at: real)
    requires c.failureThreshold >= 1
    requires Run(c, h).phase == Open
    requires Timed(h + g) && Quiet(c, h, g)
    requires Admits(c, Run(c, h + g), at)
    ensures LatestFailure(h).Some? && LatestFailure(h + g).Some?
    ensures at >= LatestFailure(h + g).value + Timeout(c, Run(c, h + g).openCount)
    ensures Sane(c) ==> at >= LatestFailure(h).value + Timeout(c, Run(c, h).openCount)
  {
    CountingInvariant(c, h);
    CountingInvariant(c, h + g);
    QuietStaysOpen(c, h, g);
    if Sane(c) { TimeoutMonotone(c, Run(c, h).openCount, Run(c, h + g).openCount); }
  }

  // ----- Backoff bounds -----

  lemma {:induction false} PowGrows(base: real, m: nat, n: nat)
    requires base >= 1.0 && m <= n
    ensures 1.0 <= Pow(base, m) <= Pow(base, n)
    decreases n
  {
    if n > 0 {
      if m < n {
        PowGrows(base, m, n - 1);
        assert Pow(base, n - 1) <= base * Pow(base, n - 1);
      } else {
        PowGrows(base, m - 1, m - 1);
        assert 1.0 <= base * Pow(base, m - 1);
      }
    }
  }

  lemma TimeoutMonotone(c: Config, m: int, n: int)
    requires Sane(c) && m <= n
    ensures Timeout(c, m) <= Timeout(c, n)
  {
    hide Pow;
    if c.backoffRate > 1.0 && n > 1 {
      var low := if m > 1 then Pow(c.backoffRate, m - 1) else 1.0;
      PowGrows(c.backoffRate, if m > 1 then m - 1 else 0, n - 1);
      ScaleOrder(c.resetTimeout, low, Pow(c.backoffRate, n - 1));
      assert m <= 1 ==> c.resetTimeout * low == c.resetTimeout;
    }
  }

  /** With a positive timeout, the effective timeout never decreases as the breaker reopens exactly when it does not
    * grow at all or its cap is not below it. */
  lemma BackoffMonotoneIffSane(c: Config)
    requires c.resetTimeout > 0.0
    ensures (forall m, n | m <= n :: Timeout(c, m) <= Timeout(c, n)) <==> Sane(c)
  {
    if Sane(c) {
      forall m, n | m <= n ensures Timeout(c, m) <= Timeout(c, n) {
        TimeoutMonotone(c, m, n);
      }
    } else {
      assert Timeout(c, 1) == c.resetTimeout;
      assert Timeout(c, 2) <= Cap(c);
      assert !(Timeout(c, 1) <= Timeout(c, 2));
    }
  }

  /** The effective timeout lies between the base timeout and the cap, if there is growth at all. */
  lemma BackoffBounds(c: Config, n: int)
    requires Sane(c)
    ensures c.resetTimeout <= Timeout(c, n)
    ensures c.backoffRate <= 1.0 ==> Timeout(c, n) == c.resetTimeout
    ensures c.backoffRate > 1.0 ==> Timeout(c, n) <= Cap(c)
    ensures c.maxResetTimeout == None ==> Timeout(c, n) <= 8.0 * c.resetTimeout
  {
    TimeoutMonotone(c, if n < 1 then n else 1, n);
  }

  lemma {:induction false} Bernoulli(x: real, n: nat)
    requires x >= 0.0
    ensures Pow(1.0 + x, n) >= 1.0 + n as real * x
  {
    if n > 0 {
      Bernoulli(x, n - 1);
      var m := (n - 1) as real;
      ScaleOrder(1.0 + x, 1.0 + m * x, Pow(1.0 + x, n - 1));
      assert (1.0 + x) * (1.0 + m * x) == 1.0 + (m + 1.0) * x + m * (x * x);
      assert m * (x * x) >= 0.0;
    }
  }

  lemma CappedGrowth(b: real, x: real, more: real, capped: real, cap: real)
    requires b >= 1.0 && cap > 0.0
    requires more == b * x && capped == Min(x, cap)
    ensures Min(more, cap) == Min(b * capped, cap)
  {
    if x > cap {
      ScaleOrder(cap, 1.0, b);
      ScaleOrder(b, cap, x);
    }
  }

  /** The timeout that grows without a cap. */
  function Grown(c: Config, k: nat): real {
    c.resetTimeout * Pow(c.backoffRate, k)
  }

  lemma GrownStarts(c: Config)
    ensures Grown(c, 0) == c.resetTimeout
  {
    assert Pow(c.backoffRate, 0) == 1.0;
  }

  lemma GrownGrows(c: Config, k: nat)
    ensures Grown(c, k + 1) == c.backoffRate * Grown(c, k)
  {
    var p := Pow(c.backoffRate, k);
    assert Pow(c.backoffRate, k + 1) == c.backoffRate * p;
    Reassociate(c.resetTimeout, c.backoffRate, p);
  }

  lemma Reassociate(r: real, b: real, p: real)
    ensures r * (b * p) == b * (r * p)
  {
  }

  lemma TimeoutIsCapped(c: Config, n: int)
    requires Sane(c) && c.backoffRate > 1.0 && n >= 1
    ensures Timeout(c, n) == Min(Grown(c, n - 1), Cap(c))
  {
    hide Pow;
    GrownStarts(c);
  }

  lemma GrowthStep(c: Config, n: int)
    requires Sane(c) && c.backoffRate > 1.0 && n >= 1
    ensures Timeout(c, n + 1) == Min(c.backoffRate * Timeout(c, n), Cap(c))
  {
    hide Grown, Timeout;
    TimeoutIsCapped(c, n);
    TimeoutIsCapped(c, n + 1);
    GrownGrows(c, n - 1);
    CappedGrowth(c.backoffRate, Grown(c, n - 1), Grown(c, n), Timeout(c, n), Cap(c));
  }

  /** The timeout after one opening is the base, and every further opening multiplies it by the rate, up to the cap: the
    * configured one, or eight times the base. */
  lemma BackoffMultiplies(c: Config, n: int)
    requires Sane(c)
    ensures n <= 1 || c.backoffRate <= 1.0 ==> Timeout(c, n) == c.resetTimeout
    ensures n >= 1 && c.backoffRate > 1.0 ==>
              Timeout(c, n + 1) == Min(c.backoffRate * Timeout(c, n),
                                       if c.maxResetTimeout.Some? then c.maxResetTimeout.value
                                       else c.resetTimeout * 8.0)
  {
    hide Pow, Min;
    if n >= 1 && c.backoffRate > 1.0 { GrowthStep(c, n); }
  }

  /** With growth, the cap is reached after a number of openings that can be computed beforehand. */
  lemma BackoffReachesCap(c: Config, n: int)
    requires Sane(c) && c.backoffRate > 1.0
    requires n >= 2 && (n - 1) as real * (c.backoffRate - 1.0) * c.resetTimeout >= Cap(c) - c.resetTimeout
    ensures Timeout(c, n) == Cap(c)
  {
    var x, k := c.backoffRate - 1.0, (n - 1) as real;
    Bernoulli(x, n - 1);
    ScaleOrder(c.resetTimeout, 1.0 + k * x, Pow(c.backoffRate, n - 1));
    assert c.resetTimeout * (1.0 + k * x) == c.resetTimeout + k * x * c.resetTimeout;
  }
}
