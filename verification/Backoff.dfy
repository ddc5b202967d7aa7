/** Retry loops and their delays, over exact reals. */
module Backoff {
  datatype Config = Config(maxRetries: int, initialDelay: real, maxDelay: real, factor: real, jitter: real)

  predicate ValidConfig(c: Config) {
    c.maxRetries >= 0 && c.initialDelay > 0.0 && c.maxDelay > 0.0 && c.factor >= 1.0 && 0.0 <= c.jitter <= 1.0
  }

  function Min(a: real, b: real): real {
    if a < b then a else b
  }

  function Pow(x: real, n: nat): real {
    if n == 0 then 1.0 else Pow(x, n - 1) * x
  }

  function CalculateNextDelay(current: real, factor: real, maxDelay: real): real {
    var next := current * factor;
    if next > maxDelay then maxDelay else next
  }

  /** The delay variable after k failed attempts. */
  function BaseDelay(c: Config, k: nat): real {
    if k == 0 then c.initialDelay else CalculateNextDelay(BaseDelay(c, k - 1), c.factor, c.maxDelay)
  }

  lemma {:induction false} PowAtLeastOne(x: real, n: nat)
    requires x >= 1.0
    ensures Pow(x, n) >= 1.0
  {
    if n > 0 {
      PowAtLeastOne(x, n - 1);
      MulGrows(Pow(x, n - 1), x);
    }
  }

  lemma MulGrows(a: real, x: real)
    requires a >= 0.0 && x >= 1.0
    ensures a * x >= a
  {
  }

  lemma CapStep(a: real, f: real, cap: real)
    requires a > 0.0 && f >= 1.0 && cap > 0.0
    ensures CalculateNextDelay(Min(a, cap), f, cap) == Min(a * f, cap)
  {
  }

  /** x multiplied by f, k times. */
  function Grown(x: real, f: real, k: nat): real {
    if k == 0 then x else Grown(x, f, k - 1) * f
  }

  lemma {:induction false} GrownIsPower(x: real, f: real, k: nat)
    ensures Grown(x, f, k) == x * Pow(f, k)
  {
    if k > 0 {
      GrownIsPower(x, f, k - 1);
      MulAssoc(x, Pow(f, k - 1), f);
    }
  }

  lemma MulAssoc(a: real, b: real, c: real)
    ensures a * (b * c) == a * b * c
  {
  }

  lemma {:induction false} GrownPositive(x: real, f: real, k: nat)
    requires x > 0.0 && f >= 1.0
    ensures Grown(x, f, k) > 0.0
  {
    if k > 0 {
      GrownPositive(x, f, k - 1);
      MulGrows(Grown(x, f, k - 1), f);
    }
  }

  lemma {:induction false} DelaysAreCapped(c: Config, k: nat)
    requires ValidConfig(c) && c.initialDelay <= c.maxDelay
    ensures BaseDelay(c, k) == Min(Grown(c.initialDelay, c.factor, k), c.maxDelay)
  {
    if k > 0 {
      DelaysAreCapped(c, k - 1);
      GrownPositive(c.initialDelay, c.factor, k - 1);
      DelayStep(c, k, Grown(c.initialDelay, c.factor, k - 1));
    }
  }

  lemma DelayStep(c: Config, k: nat, grown: real)
    requires ValidConfig(c) && k > 0 && grown > 0.0 && BaseDelay(c, k - 1) == Min(grown, c.maxDelay)
    ensures BaseDelay(c, k) == Min(grown * c.factor, c.maxDelay)
  {
    CapStep(grown, c.factor, c.maxDelay);
  }

  ghost predicate CappedPower(c: Config, k: nat) {
    BaseDelay(c, k) == Min(c.initialDelay * Pow(c.factor, k), c.maxDelay)
  }

  lemma CappedPowerHolds(c: Config, k: nat)
    requires ValidConfig(c) && c.initialDelay <= c.maxDelay
    ensures CappedPower(c, k)
  {
    DelaysAreCapped(c, k);
    GrownIsPower(c.initialDelay, c.factor, k);
  }

  lemma FirstDelayUncapped(c: Config)
    requires c.initialDelay > c.maxDelay
    ensures !CappedPower(c, 0)
  {
  }

  /** The k-th base delay is min(initial * factor^k, max) for every k exactly when initial <= max: a larger
      initial delay is used once, uncapped. */
  lemma BackoffLawIff(c: Config)
    requires ValidConfig(c)
    ensures (forall k: nat :: CappedPower(c, k)) <==> c.initialDelay <= c.maxDelay
  {
    if c.initialDelay <= c.maxDelay {
      forall k: nat ensures CappedPower(c, k) {
        CappedPowerHolds(c, k);
      }
    } else {
      FirstDelayUncapped(c);
    }
  }

  /** How one attempt goes: whether the context is already done, whether the operation succeeds, whether its
      error may be retried, the jitter draw in [0, 1), and whether the context ends during the sleep. */
  datatype Attempt = Attempt(doneBefore: bool, succeeds: bool, retryable: bool, draw: real, doneDuring: bool)

  datatype RetryResult = Succeeded | InvalidConfig | ContextDone | NotRetryable | Exhausted

  /** The first n sleeps. */
  function SleepsOf(c: Config, attempts: nat -> Attempt, n: nat): (s: seq<real>)
    ensures |s| == n
  {
    if n == 0 then []
    else SleepsOf(c, attempts, n - 1) + [DelayWithJitter(BaseDelay(c, n - 1), c.jitter, attempts(n - 1).draw)]
  }

  /** Runs the operation until it succeeds, may not be retried, the context ends, or MaxRetries calls were
      made; sleeps[k] is the delay chosen after the (k+1)-st call. */
  method Retry(c: Config, attempts: nat -> Attempt) returns (r: RetryResult, calls: nat, sleeps: seq<real>)
    ensures r == InvalidConfig <==> !ValidConfig(c)
    ensures ValidConfig(c) ==> calls <= c.maxRetries
    ensures |sleeps| <= calls && sleeps == SleepsOf(c, attempts, |sleeps|)
    ensures r == Succeeded <==> calls > 0 && attempts(calls - 1).succeeds
    ensures forall k :: 0 <= k < calls - 1 ==>
              !attempts(k).doneBefore && !attempts(k).succeeds && attempts(k).retryable && !attempts(k).doneDuring
    ensures r == NotRetryable <==> calls > 0 && !attempts(calls - 1).succeeds && !attempts(calls - 1).retryable
    ensures r == ContextDone ==> |sleeps| == calls
    ensures r == ContextDone ==> (calls < c.maxRetries && attempts(calls).doneBefore)
                                 || (calls > 0 && attempts(calls - 1).doneDuring)
    ensures r == Exhausted ==> calls == c.maxRetries && |sleeps| == calls
    ensures r == Exhausted ==> calls == 0 || !attempts(calls - 1).doneDuring
    ensures calls > 0 && attempts(calls - 1).succeeds ==> |sleeps| == calls - 1
  {
    calls, sleeps := 0, [];
    if !ValidConfig(c) {
      return InvalidConfig, calls, sleeps;
    }
    var delay := c.initialDelay;
    while calls < c.maxRetries
      invariant calls <= c.maxRetries && |sleeps| == calls
      invariant delay == BaseDelay(c, calls)
      invariant sleeps == SleepsOf(c, attempts, calls)
      invariant forall k :: 0 <= k < calls ==>
                  !attempts(k).doneBefore && !attempts(k).succeeds && attempts(k).retryable && !attempts(k).doneDuring
    {
      var a := attempts(calls);
      if a.doneBefore {
        return ContextDone, calls, sleeps;
      }
      calls := calls + 1;
      if a.succeeds {
        return Succeeded, calls, sleeps;
      }
      if !a.retryable {
        return NotRetryable, calls, sleeps;
      }
      var sleep := DelayWithJitter(delay, c.jitter, a.draw);
      sleeps := sleeps + [sleep];
      if a.doneDuring {
        return ContextDone, calls, sleeps;
      }
      delay := CalculateNextDelay(delay, c.factor, c.maxDelay);
    }
    r := Exhausted;
  }

  function DelayWithJitter(base: real, jitter: real, draw: real): real {
    if jitter > 0.0 then base + jitter * base * draw else base
  }

  /** Jitter only lengthens a delay, by at most the jitter factor. */
  lemma JitterBounds(base: real, jitter: real, draw: real)
    requires base > 0.0 && 0.0 <= jitter && 0.0 <= draw < 1.0
    ensures base <= DelayWithJitter(base, jitter, draw) <= base + jitter * base
  {
  }

  lemma {:induction false} BaseDelayPositive(c: Config, k: nat)
    requires ValidConfig(c)
    ensures BaseDelay(c, k) > 0.0
  {
    if k > 0 {
      BaseDelayPositive(c, k - 1);
      MulGrows(BaseDelay(c, k - 1), c.factor);
    }
  }

  /** Every sleep of a retry loop is its base delay, lengthened by at most the jitter factor. */
  lemma {:induction false} SleepsWithinJitter(c: Config, attempts: nat -> Attempt, n: nat, k: nat)
    requires ValidConfig(c) && k < n && 0.0 <= attempts(k).draw < 1.0
    ensures var base := BaseDelay(c, k);
            base <= SleepsOf(c, attempts, n)[k] <= base + c.jitter * base
  {
    if k < n - 1 {
      SleepsWithinJitter(c, attempts, n - 1, k);
    } else {
      BaseDelayPositive(c, k);
      JitterBounds(BaseDelay(c, k), c.jitter, attempts(k).draw);
    }
  }

  // ----- Webhook delivery -----

  function Pow2(n: nat): nat {
    if n == 0 then 1 else 2 * Pow2(n - 1)
  }

  /** Posts until a 2xx answer, at most maxRetries + 1 times, sleeping retryDelay * 2^(attempt - 1) before
      each post but the first. `answers(k)` says whether post k gets a 2xx. */
  method Send(maxRetries: int, retryDelay: nat, answers: nat -> bool) returns (delivered: bool, posts: nat, slept: nat)
    ensures maxRetries < 0 ==> !delivered && posts == 0
    ensures maxRetries >= 0 ==> 1 <= posts <= maxRetries + 1
    ensures maxRetries >= 0 ==> slept == retryDelay * (Pow2(posts - 1) - 1)
    ensures maxRetries >= 0 ==> (delivered <==> exists k: nat :: k <= maxRetries && answers(k))
    ensures delivered ==> answers(posts - 1) && forall k: nat :: k < posts - 1 ==> !answers(k)
    ensures maxRetries >= 0 && !delivered ==> posts == maxRetries + 1 && slept == retryDelay * (Pow2(maxRetries) - 1)
  {
    delivered, posts, slept := false, 0, 0;
    var attempt: nat := 0;
    while attempt <= maxRetries
      invariant posts == attempt
      invariant maxRetries >= 0 ==> attempt <= maxRetries + 1
      invariant maxRetries < 0 ==> attempt == 0
      invariant forall k: nat :: k < attempt ==> !answers(k)
      invariant slept == if attempt == 0 then 0 else retryDelay * (Pow2(attempt - 1) - 1)
    {
      if attempt > 0 {
        SleepAdds(retryDelay, attempt);
        slept := slept + retryDelay * Pow2(attempt - 1);
      }
      posts := posts + 1;
      if answers(attempt) {
        return true, posts, slept;
      }
      attempt := attempt + 1;
    }
  }

  lemma SleepAdds(d: nat, attempt: nat)
    requires attempt > 0
    ensures d * (Pow2(attempt - 1) - 1) + d * Pow2(attempt - 1) == d * (Pow2(attempt) - 1)
  {
  }

  // ----- Reconnection -----

  datatype Reconnect = Reconnect(maxRetries: int, baseDelay: real, maxDelay: real, factor: real, jitter: bool)

  /** A shake of up to a quarter either way. */
  function Shake(delay: real, draw: real): real {
    var range := delay * 0.25;
    delay + (draw * (range * 2.0) - range)
  }

  /** `draw` is the clock's remainder modulo twice the jitter range, as a fraction of that modulus. */
  function CalculateReconnectDelay(current: real, c: Reconnect, draw: real): real {
    var capped := CalculateNextDelay(current, c.factor, c.maxDelay);
    if !c.jitter then capped
    else
      var shaken := Shake(capped, draw);
      if shaken < c.baseDelay then c.baseDelay else shaken
  }

  function ReconnectDelay(c: Reconnect, draws: nat -> real, k: nat): real {
    if k == 0 then c.baseDelay else CalculateReconnectDelay(ReconnectDelay(c, draws, k - 1), c, draws(k - 1))
  }

  /** Every reconnection delay lies between the base delay and 1.25 times the maximum, and at most the
      maximum without jitter. */
  lemma {:induction false} ReconnectDelayBounds(c: Reconnect, draws: nat -> real, k: nat)
    requires 0.0 < c.baseDelay <= c.maxDelay && c.factor >= 1.0
    requires forall i: nat :: 0.0 <= draws(i) < 1.0
    ensures c.baseDelay <= ReconnectDelay(c, draws, k) <= 1.25 * c.maxDelay
    ensures !c.jitter ==> ReconnectDelay(c, draws, k) <= c.maxDelay
  {
    if k > 0 {
      ReconnectDelayBounds(c, draws, k - 1);
      ReconnectStepBounds(ReconnectDelay(c, draws, k - 1), c, draws(k - 1));
    }
  }

  lemma CappedBounds(d: real, f: real, base: real, cap: real)
    requires 0.0 < base <= d && base <= cap && f >= 1.0
    ensures base <= CalculateNextDelay(d, f, cap) <= cap
  {
    MulGrows(d, f);
  }

  lemma ReconnectStepBounds(d: real, c: Reconnect, draw: real)
    requires 0.0 < c.baseDelay <= c.maxDelay && c.factor >= 1.0
    requires c.baseDelay <= d && 0.0 <= draw < 1.0
    ensures c.baseDelay <= CalculateReconnectDelay(d, c, draw) <= 1.25 * c.maxDelay
    ensures !c.jitter ==> CalculateReconnectDelay(d, c, draw) <= c.maxDelay
  {
    CappedBounds(d, c.factor, c.baseDelay, c.maxDelay);
    ShakeBounds(CalculateNextDelay(d, c.factor, c.maxDelay), draw);
  }

  lemma ShakeBounds(delay: real, draw: real)
    requires delay > 0.0 && 0.0 <= draw < 1.0
    ensures 0.75 * delay <= Shake(delay, draw) <= 1.25 * delay
  {
  }

  /** The first n waits. */
  function WaitsOf(c: Reconnect, draws: nat -> real, n: nat): (s: seq<real>)
    ensures |s| == n
    ensures forall k :: 0 <= k < n ==> s[k] == ReconnectDelay(c, draws, k)
  {
    if n == 0 then [] else WaitsOf(c, draws, n - 1) + [ReconnectDelay(c, draws, n - 1)]
  }

  /** How one round of the reconnect loop goes: whether the client is closed before it or during its wait,
      and whether the connection then works. */
  datatype Try = Try(closedBefore: bool, closedDuring: bool, connects: bool)

  datatype ReconnectResult = Connected | GaveUp | Closed

  predicate Fails(t: Try) {
    !t.closedBefore && !t.closedDuring && !t.connects
  }

  /** The reconnect loop: waits, then tries to connect, until it works, the client is closed, or MaxRetries
      attempts were made (0 means no limit). Without a limit some round must not fail: `last`. */
  method ReconnectLoop(c: Reconnect, draws: nat -> real, tries: nat -> Try, ghost last: nat)
    returns (r: ReconnectResult, waits: seq<real>)
    requires c.maxRetries <= 0 ==> !Fails(tries(last))
    ensures c.maxRetries > 0 ==> |waits| <= c.maxRetries
    ensures waits == WaitsOf(c, draws, |waits|)
    ensures forall k: nat :: k < |waits| - 1 ==> Fails(tries(k))
    ensures r == Connected ==>
              |waits| > 0 && (var t := tries(|waits| - 1); !t.closedBefore && !t.closedDuring && t.connects)
    ensures r == GaveUp ==>
              && 0 < c.maxRetries == |waits|
              && (forall k: nat :: k < |waits| ==> Fails(tries(k)))
              && !tries(|waits|).closedBefore
    ensures r == Closed ==>
              || (tries(|waits|).closedBefore && forall k: nat :: k < |waits| ==> Fails(tries(k)))
              || (|waits| > 0 && !tries(|waits| - 1).closedBefore && tries(|waits| - 1).closedDuring)
  {
    var attempt: nat := 0;
    var delay := c.baseDelay;
    waits := [];
    while true
      invariant |waits| == attempt && (c.maxRetries > 0 ==> attempt <= c.maxRetries)
      invariant delay == ReconnectDelay(c, draws, attempt)
      invariant waits == WaitsOf(c, draws, attempt)
      invariant forall k: nat :: k < attempt ==> Fails(tries(k))
      decreases if c.maxRetries > 0 then c.maxRetries - attempt else last - attempt
    {
      if tries(attempt).closedBefore {
        return Closed, waits;
      }
      if c.maxRetries > 0 && attempt >= c.maxRetries {
        return GaveUp, waits;
      }
      attempt := attempt + 1;
      waits := waits + [delay];
      if tries(attempt - 1).closedDuring {
        return Closed, waits;
      }
      if tries(attempt - 1).connects {
        return Connected, waits;
      }
      delay := CalculateReconnectDelay(delay, c, draws(attempt - 1));
    }
  }

  // ----- How delays depend on their parameters -----

  /** The draw places a delay between the base delay and the base delay lengthened by the whole jitter factor. */
  lemma DrawPlacesDelay(base: real, jitter: real, draw: real)
    requires jitter >= 0.0
    ensures DelayWithJitter(base, jitter, draw) == (1.0 - draw) * base + draw * (base + jitter * base)
  {
    var extra := jitter * base;
    assert extra * draw == draw * extra;
    Interpolate(base, extra, draw);
  }

  lemma Interpolate(base: real, extra: real, draw: real)
    ensures (1.0 - draw) * base + draw * (base + extra) == base + draw * extra
  {
    assert (1.0 - draw) * base == base - draw * base;
    assert draw * (base + extra) == draw * base + draw * extra;
  }

  lemma {:induction false} PowAdds(x: real, m: nat, n: nat)
    ensures Pow(x, 1) == x && Pow(x, m + n) == Pow(x, m) * Pow(x, n)
  {
    if n > 0 {
      PowAdds(x, m, n - 1);
      MulAssoc(Pow(x, m), Pow(x, n - 1), x);
    }
    assert Pow(x, 0) == 1.0;
  }

  /** Without jitter the k-th wait is min(base * factor^k, max). */
  lemma ReconnectLaw(c: Reconnect, draws: nat -> real, k: nat)
    requires !c.jitter && 0.0 < c.baseDelay <= c.maxDelay && c.factor >= 1.0
    ensures ReconnectDelay(c, draws, k) == Min(c.baseDelay * Pow(c.factor, k), c.maxDelay)
  {
    GrownIsPower(c.baseDelay, c.factor, k);
    ReconnectGrows(c, draws, k);
  }

  lemma ReconnectGrows(c: Reconnect, draws: nat -> real, k: nat)
    requires !c.jitter && 0.0 < c.baseDelay <= c.maxDelay && c.factor >= 1.0
    ensures ReconnectDelay(c, draws, k) == Min(Grown(c.baseDelay, c.factor, k), c.maxDelay)
  {
    ReconnectIsRetry(c, draws, k);
    DelaysAreCapped(Config(0, c.baseDelay, c.maxDelay, c.factor, 0.0), k);
  }

  /** These are the base delays of a retry loop with the same parameters. */
  lemma {:induction false} ReconnectIsRetry(c: Reconnect, draws: nat -> real, k: nat)
    requires !c.jitter
    ensures ReconnectDelay(c, draws, k) == BaseDelay(Config(0, c.baseDelay, c.maxDelay, c.factor, 0.0), k)
  {
    if k > 0 {
      ReconnectIsRetry(c, draws, k - 1);
    }
  }

  /** With jitter the draw places a wait between three quarters and five quarters of the capped delay, but not
      below the base delay. */
  lemma DrawPlacesWait(current: real, c: Reconnect, draw: real)
    requires c.jitter
    ensures var capped := if current * c.factor > c.maxDelay then c.maxDelay else current * c.factor;
            var placed := 0.75 * capped + 0.5 * draw * capped;
            CalculateReconnectDelay(current, c, draw) == if placed < c.baseDelay then c.baseDelay else placed
  {
    var capped := CalculateNextDelay(current, c.factor, c.maxDelay);
    assert Shake(capped, draw) == 0.75 * capped + 0.5 * draw * capped;
  }
}
