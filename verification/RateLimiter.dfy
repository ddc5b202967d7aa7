/** The fixed-window rate limiter: a stored counter that expires sixty seconds after it was created. */
module RateLimiter {
  import opened Wrappers

  /** Times are in milliseconds. */
  const WINDOW_SECONDS := 60
  const WINDOW := WINDOW_SECONDS * 1000

  datatype Counter = Counter(count: nat, expireAt: int)

  /** What became of the script call: it answered, or the answer was lost, with or without the script
      having taken effect on the store. */
  datatype Outcome = Answered | Lost(applied: bool)

  datatype Verdict = Allowed | Exceeded | StoreError

  datatype Status = Status(remaining: int, limit: int, reset: int)

  predicate Alive(c: Option<Counter>, now: int) {
    c.Some? && now < c.value.expireAt
  }

  /** INCR, and EXPIRE when the increment created the key. */
  function Hit(c: Option<Counter>, now: int): (r: Counter) {
    if Alive(c, now) then Counter(c.value.count + 1, c.value.expireAt) else Counter(1, now + WINDOW)
  }

  function Lookup(counters: map<string, Counter>, key: string): Option<Counter> {
    if key in counters then Some(counters[key]) else None
  }

  /** The TTL reply: whole seconds, rounded to nearest; -2 for a key that does not exist. */
  function Ttl(c: Option<Counter>, now: int): int {
    if Alive(c, now) then (c.value.expireAt - now + 500) / 1000 else -2
  }

  function GinKey(apiKey: string): string {
    "rate_limit:" + apiKey
  }

  function HttpKey(apiKey: string): string {
    "rate-limit:" + apiKey
  }

  /** The two entry points never share a counter, whatever the API keys are. */
  lemma KeysNeverCollide(a: string, b: string)
    ensures GinKey(a) != HttpKey(b)
    ensures GinKey(a) == GinKey(b) <==> a == b
    ensures HttpKey(a) == HttpKey(b) <==> a == b
  {
    assert GinKey(a)[4] == '_' && HttpKey(b)[4] == '-';
    assert GinKey(a)[11..] == a && GinKey(b)[11..] == b;
    assert HttpKey(a)[11..] == a && HttpKey(b)[11..] == b;
  }

  class RateLimiter {
    var counters: map<string, Counter>

    constructor ()
      ensures counters == map[]
    {
      counters := map[];
    }

    /** The stored script, run atomically by the store. */
    method EvalScript(key: string, limit: int, now: int) returns (current: int, remaining: int, ttl: int)
      modifies this
      ensures counters == old(counters)[key := Hit(Lookup(old(counters), key), now)]
      ensures current == counters[key].count
      ensures remaining == if current > limit then 0 else limit - current
      ensures 0 <= ttl
      ensures ttl == Ttl(Lookup(counters, key), now)
      ensures -500 < ttl * 1000 - (counters[key].expireAt - now) <= 500
    {
      if key in counters && now < counters[key].expireAt {
        counters := counters[key := Counter(counters[key].count + 1, counters[key].expireAt)];
      } else {
        counters := counters[key := Counter(1, now + WINDOW)];
      }
      current := counters[key].count;
      ttl := (counters[key].expireAt - now + 500) / 1000;
      if current > limit {
        remaining := 0;
      } else {
        remaining := limit - current;
      }
    }

    /** Behind gin: a lost answer rejects the request. CheckRateLimitForKey has the same key and effect. */
    method ApplyGinRateLimit(apiKey: string, limit: int, now: int, outcome: Outcome) returns (v: Verdict)
      modifies this
      ensures counters == AfterRequest(old(counters), GinKey(apiKey), now, outcome)
      ensures outcome == Lost(false) ==> counters == old(counters)
      ensures outcome != Lost(false) ==> GinKey(apiKey) in counters
      ensures outcome != Answered ==> v == StoreError
      ensures outcome == Answered ==> v == if counters[GinKey(apiKey)].count <= limit then Allowed else Exceeded
      ensures v == Decide(Lookup(old(counters), GinKey(apiKey)), limit, Request(now, outcome), false)
    {
      if outcome == Lost(false) {
        return StoreError;
      }
      var current, _, _ := EvalScript(GinKey(apiKey), limit, now);
      if outcome == Lost(true) {
        return StoreError;
      }
      return if current > limit then Exceeded else Allowed;
    }

    /** Behind net/http: a lost answer lets the request through. */
    method ApplyRateLimit(apiKey: string, limit: int, now: int, outcome: Outcome)
      returns (v: Verdict, remaining: int, reset: int)
      modifies this
      ensures counters == AfterRequest(old(counters), HttpKey(apiKey), now, outcome)
      ensures outcome == Lost(false) ==> counters == old(counters)
      ensures outcome != Lost(false) ==> HttpKey(apiKey) in counters
      ensures outcome != Answered ==> v == Allowed
      ensures outcome == Answered ==> v == if counters[HttpKey(apiKey)].count <= limit then Allowed else Exceeded
      ensures v == Decide(Lookup(old(counters), HttpKey(apiKey)), limit, Request(now, outcome), true)
      ensures outcome == Answered ==>
                var c := Hit(Lookup(old(counters), HttpKey(apiKey)), now);
                && -1500 < reset * 1000 - c.expireAt <= 500
                && remaining == (if c.count > limit then 0 else limit - c.count)
                && reset == now / 1000 + Ttl(Some(c), now)
    {
      remaining, reset := 0, 0;
      if outcome == Lost(false) {
        return Allowed, remaining, reset;
      }
      var count, left, ttl := EvalScript(HttpKey(apiKey), limit, now);
      if outcome == Lost(true) {
        return Allowed, remaining, reset;
      }
      remaining, reset := left, now / 1000 + ttl;
      v := if count > limit then Exceeded else Allowed;
    }

    /** The status endpoint reads ApplyRateLimit's counter and leaves it alone. It reports something left
        exactly when an ApplyRateLimit call at that moment would be let through. */
    method GetRateLimitStatus(apiKey: string, limit: int, now: int) returns (s: Status)
      ensures s.limit == limit
      ensures s.remaining > 0 <==>
                Decide(Lookup(counters, HttpKey(apiKey)), limit, Request(now, Answered), true) == Allowed
      ensures s.remaining > 0 ==> s.remaining - 1 == limit - Hit(Lookup(counters, HttpKey(apiKey)), now).count
      ensures Alive(Lookup(counters, HttpKey(apiKey)), now) ==>
                && s.reset == now / 1000 + Ttl(Lookup(counters, HttpKey(apiKey)), now)
                && -1500 < s.reset * 1000 - counters[HttpKey(apiKey)].expireAt <= 500
      ensures !Alive(Lookup(counters, HttpKey(apiKey)), now) ==> s.reset == now / 1000 + WINDOW_SECONDS
    {
      var key := HttpKey(apiKey);
      var count := 0;
      var ttl := -2;
      if key in counters && now < counters[key].expireAt {
        count := counters[key].count;
        ttl := (counters[key].expireAt - now + 500) / 1000;
      }
      if ttl < 0 {
        ttl := WINDOW_SECONDS;
      }
      s := Status(if limit - count > 0 then limit - count else 0, limit, now / 1000 + ttl);
    }
  }

  // ----- One API key's counter over a trace of requests -----

  datatype Request = Request(time: int, outcome: Outcome)

  function AfterRequest(counters: map<string, Counter>, key: string, now: int, outcome: Outcome): map<string, Counter> {
    if outcome == Lost(false) then counters else counters[key := Hit(Lookup(counters, key), now)]
  }

  function Decide(c: Option<Counter>, limit: int, r: Request, failOpen: bool): Verdict {
    if r.outcome != Answered then (if failOpen then Allowed else StoreError)
    else if Hit(c, r.time).count > limit then Exceeded
    else Allowed
  }

  function CounterAfter(rs: seq<Request>): Option<Counter> {
    if rs == [] then None
    else
      var c, r := CounterAfter(rs[..|rs| - 1]), rs[|rs| - 1];
      if r.outcome == Lost(false) then c else Some(Hit(c, r.time))
  }

  function VerdictAt(rs: seq<Request>, i: nat, limit: int, failOpen: bool): Verdict
    requires i < |rs|
  {
    Decide(CounterAfter(rs[..i]), limit, rs[i], failOpen)
  }

  predicate TimesAscend(rs: seq<Request>) {
    forall i, j :: 0 <= i < j < |rs| ==> rs[i].time <= rs[j].time
  }

  predicate InInterval(t: int, from: int) {
    from <= t < from + WINDOW
  }

  /** Requests let through whose time lies in [from, from + 60s). */
  function AdmittedIn(rs: seq<Request>, limit: int, failOpen: bool, from: int): nat {
    if rs == [] then 0
    else
      var n := |rs| - 1;
      AdmittedIn(rs[..n], limit, failOpen, from)
      + if InInterval(rs[n].time, from) && VerdictAt(rs, n, limit, failOpen) == Allowed then 1 else 0
  }

  /** Requests in [from, from + 60s) whose answer was lost. */
  function LostIn(rs: seq<Request>, from: int): nat {
    if rs == [] then 0
    else
      var n := |rs| - 1;
      LostIn(rs[..n], from) + if InInterval(rs[n].time, from) && rs[n].outcome != Answered then 1 else 0
  }

  /** What the counter of a trace says about the interval starting at `from`: `passed` is how many requests
      the counter itself has let through in it so far. */
  ghost predicate WindowLedger(c: Option<Counter>, passed: int, limit: int, from: int)
    requires limit >= 1
  {
    match c
    case None => passed == 0
    case Some(k) =>
      var used := if k.count < limit then k.count else limit;
      && k.count >= 1
      && if k.expireAt - WINDOW < from then passed <= used - 1
         else if k.expireAt - WINDOW < from + WINDOW then passed <= limit - 1 + used
         else passed <= 2 * limit - 1
  }

  lemma {:induction false} LedgerHolds(rs: seq<Request>, limit: int, failOpen: bool, from: int)
    requires TimesAscend(rs) && limit >= 1
    ensures var passed := AdmittedIn(rs, limit, failOpen, from) - if failOpen then LostIn(rs, from) else 0;
            && WindowLedger(CounterAfter(rs), passed, limit, from)
            && (rs != [] && rs[|rs| - 1].time < from ==> passed == 0)
            && (rs != [] && CounterAfter(rs).Some? ==> CounterAfter(rs).value.expireAt - WINDOW <= rs[|rs| - 1].time)
  {
    if rs != [] {
      var n := |rs| - 1;
      LedgerHolds(rs[..n], limit, failOpen, from);
    }
  }

  /** The sliding bound. Whatever the trace of times and losses, the counter lets at most 2*limit - 1
      requests through in any half-open interval of sixty seconds (none for a limit below 1); behind
      net/http, every lost answer in the interval adds one. */
  lemma SlidingBound(rs: seq<Request>, limit: int, failOpen: bool, from: int)
    requires TimesAscend(rs)
    ensures AdmittedIn(rs, limit, failOpen, from)
         <= (if limit >= 1 then 2 * limit - 1 else 0) + if failOpen then LostIn(rs, from) else 0
  {
    if limit >= 1 {
      LedgerHolds(rs, limit, failOpen, from);
    } else {
      NothingBelowOne(rs, limit, failOpen, from);
    }
  }

  lemma {:induction false} NothingBelowOne(rs: seq<Request>, limit: int, failOpen: bool, from: int)
    requires limit < 1
    ensures AdmittedIn(rs, limit, failOpen, from) == if failOpen then LostIn(rs, from) else 0
  {
    if rs != [] {
      NothingBelowOne(rs[..|rs| - 1], limit, failOpen, from);
    }
  }

  /** The trace that reaches the bound: one request opens a window, limit - 1 arrive in its last
      millisecond, limit more as soon as it has expired. */
  function WorstTrace(limit: nat): seq<Request> {
    seq(2 * limit, i => Request(if i == 0 then 0 else if i < limit then WINDOW - 1 else WINDOW, Answered))
  }

  lemma SlidingBoundIsTight(limit: nat)
    requires limit >= 1
    ensures TimesAscend(WorstTrace(limit))
    ensures AdmittedIn(WorstTrace(limit), limit, false, WINDOW - 1) == 2 * limit - 1
  {
    WorstPrefix(limit, 2 * limit);
    assert WorstTrace(limit)[..2 * limit] == WorstTrace(limit);
  }

  lemma {:induction false} WorstPrefix(limit: nat, n: nat)
    requires 1 <= n <= 2 * limit
    ensures var rs := WorstTrace(limit)[..n];
            && CounterAfter(rs) == Some(if n <= limit then Counter(n, WINDOW) else Counter(n - limit, 2 * WINDOW))
            && AdmittedIn(rs, limit, false, WINDOW - 1) == n - 1
  {
    var rs := WorstTrace(limit)[..n];
    var pre := WorstTrace(limit)[..n - 1];
    assert rs[..n - 1] == pre;
    if n > 1 {
      WorstPrefix(limit, n - 1);
    } else {
      assert pre == [];
    }
  }

  // ----- One window -----

  /** Request i finds no live counter, so it opens a window. */
  predicate OpensWindow(rs: seq<Request>, i: nat)
    requires i < |rs|
  {
    !Alive(CounterAfter(rs[..i]), rs[i].time)
  }

  function AdmittedBetween(rs: seq<Request>, limit: int, lo: nat, hi: nat): nat
    requires lo <= hi <= |rs|
  {
    if lo == hi then 0
    else AdmittedBetween(rs, limit, lo, hi - 1) + if VerdictAt(rs, hi - 1, limit, false) == Allowed then 1 else 0
  }

  /** With every answer received, the counter after request j of a window opened by request i stands at
      j - i + 1 and still expires sixty seconds after request i: refused requests count but do not extend
      the window. */
  lemma {:induction false} WindowCounter(rs: seq<Request>, i: nat, j: nat)
    requires i <= j < |rs| && TimesAscend(rs)
    requires forall k :: i <= k <= j ==> rs[k].outcome == Answered
    requires OpensWindow(rs, i) && rs[j].time < rs[i].time + WINDOW
    ensures CounterAfter(rs[..j + 1]) == Some(Counter(j - i + 1, rs[i].time + WINDOW))
  {
    assert rs[..j + 1][..j] == rs[..j];
    if i < j {
      WindowCounter(rs, i, j - 1);
    }
  }

  /** A window admits exactly min(requests in it, limit): the first ones. */
  lemma {:induction false} WindowAdmits(rs: seq<Request>, limit: int, i: nat, j: nat)
    requires i <= j < |rs| && TimesAscend(rs)
    requires forall k :: i <= k <= j ==> rs[k].outcome == Answered
    requires OpensWindow(rs, i) && rs[j].time < rs[i].time + WINDOW
    ensures var cap := if limit < 0 then 0 else limit;
            AdmittedBetween(rs, limit, i, j + 1) == if j - i + 1 < cap then j - i + 1 else cap
    ensures VerdictAt(rs, j, limit, false) == if j - i + 1 <= limit then Allowed else Exceeded
  {
    assert rs[..j + 1][..j] == rs[..j];
    WindowCounter(rs, i, j);
    if i < j {
      WindowAdmits(rs, limit, i, j - 1);
      WindowCounter(rs, i, j - 1);
    }
  }

  /** Once a counter has been stored, its expiry never moves back. */
  lemma {:induction false} ExpiryAdvances(rs: seq<Request>, i: nat, j: nat)
    requires i <= j <= |rs| && TimesAscend(rs) && CounterAfter(rs[..i]).Some?
    ensures CounterAfter(rs[..j]).Some?
    ensures CounterAfter(rs[..i]).value.expireAt <= CounterAfter(rs[..j]).value.expireAt
  {
    if i < j {
      ExpiryAdvances(rs, i, j - 1);
      assert rs[..j][..j - 1] == rs[..j - 1];
    }
  }

  /** A window that is created keeps any other from opening for sixty seconds, whatever answers are lost. */
  lemma WindowsApart(rs: seq<Request>, i: nat, j: nat)
    requires i < j < |rs| && TimesAscend(rs)
    requires OpensWindow(rs, i) && rs[i].outcome != Lost(false) && OpensWindow(rs, j)
    ensures rs[i].time + WINDOW <= rs[j].time
  {
    assert rs[..i + 1][..i] == rs[..i];
    assert CounterAfter(rs[..i + 1]) == Some(Counter(1, rs[i].time + WINDOW));
    ExpiryAdvances(rs, i + 1, j);
  }

  // ----- The times reported -----

  /** The time left is reported to the nearest second, and -2 exactly for a counter that is not there. */
  lemma TtlIsNearest(c: Option<Counter>, now: int)
    ensures Alive(c, now) ==> -500 < Ttl(c, now) * 1000 - (c.value.expireAt - now) <= 500
    ensures Ttl(c, now) == -2 <==> !(c.Some? && now < c.value.expireAt)
  {
  }

  /** A counter counts its requests and expires sixty seconds after the one that created it. */
  lemma HitMeans(c: Option<Counter>, now: int)
    ensures var h := Hit(c, now);
            if c.Some? && now < c.value.expireAt then h.count == c.value.count + 1 && h.expireAt == c.value.expireAt
            else h.count == 1 && h.expireAt == now + 60_000
  {
  }
}
