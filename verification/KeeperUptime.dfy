/** The persisted half of keeper health: online flag, last check-in and accumulated uptime. Times are in
    nanoseconds, uptime in whole seconds. */
module KeeperUptime {
  import opened Wrappers
  import opened GoNumbers

  datatype Row = Row(id: int, online: bool, lastCheckedIn: int, uptime: int)

  /** A check-in carries the keeper's own timestamp; going offline carries nothing. */
  datatype Update = CheckIn(timestamp: int) | GoOffline

  /** Which store call of one update fails, if any. */
  datatype Fault = NoFault | ReadFails | UptimeFails | FinalFails

  /** One call: the clock at the call, and what fails. */
  datatype Attempt = Attempt(now: int, fault: Fault)

  /** Whole seconds since the last check-in, never negative. */
  function Elapsed(r: Row, now: int): nat {
    if now < r.lastCheckedIn then 0 else (now - r.lastCheckedIn) / SECOND
  }

  /** The row after one call, and whether the call reports success. */
  function UpdateRow(r: Row, u: Update, a: Attempt): (Row, bool) {
    if a.fault == ReadFails || r.id == 0 || (r.online && a.fault == UptimeFails) then (r, false)
    else
      var counted := if r.online then r.(uptime := r.uptime + Elapsed(r, a.now)) else r;
      if a.fault == FinalFails then (counted, false)
      else
        match u
        case CheckIn(timestamp) => (counted.(online := true, lastCheckedIn := timestamp), true)
        case GoOffline => (counted.(online := false), true)
  }

  /** Attempts in order until one succeeds. */
  function RetryRow(r: Row, u: Update, attempts: seq<Attempt>): (Row, bool)
    decreases |attempts|
  {
    if attempts == [] then (r, false)
    else
      var (r1, ok) := UpdateRow(r, u, attempts[0]);
      if ok then (r1, true) else RetryRow(r1, u, attempts[1..])
  }

  class DatabaseManager {
    var rows: map<string, Row>

    constructor (rows: map<string, Row>)
      ensures this.rows == rows
    {
      this.rows := rows;
    }

    /** Three separate store calls: read the row, add to the uptime if the keeper was online, write the rest. */
    method UpdateKeeperHealth(address: string, u: Update, a: Attempt) returns (ok: bool)
      modifies this
      ensures address !in old(rows) ==> !ok && rows == old(rows)
      ensures address in old(rows) ==> rows == old(rows)[address := UpdateRow(old(rows)[address], u, a).0]
      ensures address in old(rows) ==> ok == UpdateRow(old(rows)[address], u, a).1
      ensures ok <==>
                && address in old(rows) && old(rows)[address].id != 0 && a.fault != ReadFails && a.fault != FinalFails
                && !(old(rows)[address].online && a.fault == UptimeFails)
      ensures ok ==> address in rows && rows[address].online == u.CheckIn?
      ensures a.fault == ReadFails || (address in old(rows) && old(rows)[address].id == 0) ==> rows == old(rows)
    {
      if address !in rows {
        return false;
      }
      var row := rows[address];
      assert rows == rows[address := row];
      if a.fault == ReadFails || row.id == 0 {
        return false;
      }
      if row.online {
        var uptimeToAdd := 0;
        if row.lastCheckedIn <= a.now {
          uptimeToAdd := (a.now - row.lastCheckedIn) / SECOND;
        }
        if a.fault == UptimeFails {
          return false;
        }
        rows := rows[address := row.(uptime := row.uptime + uptimeToAdd)];
      }
      if a.fault == FinalFails {
        return false;
      }
      match u
      case GoOffline =>
        rows := rows[address := rows[address].(online := false)];
        return true;
      case CheckIn(timestamp) =>
        rows := rows[address := rows[address].(online := true, lastCheckedIn := timestamp)];
        return true;
    }

    /** Calls the update until it succeeds or the attempts are used up. */
    method RetryWithBackoff(address: string, u: Update, attempts: seq<Attempt>) returns (ok: bool)
      modifies this
      ensures address !in old(rows) ==> !ok && rows == old(rows)
      ensures address in old(rows) ==> rows == old(rows)[address := RetryRow(old(rows)[address], u, attempts).0]
      ensures address in old(rows) ==> ok == RetryRow(old(rows)[address], u, attempts).1
    {
      var i := 0;
      ghost var before := rows;
      assert address in rows ==> before == before[address := rows[address]];
      while i < |attempts|
        invariant i <= |attempts|
        invariant address !in before ==> rows == before
        invariant address in before ==> address in rows && rows == before[address := rows[address]]
        invariant address in before ==>
                    RetryRow(before[address], u, attempts) == RetryRow(rows[address], u, attempts[i..])
      {
        ok := UpdateKeeperHealth(address, u, attempts[i]);
        assert attempts[i..][1..] == attempts[i + 1..];
        if ok {
          return true;
        }
        i := i + 1;
      }
      return false;
    }
  }

  // ----- Accounting over a run -----

  /** One successful update: the clock, and the check-in's own timestamp if it is one. */
  datatype Event = Event(now: int, checkIn: Option<int>)

  function UpdateOf(e: Event): Update {
    if e.checkIn == None then GoOffline else CheckIn(e.checkIn.value)
  }

  function RunRow(r: Row, events: seq<Event>): Row {
    if events == [] then r
    else
      var e := events[|events| - 1];
      UpdateRow(RunRow(r, events[..|events| - 1]), UpdateOf(e), Attempt(e.now, NoFault)).0
  }

  /** The total length of the online sessions up to the last event: a session runs from a check-in to the
      update after it, whichever kind that is. */
  function OnlineTime(events: seq<Event>): int {
    if |events| < 2 then 0
    else
      var n := |events| - 1;
      OnlineTime(events[..n]) + if events[n - 1].checkIn.Some? then events[n].now - events[n - 1].now else 0
  }

  /** The clock does not go back, and check-in timestamps are within `skew` of it. */
  ghost predicate Orderly(events: seq<Event>, skew: nat) {
    && (forall i, j :: 0 <= i < j < |events| ==> events[i].now <= events[j].now)
    && (forall i :: 0 <= i < |events| && events[i].checkIn.Some? ==>
          0 - skew <= events[i].now - events[i].checkIn.value <= skew)
  }

  /** A keeper is online exactly after a check-in, and remembers that check-in's timestamp. */
  lemma {:induction false} OnlineAfterCheckIn(r: Row, events: seq<Event>)
    requires r.id != 0 && !r.online
    ensures var q := RunRow(r, events);
            && q.id == r.id
            && (q.online <==> events != [] && events[|events| - 1].checkIn.Some?)
            && (q.online ==> q.lastCheckedIn == events[|events| - 1].checkIn.value)
  {
    if events != [] {
      OnlineAfterCheckIn(r, events[..|events| - 1]);
    }
  }

  /** What one update adds, against the time that has really passed. */
  lemma GainBounds(r: Row, e: Event, from: int, skew: nat)
    requires r.id != 0 && r.online && from <= e.now && 0 - skew <= from - r.lastCheckedIn <= skew
    ensures var gain := UpdateRow(r, UpdateOf(e), Attempt(e.now, NoFault)).0.uptime - r.uptime;
            && 0 <= gain
            && e.now - from - skew - SECOND < gain * SECOND <= e.now - from + skew
  {
  }

  /** n updates, each off by at most d. */
  function Slack(n: nat, d: nat): nat {
    n * d
  }

  lemma SlackNext(n: nat, d: nat)
    ensures Slack(n + 1, d) == Slack(n, d) + d
  {
  }

  /** The uptime bound. From an offline row, the uptime gained is at most the total online time and short
      of it by less than a second per update; with timestamps off by up to `skew`, each update can shift
      it by that much. Uptime never decreases. */
  lemma {:induction false} UptimeBounds(r: Row, events: seq<Event>, skew: nat)
    requires r.id != 0 && !r.online && Orderly(events, skew)
    ensures var gained := (RunRow(r, events).uptime - r.uptime) * SECOND;
            && 0 <= gained <= OnlineTime(events) + Slack(|events|, skew)
            && gained >= OnlineTime(events) - Slack(|events|, SECOND + skew)
  {
    if events != [] {
      var n := |events| - 1;
      var pre, e := events[..n], events[n];
      UptimeBounds(r, pre, skew);
      SlackNext(n, skew);
      SlackNext(n, SECOND + skew);
      OnlineAfterCheckIn(r, pre);
      var q := RunRow(r, pre);
      if q.online {
        assert pre[n - 1] == events[n - 1];
        GainBounds(q, e, events[n - 1].now, skew);
      }
    }
  }

  /** With timestamps equal to the clock: uptime gained is at most the online time, which is at most the
      time since the first check-in. */
  lemma UptimeWithinLifetime(r: Row, events: seq<Event>, first: nat)
    requires r.id != 0 && !r.online && Orderly(events, 0)
    requires first < |events| && events[first].checkIn.Some? && forall i :: 0 <= i < first ==> events[i].checkIn == None
    ensures (RunRow(r, events).uptime - r.uptime) * 1_000_000_000 <= OnlineTime(events)
         <= events[|events| - 1].now - events[first].now
  {
    UptimeBounds(r, events, 0);
    OnlineTimeSince(events, first);
  }

  lemma {:induction false} OnlineTimeSince(events: seq<Event>, first: nat)
    requires Orderly(events, 0) && first < |events|
    requires forall i :: 0 <= i < first ==> events[i].checkIn == None
    ensures OnlineTime(events) <= events[|events| - 1].now - events[first].now
  {
    var n := |events| - 1;
    if first < n {
      OnlineTimeSince(events[..n], first);
    } else {
      NeverOnline(events);
    }
  }

  lemma {:induction false} NeverOnline(events: seq<Event>)
    requires forall i :: 0 <= i < |events| - 1 ==> events[i].checkIn == None
    ensures OnlineTime(events) == 0
  {
    if |events| >= 2 {
      NeverOnline(events[..|events| - 1]);
    }
  }

  /** Repeated offline updates add nothing. */
  lemma OfflineIsIdempotent(r: Row, now: int, later: int)
    ensures var once := UpdateRow(r, GoOffline, Attempt(now, NoFault)).0;
            UpdateRow(once, GoOffline, Attempt(later, NoFault)).0 == once
  {
  }

  /** The online flag takes the update's value when the call succeeds, and keeps its old one when it fails. */
  lemma {:induction false} OnlineFollowsSuccess(r: Row, u: Update, attempts: seq<Attempt>)
    ensures var (q, ok) := RetryRow(r, u, attempts);
            q.online == if ok then u.CheckIn? else r.online
    decreases |attempts|
  {
    if attempts != [] && !UpdateRow(r, u, attempts[0]).1 {
      OnlineFollowsSuccess(UpdateRow(r, u, attempts[0]).0, u, attempts[1..]);
    }
  }

  // ----- Retries -----

  /** Seconds added by attempts that failed after the uptime write. */
  function DoubleCounted(r: Row, attempts: seq<Attempt>): nat {
    if attempts == [] then 0
    else (if r.online && attempts[0].fault == FinalFails then Elapsed(r, attempts[0].now) else 0)
         + DoubleCounted(r, attempts[1..])
  }

  /** A retried update is the last attempt alone plus what the failed attempts had already added. */
  lemma {:induction false} RetryAddsDoubleCount(r: Row, u: Update, failed: seq<Attempt>, last: Attempt)
    requires r.id != 0 && last.fault == NoFault
    requires forall i :: 0 <= i < |failed| ==> failed[i].fault != NoFault
                                               && (failed[i].fault == UptimeFails ==> r.online)
    decreases |failed|
    ensures var once := UpdateRow(r, u, last).0;
            RetryRow(r, u, failed + [last]) == (once.(uptime := once.uptime + DoubleCounted(r, failed)), true)
  {
    if failed == [] {
      assert failed + [last] == [last];
    } else {
      assert (failed + [last])[1..] == failed[1..] + [last];
      var r1 := UpdateRow(r, u, failed[0]).0;
      RetryAddsDoubleCount(r1, u, failed[1..], last);
      SameCount(r, r1, failed[1..]);
    }
  }

  lemma {:induction false} SameCount(r: Row, q: Row, attempts: seq<Attempt>)
    requires r.online == q.online && r.lastCheckedIn == q.lastCheckedIn
    ensures DoubleCounted(r, attempts) == DoubleCounted(q, attempts)
  {
    if attempts != [] {
      SameCount(r, q, attempts[1..]);
    }
  }

  /** So a retried update is the same as a single one exactly when no attempt on an online row failed in
      its final write a second or more after the last check-in. */
  lemma RetryIsIdempotentIff(r: Row, u: Update, failed: seq<Attempt>, last: Attempt)
    requires r.id != 0 && last.fault == NoFault
    requires forall i :: 0 <= i < |failed| ==> failed[i].fault != NoFault
                                               && (failed[i].fault == UptimeFails ==> r.online)
    ensures RetryRow(r, u, failed + [last]).0 == UpdateRow(r, u, last).0 <==>
            forall i :: 0 <= i < |failed| ==>
              !(r.online && failed[i].fault == FinalFails && failed[i].now - r.lastCheckedIn >= SECOND)
  {
    RetryAddsDoubleCount(r, u, failed, last);
    DoubleCountedIff(r, failed);
  }

  lemma {:induction false} DoubleCountedIff(r: Row, attempts: seq<Attempt>)
    ensures DoubleCounted(r, attempts) == 0 <==>
            forall i :: 0 <= i < |attempts| ==>
              !(r.online && attempts[i].fault == FinalFails && attempts[i].now - r.lastCheckedIn >= SECOND)
  {
    if attempts != [] {
      DoubleCountedIff(r, attempts[1..]);
      forall i | 0 < i < |attempts| ensures attempts[i] == attempts[1..][i - 1] {
      }
      assert Elapsed(r, attempts[0].now) == 0 <==> attempts[0].now - r.lastCheckedIn < SECOND;
    }
  }

  /** Attempts after the first success are not made; without a success all of them are. */
  lemma {:induction false} RetryStopsAtSuccess(r: Row, u: Update, before: seq<Attempt>, a: Attempt, after: seq<Attempt>)
    requires !RetryRow(r, u, before).1
    ensures var q := RetryRow(r, u, before).0;
            RetryRow(r, u, before + [a] + after) ==
            if UpdateRow(q, u, a).1 then UpdateRow(q, u, a) else RetryRow(UpdateRow(q, u, a).0, u, after)
    decreases |before|
  {
    var all := before + [a] + after;
    if before == [] {
      assert all == [a] + after && all[1..] == after;
    } else {
      RetryStopsAtSuccess(UpdateRow(r, u, before[0]).0, u, before[1..], a, after);
      assert all[1..] == before[1..] + [a] + after;
    }
  }
}
