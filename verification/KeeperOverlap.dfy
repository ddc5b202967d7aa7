/** Updates of one keeper's row that overlap: the sweep writes without the lock that check-ins hold, and an
    update is three store calls, the second of which stores a total computed from what the first one read. */
module KeeperOverlap {
  import opened Wrappers
  import opened GoNumbers
  import opened KeeperUptime

  /** Where an update stands: it holds a total to store, computed from a row with uptime `base` and counting
      up to the moment `upTo`; or it has its final write left. */
  datatype Phase = Counting(base: int, total: int, upTo: int, update: Update) | Finishing(update: Update)

  /** `countedTo` is no part of the store: it is the moment up to which the total stored last counts. */
  datatype System = System(row: Row, threads: map<nat, Phase>, countedTo: int)

  datatype Step =
    | Read(thread: nat, update: Update, now: int)
    | StoreUptime(thread: nat, ok: bool)
    | Finish(thread: nat, ok: bool)

  predicate IsCounting(s: System, thread: nat) {
    thread in s.threads && s.threads[thread].Counting?
  }

  predicate IsFinishing(s: System, thread: nat) {
    thread in s.threads && s.threads[thread].Finishing?
  }

  function Total(r: Row, now: int): int {
    r.uptime + Elapsed(r, now)
  }

  function Finished(r: Row, u: Update): Row {
    match u
    case CheckIn(timestamp) => r.(online := true, lastCheckedIn := timestamp)
    case GoOffline => r.(online := false)
  }

  /** A call that fails ends the update; a retry reads again. */
  function Next(s: System, step: Step): System {
    match step
    case Read(t, u, now) =>
      if t in s.threads || s.row.id == 0 then s
      else
        var upTo := if s.row.lastCheckedIn <= now then now else s.countedTo;
        var phase := if s.row.online then Counting(s.row.uptime, Total(s.row, now), upTo, u) else Finishing(u);
        s.(threads := s.threads[t := phase])
    case StoreUptime(t, ok) =>
      if !IsCounting(s, t) then s
      else if !ok then s.(threads := s.threads - {t})
      else
        var p := s.threads[t];
        System(s.row.(uptime := p.total), s.threads[t := Finishing(p.update)], p.upTo)
    case Finish(t, ok) =>
      if !IsFinishing(s, t) then s
      else System(if ok then Finished(s.row, s.threads[t].update) else s.row, s.threads - {t}, s.countedTo)
  }

  function Run(s: System, steps: seq<Step>): System {
    if steps == [] then s else Next(Run(s, steps[..|steps| - 1]), steps[|steps| - 1])
  }

  /** With nothing in between, the three calls are the update called alone, whichever of them fails. */
  lemma CallsMakeUpdate(s: System, t: nat, u: Update, now: int, storeOk: bool, finishOk: bool)
    requires t !in s.threads && s.row.id != 0
    ensures var fault := if s.row.online && !storeOk then UptimeFails else if !finishOk then FinalFails else NoFault;
            var s1 := Next(Next(Next(s, Read(t, u, now)), StoreUptime(t, storeOk)), Finish(t, finishOk));
            s1.row == UpdateRow(s.row, u, Attempt(now, fault)).0 && s1.threads == s.threads
  {
    var s1 := Next(s, Read(t, u, now));
    var s2 := Next(s1, StoreUptime(t, storeOk));
    assert s2.threads == if s.row.online && !storeOk then s.threads else s.threads[t := Finishing(u)];
  }

  // ----- When stored uptime falls -----

  /** The step stores a total below what is stored by now. */
  predicate WritesBack(s: System, step: Step) {
    step.StoreUptime? && step.ok && IsCounting(s, step.thread) && s.threads[step.thread].total < s.row.uptime
  }

  lemma StepLowersUptimeIff(s: System, step: Step)
    ensures Next(s, step).row.uptime < s.row.uptime <==> WritesBack(s, step)
  {
  }

  ghost predicate NeverFalls(s: System, steps: seq<Step>) {
    steps != [] ==>
      NeverFalls(s, steps[..|steps| - 1]) && Run(s, steps[..|steps| - 1]).row.uptime <= Run(s, steps).row.uptime
  }

  ghost predicate NeverWritesBack(s: System, steps: seq<Step>) {
    steps != [] ==>
      NeverWritesBack(s, steps[..|steps| - 1]) && !WritesBack(Run(s, steps[..|steps| - 1]), steps[|steps| - 1])
  }

  /** Over any interleaving of updates, with failures anywhere, stored uptime never falls exactly when no
      update stores a total below the stored one. */
  lemma {:induction false} RunNeverFallsIff(s: System, steps: seq<Step>)
    ensures NeverFalls(s, steps) <==> NeverWritesBack(s, steps)
  {
    if steps != [] {
      var n := |steps| - 1;
      RunNeverFallsIff(s, steps[..n]);
      StepLowersUptimeIff(Run(s, steps[..n]), steps[n]);
    }
  }

  /** No total held is below the uptime it was computed from. */
  predicate TotalsGrow(s: System) {
    forall t :: t in s.threads && s.threads[t].Counting? ==> s.threads[t].base <= s.threads[t].total
  }

  lemma {:induction false} RunTotalsGrow(s: System, steps: seq<Step>)
    requires TotalsGrow(s)
    ensures TotalsGrow(Run(s, steps))
  {
    if steps != [] {
      RunTotalsGrow(s, steps[..|steps| - 1]);
    }
  }

  /** So uptime falls only where updates overlap: another one has raised it since this one read it. */
  lemma FallNeedsOverlap(s: System, steps: seq<Step>, step: Step)
    requires TotalsGrow(s) && WritesBack(Run(s, steps), step)
    ensures Run(s, steps).threads[step.thread].base < Run(s, steps).row.uptime
  {
    RunTotalsGrow(s, steps);
  }

  // ----- When time is counted twice -----

  /** The time since the stored check-in that stored uptime already counts. */
  function CountedAlready(s: System): nat {
    if s.row.lastCheckedIn < s.countedTo then s.countedTo - s.row.lastCheckedIn else 0
  }

  /** What a step takes into a total a second time: a read of an online row counts from its check-in on, if
      the clock is not before that. */
  function CountsAgain(s: System, step: Step): nat {
    if step.Read? && step.thread !in s.threads && s.row.id != 0 && s.row.online && s.row.lastCheckedIn <= step.now
    then CountedAlready(s) else 0
  }

  function CountedAgain(s: System, steps: seq<Step>): nat {
    if steps == [] then 0
    else
      var pre := steps[..|steps| - 1];
      CountedAgain(s, pre) + CountsAgain(Run(s, pre), steps[|steps| - 1])
  }

  /** Every total, stored or held, is within the time passed since `from` and what was counted twice. */
  ghost predicate Within(s: System, uptime: int, from: int, again: nat) {
    && (s.row.uptime - uptime) * SECOND <= s.countedTo - from + again
    && forall t :: t in s.threads && s.threads[t].Counting? ==>
         (s.threads[t].total - uptime) * SECOND <= s.threads[t].upTo - from + again
  }

  lemma StepWithin(s: System, step: Step, uptime: int, from: int, again: nat)
    requires Within(s, uptime, from, again)
    ensures Within(Next(s, step), uptime, from, again + CountsAgain(s, step))
  {
    if step.Read? && s.row.lastCheckedIn <= step.now {
      ElapsedWithin(s.row, step.now);
    }
  }

  lemma ElapsedWithin(r: Row, now: int)
    requires r.lastCheckedIn <= now
    ensures Elapsed(r, now) * SECOND <= now - r.lastCheckedIn
  {
  }

  /** The uptime bound for overlapping updates. Over any interleaving, with failures anywhere, uptime gained
      is at most the time passed plus what reads counted again: each time the stretch from the stored check-in
      to the moment up to which stored uptime already counted. */
  lemma {:induction false} OverlapBound(s: System, steps: seq<Step>)
    requires s.threads == map[]
    ensures var t := Run(s, steps);
            (t.row.uptime - s.row.uptime) * SECOND <= t.countedTo - s.countedTo + CountedAgain(s, steps)
  {
    RunWithin(s, steps);
  }

  lemma {:induction false} RunWithin(s: System, steps: seq<Step>)
    requires s.threads == map[]
    ensures Within(Run(s, steps), s.row.uptime, s.countedTo, CountedAgain(s, steps))
  {
    if steps != [] {
      var n := |steps| - 1;
      RunWithin(s, steps[..n]);
      StepWithin(Run(s, steps[..n]), steps[n], s.row.uptime, s.countedTo, CountedAgain(s, steps[..n]));
    }
  }

  // ----- What leaves a row half done -----

  /** The row is online and stored uptime counts past its check-in, so that a read would count again. */
  predicate HalfDone(s: System) {
    s.row.online && s.row.lastCheckedIn < s.countedTo
  }

  /** A read counts time again exactly when it finds the row half done, with the clock not before the check-in. */
  lemma CountsAgainIff(s: System, t: nat, u: Update, now: int)
    requires t !in s.threads && s.row.id != 0
    ensures CountsAgain(s, Read(t, u, now)) > 0 <==> HalfDone(s) && s.row.lastCheckedIn <= now
  {
  }

  /** Which steps leave the row half done: storing a total that counts past the check-in; and a final write
      that is of an older check-in than what is counted; or anything but a final write on a row that was so
      before. */
  lemma HalfDoneIff(s: System, step: Step)
    ensures HalfDone(Next(s, step)) <==>
              match step
              case Read(_, _, _) => HalfDone(s)
              case StoreUptime(t, ok) =>
                if ok && IsCounting(s, t) then s.row.online && s.row.lastCheckedIn < s.threads[t].upTo else HalfDone(s)
              case Finish(t, ok) =>
                if ok && IsFinishing(s, t)
                then s.threads[t].update.CheckIn? && s.threads[t].update.timestamp < s.countedTo
                else HalfDone(s)
  {
  }

  // ----- One example of each -----

  const KEEPER := Row(1, true, 0, 0)

  /** The sweep reads at 71 s; a check-in at 72 s comes before it stores its total. */
  lemma UptimeFallsExample()
    ensures var s := System(KEEPER, map[], 0);
            var steps := [Read(0, GoOffline, 71 * SECOND),
                          Read(1, CheckIn(72 * SECOND), 72 * SECOND), StoreUptime(1, true), Finish(1, true),
                          StoreUptime(0, true)];
            Run(s, steps[..4]).row.uptime == 72 && Run(s, steps).row.uptime == 71
  {
    var s := System(KEEPER, map[], 0);
    var steps := [Read(0, GoOffline, 71 * SECOND),
                  Read(1, CheckIn(72 * SECOND), 72 * SECOND), StoreUptime(1, true), Finish(1, true),
                  StoreUptime(0, true)];
    assert steps[..5] == steps;
    RunAt(s, steps, 0);
    RunAt(s, steps, 1);
    RunAt(s, steps, 2);
    RunAt(s, steps, 3);
    RunAt(s, steps, 4);
  }

  /** A check-in at 72 s reads between the sweep's two writes: 71 seconds are counted twice. */
  lemma CountedTwiceExample()
    ensures var s := System(KEEPER, map[], 0);
            var steps := [Read(0, GoOffline, 71 * SECOND), StoreUptime(0, true),
                          Read(1, CheckIn(72 * SECOND), 72 * SECOND), StoreUptime(1, true)];
            Run(s, steps).row.uptime == 143 && CountedAgain(s, steps) == 71 * SECOND
  {
    var s := System(KEEPER, map[], 0);
    var steps := [Read(0, GoOffline, 71 * SECOND), StoreUptime(0, true),
                  Read(1, CheckIn(72 * SECOND), 72 * SECOND), StoreUptime(1, true)];
    assert steps[..4] == steps;
    RunAt(s, steps, 0);
    RunAt(s, steps, 1);
    RunAt(s, steps, 2);
    RunAt(s, steps, 3);
  }

  lemma RunAt(s: System, steps: seq<Step>, i: nat)
    requires i < |steps|
    ensures steps[..0] == []
    ensures Run(s, steps[..i + 1]) == Next(Run(s, steps[..i]), steps[i])
    ensures CountedAgain(s, steps[..i + 1]) == CountedAgain(s, steps[..i]) + CountsAgain(Run(s, steps[..i]), steps[i])
  {
    assert steps[..i + 1][..i] == steps[..i];
  }
}
