/** Which workers are running, in the table or out of it: a table write that replaces a worker does not stop
    it, and no later step can, short of the cancellation of its entry. */
module EventRunning {
  import opened Wrappers
  import opened EventRegistry
  import opened EventService
  import opened EventInterleaving

  /** `lost` counts, for each key and entry, the workers that were replaced in the table and never stopped. */
  datatype Monitor = Monitor(sys: System, lost: multiset<(string, nat)>)

  /** What a step adds to them: the worker that a table write finds under the key. */
  function Replaced(s: System, step: Step): multiset<(string, nat)> {
    if step.Put? && Holds(s, step.thread) && s.threads[step.thread].entry.key in s.svc.workers
    then
      var key := s.threads[step.thread].entry.key;
      multiset{(key, s.svc.workers[key].entryId)}
    else multiset{}
  }

  function After(m: Monitor, step: Step): Monitor {
    Monitor(Next(m.sys, step), m.lost + Replaced(m.sys, step))
  }

  function RunMonitor(m: Monitor, steps: seq<Step>): Monitor {
    if steps == [] then m else After(RunMonitor(m, steps[..|steps| - 1]), steps[|steps| - 1])
  }

  function InitialMonitor(clients: set<string>): Monitor {
    Monitor(Initial(clients), multiset{})
  }

  lemma {:induction false} MonitorFollows(clients: set<string>, steps: seq<Step>)
    ensures RunMonitor(InitialMonitor(clients), steps).sys == Run(Initial(clients), steps)
  {
    if steps != [] {
      MonitorFollows(clients, steps[..|steps| - 1]);
    }
  }

  /** The running workers of the entry that the key has now. */
  function Running(m: Monitor, key: string): nat
    requires key in m.sys.svc.reg.entries
  {
    var id := m.sys.svc.reg.entries[key].id;
    m.lost[(key, id)]
    + if key in m.sys.svc.workers && m.sys.svc.workers[key].entryId == id then 1 else 0
  }

  ghost predicate AtMostOne(m: Monitor) {
    forall k :: k in m.sys.svc.reg.entries ==> Running(m, k) <= 1
  }

  /** Lost workers belong to entries that have existed. */
  ghost predicate KnownLost(m: Monitor) {
    forall p :: p in m.lost ==> p.1 < m.sys.svc.reg.nextId
  }

  /** The reference is to the entry its key has now. */
  predicate Current(s: System, e: Ref) {
    e.key in s.svc.reg.entries && s.svc.reg.entries[e.key].id == e.id
  }

  /** A sync now would start a worker for the key, of the entry that the key has. */
  predicate StartedBySync(s: System, key: string) {
    && key in s.svc.reg.entries && key !in s.svc.workers
    && s.read.Some? && key in s.read.value
    && s.read.value[key].id == s.svc.reg.entries[key].id && s.read.value[key].chain in s.svc.clients
  }

  /** The two ways to start a second worker for an entry: a table write for an entry that has one running
      already, in the table or out of it; and a sync that starts one where a lost one runs. */
  ghost predicate StartsSecond(m: Monitor, step: Step) {
    var s := m.sys;
    match step
    case Put(thread) =>
      Holds(s, thread) && Current(s, s.threads[thread].entry) && Running(m, s.threads[thread].entry.key) > 0
    case Reconcile =>
      s.read.Some? && exists k :: StartedBySync(s, k) && Running(m, k) > 0
    case _ => false
  }

  /** What a step makes of the running workers of one key. */
  lemma PutRunning(m: Monitor, thread: nat, key: string)
    requires key in m.sys.svc.reg.entries
    ensures Running(After(m, Put(thread)), key) ==
            Running(m, key) + if Holds(m.sys, thread) && m.sys.threads[thread].entry.key == key
                                 && Current(m.sys, m.sys.threads[thread].entry) then 1 else 0
  {
  }

  lemma ReconcileRunning(m: Monitor, key: string)
    requires Served(m.sys) && key in m.sys.svc.reg.entries
    ensures var s, n := m.sys, Running(After(m, Reconcile), key);
            if StartedBySync(s, key) then n == Running(m, key) + 1 else n <= Running(m, key)
  {
    var s, t := m.sys, Next(m.sys, Reconcile);
    assert t.svc.reg == s.svc.reg;
    if s.read.Some? {
      assert key in t.svc.workers <==>
             key in s.read.value && (key in s.svc.workers || s.read.value[key].chain in s.svc.clients);
    }
  }

  lemma EnterRunning(m: Monitor, req: Request, key: string)
    requires Served(m.sys) && KnownLost(m) && key in Next(m.sys, Enter(req)).svc.reg.entries
    ensures Running(After(m, Enter(req)), key) == if key in m.sys.svc.reg.entries then Running(m, key) else 0
  {
    var s, t := m.sys, Next(m.sys, Enter(req));
    if key !in s.svc.reg.entries {
      assert t.svc.reg.entries[key].id == s.svc.reg.nextId;
      assert (key, s.svc.reg.nextId) !in m.lost;
    }
  }

  /** No other step raises the count. */
  lemma OtherRunning(m: Monitor, step: Step, key: string)
    requires !step.Put? && !step.Reconcile? && !step.Enter?
    requires key in Next(m.sys, step).svc.reg.entries
    ensures key in m.sys.svc.reg.entries && Running(After(m, step), key) <= Running(m, key)
  {
    var s, t := m.sys, Next(m.sys, step);
    if step.Fetch? {
      assert t.svc == s.svc;
    }
    assert key in t.svc.workers ==> key in s.svc.workers && t.svc.workers[key] == s.svc.workers[key];
  }

  lemma LostStaysKnown(m: Monitor, step: Step)
    requires Served(m.sys) && KnownLost(m)
    ensures KnownLost(After(m, step))
  {
    if step.Fetch? {
      assert Next(m.sys, step).svc == m.sys.svc;
    }
  }

  /** A step keeps every entry at one running worker at most exactly when it is neither of the two. */
  lemma StepKeepsAtMostOneIff(m: Monitor, step: Step)
    requires Served(m.sys) && KnownLost(m) && AtMostOne(m)
    ensures AtMostOne(After(m, step)) <==> !StartsSecond(m, step)
  {
    var s, t := m.sys, Next(m.sys, step);
    match step
    case Put(thread) =>
      assert t.svc.reg == s.svc.reg;
      forall k | k in s.svc.reg.entries
        ensures Running(After(m, step), k) <= 1 <==>
                  !(StartsSecond(m, step) && s.threads[thread].entry.key == k)
      {
        PutRunning(m, thread, k);
      }
    case Reconcile => ReconcileKeepsAtMostOneIff(m);
    case Enter(req) =>
      forall k | k in t.svc.reg.entries ensures Running(After(m, step), k) <= 1 {
        EnterRunning(m, req, k);
      }
    case _ =>
      forall k | k in t.svc.reg.entries ensures Running(After(m, step), k) <= 1 {
        OtherRunning(m, step, k);
      }
  }

  lemma ReconcileKeepsAtMostOneIff(m: Monitor)
    requires Served(m.sys) && AtMostOne(m)
    ensures AtMostOne(After(m, Reconcile)) <==> !StartsSecond(m, Reconcile)
  {
    var s := m.sys;
    assert Next(s, Reconcile).svc.reg == s.svc.reg;
    forall k | k in s.svc.reg.entries
      ensures Running(After(m, Reconcile), k) <= 1 <==> !(StartedBySync(s, k) && Running(m, k) > 0)
    {
      ReconcileRunning(m, k);
    }
  }

  ghost predicate AtMostOneThroughout(m: Monitor, steps: seq<Step>) {
    if steps == [] then AtMostOne(m)
    else AtMostOneThroughout(m, steps[..|steps| - 1]) && AtMostOne(RunMonitor(m, steps))
  }

  ghost predicate NeverStartsSecond(m: Monitor, steps: seq<Step>) {
    steps != [] ==>
      NeverStartsSecond(m, steps[..|steps| - 1])
      && !StartsSecond(RunMonitor(m, steps[..|steps| - 1]), steps[|steps| - 1])
  }

  lemma {:induction false} RunKnownLost(clients: set<string>, steps: seq<Step>)
    requires ColonFreeChains(steps)
    ensures KnownLost(RunMonitor(InitialMonitor(clients), steps))
    ensures Served(RunMonitor(InitialMonitor(clients), steps).sys)
  {
    if steps != [] {
      RunKnownLost(clients, steps[..|steps| - 1]);
      LostStaysKnown(RunMonitor(InitialMonitor(clients), steps[..|steps| - 1]), steps[|steps| - 1]);
    }
    MonitorFollows(clients, steps);
    RunServed(clients, steps);
  }

  /** Over any interleaving, no registered entry ever has two workers running exactly when no step starts a
      second one. */
  lemma {:induction false} RunAtMostOneIff(clients: set<string>, steps: seq<Step>)
    requires ColonFreeChains(steps)
    ensures AtMostOneThroughout(InitialMonitor(clients), steps) <==> NeverStartsSecond(InitialMonitor(clients), steps)
  {
    if steps != [] {
      var n := |steps| - 1;
      var m := RunMonitor(InitialMonitor(clients), steps[..n]);
      RunAtMostOneIff(clients, steps[..n]);
      RunKnownLost(clients, steps[..n]);
      if AtMostOneThroughout(InitialMonitor(clients), steps[..n]) {
        EndsAtMostOne(InitialMonitor(clients), steps[..n]);
        StepKeepsAtMostOneIff(m, steps[n]);
      }
    }
  }

  lemma EndsAtMostOne(m: Monitor, steps: seq<Step>)
    requires AtMostOneThroughout(m, steps)
    ensures AtMostOne(RunMonitor(m, steps))
  {
  }

  /** How it comes about, in any state: two registrations hold the entry that its key has, of which nothing
      runs; both write. Then two workers run, and stopping the key leaves one of them. */
  lemma TwoWrites(m: Monitor, t: nat, u: nat, key: string)
    requires t != u && Holds(m.sys, t) && Holds(m.sys, u)
    requires m.sys.threads[t].entry == m.sys.threads[u].entry && m.sys.threads[t].entry.key == key
    requires Current(m.sys, m.sys.threads[t].entry) && Running(m, key) == 0
    ensures var m2 := After(After(m, Put(t)), Put(u));
            && m2.sys.svc.reg == m.sys.svc.reg && Running(m2, key) == 2
            && key !in After(m2, Halt(key)).sys.svc.workers && Running(After(m2, Halt(key)), key) == 1
  {
    var m1 := After(m, Put(t));
    PutRunning(m, t, key);
    assert Holds(m1.sys, u) && m1.sys.svc.reg == m.sys.svc.reg && key in m1.sys.svc.workers;
    PutRunning(m1, u, key);
  }
}
