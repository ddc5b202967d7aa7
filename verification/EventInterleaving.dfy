/** The event monitor under concurrent callers: the locked sections of registrations, unregistrations, the
    clean-up and the sync, in any order, with each caller holding what it read until it writes. */
module EventInterleaving {
  import opened Wrappers
  import opened EventRegistry
  import opened EventService

  /** Where a registration stands between its sections: it saw no worker for the key, or holds the entry it
      fetched. */
  datatype Phase = Checked(key: string) | Holding(entry: Ref)

  /** `threads` are the registrations under way; `read` is what the sync goroutine read and has yet to act on. */
  datatype System = System(svc: Service, threads: map<nat, Phase>, read: Option<map<string, Ref>>)

  datatype Step =
    | Enter(req: Request)
    | Check(thread: nat, key: string)
    | Fetch(thread: nat)
    | Put(thread: nat)
    | Leave(key: string, id: string)
    | Halt(key: string)
    | Expiry(now: int)
    | Snapshot
    | Reconcile
    | Shutdown

  predicate Holds(s: System, thread: nat) {
    thread in s.threads && s.threads[thread].Holding?
  }

  /** What a registration becomes when it fetches: it gives up, and rolls back by a Leave of its own, when
      there is nothing to start. */
  function AfterFetch(s: System, thread: nat): System {
    if thread !in s.threads || s.threads[thread].Holding? then s
    else
      var e := FetchEntry(s.svc, s.threads[thread].key);
      s.(threads := if e == None then s.threads - {thread} else s.threads[thread := Holding(e.value)])
  }

  function Next(s: System, step: Step): System {
    match step
    case Enter(req) => s.(svc := RegisterEntry(s.svc, req))
    case Check(thread, key) =>
      if key in s.svc.workers || thread in s.threads then s else s.(threads := s.threads[thread := Checked(key)])
    case Fetch(thread) => AfterFetch(s, thread)
    case Put(thread) =>
      if !Holds(s, thread) then s
      else s.(svc := PutWorker(s.svc, s.threads[thread].entry), threads := s.threads - {thread})
    case Leave(key, id) =>
      if Subscribed(s.svc.reg, key, id) then s.(svc := s.svc.(reg := RemoveSubscriber(s.svc.reg, key, id))) else s
    case Halt(key) => s.(svc := StopWorker(s.svc, key))
    case Expiry(now) => s.(svc := s.svc.(reg := Cleanup(s.svc.reg, now)))
    case Snapshot => s.(read := Some(Refs(s.svc.reg.entries)))
    case Reconcile => if s.read == None then s else s.(svc := ApplySync(s.svc, s.read.value), read := None)
    case Shutdown => s.(svc := s.svc.(workers := map[]))
  }

  function Run(s: System, steps: seq<Step>): System {
    if steps == [] then s else Next(Run(s, steps[..|steps| - 1]), steps[|steps| - 1])
  }

  lemma RunAt(s: System, steps: seq<Step>, i: nat)
    requires i < |steps|
    ensures Run(s, steps[..i + 1]) == Next(Run(s, steps[..i]), steps[i])
  {
    assert steps[..i + 1][..i] == steps[..i];
  }

  function Initial(clients: set<string>): System {
    System(Service(Registry(map[], {}, 0), map[], clients), map[], None)
  }

  lemma RunLast(s: System, steps: seq<Step>, step: Step)
    ensures Run(s, steps + [step]) == Next(Run(s, steps), step)
  {
    assert (steps + [step])[..|steps|] == steps;
  }

  /** With nothing in between, the sections of a registration amount to the sequential operation. */
  lemma SectionsMakeRegister(s: System, req: Request, thread: nat)
    requires req.addressOk && thread !in s.threads
    ensures var key := RequestKey(req);
            var s1 := Next(s, Enter(req));
            var s4 := Next(Next(Next(s1, Check(thread, key)), Fetch(thread)), Put(thread));
            && s4.svc == (if key in s.svc.workers then s1.svc else StartWorker(s1.svc, key).0)
            && s4.threads == s.threads && s4.read == s.read
  {
  }

  // ----- What every interleaving keeps -----

  /** The chain can be read off the key. */
  predicate OfChain(key: string, chain: string) {
    ColonFree(chain) && chain + ":" <= key
  }

  lemma ChainUnique(key: string, a: string, b: string)
    requires OfChain(key, a) && OfChain(key, b)
    ensures a == b
  {
    var x, y := key[|a| + 1..], key[|b| + 1..];
    assert key == a + ":" + x && key == b + ":" + y;
    SplitAtColon(a, x, b, y);
  }

  ghost predicate RefOk(s: System, e: Ref) {
    OfChain(e.key, e.chain) && e.id < s.svc.reg.nextId
  }

  /** Every worker and every reference held belongs to an entry that has existed, keys carry their chain, and
      workers and registrations about to write one belong to chains with a client. */
  ghost predicate Served(s: System) {
    && Valid(s.svc.reg)
    && (forall k :: k in s.svc.reg.entries ==> OfChain(k, s.svc.reg.entries[k].chain))
    && (forall k :: k in s.svc.workers ==>
          var w := s.svc.workers[k];
          OfChain(k, w.chain) && w.chain in s.svc.clients && w.entryId < s.svc.reg.nextId)
    && (forall t :: Holds(s, t) ==> RefOk(s, s.threads[t].entry) && s.threads[t].entry.chain in s.svc.clients)
    && (s.read.Some? ==> forall k :: k in s.read.value ==> RefOk(s, s.read.value[k]) && s.read.value[k].key == k)
  }

  lemma KeyOfChain(req: Request)
    requires ColonFree(req.chain)
    ensures OfChain(RequestKey(req), req.chain)
  {
    assert RequestKey(req) == req.chain + ":" + (Lower(req.contract) + ":" + req.event);
  }

  lemma EnterServed(s: System, req: Request)
    requires Served(s) && ColonFree(req.chain)
    ensures Served(Next(s, Enter(req)))
  {
    ApplyKeepsValid(s.svc.reg, EventRegistry.Register(req));
    KeyOfChain(req);
  }

  lemma LeaveServed(s: System, key: string, id: string)
    requires Served(s)
    ensures Served(Next(s, Leave(key, id)))
  {
    ApplyKeepsValid(s.svc.reg, EventRegistry.Unregister(key, id));
  }

  lemma FetchServed(s: System, thread: nat)
    requires Served(s)
    ensures Served(Next(s, Fetch(thread)))
  {
  }

  lemma PutServed(s: System, thread: nat)
    requires Served(s)
    ensures Served(Next(s, Put(thread)))
  {
  }

  lemma ReconcileServed(s: System)
    requires Served(s)
    ensures Served(Next(s, Reconcile))
  {
  }

  lemma ExpiryServed(s: System, now: int)
    requires Served(s)
    ensures Served(Next(s, Expiry(now)))
  {
    ApplyKeepsValid(s.svc.reg, EventRegistry.Expire(now));
  }

  lemma SnapshotServed(s: System)
    requires Served(s)
    ensures Served(Next(s, Snapshot))
  {
  }

  lemma NextServed(s: System, step: Step)
    requires Served(s) && (step.Enter? ==> ColonFree(step.req.chain))
    ensures Served(Next(s, step)) && Next(s, step).svc.clients == s.svc.clients
  {
    match step
    case Enter(req) => EnterServed(s, req);
    case Check(_, _) =>
    case Fetch(thread) => FetchServed(s, thread);
    case Put(thread) => PutServed(s, thread);
    case Leave(key, id) => LeaveServed(s, key, id);
    case Halt(_) =>
    case Expiry(now) => ExpiryServed(s, now);
    case Snapshot => SnapshotServed(s);
    case Reconcile => ReconcileServed(s);
    case Shutdown =>
  }

  predicate ColonFreeChains(steps: seq<Step>) {
    forall i :: 0 <= i < |steps| && steps[i].Enter? ==> ColonFree(steps[i].req.chain)
  }

  lemma {:induction false} RunServed(clients: set<string>, steps: seq<Step>)
    requires ColonFreeChains(steps)
    ensures Served(Run(Initial(clients), steps)) && Run(Initial(clients), steps).svc.clients == clients
  {
    if steps != [] {
      RunServed(clients, steps[..|steps| - 1]);
      NextServed(Run(Initial(clients), steps[..|steps| - 1]), steps[|steps| - 1]);
    }
  }

  /** Reconciliation, in any reachable state: the second section of a sync leaves workers for exactly the
      keys its first section read whose chain has a client, whatever came in between; and for exactly the
      registered ones if the registered keys are still the ones it read. */
  lemma SyncReconciles(clients: set<string>, steps: seq<Step>)
    requires ColonFreeChains(steps) && Run(Initial(clients), steps).read.Some?
    ensures var s := Run(Initial(clients), steps);
            var read, entries := s.read.value, s.svc.reg.entries;
            var workers := Next(s, Reconcile).svc.workers;
            && (forall k :: k in workers <==> k in read && read[k].chain in clients)
            && (read.Keys == entries.Keys ==> forall k :: k in workers <==> k in entries && entries[k].chain in clients)
  {
    RunServed(clients, steps);
    var s := Run(Initial(clients), steps);
    forall k | k in s.read.value
      ensures k in s.svc.workers ==> s.read.value[k].chain in clients
      ensures k in s.svc.reg.entries ==> s.read.value[k].chain == s.svc.reg.entries[k].chain
    {
      if k in s.svc.workers {
        ChainUnique(k, s.read.value[k].chain, s.svc.workers[k].chain);
      }
      if k in s.svc.reg.entries {
        ChainUnique(k, s.read.value[k].chain, s.svc.reg.entries[k].chain);
      }
    }
  }

  // ----- Workers bound to the current entry -----

  /** No registered key has a worker bound to an earlier entry of that key. */
  ghost predicate Bound(s: System) {
    forall k :: k in s.svc.workers && k in s.svc.reg.entries ==> s.svc.workers[k].entryId == s.svc.reg.entries[k].id
  }

  /** The key has lost its entry but the table still has its worker. */
  predicate Orphaned(s: System, key: string) {
    key in s.svc.workers && key !in s.svc.reg.entries
  }

  /** The entry a caller holds has been replaced by a later one. */
  predicate Outdated(s: System, e: Ref) {
    e.key in s.svc.reg.entries && s.svc.reg.entries[e.key].id != e.id
  }

  /** The three ways to bind a key to a dead worker: registering it while it is orphaned, writing a worker
      for an entry that was replaced since it was fetched, and a sync that starts one from an outdated copy. */
  ghost predicate BindsDead(s: System, step: Step) {
    match step
    case Enter(req) => req.addressOk && Orphaned(s, RequestKey(req))
    case Put(thread) => Holds(s, thread) && Outdated(s, s.threads[thread].entry)
    case Reconcile =>
      s.read.Some? && exists k :: k in s.read.value && k !in s.svc.workers
                                  && s.read.value[k].chain in s.svc.clients && Outdated(s, s.read.value[k])
    case _ => false
  }

  /** A step keeps the workers bound exactly when it is none of the three. */
  lemma StepKeepsBoundIff(s: System, step: Step)
    requires Served(s) && Bound(s)
    ensures Bound(Next(s, step)) <==> !BindsDead(s, step)
  {
    match step
    case Enter(req) => EnterKeepsBoundIff(s, req);
    case Put(thread) => PutKeepsBoundIff(s, thread);
    case Reconcile => ReconcileKeepsBoundIff(s);
    case Leave(key, id) => LeaveKeepsBound(s, key, id);
    case Expiry(now) => ExpiryKeepsBound(s, now);
    case Fetch(thread) => assert Next(s, step).svc == s.svc;
    case _ =>
  }

  lemma EnterKeepsBoundIff(s: System, req: Request)
    requires Served(s) && Bound(s)
    ensures Bound(Next(s, Enter(req))) <==> !BindsDead(s, Enter(req))
  {
    var t, key := Next(s, Enter(req)), RequestKey(req);
    if BindsDead(s, Enter(req)) {
      assert key in t.svc.workers && key in t.svc.reg.entries;
      assert t.svc.workers[key].entryId != t.svc.reg.entries[key].id;
    }
  }

  lemma PutKeepsBoundIff(s: System, thread: nat)
    requires Served(s) && Bound(s)
    ensures Bound(Next(s, Put(thread))) <==> !BindsDead(s, Put(thread))
  {
    if Holds(s, thread) {
      var t, key := Next(s, Put(thread)), s.threads[thread].entry.key;
      assert key in t.svc.workers && t.svc.workers[key].entryId == s.threads[thread].entry.id;
    }
  }

  lemma ReconcileKeepsBoundIff(s: System)
    requires Served(s) && Bound(s)
    ensures Bound(Next(s, Reconcile)) <==> !BindsDead(s, Reconcile)
  {
    var t := Next(s, Reconcile);
    if BindsDead(s, Reconcile) {
      var k :| k in s.read.value && k !in s.svc.workers
               && s.read.value[k].chain in s.svc.clients && Outdated(s, s.read.value[k]);
      assert k in t.svc.workers && t.svc.workers[k].entryId != t.svc.reg.entries[k].id;
    }
  }

  lemma LeaveKeepsBound(s: System, key: string, id: string)
    requires Served(s) && Bound(s)
    ensures Bound(Next(s, Leave(key, id)))
  {
  }

  lemma ExpiryKeepsBound(s: System, now: int)
    requires Served(s) && Bound(s)
    ensures Bound(Next(s, Expiry(now)))
  {
  }

  ghost predicate NeverBindsDead(clients: set<string>, steps: seq<Step>) {
    forall i :: 0 <= i < |steps| ==> !BindsDead(Run(Initial(clients), steps[..i]), steps[i])
  }

  ghost predicate BoundThroughout(clients: set<string>, steps: seq<Step>) {
    forall i :: 0 <= i <= |steps| ==> Bound(Run(Initial(clients), steps[..i]))
  }

  /** Over any interleaving: the workers stay bound all the way through exactly when none of its steps is one
      of the three. */
  lemma {:induction false} RunBoundIff(clients: set<string>, steps: seq<Step>)
    requires ColonFreeChains(steps)
    ensures BoundThroughout(clients, steps) <==> NeverBindsDead(clients, steps)
  {
    if steps == [] {
      assert steps[..0] == [];
    } else {
      var n := |steps| - 1;
      var pre := steps[..n];
      forall i | 0 <= i <= n ensures pre[..i] == steps[..i] {
      }
      assert steps[..|steps|] == steps;
      RunBoundIff(clients, pre);
      RunServed(clients, pre);
      assert BoundThroughout(clients, pre) ==> Bound(Run(Initial(clients), pre[..n]));
      if Bound(Run(Initial(clients), pre)) {
        StepKeepsBoundIff(Run(Initial(clients), pre), steps[n]);
      }
      BoundPrefix(clients, steps);
      NeverPrefix(clients, steps);
    }
  }

  lemma BoundPrefix(clients: set<string>, steps: seq<Step>)
    requires steps != []
    ensures var pre := steps[..|steps| - 1];
            BoundThroughout(clients, steps) <==> BoundThroughout(clients, pre) && Bound(Run(Initial(clients), steps))
  {
    var pre := steps[..|steps| - 1];
    assert forall i :: 0 <= i <= |pre| ==> pre[..i] == steps[..i];
    assert steps[..|steps|] == steps;
  }

  lemma NeverPrefix(clients: set<string>, steps: seq<Step>)
    requires steps != []
    ensures var pre := steps[..|steps| - 1];
            NeverBindsDead(clients, steps) <==>
            NeverBindsDead(clients, pre) && !BindsDead(Run(Initial(clients), pre), steps[|steps| - 1])
  {
    var pre := steps[..|steps| - 1];
    assert forall i :: 0 <= i <= |pre| ==> pre[..i] == steps[..i];
  }

  /** In such a run, after every sync each registered key that the sync read and whose chain has a client has
      a worker, bound to the key's current entry, which is not cancelled. */
  lemma SyncLeavesLiveWorkers(clients: set<string>, steps: seq<Step>)
    requires ColonFreeChains(steps) && NeverBindsDead(clients, steps + [Reconcile])
    requires Run(Initial(clients), steps).read.Some?
    ensures var s := Run(Initial(clients), steps);
            var t := Next(s, Reconcile);
            forall k :: k in t.svc.reg.entries && k in s.read.value && t.svc.reg.entries[k].chain in clients ==>
              && k in t.svc.workers
              && t.svc.workers[k].entryId == t.svc.reg.entries[k].id
              && t.svc.workers[k].entryId !in t.svc.reg.cancelled
  {
    var s := Run(Initial(clients), steps);
    var t := Next(s, Reconcile);
    RunLast(Initial(clients), steps, Reconcile);
    RunServed(clients, steps);
    RunBoundIff(clients, steps + [Reconcile]);
    BoundPrefix(clients, steps + [Reconcile]);
    forall k | k in t.svc.reg.entries && k in s.read.value && t.svc.reg.entries[k].chain in clients
      ensures k in t.svc.workers
    {
      ChainUnique(k, s.read.value[k].chain, t.svc.reg.entries[k].chain);
    }
  }

  // ----- Dead workers -----

  /** The table has a worker for the key whose entry is cancelled. */
  predicate HasDeadWorker(s: System, key: string) {
    key in s.svc.workers && s.svc.workers[key].entryId in s.svc.reg.cancelled
  }

  /** The steps that take the key's worker out of the table or replace it. */
  predicate Displaces(s: System, step: Step, key: string)
    requires key in s.svc.workers
  {
    match step
    case Halt(k) => k == key
    case Shutdown => true
    case Put(thread) =>
      Holds(s, thread)
      && var e := s.threads[thread].entry; e.key == key && Worker(e.id, e.chain) != s.svc.workers[key]
    case Reconcile => s.read.Some? && key !in s.read.value
    case _ => false
  }

  lemma StepKeepsWorkerIff(s: System, step: Step, key: string)
    requires key in s.svc.workers
    ensures var t := Next(s, step);
            (key in t.svc.workers && t.svc.workers[key] == s.svc.workers[key]) <==> !Displaces(s, step, key)
    ensures s.svc.reg.cancelled <= Next(s, step).svc.reg.cancelled
  {
  }

  ghost predicate Displaced(s: System, steps: seq<Step>, key: string) {
    exists i :: && 0 <= i < |steps| && key in Run(s, steps[..i]).svc.workers
                && Displaces(Run(s, steps[..i]), steps[i], key)
  }

  /** A dead worker stays, with its cancelled entry, until a step displaces it: the table's own stop of that
      key, a late write, a shutdown, or a sync that read no entry for the key. A sync that read one, however
      often it comes, leaves the worker in place. */
  lemma {:induction false} DeadWorkerStays(s: System, steps: seq<Step>, key: string)
    requires HasDeadWorker(s, key) && !Displaced(s, steps, key)
    ensures var t := Run(s, steps);
            HasDeadWorker(t, key) && t.svc.workers[key] == s.svc.workers[key]
  {
    if steps != [] {
      var n := |steps| - 1;
      var pre := steps[..n];
      assert forall i :: 0 <= i <= n ==> pre[..i] == steps[..i];
      assert !Displaced(s, pre, key);
      DeadWorkerStays(s, pre, key);
      StepKeepsWorkerIff(Run(s, pre), steps[n], key);
    }
  }

  // ----- How each of the three comes about -----

  const REQUEST := Request("r", "1", "0xa", "E()", "u", 10, true)

  /** The key is registered under its second entry and has a worker of its first, cancelled one. */
  predicate DeadKey(s: System) {
    var key := RequestKey(REQUEST);
    key in s.svc.reg.entries && s.svc.reg.entries[key].id == 1
    && HasDeadWorker(s, key) && s.svc.workers[key].entryId == 0
  }

  function Subscribers(expires: int): map<string, Subscriber> {
    map["r" := Subscriber("u", expires)]
  }

  function First(): Registry {
    var key := RequestKey(REQUEST);
    Registry(map[key := Entry(0, key, "1", Subscribers(10))], {}, 1)
  }

  function Second(): Registry {
    var key := RequestKey(REQUEST);
    Registry(map[key := Entry(1, key, "1", Subscribers(90))], {0}, 2)
  }

  /** Registered, unregistered, and registered again with a later expiry. */
  lemma TwoLives()
    ensures var gone := Registry(map[], {0}, 1);
            && RegisterIn(Registry(map[], {}, 0), REQUEST).0 == First()
            && RemoveSubscriber(First(), RequestKey(REQUEST), "r") == gone
            && RegisterIn(gone, REQUEST.(expires := 90)).0 == Second()
  {
    assert Subscribers(10) - {"r"} == map[];
    assert First().entries - {RequestKey(REQUEST)} == map[];
  }

  lemma FirstExpires()
    ensures var r := Cleanup(First(), 20);
            RequestKey(REQUEST) !in r.entries && 0 in r.cancelled && r.nextId == 1
  {
    var key := RequestKey(REQUEST);
    assert AllExpired(Subscribers(10), 20);
    assert key in Emptied(First(), 20) && First().entries[key].id == 0;
  }

  lemma ExpiredAndEnteredAgain(s: System)
    requires s.svc.reg == First()
    ensures var t := Next(Next(s, Expiry(20)), Enter(REQUEST.(expires := 90)));
            && RequestKey(REQUEST) in t.svc.reg.entries && t.svc.reg.entries[RequestKey(REQUEST)].id == 1
            && 0 in t.svc.reg.cancelled && t.svc.workers == s.svc.workers
  {
    FirstExpires();
  }

  lemma SyncLater(s: System, key: string)
    requires key in s.svc.reg.entries && key in s.svc.workers
    ensures var t := Next(Next(s, Snapshot), Reconcile);
            t.svc.reg == s.svc.reg && key in t.svc.workers && t.svc.workers[key] == s.svc.workers[key]
  {
  }

  lemma LaterSync(s: System)
    requires s.svc == Service(First(), map[RequestKey(REQUEST) := Worker(0, "1")], {"1"})
    ensures DeadKey(Next(Next(Next(Next(s, Expiry(20)), Enter(REQUEST.(expires := 90))), Snapshot), Reconcile))
  {
    ExpiredAndEnteredAgain(s);
    SyncLater(Next(Next(s, Expiry(20)), Enter(REQUEST.(expires := 90))), RequestKey(REQUEST));
  }

  lemma LastFour(s: System, steps: seq<Step>)
    requires |steps| == 8
    ensures Run(s, steps) == Next(Next(Next(Next(Run(s, steps[..4]), steps[4]), steps[5]), steps[6]), steps[7])
  {
    RunAt(s, steps, 4);
    RunAt(s, steps, 5);
    RunAt(s, steps, 6);
    assert steps[..7] == steps[..|steps| - 1];
  }

  /** The entry expires, its key is registered again, and only then does a sync run. */
  lemma DeadWorkerExample()
    ensures var key := RequestKey(REQUEST);
            var steps := [Enter(REQUEST), Check(0, key), Fetch(0), Put(0), Expiry(20),
                          Enter(REQUEST.(expires := 90)), Snapshot, Reconcile];
            DeadKey(Run(Initial({"1"}), steps))
  {
    var key := RequestKey(REQUEST);
    var steps := [Enter(REQUEST), Check(0, key), Fetch(0), Put(0), Expiry(20),
                  Enter(REQUEST.(expires := 90)), Snapshot, Reconcile];
    FirstWorker(Initial({"1"}), steps);
    LaterSync(Run(Initial({"1"}), steps[..4]));
    LastFour(Initial({"1"}), steps);
  }

  lemma FirstWorker(init: System, steps: seq<Step>)
    requires init == Initial({"1"}) && |steps| >= 4
    requires steps[..4] == [Enter(REQUEST), Check(0, RequestKey(REQUEST)), Fetch(0), Put(0)]
    ensures Run(init, steps[..4]).svc == Service(First(), map[RequestKey(REQUEST) := Worker(0, "1")], {"1"})
  {
    TwoLives();
    forall i | 0 <= i < 4 ensures steps[i] == steps[..4][i] {
    }
    RunAt(init, steps, 0);
    RunAt(init, steps, 1);
    RunAt(init, steps, 2);
    RunAt(init, steps, 3);
  }

  /** Between a registration's fetch and its write, the entry is unregistered and its key registered again. */
  lemma LateWriteExample()
    ensures var key := RequestKey(REQUEST);
            var steps := [Enter(REQUEST), Check(0, key), Fetch(0),
                          Leave(key, "r"), Enter(REQUEST.(expires := 90)), Put(0)];
            DeadKey(Run(Initial({"1"}), steps))
  {
    var key := RequestKey(REQUEST);
    var steps := [Enter(REQUEST), Check(0, key), Fetch(0), Leave(key, "r"), Enter(REQUEST.(expires := 90)), Put(0)];
    var init := Initial({"1"});
    TwoLives();
    assert steps[..|steps|] == steps;
    RunAt(init, steps, 0);
    RunAt(init, steps, 1);
    RunAt(init, steps, 2);
    var s3 := Run(init, steps[..3]);
    assert s3 == System(Service(First(), map[], {"1"}), map[0 := Holding(Ref(0, key, "1"))], None);
    RunAt(init, steps, 3);
    RunAt(init, steps, 4);
    RunAt(init, steps, 5);
    assert Run(init, steps).svc == Service(Second(), map[key := Worker(0, "1")], {"1"});
  }

  /** The same between the two sections of a sync. */
  lemma StaleReadExample()
    ensures var key := RequestKey(REQUEST);
            var steps := [Enter(REQUEST), Snapshot, Leave(key, "r"), Enter(REQUEST.(expires := 90)), Reconcile];
            DeadKey(Run(Initial({"1"}), steps))
  {
    var key := RequestKey(REQUEST);
    var steps := [Enter(REQUEST), Snapshot, Leave(key, "r"), Enter(REQUEST.(expires := 90)), Reconcile];
    var init := Initial({"1"});
    TwoLives();
    assert steps[..|steps|] == steps;
    RunAt(init, steps, 0);
    RunAt(init, steps, 1);
    assert Refs(First().entries) == map[key := Ref(0, key, "1")];
    var s2 := Run(init, steps[..2]);
    assert s2 == System(Service(First(), map[], {"1"}), map[], Some(map[key := Ref(0, key, "1")]));
    RunAt(init, steps, 2);
    RunAt(init, steps, 3);
    RunAt(init, steps, 4);
    assert Run(init, steps).svc.workers[key] == Worker(0, "1");
  }
}
