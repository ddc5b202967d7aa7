/** The event monitor service: a table of workers kept in step with the registry. Each of its operations is a
    sequence of separately locked sections, and every section is a method of its own here. */
module EventService {
  import opened Wrappers
  import opened EventRegistry

  /** A worker is bound to one entry object for life; it is dead once that entry is cancelled. */
  datatype Worker = Worker(entryId: nat, chain: string)

  /** A reference to an entry, as a caller holds it between two sections. */
  datatype Ref = Ref(id: nat, key: string, chain: string)

  /** `clients` is the set of chains that have a node client. */
  datatype Service = Service(reg: Registry, workers: map<string, Worker>, clients: set<string>)

  // ----- The locked sections -----

  function RegisterEntry(s: Service, req: Request): Service {
    s.(reg := RegisterIn(s.reg, req).0)
  }

  /** The entry of a key, if there is one and its chain has a client. */
  function FetchEntry(s: Service, key: string): Option<Ref> {
    if key !in s.reg.entries || s.reg.entries[key].chain !in s.clients then None
    else Some(Ref(s.reg.entries[key].id, key, s.reg.entries[key].chain))
  }

  /** The table write of a start, which replaces whatever worker the key has by then. */
  function PutWorker(s: Service, e: Ref): Service {
    s.(workers := s.workers[e.key := Worker(e.id, e.chain)])
  }

  function StopWorker(s: Service, key: string): Service {
    s.(workers := s.workers - {key})
  }

  /** What a sync pass reads first: a reference to every entry. */
  function Refs(entries: map<string, Entry>): map<string, Ref> {
    map k | k in entries :: Ref(entries[k].id, k, entries[k].chain)
  }

  /** The table after the second section of a sync pass, given what the first one read. */
  function Synced(read: map<string, Ref>, workers: map<string, Worker>, clients: set<string>): map<string, Worker> {
    map k | k in read && (k in workers || read[k].chain in clients) ::
      if k in workers then workers[k] else Worker(read[k].id, read[k].chain)
  }

  function ApplySync(s: Service, read: map<string, Ref>): Service {
    s.(workers := Synced(read, s.workers, s.clients))
  }

  // ----- The same sections with nothing in between -----

  function StartWorker(s: Service, key: string): (Service, bool) {
    var e := FetchEntry(s, key);
    if e == None then (s, false) else (PutWorker(s, e.value), true)
  }

  class EventMonitor {
    const clients: set<string>
    const rm: RegistryManager
    var workers: map<string, Worker>

    ghost function State(): Service
      reads this, rm
    {
      Service(rm.State(), workers, clients)
    }

    constructor (clients: set<string>)
      ensures State() == Service(Registry(map[], {}, 0), map[], clients) && fresh(rm)
    {
      this.clients := clients;
      rm := new RegistryManager();
      workers := map[];
    }

    /** `undone` is the key from which a failed start was rolled back. */
    method Register(req: Request) returns (ok: bool, undone: Option<string>)
      modifies this, rm
      ensures !req.addressOk ==> !ok && State() == old(State())
      ensures ok ==>
                var key := KeyOf(req.chain, req.contract, req.event);
                key in workers && key in rm.entries && req.id in rm.entries[key].subs
      ensures req.addressOk ==>
                var s := RegisterEntry(old(State()), req);
                var (t, started) := StartWorker(s, RequestKey(req));
                if RequestKey(req) in old(workers) then ok && State() == s
                else
                  && ok == started
                  && (ok ==> State() == t)
                  && (!ok ==> && undone.Some? && Subscribed(s.reg, undone.value, req.id)
                              && State() == old(State()).(reg := RemoveSubscriber(s.reg, undone.value, req.id)))
    {
      undone := None;
      ok := rm.Register(req);
      if !ok {
        return;
      }
      var key := KeyOf(req.chain, req.contract, req.event);
      assert Subscribed(rm.State(), key, req.id);
      if key !in workers {
        ok := TryStart(key);
        if !ok {
          undone := rm.Unregister(req.id);
        }
      }
    }

    method TryStart(key: string) returns (ok: bool)
      modifies this
      ensures (State(), ok) == StartWorker(old(State()), key)
      ensures ok <==> key in rm.entries && rm.entries[key].chain in clients
      ensures workers == if !ok then old(workers)
                         else old(workers)[key := Worker(rm.entries[key].id, rm.entries[key].chain)]
    {
      var entry := GetEntryWithClient(key);
      if entry == None {
        return false;
      }
      WriteWorker(entry.value);
      return true;
    }

    /** Under the registry's lock. */
    method GetEntryWithClient(key: string) returns (entry: Option<Ref>)
      ensures entry == FetchEntry(State(), key)
      ensures entry.Some? <==> key in rm.entries && rm.entries[key].chain in clients
      ensures entry.Some? ==> entry.value == Ref(rm.entries[key].id, key, rm.entries[key].chain)
    {
      if key !in rm.entries {
        return None;
      }
      var e := rm.entries[key];
      if e.chain !in clients {
        return None;
      }
      return Some(Ref(e.id, key, e.chain));
    }

    /** Under the table's lock, for an entry fetched at any time before. */
    method WriteWorker(entry: Ref)
      modifies this`workers
      ensures State() == PutWorker(old(State()), entry)
      ensures workers == old(workers)[entry.key := Worker(entry.id, entry.chain)]
    {
      workers := workers[entry.key := Worker(entry.id, entry.chain)];
    }

    /** Looks the request up, unregisters it, and stops the worker of the entry it looked up if that entry
        has no subscriber left. */
    method Unregister(id: string) returns (looked: Option<string>, removed: Option<string>)
      modifies this, rm
      ensures looked == None ==> State() == old(State())
      ensures looked.Some? ==>
                var s := old(State());
                && removed.Some? && Subscribed(s.reg, looked.value, id) && Subscribed(s.reg, removed.value, id)
                && var t := s.(reg := RemoveSubscriber(s.reg, removed.value, id));
                   State() == if looked.value !in t.reg.entries then StopWorker(t, looked.value) else t
      ensures looked.Some? && looked.value !in rm.entries ==> looked.value !in workers
      ensures forall k :: looked != Some(k) ==> (k in workers <==> k in old(workers))
    {
      looked := rm.GetEntryByRequestID(id);
      removed := None;
      if looked == None {
        return;
      }
      removed := rm.Unregister(id);
      if looked.value !in rm.entries {
        workers := workers - {looked.value};
      }
    }

    method SyncWorkers()
      modifies this
      ensures State() == ApplySync(old(State()), Refs(old(State()).reg.entries))
    {
      var read := GetAllEntries();
      SyncTable(read);
    }

    /** Under the registry's lock: a copy of the map. */
    method GetAllEntries() returns (read: map<string, Ref>)
      ensures read == Refs(State().reg.entries)
      ensures forall k :: k in read <==> k in rm.entries
      ensures forall k :: k in read ==> read[k] == Ref(rm.entries[k].id, k, rm.entries[k].chain)
    {
      read := map[];
      var rest := rm.entries.Keys;
      while rest != {}
        invariant rest <= rm.entries.Keys
        invariant forall k :: k in read <==> k in rm.entries && k !in rest
        invariant forall k :: k in read ==> read[k] == Ref(rm.entries[k].id, k, rm.entries[k].chain)
        decreases rest
      {
        var k :| k in rest;
        read := read[k := Ref(rm.entries[k].id, k, rm.entries[k].chain)];
        rest := rest - {k};
      }
    }

    /** Under the table's lock, for a copy taken at any time before. */
    method SyncTable(read: map<string, Ref>)
      requires forall k :: k in read ==> read[k].key == k
      modifies this`workers
      ensures State() == ApplySync(old(State()), read)
      ensures forall k :: k in workers <==> k in read && (k in old(workers) || read[k].chain in clients)
      ensures forall k :: k in workers ==>
                workers[k] == if k in old(workers) then old(workers)[k] else Worker(read[k].id, read[k].chain)
    {
      ghost var before := workers;
      var rest := read.Keys;
      while rest != {}
        invariant rest <= read.Keys
        invariant forall k :: k in workers <==> k in before || (k in read && k !in rest && read[k].chain in clients)
        invariant forall k :: k in workers ==>
                    workers[k] == if k in before then before[k] else Worker(read[k].id, read[k].chain)
        decreases rest
      {
        var k :| k in rest;
        if k !in workers {
          if read[k].chain in clients {
            WriteWorker(read[k]);
          }
        }
        rest := rest - {k};
      }
      ghost var started := workers;
      rest := workers.Keys;
      while rest != {}
        invariant rest <= started.Keys
        invariant forall k :: k in workers <==> k in started && (k in rest || k in read)
        invariant forall k :: k in workers ==> workers[k] == started[k]
        decreases rest
      {
        var k :| k in rest;
        if k !in read {
          workers := workers - {k};
        }
        rest := rest - {k};
      }
      assert workers == Synced(read, before, clients);
    }

    method Stop()
      modifies this`workers
      ensures State() == old(State()).(workers := map[])
    {
      workers := map[];
    }
  }
}
