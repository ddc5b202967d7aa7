/** The registry of monitoring requests: one entry per chain, contract and event, with its subscribers. */
module EventRegistry {
  import opened Wrappers

  /** `addressOk` says whether the contract address parses to a non-zero address. */
  datatype Request = Request(id: string, chain: string, contract: string, event: string,
                             url: string, expires: int, addressOk: bool)

  datatype Subscriber = Subscriber(url: string, expires: int)

  /** `id` is the identity of the entry object: a key registered again gets an entry with a new identity. */
  datatype Entry = Entry(id: nat, key: string, chain: string, subs: map<string, Subscriber>)

  /** `cancelled` holds the identities of entries whose context has been cancelled. */
  datatype Registry = Registry(entries: map<string, Entry>, cancelled: set<nat>, nextId: nat)

  // ----- Keys -----

  function LowerChar(c: char): char {
    if 'A' <= c <= 'Z' then (c as int + 32) as char else c
  }

  function Lower(s: string): (r: string)
    ensures |r| == |s|
  {
    seq(|s|, i requires 0 <= i < |s| => LowerChar(s[i]))
  }

  function KeyOf(chain: string, contract: string, event: string): string {
    chain + ":" + Lower(contract) + ":" + event
  }

  predicate ColonFree(s: string) {
    ':' !in s
  }

  lemma SplitAtColon(a: string, x: string, b: string, y: string)
    requires ColonFree(a) && ColonFree(b) && a + ":" + x == b + ":" + y
    ensures a == b && x == y
  {
    var s, t := a + ":" + x, b + ":" + y;
    assert s[|a|] == ':' && t[|b|] == ':';
    assert forall i :: 0 <= i < |a| ==> s[i] == a[i] && a[i] in a;
    assert forall i :: 0 <= i < |b| ==> t[i] == b[i] && b[i] in b;
    assert |a| == |b|;
    assert s[..|a|] == a && t[..|b|] == b;
    assert s[|a| + 1..] == x && t[|b| + 1..] == y;
  }

  lemma LowerColonFree(s: string)
    requires ColonFree(s)
    ensures ColonFree(Lower(s))
  {
  }

  /** The two characters are the same but for the case of a letter. */
  predicate SameLetter(a: char, b: char) {
    || a == b
    || ('A' <= a <= 'Z' && b as int == a as int + 32)
    || ('A' <= b <= 'Z' && a as int == b as int + 32)
  }

  /** Contracts are compared without regard to letter case, and otherwise character by character. */
  lemma LowerIgnoresCase(s: string, t: string)
    ensures Lower(s) == Lower(t) <==> |s| == |t| && forall i :: 0 <= i < |s| ==> SameLetter(s[i], t[i])
  {
    if Lower(s) == Lower(t) {
      forall i | 0 <= i < |s| ensures SameLetter(s[i], t[i]) {
        assert Lower(s)[i] == Lower(t)[i];
      }
    }
  }

  /** With colon-free chain ids and contract addresses, requests share an entry exactly when they name the
      same chain and event, and the same contract up to letter case. */
  lemma SameKeyIff(chain: string, contract: string, event: string, chain': string, contract': string, event': string)
    requires ColonFree(chain) && ColonFree(chain') && ColonFree(contract) && ColonFree(contract')
    ensures KeyOf(chain, contract, event) == KeyOf(chain', contract', event') <==>
            chain == chain' && Lower(contract) == Lower(contract') && event == event'
  {
    var rest, rest' := Lower(contract) + ":" + event, Lower(contract') + ":" + event';
    assert KeyOf(chain, contract, event) == chain + ":" + rest;
    assert KeyOf(chain', contract', event') == chain' + ":" + rest';
    if KeyOf(chain, contract, event) == KeyOf(chain', contract', event') {
      SplitAtColon(chain, rest, chain', rest');
      LowerColonFree(contract);
      LowerColonFree(contract');
      SplitAtColon(Lower(contract), event, Lower(contract'), event');
    }
  }

  // ----- Operations -----

  function RequestKey(req: Request): string {
    KeyOf(req.chain, req.contract, req.event)
  }

  function RegisterIn(r: Registry, req: Request): (Registry, bool) {
    if !req.addressOk then (r, false)
    else
      var key := RequestKey(req);
      var sub := Subscriber(req.url, req.expires);
      if key in r.entries then
        (r.(entries := r.entries[key := r.entries[key].(subs := r.entries[key].subs[req.id := sub])]), true)
      else
        var e := Entry(r.nextId, key, req.chain, map[req.id := sub]);
        (Registry(r.entries[key := e], r.cancelled, r.nextId + 1), true)
  }

  predicate Subscribed(r: Registry, key: string, id: string) {
    key in r.entries && id in r.entries[key].subs
  }

  /** Removes a subscriber from one entry, and the entry with it when it was the last. */
  function RemoveSubscriber(r: Registry, key: string, id: string): Registry
    requires Subscribed(r, key, id)
  {
    var left := r.entries[key].subs - {id};
    if left == map[] then r.(entries := r.entries - {key}, cancelled := r.cancelled + {r.entries[key].id})
    else r.(entries := r.entries[key := r.entries[key].(subs := left)])
  }

  /** Subscribers whose expiry is not before `now`. */
  function Unexpired(subs: map<string, Subscriber>, now: int): map<string, Subscriber> {
    map id | id in subs && subs[id].expires >= now :: subs[id]
  }

  predicate AllExpired(subs: map<string, Subscriber>, now: int) {
    forall id :: id in subs ==> subs[id].expires < now
  }

  lemma NoneLeftIff(subs: map<string, Subscriber>, now: int)
    ensures Unexpired(subs, now).Keys == {} <==> AllExpired(subs, now)
  {
    if !AllExpired(subs, now) {
      var id :| id in subs && subs[id].expires >= now;
      assert id in Unexpired(subs, now).Keys;
    }
  }

  function Emptied(r: Registry, now: int): set<string> {
    set k | k in r.entries && AllExpired(r.entries[k].subs, now)
  }

  /** One clean-up pass: exactly the subscribers with expiry before `now` go, and exactly the entries that
      they leave empty. */
  function Cleanup(r: Registry, now: int): Registry {
    Registry(
      map k | k in r.entries && k !in Emptied(r, now) :: r.entries[k].(subs := Unexpired(r.entries[k].subs, now)),
      r.cancelled + (set k | k in Emptied(r, now) :: r.entries[k].id),
      r.nextId)
  }

  /** A clean-up pass that has dealt with the keys in `done`. */
  ghost function PartialCleanup(r: Registry, now: int, done: set<string>): Registry {
    Registry(
      map k | k in r.entries && !(k in done && k in Emptied(r, now)) ::
        if k in done then r.entries[k].(subs := Unexpired(r.entries[k].subs, now)) else r.entries[k],
      r.cancelled + (set k | k in done * Emptied(r, now) :: r.entries[k].id),
      r.nextId)
  }

  lemma CleanupNext(r: Registry, now: int, done: set<string>, key: string)
    requires key in r.entries && key !in done
    ensures var s := PartialCleanup(r, now, done);
            var left := Unexpired(r.entries[key].subs, now);
            && key in s.entries && s.entries[key] == r.entries[key]
            && PartialCleanup(r, now, done + {key}) ==
            if AllExpired(r.entries[key].subs, now)
            then s.(entries := s.entries - {key}, cancelled := s.cancelled + {r.entries[key].id})
            else s.(entries := s.entries[key := r.entries[key].(subs := left)])
  {
  }

  lemma CleanupStartsAndEnds(r: Registry, now: int)
    ensures PartialCleanup(r, now, {}) == r
    ensures PartialCleanup(r, now, r.entries.Keys) == Cleanup(r, now)
  {
    assert PartialCleanup(r, now, {}).entries == r.entries;
    assert r.entries.Keys * Emptied(r, now) == Emptied(r, now);
    assert PartialCleanup(r, now, r.entries.Keys).entries == Cleanup(r, now).entries;
  }

  class RegistryManager {
    var entries: map<string, Entry>
    var cancelled: set<nat>
    var nextId: nat

    ghost function State(): Registry
      reads this
    {
      Registry(entries, cancelled, nextId)
    }

    constructor ()
      ensures State() == Registry(map[], {}, 0)
    {
      entries, cancelled, nextId := map[], {}, 0;
    }

    method Register(req: Request) returns (ok: bool)
      modifies this
      ensures (State(), ok) == RegisterIn(old(State()), req)
      ensures ok ==>
                var key := KeyOf(req.chain, req.contract, req.event);
                && key in entries && req.id in entries[key].subs
                && entries[key].subs[req.id] == Subscriber(req.url, req.expires)
    {
      if !req.addressOk {
        return false;
      }
      var key := KeyOf(req.chain, req.contract, req.event);
      if key !in entries {
        entries := entries[key := Entry(nextId, key, req.chain, map[])];
        nextId := nextId + 1;
      }
      var entry := entries[key];
      entries := entries[key := entry.(subs := entry.subs[req.id := Subscriber(req.url, req.expires)])];
      assert entries == RegisterIn(old(State()), req).0.entries;
      return true;
    }

    /** Looks the id up in some order; an id subscribed under several keys may be found under any of them. */
    method GetEntryByRequestID(id: string) returns (found: Option<string>)
      ensures found == None ==> forall k :: !Subscribed(State(), k, id)
      ensures found.Some? ==> Subscribed(State(), found.value, id)
    {
      found := None;
      var rest := entries.Keys;
      while rest != {}
        invariant rest <= entries.Keys
        invariant forall k :: k in entries && k !in rest ==> id !in entries[k].subs
        decreases rest
      {
        var k :| k in rest;
        if id in entries[k].subs {
          return Some(k);
        }
        rest := rest - {k};
      }
    }

    method Unregister(id: string) returns (found: Option<string>)
      modifies this
      ensures found == None ==> State() == old(State()) && forall k :: !Subscribed(old(State()), k, id)
      ensures found.Some? ==> Subscribed(old(State()), found.value, id)
                              && State() == RemoveSubscriber(old(State()), found.value, id)
    {
      found := GetEntryByRequestID(id);
      if found == None {
        return;
      }
      var key := found.value;
      var entry := entries[key];
      entries := entries[key := entry.(subs := entry.subs - {id})];
      if |entries[key].subs| == 0 {
        cancelled := cancelled + {entry.id};
        entries := entries - {key};
        assert entries == old(entries) - {key};
      }
    }

    method CleanupExpired(now: int)
      modifies this
      ensures State() == Cleanup(old(State()), now)
    {
      var rest := entries.Keys;
      ghost var before := State();
      CleanupStartsAndEnds(before, now);
      ghost var done: set<string> := {};
      while rest != {}
        invariant rest !! done && rest + done == before.entries.Keys
        invariant State() == PartialCleanup(before, now, done)
        decreases rest
      {
        var key :| key in rest;
        CleanupNext(before, now, done, key);
        CleanupEntry(key, now);
        rest := rest - {key};
        done := done + {key};
      }
      assert done == before.entries.Keys;
    }

    method CleanupEntry(key: string, now: int)
      requires key in entries
      modifies this
      ensures var e := old(entries)[key];
              var left := Unexpired(e.subs, now);
              State() == if AllExpired(e.subs, now)
                         then old(State()).(entries := old(entries) - {key}, cancelled := old(cancelled) + {e.id})
                         else old(State()).(entries := old(entries)[key := e.(subs := left)])
    {
      var entry := entries[key];
      var left := RemoveExpired(entry.subs, now);
      NoneLeftIff(entry.subs, now);
      entries := entries[key := entry.(subs := left)];
      if left.Keys == {} {
        cancelled := cancelled + {entry.id};
        entries := entries - {key};
        assert entries == old(entries) - {key};
      }
    }

    /** First collects the expired ids, then deletes them. */
    method RemoveExpired(subs: map<string, Subscriber>, now: int) returns (left: map<string, Subscriber>)
      ensures left == Unexpired(subs, now)
    {
      var expired: seq<string> := [];
      var rest := subs.Keys;
      while rest != {}
        invariant rest <= subs.Keys
        invariant forall id :: id in expired <==> id in subs && id !in rest && subs[id].expires < now
        decreases rest
      {
        var id :| id in rest;
        if subs[id].expires < now {
          expired := expired + [id];
        }
        rest := rest - {id};
      }
      left := subs;
      for i := 0 to |expired|
        invariant forall id :: id in left <==> id in subs && id !in expired[..i]
        invariant forall id :: id in left ==> left[id] == subs[id]
      {
        left := left - {expired[i]};
        assert expired[..i + 1] == expired[..i] + [expired[i]];
      }
      assert expired[..|expired|] == expired;
    }
  }

  // ----- The invariant -----

  /** Every stored entry has a subscriber, is stored under its own key, and is alive; identities are unique. */
  ghost predicate Valid(r: Registry) {
    && (forall k :: k in r.entries ==>
          var e := r.entries[k];
          e.key == k && e.subs.Keys != {} && e.id !in r.cancelled && e.id < r.nextId)
    && (forall j, k :: j in r.entries && k in r.entries && j != k ==> r.entries[j].id != r.entries[k].id)
    && (forall id :: id in r.cancelled ==> id < r.nextId)
  }

  datatype Op = Register(req: Request) | Unregister(key: string, id: string) | Expire(now: int)

  function Apply(r: Registry, op: Op): Registry {
    match op
    case Register(req) => RegisterIn(r, req).0
    case Unregister(key, id) => if Subscribed(r, key, id) then RemoveSubscriber(r, key, id) else r
    case Expire(now) => Cleanup(r, now)
  }

  function ApplyAll(r: Registry, ops: seq<Op>): Registry {
    if ops == [] then r else Apply(ApplyAll(r, ops[..|ops| - 1]), ops[|ops| - 1])
  }

  lemma RegisterKeepsValid(r: Registry, req: Request)
    requires Valid(r)
    ensures Valid(RegisterIn(r, req).0)
  {
    if req.addressOk {
      var s, key := RegisterIn(r, req).0, RequestKey(req);
      assert req.id in s.entries[key].subs;
    }
  }

  lemma RemoveKeepsValid(r: Registry, key: string, id: string)
    requires Valid(r) && Subscribed(r, key, id)
    ensures Valid(RemoveSubscriber(r, key, id))
  {
  }

  lemma CleanupKeepsValid(r: Registry, now: int)
    requires Valid(r)
    ensures Valid(Cleanup(r, now))
  {
    forall k | k in r.entries ensures Unexpired(r.entries[k].subs, now).Keys == {} <==> k in Emptied(r, now) {
      NoneLeftIff(r.entries[k].subs, now);
    }
  }

  lemma ApplyKeepsValid(r: Registry, op: Op)
    requires Valid(r)
    ensures Valid(Apply(r, op))
  {
    match op
    case Register(req) => RegisterKeepsValid(r, req);
    case Unregister(key, id) =>
      if Subscribed(r, key, id) {
        RemoveKeepsValid(r, key, id);
      }
    case Expire(now) => CleanupKeepsValid(r, now);
  }

  /** The registry invariant holds after any run of registrations, unregistrations and clean-ups. */
  lemma {:induction false} RegistryStaysValid(ops: seq<Op>)
    ensures Valid(ApplyAll(Registry(map[], {}, 0), ops))
  {
    if ops != [] {
      RegistryStaysValid(ops[..|ops| - 1]);
      ApplyKeepsValid(ApplyAll(Registry(map[], {}, 0), ops[..|ops| - 1]), ops[|ops| - 1]);
    }
  }

  /** An entry that disappears is cancelled, and identities are never reused. */
  lemma RemovedEntriesAreCancelled(r: Registry, op: Op, key: string)
    requires Valid(r) && key in r.entries
    ensures var s := Apply(r, op);
            && (r.entries[key].id in s.cancelled <==> key !in s.entries)
            && (key in s.entries ==> s.entries[key].id == r.entries[key].id)
  {
  }

  /** Undoing a registration through its request id, wherever the id is found, restores the entries exactly
      when the id was not subscribed to anything before. */
  lemma UndoRestoresIff(r: Registry, req: Request)
    requires Valid(r) && req.addressOk
    ensures var s := RegisterIn(r, req).0;
            (forall k :: Subscribed(s, k, req.id) ==> RemoveSubscriber(s, k, req.id).entries == r.entries) <==>
            forall k :: !Subscribed(r, k, req.id)
  {
    var s := RegisterIn(r, req).0;
    var key := RequestKey(req);
    assert Subscribed(s, key, req.id);
    if k :| Subscribed(r, k, req.id) {
      assert Subscribed(s, k, req.id);
      var t := RemoveSubscriber(s, k, req.id);
      assert !Subscribed(t, k, req.id);
      assert t.entries != r.entries;
    } else {
      assert !Subscribed(r, key, req.id);
      var t := RemoveSubscriber(s, key, req.id);
      var left := s.entries[key].subs - {req.id};
      if key in r.entries {
        assert left == r.entries[key].subs;
      } else {
        assert left == map[];
      }
      assert t.entries == r.entries;
      forall k | Subscribed(s, k, req.id) ensures k == key {
        assert k != key ==> Subscribed(r, k, req.id);
      }
    }
  }

  // ----- What is stored for a subscriber -----

  /** A registration stores its own URL and expiry under its key and id, and leaves every other subscriber. */
  lemma RegisterStores(r: Registry, req: Request, key: string, id: string)
    requires req.addressOk
    ensures var s := RegisterIn(r, req).0;
            var own := key == KeyOf(req.chain, req.contract, req.event) && id == req.id;
            && (Subscribed(s, key, id) <==> own || Subscribed(r, key, id))
            && (own ==> s.entries[key].subs[id] == Subscriber(req.url, req.expires))
            && (!own && Subscribed(r, key, id) ==> s.entries[key].subs[id] == r.entries[key].subs[id])
  {
  }

  /** An unregistration takes away that subscriber and no other. */
  lemma RemoveTakes(r: Registry, gone: string, goneId: string, key: string, id: string)
    requires Subscribed(r, gone, goneId)
    ensures var s := RemoveSubscriber(r, gone, goneId);
            && (Subscribed(s, key, id) <==> Subscribed(r, key, id) && !(key == gone && id == goneId))
            && (Subscribed(s, key, id) ==> s.entries[key].subs[id] == r.entries[key].subs[id])
  {
    var left := r.entries[gone].subs - {goneId};
    assert key == gone && Subscribed(r, key, id) && id != goneId ==> id in left;
  }

  /** A clean-up at `now` takes away exactly the subscribers whose expiry lies before it. */
  lemma CleanupTakes(r: Registry, now: int, key: string, id: string)
    ensures var s := Cleanup(r, now);
            && (Subscribed(s, key, id) <==> Subscribed(r, key, id) && r.entries[key].subs[id].expires >= now)
            && (Subscribed(s, key, id) ==> s.entries[key].subs[id] == r.entries[key].subs[id])
  {
  }

  /** Over any run, what is stored under a key and an id is what the latest registration of the two asked for. */
  lemma {:induction false} LatestRegistrationIsStored(ops: seq<Op>, key: string, id: string) returns (i: nat)
    requires Subscribed(ApplyAll(Registry(map[], {}, 0), ops), key, id)
    ensures i < |ops| && ops[i].Register? && ops[i].req.addressOk
    ensures RequestKey(ops[i].req) == key && ops[i].req.id == id
    ensures ApplyAll(Registry(map[], {}, 0), ops).entries[key].subs[id] ==
            Subscriber(ops[i].req.url, ops[i].req.expires)
    ensures forall j :: i < j < |ops| && ops[j].Register? && ops[j].req.addressOk ==>
              !(RequestKey(ops[j].req) == key && ops[j].req.id == id)
  {
    var n := |ops| - 1;
    var r := ApplyAll(Registry(map[], {}, 0), ops[..n]);
    match ops[n] {
      case Register(req) =>
        if req.addressOk {
          RegisterStores(r, req, key, id);
        }
      case Unregister(k, goneId) =>
        if Subscribed(r, k, goneId) {
          RemoveTakes(r, k, goneId, key, id);
        }
      case Expire(now) => CleanupTakes(r, now, key, id);
    }
    if ops[n].Register? && ops[n].req.addressOk && RequestKey(ops[n].req) == key && ops[n].req.id == id {
      i := n;
    } else {
      i := LatestRegistrationIsStored(ops[..n], key, id);
    }
  }
}
