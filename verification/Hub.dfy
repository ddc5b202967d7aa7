/** The WebSocket hub: which clients are connected, which rooms they are in, and what is queued for them.
    Clients are named by numbers; a character stands for a byte. */
module Hub {
  /** `own` is each client's own record of its rooms. */
  datatype Hub = Hub(clients: set<nat>, rooms: map<string, set<nat>>,
                     own: map<nat, set<string>>, queues: map<nat, seq<int>>)

  function Members(rooms: map<string, set<nat>>, room: string): set<nat> {
    if room in rooms then rooms[room] else {}
  }

  function Own(h: Hub, c: nat): set<string> {
    if c in h.own then h.own[c] else {}
  }

  function Queue(h: Hub, c: nat): seq<int> {
    if c in h.queues then h.queues[c] else []
  }

  // ----- Room access -----

  datatype Access = Granted | Denied | SliceOutOfRange

  /** The room check: too short, then the first five characters, which a room of three or four does not have. */
  function ValidateRoomAccess(room: string, claimedUser: string, clientUser: string): Access {
    if |room| < 3 then Denied
    else if |room| < 5 then SliceOutOfRange
    else if room[..5] == "user:" then
      if claimedUser == "" then Denied else if clientUser == claimedUser then Granted else Denied
    else Granted
  }

  /** The check comes to a decision exactly for rooms shorter than three or longer than four characters; a
      user room is granted only to the user claimed, who must be the client's own. */
  lemma AccessDecidedIff(room: string, claimedUser: string, clientUser: string)
    ensures var a := ValidateRoomAccess(room, claimedUser, clientUser);
            && (a != SliceOutOfRange <==> |room| < 3 || |room| > 4)
            && (a == Granted <==>
                  |room| > 4 && ("user:" <= room ==> claimedUser != "" && claimedUser == clientUser))
  {
  }

  // ----- Operations -----

  function WithoutClient(rooms: map<string, set<nat>>, c: nat): map<string, set<nat>> {
    map r | r in rooms && !(c in rooms[r] && rooms[r] - {c} == {}) :: rooms[r] - {c}
  }

  function AfterRegister(h: Hub, c: nat): Hub {
    h.(clients := h.clients + {c})
  }

  function AfterUnregister(h: Hub, c: nat): Hub {
    if c in h.clients then h.(clients := h.clients - {c}, rooms := WithoutClient(h.rooms, c)) else h
  }

  /** The client records the room, then the hub adds the client to it. */
  function AfterSubscribe(h: Hub, c: nat, room: string): Hub {
    h.(own := h.own[c := Own(h, c) + {room}], rooms := h.rooms[room := Members(h.rooms, room) + {c}])
  }

  function AfterUnsubscribe(h: Hub, c: nat, room: string): Hub {
    var left := Members(h.rooms, room) - {c};
    h.(own := h.own[c := Own(h, c) - {room}],
       rooms := if room !in h.rooms then h.rooms else if left == {} then h.rooms - {room} else h.rooms[room := left])
  }

  /** How many copies of a broadcast to these rooms client c gets: one per listing of a room it is in. */
  function Copies(rooms: map<string, set<nat>>, list: seq<string>, c: nat): nat {
    if list == [] then 0
    else Copies(rooms, list[..|list| - 1], c) + if c in Members(rooms, list[|list| - 1]) then 1 else 0
  }

  /** A broadcast that lists no room goes once to every registered client. */
  function CopiesTo(h: Hub, list: seq<string>): nat -> nat {
    c => if list == [] then (if c in h.clients then 1 else 0) else Copies(h.rooms, list, c)
  }

  function Repeat(m: int, n: nat): seq<int> {
    seq(n, i => m)
  }

  /** b is a with each client's queue extended by its own number of copies of m, and nothing else changed. */
  ghost predicate Delivered(a: Hub, b: Hub, m: int, copies: nat -> nat) {
    && b.clients == a.clients && b.rooms == a.rooms && b.own == a.own
    && forall c: nat :: Queue(b, c) == Queue(a, c) + Repeat(m, copies(c))
  }

  class WebSocketHub {
    var clients: set<nat>
    var rooms: map<string, set<nat>>
    var own: map<nat, set<string>>
    var queues: map<nat, seq<int>>

    ghost function State(): Hub
      reads this
    {
      Hub(clients, rooms, own, queues)
    }

    constructor ()
      ensures State() == Hub({}, map[], map[], map[])
    {
      clients, rooms, own, queues := {}, map[], map[], map[];
    }

    method RegisterClient(c: nat)
      modifies this
      ensures State() == AfterRegister(old(State()), c) && c in clients
    {
      clients := clients + {c};
    }

    method UnregisterClient(c: nat)
      modifies this
      ensures State() == AfterUnregister(old(State()), c)
      ensures c !in old(clients) ==> State() == old(State())
      ensures c in old(clients) ==> clients == old(clients) - {c} && forall r :: r in rooms ==> c !in rooms[r]
    {
      if c !in clients {
        return;
      }
      clients := clients - {c};
      var rest := rooms.Keys;
      while rest != {}
        invariant rest <= old(rooms).Keys
        invariant clients == old(clients) - {c} && own == old(own) && queues == old(queues)
        invariant forall r :: r in rooms <==> if r in rest then r in old(rooms) else r in WithoutClient(old(rooms), c)
        invariant forall r :: r in rooms ==> rooms[r] == if r in rest then old(rooms)[r] else old(rooms)[r] - {c}
        decreases rest
      {
        var room :| room in rest;
        if c in rooms[room] {
          var left := rooms[room] - {c};
          if left == {} {
            rooms := rooms - {room};
          } else {
            rooms := rooms[room := left];
          }
        }
        rest := rest - {room};
      }
      assert rooms == WithoutClient(old(rooms), c);
    }

    method HandleSubscribe(c: nat, room: string, claimedUser: string, clientUser: string) returns (a: Access)
      modifies this
      ensures a == ValidateRoomAccess(room, claimedUser, clientUser)
      ensures State() == if a == Granted then AfterSubscribe(old(State()), c, room) else old(State())
      ensures a == Granted ==> room in rooms && c in rooms[room] && c in own && room in own[c]
    {
      a := ValidateRoomAccess(room, claimedUser, clientUser);
      if a == Granted {
        own := own[c := (if c in own then own[c] else {}) + {room}];
        if room !in rooms {
          rooms := rooms[room := {}];
        }
        rooms := rooms[room := rooms[room] + {c}];
        assert rooms == old(rooms)[room := Members(old(rooms), room) + {c}];
      }
    }

    method HandleUnsubscribe(c: nat, room: string)
      modifies this
      ensures State() == AfterUnsubscribe(old(State()), c, room)
      ensures c in own && room !in own[c] && (room in rooms ==> c !in rooms[room])
    {
      own := own[c := (if c in own then own[c] else {}) - {room}];
      if room in rooms {
        rooms := rooms[room := rooms[room] - {c}];
        if rooms[room] == {} {
          rooms := rooms - {room};
          assert rooms == old(rooms) - {room};
        }
      }
    }

    /** Queues with room to spare: every client listed gets one more copy. */
    method SendTo(targets: set<nat>, m: int)
      modifies this`queues
      ensures Delivered(old(State()), State(), m, c => if c in targets then 1 else 0)
      ensures forall c: nat :: c in targets ==> c in queues && queues[c] == Queue(old(State()), c) + [m]
    {
      var rest := targets;
      while rest != {}
        invariant rest <= targets
        invariant forall c: nat :: Queue(State(), c) ==
                    Queue(old(State()), c) + Repeat(m, if c in targets && c !in rest then 1 else 0)
        decreases rest
      {
        var c :| c in rest;
        queues := queues[c := (if c in queues then queues[c] else []) + [m]];
        rest := rest - {c};
      }
    }

    method BroadcastToRooms(list: seq<string>, m: int)
      modifies this`queues
      ensures Delivered(old(State()), State(), m, CopiesTo(old(State()), list))
    {
      if |list| == 0 {
        SendTo(clients, m);
        return;
      }
      for i := 0 to |list|
        invariant forall c: nat :: Queue(State(), c) == Queue(old(State()), c) + Repeat(m, Copies(rooms, list[..i], c))
      {
        assert list[..i + 1][..i] == list[..i];
        if list[i] in rooms {
          SendTo(rooms[list[i]], m);
        }
      }
      assert list[..|list|] == list;
    }
  }

  // ----- Consistency -----

  /** Rooms are non-empty and hold registered clients only, and each registered client's own record names
      exactly the rooms it is in. */
  ghost predicate Consistent(h: Hub) {
    && (forall r :: r in h.rooms ==> h.rooms[r] != {} && h.rooms[r] <= h.clients)
    && (forall c, r :: c in h.clients ==> (r in Own(h, c) <==> c in Members(h.rooms, r)))
  }

  datatype Op =
    | Register(c: nat)
    | Unregister(c: nat)
    | Subscribe(c: nat, room: string)
    | Unsubscribe(c: nat, room: string)

  function Apply(h: Hub, op: Op): Hub {
    match op
    case Register(c) => AfterRegister(h, c)
    case Unregister(c) => AfterUnregister(h, c)
    case Subscribe(c, room) => AfterSubscribe(h, c, room)
    case Unsubscribe(c, room) => AfterUnsubscribe(h, c, room)
  }

  function Run(ops: seq<Op>): Hub {
    if ops == [] then Hub({}, map[], map[], map[]) else Apply(Run(ops[..|ops| - 1]), ops[|ops| - 1])
  }

  /** An operation keeps the hub consistent exactly when a subscription comes from a registered client and a
      newly registered client brings an empty record. */
  lemma ApplyKeepsConsistentIff(h: Hub, op: Op)
    requires Consistent(h)
    ensures Consistent(Apply(h, op)) <==>
              match op
              case Register(c) => c in h.clients || Own(h, c) == {}
              case Subscribe(c, _) => c in h.clients
              case _ => true
  {
    var t := Apply(h, op);
    match op
    case Register(c) =>
      if c !in h.clients && Own(h, c) != {} {
        var r :| r in Own(h, c);
        assert c !in Members(t.rooms, r);
      }
    case Subscribe(c, room) =>
      forall r ensures Members(t.rooms, r) == if r == room then Members(h.rooms, r) + {c} else Members(h.rooms, r) {
      }
      forall d ensures Own(t, d) == if d == c then Own(h, d) + {room} else Own(h, d) {
      }
      if c !in h.clients {
        assert c in t.rooms[room] && room in t.rooms && !(t.rooms[room] <= t.clients);
      }
    case Unregister(c) =>
      forall r
        ensures Members(t.rooms, r) == if c in h.clients then Members(h.rooms, r) - {c} else Members(h.rooms, r)
      {
      }
    case Unsubscribe(c, room) =>
      forall r ensures Members(t.rooms, r) == if r == room then Members(h.rooms, r) - {c} else Members(h.rooms, r) {
      }
      forall d ensures Own(t, d) == if d == c then Own(h, d) - {room} else Own(h, d) {
      }
  }

  /** Subscriptions lie between a client's registration and its unregistration, and a client object is
      registered only once. */
  ghost predicate Proper(ops: seq<Op>) {
    && (forall i :: 0 <= i < |ops| && ops[i].Subscribe? ==> ops[i].c in Run(ops[..i]).clients)
    && (forall i, j :: 0 <= i < j < |ops| && ops[j].Register? ==> ops[i].c != ops[j].c)
  }

  ghost predicate Mentions(ops: seq<Op>, c: nat) {
    exists i :: 0 <= i < |ops| && ops[i].c == c
  }

  /** Hub consistency over any proper run. */
  lemma {:induction false} HubStaysConsistent(ops: seq<Op>)
    requires Proper(ops)
    ensures Consistent(Run(ops))
    ensures forall c :: !Mentions(ops, c) ==> Own(Run(ops), c) == {}
  {
    if ops != [] {
      var n := |ops| - 1;
      var pre := ops[..n];
      forall i | 0 <= i < n ensures pre[..i] == ops[..i] {
      }
      HubStaysConsistent(pre);
      var h := Run(pre);
      forall c ensures Mentions(ops, c) <==> Mentions(pre, c) || ops[n].c == c {
        if i :| 0 <= i < |ops| && ops[i].c == c {
          assert i < n ==> pre[i] == ops[i];
        }
        if i :| 0 <= i < |pre| && pre[i].c == c {
          assert ops[i] == pre[i];
        }
      }
      assert ops[n].Register? ==> !Mentions(pre, ops[n].c);
      ApplyKeepsConsistentIff(h, ops[n]);
    }
  }

  /** Unregistering takes the client out of every room, and affects no other client's membership. */
  lemma UnregisterRemovesEverywhere(h: Hub, c: nat, d: nat, room: string)
    requires Consistent(h)
    ensures var t := AfterUnregister(h, c);
            && c !in t.clients && c !in Members(t.rooms, room)
            && (d != c ==>
                  && (d in t.clients <==> d in h.clients)
                  && (d in Members(t.rooms, room) <==> d in Members(h.rooms, room))
                  && Own(t, d) == Own(h, d) && Queue(t, d) == Queue(h, d))
  {
  }

  // ----- What subscriptions bring about -----

  /** A subscription puts the client in the room and the room in its record, and touches no other membership
      or record entry. */
  lemma SubscribeMeans(h: Hub, c: nat, room: string, d: nat, other: string)
    ensures var t := AfterSubscribe(h, c, room);
            && (d in Members(t.rooms, other) <==> d in Members(h.rooms, other) || (d == c && other == room))
            && (other in Own(t, d) <==> other in Own(h, d) || (d == c && other == room))
            && t.clients == h.clients && t.queues == h.queues
  {
  }

  /** An unsubscription undoes just that. */
  lemma UnsubscribeMeans(h: Hub, c: nat, room: string, d: nat, other: string)
    ensures var t := AfterUnsubscribe(h, c, room);
            && (d in Members(t.rooms, other) <==> d in Members(h.rooms, other) && !(d == c && other == room))
            && (other in Own(t, d) <==> other in Own(h, d) && !(d == c && other == room))
            && t.clients == h.clients && t.queues == h.queues
  {
  }

  lemma ProperPrefix(ops: seq<Op>)
    requires Proper(ops) && ops != []
    ensures Proper(ops[..|ops| - 1])
  {
    var pre := ops[..|ops| - 1];
    assert forall i :: 0 <= i < |pre| ==> pre[..i] == ops[..i];
  }

  /** The run has an operation of the first kind and none of the second after it. */
  ghost predicate LastIs(ops: seq<Op>, begins: Op -> bool, ends: Op -> bool) {
    exists i :: 0 <= i < |ops| && begins(ops[i]) && forall j :: i < j < |ops| ==> !ends(ops[j])
  }

  lemma LastIsStep(ops: seq<Op>, begins: Op -> bool, ends: Op -> bool)
    requires ops != []
    ensures var pre, op := ops[..|ops| - 1], ops[|ops| - 1];
            LastIs(ops, begins, ends) <==> begins(op) || (LastIs(pre, begins, ends) && !ends(op))
  {
    var n := |ops| - 1;
    var pre := ops[..n];
    if i :| 0 <= i < |ops| && begins(ops[i]) && forall j :: i < j < |ops| ==> !ends(ops[j]) {
      if i < n {
        assert begins(pre[i]) && forall j :: i < j < |pre| ==> !ends(pre[j]);
        assert !ends(ops[n]);
      }
    }
    if i :| 0 <= i < |pre| && begins(pre[i]) && forall j :: i < j < |pre| ==> !ends(pre[j]) {
      assert begins(ops[i]);
      assert !ends(ops[n]) ==> forall j :: i < j < |ops| ==> !ends(ops[j]);
    }
  }

  /** A client is registered exactly when it has registered and not unregistered since. */
  lemma {:induction false} RegisteredIff(ops: seq<Op>, c: nat)
    ensures c in Run(ops).clients <==> LastIs(ops, op => op == Register(c), op => op == Unregister(c))
  {
    if ops != [] {
      RegisteredIff(ops[..|ops| - 1], c);
      LastIsStep(ops, op => op == Register(c), op => op == Unregister(c));
    }
  }

  /** Over any proper run, a client is in a room exactly when it has subscribed to it and has neither
      unsubscribed from it nor unregistered since. */
  lemma {:induction false} InRoomIff(ops: seq<Op>, c: nat, room: string)
    requires Proper(ops)
    ensures c in Members(Run(ops).rooms, room) <==>
              LastIs(ops, op => op == Subscribe(c, room), op => op == Unsubscribe(c, room) || op == Unregister(c))
  {
    if ops != [] {
      var pre, op := ops[..|ops| - 1], ops[|ops| - 1];
      ProperPrefix(ops);
      InRoomIff(pre, c, room);
      HubStaysConsistent(pre);
      LastIsStep(ops, o => o == Subscribe(c, room), o => o == Unsubscribe(c, room) || o == Unregister(c));
      match op
      case Subscribe(d, other) => SubscribeMeans(Run(pre), d, other, c, room);
      case Unsubscribe(d, other) => UnsubscribeMeans(Run(pre), d, other, c, room);
      case Unregister(d) => UnregisterRemovesEverywhere(Run(pre), d, c, room);
      case Register(_) =>
    }
  }

  // ----- How many copies a broadcast brings -----

  ghost function Listings(rooms: map<string, set<nat>>, list: seq<string>, c: nat): set<nat> {
    set i | 0 <= i < |list| && list[i] in rooms && c in rooms[list[i]]
  }

  /** A client gets one copy for each place in the list that names a room it is in. */
  lemma {:induction false} CopiesCount(rooms: map<string, set<nat>>, list: seq<string>, c: nat)
    ensures Copies(rooms, list, c) == |Listings(rooms, list, c)|
  {
    if list != [] {
      var n := |list| - 1;
      CopiesCount(rooms, list[..n], c);
      var pre, all := Listings(rooms, list[..n], c), Listings(rooms, list, c);
      assert all == if list[n] in rooms && c in rooms[list[n]] then pre + {n} else pre;
    }
  }

  /** So it gets one exactly when it is in some listed room. */
  lemma CopiesPositiveIff(rooms: map<string, set<nat>>, list: seq<string>, c: nat)
    ensures Copies(rooms, list, c) > 0 <==> exists r :: r in list && c in Members(rooms, r)
  {
    var all := Listings(rooms, list, c);
    CopiesCount(rooms, list, c);
    if r :| r in list && c in Members(rooms, r) {
      var i :| 0 <= i < |list| && list[i] == r;
      assert i in all;
    }
    if |all| > 0 {
      var i :| i in all;
      assert list[i] in list;
    }
  }

  /** And at least two when it is in two of them. */
  lemma CopiesOfTwo(rooms: map<string, set<nat>>, list: seq<string>, c: nat, i: nat, j: nat)
    requires i < |list| && j < |list| && i != j
    requires c in Members(rooms, list[i]) && c in Members(rooms, list[j])
    ensures Copies(rooms, list, c) >= 2
  {
    var all := Listings(rooms, list, c);
    CopiesCount(rooms, list, c);
    assert all == {i, j} + (all - {i, j});
  }
}
