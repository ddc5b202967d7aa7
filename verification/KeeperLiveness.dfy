/** The in-memory half of keeper health, and how it runs beside the persisted half: check-ins hold the
    state manager's lock through their store writes, the sweep marks under the lock but writes outside it. */
module KeeperLiveness {
  import opened Wrappers
  import opened GoNumbers

  const INACTIVITY_THRESHOLD := 70 * SECOND
  const MAX_RETRIES := 3

  datatype Keeper = Keeper(active: bool, lastCheckedIn: int)

  type Table = map<string, Keeper>

  predicate Stale(k: Keeper, now: int) {
    k.active && now - k.lastCheckedIn > INACTIVITY_THRESHOLD
  }

  /** The locked half of a sweep. */
  function MarkStale(mem: Table, now: int): Table {
    map a | a in mem :: if Stale(mem[a], now) then mem[a].(active := false) else mem[a]
  }

  ghost predicate Lists(list: seq<string>, s: set<string>) {
    && (forall a :: a in list <==> a in s)
    && (forall i, j :: 0 <= i < j < |list| ==> list[i] != list[j])
  }

  function StaleSet(mem: Table, now: int): set<string> {
    set a | a in mem && Stale(mem[a], now)
  }

  function ActiveSet(mem: Table): set<string> {
    set a | a in mem && mem[a].active
  }

  /** What the verified rows of the database make of the table: everyone inactive. */
  function Loaded(verified: map<string, int>): Table {
    map a | a in verified :: Keeper(false, verified[a])
  }

  class StateManager {
    var keepers: Table

    constructor ()
      ensures keepers == map[]
    {
      keepers := map[];
    }

    /** `rows` are the verified rows with their last check-in; None when they cannot be read. */
    method LoadVerifiedKeepers(rows: Option<map<string, int>>) returns (ok: bool)
      modifies this
      ensures ok == rows.Some?
      ensures keepers == if ok then Loaded(rows.value) else old(keepers)
      ensures ok ==> keepers.Keys == rows.value.Keys
      ensures ok ==> forall a :: a in keepers ==> !keepers[a].active && keepers[a].lastCheckedIn == rows.value[a]
    {
      if rows == None {
        return false;
      }
      var verified := rows.value;
      keepers := map[];
      var rest := verified.Keys;
      while rest != {}
        invariant rest <= verified.Keys
        invariant forall a :: a in keepers <==> a in verified && a !in rest
        invariant forall a :: a in keepers ==> keepers[a] == Keeper(false, verified[a])
        decreases rest
      {
        var a :| a in rest;
        keepers := keepers[a := Keeper(false, verified[a])];
        rest := rest - {a};
      }
      return true;
    }

    /** The memory half of a check-in; an address that was not loaded is refused. */
    method CheckIn(address: string, now: int) returns (known: bool)
      modifies this
      ensures known == (address in old(keepers))
      ensures keepers == if known then old(keepers)[address := Keeper(true, now)] else old(keepers)
    {
      if address !in keepers {
        return false;
      }
      keepers := keepers[address := keepers[address].(lastCheckedIn := now)];
      keepers := keepers[address := keepers[address].(active := true)];
      assert keepers == old(keepers)[address := Keeper(true, now)];
      return true;
    }

    method MarkInactiveKeepers(now: int) returns (inactive: seq<string>)
      modifies this
      ensures keepers == MarkStale(old(keepers), now)
      ensures Lists(inactive, StaleSet(old(keepers), now))
      ensures forall a :: a in old(keepers) ==> a in keepers
      ensures forall a :: a in old(keepers) && a in keepers ==>
                (keepers[a].active <==> old(keepers)[a].active && now - old(keepers)[a].lastCheckedIn <= 70_000_000_000)
    {
      inactive := [];
      var rest := keepers.Keys;
      while rest != {}
        invariant rest <= old(keepers).Keys && keepers.Keys == old(keepers).Keys
        invariant forall a :: a in keepers && a in rest ==> keepers[a] == old(keepers)[a]
        invariant forall a :: a in keepers && a !in rest ==> keepers[a] == MarkStale(old(keepers), now)[a]
        invariant forall a :: a in inactive <==> a in StaleSet(old(keepers), now) && a !in rest
        invariant forall i, j :: 0 <= i < j < |inactive| ==> inactive[i] != inactive[j]
        decreases rest
      {
        var a :| a in rest;
        if keepers[a].active && now - keepers[a].lastCheckedIn > INACTIVITY_THRESHOLD {
          keepers := keepers[a := keepers[a].(active := false)];
          inactive := inactive + [a];
        }
        rest := rest - {a};
      }
    }

    method IsKeeperActive(address: string) returns (active: bool)
      ensures active <==> address in ActiveSet(keepers)
      ensures active <==> address in keepers && keepers[address].active
    {
      active := address in keepers && keepers[address].active;
    }

    method GetAllActiveKeepers() returns (list: seq<string>)
      ensures Lists(list, ActiveSet(keepers))
      ensures forall a :: a in list <==> a in keepers && keepers[a].active
    {
      list := [];
      var rest := keepers.Keys;
      while rest != {}
        invariant rest <= keepers.Keys
        invariant forall a :: a in list <==> a in ActiveSet(keepers) && a !in rest
        invariant forall i, j :: 0 <= i < j < |list| ==> list[i] != list[j]
        decreases rest
      {
        var a :| a in rest;
        if keepers[a].active {
          list := list + [a];
        }
        rest := rest - {a};
      }
    }

    method GetKeeperCount() returns (total: nat, active: nat)
      ensures total == |keepers|
      ensures active == |ActiveSet(keepers)| == |set a | a in keepers && keepers[a].active|
    {
      total, active := |keepers|, 0;
      ghost var seen: set<string> := {};
      var rest := keepers.Keys;
      while rest != {}
        invariant rest <= keepers.Keys
        invariant forall a :: a in seen <==> a in ActiveSet(keepers) && a !in rest
        invariant active == |seen|
        decreases rest
      {
        var a :| a in rest;
        if keepers[a].active {
          active := active + 1;
          seen := seen + {a};
        }
        rest := rest - {a};
      }
      assert seen == ActiveSet(keepers);
    }
  }

  // ----- The two halves interleaved -----

  /** Who holds the state manager's lock: nobody, a check-in that still has store attempts to make, or a
      dump with addresses still to write. */
  datatype Lock = Free | ByCheckIn(address: string, attempts: nat) | ByDump(todo: set<string>)

  /** `online` is the set of addresses whose row says online; `pending` the addresses a sweep has marked
      inactive in memory and not yet written. */
  datatype System = System(mem: Table, online: set<string>, lock: Lock, pending: seq<string>)

  datatype Step =
    | BeginCheckIn(address: string, now: int)
    | CheckInWrite(ok: bool)
    | SweepMark(now: int, order: seq<string>)
    | SweepWrite(ok: bool)
    | BeginDump
    | DumpWrite(address: string, ok: bool)
    | Load(verified: map<string, int>)

  /** Which steps the lock and the single sweep goroutine allow. */
  ghost predicate Enabled(s: System, step: Step) {
    match step
    case BeginCheckIn(_, _) => s.lock == Free
    case CheckInWrite(_) => s.lock.ByCheckIn?
    case SweepMark(now, order) => s.lock == Free && s.pending == [] && Lists(order, StaleSet(s.mem, now))
    case SweepWrite(_) => s.pending != []
    case BeginDump => s.lock == Free
    case DumpWrite(a, _) => s.lock.ByDump? && a in s.lock.todo
    case Load(_) => s.lock == Free
  }

  function Wrote(online: set<string>, a: string, value: bool, ok: bool): set<string> {
    if !ok then online else if value then online + {a} else online - {a}
  }

  ghost function Next(s: System, step: Step): System
    requires Enabled(s, step)
  {
    match step
    case BeginCheckIn(a, now) =>
      if a in s.mem then s.(mem := s.mem[a := Keeper(true, now)], lock := ByCheckIn(a, 1)) else s
    case CheckInWrite(ok) =>
      s.(online := Wrote(s.online, s.lock.address, true, ok),
         lock := if ok || s.lock.attempts >= MAX_RETRIES then Free else ByCheckIn(s.lock.address, s.lock.attempts + 1))
    case SweepMark(now, order) => s.(mem := MarkStale(s.mem, now), pending := order)
    case SweepWrite(ok) => s.(online := Wrote(s.online, s.pending[0], false, ok), pending := s.pending[1..])
    case BeginDump => s.(lock := if ActiveSet(s.mem) == {} then Free else ByDump(ActiveSet(s.mem)))
    case DumpWrite(a, ok) =>
      var todo := s.lock.todo - {a};
      s.(online := Wrote(s.online, a, false, ok), lock := if todo == {} then Free else ByDump(todo))
    case Load(verified) => s.(mem := Loaded(verified))
  }

  /** Online in the database and inactive in memory: only while the sweep has yet to write it. */
  ghost predicate Agree(s: System) {
    forall a :: a in s.mem && a in s.online && !s.mem[a].active ==> a in s.pending
  }

  /** A check-in that holds the lock has already made its keeper active. */
  ghost predicate LockHolderActive(s: System) {
    s.lock.ByCheckIn? ==> s.lock.address in s.mem && s.mem[s.lock.address].active
  }

  /** Each step keeps the agreement, with two exceptions that are exactly described: a failed sweep write
      for a keeper that is still inactive, online and not listed again; and a load of a keeper whose row
      says online and which no sweep is about to write. */
  lemma StepKeepsAgreementIff(s: System, step: Step)
    requires Enabled(s, step) && Agree(s) && LockHolderActive(s)
    ensures LockHolderActive(Next(s, step))
    ensures Agree(Next(s, step)) <==>
              match step
              case SweepWrite(ok) =>
                var a := s.pending[0];
                ok || a in s.pending[1..] || a !in s.online || a !in s.mem || s.mem[a].active
              case Load(verified) => forall a :: a in verified && a in s.online ==> a in s.pending
              case _ => true
  {
  }

  ghost predicate Legal(s: System, steps: seq<Step>) {
    steps == [] || (Legal(s, steps[..|steps| - 1]) && Enabled(Run(s, steps[..|steps| - 1]), steps[|steps| - 1]))
  }

  ghost function Run(s: System, steps: seq<Step>): System {
    if steps == [] then s
    else
      var t := Run(s, steps[..|steps| - 1]);
      if Enabled(t, steps[|steps| - 1]) then Next(t, steps[|steps| - 1]) else t
  }

  /** The run's sweep writes succeed, and it loads nothing after the start. */
  predicate Smooth(steps: seq<Step>) {
    forall i :: 0 <= i < |steps| ==> !steps[i].Load? && (steps[i].SweepWrite? ==> steps[i].ok)
  }

  /** Two-copy safety: from an agreeing start, with check-ins, sweeps and dumps interleaved in any way and
      check-in and dump writes failing at will, every reachable state agrees. No step other than a load
      changes which addresses the table knows, so an address that was not loaded is never active. */
  lemma {:induction false} ReachableStatesAgree(s: System, steps: seq<Step>)
    requires Agree(s) && LockHolderActive(s) && Smooth(steps) && Legal(s, steps)
    ensures Agree(Run(s, steps)) && LockHolderActive(Run(s, steps))
    ensures Run(s, steps).mem.Keys == s.mem.Keys
  {
    if steps != [] {
      var n := |steps| - 1;
      ReachableStatesAgree(s, steps[..n]);
      StepKeepsAgreementIff(Run(s, steps[..n]), steps[n]);
    }
  }

  // ----- The other direction -----

  /** Active in memory means online in the database, but for a check-in that is still writing. */
  ghost predicate Mirror(s: System) {
    forall a :: a in s.mem && s.mem[a].active ==> a in s.online || (s.lock.ByCheckIn? && s.lock.address == a)
  }

  /** The three steps that leave a keeper active in memory and offline in the database: a sweep's write for a
      keeper that has checked in since the mark, a dump's write for an active keeper, and the last failing
      write of a check-in whose keeper is offline. */
  ghost predicate BreaksMirror(s: System, step: Step)
    requires Enabled(s, step)
  {
    match step
    case SweepWrite(ok) =>
      var a := s.pending[0];
      ok && a in s.mem && s.mem[a].active && !(s.lock.ByCheckIn? && s.lock.address == a)
    case DumpWrite(a, ok) => ok && a in s.mem && s.mem[a].active
    case CheckInWrite(ok) => !ok && s.lock.attempts >= MAX_RETRIES && s.lock.address !in s.online
    case _ => false
  }

  lemma StepKeepsMirrorIff(s: System, step: Step)
    requires Enabled(s, step) && Mirror(s) && LockHolderActive(s)
    ensures LockHolderActive(Next(s, step))
    ensures Mirror(Next(s, step)) <==> !BreaksMirror(s, step)
  {
    var t := Next(s, step);
    match step
    case SweepWrite(ok) => assert BreaksMirror(s, step) ==> s.pending[0] in t.mem && s.pending[0] !in t.online;
    case DumpWrite(a, ok) => assert BreaksMirror(s, step) ==> a in t.mem && a !in t.online;
    case CheckInWrite(ok) => assert BreaksMirror(s, step) ==> s.lock.address in t.mem && s.lock.address !in t.online;
    case _ =>
  }

  ghost predicate MirrorThroughout(s: System, steps: seq<Step>) {
    if steps == [] then Mirror(s)
    else MirrorThroughout(s, steps[..|steps| - 1]) && Mirror(Run(s, steps))
  }

  ghost predicate NeverBreaksMirror(s: System, steps: seq<Step>) {
    steps != [] ==>
      var pre, step := steps[..|steps| - 1], steps[|steps| - 1];
      NeverBreaksMirror(s, pre) && (Enabled(Run(s, pre), step) ==> !BreaksMirror(Run(s, pre), step))
  }

  lemma EndsMirroring(s: System, steps: seq<Step>)
    requires MirrorThroughout(s, steps)
    ensures Mirror(Run(s, steps))
  {
  }

  /** Over any interleaved run, loads and failures included, the two copies mirror each other all the way
      through exactly when none of its steps is one of the three. */
  lemma {:induction false} RunMirrorsIff(s: System, steps: seq<Step>)
    requires Mirror(s) && LockHolderActive(s) && Legal(s, steps)
    ensures LockHolderActive(Run(s, steps))
    ensures MirrorThroughout(s, steps) <==> NeverBreaksMirror(s, steps)
  {
    if steps != [] {
      var pre, step := steps[..|steps| - 1], steps[|steps| - 1];
      RunMirrorsIff(s, pre);
      HolderActiveStep(Run(s, pre), step);
      if MirrorThroughout(s, pre) {
        EndsMirroring(s, pre);
        StepKeepsMirrorIff(Run(s, pre), step);
      }
    }
  }

  lemma HolderActiveStep(s: System, step: Step)
    requires Enabled(s, step) && LockHolderActive(s)
    ensures LockHolderActive(Next(s, step))
  {
  }

  /** A check-in of a known keeper has three attempts at its write: its row is online after the first that
      works, and after three failures it is as before and the lock is free. */
  lemma CheckInHasThreeAttempts(s: System, a: string, now: int, ok: bool)
    requires s.lock == Free && a in s.mem
    ensures var s1 := Next(s, BeginCheckIn(a, now));
            && s1.lock != Free && s1.online == s.online
            && var s2 := Next(s1, CheckInWrite(false));
               && s2.lock != Free && s2.online == s.online
               && var s3 := Next(s2, CheckInWrite(false));
                  && s3.lock != Free && s3.online == s.online
                  && var s4 := Next(s3, CheckInWrite(ok));
                     s4.lock == Free && s4.online == if ok then s.online + {a} else s.online
  {
  }

  // ----- Dump, then load -----

  /** The writes of a dump, in the order given, all successful. */
  ghost function DumpAll(s: System, order: seq<string>): System
    requires s.lock.ByDump? && Lists(order, s.lock.todo)
    decreases |order|
  {
    if order == [] then s
    else
      var t := Next(s, DumpWrite(order[0], true));
      if t.lock.ByDump? then DumpTailLists(s, order); DumpAll(t, order[1..]) else t
  }

  lemma DumpTailLists(s: System, order: seq<string>)
    requires s.lock.ByDump? && order != [] && Lists(order, s.lock.todo)
    ensures Lists(order[1..], s.lock.todo - {order[0]})
  {
  }

  lemma {:induction false} DumpClearsTodo(s: System, order: seq<string>)
    requires s.lock.ByDump? && Lists(order, s.lock.todo) && order != []
    ensures DumpAll(s, order) == s.(online := s.online - s.lock.todo, lock := Free)
    decreases |order|
  {
    DumpTailLists(s, order);
    var t := Next(s, DumpWrite(order[0], true));
    assert order[0] in s.lock.todo;
    if t.lock.ByDump? {
      assert order[1..] != [];
      DumpClearsTodo(t, order[1..]);
      assert s.online - {order[0]} - (s.lock.todo - {order[0]}) == s.online - s.lock.todo;
    } else {
      assert s.lock.todo == {order[0]};
    }
  }

  /** Shutdown and restart: from an agreeing state with no sweep under way, a dump whose writes succeed
      leaves no known keeper online, so a load of any of them starts out in agreement. */
  lemma DumpThenLoadAgrees(s: System, order: seq<string>, verified: map<string, int>)
    requires Agree(s) && s.lock == Free && s.pending == []
    requires Lists(order, ActiveSet(s.mem)) && verified.Keys <= s.mem.Keys
    ensures var d := Next(s, BeginDump);
            var t := if d.lock == Free then d else DumpAll(d, order);
            && t.lock == Free
            && (forall a :: a in t.mem ==> a !in t.online)
            && Agree(Next(t, Load(verified)))
  {
    var d := Next(s, BeginDump);
    assert forall a :: a in s.mem ==> (a in ActiveSet(s.mem) || a !in s.online);
    if d.lock.ByDump? {
      assert order != [] by {
        var a :| a in ActiveSet(s.mem);
        assert a in order;
      }
      DumpClearsTodo(d, order);
    }
  }

  /** A run that breaks the mirror: a check-in that falls between a sweep's mark
      and its write ends up active in memory and offline in the database. */
  lemma LateSweepWriteExample()
    ensures var s := System(map["k" := Keeper(true, 0)], {"k"}, Free, []);
            var now := INACTIVITY_THRESHOLD + 1;
            var steps := [SweepMark(now, ["k"]), BeginCheckIn("k", now), CheckInWrite(true), SweepWrite(true)];
            Legal(s, steps) && Run(s, steps) == System(map["k" := Keeper(true, now)], {}, Free, [])
  {
    var s := System(map["k" := Keeper(true, 0)], {"k"}, Free, []);
    var now := INACTIVITY_THRESHOLD + 1;
    var steps := [SweepMark(now, ["k"]), BeginCheckIn("k", now), CheckInWrite(true), SweepWrite(true)];
    assert steps[..3][..2] == steps[..2] && steps[..2][..1] == steps[..1] && steps[..1][..0] == [];
    assert Legal(s, []) && Run(s, []) == s;
    assert StaleSet(s.mem, now) == {"k"};
    var s1 := System(map["k" := Keeper(false, 0)], {"k"}, Free, ["k"]);
    assert MarkStale(s.mem, now) == s1.mem;
    assert Legal(s, steps[..1]) && Run(s, steps[..1]) == s1;
    var s2 := System(map["k" := Keeper(true, now)], {"k"}, ByCheckIn("k", 1), ["k"]);
    assert s1.mem["k" := Keeper(true, now)] == s2.mem;
    assert Legal(s, steps[..2]) && Run(s, steps[..2]) == s2;
    var s3 := s2.(lock := Free);
    assert s2.online + {"k"} == s3.online;
    assert Legal(s, steps[..3]) && Run(s, steps[..3]) == s3;
    assert s3.online - {"k"} == {};
  }

  // ----- How long a keeper stays active -----

  function Sweeps(mem: Table, times: seq<int>): Table {
    if times == [] then mem else MarkStale(Sweeps(mem, times[..|times| - 1]), times[|times| - 1])
  }

  /** After any run of sweeps a keeper is active exactly when it was before and no sweep of the run came more
      than 70 seconds after its last check-in, which sweeps do not change. */
  lemma {:induction false} ActiveAfterSweepsIff(mem: Table, times: seq<int>, a: string)
    requires a in mem
    ensures var after := Sweeps(mem, times);
            && a in after && after[a].lastCheckedIn == mem[a].lastCheckedIn
            && (after[a].active <==>
                  mem[a].active && forall i :: 0 <= i < |times| ==> times[i] - mem[a].lastCheckedIn <= 70_000_000_000)
  {
    if times != [] {
      var n := |times| - 1;
      ActiveAfterSweepsIff(mem, times[..n], a);
      assert forall i :: 0 <= i < n ==> times[..n][i] == times[i];
    }
  }
}
