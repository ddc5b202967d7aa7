/** Time jobs when polls are abandoned: which slots are consumed without being handed out, in one poll and
    over a run. */
module TimeJobFaults {
  import opened Wrappers
  import opened GoNumbers
  import opened TimeJobs

  function FaultOf(faults: map<int, Fault>, id: int): Option<Fault> {
    if id in faults then Some(faults[id]) else None
  }

  /** The row's turn ends well: its slot is computed and all its writes succeed. */
  predicate Goes(rows: map<int, Job>, faults: map<int, Fault>, id: int)
    requires id in rows
  {
    Advance(rows[id], FaultOf(faults, id)).1.Some?
  }

  predicate AllGo(rows: map<int, Job>, order: seq<int>, faults: map<int, Fault>)
    requires forall id :: id in order ==> id in rows
  {
    order == [] || (AllGo(rows, order[..|order| - 1], faults) && Goes(rows, faults, order[|order| - 1]))
  }

  lemma {:induction false} AllGoPrefix(rows: map<int, Job>, order: seq<int>, faults: map<int, Fault>, i: nat)
    requires i <= |order| && forall id :: id in order ==> id in rows
    ensures AllGo(rows, order, faults) ==> AllGo(rows, order[..i], faults)
  {
    if i < |order| {
      AllGoPrefix(rows, order[..|order| - 1], faults, i);
      assert order[..|order| - 1][..i] == order[..i];
    } else {
      assert order[..i] == order;
    }
  }

  ghost predicate Distinct(order: seq<int>) {
    forall i, k :: 0 <= i < k < |order| ==> order[i] != order[k]
  }

  // ----- One poll -----

  lemma {:induction false} NotListed(rows: map<int, Job>, order: seq<int>, faults: map<int, Fault>, id: int)
    requires id in rows && id !in order && forall k :: k in order ==> k in rows
    ensures var (after, tasks) := AdvanceAll(rows, order, faults);
            after[id] == rows[id] && (tasks.Some? ==> SlotsOf(id, tasks.value) == [])
  {
    if order != [] {
      NotListed(rows, order[..|order| - 1], faults, id);
    }
  }

  /** A list of rows is gone through to its end exactly when each of them, as it is before the poll, goes. */
  lemma {:induction false} AllGoIff(rows: map<int, Job>, order: seq<int>, faults: map<int, Fault>)
    requires Distinct(order) && forall k :: k in order ==> k in rows
    ensures AdvanceAll(rows, order, faults).1.Some? <==> AllGo(rows, order, faults)
  {
    if order != [] {
      AllGoIff(rows, order[..|order| - 1], faults);
      NotListed(rows, order[..|order| - 1], faults, order[|order| - 1]);
    }
  }

  /** What becomes of the row at position i: it has its turn, on its own value, when all rows before it go. */
  lemma {:induction false} RowAt(rows: map<int, Job>, order: seq<int>, faults: map<int, Fault>, i: nat)
    requires Distinct(order) && i < |order| && forall k :: k in order ==> k in rows
    ensures var id := order[i];
            var (after, tasks) := AdvanceAll(rows, order, faults);
            && after[id] == (if !AllGo(rows, order[..i], faults) then rows[id]
                             else Advance(rows[id], FaultOf(faults, id)).0)
            && (tasks.Some? ==> SlotsOf(id, tasks.value) == [rows[id].next])
  {
    var n := |order| - 1;
    if i < n {
      RowAt(rows, order[..n], faults, i);
      assert order[..n][..i] == order[..i];
      LastTurnSpares(rows, order, faults, order[i]);
    } else {
      LastRow(rows, order, faults);
    }
  }

  /** The last row's turn leaves the others, and the tasks for them, alone. */
  lemma LastTurnSpares(rows: map<int, Job>, order: seq<int>, faults: map<int, Fault>, id: int)
    requires order != [] && id in rows && id != order[|order| - 1] && forall k :: k in order ==> k in rows
    ensures var (before, some) := AdvanceAll(rows, order[..|order| - 1], faults);
            var (after, tasks) := AdvanceAll(rows, order, faults);
            && after[id] == before[id]
            && (tasks.Some? ==> some.Some? && SlotsOf(id, tasks.value) == SlotsOf(id, some.value))
  {
    var (_, some) := AdvanceAll(rows, order[..|order| - 1], faults);
    var (_, tasks) := AdvanceAll(rows, order, faults);
    assert tasks.Some? ==> tasks.value[..|tasks.value| - 1] == some.value;
  }

  lemma LastRow(rows: map<int, Job>, order: seq<int>, faults: map<int, Fault>)
    requires order != [] && Distinct(order) && forall k :: k in order ==> k in rows
    ensures var n := |order| - 1;
            var id := order[n];
            var (after, tasks) := AdvanceAll(rows, order, faults);
            && after[id] == (if !AllGo(rows, order[..n], faults) then rows[id]
                             else Advance(rows[id], FaultOf(faults, id)).0)
            && (tasks.Some? ==> SlotsOf(id, tasks.value) == [rows[id].next])
  {
    var n := |order| - 1;
    var id := order[n];
    var (_, some) := AdvanceAll(rows, order[..n], faults);
    AllGoIff(rows, order[..n], faults);
    NotListed(rows, order[..n], faults, id);
    HandsOutNext(rows[id], FaultOf(faults, id));
    if some.Some? {
      SlotsAppend(id, some.value, Task(id, rows[id].next));
    }
  }

  lemma HandsOutNext(j: Job, fault: Option<Fault>)
    ensures Advance(j, fault).1.Some? ==> Advance(j, fault).1.value == j.next
  {
  }

  lemma SlotsAppend(id: int, tasks: seq<Task>, t: Task)
    ensures SlotsOf(id, tasks + [t]) == SlotsOf(id, tasks) + if t.job == id then [t.slot] else []
  {
    assert (tasks + [t])[..|tasks|] == tasks;
  }

  /** The query still finds the slot: the job is active and its cursor stands there. */
  predicate Offers(j: Job, slot: int) {
    j.active && j.next == slot
  }

  /** A turn that goes well takes the slot away from later queries: it moves the cursor, or deactivates. */
  predicate Moves(j: Job) {
    NextOf(j).At? && (NextOf(j).time != j.next || NextOf(j).time > j.expiration)
  }

  lemma TurnConsumesIff(j: Job, fault: Option<Fault>)
    requires j.active
    ensures !Offers(Advance(j, fault).0, j.next) <==> Advance(j, fault).1.Some? && Moves(j)
  {
  }

  /** Which it always does for an interval job whose interval does not overflow. */
  lemma RepeatingMoves(j: Job)
    requires Repeating(j)
    ensures Moves(j)
  {
    NextTimeIsOneIntervalOn(j.next, j.scheduleType, j.interval, j.cron, j.specific);
  }

  /** Which slots a poll loses, for any result order and any failures: the slot of the row at position i is
      consumed and not handed out exactly when the row is read, it and all rows before it go, and the poll is
      abandoned after it, by a later row or by a failure to read on. */
  lemma LosesSlotIff(rows: map<int, Job>, p: Poll, faults: map<int, Fault>, broken: Option<nat>, i: nat)
    requires IsResult(rows, p) && i < |p.order|
    ensures var id := p.order[i];
            var (after, tasks) := PollAll(rows, p.order, faults, broken);
            var handedOut := tasks.Some? && rows[id].next in SlotsOf(id, tasks.value);
            && id in rows
            && (!Offers(after[id], rows[id].next) && !handedOut <==>
                  && (broken == None || i < broken.value) && AllGo(rows, p.order[..i + 1], faults) && Moves(rows[id])
                  && (broken.Some? || !AllGo(rows, p.order, faults)))
  {
    var id := p.order[i];
    assert id in p.order && Due(rows[id], p.now, p.lookAhead);
    var read := ReadBefore(p.order, broken);
    assert forall k :: k in read ==> k in p.order;
    TurnConsumesIff(rows[id], FaultOf(faults, id));
    if i < |read| {
      assert read[i] == id && read[..i] == p.order[..i] && p.order[..i + 1][..i] == p.order[..i];
      RowAt(rows, read, faults, i);
      AllGoIff(rows, read, faults);
      AllGoPrefix(rows, p.order, faults, i + 1);
    } else {
      NotListed(rows, read, faults, id);
    }
  }

  // ----- One job over a run -----

  /** How a poll goes for one job: whether its turn comes, which store call of its turn fails, and whether the
      poll is completed. */
  datatype Turn = Turn(now: int, lookAhead: int, reached: bool, fault: Option<Fault>, completed: bool)

  /** The job after the poll, and, if its slot was consumed, whether it was handed out. */
  function TurnStep(j: Job, t: Turn): (Job, Option<bool>) {
    if !Due(j, t.now, t.lookAhead) || !t.reached then (j, None)
    else
      var (j1, slot) := Advance(j, t.fault);
      (j1, if slot == None then None else Some(t.completed))
  }

  /** The job after a run, and for each slot it consumed, in order, whether it was handed out. */
  function TurnRun(j: Job, turns: seq<Turn>): (Job, seq<bool>) {
    if turns == [] then (j, [])
    else
      var (j1, log) := TurnRun(j, turns[..|turns| - 1]);
      var (j2, out) := TurnStep(j1, turns[|turns| - 1]);
      (j2, if out == None then log else log + [out.value])
  }

  /** The consumed slots that were handed out. */
  function HandedOut(first: int, step: int, log: seq<bool>): seq<int> {
    if log == [] then []
    else
      var n := |log| - 1;
      HandedOut(first, step, log[..n]) + if log[n] then [Slot(first, step, n)] else []
  }

  /** The same job but for its cursor and its completed mark, which a half-done last turn leaves behind. */
  predicate SameBut(r: Job, j: Job, next: int) {
    r == j.(next := next, completed := r.completed)
  }

  lemma TurnFromSlot(j: Job, r: Job, k: nat, t: Turn)
    requires Repeating(j) && j.active && k < SlotCount(j.next, j.interval * SECOND, j.expiration)
    requires SameBut(r, j, Slot(j.next, j.interval * SECOND, k))
    ensures var step := j.interval * SECOND;
            var (q, out) := TurnStep(r, t);
            && (out == None ==> SameBut(q, j, r.next))
            && (out.Some? ==> Due(r, t.now, t.lookAhead) && out.value == t.completed)
            && (out.Some? && k + 1 < SlotCount(j.next, step, j.expiration) ==> SameBut(q, j, Slot(j.next, step, k + 1)))
            && (out.Some? && k + 1 >= SlotCount(j.next, step, j.expiration) ==> !q.active && q.completed)
  {
    var step := j.interval * SECOND;
    NextTimeIsOneIntervalOn(r.next, r.scheduleType, r.interval, r.cron, r.specific);
    SlotNext(j.next, step, k);
    if j.next <= j.expiration {
      SlotCountBounds(j.next, step, j.expiration, k + 1);
    } else {
      assert Slot(j.next, step, 1) == j.next + step;
    }
  }

  /** The consumption law, for any poll times, failures and abandoned polls: a job's slots are consumed in
      order, first, first + step, ..., each once, until the last that fits; then it is completed and inactive. */
  lemma {:induction false} ConsumptionLaw(j: Job, turns: seq<Turn>)
    requires Repeating(j) && j.active
    ensures var (r, log) := TurnRun(j, turns);
            var step := j.interval * SECOND;
            && |log| <= SlotCount(j.next, step, j.expiration)
            && (r.active <==> |log| < SlotCount(j.next, step, j.expiration))
            && (r.active ==> SameBut(r, j, Slot(j.next, step, |log|)))
            && (!r.active ==> r.completed)
  {
    var step := j.interval * SECOND;
    if turns != [] {
      var n := |turns| - 1;
      ConsumptionLaw(j, turns[..n]);
      var (r, log) := TurnRun(j, turns[..n]);
      if r.active {
        TurnFromSlot(j, r, |log|, turns[n]);
      }
    } else {
      assert Slot(j.next, step, 0) == j.next;
      if j.next <= j.expiration {
        SlotCountBounds(j.next, step, j.expiration, 0);
      }
    }
  }

  /** The slots handed out are a strictly increasing part of the progression: slot k is among them exactly
      when it has been consumed, by a poll that was completed. */
  lemma {:induction false} HandedOutIff(first: int, step: int, log: seq<bool>, k: nat)
    requires step > 0
    ensures Slot(first, step, k) in HandedOut(first, step, log) <==> k < |log| && log[k]
  {
    if log != [] {
      var n := |log| - 1;
      HandedOutIff(first, step, log[..n], k);
      SlotsAscend(first, step, n, k);
      SlotsAscend(first, step, k, n);
    }
  }

  lemma {:induction false} HandedOutAscends(first: int, step: int, log: seq<bool>)
    requires step > 0
    ensures forall x :: x in HandedOut(first, step, log) ==> x < Slot(first, step, |log|)
    ensures Ascends(HandedOut(first, step, log))
  {
    if log != [] {
      var n := |log| - 1;
      var pre := HandedOut(first, step, log[..n]);
      HandedOutAscends(first, step, log[..n]);
      SlotsAscend(first, step, n, |log|);
      assert forall i :: 0 <= i < |pre| ==> pre[i] in pre;
    }
  }

  ghost predicate Ascends(s: seq<int>) {
    forall i, k :: 0 <= i < k < |s| ==> s[i] < s[k]
  }

  lemma {:induction false} SlotsAscend(first: int, step: int, k: nat, m: nat)
    requires step > 0
    ensures k < m ==> Slot(first, step, k) < Slot(first, step, m)
    decreases m
  {
    if k < m {
      SlotNext(first, step, m - 1);
      SlotsAscend(first, step, k, m - 1);
    }
  }

  lemma SlotNext(first: int, step: int, k: nat)
    ensures Slot(first, step, k + 1) == Slot(first, step, k) + step
  {
    assert (k + 1) * step == k * step + step;
  }

  /** In a run whose last poll lies after the expiration, a slot that fits before it is missing exactly when
      the poll that consumed it was abandoned, or it was not consumed and the job is behind. */
  lemma MissingSlotIff(j: Job, turns: seq<Turn>, k: nat)
    requires Repeating(j) && j.active && j.next <= j.expiration
    requires turns != [] && turns[|turns| - 1].now > j.expiration
    requires Slot(j.next, j.interval * SECOND, k) <= j.expiration
    ensures var (r, log) := TurnRun(j, turns);
            Slot(j.next, j.interval * SECOND, k) !in HandedOut(j.next, j.interval * SECOND, log) <==>
              || (exists i :: 0 <= i < |turns| && ConsumedAt(j, turns, k, i) && !turns[i].completed)
              || (k >= |log| && Behind(r, turns[|turns| - 1].now))
  {
    var step := j.interval * SECOND;
    var (r, log) := TurnRun(j, turns);
    ConsumptionLaw(j, turns);
    HandedOutIff(j.next, step, log, k);
    SlotCountBounds(j.next, step, j.expiration, k);
    if k < |log| {
      var i := ConsumingPoll(j, turns, k);
    } else {
      SlotCountBounds(j.next, step, j.expiration, |log|);
    }
    forall i: nat | i < |turns| && ConsumedAt(j, turns, k, i) ensures k < |log| && log[k] == turns[i].completed {
      ConsumedLog(j, turns, k, i);
    }
  }

  /** Poll i of the run is the one that consumes slot k. */
  ghost predicate ConsumedAt(j: Job, turns: seq<Turn>, k: nat, i: nat)
    requires i < |turns|
  {
    |TurnRun(j, turns[..i]).1| == k && |TurnRun(j, turns[..i + 1]).1| == k + 1
  }

  lemma {:induction false} ConsumingPoll(j: Job, turns: seq<Turn>, k: nat) returns (i: nat)
    requires k < |TurnRun(j, turns).1|
    ensures i < |turns| && ConsumedAt(j, turns, k, i) && turns[i].completed == TurnRun(j, turns).1[k]
  {
    var n := |turns| - 1;
    var pre := turns[..n];
    if k < |TurnRun(j, pre).1| {
      i := ConsumingPoll(j, pre, k);
      assert pre[..i] == turns[..i] && pre[..i + 1] == turns[..i + 1];
    } else {
      i := n;
      assert turns[..n + 1] == turns;
    }
  }

  lemma {:induction false} LogGrows(j: Job, turns: seq<Turn>, i: nat)
    requires i <= |turns|
    ensures TurnRun(j, turns[..i]).1 <= TurnRun(j, turns).1
  {
    if i < |turns| {
      LogGrows(j, turns[..|turns| - 1], i);
      assert turns[..|turns| - 1][..i] == turns[..i];
    } else {
      assert turns[..i] == turns;
    }
  }

  lemma LastEntry(j: Job, turns: seq<Turn>)
    requires turns != [] && |TurnRun(j, turns).1| > |TurnRun(j, turns[..|turns| - 1]).1|
    ensures TurnRun(j, turns).1[|TurnRun(j, turns).1| - 1] == turns[|turns| - 1].completed
  {
  }

  lemma ConsumedLog(j: Job, turns: seq<Turn>, k: nat, i: nat)
    requires i < |turns| && ConsumedAt(j, turns, k, i)
    ensures k < |TurnRun(j, turns).1| && TurnRun(j, turns).1[k] == turns[i].completed
  {
    assert turns[..i + 1][..i] == turns[..i];
    LastEntry(j, turns[..i + 1]);
    LogGrows(j, turns, i + 1);
  }

  // ----- The table over a run -----

  datatype FaultyPoll = FaultyPoll(poll: Poll, faults: map<int, Fault>, broken: Option<nat>)

  /** The table after a run of polls with failures, and all tasks handed out. */
  ghost function FaultyRun(rows: map<int, Job>, polls: seq<FaultyPoll>): (r: (map<int, Job>, seq<Task>))
    ensures r.0.Keys == rows.Keys
  {
    if polls == [] then (rows, [])
    else
      var f := polls[|polls| - 1];
      var (rows1, tasks) := FaultyRun(rows, polls[..|polls| - 1]);
      if !IsResult(rows1, f.poll) then (rows1, tasks)
      else
        var (rows2, more) := PollAll(rows1, f.poll.order, f.faults, f.broken);
        (rows2, if more == None then tasks else tasks + more.value)
  }

  /** The job's turn comes: it is read, and all rows before it go. */
  ghost predicate Reached(rows: map<int, Job>, read: seq<int>, faults: map<int, Fault>, id: int)
    requires forall k :: k in read ==> k in rows
  {
    exists i :: 0 <= i < |read| && read[i] == id && AllGo(rows, read[..i], faults)
  }

  /** How a poll over a table goes for one job. */
  ghost function TurnOf(rows: map<int, Job>, f: FaultyPoll, id: int): Turn
    requires IsResult(rows, f.poll)
  {
    var read := ReadBefore(f.poll.order, f.broken);
    Turn(f.poll.now, f.poll.lookAhead, Reached(rows, read, f.faults, id),
         FaultOf(f.faults, id), PollAll(rows, f.poll.order, f.faults, f.broken).1.Some?)
  }

  /** The turns of one job over a run; a poll whose result is not that of the query does not occur. */
  ghost function TurnsOf(rows: map<int, Job>, polls: seq<FaultyPoll>, id: int): seq<Turn> {
    if polls == [] then []
    else
      var pre, f := polls[..|polls| - 1], polls[|polls| - 1];
      var rows1 := FaultyRun(rows, pre).0;
      TurnsOf(rows, pre, id) + if IsResult(rows1, f.poll) then [TurnOf(rows1, f, id)] else []
  }

  lemma ReadRow(rows: map<int, Job>, read: seq<int>, faults: map<int, Fault>, id: int)
    requires Distinct(read) && (forall k :: k in read ==> k in rows) && id in rows
    ensures var (after, tasks) := AdvanceAll(rows, read, faults);
            && (id !in read ==> !Reached(rows, read, faults, id))
            && after[id] == (if !Reached(rows, read, faults, id) then rows[id]
                             else Advance(rows[id], FaultOf(faults, id)).0)
            && (tasks.Some? ==> SlotsOf(id, tasks.value) == if id in read then [rows[id].next] else [])
            && (tasks.Some? && id in read ==> Reached(rows, read, faults, id) && Goes(rows, faults, id))
  {
    AllGoIff(rows, read, faults);
    if id in read {
      var i :| 0 <= i < |read| && read[i] == id;
      RowAt(rows, read, faults, i);
      AllGoPrefix(rows, read, faults, i);
      AllGoPrefix(rows, read, faults, i + 1);
      assert read[..i + 1][..i] == read[..i];
    } else {
      NotListed(rows, read, faults, id);
    }
  }

  /** A poll with failures does to one job what the job's turn says. */
  lemma PollIsTurn(rows: map<int, Job>, f: FaultyPoll, id: int)
    requires IsResult(rows, f.poll) && id in rows
    ensures var (after, tasks) := PollAll(rows, f.poll.order, f.faults, f.broken);
            var (j, out) := TurnStep(rows[id], TurnOf(rows, f, id));
            && after[id] == j
            && (tasks.Some? ==> SlotsOf(id, tasks.value) == if out == None then [] else [rows[id].next])
            && (out.Some? ==> out.value == tasks.Some?)
  {
    var read := ReadBefore(f.poll.order, f.broken);
    assert forall k :: k in read ==> k in f.poll.order;
    ReadRow(rows, read, f.faults, id);
    assert f.broken == None ==> read == f.poll.order;
  }

  /** Over any run of polls, with failures anywhere, each repeating job's row is that of its own turns, and the
      slots handed out for it are the consumed ones whose poll was completed. */
  lemma {:induction false} FaultyRunIsPointwise(rows: map<int, Job>, polls: seq<FaultyPoll>, id: int)
    requires id in rows && Repeating(rows[id]) && rows[id].active
    ensures var (j, log) := TurnRun(rows[id], TurnsOf(rows, polls, id));
            && FaultyRun(rows, polls).0[id] == j
            && SlotsOf(id, FaultyRun(rows, polls).1) == HandedOut(rows[id].next, rows[id].interval * SECOND, log)
  {
    if polls != [] {
      var pre, f := polls[..|polls| - 1], polls[|polls| - 1];
      FaultyRunIsPointwise(rows, pre, id);
      var rows1 := FaultyRun(rows, pre).0;
      if IsResult(rows1, f.poll) {
        LastTurn(rows, polls, id);
      } else {
        assert TurnsOf(rows, polls, id) == TurnsOf(rows, pre, id);
      }
    }
  }

  lemma LastTurn(rows: map<int, Job>, polls: seq<FaultyPoll>, id: int)
    requires id in rows && Repeating(rows[id]) && rows[id].active && polls != []
    requires var pre := polls[..|polls| - 1];
             var (j, log) := TurnRun(rows[id], TurnsOf(rows, pre, id));
             && IsResult(FaultyRun(rows, pre).0, polls[|polls| - 1].poll)
             && FaultyRun(rows, pre).0[id] == j
             && SlotsOf(id, FaultyRun(rows, pre).1) == HandedOut(rows[id].next, rows[id].interval * SECOND, log)
    ensures var (j, log) := TurnRun(rows[id], TurnsOf(rows, polls, id));
            && FaultyRun(rows, polls).0[id] == j
            && SlotsOf(id, FaultyRun(rows, polls).1) == HandedOut(rows[id].next, rows[id].interval * SECOND, log)
  {
    var pre, f := polls[..|polls| - 1], polls[|polls| - 1];
    var rows1, tasks := FaultyRun(rows, pre).0, FaultyRun(rows, pre).1;
    var turns, turn := TurnsOf(rows, pre, id), TurnOf(rows1, f, id);
    var more := PollAll(rows1, f.poll.order, f.faults, f.broken).1;
    PollIsTurn(rows1, f, id);
    HandedOutNext(rows[id], turns, turn);
    assert TurnsOf(rows, polls, id) == turns + [turn];
    if more.Some? {
      SlotsConcat(id, tasks, more.value);
    }
  }

  lemma HandedOutNext(j: Job, turns: seq<Turn>, turn: Turn)
    requires Repeating(j) && j.active
    ensures var (r, log) := TurnRun(j, turns);
            var (q, out) := TurnStep(r, turn);
            var step := j.interval * SECOND;
            && TurnRun(j, turns + [turn]).0 == q
            && HandedOut(j.next, step, TurnRun(j, turns + [turn]).1) ==
               HandedOut(j.next, step, log) + if out == Some(true) then [r.next] else []
  {
    var log, out := TurnRun(j, turns).1, TurnStep(TurnRun(j, turns).0, turn).1;
    ConsumptionLaw(j, turns);
    assert (turns + [turn])[..|turns|] == turns;
    if out.Some? {
      assert (log + [out.value])[..|log|] == log;
    }
  }
}
