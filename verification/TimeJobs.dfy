/** Time-based jobs: every poll of the scheduler hands out the jobs due soon and moves each one's cursor on
    by one interval, until the next slot would lie beyond the expiration time. Times are in nanoseconds. */
module TimeJobs {
  import opened Wrappers
  import opened GoNumbers

  const HALF := 0x8000_0000_0000_0000
  const MAX_INTERVAL := 9_223_372_036

  datatype NextTime =
    | At(time: int)
    | InvalidInterval | CronMissing | CronUnsupported | SpecificMissing | SpecificUnsupported | UnknownType

  /** A Go int64 holding x. */
  function Wrap64(x: int): int {
    (x + HALF) % WORD - HALF
  }

  function CalculateNextExecutionTime(current: int, scheduleType: string, timeInterval: int,
                                      cron: string, specific: string): NextTime {
    if scheduleType == "interval" then
      if timeInterval <= 0 then InvalidInterval else At(current + Wrap64(timeInterval * SECOND))
    else if scheduleType == "cron" then
      if cron == "" then CronMissing else CronUnsupported
    else if scheduleType == "specific" then
      if specific == "" then SpecificMissing else SpecificUnsupported
    else UnknownType
  }

  /** Only interval schedules with a positive interval have a next time, and it is one interval on exactly
      when the nanosecond count of the interval fits a signed 64-bit integer. */
  lemma NextTimeIsOneIntervalOn(current: int, scheduleType: string, timeInterval: int, cron: string, specific: string)
    requires -HALF <= timeInterval < HALF
    ensures var r := CalculateNextExecutionTime(current, scheduleType, timeInterval, cron, specific);
            && (r.At? <==> scheduleType == "interval" && timeInterval > 0)
            && (r == At(current + timeInterval * SECOND) <==>
                scheduleType == "interval" && 0 < timeInterval <= MAX_INTERVAL)
  {
  }

  /** A row of time_job_data. */
  datatype Job = Job(next: int, expiration: int, interval: int, scheduleType: string, cron: string, specific: string,
                     active: bool, completed: bool)

  /** One poll: the clock, the look-ahead limit, and the rows the query returns, in its order. */
  datatype Poll = Poll(now: int, lookAhead: int, order: seq<int>)

  /** Which store call fails for a row: the IsImua read, or the first, second or third write. */
  datatype Fault = Read | Write1 | Write2 | Write3

  datatype Task = Task(job: int, slot: int)

  function NextOf(j: Job): NextTime {
    CalculateNextExecutionTime(j.next, j.scheduleType, j.interval, j.cron, j.specific)
  }

  /** The WHERE clause of the query. */
  predicate Due(j: Job, now: int, lookAhead: int) {
    now <= j.next <= lookAhead && j.active
  }

  ghost predicate IsResult(rows: map<int, Job>, p: Poll) {
    && (forall i, k :: 0 <= i < k < |p.order| ==> p.order[i] != p.order[k])
    && (forall id :: id in p.order <==> id in rows && Due(rows[id], p.now, p.lookAhead))
  }

  /** The row after its turn in the loop, and the slot handed out; None when the poll is abandoned there. */
  function Advance(j: Job, fault: Option<Fault>): (Job, Option<int>) {
    if fault == Some(Read) || !NextOf(j).At? then (j, None)
    else if NextOf(j).time > j.expiration then
      match fault
      case Some(Write1) => (j, None)
      case Some(Write2) => (j.(completed := true), None)
      case Some(Write3) => (j.(completed := true), None)
      case _ => (j.(completed := true, active := false), Some(j.next))
    else if fault == Some(Write1) then (j, None)
    else (j.(next := NextOf(j).time), Some(j.next))
  }

  /** The table after the first rows of a result, and the tasks collected; None once the poll is abandoned,
      which also drops the tasks collected before. */
  function AdvanceAll(rows: map<int, Job>, order: seq<int>, faults: map<int, Fault>): (map<int, Job>, Option<seq<Task>>)
    requires forall id :: id in order ==> id in rows
    ensures AdvanceAll(rows, order, faults).0.Keys == rows.Keys
  {
    if order == [] then (rows, Some([]))
    else
      var n := |order| - 1;
      var (rows1, tasks) := AdvanceAll(rows, order[..n], faults);
      if tasks == None then (rows1, None)
      else
        var id := order[n];
        var (j, slot) := Advance(rows1[id], if id in faults then Some(faults[id]) else None);
        (rows1[id := j], if slot == None then None else Some(tasks.value + [Task(id, slot.value)]))
  }

  lemma AdvanceOne(rows: map<int, Job>, order: seq<int>, i: nat, faults: map<int, Fault>)
    requires i < |order| && forall id :: id in order ==> id in rows
    ensures var (rows1, tasks) := AdvanceAll(rows, order[..i], faults);
            tasks.Some? ==>
              var id := order[i];
              var (j, slot) := Advance(rows1[id], if id in faults then Some(faults[id]) else None);
              AdvanceAll(rows, order[..i + 1], faults) ==
              (rows1[id := j], if slot == None then None else Some(tasks.value + [Task(id, slot.value)]))
  {
    assert order[..i + 1][..i] == order[..i];
  }

  /** The rows of a result that are read. */
  function ReadBefore(order: seq<int>, broken: Option<nat>): seq<int> {
    if broken.Some? && broken.value < |order| then order[..broken.value] else order
  }

  /** A whole poll: a failure to read the result to its end abandons the poll after the rows before it, or
      after all of them, have been advanced. */
  function PollAll(rows: map<int, Job>, order: seq<int>, faults: map<int, Fault>, broken: Option<nat>)
    : (map<int, Job>, Option<seq<Task>>)
    requires forall id :: id in order ==> id in rows
  {
    var (rows1, tasks) := AdvanceAll(rows, ReadBefore(order, broken), faults);
    (rows1, if broken.Some? then None else tasks)
  }

  class TimeJobRepository {
    var rows: map<int, Job>

    constructor (rows: map<int, Job>)
      ensures this.rows == rows
    {
      this.rows := rows;
    }

    /** `broken` is the number of rows after which reading the result fails, which Close reports at the end. */
    method GetTimeJobsByNextExecutionTimestamp(p: Poll, faults: map<int, Fault>, broken: Option<nat>)
      returns (tasks: Option<seq<Task>>)
      requires IsResult(rows, p)
      modifies this
      ensures (rows, tasks) == PollAll(old(rows), p.order, faults, broken)
    {
      tasks := ScanRows(ReadBefore(p.order, broken), faults);
      if broken.Some? {
        return None;
      }
    }

    /** The scan loop, over the rows that can be read. */
    method ScanRows(order: seq<int>, faults: map<int, Fault>) returns (tasks: Option<seq<Task>>)
      requires forall id :: id in order ==> id in rows
      modifies this
      ensures (rows, tasks) == AdvanceAll(old(rows), order, faults)
    {
      var timeJobs: seq<Task> := [];
      for i := 0 to |order|
        invariant rows.Keys == old(rows).Keys
        invariant (rows, Some(timeJobs)) == AdvanceAll(old(rows), order[..i], faults)
      {
        AdvanceOne(old(rows), order, i, faults);
        AbandonedStays(old(rows), order, i + 1, faults);
        var id := order[i];
        assert id in order;
        var slot := AdvanceRow(id, if id in faults then Some(faults[id]) else None);
        if slot == None {
          return None;
        }
        timeJobs := timeJobs + [Task(id, slot.value)];
      }
      assert order[..|order|] == order;
      return Some(timeJobs);
    }

    /** The loop body: read, compute, write, in that order, stopping at the first failure. */
    method AdvanceRow(id: int, fault: Option<Fault>) returns (slot: Option<int>)
      requires id in rows
      modifies this
      ensures rows == old(rows)[id := Advance(old(rows)[id], fault).0]
      ensures slot == Advance(old(rows)[id], fault).1
      ensures slot.Some? ==> slot.value == old(rows)[id].next
      ensures slot == None && NextOf(old(rows)[id]).At? && (fault == Some(Write2) || fault == Some(Write3)) ==>
                rows == old(rows)[id := old(rows)[id].(completed := true)]
    {
      var job := rows[id];
      assert rows == rows[id := job];
      if fault == Some(Read) {
        return None;
      }
      var next := NextOf(job);
      if !next.At? {
        return None;
      }
      if next.time > job.expiration {
        var completed := CompleteTimeJob(id, fault == Some(Write1), fault == Some(Write2));
        if !completed || fault == Some(Write3) {
          return None;
        }
        rows := rows[id := rows[id].(active := false)];
        assert rows == old(rows)[id := job.(completed := true, active := false)];
      } else {
        if fault == Some(Write1) {
          return None;
        }
        rows := rows[id := job.(next := next.time)];
      }
      return Some(job.next);
    }

    /** Marks the row completed, then the job_data row, which is another table. */
    method CompleteTimeJob(id: int, rowFails: bool, jobDataFails: bool) returns (ok: bool)
      requires id in rows
      modifies this
      ensures rows == if rowFails then old(rows) else old(rows)[id := old(rows)[id].(completed := true)]
      ensures ok == (!rowFails && !jobDataFails)
    {
      if rowFails {
        return false;
      }
      rows := rows[id := rows[id].(completed := true)];
      return !jobDataFails;
    }
  }

  /** A poll abandoned at row i - 1 writes nothing after it. */
  lemma {:induction false} AbandonedStays(rows: map<int, Job>, order: seq<int>, i: nat, faults: map<int, Fault>)
    requires i <= |order| && forall id :: id in order ==> id in rows
    ensures AdvanceAll(rows, order[..i], faults).1 == None ==>
              AdvanceAll(rows, order, faults) == AdvanceAll(rows, order[..i], faults)
    decreases |order|
  {
    if i < |order| {
      var n := |order| - 1;
      assert order[..n][..i] == order[..i];
      AbandonedStays(rows, order[..n], i, faults);
    } else {
      assert order[..i] == order;
    }
  }

  // ----- One job -----

  /** What a fault-free poll does to one job, and the slot it hands out for it. */
  function JobStep(j: Job, now: int, lookAhead: int): (Job, Option<int>) {
    if Due(j, now, lookAhead) then Advance(j, None) else (j, None)
  }

  /** The slot task lists hand out for one job. */
  function SlotsOf(id: int, tasks: seq<Task>): seq<int> {
    if tasks == [] then []
    else
      var n := |tasks| - 1;
      SlotsOf(id, tasks[..n]) + if tasks[n].job == id then [tasks[n].slot] else []
  }

  lemma {:induction false} RowsBeforeTurn(rows: map<int, Job>, order: seq<int>, id: int)
    requires forall k :: k in order ==> k in rows
    requires forall i, k :: 0 <= i < k < |order| ==> order[i] != order[k]
    requires id in rows && AdvanceAll(rows, order, map[]).1.Some?
    ensures var (after, tasks) := AdvanceAll(rows, order, map[]);
            && (id in order ==>
                  && after[id] == Advance(rows[id], None).0
                  && Advance(rows[id], None).1.Some?
                  && SlotsOf(id, tasks.value) == [Advance(rows[id], None).1.value])
            && (id !in order ==> after[id] == rows[id] && SlotsOf(id, tasks.value) == [])
  {
    if order != [] {
      var n := |order| - 1;
      assert order == order[..n] + [order[n]];
      RowsBeforeTurn(rows, order[..n], id);
      if id == order[n] {
        assert id !in order[..n];
      } else {
        RowsBeforeTurn(rows, order[..n], order[n]);
      }
    }
  }

  /** A poll that succeeds treats every job as if it were alone. */
  lemma PollIsPointwise(rows: map<int, Job>, p: Poll, id: int)
    requires IsResult(rows, p) && id in rows
    requires AdvanceAll(rows, p.order, map[]).1.Some?
    ensures var (after, tasks) := AdvanceAll(rows, p.order, map[]);
            var (j, slot) := JobStep(rows[id], p.now, p.lookAhead);
            after[id] == j && SlotsOf(id, tasks.value) == if slot == None then [] else [slot.value]
  {
    RowsBeforeTurn(rows, p.order, id);
  }

  /** A successful poll hands out the slot of every active job whose slot lies from the clock to the look-ahead
      limit, and no other slot. */
  lemma SlotIsDue(rows: map<int, Job>, p: Poll, id: int)
    requires IsResult(rows, p) && id in rows
    requires AdvanceAll(rows, p.order, map[]).1.Some?
    ensures SlotsOf(id, AdvanceAll(rows, p.order, map[]).1.value) ==
            if rows[id].active && p.now <= rows[id].next <= p.lookAhead then [rows[id].next] else []
  {
    RowsBeforeTurn(rows, p.order, id);
  }

  /** Without store failures a poll succeeds exactly when every due job has a next time: one due cron job
      makes the poll hand out nothing. */
  lemma PollSucceedsIff(rows: map<int, Job>, p: Poll)
    requires IsResult(rows, p)
    ensures AdvanceAll(rows, p.order, map[]).1.Some? <==>
              forall id :: id in rows && Due(rows[id], p.now, p.lookAhead) ==> NextOf(rows[id]).At?
  {
    PrefixSucceedsIff(rows, p.order);
  }

  lemma AdvanceSucceedsIff(j: Job)
    ensures Advance(j, None).1.Some? <==> NextOf(j).At?
  {
  }

  lemma {:induction false} PrefixSucceedsIff(rows: map<int, Job>, order: seq<int>)
    requires forall k :: k in order ==> k in rows
    requires forall i, k :: 0 <= i < k < |order| ==> order[i] != order[k]
    ensures AdvanceAll(rows, order, map[]).1.Some? <==> forall id :: id in order ==> NextOf(rows[id]).At?
  {
    if order != [] {
      var n := |order| - 1;
      var pre, last := order[..n], order[n];
      PrefixSucceedsIff(rows, pre);
      assert forall id :: id in order <==> id in pre || id == last;
      var (rows1, tasks) := AdvanceAll(rows, pre, map[]);
      if tasks.Some? {
        RowsBeforeTurn(rows, pre, last);
        assert last !in pre;
        assert rows1[last] == rows[last];
        AdvanceSucceedsIff(rows[last]);
      }
    }
  }

  /** The slot of a job that came before the failing one is lost: its cursor has moved on, and nothing was
      handed out. */
  lemma AbandonedPollLosesSlot()
    ensures var good := Job(10, 100 * SECOND, 1, "interval", "", "", true, false);
            var cron := Job(10, 100 * SECOND, 1, "cron", "* * * * *", "", true, false);
            AdvanceAll(map[1 := good, 2 := cron], [1, 2], map[]) ==
            (map[1 := good.(next := 10 + SECOND), 2 := cron], None)
  {
    var good := Job(10, 100 * SECOND, 1, "interval", "", "", true, false);
    var cron := Job(10, 100 * SECOND, 1, "cron", "* * * * *", "", true, false);
    var rows := map[1 := good, 2 := cron];
    NextTimeIsOneIntervalOn(10, "interval", 1, "", "");
    assert "cron" != "interval" by { assert |"cron"| != |"interval"|; }
    assert NextOf(cron) == CronUnsupported;
    assert [1, 2][..1] == [1] && [1][..0] == [];
    assert AdvanceAll(rows, [], map[]) == (rows, Some([]));
    assert Advance(good, None) == (good.(next := 10 + SECOND), Some(10));
    assert AdvanceAll(rows, [1][..0], map[]) == (rows, Some([]));
    assert [] + [Task(1, 10)] == [Task(1, 10)];
    assert AdvanceAll(rows, [1], map[]) == (rows[1 := good.(next := 10 + SECOND)], Some([Task(1, 10)]));
    assert AdvanceAll(rows, [1, 2][..1], map[]) == AdvanceAll(rows, [1], map[]);
    assert Advance(cron, None) == (cron, None);
    assert rows[1 := good.(next := 10 + SECOND)][2 := cron] == map[1 := good.(next := 10 + SECOND), 2 := cron];
  }

  // ----- A job over a run of polls -----

  datatype Tick = Tick(now: int, lookAhead: int)

  function JobRun(j: Job, ticks: seq<Tick>): (Job, seq<int>) {
    if ticks == [] then (j, [])
    else
      var n := |ticks| - 1;
      var (j1, slots) := JobRun(j, ticks[..n]);
      var (j2, slot) := JobStep(j1, ticks[n].now, ticks[n].lookAhead);
      (j2, if slot == None then slots else slots + [slot.value])
  }

  /** The whole table over a run of fault-free polls, and all tasks handed out; None once a poll failed. */
  ghost function TableRun(rows: map<int, Job>, polls: seq<Poll>): (r: (map<int, Job>, Option<seq<Task>>))
    ensures r.0.Keys == rows.Keys
  {
    if polls == [] then (rows, Some([]))
    else
      var n := |polls| - 1;
      var (rows1, tasks) := TableRun(rows, polls[..n]);
      if tasks == None || !IsResult(rows1, polls[n]) then (rows1, None)
      else
        var (rows2, more) := AdvanceAll(rows1, polls[n].order, map[]);
        (rows2, if more == None then None else Some(tasks.value + more.value))
  }

  function Ticks(polls: seq<Poll>): seq<Tick> {
    seq(|polls|, i requires 0 <= i < |polls| => Tick(polls[i].now, polls[i].lookAhead))
  }

  lemma {:induction false} SlotsConcat(id: int, s: seq<Task>, t: seq<Task>)
    ensures SlotsOf(id, s + t) == SlotsOf(id, s) + SlotsOf(id, t)
  {
    if t == [] {
      assert s + t == s;
    } else {
      var n := |t| - 1;
      SlotsConcat(id, s, t[..n]);
      assert (s + t)[..|s + t| - 1] == s + t[..n];
    }
  }

  lemma LastPoll(rows: map<int, Job>, polls: seq<Poll>, id: int)
    returns (rows1: map<int, Job>, before: seq<Task>, last: seq<Task>)
    requires id in rows && polls != [] && TableRun(rows, polls).1.Some?
    ensures var p := polls[|polls| - 1];
            && TableRun(rows, polls[..|polls| - 1]) == (rows1, Some(before))
            && TableRun(rows, polls).1 == Some(before + last)
            && id in rows1
            && (var (j, slot) := JobStep(rows1[id], p.now, p.lookAhead);
                && TableRun(rows, polls).0[id] == j
                && SlotsOf(id, last) == if slot == None then [] else [slot.value])
  {
    var n := |polls| - 1;
    var run := TableRun(rows, polls[..n]);
    rows1, before := run.0, run.1.value;
    PollIsPointwise(rows1, polls[n], id);
    last := AdvanceAll(rows1, polls[n].order, map[]).1.value;
  }

  /** In a run whose polls all succeed, each job's row and slots are those of the job run by itself. */
  lemma {:induction false} TableRunIsPointwise(rows: map<int, Job>, polls: seq<Poll>, id: int)
    requires id in rows && TableRun(rows, polls).1.Some?
    ensures TableRun(rows, polls).0[id] == JobRun(rows[id], Ticks(polls)).0
    ensures SlotsOf(id, TableRun(rows, polls).1.value) == JobRun(rows[id], Ticks(polls)).1
  {
    if polls != [] {
      var n := |polls| - 1;
      var rows1, before, last := LastPoll(rows, polls, id);
      TableRunIsPointwise(rows, polls[..n], id);
      assert Ticks(polls)[..n] == Ticks(polls[..n]);
      SlotsConcat(id, before, last);
    }
  }

  predicate Repeating(j: Job) {
    j.scheduleType == "interval" && 0 < j.interval <= MAX_INTERVAL
  }

  function Slot(first: int, step: int, k: nat): int {
    first + k * step
  }

  /** How many slots fit between the first one and the expiration. */
  function SlotCount(first: int, step: int, expiration: int): int
    requires step > 0
  {
    if first <= expiration then (expiration - first) / step + 1 else 1
  }

  lemma SlotCountBounds(first: int, step: int, expiration: int, k: nat)
    requires step > 0 && first <= expiration
    ensures Slot(first, step, k) <= expiration <==> k < SlotCount(first, step, expiration)
  {
    var q, r := (expiration - first) / step, (expiration - first) % step;
    assert expiration - first == q * step + r;
    if k <= q {
      assert k * step <= q * step;
    } else {
      assert k * step >= (q + 1) * step;
    }
  }

  /** One poll of a job that has handed out k slots so far. */
  lemma StepFromSlot(j: Job, k: nat, now: int, lookAhead: int)
    requires Repeating(j) && j.active
    requires k < SlotCount(j.next, j.interval * SECOND, j.expiration)
    ensures var step := j.interval * SECOND;
            var r := j.(next := Slot(j.next, step, k));
            JobStep(r, now, lookAhead) ==
            if !Due(r, now, lookAhead) then (r, None)
            else (if k + 1 < SlotCount(j.next, step, j.expiration) then j.(next := Slot(j.next, step, k + 1))
                  else r.(active := false, completed := true), Some(r.next))
  {
    var step := j.interval * SECOND;
    var r := j.(next := Slot(j.next, step, k));
    NextTimeIsOneIntervalOn(r.next, r.scheduleType, r.interval, r.cron, r.specific);
    assert Slot(j.next, step, k + 1) == r.next + step by {
      assert (k + 1) * step == k * step + step;
    }
    if j.next <= j.expiration {
      SlotCountBounds(j.next, step, j.expiration, k + 1);
    } else {
      assert Slot(j.next, step, 1) == j.next + step;
    }
  }

  /** The emission law, for any poll times whatever. The slots handed out are first, first + step,
      first + 2*step, ...; the job stays active while its next slot fits before the expiration (the very
      first slot is handed out even if it does not), and is completed and deactivated together. */
  lemma {:induction false} EmissionLaw(j: Job, ticks: seq<Tick>)
    requires Repeating(j) && j.active && !j.completed
    ensures var (r, slots) := JobRun(j, ticks);
            var step := j.interval * SECOND;
            && (forall k :: 0 <= k < |slots| ==> slots[k] == Slot(j.next, step, k))
            && |slots| <= SlotCount(j.next, step, j.expiration)
            && (r.active <==> |slots| < SlotCount(j.next, step, j.expiration))
            && r.completed == !r.active
            && (r.active ==> r == j.(next := Slot(j.next, step, |slots|)))
            && (slots == [] ==> r == j)
  {
    var step := j.interval * SECOND;
    if ticks != [] {
      var n := |ticks| - 1;
      EmissionLaw(j, ticks[..n]);
      var (r, slots) := JobRun(j, ticks[..n]);
      if r.active {
        StepFromSlot(j, |slots|, ticks[n].now, ticks[n].lookAhead);
      }
    } else {
      assert Slot(j.next, step, 0) == j.next;
      assert j == j.(next := Slot(j.next, step, 0));
      if j.next <= j.expiration {
        SlotCountBounds(j.next, step, j.expiration, 0);
      }
    }
  }

  /** No slot later than the expiration is handed out, unless the first one already is. */
  lemma SlotsWithinExpirationIff(j: Job, ticks: seq<Tick>)
    requires Repeating(j) && j.active && !j.completed
    ensures var slots := JobRun(j, ticks).1;
            (forall k :: 0 <= k < |slots| ==> slots[k] <= j.expiration) <==> (j.next <= j.expiration || slots == [])
  {
    EmissionLaw(j, ticks);
    var slots := JobRun(j, ticks).1;
    var step := j.interval * SECOND;
    if j.next <= j.expiration {
      forall k | 0 <= k < |slots| ensures slots[k] <= j.expiration {
        SlotCountBounds(j.next, step, j.expiration, k);
      }
    } else if slots != [] {
      assert slots[0] == Slot(j.next, step, 0) == j.next;
    }
  }

  // ----- Never missing a slot -----

  /** The job is still active but its next slot is already past, so the query will not find it. */
  predicate Behind(j: Job, now: int) {
    j.active && j.next < now
  }

  predicate ClockAscends(ticks: seq<Tick>) {
    forall i, k :: 0 <= i < k < |ticks| ==> ticks[i].now <= ticks[k].now
  }

  /** A job that has fallen behind stays behind for good. */
  lemma {:induction false} BehindForever(j: Job, ticks: seq<Tick>)
    requires ClockAscends(ticks) && (ticks != [] ==> Behind(j, ticks[0].now))
    ensures JobRun(j, ticks) == (j, [])
  {
    if ticks != [] {
      var n := |ticks| - 1;
      BehindForever(j, ticks[..n]);
    }
  }

  lemma {:induction false} RunSplits(j: Job, ticks: seq<Tick>, i: nat)
    requires i <= |ticks|
    ensures JobRun(j, ticks) == (JobRun(JobRun(j, ticks[..i]).0, ticks[i..]).0,
                                 JobRun(j, ticks[..i]).1 + JobRun(JobRun(j, ticks[..i]).0, ticks[i..]).1)
  {
    if i == |ticks| {
      assert ticks[..i] == ticks && ticks[i..] == [];
      assert JobRun(j, ticks).1 + [] == JobRun(j, ticks).1;
    } else {
      var n := |ticks| - 1;
      RunSplits(j, ticks[..n], i);
      var r, rest := JobRun(j, ticks[..i]), ticks[i..];
      assert ticks[..n][..i] == ticks[..i] && ticks[..n][i..] == rest[..n - i] && rest[n - i] == ticks[n];
      var q := JobRun(r.0, rest[..n - i]);
      var (_, slot) := JobStep(q.0, ticks[n].now, ticks[n].lookAhead);
      if slot.Some? {
        assert r.1 + q.1 + [slot.value] == r.1 + (q.1 + [slot.value]);
      }
    }
  }

  /** A run whose last poll lies after the expiration has handed out every slot exactly when the job was
      not behind at any poll. */
  lemma EverySlotIff(j: Job, ticks: seq<Tick>)
    requires Repeating(j) && j.active && !j.completed && j.next <= j.expiration
    requires ClockAscends(ticks) && ticks != [] && ticks[|ticks| - 1].now > j.expiration
    ensures var slots := JobRun(j, ticks).1;
            |slots| == SlotCount(j.next, j.interval * SECOND, j.expiration) <==>
            forall i :: 0 <= i < |ticks| ==> !Behind(JobRun(j, ticks[..i]).0, ticks[i].now)
  {
    var step := j.interval * SECOND;
    EmissionLaw(j, ticks);
    if i :| 0 <= i < |ticks| && Behind(JobRun(j, ticks[..i]).0, ticks[i].now) {
      RunSplits(j, ticks, i);
      BehindForever(JobRun(j, ticks[..i]).0, ticks[i..]);
    } else {
      var n := |ticks| - 1;
      var (r, slots) := JobRun(j, ticks[..n]);
      EmissionLaw(j, ticks[..n]);
      assert !Behind(r, ticks[n].now);
      if r.active {
        SlotCountBounds(j.next, step, j.expiration, |slots|);
      }
    }
  }

  /** Polls come often enough: each within one interval of the one before and no later than what that one
      looked ahead to. */
  predicate PolledOften(ticks: seq<Tick>, step: int) {
    forall i :: 0 < i < |ticks| ==> ticks[i].now <= ticks[i - 1].now + step && ticks[i].now <= ticks[i - 1].lookAhead
  }

  /** Then a job whose first slot is not before the first poll is never behind. */
  lemma {:induction false} PolledOftenNeverBehind(j: Job, ticks: seq<Tick>, i: nat)
    requires Repeating(j) && j.active && !j.completed
    requires PolledOften(ticks, j.interval * SECOND) && i < |ticks| && ticks[0].now <= j.next
    ensures !Behind(JobRun(j, ticks[..i]).0, ticks[i].now)
  {
    if i > 0 {
      PolledOftenNeverBehind(j, ticks, i - 1);
      assert ticks[..i][..i - 1] == ticks[..i - 1];
      var r := JobRun(j, ticks[..i - 1]).0;
      EmissionLaw(j, ticks[..i - 1]);
      if r.active {
        NextTimeIsOneIntervalOn(r.next, r.scheduleType, r.interval, r.cron, r.specific);
      }
    }
  }

  /** No missed slot: with polls that often and running past the expiration, exactly the slots first,
      first + step, ... up to the expiration are handed out, each once. */
  lemma NoMissedSlot(j: Job, ticks: seq<Tick>)
    requires Repeating(j) && j.active && !j.completed && j.next <= j.expiration
    requires ticks != [] && ticks[0].now <= j.next && ticks[|ticks| - 1].now > j.expiration
    requires ClockAscends(ticks) && PolledOften(ticks, j.interval * SECOND)
    ensures var (r, slots) := JobRun(j, ticks);
            && |slots| == SlotCount(j.next, j.interval * SECOND, j.expiration)
            && (forall k :: 0 <= k < |slots| ==> slots[k] == Slot(j.next, j.interval * SECOND, k))
            && !r.active && r.completed
  {
    forall i | 0 <= i < |ticks| ensures !Behind(JobRun(j, ticks[..i]).0, ticks[i].now) {
      PolledOftenNeverBehind(j, ticks, i);
    }
    EverySlotIff(j, ticks);
    EmissionLaw(j, ticks);
  }
}
