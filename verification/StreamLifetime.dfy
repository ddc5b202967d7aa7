/** How long an entry lasts: which clean-up removes it, given that its tracking set has a deadline of its own,
    renewed by every addition, and that the stream itself may lapse. */
module StreamLifetime {
  import opened Wrappers
  import opened StreamExpiration
  import opened StreamRuns

  /** The store calls of the operation succeed and nothing is trimmed. Additions may keep the set for any
      time: this service keeps it for an hour, the task dispatcher for forty-eight. */
  predicate Plain(op: Op) {
    match op
    case Create(_, _, _) => true
    case Add(_, _, _, _, a) => a.added && a.tracked && a.trimmed == {} && a.keep.Some?
    case Clean(_, f) => f == NO_FAULTS
    case Trim(_, _, _) => false
  }

  predicate AllPlain(ops: seq<Op>) {
    forall k :: 0 <= k < |ops| ==> Plain(ops[k])
  }

  /** What a store holds of the entry that e adds: whether it is in its stream, with the stream's deadline;
      and whether the tracking set names it, with the set's deadline. */
  ghost predicate Holds(s: Store, e: Op, here: bool, lapse: Option<int>, tracked: bool, deadline: int)
    requires e.Add?
  {
    && (here <==> e.id in Messages(s, e.stream))
    && (here ==> Messages(s, e.stream)[e.id] == Task(e.task) && StreamDeadline(s, e.stream) == lapse)
    && (tracked <==> Member(e.stream, e.id) in Tracking(s, e.stream))
    && (tracked ==> Tracking(s, e.stream)[Member(e.stream, e.id)] == Score(e.now))
    && (tracked ==> TrackDeadline(s, e.stream) == Some(deadline))
  }

  /** A clean-up at which the entry's hour is over. */
  predicate Due(op: Op, e: Op)
    requires e.Add?
  {
    op.Clean? && e.stream in SWEPT && 0 <= Score(e.now) <= op.now / 1000
  }

  lemma HoldsAt(s: Store, e: Op, here: bool, lapse: Option<int>, tracked: bool, deadline: int, now: int)
    requires e.Add? && Holds(s, e, here, lapse, tracked, deadline)
    ensures Holds(At(s, now), e, here && !Lapsed(lapse, now), lapse, tracked && now < deadline, deadline)
  {
    AtOneStream(s, e.stream, now);
  }

  lemma HoldsAfterAdd(s: Store, e: Op, here: bool, lapse: Option<int>, tracked: bool, deadline: int, op: Op)
    requires e.Add? && Holds(s, e, here, lapse, tracked, deadline)
    requires op.Add? && Plain(op) && !(op.stream == e.stream && op.id == e.id)
    ensures Holds(Do(s, op), e, here, lapse, tracked,
                  if op.stream == e.stream then op.now + op.answers.keep.value else deadline)
  {
    MembersDiffer(e.stream, e.id, op.id);
  }

  lemma HoldsAfterClean(s: Store, e: Op, here: bool, lapse: Option<int>, tracked: bool, deadline: int, op: Op)
    requires e.Add? && e.id != "" && Holds(s, e, here, lapse, tracked, deadline)
    requires op.Clean? && Plain(op)
    ensures var removed := tracked && Due(op, e);
            Holds(Do(s, op), e, here && !removed, lapse, tracked && !removed, deadline)
  {
    CleanedEntry(s, e.stream, e.id, op.now);
  }

  /** A fault-free clean-up, as far as one entry is concerned. */
  lemma CleanedEntry(s: Store, stream: string, id: string, now: int)
    requires id != ""
    ensures var t, m := Sweep(s, SWEPT, now, NO_FAULTS), Member(stream, id);
            var hit := stream in SWEPT && m in Tracking(s, stream) && 0 <= Tracking(s, stream)[m] <= now / 1000;
            && (id in Messages(t, stream) <==> id in Messages(s, stream) && !hit)
            && (id in Messages(t, stream) ==> Messages(t, stream)[id] == Messages(s, stream)[id])
            && StreamDeadline(t, stream) == StreamDeadline(s, stream)
            && (m in Tracking(t, stream) <==> m in Tracking(s, stream) && !hit)
            && (m in Tracking(t, stream) ==> Tracking(t, stream)[m] == Tracking(s, stream)[m])
            && (m in Tracking(t, stream) ==> TrackDeadline(t, stream) == TrackDeadline(s, stream))
  {
    var ids := if stream in SWEPT then Found(s, stream, now, NO_FAULTS) else {};
    CleanOneStream(s, stream, now, NO_FAULTS);
    ExpiredIff(s, stream, now, id);
    MemberIn(stream, Spared(stream, ids, {}), id);
  }

  lemma HoldsAfterCreate(s: Store, e: Op, here: bool, lapse: Option<int>, tracked: bool, deadline: int, op: Op)
    requires e.Add? && Holds(s, e, here, lapse, tracked, deadline)
    requires op.Create? && !(op.stream == e.stream && op.id == e.id)
    ensures Holds(Do(s, op), e, here, lapse, tracked, deadline)
  {
  }

  /** The operation gives the entry's id out again. */
  predicate Reuses(op: Op, e: Op)
    requires e.Add?
  {
    (op.Add? || op.Create?) && op.stream == e.stream && op.id == e.id
  }

  function NextDeadline(deadline: int, op: Op, stream: string): int {
    if op.Add? && op.stream == stream && op.answers.keep.Some? then op.now + op.answers.keep.value else deadline
  }

  lemma HoldsAfter(s: Store, e: Op, here: bool, lapse: Option<int>, tracked: bool, deadline: int, op: Op)
    requires e.Add? && e.id != "" && Plain(op) && !Reuses(op, e) && Holds(s, e, here, lapse, tracked, deadline)
    ensures var tracked1 := tracked && op.now < deadline;
            var removed := tracked1 && Due(op, e);
            Holds(Apply(s, op), e, here && !Lapsed(lapse, op.now) && !removed, lapse, tracked1 && !removed,
                  NextDeadline(deadline, op, e.stream))
  {
    var t, here1, tracked1 := At(s, op.now), here && !Lapsed(lapse, op.now), tracked && op.now < deadline;
    HoldsAt(s, e, here, lapse, tracked, deadline, op.now);
    match op
    case Create(_, _, _) => HoldsAfterCreate(t, e, here1, lapse, tracked1, deadline, op);
    case Add(_, _, _, _, _) => HoldsAfterAdd(t, e, here1, lapse, tracked1, deadline, op);
    case Clean(_, _) => HoldsAfterClean(t, e, here1, lapse, tracked1, deadline, op);
  }

  // ----- The law -----

  /** The deadline in force after the operations that follow the addition of e: that of the last addition to
      its stream. */
  function Deadline(e: Op, later: seq<Op>): int
    requires e.Add? && e.answers.keep.Some?
  {
    if later == [] then e.now + e.answers.keep.value
    else NextDeadline(Deadline(e, later[..|later| - 1]), later[|later| - 1], e.stream)
  }

  /** Every later operation came before the deadline then in force. */
  predicate Kept(e: Op, later: seq<Op>)
    requires e.Add? && e.answers.keep.Some?
  {
    forall k :: 0 <= k < |later| ==> later[k].now < Deadline(e, later[..k])
  }

  /** A clean-up came when the entry's hour was over and its set had been kept so far, that moment included. */
  predicate Removed(e: Op, later: seq<Op>)
    requires e.Add? && e.answers.keep.Some?
  {
    exists k :: 0 <= k < |later| && Due(later[k], e) && Kept(e, later[..k + 1])
  }

  predicate StreamGone(lapse: Option<int>, later: seq<Op>) {
    exists k :: 0 <= k < |later| && Lapsed(lapse, later[k].now)
  }

  lemma KeptStep(e: Op, later: seq<Op>)
    requires e.Add? && e.answers.keep.Some? && later != []
    ensures var n := |later| - 1;
            Kept(e, later) <==> Kept(e, later[..n]) && later[n].now < Deadline(e, later[..n])
  {
    var n := |later| - 1;
    assert forall k :: 0 <= k <= n ==> later[..n][..k] == later[..k];
  }

  lemma RemovedStep(e: Op, later: seq<Op>)
    requires e.Add? && e.answers.keep.Some? && later != []
    ensures var n := |later| - 1;
            Removed(e, later) <==> Removed(e, later[..n]) || (Due(later[n], e) && Kept(e, later))
  {
    var n := |later| - 1;
    assert later[..n + 1] == later;
    assert forall k :: 0 <= k < n ==> later[..n][..k + 1] == later[..k + 1] && later[..n][k] == later[k];
    if Removed(e, later[..n]) {
      var k :| 0 <= k < n && Due(later[..n][k], e) && Kept(e, later[..n][..k + 1]);
      assert Due(later[k], e) && Kept(e, later[..k + 1]);
    }
    if k :| 0 <= k < |later| && Due(later[k], e) && Kept(e, later[..k + 1]) {
      assert k < n ==> Due(later[..n][k], e) && Kept(e, later[..n][..k + 1]);
    }
  }

  lemma GoneStep(lapse: Option<int>, later: seq<Op>)
    requires later != []
    ensures var n := |later| - 1;
            StreamGone(lapse, later) <==> StreamGone(lapse, later[..n]) || Lapsed(lapse, later[n].now)
  {
    var n := |later| - 1;
    assert forall k :: 0 <= k < n ==> later[..n][k] == later[k];
  }

  /** The lifetime law, from any store. Once e has been added, under an id not used again: its entry is in the
      stream exactly when no clean-up has removed it and the stream has not lapsed; its member is in the
      tracking set exactly when the set has been kept throughout and no clean-up has removed it. A clean-up
      removes it if it comes when the hour is over, in a stream that is swept, and every operation since the
      addition, itself included, came before the deadline then in force. */
  lemma {:induction false} EntryLifetime(s: Store, e: Op, later: seq<Op>)
    requires e.Add? && e.id != "" && Plain(e) && AllPlain(later)
    requires forall k :: 0 <= k < |later| ==> !Reuses(later[k], e)
    ensures var lapse := StreamDeadline(At(s, e.now), e.stream);
            Holds(Run(Apply(s, e), later), e,
                  !Removed(e, later) && !StreamGone(lapse, later), lapse,
                  Kept(e, later) && !Removed(e, later), Deadline(e, later))
  {
    if later != [] {
      var n := |later| - 1;
      var pre, op := later[..n], later[n];
      EntryLifetime(s, e, pre);
      var lapse := StreamDeadline(At(s, e.now), e.stream);
      HoldsAfter(Run(Apply(s, e), pre), e, !Removed(e, pre) && !StreamGone(lapse, pre), lapse,
                 Kept(e, pre) && !Removed(e, pre), Deadline(e, pre), op);
      KeptStep(e, later);
      RemovedStep(e, later);
      GoneStep(lapse, later);
    } else {
      AddedIsHeld(s, e);
    }
  }

  lemma AddedIsHeld(s: Store, e: Op)
    requires e.Add? && Plain(e)
    ensures Holds(Apply(s, e), e, true, StreamDeadline(At(s, e.now), e.stream), true, e.now + e.answers.keep.value)
  {
  }

  predicate ClockAscends(ops: seq<Op>) {
    forall j, k :: 0 <= j < k < |ops| ==> ops[j].now <= ops[k].now
  }

  /** The last entry of a burst. When its set is kept for an hour and no addition to the stream follows, it is
      removed only by a clean-up within the second in which its hour ends, and before its end; otherwise it
      stays for as long as the stream does. */
  lemma LastOfBurstStaysIff(s: Store, e: Op, later: seq<Op>)
    requires e.Add? && e.id != "" && Plain(e) && AllPlain(later) && e.answers.keep == Some(HOUR)
    requires ClockAscends(later)
    requires forall k :: 0 <= k < |later| ==> !Reuses(later[k], e) && !(later[k].Add? && later[k].stream == e.stream)
    ensures e.id in Messages(Run(Apply(s, e), later), e.stream) <==>
              && !StreamGone(StreamDeadline(At(s, e.now), e.stream), later)
              && forall k :: 0 <= k < |later| && later[k].Clean? && e.stream in SWEPT ==>
                   !(0 <= (e.now + 3_600_000) / 1000 <= later[k].now / 1000 && later[k].now < e.now + 3_600_000)
  {
    EntryLifetime(s, e, later);
    forall k | 0 <= k < |later| ensures Kept(e, later[..k + 1]) <==> later[k].now < e.now + HOUR {
      KeptWithoutAdditions(e, later, k);
    }
  }

  /** No clean-up before the second in which an entry's hour ends removes it, however the set is kept. */
  lemma NotRemovedEarly(s: Store, e: Op, later: seq<Op>)
    requires e.Add? && e.id != "" && Plain(e) && AllPlain(later)
    requires forall k :: 0 <= k < |later| ==> !Reuses(later[k], e)
    requires forall k :: 0 <= k < |later| && later[k].Clean? ==> later[k].now / 1000 < (e.now + 3_600_000) / 1000
    ensures e.id in Messages(Run(Apply(s, e), later), e.stream) <==>
              !StreamGone(StreamDeadline(At(s, e.now), e.stream), later)
  {
    EntryLifetime(s, e, later);
  }

  /** Every clean-up from that second on does, in a swept stream whose set has been kept up to then. */
  lemma RemovedInTime(s: Store, e: Op, later: seq<Op>, k: nat)
    requires e.Add? && e.id != "" && Plain(e) && AllPlain(later) && e.stream in SWEPT
    requires forall i :: 0 <= i < |later| ==> !Reuses(later[i], e)
    requires k < |later| && later[k].Clean? && 0 <= (e.now + 3_600_000) / 1000 <= later[k].now / 1000
    requires Kept(e, later[..k + 1])
    ensures e.id !in Messages(Run(Apply(s, e), later), e.stream)
  {
    EntryLifetime(s, e, later);
    assert Due(later[k], e);
  }

  lemma KeptWithoutAdditions(e: Op, later: seq<Op>, k: nat)
    requires e.Add? && e.answers.keep == Some(HOUR) && ClockAscends(later) && k < |later|
    requires forall i :: 0 <= i < |later| ==> !(later[i].Add? && later[i].stream == e.stream)
    ensures Kept(e, later[..k + 1]) <==> later[k].now < e.now + HOUR
  {
    var ops := later[..k + 1];
    forall i | 0 <= i <= k ensures ops[i] == later[i] && Deadline(e, ops[..i]) == e.now + HOUR {
      SameDeadline(e, ops[..i]);
    }
  }

  lemma {:induction false} SameDeadline(e: Op, later: seq<Op>)
    requires e.Add? && e.answers.keep.Some?
    requires forall k :: 0 <= k < |later| ==> !(later[k].Add? && later[k].stream == e.stream)
    ensures Deadline(e, later) == e.now + e.answers.keep.value
  {
    if later != [] {
      SameDeadline(e, later[..|later| - 1]);
    }
  }
}
