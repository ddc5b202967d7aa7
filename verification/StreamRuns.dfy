/** What runs of additions, clean-ups, trims and lapsing keys do to a stream and its tracking set. */
module StreamRuns {
  import opened Wrappers
  import opened StreamExpiration

  // ----- Agreement -----

  function TrackedIds(s: Store, stream: string): set<string> {
    set m | m in Tracking(s, stream) && Decode(stream, m).Some? :: Decode(stream, m).value
  }

  /** The ids of a stream are the ones its tracking set names and, apart from them, the untracked ones. */
  ghost predicate Agree(s: Store, stream: string, untracked: set<string>) {
    Messages(s, stream).Keys == TrackedIds(s, stream) + untracked && TrackedIds(s, stream) !! untracked
  }

  lemma TrackedIff(s: Store, stream: string, id: string)
    ensures id in TrackedIds(s, stream) <==> id != "" && Member(stream, id) in Tracking(s, stream)
  {
    DecodeIff(stream, Member(stream, id), id);
    if m :| m in Tracking(s, stream) && Decode(stream, m) == Some(id) {
      DecodeIff(stream, m, id);
    }
  }

  lemma MembersDiffer(stream: string, a: string, b: string)
    ensures Member(stream, a) == Member(stream, b) <==> a == b
  {
    var p := Prefix(stream);
    assert Member(stream, a)[|p|..] == a && Member(stream, b)[|p|..] == b;
  }

  /** Two stores look alike as far as one stream is concerned. */
  ghost predicate SameStream(s: Store, t: Store, stream: string) {
    && (stream in s.streams <==> stream in t.streams)
    && (stream in s.streams && stream in t.streams ==> s.streams[stream] == t.streams[stream])
    && (stream in s.tracking <==> stream in t.tracking)
    && (stream in s.tracking && stream in t.tracking ==> s.tracking[stream] == t.tracking[stream])
  }

  // ----- Lapsing keys -----

  predicate StreamLapses(s: Store, stream: string, now: int) {
    Lapsed(StreamDeadline(s, stream), now)
  }

  predicate SetLapses(s: Store, stream: string, now: int) {
    Lapsed(TrackDeadline(s, stream), now)
  }

  lemma AtOneStream(s: Store, stream: string, now: int)
    ensures var t := At(s, now);
            && Messages(t, stream) == (if StreamLapses(s, stream, now) then map[] else Messages(s, stream))
            && Tracking(t, stream) == (if SetLapses(s, stream, now) then map[] else Tracking(s, stream))
            && StreamDeadline(t, stream) == (if StreamLapses(s, stream, now) then None else StreamDeadline(s, stream))
            && TrackDeadline(t, stream) == (if SetLapses(s, stream, now) then None else TrackDeadline(s, stream))
  {
  }

  /** A lapse that breaks the agreement: the stream goes while it has untracked entries or its set stays, or
      the set goes alone; unless what goes is empty. */
  predicate LapseBreaks(s: Store, stream: string, untracked: set<string>, now: int) {
    if StreamLapses(s, stream, now)
    then untracked != {} || (TrackedIds(s, stream) != {} && !SetLapses(s, stream, now))
    else SetLapses(s, stream, now) && TrackedIds(s, stream) != {}
  }

  lemma LapseKeepsAgreementIff(s: Store, stream: string, untracked: set<string>, now: int)
    requires Agree(s, stream, untracked)
    ensures Agree(At(s, now), stream, untracked) <==> !LapseBreaks(s, stream, untracked, now)
  {
    AtOneStream(s, stream, now);
    assert TrackedIds(At(s, now), stream) == if SetLapses(s, stream, now) then {} else TrackedIds(s, stream);
  }

  // ----- The operations -----

  datatype Op =
    | Create(stream: string, id: string, now: int)
    | Add(stream: string, id: string, task: int, now: int, answers: AddAnswers)
    | Clean(now: int, faults: Faults)
    | Trim(stream: string, dropped: set<string>, now: int)

  /** The operation itself, on a store without lapsed keys. */
  function Do(s: Store, op: Op): Store {
    match op
    case Create(stream, id, now) => AfterCreate(s, stream, id, now)
    case Add(stream, id, task, now, answers) => AfterAdd(s, stream, id, task, now, answers)
    case Clean(now, faults) => Sweep(s, SWEPT, now, faults)
    case Trim(stream, dropped, _) => AfterTrim(s, stream, dropped)
  }

  function Apply(s: Store, op: Op): Store {
    Do(At(s, op.now), op)
  }

  function Run(s: Store, ops: seq<Op>): Store {
    if ops == [] then s else Apply(Run(s, ops[..|ops| - 1]), ops[|ops| - 1])
  }

  /** An id given to an addition is non-empty and new to its stream. */
  predicate Fresh(s: Store, op: Op) {
    op.Add? ==> op.id != "" && op.id !in Messages(At(s, op.now), op.stream)
  }

  predicate FreshIds(s: Store, ops: seq<Op>) {
    ops != [] ==> FreshIds(s, ops[..|ops| - 1]) && Fresh(Run(s, ops[..|ops| - 1]), ops[|ops| - 1])
  }

  /** The operations that break the agreement of a stream: creating it, which adds an untracked entry; adding
      to it without tracking, or with entries trimmed away; a clean-up that deletes an entry and not its
      member, or the other way round; a trim that drops anything. */
  ghost predicate Breaks(s: Store, op: Op, stream: string) {
    match op
    case Create(other, _, _) => other == stream && stream !in s.streams
    case Add(other, _, _, _, a) =>
      other == stream && a.added && !(a.tracked && a.trimmed !! Messages(s, stream).Keys)
    case Clean(now, f) =>
      stream in SWEPT
      && exists id :: id in Found(s, stream, now, f) && ((stream, id) in f.del <==> (stream, id) !in f.untrack)
    case Trim(other, dropped, _) => other == stream && !(dropped !! Messages(s, stream).Keys)
  }

  lemma CreateKeepsAgreementIff(s: Store, stream: string, untracked: set<string>, op: Op)
    requires op.Create? && Agree(s, stream, untracked)
    ensures Agree(Do(s, op), stream, untracked) <==> !Breaks(s, op, stream)
  {
    assert TrackedIds(Do(s, op), stream) == TrackedIds(s, stream);
    assert Breaks(s, op, stream) ==> op.id in Messages(Do(s, op), stream);
  }

  /** Adding an entry under a fresh id keeps the agreement of its stream exactly when the tracking member is
      written and nothing is trimmed, or when the addition fails; other streams are untouched. */
  lemma AddKeepsAgreementIff(s: Store, stream: string, untracked: set<string>, op: Op)
    requires op.Add? && Agree(s, stream, untracked)
    requires op.id != "" && op.id !in Messages(s, op.stream)
    ensures Agree(Do(s, op), stream, untracked) <==> !Breaks(s, op, stream)
  {
    var t := Do(s, op);
    if op.stream == stream && op.answers.added {
      AddEffect(s, op);
      assert Breaks(s, op, stream) ==>
          !op.answers.tracked || exists x :: x in op.answers.trimmed && x in Messages(s, stream);
    } else {
      assert TrackedIds(t, stream) == TrackedIds(s, stream);
    }
  }

  lemma AddEffect(s: Store, op: Op)
    requires op.Add? && op.answers.added && op.id != ""
    ensures var t := Do(s, op);
            && Messages(t, op.stream).Keys == Messages(s, op.stream).Keys - op.answers.trimmed + {op.id}
            && TrackedIds(t, op.stream) == TrackedIds(s, op.stream) + (if op.answers.tracked then {op.id} else {})
  {
    var t := Do(s, op);
    forall id ensures id in TrackedIds(t, op.stream) <==>
                        id in TrackedIds(s, op.stream) || (op.answers.tracked && id == op.id)
    {
      TrackedIff(s, op.stream, id);
      TrackedIff(t, op.stream, id);
      MembersDiffer(op.stream, id, op.id);
    }
  }

  /** A trim keeps the agreement exactly when it drops nothing. */
  lemma TrimKeepsAgreementIff(s: Store, stream: string, untracked: set<string>, op: Op)
    requires op.Trim? && Agree(s, stream, untracked)
    ensures Agree(Do(s, op), stream, untracked) <==> !Breaks(s, op, stream)
  {
    var t := Do(s, op);
    assert TrackedIds(t, stream) == TrackedIds(s, stream);
    if op.stream == stream {
      assert Messages(t, stream).Keys == Messages(s, stream).Keys - op.dropped;
      assert Breaks(s, op, stream) ==> exists x :: x in op.dropped && x in Messages(s, stream);
    }
  }

  lemma SweepStreamFrame(s: Store, stream: string, ids: set<string>, f: Faults, other: string)
    requires other != stream
    ensures SameStream(SweepStream(s, stream, ids, f), s, other)
  {
  }

  lemma SweepStreamLocal(s: Store, t: Store, stream: string, ids: set<string>, f: Faults)
    requires SameStream(s, t, stream)
    ensures SameStream(SweepStream(s, stream, ids, f), SweepStream(t, stream, ids, f), stream)
  {
  }

  /** The effect of a whole clean-up on one stream is that of sweeping it alone. */
  lemma {:induction false} SweepIsPerStream(s: Store, streams: seq<string>, now: int, f: Faults, stream: string)
    requires forall i, j :: 0 <= i < j < |streams| ==> streams[i] != streams[j]
    ensures SameStream(Sweep(s, streams, now, f),
                       if stream in streams then SweepStream(s, stream, Found(s, stream, now, f), f) else s,
                       stream)
  {
    if streams != [] {
      var n := |streams| - 1;
      SweepIsPerStream(s, streams[..n], now, f, stream);
      assert streams == streams[..n] + [streams[n]];
      var t := Sweep(s, streams[..n], now, f);
      if streams[n] != stream {
        SweepStreamFrame(t, streams[n], Found(s, streams[n], now, f), f, stream);
      } else {
        assert stream !in streams[..n];
        SweepStreamLocal(t, s, stream, Found(s, stream, now, f), f);
      }
    }
  }

  lemma SweptDistinct()
    ensures forall i, j :: 0 <= i < j < |SWEPT| ==> SWEPT[i] != SWEPT[j]
  {
  }

  lemma ExpiredIff(s: Store, stream: string, now: int, id: string)
    ensures id in ExpiredIds(s, stream, now) <==>
              id != "" && Member(stream, id) in Tracking(s, stream)
              && 0 <= Tracking(s, stream)[Member(stream, id)] <= now / 1000
  {
    DecodeIff(stream, Member(stream, id), id);
    if id in ExpiredIds(s, stream, now) {
      var m :| m in Tracking(s, stream) && 0 <= Tracking(s, stream)[m] <= now / 1000 && Decode(stream, m) == Some(id);
      DecodeIff(stream, m, id);
    }
  }

  lemma MemberIn(stream: string, ids: set<string>, id: string)
    ensures Member(stream, id) in MembersOf(stream, ids) <==> id in ids
  {
    if Member(stream, id) in MembersOf(stream, ids) {
      var x :| x in ids && Member(stream, x) == Member(stream, id);
      var p := Prefix(stream);
      assert Member(stream, x)[|p|..] == x && Member(stream, id)[|p|..] == id;
    }
  }

  /** What a clean-up does to one stream, in full. */
  lemma CleanOneStream(s: Store, stream: string, now: int, f: Faults)
    ensures var t := Sweep(s, SWEPT, now, f);
            var ids := if stream in SWEPT then Found(s, stream, now, f) else {};
            && (forall m :: m in Tracking(t, stream) <==>
                  m in Tracking(s, stream) && m !in MembersOf(stream, Spared(stream, ids, f.untrack)))
            && (forall m :: m in Tracking(t, stream) ==> Tracking(t, stream)[m] == Tracking(s, stream)[m])
            && (Tracking(t, stream).Keys != {} ==> TrackDeadline(t, stream) == TrackDeadline(s, stream))
            && (forall id :: id in Messages(t, stream) <==>
                  id in Messages(s, stream) && id !in Spared(stream, ids, f.del))
            && (forall id :: id in Messages(t, stream) ==> Messages(t, stream)[id] == Messages(s, stream)[id])
            && StreamDeadline(t, stream) == StreamDeadline(s, stream)
  {
    SweptDistinct();
    SweepIsPerStream(s, SWEPT, now, f, stream);
    if stream in SWEPT {
      SweepStreamEffect(s, stream, Found(s, stream, now, f), f);
    }
  }

  lemma SweepStreamEffect(s: Store, stream: string, ids: set<string>, f: Faults)
    ensures var t := SweepStream(s, stream, ids, f);
            && (forall m :: m in Tracking(t, stream) <==>
                  m in Tracking(s, stream) && m !in MembersOf(stream, Spared(stream, ids, f.untrack)))
            && (forall m :: m in Tracking(t, stream) ==> Tracking(t, stream)[m] == Tracking(s, stream)[m])
            && (Tracking(t, stream).Keys != {} ==> TrackDeadline(t, stream) == TrackDeadline(s, stream))
            && (forall id :: id in Messages(t, stream) <==>
                  id in Messages(s, stream) && id !in Spared(stream, ids, f.del))
            && (forall id :: id in Messages(t, stream) ==> Messages(t, stream)[id] == Messages(s, stream)[id])
            && StreamDeadline(t, stream) == StreamDeadline(s, stream)
  {
    if stream in s.tracking {
      var left := s.tracking[stream].members - MembersOf(stream, Spared(stream, ids, f.untrack));
      assert left.Keys == {} ==> forall m :: m !in left;
    }
  }

  /** What a clean-up at `now` removes from a stream: exactly the entries whose member has a score from 0 to
      now, in a stream it covers whose query works, less those whose deletion fails. */
  lemma CleanupRemovesExactly(s: Store, stream: string, now: int, f: Faults, id: string)
    requires id in Messages(s, stream)
    ensures id in Messages(Sweep(s, SWEPT, now, f), stream) <==>
              !(&& stream in ["task:dispatched", "task:completed", "task:failed", "task:retry"]
                && stream !in f.query && (stream, id) !in f.del
                && id != "" && Member(stream, id) in Tracking(s, stream)
                && 0 <= Tracking(s, stream)[Member(stream, id)] <= now / 1000)
  {
    CleanOneStream(s, stream, now, f);
    ExpiredIff(s, stream, now, id);
  }

  /** An entry its tracking set does not name is never removed by a clean-up; a tracking set that has lapsed
      leaves all its entries in that position. */
  lemma UntrackedStays(s: Store, stream: string, now: int, f: Faults, id: string)
    requires id in Messages(s, stream) && Member(stream, id) !in Tracking(s, stream)
    ensures var t := Sweep(s, SWEPT, now, f);
            id in Messages(t, stream) && Member(stream, id) !in Tracking(t, stream)
  {
    CleanOneStream(s, stream, now, f);
    ExpiredIff(s, stream, now, id);
  }

  /** A clean-up keeps the agreement of a stream exactly when the deletion of each entry it finds there and
      the removal of its member stand or fall together. */
  lemma CleanKeepsAgreementIff(s: Store, stream: string, untracked: set<string>, op: Op)
    requires op.Clean? && Agree(s, stream, untracked)
    ensures Agree(Do(s, op), stream, untracked) <==> !Breaks(s, op, stream)
  {
    var ids := if stream in SWEPT then Found(s, stream, op.now, op.faults) else {};
    CleanEffect(s, stream, op.now, op.faults);
    assert ids <= TrackedIds(s, stream);
    SparedDiffer(stream, ids, op.faults.del, op.faults.untrack);
    BothShrink(Messages(s, stream).Keys, TrackedIds(s, stream), untracked,
               Spared(stream, ids, op.faults.del), Spared(stream, ids, op.faults.untrack));
  }

  lemma SparedDiffer(stream: string, ids: set<string>, a: set<(string, string)>, b: set<(string, string)>)
    ensures Spared(stream, ids, a) != Spared(stream, ids, b) <==>
            exists id :: id in ids && ((stream, id) in a <==> (stream, id) !in b)
  {
    if Spared(stream, ids, a) != Spared(stream, ids, b) {
      var id :| id in ids && (id in Spared(stream, ids, a) <==> id !in Spared(stream, ids, b));
    }
    if id :| id in ids && ((stream, id) in a <==> (stream, id) !in b) {
      assert id in Spared(stream, ids, a) <==> id !in Spared(stream, ids, b);
    }
  }

  lemma BothShrink(all: set<string>, tracked: set<string>, untracked: set<string>, a: set<string>, b: set<string>)
    requires all == tracked + untracked && tracked !! untracked && a <= tracked && b <= tracked
    ensures all - a == (tracked - b) + untracked && tracked - b !! untracked <==> a == b
  {
    if a != b {
      var x :| x in tracked && (x in a <==> x !in b);
      assert x in all - a <==> x !in (tracked - b) + untracked;
    }
  }

  lemma CleanEffect(s: Store, stream: string, now: int, f: Faults)
    ensures var t := Sweep(s, SWEPT, now, f);
            var ids := if stream in SWEPT then Found(s, stream, now, f) else {};
            && Messages(t, stream).Keys == Messages(s, stream).Keys - Spared(stream, ids, f.del)
            && TrackedIds(t, stream) == TrackedIds(s, stream) - Spared(stream, ids, f.untrack)
  {
    var t := Sweep(s, SWEPT, now, f);
    var ids := if stream in SWEPT then Found(s, stream, now, f) else {};
    CleanOneStream(s, stream, now, f);
    forall id ensures id in TrackedIds(t, stream) <==>
                        id in TrackedIds(s, stream) && id !in Spared(stream, ids, f.untrack)
    {
      TrackedIff(s, stream, id);
      TrackedIff(t, stream, id);
      MemberIn(stream, Spared(stream, ids, f.untrack), id);
    }
  }

  lemma DoKeepsAgreementIff(s: Store, stream: string, untracked: set<string>, op: Op)
    requires Agree(s, stream, untracked) && (op.Add? ==> op.id != "" && op.id !in Messages(s, op.stream))
    ensures Agree(Do(s, op), stream, untracked) <==> !Breaks(s, op, stream)
  {
    match op
    case Create(_, _, _) => CreateKeepsAgreementIff(s, stream, untracked, op);
    case Add(_, _, _, _, _) => AddKeepsAgreementIff(s, stream, untracked, op);
    case Clean(_, _) => CleanKeepsAgreementIff(s, stream, untracked, op);
    case Trim(_, _, _) => TrimKeepsAgreementIff(s, stream, untracked, op);
  }

  /** The agreement holds before and after every operation, and after every lapse. */
  ghost predicate AgreesThroughout(s: Store, ops: seq<Op>, stream: string, untracked: set<string>) {
    if ops == [] then Agree(s, stream, untracked)
    else
      var pre, op := ops[..|ops| - 1], ops[|ops| - 1];
      AgreesThroughout(s, pre, stream, untracked)
      && Agree(At(Run(s, pre), op.now), stream, untracked)
      && Agree(Run(s, ops), stream, untracked)
  }

  ghost predicate NeverBreaks(s: Store, ops: seq<Op>, stream: string, untracked: set<string>) {
    ops != [] ==>
      var pre, op := ops[..|ops| - 1], ops[|ops| - 1];
      NeverBreaks(s, pre, stream, untracked)
      && !LapseBreaks(Run(s, pre), stream, untracked, op.now)
      && !Breaks(At(Run(s, pre), op.now), op, stream)
  }

  lemma {:induction false} ThroughoutIncludesEnd(s: Store, ops: seq<Op>, stream: string, untracked: set<string>)
    requires AgreesThroughout(s, ops, stream, untracked)
    ensures Agree(Run(s, ops), stream, untracked)
  {
  }

  /** Index agreement over any run, with failures and lapsing keys anywhere: starting from a stream whose ids
      are the tracked ones and some untracked ones, it stays that way throughout exactly when no lapse and no
      operation of the run is one of those that break it. */
  lemma {:induction false} RunAgreesIff(s: Store, ops: seq<Op>, stream: string, untracked: set<string>)
    requires Agree(s, stream, untracked) && FreshIds(s, ops)
    ensures AgreesThroughout(s, ops, stream, untracked) <==> NeverBreaks(s, ops, stream, untracked)
  {
    if ops != [] {
      var pre, op := ops[..|ops| - 1], ops[|ops| - 1];
      RunAgreesIff(s, pre, stream, untracked);
      if AgreesThroughout(s, pre, stream, untracked) {
        ThroughoutIncludesEnd(s, pre, stream, untracked);
        LapseKeepsAgreementIff(Run(s, pre), stream, untracked, op.now);
        if Agree(At(Run(s, pre), op.now), stream, untracked) {
          DoKeepsAgreementIff(At(Run(s, pre), op.now), stream, untracked, op);
        }
      }
    }
  }

  /** So the ids of the stream are the tracked ids and the untracked ones it started with. */
  lemma IndexAgrees(s: Store, ops: seq<Op>, stream: string, untracked: set<string>)
    requires Agree(s, stream, untracked) && FreshIds(s, ops) && NeverBreaks(s, ops, stream, untracked)
    ensures Messages(Run(s, ops), stream).Keys == TrackedIds(Run(s, ops), stream) + untracked
    ensures TrackedIds(Run(s, ops), stream) !! untracked
  {
    RunAgreesIff(s, ops, stream, untracked);
    ThroughoutIncludesEnd(s, ops, stream, untracked);
  }

  /** What the service starts from: each stream it creates holds one untracked entry and lapses in an hour. */
  lemma {:induction false} InitializeAgrees(order: seq<string>, ids: map<string, string>, now: int, stream: string)
    requires forall k :: k in order ==> k in ids
    ensures var s := CreateAll(Store(map[], map[]), order, ids, now);
            && s.tracking == map[] && (stream in s.streams <==> stream in order)
            && (stream in order ==> s.streams[stream] == Stream(map[ids[stream] := Init], Some(now + 3_600_000)))
            && Agree(s, stream, if stream in order then {ids[stream]} else {})
  {
    if order != [] {
      var n := |order| - 1;
      InitializeAgrees(order[..n], ids, now, stream);
      assert order == order[..n] + [order[n]];
    }
  }

  /** A stream created that way lapses with its untracked entry an hour later: the agreement cannot survive
      its own start for longer. */
  lemma CreatedStreamBreaks(s: Store, stream: string, id: string, now: int, later: int)
    requires stream !in s.streams && now + HOUR <= later
    ensures LapseBreaks(AfterCreate(s, stream, id, now), stream, {id}, later)
  {
  }
}
