/** Task streams and the sorted sets that track when their entries expire. Times are in milliseconds, scores
    in whole seconds. */
module StreamExpiration {
  import opened Wrappers

  const DISPATCHED := "task:dispatched"
  const COMPLETED := "task:completed"
  const FAILED := "task:failed"
  const RETRY := "task:retry"
  const SWEPT: seq<string> := [DISPATCHED, COMPLETED, FAILED, RETRY]
  const HOUR := 3_600_000

  /** The entry a stream is created with, or a task. */
  datatype Entry = Init | Task(id: int)

  /** A key of the store lives up to its deadline, for ever when it has none. */
  datatype Stream = Stream(entries: map<string, Entry>, deadline: Option<int>)

  /** A sorted set: member to score. The store drops the key with its last member. */
  datatype TrackSet = TrackSet(members: map<string, int>, deadline: Option<int>)

  datatype Store = Store(streams: map<string, Stream>, tracking: map<string, TrackSet>)

  /** The store calls of one clean-up that fail: the query of a stream, the deletion of an entry, the
      removal of a tracking member, of which a broken pipeline may carry out any part. */
  datatype Faults = Faults(query: set<string>, del: set<(string, string)>, untrack: set<(string, string)>)

  const NO_FAULTS := Faults({}, {}, {})

  /** How one addition goes: the older entries it trims, whether the entry and its tracking member are
      written, and how long the tracking set is then kept (None when that call fails). */
  datatype AddAnswers = AddAnswers(trimmed: set<string>, added: bool, tracked: bool, keep: Option<int>)

  // ----- Member names -----

  function Prefix(stream: string): string {
    stream + ":"
  }

  function Member(stream: string, id: string): string {
    Prefix(stream) + id
  }

  /** The message id in a member, if the member has the stream's prefix and something after it. */
  function Decode(stream: string, member: string): Option<string> {
    var p := Prefix(stream);
    if |member| > |p| && member[..|p|] == p then Some(member[|p|..]) else None
  }

  /** Decoding undoes encoding for every non-empty id, and yields nothing but encodings. */
  lemma DecodeIff(stream: string, member: string, id: string)
    ensures Decode(stream, member) == Some(id) <==> member == Member(stream, id) && id != ""
  {
  }

  function ExpirationKey(stream: string): string {
    "stream:expiration:" + stream
  }

  /** No two streams share a tracking set. */
  lemma ExpirationKeysDistinct(a: string, b: string)
    ensures ExpirationKey(a) == ExpirationKey(b) <==> a == b
  {
    assert ExpirationKey(a)[18..] == a && ExpirationKey(b)[18..] == b;
  }

  // ----- Operations -----

  function Messages(s: Store, stream: string): map<string, Entry> {
    if stream in s.streams then s.streams[stream].entries else map[]
  }

  function Tracking(s: Store, stream: string): map<string, int> {
    if stream in s.tracking then s.tracking[stream].members else map[]
  }

  function StreamDeadline(s: Store, stream: string): Option<int> {
    if stream in s.streams then s.streams[stream].deadline else None
  }

  function TrackDeadline(s: Store, stream: string): Option<int> {
    if stream in s.tracking then s.tracking[stream].deadline else None
  }

  predicate Lapsed(deadline: Option<int>, now: int) {
    deadline.Some? && deadline.value <= now
  }

  /** The store as an operation at `now` finds it: keys whose deadline has come are gone. */
  function At(s: Store, now: int): Store {
    Store(s.streams - (set k | k in s.streams && Lapsed(s.streams[k].deadline, now)),
          s.tracking - (set k | k in s.tracking && Lapsed(s.tracking[k].deadline, now)))
  }

  /** The first entry and an hour to live, for a stream that does not exist. */
  function AfterCreate(s: Store, stream: string, id: string, now: int): Store {
    if stream in s.streams then s
    else s.(streams := s.streams[stream := Stream(map[id := Init], Some(now + HOUR))])
  }

  function CreateAll(s: Store, order: seq<string>, ids: map<string, string>, now: int): Store
    requires forall k :: k in order ==> k in ids
  {
    if order == [] then s
    else
      var n := |order| - 1;
      AfterCreate(CreateAll(s, order[..n], ids, now), order[n], ids[order[n]], now)
  }

  /** All four streams give their entries an hour, and so has any other stream. */
  function Score(now: int): int {
    (now + HOUR) / 1000
  }

  /** The tracking entry, and then the set's own time to live. */
  function AfterTrack(s: Store, stream: string, id: string, now: int, keep: Option<int>): Store {
    var deadline := if keep.Some? then Some(now + keep.value) else TrackDeadline(s, stream);
    s.(tracking := s.tracking[stream := TrackSet(Tracking(s, stream)[Member(stream, id) := Score(now)], deadline)])
  }

  /** XADD under the id the store assigns, trimming older entries, then the tracking entry, whose failure
      is only logged. */
  function AfterAdd(s: Store, stream: string, id: string, task: int, now: int, a: AddAnswers): Store {
    if !a.added then s
    else
      var entries := (Messages(s, stream) - a.trimmed)[id := Task(task)];
      var t := s.(streams := s.streams[stream := Stream(entries, StreamDeadline(s, stream))]);
      if a.tracked then AfterTrack(t, stream, id, now, a.keep) else t
  }

  /** The ids a query at `now` returns for a stream: decodable members with a score from 0 to now. */
  function ExpiredIds(s: Store, stream: string, now: int): set<string> {
    set m | m in Tracking(s, stream) && 0 <= Tracking(s, stream)[m] <= now / 1000 && Decode(stream, m).Some?
      :: Decode(stream, m).value
  }

  function MembersOf(stream: string, ids: set<string>): set<string> {
    set id | id in ids :: Member(stream, id)
  }

  /** The ids of a stream for which the store call does not fail. */
  function Spared(stream: string, ids: set<string>, failing: set<(string, string)>): set<string> {
    set id | id in ids && (stream, id) !in failing
  }

  /** Removing members; the key goes with the last one. */
  function Without(tracking: map<string, TrackSet>, stream: string, members: set<string>): map<string, TrackSet> {
    if stream !in tracking then tracking
    else
      var left := tracking[stream].members - members;
      if left.Keys == {} then tracking - {stream} else tracking[stream := tracking[stream].(members := left)]
  }

  function WithoutEntries(streams: map<string, Stream>, stream: string, ids: set<string>): map<string, Stream> {
    if stream !in streams then streams
    else streams[stream := streams[stream].(entries := streams[stream].entries - ids)]
  }

  /** What the clean-up does to one stream once it has the expired ids. */
  function SweepStream(s: Store, stream: string, ids: set<string>, f: Faults): Store {
    if ids == {} then s
    else
      Store(WithoutEntries(s.streams, stream, Spared(stream, ids, f.del)),
            Without(s.tracking, stream, MembersOf(stream, Spared(stream, ids, f.untrack))))
  }

  function Found(s: Store, stream: string, now: int, f: Faults): set<string> {
    if stream in f.query then {} else ExpiredIds(s, stream, now)
  }

  /** The clean-up over a list of streams. */
  function Sweep(s: Store, streams: seq<string>, now: int, f: Faults): Store {
    if streams == [] then s
    else
      var n := |streams| - 1;
      var t := Sweep(s, streams[..n], now, f);
      SweepStream(t, streams[n], Found(s, streams[n], now, f), f)
  }

  /** A periodic trim drops some entries of a stream and leaves the tracking sets alone. */
  function AfterTrim(s: Store, stream: string, dropped: set<string>): Store {
    s.(streams := WithoutEntries(s.streams, stream, dropped))
  }

  class TaskStreamManager {
    var streams: map<string, Stream>
    var tracking: map<string, TrackSet>

    ghost function State(): Store
      reads this
    {
      Store(streams, tracking)
    }

    constructor ()
      ensures State() == Store(map[], map[])
    {
      streams, tracking := map[], map[];
    }

    /** What the store itself does as time goes by. */
    method Lapse(now: int)
      modifies this
      ensures State() == At(old(State()), now)
      ensures forall k :: k in streams <==>
                k in old(streams) && !(old(streams)[k].deadline.Some? && old(streams)[k].deadline.value <= now)
      ensures forall k :: k in tracking <==>
                k in old(tracking) && !(old(tracking)[k].deadline.Some? && old(tracking)[k].deadline.value <= now)
    {
      streams := streams - (set k | k in streams && Lapsed(streams[k].deadline, now));
      tracking := tracking - (set k | k in tracking && Lapsed(tracking[k].deadline, now));
    }

    /** Creates the streams in some order, up to the first that fails. */
    method Initialize(order: seq<string>, ids: map<string, string>, works: nat, now: int) returns (ok: bool)
      requires forall k :: k in order ==> k in ids
      modifies this
      ensures ok == (works >= |order|)
      ensures State() == CreateAll(At(old(State()), now), if ok then order else order[..works], ids, now)
    {
      Lapse(now);
      for i := 0 to |order|
        invariant i <= works && State() == CreateAll(At(old(State()), now), order[..i], ids, now)
      {
        assert order[..i + 1][..i] == order[..i];
        if i == works {
          return false;
        }
        CreateStreamIfNotExists(order[i], ids[order[i]], now);
      }
      assert order[..|order|] == order;
      return true;
    }

    method CreateStreamIfNotExists(stream: string, id: string, now: int)
      modifies this`streams
      ensures State() == AfterCreate(old(State()), stream, id, now)
    {
      if stream !in streams {
        streams := streams[stream := Stream(map[id := Init], Some(now + HOUR))];
      }
    }

    /** The set is kept for an hour from each addition, unless that call fails. */
    method AddTaskToStream(stream: string, id: string, task: int, now: int,
                           trimmed: set<string>, added: bool, tracked: bool, renewed: bool)
      returns (ok: bool)
      modifies this
      ensures ok == added
      ensures var a := AddAnswers(trimmed, added, tracked, if renewed then Some(HOUR) else None);
              State() == AfterAdd(At(old(State()), now), stream, id, task, now, a)
      ensures added ==> stream in streams && id in streams[stream].entries && streams[stream].entries[id] == Task(task)
      ensures added && tracked ==>
                && stream in tracking && stream + ":" + id in tracking[stream].members
                && tracking[stream].members[stream + ":" + id] == (now + 3_600_000) / 1000
                && (renewed ==> tracking[stream].deadline == Some(now + 3_600_000))
    {
      Lapse(now);
      if !added {
        return false;
      }
      var before := if stream in streams then streams[stream] else Stream(map[], None);
      streams := streams[stream := Stream((before.entries - trimmed)[id := Task(task)], before.deadline)];
      if tracked {
        AddMessageExpiration(stream, id, now, if renewed then Some(HOUR) else None);
      }
      return true;
    }

    method AddMessageExpiration(stream: string, id: string, now: int, keep: Option<int>)
      modifies this`tracking
      ensures State() == AfterTrack(old(State()), stream, id, now, keep)
      ensures stream in tracking && stream + ":" + id in tracking[stream].members
      ensures tracking[stream].members[stream + ":" + id] == (now + 3_600_000) / 1000
      ensures keep.Some? ==> tracking[stream].deadline == Some(now + keep.value)
    {
      var before := if stream in tracking then tracking[stream] else TrackSet(map[], None);
      tracking := tracking[stream := before.(members := before.members[stream + ":" + id := (now + HOUR) / 1000])];
      if keep.Some? {
        tracking := tracking[stream := tracking[stream].(deadline := Some(now + keep.value))];
      }
      assert tracking == AfterTrack(old(State()), stream, id, now, keep).tracking;
    }

    method GetExpiredMessages(stream: string, now: int, works: bool) returns (ids: seq<string>)
      ensures forall id :: id in ids <==> works && id in ExpiredIds(State(), stream, now)
    {
      ids := [];
      if !works || stream !in tracking {
        return;
      }
      var members := tracking[stream].members;
      var rest := members.Keys;
      while rest != {}
        invariant rest <= members.Keys
        invariant forall id :: id in ids <==>
                    exists m :: && m in members && m !in rest
                                && 0 <= members[m] <= now / 1000 && Decode(stream, m) == Some(id)
        decreases rest
      {
        var m :| m in rest;
        if 0 <= members[m] <= now / 1000 {
          var prefix := stream + ":";
          if |m| > |prefix| && m[..|prefix|] == prefix {
            ids := ids + [m[|prefix|..]];
          }
        }
        rest := rest - {m};
      }
    }

    /** Queries all streams first, then deletes stream by stream. */
    method CleanupExpiredStreamEntries(now: int, f: Faults)
      modifies this
      ensures State() == Sweep(At(old(State()), now), SWEPT, now, f)
    {
      Lapse(now);
      var found := QueryAll(now, f);
      SweepAll(found, now, f);
    }

    method SweepAll(found: seq<seq<string>>, ghost now: int, f: Faults)
      requires |found| == |SWEPT|
      requires forall j, id :: 0 <= j < |SWEPT| ==> (id in found[j] <==> id in Found(State(), SWEPT[j], now, f))
      modifies this
      ensures State() == Sweep(old(State()), SWEPT, now, f)
    {
      ghost var start := State();
      for i := 0 to |SWEPT|
        invariant State() == Sweep(start, SWEPT[..i], now, f)
      {
        assert SWEPT[..i + 1][..i] == SWEPT[..i];
        ghost var ids := Found(start, SWEPT[i], now, f);
        assert forall id :: id in found[i] <==> id in ids;
        if |found[i]| > 0 {
          assert found[i][0] in ids;
          CleanStream(SWEPT[i], found[i], ids, f);
        } else {
          assert ids == {};
        }
      }
      assert SWEPT[..|SWEPT|] == SWEPT;
    }

    /** The expired ids of each stream; a query that fails gives none. */
    method QueryAll(now: int, f: Faults) returns (found: seq<seq<string>>)
      ensures |found| == |SWEPT|
      ensures forall j, id :: 0 <= j < |SWEPT| ==> (id in found[j] <==> id in Found(State(), SWEPT[j], now, f))
    {
      found := [];
      for i := 0 to |SWEPT|
        invariant |found| == i
        invariant forall j, id :: 0 <= j < i ==> (id in found[j] <==> id in Found(State(), SWEPT[j], now, f))
      {
        var ids := GetExpiredMessages(SWEPT[i], now, SWEPT[i] !in f.query);
        found := found + [ids];
      }
    }

    method CleanStream(stream: string, list: seq<string>, ghost ids: set<string>, f: Faults)
      requires ids != {} && forall id :: id in list <==> id in ids
      modifies this
      ensures State() == SweepStream(old(State()), stream, ids, f)
    {
      DeleteEntries(stream, list, ids, f.del);
      RemoveMultipleMessageExpirations(stream, list, ids, f.untrack);
    }

    /** The loop over the messages of one stream. */
    method DeleteEntries(stream: string, list: seq<string>, ghost ids: set<string>, failing: set<(string, string)>)
      requires forall id :: id in list <==> id in ids
      modifies this`streams
      ensures streams == WithoutEntries(old(streams), stream, Spared(stream, ids, failing))
    {
      if stream !in streams {
        return;
      }
      var entries := streams[stream].entries;
      ghost var before := entries;
      for i := 0 to |list|
        invariant streams == old(streams)
        invariant entries == before - Spared(stream, Elements(list[..i]), failing)
      {
        SparedNext(stream, list, i, failing);
        if (stream, list[i]) !in failing {
          entries := entries - {list[i]};
        }
      }
      assert list[..|list|] == list && Elements(list) == ids;
      streams := streams[stream := streams[stream].(entries := entries)];
    }

    method RemoveMultipleMessageExpirations(stream: string, list: seq<string>, ghost ids: set<string>,
                                            failing: set<(string, string)>)
      requires forall id :: id in list <==> id in ids
      modifies this`tracking
      ensures tracking == Without(old(tracking), stream, MembersOf(stream, Spared(stream, ids, failing)))
      ensures stream in tracking ==> tracking[stream].members.Keys != {}
    {
      if stream !in tracking {
        return;
      }
      var members := tracking[stream].members;
      ghost var before := members;
      for i := 0 to |list|
        invariant tracking == old(tracking)
        invariant members == before - MembersOf(stream, Spared(stream, Elements(list[..i]), failing))
      {
        SparedNext(stream, list, i, failing);
        OneMore(stream, Spared(stream, Elements(list[..i]), failing), list[i]);
        if (stream, list[i]) !in failing {
          members := members - {stream + ":" + list[i]};
        }
      }
      assert list[..|list|] == list && Elements(list) == ids;
      if members.Keys == {} {
        tracking := tracking - {stream};
      } else {
        tracking := tracking[stream := tracking[stream].(members := members)];
      }
    }
  }

  ghost function Elements(list: seq<string>): set<string> {
    set id | id in list
  }

  lemma OneMore(stream: string, ids: set<string>, id: string)
    ensures MembersOf(stream, ids + {id}) == MembersOf(stream, ids) + {Member(stream, id)}
  {
  }

  lemma SparedNext(stream: string, list: seq<string>, i: nat, failing: set<(string, string)>)
    requires i < |list|
    ensures var sofar := Spared(stream, Elements(list[..i]), failing);
            Spared(stream, Elements(list[..i + 1]), failing) ==
            if (stream, list[i]) in failing then sofar else sofar + {list[i]}
  {
    assert list[..i + 1] == list[..i] + [list[i]];
  }
}
