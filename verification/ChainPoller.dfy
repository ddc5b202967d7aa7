/** The task monitor's chain poller: every subscription is queried over every new block, ten at a time. */
module ChainPoller {
  import opened Wrappers
  import opened GoNumbers
  import opened BlockRanges

  const MAX_RANGE := 10

  /** One log query sent to the node, and whether the node answered it. */
  datatype Query = Query(sub: nat, chunk: Chunk, answered: bool)

  /** One tick: the block number the node reports, how many queries go out before the context ends, and which
      of them, by subscription and first block, fail. */
  datatype Tick = Tick(current: Option<nat>, budget: nat, failing: set<(nat, nat)>)

  /** `stopped` is a poller whose context was cancelled and which has returned. */
  datatype Poller = Poller(lastBlock: nat, queries: seq<Query>, stopped: bool)

  function QueriesFor(sub: nat, cs: seq<Chunk>, failing: set<(nat, nat)>): (qs: seq<Query>)
    ensures |qs| == |cs|
  {
    seq(|cs|, i requires 0 <= i < |cs| => Query(sub, cs[i], (sub, cs[i].lo) !in failing))
  }

  function AllQueries(subs: nat, cs: seq<Chunk>, failing: set<(nat, nat)>): seq<Query> {
    if subs == 0 then [] else AllQueries(subs - 1, cs, failing) + QueriesFor(subs - 1, cs, failing)
  }

  function NewChunks(lastBlock: nat, t: Tick): seq<Chunk> {
    if t.current == None || t.current.value <= lastBlock then []
    else Chunks(lastBlock + 1, t.current.value, MAX_RANGE)
  }

  function TickStep(p: Poller, subs: nat, t: Tick): Poller {
    var qs := AllQueries(subs, NewChunks(p.lastBlock, t), t.failing);
    if p.stopped || t.current == None || t.current.value <= p.lastBlock then p
    else if t.budget < |qs| then p.(queries := p.queries + qs[..t.budget], stopped := true)
    else p.(queries := p.queries + qs, lastBlock := t.current.value)
  }

  function Run(p: Poller, subs: nat, ticks: seq<Tick>): Poller {
    if ticks == [] then p
    else TickStep(Run(p, subs, ticks[..|ticks| - 1]), subs, ticks[|ticks| - 1])
  }

  lemma {:induction false} QueriesPrefix(subs: nat, cs: seq<Chunk>, failing: set<(nat, nat)>, i: nat)
    requires i < subs
    ensures AllQueries(i, cs, failing) + QueriesFor(i, cs, failing) <= AllQueries(subs, cs, failing)
  {
    if i + 1 < subs {
      QueriesPrefix(subs - 1, cs, failing, i);
    }
  }

  /** Stopping after n chunks of subscription i leaves a proper prefix of the full query list. */
  lemma StoppedAt(subs: nat, cs: seq<Chunk>, failing: set<(nat, nat)>, i: nat, n: nat)
    requires i < subs && n < |cs|
    ensures var sent := |AllQueries(i, cs, failing)| + n;
            && sent < |AllQueries(subs, cs, failing)|
            && AllQueries(i, cs, failing) + QueriesFor(i, cs, failing)[..n] == AllQueries(subs, cs, failing)[..sent]
  {
    QueriesPrefix(subs, cs, failing, i);
    PrefixCut(AllQueries(i, cs, failing), QueriesFor(i, cs, failing), AllQueries(subs, cs, failing), n);
  }

  lemma PrefixCut<T>(a: seq<T>, b: seq<T>, all: seq<T>, n: nat)
    requires a + b <= all && n < |b|
    ensures a + b[..n] == all[..|a| + n]
  {
  }

  class ChainPoller {
    const subs: nat
    var lastBlock: nat
    var queries: seq<Query>
    var stopped: bool

    ghost function State(): Poller
      reads this
    {
      Poller(lastBlock, queries, stopped)
    }

    /** The poller starts at the head of the chain it finds. */
    constructor (subs: nat, head: nat)
      ensures this.subs == subs && State() == Poller(head, [], false)
    {
      this.subs := subs;
      lastBlock := head;
      queries := [];
      stopped := false;
    }

    /** One tick of the poll loop. A failed query is not retried; the loop goes on to the next chunk. */
    method PollOnce(t: Tick)
      requires t.current.Some? ==> t.current.value + MAX_RANGE < WORD
      modifies this
      ensures State() == TickStep(old(State()), subs, t)
    {
      if stopped || t.current == None || t.current.value <= lastBlock {
        return;
      }
      var end := t.current.value;
      var finished := QueryAll(lastBlock + 1, end, t.budget, t.failing);
      if finished {
        lastBlock := end;
      } else {
        stopped := true;
      }
    }

    /** The loop over subscriptions. */
    method QueryAll(start: nat, end: nat, budget: nat, failing: set<(nat, nat)>) returns (finished: bool)
      requires 0 < start <= end && end + MAX_RANGE < WORD
      modifies this`queries
      ensures var all := AllQueries(subs, Chunks(start, end, MAX_RANGE), failing);
              && finished == (|all| <= budget)
              && queries == old(queries) + (if finished then all else all[..budget])
    {
      ghost var cs := Chunks(start, end, MAX_RANGE);
      ghost var before := queries;
      var sent := 0;
      for i := 0 to subs
        invariant queries == before + AllQueries(i, cs, failing)
        invariant sent == |AllQueries(i, cs, failing)| <= budget
      {
        var n, complete := QuerySubscription(i, start, end, budget - sent, failing);
        sent := sent + n;
        if !complete {
          StoppedAt(subs, cs, failing, i, n);
          return false;
        }
        assert QueriesFor(i, cs, failing)[..n] == QueriesFor(i, cs, failing);
      }
      return true;
    }

    /** The inner loop: the chunks of one subscription, until the range or the budget is used up. */
    method QuerySubscription(sub: nat, start: nat, end: nat, budget: nat, failing: set<(nat, nat)>)
      returns (sent: nat, finished: bool)
      requires 0 < start <= end && end + MAX_RANGE < WORD
      modifies this`queries
      ensures var cs := Chunks(start, end, MAX_RANGE);
              && finished == (|cs| <= budget)
              && sent == Min(|cs|, budget)
              && queries == old(queries) + QueriesFor(sub, cs, failing)[..sent]
    {
      var cur := start;
      ghost var cs := Chunks(start, end, MAX_RANGE);
      sent := 0;
      while cur <= end
        invariant start <= cur <= end + 1
        invariant sent <= |cs| && sent <= budget
        invariant cs[sent..] == Chunks(cur, end, MAX_RANGE)
        invariant queries == old(queries) + QueriesFor(sub, cs, failing)[..sent]
      {
        var chunkEnd := (cur + MAX_RANGE - 1) % WORD;
        if chunkEnd > end {
          chunkEnd := end;
        }
        assert cs[sent] == Chunk(cur, chunkEnd);
        assert cs[sent..][1..] == cs[sent + 1..];
        if sent == budget {
          return sent, false;
        }
        queries := queries + [Query(sub, Chunk(cur, chunkEnd), (sub, cur) !in failing)];
        sent := sent + 1;
        cur := chunkEnd + 1;
      }
      finished := true;
    }
  }

  // ----- How often a block is asked for -----

  /** The number of queries for subscription `sub` whose range contains block b. */
  ghost function Times(qs: seq<Query>, sub: nat, b: nat): nat {
    if qs == [] then 0
    else Times(qs[..|qs| - 1], sub, b)
         + (if qs[|qs| - 1].sub == sub && qs[|qs| - 1].chunk.Contains(b) then 1 else 0)
  }

  lemma {:induction false} TimesConcat(qs: seq<Query>, rs: seq<Query>, sub: nat, b: nat)
    ensures Times(qs + rs, sub, b) == Times(qs, sub, b) + Times(rs, sub, b)
  {
    if rs == [] {
      assert qs + rs == qs;
    } else {
      TimesConcat(qs, rs[..|rs| - 1], sub, b);
      assert (qs + rs)[..|qs + rs| - 1] == qs + rs[..|rs| - 1];
    }
  }

  lemma {:induction false} TimesInChunks(cs: seq<Chunk>, failing: set<(nat, nat)>, from: nat, to: nat,
                                              sub: nat, other: nat, b: nat)
    requires Tiles(cs, from, to, MAX_RANGE) && from <= to + 1
    ensures Times(QueriesFor(sub, cs, failing), other, b) == if sub == other && from <= b <= to then 1 else 0
  {
    if cs != [] {
      var pre, c := cs[..|cs| - 1], cs[|cs| - 1];
      assert QueriesFor(sub, cs, failing)[..|pre|] == QueriesFor(sub, pre, failing);
      if pre == [] {
        assert QueriesFor(sub, pre, failing) == [];
      } else {
        TilesAbove(cs, from, to, MAX_RANGE, |pre| - 1);
        TimesInChunks(pre, failing, from, pre[|pre| - 1].hi, sub, other, b);
      }
    }
  }

  lemma {:induction false} TimesInAll(subs: nat, cs: seq<Chunk>, failing: set<(nat, nat)>, from: nat, to: nat,
                                           sub: nat, b: nat)
    requires Tiles(cs, from, to, MAX_RANGE) && from <= to + 1
    ensures Times(AllQueries(subs, cs, failing), sub, b) == if sub < subs && from <= b <= to then 1 else 0
  {
    if subs > 0 {
      TimesInAll(subs - 1, cs, failing, from, to, sub, b);
      TimesInChunks(cs, failing, from, to, subs - 1, sub, b);
      TimesConcat(AllQueries(subs - 1, cs, failing), QueriesFor(subs - 1, cs, failing), sub, b);
    }
  }

  lemma TimesPrefix(qs: seq<Query>, n: nat, sub: nat, b: nat)
    requires n <= |qs|
    ensures Times(qs[..n], sub, b) <= Times(qs, sub, b)
  {
    assert qs == qs[..n] + qs[n..];
    TimesConcat(qs[..n], qs[n..], sub, b);
  }

  /** Per-subscription coverage over any run. While the poller is running, every block after the starting
      head and up to lastBlock has been asked for exactly once for each subscription, and no other block at
      all. A poller stopped in mid-poll has still asked for no block twice and for none below its start. */
  lemma {:induction false} CoverageExactlyOnce(head: nat, subs: nat, ticks: seq<Tick>, sub: nat, b: nat)
    ensures var p := Run(Poller(head, [], false), subs, ticks);
            && head <= p.lastBlock
            && (!p.stopped ==> Times(p.queries, sub, b) == if sub < subs && head < b <= p.lastBlock then 1 else 0)
            && Times(p.queries, sub, b) <= (if sub < subs && head < b then 1 else 0)
            && (sub < subs && head < b <= p.lastBlock ==> Times(p.queries, sub, b) == 1)
  {
    if ticks != [] {
      var n := |ticks| - 1;
      CoverageExactlyOnce(head, subs, ticks[..n], sub, b);
      var p := Run(Poller(head, [], false), subs, ticks[..n]);
      TickCoverage(p, subs, ticks[n], sub, b);
    }
  }

  /** A tick that runs to its end asks once for each (subscription, new block) pair and for nothing else. */
  lemma TickCoverage(p: Poller, subs: nat, t: Tick, sub: nat, b: nat)
    ensures var q := TickStep(p, subs, t);
            && p.lastBlock <= q.lastBlock
            && (!q.stopped ==>
                  Times(q.queries, sub, b) ==
                  Times(p.queries, sub, b) + (if sub < subs && p.lastBlock < b <= q.lastBlock then 1 else 0))
            && (q.stopped ==>
                  && q.lastBlock == p.lastBlock
                  && Times(p.queries, sub, b) <= Times(q.queries, sub, b)
                  && Times(q.queries, sub, b) <=
                     Times(p.queries, sub, b) + (if !p.stopped && sub < subs && p.lastBlock < b then 1 else 0))
  {
    if !p.stopped && t.current.Some? && t.current.value > p.lastBlock {
      var cs := NewChunks(p.lastBlock, t);
      var qs := AllQueries(subs, cs, t.failing);
      ChunksTile(p.lastBlock + 1, t.current.value, MAX_RANGE);
      TimesInAll(subs, cs, t.failing, p.lastBlock + 1, t.current.value, sub, b);
      TimesConcat(p.queries, qs, sub, b);
      if t.budget < |qs| {
        TimesConcat(p.queries, qs[..t.budget], sub, b);
        TimesPrefix(qs, t.budget, sub, b);
      }
    }
  }

  /** Every query of a run is for a non-empty range of at most ten blocks. */
  lemma {:induction false} QueriesAreShort(head: nat, subs: nat, ticks: seq<Tick>)
    ensures forall q :: q in Run(Poller(head, [], false), subs, ticks).queries ==>
              q.sub < subs && q.chunk.lo <= q.chunk.hi < q.chunk.lo + MAX_RANGE
  {
    if ticks != [] {
      var n := |ticks| - 1;
      QueriesAreShort(head, subs, ticks[..n]);
      var p := Run(Poller(head, [], false), subs, ticks[..n]);
      if ticks[n].current.Some? && ticks[n].current.value > p.lastBlock {
        ChunksTile(p.lastBlock + 1, ticks[n].current.value, MAX_RANGE);
        AllQueriesFromChunks(subs, NewChunks(p.lastBlock, ticks[n]), ticks[n].failing);
      }
    }
  }

  lemma {:induction false} AllQueriesFromChunks(subs: nat, cs: seq<Chunk>, failing: set<(nat, nat)>)
    ensures forall q :: q in AllQueries(subs, cs, failing) ==> q.sub < subs && q.chunk in cs
  {
    if subs > 0 {
      AllQueriesFromChunks(subs - 1, cs, failing);
    }
  }

  // ----- Which blocks were answered -----

  predicate Covers(q: Query, sub: nat, b: nat) {
    q.sub == sub && q.chunk.Contains(b)
  }

  predicate Answered(qs: seq<Query>, sub: nat, b: nat) {
    qs != [] && (var q := qs[|qs| - 1]; (Covers(q, sub, b) && q.answered) || Answered(qs[..|qs| - 1], sub, b))
  }

  lemma {:induction false} AnsweredMeans(qs: seq<Query>, sub: nat, b: nat)
    ensures Answered(qs, sub, b) <==> exists q :: q in qs && Covers(q, sub, b) && q.answered
  {
    if qs != [] {
      AnsweredMeans(qs[..|qs| - 1], sub, b);
      assert qs == qs[..|qs| - 1] + [qs[|qs| - 1]];
      assert Covers(qs[|qs| - 1], sub, b) ==> qs[|qs| - 1] in qs;
    }
  }

  /** The first block of the chunk that block b falls into in a scan from `from`. */
  function ChunkStart(from: nat, b: nat): nat
    requires from <= b
  {
    from + (b - from) / MAX_RANGE * MAX_RANGE
  }

  lemma {:induction false} ChunkAt(from: nat, to: nat, c: Chunk, b: nat)
    requires c in Chunks(from, to, MAX_RANGE) && c.Contains(b)
    ensures from <= b && c.lo == ChunkStart(from, b)
    decreases if from <= to then to - from + 1 else 0
  {
    var hi := Min(from + MAX_RANGE - 1, to);
    if c != Chunk(from, hi) {
      ChunkAt(hi + 1, to, c, b);
    }
  }

  lemma {:induction false} TimesPositiveIff(qs: seq<Query>, sub: nat, b: nat)
    ensures Times(qs, sub, b) > 0 <==> exists q :: q in qs && Covers(q, sub, b)
  {
    if qs != [] {
      TimesPositiveIff(qs[..|qs| - 1], sub, b);
      assert qs == qs[..|qs| - 1] + [qs[|qs| - 1]];
      assert Covers(qs[|qs| - 1], sub, b) ==> qs[|qs| - 1] in qs;
    }
  }

  lemma {:induction false} AnswersInAll(subs: nat, cs: seq<Chunk>, failing: set<(nat, nat)>, q: Query)
    requires q in AllQueries(subs, cs, failing)
    ensures q.chunk in cs && (q.answered <==> (q.sub, q.chunk.lo) !in failing)
  {
    if subs > 0 && q in AllQueries(subs - 1, cs, failing) {
      AnswersInAll(subs - 1, cs, failing, q);
    }
  }

  /** Of the pairs a tick covers, those whose chunk's query fails are the ones that go unanswered. */
  lemma TickAnswersIff(subs: nat, from: nat, to: nat, failing: set<(nat, nat)>, sub: nat, b: nat)
    requires sub < subs && from <= b <= to
    ensures Answered(AllQueries(subs, Chunks(from, to, MAX_RANGE), failing), sub, b) <==>
            (sub, ChunkStart(from, b)) !in failing
  {
    var cs := Chunks(from, to, MAX_RANGE);
    var qs := AllQueries(subs, cs, failing);
    ChunksTile(from, to, MAX_RANGE);
    TimesInAll(subs, cs, failing, from, to, sub, b);
    TimesPositiveIff(qs, sub, b);
    AnsweredMeans(qs, sub, b);
    forall q | q in qs && Covers(q, sub, b) ensures q.answered <==> (sub, ChunkStart(from, b)) !in failing {
      AnswersInAll(subs, cs, failing, q);
      ChunkAt(from, to, q.chunk, b);
    }
  }

  /** A run only adds queries and only moves lastBlock up. */
  lemma {:induction false} RunGrows(p: Poller, subs: nat, ticks: seq<Tick>, i: nat)
    requires i <= |ticks|
    ensures Run(p, subs, ticks[..i]).queries <= Run(p, subs, ticks).queries
    ensures Run(p, subs, ticks[..i]).lastBlock <= Run(p, subs, ticks).lastBlock
  {
    if i < |ticks| {
      var n := |ticks| - 1;
      RunGrows(p, subs, ticks[..n], i);
      assert ticks[..n][..i] == ticks[..i];
    } else {
      assert ticks[..i] == ticks;
    }
  }

  lemma RunStep(p: Poller, subs: nat, ticks: seq<Tick>, i: nat)
    requires i < |ticks|
    ensures Run(p, subs, ticks[..i + 1]) == TickStep(Run(p, subs, ticks[..i]), subs, ticks[i])
  {
    assert ticks[..i + 1][..i] == ticks[..i];
  }

  /** A failed query is never made up for: after any run, a (subscription, block) pair that the i-th tick, in
      state p, passed over has been answered exactly when the one query of that tick for its chunk did not
      fail. */
  lemma AnsweredIff(head: nat, subs: nat, ticks: seq<Tick>, i: nat, p: Poller, sub: nat, b: nat)
    requires i < |ticks| && sub < subs && p == Run(Poller(head, [], false), subs, ticks[..i])
    requires p.lastBlock < b <= TickStep(p, subs, ticks[i]).lastBlock
    ensures Answered(Run(Poller(head, [], false), subs, ticks).queries, sub, b) <==>
            (sub, ChunkStart(p.lastBlock + 1, b)) !in ticks[i].failing
  {
    var all := Run(Poller(head, [], false), subs, ticks).queries;
    OneQueryCovers(head, subs, ticks, i, sub, b);
    StepAnswersIff(p, subs, ticks[i], all, sub, b);
  }

  lemma OneQueryCovers(head: nat, subs: nat, ticks: seq<Tick>, i: nat, sub: nat, b: nat)
    requires i < |ticks| && sub < subs
    requires var p := Run(Poller(head, [], false), subs, ticks[..i]);
             p.lastBlock < b <= TickStep(p, subs, ticks[i]).lastBlock
    ensures var p := Run(Poller(head, [], false), subs, ticks[..i]);
            var all := Run(Poller(head, [], false), subs, ticks).queries;
            && Times(p.queries, sub, b) == 0 && Times(all, sub, b) == 1
            && TickStep(p, subs, ticks[i]).queries <= all
  {
    var start := Poller(head, [], false);
    RunStep(start, subs, ticks, i);
    RunGrows(start, subs, ticks, i + 1);
    TickSends(Run(start, subs, ticks[..i]), subs, ticks[i]);
    CoverageExactlyOnce(head, subs, ticks[..i], sub, b);
    CoverageExactlyOnce(head, subs, ticks, sub, b);
  }

  lemma StepAnswersIff(p: Poller, subs: nat, t: Tick, all: seq<Query>, sub: nat, b: nat)
    requires sub < subs && p.lastBlock < b <= TickStep(p, subs, t).lastBlock
    requires TickStep(p, subs, t).queries <= all
    requires Times(p.queries, sub, b) == 0 && Times(all, sub, b) == 1
    ensures Answered(all, sub, b) <==> (sub, ChunkStart(p.lastBlock + 1, b)) !in t.failing
  {
    TickSends(p, subs, t);
    MiddleAnswersIff(p.queries, subs, p.lastBlock + 1, t.current.value, t.failing, all, sub, b);
  }

  lemma TickSends(p: Poller, subs: nat, t: Tick)
    requires p.lastBlock < TickStep(p, subs, t).lastBlock
    ensures !p.stopped && t.current == Some(TickStep(p, subs, t).lastBlock)
    ensures TickStep(p, subs, t).queries ==
            p.queries + AllQueries(subs, Chunks(p.lastBlock + 1, t.current.value, MAX_RANGE), t.failing)
  {
  }

  lemma MiddleAnswersIff(before: seq<Query>, subs: nat, from: nat, to: nat, failing: set<(nat, nat)>,
                         all: seq<Query>, sub: nat, b: nat)
    requires sub < subs && from <= b <= to
    requires before + AllQueries(subs, Chunks(from, to, MAX_RANGE), failing) <= all
    requires Times(before, sub, b) == 0 && Times(all, sub, b) == 1
    ensures Answered(all, sub, b) <==> (sub, ChunkStart(from, b)) !in failing
  {
    var qs := AllQueries(subs, Chunks(from, to, MAX_RANGE), failing);
    ChunksTile(from, to, MAX_RANGE);
    TimesInAll(subs, Chunks(from, to, MAX_RANGE), failing, from, to, sub, b);
    TimesConcat(before, qs, sub, b);
    TickAnswersIff(subs, from, to, failing, sub, b);
    AnsweredInMiddle(before, qs, all, sub, b);
  }

  lemma AnsweredInMiddle(before: seq<Query>, qs: seq<Query>, all: seq<Query>, sub: nat, b: nat)
    requires before + qs <= all
    requires Times(before, sub, b) == 0 && Times(before + qs, sub, b) == 1 && Times(all, sub, b) == 1
    ensures Answered(all, sub, b) <==> Answered(qs, sub, b)
  {
    var rest := all[|before + qs|..];
    assert all == before + qs + rest;
    TimesConcat(before + qs, rest, sub, b);
    TimesPositiveIff(before, sub, b);
    TimesPositiveIff(rest, sub, b);
    AnsweredMeans(qs, sub, b);
    AnsweredMeans(all, sub, b);
    assert forall q :: q in all <==> q in before || q in qs || q in rest;
  }

  // ----- Progress -----

  /** The queries that a tick at block `current` takes: one for every ten new blocks or part of them, for each
      subscription. */
  function QueriesNeeded(subs: nat, lastBlock: nat, current: nat): nat
    requires lastBlock < current
  {
    subs * ((current - lastBlock + 9) / 10)
  }

  lemma {:induction false} AllQueriesCount(subs: nat, cs: seq<Chunk>, failing: set<(nat, nat)>)
    ensures |AllQueries(subs, cs, failing)| == subs * |cs|
  {
    if subs > 0 {
      AllQueriesCount(subs - 1, cs, failing);
      assert (subs - 1) * |cs| + |cs| == subs * |cs|;
    }
  }

  lemma {:induction false} ChunkCount(from: nat, to: nat)
    requires from <= to
    ensures |Chunks(from, to, MAX_RANGE)| == (to - from) / 10 + 1
    decreases if from <= to then to - from + 1 else 0
  {
    var hi := Min(from + MAX_RANGE - 1, to);
    if hi < to {
      ChunkCount(hi + 1, to);
    } else {
      assert Chunks(hi + 1, to, MAX_RANGE) == [];
    }
  }

  lemma NeededIsSent(subs: nat, lastBlock: nat, current: nat, failing: set<(nat, nat)>)
    requires lastBlock < current
    ensures |AllQueries(subs, Chunks(lastBlock + 1, current, MAX_RANGE), failing)| ==
            QueriesNeeded(subs, lastBlock, current)
  {
    var cs := Chunks(lastBlock + 1, current, MAX_RANGE);
    AllQueriesCount(subs, cs, failing);
    ChunkCount(lastBlock + 1, current);
    assert |cs| == (current - lastBlock + 9) / 10;
  }

  /** What a tick of a running poller comes to: nothing without a higher block; at a higher one it ends there
      if the context outlasts the queries it takes, and otherwise stops, having moved nothing. */
  lemma TickOutcome(p: Poller, subs: nat, t: Tick)
    requires !p.stopped
    ensures var q := TickStep(p, subs, t);
            if t.current == None || t.current.value <= p.lastBlock then q == p
            else
              var needed := QueriesNeeded(subs, p.lastBlock, t.current.value);
              && (q.stopped <==> t.budget < needed)
              && q.lastBlock == (if q.stopped then p.lastBlock else t.current.value)
              && |q.queries| == |p.queries| + if q.stopped then t.budget else needed
  {
    if t.current.Some? && t.current.value > p.lastBlock {
      NeededIsSent(subs, p.lastBlock, t.current.value, t.failing);
    }
  }

  function Highest(head: nat, ticks: seq<Tick>): nat {
    if ticks == [] then head
    else
      var h, t := Highest(head, ticks[..|ticks| - 1]), ticks[|ticks| - 1];
      if t.current.Some? && t.current.value > h then t.current.value else h
  }

  /** It is the highest block number reported, if that is above the head. */
  lemma {:induction false} HighestMeans(head: nat, ticks: seq<Tick>)
    ensures var h := Highest(head, ticks);
            && head <= h
            && (forall i :: 0 <= i < |ticks| && ticks[i].current.Some? ==> ticks[i].current.value <= h)
            && (h == head || exists i :: 0 <= i < |ticks| && ticks[i].current == Some(h))
  {
    if ticks != [] {
      var n := |ticks| - 1;
      HighestMeans(head, ticks[..n]);
      assert forall i :: 0 <= i < n ==> ticks[..n][i] == ticks[i];
    }
  }

  /** Some tick finds a block higher than all before it and the context too short for the queries it takes. */
  predicate FallsShort(head: nat, subs: nat, ticks: seq<Tick>) {
    ticks != [] &&
      var pre, t := ticks[..|ticks| - 1], ticks[|ticks| - 1];
      || FallsShort(head, subs, pre)
      || (t.current.Some? && t.current.value > Highest(head, pre)
          && t.budget < QueriesNeeded(subs, Highest(head, pre), t.current.value))
  }

  /** Progress over any run: the poller is stopped exactly when some tick's context falls short, and until
      then it stands at the highest block reported. */
  lemma {:induction false} PollerCatchesUp(head: nat, subs: nat, ticks: seq<Tick>)
    ensures var p := Run(Poller(head, [], false), subs, ticks);
            && (p.stopped <==> FallsShort(head, subs, ticks))
            && (!p.stopped ==> p.lastBlock == Highest(head, ticks))
  {
    if ticks != [] {
      var n := |ticks| - 1;
      var p := Run(Poller(head, [], false), subs, ticks[..n]);
      PollerCatchesUp(head, subs, ticks[..n]);
      if !p.stopped {
        TickOutcome(p, subs, ticks[n]);
      }
    }
  }
}
