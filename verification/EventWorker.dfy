/** The per-subscription event worker: a chunked block scan whose cursor survives from poll to poll. */
module EventWorker {
  import opened Wrappers
  import opened GoNumbers
  import opened BlockRanges

  /** One tick: the block number the node reports (None when the call fails or does not parse) and the
      chunk starts whose log query fails. */
  datatype Poll = Poll(current: Option<nat>, failing: set<nat>)

  /** The persistent cursor, and every block handed to processLog so far, in order. */
  datatype Scan = Scan(cursor: nat, processed: seq<nat>)

  predicate Succeeds(c: Chunk, failing: set<nat>) {
    c.lo !in failing
  }

  function Blocks(lo: nat, hi: nat): seq<nat>
    requires lo <= hi + 1
  {
    seq(hi + 1 - lo, i requires 0 <= i => lo + i)
  }

  /** The cursor ends on the last chunk that succeeded. */
  function CursorAfter(cs: seq<Chunk>, failing: set<nat>, start: nat): nat {
    if cs == [] then start
    else if Succeeds(cs[|cs| - 1], failing) then cs[|cs| - 1].hi
    else CursorAfter(cs[..|cs| - 1], failing, start)
  }

  function ProcessedBy(cs: seq<Chunk>, failing: set<nat>): seq<nat>
    requires forall i :: 0 <= i < |cs| ==> cs[i].lo <= cs[i].hi
  {
    if cs == [] then []
    else
      var c := cs[|cs| - 1];
      ProcessedBy(cs[..|cs| - 1], failing) + (if Succeeds(c, failing) then Blocks(c.lo, c.hi) else [])
  }

  function PollChunks(cursor: nat, p: Poll, size: nat): (cs: seq<Chunk>)
    requires size > 0
    ensures forall i :: 0 <= i < |cs| ==> cs[i].lo <= cs[i].hi
  {
    if p.current == None || p.current.value <= cursor then []
    else
      ChunksTile(cursor + 1, p.current.value, size);
      Chunks(cursor + 1, p.current.value, size)
  }

  function PollStep(s: Scan, p: Poll, size: nat): Scan
    requires size > 0
  {
    var cs := PollChunks(s.cursor, p, size);
    Scan(CursorAfter(cs, p.failing, s.cursor), s.processed + ProcessedBy(cs, p.failing))
  }

  function Run(s: Scan, polls: seq<Poll>, size: nat): Scan
    requires size > 0
  {
    if polls == [] then s
    else PollStep(Run(s, polls[..|polls| - 1], size), polls[|polls| - 1], size)
  }

  lemma AddChunk(done: seq<Chunk>, c: Chunk, failing: set<nat>, start: nat)
    requires forall i :: 0 <= i < |done| ==> done[i].lo <= done[i].hi
    requires c.lo <= c.hi
    ensures CursorAfter(done + [c], failing, start) ==
            if Succeeds(c, failing) then c.hi else CursorAfter(done, failing, start)
    ensures ProcessedBy(done + [c], failing) ==
            ProcessedBy(done, failing) + (if Succeeds(c, failing) then Blocks(c.lo, c.hi) else [])
  {
  }

  /** done has been scanned, and what is left of all starts at fromBlock. */
  ghost predicate Splits(all: seq<Chunk>, done: seq<Chunk>, fromBlock: nat, current: nat, size: nat) {
    size > 0 && all == done + Chunks(fromBlock, current, size)
  }

  lemma SplitNext(all: seq<Chunk>, done: seq<Chunk>, fromBlock: nat, current: nat, size: nat)
    requires Splits(all, done, fromBlock, current, size) && fromBlock <= current
    ensures var hi := Min(fromBlock + size - 1, current);
            Splits(all, done + [Chunk(fromBlock, hi)], hi + 1, current, size)
  {
  }

  // ----- One chunk in uint64 arithmetic -----

  /** toBlock as the loop body computes it, with Go's wrap-around. */
  function ChunkEnd64(fromBlock: nat, current: nat, size: nat): nat {
    var to := (fromBlock + size - 1) % WORD;
    if to > current then current else to
  }

  function NextFrom64(toBlock: nat): nat {
    (toBlock + 1) % WORD
  }

  /** The loop makes progress on a chunk exactly when the range is positive and neither addition wraps;
      otherwise the next chunk starts at or below the present one. */
  lemma ChunkAdvances(fromBlock: nat, current: nat, size: nat)
    requires 0 < fromBlock <= current < WORD && size < WORD
    ensures NextFrom64(ChunkEnd64(fromBlock, current, size)) > fromBlock
       <==> 0 < size && fromBlock + size - 1 < WORD && ChunkEnd64(fromBlock, current, size) < WORD - 1
  {
  }

  lemma ChunkWithoutWrap(fromBlock: nat, current: nat, size: nat)
    requires 0 < size && 0 < fromBlock <= current && current + size < WORD
    ensures ChunkEnd64(fromBlock, current, size) == Min(fromBlock + size - 1, current)
    ensures NextFrom64(ChunkEnd64(fromBlock, current, size)) == Min(fromBlock + size - 1, current) + 1
  {
  }

  /** The worker's mutable part: entry.LastBlock, and the log of processed blocks. */
  class Worker {
    const maxBlockRange: nat
    var lastBlock: nat
    var processed: seq<nat>

    ghost function State(): Scan
      reads this
    {
      Scan(lastBlock, processed)
    }

    constructor (maxBlockRange: nat, lastBlock: nat)
      ensures this.maxBlockRange == maxBlockRange && State() == Scan(lastBlock, [])
    {
      this.maxBlockRange := maxBlockRange;
      this.lastBlock := lastBlock;
      processed := [];
    }

    /** A cursor of 0 means "not initialised". A failed block-number call leaves it at 0, so the first
        poll then scans from block 1 and not from the look-back point. */
    method InitialiseCursor(current: Option<nat>, lookback: nat)
      modifies this`lastBlock
      ensures old(lastBlock) != 0 ==> lastBlock == old(lastBlock)
      ensures old(lastBlock) == 0 && current == None ==> lastBlock == 0
      ensures old(lastBlock) == 0 && current.Some? ==>
                lastBlock <= current.value && current.value - lastBlock == Min(current.value, lookback)
    {
      if lastBlock == 0 {
        if current == None {
          lastBlock := 0;
        } else if current.value > lookback {
          lastBlock := current.value - lookback;
        } else {
          lastBlock := 0;
        }
      }
    }

    method PollEvents(p: Poll)
      requires 0 < maxBlockRange
      requires p.current.Some? ==> p.current.value + maxBlockRange < WORD
      modifies this
      ensures State() == PollStep(old(State()), p, maxBlockRange)
    {
      if p.current == None {
        return;
      }
      var current := p.current.value;
      if current <= lastBlock {
        return;
      }
      var fromBlock := lastBlock + 1;
      ghost var all := PollChunks(lastBlock, p, maxBlockRange);
      ghost var done: seq<Chunk> := [];
      while fromBlock <= current
        invariant old(lastBlock) < fromBlock <= current + 1
        invariant Splits(all, done, fromBlock, current, maxBlockRange)
        invariant forall i :: 0 <= i < |done| ==> done[i].lo <= done[i].hi
        invariant lastBlock == CursorAfter(done, p.failing, old(lastBlock))
        invariant processed == old(processed) + ProcessedBy(done, p.failing)
      {
        var toBlock := ChunkEnd64(fromBlock, current, maxBlockRange);
        var next := NextFrom64(toBlock);
        ChunkWithoutWrap(fromBlock, current, maxBlockRange);
        ghost var c := Chunk(fromBlock, toBlock);
        AddChunk(done, c, p.failing, old(lastBlock));
        SplitNext(all, done, fromBlock, current, maxBlockRange);
        done := done + [c];
        if fromBlock in p.failing {
          fromBlock := next;
          continue;
        }
        processed := processed + Blocks(fromBlock, toBlock);
        lastBlock := toBlock;
        fromBlock := next;
      }
      assert Chunks(fromBlock, current, maxBlockRange) == [];
      assert all == done;
    }
  }

  // ----- What one poll accounts for -----

  /** b was in a chunk that failed, and a later chunk of the same poll succeeded. */
  ghost predicate Skipped(cs: seq<Chunk>, failing: set<nat>, b: nat) {
    exists i, j :: 0 <= i < j < |cs| && cs[i].Contains(b) && !Succeeds(cs[i], failing) && Succeeds(cs[j], failing)
  }

  ghost predicate Increasing(s: seq<nat>) {
    forall i, j :: 0 <= i < j < |s| ==> s[i] < s[j]
  }

  ghost predicate AllWithin(s: seq<nat>, above: nat, upTo: nat) {
    forall b :: b in s ==> above < b <= upTo
  }

  lemma IncreasingConcat(s: seq<nat>, t: seq<nat>, mid: nat)
    requires Increasing(s) && Increasing(t)
    requires forall b :: b in s ==> b <= mid
    requires forall b :: b in t ==> mid < b
    ensures Increasing(s + t)
  {
    var u := s + t;
    forall i, j | 0 <= i < j < |u| ensures u[i] < u[j] {
      if i < |s| <= j {
        assert s[i] in s && t[j - |s|] in t;
      }
    }
  }

  /** A block is processed by a chunk list exactly when a successful chunk contains it. */
  lemma {:induction false} ProcessedIffInSuccess(cs: seq<Chunk>, failing: set<nat>, b: nat)
    requires forall i :: 0 <= i < |cs| ==> cs[i].lo <= cs[i].hi
    ensures b in ProcessedBy(cs, failing) <==>
              exists i :: 0 <= i < |cs| && cs[i].Contains(b) && Succeeds(cs[i], failing)
  {
    if cs != [] {
      var pre, c := cs[..|cs| - 1], cs[|cs| - 1];
      ProcessedIffInSuccess(pre, failing, b);
      assert forall i :: 0 <= i < |pre| ==> pre[i] == cs[i];
      if c.Contains(b) {
        assert Blocks(c.lo, c.hi)[b - c.lo] == b;
      }
    }
  }

  /** The cursor is the end of the last successful chunk, and stays put when there is none. */
  lemma {:induction false} CursorIsLastSuccess(cs: seq<Chunk>, failing: set<nat>, start: nat) returns (n: nat)
    ensures n <= |cs|
    ensures n == 0 ==> CursorAfter(cs, failing, start) == start
    ensures n > 0 ==> Succeeds(cs[n - 1], failing) && CursorAfter(cs, failing, start) == cs[n - 1].hi
    ensures forall j :: n <= j < |cs| ==> !Succeeds(cs[j], failing)
  {
    if cs == [] {
      n := 0;
    } else if Succeeds(cs[|cs| - 1], failing) {
      n := |cs|;
    } else {
      n := CursorIsLastSuccess(cs[..|cs| - 1], failing, start);
    }
  }

  lemma {:induction false} ProcessedIncreasing(cs: seq<Chunk>, failing: set<nat>, from: nat, to: nat, size: nat)
    requires Tiles(cs, from, to, size)
    ensures Increasing(ProcessedBy(cs, failing))
  {
    if cs != [] {
      var pre, c := cs[..|cs| - 1], cs[|cs| - 1];
      var mid := if pre == [] then from else pre[|pre| - 1].hi;
      assert pre != [] ==> Tiles(pre, from, mid, size);
      if pre != [] {
        ProcessedIncreasing(pre, failing, from, mid, size);
        forall b | b in ProcessedBy(pre, failing) ensures b <= mid {
          ProcessedIffInSuccess(pre, failing, b);
          var i :| 0 <= i < |pre| && pre[i].Contains(b) && Succeeds(pre[i], failing);
          TilesBelow(pre, from, mid, size, i);
        }
        IncreasingConcat(ProcessedBy(pre, failing), Blocks(c.lo, c.hi), mid);
      }
    }
  }

  /** Within one poll: the cursor stays in range, everything processed lies above the old cursor and up to
      the new one, and the blocks passed over without being processed are the skipped ones. */
  lemma PollAccounting(cursor: nat, p: Poll, size: nat)
    requires size > 0
    ensures var cs := PollChunks(cursor, p, size);
            var c := CursorAfter(cs, p.failing, cursor);
            && cursor <= c
            && (c == cursor || (p.current.Some? && c <= p.current.value))
            && Increasing(ProcessedBy(cs, p.failing))
            && AllWithin(ProcessedBy(cs, p.failing), cursor, c)
            && (forall b: nat :: Skipped(cs, p.failing, b) ==> cursor < b <= c)
            && (forall b: nat :: cursor < b <= c ==> (b in ProcessedBy(cs, p.failing) <==> !Skipped(cs, p.failing, b)))
  {
    var cs := PollChunks(cursor, p, size);
    if cs != [] {
      var to := p.current.value;
      ChunksTile(cursor + 1, to, size);
      var c := CursorAfter(cs, p.failing, cursor);
      var n := CursorIsLastSuccess(cs, p.failing, cursor);
      if n > 0 {
        TilesOrdered(cs, cursor + 1, to, size, n - 1, n - 1);
      }
      ProcessedIncreasing(cs, p.failing, cursor + 1, to, size);
      forall b: nat ensures b in ProcessedBy(cs, p.failing) ==> cursor < b <= c
                    ensures Skipped(cs, p.failing, b) ==> cursor < b <= c
                    ensures cursor < b <= c ==> (b in ProcessedBy(cs, p.failing) <==> !Skipped(cs, p.failing, b))
      {
        PollAccountsFor(cs, cursor, to, p.failing, size, n, b);
      }
    }
  }

  lemma PollAccountsFor(cs: seq<Chunk>, cursor: nat, to: nat, failing: set<nat>, size: nat, n: nat, b: nat)
    requires Tiles(cs, cursor + 1, to, size) && n <= |cs|
    requires n > 0 ==> Succeeds(cs[n - 1], failing)
    requires forall j :: n <= j < |cs| ==> !Succeeds(cs[j], failing)
    ensures var c := if n == 0 then cursor else cs[n - 1].hi;
            && (b in ProcessedBy(cs, failing) ==> cursor < b <= c)
            && (Skipped(cs, failing, b) ==> cursor < b <= c)
            && (cursor < b <= c ==> (b in ProcessedBy(cs, failing) <==> !Skipped(cs, failing, b)))
  {
    ProcessedIffInSuccess(cs, failing, b);
    forall i | 0 <= i < n && cs[i].Contains(b) ensures cursor < b <= cs[n - 1].hi {
      TilesOrdered(cs, cursor + 1, to, size, i, n - 1);
      TilesOrdered(cs, cursor + 1, to, size, i, i);
    }
    if n > 0 && cursor < b <= cs[n - 1].hi {
      var i := TilesCover(cs, cursor + 1, to, size, b, n);
      forall k | 0 <= k < |cs| && cs[k].Contains(b) ensures k == i {
        TilesOrdered(cs, cursor + 1, to, size, if i < k then i else k, if i < k then k else i);
      }
    }
  }

  // ----- Whole runs -----

  /** Some poll of the run skipped b. */
  ghost predicate SkippedInRun(s: Scan, polls: seq<Poll>, size: nat, b: nat)
    requires size > 0
  {
    polls != [] && (SkippedInRun(s, polls[..|polls| - 1], size, b) || SkippedAt(s, polls, size, |polls| - 1, b))
  }

  ghost predicate SkippedAt(s: Scan, polls: seq<Poll>, size: nat, i: nat, b: nat)
    requires size > 0 && i < |polls|
  {
    Skipped(PollChunks(Run(s, polls[..i], size).cursor, polls[i], size), polls[i].failing, b)
  }

  lemma RunPrefix(s: Scan, polls: seq<Poll>, size: nat, i: nat)
    requires size > 0 && i < |polls|
    ensures polls[..|polls| - 1][..i] == polls[..i]
  {
  }

  lemma {:induction false} CursorAdvances(c0: nat, polls: seq<Poll>, size: nat)
    requires size > 0
    ensures var s := Run(Scan(c0, []), polls, size);
            && c0 <= s.cursor
            && (s.cursor == c0 ||
                exists i :: 0 <= i < |polls| && polls[i].current.Some? && s.cursor <= polls[i].current.value)
  {
    if polls != [] {
      var n := |polls| - 1;
      CursorAdvances(c0, polls[..n], size);
      PollAccounting(Run(Scan(c0, []), polls[..n], size).cursor, polls[n], size);
      assert forall i :: 0 <= i < n ==> polls[..n][i] == polls[i];
    }
  }

  /** What a run has done about one block. */
  lemma {:induction false} BlockAccounting(c0: nat, polls: seq<Poll>, size: nat, b: nat)
    requires size > 0
    ensures var s := Run(Scan(c0, []), polls, size);
            && (b in s.processed ==> c0 < b <= s.cursor)
            && (SkippedInRun(Scan(c0, []), polls, size, b) ==> c0 < b <= s.cursor)
            && (c0 < b <= s.cursor ==> (b in s.processed <==> !SkippedInRun(Scan(c0, []), polls, size, b)))
  {
    if polls != [] {
      var n := |polls| - 1;
      BlockAccounting(c0, polls[..n], size, b);
      CursorAdvances(c0, polls[..n], size);
      PollAccounting(Run(Scan(c0, []), polls[..n], size).cursor, polls[n], size);
    }
  }

  lemma {:induction false} RunIncreasing(c0: nat, polls: seq<Poll>, size: nat)
    requires size > 0
    ensures Increasing(Run(Scan(c0, []), polls, size).processed)
  {
    if polls != [] {
      var n := |polls| - 1;
      RunIncreasing(c0, polls[..n], size);
      var s := Run(Scan(c0, []), polls[..n], size);
      PollAccounting(s.cursor, polls[n], size);
      forall b | b in s.processed ensures b <= s.cursor {
        BlockAccounting(c0, polls[..n], size, b);
      }
      IncreasingConcat(s.processed, ProcessedBy(PollChunks(s.cursor, polls[n], size), polls[n].failing), s.cursor);
    }
  }

  /** Scan accounting over any run of polls with arbitrary failures. Starting from cursor c0: nothing is
      processed twice (the processed blocks strictly increase), the cursor only moves up and never beyond a
      block number the node reported, and the blocks at or below the cursor that were not processed are
      exactly those skipped inside one poll. */
  lemma ScanAccounting(c0: nat, polls: seq<Poll>, size: nat)
    requires size > 0
    ensures var s := Run(Scan(c0, []), polls, size);
            && c0 <= s.cursor
            && (s.cursor == c0 ||
                exists i :: 0 <= i < |polls| && polls[i].current.Some? && s.cursor <= polls[i].current.value)
            && Increasing(s.processed)
            && AllWithin(s.processed, c0, s.cursor)
            && (forall b: nat :: SkippedInRun(Scan(c0, []), polls, size, b) ==> c0 < b <= s.cursor)
            && (forall b: nat :: c0 < b <= s.cursor ==>
                  (b in s.processed <==> !SkippedInRun(Scan(c0, []), polls, size, b)))
  {
    CursorAdvances(c0, polls, size);
    RunIncreasing(c0, polls, size);
    var s := Run(Scan(c0, []), polls, size);
    forall b: nat
      ensures b in s.processed ==> c0 < b <= s.cursor
      ensures SkippedInRun(Scan(c0, []), polls, size, b) ==> c0 < b <= s.cursor
      ensures c0 < b <= s.cursor ==> (b in s.processed <==> !SkippedInRun(Scan(c0, []), polls, size, b))
    {
      BlockAccounting(c0, polls, size, b);
    }
  }

  lemma {:induction false} SkippedSomewhere(s: Scan, polls: seq<Poll>, size: nat, b: nat) returns (i: nat)
    requires size > 0 && SkippedInRun(s, polls, size, b)
    ensures i < |polls| && SkippedAt(s, polls, size, i, b)
  {
    var n := |polls| - 1;
    if SkippedInRun(s, polls[..n], size, b) {
      i := SkippedSomewhere(s, polls[..n], size, b);
      RunPrefix(s, polls, size, i);
    } else {
      i := n;
    }
  }

  lemma {:induction false} SkippedCounts(s: Scan, polls: seq<Poll>, size: nat, i: nat, b: nat)
    requires size > 0 && i < |polls| && SkippedAt(s, polls, size, i, b)
    ensures SkippedInRun(s, polls, size, b)
  {
    if i < |polls| - 1 {
      RunPrefix(s, polls, size, i);
      SkippedCounts(s, polls[..|polls| - 1], size, i, b);
    }
  }

  lemma TrailIffNoneSkipped(s: Scan, polls: seq<Poll>, size: nat, i: nat)
    requires size > 0 && i < |polls|
    ensures FailuresTrail(PollChunks(Run(s, polls[..i], size).cursor, polls[i], size), polls[i].failing) <==>
            !exists b: nat :: SkippedAt(s, polls, size, i, b)
  {
    var cs := PollChunks(Run(s, polls[..i], size).cursor, polls[i], size);
    if !FailuresTrail(cs, polls[i].failing) {
      var k, j :| 0 <= k < j < |cs| && !Succeeds(cs[k], polls[i].failing) && Succeeds(cs[j], polls[i].failing);
      assert cs[k].Contains(cs[k].lo);
      assert SkippedAt(s, polls, size, i, cs[k].lo);
    }
  }

  /** No successful chunk comes after a failed one. */
  ghost predicate FailuresTrail(cs: seq<Chunk>, failing: set<nat>) {
    forall i, j :: 0 <= i < j < |cs| && !Succeeds(cs[i], failing) ==> !Succeeds(cs[j], failing)
  }

  /** Coverage is exactly once precisely when, in every poll, the failures are the last chunks. In
      particular it is when nothing fails. */
  lemma CoverageExactlyOnceIff(c0: nat, polls: seq<Poll>, size: nat)
    requires size > 0
    ensures var s0 := Scan(c0, []);
            var s := Run(s0, polls, size);
            (forall b: nat :: c0 < b <= s.cursor ==> b in s.processed) <==>
              forall i :: 0 <= i < |polls| ==>
                FailuresTrail(PollChunks(Run(s0, polls[..i], size).cursor, polls[i], size), polls[i].failing)
  {
    var s0 := Scan(c0, []);
    var s := Run(s0, polls, size);
    ScanAccounting(c0, polls, size);
    forall i: nat | i < |polls|
      ensures FailuresTrail(PollChunks(Run(s0, polls[..i], size).cursor, polls[i], size), polls[i].failing) <==>
              !exists b: nat :: SkippedAt(s0, polls, size, i, b)
    {
      TrailIffNoneSkipped(s0, polls, size, i);
    }
    forall i: nat, b: nat | i < |polls| && SkippedAt(s0, polls, size, i, b) ensures SkippedInRun(s0, polls, size, b) {
      SkippedCounts(s0, polls, size, i, b);
    }
    if b: nat :| c0 < b <= s.cursor && b !in s.processed {
      var i := SkippedSomewhere(s0, polls, size, b);
    }
  }

  // ----- Progress -----

  /** The last chunk of the poll succeeds, if the poll has any. */
  predicate EndsWell(cs: seq<Chunk>, failing: set<nat>) {
    cs == [] || Succeeds(cs[|cs| - 1], failing)
  }

  function Highest(c0: nat, polls: seq<Poll>): nat {
    if polls == [] then c0
    else
      var h, p := Highest(c0, polls[..|polls| - 1]), polls[|polls| - 1];
      if p.current.Some? && p.current.value > h then p.current.value else h
  }

  /** It is the highest block number reported, if that is above c0. */
  lemma {:induction false} HighestMeans(c0: nat, polls: seq<Poll>)
    ensures var h := Highest(c0, polls);
            && c0 <= h
            && (forall i :: 0 <= i < |polls| && polls[i].current.Some? ==> polls[i].current.value <= h)
            && (h == c0 || exists i :: 0 <= i < |polls| && polls[i].current == Some(h))
  {
    if polls != [] {
      var n := |polls| - 1;
      HighestMeans(c0, polls[..n]);
      assert forall i :: 0 <= i < n ==> polls[..n][i] == polls[i];
    }
  }

  /** A poll brings the cursor up to the block number it was given exactly when its last chunk succeeds. */
  lemma PollCatchesUpIff(cursor: nat, p: Poll, size: nat)
    requires size > 0 && p.current.Some? && p.current.value > cursor
    ensures var cs := PollChunks(cursor, p, size);
            CursorAfter(cs, p.failing, cursor) == p.current.value <==> EndsWell(cs, p.failing)
  {
    var cs := PollChunks(cursor, p, size);
    ChunksTile(cursor + 1, p.current.value, size);
    var n := CursorIsLastSuccess(cs, p.failing, cursor);
    if 0 < n < |cs| {
      TilesOrdered(cs, cursor + 1, p.current.value, size, n - 1, |cs| - 1);
    }
  }

  /** The scan makes progress: if the last chunk of every poll succeeds, in particular if no query fails, the
      cursor stands at the highest block number reported, and at its start when none was higher. */
  lemma {:induction false} ScanCatchesUp(c0: nat, polls: seq<Poll>, size: nat)
    requires size > 0
    requires forall i :: 0 <= i < |polls| ==>
               EndsWell(PollChunks(Run(Scan(c0, []), polls[..i], size).cursor, polls[i], size), polls[i].failing)
    ensures Run(Scan(c0, []), polls, size).cursor == Highest(c0, polls)
  {
    if polls != [] {
      var n := |polls| - 1;
      forall i | 0 <= i < n ensures polls[..n][..i] == polls[..i] {
      }
      ScanCatchesUp(c0, polls[..n], size);
      var s := Run(Scan(c0, []), polls[..n], size);
      if polls[n].current.Some? && polls[n].current.value > s.cursor {
        PollCatchesUpIff(s.cursor, polls[n], size);
      }
    }
  }

  /** Three chunks of which the middle one fails: the other two are processed and the cursor passes all. */
  lemma MiddleFails(c1: Chunk, c2: Chunk, c3: Chunk, failing: set<nat>, start: nat)
    requires c1.lo <= c1.hi && c2.lo <= c2.hi && c3.lo <= c3.hi
    requires Succeeds(c1, failing) && !Succeeds(c2, failing) && Succeeds(c3, failing)
    ensures ProcessedBy([c1, c2, c3], failing) == Blocks(c1.lo, c1.hi) + Blocks(c3.lo, c3.hi)
    ensures CursorAfter([c1, c2, c3], failing, start) == c3.hi
  {
    var one, two, three := [c1], [c1, c2], [c1, c2, c3];
    assert one[..0] == [] && two[..1] == one && three[..2] == two;
    assert ProcessedBy(one, failing) == Blocks(c1.lo, c1.hi);
    assert ProcessedBy(two, failing) == Blocks(c1.lo, c1.hi);
  }

  lemma SingleBlocks(from: nat, to: nat)
    requires from <= to
    ensures Chunks(from, to, 1) == [Chunk(from, from)] + Chunks(from + 1, to, 1)
  {
  }

  /** The gap the code can leave: block 2 fails between blocks 1 and 3, and the cursor moves past it. */
  lemma SkippedBlockExample()
    ensures var p := Poll(Some(3), {2});
            PollStep(Scan(0, []), p, 1) == Scan(3, [1, 3]) && Skipped(PollChunks(0, p, 1), p.failing, 2)
  {
    var p := Poll(Some(3), {2});
    SingleBlocks(1, 3);
    SingleBlocks(2, 3);
    SingleBlocks(3, 3);
    var cs := [Chunk(1, 1), Chunk(2, 2), Chunk(3, 3)];
    assert PollChunks(0, p, 1) == cs;
    MiddleFails(cs[0], cs[1], cs[2], p.failing, 0);
    assert cs[1].Contains(2) && !Succeeds(cs[1], p.failing) && Succeeds(cs[2], p.failing);
  }
}
