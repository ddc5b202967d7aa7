/** What the rotator is for: over any run of writes, the files on disk are one append-only log, cut short
    only at its old end. */
module LogRefinement {
  import opened Wrappers
  import opened LogRotator

  datatype Op = Write(p: seq<byte>, answers: Answers) | Close

  ghost function Step(l: Log, cfg: Config, op: Op): (Log, seq<byte>)
    requires Coherent(l)
  {
    match op
    case Write(p, a) => AfterWrite(l, cfg, p, a)
    case Close => (AfterClose(l), [])
  }

  lemma StepCoherent(l: Log, cfg: Config, op: Op)
    requires Coherent(l)
    ensures Coherent(Step(l, cfg, op).0)
  {
  }

  /** The state after a run, and every byte the run's writes got into a file. */
  ghost function Run(l: Log, cfg: Config, ops: seq<Op>): (r: (Log, seq<byte>))
    requires Coherent(l)
    ensures Coherent(r.0)
  {
    if ops == [] then (l, [])
    else
      var (l1, bytes) := Run(l, cfg, ops[..|ops| - 1]);
      StepCoherent(l1, cfg, ops[|ops| - 1]);
      var (l2, more) := Step(l1, cfg, ops[|ops| - 1]);
      (l2, bytes + more)
  }

  /** The number given to the file that a Write renames, if it renames one. */
  ghost function RenamedTo(l: Log, cfg: Config, p: seq<byte>, a: Answers): Option<nat>
    requires Coherent(l)
  {
    var l1 := if l.handle.isOpen then l else AfterOpen(l, a.now, a.mkdir1, a.stat1, a.open1);
    if l1.handle.isOpen && l1.handle.size + |p| > cfg.maxSize && a.close && a.rename
    then Some(NextSeq(l.disk.rotated, a.glob1)) else None
  }

  /** A rename replaces an existing file only if the directory listing failed and number 1 is taken. */
  lemma RenameOverwritesIff(l: Log, cfg: Config, p: seq<byte>, a: Answers)
    requires Coherent(l) && RenamedTo(l, cfg, p, a).Some?
    ensures RenamedTo(l, cfg, p, a).value in l.disk.rotated <==> !a.glob1 && 1 in l.disk.rotated
  {
  }

  // ----- The log as one byte sequence -----

  /** The rotated files numbered below n, oldest first. */
  ghost function Upto(rotated: map<nat, File>, n: nat): seq<byte> {
    if n == 0 then []
    else Upto(rotated, n - 1) + (if n - 1 in rotated then rotated[n - 1].data else [])
  }

  ghost function ActiveBytes(active: Option<File>): seq<byte> {
    if active == None then [] else active.value.data
  }

  ghost function Stream(d: Disk): seq<byte> {
    Upto(d.rotated, MaxSeq(d.rotated.Keys) + 1) + ActiveBytes(d.active)
  }

  ghost predicate IsSuffix(s: seq<byte>, t: seq<byte>) {
    |s| <= |t| && s == t[|t| - |s|..]
  }

  lemma {:induction false} UptoBeyond(rotated: map<nat, File>, n: nat, m: nat)
    requires n <= m && forall k :: k in rotated ==> k < n
    ensures Upto(rotated, m) == Upto(rotated, n)
  {
    if n < m {
      UptoBeyond(rotated, n, m - 1);
    }
  }

  lemma {:induction false} UptoSame(r1: map<nat, File>, r2: map<nat, File>, n: nat)
    requires forall k :: k < n ==> (k in r1 <==> k in r2)
    requires forall k :: k < n && k in r1 && k in r2 ==> r1[k].data == r2[k].data
    ensures Upto(r1, n) == Upto(r2, n)
  {
    if n > 0 {
      UptoSame(r1, r2, n - 1);
    }
  }

  lemma SuffixAppend(s: seq<byte>, t: seq<byte>, u: seq<byte>)
    requires IsSuffix(s, t)
    ensures IsSuffix(s + u, t + u)
  {
  }

  /** Dropping old files from a numbered set leaves a suffix, provided no file newer than a kept one goes. */
  lemma {:induction false} PruneLeavesSuffix(before: map<nat, File>, after: map<nat, File>, n: nat)
    requires after.Keys <= before.Keys
    requires forall k :: k in after ==> after[k] == before[k]
    requires forall j, k :: k in after && j in before && k < j ==> j in after
    ensures IsSuffix(Upto(after, n), Upto(before, n))
  {
    if n > 0 {
      PruneLeavesSuffix(before, after, n - 1);
      if n - 1 in before && n - 1 !in after {
        UptoSame(after, map[], n - 1);
        UptoBeyond(map[], 0, n - 1);
      } else if n - 1 in after {
        SuffixAppend(Upto(after, n - 1), Upto(before, n - 1), after[n - 1].data);
      }
    }
  }

  // ----- The clean-up keeps the newest files -----

  /** Modification times do not decrease with the sequence number, the active file is the newest, and none
      lies in the future. */
  ghost predicate TimesAscend(d: Disk, now: int) {
    && (forall j, k :: j in d.rotated && k in d.rotated && j < k ==> d.rotated[j].modTime <= d.rotated[k].modTime)
    && (forall k :: k in d.rotated ==> d.rotated[k].modTime <= now)
    && (d.active.Some? ==> d.active.value.modTime <= now)
    && (d.active.Some? ==> forall k :: k in d.rotated ==> d.rotated[k].modTime <= d.active.value.modTime)
  }

  /** The clean-up can list, stat and remove everything it wants to. */
  predicate CleansFreely(a: Answers) {
    a.glob1 && a.glob2 && a.unreadable == {} && a.stuck == {}
  }

  lemma AboveShrinks(keys: set<nat>, j: nat, k: nat)
    requires k < j && j in keys
    ensures |Above(keys, j)| < |Above(keys, k)|
  {
    assert Above(keys, j) < Above(keys, k) by {
      assert j in Above(keys, k);
    }
    SubsetSmaller(Above(keys, j), Above(keys, k));
  }

  lemma SubsetSmaller(s: set<nat>, t: set<nat>)
    requires s < t
    ensures |s| < |t|
  {
    var x :| x in t && x !in s;
    assert t == s + (t - s) && x in t - s;
  }

  lemma CleanupKeepsNewest(rotated: map<nat, File>, cfg: Config, a: Answers)
    requires CleansFreely(a)
    requires forall j, k :: j in rotated && k in rotated && j < k ==> rotated[j].modTime <= rotated[k].modTime
    ensures var after := AfterCleanup(rotated, cfg, a);
            forall j, k :: k in after && j in rotated && k < j ==> j in after
  {
    var after := AfterCleanup(rotated, cfg, a);
    var listed := rotated.Keys - a.unreadable;
    assert listed == rotated.Keys;
    forall j, k | k in after && j in rotated && k < j ensures j in after {
      AboveShrinks(rotated.Keys, j, k);
    }
  }

  /** Which rotated files a clean-up leaves: those it cannot list, stat or remove, and those that fewer than
      maxBackups listed files are newer than (if that is limited) and that are at most maxAge days old (if that
      is). */
  lemma CleanupLeaves(rotated: map<nat, File>, cfg: Config, a: Answers, k: nat)
    requires k in rotated
    ensures var newer := set j | j in rotated && j !in a.unreadable && j > k;
            k in AfterCleanup(rotated, cfg, a) <==>
              || !a.glob2 || k in a.unreadable || k in a.stuck
              || (&& (cfg.maxBackups <= 0 || |newer| < cfg.maxBackups)
                  && (cfg.maxAge <= 0 || rotated[k].modTime >= a.now - cfg.maxAge * 86_400))
    ensures k in AfterCleanup(rotated, cfg, a) ==> AfterCleanup(rotated, cfg, a)[k] == rotated[k]
  {
    assert Above(rotated.Keys - a.unreadable, k) == set j | j in rotated && j !in a.unreadable && j > k;
  }

  /** After a rotation whose clean-up is unhindered and with maxBackups > 0, at most maxBackups rotated
      files remain, each with fewer than maxBackups files numbered above it just before the clean-up. */
  lemma AtMostMaxBackups(rotated: map<nat, File>, cfg: Config, a: Answers)
    requires CleansFreely(a) && cfg.maxBackups > 0
    ensures var after := AfterCleanup(rotated, cfg, a);
            && |after| <= cfg.maxBackups
            && forall k :: k in after ==> |Above(rotated.Keys, k)| < cfg.maxBackups
  {
    var after := AfterCleanup(rotated, cfg, a);
    assert rotated.Keys - a.unreadable == rotated.Keys;
    if after.Keys != {} {
      var low := Lowest(after.Keys);
      assert after.Keys - {low} <= Above(rotated.Keys, low);
      SubsetCard(after.Keys - {low}, Above(rotated.Keys, low));
    }
  }

  /** The same for a whole Write that rotates. */
  lemma WriteKeepsAtMostMaxBackups(l: Log, cfg: Config, p: seq<byte>, a: Answers)
    requires Coherent(l) && CleansFreely(a) && cfg.maxBackups > 0
    requires RenamedTo(l, cfg, p, a).Some?
    ensures var after := AfterWrite(l, cfg, p, a).0.disk.rotated;
            && |after| <= cfg.maxBackups
            && forall k :: k in after ==>
                 |Above(l.disk.rotated.Keys + {RenamedTo(l, cfg, p, a).value}, k)| < cfg.maxBackups
  {
    var n := RenamedTo(l, cfg, p, a).value;
    var l1 := if l.handle.isOpen then l else AfterOpen(l, a.now, a.mkdir1, a.stat1, a.open1);
    var renamed := l.disk.rotated[n := l1.disk.active.value];
    AtMostMaxBackups(renamed, cfg, a);
    assert renamed.Keys == l.disk.rotated.Keys + {n};
  }

  lemma {:induction false} SubsetCard(s: set<nat>, t: set<nat>)
    requires s <= t
    ensures |s| <= |t|
  {
    if s != t {
      SubsetSmaller(s, t);
    }
  }

  lemma {:induction false} Lowest(keys: set<nat>) returns (m: nat)
    requires keys != {}
    ensures m in keys && forall k :: k in keys ==> m <= k
  {
    var x :| x in keys;
    m := x;
    if keys != {x} {
      var n := Lowest(keys - {x});
      assert forall k :: k in keys ==> k == x || k in keys - {x};
      m := if n < x then n else x;
    }
  }

  // ----- Refinement -----

  /** The rotation step proper: what was in the files before it, minus pruned old files, is there after. */
  lemma RotateKeepsSuffix(rotated: map<nat, File>, active: File, cfg: Config, a: Answers)
    requires CleansFreely(a) && TimesAscend(Disk(rotated, Some(active)), a.now)
    ensures var renamed := rotated[NextSeq(rotated, true) := active];
            var after := AfterCleanup(renamed, cfg, a);
            && IsSuffix(Stream(Disk(after, None)), Stream(Disk(rotated, Some(active))))
            && (after == renamed ==> Stream(Disk(after, None)) == Stream(Disk(rotated, Some(active))))
            && TimesAscend(Disk(after, None), a.now)
  {
    var n := NextSeq(rotated, true);
    var renamed := rotated[n := active];
    var after := AfterCleanup(renamed, cfg, a);
    RenameKeepsStream(rotated, active, n);
    RenameKeepsTimes(rotated, active, n, a.now);
    CleanupKeepsTimes(renamed, cfg, a, a.now);
    CleanupKeepsStream(renamed, cfg, a, n + 1);
  }

  lemma CleanupKeepsStream(rotated: map<nat, File>, cfg: Config, a: Answers, bound: nat)
    requires CleansFreely(a) && forall k :: k in rotated ==> k < bound
    requires forall j, k :: j in rotated && k in rotated && j < k ==> rotated[j].modTime <= rotated[k].modTime
    ensures var after := AfterCleanup(rotated, cfg, a);
            && IsSuffix(Stream(Disk(after, None)), Upto(rotated, bound))
            && (after == rotated ==> Stream(Disk(after, None)) == Upto(rotated, bound))
  {
    var after := AfterCleanup(rotated, cfg, a);
    CleanupKeepsNewest(rotated, cfg, a);
    PruneLeavesSuffix(rotated, after, bound);
    StreamUpto(after, bound);
  }

  lemma CleanupKeepsTimes(rotated: map<nat, File>, cfg: Config, a: Answers, now: int)
    requires TimesAscend(Disk(rotated, None), now)
    ensures TimesAscend(Disk(AfterCleanup(rotated, cfg, a), None), now)
    ensures AfterCleanup(rotated, cfg, a).Keys <= rotated.Keys
  {
  }

  /** The stream of rotated files alone, read with any bound above their numbers. */
  lemma StreamUpto(rotated: map<nat, File>, bound: nat)
    requires forall k :: k in rotated ==> k < bound
    ensures Stream(Disk(rotated, None)) == Upto(rotated, bound)
  {
  }

  lemma RenameKeepsStream(rotated: map<nat, File>, active: File, n: nat)
    requires n == NextSeq(rotated, true)
    ensures var renamed := rotated[n := active];
            Upto(renamed, n + 1) == Stream(Disk(rotated, Some(active))) && forall k :: k in renamed ==> k < n + 1
  {
    UptoSame(rotated[n := active], rotated, n);
  }

  lemma RenameKeepsTimes(rotated: map<nat, File>, active: File, n: nat, now: int)
    requires n == NextSeq(rotated, true) && TimesAscend(Disk(rotated, Some(active)), now)
    ensures TimesAscend(Disk(rotated[n := active], None), now)
  {
  }

  ghost predicate RemovesNothing(l: Log, cfg: Config, p: seq<byte>, a: Answers)
    requires Coherent(l)
  {
    var n := RenamedTo(l, cfg, p, a);
    n.Some? ==> l.disk.rotated.Keys + {n.value} <= AfterWrite(l, cfg, p, a).0.disk.rotated.Keys
  }

  lemma OpenKeepsStream(l: Log, now: int, mkdir: bool, stat: bool, open: bool)
    requires TimesAscend(l.disk, now)
    ensures var m := AfterOpen(l, now, mkdir, stat, open);
            Stream(m.disk) == Stream(l.disk) && TimesAscend(m.disk, now)
  {
  }

  lemma AppendToActive(rotated: map<nat, File>, f: File, bytes: seq<byte>, now: int)
    requires TimesAscend(Disk(rotated, Some(f)), now)
    ensures var d := Disk(rotated, Some(Append(f, bytes, now)));
            Stream(d) == Stream(Disk(rotated, Some(f))) + bytes && TimesAscend(d, now)
  {
  }

  lemma RotateRefines(l: Log, cfg: Config, a: Answers)
    requires l.disk.active.Some? && CleansFreely(a) && TimesAscend(l.disk, a.now)
    ensures var l2 := AfterRotate(l, cfg, a).0;
            && TimesAscend(l2.disk, a.now)
            && IsSuffix(Stream(l2.disk), Stream(l.disk))
            && (a.close && a.rename ==>
                  var renamed := l.disk.rotated[NextSeq(l.disk.rotated, true) := l.disk.active.value];
                  && l2.disk.rotated == AfterCleanup(renamed, cfg, a)
                  && (renamed.Keys <= l2.disk.rotated.Keys ==> Stream(l2.disk) == Stream(l.disk)))
            && (!(a.close && a.rename) ==> l2.disk == l.disk)
  {
    if a.close && a.rename {
      var renamed := l.disk.rotated[NextSeq(l.disk.rotated, true) := l.disk.active.value];
      var after := AfterCleanup(renamed, cfg, a);
      assert l.disk == Disk(l.disk.rotated, Some(l.disk.active.value));
      RotateKeepsSuffix(l.disk.rotated, l.disk.active.value, cfg, a);
      OpenKeepsStream(Log(Disk(after, None), Handle(false, 0)), a.now, a.mkdir2, a.stat2, a.open2);
      if renamed.Keys <= after.Keys {
        assert after == renamed;
      }
    }
  }

  /** The part of a write that follows the rotation check. */
  lemma AppendRefines(l2: Log, p: seq<byte>, a: Answers)
    requires l2.disk.active.Some? && TimesAscend(l2.disk, a.now)
    ensures var bytes := Take(p, a.accepted);
            var d := l2.disk.(active := Some(Append(l2.disk.active.value, bytes, a.now)));
            bytes <= p && Stream(d) == Stream(l2.disk) + bytes && TimesAscend(d, a.now)
  {
    assert l2.disk == Disk(l2.disk.rotated, Some(l2.disk.active.value));
    AppendToActive(l2.disk.rotated, l2.disk.active.value, Take(p, a.accepted), a.now);
  }

  lemma SuffixOfItself(s: seq<byte>)
    ensures IsSuffix(s, s)
  {
  }

  /** Opening and rotating only ever drop from the front. */
  lemma BeforeAppendRefines(l: Log, cfg: Config, p: seq<byte>, a: Answers)
    requires Coherent(l) && CleansFreely(a) && TimesAscend(l.disk, a.now)
    ensures var l2 := BeforeAppend(l, cfg, p, a).0;
            var n := RenamedTo(l, cfg, p, a);
            && TimesAscend(l2.disk, a.now)
            && IsSuffix(Stream(l2.disk), Stream(l.disk))
            && ((n.Some? ==> l.disk.rotated.Keys + {n.value} <= l2.disk.rotated.Keys) ==>
                  Stream(l2.disk) == Stream(l.disk))
  {
    var l1 := if l.handle.isOpen then l else AfterOpen(l, a.now, a.mkdir1, a.stat1, a.open1);
    OpenKeepsStream(l, a.now, a.mkdir1, a.stat1, a.open1);
    SuffixOfItself(Stream(l.disk));
    if l1.handle.isOpen && l1.handle.size + |p| > cfg.maxSize {
      assert BeforeAppend(l, cfg, p, a) == AfterRotate(l1, cfg, a);
      RotationDrops(l1, cfg, a);
    } else {
      assert BeforeAppend(l, cfg, p, a).0 == l1;
    }
  }

  lemma RotationDrops(l1: Log, cfg: Config, a: Answers)
    requires l1.disk.active.Some? && CleansFreely(a) && TimesAscend(l1.disk, a.now)
    ensures var l2 := AfterRotate(l1, cfg, a).0;
            var n := NextSeq(l1.disk.rotated, true);
            && TimesAscend(l2.disk, a.now)
            && IsSuffix(Stream(l2.disk), Stream(l1.disk))
            && ((a.close && a.rename ==> l1.disk.rotated.Keys + {n} <= l2.disk.rotated.Keys) ==>
                  Stream(l2.disk) == Stream(l1.disk))
  {
    RotateRefines(l1, cfg, a);
    var n := NextSeq(l1.disk.rotated, true);
    assert l1.disk.rotated[n := l1.disk.active.value].Keys == l1.disk.rotated.Keys + {n};
  }

  /** One write refines "append the accepted bytes", up to dropping from the front. */
  lemma WriteRefines(l: Log, cfg: Config, p: seq<byte>, a: Answers)
    requires Coherent(l) && CleansFreely(a) && TimesAscend(l.disk, a.now)
    ensures var (m, bytes) := AfterWrite(l, cfg, p, a);
            && TimesAscend(m.disk, a.now)
            && bytes <= p
            && IsSuffix(Stream(m.disk), Stream(l.disk) + bytes)
            && (RemovesNothing(l, cfg, p, a) ==> Stream(m.disk) == Stream(l.disk) + bytes)
  {
    BeforeAppendRefines(l, cfg, p, a);
    var (l2, ok) := BeforeAppend(l, cfg, p, a);
    if ok && l2.disk.active.Some? {
      AppendRefines(l2, p, a);
      SuffixAppend(Stream(l2.disk), Stream(l.disk), Take(p, a.accepted));
    } else {
      assert Stream(l.disk) + [] == Stream(l.disk);
    }
  }

  /** The clock of a run never goes back, and every clean-up in it is unhindered. Opening, closing,
      renaming, stat-ing the active file and writing may fail at will. */
  ghost predicate OrderlyRun(ops: seq<Op>, start: int) {
    && (forall i :: 0 <= i < |ops| && ops[i].Write? ==> start <= ops[i].answers.now && CleansFreely(ops[i].answers))
    && (forall i, j :: 0 <= i < j < |ops| && ops[i].Write? && ops[j].Write? ==>
          ops[i].answers.now <= ops[j].answers.now)
  }

  ghost predicate RunRemovesNothing(l: Log, cfg: Config, ops: seq<Op>)
    requires Coherent(l)
  {
    forall i :: 0 <= i < |ops| && ops[i].Write? ==>
      RemovesNothing(Run(l, cfg, ops[..i]).0, cfg, ops[i].p, ops[i].answers)
  }

  lemma TimesAscendLater(d: Disk, now: int, later: int)
    requires TimesAscend(d, now) && now <= later
    ensures TimesAscend(d, later)
  {
  }

  /** The last time a write of the run happened. */
  ghost function LastTime(ops: seq<Op>, start: int): int {
    if ops == [] then start
    else if ops[|ops| - 1].Write? then ops[|ops| - 1].answers.now
    else LastTime(ops[..|ops| - 1], start)
  }

  lemma {:induction false} LastTimeBounds(ops: seq<Op>, start: int, next: int)
    requires start <= next
    requires forall i :: 0 <= i < |ops| && ops[i].Write? ==> ops[i].answers.now <= next
    ensures LastTime(ops, start) <= next
  {
    if ops != [] {
      LastTimeBounds(ops[..|ops| - 1], start, next);
    }
  }

  lemma Extend(initial: seq<byte>, bytes: seq<byte>, s1: seq<byte>, more: seq<byte>, s2: seq<byte>)
    requires IsSuffix(s1, initial + bytes) && IsSuffix(s2, s1 + more)
    ensures IsSuffix(s2, initial + (bytes + more))
    ensures s1 == initial + bytes && s2 == s1 + more ==> s2 == initial + (bytes + more)
  {
  }

  /** The refinement theorem. From any directory whose modification times ascend, after any orderly run the
      retained files, oldest first, followed by the active file, are a suffix of the initial contents
      followed by every byte accepted; and all of it if no clean-up of the run removed a file. */
  lemma {:induction false} FilesAreOneLog(l: Log, cfg: Config, ops: seq<Op>, start: int)
    requires Coherent(l) && TimesAscend(l.disk, start) && OrderlyRun(ops, start)
    ensures var (m, bytes) := Run(l, cfg, ops);
            && IsSuffix(Stream(m.disk), Stream(l.disk) + bytes)
            && (RunRemovesNothing(l, cfg, ops) ==> Stream(m.disk) == Stream(l.disk) + bytes)
            && TimesAscend(m.disk, LastTime(ops, start))
  {
    if ops == [] {
      assert Stream(l.disk) + [] == Stream(l.disk);
    } else {
      var n := |ops| - 1;
      var pre, op := ops[..n], ops[n];
      FilesAreOneLog(l, cfg, pre, start);
      var (l1, bytes) := Run(l, cfg, pre);
      var (l2, more) := Step(l1, cfg, op);
      if op.Write? {
        LastTimeBounds(pre, start, op.answers.now);
        TimesAscendLater(l1.disk, LastTime(pre, start), op.answers.now);
        WriteRefines(l1, cfg, op.p, op.answers);
      } else {
        assert Stream(l1.disk) + [] == Stream(l1.disk);
      }
      Extend(Stream(l.disk), bytes, Stream(l1.disk), more, Stream(l2.disk));
      if RunRemovesNothing(l, cfg, ops) {
        RemovesNothingPrefix(l, cfg, ops);
      }
    }
  }

  lemma RemovesNothingPrefix(l: Log, cfg: Config, ops: seq<Op>)
    requires Coherent(l) && ops != [] && RunRemovesNothing(l, cfg, ops)
    ensures RunRemovesNothing(l, cfg, ops[..|ops| - 1])
    ensures var op := ops[|ops| - 1];
            op.Write? ==> RemovesNothing(Run(l, cfg, ops[..|ops| - 1]).0, cfg, op.p, op.answers)
  {
    var pre := ops[..|ops| - 1];
    forall i | 0 <= i < |pre| && pre[i].Write?
      ensures RemovesNothing(Run(l, cfg, pre[..i]).0, cfg, pre[i].p, pre[i].answers)
    {
      assert pre[..i] == ops[..i];
    }
  }

  // ----- Sizes -----

  /** While the file is open, the tracked size is its length. */
  ghost predicate SizeTracked(l: Log) {
    l.handle.isOpen ==> l.disk.active.Some? && l.handle.size == |l.disk.active.value.data|
  }

  /** The file is about to be opened with data in it, and the stat before the open fails. */
  predicate StatMisses(l: Log, a: Answers) {
    && !l.handle.isOpen && a.mkdir1 && a.open1 && !a.stat1
    && l.disk.active.Some? && l.disk.active.value.data != []
  }

  /** A missed stat that counts: the file is then kept open, under a size that is too small. */
  predicate Misled(l: Log, cfg: Config, p: seq<byte>, a: Answers) {
    StatMisses(l, a) && (|p| <= cfg.maxSize || !a.close)
  }

  /** A write keeps the tracked size right in all error cases but that one. */
  lemma SizeTrackedIff(l: Log, cfg: Config, p: seq<byte>, a: Answers)
    requires SizeTracked(l)
    ensures SizeTracked(AfterWrite(l, cfg, p, a).0) <==> !Misled(l, cfg, p, a)
  {
  }

  /** At most maxSize long, or the bytes of one single write, or untouched since before the run. */
  ghost predicate WellSized(f: File, cfg: Config, ops: seq<Op>, initial: Disk) {
    || |f.data| <= cfg.maxSize
    || (exists i :: 0 <= i < |ops| && ops[i].Write? && f.data <= ops[i].p)
    || (initial.active.Some? && f.data == initial.active.value.data)
  }

  ghost predicate AllWellSized(d: Disk, cfg: Config, ops: seq<Op>, initial: Disk) {
    && (d.active.Some? ==> WellSized(d.active.value, cfg, ops, initial))
    && (forall k :: k in d.rotated && !(k in initial.rotated && d.rotated[k] == initial.rotated[k]) ==>
          WellSized(d.rotated[k], cfg, ops, initial))
  }

  /** No write of the run opens a file of which the stat misses the size and then keeps it open. */
  ghost predicate NeverMisled(l: Log, cfg: Config, ops: seq<Op>)
    requires Coherent(l)
  {
    forall i :: 0 <= i < |ops| && ops[i].Write? ==> !Misled(Run(l, cfg, ops[..i]).0, cfg, ops[i].p, ops[i].answers)
  }

  /** Every file a run produces is within bounds, whatever else fails. */
  lemma {:induction false} FilesStayBounded(l: Log, cfg: Config, ops: seq<Op>)
    requires SizeTracked(l) && NeverMisled(l, cfg, ops)
    ensures var m := Run(l, cfg, ops).0;
            SizeTracked(m) && AllWellSized(m.disk, cfg, ops, l.disk)
  {
    if ops != [] {
      var n := |ops| - 1;
      var pre, op := ops[..n], ops[n];
      assert forall i :: 0 <= i < n ==> pre[..i] == ops[..i];
      FilesStayBounded(l, cfg, pre);
      var l1 := Run(l, cfg, pre).0;
      WellSizedWeaken(l1.disk, cfg, ops, l.disk);
      if op.Write? {
        WriteStaysBounded(l1, cfg, op.p, op.answers, ops, l.disk);
      }
    }
  }

  lemma WellSizedWeaken(d: Disk, cfg: Config, ops: seq<Op>, initial: Disk)
    requires ops != [] && AllWellSized(d, cfg, ops[..|ops| - 1], initial)
    ensures AllWellSized(d, cfg, ops, initial)
  {
  }

  lemma WriteStaysBounded(l: Log, cfg: Config, p: seq<byte>, a: Answers, ops: seq<Op>, initial: Disk)
    requires SizeTracked(l) && !Misled(l, cfg, p, a)
    requires exists i :: 0 <= i < |ops| && ops[i] == Write(p, a)
    requires AllWellSized(l.disk, cfg, ops, initial)
    ensures var m := AfterWrite(l, cfg, p, a).0;
            SizeTracked(m) && AllWellSized(m.disk, cfg, ops, initial)
  {
    SizeTrackedIff(l, cfg, p, a);
    var (m, bytes) := AfterWrite(l, cfg, p, a);
    var i :| 0 <= i < |ops| && ops[i] == Write(p, a);
    assert bytes <= ops[i].p;
    if m.disk.active.Some? {
      assert WellSized(m.disk.active.value, cfg, ops, initial) by {
        BoundedActive(l, cfg, p, a);
        if m.disk.active.value.data == [] {
          assert m.disk.active.value.data <= ops[i].p;
        }
      }
    }
  }

  /** The active file after a write is unchanged, or within maxSize, or the bytes of this write alone. */
  lemma BoundedActive(l: Log, cfg: Config, p: seq<byte>, a: Answers)
    requires SizeTracked(l) && !Misled(l, cfg, p, a)
    requires AfterWrite(l, cfg, p, a).0.disk.active.Some?
    ensures var f := AfterWrite(l, cfg, p, a).0.disk.active.value;
            || |f.data| <= cfg.maxSize
            || f.data <= p
            || (l.disk.active.Some? && f.data == l.disk.active.value.data)
  {
  }

  // ----- Everything written is there -----

  /** What the writes of a run were asked to write, as far as their calls succeed and their files accept it. */
  ghost function Accepted(l: Log, cfg: Config, ops: seq<Op>): seq<byte>
    requires Coherent(l)
  {
    if ops == [] then []
    else
      var pre, op := ops[..|ops| - 1], ops[|ops| - 1];
      var l1 := Run(l, cfg, pre).0;
      Accepted(l, cfg, pre) +
      if op.Close? || !CallsSucceed(l1, cfg, op.p, op.answers) then []
      else if op.answers.accepted < |op.p| then op.p[..op.answers.accepted]
      else op.p
  }

  /** The bytes that a run counts as accepted are these. */
  lemma {:induction false} RunAccepts(l: Log, cfg: Config, ops: seq<Op>)
    requires Coherent(l)
    ensures Run(l, cfg, ops).1 == Accepted(l, cfg, ops)
  {
    if ops != [] {
      var n := |ops| - 1;
      RunAccepts(l, cfg, ops[..n]);
      if ops[n].Write? {
        WriteOutcome(Run(l, cfg, ops[..n]).0, cfg, ops[n].p, ops[n].answers);
      }
    }
  }

  /** All bytes that the run's writes were given. */
  function Payload(ops: seq<Op>): seq<byte> {
    if ops == [] then []
    else Payload(ops[..|ops| - 1]) + if ops[|ops| - 1].Write? then ops[|ops| - 1].p else []
  }

  /** No call before an append fails, and every append takes all it is given. */
  ghost predicate Unhindered(l: Log, cfg: Config, ops: seq<Op>)
    requires Coherent(l)
  {
    ops != [] ==>
      var pre, op := ops[..|ops| - 1], ops[|ops| - 1];
      && Unhindered(l, cfg, pre)
      && (op.Write? ==> CallsSucceed(Run(l, cfg, pre).0, cfg, op.p, op.answers) && op.answers.accepted >= |op.p|)
  }

  lemma {:induction false} UnhinderedAcceptsAll(l: Log, cfg: Config, ops: seq<Op>)
    requires Coherent(l) && Unhindered(l, cfg, ops)
    ensures Accepted(l, cfg, ops) == Payload(ops)
  {
    if ops != [] {
      UnhinderedAcceptsAll(l, cfg, ops[..|ops| - 1]);
    }
  }

  /** So, in an unhindered and orderly run, the files hold a suffix of what was there followed by every byte
      that was written, and all of it if no file was removed. */
  lemma EveryByteIsThere(l: Log, cfg: Config, ops: seq<Op>, start: int)
    requires Coherent(l) && TimesAscend(l.disk, start) && OrderlyRun(ops, start) && Unhindered(l, cfg, ops)
    ensures var d := Run(l, cfg, ops).0.disk;
            && IsSuffix(Stream(d), Stream(l.disk) + Payload(ops))
            && (RunRemovesNothing(l, cfg, ops) ==> Stream(d) == Stream(l.disk) + Payload(ops))
  {
    FilesAreOneLog(l, cfg, ops, start);
    RunAccepts(l, cfg, ops);
    UnhinderedAcceptsAll(l, cfg, ops);
  }
}
