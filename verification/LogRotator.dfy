/** The sequential log rotator: one byte stream cut into numbered files, the oldest of which are pruned. */
module LogRotator {
  import opened Wrappers

  newtype byte = x: int | 0 <= x < 256

  datatype File = File(data: seq<byte>, modTime: int)

  /** The files the rotator knows: rotated ones by sequence number, and the one without a number. */
  datatype Disk = Disk(rotated: map<nat, File>, active: Option<File>)

  datatype Config = Config(maxSize: int, maxAge: int, maxBackups: int)

  /** How the operating system answers during one Write: one entry per call the rotator can make. `accepted`
      is how many bytes the file took; `unreadable` and `stuck` are the rotated files that cannot be
      stat-ed or removed in a clean-up; the second open is the one that follows a rename. */
  datatype Answers = Answers(
    now: int,
    mkdir1: bool, stat1: bool, open1: bool,
    close: bool, glob1: bool, rename: bool,
    glob2: bool, unreadable: set<nat>, stuck: set<nat>,
    mkdir2: bool, stat2: bool, open2: bool,
    accepted: nat)

  /** The rotator's own two fields: whether it holds the file open, and the size it believes the file has. */
  datatype Handle = Handle(isOpen: bool, size: int)

  datatype Log = Log(disk: Disk, handle: Handle)

  const DAY := 86_400

  function Max(a: nat, b: nat): nat {
    if a < b then b else a
  }

  // ----- Specifications of the pieces -----

  /** The file without a number, created empty when it is missing. */
  function Opened(active: Option<File>, now: int): File {
    if active == None then File([], now) else active.value
  }

  function AfterOpen(l: Log, now: int, mkdir: bool, stat: bool, open: bool): Log {
    if !mkdir then l
    else
      var size := if l.disk.active.Some? && stat then |l.disk.active.value.data| else 0;
      if !open then l.(handle := l.handle.(size := size))
      else Log(l.disk.(active := Some(Opened(l.disk.active, now))), Handle(true, size))
  }

  /** The highest number in use, 0 when there is none. */
  ghost predicate IsMaxSeq(keys: set<nat>, m: nat) {
    && (forall k :: k in keys ==> k <= m)
    && (m in keys || m == 0)
  }

  lemma MaxSeqUnique(keys: set<nat>, m: nat, n: nat)
    requires IsMaxSeq(keys, m) && IsMaxSeq(keys, n)
    ensures m == n
  {
  }

  ghost function MaxSeq(keys: set<nat>): (m: nat)
    ensures IsMaxSeq(keys, m)
  {
    if keys == {} then 0
    else
      var k :| k in keys;
      assert forall x :: x in keys ==> x == k || x in keys - {k};
      Max(k, MaxSeq(keys - {k}))
  }

  ghost function NextSeq(rotated: map<nat, File>, glob: bool): nat {
    if glob then MaxSeq(rotated.Keys) + 1 else 1
  }

  /** How many of the listed numbers are above k. */
  ghost function Above(listed: set<nat>, k: nat): set<nat> {
    set j | j in listed && j > k
  }

  /** The two reasons to remove a listed file: maxBackups listed files are newer, or it is too old. */
  ghost predicate Prunable(rotated: map<nat, File>, listed: set<nat>, cfg: Config, now: int, k: nat)
    requires k in rotated
  {
    || (cfg.maxBackups > 0 && |Above(listed, k)| >= cfg.maxBackups)
    || (cfg.maxAge > 0 && rotated[k].modTime < now - cfg.maxAge * DAY)
  }

  ghost function AfterCleanup(rotated: map<nat, File>, cfg: Config, a: Answers): map<nat, File> {
    if !a.glob2 then rotated
    else
      var listed := rotated.Keys - a.unreadable;
      map k | k in rotated && !(k in listed && k !in a.stuck && Prunable(rotated, listed, cfg, a.now, k)) :: rotated[k]
  }

  ghost function AfterRotate(l: Log, cfg: Config, a: Answers): (Log, bool)
    requires l.disk.active.Some?
  {
    if !a.close then (l, false)
    else
      var closed := l.(handle := l.handle.(isOpen := false));
      if !a.rename then (closed, false)
      else
        var n := NextSeq(l.disk.rotated, a.glob1);
        var renamed := l.disk.rotated[n := l.disk.active.value];
        var swept := Log(Disk(AfterCleanup(renamed, cfg, a), None), Handle(false, 0));
        var reopened := AfterOpen(swept, a.now, a.mkdir2, a.stat2, a.open2);
        (reopened, reopened.handle.isOpen)
  }

  function Take(p: seq<byte>, n: nat): seq<byte> {
    if n < |p| then p[..n] else p
  }

  function Append(f: File, bytes: seq<byte>, now: int): File {
    if bytes == [] then f else File(f.data + bytes, now)
  }

  /** The part of a Write before the bytes go out: opening, and rotating if they would not fit. */
  ghost function BeforeAppend(l: Log, cfg: Config, p: seq<byte>, a: Answers): (Log, bool)
    requires Coherent(l)
  {
    var l1 := if l.handle.isOpen then l else AfterOpen(l, a.now, a.mkdir1, a.stat1, a.open1);
    if l1.handle.isOpen && l1.handle.size + |p| > cfg.maxSize then AfterRotate(l1, cfg, a)
    else (l1, l1.handle.isOpen)
  }

  /** One Write: the new state, and the bytes that reached the file. */
  ghost function AfterWrite(l: Log, cfg: Config, p: seq<byte>, a: Answers): (Log, seq<byte>)
    requires Coherent(l)
  {
    var (l2, ok) := BeforeAppend(l, cfg, p, a);
    if !ok || l2.disk.active == None then (l2, [])
    else
      var bytes := Take(p, a.accepted);
      (Log(l2.disk.(active := Some(Append(l2.disk.active.value, bytes, a.now))),
           l2.handle.(size := l2.handle.size + |bytes|)), bytes)
  }

  /** An open handle is a handle on a file that exists. */
  ghost predicate Coherent(l: Log) {
    l.handle.isOpen ==> l.disk.active.Some?
  }

  // ----- What a write comes to, call by call -----

  /** The size the rotator goes by: the one it tracks, or what it learns by opening the file. */
  function SizeSeen(l: Log, a: Answers): int {
    if l.handle.isOpen then l.handle.size
    else if l.disk.active.Some? && a.stat1 then |l.disk.active.value.data|
    else 0
  }

  predicate NeedsRotation(l: Log, cfg: Config, p: seq<byte>, a: Answers) {
    SizeSeen(l, a) + |p| > cfg.maxSize
  }

  /** The calls that a write makes before it appends, of which any failure ends it. */
  predicate CallsSucceed(l: Log, cfg: Config, p: seq<byte>, a: Answers) {
    && (l.handle.isOpen || (a.mkdir1 && a.open1))
    && (NeedsRotation(l, cfg, p, a) ==> a.close && a.rename && a.mkdir2 && a.open2)
  }

  /** The contents of the file that it appends to. */
  function AppendsTo(l: Log, cfg: Config, p: seq<byte>, a: Answers): seq<byte> {
    if NeedsRotation(l, cfg, p, a) || l.disk.active == None then [] else l.disk.active.value.data
  }

  /** If the calls before the append succeed, what the file takes of the bytes stands at its end, and all of
      them do if it takes them all; otherwise nothing is appended. A write that fits rotates nothing. */
  lemma WriteOutcome(l: Log, cfg: Config, p: seq<byte>, a: Answers)
    requires Coherent(l)
    ensures var (m, bytes) := AfterWrite(l, cfg, p, a);
            && (BeforeAppend(l, cfg, p, a).1 <==> CallsSucceed(l, cfg, p, a))
            && (CallsSucceed(l, cfg, p, a) ==>
                  && bytes == (if a.accepted < |p| then p[..a.accepted] else p)
                  && m.disk.active.Some? && m.disk.active.value.data == AppendsTo(l, cfg, p, a) + bytes)
            && (!CallsSucceed(l, cfg, p, a) ==> bytes == [])
            && (!NeedsRotation(l, cfg, p, a) ==> m.disk.rotated == l.disk.rotated)
  {
    var d := AppendsTo(l, cfg, p, a);
    assert d + [] == d;
  }

  function AfterClose(l: Log): Log {
    l.(handle := l.handle.(isOpen := false))
  }

  // ----- The rotator -----

  class SequentialRotator {
    const cfg: Config
    var rotated: map<nat, File>
    var active: Option<File>
    var isOpen: bool
    var size: int

    ghost function State(): Log
      reads this
    {
      Log(Disk(rotated, active), Handle(isOpen, size))
    }

    constructor (cfg: Config, disk: Disk)
      ensures this.cfg == cfg && State() == Log(disk, Handle(false, 0))
    {
      this.cfg := cfg;
      rotated, active := disk.rotated, disk.active;
      isOpen, size := false, 0;
    }

    method Write(p: seq<byte>, a: Answers) returns (n: nat, ok: bool)
      requires Coherent(State())
      modifies this
      ensures Coherent(State())
      ensures State() == AfterWrite(old(State()), cfg, p, a).0
      ensures n == |AfterWrite(old(State()), cfg, p, a).1|
      ensures ok <==> CallsSucceed(old(State()), cfg, p, a) && n == |p|
      ensures n == if !CallsSucceed(old(State()), cfg, p, a) then 0 else if a.accepted < |p| then a.accepted else |p|
      ensures CallsSucceed(old(State()), cfg, p, a) ==>
                active.Some? && active.value.data == AppendsTo(old(State()), cfg, p, a) + p[..n]
      ensures !NeedsRotation(old(State()), cfg, p, a) ==> rotated == old(rotated)
      ensures old(isOpen) && old(size) + |p| <= cfg.maxSize ==>
                rotated == old(rotated) && active.Some? && active.value.data == old(active.value.data) + p[..n]
      ensures old(isOpen) && old(size) + |p| > cfg.maxSize && n > 0 ==> active.Some? && active.value.data == p[..n]
    {
      WriteOutcome(State(), cfg, p, a);
      if !isOpen {
        var didOpen := OpenFile(a.now, a.mkdir1, a.stat1, a.open1);
        if !didOpen {
          return 0, false;
        }
      }
      if size + |p| > cfg.maxSize {
        var rotatedOk := Rotate(a);
        if !rotatedOk {
          return 0, false;
        }
      }
      var bytes := Take(p, a.accepted);
      active := Some(Append(active.value, bytes, a.now));
      size := size + |bytes|;
      return |bytes|, |bytes| == |p|;
    }

    /** Close gives the handle up even when the operating system reports an error. */
    method Close()
      modifies this`isOpen
      ensures State() == AfterClose(old(State())) && !isOpen
    {
      isOpen := false;
    }

    method OpenFile(now: int, mkdir: bool, stat: bool, open: bool) returns (ok: bool)
      requires !isOpen
      modifies this
      ensures State() == AfterOpen(old(State()), now, mkdir, stat, open)
      ensures ok == isOpen && Coherent(State())
      ensures ok <==> mkdir && open
      ensures ok ==> active == Some(if old(active).Some? then old(active.value) else File([], now))
      ensures ok ==> size == if old(active).Some? && stat then |old(active.value).data| else 0
    {
      if !mkdir {
        return false;
      }
      if active.Some? && stat {
        size := |active.value.data|;
      } else {
        size := 0;
      }
      if !open {
        return false;
      }
      active := Some(Opened(active, now));
      isOpen := true;
      return true;
    }

    method Rotate(a: Answers) returns (ok: bool)
      requires isOpen && active.Some?
      modifies this
      ensures (State(), ok) == AfterRotate(old(State()), cfg, a)
      ensures Coherent(State()) && (ok ==> isOpen)
      ensures ok <==> a.close && a.rename && a.mkdir2 && a.open2
    {
      if !a.close {
        return false;
      }
      isOpen := false;
      var nextSeq := GetNextSequenceNumber(a.glob1);
      if !a.rename {
        return false;
      }
      rotated, active := rotated[nextSeq := active.value], None;
      CleanupOldFiles(a);
      size := 0;
      ok := OpenFile(a.now, a.mkdir2, a.stat2, a.open2);
    }

    method GetNextSequenceNumber(glob: bool) returns (n: nat)
      ensures n == NextSeq(rotated, glob)
      ensures if glob then (forall k :: k in rotated ==> k < n) && (n == 1 || n - 1 in rotated) else n == 1
    {
      if !glob {
        return 1;
      }
      var files := Listing(rotated.Keys);
      var maxSeq := 0;
      for i := 0 to |files|
        invariant forall k :: k in files[..i] ==> k <= maxSeq
        invariant maxSeq in files[..i] || maxSeq == 0
      {
        if files[i] > maxSeq {
          maxSeq := files[i];
        }
        assert files[..i + 1] == files[..i] + [files[i]];
      }
      assert files[..|files|] == files;
      MaxSeqUnique(rotated.Keys, maxSeq, MaxSeq(rotated.Keys));
      return maxSeq + 1;
    }

    /** Lists the rotated files newest first, drops everything after the first maxBackups, then whatever of
        the rest is older than maxAge days. */
    method CleanupOldFiles(a: Answers)
      modifies this`rotated
      ensures rotated == AfterCleanup(old(rotated), cfg, a)
    {
      if !a.glob2 {
        return;
      }
      var stats := rotated;
      var infos := NewestFirst(rotated.Keys - a.unreadable);
      var keep := |infos|;
      if cfg.maxBackups > 0 && |infos| > cfg.maxBackups {
        keep := cfg.maxBackups;
      }
      RemoveBeyond(infos, keep, a.stuck);
      ghost var trimmed := rotated;
      if cfg.maxAge > 0 {
        assert forall k :: k in infos[..keep] ==> k in infos;
        RemoveOlder(infos[..keep], stats, a.now - cfg.maxAge * DAY, a.stuck);
      }
      CleanupMeetsSpec(stats, trimmed, rotated, infos, keep, cfg, a);
    }

    /** Removes every listed file from position keep on that can be removed. */
    method RemoveBeyond(infos: seq<nat>, keep: nat, stuck: set<nat>)
      requires keep <= |infos|
      modifies this`rotated
      ensures Swept(old(rotated), rotated, infos[keep..], old(rotated).Keys - stuck)
    {
      for i := keep to |infos|
        invariant Swept(old(rotated), rotated, infos[keep..i], old(rotated).Keys - stuck)
      {
        if infos[i] !in stuck {
          rotated := rotated - {infos[i]};
        }
        assert infos[keep..i + 1] == infos[keep..i] + [infos[i]];
      }
      assert infos[keep..|infos|] == infos[keep..];
    }

    /** Removes every listed file that was last modified before the cutoff and can be removed. */
    method RemoveOlder(infos: seq<nat>, stats: map<nat, File>, cutoff: int, stuck: set<nat>)
      requires forall k :: k in infos ==> k in stats
      modifies this`rotated
      ensures Swept(old(rotated), rotated, infos, Older(stats, cutoff) - stuck)
    {
      for i := 0 to |infos|
        invariant Swept(old(rotated), rotated, infos[..i], Older(stats, cutoff) - stuck)
      {
        assert infos[i] in infos;
        if stats[infos[i]].modTime < cutoff && infos[i] !in stuck {
          rotated := rotated - {infos[i]};
        }
        assert infos[..i + 1] == infos[..i] + [infos[i]];
      }
      assert infos[..|infos|] == infos;
    }

    /** A directory listing: the numbers in some order. */
    method Listing(keys: set<nat>) returns (s: seq<nat>)
      ensures forall k :: k in s <==> k in keys
    {
      s := [];
      var rest := keys;
      while rest != {}
        invariant rest <= keys
        invariant forall k :: k in s <==> k in keys && k !in rest
        decreases rest
      {
        var k :| k in rest;
        s := s + [k];
        rest := rest - {k};
      }
    }

    /** sort.Slice by descending sequence number. */
    method NewestFirst(keys: set<nat>) returns (s: seq<nat>)
      ensures Descending(s) && (forall k :: k in s <==> k in keys)
    {
      s := [];
      var rest := keys;
      while rest != {}
        invariant rest <= keys
        invariant Descending(s)
        invariant forall k :: k in s <==> k in keys && k !in rest
        invariant forall i, k :: 0 <= i < |s| && k in rest ==> k < s[i]
        decreases rest
      {
        var top := Highest(rest);
        s := s + [top];
        rest := rest - {top};
      }
    }

    method Highest(keys: set<nat>) returns (m: nat)
      requires keys != {}
      ensures m in keys && forall k :: k in keys ==> k <= m
    {
      m :| m in keys;
      var rest := keys - {m};
      while rest != {}
        invariant m in keys && rest <= keys
        invariant forall k :: k in keys && k !in rest ==> k <= m
        decreases rest
      {
        var k :| k in rest;
        if k > m {
          m := k;
        }
        rest := rest - {k};
      }
    }
  }

  /** after is before without those numbers of the list that are eligible. */
  ghost predicate Swept(before: map<nat, File>, after: map<nat, File>, list: seq<nat>, eligible: set<nat>) {
    && (forall k :: k in after <==> k in before && !(k in list && k in eligible))
    && (forall k :: k in after ==> after[k] == before[k])
  }

  ghost function Older(files: map<nat, File>, cutoff: int): set<nat> {
    set k | k in files && files[k].modTime < cutoff
  }

  /** The two passes over the sorted list remove exactly the prunable files that can be removed. */
  lemma CleanupMeetsSpec(before: map<nat, File>, trimmed: map<nat, File>, after: map<nat, File>,
                         infos: seq<nat>, keep: nat, cfg: Config, a: Answers)
    requires a.glob2 && Descending(infos)
    requires forall k :: k in infos <==> k in before.Keys - a.unreadable
    requires keep == if cfg.maxBackups > 0 && |infos| > cfg.maxBackups then cfg.maxBackups else |infos|
    requires Swept(before, trimmed, infos[keep..], before.Keys - a.stuck)
    requires if cfg.maxAge > 0
             then Swept(trimmed, after, infos[..keep], Older(before, a.now - cfg.maxAge * DAY) - a.stuck)
             else after == trimmed
    ensures after == AfterCleanup(before, cfg, a)
  {
    var listed := before.Keys - a.unreadable;
    var spec := AfterCleanup(before, cfg, a);
    forall k | k in before
      ensures k in after <==> k in spec
    {
      if k in listed {
        var i :| 0 <= i < |infos| && infos[i] == k;
        AboveIsIndex(infos, listed, i);
        DescendingSplit(infos, keep, i);
      } else {
        assert k !in infos[keep..] && k !in infos[..keep];
      }
    }
    assert after.Keys == spec.Keys;
  }

  ghost predicate Descending(s: seq<nat>) {
    forall i, j :: 0 <= i < j < |s| ==> s[j] < s[i]
  }

  lemma DescendingSplit(s: seq<nat>, keep: nat, i: nat)
    requires Descending(s) && i < |s| && keep <= |s|
    ensures s[i] in s[keep..] <==> keep <= i
    ensures s[i] in s[..keep] <==> i < keep
  {
  }

  /** In a descending list, the position of an entry is the number of entries above it. */
  lemma AboveIsIndex(s: seq<nat>, keys: set<nat>, i: nat)
    requires Descending(s) && (forall k :: k in s <==> k in keys)
    requires i < |s|
    ensures |Above(keys, s[i])| == i
  {
    forall j: nat ensures j in Above(keys, s[i]) <==> j in Elements(s[..i]) {
      if j in keys && j > s[i] {
        var n :| 0 <= n < |s| && s[n] == j;
        assert s[..i][n] == j;
      }
    }
    assert Above(keys, s[i]) == Elements(s[..i]);
    SetSize(s[..i]);
  }

  ghost function Elements(s: seq<nat>): set<nat> {
    set k | k in s
  }

  lemma {:induction false} SetSize(s: seq<nat>)
    requires Descending(s)
    ensures |Elements(s)| == |s|
  {
    if s != [] {
      var pre, last := s[..|s| - 1], s[|s| - 1];
      SetSize(pre);
      assert last !in Elements(pre);
      assert Elements(s) == Elements(pre) + {last} by {
        assert s == pre + [last];
      }
    }
  }
}
