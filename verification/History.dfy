/**
 The run-history file shared by every dispatcher process: locked appends, locked
 compaction through a temporary file and a rename, crashes at any point.
 */
module HistoryLog {
  import opened Common
  import Runs

  const MAX_ENTRIES := 500

  /** An entry is identified with the line that encodes it. */
  type Entry = string

  function Last(s: seq<Entry>): seq<Entry> {
    if |s| > MAX_ENTRIES then s[|s| - MAX_ENTRIES..] else s
  }

  ghost predicate Suffix(s: seq<Entry>, whole: seq<Entry>) {
    |s| <= |whole| && s == whole[|whole| - |s|..]
  }

  /** What the file promises: the newest entries in append order, at least 500 of them. */
  ghost predicate Keeps(file: seq<Entry>, order: seq<Entry>) {
    Suffix(file, order) && Min(MAX_ENTRIES, |order|) <= |file|
  }

  // ---- One process, in the source's own form ------------------------------------

  /** A file above this many bytes is compacted on load. */
  const COMPACT_ABOVE := 4 * MAX_ENTRIES * 400

  /** A longer line, with its newline, is refused. */
  const MAX_LINE := 4096

  function FileSize(file: seq<Entry>): nat {
    if file == [] then 0 else FileSize(file[..|file| - 1]) + |file[|file| - 1]| + 1
  }

  /** How an append fares: the lock, the open or the write fails; or only the final close
      does, and the line is in the file. */
  datatype Append = Appended | NotAppended | AppendedUnreported

  /** How a compaction fares: whether it gets the lock, how many entries its scan under the
      lock returns (all unless reading fails), which temporary line cannot be written, and
      whether the rename succeeds. */
  datatype Compaction = Compaction(locked: bool, scanned: nat, failAt: Option<nat>, renamed: bool)
  {
    function Kept(file: seq<Entry>): seq<Entry>
      requires scanned <= |file|
    {
      Last(file[..scanned])
    }

    predicate Writes(file: seq<Entry>)
      requires scanned <= |file|
    {
      locked && (failAt.Some? ==> |Kept(file)| <= failAt.value)
    }

    function File(file: seq<Entry>): seq<Entry>
      requires scanned <= |file|
    {
      if Writes(file) && renamed then Kept(file) else file
    }

    function Memory(entries: seq<Entry>, file: seq<Entry>): seq<Entry>
      requires scanned <= |file|
    {
      if Writes(file) then Kept(file) else entries
    }
  }

  class Disk {
    var file: seq<Entry>

    constructor ()
      ensures file == []
    {
      file := [];
    }
  }

  class Store {
    var entries: seq<Entry>

    ghost predicate Valid()
      reads this
    {
      |entries| <= MAX_ENTRIES
    }

    /** NewHistoryStore: scan the file, keep the newest entries in memory, and compact the
        file if it has grown well past the cap.  The first scan read `scanned` entries. */
    constructor (disk: Disk, scanned: nat, c: Compaction)
      requires scanned <= |disk.file| && c.scanned <= |disk.file|
      modifies disk
      ensures Valid()
      ensures FileSize(old(disk.file)) <= COMPACT_ABOVE ==>
                disk.file == old(disk.file) && IsNewest(entries, old(disk.file)[..scanned])
      ensures forall order :: Keeps(old(disk.file), order) && scanned == c.scanned == |old(disk.file)| ==>
                Keeps(disk.file, order) && Keeps(entries, order)
      ensures FileSize(old(disk.file)) > COMPACT_ABOVE ==>
                && disk.file == c.File(old(disk.file))
                && entries == c.Memory(Last(old(disk.file)[..scanned]), old(disk.file))
    {
      entries := Last(disk.file[..scanned]);
      new;
      LastIsNewest(disk.file[..scanned]);
      assert scanned == |disk.file| ==> disk.file[..scanned] == disk.file;
      forall order | Keeps(disk.file, order) ensures Keeps(Last(disk.file), order) {
        LastKeeps(disk.file, order);
      }
      if FileSize(disk.file) > COMPACT_ABOVE {
        var ok := Compact(disk, c);
      }
    }

    /** Record: refuse an over-long line, append to the file, then to the capped in-memory
        list. */
    method Record(disk: Disk, e: Entry, a: Append) returns (ok: bool)
      requires Valid()
      modifies this, disk
      ensures Valid() && (ok <==> |e| + 1 <= MAX_LINE && a.Appended?)
      ensures disk.file == if |e| + 1 <= MAX_LINE && !a.NotAppended? then old(disk.file) + [e] else old(disk.file)
      ensures entries == if ok then Last(old(entries) + [e]) else old(entries)
    {
      if |e| + 1 > MAX_LINE || a.NotAppended? {
        return false;
      }
      disk.file := disk.file + [e];
      if a.AppendedUnreported? {
        return false;
      }
      entries := entries + [e];
      if |entries| > MAX_ENTRIES {
        entries := entries[|entries| - MAX_ENTRIES..];
      }
      return true;
    }

    /** compactOnLoad. */
    method Compact(disk: Disk, c: Compaction) returns (ok: bool)
      requires Valid() && c.scanned <= |disk.file|
      modifies this, disk
      ensures Valid() && (ok <==> c.Writes(old(disk.file)) && c.renamed)
      ensures disk.file == c.File(old(disk.file)) && entries == c.Memory(old(entries), old(disk.file))
      // Without the lock, or with a line that cannot be written, nothing changes.
      ensures !c.locked || (c.failAt.Some? && c.failAt.value < Min(c.scanned, MAX_ENTRIES)) ==>
                !ok && disk.file == old(disk.file) && entries == old(entries)
      // Otherwise the list becomes the newest scanned entries, and the file too if renamed.
      ensures c.locked && (c.failAt.Some? ==> Min(c.scanned, MAX_ENTRIES) <= c.failAt.value) ==>
                && IsNewest(entries, old(disk.file)[..c.scanned])
                && disk.file == (if c.renamed then entries else old(disk.file))
      // So a full scan keeps the promise of the file, and gives it to the list.
      ensures forall order :: Keeps(old(disk.file), order) && c.scanned == |old(disk.file)| ==>
                Keeps(disk.file, order) && (entries == old(entries) || Keeps(entries, order))
    {
      CompactionKeeps(disk.file, c);
      if !c.locked {
        return false;
      }
      var kept := disk.file[..c.scanned];
      if |kept| > MAX_ENTRIES {
        kept := kept[|kept| - MAX_ENTRIES..];
      }
      var tmp: seq<Entry> := [];
      for i := 0 to |kept|
        invariant tmp == kept[..i]
        invariant c.failAt.Some? ==> i <= c.failAt.value
        invariant disk.file == old(disk.file) && entries == old(entries)
      {
        if c.failAt == Some(i) {
          return false;
        }
        tmp := tmp + [kept[i]];
      }
      // The in-memory list is replaced before the rename, which may still fail.
      entries := kept;
      if c.renamed {
        disk.file := tmp;
      }
      return c.renamed;
    }
  }

  /** The newest entries of `all`, 500 at most. */
  ghost predicate IsNewest(s: seq<Entry>, all: seq<Entry>) {
    Suffix(s, all) && |s| == Min(|all|, MAX_ENTRIES)
  }

  lemma LastIsNewest(all: seq<Entry>)
    ensures IsNewest(Last(all), all)
  {
  }

  /** What a compaction that writes all its lines keeps. */
  lemma CompactionKeeps(file: seq<Entry>, c: Compaction)
    requires c.scanned <= |file|
    ensures IsNewest(c.Kept(file), file[..c.scanned]) && |c.Kept(file)| == Min(c.scanned, MAX_ENTRIES)
    ensures forall order :: Keeps(file, order) && c.scanned == |file| ==> Keeps(c.Kept(file), order)
  {
    LastIsNewest(file[..c.scanned]);
    assert c.scanned == |file| ==> file[..c.scanned] == file;
    forall order | Keeps(file, order) && c.scanned == |file| ensures Keeps(c.Kept(file), order) {
      LastKeeps(file, order);
    }
  }

  /** The size of a file is that of its lines, newlines included. */
  lemma {:induction false} FileSizeAdds(a: seq<Entry>, b: seq<Entry>)
    ensures FileSize(a + b) == FileSize(a) + FileSize(b)
    ensures forall e: Entry :: FileSize([e]) == |e| + 1
    decreases |b|
  {
    forall e: Entry ensures FileSize([e]) == |e| + 1 {
      assert [e][..0] == [];
    }
    if b == [] {
      assert a + b == a;
    } else {
      FileSizeAdds(a, b[..|b| - 1]);
      assert (a + b)[..|a + b| - 1] == a + b[..|b| - 1];
    }
  }

  ghost predicate Distinct(order: seq<Entry>) {
    forall i, j :: 0 <= i < j < |order| ==> order[i] != order[j]
  }

  lemma LastKeeps(file: seq<Entry>, order: seq<Entry>)
    requires Keeps(file, order)
    ensures Keeps(Last(file), order)
  {
  }

  lemma NewestKept(s: seq<Entry>)
    requires s != []
    ensures Last(s) != [] && Last(s)[|Last(s)| - 1] == s[|s| - 1]
  {
  }

  /** A compaction keeps the promise if and only if what it keeps of its scan is what it
      would keep of the whole file. */
  lemma CompactionExact(order: seq<Entry>, file: seq<Entry>, scanned: nat)
    requires Keeps(file, order) && scanned <= |file|
    ensures Keeps(Last(file[..scanned]), order) <==> Last(file[..scanned]) == Last(file)
  {
    LastKeeps(file, order);
    if Keeps(Last(file[..scanned]), order) {
      assert |Last(file[..scanned])| == |Last(file)|;
    }
  }

  /** When no two entries are equal: if and only if the scan read the whole file. */
  lemma ShortScanBreaks(order: seq<Entry>, file: seq<Entry>, scanned: nat)
    requires Keeps(file, order) && scanned <= |file| && Distinct(order)
    ensures Keeps(Last(file[..scanned]), order) <==> scanned == |file|
  {
    if scanned == |file| {
      assert file[..scanned] == file;
      LastKeeps(file, order);
    } else if 0 < scanned {
      NewestKept(file[..scanned]);
      assert file[scanned - 1] == order[|order| - |file| + scanned - 1] != order[|order| - 1];
    }
  }

  // ---- Any number of processes ---------------------------------------------------

  /** Between its critical sections a process is idle; Record updates memory after the
      lock is released; a compaction holds the lock while it writes `kept[..written]`. */
  datatype Phase = Idle | Recording(e: Entry) | Compacting(kept: seq<Entry>, written: nat)
  datatype Process = Process(memory: seq<Entry>, phase: Phase)

  datatype State = State(
    order: seq<Entry>,
    file: seq<Entry>,
    tmp: Option<seq<Entry>>,
    lock: Option<nat>,
    procs: map<nat, Process>)

  datatype Step =
    | Start(pid: nat, scanned: nat)
    | Append(pid: nat, e: Entry)
    | Remember(pid: nat)
    | Forget(pid: nat)
    | Scan(pid: nat, scanned: nat)
    | WriteLine(pid: nat)
    | GiveUp(pid: nat)
    | Rename(pid: nat, renamed: bool)
    | Crash(pid: nat)

  const START := State([], [], None, None, map[])

  ghost predicate Enabled(s: State, step: Step) {
    && (step.Start? <==> step.pid !in s.procs)
    && match step
       case Start(_, scanned) => scanned <= |s.file|
       case Append(pid, _) => s.procs[pid].phase.Idle? && s.lock.None?
       case Remember(pid) => s.procs[pid].phase.Recording?
       case Forget(pid) => s.procs[pid].phase.Recording?
       case Scan(pid, scanned) => s.procs[pid].phase.Idle? && s.lock.None? && scanned <= |s.file|
       case WriteLine(pid) => s.procs[pid].phase.Compacting? && s.procs[pid].phase.written < |s.procs[pid].phase.kept|
       case GiveUp(pid) => s.procs[pid].phase.Compacting?
       case Rename(pid, _) => s.procs[pid].phase.Compacting? && s.procs[pid].phase.written == |s.procs[pid].phase.kept|
       case Crash(_) => true
  }

  ghost function Apply(s: State, step: Step): State
    requires Enabled(s, step)
  {
    match step
    case Start(pid, scanned) => s.(procs := s.procs[pid := Process(Last(s.file[..scanned]), Idle)])
    case Append(pid, e) =>
      s.(order := s.order + [e], file := s.file + [e], procs := s.procs[pid := s.procs[pid].(phase := Recording(e))])
    case Remember(pid) =>
      s.(procs := s.procs[pid := Process(Last(s.procs[pid].memory + [s.procs[pid].phase.e]), Idle)])
    // The close after the append reported an error.
    case Forget(pid) => s.(procs := s.procs[pid := s.procs[pid].(phase := Idle)])
    case Scan(pid, scanned) =>
      s.(lock := Some(pid), tmp := Some([]),
         procs := s.procs[pid := s.procs[pid].(phase := Compacting(Last(s.file[..scanned]), 0))])
    case WriteLine(pid) =>
      var c := s.procs[pid].phase;
      s.(tmp := Some(c.kept[..c.written + 1]),
         procs := s.procs[pid := s.procs[pid].(phase := Compacting(c.kept, c.written + 1))])
    case GiveUp(pid) => s.(lock := None, tmp := None, procs := s.procs[pid := s.procs[pid].(phase := Idle)])
    case Rename(pid, renamed) =>
      // The in-memory list is replaced before the rename, which may still fail.
      s.(lock := None,
         file := if renamed && s.tmp.Some? then s.tmp.value else s.file,
         tmp := if renamed then None else s.tmp,
         procs := s.procs[pid := Process(s.procs[pid].phase.kept, Idle)])
    // The operating system drops a dead process's lock; its temporary file stays.
    case Crash(pid) => s.(lock := if s.lock == Some(pid) then None else s.lock, procs := s.procs - {pid})
  }

  /** A step whose scan, if it is one, read the whole file. */
  ghost predicate FullScan(s: State, step: Step) {
    step.Scan? ==> step.scanned == |s.file|
  }

  /** The steps of runs; `faulty` allows scans that stop short. */
  ghost predicate Next(s: State, s': State, faulty: bool) {
    exists step :: Enabled(s, step) && (faulty || FullScan(s, step)) && s' == Apply(s, step)
  }

  ghost function FirstState(): State -> bool {
    s => s == START
  }

  ghost function NextState(faulty: bool): (State, State) -> bool {
    (s, s') => Next(s, s', faulty)
  }

  ghost predicate Reachable(s: State, faulty: bool) {
    Runs.Reachable(FirstState(), NextState(faulty), s)
  }

  ghost predicate CompactionInv(s: State) {
    && (forall pid :: pid in s.procs && s.procs[pid].phase.Compacting? ==> s.lock == Some(pid))
    && (s.lock.Some? ==> s.lock.value in s.procs && s.procs[s.lock.value].phase.Compacting?)
    && (s.lock.Some? ==>
          var c := s.procs[s.lock.value].phase;
          c.written <= |c.kept| && s.tmp == Some(c.kept[..c.written]) && |c.kept| <= MAX_ENTRIES)
  }

  ghost predicate MemoryInv(s: State) {
    forall pid :: pid in s.procs ==> |s.procs[pid].memory| <= MAX_ENTRIES
  }

  ghost predicate FileInv(s: State) {
    && Keeps(s.file, s.order)
    && (s.lock.Some? ==> s.lock.value in s.procs && s.procs[s.lock.value].phase.Compacting?
                         && s.procs[s.lock.value].phase.kept == Last(s.file))
  }

  lemma CompactionStep(s: State, step: Step)
    requires CompactionInv(s) && MemoryInv(s) && Enabled(s, step)
    ensures CompactionInv(Apply(s, step)) && MemoryInv(Apply(s, step))
  {
  }

  lemma AppendKeeps(file: seq<Entry>, order: seq<Entry>, e: Entry)
    requires Keeps(file, order)
    ensures Keeps(file + [e], order + [e])
  {
  }

  lemma FileStep(s: State, step: Step)
    requires CompactionInv(s) && FileInv(s) && Enabled(s, step) && FullScan(s, step)
    ensures FileInv(Apply(s, step))
  {
    match step
    case Append(pid, e) => AppendKeeps(s.file, s.order, e);
    case Scan(pid, scanned) => assert s.file[..scanned] == s.file;
    case Rename(pid, renamed) => RenameStep(s, pid, renamed);
    case _ => QuietStep(s, step);
  }

  lemma RenameStep(s: State, pid: nat, renamed: bool)
    requires CompactionInv(s) && FileInv(s) && Enabled(s, Rename(pid, renamed))
    ensures FileInv(Apply(s, Rename(pid, renamed)))
  {
    LastKeeps(s.file, s.order);
    var c := s.procs[pid].phase;
    assert c.kept[..c.written] == c.kept;
  }

  /** The steps that leave the file alone and start no compaction. */
  lemma QuietStep(s: State, step: Step)
    requires CompactionInv(s) && FileInv(s) && Enabled(s, step)
    requires !step.Append? && !step.Scan? && !step.Rename?
    ensures FileInv(Apply(s, step))
  {
    var s' := Apply(s, step);
    assert s'.file == s.file && s'.order == s.order;
  }

  ghost predicate Inv(s: State, faulty: bool) {
    CompactionInv(s) && MemoryInv(s) && (faulty || FileInv(s))
  }

  lemma InvStep(s: State, s': State, faulty: bool)
    requires Inv(s, faulty) && Next(s, s', faulty)
    ensures Inv(s', faulty)
  {
    var step :| Enabled(s, step) && (faulty || FullScan(s, step)) && s' == Apply(s, step);
    CompactionStep(s, step);
    if !faulty {
      FileStep(s, step);
    }
  }

  lemma Invariants(s: State, faulty: bool)
    requires Reachable(s, faulty)
    ensures Inv(s, faulty)
  {
    forall a, b | Inv(a, faulty) && NextState(faulty)(a, b) ensures Inv(b, faulty) {
      InvStep(a, b, faulty);
    }
    Runs.Invariant(FirstState(), NextState(faulty), a => Inv(a, faulty), s);
  }

  /** With any number of processes appending and compacting, and crashes anywhere, the
      file is a suffix of the global append order with at least min(500, appended)
      entries, as long as no compaction's scan stopped short. */
  lemma FileIsRecentHistory(s: State)
    requires Reachable(s, false)
    ensures Keeps(s.file, s.order)
  {
    Invariants(s, false);
  }

  /** In every run, faulty scans included, no store holds more than 500 entries and one
      process at most is compacting. */
  lemma MemoryIsCapped(s: State, faulty: bool, pid: nat)
    requires Reachable(s, faulty) && pid in s.procs
    ensures |s.procs[pid].memory| <= MAX_ENTRIES
    ensures s.procs[pid].phase.Compacting? ==> s.lock == Some(pid)
  {
    Invariants(s, faulty);
  }

  /** What a process remembers: the newest of what it read at its start, then with each entry
      it recorded, then of what it compacted. */
  lemma MemoryIsNewest(s: State, step: Step)
    requires Enabled(s, step)
    ensures var s' := Apply(s, step);
            && (step.Start? ==> IsNewest(s'.procs[step.pid].memory, s.file[..step.scanned]))
            && (step.Remember? ==>
                  IsNewest(s'.procs[step.pid].memory, s.procs[step.pid].memory + [s.procs[step.pid].phase.e]))
            && (step.Rename? ==> s'.procs[step.pid].memory == s.procs[step.pid].phase.kept)
            && (!step.Start? && !step.Remember? && !step.Rename? && !step.Crash? ==>
                  s'.procs[step.pid].memory == s.procs[step.pid].memory)
  {
  }

  /** One unreadable scan wipes the history: an entry was appended, and the file is
      empty after a compaction that could not read it. */
  lemma ShortScanLosesHistory(e: Entry) returns (s: State)
    ensures Reachable(s, true) && !Keeps(s.file, s.order)
  {
    s := OneRecorded(e);
    s := ReachStep(s, Scan(0, 0));
    s := ReachStep(s, Rename(0, true));
    assert s.file == [] && s.order == [e];
  }

  lemma OneRecorded(e: Entry) returns (s: State)
    ensures Reachable(s, true) && s == State([e], [e], None, None, map[0 := Process([e], Idle)])
  {
    s := START;
    Runs.ReachFirst(FirstState(), NextState(true), s);
    s := ReachStep(s, Start(0, 0));
    assert s == State([], [], None, None, map[0 := Process([], Idle)]);
    s := ReachStep(s, Append(0, e));
    assert s == State([e], [e], None, None, map[0 := Process([], Recording(e))]);
    s := ReachStep(s, Remember(0));
  }

  lemma ReachStep(s: State, step: Step) returns (s': State)
    requires Reachable(s, true) && Enabled(s, step)
    ensures s' == Apply(s, step) && Reachable(s', true)
  {
    s' := Apply(s, step);
    assert Next(s, s', true);
    Runs.ReachNext(FirstState(), NextState(true), s, s');
  }
}

/** Cutting a workload name without splitting a UTF-8 sequence. */
module HistoryName {
  import opened Common

  /** utf8.RuneStart: not a continuation byte. */
  predicate RuneStart(b: Byte) {
    !(0x80 <= b <= 0xBF)
  }

  /** Length of the well-formed UTF-8 sequence that `s` starts with (RFC 3629), or 0. */
  function RuneLen(s: seq<Byte>): nat {
    if |s| == 0 then 0
    else if s[0] <= 0x7F then 1
    else if 0xC2 <= s[0] <= 0xDF && |s| >= 2 && !RuneStart(s[1]) then 2
    else if 0xE0 <= s[0] <= 0xEF && |s| >= 3 && !RuneStart(s[1]) && !RuneStart(s[2])
            && (s[0] == 0xE0 ==> 0xA0 <= s[1]) && (s[0] == 0xED ==> s[1] <= 0x9F) then 3
    else if 0xF0 <= s[0] <= 0xF4 && |s| >= 4 && !RuneStart(s[1]) && !RuneStart(s[2]) && !RuneStart(s[3])
            && (s[0] == 0xF0 ==> 0x90 <= s[1]) && (s[0] == 0xF4 ==> s[1] <= 0x8F) then 4
    else 0
  }

  predicate ValidUtf8(s: seq<Byte>) {
    s == [] || (0 < RuneLen(s) && ValidUtf8(s[RuneLen(s)..]))
  }

  /** A cut of valid text is valid exactly at its end or before a rune's first byte. */
  lemma {:induction false} CutValidExactly(s: seq<Byte>, m: nat)
    requires ValidUtf8(s) && m <= |s|
    ensures ValidUtf8(s[..m]) <==> m == |s| || RuneStart(s[m])
  {
    if s != [] && m > 0 {
      var n := RuneLen(s);
      if m < n {
        assert RuneLen(s[..m]) == 0;
      } else {
        assert RuneLen(s[..m]) == n;
        assert s[..m][n..] == s[n..][..m - n];
        CutValidExactly(s[n..], m - n);
      }
    }
  }

  /** Among any four consecutive positions of valid text one is a valid cut. */
  lemma {:induction false} CutWithinFour(s: seq<Byte>, m: nat)
    requires ValidUtf8(s) && m < |s|
    ensures exists k :: m - 3 <= k <= m && 0 <= k && RuneStart(s[k])
  {
    var n := RuneLen(s);
    if m < n {
      assert RuneStart(s[0]);
    } else {
      CutWithinFour(s[n..], m - n);
      var k :| m - n - 3 <= k <= m - n && 0 <= k && RuneStart(s[n..][k]);
      assert RuneStart(s[n + k]);
    }
  }

  /** truncateToRuneBoundary: for valid text, the longest valid prefix within the limit,
      at most three bytes short of it. */
  method TruncateToRuneBoundary(s: seq<Byte>, limit: nat) returns (r: seq<Byte>)
    ensures r <= s && (|s| <= limit ==> r == s) && (|s| > limit ==> |r| <= limit)
    ensures |s| > limit && r != [] ==> RuneStart(s[|r|])
    ensures ValidUtf8(s) ==> ValidUtf8(r)
    ensures ValidUtf8(s) ==> forall m :: 0 <= m <= limit && m <= |s| && ValidUtf8(s[..m]) ==> m <= |r|
    ensures ValidUtf8(s) && |s| > limit ==> limit - 3 <= |r|
  {
    if |s| <= limit {
      return s;
    }
    var cut := limit;
    while cut > 0 && !RuneStart(s[cut])
      invariant 0 <= cut <= limit
      invariant forall k :: cut < k <= limit ==> !RuneStart(s[k])
    {
      cut := cut - 1;
    }
    r := s[..cut];
    if ValidUtf8(s) {
      CutValidExactly(s, cut);
      if cut == 0 {
        assert s[..0] == [];
      }
      CutWithinFour(s, limit);
      forall m | 0 <= m <= limit && ValidUtf8(s[..m]) ensures m <= cut {
        CutValidExactly(s, m);
      }
    }
  }
}

/** The median run time, computed with a hand-written exchange sort. */
module HistoryMedian {

  predicate Sorted(s: seq<int>) {
    forall i, j :: 0 <= i < j < |s| ==> s[i] <= s[j]
  }

  function CountBelow(s: seq<int>, bound: int): nat {
    if s == [] then 0 else (if s[0] < bound then 1 else 0) + CountBelow(s[1..], bound)
  }

  /** `m` is the upper median: at most half the values are below it, and more than half
      are not above it. */
  predicate IsMedian(ds: seq<int>, m: int) {
    CountBelow(ds, m) <= |ds| / 2 < CountBelow(ds, m + 1)
  }

  lemma {:induction false} CountBelowConcat(a: seq<int>, b: seq<int>, bound: int)
    ensures CountBelow(a + b, bound) == CountBelow(a, bound) + CountBelow(b, bound)
  {
    if a == [] {
      assert a + b == b;
    } else {
      assert (a + b)[1..] == a[1..] + b;
      CountBelowConcat(a[1..], b, bound);
    }
  }

  lemma RemoveAt(b: seq<int>, i: nat, bound: int) returns (rest: seq<int>)
    requires i < |b|
    ensures multiset(rest) == multiset(b) - multiset{b[i]}
    ensures CountBelow(b, bound) == (if b[i] < bound then 1 else 0) + CountBelow(rest, bound)
  {
    rest := b[..i] + b[i + 1..];
    var tail := [b[i]] + b[i + 1..];
    assert b == b[..i] + tail;
    assert tail[1..] == b[i + 1..];
    CountBelowConcat(b[..i], b[i + 1..], bound);
    CountBelowConcat(b[..i], tail, bound);
    assert multiset(b) == multiset(b[..i]) + multiset(tail);
  }

  /** The count does not depend on the order. */
  lemma {:induction false} CountBelowPermutation(a: seq<int>, b: seq<int>, bound: int)
    requires multiset(a) == multiset(b)
    ensures CountBelow(a, bound) == CountBelow(b, bound)
    decreases |a|
  {
    if a == [] {
      assert |multiset(b)| == 0;
    } else {
      assert a[0] in multiset(b);
      var i :| 0 <= i < |b| && b[i] == a[0];
      var restA := RemoveAt(a, 0, bound);
      var restB := RemoveAt(b, i, bound);
      assert |multiset(restA)| == |multiset(a)| - 1;
      CountBelowPermutation(restA, restB, bound);
    }
  }

  lemma {:induction false} CountBelowAtLeast(s: seq<int>, bound: int, k: nat)
    requires k <= |s| && forall i :: 0 <= i < k ==> s[i] < bound
    ensures CountBelow(s, bound) >= k
  {
    if k > 0 {
      CountBelowAtLeast(s[1..], bound, k - 1);
    }
  }

  lemma {:induction false} CountBelowAtMost(s: seq<int>, bound: int, k: nat)
    requires k <= |s| && forall i :: k <= i < |s| ==> bound <= s[i]
    ensures CountBelow(s, bound) <= k
  {
    if s != [] {
      CountBelowAtMost(s[1..], bound, if k == 0 then 0 else k - 1);
    }
  }

  /** No two values are medians of the same durations. */
  lemma MedianUnique(ds: seq<int>, m: int, n: int)
    requires IsMedian(ds, m) && IsMedian(ds, n)
    ensures m == n
  {
    if m < n {
      CountBelowMonotone(ds, m + 1, n);
    } else {
      CountBelowMonotone(ds, n + 1, m);
    }
  }

  lemma {:induction false} CountBelowMonotone(s: seq<int>, a: int, b: int)
    ensures a <= b ==> CountBelow(s, a) <= CountBelow(s, b)
  {
    if s != [] {
      CountBelowMonotone(s[1..], a, b);
    }
  }

  method Swap(a: array<int>, i: nat, j: nat)
    requires i < a.Length && j < a.Length
    modifies a
    ensures a[..] == old(a[..])[i := old(a[j])][j := old(a[i])]
    ensures multiset(a[..]) == multiset(old(a[..]))
  {
    a[i], a[j] := a[j], a[i];
  }

  /** Everything before position `i` is at most everything from it on. */
  predicate Split(s: seq<int>, i: nat) {
    forall p, q :: 0 <= p < i <= q < |s| ==> s[p] <= s[q]
  }

  /** Inner loop: bring the smallest of `a[i..]` to position `i`. */
  method SelectMin(a: array<int>, i: nat)
    requires i < a.Length && Split(a[..], i) && Sorted(a[..i])
    modifies a
    ensures multiset(a[..]) == multiset(old(a[..]))
    ensures Split(a[..], i + 1) && Sorted(a[..i + 1])
  {
    for j := i + 1 to a.Length
      invariant multiset(a[..]) == multiset(old(a[..]))
      invariant Split(a[..], i) && Sorted(a[..i])
      invariant forall k :: i <= k < j ==> a[i] <= a[k]
    {
      if a[j] < a[i] {
        SwapKeepsSplit(a[..], i, j);
        Swap(a, i, j);
      }
    }
    SplitGrows(a[..], i);
  }

  lemma SwapKeepsSplit(s: seq<int>, i: nat, j: nat)
    requires i < j < |s| && Split(s, i)
    ensures var t := s[i := s[j]][j := s[i]];
            Split(t, i) && t[..i] == s[..i]
  {
  }

  /** The smallest of the rest extends the sorted part. */
  lemma SplitGrows(s: seq<int>, i: nat)
    requires i < |s| && Split(s, i) && Sorted(s[..i]) && forall k :: i <= k < |s| ==> s[i] <= s[k]
    ensures Split(s, i + 1) && Sorted(s[..i + 1])
  {
    var t, u := s[..i], s[..i + 1];
    forall p, q | 0 <= p < q < |u| ensures u[p] <= u[q] {
      if q < i {
        assert t[p] <= t[q];
      }
    }
  }

  lemma MiddleIsMedian(sorted: seq<int>, ds: seq<int>)
    requires Sorted(sorted) && multiset(sorted) == multiset(ds) && ds != []
    ensures |sorted| == |ds| && IsMedian(ds, sorted[|ds| / 2])
  {
    assert |multiset(sorted)| == |sorted| && |multiset(ds)| == |ds|;
    var n := |ds|;
    var m := sorted[n / 2];
    CountBelowPermutation(sorted, ds, m);
    CountBelowPermutation(sorted, ds, m + 1);
    CountBelowAtMost(sorted, m, n / 2);
    CountBelowAtLeast(sorted, m + 1, n / 2 + 1);
  }

  method Median(ds: seq<int>) returns (m: int)
    ensures ds == [] ==> m == 0
    ensures ds != [] ==> IsMedian(ds, m)
  {
    var n := |ds|;
    if n == 0 {
      return 0;
    }
    var sorted := new int[n](k requires 0 <= k < n => ds[k]);
    assert sorted[..] == ds;
    for i := 0 to n
      invariant multiset(sorted[..]) == multiset(ds)
      invariant Split(sorted[..], i) && Sorted(sorted[..i])
    {
      SelectMin(sorted, i);
    }
    assert sorted[..n] == sorted[..];
    m := sorted[n / 2];
    MiddleIsMedian(sorted[..], ds);
  }
}
