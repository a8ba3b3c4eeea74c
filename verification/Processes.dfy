/**
 The top-process collector of the probe: scan every process, rank by CPU use,
 enrich the first 50, and replace the per-process baselines for the next cycle.
 */
module Processes {
  import opened Text
  import opened Sorting
  import opened ProcStat
  import opened Values

  const TOP_N := 50

  datatype ProcIo = ProcIo(readBytes: nat, writeBytes: nat)

  datatype PrevProcStat = PrevProcStat(cpuTicks: nat, starttime: nat, majflt: nat, readBytes: nat, writeBytes: nat)

  datatype ProcessSnapshot = ProcessSnapshot(
    pid: nat, name: string, cmd: string, state: char, ppid: nat, user: string,
    cpuPct: Option<real>, memRss: nat, memPct: real, memVirt: nat, numThreads: nat, uptimeSecs: nat,
    majfltRate: Option<real>, ioReadRate: Option<real>, ioWriteRate: Option<real>, processor: int)

  // What one cycle reads: the parsed stat files in directory order, the files of
  // single processes, and the arguments of the call.
  datatype Cycle = Cycle(
    stats: seq<(nat, Option<ProcStat>)>, cmds: map<nat, string>, ios: map<nat, ProcIo>, uids: map<nat, nat>,
    totalJiffiesDelta: nat, elapsedSecs: real, cpuCount: nat, pageSize: nat, memTotal: nat,
    bootTimeSecs: nat, nowSecs: nat, clkTck: nat, passwd: map<nat, string>)

  type States = map<nat, PrevProcStat>

  // ----- The pure parts -----

  function SaturatingSub(a: nat, b: nat): nat { if a >= b then a - b else 0 }

  function Ticks(stat: ProcStat): nat { stat.utime + stat.stime }

  function ComputeProcessCpuPct(prevTicks: nat, currTicks: nat, totalJiffiesDelta: nat, cpuCount: nat): real {
    if totalJiffiesDelta == 0 then 0.0
    else Percentage(SaturatingSub(currTicks, prevTicks), totalJiffiesDelta, cpuCount)
  }

  function Percentage(ticks: nat, totalJiffiesDelta: nat, cpuCount: nat): real
    requires totalJiffiesDelta > 0
  {
    ticks as real / totalJiffiesDelta as real * cpuCount as real * 100.0
  }

  function Rate(curr: nat, prev: nat, secs: real): real
    requires secs > 0.0
  {
    SaturatingSub(curr, prev) as real / secs
  }

  function ResolveUsername(uid: nat, passwd: map<nat, string>): string {
    if uid in passwd then passwd[uid] else "uid:" + Print(uid)
  }

  function Lookup<T>(m: map<nat, T>, pid: nat): Option<T> {
    if pid in m then Some(m[pid]) else None
  }

  // The baseline of a process, unless its pid was reused.
  function Baseline(states: States, pid: nat, starttime: nat): Option<PrevProcStat> {
    if pid in states && states[pid].starttime == starttime then Some(states[pid]) else None
  }

  function BuildSnapshot(stat: ProcStat, c: Cycle, prev: Option<PrevProcStat>): ProcessSnapshot {
    var cmd := GetOr(Lookup(c.cmds, stat.pid), "");
    var io := Lookup(c.ios, stat.pid);
    var memRss := if stat.rss > 0 then stat.rss * c.pageSize else 0;
    var timed := prev.Some? && c.elapsedSecs > 0.0;
    var clkTck := if c.clkTck > 0 then c.clkTck else 100;
    ProcessSnapshot(
      stat.pid, stat.comm, if cmd == "" then stat.comm else cmd, stat.state, stat.ppid,
      ResolveUsername(GetOr(Lookup(c.uids, stat.pid), U32 - 1), c.passwd),
      if prev.None? then None
      else Some(ComputeProcessCpuPct(prev.value.cpuTicks, Ticks(stat), c.totalJiffiesDelta, c.cpuCount)),
      memRss, if c.memTotal > 0 then memRss as real / c.memTotal as real * 100.0 else 0.0,
      stat.vsize, stat.numThreads, SaturatingSub(c.nowSecs, c.bootTimeSecs + stat.starttime / clkTck),
      if timed then Some(Rate(stat.majflt, prev.value.majflt, c.elapsedSecs)) else None,
      if timed && io.Some? then Some(Rate(io.value.readBytes, prev.value.readBytes, c.elapsedSecs)) else None,
      if timed && io.Some? then Some(Rate(io.value.writeBytes, prev.value.writeBytes, c.elapsedSecs)) else None,
      stat.processor)
  }

  function ExtractPrevState(stat: ProcStat, io: Option<ProcIo>): PrevProcStat {
    PrevProcStat(Ticks(stat), stat.starttime, stat.majflt,
                 if io.Some? then io.value.readBytes else 0, if io.Some? then io.value.writeBytes else 0)
  }

  // ----- One cycle as functions -----

  // An entry of phase 1: the stat and its CPU percentage.
  datatype Ranked = Ranked(stat: ProcStat, cpuPct: Option<real>) {
    // What the sort compares.
    function Key(): real { GetOr(cpuPct, 0.0) }
  }

  predicate Busier(a: Ranked, b: Ranked) { a.Key() >= b.Key() }

  function Entry(states: States, pid: nat, stat: ProcStat, c: Cycle): Ranked {
    match Baseline(states, pid, stat.starttime)
    case None => Ranked(stat, None)
    case Some(prev) =>
      Ranked(stat, Some(ComputeProcessCpuPct(prev.cpuTicks, Ticks(stat), c.totalJiffiesDelta, c.cpuCount)))
  }

  // Phase 1 over the first `n` directory entries.
  function Scan(states: States, c: Cycle, n: nat): seq<Ranked>
    requires n <= |c.stats|
  {
    if n == 0 then []
    else
      var (pid, stat) := c.stats[n - 1];
      Scan(states, c, n - 1) + (if stat.Some? then [Entry(states, pid, stat.value, c)] else [])
  }

  function Ranking(states: States, c: Cycle): (r: seq<Ranked>)
    ensures multiset(r) == multiset(Scan(states, c, |c.stats|))
  {
    Sort(Scan(states, c, |c.stats|), Busier)
  }

  function Top(states: States, c: Cycle): (r: seq<Ranked>)
    ensures |r| <= TOP_N && r <= Ranking(states, c)
  {
    var all := Ranking(states, c);
    if |all| <= TOP_N then all else all[..TOP_N]
  }

  function Snapshot(states: States, c: Cycle, e: Ranked): ProcessSnapshot {
    BuildSnapshot(e.stat, c, Baseline(states, e.stat.pid, e.stat.starttime))
  }

  function Snapshots(states: States, c: Cycle): (r: seq<ProcessSnapshot>)
    ensures |r| == |Top(states, c)|
    ensures forall k :: 0 <= k < |r| ==> r[k] == Snapshot(states, c, Top(states, c)[k])
  {
    var top := Top(states, c);
    seq(|top|, k requires 0 <= k < |top| => Snapshot(states, c, top[k]))
  }

  lemma SnapshotsAre(states: States, c: Cycle, top: seq<Ranked>, s: seq<ProcessSnapshot>)
    requires top == Top(states, c) && |s| == |top|
    requires forall k :: 0 <= k < |s| ==> s[k] == Snapshot(states, c, top[k])
    ensures s == Snapshots(states, c)
  {
  }

  // The CPU-only baselines of all entries, the later entry winning.
  function Baselines(entries: seq<Ranked>): States {
    if entries == [] then map[]
    else
      var stat := entries[|entries| - 1].stat;
      Baselines(entries[..|entries| - 1])[stat.pid := PrevProcStat(Ticks(stat), stat.starttime, stat.majflt, 0, 0)]
  }

  // Overwrites the baselines of enriched entries.
  function Enrich(base: States, c: Cycle, entries: seq<Ranked>): States {
    if entries == [] then base
    else
      var stat := entries[|entries| - 1].stat;
      Enrich(base, c, entries[..|entries| - 1])[stat.pid := ExtractPrevState(stat, Lookup(c.ios, stat.pid))]
  }

  function NextStates(states: States, c: Cycle): States {
    Enrich(Baselines(Ranking(states, c)), c, Top(states, c))
  }

  // ----- The collector -----

  class TopProcesses {
    var prevStates: States

    constructor ()
      ensures prevStates == map[]
    {
      prevStates := map[];
    }

    method Collect(c: Cycle) returns (snapshots: seq<ProcessSnapshot>)
      modifies this
      ensures snapshots == Snapshots(old(prevStates), c)
      ensures prevStates == NextStates(old(prevStates), c)
    {
      ghost var before := prevStates;
      var phase1 := ScanAll(prevStates, c);
      phase1 := Sort(phase1, Busier);
      var newPrevStates := CollectBaselines(phase1);
      if |phase1| > TOP_N {
        phase1 := phase1[..TOP_N];
      }
      snapshots, newPrevStates := EnrichAll(prevStates, c, phase1, newPrevStates);
      SnapshotsAre(before, c, phase1, snapshots);
      prevStates := newPrevStates;
    }
  }

  // Phase 1: the CPU percentage of every process.
  method ScanAll(prevStates: States, c: Cycle) returns (phase1: seq<Ranked>)
    ensures phase1 == Scan(prevStates, c, |c.stats|)
  {
    phase1 := [];
    for i := 0 to |c.stats|
      invariant phase1 == Scan(prevStates, c, i)
    {
      var (pid, read) := c.stats[i];
      if read.Some? {
        var stat := read.value;
        var cpuPct: Option<real> := None;
        if pid in prevStates && prevStates[pid].starttime == stat.starttime {
          cpuPct := Some(ComputeProcessCpuPct(prevStates[pid].cpuTicks, Ticks(stat), c.totalJiffiesDelta, c.cpuCount));
        }
        phase1 := phase1 + [Ranked(stat, cpuPct)];
      }
    }
  }

  method CollectBaselines(phase1: seq<Ranked>) returns (newPrevStates: States)
    ensures newPrevStates == Baselines(phase1)
  {
    newPrevStates := map[];
    for i := 0 to |phase1|
      invariant newPrevStates == Baselines(phase1[..i])
    {
      var stat := phase1[i].stat;
      assert phase1[..i + 1][..i] == phase1[..i];
      newPrevStates := newPrevStates[stat.pid := PrevProcStat(Ticks(stat), stat.starttime, stat.majflt, 0, 0)];
    }
    assert phase1[..|phase1|] == phase1;
  }

  lemma EnrichNext(base: States, c: Cycle, phase1: seq<Ranked>, i: nat)
    requires i < |phase1|
    ensures var stat := phase1[i].stat;
      Enrich(base, c, phase1[..i + 1])
      == Enrich(base, c, phase1[..i])[stat.pid := ExtractPrevState(stat, Lookup(c.ios, stat.pid))]
  {
    assert phase1[..i + 1][..i] == phase1[..i];
  }

  // Phase 2: command line and I/O of the top processes.
  method EnrichAll(prevStates: States, c: Cycle, phase1: seq<Ranked>, base: States)
    returns (snapshots: seq<ProcessSnapshot>, newPrevStates: States)
    ensures |snapshots| == |phase1|
    ensures forall k :: 0 <= k < |phase1| ==> snapshots[k] == Snapshot(prevStates, c, phase1[k])
    ensures newPrevStates == Enrich(base, c, phase1)
  {
    snapshots, newPrevStates := [], base;
    for i := 0 to |phase1|
      invariant |snapshots| == i
      invariant forall k :: 0 <= k < i ==> snapshots[k] == Snapshot(prevStates, c, phase1[k])
      invariant newPrevStates == Enrich(base, c, phase1[..i])
    {
      var stat := phase1[i].stat;
      var prev := Baseline(prevStates, stat.pid, stat.starttime);
      EnrichNext(base, c, phase1, i);
      newPrevStates := newPrevStates[stat.pid := ExtractPrevState(stat, Lookup(c.ios, stat.pid))];
      snapshots := snapshots + [BuildSnapshot(stat, c, prev)];
    }
    assert phase1[..|phase1|] == phase1;
  }

  // ----- Top-N correctness -----

  // What the kernel guarantees: a stat file names its own directory, once.
  ghost predicate KernelStats(c: Cycle) {
    && (forall i :: 0 <= i < |c.stats| && c.stats[i].1.Some? ==> c.stats[i].1.value.pid == c.stats[i].0)
    && forall i, j :: 0 <= i < j < |c.stats| && c.stats[i].1.Some? && c.stats[j].1.Some? ==>
        c.stats[i].0 != c.stats[j].0
  }

  // The cycle scans this process with this stat.
  ghost predicate Reads(c: Cycle, pid: nat, stat: ProcStat) {
    exists i :: 0 <= i < |c.stats| && c.stats[i] == (pid, Some(stat))
  }

  // `e` is what phase 1 makes of directory entry `i`.
  ghost predicate EntryAt(states: States, c: Cycle, i: nat, e: Ranked)
    requires i < |c.stats|
  {
    c.stats[i].1.Some? && e == Entry(states, c.stats[i].0, c.stats[i].1.value, c)
  }

  lemma {:induction false} ScanMeaning(states: States, c: Cycle, n: nat, e: Ranked)
    requires n <= |c.stats|
    ensures e in Scan(states, c, n) <==> exists i :: 0 <= i < n && EntryAt(states, c, i, e)
  {
    if n > 0 {
      ScanMeaning(states, c, n - 1, e);
      assert e in Scan(states, c, n) <==> e in Scan(states, c, n - 1) || EntryAt(states, c, n - 1, e);
    }
  }

  lemma EntryKeepsStat(states: States, pid: nat, stat: ProcStat, c: Cycle)
    ensures Entry(states, pid, stat, c).stat == stat
  {
  }

  // Every process is ranked, by its own entry.
  lemma RankedIsRead(states: States, c: Cycle, e: Ranked)
    requires KernelStats(c) && e in Ranking(states, c)
    ensures Reads(c, e.stat.pid, e.stat) && e == Entry(states, e.stat.pid, e.stat, c)
  {
    ScanMeaning(states, c, |c.stats|, e);
    SortedMembers(Scan(states, c, |c.stats|), Busier);
    var i :| 0 <= i < |c.stats| && EntryAt(states, c, i, e);
    EntryKeepsStat(states, c.stats[i].0, c.stats[i].1.value, c);
    assert c.stats[i] == (e.stat.pid, Some(e.stat));
  }

  lemma ReadIsRanked(states: States, c: Cycle, pid: nat, stat: ProcStat)
    requires KernelStats(c) && Reads(c, pid, stat)
    ensures stat.pid == pid && Entry(states, pid, stat, c) in Ranking(states, c)
  {
    var e := Entry(states, pid, stat, c);
    var i :| 0 <= i < |c.stats| && c.stats[i] == (pid, Some(stat));
    assert EntryAt(states, c, i, e);
    ScanMeaning(states, c, |c.stats|, e);
    SortedMembers(Scan(states, c, |c.stats|), Busier);
  }

  function Pct(s: ProcessSnapshot): real { GetOr(s.cpuPct, 0.0) }

  // A snapshot shows the percentage its process was ranked by.
  lemma SnapshotShowsRank(states: States, c: Cycle, k: nat)
    requires KernelStats(c) && k < |Top(states, c)|
    ensures var snap, e := Snapshots(states, c)[k], Ranking(states, c)[k];
      snap.pid == e.stat.pid && snap.cpuPct == e.cpuPct && Pct(snap) == e.Key()
  {
    var e := Top(states, c)[k];
    assert e == Ranking(states, c)[k];
    RankedIsRead(states, c, e);
  }

  lemma RankingDescends(states: States, c: Cycle)
    ensures var r := Ranking(states, c); forall i, j :: 0 <= i < j < |r| ==> r[i].Key() >= r[j].Key()
  {
    SortSorts(Scan(states, c, |c.stats|), Busier);
    var r := Ranking(states, c);
    forall i, j | 0 <= i < j < |r| ensures r[i].Key() >= r[j].Key() {
      assert Busier(r[i], r[j]);
    }
  }

  /**
   The snapshots are the min(50, n) busiest processes in non-increasing order:
   none that was left out ranks above one that is listed, and each shows the
   percentage it was ranked by.
   */
  lemma TopNIsCorrect(states: States, c: Cycle)
    requires KernelStats(c)
    ensures var snaps, ranking := Snapshots(states, c), Ranking(states, c);
      && multiset(ranking) == multiset(Scan(states, c, |c.stats|))
      && |snaps| == (if |ranking| < 50 then |ranking| else 50)
      && (forall k :: 0 <= k < |snaps| ==> snaps[k].pid == ranking[k].stat.pid && snaps[k].cpuPct == ranking[k].cpuPct)
      && (forall i, j :: 0 <= i < j < |snaps| ==> Pct(snaps[i]) >= Pct(snaps[j]))
      && (forall i, j :: 0 <= i < |snaps| <= j < |ranking| ==> Pct(snaps[i]) >= ranking[j].Key())
  {
    var snaps, ranking := Snapshots(states, c), Ranking(states, c);
    RankingDescends(states, c);
    forall k | 0 <= k < |snaps|
      ensures snaps[k].pid == ranking[k].stat.pid && snaps[k].cpuPct == ranking[k].cpuPct
          && Pct(snaps[k]) == ranking[k].Key()
    {
      SnapshotShowsRank(states, c, k);
    }
  }

  // ----- The baselines left for the next cycle -----

  lemma {:induction false} BaselinesMeaning(entries: seq<Ranked>, pid: nat)
    ensures pid in Baselines(entries) <==> exists e :: e in entries && e.stat.pid == pid
    ensures pid in Baselines(entries) ==>
              exists e :: e in entries && e.stat.pid == pid
                          && Baselines(entries)[pid]
                              == PrevProcStat(Ticks(e.stat), e.stat.starttime, e.stat.majflt, 0, 0)
  {
    if entries != [] {
      var last := |entries| - 1;
      BaselinesMeaning(entries[..last], pid);
      assert entries == entries[..last] + [entries[last]];
    }
  }

  lemma {:induction false} EnrichMeaning(base: States, c: Cycle, entries: seq<Ranked>, pid: nat)
    ensures var r := Enrich(base, c, entries);
      && (pid in r <==> pid in base || exists e :: e in entries && e.stat.pid == pid)
      && (if exists e :: e in entries && e.stat.pid == pid
          then exists e :: e in entries && e.stat.pid == pid && r[pid] == ExtractPrevState(e.stat, Lookup(c.ios, pid))
          else pid in base ==> r[pid] == base[pid])
  {
    if entries != [] {
      var last := |entries| - 1;
      EnrichMeaning(base, c, entries[..last], pid);
      assert entries == entries[..last] + [entries[last]];
    }
  }

  ghost predicate InTop(states: States, c: Cycle, pid: nat) {
    exists e :: e in Top(states, c) && e.stat.pid == pid
  }

  lemma OneStat(c: Cycle, pid: nat, a: ProcStat, b: ProcStat)
    requires KernelStats(c) && Reads(c, pid, a) && Reads(c, pid, b)
    ensures a == b
  {
    var i :| 0 <= i < |c.stats| && c.stats[i] == (pid, Some(a));
    var j :| 0 <= j < |c.stats| && c.stats[j] == (pid, Some(b));
    assert i == j;
  }

  /**
   After a cycle the map holds exactly the processes scanned, each with its
   current ticks, start time and faults.  Only processes in the top 50 whose I/O
   file was readable keep an I/O baseline; the others start from zero.
   */
  lemma NextStatesMeaning(states: States, c: Cycle, pid: nat)
    requires KernelStats(c)
    ensures pid in NextStates(states, c) <==> exists stat :: Reads(c, pid, stat)
    ensures forall stat :: Reads(c, pid, stat) ==>
              pid in NextStates(states, c)
              && NextStates(states, c)[pid] == if InTop(states, c, pid) then ExtractPrevState(stat, Lookup(c.ios, pid))
                                               else ExtractPrevState(stat, None)
  {
    var ranking, top := Ranking(states, c), Top(states, c);
    BaselinesMeaning(ranking, pid);
    EnrichMeaning(Baselines(ranking), c, top, pid);
    forall e | e in ranking ensures Reads(c, e.stat.pid, e.stat) { RankedIsRead(states, c, e); }
    forall e | e in top ensures e in ranking {}
    forall stat | Reads(c, pid, stat)
      ensures Entry(states, pid, stat, c) in ranking && Entry(states, pid, stat, c).stat == stat && stat.pid == pid
    {
      ReadIsRanked(states, c, pid, stat);
      EntryKeepsStat(states, pid, stat, c);
    }
    forall a, b | Reads(c, pid, a) && Reads(c, pid, b) ensures a == b { OneStat(c, pid, a, b); }
  }

  // ----- Ticks over whole runs -----

  ghost predicate KernelRun(cycles: seq<Cycle>) {
    forall k :: 0 <= k < |cycles| ==> KernelStats(cycles[k])
  }

  // The map when cycle `k` begins.
  function StatesBefore(cycles: seq<Cycle>, k: nat): States
    requires k <= |cycles|
  {
    if k == 0 then map[] else NextStates(StatesBefore(cycles, k - 1), cycles[k - 1])
  }

  // The two counters that are turned into deltas for every process scanned.
  datatype Counter = CpuTicks | MajorFaults

  function Reading(stat: ProcStat, which: Counter): nat {
    match which
    case CpuTicks => stat.utime + stat.stime
    case MajorFaults => stat.majflt
  }

  function Left(prev: PrevProcStat, which: Counter): nat {
    match which
    case CpuTicks => prev.cpuTicks
    case MajorFaults => prev.majflt
  }

  // The delta behind the CPU percentage, or behind the rate of major faults, of a process.
  function DeltaUsed(states: States, pid: nat, stat: ProcStat, which: Counter): Option<nat> {
    match Baseline(states, pid, stat.starttime)
    case None => None
    case Some(prev) => Some(SaturatingSub(Reading(stat, which), Left(prev, which)))
  }

  /** The percentage is the delta's share of the elapsed jiffies, over all processors. */
  lemma PctIsDelta(states: States, c: Cycle, pid: nat, stat: ProcStat)
    ensures var pct, delta := Entry(states, pid, stat, c).cpuPct, DeltaUsed(states, pid, stat, CpuTicks);
      && (pct.Some? <==> delta.Some?)
      && (pct.Some? && c.totalJiffiesDelta == 0 ==> pct.value == 0.0)
      && (pct.Some? && c.totalJiffiesDelta > 0 ==>
            pct.value * c.totalJiffiesDelta as real == delta.value as real * c.cpuCount as real * 100.0)
  {
    var delta := DeltaUsed(states, pid, stat, CpuTicks);
    if delta.Some? && c.totalJiffiesDelta > 0 {
      ShareOf(delta.value as real, c.totalJiffiesDelta as real, c.cpuCount as real);
    }
  }

  lemma ShareOf(d: real, total: real, n: real)
    requires total > 0.0
    ensures d / total * n * 100.0 * total == d * n * 100.0
  {
    var q := d / total;
    assert q * total == d;
    assert q * n * 100.0 * total == (q * total) * n * 100.0;
  }

  // The cycle before cycle `k` scanned this process with this stat.
  ghost predicate ReadBefore(cycles: seq<Cycle>, k: nat, pid: nat, prev: ProcStat)
    requires k <= |cycles|
  {
    k > 0 && Reads(cycles[k - 1], pid, prev)
  }

  /**
   A delta is used exactly when the process was also scanned in the cycle before
   with the same start time, whether or not it was in the top 50 then, and it is
   the difference of those two readings.  So no delta spans a reused pid.
   */
  lemma DeltaMeaning(cycles: seq<Cycle>, k: nat, pid: nat, stat: ProcStat, which: Counter)
    requires KernelRun(cycles) && k < |cycles| && Reads(cycles[k], pid, stat)
    ensures DeltaUsed(StatesBefore(cycles, k), pid, stat, which).Some? <==>
              exists prev :: ReadBefore(cycles, k, pid, prev) && prev.starttime == stat.starttime
    ensures forall prev :: ReadBefore(cycles, k, pid, prev) && prev.starttime == stat.starttime ==>
              DeltaUsed(StatesBefore(cycles, k), pid, stat, which)
                  == Some(SaturatingSub(Reading(stat, which), Reading(prev, which)))
  {
    if k > 0 {
      var states := StatesBefore(cycles, k);
      NextStatesMeaning(StatesBefore(cycles, k - 1), cycles[k - 1], pid);
      if pid in states {
        var prev :| Reads(cycles[k - 1], pid, prev);
        assert ReadBefore(cycles, k, pid, prev);
        assert states[pid].starttime == prev.starttime && Left(states[pid], which) == Reading(prev, which);
        forall other | ReadBefore(cycles, k, pid, other) ensures other == prev {
          OneStat(cycles[k - 1], pid, prev, other);
        }
      }
    }
  }

  // `history` is what a run of consecutive cycles read of one process.
  ghost predicate Follows(cycles: seq<Cycle>, first: nat, pid: nat, history: seq<ProcStat>) {
    && first + |history| <= |cycles|
    && (forall k :: 0 <= k < |history| ==> Reads(cycles[first + k], pid, history[k]))
    && (forall k :: 0 <= k < |history| ==> history[k].starttime == history[0].starttime)
  }

  // The sum of the deltas used after the first of those cycles.
  function TotalDelta(cycles: seq<Cycle>, first: nat, pid: nat, history: seq<ProcStat>, which: Counter): nat
    requires first + |history| <= |cycles|
  {
    if |history| <= 1 then 0
    else
      var last := |history| - 1;
      TotalDelta(cycles, first, pid, history[..last], which)
      + GetOr(DeltaUsed(StatesBefore(cycles, first + last), pid, history[last], which), 0)
  }

  // The kernel's counter never went back.
  ghost predicate Grows(history: seq<ProcStat>, which: Counter) {
    forall k :: 0 <= k < |history| - 1 ==> Reading(history[k], which) <= Reading(history[k + 1], which)
  }

  lemma LastDelta(cycles: seq<Cycle>, first: nat, pid: nat, history: seq<ProcStat>, which: Counter)
    requires KernelRun(cycles) && |history| > 1 && Follows(cycles, first, pid, history)
    ensures var last := |history| - 1;
      DeltaUsed(StatesBefore(cycles, first + last), pid, history[last], which)
      == Some(SaturatingSub(Reading(history[last], which), Reading(history[last - 1], which)))
  {
    var last := |history| - 1;
    var k, prev := first + last, history[last - 1];
    assert Reads(cycles[first + (last - 1)], pid, prev);
    assert ReadBefore(cycles, k, pid, prev);
    DeltaMeaning(cycles, k, pid, history[last], which);
  }

  lemma TotalGrows(cycles: seq<Cycle>, first: nat, pid: nat, history: seq<ProcStat>, which: Counter)
    requires KernelRun(cycles) && |history| > 1 && Follows(cycles, first, pid, history)
    ensures var last := |history| - 1;
      && Follows(cycles, first, pid, history[..last])
      && TotalDelta(cycles, first, pid, history, which)
         == TotalDelta(cycles, first, pid, history[..last], which)
            + SaturatingSub(Reading(history[last], which), Reading(history[last - 1], which))
  {
    LastDelta(cycles, first, pid, history, which);
  }

  lemma GrowsByOne(history: seq<ProcStat>, which: Counter)
    requires |history| > 1
    ensures var last := |history| - 1;
      Grows(history, which) <==>
        Grows(history[..last], which) && Reading(history[last - 1], which) <= Reading(history[last], which)
  {
    var last := |history| - 1;
    if Grows(history, which) {
      assert Reading(history[last - 1], which) <= Reading(history[(last - 1) + 1], which);
    }
  }

  /**
   Conservation: over any stretch of cycles that scan one process the deltas add
   up to last minus first reading exactly when the kernel's counter never went
   back, and they never add up to less.
   */
  lemma {:induction false} CountersAreConserved(
    cycles: seq<Cycle>, first: nat, pid: nat, history: seq<ProcStat>, which: Counter)
    requires KernelRun(cycles) && history != [] && Follows(cycles, first, pid, history)
    ensures var total, advance := TotalDelta(cycles, first, pid, history, which),
                                  Reading(history[|history| - 1], which) as int - Reading(history[0], which);
      total >= advance && (total == advance <==> Grows(history, which))
  {
    if |history| > 1 {
      TotalGrows(cycles, first, pid, history, which);
      CountersAreConserved(cycles, first, pid, history[..|history| - 1], which);
      GrowsByOne(history, which);
    }
  }

  /** Conservation of user and system ticks, the sum behind the CPU percentage. */
  lemma TicksAreConserved(cycles: seq<Cycle>, first: nat, pid: nat, history: seq<ProcStat>)
    requires KernelRun(cycles) && history != [] && Follows(cycles, first, pid, history)
    ensures var total, last := TotalDelta(cycles, first, pid, history, CpuTicks), history[|history| - 1];
      && total >= last.utime + last.stime - history[0].utime - history[0].stime
      && (total == last.utime + last.stime - history[0].utime - history[0].stime <==> Grows(history, CpuTicks))
  {
    CountersAreConserved(cycles, first, pid, history, CpuTicks);
  }

  /** Conservation of major faults, the count behind their rate. */
  lemma FaultsAreConserved(cycles: seq<Cycle>, first: nat, pid: nat, history: seq<ProcStat>)
    requires KernelRun(cycles) && history != [] && Follows(cycles, first, pid, history)
    ensures var total, last := TotalDelta(cycles, first, pid, history, MajorFaults), history[|history| - 1];
      && total >= last.majflt - history[0].majflt
      && (total == last.majflt - history[0].majflt <==> Grows(history, MajorFaults))
  {
    CountersAreConserved(cycles, first, pid, history, MajorFaults);
  }

  // ----- What a snapshot shows -----

  // The members copied from the stat file, and the texts.
  ghost predicate ShowsStat(snap: ProcessSnapshot, stat: ProcStat, c: Cycle) {
    && snap.pid == stat.pid && snap.name == stat.comm && snap.state == stat.state && snap.ppid == stat.ppid
    && snap.memVirt == stat.vsize && snap.numThreads == stat.numThreads && snap.processor == stat.processor
    && (stat.pid in c.cmds && c.cmds[stat.pid] != "" ==> snap.cmd == c.cmds[stat.pid])
    && (stat.pid !in c.cmds || c.cmds[stat.pid] == "" ==> snap.cmd == stat.comm)
  }

  // The owner: the name of the uid, or the uid, which is the largest one when it could not be read.
  ghost predicate ShowsUser(snap: ProcessSnapshot, c: Cycle) {
    exists uid: nat ::
      && uid == (if snap.pid in c.uids then c.uids[snap.pid] else 4_294_967_295)
      && snap.user == (if uid in c.passwd then c.passwd[uid] else "uid:" + Print(uid))
  }

  // Resident memory in bytes, and as a percentage of the whole.
  ghost predicate ShowsMemory(snap: ProcessSnapshot, stat: ProcStat, c: Cycle) {
    && (stat.rss > 0 ==> snap.memRss == stat.rss * c.pageSize)
    && (stat.rss <= 0 ==> snap.memRss == 0)
    && (c.memTotal > 0 ==> snap.memPct * c.memTotal as real == 100.0 * snap.memRss as real)
    && (c.memTotal == 0 ==> snap.memPct == 0.0)
  }

  // `starttime` ticks are this many whole seconds, at 100 ticks a second unless the system says otherwise.
  predicate WholeSeconds(starttime: nat, clkTck: nat, seconds: nat) {
    var hz := if clkTck > 0 then clkTck else 100;
    seconds * hz <= starttime < (seconds + 1) * hz
  }

  // The process began some whole seconds after boot.
  ghost predicate ShowsUptime(snap: ProcessSnapshot, stat: ProcStat, c: Cycle) {
    exists seconds: nat ::
      && WholeSeconds(stat.starttime, c.clkTck, seconds)
      && (c.bootTimeSecs + seconds <= c.nowSecs ==> snap.uptimeSecs + c.bootTimeSecs + seconds == c.nowSecs)
      && (c.bootTimeSecs + seconds > c.nowSecs ==> snap.uptimeSecs == 0)
  }

  // The rate of major faults is the delta over the elapsed time.
  ghost predicate ShowsFaults(snap: ProcessSnapshot, stat: ProcStat, c: Cycle, delta: Option<nat>) {
    && (snap.majfltRate.Some? <==> delta.Some? && c.elapsedSecs > 0.0)
    && (snap.majfltRate.Some? ==> snap.majfltRate.value * c.elapsedSecs == delta.value as real)
  }

  /** Every snapshot shows the stat file that was read of its process, member by member. */
  lemma SnapshotMeaning(states: States, c: Cycle, k: nat)
    requires KernelStats(c) && k < |Snapshots(states, c)|
    ensures exists stat :: Reads(c, Snapshots(states, c)[k].pid, stat)
    ensures forall stat :: Reads(c, Snapshots(states, c)[k].pid, stat) ==>
              var snap := Snapshots(states, c)[k];
              && ShowsStat(snap, stat, c) && ShowsUser(snap, c)
              && ShowsMemory(snap, stat, c) && ShowsUptime(snap, stat, c)
              && ShowsFaults(snap, stat, c, DeltaUsed(states, snap.pid, stat, MajorFaults))
  {
    var stat := Top(states, c)[k].stat;
    assert Top(states, c)[k] in Ranking(states, c);
    RankedIsRead(states, c, Top(states, c)[k]);
    SnapshotShows(states, c, stat);
    assert Reads(c, Snapshots(states, c)[k].pid, stat);
    forall other | Reads(c, Snapshots(states, c)[k].pid, other) ensures other == stat {
      OneStat(c, stat.pid, stat, other);
    }
  }

  lemma SnapshotShows(states: States, c: Cycle, stat: ProcStat)
    ensures var snap := BuildSnapshot(stat, c, Baseline(states, stat.pid, stat.starttime));
      && ShowsStat(snap, stat, c) && ShowsUser(snap, c)
      && ShowsMemory(snap, stat, c) && ShowsUptime(snap, stat, c)
      && ShowsFaults(snap, stat, c, DeltaUsed(states, stat.pid, stat, MajorFaults))
  {
    MemoryShows(stat, c, Baseline(states, stat.pid, stat.starttime));
    UptimeShows(stat, c, Baseline(states, stat.pid, stat.starttime));
    FaultsShow(states, c, stat);
  }

  lemma MemoryShows(stat: ProcStat, c: Cycle, prev: Option<PrevProcStat>)
    ensures ShowsMemory(BuildSnapshot(stat, c, prev), stat, c)
  {
    if c.memTotal > 0 {
      var rss := BuildSnapshot(stat, c, prev).memRss as real;
      assert rss / c.memTotal as real * c.memTotal as real == rss;
    }
  }

  lemma UptimeShows(stat: ProcStat, c: Cycle, prev: Option<PrevProcStat>)
    ensures ShowsUptime(BuildSnapshot(stat, c, prev), stat, c)
  {
    var hz := if c.clkTck > 0 then c.clkTck else 100;
    var seconds := stat.starttime / hz;
    assert WholeSeconds(stat.starttime, c.clkTck, seconds);
  }

  lemma FaultsShow(states: States, c: Cycle, stat: ProcStat)
    ensures ShowsFaults(BuildSnapshot(stat, c, Baseline(states, stat.pid, stat.starttime)), stat, c,
                        DeltaUsed(states, stat.pid, stat, MajorFaults))
  {
    var delta := DeltaUsed(states, stat.pid, stat, MajorFaults);
    if delta.Some? && c.elapsedSecs > 0.0 {
      assert delta.value as real / c.elapsedSecs * c.elapsedSecs == delta.value as real;
    }
  }

  /**
   The same does not hold of I/O: with counters that only grow, a delta taken from
   the baseline left by a cycle is the true one exactly when the process was in
   the top 50 of that cycle with a readable file, or had moved no byte.
   */
  lemma IoDeltaIsTrue(states: States, c: Cycle, pid: nat, prev: ProcStat, before: ProcIo, now: ProcIo)
    requires KernelStats(c) && Reads(c, pid, prev)
    requires pid in c.ios ==> c.ios[pid] == before
    requires before.readBytes <= now.readBytes && before.writeBytes <= now.writeBytes
    ensures pid in NextStates(states, c) && NextStates(states, c)[pid].starttime == prev.starttime
    ensures var kept, left := InTop(states, c, pid) && pid in c.ios, NextStates(states, c)[pid];
      && (SaturatingSub(now.readBytes, left.readBytes) == now.readBytes - before.readBytes
          <==> kept || before.readBytes == 0)
      && (SaturatingSub(now.writeBytes, left.writeBytes) == now.writeBytes - before.writeBytes
          <==> kept || before.writeBytes == 0)
  {
    NextStatesMeaning(states, c, pid);
  }

  lemma DivideSame(a: int, b: int, secs: real)
    requires secs > 0.0
    ensures a as real / secs == b as real / secs <==> a == b
  {
    assert a as real / secs * secs == a as real && b as real / secs * secs == b as real;
  }

  // A rate is the true one exactly when the delta behind it is.
  lemma RatesAgainst(stat: ProcStat, next: Cycle, left: PrevProcStat, before: ProcIo)
    requires stat.pid in next.ios && next.elapsedSecs > 0.0
    ensures var snap, now := BuildSnapshot(stat, next, Some(left)), next.ios[stat.pid];
      && snap.ioReadRate.Some? && snap.ioWriteRate.Some?
      && (snap.ioReadRate.value == (now.readBytes - before.readBytes) as real / next.elapsedSecs
          <==> SaturatingSub(now.readBytes, left.readBytes) == now.readBytes - before.readBytes)
      && (snap.ioWriteRate.value == (now.writeBytes - before.writeBytes) as real / next.elapsedSecs
          <==> SaturatingSub(now.writeBytes, left.writeBytes) == now.writeBytes - before.writeBytes)
  {
    var now := next.ios[stat.pid];
    DivideSame(SaturatingSub(now.readBytes, left.readBytes), now.readBytes - before.readBytes, next.elapsedSecs);
    DivideSame(SaturatingSub(now.writeBytes, left.writeBytes), now.writeBytes - before.writeBytes, next.elapsedSecs);
  }

  // The I/O rates of a process that was scanned the cycle before as `prev`, having moved `before`:
  // present exactly for the same process, a readable file and a positive time, and then true exactly
  // when its baseline was kept or it had moved no byte.
  ghost predicate ShowsIo(snap: ProcessSnapshot, stat: ProcStat, next: Cycle, prev: ProcStat, before: ProcIo,
                          kept: bool) {
    && (snap.ioReadRate.Some? <==> stat.starttime == prev.starttime && stat.pid in next.ios && next.elapsedSecs > 0.0)
    && (snap.ioWriteRate.Some? <==> snap.ioReadRate.Some?)
    && (snap.ioReadRate.Some? ==>
          var now := next.ios[stat.pid];
          && (snap.ioReadRate.value == (now.readBytes - before.readBytes) as real / next.elapsedSecs
              <==> kept || before.readBytes == 0)
          && (snap.ioWriteRate.value == (now.writeBytes - before.writeBytes) as real / next.elapsedSecs
              <==> kept || before.writeBytes == 0))
  }

  lemma ShowsIoAgainst(states: States, c: Cycle, next: Cycle, stat: ProcStat, prev: ProcStat, before: ProcIo)
    requires KernelStats(c) && Reads(c, stat.pid, prev) && (stat.pid in c.ios ==> c.ios[stat.pid] == before)
    requires stat.pid in next.ios ==>
      before.readBytes <= next.ios[stat.pid].readBytes && before.writeBytes <= next.ios[stat.pid].writeBytes
    ensures ShowsIo(BuildSnapshot(stat, next, Baseline(NextStates(states, c), stat.pid, stat.starttime)),
                    stat, next, prev, before, InTop(states, c, stat.pid) && stat.pid in c.ios)
  {
    NextStatesMeaning(states, c, stat.pid);
    if stat.pid in next.ios && next.elapsedSecs > 0.0 {
      IoDeltaIsTrue(states, c, stat.pid, prev, before, next.ios[stat.pid]);
      RatesAgainst(stat, next, NextStates(states, c)[stat.pid], before);
    }
  }

  /**
   What the next cycle reports of a listed process that was scanned the cycle
   before: its I/O rates are the true ones exactly under the condition above.
   */
  lemma IoRateIsTrue(states: States, c: Cycle, next: Cycle, k: nat, prev: ProcStat, before: ProcIo)
    requires KernelStats(c) && k < |Top(NextStates(states, c), next)|
    requires var pid := Top(NextStates(states, c), next)[k].stat.pid;
      && Reads(c, pid, prev) && (pid in c.ios ==> c.ios[pid] == before)
      && (pid in next.ios ==>
            before.readBytes <= next.ios[pid].readBytes && before.writeBytes <= next.ios[pid].writeBytes)
    ensures var stat := Top(NextStates(states, c), next)[k].stat;
      ShowsIo(Snapshots(NextStates(states, c), next)[k], stat, next, prev, before,
              InTop(states, c, stat.pid) && stat.pid in c.ios)
  {
    ShowsIoAgainst(states, c, next, Top(NextStates(states, c), next)[k].stat, prev, before);
  }

  // ----- Two cycles that lose I/O -----

  function Idle(pid: nat): ProcStat {
    ProcStat(pid, "idle", 'S', 1, 0, 0, 1, 0, 0, 0, 0, 0)
  }

  // A first cycle of `n` idle processes, with the I/O files that could be read.
  function FirstCycle(n: nat, ios: map<nat, ProcIo>): Cycle {
    Cycle(seq(n, i requires 0 <= i < n => (i, Some(Idle(i)))), map[], ios,
          map[], 100, 1.0, 1, 4096, 0, 0, 0, 100, map[])
  }

  lemma {:induction false} IdleScan(n: nat, ios: map<nat, ProcIo>, k: nat)
    requires k <= n
    ensures Scan(map[], FirstCycle(n, ios), k) == seq(k, i requires 0 <= i < k => Ranked(Idle(i), None))
  {
    if k > 0 { IdleScan(n, ios, k - 1); }
  }

  lemma IdleRanking(n: nat, ios: map<nat, ProcIo>)
    ensures Ranking(map[], FirstCycle(n, ios)) == seq(n, i requires 0 <= i < n => Ranked(Idle(i), None))
  {
    IdleScan(n, ios, n);
    SortOfTies(Scan(map[], FirstCycle(n, ios), n), Busier);
  }

  lemma IdleTop(n: nat, ios: map<nat, ProcIo>)
    ensures Top(map[], FirstCycle(n, ios)) ==
            seq(if n < TOP_N then n else TOP_N, i requires 0 <= i < TOP_N => Ranked(Idle(i), None))
  {
    IdleRanking(n, ios);
  }

  lemma IdleRead(n: nat, ios: map<nat, ProcIo>, pid: nat)
    requires pid < n
    ensures KernelStats(FirstCycle(n, ios)) && Reads(FirstCycle(n, ios), pid, Idle(pid))
    ensures InTop(map[], FirstCycle(n, ios), pid) <==> pid < TOP_N
  {
    var c := FirstCycle(n, ios);
    assert c.stats[pid] == (pid, Some(Idle(pid)));
    IdleTop(n, ios);
    if pid < TOP_N { assert Top(map[], c)[pid].stat.pid == pid; }
  }

  /**
   Ten bytes read before the first cycle are counted again in the second: of the
   51st process, whose file was readable, and of a process whose file was not.
   */
  lemma IoIsCountedTwice()
    ensures var c := FirstCycle(51, map[50 := ProcIo(10, 10)]);
      50 in NextStates(map[], c) && SaturatingSub(20, NextStates(map[], c)[50].readBytes) == 20
    ensures var c := FirstCycle(1, map[]);
      0 in NextStates(map[], c) && SaturatingSub(20, NextStates(map[], c)[0].readBytes) == 20
  {
    IdleRead(51, map[50 := ProcIo(10, 10)], 50);
    NextStatesMeaning(map[], FirstCycle(51, map[50 := ProcIo(10, 10)]), 50);
    IdleRead(1, map[], 0);
    NextStatesMeaning(map[], FirstCycle(1, map[]), 0);
  }
}
