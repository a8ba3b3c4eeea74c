/**
 The tier-2 scheduler of the probe: the ticker loop spawns collections in the
 background, and a flag and two instants keep them apart.

 Nothing in the step relation says that collections do not overlap: the loop
 only reads the flag, and a task only reads the instant of the last deep scan.
 Instants are in nanoseconds of a clock that does not run backwards.
 */
module Tier2 {

  // The two spans in nanoseconds, and the same as the loop writes them.
  const HALF_HOUR := 1_800_000_000_000
  const SIX_HOURS := 21_600_000_000_000
  const MINUTE := 60_000_000_000
  const TIER2_INTERVAL := 30 * MINUTE
  const HEAVY_INTERVAL := 360 * MINUTE

  datatype Phase =
    | Spawned     // not polled yet
    | Collecting  // it has decided about the deep scan
    | Scanned     // the deep scan has begun
    | Recorded    // the payload is sent and the deep scan's completion stored
    | Finished    // it has lowered the flag
    | Panicked    // it was unwound and lowers no flag

  datatype Task = Task(phase: Phase, deep: bool)

  datatype State = State(now: int, running: bool, lastDiskDeep: int, tier2Timer: int, tasks: seq<Task>)

  datatype Event =
    | Check(at: int, reset: int)  // the loop reads the timer, and sets it if it was due
    | Begin(id: nat, at: int)
    | Scan(id: nat, at: int)
    | Record(id: nat, at: int)
    | Finish(id: nat)
    | Panic(id: nat)

  // The loop's variables are set one after the other; then the first task is spawned.
  function Initial(timer: int, start: int): State {
    State(start, true, start - HEAVY_INTERVAL, timer, [Task(Spawned, false)])
  }

  predicate Enabled(s: State, e: Event) {
    match e
    case Check(at, reset) => s.now <= at <= reset
    case Begin(id, at) => s.now <= at && id < |s.tasks| && s.tasks[id].phase == Spawned
    case Scan(id, at) => s.now <= at && id < |s.tasks| && s.tasks[id].phase == Collecting && s.tasks[id].deep
    case Record(id, at) => s.now <= at && id < |s.tasks| && s.tasks[id].phase == Scanned
    case Finish(id) => id < |s.tasks| &&
      (s.tasks[id].phase == Recorded || (s.tasks[id].phase == Collecting && !s.tasks[id].deep))
    case Panic(id) => id < |s.tasks| && s.tasks[id].phase in {Collecting, Scanned}
  }

  function Next(s: State, e: Event): State
    requires Enabled(s, e)
  {
    match e
    case Check(at, reset) =>
      if at - s.tier2Timer < TIER2_INTERVAL then s.(now := reset)
      else if s.running then s.(now := reset, tier2Timer := reset)  // this cycle is skipped
      else s.(now := reset, tier2Timer := reset, running := true, tasks := s.tasks + [Task(Spawned, false)])
    case Begin(id, at) =>
      s.(now := at, tasks := s.tasks[id := Task(Collecting, at - s.lastDiskDeep >= HEAVY_INTERVAL)])
    case Scan(id, at) => s.(now := at, tasks := s.tasks[id := s.tasks[id].(phase := Scanned)])
    case Record(id, at) =>
      s.(now := at, lastDiskDeep := at, tasks := s.tasks[id := s.tasks[id].(phase := Recorded)])
    case Finish(id) => s.(running := false, tasks := s.tasks[id := s.tasks[id].(phase := Finished)])
    case Panic(id) => s.(tasks := s.tasks[id := s.tasks[id].(phase := Panicked)])
  }

  // ----- Runs -----

  predicate ValidRun(s: State, es: seq<Event>)
    decreases |es|, 0
  {
    if es == [] then true
    else
      var last := |es| - 1;
      ValidRun(s, es[..last]) && Enabled(After(s, es[..last]), es[last])
  }

  function After(s: State, es: seq<Event>): State
    requires ValidRun(s, es)
    decreases |es|, 1
  {
    if es == [] then s
    else
      var last := |es| - 1;
      Next(After(s, es[..last]), es[last])
  }

  // When the deep scans of a run began, in order.
  function Scans(es: seq<Event>): seq<int> {
    if es == [] then []
    else
      var last := |es| - 1;
      Scans(es[..last]) + (if es[last].Scan? then [es[last].at] else [])
  }

  // When the tasks of a run stored the completion of their deep scans, in order.
  function Completions(es: seq<Event>): seq<int> {
    if es == [] then []
    else
      var last := |es| - 1;
      Completions(es[..last]) + (if es[last].Record? then [es[last].at] else [])
  }

  predicate HasPanicked(s: State) {
    exists i :: 0 <= i < |s.tasks| && s.tasks[i].phase == Panicked
  }

  predicate Live(t: Task) { t.phase !in {Finished, Panicked} }

  // ----- The invariant -----

  // Every task but the newest has finished; the flag tells whether the newest has.
  ghost predicate FlagInv(s: State) {
    && s.tasks != []
    && (forall i :: 0 <= i < |s.tasks| - 1 ==> s.tasks[i].phase == Finished)
    && (s.running <==> s.tasks[|s.tasks| - 1].phase != Finished)
  }

  // The deep scans alternate with their completions, and a scan waits for the interval.
  ghost predicate Alternate(scans: seq<int>, completions: seq<int>, now: int) {
    && |completions| <= |scans| <= |completions| + 1
    && (forall k :: 0 <= k < |completions| ==> scans[k] <= completions[k] <= now)
    && (forall k :: 0 <= k < |scans| ==> scans[k] <= now)
    && forall j, k :: 0 <= j < |completions| && j < k < |scans| ==> completions[j] + HEAVY_INTERVAL <= scans[k]
  }

  ghost predicate ScanInv(s: State, start: int, scans: seq<int>, completions: seq<int>)
    requires s.tasks != []
  {
    var newest := s.tasks[|s.tasks| - 1];
    && start <= s.now
    && Alternate(scans, completions, s.now)
    && (newest.phase == Scanned ==> |scans| == |completions| + 1)
    && (|scans| == |completions| + 1 ==> newest.phase in {Scanned, Panicked})
    && s.lastDiskDeep == (if completions == [] then start - HEAVY_INTERVAL else completions[|completions| - 1])
    && (newest.phase == Collecting && newest.deep ==> s.now - s.lastDiskDeep >= HEAVY_INTERVAL)
  }

  ghost predicate FirstInv(s: State, completions: seq<int>)
    requires s.tasks != []
  {
    if s.tasks[0].phase == Spawned then |s.tasks| == 1 && completions == [] else s.tasks[0].deep
  }

  lemma StepKeepsFlag(s: State, e: Event)
    requires FlagInv(s) && Enabled(s, e)
    ensures FlagInv(Next(s, e))
    ensures !e.Check? ==> e.id == |s.tasks| - 1
  {
  }

  lemma AlternateLater(scans: seq<int>, completions: seq<int>, now: int, later: int)
    requires Alternate(scans, completions, now) && now <= later
    ensures Alternate(scans, completions, later)
  {
  }

  lemma AlternateScan(scans: seq<int>, completions: seq<int>, now: int, at: int)
    requires Alternate(scans, completions, now) && now <= at && |scans| == |completions|
    requires completions != [] ==> completions[|completions| - 1] + HEAVY_INTERVAL <= at
    ensures Alternate(scans + [at], completions, at)
  {
    forall j | 0 <= j < |completions| ensures completions[j] + HEAVY_INTERVAL <= at {
      var last := |completions| - 1;
      assert j < last ==> completions[j] + HEAVY_INTERVAL <= scans[last] <= completions[last];
    }
  }

  lemma AlternateRecord(scans: seq<int>, completions: seq<int>, now: int, at: int)
    requires Alternate(scans, completions, now) && now <= at && |scans| == |completions| + 1
    ensures Alternate(scans, completions + [at], at)
  {
  }

  lemma ScanKeepsScans(s: State, e: Event, start: int, scans: seq<int>, completions: seq<int>)
    requires FlagInv(s) && ScanInv(s, start, scans, completions) && Enabled(s, e) && e.Scan?
    ensures Next(s, e).tasks != [] && ScanInv(Next(s, e), start, scans + [e.at], completions)
  {
    StepKeepsFlag(s, e);
    AlternateScan(scans, completions, s.now, e.at);
  }

  lemma RecordKeepsScans(s: State, e: Event, start: int, scans: seq<int>, completions: seq<int>)
    requires FlagInv(s) && ScanInv(s, start, scans, completions) && Enabled(s, e) && e.Record?
    ensures Next(s, e).tasks != [] && ScanInv(Next(s, e), start, scans, completions + [e.at])
  {
    StepKeepsFlag(s, e);
    AlternateRecord(scans, completions, s.now, e.at);
  }

  lemma OthersKeepScans(s: State, e: Event, start: int, scans: seq<int>, completions: seq<int>)
    requires FlagInv(s) && ScanInv(s, start, scans, completions) && Enabled(s, e) && !e.Scan? && !e.Record?
    ensures Next(s, e).tasks != [] && ScanInv(Next(s, e), start, scans, completions)
  {
    StepKeepsFlag(s, e);
    AlternateLater(scans, completions, s.now, Next(s, e).now);
  }

  lemma StepKeepsScans(s: State, e: Event, start: int, scans: seq<int>, completions: seq<int>)
    requires FlagInv(s) && ScanInv(s, start, scans, completions) && Enabled(s, e)
    ensures Next(s, e).tasks != []
    ensures ScanInv(Next(s, e), start, scans + (if e.Scan? then [e.at] else []),
                    completions + (if e.Record? then [e.at] else []))
  {
    assert scans + [] == scans && completions + [] == completions;
    if e.Scan? {
      ScanKeepsScans(s, e, start, scans, completions);
    } else if e.Record? {
      RecordKeepsScans(s, e, start, scans, completions);
    } else {
      OthersKeepScans(s, e, start, scans, completions);
    }
  }

  lemma StepKeepsFirst(s: State, e: Event, start: int, scans: seq<int>, completions: seq<int>)
    requires FlagInv(s) && ScanInv(s, start, scans, completions) && FirstInv(s, completions) && Enabled(s, e)
    ensures Next(s, e).tasks != []
    ensures FirstInv(Next(s, e), completions + (if e.Record? then [e.at] else []))
  {
    StepKeepsFlag(s, e);
  }

  lemma {:induction false} RunKeepsInv(timer: int, start: int, es: seq<Event>)
    requires ValidRun(Initial(timer, start), es)
    ensures var s := After(Initial(timer, start), es);
      FlagInv(s) && ScanInv(s, start, Scans(es), Completions(es)) && FirstInv(s, Completions(es))
  {
    if es != [] {
      var last := |es| - 1;
      RunKeepsInv(timer, start, es[..last]);
      var s := After(Initial(timer, start), es[..last]);
      StepKeepsFlag(s, es[last]);
      StepKeepsScans(s, es[last], start, Scans(es[..last]), Completions(es[..last]));
      StepKeepsFirst(s, es[last], start, Scans(es[..last]), Completions(es[..last]));
    }
  }

  // ----- Main results -----

  /**
   At most one collection is live, and the flag is raised exactly while one is,
   unless a task has panicked: then the flag stays up with no collection live.
   */
  lemma AtMostOneCollection(timer: int, start: int, es: seq<Event>)
    requires ValidRun(Initial(timer, start), es)
    ensures var s := After(Initial(timer, start), es);
      && (forall i, j :: 0 <= i < j < |s.tasks| ==> !(Live(s.tasks[i]) && Live(s.tasks[j])))
      && (s.running <==> HasPanicked(s) || exists i :: 0 <= i < |s.tasks| && Live(s.tasks[i]))
      && (HasPanicked(s) ==> forall i :: 0 <= i < |s.tasks| ==> !Live(s.tasks[i]))
  {
    RunKeepsInv(timer, start, es);
    var s := After(Initial(timer, start), es);
    assert s.running ==> s.tasks[|s.tasks| - 1].phase == Panicked || Live(s.tasks[|s.tasks| - 1]);
  }

  /** The first collection includes the deep scan. */
  lemma FirstCollectionIsDeep(timer: int, start: int, es: seq<Event>)
    requires ValidRun(Initial(timer, start), es)
    ensures var s := After(Initial(timer, start), es);
      s.tasks != [] && (s.tasks[0].phase != Spawned ==> s.tasks[0].deep)
  {
    RunKeepsInv(timer, start, es);
  }

  /** Every later deep scan starts at least six hours after the previous one's recorded completion. */
  lemma ScansWait(timer: int, start: int, es: seq<Event>, k: nat, next: nat)
    requires ValidRun(Initial(timer, start), es)
    requires next == k + 1 < |Scans(es)|
    ensures k < |Completions(es)|
    ensures Scans(es)[k] <= Completions(es)[k]
    ensures Completions(es)[k] + SIX_HOURS <= Scans(es)[next]
  {
    RunKeepsInv(timer, start, es);
  }

  // How many of the instants lie in [low, high].
  function CountIn(times: seq<int>, low: int, high: int): nat {
    if times == [] then 0
    else CountIn(times[..|times| - 1], low, high) + (if low <= times[|times| - 1] <= high then 1 else 0)
  }

  /** The count adds up, and an instant counts exactly when it lies in the closed span. */
  lemma {:induction false} CountInAdds(a: seq<int>, b: seq<int>, low: int, high: int, t: int)
    ensures CountIn([t], low, high) == 1 <==> low <= t && t <= high
    ensures CountIn(a + b, low, high) == CountIn(a, low, high) + CountIn(b, low, high)
  {
    assert [t][..0] == [];
    if b == [] {
      assert a + b == a;
    } else {
      CountInAdds(a, b[..|b| - 1], low, high, t);
      assert (a + b)[..|a + b| - 1] == a + b[..|b| - 1];
    }
  }

  ghost predicate Spaced(times: seq<int>) {
    forall j, k :: 0 <= j < k < |times| ==> times[j] + HEAVY_INTERVAL <= times[k]
  }

  lemma {:induction false} CountBefore(times: seq<int>, low: int, high: int, bound: int)
    requires forall k :: 0 <= k < |times| ==> times[k] <= bound
    requires bound <= high
    ensures CountIn(times, low, high) == CountIn(times, low, bound)
  {
    if times != [] {
      CountBefore(times[..|times| - 1], low, high, bound);
    }
  }

  lemma {:induction false} NoneInEmptySpan(times: seq<int>, low: int, high: int)
    requires high < low
    ensures CountIn(times, low, high) == 0
  {
    if times != [] {
      NoneInEmptySpan(times[..|times| - 1], low, high);
    }
  }

  lemma {:induction false} SpacedCount(times: seq<int>, low: int, high: int)
    requires Spaced(times) && low <= high
    ensures CountIn(times, low, high) <= (high - low) / HEAVY_INTERVAL + 1
  {
    if times != [] {
      var rest, t := times[..|times| - 1], times[|times| - 1];
      if low <= t <= high {
        CountBefore(rest, low, high, t - HEAVY_INTERVAL);
        if low <= t - HEAVY_INTERVAL {
          SpacedCount(rest, low, t - HEAVY_INTERVAL);
        } else {
          NoneInEmptySpan(rest, low, t - HEAVY_INTERVAL);
        }
      } else {
        SpacedCount(rest, low, high);
      }
    }
  }

  /** Any span of length T holds at most T / 6h + 1 starts of a deep scan. */
  lemma ScansPerSpan(timer: int, start: int, es: seq<Event>, low: int, high: int)
    requires ValidRun(Initial(timer, start), es) && low <= high
    ensures CountIn(Scans(es), low, high) <= (high - low) / SIX_HOURS + 1
  {
    RunKeepsInv(timer, start, es);
    var scans, completions := Scans(es), Completions(es);
    forall j, k | 0 <= j < k < |scans| ensures scans[j] + HEAVY_INTERVAL <= scans[k] {
      assert scans[j] <= completions[j];
    }
    SpacedCount(scans, low, high);
  }

  /** The collections after the first are at least half an hour apart, counted from the loop's start. */
  lemma {:induction false} CollectionsArePaced(timer: int, start: int, es: seq<Event>)
    requires timer <= start && ValidRun(Initial(timer, start), es)
    ensures var s := After(Initial(timer, start), es);
      |s.tasks| >= 1 && (|s.tasks| - 1) * HALF_HOUR <= s.tier2Timer - timer <= s.now - timer
  {
    if es != [] {
      CollectionsArePaced(timer, start, es[..|es| - 1]);
    }
  }

  // ----- When collections are spawned and when they scan, from the events alone -----

  // When the last due check was done, or the loop began: a check is due half an hour after that.
  function LastReset(timer: int, es: seq<Event>): int {
    if es == [] then timer
    else
      var last, before := es[|es| - 1], LastReset(timer, es[..|es| - 1]);
      if last.Check? && last.at - before >= HALF_HOUR then last.reset else before
  }

  lemma {:induction false} TimerIsLastReset(timer: int, start: int, es: seq<Event>)
    requires ValidRun(Initial(timer, start), es)
    ensures After(Initial(timer, start), es).tier2Timer == LastReset(timer, es)
  {
    if es != [] { TimerIsLastReset(timer, start, es[..|es| - 1]); }
  }

  predicate IsIdle(s: State) {
    !HasPanicked(s) && forall i :: 0 <= i < |s.tasks| ==> !Live(s.tasks[i])
  }

  /**
   A collection is spawned exactly by a check that comes half an hour or more
   after the last due one, when nothing is live and no task has panicked.
   */
  lemma SpawnsExactlyWhenDue(timer: int, start: int, es: seq<Event>, e: Event)
    requires ValidRun(Initial(timer, start), es + [e])
    ensures ValidRun(Initial(timer, start), es)
    ensures var s, s' := After(Initial(timer, start), es), After(Initial(timer, start), es + [e]);
      if e.Check? && e.at - LastReset(timer, es) >= HALF_HOUR && IsIdle(s)
      then s'.tasks == s.tasks + [Task(Spawned, false)] && s'.running
      else |s'.tasks| == |s.tasks|
  {
    LastStep(Initial(timer, start), es, e);
    TimerIsLastReset(timer, start, es);
    AtMostOneCollection(timer, start, es);
  }

  /** After a due check that is skipped no collection is spawned for half an hour. */
  lemma {:induction false} SkipCostsHalfAnHour(timer: int, start: int, es: seq<Event>, e: Event, later: seq<Event>)
    requires e.Check? && e.at - LastReset(timer, es) >= HALF_HOUR
    requires ValidRun(Initial(timer, start), es + [e] + later) && ValidRun(Initial(timer, start), es + [e])
    requires forall k :: 0 <= k < |later| && later[k].Check? ==> later[k].at < e.reset + HALF_HOUR
    ensures LastReset(timer, es + [e] + later) == e.reset
    ensures |After(Initial(timer, start), es + [e] + later).tasks| == |After(Initial(timer, start), es + [e]).tasks|
  {
    var run := es + [e] + later;
    if later == [] {
      assert run == es + [e] && run[..|run| - 1] == es;
    } else {
      var last := |later| - 1;
      assert run == (es + [e] + later[..last]) + [later[last]] && run[..|run| - 1] == es + [e] + later[..last];
      SpawnsExactlyWhenDue(timer, start, es + [e] + later[..last], later[last]);
      SkipCostsHalfAnHour(timer, start, es, e, later[..last]);
    }
  }

  /**
   A collection includes the deep scan exactly when none has completed yet or the
   last completion was recorded six hours ago or earlier.
   */
  lemma DeepExactlyWhenDue(timer: int, start: int, es: seq<Event>, id: nat, at: int)
    requires ValidRun(Initial(timer, start), es + [Begin(id, at)])
    ensures var s' := After(Initial(timer, start), es + [Begin(id, at)]);
      && id < |s'.tasks|
      && (s'.tasks[id].deep <==>
            Completions(es) == [] || at - Completions(es)[|Completions(es)| - 1] >= SIX_HOURS)
  {
    LastStep(Initial(timer, start), es, Begin(id, at));
    RunKeepsInv(timer, start, es);
  }

  lemma {:induction false} RunSplits(s: State, es: seq<Event>, later: seq<Event>)
    requires ValidRun(s, es + later)
    ensures ValidRun(s, es) && ValidRun(After(s, es), later)
    ensures After(s, es + later) == After(After(s, es), later)
  {
    if later == [] {
      assert es + later == es;
    } else {
      var last := |later| - 1;
      assert es + later == (es + later[..last]) + [later[last]] && later == later[..last] + [later[last]];
      LastStep(s, es + later[..last], later[last]);
      RunSplits(s, es, later[..last]);
      LastStep(After(s, es), later[..last], later[last]);
    }
  }

  lemma LastStep(s: State, es: seq<Event>, e: Event)
    ensures ValidRun(s, es + [e]) <==> ValidRun(s, es) && Enabled(After(s, es), e)
    ensures ValidRun(s, es + [e]) ==> After(s, es + [e]) == Next(After(s, es), e)
  {
    assert (es + [e])[..|es|] == es;
  }

  lemma {:induction false} PanicIsFinal(s: State, es: seq<Event>)
    requires FlagInv(s) && HasPanicked(s) && ValidRun(s, es)
    ensures After(s, es).tasks == s.tasks && After(s, es).running
    ensures Scans(es) == []
  {
    assert s.tasks[|s.tasks| - 1].phase == Panicked;
    if es != [] {
      PanicIsFinal(s, es[..|es| - 1]);
    }
  }

  /** A panicking task leaves the flag up: no collection is ever spawned or scanned again. */
  lemma PanicStopsCollections(timer: int, start: int, es: seq<Event>, later: seq<Event>)
    requires ValidRun(Initial(timer, start), es + later)
    requires ValidRun(Initial(timer, start), es) && HasPanicked(After(Initial(timer, start), es))
    ensures After(Initial(timer, start), es + later).tasks == After(Initial(timer, start), es).tasks
    ensures Scans(later) == []
  {
    RunSplits(Initial(timer, start), es, later);
    RunKeepsInv(timer, start, es);
    PanicIsFinal(After(Initial(timer, start), es), later);
  }

  /** Such a run: the first task panics while it collects, and the flag stays up with nothing live. */
  lemma PanicLeavesTheFlag(es: seq<Event>)
    requires es == [Begin(0, 0), Panic(0)]
    ensures ValidRun(Initial(0, 0), es)
    ensures var s := After(Initial(0, 0), es);
      HasPanicked(s) && s.running && forall i :: 0 <= i < |s.tasks| ==> !Live(s.tasks[i])
  {
    assert es == ([] + [Begin(0, 0)]) + [Panic(0)];
    LastStep(Initial(0, 0), [], Begin(0, 0));
    LastStep(Initial(0, 0), [Begin(0, 0)], Panic(0));
    assert After(Initial(0, 0), es).tasks[0].phase == Panicked;
  }

  // ----- The loop's variables and the tasks that share them -----

  class Scheduler {
    var running: bool
    var lastDiskDeep: int
    var tier2Timer: int
    var tasks: seq<Task>
    ghost var now: int

    ghost function View(): State
      reads this
    {
      State(now, running, lastDiskDeep, tier2Timer, tasks)
    }

    ghost predicate Valid()
      reads this
    {
      FlagInv(View())
    }

    constructor (timer: int, start: int)
      ensures Valid() && View() == Initial(timer, start)
    {
      tier2Timer := timer;
      lastDiskDeep := start - HEAVY_INTERVAL;
      now := start;
      running := true;
      tasks := [Task(Spawned, false)];
    }

    method SpawnTier2Task()
      modifies this`running, this`tasks
      ensures running && tasks == old(tasks) + [Task(Spawned, false)]
    {
      running := true;
      tasks := tasks + [Task(Spawned, false)];
    }

    /** One round of the loop: reads the timer at `at`, resets it at `reset`. */
    method CheckTier2(at: int, reset: int) returns (spawned: bool)
      requires Valid() && Enabled(View(), Check(at, reset))
      modifies this
      ensures Valid() && View() == Next(old(View()), Check(at, reset))
      ensures spawned <==> at - old(tier2Timer) >= TIER2_INTERVAL
                           && forall i :: 0 <= i < |old(tasks)| ==> old(tasks)[i].phase == Finished
    {
      ghost var before := View();
      StepKeepsFlag(before, Check(at, reset));
      spawned := false;
      if at - tier2Timer >= TIER2_INTERVAL {
        if !running {
          SpawnTier2Task();
          spawned := true;
        }
        tier2Timer := reset;
      }
      now := reset;
      assert forall i :: 0 <= i < |before.tasks| - 1 ==> before.tasks[i].phase == Finished;
    }

    /** The first poll of a task: decides whether this collection scans the disk. */
    method BeginTask(id: nat, at: int) returns (includeDiskDeep: bool)
      requires Valid() && Enabled(View(), Begin(id, at))
      modifies this`tasks, this`now
      ensures Valid() && View() == Next(old(View()), Begin(id, at))
      ensures includeDiskDeep == tasks[id].deep
      ensures includeDiskDeep <==> at >= lastDiskDeep + HEAVY_INTERVAL
    {
      StepKeepsFlag(View(), Begin(id, at));
      includeDiskDeep := at - lastDiskDeep >= HEAVY_INTERVAL;
      tasks := tasks[id := Task(Collecting, includeDiskDeep)];
      now := at;
    }

    /** The heavy phase of a collection that includes the deep scan. */
    method ScanDisk(id: nat, at: int)
      requires Valid() && Enabled(View(), Scan(id, at))
      modifies this`tasks, this`now
      ensures Valid() && View() == Next(old(View()), Scan(id, at))
    {
      StepKeepsFlag(View(), Scan(id, at));
      tasks := tasks[id := tasks[id].(phase := Scanned)];
      now := at;
    }

    /** After the payload is sent: stores the completion of a deep scan, then lowers the flag. */
    method EndTask(id: nat, at: int)
      requires Valid() && id < |tasks|
      requires tasks[id].deep ==> Enabled(View(), Record(id, at))
      requires !tasks[id].deep ==> Enabled(View(), Finish(id))
      modifies this
      ensures Valid()
      ensures old(tasks[id].deep) ==>
        View() == Next(Next(old(View()), Record(id, at)), Finish(id))
      ensures !old(tasks[id].deep) ==> View() == Next(old(View()), Finish(id))
      ensures forall i :: 0 <= i < |tasks| ==> tasks[i].phase == Finished
    {
      ghost var s := View();
      if tasks[id].deep {
        StepKeepsFlag(s, Record(id, at));
        s := Next(s, Record(id, at));
        lastDiskDeep := at;
        tasks := tasks[id := tasks[id].(phase := Recorded)];
        now := at;
      }
      StepKeepsFlag(s, Finish(id));
      running := false;
      tasks := tasks[id := tasks[id].(phase := Finished)];
    }
  }
}
