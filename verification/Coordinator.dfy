/**
 The serial mutation queue: `ConnectCoordinator` of the worker's entry point.

 Every admitted request owns three promises: `current` (queue wait, then the
 handler), the `.then` promise that drains background tasks, and the
 `.finally` promise that becomes the new `tail`.  A `State` records how far each
 of them has got; an `Event` is one turn of the event loop.  Nothing in the
 step relation says that requests run one at a time: a request only knows which
 promise was `this.tail` when it arrived.
 */
module Coordinator {
  import opened Values

  const QUEUE_LIMIT := 32
  const REQUEST_TIMEOUT_MS := 15_000

  type TaskId = nat

  datatype Outcome = Fulfilled | Rejected

  // What the field `tail` can point to.
  datatype Promise = Resolved | TailOf(id: nat)

  datatype Reply = Busy | QueueTimeout | Answered | Failed

  datatype Phase =
    | Queued    // the callback of `tail.then` has not run
    | Handling  // suspended inside `app.fetch`
    | Settled   // `current` is settled, its reaction has not run
    | Draining  // suspended in `Promise.allSettled(tasks)`
    | Drained   // the `.then` promise is settled, `.finally` has not run
    | Released  // `.finally` ran and the tail promise is settled

  datatype Request = Request(
    after: Promise,            // `this.tail` at arrival
    queuedAt: int,
    phase: Phase,
    ran: bool,                 // the handler was called
    current: Outcome,          // settlement of `current`, meaningful from Settled on
    tasks: seq<TaskId>,        // the array that `waitUntil` pushes into
    watched: seq<TaskId>,      // its content when `allSettled` read it
    drained: Outcome,          // settlement of the `.then` promise, meaningful from Drained on
    tailOutcome: Outcome,      // settlement of the tail promise, meaningful once Released
    reply: Option<Reply>)      // what the awaiting caller of `fetch` gets

  datatype State = State(
    tail: Promise,
    pending: int,
    requests: seq<Request>,
    settled: set<TaskId>)

  datatype Event =
    | Arrive(now: int)
    | Start(id: nat, now: int)
    | Register(id: nat, task: TaskId)
    | Return(id: nat)
    | Throw(id: nat)
    | Drain(id: nat)
    | Settle(task: TaskId)
    | DrainDone(id: nat)
    | Finally(id: nat)

  const INITIAL := State(Resolved, 0, [], {})

  // ----- The step relation -----

  predicate IsSettled(s: State, p: Promise) {
    p.Resolved? || (p.id < |s.requests| && s.requests[p.id].phase == Released)
  }

  function OutcomeOf(s: State, p: Promise): Outcome
    requires IsSettled(s, p)
  {
    if p.Resolved? then Fulfilled else s.requests[p.id].tailOutcome
  }

  predicate Enabled(s: State, e: Event) {
    match e
    case Arrive(_) => true
    case Settle(_) => true
    case _ => e.id < |s.requests| && EnabledFor(s, s.requests[e.id], e)
  }

  predicate EnabledFor(s: State, r: Request, e: Event)
    requires !e.Arrive? && !e.Settle?
  {
    match e
    case Start(_, _) => r.phase == Queued && IsSettled(s, r.after)
    case Register(_, _) => r.ran
    case Return(_) => r.phase == Handling
    case Throw(_) => r.phase == Handling
    case Drain(_) => r.phase == Settled
    case DrainDone(_) => r.phase == Draining && forall t :: t in r.watched ==> t in s.settled
    case Finally(_) => r.phase == Drained
  }

  function Next(s: State, e: Event): State
    requires Enabled(s, e)
  {
    match e
    case Arrive(now) =>
      if s.pending >= QUEUE_LIMIT then s
      else State(TailOf(|s.requests|), s.pending + 1,
                 s.requests + [Request(s.tail, now, Queued, false, Fulfilled, [], [], Fulfilled, Fulfilled, None)],
                 s.settled)
    case Settle(task) => s.(settled := s.settled + {task})
    case Finally(id) =>
      s.(requests := s.requests[id := NextRequest(s, s.requests[id], e)], pending := s.pending - 1)
    case _ => s.(requests := s.requests[e.id := NextRequest(s, s.requests[e.id], e)])
  }

  function NextRequest(s: State, r: Request, e: Event): Request
    requires !e.Arrive? && !e.Settle?
    requires EnabledFor(s, r, e)
  {
    match e
    case Start(_, now) =>
      // `then` without a rejection handler passes a rejected tail straight on
      if OutcomeOf(s, r.after) == Rejected then
        r.(phase := Settled, current := Rejected, reply := Some(Failed))
      else if now - r.queuedAt > REQUEST_TIMEOUT_MS then
        r.(phase := Settled, current := Fulfilled, reply := Some(QueueTimeout))
      else r.(phase := Handling, ran := true)
    case Register(_, task) => r.(tasks := r.tasks + [task])
    case Return(_) => r.(phase := Settled, current := Fulfilled, reply := Some(Answered))
    case Throw(_) => r.(phase := Settled, current := Rejected, reply := Some(Failed))
    case Drain(_) =>
      if r.current == Fulfilled then r.(phase := Draining, watched := r.tasks)
      else r.(phase := Drained, drained := Fulfilled)  // `() => undefined` swallows the rejection
    case DrainDone(_) => r.(phase := Drained, drained := Fulfilled)  // `allSettled` never rejects
    // `finally` passes the settlement of the `.then` promise on
    case Finally(_) => r.(phase := Released, tailOutcome := r.drained)
  }

  // ----- Runs -----

  predicate ValidRun(s: State, es: seq<Event>)
    decreases |es|, 0
  {
    if es == [] then true
    else
      var last := |es| - 1;
      ValidRun(s, es[..last]) && Enabled(After(s, es[..last]), es[last])
  }

  function After(s: State, es: seq<Event>): State
    requires ValidRun(s, es)
    decreases |es|, 1
  {
    if es == [] then s
    else
      var last := |es| - 1;
      Next(After(s, es[..last]), es[last])
  }

  // The requests whose turn began, in the order of the run.
  function StartedIds(es: seq<Event>): seq<nat> {
    if es == [] then []
    else
      var last := |es| - 1;
      StartedIds(es[..last]) + (if es[last].Start? then [es[last].id] else [])
  }

  // The requests that decremented `pending`, in the order of the run.
  function ReleasedIds(es: seq<Event>): seq<nat> {
    if es == [] then []
    else
      var last := |es| - 1;
      ReleasedIds(es[..last]) + (if es[last].Finally? then [es[last].id] else [])
  }

  // Arrival times of the admitted requests.  Admission is decided from the trace
  // alone: fewer than 32 of the earlier admitted requests are still unreleased.
  function AdmittedTimes(es: seq<Event>): seq<int> {
    if es == [] then []
    else
      var last := |es| - 1;
      var before := AdmittedTimes(es[..last]);
      if es[last].Arrive? && |before| - |ReleasedIds(es[..last])| < QUEUE_LIMIT
      then before + [es[last].now] else before
  }

  function Range(n: nat): (r: seq<nat>)
    ensures |r| == n && forall i :: 0 <= i < n ==> r[i] == i
  {
    seq(n, i => i)
  }

  // ----- The invariant -----

  // The first `done` requests are released; at most one more has begun.
  ghost predicate Inv(s: State, done: nat, begun: nat) {
    && done <= begun <= |s.requests|
    && begun <= done + 1
    && s.pending == |s.requests| - done
    && s.pending <= QUEUE_LIMIT
    && s.tail == TailBefore(|s.requests|)
    && forall i :: 0 <= i < |s.requests| ==> RequestInv(s, s.requests[i], i, done, begun)
  }

  function TailBefore(i: nat): Promise {
    if i == 0 then Resolved else TailOf(i - 1)
  }

  ghost predicate RequestInv(s: State, r: Request, i: nat, done: nat, begun: nat) {
    && r.after == TailBefore(i)
    && (r.phase == Released <==> i < done)
    && (r.phase != Queued <==> i < begun)
    && (r.phase == Drained ==> r.drained == Fulfilled)
    && (r.phase == Released ==> r.tailOutcome == Fulfilled)
    && (r.phase == Queued ==> !r.ran && r.reply == None)
    && (r.phase == Handling ==> r.ran && r.reply == None)
    && (r.phase !in {Queued, Handling} ==>
          && r.reply == Some(if !r.ran then QueueTimeout else if r.current == Fulfilled then Answered else Failed)
          && (!r.ran ==> r.current == Fulfilled))
    && (!r.ran ==> r.tasks == [])
    && r.watched <= r.tasks
    && (r.phase in {Drained, Released} && r.current == Fulfilled ==>
          forall t :: t in r.watched ==> t in s.settled)
    && (r.phase == Draining ==> r.current == Fulfilled)
  }

  // Which requests a step can be about.
  lemma StepIsInTurn(s: State, e: Event, done: nat, begun: nat)
    requires Inv(s, done, begun) && Enabled(s, e)
    ensures e.Start? ==>
      && e.id == begun == done
      && IsSettled(s, s.requests[e.id].after) && OutcomeOf(s, s.requests[e.id].after) == Fulfilled
    ensures e.Finally? ==> e.id == done < begun
  {
    if !e.Arrive? && !e.Settle? {
      assert RequestInv(s, s.requests[e.id], e.id, done, begun);
      if e.Start? && e.id > 0 {
        assert RequestInv(s, s.requests[e.id - 1], e.id - 1, done, begun);
      }
    }
  }

  lemma StepKeepsRequest(s: State, e: Event, done: nat, begun: nat, i: nat)
    requires Inv(s, done, begun) && Enabled(s, e) && i < |s.requests|
    ensures |Next(s, e).requests| >= |s.requests|
    ensures RequestInv(Next(s, e), Next(s, e).requests[i], i,
                       done + (if e.Finally? then 1 else 0), begun + (if e.Start? then 1 else 0))
  {
    StepIsInTurn(s, e, done, begun);
    assert RequestInv(s, s.requests[i], i, done, begun);
  }

  lemma StepKeepsInv(s: State, e: Event, done: nat, begun: nat)
    requires Inv(s, done, begun) && Enabled(s, e)
    ensures e.Start? ==> e.id == begun == done
    ensures e.Finally? ==> e.id == done
    ensures Inv(Next(s, e), done + (if e.Finally? then 1 else 0), begun + (if e.Start? then 1 else 0))
  {
    var s' := Next(s, e);
    var done', begun' := done + (if e.Finally? then 1 else 0), begun + (if e.Start? then 1 else 0);
    StepIsInTurn(s, e, done, begun);
    forall i | 0 <= i < |s'.requests| ensures RequestInv(s', s'.requests[i], i, done', begun') {
      if i < |s.requests| { StepKeepsRequest(s, e, done, begun, i); }
    }
  }

  /**
   The shape of every run: turns begin in admission order, each admitted
   request decrements `pending` exactly once and in that order, and at most one
   request is between the two.
   */
  lemma {:induction false} RunShape(es: seq<Event>)
    requires ValidRun(INITIAL, es)
    ensures StartedIds(es) == Range(|StartedIds(es)|)
    ensures ReleasedIds(es) == Range(|ReleasedIds(es)|)
    ensures Inv(After(INITIAL, es), |ReleasedIds(es)|, |StartedIds(es)|)
  {
    if es != [] {
      var last := |es| - 1;
      var done, begun := |ReleasedIds(es[..last])|, |StartedIds(es[..last])|;
      RunShape(es[..last]);
      StepKeepsInv(After(INITIAL, es[..last]), es[last], done, begun);
      RangeNext(done);
      RangeNext(begun);
    }
  }

  lemma RangeNext(n: nat)
    ensures Range(n) + [n] == Range(n + 1)
  {
  }

  // ----- Accounting and mutual exclusion -----

  predicate Active(r: Request) {
    r.phase != Queued && r.phase != Released
  }

  /** Accounting: `pending` is the number of admissions minus the number of decrements. */
  lemma {:induction false} PendingCountsUnreleased(es: seq<Event>)
    requires ValidRun(INITIAL, es)
    ensures var s := After(INITIAL, es);
      && |s.requests| == |AdmittedTimes(es)|
      && (forall i :: 0 <= i < |s.requests| ==> s.requests[i].queuedAt == AdmittedTimes(es)[i])
      && s.pending == |AdmittedTimes(es)| - |ReleasedIds(es)|
      && 0 <= s.pending <= 32
  {
    if es != [] {
      var last := |es| - 1;
      PendingCountsUnreleased(es[..last]);
      var s := After(INITIAL, es[..last]);
      RunShape(es[..last]);
      StepKeepsInv(s, es[last], |ReleasedIds(es[..last])|, |StartedIds(es[..last])|);
      StepKeepsCount(s, es[last], AdmittedTimes(es[..last]), |ReleasedIds(es[..last])|);
    }
  }

  // The requests are the admissions so far, and `pending` is what is left of them.
  ghost predicate Counts(s: State, times: seq<int>, released: nat) {
    && |s.requests| == |times| && s.pending == |times| - released
    && forall i :: 0 <= i < |times| ==> s.requests[i].queuedAt == times[i]
  }

  lemma StepKeepsCount(s: State, e: Event, times: seq<int>, released: nat)
    requires Enabled(s, e) && Counts(s, times, released)
    ensures Counts(Next(s, e), if e.Arrive? && |times| - released < QUEUE_LIMIT then times + [e.now] else times,
                   released + (if e.Finally? then 1 else 0))
  {
  }

  /** Mutual exclusion, and no promise in the chain is ever rejected. */
  lemma AtMostOneActive(es: seq<Event>, i: nat, j: nat)
    requires ValidRun(INITIAL, es)
    requires i < j < |After(INITIAL, es).requests|
    ensures var s := After(INITIAL, es);
      && !(Active(s.requests[i]) && Active(s.requests[j]))
      && (s.requests[j].phase != Queued ==> s.requests[i].phase == Released && OutcomeOf(s, TailOf(i)) == Fulfilled)
  {
    RunShape(es);
    var s := After(INITIAL, es);
    var done, begun := |ReleasedIds(es)|, |StartedIds(es)|;
    assert RequestInv(s, s.requests[i], i, done, begun);
    assert RequestInv(s, s.requests[j], j, done, begun);
  }

  // ----- Draining of background tasks -----

  lemma {:induction false} SettledMeansEvent(es: seq<Event>, task: TaskId)
    requires ValidRun(INITIAL, es)
    ensures task in After(INITIAL, es).settled <==> Settle(task) in es
  {
    if es != [] {
      var last := |es| - 1;
      SettledMeansEvent(es[..last], task);
      assert es == es[..last] + [es[last]];
    }
  }

  lemma {:induction false} RegisteredStays(es: seq<Event>, j: nat)
    requires ValidRun(INITIAL, es) && j < |es| && es[j].Register?
    ensures var s := After(INITIAL, es);
      es[j].id < |s.requests| && es[j].task in s.requests[es[j].id].tasks
  {
    var last := |es| - 1;
    if j < last {
      RegisteredStays(es[..last], j);
      TasksStay(After(INITIAL, es[..last]), es[last], es[j].id);
    }
  }

  lemma TasksStay(s: State, e: Event, i: nat)
    requires Enabled(s, e) && i < |s.requests|
    ensures i < |Next(s, e).requests|
    ensures forall t :: t in s.requests[i].tasks ==> t in Next(s, e).requests[i].tasks
  {
  }

  ghost predicate HasReturned(s: State, i: nat) {
    && i < |s.requests|
    && s.requests[i].current == Fulfilled
    && s.requests[i].phase !in {Queued, Handling}
  }

  lemma {:induction false} ReturnedStays(es: seq<Event>, i: nat)
    requires ValidRun(INITIAL, es) && Return(i) in es
    ensures HasReturned(After(INITIAL, es), i)
  {
    var last := |es| - 1;
    if es[last] != Return(i) {
      assert es == es[..last] + [es[last]];
      ReturnedStays(es[..last], i);
    }
  }

  /** A task registered before `p`, the return or the drain of its request, is waited for. */
  lemma {:induction false} OwedIsWatched(es: seq<Event>, j: nat, p: nat, i: nat)
    requires ValidRun(INITIAL, es) && j < p < |es|
    requires es[j].Register? && es[j].id == i
    requires es[p] in {Return(i), Drain(i)} && Return(i) in es[..p + 1]
    ensures var s := After(INITIAL, es);
      && HasReturned(s, i)
      && es[j].task in s.requests[i].tasks
      && (s.requests[i].phase != Settled ==> es[j].task in s.requests[i].watched)
  {
    var last := |es| - 1;
    RegisteredStays(es, j);
    if p == last {
      assert es[..p + 1] == es;
      ReturnedStays(es, i);
      RegisteredStays(es[..last], j);
    } else {
      assert es[..last][..p + 1] == es[..p + 1];
      OwedIsWatched(es[..last], j, p, i);
    }
  }

  lemma {:induction false} ReleasedMeansEvent(es: seq<Event>, i: nat)
    requires ValidRun(INITIAL, es)
    ensures i in ReleasedIds(es) <==> Finally(i) in es
  {
    if es != [] {
      var last := |es| - 1;
      ReleasedMeansEvent(es[..last], i);
      assert es == es[..last] + [es[last]];
    }
  }

  lemma {:induction false} PrefixIsRun(s: State, es: seq<Event>, k: nat)
    requires ValidRun(s, es) && k <= |es|
    ensures ValidRun(s, es[..k])
    ensures k < |es| ==> Enabled(After(s, es[..k]), es[k])
    decreases |es|
  {
    if k < |es| {
      var last := |es| - 1;
      assert es[..last][..k] == es[..k];
      if k < last {
        PrefixIsRun(s, es[..last], k);
      }
    } else {
      assert es[..k] == es;
    }
  }

  /**
   Serialisation: when the turn of a request begins, every earlier request has
   released the queue, and if the earlier handler returned then every task it
   had registered before returning (or before its drain began) has settled.
   */
  lemma StartWaitsForEarlier(es: seq<Event>, k: nat, i: nat)
    requires ValidRun(INITIAL, es) && k < |es| && es[k].Start? && i < es[k].id
    ensures Finally(i) in es[..k]
    ensures forall j, p :: 0 <= j < p < k && es[j].Register? && es[j].id == i
                           && es[p] in {Return(i), Drain(i)} && Return(i) in es[..p + 1]
                           ==> Settle(es[j].task) in es[..k]
  {
    PrefixIsRun(INITIAL, es, k);
    var pre := es[..k];
    var s := After(INITIAL, pre);
    var done, begun := |ReleasedIds(pre)|, |StartedIds(pre)|;
    RunShape(pre);
    StepKeepsInv(s, es[k], done, begun);
    assert ReleasedIds(pre)[i] == i;
    ReleasedMeansEvent(pre, i);
    assert RequestInv(s, s.requests[i], i, done, begun);
    forall j, p | 0 <= j < p < k && es[j].Register? && es[j].id == i
                  && es[p] in {Return(i), Drain(i)} && Return(i) in es[..p + 1]
      ensures Settle(es[j].task) in pre
    {
      assert pre[..p + 1] == es[..p + 1];
      OwedIsWatched(pre, j, p, i);
      SettledMeansEvent(pre, es[j].task);
    }
  }

  // ----- Queue timeout -----

  // Once begun, a request keeps its decision to run, and running is the only
  // way to return, throw or register.
  lemma RanIsStable(s: State, e: Event, i: nat)
    requires Enabled(s, e) && i < |s.requests|
    ensures i < |Next(s, e).requests|
    ensures s.requests[i].phase != Queued ==>
              Next(s, e).requests[i].phase != Queued && Next(s, e).requests[i].ran == s.requests[i].ran
  {
  }

  lemma {:induction false} HandlerEventMeansRan(es: seq<Event>, e: Event)
    requires ValidRun(INITIAL, es) && e in es && (e.Return? || e.Throw? || e.Register?)
    ensures var s := After(INITIAL, es);
      e.id < |s.requests| && s.requests[e.id].phase != Queued && s.requests[e.id].ran
  {
    var last := |es| - 1;
    var s := After(INITIAL, es[..last]);
    if es[last] == e {
      RunShape(es[..last]);
      assert RequestInv(s, s.requests[e.id], e.id, |ReleasedIds(es[..last])|, |StartedIds(es[..last])|);
    } else {
      assert es == es[..last] + [es[last]];
      HandlerEventMeansRan(es[..last], e);
    }
    if e.id < |s.requests| { RanIsStable(s, es[last], e.id); }
  }

  lemma {:induction false} StartDecides(es: seq<Event>, k: nat)
    requires ValidRun(INITIAL, es) && k < |es| && es[k].Start?
    ensures var i := es[k].id;
      && i < |AdmittedTimes(es)|
      && i < |After(INITIAL, es).requests|
      && var r := After(INITIAL, es).requests[i];
         r.phase != Queued && r.ran == (es[k].now - AdmittedTimes(es)[i] <= REQUEST_TIMEOUT_MS)
  {
    var last := |es| - 1;
    var s := After(INITIAL, es[..last]);
    if k == last {
      PendingCountsUnreleased(es[..last]);
      RunShape(es[..last]);
      StartDecidesNow(s, es[last], AdmittedTimes(es[..last]), |ReleasedIds(es[..last])|, |StartedIds(es[..last])|);
    } else {
      StartDecides(es[..last], k);
      RanIsStable(s, es[last], es[k].id);
    }
  }

  lemma StartDecidesNow(s: State, e: Event, times: seq<int>, done: nat, begun: nat)
    requires Enabled(s, e) && e.Start? && Inv(s, done, begun) && Counts(s, times, done)
    ensures e.id < |times| && e.id < |Next(s, e).requests|
    ensures var r := Next(s, e).requests[e.id];
      r.phase != Queued && r.ran == (e.now - times[e.id] <= REQUEST_TIMEOUT_MS)
  {
    StepIsInTurn(s, e, done, begun);
    assert RequestInv(s, s.requests[e.id], e.id, done, begun);
  }

  /**
   A request whose turn begins more than the limit after its admission is
   answered `queue_timeout` and its handler never runs; otherwise it runs.
   */
  lemma ExpiredNeverRuns(es: seq<Event>, k: nat)
    requires ValidRun(INITIAL, es) && k < |es| && es[k].Start?
    ensures var i := es[k].id;
      && i < |AdmittedTimes(es)|
      && i < |After(INITIAL, es).requests|
      && var r := After(INITIAL, es).requests[i];
         if es[k].now - AdmittedTimes(es)[i] > 15_000
         then r.reply == Some(QueueTimeout)
              && forall e :: e in es ==> e != Return(i) && e != Throw(i) && !(e.Register? && e.id == i)
         else r.ran && r.reply != Some(QueueTimeout)
  {
    StartDecides(es, k);
    RunShape(es);
    var i := es[k].id;
    var s := After(INITIAL, es);
    assert RequestInv(s, s.requests[i], i, |ReleasedIds(es)|, |StartedIds(es)|);
    forall e | e in es && !s.requests[i].ran ensures e != Return(i) && e != Throw(i) && !(e.Register? && e.id == i) {
      if e == Return(i) || e == Throw(i) || (e.Register? && e.id == i) {
        HandlerEventMeansRan(es, e);
      }
    }
  }

  // ----- Progress -----

  function Weight(r: Request): nat {
    match r.phase
    case Queued => 5
    case Handling => 4
    case Settled => 3
    case Draining => 2
    case Drained => 1
    case Released => 0
  }

  function TotalWeight(rs: seq<Request>): nat {
    if rs == [] then 0 else TotalWeight(rs[..|rs| - 1]) + Weight(rs[|rs| - 1])
  }

  lemma {:induction false} WeightUpdate(rs: seq<Request>, i: nat, r: Request)
    requires i < |rs|
    ensures TotalWeight(rs[i := r]) == TotalWeight(rs) - Weight(rs[i]) + Weight(r)
  {
    var last := |rs| - 1;
    if i == last {
      assert rs[i := r][..last] == rs[..last];
    } else {
      WeightUpdate(rs[..last], i, r);
      assert rs[i := r][..last] == rs[..last][i := r];
    }
  }

  // Turns of the coordinator itself, as opposed to arrivals and background tasks.
  predicate IsWork(e: Event) {
    e.Start? || e.Return? || e.Throw? || e.Drain? || e.DrainDone? || e.Finally?
  }

  function WorkCount(es: seq<Event>): nat {
    if es == [] then 0
    else WorkCount(es[..|es| - 1]) + (if IsWork(es[|es| - 1]) then 1 else 0)
  }

  lemma TurnUsesWeight(s: State, e: Event)
    requires Enabled(s, e)
    ensures |s.requests| <= |Next(s, e).requests|
    ensures TotalWeight(Next(s, e).requests) + (if IsWork(e) then 1 else 0)
            <= TotalWeight(s.requests) + 5 * (|Next(s, e).requests| - |s.requests|)
  {
    var s' := Next(s, e);
    if e.Arrive? {
      if s.pending < QUEUE_LIMIT {
        assert s'.requests[..|s.requests|] == s.requests;
      }
    } else if !e.Settle? {
      WeightUpdate(s.requests, e.id, NextRequest(s, s.requests[e.id], e));
    }
  }

  /** Every turn of the coordinator uses up weight, so arrivals alone bound the work of a run. */
  lemma {:induction false} WorkIsBounded(s: State, es: seq<Event>)
    requires ValidRun(s, es)
    ensures |s.requests| <= |After(s, es).requests|
    ensures TotalWeight(After(s, es).requests) + WorkCount(es)
            <= TotalWeight(s.requests) + 5 * (|After(s, es).requests| - |s.requests|)
  {
    if es != [] {
      var last := |es| - 1;
      WorkIsBounded(s, es[..last]);
      TurnUsesWeight(After(s, es[..last]), es[last]);
    }
  }

  /** From the start on the coordinator takes at most five turns per admission. */
  lemma FiveTurnsPerAdmission(es: seq<Event>)
    requires ValidRun(INITIAL, es)
    ensures WorkCount(es) <= 5 * |After(INITIAL, es).requests|
  {
    WorkIsBounded(INITIAL, es);
    assert TotalWeight([]) == 0;
  }

  lemma {:induction false} ConsRun(s: State, e: Event, es: seq<Event>)
    requires Enabled(s, e) && ValidRun(Next(s, e), es)
    ensures ValidRun(s, [e] + es)
    ensures After(s, [e] + es) == After(Next(s, e), es)
  {
    var all := [e] + es;
    var last := |all| - 1;
    if es == [] {
      assert all[..last] == [];
    } else {
      ConsRun(s, e, es[..last - 1]);
      assert all[..last] == [e] + es[..last - 1];
    }
  }

  function FirstUnsettled(tasks: seq<TaskId>, settled: set<TaskId>): (r: Option<TaskId>)
    ensures r.Some? ==> r.value in tasks && r.value !in settled
    ensures r.None? ==> forall t :: t in tasks ==> t in settled
  {
    if tasks == [] then None
    else if tasks[0] !in settled then Some(tasks[0])
    else FirstUnsettled(tasks[1..], settled)
  }

  /** What the oldest unreleased request is waiting for. */
  function NextTurn(s: State, i: nat, now: int): (e: Event)
    requires i < |s.requests| && s.requests[i].phase != Released
    requires s.requests[i].phase == Queued ==> IsSettled(s, s.requests[i].after)
    ensures Enabled(s, e)
    ensures (IsWork(e) && e.id == i) || (e.Settle? && e.task in s.requests[i].watched && e.task !in s.settled)
  {
    var r := s.requests[i];
    match r.phase
    case Queued => Start(i, now)
    case Handling => Return(i)
    case Settled => Drain(i)
    case Draining =>
      (match FirstUnsettled(r.watched, s.settled)
       case Some(t) => Settle(t)
       case None => DrainDone(i))
    case Drained => Finally(i)
  }

  function Unsettled(tasks: seq<TaskId>, settled: set<TaskId>): set<TaskId> {
    (set t | t in tasks) - settled
  }

  lemma OldestTurn(s: State, done: nat, begun: nat, now: int) returns (e: Event)
    requires Inv(s, done, begun) && done < |s.requests|
    ensures Enabled(s, e) && !e.Arrive? && !e.Register?
    ensures Inv(Next(s, e), done + (if e.Finally? then 1 else 0), begun + (if e.Start? then 1 else 0))
    ensures Next(s, e).tail == s.tail && |Next(s, e).requests| == |s.requests|
    ensures TotalWeight(Next(s, e).requests) < TotalWeight(s.requests) ||
            (Next(s, e).requests == s.requests && !e.Finally?
             && Unsettled(s.requests[done].watched, Next(s, e).settled)
                < Unsettled(s.requests[done].watched, s.settled))
  {
    assert RequestInv(s, s.requests[done], done, done, begun);
    if done > 0 { assert RequestInv(s, s.requests[done - 1], done - 1, done, begun); }
    e := NextTurn(s, done, now);
    StepKeepsInv(s, e, done, begun);
    TurnUsesWeight(s, e);
  }

  /**
   Progress: from every reachable state the queue can be drained without any
   arrival, by letting the oldest request take its next turn until `pending`
   is zero; the requests admitted so far are the only ones that release.
   */
  lemma {:induction false} QueueDrains(s: State, done: nat, begun: nat, now: int) returns (es: seq<Event>)
    requires Inv(s, done, begun)
    ensures ValidRun(s, es) && After(s, es).pending == 0
    ensures After(s, es).tail == s.tail && |After(s, es).requests| == |s.requests|
    ensures forall e :: e in es ==> !e.Arrive? && !e.Register?
    decreases TotalWeight(s.requests),
              if done < |s.requests| then Unsettled(s.requests[done].watched, s.settled) else {}
  {
    es := [];
    if done < |s.requests| {
      var e := OldestTurn(s, done, begun, now);
      var s' := Next(s, e);
      var rest := QueueDrains(s', done + (if e.Finally? then 1 else 0), begun + (if e.Start? then 1 else 0), now);
      ConsRun(s, e, rest);
      es := [e] + rest;
    }
  }

  lemma BusyQueueHasATurn(s: State, done: nat, begun: nat, now: int) returns (e: Event)
    requires Inv(s, done, begun) && s.pending > 0
    ensures Enabled(s, e)
    ensures IsWork(e) || (e.Settle? && e.task in s.requests[done].watched && e.task !in s.settled)
  {
    assert RequestInv(s, s.requests[done], done, done, begun);
    if done > 0 { assert RequestInv(s, s.requests[done - 1], done - 1, done, begun); }
    e := NextTurn(s, done, now);
  }

  /**
   A run at rest has drained: when no turn of the coordinator is enabled and every
   task that a drain waits for has settled, nothing is pending.
   */
  lemma RestIsDrained(es: seq<Event>)
    requires ValidRun(INITIAL, es)
    requires forall e :: IsWork(e) ==> !Enabled(After(INITIAL, es), e)
    requires forall i, t :: 0 <= i < |After(INITIAL, es).requests| && t in After(INITIAL, es).requests[i].watched ==>
               t in After(INITIAL, es).settled
    ensures After(INITIAL, es).pending == 0
  {
    RunShape(es);
    if After(INITIAL, es).pending > 0 {
      var e := BusyQueueHasATurn(After(INITIAL, es), |ReleasedIds(es)|, |StartedIds(es)|, 0);
    }
  }

  /** A rejecting handler releases the queue in two turns, whatever its tasks do. */
  lemma FailureReleasesAtOnce(s: State, done: nat, begun: nat, i: nat)
    requires Inv(s, done, begun)
    requires i < |s.requests| && s.requests[i].phase == Handling
    ensures Enabled(s, Throw(i))
    ensures var s1 := Next(s, Throw(i));
      && Enabled(s1, Drain(i))
      && var s2 := Next(s1, Drain(i));
      && Enabled(s2, Finally(i))
      && var s3 := Next(s2, Finally(i));
      && Inv(s3, done + 1, begun)
      && s3.pending == s.pending - 1 && s3.settled == s.settled
      && IsSettled(s3, TailOf(i)) && OutcomeOf(s3, TailOf(i)) == Fulfilled
      && s3.requests[i].reply == Some(Failed)
  {
    assert RequestInv(s, s.requests[i], i, done, begun);
    var s1 := Next(s, Throw(i));
    StepKeepsInv(s, Throw(i), done, begun);
    var s2 := Next(s1, Drain(i));
    StepKeepsInv(s1, Drain(i), done, begun);
    StepKeepsInv(s2, Finally(i), done, begun);
  }

  ghost predicate Safe(s: State) {
    exists done: nat, begun: nat :: Inv(s, done, begun)
  }

  lemma StepIsSafe(s: State, e: Event)
    requires Safe(s) && Enabled(s, e)
    ensures Safe(Next(s, e))
  {
    var done: nat, begun: nat :| Inv(s, done, begun);
    StepKeepsInv(s, e, done, begun);
  }

  // ----- The durable object -----

  /**
   The class itself.  `Fetch` is the synchronous part of `fetch`; the other
   methods are the continuations it installs.  Each is proved to take the
   matching step, so everything above holds of it.
   */
  class ConnectCoordinator {
    var tail: Promise
    var pending: int
    var requests: seq<Request>   // the promises created so far and their reactions
    var settled: set<TaskId>     // background tasks that have settled

    ghost function View(): State
      reads this
    {
      State(tail, pending, requests, settled)
    }

    ghost predicate Valid()
      reads this
    {
      Safe(View())
    }

    constructor ()
      ensures Valid() && View() == INITIAL
    {
      tail := Resolved;
      pending := 0;
      requests := [];
      settled := {};
      new;
      assert Inv(View(), 0, 0);
    }

    /** Admits the request, or answers `busy` and changes nothing. */
    method Fetch(now: int) returns (reply: Option<Reply>)
      requires Valid()
      modifies this
      ensures Valid() && View() == Next(old(View()), Arrive(now))
      ensures reply == Some(Busy) <==> old(pending) >= 32
      ensures reply == Some(Busy) ==> View() == old(View())
      ensures reply != Some(Busy) ==> reply == None && pending == old(pending) + 1 && tail == TailOf(|old(requests)|)
    {
      ghost var before := View();
      if pending >= QUEUE_LIMIT {
        reply := Some(Busy);
      } else {
        pending := pending + 1;
        requests := requests + [Request(tail, now, Queued, false, Fulfilled, [], [], Fulfilled, Fulfilled, None)];
        tail := TailOf(|requests| - 1);
        reply := None;
      }
      StepIsSafe(before, Arrive(now));
    }

    /** The callback of `tail.then`: the timeout check, then the call of the handler. */
    method RunTurn(id: nat, now: int) returns (expired: bool)
      requires Valid() && Enabled(View(), Start(id, now))
      modifies this`requests
      ensures Valid() && View() == Next(old(View()), Start(id, now))
      ensures expired <==> now - old(requests[id].queuedAt) > 15_000
      ensures requests[id].ran <==> !expired
      ensures forall j :: 0 <= j < id ==> requests[j].phase == Released
    {
      ghost var before := View();
      ghost var done: nat, begun: nat :| Inv(before, done, begun);
      StepKeepsInv(before, Start(id, now), done, begun);
      assert RequestInv(before, requests[id], id, done, begun);
      if id > 0 { assert RequestInv(before, requests[id - 1], id - 1, done, begun); }
      var r := requests[id];
      expired := now - r.queuedAt > REQUEST_TIMEOUT_MS;
      if expired {
        r := r.(phase := Settled, current := Fulfilled, reply := Some(QueueTimeout));
      } else {
        r := r.(phase := Handling, ran := true);
      }
      requests := requests[id := r];
      StepIsSafe(before, Start(id, now));
    }

    /** `context.waitUntil` of a request whose handler was called. */
    method WaitUntil(id: nat, task: TaskId)
      requires Valid() && Enabled(View(), Register(id, task))
      modifies this`requests
      ensures Valid() && View() == Next(old(View()), Register(id, task))
    {
      ghost var before := View();
      requests := requests[id := requests[id].(tasks := requests[id].tasks + [task])];
      StepIsSafe(before, Register(id, task));
    }

    /** `app.fetch` settles: the awaiting caller gets the answer or the failure. */
    method HandlerSettles(id: nat, threw: bool)
      requires Valid() && Enabled(View(), if threw then Throw(id) else Return(id))
      modifies this`requests
      ensures Valid() && View() == Next(old(View()), if threw then Throw(id) else Return(id))
      ensures requests[id].reply == Some(if threw then Failed else Answered)
    {
      ghost var before := View();
      var r := requests[id];
      if threw {
        requests := requests[id := r.(phase := Settled, current := Rejected, reply := Some(Failed))];
      } else {
        requests := requests[id := r.(phase := Settled, current := Fulfilled, reply := Some(Answered))];
      }
      StepIsSafe(before, if threw then Throw(id) else Return(id));
    }

    /** The two callbacks of `current.then`. */
    method BeginDrain(id: nat)
      requires Valid() && Enabled(View(), Drain(id))
      modifies this`requests
      ensures Valid() && View() == Next(old(View()), Drain(id))
      ensures old(requests[id].current) == Fulfilled ==> requests[id].watched == old(requests[id].tasks)
    {
      ghost var before := View();
      var r := requests[id];
      if r.current == Fulfilled {
        requests := requests[id := r.(phase := Draining, watched := r.tasks)];
      } else {
        requests := requests[id := r.(phase := Drained, drained := Fulfilled)];
      }
      StepIsSafe(before, Drain(id));
    }

    method TaskSettles(task: TaskId)
      requires Valid()
      modifies this`settled
      ensures Valid() && View() == Next(old(View()), Settle(task))
    {
      ghost var before := View();
      settled := settled + {task};
      StepIsSafe(before, Settle(task));
    }

    /** `Promise.allSettled` resolves. */
    method AllSettled(id: nat)
      requires Valid() && Enabled(View(), DrainDone(id))
      modifies this`requests
      ensures Valid() && View() == Next(old(View()), DrainDone(id))
    {
      ghost var before := View();
      requests := requests[id := requests[id].(phase := Drained, drained := Fulfilled)];
      StepIsSafe(before, DrainDone(id));
    }

    /** The `.finally` callback, the only place that decrements `pending`. */
    method Release(id: nat)
      requires Valid() && Enabled(View(), Finally(id))
      modifies this
      ensures Valid() && View() == Next(old(View()), Finally(id))
      ensures 0 <= pending == old(pending) - 1 && IsSettled(View(), TailOf(id))
    {
      ghost var before := View();
      pending := pending - 1;
      var r := requests[id];
      requests := requests[id := r.(phase := Released, tailOutcome := r.drained)];
      StepIsSafe(before, Finally(id));
    }
  }
}
