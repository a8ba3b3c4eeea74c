/**
 The gate before tagging a release: `waitForCiSuccess`.

 The commands, the clock and the sleeps belong to the environment.  What they
 answered is given as data, one `Round` per turn of the polling loop, so the
 results hold for every environment.
 */
module CiGate {

  import opened Values

  const CI_WORKFLOW_NAME := "CI"
  const CI_BRANCH := "main"

  // One element of the JSON output.  `Malformed` stands for every value that is
  // not an object with these string fields; no such value passes the identity check.
  datatype RunData =
    | RunData(databaseId: int, headSha: string, headBranch: string, event: string, workflowName: string,
              status: string, conclusion: string)
    | Malformed

  datatype Listing = Unparseable | NotAnArray | Runs(runs: seq<RunData>)

  // One turn of the loop: exit code and output of `gh run list`, and the clock
  // before it and after it.
  datatype Round = Round(before: int, code: int, after: int, stdout: Listing)

  datatype GateError =
    | ListFailed(code: int)
    | NotRegistered
    | BadListing
    | WrongIdentity
    | WatchFailed(code: int)
    | ViewFailed(code: int)
    | BadView
    | NotSuccessful

  // `Waiting`: the observations end while the loop still polls.
  datatype Verdict = Proven(run: RunData) | Refused(error: GateError) | Waiting

  // The condition under which `assertCiRunIdentity` does not throw.
  predicate HasIdentity(run: RunData, sha: string) {
    && run.RunData?
    && run.headSha == sha && run.headBranch == CI_BRANCH
    && run.event == "push" && run.workflowName == CI_WORKFLOW_NAME
  }

  /** A run is trusted exactly when it is a push of the exact commit on main, of the workflow CI. */
  lemma IdentityMeaning(run: RunData, sha: string)
    ensures HasIdentity(run, sha) <==>
            exists id, status, conclusion :: run == RunData(id, sha, "main", "push", "CI", status, conclusion)
  {
    if run.RunData? && HasIdentity(run, sha) {
      assert run == RunData(run.databaseId, sha, "main", "push", "CI", run.status, run.conclusion);
    }
  }

  // The turn ends in another poll: an empty listing, obtained in time.
  predicate KeepsPolling(r: Round, deadline: int) {
    r.code == 0 && r.after < deadline && r.stdout == Runs([])
  }

  // The turn registers a run: the first of a listing obtained in time.
  predicate Registers(r: Round, deadline: int, sha: string) {
    && r.code == 0 && r.after < deadline
    && r.stdout.Runs? && r.stdout.runs != [] && HasIdentity(r.stdout.runs[0], sha)
  }

  // The loop gets to turn `n`: every turn before it ended in another poll.
  ghost predicate Reaches(rounds: seq<Round>, deadline: int, n: nat) {
    n < |rounds| && forall k :: 0 <= k < n ==> KeepsPolling(rounds[k], deadline)
  }

  // The loop ends with a registered run.
  ghost predicate Registered(rounds: seq<Round>, deadline: int, sha: string) {
    exists n: nat :: Reaches(rounds, deadline, n) && Registers(rounds[n], deadline, sha)
  }

  // The turn lists runs in time, and the first one is not the run looked for.
  predicate Mismatches(r: Round, deadline: int, sha: string) {
    && r.code == 0 && r.after < deadline
    && r.stdout.Runs? && r.stdout.runs != [] && !HasIdentity(r.stdout.runs[0], sha)
  }

  predicate IsSuccess(run: RunData, sha: string) {
    HasIdentity(run, sha) && run.status == "completed" && run.conclusion == "success"
  }

  method WaitForCiSuccess(sha: string, start: int, registrationMs: int, rounds: seq<Round>,
                          watchCode: int, viewCode: int, viewed: Option<RunData>)
    returns (verdict: Verdict, lists: nat)
    ensures lists <= |rounds|
    ensures forall k :: 0 <= k < lists - 1 ==> KeepsPolling(rounds[k], start + registrationMs)
    ensures forall pollMs: nat :: pollMs > 0 && ClockAdvances(start, rounds, pollMs) ==>
              lists <= Polls(registrationMs, pollMs) + 1
    ensures verdict.Waiting? <==> forall k :: 0 <= k < |rounds| ==> KeepsPolling(rounds[k], start + registrationMs)
    ensures verdict.Waiting? ==> lists == |rounds|
    ensures verdict.Proven? <==>
              && Registered(rounds, start + registrationMs, sha)
              && watchCode == 0 && viewCode == 0 && viewed.Some? && IsSuccess(viewed.value, sha)
    ensures verdict.Proven? ==>
      && verdict.run == viewed.value
      && verdict.run.headSha == sha && verdict.run.headBranch == "main" && verdict.run.event == "push"
      && verdict.run.workflowName == "CI" && verdict.run.status == "completed" && verdict.run.conclusion == "success"
    ensures forall code :: verdict == Refused(ListFailed(code)) <==>
              exists n: nat :: Reaches(rounds, start + registrationMs, n) && rounds[n].code == code != 0
    ensures verdict == Refused(NotRegistered) <==>
              exists n: nat :: Reaches(rounds, start + registrationMs, n)
                               && rounds[n].code == 0 && rounds[n].after >= start + registrationMs
    ensures verdict == Refused(BadListing) <==>
              exists n: nat :: Reaches(rounds, start + registrationMs, n)
                               && rounds[n].code == 0 && rounds[n].after < start + registrationMs
                                   && !rounds[n].stdout.Runs?
    ensures verdict == Refused(WrongIdentity) <==>
              || (exists n: nat :: Reaches(rounds, start + registrationMs, n)
                                   && Mismatches(rounds[n], start + registrationMs, sha))
              || (Registered(rounds, start + registrationMs, sha)
                  && watchCode == 0 && viewCode == 0 && viewed.Some? && !HasIdentity(viewed.value, sha))
    ensures forall code :: verdict == Refused(WatchFailed(code)) <==>
              Registered(rounds, start + registrationMs, sha) && watchCode == code != 0
    ensures forall code :: verdict == Refused(ViewFailed(code)) <==>
              Registered(rounds, start + registrationMs, sha) && watchCode == 0 && viewCode == code != 0
    ensures verdict == Refused(BadView) <==>
              Registered(rounds, start + registrationMs, sha) && watchCode == 0 && viewCode == 0 && viewed.None?
    ensures verdict == Refused(NotSuccessful) <==>
              && Registered(rounds, start + registrationMs, sha) && watchCode == 0 && viewCode == 0
              && viewed.Some? && HasIdentity(viewed.value, sha) && !IsSuccess(viewed.value, sha)
  {
    var deadline := start + registrationMs;
    lists := 0;
    while lists < |rounds|
      invariant lists <= |rounds|
      invariant forall k :: 0 <= k < lists ==> KeepsPolling(rounds[k], deadline)
    {
      var round := rounds[lists];
      lists := lists + 1;
      BoundedAtEveryPace(start, registrationMs, rounds, lists);
      if round.code != 0 {
        return Refused(ListFailed(round.code)), lists;
      }
      if round.after >= deadline {
        return Refused(NotRegistered), lists;
      }
      if !round.stdout.Runs? {
        return Refused(BadListing), lists;
      }
      if round.stdout.runs != [] {
        if !HasIdentity(round.stdout.runs[0], sha) {
          return Refused(WrongIdentity), lists;
        }
        assert Registers(rounds[lists - 1], deadline, sha);
        verdict := Conclude(sha, watchCode, viewCode, viewed);
        return;
      }
    }
    BoundedAtEveryPace(start, registrationMs, rounds, lists);
    verdict := Waiting;
  }

  // After registration: watch the run, view it again and re-verify it.
  function Conclude(sha: string, watchCode: int, viewCode: int, viewed: Option<RunData>): Verdict {
    if watchCode != 0 then Refused(WatchFailed(watchCode))
    else if viewCode != 0 then Refused(ViewFailed(viewCode))
    else if viewed.None? then Refused(BadView)
    else if !HasIdentity(viewed.value, sha) then Refused(WrongIdentity)
    else if viewed.value.status != "completed" || viewed.value.conclusion != "success" then Refused(NotSuccessful)
    else Proven(viewed.value)
  }

  // ----- Termination -----

  // The clock never goes back, and a sleep advances it by at least `pollMs`.
  predicate ClockAdvances(start: int, rounds: seq<Round>, pollMs: int) {
    && (rounds != [] ==> start <= rounds[0].before)
    && (forall k :: 0 <= k < |rounds| ==> rounds[k].before <= rounds[k].after)
    && forall k :: 0 <= k < |rounds| - 1 ==> rounds[k].after + pollMs <= rounds[k + 1].before
  }

  // Rounded up; zero when there is no time at all.
  function Polls(registrationMs: int, pollMs: int): nat
    requires pollMs > 0
  {
    if registrationMs <= 0 then 0 else (registrationMs + pollMs - 1) / pollMs
  }

  lemma {:induction false} SleepsAddUp(start: int, rounds: seq<Round>, pollMs: int, n: nat)
    requires ClockAdvances(start, rounds, pollMs) && n < |rounds|
    ensures rounds[n].after >= start + n * pollMs
  {
    if n > 0 {
      SleepsAddUp(start, rounds, pollMs, n - 1);
      assert rounds[n - 1].after + pollMs <= rounds[n].before;
      assert n * pollMs == (n - 1) * pollMs + pollMs;
    }
  }

  lemma PollsCover(registrationMs: int, pollMs: int, n: nat)
    requires pollMs > 0 && n >= Polls(registrationMs, pollMs)
    ensures n * pollMs >= registrationMs
  {
    if registrationMs > 0 {
      var p := Polls(registrationMs, pollMs);
      assert p * pollMs >= registrationMs;
      MultiplyMonotone(p, n, pollMs);
    }
  }

  lemma MultiplyMonotone(a: nat, b: nat, c: nat)
    requires a <= b
    ensures a * c <= b * c
  {
  }

  /**
   The loop issues at most ceil(registrationMs / pollMs) + 1 list calls: every
   call but the last ended in another poll, and that many polls use up the time.
   */
  lemma ListCallsAreBounded(start: int, registrationMs: int, pollMs: int, rounds: seq<Round>, lists: nat)
    requires pollMs > 0 && ClockAdvances(start, rounds, pollMs)
    requires lists <= |rounds| && forall k :: 0 <= k < lists - 1 ==> KeepsPolling(rounds[k], start + registrationMs)
    ensures lists <= Polls(registrationMs, pollMs) + 1
    ensures lists >= 2 ==> (lists - 2) * pollMs < registrationMs
  {
    if lists >= 2 { SleepsAddUp(start, rounds, pollMs, lists - 2); }
    if lists > Polls(registrationMs, pollMs) + 1 {
      var n := lists - 2;
      SleepsAddUp(start, rounds, pollMs, n);
      PollsCover(registrationMs, pollMs, n);
    }
  }

  lemma BoundedAtEveryPace(start: int, registrationMs: int, rounds: seq<Round>, lists: nat)
    requires lists <= |rounds| && forall k :: 0 <= k < lists - 1 ==> KeepsPolling(rounds[k], start + registrationMs)
    ensures forall pollMs: nat :: pollMs > 0 && ClockAdvances(start, rounds, pollMs) ==>
              lists <= Polls(registrationMs, pollMs) + 1
  {
    forall pollMs: nat | pollMs > 0 && ClockAdvances(start, rounds, pollMs)
      ensures lists <= Polls(registrationMs, pollMs) + 1
    {
      ListCallsAreBounded(start, registrationMs, pollMs, rounds, lists);
    }
  }

  /** So an environment that answers that many calls gets a verdict. */
  lemma GateDecides(start: int, registrationMs: int, pollMs: int, rounds: seq<Round>)
    requires pollMs > 0 && ClockAdvances(start, rounds, pollMs)
    requires |rounds| > Polls(registrationMs, pollMs)
    ensures exists k :: 0 <= k < |rounds| && !KeepsPolling(rounds[k], start + registrationMs)
  {
    var n := Polls(registrationMs, pollMs);
    SleepsAddUp(start, rounds, pollMs, n);
    PollsCover(registrationMs, pollMs, n);
  }
}
