/**
 What a budget block or a quota pause does to the launch bound: the stopped job loses the failures
 recorded before it.
 */
module JobRunnerStops {
  import opened JobRunner
  import opened JobRunnerProperties
  import opened PyLists
  import opened Wrappers

  /** How many of the invocations were cut short while running this job. */
  function Stops(plan: Plan, disk: Disk, calls: seq<Call>, job: string): nat
    decreases |calls|
  {
    if calls == [] then 0 else
      var r := Invocation(plan, calls[0], disk);
      (if r.stopped == Some(job) then 1 else 0) + Stops(plan, r.disk, calls[1..], job)
  }

  lemma StoppedTurn(plan: Plan, call: Call, pending: seq<string>, i: nat, disk: Disk)
    requires i < |pending|
    ensures var t := Step(plan, call, pending, i, disk);
            && t.launches <= (if plan.maxAttempts < 0 then 0 else plan.maxAttempts)
            && (t.stop.Some? && t.launches > 0 ==> Prior(t.disk, pending[i]) == [] == Resume(t.disk, pending[i]))
  {
    LaunchAppends(plan, call, i, 1, Resume(disk, pending[i]), false);
    if Step(plan, call, pending, i, disk).stop.Some? { StopCodes(plan, call, pending, i, disk); }
  }

  lemma {:induction false} BatchForgets(plan: Plan, call: Call, pending: seq<string>, n: nat, terminal: bool,
                                        i: nat, disk: Disk, failed: bool, launched: seq<string>, job: string)
    requires i <= n <= |pending|
    ensures var r := Batch(plan, call, pending, n, terminal, i, disk, failed, launched);
            r.stopped == Some(job) ==> Prior(r.disk, job) == [] == Resume(r.disk, job)
    decreases n - i
  {
    if i < n {
      var t := Step(plan, call, pending, i, disk);
      StoppedTurn(plan, call, pending, i, disk);
      if t.stop.None? {
        BatchForgets(plan, call, pending, n, terminal, i + 1, t.disk, failed || t.failed,
                     launched + Copies(pending[i], t.launches), job);
      }
    }
  }

  /** A stop forgets the job's recorded failures, in every plan. */
  lemma StopForgets(plan: Plan, call: Call, disk: Disk, job: string)
    requires Invocation(plan, call, disk).stopped == Some(job)
    ensures var d := Invocation(plan, call, disk).disk; Prior(d, job) == [] == Resume(d, job)
  {
    var pending := Pending(plan, disk, plan.jobs);
    BatchForgets(plan, call, pending, BatchSize(call, pending), AnyTerminal(plan, disk), 0, disk, false, [], job);
  }

  lemma TurnStopped(plan: Plan, call: Call, pending: seq<string>, n: nat, terminal: bool, i: nat, disk: Disk,
                    failed: bool, launched: seq<string>)
    requires i < n <= |pending| && NoDuplicates(pending) && plan.maxAttempts >= 0
    ensures var r := Batch(plan, call, pending, n, terminal, i, disk, failed, launched);
            r.stopped == Some(pending[i]) ==>
              Count(r.launched, pending[i]) - Count(launched, pending[i]) <= plan.maxAttempts
  {
    var t := Step(plan, call, pending, i, disk);
    StoppedTurn(plan, call, pending, i, disk);
    CopiesCount(launched, pending[i], t.launches, pending[i]);
    if t.stop.None? {
      BatchFrame(plan, call, pending, n, terminal, i + 1, t.disk, failed || t.failed,
                 launched + Copies(pending[i], t.launches), pending[i]);
    }
  }

  lemma {:induction false} BatchStopped(plan: Plan, call: Call, pending: seq<string>, n: nat, terminal: bool,
                                        i: nat, disk: Disk, failed: bool, launched: seq<string>, job: string)
    requires i <= n <= |pending| && NoDuplicates(pending) && plan.maxAttempts >= 0
    ensures var r := Batch(plan, call, pending, n, terminal, i, disk, failed, launched);
            r.stopped == Some(job) ==> Count(r.launched, job) - Count(launched, job) <= plan.maxAttempts
    decreases n - i
  {
    if i < n {
      if pending[i] == job {
        TurnStopped(plan, call, pending, n, terminal, i, disk, failed, launched);
      } else {
        var t := Step(plan, call, pending, i, disk);
        CopiesCount(launched, pending[i], t.launches, job);
        if t.stop.None? {
          BatchStopped(plan, call, pending, n, terminal, i + 1, t.disk, failed || t.failed,
                       launched + Copies(pending[i], t.launches), job);
        }
      }
    }
  }

  /** With distinct ids, a stopped job was launched for one turn's attempts at most. */
  lemma StopLaunches(plan: Plan, call: Call, disk: Disk, job: string)
    requires plan.maxAttempts >= 0 && NoDuplicates(plan.jobs) && Invocation(plan, call, disk).stopped == Some(job)
    ensures Count(Invocation(plan, call, disk).launched, job) <= plan.maxAttempts
  {
    var pending := Pending(plan, disk, plan.jobs);
    PendingDistinct(plan, disk, plan.jobs);
    BatchStopped(plan, call, pending, BatchSize(call, pending), AnyTerminal(plan, disk), 0, disk, false, [], job);
  }

  /** What a stop can add to the launches of a job. */
  function PerStop(plan: Plan): int {
    plan.maxResume + 2 * plan.maxAttempts - 1
  }

  function Surplus(plan: Plan, stops: nat): int {
    if stops == 0 then 0 else Surplus(plan, stops - 1) + PerStop(plan)
  }

  lemma {:induction false} SurplusIs(plan: Plan, stops: nat)
    ensures Surplus(plan, stops) == stops * PerStop(plan)
  {
    if stops > 0 {
      SurplusIs(plan, stops - 1);
      assert (stops - 1) * PerStop(plan) + PerStop(plan) == stops * PerStop(plan);
    }
  }

  lemma OneInvocation(plan: Plan, call: Call, disk: Disk, job: string)
    requires plan.budget && plan.maxAttempts >= 1 && NoDuplicates(plan.jobs)
    ensures var r := Invocation(plan, call, disk);
            Count(r.launched, job) + Allowance(plan, r.disk, job) <=
              Allowance(plan, disk, job) + if r.stopped == Some(job) then PerStop(plan) else 0
  {
    var r := Invocation(plan, call, disk);
    if r.stopped == Some(job) {
      StopForgets(plan, call, disk, job);
      StopLaunches(plan, call, disk, job);
      AllowanceNonNegative(plan, disk, job);
      if !IsPending(plan, disk, job) { SettledIsAbsorbing(plan, call, disk, job); }
    } else {
      InvocationAllowance(plan, call, disk, job);
    }
  }

  lemma {:induction false} StopBoundStep(plan: Plan, disk: Disk, calls: seq<Call>, job: string)
    requires plan.budget && plan.maxAttempts >= 1 && NoDuplicates(plan.jobs)
    ensures TotalLaunches(plan, disk, calls, job) <=
              Allowance(plan, disk, job) + Surplus(plan, Stops(plan, disk, calls, job))
    decreases |calls|
  {
    if calls == [] {
      AllowanceNonNegative(plan, disk, job);
    } else {
      OneInvocation(plan, calls[0], disk, job);
      StopBoundStep(plan, Invocation(plan, calls[0], disk).disk, calls[1..], job);
    }
  }

  /**
   Over any invocations, from any disk, a job is launched no more often than its allowance and, for
   each time it was stopped while running, a resume limit and two turns more.
   */
  lemma StopBound(plan: Plan, disk: Disk, calls: seq<Call>, job: string)
    requires plan.budget && plan.maxAttempts >= 1 && NoDuplicates(plan.jobs)
    ensures TotalLaunches(plan, disk, calls, job) <=
              Allowance(plan, disk, job)
              + Stops(plan, disk, calls, job) * (plan.maxResume + 2 * plan.maxAttempts - 1)
  {
    StopBoundStep(plan, disk, calls, job);
    SurplusIs(plan, Stops(plan, disk, calls, job));
  }

  // ---------------------------------------------------------------- without a bound on the stops

  /** An invocation in which the provider's quota pauses the first child. */
  function Paused(): Call {
    Call(None, false, false, false, (_: nat) => false, (_: nat, _: int) => Outcome(1, false, false, true))
  }

  lemma PausedOnce(plan: Plan, disk: Disk, job: string)
    requires plan.maxAttempts >= 1 && (!plan.budget || plan.maxResume >= 1)
    requires Pending(plan, disk, plan.jobs) != [] && Pending(plan, disk, plan.jobs)[0] == job
    requires forall j <- plan.jobs :: j != job ==> j in disk.results
    ensures var r := Invocation(plan, Paused(), disk);
            && Count(r.launched, job) == 1 && r.stopped == Some(job) && IsPending(plan, r.disk, job)
            && r.disk.results == disk.results
  {
    var pending := Pending(plan, disk, plan.jobs);
    assert pending[0] in pending;
    var before := Resume(disk, job);
    var paused := Session(before + [Attempt(|before| + 1, 1)], false, QuotaStop);
    assert Launch(plan, Paused(), 0, 1, before, false) == paused;
    var t := Step(plan, Paused(), pending, 0, disk);
    assert t.stop == Some(4) && t.launches == 1 && disk.results - {job} == disk.results;
    CopiesCount([], job, 1, job);
  }

  lemma FirstPending(plan: Plan, disk: Disk, job: string)
    requires job in plan.jobs && IsPending(plan, disk, job) && forall j <- plan.jobs :: j != job ==> j in disk.results
    ensures Pending(plan, disk, plan.jobs) != [] && Pending(plan, disk, plan.jobs)[0] == job
  {
    var pending := Pending(plan, disk, plan.jobs);
    assert job in pending;
    assert pending[0] in pending;
  }

  /** A job paused every time is launched as often as it is tried: no limit applies. */
  lemma {:induction false} PausedForever(plan: Plan, disk: Disk, job: string, n: nat) returns (calls: seq<Call>)
    requires plan.maxAttempts >= 1 && (!plan.budget || plan.maxResume >= 1) && job in plan.jobs
    requires IsPending(plan, disk, job) && forall j <- plan.jobs :: j != job ==> j in disk.results
    ensures |calls| == n && TotalLaunches(plan, disk, calls, job) == n == Stops(plan, disk, calls, job)
    decreases n
  {
    calls := [];
    if n > 0 {
      FirstPending(plan, disk, job);
      PausedOnce(plan, disk, job);
      var rest := PausedForever(plan, Invocation(plan, Paused(), disk).disk, job, n - 1);
      calls := [Paused()] + rest;
      assert calls[1..] == rest;
    }
  }
}
