/** Safety and liveness of the batch runner over whole sequences of invocations. */
module JobRunnerProperties {
  import opened Wrappers
  import opened PyLists
  import opened JobRunner

  // ---------------------------------------------------------------- what one turn leaves alone

  /** Marking jobs as not run only ever adds state files: an existing state is never overwritten. */
  lemma {:induction false} MarkUnrunAddsOnly(disk: Disk, jobs: seq<string>)
    ensures var d := MarkUnrun(disk, jobs);
            && d.results == disk.results
            && (forall j :: j in disk.states ==> j in d.states && d.states[j] == disk.states[j])
            && (forall j :: j !in disk.states ==> (j in d.states <==> j in jobs))
            && (forall j :: j !in disk.states && j in jobs ==> d.states[j] == Recorded(NotRunBudget, []))
  {
    if jobs != [] {
      MarkUnrunAddsOnly(disk, jobs[..|jobs| - 1]);
      assert jobs == jobs[..|jobs| - 1] + [jobs[|jobs| - 1]];
    }
  }

  /** Two disks on which a job stands the same, up to having been marked as not run. */
  ghost predicate SameFor(a: Disk, b: Disk, job: string) {
    && (job in a.results <==> job in b.results)
    && (job in a.states ==> job in b.states && b.states[job] == a.states[job])
    && (job !in a.states && job in b.states ==> b.states[job] == Recorded(NotRunBudget, []))
  }

  lemma StepFrame(plan: Plan, call: Call, pending: seq<string>, i: nat, disk: Disk, job: string)
    requires i < |pending| && job != pending[i]
    ensures SameFor(disk, Step(plan, call, pending, i, disk).disk, job)
  {
    MarkUnrunAddsOnly(disk, pending[i..]);
    MarkUnrunAddsOnly(Record(plan, disk, pending[i], Launch(plan, call, i, 1, Resume(disk, pending[i]), false)),
                      pending[i + 1..]);
  }

  lemma SameForKeepsTriage(plan: Plan, a: Disk, b: Disk, job: string)
    requires SameFor(a, b, job)
    ensures Prior(a, job) == Prior(b, job) && Resume(a, job) == Resume(b, job)
    ensures Terminal(plan, a, job) == Terminal(plan, b, job)
    ensures IsPending(plan, a, job) == IsPending(plan, b, job)
  {
  }

  lemma CopiesCount(launched: seq<string>, job: string, n: nat, other: string)
    ensures Count(launched + Copies(job, n), other) == Count(launched, other) + if job == other then n else 0
  {
    CountConcat(launched, Copies(job, n), other);
    CountAll(Copies(job, n), job, other);
  }

  /** A job outside the rest of the batch is neither launched nor altered by it. */
  lemma {:induction false} BatchFrame(plan: Plan, call: Call, pending: seq<string>, n: nat, terminal: bool,
                                      i: nat, disk: Disk, failed: bool, launched: seq<string>, job: string)
    requires i <= n <= |pending| && job !in pending[i..n]
    ensures var r := Batch(plan, call, pending, n, terminal, i, disk, failed, launched);
            && SameFor(disk, r.disk, job)
            && Count(r.launched, job) == Count(launched, job)
            && r.stopped != Some(job)
    decreases n - i
  {
    if i < n {
      assert pending[i] in pending[i..n];
      var t := Step(plan, call, pending, i, disk);
      StepFrame(plan, call, pending, i, disk, job);
      CopiesCount(launched, pending[i], t.launches, job);
      if t.stop.None? {
        assert pending[i + 1..n] == pending[i..n][1..];
        BatchFrame(plan, call, pending, n, terminal, i + 1, t.disk, failed || t.failed,
                   launched + Copies(pending[i], t.launches), job);
        SameForTransitive(disk, t.disk, Batch(plan, call, pending, n, terminal, i + 1, t.disk, failed || t.failed,
                   launched + Copies(pending[i], t.launches)).disk, job);
      }
    }
  }

  lemma SameForTransitive(a: Disk, b: Disk, c: Disk, job: string)
    requires SameFor(a, b, job) && SameFor(b, c, job)
    ensures SameFor(a, c, job)
  {
  }

  /**
   A finished job and a terminally failed job are absorbed: no invocation launches them again or
   changes what is recorded about them.
   */
  lemma SettledIsAbsorbing(plan: Plan, call: Call, disk: Disk, job: string)
    requires !IsPending(plan, disk, job)
    ensures var r := Invocation(plan, call, disk);
            && Count(r.launched, job) == 0 && r.stopped != Some(job)
            && (job in r.disk.results <==> job in disk.results)
            && (job in disk.states ==> job in r.disk.states && r.disk.states[job] == disk.states[job])
            && !IsPending(plan, r.disk, job)
  {
    var pending := Pending(plan, disk, plan.jobs);
    var n := BatchSize(call, pending);
    if n > 0 && (call.dryRun || !call.lockErrors) {
      BatchFrame(plan, call, pending, n, AnyTerminal(plan, disk), 0, disk, false, [], job);
      SameForKeepsTriage(plan, disk, Invocation(plan, call, disk).disk, job);
    }
  }

  lemma {:induction false} PendingDistinct(plan: Plan, disk: Disk, jobs: seq<string>)
    requires NoDuplicates(jobs)
    ensures NoDuplicates(Pending(plan, disk, jobs))
  {
    if jobs != [] {
      PendingDistinct(plan, disk, jobs[..|jobs| - 1]);
      assert forall k :: 0 <= k < |jobs| - 1 ==> jobs[..|jobs| - 1][k] == jobs[k];
    }
  }

  // ---------------------------------------------------------------- how often a job is launched

  /** How often a job may still be launched: its unused attempts, and one session's overshoot. */
  function Allowance(plan: Plan, disk: Disk, job: string): int {
    if IsPending(plan, disk, job) then plan.maxResume - |Resume(disk, job)| + plan.maxAttempts - 1 else 0
  }

  lemma StepAllowance(plan: Plan, call: Call, pending: seq<string>, i: nat, disk: Disk)
    requires i < |pending| && plan.budget && plan.maxAttempts >= 1 && IsPending(plan, disk, pending[i])
    ensures var t := Step(plan, call, pending, i, disk);
            t.stop.None? || t.launches == 0 ==>
                Allowance(plan, t.disk, pending[i]) + t.launches <= Allowance(plan, disk, pending[i])
  {
    LaunchAppends(plan, call, i, 1, Resume(disk, pending[i]), false);
    MarkUnrunAddsOnly(disk, pending[i..]);
    if call.ledger && call.refused(i) {
      SameForKeepsTriage(plan, disk, MarkUnrun(disk, pending[i..]), pending[i]);
    }
  }

  lemma AllowanceKept(plan: Plan, a: Disk, b: Disk, job: string)
    requires SameFor(a, b, job)
    ensures Allowance(plan, a, job) == Allowance(plan, b, job) && IsPending(plan, a, job) == IsPending(plan, b, job)
  {
    SameForKeepsTriage(plan, a, b, job);
  }

  /** The job's own turn, after which the rest of the batch leaves it alone. */
  lemma OwnTurn(plan: Plan, call: Call, pending: seq<string>, n: nat, terminal: bool,
                i: nat, disk: Disk, failed: bool, launched: seq<string>)
    requires i < n <= |pending| && NoDuplicates(pending) && plan.budget && plan.maxAttempts >= 1
    requires IsPending(plan, disk, pending[i])
    ensures var r := Batch(plan, call, pending, n, terminal, i, disk, failed, launched);
            r.stopped != Some(pending[i]) ==>
              Allowance(plan, r.disk, pending[i]) + Count(r.launched, pending[i]) - Count(launched, pending[i])
              <= Allowance(plan, disk, pending[i])
  {
    var t, job := Step(plan, call, pending, i, disk), pending[i];
    var l := launched + Copies(job, t.launches);
    CopiesCount(launched, job, t.launches, job);
    StepAllowance(plan, call, pending, i, disk);
    if t.stop.None? {
      BatchFrame(plan, call, pending, n, terminal, i + 1, t.disk, failed || t.failed, l, job);
      AllowanceKept(plan, t.disk, Batch(plan, call, pending, n, terminal, i + 1, t.disk, failed || t.failed, l).disk,
                    job);
    }
  }

  lemma {:induction false} BatchAllowance(plan: Plan, call: Call, pending: seq<string>, n: nat, terminal: bool,
                                          i: nat, disk: Disk, failed: bool, launched: seq<string>, job: string)
    requires i <= n <= |pending| && NoDuplicates(pending) && plan.budget && plan.maxAttempts >= 1
    requires IsPending(plan, disk, job)
    ensures var r := Batch(plan, call, pending, n, terminal, i, disk, failed, launched);
            r.stopped != Some(job) ==>
              Allowance(plan, r.disk, job) + Count(r.launched, job) - Count(launched, job) <= Allowance(plan, disk, job)
    decreases n - i
  {
    if i < n {
      if pending[i] == job {
        OwnTurn(plan, call, pending, n, terminal, i, disk, failed, launched);
      } else {
        var t := Step(plan, call, pending, i, disk);
        CopiesCount(launched, pending[i], t.launches, job);
        StepFrame(plan, call, pending, i, disk, job);
        AllowanceKept(plan, disk, t.disk, job);
        if t.stop.None? {
          BatchAllowance(plan, call, pending, n, terminal, i + 1, t.disk, failed || t.failed,
                         launched + Copies(pending[i], t.launches), job);
        }
      }
    }
  }

  lemma InvocationAllowance(plan: Plan, call: Call, disk: Disk, job: string)
    requires plan.budget && plan.maxAttempts >= 1 && NoDuplicates(plan.jobs)
    ensures var r := Invocation(plan, call, disk);
            r.stopped != Some(job) ==>
                Allowance(plan, r.disk, job) + Count(r.launched, job) <= Allowance(plan, disk, job)
  {
    if IsPending(plan, disk, job) {
      var pending := Pending(plan, disk, plan.jobs);
      PendingDistinct(plan, disk, plan.jobs);
      BatchAllowance(plan, call, pending, BatchSize(call, pending), AnyTerminal(plan, disk), 0, disk, false, [], job);
    } else {
      SettledIsAbsorbing(plan, call, disk, job);
    }
  }

  /** The disk after a sequence of invocations. */
  function After(plan: Plan, disk: Disk, calls: seq<Call>): Disk
    decreases |calls|
  {
    if calls == [] then disk else After(plan, Invocation(plan, calls[0], disk).disk, calls[1..])
  }

  function TotalLaunches(plan: Plan, disk: Disk, calls: seq<Call>, job: string): nat
    decreases |calls|
  {
    if calls == [] then 0 else
      var r := Invocation(plan, calls[0], disk);
      Count(r.launched, job) + TotalLaunches(plan, r.disk, calls[1..], job)
  }

  /** No invocation was cut short by the budget or the provider's quota while running this job. */
  predicate NeverStopped(plan: Plan, disk: Disk, calls: seq<Call>, job: string)
    decreases |calls|
  {
    calls == [] ||
    var r := Invocation(plan, calls[0], disk);
    r.stopped != Some(job) && NeverStopped(plan, r.disk, calls[1..], job)
  }

  lemma AllowanceNonNegative(plan: Plan, disk: Disk, job: string)
    requires plan.budget && plan.maxAttempts >= 1
    ensures Allowance(plan, disk, job) >= 0
  {
  }

  /**
   Over any number of invocations, from any disk, a job that is never budget-blocked or
   quota-paused while running is launched no more often than its allowance.
   */
  lemma {:induction false} LaunchBound(plan: Plan, disk: Disk, calls: seq<Call>, job: string)
    requires plan.budget && plan.maxAttempts >= 1 && NoDuplicates(plan.jobs)
    requires NeverStopped(plan, disk, calls, job)
    ensures TotalLaunches(plan, disk, calls, job) <= Allowance(plan, disk, job)
    decreases |calls|
  {
    if calls == [] {
      AllowanceNonNegative(plan, disk, job);
    } else {
      InvocationAllowance(plan, calls[0], disk, job);
      LaunchBound(plan, Invocation(plan, calls[0], disk).disk, calls[1..], job);
    }
  }

  /** A budget plan allows one attempt per invocation, so the resume limit itself is the bound. */
  lemma ResumeLimit(plan: Plan, disk: Disk, calls: seq<Call>, job: string)
    requires plan.budget && plan.maxAttempts == 1 && plan.maxResume >= 0 && NoDuplicates(plan.jobs)
    requires NeverStopped(plan, disk, calls, job)
    ensures TotalLaunches(plan, disk, calls, job) <= plan.maxResume
  {
    LaunchBound(plan, disk, calls, job);
  }

  // ---------------------------------------------------------------- the bound needs distinct ids

  ghost predicate LaunchesBounded(plan: Plan) {
    forall call, disk, job :: Invocation(plan, call, disk).stopped != Some(job) ==>
      Count(Invocation(plan, call, disk).launched, job) <= Allowance(plan, disk, job)
  }

  /** An invocation without limits in which every child fails. */
  function AllFail(): Call {
    Call(None, false, false, false, (_: nat) => false, (_: nat, _: int) => Outcome(1, false, false, false))
  }

  lemma {:induction false} AllFailExhausts(plan: Plan, i: nat, k: int, attempts: seq<Attempt>)
    ensures Launch(plan, AllFail(), i, k, attempts, false).end.Exhausted?
    ensures !Launch(plan, AllFail(), i, k, attempts, false).matches
    decreases plan.maxAttempts - k
  {
    if k <= plan.maxAttempts { AllFailExhausts(plan, i, k + 1, attempts + [Attempt(|attempts| + 1, 1)]); }
  }

  lemma AllFailStep(plan: Plan, pending: seq<string>, i: nat, disk: Disk)
    requires i < |pending| && plan.budget && plan.maxAttempts >= 1
    ensures var t := Step(plan, AllFail(), pending, i, disk);
            && t.stop.None?
            && (pending[i] !in disk.results ==>
                  && t.launches == plan.maxAttempts
                  && t.disk.results == disk.results
                  && (|Resume(disk, pending[i])| + plan.maxAttempts >= plan.maxResume ==>
                      HasStatus(t.disk, pending[i], FailedTerminal)))
  {
    AllFailExhausts(plan, i, 1, Resume(disk, pending[i]));
    LaunchAppends(plan, AllFail(), i, 1, Resume(disk, pending[i]), false);
    if pending[i] !in disk.results { assert disk.results - {pending[i]} == disk.results; }
  }

  lemma {:induction false} AllFailBatch(plan: Plan, pending: seq<string>, n: nat, terminal: bool,
                                        i: nat, disk: Disk, failed: bool, launched: seq<string>, job: string)
    requires i <= n <= |pending| && plan.budget && plan.maxAttempts >= 1
    ensures var r := Batch(plan, AllFail(), pending, n, terminal, i, disk, failed, launched);
            r.stopped.None? && Count(r.launched, job) >= Count(launched, job)
    decreases n - i
  {
    if i < n {
      AllFailStep(plan, pending, i, disk);
      var t := Step(plan, AllFail(), pending, i, disk);
      CopiesCount(launched, pending[i], t.launches, job);
      AllFailBatch(plan, pending, n, terminal, i + 1, t.disk, failed || t.failed,
                   launched + Copies(pending[i], t.launches), job);
    }
  }

  lemma {:induction false} OnlyPending(plan: Plan, disk: Disk, jobs: seq<string>, job: string)
    requires IsPending(plan, disk, job)
    requires forall j :: j in jobs && j != job ==> j in disk.results
    ensures |Pending(plan, disk, jobs)| == Count(jobs, job)
    ensures forall k :: 0 <= k < |Pending(plan, disk, jobs)| ==> Pending(plan, disk, jobs)[k] == job
  {
    if jobs != [] {
      assert jobs == jobs[..|jobs| - 1] + [jobs[|jobs| - 1]];
      OnlyPending(plan, disk, jobs[..|jobs| - 1], job);
    }
  }

  /** Two entries of one job in a failing batch are both launched, the second from scratch. */
  lemma LaunchedTwice(plan: Plan, pending: seq<string>, terminal: bool, disk: Disk)
    requires |pending| >= 2 && pending[0] == pending[1] && plan.budget && plan.maxAttempts >= 1
    requires pending[0] !in disk.results && |Resume(disk, pending[0])| + plan.maxAttempts >= plan.maxResume
    ensures var r := Batch(plan, AllFail(), pending, |pending|, terminal, 0, disk, false, []);
            r.stopped.None? && Count(r.launched, pending[0]) >= 2 * plan.maxAttempts
  {
    var job, n := pending[0], |pending|;
    AllFailStep(plan, pending, 0, disk);
    var t0 := Step(plan, AllFail(), pending, 0, disk);
    var l0 := [] + Copies(job, t0.launches);
    AllFailStep(plan, pending, 1, t0.disk);
    var t1 := Step(plan, AllFail(), pending, 1, t0.disk);
    var l1 := l0 + Copies(job, t1.launches);
    CopiesCount([], job, t0.launches, job);
    CopiesCount(l0, job, t1.launches, job);
    AllFailBatch(plan, pending, n, terminal, 2, t1.disk, t0.failed || t1.failed, l1, job);
    assert Batch(plan, AllFail(), pending, n, terminal, 0, disk, false, [])
        == Batch(plan, AllFail(), pending, n, terminal, 1, t0.disk, t0.failed, l0)
        == Batch(plan, AllFail(), pending, n, terminal, 2, t1.disk, t0.failed || t1.failed, l1);
  }

  /** A repeated id is launched again after its first entry has already failed terminally. */
  lemma RepeatedIdOverruns(plan: Plan, job: string)
    requires plan.budget && plan.maxAttempts >= 1 && plan.maxResume >= 1 && Count(plan.jobs, job) > 1
    ensures !LaunchesBounded(plan)
  {
    var disk := Disk(map[job := Recorded(InfraError, seq(plan.maxResume - 1, k => Attempt(1, 1)))],
                     set j | j in plan.jobs && j != job);
    assert Allowance(plan, disk, job) == plan.maxAttempts;
    OnlyPending(plan, disk, plan.jobs, job);
    var pending := Pending(plan, disk, plan.jobs);
    LaunchedTwice(plan, pending, AnyTerminal(plan, disk), disk);
    var r := Invocation(plan, AllFail(), disk);
    assert r.stopped != Some(job) && Count(r.launched, job) > Allowance(plan, disk, job);
  }

  /** Every job keeps to its allowance exactly when the plan's job ids are distinct. */
  lemma LaunchBoundNeedsDistinctIds(plan: Plan)
    requires plan.budget && plan.maxAttempts >= 1 && plan.maxResume >= 1
    ensures LaunchesBounded(plan) <==> NoDuplicates(plan.jobs)
  {
    if NoDuplicates(plan.jobs) {
      forall call, disk, job | Invocation(plan, call, disk).stopped != Some(job)
        ensures Count(Invocation(plan, call, disk).launched, job) <= Allowance(plan, disk, job)
      {
        InvocationAllowance(plan, call, disk, job);
        AllowanceNonNegative(plan, Invocation(plan, call, disk).disk, job);
      }
    } else {
      OnceEach(plan.jobs);
      var job :| Count(plan.jobs, job) > 1;
      RepeatedIdOverruns(plan, job);
    }
  }

  // ---------------------------------------------------------------- liveness

  /** A call without lock errors, budget refusals, budget blocks or quota pauses that may run a job. */
  ghost predicate Steady(call: Call) {
    && !call.dryRun && !call.lockErrors
    && (call.maxJobs.Some? ==> call.maxJobs.value >= 1)
    && (forall i :: !call.refused(i))
    && forall i, k :: !call.child(i, k).budgetBlock && !call.child(i, k).quotaPaused
  }

  /** The attempts a pending job has left. */
  function Need(plan: Plan, disk: Disk, job: string): nat
    requires plan.budget
  {
    if IsPending(plan, disk, job) then plan.maxResume - |Resume(disk, job)| else 0
  }

  function TotalNeed(plan: Plan, disk: Disk, jobs: seq<string>): nat
    requires plan.budget
  {
    if jobs == [] then 0 else TotalNeed(plan, disk, jobs[..|jobs| - 1]) + Need(plan, disk, jobs[|jobs| - 1])
  }

  lemma {:induction false} SteadyLaunch(plan: Plan, call: Call, i: nat, k: int, attempts: seq<Attempt>, matches: bool)
    requires Steady(call)
    ensures var s := Launch(plan, call, i, k, attempts, matches); s.end.Succeeded? || s.end.Exhausted?
    decreases plan.maxAttempts - k
  {
    if k <= plan.maxAttempts {
      var o := call.child(i, k);
      SteadyLaunch(plan, call, i, k + 1, attempts + [Attempt(|attempts| + 1, o.returncode)], o.matches);
    }
  }

  lemma SteadyStep(plan: Plan, call: Call, pending: seq<string>, i: nat, disk: Disk)
    requires i < |pending| && plan.budget && plan.maxAttempts >= 1 && Steady(call) && IsPending(plan, disk, pending[i])
    ensures var t := Step(plan, call, pending, i, disk);
            t.stop.None? && Need(plan, t.disk, pending[i]) < Need(plan, disk, pending[i])
  {
    SteadyLaunch(plan, call, i, 1, Resume(disk, pending[i]), false);
    LaunchAppends(plan, call, i, 1, Resume(disk, pending[i]), false);
  }

  lemma {:induction false} TotalNeedDrops(plan: Plan, a: Disk, b: Disk, jobs: seq<string>, job: string)
    requires plan.budget && Need(plan, b, job) < Need(plan, a, job)
    requires forall j :: j in jobs && j != job ==> Need(plan, b, j) == Need(plan, a, j)
    ensures TotalNeed(plan, b, jobs) <= TotalNeed(plan, a, jobs) - if job in jobs then 1 else 0
  {
    if jobs != [] {
      assert jobs == jobs[..|jobs| - 1] + [jobs[|jobs| - 1]];
      TotalNeedDrops(plan, a, b, jobs[..|jobs| - 1], job);
    }
  }

  lemma {:induction false} BatchNeed(plan: Plan, call: Call, pending: seq<string>, n: nat, terminal: bool,
                                     i: nat, disk: Disk, failed: bool, launched: seq<string>)
    requires i <= n <= |pending| && NoDuplicates(pending) && plan.budget && plan.maxAttempts >= 1 && Steady(call)
    requires forall k :: i <= k < n ==> IsPending(plan, disk, pending[k]) && pending[k] in plan.jobs
    ensures var r := Batch(plan, call, pending, n, terminal, i, disk, failed, launched);
            TotalNeed(plan, r.disk, plan.jobs) + (n - i) <= TotalNeed(plan, disk, plan.jobs)
    decreases n - i
  {
    if i < n {
      var t := Step(plan, call, pending, i, disk);
      SteadyStep(plan, call, pending, i, disk);
      forall j | j != pending[i]
        ensures Need(plan, t.disk, j) == Need(plan, disk, j) && IsPending(plan, t.disk, j) == IsPending(plan, disk, j)
      {
        StepFrame(plan, call, pending, i, disk, j);
        SameForKeepsTriage(plan, disk, t.disk, j);
      }
      TotalNeedDrops(plan, disk, t.disk, plan.jobs, pending[i]);
      BatchNeed(plan, call, pending, n, terminal, i + 1, t.disk, failed || t.failed,
                launched + Copies(pending[i], t.launches));
    }
  }

  /** Each steady invocation uses up at least one attempt per job of its batch. */
  lemma InvocationProgress(plan: Plan, call: Call, disk: Disk)
    requires plan.budget && plan.maxAttempts >= 1 && NoDuplicates(plan.jobs) && Steady(call)
    ensures TotalNeed(plan, Invocation(plan, call, disk).disk, plan.jobs)
            + BatchSize(call, Pending(plan, disk, plan.jobs))
         <= TotalNeed(plan, disk, plan.jobs)
  {
    var pending := Pending(plan, disk, plan.jobs);
    PendingDistinct(plan, disk, plan.jobs);
    assert forall k :: 0 <= k < |pending| ==> pending[k] in pending;
    BatchNeed(plan, call, pending, BatchSize(call, pending), AnyTerminal(plan, disk), 0, disk, false, []);
  }

  lemma {:induction false} NothingNeeded(plan: Plan, disk: Disk, jobs: seq<string>)
    requires plan.budget && TotalNeed(plan, disk, jobs) == 0
    ensures Pending(plan, disk, jobs) == []
  {
    if jobs != [] { NothingNeeded(plan, disk, jobs[..|jobs| - 1]); }
  }

  lemma StaysDrained(plan: Plan, call: Call, disk: Disk)
    requires Pending(plan, disk, plan.jobs) == []
    ensures Invocation(plan, call, disk).disk == disk
  {
  }

  /**
   Liveness: from any stored states, as many steady invocations as there are attempts left always
   drain the plan. A job that keeps failing at the head of the queue never blocks the others.
   */
  lemma {:induction false} Drains(plan: Plan, disk: Disk, calls: seq<Call>)
    requires plan.budget && plan.maxAttempts >= 1 && NoDuplicates(plan.jobs)
    requires (forall c :: c in calls ==> Steady(c)) && |calls| >= TotalNeed(plan, disk, plan.jobs)
    ensures Pending(plan, After(plan, disk, calls), plan.jobs) == []
    ensures forall j :: j in plan.jobs ==> var d := After(plan, disk, calls);
              j in d.results || HasStatus(d, j, FailedTerminal) || |Prior(d, j)| >= plan.maxResume
    decreases |calls|
  {
    if calls == [] {
      NothingNeeded(plan, disk, plan.jobs);
      Settled(plan, disk);
    } else {
      var next := Invocation(plan, calls[0], disk).disk;
      InvocationProgress(plan, calls[0], disk);
      if Pending(plan, disk, plan.jobs) == [] {
        StaysDrained(plan, calls[0], disk);
        DrainedForever(plan, disk, calls);
        Settled(plan, disk);
      } else {
        assert calls[0] in calls;
        Drains(plan, next, calls[1..]);
      }
    }
  }

  lemma Settled(plan: Plan, disk: Disk)
    requires Pending(plan, disk, plan.jobs) == []
    ensures forall j :: j in plan.jobs ==>
              j in disk.results || HasStatus(disk, j, FailedTerminal) || |Prior(disk, j)| >= plan.maxResume
  {
    forall j | j in plan.jobs ensures !IsPending(plan, disk, j) {
      assert j in Pending(plan, disk, plan.jobs) <==> IsPending(plan, disk, j);
    }
  }

  lemma {:induction false} DrainedForever(plan: Plan, disk: Disk, calls: seq<Call>)
    requires Pending(plan, disk, plan.jobs) == []
    ensures After(plan, disk, calls) == disk
    decreases |calls|
  {
    if calls != [] {
      StaysDrained(plan, calls[0], disk);
      DrainedForever(plan, disk, calls[1..]);
    }
  }

  // ---------------------------------------------------------------- exit codes and dry runs

  /** A turn never forgets a state or a result, and leaves its own job with one or the other. */
  lemma StepGrows(plan: Plan, call: Call, pending: seq<string>, i: nat, disk: Disk)
    requires i < |pending|
    ensures var t := Step(plan, call, pending, i, disk);
            && disk.states.Keys <= t.disk.states.Keys && disk.results <= t.disk.results
            && (!call.dryRun || t.stop.Some? ==> pending[i] in t.disk.states || pending[i] in t.disk.results)
  {
    var after := Record(plan, disk, pending[i], Launch(plan, call, i, 1, Resume(disk, pending[i]), false));
    MarkUnrunAddsOnly(disk, pending[i..]);
    MarkUnrunAddsOnly(after, pending[i + 1..]);
    assert pending[i] in pending[i..];
  }

  lemma {:induction false} BatchGrows(plan: Plan, call: Call, pending: seq<string>, n: nat, terminal: bool,
                                      i: nat, disk: Disk, failed: bool, launched: seq<string>)
    requires i <= n <= |pending|
    ensures var r := Batch(plan, call, pending, n, terminal, i, disk, failed, launched);
            disk.states.Keys <= r.disk.states.Keys && disk.results <= r.disk.results
    decreases n - i
  {
    if i < n {
      var t := Step(plan, call, pending, i, disk);
      StepGrows(plan, call, pending, i, disk);
      if t.stop.None? {
        BatchGrows(plan, call, pending, n, terminal, i + 1, t.disk, failed || t.failed,
                   launched + Copies(pending[i], t.launches));
      }
    }
  }

  lemma {:induction false} BatchAllSucceed(plan: Plan, call: Call, pending: seq<string>, n: nat, terminal: bool,
                                           i: nat, disk: Disk, failed: bool, launched: seq<string>)
    requires i <= n <= |pending| && !call.dryRun
    ensures var r := Batch(plan, call, pending, n, terminal, i, disk, failed, launched);
            r.exit == 0 ==> !terminal && !failed && forall k :: i <= k < n ==> pending[k] in r.disk.results
    decreases n - i
  {
    if i < n {
      var t := Step(plan, call, pending, i, disk);
      LaunchAppends(plan, call, i, 1, Resume(disk, pending[i]), false);
      if t.stop.None? {
        var l := launched + Copies(pending[i], t.launches);
        BatchAllSucceed(plan, call, pending, n, terminal, i + 1, t.disk, failed || t.failed, l);
        BatchGrows(plan, call, pending, n, terminal, i + 1, t.disk, failed || t.failed, l);
      }
    }
  }

  /**
   Exit code 0 is trustworthy: no job has failed terminally and every job of the batch has its
   result, so when the batch covered the whole queue the plan is complete.
   */
  lemma ExitZeroMeansDone(plan: Plan, call: Call, disk: Disk)
    requires !call.dryRun && Invocation(plan, call, disk).exit == 0
    ensures !AnyTerminal(plan, disk)
    ensures BatchSize(call, Pending(plan, disk, plan.jobs)) == |Pending(plan, disk, plan.jobs)| ==>
              forall j :: j in plan.jobs ==> j in Invocation(plan, call, disk).disk.results
  {
    var pending := Pending(plan, disk, plan.jobs);
    var n := BatchSize(call, pending);
    BatchAllSucceed(plan, call, pending, n, AnyTerminal(plan, disk), 0, disk, false, []);
    if n == |pending| && !AnyTerminal(plan, disk) {
      forall j | j in plan.jobs ensures j in Invocation(plan, call, disk).disk.results {
        if j in disk.results {
          SettledIsAbsorbing(plan, call, disk, j);
        } else {
          assert j in pending;
        }
      }
    }
  }

  // What each exit code says about the stored states.

  /** A budget stop leaves no later job without a state; a quota stop pauses the job it interrupted. */
  lemma StopCodes(plan: Plan, call: Call, pending: seq<string>, i: nat, disk: Disk)
    requires i < |pending| && Step(plan, call, pending, i, disk).stop.Some?
    ensures var t := Step(plan, call, pending, i, disk);
            && (t.stop == Some(2) || t.stop == Some(4))
            && (t.stop == Some(2) ==> forall k :: i <= k < |pending| ==> pending[k] in t.disk.states)
            && (t.stop == Some(2) && t.launches > 0 ==> HasStatus(t.disk, pending[i], NotRunBudget))
            && (t.stop == Some(4) ==> t.launches > 0 && HasStatus(t.disk, pending[i], PausedQuota))
  {
    var before := Resume(disk, pending[i]);
    var after := Record(plan, disk, pending[i], Launch(plan, call, i, 1, before, false));
    LaunchAppends(plan, call, i, 1, before, false);
    MarkUnrunAddsOnly(disk, pending[i..]);
    MarkUnrunAddsOnly(after, pending[i + 1..]);
    forall k | i <= k < |pending| ensures pending[k] in pending[i..] && (k > i ==> pending[k] in pending[i + 1..]) {
      assert pending[i..][k - i] == pending[k];
      assert k > i ==> pending[i + 1..][k - i - 1] == pending[k];
    }
  }

  ghost predicate Accounted(r: Run, pending: seq<string>, i: nat)
    requires i <= |pending|
  {
    forall k :: i <= k < |pending| ==> pending[k] in r.disk.states || pending[k] in r.disk.results
  }

  lemma {:induction false} BatchCodes(plan: Plan, call: Call, pending: seq<string>, n: nat, terminal: bool,
                                      i: nat, disk: Disk, failed: bool, launched: seq<string>)
    requires i <= n <= |pending| && !call.dryRun
    ensures var r := Batch(plan, call, pending, n, terminal, i, disk, failed, launched);
            && r.exit in {0, 1, 2, 4}
            && (r.exit == 2 ==> Accounted(r, pending, i))
            && (r.exit == 2 && r.stopped.Some? ==> HasStatus(r.disk, r.stopped.value, NotRunBudget))
            && (r.exit == 4 ==> r.stopped.Some? && HasStatus(r.disk, r.stopped.value, PausedQuota))
            && (r.exit < 2 ==> r.stopped.None?)
    decreases n - i
  {
    if i < n {
      var t := Step(plan, call, pending, i, disk);
      var l := launched + Copies(pending[i], t.launches);
      StepGrows(plan, call, pending, i, disk);
      if t.stop.Some? {
        StopCodes(plan, call, pending, i, disk);
      } else {
        BatchCodes(plan, call, pending, n, terminal, i + 1, t.disk, failed || t.failed, l);
        BatchGrows(plan, call, pending, n, terminal, i + 1, t.disk, failed || t.failed, l);
      }
    }
  }

  /**
   The exit codes mean what they say. 2: the budget ran out, and no pending job is left without a
   stored state or a result. 3: nothing was touched. 4: the provider's quota paused the job the run
   stopped in. 0 and 1: the batch ran to its end.
   */
  lemma ExitCodes(plan: Plan, call: Call, disk: Disk)
    requires !call.dryRun
    ensures var r := Invocation(plan, call, disk);
            && r.exit in {0, 1, 2, 3, 4}
            && (r.exit == 2 ==> Accounted(r, Pending(plan, disk, plan.jobs), 0))
            && (r.exit == 2 && r.stopped.Some? ==> HasStatus(r.disk, r.stopped.value, NotRunBudget))
            && (r.exit == 3 ==> call.lockErrors && r.disk == disk && r.launched == [])
            && (r.exit == 4 ==> r.stopped.Some? && HasStatus(r.disk, r.stopped.value, PausedQuota))
            && (r.exit < 2 ==> r.stopped.None?)
  {
    var pending := Pending(plan, disk, plan.jobs);
    BatchCodes(plan, call, pending, BatchSize(call, pending), AnyTerminal(plan, disk), 0, disk, false, []);
  }

  lemma {:induction false} DryBatch(plan: Plan, call: Call, pending: seq<string>, n: nat, terminal: bool, i: nat,
                                    disk: Disk, failed: bool)
    requires i <= n <= |pending| && call.dryRun
    ensures var r := Batch(plan, call, pending, n, terminal, i, disk, failed, []);
            && r.launched == []
            && (r.disk == disk || exists k :: i <= k < n && call.refused(k) && r.disk == MarkUnrun(disk, pending[k..]))
            && ((forall k :: i <= k < n ==> !call.refused(k)) ==> r.disk == disk)
    decreases n - i
  {
    if i < n {
      var t := Step(plan, call, pending, i, disk);
      assert [] + Copies(pending[i], 0) == [];
      if t.stop.None? { DryBatch(plan, call, pending, n, terminal, i + 1, disk, failed); }
    }
  }

  /**
   A dry run launches nothing, but it is not free of effects: when the ledger cannot reserve for a
   job it still marks the rest of the queue as not run. Without such a refusal it changes nothing.
   */
  lemma DryRunEffects(plan: Plan, call: Call, disk: Disk)
    requires call.dryRun
    ensures var r, pending := Invocation(plan, call, disk), Pending(plan, disk, plan.jobs);
            && r.launched == []
            && (r.disk == disk ||
                exists k :: 0 <= k < |pending| && call.refused(k) && r.disk == MarkUnrun(disk, pending[k..]))
            && ((forall k :: 0 <= k < |pending| ==> !call.refused(k)) ==> r.disk == disk)
  {
    var pending := Pending(plan, disk, plan.jobs);
    DryBatch(plan, call, pending, BatchSize(call, pending), AnyTerminal(plan, disk), 0, disk, false);
  }

  /** Some job from a refused one on has no stored state. */
  predicate RefusalMarks(call: Call, pending: seq<string>, i: nat, n: nat, disk: Disk)
    requires i <= n <= |pending|
  {
    call.ledger && exists k, j :: i <= k < n && k <= j < |pending| && call.refused(k) && pending[j] !in disk.states
  }

  lemma MarkUnrunChanges(disk: Disk, pending: seq<string>, i: nat)
    requires i <= |pending|
    ensures MarkUnrun(disk, pending[i..]) == disk <==> forall j :: i <= j < |pending| ==> pending[j] in disk.states
  {
    var d := MarkUnrun(disk, pending[i..]);
    MarkUnrunAddsOnly(disk, pending[i..]);
    forall j | i <= j < |pending| ensures pending[j] in pending[i..] { assert pending[i..][j - i] == pending[j]; }
    if forall j :: i <= j < |pending| ==> pending[j] in disk.states {
      forall job ensures job in d.states <==> job in disk.states {}
    }
  }

  lemma {:induction false} DryBatchChanges(plan: Plan, call: Call, pending: seq<string>, n: nat, terminal: bool,
                                           i: nat, disk: Disk, failed: bool, launched: seq<string>)
    requires i <= n <= |pending| && call.dryRun
    requires forall k :: i <= k < n ==> pending[k] !in disk.results
    ensures Batch(plan, call, pending, n, terminal, i, disk, failed, launched).disk == disk
            <==> !RefusalMarks(call, pending, i, n, disk)
    decreases n - i
  {
    if i < n {
      var t := Step(plan, call, pending, i, disk);
      if t.stop.Some? {
        MarkUnrunChanges(disk, pending, i);
        if !forall j :: i <= j < |pending| ==> pending[j] in disk.states {
          var j :| i <= j < |pending| && pending[j] !in disk.states;
          assert call.refused(i) && i <= j;
        }
      } else {
        DryBatchChanges(plan, call, pending, n, terminal, i + 1, disk, failed,
                        launched + Copies(pending[i], t.launches));
      }
    }
  }

  /**
   Exactly when a dry run changes something: the ledger refuses a job of the batch, and that job or a
   later pending one has no stored state yet.
   */
  lemma DryRunChangesExactly(plan: Plan, call: Call, disk: Disk)
    requires call.dryRun
    ensures var pending := Pending(plan, disk, plan.jobs);
            Invocation(plan, call, disk).disk == disk
            <==> !RefusalMarks(call, pending, 0, BatchSize(call, pending), disk)
  {
    var pending := Pending(plan, disk, plan.jobs);
    forall k | 0 <= k < |pending| ensures pending[k] !in disk.results { assert pending[k] in pending; }
    DryBatchChanges(plan, call, pending, BatchSize(call, pending), AnyTerminal(plan, disk), 0, disk, false, []);
  }

  /** A dry run that writes: one pending job, and a ledger that cannot reserve for it. */
  lemma DryRunMarks(job: string)
    ensures var plan := Plan([job], true, 1, 1);
            var call := Call(None, true, true, false, _ => true, (_, _) => Outcome(0, true, false, false));
            Invocation(plan, call, Disk(map[], {})).disk == Disk(map[job := Recorded(NotRunBudget, [])], {})
  {
    var plan := Plan([job], true, 1, 1);
    var disk := Disk(map[], {});
    assert plan.jobs[..0] == [];
    assert Pending(plan, disk, plan.jobs) == [job];
    var call := Call(None, true, true, false, _ => true, (_, _) => Outcome(0, true, false, false));
    assert [job][0..] == [job] && [job][..0] == [];
    assert MarkUnrun(disk, [job]) == Disk(map[job := Recorded(NotRunBudget, [])], {});
    var t := Step(plan, call, [job], 0, disk);
    assert t.stop == Some(2) && t.disk == MarkUnrun(disk, [job]);
    assert BatchSize(call, [job]) == 1;
    assert Batch(plan, call, [job], 1, AnyTerminal(plan, disk), 0, disk, false, []).disk == t.disk;
  }
}
