/**
 Which plans drain. `JobRunnerProperties.Drains` asks for distinct job ids; here is what repeated
 ids do to the batch runner, and the exact condition.
 */
module JobRunnerRepeats {
  import opened JobRunner
  import opened JobRunnerProperties
  import opened PyLists
  import opened Wrappers

  // ---------------------------------------------------------------- one turn is enough

  /** With as many attempts a turn as the resume limit, a turn settles its job. */
  lemma SettlingStep(plan: Plan, call: Call, pending: seq<string>, i: nat, disk: Disk)
    requires i < |pending| && plan.budget && plan.maxAttempts >= 1 && plan.maxAttempts >= plan.maxResume && Steady(call)
    ensures var t := Step(plan, call, pending, i, disk); t.stop.None? && !IsPending(plan, t.disk, pending[i])
  {
    SteadyLaunch(plan, call, i, 1, Resume(disk, pending[i]), false);
    LaunchAppends(plan, call, i, 1, Resume(disk, pending[i]), false);
  }

  lemma {:induction false} BatchSettles(plan: Plan, call: Call, pending: seq<string>, n: nat, terminal: bool,
                                        i: nat, disk: Disk, failed: bool, launched: seq<string>, job: string)
    requires i <= n <= |pending| && plan.budget && plan.maxAttempts >= 1 && plan.maxAttempts >= plan.maxResume
    requires Steady(call)
    ensures IsPending(plan, Batch(plan, call, pending, n, terminal, i, disk, failed, launched).disk, job) ==>
            IsPending(plan, disk, job) && forall k :: i <= k < n ==> pending[k] != job
    decreases n - i
  {
    if i < n {
      var t := Step(plan, call, pending, i, disk);
      SettlingStep(plan, call, pending, i, disk);
      if pending[i] != job {
        StepFrame(plan, call, pending, i, disk, job);
        SameForKeepsTriage(plan, disk, t.disk, job);
      }
      BatchSettles(plan, call, pending, n, terminal, i + 1, t.disk, failed || t.failed,
                   launched + Copies(pending[i], t.launches), job);
    }
  }

  ghost predicate NoNewPending(plan: Plan, a: Disk, b: Disk) {
    forall j :: IsPending(plan, b, j) ==> IsPending(plan, a, j)
  }

  lemma {:induction false} PendingShrinks(plan: Plan, a: Disk, b: Disk, jobs: seq<string>, job: string)
    requires NoNewPending(plan, a, b) && IsPending(plan, a, job) && !IsPending(plan, b, job)
    ensures |Pending(plan, b, jobs)| <= |Pending(plan, a, jobs)| - if job in jobs then 1 else 0
  {
    if jobs != [] {
      assert jobs == jobs[..|jobs| - 1] + [jobs[|jobs| - 1]];
      PendingShrinks(plan, a, b, jobs[..|jobs| - 1], job);
    }
  }

  lemma {:induction false} SettlingDrains(plan: Plan, disk: Disk, calls: seq<Call>)
    requires plan.budget && plan.maxAttempts >= 1 && plan.maxAttempts >= plan.maxResume
    requires (forall c <- calls :: Steady(c)) && |calls| >= |Pending(plan, disk, plan.jobs)|
    ensures Pending(plan, After(plan, disk, calls), plan.jobs) == []
    decreases |calls|
  {
    var pending := Pending(plan, disk, plan.jobs);
    if pending == [] {
      DrainedForever(plan, disk, calls);
    } else {
      var call := calls[0];
      assert call in calls && pending[0] in pending;
      var next := Invocation(plan, call, disk).disk;
      forall j | IsPending(plan, next, j) ensures IsPending(plan, disk, j) && j != pending[0] {
        BatchSettles(plan, call, pending, BatchSize(call, pending), AnyTerminal(plan, disk), 0, disk, false, [], j);
      }
      PendingShrinks(plan, disk, next, plan.jobs, pending[0]);
      SettlingDrains(plan, next, calls[1..]);
    }
  }

  // ---------------------------------------------------------------- a repeated id can go on forever

  /** A steady call of at most n turns in which every child fails. */
  function FailFirst(n: int): Call {
    AllFail().(maxJobs := Some(n))
  }

  lemma {:induction false} FailingLaunch(plan: Plan, n: int, i: nat, k: int, attempts: seq<Attempt>)
    ensures var s := Launch(plan, FailFirst(n), i, k, attempts, false); s.end.Exhausted? && !s.matches
    decreases plan.maxAttempts - k
  {
    if k <= plan.maxAttempts { FailingLaunch(plan, n, i, k + 1, attempts + [Attempt(|attempts| + 1, 1)]); }
  }

  lemma FailingStep(plan: Plan, n: int, pending: seq<string>, i: nat, disk: Disk)
    requires i < |pending| && plan.budget && plan.maxAttempts >= 1 && pending[i] !in disk.results
    ensures var t, used := Step(plan, FailFirst(n), pending, i, disk), |Resume(disk, pending[i])| + plan.maxAttempts;
            && t.stop.None? && t.disk.results == disk.results
            && HasStatus(t.disk, pending[i], if used >= plan.maxResume then FailedTerminal else InfraError)
            && |t.disk.states[pending[i]].attempts| == used
  {
    FailingLaunch(plan, n, i, 1, Resume(disk, pending[i]));
    LaunchAppends(plan, FailFirst(n), i, 1, Resume(disk, pending[i]), false);
    assert disk.results - {pending[i]} == disk.results;
  }

  /** Only `job` is pending. */
  ghost predicate OnlyLeft(plan: Plan, disk: Disk, job: string) {
    IsPending(plan, disk, job) && forall j <- plan.jobs :: j != job ==> j in disk.results
  }

  lemma FailOnce(plan: Plan, pending: seq<string>, terminal: bool, disk: Disk)
    requires |pending| >= 1 && plan.budget && plan.maxAttempts >= 1 && pending[0] !in disk.results
    requires |Resume(disk, pending[0])| + plan.maxAttempts < plan.maxResume
    ensures var d := Batch(plan, FailFirst(1), pending, 1, terminal, 0, disk, false, []).disk;
            IsPending(plan, d, pending[0]) && d.results == disk.results
  {
    FailingStep(plan, 1, pending, 0, disk);
    var t := Step(plan, FailFirst(1), pending, 0, disk);
    assert Batch(plan, FailFirst(1), pending, 1, terminal, 0, disk, false, []).disk == t.disk;
  }

  /** The second entry starts over, from a job that the first has just failed terminally. */
  lemma FailTwice(plan: Plan, pending: seq<string>, terminal: bool, disk: Disk)
    requires |pending| >= 2 && pending[0] == pending[1] && plan.budget && pending[0] !in disk.results
    requires 1 <= plan.maxAttempts < plan.maxResume <= |Resume(disk, pending[0])| + plan.maxAttempts
    ensures var d := Batch(plan, FailFirst(2), pending, 2, terminal, 0, disk, false, []).disk;
            IsPending(plan, d, pending[0]) && d.results == disk.results
  {
    var job, c := pending[0], FailFirst(2);
    FailingStep(plan, 2, pending, 0, disk);
    var t0 := Step(plan, c, pending, 0, disk);
    var l0 := [] + Copies(job, t0.launches);
    FailingStep(plan, 2, pending, 1, t0.disk);
    var t1 := Step(plan, c, pending, 1, t0.disk);
    var l1 := l0 + Copies(job, t1.launches);
    assert Batch(plan, c, pending, 2, terminal, 0, disk, false, [])
        == Batch(plan, c, pending, 2, terminal, 1, t0.disk, t0.failed, l0)
        == Batch(plan, c, pending, 2, terminal, 2, t1.disk, t0.failed || t1.failed, l1);
  }

  /** From any disk with only a repeated id left, some steady call leaves it there. */
  lemma KeepsGoing(plan: Plan, job: string, disk: Disk) returns (call: Call)
    requires plan.budget && 1 <= plan.maxAttempts < plan.maxResume && Count(plan.jobs, job) > 1
    requires OnlyLeft(plan, disk, job)
    ensures Steady(call) && OnlyLeft(plan, Invocation(plan, call, disk).disk, job)
  {
    OnlyPending(plan, disk, plan.jobs, job);
    var pending, terminal := Pending(plan, disk, plan.jobs), AnyTerminal(plan, disk);
    if |Resume(disk, job)| + plan.maxAttempts < plan.maxResume {
      call := FailFirst(1);
      FailOnce(plan, pending, terminal, disk);
    } else {
      call := FailFirst(2);
      FailTwice(plan, pending, terminal, disk);
    }
  }

  lemma {:induction false} NeverDone(plan: Plan, job: string, disk: Disk, n: nat) returns (calls: seq<Call>)
    requires plan.budget && 1 <= plan.maxAttempts < plan.maxResume && Count(plan.jobs, job) > 1
    requires OnlyLeft(plan, disk, job)
    ensures |calls| == n && (forall c <- calls :: Steady(c)) && OnlyLeft(plan, After(plan, disk, calls), job)
    decreases n
  {
    calls := [];
    if n > 0 {
      var call := KeepsGoing(plan, job, disk);
      var rest := NeverDone(plan, job, Invocation(plan, call, disk).disk, n - 1);
      calls := [call] + rest;
      assert calls[1..] == rest;
    }
  }

  // ---------------------------------------------------------------- the exact condition

  ghost predicate AllSteady(calls: seq<Call>) {
    forall c <- calls :: Steady(c)
  }

  /** After n steady invocations or more, nothing is pending. */
  ghost predicate DrainsWithin(plan: Plan, disk: Disk, n: nat) {
    forall calls: seq<Call> :: |calls| >= n && AllSteady(calls) ==>
      Pending(plan, After(plan, disk, calls), plan.jobs) == []
  }

  ghost predicate Drainable(plan: Plan, disk: Disk) {
    exists n: nat :: DrainsWithin(plan, disk, n)
  }

  ghost predicate AlwaysDrains(plan: Plan) {
    forall disk :: Drainable(plan, disk)
  }

  lemma DistinctDrain(plan: Plan, disk: Disk)
    requires plan.budget && plan.maxAttempts >= 1 && NoDuplicates(plan.jobs)
    ensures Drainable(plan, disk)
  {
    var n := TotalNeed(plan, disk, plan.jobs);
    forall calls: seq<Call> | |calls| >= n && AllSteady(calls)
      ensures Pending(plan, After(plan, disk, calls), plan.jobs) == []
    {
      Drains(plan, disk, calls);
    }
    assert DrainsWithin(plan, disk, n);
  }

  lemma SettledDrain(plan: Plan, disk: Disk)
    requires plan.budget && plan.maxAttempts >= 1 && plan.maxAttempts >= plan.maxResume
    ensures Drainable(plan, disk)
  {
    var n := |Pending(plan, disk, plan.jobs)|;
    forall calls: seq<Call> | |calls| >= n && AllSteady(calls)
      ensures Pending(plan, After(plan, disk, calls), plan.jobs) == []
    {
      SettlingDrains(plan, disk, calls);
    }
    assert DrainsWithin(plan, disk, n);
  }

  lemma RepeatedNeverDrains(plan: Plan, job: string, disk: Disk)
    requires plan.budget && 1 <= plan.maxAttempts < plan.maxResume && Count(plan.jobs, job) > 1
    requires OnlyLeft(plan, disk, job)
    ensures !Drainable(plan, disk)
  {
    CountPositive(plan.jobs, job);
    forall n: nat ensures !DrainsWithin(plan, disk, n) {
      var calls := NeverDone(plan, job, disk, n);
      assert AllSteady(calls);
      assert job in Pending(plan, After(plan, disk, calls), plan.jobs);
    }
  }

  // Plans that nothing limits, or that may not launch at all.

  /** No failure ever counts: a full-matrix plan, or a budget plan whose turns have no attempts. */
  predicate Unlimited(plan: Plan) {
    !plan.budget || plan.maxAttempts <= 0 < plan.maxResume
  }

  lemma StepKeepsPending(plan: Plan, pending: seq<string>, i: nat, disk: Disk, job: string)
    requires i < |pending| && Unlimited(plan) && IsPending(plan, disk, job)
    ensures var t := Step(plan, AllFail(), pending, i, disk); t.stop.None? && IsPending(plan, t.disk, job)
  {
    AllFailExhausts(plan, i, 1, Resume(disk, pending[i]));
    LaunchAppends(plan, AllFail(), i, 1, Resume(disk, pending[i]), false);
    if job != pending[i] {
      StepFrame(plan, AllFail(), pending, i, disk, job);
      SameForKeepsTriage(plan, disk, Step(plan, AllFail(), pending, i, disk).disk, job);
    }
  }

  lemma {:induction false} BatchKeepsPending(plan: Plan, pending: seq<string>, n: nat, terminal: bool, i: nat,
                                             disk: Disk, failed: bool, launched: seq<string>, job: string)
    requires i <= n <= |pending| && Unlimited(plan) && IsPending(plan, disk, job)
    ensures IsPending(plan, Batch(plan, AllFail(), pending, n, terminal, i, disk, failed, launched).disk, job)
    decreases n - i
  {
    if i < n {
      var t := Step(plan, AllFail(), pending, i, disk);
      StepKeepsPending(plan, pending, i, disk, job);
      BatchKeepsPending(plan, pending, n, terminal, i + 1, t.disk, failed || t.failed,
                        launched + Copies(pending[i], t.launches), job);
    }
  }

  lemma {:induction false} AlwaysPending(plan: Plan, disk: Disk, calls: seq<Call>, job: string)
    requires Unlimited(plan) && IsPending(plan, disk, job) && forall c <- calls :: c == AllFail()
    ensures IsPending(plan, After(plan, disk, calls), job)
    decreases |calls|
  {
    if calls != [] {
      var pending := Pending(plan, disk, plan.jobs);
      assert calls[0] in calls;
      BatchKeepsPending(plan, pending, |pending|, AnyTerminal(plan, disk), 0, disk, false, [], job);
      assert forall c <- calls[1..] :: c in calls;
      AlwaysPending(plan, Invocation(plan, calls[0], disk).disk, calls[1..], job);
    }
  }

  lemma UnlimitedNeverDrains(plan: Plan, disk: Disk, job: string)
    requires Unlimited(plan) && IsPending(plan, disk, job) && job in plan.jobs
    ensures !Drainable(plan, disk)
  {
    forall n: nat ensures !DrainsWithin(plan, disk, n) {
      var calls := seq(n, _ => AllFail());
      AlwaysPending(plan, disk, calls, job);
      assert AllSteady(calls);
      assert job in Pending(plan, After(plan, disk, calls), plan.jobs);
    }
  }

  lemma NothingPending(plan: Plan, disk: Disk)
    requires Pending(plan, disk, plan.jobs) == []
    ensures Drainable(plan, disk)
  {
    forall calls: seq<Call> | AllSteady(calls) ensures Pending(plan, After(plan, disk, calls), plan.jobs) == [] {
      DrainedForever(plan, disk, calls);
    }
    assert DrainsWithin(plan, disk, 0);
  }

  /** Plans without jobs, and budget plans that allow no attempt over all invocations, have nothing to do. */
  predicate Idle(plan: Plan) {
    plan.jobs == [] || (plan.budget && plan.maxResume <= 0)
  }

  lemma {:induction false} NonePending(plan: Plan, disk: Disk, jobs: seq<string>)
    requires forall j <- jobs :: !IsPending(plan, disk, j)
    ensures Pending(plan, disk, jobs) == []
  {
    if jobs != [] { NonePending(plan, disk, jobs[..|jobs| - 1]); }
  }

  lemma IdleDrains(plan: Plan, disk: Disk)
    requires Idle(plan)
    ensures Drainable(plan, disk)
  {
    NonePending(plan, disk, plan.jobs);
    NothingPending(plan, disk);
  }

  lemma WorkingDrainsExactly(plan: Plan)
    requires plan.budget && plan.maxAttempts >= 1
    ensures AlwaysDrains(plan) <==> NoDuplicates(plan.jobs) || plan.maxAttempts >= plan.maxResume
  {
    if NoDuplicates(plan.jobs) {
      forall disk ensures Drainable(plan, disk) { DistinctDrain(plan, disk); }
    } else if plan.maxAttempts >= plan.maxResume {
      forall disk ensures Drainable(plan, disk) { SettledDrain(plan, disk); }
    } else {
      OnceEach(plan.jobs);
      var job :| Count(plan.jobs, job) > 1;
      RepeatedNeverDrains(plan, job, Disk(map[], set j | j in plan.jobs && j != job));
    }
  }

  /**
   A plan drains from every disk under every steady calls exactly when it has nothing to do, or it is a
   budget plan whose turns have attempts and whose job ids are distinct or whose turns use up the resume
   limit. Otherwise some job is failed and restarted forever.
   */
  lemma DrainsExactly(plan: Plan)
    ensures AlwaysDrains(plan) <==>
              || Idle(plan)
              || (plan.budget && plan.maxAttempts >= 1
                  && (NoDuplicates(plan.jobs) || plan.maxAttempts >= plan.maxResume))
  {
    if Idle(plan) {
      forall disk ensures Drainable(plan, disk) { IdleDrains(plan, disk); }
    } else if plan.budget && plan.maxAttempts >= 1 {
      WorkingDrainsExactly(plan);
    } else {
      UnlimitedNeverDrains(plan, Disk(map[], {}), plan.jobs[0]);
    }
  }
}
