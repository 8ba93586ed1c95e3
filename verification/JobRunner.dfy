/**
 The resumable batch runner of scripts/run_r2_r3_acceptance.py: one invocation triages the plan's
 jobs by what is on disk, launches a bounded batch of them and records every job's state.
 */
module JobRunner {
  import opened Wrappers
  import opened PyLists

  datatype Status = Complete | InfraError | FailedTerminal | NotRunBudget | PausedQuota

  datatype Attempt = Attempt(number: nat, returncode: int)

  /** A job's state.json: unreadable, or a status with the attempts recorded under it. */
  datatype JobState = Corrupt | Recorded(status: Status, attempts: seq<Attempt>)

  /** The output directory: state files, and the jobs whose result file matches the plan. */
  datatype Disk = Disk(states: map<string, JobState>, results: set<string>)

  /** `budget` tells a budget plan from a full-matrix plan. */
  datatype Plan = Plan(jobs: seq<string>, budget: bool, maxResume: int, maxAttempts: int)

  /** What one run of a child process amounts to; `matches` is about the result file it leaves. */
  datatype Outcome = Outcome(returncode: int, matches: bool, budgetBlock: bool, quotaPaused: bool)

  /**
   One invocation: its arguments, and the answers it gets from the outside world. `refused(i)` says
   that the ledger cannot reserve for the i-th job; `child(i, k)` is the k-th launch of that job.
   */
  datatype Call = Call(
    maxJobs: Option<int>, dryRun: bool, ledger: bool, lockErrors: bool,
    refused: nat -> bool, child: (nat, int) -> Outcome)

  // ---------------------------------------------------------------- triage

  predicate HasStatus(disk: Disk, job: string, status: Status) {
    job in disk.states && disk.states[job].Recorded? && disk.states[job].status == status
  }

  /** The attempts that count against the resume limit. */
  function Prior(disk: Disk, job: string): seq<Attempt> {
    if HasStatus(disk, job, InfraError) || HasStatus(disk, job, FailedTerminal) then disk.states[job].attempts else []
  }

  predicate Terminal(plan: Plan, disk: Disk, job: string) {
    plan.budget && (HasStatus(disk, job, FailedTerminal) || |Prior(disk, job)| >= plan.maxResume)
  }

  predicate IsPending(plan: Plan, disk: Disk, job: string) {
    job !in disk.results && !Terminal(plan, disk, job)
  }

  function Pending(plan: Plan, disk: Disk, jobs: seq<string>): (r: seq<string>)
    ensures forall j :: j in r <==> j in jobs && IsPending(plan, disk, j)
  {
    if jobs == [] then [] else
      var j := jobs[|jobs| - 1];
      Pending(plan, disk, jobs[..|jobs| - 1]) + if IsPending(plan, disk, j) then [j] else []
  }

  predicate AnyTerminal(plan: Plan, disk: Disk) {
    exists j :: j in plan.jobs && j !in disk.results && Terminal(plan, disk, j)
  }

  function BatchSize(call: Call, pending: seq<string>): nat {
    if call.maxJobs.None? then |pending| else |Take(pending, call.maxJobs.value)|
  }

  // ---------------------------------------------------------------- one job

  datatype End = Succeeded | Exhausted | BudgetStop | QuotaStop

  datatype Session = Session(attempts: seq<Attempt>, matches: bool, end: End)

  /** The attempts an interrupted job resumes from. */
  function Resume(disk: Disk, job: string): seq<Attempt> {
    if HasStatus(disk, job, InfraError) then disk.states[job].attempts else []
  }

  /** The launches of one job, from local attempt `k` on. */
  function Launch(plan: Plan, call: Call, i: nat, k: int, attempts: seq<Attempt>, matches: bool): Session
    decreases plan.maxAttempts - k
  {
    if k > plan.maxAttempts then Session(attempts, matches, Exhausted) else
      var o := call.child(i, k);
      var more := attempts + [Attempt(|attempts| + 1, o.returncode)];
      if o.returncode == 0 && o.matches then Session(more, true, Succeeded)
      else if call.ledger && o.budgetBlock then Session(more, o.matches, BudgetStop)
      else if o.quotaPaused then Session(more, o.matches, QuotaStop)
      else Launch(plan, call, i, k + 1, more, o.matches)
  }

  function FinalStatus(plan: Plan, s: Session): Status {
    match s.end
    case Succeeded => Complete
    case Exhausted => if plan.budget && |s.attempts| >= plan.maxResume then FailedTerminal else InfraError
    case BudgetStop => NotRunBudget
    case QuotaStop => PausedQuota
  }

  function Record(plan: Plan, disk: Disk, job: string, s: Session): Disk {
    Disk(disk.states[job := Recorded(FinalStatus(plan, s), s.attempts)],
         if s.matches then disk.results + {job} else disk.results - {job})
  }

  /** `_write_not_run_budget`: jobs without a state file are marked as not run. */
  function MarkUnrun(disk: Disk, jobs: seq<string>): Disk {
    if jobs == [] then disk else
      var d := MarkUnrun(disk, jobs[..|jobs| - 1]);
      var j := jobs[|jobs| - 1];
      if j in d.states then d else d.(states := d.states[j := Recorded(NotRunBudget, [])])
  }

  /** The effect of one turn of the batch loop; `stop` is the exit code of an early return. */
  datatype Turn = Turn(disk: Disk, failed: bool, launches: nat, stop: Option<int>)

  function Step(plan: Plan, call: Call, pending: seq<string>, i: nat, disk: Disk): Turn
    requires i < |pending|
  {
    var job := pending[i];
    if job in disk.results then Turn(disk, false, 0, None)
    else if call.ledger && call.refused(i) then Turn(MarkUnrun(disk, pending[i..]), false, 0, Some(2))
    else if call.dryRun then Turn(disk, false, 0, None)
    else
      var before := Resume(disk, job);
      var s := Launch(plan, call, i, 1, before, false);
      LaunchAppends(plan, call, i, 1, before, false);
      var after := Record(plan, disk, job, s);
      match s.end
      case BudgetStop => Turn(MarkUnrun(after, pending[i + 1..]), false, |s.attempts| - |before|, Some(2))
      case QuotaStop => Turn(after, false, |s.attempts| - |before|, Some(4))
      case _ => Turn(after, s.end.Exhausted?, |s.attempts| - |before|, None)
  }

  lemma {:induction false} LaunchAppends(plan: Plan, call: Call, i: nat, k: int, attempts: seq<Attempt>, matches: bool)
    ensures var s := Launch(plan, call, i, k, attempts, matches);
            && attempts <= s.attempts
            && |s.attempts| - |attempts| <= (if k > plan.maxAttempts then 0 else plan.maxAttempts - k + 1)
            && (s.end.Exhausted? ==>
                |s.attempts| - |attempts| == (if k > plan.maxAttempts then 0 else plan.maxAttempts - k + 1))
            && (!s.end.Exhausted? ==> |s.attempts| > |attempts|)
            && (s.end.Succeeded? ==> s.matches)
    decreases plan.maxAttempts - k
  {
    if k <= plan.maxAttempts {
      var o := call.child(i, k);
      LaunchAppends(plan, call, i, k + 1, attempts + [Attempt(|attempts| + 1, o.returncode)], o.matches);
    }
  }

  // ---------------------------------------------------------------- one invocation

  /** Where an invocation leaves things; `stopped` is the job it was interrupted in, if any. */
  datatype Run = Run(disk: Disk, exit: int, launched: seq<string>, stopped: Option<string>)

  function Copies(job: string, n: nat): seq<string> {
    seq(n, _ => job)
  }

  function Batch(plan: Plan, call: Call, pending: seq<string>, n: nat, terminal: bool,
                 i: nat, disk: Disk, failed: bool, launched: seq<string>): Run
    requires i <= n <= |pending|
    decreases n - i
  {
    if i == n then Run(disk, if failed || terminal then 1 else 0, launched, None) else
      var t := Step(plan, call, pending, i, disk);
      var l := launched + Copies(pending[i], t.launches);
      if t.stop.Some? then Run(t.disk, t.stop.value, l, if t.launches > 0 then Some(pending[i]) else None)
      else Batch(plan, call, pending, n, terminal, i + 1, t.disk, failed || t.failed, l)
  }

  function Invocation(plan: Plan, call: Call, disk: Disk): Run {
    var pending := Pending(plan, disk, plan.jobs);
    var n := BatchSize(call, pending);
    if n == 0 then Run(disk, if AnyTerminal(plan, disk) then 1 else 0, [], None)
    else if !call.dryRun && call.lockErrors then Run(disk, 3, [], None)
    else Batch(plan, call, pending, n, AnyTerminal(plan, disk), 0, disk, false, [])
  }

  class Workspace {
    var states: map<string, JobState>
    var results: set<string>

    function View(): Disk
      reads this
    {
      Disk(states, results)
    }

    method WriteNotRunBudget(jobs: seq<string>)
      modifies this
      ensures View() == MarkUnrun(old(View()), jobs)
    {
      for i := 0 to |jobs|
        invariant View() == MarkUnrun(old(View()), jobs[..i])
      {
        assert jobs[..i + 1][..i] == jobs[..i];
        if jobs[i] !in states { states := states[jobs[i] := Recorded(NotRunBudget, [])]; }
      }
      assert jobs[..|jobs|] == jobs;
    }

    /** The attempt loop of one job. */
    method RunJob(plan: Plan, call: Call, i: nat, job: string) returns (s: Session)
      requires job !in results
      modifies this`results
      ensures s == Launch(plan, call, i, 1, Resume(old(View()), job), false)
      ensures results == if s.matches then old(results) + {job} else old(results)
    {
      var attempts := Resume(View(), job);
      var k := 1;
      while k <= plan.maxAttempts
        invariant results == if job in results then old(results) + {job} else old(results)
        invariant Launch(plan, call, i, k, attempts, job in results)
                  == Launch(plan, call, i, 1, Resume(old(View()), job), false)
        decreases plan.maxAttempts - k
      {
        var o := call.child(i, k);
        attempts := attempts + [Attempt(|attempts| + 1, o.returncode)];
        results := if o.matches then results + {job} else results - {job};
        if o.returncode == 0 && o.matches { return Session(attempts, true, Succeeded); }
        if call.ledger && o.budgetBlock { return Session(attempts, o.matches, BudgetStop); }
        if o.quotaPaused { return Session(attempts, o.matches, QuotaStop); }
        k := k + 1;
      }
      return Session(attempts, job in results, Exhausted);
    }

    method Triage(plan: Plan) returns (pending: seq<string>, terminal: bool)
      ensures pending == Pending(plan, View(), plan.jobs) && terminal == AnyTerminal(plan, View())
    {
      pending, terminal := [], false;
      for i := 0 to |plan.jobs|
        invariant pending == Pending(plan, View(), plan.jobs[..i])
        invariant terminal <==> exists j :: j in plan.jobs[..i] && j !in results && Terminal(plan, View(), j)
      {
        assert plan.jobs[..i + 1][..i] == plan.jobs[..i];
        assert plan.jobs[..i + 1] == plan.jobs[..i] + [plan.jobs[i]];
        if plan.jobs[i] !in results {
          if Terminal(plan, View(), plan.jobs[i]) { terminal := true; } else { pending := pending + [plan.jobs[i]]; }
        }
      }
      assert plan.jobs[..|plan.jobs|] == plan.jobs;
    }

    /** One turn of the batch loop, up to its early return. */
    method RunTurn(plan: Plan, call: Call, pending: seq<string>, i: nat) returns (t: Turn)
      requires i < |pending|
      modifies this
      ensures t == Step(plan, call, pending, i, old(View())) && View() == t.disk
    {
      var job := pending[i];
      if job in results { return Turn(View(), false, 0, None); }
      if call.ledger && call.refused(i) {
        WriteNotRunBudget(pending[i..]);
        return Turn(View(), false, 0, Some(2));
      }
      if call.dryRun { return Turn(View(), false, 0, None); }
      var before, was := |Resume(View(), job)|, results;
      LaunchAppends(plan, call, i, 1, Resume(View(), job), false);
      var s := RunJob(plan, call, i, job);
      assert was - {job} == was;
      states := states[job := Recorded(FinalStatus(plan, s), s.attempts)];
      if s.end.BudgetStop? {
        WriteNotRunBudget(pending[i + 1..]);
        return Turn(View(), false, |s.attempts| - before, Some(2));
      }
      if s.end.QuotaStop? { return Turn(View(), false, |s.attempts| - before, Some(4)); }
      return Turn(View(), !s.end.Succeeded?, |s.attempts| - before, None);
    }

    method RunJobs(plan: Plan, call: Call)
      returns (exit: int, ghost launched: seq<string>, ghost stopped: Option<string>)
      modifies this
      ensures Run(View(), exit, launched, stopped) == Invocation(plan, call, old(View()))
    {
      launched, stopped := [], None;
      var pending, terminal := Triage(plan);
      var n := BatchSize(call, pending);
      if n == 0 { return if terminal then 1 else 0, [], None; }
      if !call.dryRun && call.lockErrors { return 3, [], None; }
      var failed := false;
      ghost var whole := Batch(plan, call, pending, n, terminal, 0, View(), false, []);
      for i := 0 to n
        invariant Batch(plan, call, pending, n, terminal, i, View(), failed, launched) == whole
      {
        var t := RunTurn(plan, call, pending, i);
        launched := launched + Copies(pending[i], t.launches);
        if t.stop.Some? {
          return t.stop.value, launched, if t.launches > 0 then Some(pending[i]) else None;
        }
        failed := failed || t.failed;
      }
      return if failed || terminal then 1 else 0, launched, None;
    }
  }
}
