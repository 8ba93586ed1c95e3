/** What a turn and an invocation of the batch runner amount to, in terms of the children it launched. */
module JobRunnerExits {
  import opened JobRunner
  import opened JobRunnerProperties
  import opened PyLists
  import opened Wrappers

  // ---------------------------------------------------------------- the launches of one turn

  /** A child after which its job is not launched again in this turn. */
  predicate Decides(call: Call, o: Outcome) {
    (o.returncode == 0 && o.matches) || (call.ledger && o.budgetBlock) || o.quotaPaused
  }

  /** Launches k to k + n - 1, each but the last undecided, and the attempts they leave. */
  ghost predicate LaunchesAre(call: Call, i: nat, k: int, n: nat, before: seq<Attempt>, after: seq<Attempt>) {
    && |after| == |before| + n && after[..|before|] == before
    && (forall a :: |before| <= a < |after| ==>
          after[a] == Attempt(a + 1, call.child(i, k + a - |before|).returncode))
    && (forall j :: k <= j < k + n - 1 ==> !Decides(call, call.child(i, j)))
  }

  lemma LaunchesAreOneMore(call: Call, i: nat, k: int, n: nat, before: seq<Attempt>, after: seq<Attempt>)
    requires n > 0 && !Decides(call, call.child(i, k))
    requires LaunchesAre(call, i, k + 1, n - 1, before + [Attempt(|before| + 1, call.child(i, k).returncode)], after)
    ensures LaunchesAre(call, i, k, n, before, after)
  {
    var more := before + [Attempt(|before| + 1, call.child(i, k).returncode)];
    assert after[..|before|] == after[..|more|][..|before|] == before;
    assert after[|before|] == after[..|more|][|before|] == more[|before|];
  }

  /** How the turn ends, by its last launch: success before budget before quota. */
  ghost predicate EndsBy(plan: Plan, call: Call, i: nat, k: int, n: nat, matches: bool, s: Session) {
    && (s.matches <==> if n == 0 then matches else call.child(i, k + n - 1).matches)
    && (s.end.Exhausted? ==> n == if k > plan.maxAttempts then 0 else plan.maxAttempts - k + 1)
    && (!s.end.Exhausted? ==>
          var o := call.child(i, k + n - 1);
          && n > 0 && k + n - 1 <= plan.maxAttempts
          && (s.end.Succeeded? <==> o.returncode == 0 && o.matches)
          && (s.end.BudgetStop? <==> !(o.returncode == 0 && o.matches) && call.ledger && o.budgetBlock)
          && (s.end.QuotaStop? <==>
                !(o.returncode == 0 && o.matches) && !(call.ledger && o.budgetBlock) && o.quotaPaused))
  }

  lemma LaunchDecided(plan: Plan, call: Call, i: nat, k: int, before: seq<Attempt>, matches: bool)
    requires k <= plan.maxAttempts && Decides(call, call.child(i, k))
    ensures var s := Launch(plan, call, i, k, before, matches);
            && |s.attempts| == |before| + 1 && LaunchesAre(call, i, k, 1, before, s.attempts)
            && EndsBy(plan, call, i, k, 1, matches, s) && !s.end.Exhausted?
  {
    var s := Launch(plan, call, i, k, before, matches);
    assert s.attempts == before + [Attempt(|before| + 1, call.child(i, k).returncode)];
    assert s.attempts[..|before|] == before;
  }

  /**
   The children are launched one after the other up to the first that decides, at most up to the limit; the
   last one says how the turn ends and whether there is a result.
   */
  lemma {:induction false} LaunchExactly(plan: Plan, call: Call, i: nat, k: int, before: seq<Attempt>, matches: bool)
    ensures var s := Launch(plan, call, i, k, before, matches);
            var n := |s.attempts| - |before|;
            && n >= 0 && LaunchesAre(call, i, k, n, before, s.attempts) && EndsBy(plan, call, i, k, n, matches, s)
            && (s.end.Exhausted? <==> forall j :: k <= j <= plan.maxAttempts ==> !Decides(call, call.child(i, j)))
    decreases plan.maxAttempts - k
  {
    if k <= plan.maxAttempts {
      var o := call.child(i, k);
      if Decides(call, o) {
        LaunchDecided(plan, call, i, k, before, matches);
      } else {
        var s, more := Launch(plan, call, i, k, before, matches), before + [Attempt(|before| + 1, o.returncode)];
        assert s == Launch(plan, call, i, k + 1, more, o.matches);
        LaunchExactly(plan, call, i, k + 1, more, o.matches);
        LaunchesAreOneMore(call, i, k, |s.attempts| - |before|, before, s.attempts);
      }
    }
  }

  // ---------------------------------------------------------------- one turn

  /** The launches of a job that is not in `disk.results` when its turn comes. */
  function SessionOf(plan: Plan, call: Call, pending: seq<string>, i: nat, disk: Disk): Session
    requires i < |pending|
  {
    Launch(plan, call, i, 1, Resume(disk, pending[i]), false)
  }

  predicate Refused(call: Call, i: nat) {
    call.ledger && call.refused(i)
  }

  /** What a turn that launches stores about its job, and when it ends the batch. */
  lemma TurnRecords(plan: Plan, call: Call, pending: seq<string>, i: nat, disk: Disk)
    requires i < |pending| && pending[i] !in disk.results && !Refused(call, i) && !call.dryRun
    ensures var t, s, job := Step(plan, call, pending, i, disk), SessionOf(plan, call, pending, i, disk), pending[i];
            && job in t.disk.states && t.disk.states[job].Recorded? && t.disk.states[job].attempts == s.attempts
            && (HasStatus(t.disk, job, Complete) <==> s.end.Succeeded?)
            && (HasStatus(t.disk, job, FailedTerminal) <==>
                  s.end.Exhausted? && plan.budget && |s.attempts| >= plan.maxResume)
            && (HasStatus(t.disk, job, InfraError) <==>
                  s.end.Exhausted? && !(plan.budget && |s.attempts| >= plan.maxResume))
            && (HasStatus(t.disk, job, NotRunBudget) <==> s.end.BudgetStop?)
            && (HasStatus(t.disk, job, PausedQuota) <==> s.end.QuotaStop?)
            && (forall j :: j in t.disk.results <==> if j == job then s.matches else j in disk.results)
            && t.launches == |s.attempts| - |Resume(disk, job)|
            && (t.failed <==> s.end.Exhausted?)
            && t.stop == if s.end.BudgetStop? then Some(2) else if s.end.QuotaStop? then Some(4) else None
  {
    var s, job := SessionOf(plan, call, pending, i, disk), pending[i];
    LaunchAppends(plan, call, i, 1, Resume(disk, job), false);
    MarkUnrunAddsOnly(Record(plan, disk, job, s), pending[i + 1..]);
  }

  // ---------------------------------------------------------------- one invocation

  /** A job with its result, recorded as complete. */
  predicate Done(disk: Disk, job: string) {
    job in disk.results && HasStatus(disk, job, Complete)
  }

  ghost predicate AllDone(disk: Disk, pending: seq<string>, i: nat, n: nat)
    requires i <= n <= |pending|
  {
    forall k :: i <= k < n ==> Done(disk, pending[k])
  }

  /** Nothing from turn i on ends the batch early. */
  ghost predicate RunsThrough(plan: Plan, call: Call, pending: seq<string>, i: nat, n: nat, disk: Disk)
    requires i <= n <= |pending|
  {
    forall k :: i <= k < n ==>
      !Refused(call, k) && !SessionOf(plan, call, pending, k, disk).end.BudgetStop?
      && !SessionOf(plan, call, pending, k, disk).end.QuotaStop?
  }

  lemma DoneStays(a: Disk, b: Disk, job: string)
    requires SameFor(a, b, job) && job in a.states
    ensures Done(a, job) <==> Done(b, job)
  {
  }

  lemma AllDoneStep(disk: Disk, pending: seq<string>, i: nat, n: nat)
    requires i < n <= |pending|
    ensures AllDone(disk, pending, i, n) <==> Done(disk, pending[i]) && AllDone(disk, pending, i + 1, n)
  {
  }

  /** A turn leaves the later jobs of the batch as they were. */
  lemma LaterUntouched(plan: Plan, call: Call, pending: seq<string>, n: nat, i: nat, disk: Disk)
    requires i < n <= |pending| && NoDuplicates(pending)
    ensures var t := Step(plan, call, pending, i, disk);
            && (forall k :: i < k < n ==>
                  SessionOf(plan, call, pending, k, t.disk) == SessionOf(plan, call, pending, k, disk))
            && (forall k :: i < k < n ==> (pending[k] in t.disk.results <==> pending[k] in disk.results))
  {
    var t := Step(plan, call, pending, i, disk);
    forall k | i < k < n
      ensures SessionOf(plan, call, pending, k, t.disk) == SessionOf(plan, call, pending, k, disk)
      ensures pending[k] in t.disk.results <==> pending[k] in disk.results
    {
      StepFrame(plan, call, pending, i, disk, pending[k]);
      SameForKeepsTriage(plan, disk, t.disk, pending[k]);
    }
  }

  /** The jobs of a batch wait for their turn without a result. */
  ghost predicate Waiting(disk: Disk, pending: seq<string>, i: nat, n: nat) {
    i <= n <= |pending| && forall k :: i <= k < n ==> pending[k] !in disk.results
  }

  /** So whether the rest of the batch runs through can be told before the turn. */
  lemma RestRuns(plan: Plan, call: Call, pending: seq<string>, n: nat, i: nat, disk: Disk)
    requires Waiting(disk, pending, i, n) && i < n && NoDuplicates(pending)
    ensures var t := Step(plan, call, pending, i, disk);
            && Waiting(t.disk, pending, i + 1, n)
            && (RunsThrough(plan, call, pending, i, n, disk) <==>
                  && RunsThrough(plan, call, pending, i, i + 1, disk)
                  && RunsThrough(plan, call, pending, i + 1, n, t.disk))
  {
    LaterUntouched(plan, call, pending, n, i, disk);
  }

  lemma StoppedTurnExits(plan: Plan, call: Call, pending: seq<string>, i: nat, disk: Disk)
    requires i < |pending| && pending[i] !in disk.results && !call.dryRun
    requires Step(plan, call, pending, i, disk).stop.Some?
    ensures var t := Step(plan, call, pending, i, disk);
            && t.stop.value in {2, 4} && !Done(t.disk, pending[i])
            && !RunsThrough(plan, call, pending, i, i + 1, disk)
  {
    if Refused(call, i) {
      MarkUnrunAddsOnly(disk, pending[i..]);
    } else {
      TurnRecords(plan, call, pending, i, disk);
    }
  }

  /** A turn that lets the batch go on: the job is done, or it counts as failed. */
  lemma FinishedTurn(plan: Plan, call: Call, pending: seq<string>, n: nat, terminal: bool, i: nat, disk: Disk,
                     failed: bool, launched: seq<string>)
    requires i < n <= |pending| && NoDuplicates(pending) && pending[i] !in disk.results && !call.dryRun
    requires Step(plan, call, pending, i, disk).stop.None?
    ensures var t := Step(plan, call, pending, i, disk);
            var r := Batch(plan, call, pending, n, terminal, i + 1, t.disk, failed || t.failed,
                           launched + Copies(pending[i], t.launches));
            && (Done(r.disk, pending[i]) <==> !t.failed)
            && RunsThrough(plan, call, pending, i, i + 1, disk)
  {
    var t := Step(plan, call, pending, i, disk);
    var l := launched + Copies(pending[i], t.launches);
    TurnRecords(plan, call, pending, i, disk);
    LaunchAppends(plan, call, i, 1, Resume(disk, pending[i]), false);
    BatchFrame(plan, call, pending, n, terminal, i + 1, t.disk, failed || t.failed, l, pending[i]);
    DoneStays(t.disk, Batch(plan, call, pending, n, terminal, i + 1, t.disk, failed || t.failed, l).disk, pending[i]);
  }

  lemma {:induction false} BatchRuns(plan: Plan, call: Call, pending: seq<string>, n: nat, terminal: bool,
                                     i: nat, disk: Disk, failed: bool, launched: seq<string>)
    requires Waiting(disk, pending, i, n) && NoDuplicates(pending) && !call.dryRun
    ensures var r := Batch(plan, call, pending, n, terminal, i, disk, failed, launched);
            r.exit in {0, 1, 2, 4} && (r.exit in {0, 1} <==> RunsThrough(plan, call, pending, i, n, disk))
    decreases n - i
  {
    if i < n {
      var t := Step(plan, call, pending, i, disk);
      RestRuns(plan, call, pending, n, i, disk);
      if t.stop.Some? {
        StoppedTurnExits(plan, call, pending, i, disk);
      } else {
        BatchRuns(plan, call, pending, n, terminal, i + 1, t.disk, failed || t.failed,
                  launched + Copies(pending[i], t.launches));
        FinishedTurn(plan, call, pending, n, terminal, i, disk, failed, launched);
      }
    }
  }

  lemma {:induction false} BatchSucceeds(plan: Plan, call: Call, pending: seq<string>, n: nat, terminal: bool,
                                         i: nat, disk: Disk, failed: bool, launched: seq<string>)
    requires Waiting(disk, pending, i, n) && NoDuplicates(pending) && !call.dryRun
    ensures var r := Batch(plan, call, pending, n, terminal, i, disk, failed, launched);
            r.exit == 0 <==> !terminal && !failed && AllDone(r.disk, pending, i, n)
    decreases n - i
  {
    if i < n {
      var t := Step(plan, call, pending, i, disk);
      var l := launched + Copies(pending[i], t.launches);
      if t.stop.Some? {
        StoppedTurnExits(plan, call, pending, i, disk);
        AllDoneStep(t.disk, pending, i, n);
      } else {
        RestRuns(plan, call, pending, n, i, disk);
        BatchSucceeds(plan, call, pending, n, terminal, i + 1, t.disk, failed || t.failed, l);
        FinishedTurn(plan, call, pending, n, terminal, i, disk, failed, launched);
        AllDoneStep(Batch(plan, call, pending, n, terminal, i + 1, t.disk, failed || t.failed, l).disk, pending, i, n);
      }
    }
  }

  lemma PendingWait(plan: Plan, disk: Disk, n: nat)
    requires n <= |Pending(plan, disk, plan.jobs)|
    ensures Waiting(disk, Pending(plan, disk, plan.jobs), 0, n)
  {
    var pending := Pending(plan, disk, plan.jobs);
    forall k | 0 <= k < |pending| ensures pending[k] !in disk.results { assert pending[k] in pending; }
  }

  /**
   Exit code 0 exactly when no job has failed terminally and every job of the batch has its result and is
   recorded as complete.
   */
  lemma ExitZeroExactly(plan: Plan, call: Call, disk: Disk)
    requires !call.dryRun && NoDuplicates(plan.jobs)
    ensures var r, pending := Invocation(plan, call, disk), Pending(plan, disk, plan.jobs);
            r.exit == 0 <==> !AnyTerminal(plan, disk) && AllDone(r.disk, pending, 0, BatchSize(call, pending))
  {
    var pending := Pending(plan, disk, plan.jobs);
    PendingDistinct(plan, disk, plan.jobs);
    PendingWait(plan, disk, BatchSize(call, pending));
    BatchSucceeds(plan, call, pending, BatchSize(call, pending), AnyTerminal(plan, disk), 0, disk, false, []);
  }

  /**
   Exit code 1 exactly when the batch, if there is one, is not kept from starting and runs through, but some
   job has failed terminally before or some job of the batch is not done.
   */
  lemma ExitOneExactly(plan: Plan, call: Call, disk: Disk)
    requires !call.dryRun && NoDuplicates(plan.jobs)
    ensures var r, pending := Invocation(plan, call, disk), Pending(plan, disk, plan.jobs);
            var n := BatchSize(call, pending);
            r.exit == 1 <==>
              && (n == 0 || !call.lockErrors) && RunsThrough(plan, call, pending, 0, n, disk)
              && (AnyTerminal(plan, disk) || !AllDone(r.disk, pending, 0, n))
  {
    var pending := Pending(plan, disk, plan.jobs);
    PendingDistinct(plan, disk, plan.jobs);
    PendingWait(plan, disk, BatchSize(call, pending));
    BatchSucceeds(plan, call, pending, BatchSize(call, pending), AnyTerminal(plan, disk), 0, disk, false, []);
    BatchRuns(plan, call, pending, BatchSize(call, pending), AnyTerminal(plan, disk), 0, disk, false, []);
  }

  // ---------------------------------------------------------------- the early ends

  /** The turns before k go through and k's does not. */
  ghost predicate BreaksAt(plan: Plan, call: Call, pending: seq<string>, i: nat, k: nat, disk: Disk)
    requires i <= k < |pending|
  {
    RunsThrough(plan, call, pending, i, k, disk) && !RunsThrough(plan, call, pending, k, k + 1, disk)
  }

  /** The batch ends at k for want of money: its job was refused, or its child was blocked. */
  predicate OutOfBudget(plan: Plan, call: Call, pending: seq<string>, k: nat, disk: Disk)
    requires k < |pending|
  {
    Refused(call, k) || SessionOf(plan, call, pending, k, disk).end.BudgetStop?
  }

  lemma LaterBreaks(plan: Plan, call: Call, pending: seq<string>, n: nat, i: nat, k: nat, disk: Disk)
    requires i < k < n <= |pending| && NoDuplicates(pending) && RunsThrough(plan, call, pending, i, i + 1, disk)
    ensures var d := Step(plan, call, pending, i, disk).disk;
            && (BreaksAt(plan, call, pending, i, k, disk) <==> BreaksAt(plan, call, pending, i + 1, k, d))
            && (OutOfBudget(plan, call, pending, k, disk) <==> OutOfBudget(plan, call, pending, k, d))
  {
    LaterUntouched(plan, call, pending, n, i, disk);
  }

  /** A batch that does not run through exits with 2 or 4, by why the first turn that breaks does. */
  lemma {:induction false} BatchBreaks(plan: Plan, call: Call, pending: seq<string>, n: nat, terminal: bool,
                                       i: nat, disk: Disk, failed: bool, launched: seq<string>, k: nat)
    requires Waiting(disk, pending, i, n) && NoDuplicates(pending) && !call.dryRun
    requires i <= k < n && BreaksAt(plan, call, pending, i, k, disk)
    ensures Batch(plan, call, pending, n, terminal, i, disk, failed, launched).exit
         == if OutOfBudget(plan, call, pending, k, disk) then 2 else 4
    decreases n - i
  {
    var t := Step(plan, call, pending, i, disk);
    if !Refused(call, i) { TurnRecords(plan, call, pending, i, disk); }
    if i < k {
      assert RunsThrough(plan, call, pending, i, i + 1, disk);
      RestRuns(plan, call, pending, n, i, disk);
      LaterBreaks(plan, call, pending, n, i, k, disk);
      BatchBreaks(plan, call, pending, n, terminal, i + 1, t.disk, failed || t.failed,
                  launched + Copies(pending[i], t.launches), k);
    }
  }

  /** An invocation that breaks at turn k: exit code 2 for want of money, else 4 for the provider's quota. */
  lemma EarlyExit(plan: Plan, call: Call, disk: Disk, k: nat)
    requires !call.dryRun && !call.lockErrors && NoDuplicates(plan.jobs)
    requires k < BatchSize(call, Pending(plan, disk, plan.jobs))
    requires BreaksAt(plan, call, Pending(plan, disk, plan.jobs), 0, k, disk)
    ensures Invocation(plan, call, disk).exit
         == if OutOfBudget(plan, call, Pending(plan, disk, plan.jobs), k, disk) then 2 else 4
  {
    var pending := Pending(plan, disk, plan.jobs);
    PendingDistinct(plan, disk, plan.jobs);
    PendingWait(plan, disk, BatchSize(call, pending));
    BatchBreaks(plan, call, pending, BatchSize(call, pending), AnyTerminal(plan, disk), 0, disk, false, [], k);
  }
}
