/** What holds of every run of the job queue. */
module JobTheorems {
  import opened Wrappers
  import opened Jobs
  import opened JobRuns

  // ---------------------------------------------------------------- counting along a run

  /** How many of the first `n` steps claimed the job. */
  ghost function ClaimCount(states: seq<State>, steps: seq<Step>, id: nat, n: nat): nat
    requires n <= |steps| < |states|
  {
    if n == 0 then 0
    else ClaimCount(states, steps, id, n - 1) + if Claims(states[n - 1], steps[n - 1], id) then 1 else 0
  }

  predicate StatusChanged(before: Table, after: Table, id: nat) {
    id in before && id in after && before[id].status != after[id].status
  }

  /** How many of the first `n` steps changed the job's status. */
  ghost function ChangeCount(states: seq<State>, id: nat, n: nat): nat
    requires n < |states|
  {
    if n == 0 then 0
    else ChangeCount(states, id, n - 1) + if StatusChanged(states[n - 1].jobs, states[n].jobs, id) then 1 else 0
  }

  /** The most status changes a row can still go through. */
  function Remaining(r: Record): int {
    match r.status
    case Queued => 2 * (r.maxAttempts - r.attempts)
    case Running => 2 * (r.maxAttempts - r.attempts) + 1
    case _ => 0
  }

  lemma {:induction false} UnusedIDHasNoHistory(states: seq<State>, steps: seq<Step>, id: nat, n: nat)
    requires IsRun(states, steps) && n < |states| && id !in states[n].ids
    requires forall k | 0 <= k < |states| :: states[k].jobs.Keys <= states[k].ids
    ensures ClaimCount(states, steps, id, n) == 0 && ChangeCount(states, id, n) == 0
  {
    if n > 0 {
      assert Next(states[n - 1], steps[n - 1], states[n]);
      UnusedIDHasNoHistory(states, steps, id, n - 1);
    }
  }

  lemma KeysAreUsed(states: seq<State>, steps: seq<Step>)
    requires IsRun(states, steps)
    ensures forall k | 0 <= k < |states| :: states[k].jobs.Keys <= states[k].ids
  {
    forall k | 0 <= k < |states| ensures states[k].jobs.Keys <= states[k].ids {
      InvHolds(states, steps, k);
    }
  }

  /** In every run, whoever finishes and recovers, a job's attempts are exactly its successful claims. */
  lemma {:induction false} AttemptsAreClaims(states: seq<State>, steps: seq<Step>, id: nat, n: nat)
    requires IsRun(states, steps) && n < |states| && id in states[n].jobs
    ensures states[n].jobs[id].attempts == ClaimCount(states, steps, id, n)
  {
    if n > 0 {
      var s, step, next := states[n - 1], steps[n - 1], states[n];
      InvHolds(states, steps, n - 1);
      assert Next(s, step, next);
      if id in s.jobs {
        RowStep(s, step, next, id);
        AttemptsAreClaims(states, steps, id, n - 1);
      } else {
        NewRowStep(s, step, next, id);
        KeysAreUsed(states, steps);
        UnusedIDHasNoHistory(states, steps, id, n - 1);
      }
    }
  }

  // ---------------------------------------------------------------- the bound on attempts

  /** For one step from a table within the bounds: it stays within them exactly when the step meets its guard. */
  lemma AttemptsGuardIsExact(s: State, step: Step, next: State)
    requires Rows(s) && AllAttemptsOk(s.jobs) && Next(s, step, next)
    ensures AllAttemptsOk(next.jobs) <==> AttemptsGuard(s.jobs, step)
  {
    if AttemptsGuard(s.jobs, step) {
      forall id | id in next.jobs ensures AttemptsOk(next.jobs[id]) {
        GuardKeepsAttempts(s, step, next, id);
      }
    } else {
      var id := if step.RecoverStep? then step.seen.id else step.claim.id;
      assert id in next.jobs && !AttemptsOk(next.jobs[id]);
    }
  }

  lemma GuardKeepsAttempts(s: State, step: Step, next: State, id: nat)
    requires Rows(s) && AllAttemptsOk(s.jobs) && Next(s, step, next) && AttemptsGuard(s.jobs, step) && id in next.jobs
    ensures AttemptsOk(next.jobs[id])
  {
    if id !in s.jobs || step.Enqueues() {
      NewRowStep(s, step, next, id);
    } else {
      assert AttemptsOk(s.jobs[id]);
    }
  }

  /** A finishing call, from whoever: the row keeps within its bounds unless the call is a retry of a row
      that has no attempt left. */
  lemma FinisherKeepsAttemptsIff(jobs: Table, step: Step)
    requires step.Finishes() && step.claim.id in jobs
    requires RowShape(jobs[step.claim.id]) && AttemptsOk(jobs[step.claim.id])
    ensures AttemptsOk(After(jobs, step)[step.claim.id]) <==>
            !(step.FailOrRetryStep? && Requeues(jobs, step.claim, step.retryable)
              && jobs[step.claim.id].attempts >= jobs[step.claim.id].maxAttempts)
  {
  }

  /** Recovery of a row read earlier as `seen`: the row keeps within its bounds exactly when it is not
      running any more, has an attempt left, or was read on its last one. */
  lemma RecoveryKeepsAttemptsIff(jobs: Table, seen: Record, now: int)
    requires seen.id in jobs && RowShape(jobs[seen.id]) && AttemptsOk(jobs[seen.id])
    ensures AttemptsOk(Recover(jobs, seen, now)[seen.id]) <==>
            (jobs[seen.id].status != Running || jobs[seen.id].attempts < jobs[seen.id].maxAttempts
             || seen.attempts >= seen.maxAttempts)
  {
  }

  /** Over a whole run: attempts never exceed their maximum, and queued jobs always have one left, exactly
      when every retry and every recovery meets its guard. */
  lemma AttemptsBoundedIffGuarded(states: seq<State>, steps: seq<Step>)
    requires IsRun(states, steps)
    ensures (forall n | 0 <= n < |states| :: AllAttemptsOk(states[n].jobs)) <==>
            (forall i | 0 <= i < |steps| :: AttemptsGuard(states[i].jobs, steps[i]))
  {
    if forall n | 0 <= n < |states| :: AllAttemptsOk(states[n].jobs) {
      forall i | 0 <= i < |steps| ensures AttemptsGuard(states[i].jobs, steps[i]) {
        InvHolds(states, steps, i);
        assert Next(states[i], steps[i], states[i + 1]);
        AttemptsGuardIsExact(states[i], steps[i], states[i + 1]);
      }
    }
    if forall i | 0 <= i < |steps| :: AttemptsGuard(states[i].jobs, steps[i]) {
      forall n | 0 <= n < |states| ensures AllAttemptsOk(states[n].jobs) {
        GuardedAttemptsOk(states, steps, n);
      }
    }
  }

  lemma {:induction false} GuardedAttemptsOk(states: seq<State>, steps: seq<Step>, n: nat)
    requires IsRun(states, steps) && n < |states|
    requires forall i | 0 <= i < n :: AttemptsGuard(states[i].jobs, steps[i])
    ensures AllAttemptsOk(states[n].jobs)
  {
    if n > 0 {
      GuardedAttemptsOk(states, steps, n - 1);
      InvHolds(states, steps, n - 1);
      assert Next(states[n - 1], steps[n - 1], states[n]);
      AttemptsGuardIsExact(states[n - 1], steps[n - 1], states[n]);
    }
  }

  // ---------------------------------------------------------------- finished jobs

  ghost predicate FinishedKept(before: Table, after: Table) {
    forall id | id in before && id in after && before[id].status.Finished() :: after[id].status == before[id].status
  }

  /** For one step: it leaves the status of every finished job alone exactly when it meets its guard. */
  lemma FinishGuardIsExact(s: State, step: Step, next: State)
    requires Rows(s) && Next(s, step, next)
    ensures FinishedKept(s.jobs, next.jobs) <==> FinishGuard(s.jobs, step)
  {
    if step.Finishes() {
      if TakesEffect(s.jobs, step) {
        assert next.jobs[step.claim.id].status == TargetStatus(step);
      }
    } else {
      forall id | id in s.jobs && id in next.jobs && s.jobs[id].status.Finished()
        ensures next.jobs[id].status == s.jobs[id].status
      {
        if step.Enqueues() {
          NewRowStep(s, step, next, id);
        }
      }
    }
  }

  /** Over a whole run: finished statuses are never left exactly when every finishing call meets its guard. */
  lemma FinishedForeverIffGuarded(states: seq<State>, steps: seq<Step>)
    requires IsRun(states, steps)
    ensures (forall i, j, id | 0 <= i <= j < |states| && id in states[i].jobs && id in states[j].jobs
                               && states[i].jobs[id].status.Finished() ::
               states[j].jobs[id].status == states[i].jobs[id].status) <==>
            (forall i | 0 <= i < |steps| :: FinishGuard(states[i].jobs, steps[i]))
  {
    if forall i | 0 <= i < |steps| :: FinishGuard(states[i].jobs, steps[i]) {
      forall i, j, id | 0 <= i <= j < |states| && id in states[i].jobs && id in states[j].jobs
                        && states[i].jobs[id].status.Finished()
        ensures states[j].jobs[id].status == states[i].jobs[id].status
      {
        InvHolds(states, steps, i);
        StaysFinished(states, steps, id, states[i].jobs[id].status, i, j);
      }
    } else {
      var i :| 0 <= i < |steps| && !FinishGuard(states[i].jobs, steps[i]);
      InvHolds(states, steps, i);
      assert Next(states[i], steps[i], states[i + 1]);
      FinishGuardIsExact(states[i], steps[i], states[i + 1]);
    }
  }

  /** The job's row is gone for good, or still has this finished status. */
  predicate FinishedAs(s: State, id: nat, status: Status) {
    id in s.ids && status.Finished() && (id in s.jobs ==> s.jobs[id].status == status)
  }

  lemma {:induction false} StaysFinished(states: seq<State>, steps: seq<Step>, id: nat, status: Status, i: nat, j: nat)
    requires IsRun(states, steps) && i <= j < |states| && FinishedAs(states[i], id, status)
    requires forall k | i <= k < j :: FinishGuard(states[k].jobs, steps[k])
    ensures FinishedAs(states[j], id, status)
    decreases j
  {
    if i < j {
      StaysFinished(states, steps, id, status, i, j - 1);
      FinishedStep(states, steps, id, status, j - 1);
    }
  }

  lemma FinishedStep(states: seq<State>, steps: seq<Step>, id: nat, status: Status, i: nat)
    requires IsRun(states, steps) && i < |steps| && FinishedAs(states[i], id, status)
    requires FinishGuard(states[i].jobs, steps[i])
    ensures FinishedAs(states[i + 1], id, status)
  {
    InvHolds(states, steps, i);
    assert Next(states[i], steps[i], states[i + 1]);
    KeysStep(states[i], steps[i], states[i + 1]);
    FinishGuardIsExact(states[i], steps[i], states[i + 1]);
  }

  // ---------------------------------------------------------------- how often a job changes status

  lemma RemainingFalls(s: State, step: Step, next: State, id: nat)
    requires Rows(s) && Next(s, step, next) && id in s.jobs && id in next.jobs
    requires AttemptsOk(s.jobs[id]) && AttemptsOk(next.jobs[id]) && FinishedKept(s.jobs, next.jobs)
    ensures Remaining(next.jobs[id]) <= Remaining(s.jobs[id]) - if StatusChanged(s.jobs, next.jobs, id) then 1 else 0
  {
    RowStep(s, step, next, id);
  }

  lemma {:induction false} ChangesAreBounded(states: seq<State>, steps: seq<Step>, id: nat, n: nat)
    requires IsGuardedRun(states, steps) && n < |states| && id in states[n].jobs
    ensures ChangeCount(states, id, n) + Remaining(states[n].jobs[id]) <= 2 * states[n].jobs[id].maxAttempts
  {
    if n > 0 {
      if id in states[n - 1].jobs {
        ChangesAreBounded(states, steps, id, n - 1);
        RemainingFallsAt(states, steps, id, n - 1);
      } else {
        InvHolds(states, steps, n - 1);
        assert Next(states[n - 1], steps[n - 1], states[n]);
        NewRowStep(states[n - 1], steps[n - 1], states[n], id);
        KeysAreUsed(states, steps);
        UnusedIDHasNoHistory(states, steps, id, n - 1);
      }
    }
  }

  lemma RemainingFallsAt(states: seq<State>, steps: seq<Step>, id: nat, i: nat)
    requires IsGuardedRun(states, steps) && i < |steps| && id in states[i].jobs && id in states[i + 1].jobs
    ensures states[i + 1].jobs[id].maxAttempts == states[i].jobs[id].maxAttempts
    ensures Remaining(states[i + 1].jobs[id]) <=
            Remaining(states[i].jobs[id]) - if StatusChanged(states[i].jobs, states[i + 1].jobs, id) then 1 else 0
  {
    InvHolds(states, steps, i);
    assert Next(states[i], steps[i], states[i + 1]);
    GuardedAttemptsOk(states, steps, i);
    GuardedAttemptsOk(states, steps, i + 1);
    FinishGuardIsExact(states[i], steps[i], states[i + 1]);
    RemainingFalls(states[i], steps[i], states[i + 1], id);
    RowStep(states[i], steps[i], states[i + 1], id);
  }

  /** In every guarded run a job changes status at most twice per allowed attempt, and less often before it
      has finished. */
  lemma StatusChangesAreBounded(states: seq<State>, steps: seq<Step>, id: nat, n: nat)
    requires IsGuardedRun(states, steps) && n < |states| && id in states[n].jobs
    ensures var r := states[n].jobs[id];
            && ChangeCount(states, id, n) <= 2 * r.maxAttempts
            && (r.status.Active() ==> ChangeCount(states, id, n) < 2 * r.maxAttempts)
  {
    ChangesAreBounded(states, steps, id, n);
    GuardedAttemptsOk(states, steps, n);
    assert AttemptsOk(states[n].jobs[id]);
  }

  // ---------------------------------------------------------------- holding the claim is enough

  /** Finishing calls of workers that hold their claim, and recovery of unchanged rows, meet both guards. */
  lemma DisciplinedIsGuarded(states: seq<State>, steps: seq<Step>)
    requires IsDisciplinedRun(states, steps)
    ensures IsGuardedRun(states, steps)
  {
    forall i | 0 <= i < |steps|
      ensures AttemptsGuard(states[i].jobs, steps[i]) && FinishGuard(states[i].jobs, steps[i])
    {
      InvHolds(states, steps, i);
      assert Disciplined(states[i], steps[i]);
      DisciplinedStepIsGuarded(states[i], steps[i]);
    }
  }

  lemma DisciplinedStepIsGuarded(s: State, step: Step)
    requires ClaimsBehind(s) && Disciplined(s, step)
    ensures AttemptsGuard(s.jobs, step) && FinishGuard(s.jobs, step)
  {
    if step.Finishes() {
      assert (step.worker, step.claim) in s.issued;
    }
  }

  /** The job's row is gone for good, or is still this finished record. */
  predicate Frozen(s: State, id: nat, r: Record) {
    id in s.ids && r.status.Finished() && (id in s.jobs ==> s.jobs[id] == r)
  }

  lemma FrozenStep(s: State, step: Step, next: State, id: nat, r: Record)
    requires Rows(s) && Next(s, step, next) && Disciplined(s, step) && Frozen(s, id, r)
    ensures Frozen(next, id, r)
  {
    if id in next.jobs && (step.Enqueues() || id !in s.jobs) {
      NewRowStep(s, step, next, id);
    }
  }

  lemma {:induction false} StaysFrozen(states: seq<State>, steps: seq<Step>, id: nat, r: Record, i: nat, j: nat)
    requires IsDisciplinedRun(states, steps) && i <= j < |states| && Frozen(states[i], id, r)
    ensures Frozen(states[j], id, r)
    decreases j
  {
    if i < j {
      StaysFrozen(states, steps, id, r, i, j - 1);
      InvHolds(states, steps, j - 1);
      assert Next(states[j - 1], steps[j - 1], states[j]) && Disciplined(states[j - 1], steps[j - 1]);
      FrozenStep(states[j - 1], steps[j - 1], states[j], id, r);
    }
  }

  /** When finishers hold their claims, a finished row never changes again in any column, for as long as it
      is kept. */
  lemma FinishedForever(states: seq<State>, steps: seq<Step>, id: nat, i: nat, j: nat)
    requires IsDisciplinedRun(states, steps) && i <= j < |states|
    requires id in states[i].jobs && states[i].jobs[id].status.Finished() && id in states[j].jobs
    ensures states[j].jobs[id] == states[i].jobs[id]
  {
    InvHolds(states, steps, i);
    StaysFrozen(states, steps, id, states[i].jobs[id], i, j);
  }

  // ---------------------------------------------------------------- singletons

  /** In every state of every run a non-empty singleton key has at most one queued or running job. */
  lemma OneActivePerKey(states: seq<State>, steps: seq<Step>, n: nat, a: nat, b: nat)
    requires IsRun(states, steps) && n < |states|
    requires a in states[n].jobs && b in states[n].jobs
    requires states[n].jobs[a].singletonKey == states[n].jobs[b].singletonKey != ""
    requires states[n].jobs[a].status.Active() && states[n].jobs[b].status.Active()
    ensures a == b
  {
    InvHolds(states, steps, n);
    assert !Clash(states[n].jobs, a, b);
  }

  /** The index never stands in the way of a worker that reports a failure of the job it runs: in any run a
      retry of an active job takes effect. */
  lemma RunningJobCanBeRetried(
    states: seq<State>, steps: seq<Step>, n: nat, job: Record, code: string, message: string, delay: int, now: int)
    requires IsRun(states, steps) && n < |states|
    requires job.id in states[n].jobs && states[n].jobs[job.id].status.Active() && job.attempts < job.maxAttempts
    ensures var after := FailOrRetry(states[n].jobs, job, code, message, true, delay, now);
            after[job.id].status == Queued && after[job.id].runAt == now + delay
  {
    forall k | k in states[n].jobs && k != job.id
      ensures !(states[n].jobs[k].singletonKey == states[n].jobs[job.id].singletonKey != ""
                && states[n].jobs[k].status.Active())
    {
      if states[n].jobs[k].singletonKey == states[n].jobs[job.id].singletonKey != ""
         && states[n].jobs[k].status.Active() {
        OneActivePerKey(states, steps, n, k, job.id);
      }
    }
  }

  // ---------------------------------------------------------------- claims

  /** The only steps that put a job back in the queue. */
  predicate PutsBack(step: Step, id: nat) {
    || (step.FailOrRetryStep? && step.claim.id == id && StatusAfterFailure(step.claim, step.retryable) == Queued)
    || (step.RecoverStep? && step.seen.id == id && step.seen.attempts < step.seen.maxAttempts)
  }

  /** The job was not queued before and is now. */
  predicate Requeued(s: State, next: State, id: nat) {
    id in s.jobs && s.jobs[id].status != Queued && id in next.jobs && next.jobs[id].status == Queued
  }

  /** What a step of any run does to a job that is not queued. */
  lemma NotQueuedStep(s: State, step: Step, next: State, id: nat)
    requires Next(s, step, next) && s.jobs.Keys <= s.ids && id in s.jobs && s.jobs[id].status != Queued
    ensures next.jobs.Keys <= next.ids
    ensures id !in next.jobs || next.jobs[id].status != Queued || PutsBack(step, id)
  {
  }

  lemma KeysStep(s: State, step: Step, next: State)
    requires Next(s, step, next) && s.jobs.Keys <= s.ids
    ensures next.jobs.Keys <= next.ids && s.ids <= next.ids
    ensures forall id | id in s.ids && id !in s.jobs :: id !in next.jobs
  {
    forall id | id in next.jobs && id !in s.jobs ensures id in next.ids && id !in s.ids {
      match step
      case EnqueueStep(_, _, _) =>
      case EnqueueSingletonStep(_, _, _) =>
      case _ =>
    }
  }

  lemma {:induction false} KeysInAnyRun(states: seq<State>, steps: seq<Step>, n: nat)
    requires IsRun(states, steps) && n < |states|
    ensures states[n].jobs.Keys <= states[n].ids
  {
    if n > 0 {
      KeysInAnyRun(states, steps, n - 1);
      assert Next(states[n - 1], steps[n - 1], states[n]);
      KeysStep(states[n - 1], steps[n - 1], states[n]);
    }
  }

  /** A job that is not queued at one state and queued at a later one was requeued in between. */
  lemma {:induction false} RequeuedBetween(states: seq<State>, steps: seq<Step>, id: nat, i: nat, j: nat)
    returns (k: nat)
    requires IsRun(states, steps) && i <= j < |states|
    requires id in states[i].ids && (id in states[i].jobs ==> states[i].jobs[id].status != Queued)
    requires id in states[j].jobs && states[j].jobs[id].status == Queued
    ensures i <= k < j && PutsBack(steps[k], id) && Requeued(states[k], states[k + 1], id)
    decreases j - i
  {
    assert i != j;
    var s, step, next := states[i], steps[i], states[i + 1];
    assert Next(s, step, next);
    KeysInAnyRun(states, steps, i);
    KeysStep(s, step, next);
    if id in s.jobs {
      NotQueuedStep(s, step, next, id);
    }
    if Requeued(s, next, id) {
      k := i;
    } else {
      k := RequeuedBetween(states, steps, id, i + 1, j);
    }
  }

  /** However workers, readers and recovery interleave, two claims of one job are always separated by a
      requeue of that job: no two workers are ever given the same attempt. */
  lemma ClaimsAreSeparated(states: seq<State>, steps: seq<Step>, id: nat, i: nat, j: nat) returns (k: nat)
    requires IsRun(states, steps) && i < j < |steps|
    requires Claims(states[i], steps[i], id) && Claims(states[j], steps[j], id)
    ensures i < k < j && PutsBack(steps[k], id) && Requeued(states[k], states[k + 1], id)
  {
    assert Next(states[i], steps[i], states[i + 1]);
    KeysInAnyRun(states, steps, i);
    KeysStep(states[i], steps[i], states[i + 1]);
    k := RequeuedBetween(states, steps, id, i + 1, j);
  }

  /** A claim hands the worker a claim it holds. */
  lemma ClaimIsHeld(states: seq<State>, steps: seq<Step>, i: nat)
    requires IsRun(states, steps) && i < |steps| && steps[i].ClaimStep? && Claims(states[i], steps[i], steps[i].id)
    requires states[i].jobs[steps[i].id].id == steps[i].id
    ensures Holds(states[i + 1], steps[i].worker, states[i + 1].jobs[steps[i].id])
  {
    assert Next(states[i], steps[i], states[i + 1]);
  }

  /** A finishing call for the job, from whoever, or its recovery. */
  predicate EndsClaim(step: Step, id: nat) {
    || (step.Finishes() && step.claim.id == id && !(step.CompleteStep? && step.output.Unencodable?))
    || (step.RecoverStep? && step.seen.id == id)
  }

  lemma ClaimStep(s: State, step: Step, next: State, worker: string, claim: Record)
    requires Inv(s) && Next(s, step, next) && Holds(s, worker, claim)
    ensures Holds(next, worker, claim) <==> !EndsClaim(step, claim.id)
  {
    HeldKeyIsFree(s, worker, claim);
    if step.Finishes() || step.RecoverStep? {
      EndingStep(s, step, next, worker, claim);
    } else {
      OtherStepKeepsClaim(s, step, next, worker, claim);
    }
  }

  /** A held job is active, so no other active job has its key. */
  lemma HeldKeyIsFree(s: State, worker: string, claim: Record)
    requires Inv(s) && Holds(s, worker, claim)
    ensures claim.id in s.jobs && !KeyTakenByOther(s.jobs, claim.id)
  {
    if KeyTakenByOther(s.jobs, claim.id) {
      var k :| k in s.jobs && k != claim.id && s.jobs[k].singletonKey == s.jobs[claim.id].singletonKey
          && s.jobs[k].status.Active();
      assert Clash(s.jobs, claim.id, k);
    }
  }

  lemma EndingStep(s: State, step: Step, next: State, worker: string, claim: Record)
    requires Inv(s) && Next(s, step, next) && Holds(s, worker, claim) && (step.Finishes() || step.RecoverStep?)
    requires claim.id in s.jobs && !KeyTakenByOther(s.jobs, claim.id)
    ensures Holds(next, worker, claim) <==> !EndsClaim(step, claim.id)
  {
  }

  lemma OtherStepKeepsClaim(s: State, step: Step, next: State, worker: string, claim: Record)
    requires Inv(s) && Next(s, step, next) && Holds(s, worker, claim) && !step.Finishes() && !step.RecoverStep?
    ensures Holds(next, worker, claim)
  {
  }

  /** In every run a worker keeps its claim exactly until the job is finished or recovered: nothing else
      takes it away. */
  lemma ClaimEndsOnlyByFinishOrRecovery(states: seq<State>, steps: seq<Step>, i: nat, worker: string, claim: Record)
    requires IsRun(states, steps) && i < |steps| && Holds(states[i], worker, claim)
    ensures Holds(states[i + 1], worker, claim) <==> !EndsClaim(steps[i], claim.id)
  {
    InvHolds(states, steps, i);
    assert Next(states[i], steps[i], states[i + 1]);
    ClaimStep(states[i], steps[i], states[i + 1], worker, claim);
  }

  /** In every run, of all the claims ever handed out for a job, at most one is held. */
  lemma OneHolder(states: seq<State>, steps: seq<Step>, n: nat, v: string, a: Record, w: string, b: Record)
    requires IsRun(states, steps) && n < |states|
    requires Holds(states[n], v, a) && Holds(states[n], w, b) && a.id == b.id
    ensures v == w && a == b
  {
    InvHolds(states, steps, n);
    assert (v, a) in states[n].issued && (w, b) in states[n].issued;
  }
}
