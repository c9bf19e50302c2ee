/** The job queue as a protocol: any number of workers, whose reads and conditional updates are separate
    steps, interleaved with enqueues, recovery, cancellation and pruning. */
module JobRuns {
  import opened Wrappers
  import opened Jobs

  /** `issued` holds every claim handed to a worker so far, `ids` every identifier ever used. */
  datatype State = State(jobs: Table, issued: set<(string, Record)>, ids: set<nat>)

  datatype Step =
    | EnqueueStep(input: EnqueueInput, id: nat, now: int)
    | EnqueueSingletonStep(input: EnqueueInput, id: nat, now: int)
    | ClaimStep(worker: string, id: nat, now: int, lease: int)
    | CompleteStep(worker: string, claim: Record, output: Payload, now: int)
    | FailOrRetryStep(worker: string, claim: Record, code: string, message: string, retryable: bool, delay: int,
                      now: int)
    | MarkCancelledStep(worker: string, claim: Record, now: int)
    | HeartbeatStep(worker: string, id: nat, lease: int, now: int)
    | RecoverStep(seen: Record, now: int)
    | CancelSingletonStep(key: string, now: int)
    | CancelOwnedStep(org: int, workspace: int, account: int, id: nat, now: int)
    | PruneStep(pruned: set<nat>)
  {
    predicate Enqueues() { EnqueueStep? || EnqueueSingletonStep? }

    /** A call that ends a claim, whatever the row looks like by then. */
    predicate Finishes() { CompleteStep? || FailOrRetryStep? || MarkCancelledStep? }
  }

  function After(jobs: Table, step: Step): Table {
    match step
    case EnqueueStep(input, id, now) =>
      var t := EnqueuePlain(jobs, input, id, now); if t.Success? then t.value else jobs
    case EnqueueSingletonStep(input, id, now) =>
      var t := EnqueueSingleton(jobs, input, id, now); if t.Success? then t.value else jobs
    case ClaimStep(worker, id, now, lease) => Claim(jobs, id, worker, now, lease)
    case CompleteStep(_, claim, output, now) => Complete(jobs, claim.id, output, now)
    case FailOrRetryStep(_, claim, code, message, retryable, delay, now) =>
      FailOrRetry(jobs, claim, code, message, retryable, delay, now)
    case MarkCancelledStep(_, claim, now) => MarkCancelled(jobs, claim.id, now)
    case HeartbeatStep(worker, id, lease, now) => Heartbeat(jobs, id, worker, lease, now)
    case RecoverStep(seen, now) => Recover(jobs, seen, now)
    case CancelSingletonStep(key, now) => CancelSingleton(jobs, key, now)
    case CancelOwnedStep(org, workspace, account, id, now) => CancelOwned(jobs, org, workspace, account, id, now)
    case PruneStep(pruned) => jobs - pruned
  }

  /** A claim step that hits a queued row; the worker gets the updated row. */
  predicate Claims(s: State, step: Step, id: nat) {
    step.ClaimStep? && step.id == id && id in s.jobs && s.jobs[id].status == Queued
  }

  function Issued(s: State, step: Step): set<(string, Record)> {
    if step.ClaimStep? && Claims(s, step, step.id) then
      s.issued + {(step.worker, ClaimedRow(s.jobs[step.id], step.worker, step.now, step.lease))}
    else s.issued
  }

  ghost predicate Next(s: State, step: Step, next: State) {
    && (step.Enqueues() ==> step.id !in s.ids)
    && (step.PruneStep? ==> forall id | id in step.pruned && id in s.jobs :: s.jobs[id].status.Finished())
    && next == State(After(s.jobs, step), Issued(s, step), if step.Enqueues() then s.ids + {step.id} else s.ids)
  }

  ghost predicate IsRun(states: seq<State>, steps: seq<Step>) {
    && |states| == |steps| + 1
    && states[0] == State(map[], {}, {})
    && forall i | 0 <= i < |steps| :: Next(states[i], steps[i], states[i + 1])
  }

  ghost predicate Reaches(run: seq<State>, steps: seq<Step>, s: State) {
    IsRun(run, steps) && run[|run| - 1] == s
  }

  lemma RunOneMore(run: seq<State>, steps: seq<Step>, s: State, step: Step, t: State)
    requires Reaches(run, steps, s) && Next(s, step, t)
    ensures Reaches(run + [t], steps + [step], t)
  {
  }

  /** The worker still holds the claim it was given. */
  predicate Holds(s: State, worker: string, claim: Record) {
    && (worker, claim) in s.issued && claim.id in s.jobs
    && s.jobs[claim.id].status == Running && s.jobs[claim.id].claimedBy == Some(worker)
    && s.jobs[claim.id].attempts == claim.attempts
  }

  // ---------------------------------------------------------------- what callers must see to

  /** Attempts stay within bounds: a retry or a recovery may put a row back in the queue only while the
      row, not the record the caller read, has an attempt left. */
  predicate AttemptsGuard(jobs: Table, step: Step) {
    match step
    case FailOrRetryStep(_, claim, _, _, retryable, _, _) =>
      Requeues(jobs, claim, retryable) ==> jobs[claim.id].attempts < jobs[claim.id].maxAttempts
    case RecoverStep(seen, _) =>
      seen.id in jobs && jobs[seen.id].status == Running && seen.attempts < seen.maxAttempts ==>
        jobs[seen.id].attempts < jobs[seen.id].maxAttempts
    case _ => true
  }

  /** The status a finishing call writes. */
  function TargetStatus(step: Step): Status
    requires step.Finishes()
  {
    match step
    case CompleteStep(_, _, _, _) => Succeeded
    case FailOrRetryStep(_, claim, _, _, retryable, _, _) => StatusAfterFailure(claim, retryable)
    case MarkCancelledStep(_, _, _) => Cancelled
  }

  /** The finishing call reaches its job's row. */
  predicate TakesEffect(jobs: Table, step: Step)
    requires step.Finishes()
  {
    && step.claim.id in jobs && !(step.CompleteStep? && step.output.Unencodable?)
    && !(TargetStatus(step) == Queued && KeyTakenByOther(jobs, step.claim.id))
  }

  /** Finished statuses are never left: a finishing call finds its row still active, or with the status
      it is about to write. */
  predicate FinishGuard(jobs: Table, step: Step) {
    step.Finishes() && TakesEffect(jobs, step) ==>
      jobs[step.claim.id].status.Active() || jobs[step.claim.id].status == TargetStatus(step)
  }

  ghost predicate IsGuardedRun(states: seq<State>, steps: seq<Step>) {
    && IsRun(states, steps)
    && forall i | 0 <= i < |steps| :: AttemptsGuard(states[i].jobs, steps[i]) && FinishGuard(states[i].jobs, steps[i])
  }

  /** One way to meet both guards: finishing calls come from the worker still holding the claim, and
      recovery updates rows that have not changed since it read them as expired. */
  predicate Disciplined(s: State, step: Step) {
    && (step.Finishes() ==> Holds(s, step.worker, step.claim))
    && (step.RecoverStep? ==>
          step.seen.id in s.jobs && s.jobs[step.seen.id] == step.seen && Expired(step.seen, step.now))
  }

  ghost predicate IsDisciplinedRun(states: seq<State>, steps: seq<Step>) {
    IsRun(states, steps) && forall i | 0 <= i < |steps| :: Disciplined(states[i], steps[i])
  }

  // ---------------------------------------------------------------- the invariant of any run

  predicate RowShape(r: Record) {
    && 1 <= r.maxAttempts && 0 <= r.attempts
    && match r.status
       case Queued => r.claimedBy.None? && r.finishedAt.None?
       case Running => 1 <= r.attempts && r.claimedBy.Some? && r.claimedUntil.Some? && r.finishedAt.None?
       case _ => r.claimedBy.None? && r.finishedAt.Some?
  }

  /** The bound on attempts, with one left for a queued row. */
  predicate AttemptsOk(r: Record) {
    r.attempts <= r.maxAttempts && (r.status == Queued ==> r.attempts < r.maxAttempts)
  }

  ghost predicate AllAttemptsOk(jobs: Table) {
    forall id | id in jobs :: AttemptsOk(jobs[id])
  }

  ghost predicate Rows(s: State) {
    forall id | id in s.jobs :: s.jobs[id].id == id && id in s.ids && RowShape(s.jobs[id])
  }

  /** No claim is ahead of its row. */
  ghost predicate ClaimsBehind(s: State) {
    forall c | c in s.issued ::
      && c.1.id in s.ids
      && (c.1.id in s.jobs ==>
            c.1.maxAttempts == s.jobs[c.1.id].maxAttempts && c.1.attempts <= s.jobs[c.1.id].attempts)
  }

  /** No attempt of a job was ever handed out twice. */
  ghost predicate ClaimsDistinct(s: State) {
    forall c, e | c in s.issued && e in s.issued && c.1.id == e.1.id && c.1.attempts == e.1.attempts :: c == e
  }

  /** Two rows compete for one singleton key. */
  predicate Clash(jobs: Table, a: nat, b: nat) {
    && a in jobs && b in jobs && a != b && jobs[a].singletonKey == jobs[b].singletonKey != ""
    && jobs[a].status.Active() && jobs[b].status.Active()
  }

  ghost predicate NoClash(jobs: Table) {
    forall a, b :: !Clash(jobs, a, b)
  }

  ghost predicate Inv(s: State) {
    Rows(s) && ClaimsBehind(s) && ClaimsDistinct(s) && NoClash(s.jobs)
  }

  lemma NewRowStep(s: State, step: Step, next: State, id: nat)
    requires Rows(s) && Next(s, step, next) && id in next.jobs
    requires step.Enqueues() || id !in s.jobs
    ensures if id in s.jobs then next.jobs[id] == s.jobs[id]
            else
              && step.Enqueues() && step.id == id && id !in s.ids && next.jobs[id].id == id
              && RowShape(next.jobs[id]) && AttemptsOk(next.jobs[id])
              && next.jobs[id].status == Queued && next.jobs[id].attempts == 0
  {
  }

  /** What a step of any run may do to a row that stays in the table. */
  lemma RowStep(s: State, step: Step, next: State, id: nat)
    requires Rows(s) && Next(s, step, next) && id in s.jobs && id in next.jobs
    ensures next.jobs[id].id == id && RowShape(next.jobs[id])
    ensures next.jobs[id].singletonKey == s.jobs[id].singletonKey && next.jobs[id].maxAttempts == s.jobs[id].maxAttempts
    ensures next.jobs[id].attempts == s.jobs[id].attempts + if Claims(s, step, id) then 1 else 0
    ensures s.jobs[id].status.Finished() && next.jobs[id].status.Active() ==>
              step.FailOrRetryStep? && step.claim.id == id && !KeyTakenByOther(s.jobs, id)
  {
    if step.Enqueues() {
      NewRowStep(s, step, next, id);
    }
  }

  lemma RowsStep(s: State, step: Step, next: State)
    requires Rows(s) && Next(s, step, next)
    ensures Rows(next)
  {
    forall id | id in next.jobs ensures next.jobs[id].id == id && id in next.ids && RowShape(next.jobs[id]) {
      if id in s.jobs {
        RowStep(s, step, next, id);
      } else {
        NewRowStep(s, step, next, id);
      }
    }
  }

  lemma ClaimsBehindStep(s: State, step: Step, next: State)
    requires Rows(s) && ClaimsBehind(s) && Next(s, step, next)
    ensures ClaimsBehind(next)
  {
    forall c | c in next.issued
      ensures c.1.id in next.ids
      ensures c.1.id in next.jobs ==>
                c.1.maxAttempts == next.jobs[c.1.id].maxAttempts && c.1.attempts <= next.jobs[c.1.id].attempts
    {
      if c.1.id in next.jobs {
        if c.1.id in s.jobs {
          RowStep(s, step, next, c.1.id);
        } else {
          NewRowStep(s, step, next, c.1.id);
        }
      }
    }
  }

  lemma ClaimsDistinctStep(s: State, step: Step, next: State)
    requires Rows(s) && ClaimsBehind(s) && ClaimsDistinct(s) && Next(s, step, next)
    ensures ClaimsDistinct(next)
  {
  }

  lemma ClashStep(s: State, step: Step, next: State, a: nat, b: nat)
    requires Rows(s) && NoClash(s.jobs) && Next(s, step, next) && a in s.jobs && b in s.jobs
    ensures !Clash(next.jobs, a, b)
  {
    assert !Clash(s.jobs, a, b);
    if a in next.jobs && b in next.jobs {
      RowStep(s, step, next, a);
      RowStep(s, step, next, b);
    }
  }

  lemma NoClashStep(s: State, step: Step, next: State)
    requires Rows(s) && NoClash(s.jobs) && Next(s, step, next)
    ensures NoClash(next.jobs)
  {
    forall a, b ensures !Clash(next.jobs, a, b) {
      if a in s.jobs && b in s.jobs {
        ClashStep(s, step, next, a, b);
      } else if a in next.jobs && b in next.jobs && a != b {
        InsertMeetsNoActive(s, step, next, a, b);
      }
    }
  }

  lemma InsertMeetsNoActive(s: State, step: Step, next: State, a: nat, b: nat)
    requires Rows(s) && Next(s, step, next) && a in next.jobs && b in next.jobs && a != b
    requires a !in s.jobs || b !in s.jobs
    ensures !Clash(next.jobs, a, b)
  {
    NewRowStep(s, step, next, if a !in s.jobs then a else b);
    NewRowStep(s, step, next, if a !in s.jobs then b else a);
  }

  lemma InvStep(s: State, step: Step, next: State)
    requires Inv(s) && Next(s, step, next)
    ensures Inv(next)
  {
    RowsStep(s, step, next);
    ClaimsBehindStep(s, step, next);
    ClaimsDistinctStep(s, step, next);
    NoClashStep(s, step, next);
  }

  lemma {:induction false} InvHolds(states: seq<State>, steps: seq<Step>, i: nat)
    requires IsRun(states, steps) && i < |states|
    ensures Inv(states[i])
  {
    if i > 0 {
      InvHolds(states, steps, i - 1);
      InvStep(states[i - 1], steps[i - 1], states[i]);
    }
  }
}
