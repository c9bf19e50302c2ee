/** Runs of the job queue from the empty table in which a caller misses its guard: a worker that lost its
    claim reports late, and a recovery updates a row it read too early. */
module LostClaims {
  import opened Wrappers
  import opened Text
  import opened Jobs
  import opened JobRuns

  const W1 := "worker-1"
  const W2 := "worker-2"
  const W3 := "worker-3"

  /** A job with two attempts. */
  const INPUT := EnqueueInput("export", "", USER, Some(1), Some(1), Some(1), Some(0), 0, 2, Encoded(""))
  const NEW := Record(0, "export", "", USER, Queued, Some(1), Some(1), Some(1), 0, 0, 0, 2,
                      None, None, None, None, None, "", "", "", "", 0, 0)

  /** Claimed by the first worker, lapsed and recovered, then claimed by the second. */
  const FIRST_CLAIM := ClaimedRow(NEW, W1, 1, 4)
  const RECOVERED := RecoveredRow(FIRST_CLAIM, FIRST_CLAIM, 6)
  const SECOND_CLAIM := ClaimedRow(RECOVERED, W2, 7, 4)

  const BOTH_CLAIMS := {(W1, FIRST_CLAIM), (W2, SECOND_CLAIM)}

  /** After four steps the second worker runs the job on its last attempt. */
  lemma ClaimTwice() returns (run: seq<State>, steps: seq<Step>)
    ensures Reaches(run, steps, State(map[0 := SECOND_CLAIM], BOTH_CLAIMS, {0})) && |steps| == 4
    ensures run[2].jobs == map[0 := FIRST_CLAIM] && Expired(FIRST_CLAIM, 6)
  {
    var s0, s1 := State(map[], {}, {}), State(map[0 := NEW], {}, {0});
    var s2, s3 := State(map[0 := FIRST_CLAIM], {(W1, FIRST_CLAIM)}, {0}),
        State(map[0 := RECOVERED], {(W1, FIRST_CLAIM)}, {0});
    assert NewRecord(INPUT, 0, 0) == Success(NEW);
    RunOneMore([s0], [], s0, EnqueueStep(INPUT, 0, 0), s1);
    RunOneMore([s0, s1], [EnqueueStep(INPUT, 0, 0)], s1, ClaimStep(W1, 0, 1, 4), s2);
    run, steps := [s0, s1, s2], [EnqueueStep(INPUT, 0, 0), ClaimStep(W1, 0, 1, 4)];
    assert run == [s0, s1] + [s2] && steps == [EnqueueStep(INPUT, 0, 0)] + [ClaimStep(W1, 0, 1, 4)];
    RunOneMore(run, steps, s2, RecoverStep(FIRST_CLAIM, 6), s3);
    run, steps := run + [s3], steps + [RecoverStep(FIRST_CLAIM, 6)];
    var s4 := State(map[0 := SECOND_CLAIM], BOTH_CLAIMS, {0});
    RunOneMore(run, steps, s3, ClaimStep(W2, 0, 7, 4), s4);
    run, steps := run + [s4], steps + [ClaimStep(W2, 0, 7, 4)];
  }

  /** The first worker's report, made with a claim it was given and has lost. */
  const LATE_FAILURE := FailOrRetryStep(W1, FIRST_CLAIM, "lost", "Claim lost.", true, 1, 9)

  /** The second worker finishes the job; the first one's late report puts it back in the queue. */
  lemma LateFailureReopensFinishedJob() returns (run: seq<State>, steps: seq<Step>)
    ensures IsRun(run, steps) && |steps| == 6 && steps[5] == LATE_FAILURE
    ensures (W1, FIRST_CLAIM) in run[5].issued && !Holds(run[5], W1, FIRST_CLAIM)
    ensures 0 in run[5].jobs && run[5].jobs[0].status == Succeeded
    ensures 0 in run[6].jobs && run[6].jobs[0].status == Queued
    ensures !FinishGuard(run[5].jobs, steps[5])
  {
    run, steps := ClaimTwice();
    var s := State(map[0 := SECOND_CLAIM], BOTH_CLAIMS, {0});
    var done := CompleteStep(W2, SECOND_CLAIM, Encoded(""), 8);
    var s5 := State(Complete(s.jobs, 0, Encoded(""), 8), BOTH_CLAIMS, {0});
    RunOneMore(run, steps, s, done, s5);
    run, steps := run + [s5], steps + [done];
    var s6 := State(After(s5.jobs, LATE_FAILURE), BOTH_CLAIMS, {0});
    RunOneMore(run, steps, s5, LATE_FAILURE, s6);
    run, steps := run + [s6], steps + [LATE_FAILURE];
  }

  /** The second worker is still running the job: the late report queues it with no attempt left, and the
      next claim makes a third attempt of two. */
  lemma LateFailureQueuesExhaustedJob() returns (run: seq<State>, steps: seq<Step>)
    ensures IsRun(run, steps) && |steps| == 6 && steps[4] == LATE_FAILURE
    ensures (W1, FIRST_CLAIM) in run[4].issued && Holds(run[4], W2, SECOND_CLAIM)
    ensures AllAttemptsOk(run[4].jobs) && !AttemptsGuard(run[4].jobs, steps[4]) && FinishGuard(run[4].jobs, steps[4])
    ensures 0 in run[6].jobs && run[6].jobs[0].attempts == 3 && run[6].jobs[0].maxAttempts == 2
  {
    run, steps := ClaimTwice();
    var s := State(map[0 := SECOND_CLAIM], BOTH_CLAIMS, {0});
    run, steps := ThirdAttempt(run, steps, s, LATE_FAILURE);
  }

  /** A recovery that read the row at the first worker's expired claim updates it only now. */
  const STALE_RECOVERY := RecoverStep(FIRST_CLAIM, 9)

  lemma StaleRecoveryQueuesExhaustedJob() returns (run: seq<State>, steps: seq<Step>)
    ensures IsRun(run, steps) && |steps| == 6 && steps[4] == STALE_RECOVERY
    ensures run[2].jobs == map[0 := FIRST_CLAIM] && Expired(FIRST_CLAIM, 6) && Holds(run[4], W2, SECOND_CLAIM)
    ensures AllAttemptsOk(run[4].jobs) && !AttemptsGuard(run[4].jobs, steps[4]) && !Expired(SECOND_CLAIM, 9)
    ensures 0 in run[6].jobs && run[6].jobs[0].attempts == 3 && run[6].jobs[0].maxAttempts == 2
  {
    run, steps := ClaimTwice();
    var s := State(map[0 := SECOND_CLAIM], BOTH_CLAIMS, {0});
    run, steps := ThirdAttempt(run, steps, s, STALE_RECOVERY);
  }

  /** A step that puts the row back, and the claim after it. */
  lemma ThirdAttempt(run: seq<State>, steps: seq<Step>, s: State, step: Step)
    returns (run': seq<State>, steps': seq<Step>)
    requires Reaches(run, steps, s) && s == State(map[0 := SECOND_CLAIM], BOTH_CLAIMS, {0})
    requires step == LATE_FAILURE || step == STALE_RECOVERY
    ensures IsRun(run', steps') && |run'| == |run| + 2 && run'[..|run|] == run
    ensures steps'[..|steps| + 1] == steps + [step]
    ensures 0 in run'[|run| + 1].jobs && run'[|run| + 1].jobs[0].attempts == 3
    ensures run'[|run| + 1].jobs[0].maxAttempts == 2
  {
    var s5 := State(After(s.jobs, step), BOTH_CLAIMS, {0});
    RunOneMore(run, steps, s, step, s5);
    run', steps' := run + [s5], steps + [step];
    assert s5.jobs[0].status == Queued && s5.jobs[0].attempts == 2;
    var claim := ClaimStep(W3, 0, 10, 4);
    var s6 := State(Claim(s5.jobs, 0, W3, 10, 4), Issued(s5, claim), {0});
    RunOneMore(run', steps', s5, claim, s6);
    run', steps' := run' + [s6], steps' + [claim];
  }
}
