/** The job store's methods over the jobs table, each proved to be the statement in `Jobs` it runs. */
module JobStores {
  import opened Wrappers
  import opened Text
  import opened Query
  import J = Jobs

  class JobStore {
    var jobs: J.Table

    /** Rows sit under their own id, the table's primary key. */
    ghost predicate Valid()
      reads this
    {
      forall id | id in jobs :: jobs[id].id == id
    }

    method Enqueue(input: J.EnqueueInput, id: nat, now: int) returns (result: Result<J.Record, J.Error>)
      requires Valid()
      modifies this
      ensures Valid()
      ensures match J.EnqueuePlain(old(jobs), input, id, now)
              case Success(t) => jobs == t && id in jobs && result == Success(jobs[id])
              case Failure(e) => jobs == old(jobs) && result == Failure(e)
      ensures result.Success? <==>
                TrimSpace(input.singletonKey) == "" && J.Acceptable(input) && id !in old(jobs)
      ensures result.Success? ==> jobs == old(jobs)[id := result.value] && J.Asked(result.value, input, now)
    {
      J.NewRecordMeans(input, id, now);
      if TrimSpace(input.singletonKey) != "" {
        return Failure(J.InvalidScope);
      }
      var job := J.NewRecord(input, id, now);
      if job.Failure? {
        return job;
      }
      result := InsertRow(job.value);
    }

    method EnqueueSingleton(input: J.EnqueueInput, id: nat, now: int)
      returns (result: Result<J.Record, J.Error>, created: bool)
      requires Valid()
      modifies this
      ensures Valid() && created == result.Success?
      ensures match J.EnqueueSingleton(old(jobs), input, id, now)
              case Success(t) => jobs == t && id in jobs && result == Success(jobs[id])
              case Failure(e) => jobs == old(jobs) && result == Failure(e)
      ensures created ==> jobs == old(jobs)[id := result.value] && J.Asked(result.value, input, now)
      ensures created ==>
                !exists k | k in old(jobs) ::
                  && old(jobs)[k].singletonKey == TrimSpace(input.singletonKey)
                  && old(jobs)[k].status in {J.Queued, J.Running}
      ensures result == Failure(J.ActiveExists) <==>
                && TrimSpace(input.singletonKey) != "" && J.Acceptable(input)
                && (id in old(jobs)
                    || exists k | k in old(jobs) ::
                         && old(jobs)[k].singletonKey == TrimSpace(input.singletonKey)
                         && old(jobs)[k].status in {J.Queued, J.Running})
      ensures result.Failure? && result.error != J.ActiveExists <==>
                TrimSpace(input.singletonKey) == "" || !J.Acceptable(input)
    {
      J.NewRecordMeans(input, id, now);
      if TrimSpace(input.singletonKey) == "" {
        return Failure(J.InvalidScope), false;
      }
      var job := J.NewRecord(input, id, now);
      if job.Failure? {
        return job, false;
      }
      var inserted := InsertRow(job.value);
      if inserted.Failure? {
        return Failure(J.ActiveExists), false;
      }
      return inserted, true;
    }

    method InsertRow(r: J.Record) returns (result: Result<J.Record, J.Error>)
      requires Valid()
      modifies this
      ensures Valid()
      ensures match J.Insert(old(jobs), r)
              case Success(t) => jobs == t && result == Success(r)
              case Failure(e) => jobs == old(jobs) && result == Failure(e)
    {
      if r.id in jobs || J.KeyTaken(jobs, r.singletonKey) {
        return Failure(J.UniqueViolation);
      }
      jobs := jobs[r.id := r];
      return Success(r);
    }

    /** Run without interruption, it claims the first due row, and nothing only when no row is due. */
    method ClaimDue(worker: string, now: int, lease: int) returns (claimed: Option<J.Record>)
      requires Valid()
      modifies this
      ensures Valid()
      ensures claimed.None? ==>
                jobs == old(jobs) && forall k | k in jobs && jobs[k].status == J.Queued :: now < jobs[k].runAt
      ensures claimed.Some? ==>
                var id := claimed.value.id;
                && id in old(jobs) && old(jobs)[id].status == J.Queued && old(jobs)[id].runAt <= now
                && (forall k | k in old(jobs) && k != id
                               && old(jobs)[k].status == J.Queued && old(jobs)[k].runAt <= now ::
                      var first, other := old(jobs)[id], old(jobs)[k];
                      && first.priority >= other.priority
                      && (first.priority == other.priority ==>
                            && first.runAt <= other.runAt
                            && (first.runAt == other.runAt ==>
                                  && first.createdAt <= other.createdAt
                                  && (first.createdAt == other.createdAt ==> id < k))))
                && jobs == J.Claim(old(jobs), id, worker, now, lease) && claimed.value == jobs[id]
                && LeasedUntil(jobs, id, now + lease)
    {
      DueOrders(J.DueRows(jobs, now));
      var candidates := OrderBy(J.DueRows(jobs, now), J.Before, 5);
      if |candidates| > 0 {
        FirstCandidate(jobs, now, candidates);
        LeaseStarts(jobs, candidates[0].id, worker, now, lease);
      } else {
        NothingDue(jobs, now);
      }
      ghost var at;
      claimed, at := ClaimFirst(candidates, worker, now, lease);
      assert claimed.Some? ==> at == 0;
      assert claimed.None? ==> |candidates| == 0;
    }

    /** The claiming loop over candidates that may have been read earlier: it claims the first one
        whose row is still queued. */
    method ClaimFirst(candidates: seq<J.Record>, worker: string, now: int, lease: int)
      returns (claimed: Option<J.Record>, ghost at: nat)
      requires Valid()
      modifies this
      ensures Valid() && at <= |candidates|
      ensures forall k | 0 <= k < at ::
                !(candidates[k].id in old(jobs) && old(jobs)[candidates[k].id].status == J.Queued)
      ensures claimed.None? ==> at == |candidates| && jobs == old(jobs)
      ensures claimed.Some? ==>
                && at < |candidates| && candidates[at].id in old(jobs)
                && old(jobs)[candidates[at].id].status == J.Queued
                && jobs == J.Claim(old(jobs), candidates[at].id, worker, now, lease)
                && claimed.value == jobs[candidates[at].id]
    {
      var i := 0;
      while i < |candidates|
        invariant i <= |candidates| && jobs == old(jobs)
        invariant forall k | 0 <= k < i :: !(candidates[k].id in jobs && jobs[candidates[k].id].status == J.Queued)
      {
        var id := candidates[i].id;
        var affected := TryClaim(id, worker, now, lease);
        if affected {
          return Some(jobs[id]), i;
        }
        i := i + 1;
      }
      return None, i;
    }

    method TryClaim(id: nat, worker: string, now: int, lease: int) returns (affected: bool)
      requires Valid()
      modifies this
      ensures Valid() && jobs == J.Claim(old(jobs), id, worker, now, lease)
      ensures affected <==> id in old(jobs) && old(jobs)[id].status == J.Queued
      ensures affected ==> LeasedUntil(jobs, id, now + lease) && jobs[id].claimedBy == Some(worker)
    {
      LeaseStarts(jobs, id, worker, now, lease);
      if id !in jobs || jobs[id].status != J.Queued {
        return false;
      }
      jobs := jobs[id := jobs[id].(status := J.Running, attempts := jobs[id].attempts + 1, claimedBy := Some(worker),
                                   claimedUntil := Some(now + lease), startedAt := Some(now), updatedAt := now)];
      return true;
    }

    method Complete(id: nat, output: J.Payload, now: int) returns (ok: bool)
      requires Valid()
      modifies this
      ensures Valid() && ok == output.Encoded? && jobs == J.Complete(old(jobs), id, output, now)
      ensures J.OthersKept(old(jobs), jobs, id)
      ensures ok && id in old(jobs) ==>
                J.Settled(jobs, id) && jobs[id].status == J.Succeeded && jobs[id].output == output.text
    {
      J.CompleteMeans(jobs, id, output, now);
      if output.Unencodable? {
        return false;
      }
      if id in jobs {
        jobs := jobs[id := jobs[id].(status := J.Succeeded, output := output.text, claimedBy := None,
                                     claimedUntil := None, finishedAt := Some(now), updatedAt := now)];
      }
      return true;
    }

    method FailOrRetry(job: J.Record, code: string, message: string, retryable: bool, delay: int, now: int)
      returns (next: J.Status, ok: bool)
      requires Valid()
      modifies this
      ensures Valid() && next == if retryable && job.attempts < job.maxAttempts then J.Queued else J.Failed
      ensures !ok <==>
                && next == J.Queued && job.id in old(jobs) && old(jobs)[job.id].singletonKey != ""
                && exists k | k in old(jobs) && k != job.id ::
                     && old(jobs)[k].singletonKey == old(jobs)[job.id].singletonKey
                     && old(jobs)[k].status in {J.Queued, J.Running}
      ensures jobs == J.FailOrRetry(old(jobs), job, code, message, retryable, delay, now)
      ensures J.OthersKept(old(jobs), jobs, job.id) && (!ok ==> jobs == old(jobs))
      ensures ok && job.id in old(jobs) ==>
                if next == J.Queued then forall t :: J.Due(jobs[job.id], t) <==> now + delay <= t
                else J.Settled(jobs, job.id) && jobs[job.id].status == J.Failed
    {
      ok := true;
      if job.id in jobs {
        J.FailOrRetryMeans(jobs, job, code, message, retryable, delay, now);
      }
      var runAt, finishedAt := job.runAt, Some(now);
      next := J.Failed;
      if retryable && job.attempts < job.maxAttempts {
        next, runAt, finishedAt := J.Queued, now + delay, None;
      }
      if job.id in jobs {
        if next == J.Queued && J.KeyTakenByOther(jobs, job.id) {
          return next, false;
        }
        jobs := jobs[job.id := jobs[job.id].(status := next, runAt := runAt, claimedBy := None, claimedUntil := None,
                                             errorCode := code, errorMessage := message,
                                             finishedAt := finishedAt, updatedAt := now)];
      }
    }

    method MarkCancelled(id: nat, now: int)
      requires Valid()
      modifies this
      ensures Valid() && jobs == J.MarkCancelled(old(jobs), id, now)
      ensures J.OthersKept(old(jobs), jobs, id)
      ensures id in old(jobs) ==> J.Settled(jobs, id) && jobs[id].status == J.Cancelled
    {
      J.MarkCancelledMeans(jobs, id, now);
      if id in jobs {
        jobs := jobs[id := jobs[id].(status := J.Cancelled, claimedBy := None, claimedUntil := None,
                                     finishedAt := Some(now), updatedAt := now)];
      }
    }

    method Heartbeat(id: nat, worker: string, lease: int, now: int) returns (held: bool, cancelled: bool)
      requires Valid()
      modifies this
      ensures Valid() && jobs == J.Heartbeat(old(jobs), id, worker, lease, now)
      ensures held <==> id in old(jobs) && old(jobs)[id].claimedBy == Some(worker)
      ensures cancelled <==> held && old(jobs)[id].cancelRequestedAt.Some?
      ensures J.OthersKept(old(jobs), jobs, id)
      ensures held && !cancelled && old(jobs)[id].status == J.Running ==>
                && LeasedUntil(jobs, id, now + lease)
                && jobs[id].(claimedUntil := old(jobs)[id].claimedUntil, updatedAt := old(jobs)[id].updatedAt) ==
                   old(jobs)[id]
      ensures !held || cancelled || old(jobs)[id].status != J.Running ==> jobs == old(jobs)
    {
      LeaseGoesOn(jobs, id, worker, lease, now);
      if id !in jobs || jobs[id].claimedBy != Some(worker) {
        return false, false;
      }
      if jobs[id].cancelRequestedAt.Some? {
        return true, true;
      }
      if jobs[id].status == J.Running {
        jobs := jobs[id := jobs[id].(claimedUntil := Some(now + lease), updatedAt := now)];
      }
      return true, false;
    }

    /** Changes exactly the running rows whose lease ended before `now`: requeued while attempts are
        left, failed otherwise, and counted as such. */
    method RecoverExpiredRunning(now: int) returns (requeued: nat, failed: nat)
      requires Valid()
      modifies this
      ensures Valid() && jobs == Recovered(old(jobs), {}, now)
      ensures requeued == |HandledWith(old(jobs), {}, now, true)|
      ensures failed == |HandledWith(old(jobs), {}, now, false)|
    {
      var expired := set id | id in jobs && J.Expired(jobs[id], now) :: jobs[id];
      requeued, failed := 0, 0;
      ghost var was := jobs;
      NothingHandledYet(was, expired, now);
      RecoveredKeepsKeys(was, now);
      while expired != {}
        invariant RecoveredSoFar(was, jobs, expired, now, requeued, failed)
        decreases |expired|
      {
        var job :| job in expired;
        NextRecovered(was, jobs, expired, job, now, requeued, failed);
        var status, affected := RecoverRow(job, now);
        expired := expired - {job};
        if affected {
          if status == J.Queued {
            requeued := requeued + 1;
          } else {
            failed := failed + 1;
          }
        }
      }
    }

    /** Recovery's update of one row it read as `job`, conditional on the row still running. */
    method RecoverRow(job: J.Record, now: int) returns (status: J.Status, affected: bool)
      modifies this
      ensures jobs == J.Recover(old(jobs), job, now)
      ensures affected <==> job.id in old(jobs) && old(jobs)[job.id].status == J.Running
      ensures status == if job.attempts < job.maxAttempts then J.Queued else J.Failed
      ensures J.OthersKept(old(jobs), jobs, job.id)
      ensures affected ==> TakenBack(old(jobs)[job.id], jobs[job.id], status, now)
    {
      var runAt, finishedAt := job.runAt, Some(now);
      status := J.Failed;
      if job.attempts < job.maxAttempts {
        status, runAt, finishedAt := J.Queued, now, None;
      }
      if job.id !in jobs || jobs[job.id].status != J.Running {
        return status, false;
      }
      jobs := jobs[job.id := jobs[job.id].(status := status, runAt := runAt, claimedBy := None, claimedUntil := None,
                                           errorCode := "worker_lost", errorMessage := "Job worker claim expired.",
                                           finishedAt := finishedAt, updatedAt := now)];
      return status, true;
    }

    method RequestCancelSingleton(key: string, now: int)
      requires Valid()
      modifies this
      ensures Valid() && jobs == J.CancelSingleton(old(jobs), key, now)
      ensures key != "" ==> forall id | id in old(jobs) && old(jobs)[id].singletonKey == key ::
                old(jobs)[id].status.Finished() || jobs[id].status == J.Cancelled || J.ToldToStop(jobs, id)
    {
      ghost var was := jobs;
      jobs := map id | id in jobs ::
        if key != "" && jobs[id].singletonKey == key && jobs[id].status.Active() then
          jobs[id].(status := if jobs[id].status == J.Queued then J.Cancelled else jobs[id].status,
                    finishedAt := if jobs[id].status == J.Queued then Some(now) else jobs[id].finishedAt,
                    cancelRequestedAt := Some(now), updatedAt := now)
        else jobs[id];
      assert jobs == J.CancelSingleton(was, key, now);
      forall id | key != "" && id in was && was[id].singletonKey == key
        ensures was[id].status.Finished() || jobs[id].status == J.Cancelled || J.ToldToStop(jobs, id)
      {
        J.CancelSingletonMeans(was, key, now, id);
      }
    }

    method RequestCancelUserWorkspaceJob(org: int, workspace: int, account: int, id: nat, now: int)
      returns (found: Option<J.Record>)
      requires Valid()
      modifies this
      ensures Valid() && jobs == J.CancelOwned(old(jobs), org, workspace, account, id, now)
      ensures found == if id in old(jobs) && J.OwnedBy(old(jobs)[id], org, workspace, account) then Some(jobs[id])
                       else None
      ensures found.Some? <==>
                && id in old(jobs) && old(jobs)[id].visibility == J.USER
                && old(jobs)[id].orgID == Some(org) && old(jobs)[id].workspaceID == Some(workspace)
                && old(jobs)[id].ownerAccountID == Some(account)
      ensures J.OthersKept(old(jobs), jobs, id) && (found.None? ==> jobs == old(jobs))
      ensures found.Some? ==> found.value.status.Finished() || J.ToldToStop(jobs, id)
    {
      if id !in jobs || !J.OwnedBy(jobs[id], org, workspace, account) {
        return None;
      }
      match jobs[id].status {
        case Queued =>
          jobs := jobs[id := jobs[id].(status := J.Cancelled, cancelRequestedAt := Some(now), finishedAt := Some(now),
                                       updatedAt := now)];
        case Running =>
          if jobs[id].cancelRequestedAt.None? {
            jobs := jobs[id := jobs[id].(cancelRequestedAt := Some(now), updatedAt := now)];
          }
        case _ =>
      }
      return Some(jobs[id]);
    }

    /** Deletes finished rows only, oldest first, at most `limit` of them. */
    method PruneCompleted(olderThan: int, limit: int) returns (pruned: nat)
      requires Valid()
      modifies this
      ensures Valid()
      ensures OldestGone(old(jobs), jobs, olderThan, if limit <= 0 then 100 else limit)
      ensures pruned == |old(jobs).Keys - jobs.Keys|
    {
      var most := if limit <= 0 then 100 else limit;
      var candidates := set id | id in jobs && J.Prunable(jobs[id], olderThan) :: jobs[id];
      var page := OrderBy(candidates, J.FinishedEarlier, most);
      var ids := set r | r in page :: r.id;
      PruneMeans(jobs, olderThan, most, page);
      jobs := jobs - ids;
      return |ids|;
    }
  }

  /** Finished rows of before `olderThan` are gone, `most` of them or all, and none that finished later than
      one that is left. */
  ghost predicate OldestGone(was: J.Table, jobs: J.Table, olderThan: int, most: nat) {
    && (forall id | id in jobs :: id in was && jobs[id] == was[id])
    && (forall id | id in was && id !in jobs :: FinishedBefore(was[id], olderThan))
    && |was.Keys - jobs.Keys| <= most
    && (forall a, b | a in jobs && FinishedBefore(jobs[a], olderThan) && b in was && b !in jobs ::
          was[b].finishedAt.Some? && jobs[a].finishedAt.value >= was[b].finishedAt.value)
    && (|was.Keys - jobs.Keys| < most ==> forall id | id in jobs :: !FinishedBefore(jobs[id], olderThan))
  }

  ghost predicate FinishedBefore(r: J.Record, t: int) {
    r.status in {J.Succeeded, J.Failed, J.Cancelled} && r.finishedAt.Some? && r.finishedAt.value < t
  }

  /** The page of rows to delete: which rows are on it, and how it is ordered. */
  lemma PrunedPage(was: J.Table, olderThan: int, most: nat, page: seq<J.Record>)
    requires forall id | id in was :: was[id].id == id
    requires IsPage(set id | id in was && J.Prunable(was[id], olderThan) :: was[id], J.FinishedEarlier, most, page)
    ensures var ids := set r | r in page :: r.id;
            && |ids| == |page| <= most && (forall id | id in ids :: id in was && FinishedBefore(was[id], olderThan))
            && (forall a, b | a in was && a !in ids && FinishedBefore(was[a], olderThan) && b in ids ::
                  was[a].finishedAt.value >= was[b].finishedAt.value)
            && (|page| < most ==> forall a | a in was && a !in ids :: !FinishedBefore(was[a], olderThan))
  {
    var candidates, ids := set id | id in was && J.Prunable(was[id], olderThan) :: was[id], set r | r in page :: r.id;
    PagedIDs(was, candidates, page);
    forall id | id in ids ensures id in was && was[id] in page && FinishedBefore(was[id], olderThan) {
      var r :| r in page && r.id == id;
    }
    forall a | a in was && a !in ids && FinishedBefore(was[a], olderThan)
      ensures was[a] in candidates && was[a] !in page
    {
    }
    if |page| < most {
      ShortPageIsComplete(candidates, J.FinishedEarlier, most, page);
    }
    forall a, b | a in was && a !in ids && FinishedBefore(was[a], olderThan) && b in ids
      ensures was[a].finishedAt.value >= was[b].finishedAt.value
    {
      assert !J.FinishedEarlier(was[a], was[b]);
    }
  }

  lemma PruneMeans(was: J.Table, olderThan: int, most: nat, page: seq<J.Record>)
    requires forall id | id in was :: was[id].id == id
    requires IsPage(set id | id in was && J.Prunable(was[id], olderThan) :: was[id], J.FinishedEarlier, most, page)
    ensures var ids := set r | r in page :: r.id;
            OldestGone(was, was - ids, olderThan, most) && was.Keys - (was - ids).Keys == ids
  {
    var ids := set r | r in page :: r.id;
    PrunedPage(was, olderThan, most, page);
    assert was.Keys - (was - ids).Keys == ids;
  }

  /** The table once every expired row but the `pending` ones has been recovered at `now`. */
  function Recovered(was: J.Table, pending: set<J.Record>, now: int): J.Table {
    map id | id in was ::
      if J.Expired(was[id], now) && was[id] !in pending then J.RecoveredRow(was[id], was[id], now) else was[id]
  }

  /** The rows recovered so far that were requeued (`retry`) or failed. */
  function HandledWith(was: J.Table, pending: set<J.Record>, now: int, retry: bool): set<nat> {
    set id | id in was && J.Expired(was[id], now) && was[id] !in pending
        && (was[id].attempts < was[id].maxAttempts) == retry
  }

  /** The table and the counts once all but the `pending` rows have been handled. */
  ghost predicate RecoveredSoFar(
    was: J.Table, jobs: J.Table, pending: set<J.Record>, now: int, requeued: nat, failed: nat)
  {
    && (forall job | job in pending :: job.id in was && job == was[job.id] && J.Expired(job, now))
    && jobs == Recovered(was, pending, now)
    && requeued == |HandledWith(was, pending, now, true)| && failed == |HandledWith(was, pending, now, false)|
  }

  lemma NothingHandledYet(was: J.Table, expired: set<J.Record>, now: int)
    requires forall id | id in was && J.Expired(was[id], now) :: was[id] in expired
    ensures Recovered(was, expired, now) == was
    ensures HandledWith(was, expired, now, true) == {} == HandledWith(was, expired, now, false)
  {
  }

  lemma RecoveredKeepsKeys(was: J.Table, now: int)
    requires forall id | id in was :: was[id].id == id
    ensures forall id | id in Recovered(was, {}, now) :: Recovered(was, {}, now)[id].id == id
  {
  }

  lemma HandleOne(was: J.Table, pending: set<J.Record>, job: J.Record, now: int)
    requires forall id | id in was :: was[id].id == id
    requires job in pending && job.id in was && was[job.id] == job && J.Expired(job, now)
    ensures var before := Recovered(was, pending, now);
            var retry := job.attempts < job.maxAttempts;
            && job.id in before && before[job.id].status == J.Running
            && Recovered(was, pending - {job}, now) == J.Recover(before, job, now)
            && |HandledWith(was, pending - {job}, now, retry)| == |HandledWith(was, pending, now, retry)| + 1
            && HandledWith(was, pending - {job}, now, !retry) == HandledWith(was, pending, now, !retry)
  {
    var retry := job.attempts < job.maxAttempts;
    assert HandledWith(was, pending - {job}, now, retry) == HandledWith(was, pending, now, retry) + {job.id};
  }

  lemma NextRecovered(
    was: J.Table, jobs: J.Table, pending: set<J.Record>, job: J.Record, now: int, requeued: nat, failed: nat)
    requires forall id | id in was :: was[id].id == id
    requires RecoveredSoFar(was, jobs, pending, now, requeued, failed) && job in pending
    ensures job.id in jobs && jobs[job.id].status == J.Running
    ensures var more := if job.attempts < job.maxAttempts then 1 else 0;
            RecoveredSoFar(was, J.Recover(jobs, job, now), pending - {job}, now, requeued + more, failed + 1 - more)
  {
    HandleOne(was, pending, job, now);
  }

  /** What recovery makes of a row: nobody's, and due at once or failed for good. */
  ghost predicate TakenBack(r: J.Record, after: J.Record, status: J.Status, now: int) {
    && J.SameJob(after, r) && after.output == r.output && after.status == status
    && after.claimedBy.None? && after.claimedUntil.None?
    && after.errorCode == "worker_lost" && after.errorMessage == "Job worker claim expired."
    && if status == J.Queued then after.finishedAt.None? && forall t :: J.Due(after, t) <==> now <= t
       else after.finishedAt == Some(now)
  }

  /** Recovery at any time up to `until` leaves the running job alone, and at any later one takes it back. */
  ghost predicate LeasedUntil(jobs: J.Table, id: nat, until: int) {
    && id in jobs && jobs[id].status == J.Running
    && (forall t :: J.Expired(jobs[id], t) <==> until < t)
    && forall t :: Recovered(jobs, {}, t)[id] == jobs[id] <==> t <= until
  }

  lemma LeaseMeans(jobs: J.Table, id: nat, until: int)
    requires id in jobs && jobs[id].status == J.Running && jobs[id].claimedUntil == Some(until)
    ensures LeasedUntil(jobs, id, until)
  {
    forall t ensures Recovered(jobs, {}, t)[id] == jobs[id] <==> t <= until {
      RecoveryMeans(jobs, t, id);
    }
  }

  lemma LeaseStarts(jobs: J.Table, id: nat, worker: string, now: int, lease: int)
    ensures id in jobs && jobs[id].status == J.Queued ==>
              LeasedUntil(J.Claim(jobs, id, worker, now, lease), id, now + lease)
  {
    if id in jobs && jobs[id].status == J.Queued {
      LeaseMeans(J.Claim(jobs, id, worker, now, lease), id, now + lease);
    }
  }

  lemma LeaseGoesOn(jobs: J.Table, id: nat, worker: string, lease: int, now: int)
    ensures id in jobs && jobs[id].claimedBy == Some(worker) && jobs[id].status == J.Running
            && jobs[id].cancelRequestedAt.None? ==>
              LeasedUntil(J.Heartbeat(jobs, id, worker, lease, now), id, now + lease)
  {
    if id in jobs && jobs[id].claimedBy == Some(worker) && jobs[id].status == J.Running
       && jobs[id].cancelRequestedAt.None? {
      LeaseMeans(J.Heartbeat(jobs, id, worker, lease, now), id, now + lease);
    }
  }

  lemma NothingDue(jobs: J.Table, now: int)
    requires J.DueRows(jobs, now) == {}
    ensures forall k | k in jobs && jobs[k].status == J.Queued :: now < jobs[k].runAt
  {
    forall k | k in jobs && jobs[k].status == J.Queued ensures now < jobs[k].runAt {
      assert jobs[k] !in J.DueRows(jobs, now);
    }
  }

  /** A worker whose lease has not ended keeps its job through recovery, untouched; every other running
      row leaves the running state, requeued or failed by its attempts; nothing else changes. */
  lemma RecoveryMeans(was: J.Table, now: int, id: nat)
    requires id in was
    ensures var r, after := was[id], Recovered(was, {}, now)[id];
            && (r.status == J.Running && r.claimedUntil.Some? && r.claimedUntil.value < now ==>
                  TakenBack(r, after, if r.attempts < r.maxAttempts then J.Queued else J.Failed, now))
            && (!(r.status == J.Running && r.claimedUntil.Some? && r.claimedUntil.value < now) ==> after == r)
            && !J.Expired(after, now)
  {
  }

  predicate ChangedAt(was: J.Table, after: J.Table, id: nat) {
    id in was && id in after && after[id] != was[id]
  }

  lemma ChangedIffExpired(was: J.Table, now: int, id: nat)
    ensures ChangedAt(was, Recovered(was, {}, now), id) <==> id in was && J.Expired(was[id], now)
  {
    if id in was {
      RecoveryMeans(was, now, id);
    }
  }

  /** The two counts recovery reports add up to the rows it changed. */
  lemma RecoveryCounts(was: J.Table, now: int)
    ensures |HandledWith(was, {}, now, true)| + |HandledWith(was, {}, now, false)|
            == |set id | id in was && ChangedAt(was, Recovered(was, {}, now), id)|
  {
    var after := Recovered(was, {}, now);
    var requeued, failed := HandledWith(was, {}, now, true), HandledWith(was, {}, now, false);
    forall id ensures ChangedAt(was, after, id) <==> id in requeued + failed {
      ChangedIffExpired(was, now, id);
    }
    assert (set id | id in was && ChangedAt(was, after, id)) == requeued + failed;
    assert requeued !! failed;
  }

  lemma DueOrders(rows: set<J.Record>)
    ensures Orders(J.Before, rows)
  {
  }

  /** The first candidate is still queued, and comes before every other due row. */
  lemma FirstCandidate(jobs: J.Table, now: int, page: seq<J.Record>)
    requires forall id | id in jobs :: jobs[id].id == id
    requires IsPage(J.DueRows(jobs, now), J.Before, 5, page) && |page| > 0
    ensures page[0].id in jobs && J.Due(jobs[page[0].id], now)
    ensures forall k | k in jobs && k != page[0].id && J.Due(jobs[k], now) :: J.Before(jobs[page[0].id], jobs[k])
  {
    var first := page[0];
    assert first in page && first in J.DueRows(jobs, now);
    forall k | k in jobs && k != first.id && J.Due(jobs[k], now) ensures J.Before(first, jobs[k]) {
      var r := jobs[k];
      assert r in J.DueRows(jobs, now);
      if r in page {
        var k :| 0 <= k < |page| && page[k] == r;
        assert !J.Before(page[k], page[0]);
      }
    }
  }

  lemma PagedIDs(jobs: J.Table, rows: set<J.Record>, page: seq<J.Record>)
    requires forall id | id in jobs :: jobs[id].id == id
    requires forall r | r in rows :: r.id in jobs && jobs[r.id] == r
    requires forall r | r in page :: r in rows
    requires forall i, j | 0 <= i < j < |page| :: page[i] != page[j]
    ensures |set r | r in page :: r.id| == |page|
  {
    DistinctCount(page);
    var onPage := set r | r in page;
    InjectiveCount(onPage);
    assert (set r | r in page :: r.id) == (set r | r in onPage :: r.id);
  }

  lemma {:induction false} InjectiveCount(rows: set<J.Record>)
    requires forall a, b | a in rows && b in rows && a.id == b.id :: a == b
    ensures |set r | r in rows :: r.id| == |rows|
  {
    if r :| r in rows {
      InjectiveCount(rows - {r});
      assert (set x | x in rows :: x.id) == (set x | x in rows - {r} :: x.id) + {r.id};
    }
  }
}
