/** The jobs table: its rows, and what each statement of the job store does to it.
    One database transaction or single statement is one function here.
    Identifiers are numbers: a ULID's text sorts like the number it writes. */
module Jobs {
  import opened Wrappers
  import opened Text

  datatype Status = Queued | Running | Succeeded | Failed | Cancelled {
    predicate Active() { Queued? || Running? }
    predicate Finished() { !Active() }
  }

  datatype Record = Record(
    id: nat, typ: string, singletonKey: string, visibility: string, status: Status,
    orgID: Option<int>, workspaceID: Option<int>, ownerAccountID: Option<int>,
    runAt: int, priority: int, attempts: int, maxAttempts: int,
    claimedBy: Option<string>, claimedUntil: Option<int>,
    startedAt: Option<int>, finishedAt: Option<int>, cancelRequestedAt: Option<int>,
    errorCode: string, errorMessage: string, input: string, output: string,
    createdAt: int, updatedAt: int)

  type Table = map<nat, Record>

  /** A handler's input or output once encoded; some values have no encoding. */
  datatype Payload = Encoded(text: string) | Unencodable

  datatype EnqueueInput = EnqueueInput(
    typ: string, singletonKey: string, visibility: string,
    orgID: Option<int>, workspaceID: Option<int>, ownerAccountID: Option<int>,
    runAt: Option<int>, priority: int, maxAttempts: int, payload: Payload)

  datatype Error = UnknownType | InvalidScope | PayloadError | ActiveExists | UniqueViolation

  const USER := "user"
  const INTERNAL := "internal"

  // ---------------------------------------------------------------- enqueue

  function NewRecord(input: EnqueueInput, id: nat, now: int): Result<Record, Error> {
    var visibility := if input.visibility == "" then USER else input.visibility;
    if input.typ == "" then Failure(UnknownType)
    else if visibility != USER && visibility != INTERNAL then Failure(InvalidScope)
    else if visibility == USER && (input.orgID.None? || input.workspaceID.None? || input.ownerAccountID.None?) then
      Failure(InvalidScope)
    else if input.payload.Unencodable? then Failure(PayloadError)
    else Success(Record(
      id, input.typ, TrimSpace(input.singletonKey), visibility, Queued,
      input.orgID, input.workspaceID, input.ownerAccountID,
      if input.runAt.None? then now else input.runAt.value, input.priority,
      0, if input.maxAttempts <= 0 then 1 else input.maxAttempts,
      None, None, None, None, None, "", "", input.payload.text, "", now, now))
  }

  /** The unique index on active singleton keys; an empty key is stored as NULL and never conflicts.
      It refuses inserts, and updates that make a row active; of those below only `FailOrRetry` can. */
  predicate KeyTaken(jobs: Table, key: string) {
    key != "" && exists id | id in jobs :: jobs[id].singletonKey == key && jobs[id].status.Active()
  }

  function Insert(jobs: Table, r: Record): Result<Table, Error> {
    if r.id in jobs || KeyTaken(jobs, r.singletonKey) then Failure(UniqueViolation) else Success(jobs[r.id := r])
  }

  function EnqueuePlain(jobs: Table, input: EnqueueInput, id: nat, now: int): Result<Table, Error> {
    if TrimSpace(input.singletonKey) != "" then Failure(InvalidScope)
    else
      var r :- NewRecord(input, id, now);
      Insert(jobs, r)
  }

  function EnqueueSingleton(jobs: Table, input: EnqueueInput, id: nat, now: int): Result<Table, Error> {
    if TrimSpace(input.singletonKey) == "" then Failure(InvalidScope)
    else
      var r :- NewRecord(input, id, now);
      if Insert(jobs, r).Failure? then Failure(ActiveExists) else Insert(jobs, r)
  }

  /** A request has a type, an input that can be encoded and, unless it is internal, names the organization,
      workspace and account it is for. */
  predicate Acceptable(input: EnqueueInput) {
    && input.typ != "" && input.payload.Encoded?
    && (input.visibility == INTERNAL
        || (input.visibility in {"", USER}
            && input.orgID.Some? && input.workspaceID.Some? && input.ownerAccountID.Some?))
  }

  /** The row of a request: never tried, held by nobody, and due exactly from the time asked for. */
  ghost predicate Asked(r: Record, input: EnqueueInput, now: int) {
    && r.typ == input.typ && r.singletonKey == TrimSpace(input.singletonKey)
    && r.visibility == (if input.visibility == INTERNAL then INTERNAL else USER)
    && r.orgID == input.orgID && r.workspaceID == input.workspaceID && r.ownerAccountID == input.ownerAccountID
    && r.priority == input.priority && r.attempts == 0
    && r.maxAttempts == (if input.maxAttempts <= 0 then 1 else input.maxAttempts)
    && Encoded(r.input) == input.payload && r.output == "" && r.errorCode == "" && r.errorMessage == ""
    && r.claimedBy.None? && r.claimedUntil.None? && r.cancelRequestedAt.None?
    && r.startedAt.None? && r.finishedAt.None? && r.createdAt == now == r.updatedAt
    && (forall t :: Due(r, t) <==> (if input.runAt.Some? then input.runAt.value else now) <= t)
  }

  lemma NewRecordMeans(input: EnqueueInput, id: nat, now: int)
    ensures NewRecord(input, id, now).Success? <==> Acceptable(input)
    ensures NewRecord(input, id, now).Success? ==>
              NewRecord(input, id, now).value.id == id && Asked(NewRecord(input, id, now).value, input, now)
  {
  }

  // ---------------------------------------------------------------- claiming

  predicate Due(r: Record, now: int) {
    r.status == Queued && r.runAt <= now
  }

  function DueRows(jobs: Table, now: int): set<Record> {
    set id | id in jobs && Due(jobs[id], now) :: jobs[id]
  }

  /** `ORDER BY priority DESC, run_at ASC, created_at ASC, id ASC`. */
  predicate Before(a: Record, b: Record) {
    if a.priority != b.priority then a.priority > b.priority
    else if a.runAt != b.runAt then a.runAt < b.runAt
    else if a.createdAt != b.createdAt then a.createdAt < b.createdAt
    else a.id < b.id
  }

  function ClaimedRow(r: Record, worker: string, now: int, lease: int): Record {
    r.(status := Running, attempts := r.attempts + 1, claimedBy := Some(worker),
       claimedUntil := Some(now + lease), startedAt := Some(now), updatedAt := now)
  }

  /** The conditional update: it claims the row only if it is still queued. */
  function Claim(jobs: Table, id: nat, worker: string, now: int, lease: int): Table {
    if id in jobs && jobs[id].status == Queued then jobs[id := ClaimedRow(jobs[id], worker, now, lease)] else jobs
  }

  // ---------------------------------------------------------------- finishing

  function Complete(jobs: Table, id: nat, output: Payload, now: int): Table {
    if output.Encoded? && id in jobs then
      jobs[id := jobs[id].(status := Succeeded, output := output.text, claimedBy := None, claimedUntil := None,
                           finishedAt := Some(now), updatedAt := now)]
    else jobs
  }

  /** Decided on the record the worker was given, not on the row. */
  function StatusAfterFailure(job: Record, retryable: bool): Status {
    if retryable && job.attempts < job.maxAttempts then Queued else Failed
  }

  /** Another active job has the key of job `id`. */
  predicate KeyTakenByOther(jobs: Table, id: nat)
    requires id in jobs
  {
    && jobs[id].singletonKey != ""
    && exists k | k in jobs :: k != id && jobs[k].singletonKey == jobs[id].singletonKey && jobs[k].status.Active()
  }

  /** The update puts the row back in the queue, and the index lets it. */
  predicate Requeues(jobs: Table, job: Record, retryable: bool) {
    job.id in jobs && StatusAfterFailure(job, retryable) == Queued && !KeyTakenByOther(jobs, job.id)
  }

  function FailOrRetry(
    jobs: Table, job: Record, code: string, message: string, retryable: bool, delay: int, now: int): Table
  {
    var retry := StatusAfterFailure(job, retryable) == Queued;
    if job.id !in jobs || (retry && KeyTakenByOther(jobs, job.id)) then jobs
    else
      jobs[job.id := jobs[job.id].(
             status := StatusAfterFailure(job, retryable), runAt := if retry then now + delay else job.runAt,
             claimedBy := None, claimedUntil := None, errorCode := code, errorMessage := message,
             finishedAt := if retry then None else Some(now), updatedAt := now)]
  }

  function MarkCancelled(jobs: Table, id: nat, now: int): Table {
    if id in jobs then
      jobs[id := jobs[id].(status := Cancelled, claimedBy := None, claimedUntil := None,
                           finishedAt := Some(now), updatedAt := now)]
    else jobs
  }

  // ---------------------------------------------------------------- leases

  predicate ClaimedByWorker(jobs: Table, id: nat, worker: string) {
    id in jobs && jobs[id].claimedBy == Some(worker)
  }

  function Heartbeat(jobs: Table, id: nat, worker: string, lease: int, now: int): Table {
    if ClaimedByWorker(jobs, id, worker) && jobs[id].cancelRequestedAt.None? && jobs[id].status == Running then
      jobs[id := jobs[id].(claimedUntil := Some(now + lease), updatedAt := now)]
    else jobs
  }

  predicate Expired(r: Record, now: int) {
    r.status == Running && r.claimedUntil.Some? && r.claimedUntil.value < now
  }

  function RecoveredRow(r: Record, seen: Record, now: int): Record {
    var retry := seen.attempts < seen.maxAttempts;
    r.(status := if retry then Queued else Failed, runAt := if retry then now else seen.runAt,
       claimedBy := None, claimedUntil := None, errorCode := "worker_lost", errorMessage := "Job worker claim expired.",
       finishedAt := if retry then None else Some(now), updatedAt := now)
  }

  /** Recovery's update for one row it read as `seen`: conditional only on the row still running. */
  function Recover(jobs: Table, seen: Record, now: int): Table {
    if seen.id in jobs && jobs[seen.id].status == Running then
      jobs[seen.id := RecoveredRow(jobs[seen.id], seen, now)]
    else jobs
  }

  // ---------------------------------------------------------------- cancellation and pruning

  function CancelRequested(r: Record, now: int): Record {
    r.(status := if r.status == Queued then Cancelled else r.status,
       finishedAt := if r.status == Queued then Some(now) else r.finishedAt,
       cancelRequestedAt := Some(now), updatedAt := now)
  }

  function CancelSingleton(jobs: Table, key: string, now: int): Table {
    map id | id in jobs ::
      if key != "" && jobs[id].singletonKey == key && jobs[id].status.Active() then CancelRequested(jobs[id], now)
      else jobs[id]
  }

  predicate OwnedBy(r: Record, org: int, workspace: int, account: int) {
    r.visibility == USER && r.orgID == Some(org) && r.workspaceID == Some(workspace)
        && r.ownerAccountID == Some(account)
  }

  function CancelOwned(jobs: Table, org: int, workspace: int, account: int, id: nat, now: int): Table {
    if id !in jobs || !OwnedBy(jobs[id], org, workspace, account) then jobs
    else
      match jobs[id].status
      case Queued => jobs[id := CancelRequested(jobs[id], now)]
      case Running => if jobs[id].cancelRequestedAt.None? then jobs[id := CancelRequested(jobs[id], now)] else jobs
      case _ => jobs
  }

  predicate Prunable(r: Record, olderThan: int) {
    r.status.Finished() && r.finishedAt.Some? && r.finishedAt.value < olderThan
  }

  /** `ORDER BY finished_at ASC`, which leaves ties open. */
  predicate FinishedEarlier(a: Record, b: Record) {
    a.finishedAt.Some? && b.finishedAt.Some? && a.finishedAt.value < b.finishedAt.value
  }

  // ---------------------------------------------------------------- what the statements mean for callers

  predicate OthersKept(jobs: Table, after: Table, id: nat) {
    after.Keys == jobs.Keys && forall k | k in jobs && k != id :: after[k] == jobs[k]
  }

  /** The columns that say which job this is and how often it was tried. */
  predicate SameJob(a: Record, b: Record) {
    && a.id == b.id && a.typ == b.typ && a.singletonKey == b.singletonKey && a.visibility == b.visibility
    && a.orgID == b.orgID && a.workspaceID == b.workspaceID && a.ownerAccountID == b.ownerAccountID
    && a.priority == b.priority && a.attempts == b.attempts && a.maxAttempts == b.maxAttempts
    && a.startedAt == b.startedAt && a.cancelRequestedAt == b.cancelRequestedAt
    && a.input == b.input && a.createdAt == b.createdAt
  }

  ghost predicate SameError(a: Record, b: Record) {
    a.errorCode == b.errorCode && a.errorMessage == b.errorMessage
  }

  /** Nobody holds the job, and it will not run again: no claim finds it due and no recovery finds it
      lapsed, at whatever time. */
  ghost predicate Settled(jobs: Table, id: nat) {
    && id in jobs && jobs[id].status.Finished() && (forall worker :: !ClaimedByWorker(jobs, id, worker))
    && forall t :: !Due(jobs[id], t) && !Expired(jobs[id], t)
  }

  /** Completing settles the job with its output; an output without encoding changes nothing. */
  lemma CompleteMeans(jobs: Table, id: nat, output: Payload, now: int)
    ensures var after := Complete(jobs, id, output, now);
            && OthersKept(jobs, after, id)
            && (id in jobs && output.Encoded? ==>
                  && Settled(after, id) && SameJob(after[id], jobs[id]) && after[id].runAt == jobs[id].runAt
                  && after[id].status == Succeeded && after[id].output == output.text
                  && after[id].claimedUntil.None? && after[id].finishedAt == Some(now)
                  && SameError(after[id], jobs[id]))
            && (id !in jobs || output.Unencodable? ==> after == jobs)
  {
  }

  /** A failure settles the job, or puts it back unclaimed and due exactly from `now + delay` on; nothing
      happens when another active job has taken the key meanwhile. */
  lemma FailOrRetryMeans(
    jobs: Table, job: Record, code: string, message: string, retryable: bool, delay: int, now: int)
    requires job.id in jobs
    ensures var after, id := FailOrRetry(jobs, job, code, message, retryable, delay, now), job.id;
            var retry := retryable && job.attempts < job.maxAttempts;
            && OthersKept(jobs, after, id)
            && if retry && KeyTakenByOther(jobs, id) then after == jobs
               else
                 && SameJob(after[id], jobs[id]) && after[id].output == jobs[id].output
                 && after[id].errorCode == code && after[id].errorMessage == message && after[id].claimedUntil.None?
                 && if retry then
                      && after[id].finishedAt.None?
                      && (forall worker :: !ClaimedByWorker(after, id, worker))
                      && (forall t :: Due(after[id], t) <==> now + delay <= t)
                      && forall t :: !Expired(after[id], t)
                    else
                      && Settled(after, id) && after[id].status == Failed
                      && after[id].finishedAt == Some(now) && after[id].runAt == job.runAt
  {
  }

  /** Cancelling settles the job and keeps what it has produced so far. */
  lemma MarkCancelledMeans(jobs: Table, id: nat, now: int)
    ensures var after := MarkCancelled(jobs, id, now);
            && OthersKept(jobs, after, id)
            && (id in jobs ==>
                  && Settled(after, id) && SameJob(after[id], jobs[id]) && after[id].output == jobs[id].output
                  && after[id].status == Cancelled && after[id].runAt == jobs[id].runAt
                  && after[id].claimedUntil.None? && after[id].finishedAt == Some(now)
                  && SameError(after[id], jobs[id]))
  {
  }

  /** A claim makes the row the worker's until `now + lease`: at no time up to then has it lapsed, and at
      every later one it has. It is one more attempt, and nothing else of the job changes. */
  lemma ClaimMeans(jobs: Table, id: nat, worker: string, now: int, lease: int)
    ensures var after := Claim(jobs, id, worker, now, lease);
            && OthersKept(jobs, after, id)
            && if id in jobs && jobs[id].status == Queued then
                 && (forall w :: ClaimedByWorker(after, id, w) <==> w == worker)
                 && (forall t :: Expired(after[id], t) <==> now + lease < t)
                 && after[id].status == Running && after[id].attempts == jobs[id].attempts + 1
                 && after[id].startedAt == Some(now) && after[id].runAt == jobs[id].runAt
                 && after[id].output == jobs[id].output && after[id].finishedAt == jobs[id].finishedAt
                 && SameJob(after[id].(attempts := jobs[id].attempts, startedAt := jobs[id].startedAt), jobs[id])
               else after == jobs
  {
  }

  /** A heartbeat renews the lease of a running job nobody wants cancelled to `now + lease`, whatever was
      left of it, and changes nothing else; any other heartbeat changes nothing at all. */
  lemma HeartbeatMeans(jobs: Table, id: nat, worker: string, lease: int, now: int)
    ensures var after := Heartbeat(jobs, id, worker, lease, now);
            && OthersKept(jobs, after, id)
            && if id in jobs && jobs[id].claimedBy == Some(worker) && jobs[id].status == Running
                  && jobs[id].cancelRequestedAt.None? then
                 && (forall t :: Expired(after[id], t) <==> now + lease < t)
                 && after[id].(claimedUntil := None, updatedAt := 0) == jobs[id].(claimedUntil := None, updatedAt := 0)
               else after == jobs
  {
  }

  /** The worker running the job is told to stop, and its lease is not renewed any more. */
  ghost predicate ToldToStop(jobs: Table, id: nat) {
    && id in jobs && jobs[id].status == Running && jobs[id].cancelRequestedAt.Some?
    && forall worker, lease, t :: Heartbeat(jobs, id, worker, lease, t) == jobs
  }

  /** Cancelling a key settles its queued jobs, tells the workers of its running ones to stop, and touches
      no other job; the key is free again exactly when none of its jobs is running. */
  lemma CancelSingletonMeans(jobs: Table, key: string, now: int, id: nat)
    requires key != ""
    ensures var after := CancelSingleton(jobs, key, now);
            && after.Keys == jobs.Keys
            && (id in jobs ==>
                  if jobs[id].singletonKey != key || jobs[id].status.Finished() then after[id] == jobs[id]
                  else
                    && SameJob(after[id].(cancelRequestedAt := jobs[id].cancelRequestedAt), jobs[id])
                    && after[id].cancelRequestedAt == Some(now) && after[id].claimedBy == jobs[id].claimedBy
                    && if jobs[id].status == Queued then
                         after[id].status == Cancelled && after[id].finishedAt == Some(now) && !Due(after[id], now)
                       else ToldToStop(after, id) && forall t :: Expired(after[id], t) <==> Expired(jobs[id], t))
            && (KeyTaken(after, key) <==>
                  exists k | k in jobs :: jobs[k].singletonKey == key && jobs[k].status == Running)
  {
    var after := CancelSingleton(jobs, key, now);
    if KeyTaken(after, key) {
      var k :| k in after && after[k].singletonKey == key && after[k].status.Active();
      assert jobs[k].singletonKey == key && jobs[k].status == Running;
    }
    if k :| k in jobs && jobs[k].singletonKey == key && jobs[k].status == Running {
      assert after[k].singletonKey == key && after[k].status.Active();
    }
  }

  /** An account can cancel only its own jobs; a queued one never runs, the worker of a running one is told
      to stop, and asking again at any later time changes nothing. */
  lemma CancelOwnedMeans(jobs: Table, org: int, workspace: int, account: int, id: nat, now: int, later: int)
    ensures var after := CancelOwned(jobs, org, workspace, account, id, now);
            && OthersKept(jobs, after, id)
            && CancelOwned(after, org, workspace, account, id, later) == after
            && (id in jobs ==>
                  if jobs[id].visibility == USER && jobs[id].status.Active()
                     && jobs[id].orgID == Some(org) && jobs[id].workspaceID == Some(workspace)
                     && jobs[id].ownerAccountID == Some(account) then
                    && SameJob(after[id].(cancelRequestedAt := jobs[id].cancelRequestedAt), jobs[id])
                    && if jobs[id].status == Queued then
                         after[id].status == Cancelled && after[id].finishedAt == Some(now) && !Due(after[id], later)
                       else ToldToStop(after, id) && after[id].claimedBy == jobs[id].claimedBy
                  else after[id] == jobs[id])
  {
  }

  /** A job can be cancelled by the account that asked for it, in its workspace, and by no other. */
  lemma OnlyItsAccountCancels(jobs: Table, input: EnqueueInput, id: nat, now: int, org: int, workspace: int,
                              account: int, later: int)
    requires EnqueuePlain(jobs, input, id, now).Success?
    ensures var t := EnqueuePlain(jobs, input, id, now).value;
            id in t &&
            (CancelOwned(t, org, workspace, account, id, later)[id].status == Cancelled <==>
               && input.visibility != INTERNAL
               && input.orgID == Some(org) && input.workspaceID == Some(workspace)
               && input.ownerAccountID == Some(account))
  {
    NewRecordMeans(input, id, now);
    CancelOwnedMeans(EnqueuePlain(jobs, input, id, now).value, org, workspace, account, id, later, later);
  }
}
