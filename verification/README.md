# Verified model of the sqlwarden server's stateful core

SQLWarden is a shared SQL workspace server. Most of its code moves requests between HTTP handlers and a
database; this project models the parts that keep state of their own and must keep it right however
calls interleave, fail or repeat:

- **Job queue** (`Jobs`, `JobStores`, `JobRuns`, `JobTheorems`, `LostClaims`). The job table as a map of
  rows, each store method as a change of it, and a state machine in which a worker's candidate read and its
  conditional update are separate steps, so any number of workers interleave. In every run attempts count
  claims, an active singleton key belongs to one job, one worker holds a job, and a requeue lies between two
  claims of it; attempts stay within their maximum, and finished jobs stay finished, exactly in the runs
  whose finishing and recovering calls meet a guard.
- **Workspace files, both modes** (`FileTree`, `FilePaths`, `FileAccess`, `FileRequests`, `StoredFiles`). The
  folder tree as a forest of mutable rows, who may touch what, and the checks before each change.
- **Workspace files, file storage mode** (`DirectoryKeys`, `Relocations`, `DirectoryMoves`,
  `DirectoryChanges`, `DirectoryFiles`). Storage keys that spell visible paths, and moves that copy bytes,
  update rows and delete the old bytes. Every call to the database and the byte store may fail and is then
  counted, and every change of either is recorded on a trail: contracts say when a call succeeds if nothing
  fails, what a failure leaves, and what holds in every state the call can be stopped in.
- **Workspace files, object storage mode** (`Revisions`, `RevisionRuns`, `RevisionSteps`, `RevisionKeys`,
  `RevisionSafety`, `RevisionTheorems`, `RevisionTraces`, `RevisionLoss`, `Reclassification`, `TwoWriters`,
  `ObjectTraces`, `ObjectStops`, `ObjectFiles`). The revision history, the retention rule, the deletion queue
  and the reaper as one state machine of any number of writers in which planning a write, putting its bytes
  and saving its row are steps of their own, and the service's methods as traces of that machine, through
  states from which a service can start again.
- **Cache** (`Lru`, `MemCaches`). The in-process cache's map and list against a recency list, and what
  holds of that list over every timed sequence of calls and across capacities.
- **Access control** (`Ancestry`, `Permissions`, `Policy`, `RoleTables`, `AccessRules`, `Enforcers`, `Names`). The
  resource hierarchy's closure, the two evaluators, the role and binding tables, what their rows mean and what
  each change does to them, and the caches in front.
- **Schema snapshots** (`Snapshots`, `SnapshotRuns`, `SnapshotClocks`). Publication, supersession and
  retention, and what they need of the clock.
- **Cursor offsets** (`Utf`, `CursorOffsets`). The completion handler's conversions between UTF-16 offsets
  (section 2.1 of RFC 2781) and byte offsets into UTF-8 text (section 3 of RFC 3629), on any bytes.

`Wrappers`, `Query` and `Text` hold shared datatypes, `ORDER BY … LIMIT` and string trimming.

Code that updates objects in place is modelled by classes whose methods change fields; each method is
tied to a function or to steps of a state machine, and the lemmas are about those. `dafny verify
dfyconfig.toml` checks everything.

## What the proofs found

Some promises hold only under conditions the code does not check itself. Each is stated with its exact
condition on the state before the call, and with a concrete case in which it fails:

- **A job's attempts never exceed their maximum.** This holds over a run exactly when every retry and every
  recovery finds a row with an attempt left (`JobTheorems.AttemptsBoundedIffGuarded`; one step:
  `AttemptsGuardIsExact`, `FinisherKeepsAttemptsIff`, `RecoveryKeepsAttemptsIff`). A finishing call updates
  its job by id alone, and recovery updates by id and status a row it read before. From the empty table, a
  worker that lost its claim and reports a failure late queues a job on its last attempt
  (`LostClaims.LateFailureQueuesExhaustedJob`), and so does recovery of an outdated reading
  (`LostClaims.StaleRecoveryQueuesExhaustedJob`); both end in a third attempt of two.
- **A finished job stays finished.** This holds over a run exactly when every finishing call finds its row
  active or already with the status it writes (`JobTheorems.FinishedForeverIffGuarded`). A late failure can
  reopen a job another worker completed: `LostClaims.LateFailureReopensFinishedJob`. Runs in which finishers
  hold their claims and recovery acts on unchanged rows meet both guards (`JobTheorems.DisciplinedIsGuarded`).
- **Retention and the reaper never delete bytes a current row points to.** With one writer of a file at a
  time no two rows share a storage key exactly when every save meets its guard: it appends a version, or no
  other row the file ever had is at the unversioned key (`RevisionTheorems.KeysUniqueIffGuarded`); then no
  bytes are lost (`RevisionTheorems.CurrentBytesAreThere`). This guard ranges over the file's whole history,
  of which the table keeps the rows not cleaned up yet. Whether a file keeps versions depends on its name. A
  file renamed from a binary to a text name and back loses its newest bytes to the reaper of its first
  revision: `Reclassification.ReclassifiedFileLosesItsBytes`. The condition on the rows still there, or
  still known to retention and the reapers: in any state of any run the bytes can be lost exactly when a row
  that is taken, queued or listed, or that retention may yet list, is at the current row's slot
  (`RevisionLoss.LostIffThreatened`).
- **The same, with writers in several processes.** The workspace lock holds within one process. Over runs of
  any writers keys stay distinct exactly when every save records a key no row ever had
  (`RevisionKeys.KeysUniqueIffSavesFree`). A process that planned its write before another one saved the same
  version overwrites that version, saves the next one at its key, and has its bytes cleaned up with the
  first: `TwoWriters.TwoProcessesLoseBytes`.
- **A role holds only permissions of its scope.** Creating a role under a used name updates the existing role
  and checks the new permissions against the scope in the request: exact condition
  `RoleTables.CreateRoleKeepsScopes`, case `RoleTables.CreateRoleCanWidenAScope`. In that very table the
  permission check then grants what the permission listing leaves out (`RoleTables.WidenedRoleIsNotListed`).
  The two evaluators agree, for all bindings, accounts and questions, exactly when each role's meaningful
  permissions fit its stored scope (`Policy.EvaluatorsAgreeIffScopesRespected`).
- **The enforcer answers for the organization it is asked about.** The ancestry cache is keyed by the
  resource alone although the cached list contains the organization: exact condition
  `Ancestry.AncestryDependsOnOrg`, case `Ancestry.AncestryDiffersBetweenOrgs`, and an enforcer that denies a
  member of the second organization what the tables give: `Enforcers.AnswerForAnotherOrg`. An entry outlives
  a change of the hierarchy in the same way, until it expires or is invalidated.
- **A permission granted on a resource reaches what is below it.** So for every policy exactly when the upper
  one's levels are among the lower one's (`Policy.InheritsIffLevels`, `Ancestry.LevelsInherited`); on a
  single-parent hierarchy in which nothing stands above an organization that is always so.
- **A published snapshot is the active one.** Pruning orders snapshots by completion time. The published row
  is sure to survive its own pruning exactly when at most one other ready row is not strictly before it
  (`SnapshotClocks.PublishedSurvivesIff`), as under any clock that has passed their completions
  (`SnapshotClocks.LaterClockSurvives`). After a clock that went back a connection can be left without an
  active snapshot: `SnapshotClocks.PublicationPrunesItself`.

## Model

| member | source | states |
|---|---|---|
| `Lru.RunKeepsBound` | internal/cache/cache.go:65-84 | in every run keys are distinct and entries never exceed the capacity |
| `Lru.SetEvictsLast` | internal/cache/cache.go:65-84 | a new key in a full cache evicts the last entry of the recency list and nothing else |
| `Lru.RecencyOrder` | internal/cache/cache.go:48-84 | in every run the list is sorted by each key's last read or write, so the last entry is the least recently used |
| `Lru.EntryIsLastWrite` | internal/cache/cache.go:48-102 | an entry of a run is always the last value set for its key and not invalidated since |
| `Lru.HitReturnsLastWrite` | internal/cache/cache.go:48-63 | a hit returns the last value set, not invalidated since and not expired |
| `Lru.HeldIff` | internal/cache/cache.go:48-102 | a key is held exactly when it was set and since then neither invalidated nor evicted nor read after its expiry |
| `Lru.EvictsLeastRecent` | internal/cache/cache.go:65-84 | a write into a full cache evicts the key touched least recently of all that are held |
| `Lru.MissesForAReason` | internal/cache/cache.go:48-102 | under a clock that does not go back a read misses exactly for a key never set, invalidated, evicted or expired, at any capacity |
| `Lru.GetIsExact` | internal/cache/cache.go:48-102 | at any capacity and under any clock a read returns the last value set for its key exactly when that is unexpired and neither invalidated nor evicted nor read too late since |
| `Lru.WriteLasts` | internal/cache/cache.go:48-84 | what is written is read until its time to live has passed, and not after |
| `Lru.InvalidationMeans` | internal/cache/cache.go:86-102 | an invalidation takes away the entry of its key, or those whose keys start with its prefix, and leaves the lookup of every other key |
| `Lru.InclusionStep` | internal/cache/cache.go:48-102 | one operation keeps the smaller cache's list a subsequence of the larger's with the size gap bounded |
| `Lru.Inclusion` | internal/cache/cache.go:65-84 | for capacities c1 <= c2 and any operations the smaller list stays a subsequence and the gap at most c2 - c1 |
| `Lru.HitsSurviveGrowth` | internal/cache/cache.go:37-63 | every hit of a cache is the same hit in any cache with a larger requested capacity |
| `MemCaches.MemCache.constructor` | internal/cache/cache.go:37-46 | a new cache is empty and holds at least one entry whatever capacity is asked for |
| `MemCaches.MemCache.Get` | internal/cache/cache.go:48-63 | a hit exactly for a key in the map that is not past its expiry, with its bytes; map and list agree afterwards, and the new recency list is that of the simple list, an expired entry included |
| `MemCaches.MemCache.Set` | internal/cache/cache.go:65-84 | map and list agree afterwards; the new recency list is the simple list's, eviction included |
| `MemCaches.MemCache.EvictOverflow` | internal/cache/cache.go:78-83 | the eviction loop cuts the recency list to the capacity from the back |
| `MemCaches.MemCache.Invalidate` | internal/cache/cache.go:86-92 | exactly the entry of the key is gone, the others in their old order |
| `MemCaches.MemCache.InvalidatePrefix` | internal/cache/cache.go:94-102 | exactly the entries with the prefix are gone, in whatever order the map is walked |
| `MemCaches.MemCache.RemoveElement` | internal/cache/cache.go:105-111 | an entry leaves list and map together |
| `Utf.DecodeOfEncode` | internal/web/handlers_completion.go:195-241 | decoding finds any scalar value that was encoded, wherever it stands in a text |
| `Utf.EncodeOfDecode` | internal/web/handlers_completion.go:195-241 | encoding what was decoded gives the bytes back, unless they were invalid |
| `CursorOffsets.Utf16OffsetToByteOffset` | internal/web/handlers_completion.go:195-217 | the loop over runes computes the scan that the lemmas below characterise |
| `CursorOffsets.ByteOffsetToUtf16Offset` | internal/web/handlers_completion.go:219-241 | the loop computes the unit count that the lemmas below characterise |
| `CursorOffsets.ByteOffsetMeans` | internal/web/handlers_completion.go:195-217 | conversion fails exactly for negative offsets, offsets past the end and offsets inside a surrogate pair, and otherwise finds a rune boundary with that many units before it |
| `CursorOffsets.Utf16OffsetMeans` | internal/web/handlers_completion.go:219-241 | the result counts the UTF-16 units of the text before the byte offset |
| `CursorOffsets.CursorSurvives` | internal/web/handlers_completion.go:195-241 | a successful conversion to bytes maps back to the same UTF-16 offset |
| `CursorOffsets.ByteSurvivesIffBoundary` | internal/web/handlers_completion.go:195-241 | a byte offset survives the trip through UTF-16 exactly when it is a rune boundary |
| `CursorOffsets.OutOfRangeBytesClamp` | internal/web/handlers_completion.go:219-241 | offsets outside the text come back as its start or its end |
| `Snapshots.SnapshotStore.Begin` | internal/schema/snapshot_store.go:79-104 | a building, inactive row with the directory's data, its generation time or else the time of the call is added; a missing directory or a used id changes nothing, and each is reported exactly then |
| `Snapshots.SnapshotStore.Publish` | internal/schema/snapshot_store.go:148-210 | each refusal exactly for its own reason and then without effect; otherwise the row is ready, active and completed now, the connection's others inactive, and of its ready generations exactly the two completed last are left |
| `Snapshots.RefusalFits` | internal/schema/snapshot_store.go:148-178 | unknown, not building, no connection, turned off by the connection or its organization, superseded by an active row not generated before it: each is answered exactly when it is so |
| `Snapshots.PublishedMeans` | internal/schema/snapshot_store.go:180-210 | activation and pruning leave, of the connection's ready generations, the two completed last or as many as there are, and everything else |
| `Snapshots.SnapshotStore.Abort` | internal/schema/snapshot_store.go:212-217 | removes the row only while it is being built |
| `Snapshots.SnapshotStore.Active` | internal/schema/snapshot_store.go:219-235 | returns the one active row of the connection, or nothing when there is none |
| `Snapshots.SnapshotStore.PurgeConnection` | internal/schema/snapshot_store.go:298-301 | removes exactly the connection's rows |
| `SnapshotRuns.PublishReplaces` | internal/schema/snapshot_store.go:148-210 | while the clock increases activation plus retention of the two newest amounts to: the new row active, the previously active one kept and inactive, older ready ones gone, other connections untouched |
| `SnapshotRuns.InvHolds` | internal/schema/snapshot_store.go:148-210 | in every run under an increasing clock each ready row's connection has an active row that completed last |
| `SnapshotRuns.ActiveIsReadyAndUnique` | internal/schema/snapshot_store.go:148-210 | in such a run at most one active row per connection, active rows ready, and no ready row without an active one |
| `SnapshotRuns.PublishLeavesTwo` | internal/schema/snapshot_store.go:148-210 | a building row of a known connection that neither the connection nor its organization turns off, generated after every active one, becomes the active row, and exactly it and the previously active one are left ready; any other publication changes nothing |
| `SnapshotRuns.ActiveNeverGoesBack` | internal/schema/snapshot_store.go:148-210 | between purges of such a run the active row of a connection is the same one or one generated strictly later |
| `SnapshotRuns.DirectoriesAreKept` | internal/schema/snapshot_store.go:79-210 | in every run, under any clock, each snapshot, published or not, holds the connection, directory and generation time it was begun with |
| `SnapshotClocks.PublishedSurvivesIff` | internal/schema/snapshot_store.go:180-207 | whatever the clock, the published row is in every answer of its own pruning's query exactly when at most one other ready row is not strictly before it |
| `SnapshotClocks.LaterClockSurvives` | internal/schema/snapshot_store.go:180-207 | which a clock past all completions of the connection ensures |
| `SnapshotClocks.PublicationPrunesItself` | internal/schema/snapshot_store.go:148-210 | a run in which the clock goes back and a publication prunes its own row, leaving no active one |
| `JobStores.JobStore.Enqueue` | internal/jobs/store.go:30-43 | a request without a key is accepted exactly when it has a type, an encodable input and, unless internal, names organization, workspace and account; its row holds what was asked, never tried, held by nobody and due exactly from the time asked for |
| `JobStores.JobStore.EnqueueSingleton` | internal/jobs/store.go:47-63 | the same for a request with a key, refused as active exactly when a queued or running job has the key; `created` says whether a row was made |
| `Jobs.NewRecordMeans` | internal/jobs/store.go:66-103 | which requests make a row, and each column of the row in terms of the request |
| `JobStores.JobStore.InsertRow` | assets/migrations_postgres/000020_job_singleton_key.up.sql:3-6 | the insert enforces the unique index on active singleton keys |
| `JobStores.JobStore.ClaimDue` | internal/jobs/store.go:300-343 | uninterrupted, returns nothing exactly when no queued job's time has come, and otherwise claims the job that comes first by highest priority, run time, creation time and id, leased until now + lease |
| `JobStores.JobStore.ClaimFirst` | internal/jobs/store.go:312-337 | claims the first candidate that is still queued and skips the others |
| `JobStores.JobStore.TryClaim` | internal/jobs/store.go:315-334 | the conditional update takes effect exactly when the row is still queued; the claim then lapses, and recovery takes the row, at exactly the times after now + lease |
| `Jobs.ClaimMeans` | internal/jobs/store.go:312-337 | a claim makes the row one worker's until now + lease and one attempt older; nothing else of the job or of any other job changes |
| `Jobs.CompleteMeans` | internal/jobs/store.go:413-429 | completing settles the job for good: unclaimed, never due or expired again, its output stored; an output that cannot be encoded, or an unknown job, changes nothing |
| `Jobs.FailOrRetryMeans` | internal/jobs/store.go:431-457 | a retry leaves the job unclaimed and due exactly from now + delay on, any other failure settles it; nothing happens exactly when it would be retried while another active job has its key |
| `Jobs.MarkCancelledMeans` | internal/jobs/store.go:459-470 | cancelling settles the job and keeps its output; no other job changes |
| `JobStores.JobStore.Heartbeat` | internal/jobs/store.go:472-491 | renews the lease only for the worker named in the claim and reports whether cancellation was asked for; a renewed claim lapses, and recovery takes the row, at exactly the times after now + lease, and nothing else changes |
| `Jobs.HeartbeatMeans` | internal/jobs/store.go:472-491 | a heartbeat of a running job nobody wants cancelled moves the end of the lease to now + lease; any other heartbeat changes nothing |
| `JobStores.JobStore.RecoverExpiredRunning` | internal/jobs/store.go:493-545 | the loop leaves the table recovery should leave, and counts the requeued and the failed rows |
| `Jobs.CancelSingletonMeans` | internal/jobs/store.go:137-148 | queued jobs of the key never run, running ones learn of it at their next heartbeat, others are untouched; the key is free exactly when none of its jobs is running |
| `Jobs.CancelOwnedMeans` | internal/jobs/store.go:252-298 | only a user job of that organization, workspace and account is affected: a queued one never runs, the worker of a running one is told to stop, a finished one stays, and asking again changes nothing |
| `Jobs.OnlyItsAccountCancels` | internal/jobs/store.go:252-298 | a job just enqueued is cancelled exactly by the organization, workspace and account it was enqueued for |
| `JobStores.JobStore.PruneCompleted` | internal/jobs/store.go:547-576 | removes only finished jobs of before the limit, none of which finished later than one that is left, never more than the batch, and all of them when fewer |
| `JobStores.RecoveryMeans` | internal/jobs/store.go:493-545 | recovery changes exactly the running rows whose lease has lapsed, makes them due from now on when attempts are left and fails them otherwise; no lapsed row remains |
| `JobStores.ChangedIffExpired` | internal/jobs/store.go:493-545 | a row changes exactly when it was running with a lapsed lease, so a renewed claim is never taken |
| `JobStores.RecoveryCounts` | internal/jobs/store.go:493-545 | requeued and failed counts add up to the rows changed |
| `JobStores.FirstCandidate` | internal/jobs/store.go:303-311 | the first row of the candidate page is due and comes before every other due row of the table |
| `JobRuns.InvHolds` | internal/jobs/store.go:300-545 | in every run, whoever finishes and recovers: rows well formed, every claim ever handed out behind or at its row, claims of a job distinct, no active key held twice |
| `JobTheorems.AttemptsAreClaims` | internal/jobs/store.go:300-545 | in every run a job's attempts are exactly its successful claims |
| `JobTheorems.AttemptsGuardIsExact` | internal/jobs/store.go:413-545 | one step keeps attempts within their maximum, and queued jobs with one left, exactly when a retry or recovery in it finds an attempt left |
| `JobTheorems.AttemptsBoundedIffGuarded` | internal/jobs/store.go:300-545 | the same over whole runs: bounded throughout exactly when every retry and recovery meets its guard |
| `JobTheorems.FinisherKeepsAttemptsIff` | internal/jobs/store.go:413-470 | a finishing call from whoever keeps the bound unless it requeues a row with no attempt left |
| `JobTheorems.RecoveryKeepsAttemptsIff` | internal/jobs/store.go:503-537 | recovering a row read earlier keeps the bound exactly when it runs no more, has an attempt left, or was read on its last one |
| `JobTheorems.FinishGuardIsExact` | internal/jobs/store.go:413-470 | one step leaves every finished status alone exactly when its finishing call finds its row active or with the status it writes |
| `JobTheorems.FinishedForeverIffGuarded` | internal/jobs/store.go:413-545 | the same over whole runs: finished statuses are never left exactly when every finishing call meets its guard |
| `JobTheorems.StatusChangesAreBounded` | internal/jobs/store.go:413-545 | in a guarded run a job changes status at most 2 * max_attempts times, fewer while it is active |
| `JobTheorems.DisciplinedIsGuarded` | internal/jobs/store.go:413-545 | finishers that hold their claim and recovery of unchanged rows meet both guards |
| `JobTheorems.FinishedForever` | internal/jobs/store.go:413-545 | when finishers hold their claim a finished row never changes again in any column |
| `JobTheorems.OneActivePerKey` | assets/migrations_postgres/000020_job_singleton_key.up.sql:3-6 | in every run two active jobs with one non-empty singleton key are the same job |
| `JobTheorems.RunningJobCanBeRetried` | internal/jobs/store.go:431-457 | so in every run a retry of an active job with attempts left takes effect: the index never stands in its way |
| `JobTheorems.RequeuedBetween` | internal/jobs/store.go:431-457 | in any run a job that was not queued and is queued again was put from another status back to queued by a retry or a recovery in between |
| `JobTheorems.ClaimsAreSeparated` | internal/jobs/store.go:300-343 | in any run, however workers interleave, between two claims of one job a retry or a recovery puts it back in the queue |
| `JobTheorems.ClaimIsHeld` | internal/jobs/store.go:315-334 | a successful claim leaves the worker holding the job |
| `JobTheorems.ClaimEndsOnlyByFinishOrRecovery` | internal/jobs/store.go:413-545 | in every run a held claim stays held through a step exactly when the step neither finishes nor recovers that job |
| `JobTheorems.OneHolder` | internal/jobs/store.go:300-343 | in every run, of all claims ever handed out for a job at most one is held |
| `LostClaims.LateFailureReopensFinishedJob` | internal/jobs/store.go:431-457 | a run from the empty table in which a failure reported after the claim was lost queues a succeeded job again |
| `LostClaims.LateFailureQueuesExhaustedJob` | internal/jobs/worker.go:190-261 | a run in which such a report queues a job another worker runs on its last attempt, and a third attempt of two follows |
| `LostClaims.StaleRecoveryQueuesExhaustedJob` | internal/jobs/store.go:493-545 | a run in which recovery of an outdated reading takes a valid claim and leads to a third attempt of two |
| `Ancestry.QueryAncestors` | internal/access/enforcer.go:169-187 | the recursive query ends on every finite hierarchy, cyclic ones included, with exactly the transitive closure |
| `Ancestry.InAncestors` | internal/access/enforcer.go:152-210 | membership in the closure is reachability by parent rows |
| `Ancestry.IsAncestorTransitive` | internal/access/enforcer.go:152-210 | being above is transitive |
| `Ancestry.LevelsMean` | internal/access/enforcer.go:148-210 | a permission on a resource may come from the resource, from what is above it and, when no organization is, from the organization asked about; for an organization only from itself |
| `Ancestry.AncestryDependsOnOrg` | internal/access/enforcer.go:152-210 | the cached list is the same for two organizations exactly when they are equal or the closure already holds an organization |
| `Ancestry.AncestryDiffersBetweenOrgs` | internal/access/enforcer.go:152-210 | a workspace no row mentions has different lists under organizations 1 and 2 |
| `Ancestry.LevelsInherited` | internal/access/enforcer.go:152-210 | the levels of an ancestor are among those of a resource unless the hierarchy names an organization above the lower one only, and not the one asked about |
| `Ancestry.TreeLevelsInherited` | internal/access/enforcer.go:152-210 | on a single-parent hierarchy with organizations at the top they always are |
| `Permissions.ResourcePermissionsAreOrgPermissions` | internal/access/permissions.go:98-153 | every permission meaningful on some resource may be held by an organization role |
| `Permissions.ResourcePermissionsAreDistinct` | internal/access/permissions.go:134-153 | no permission is listed twice for a resource type |
| `Names.SortedStrictly` | internal/access/enforcer.go:57-85 | sorting names without repeats gives a strictly increasing list of the same names |
| `Names.PrecedesMeans` | internal/access/enforcer.go:57-85 | a name comes before another exactly when it is its proper prefix or smaller at the first difference |
| `Permissions.BuiltinRolesFitTheirScope` | internal/access/permissions.go:158-194 | the built-in roles hold only permissions valid for their scope |
| `Permissions.ScopesNest` | internal/access/permissions.go:95-126 | what a role may hold for a narrower scope it may hold for every wider one |
| `Permissions.ResourcesAndScopes` | internal/access/permissions.go:95-153 | what has a meaning on a resource is what a role of its scope may hold, and on a workspace its deletion as well |
| `Permissions.BuiltinRolesHold` | internal/access/permissions.go:158-194 | owners hold every organization permission, workspace administrators every workspace permission, members the read permission only |
| `Permissions.AdministratorsHold` | internal/access/permissions.go:158-172 | administrators hold all that owners do, except to delete the organization or to transfer it |
| `Policy.CheckPolicy` | internal/access/enforcer.go:277-293 | grants exactly when some binding at some level matches the account and its role holds the permission; `OneBindingReaches` says whom a binding matches |
| `Policy.EffectivePolicyPermissions` | internal/access/enforcer.go:295-322 | lists exactly the permissions of matching roles valid for the role's scope and for the target |
| `Policy.OneBindingReaches` | internal/access/enforcer.go:324-347 | a single binding reaches, at its own level, exactly the account, the members of the team, of the organization or of the workspace it names, by its type, and nobody for another type |
| `Policy.ListingIsChecking` | internal/access/enforcer.go:277-322 | when roles hold only permissions of their scope, listed means granted and meaningful on the target |
| `Policy.EvaluatorsAgreeIffScopesRespected` | internal/access/enforcer.go:277-322 | for given roles the two evaluators agree under all bindings, accounts, levels and questions exactly when every role's meaningful permissions fit its stored scope |
| `Policy.OutOfScopeIsNotListed` | internal/access/enforcer.go:277-322 | any permission outside its role's scope can be granted and meaningful without being listed |
| `Policy.SameAnswersIffSameLevels` | internal/access/enforcer.go:277-293 | two sets of levels give the same answers under every policy exactly when they are equal |
| `Policy.InheritsIffLevels` | internal/access/enforcer.go:277-293 | grants pass from one set of levels to another for all policies exactly when the first is contained in the second |
| `Policy.GrantsAreInherited` | internal/access/enforcer.go:152-293 | on a proper tree a permission granted on a resource is granted on everything below it |
| `RoleTables.InsertRoleSound` | internal/access/enforcer.go:633-676 | inserting a role keeps ids and names unique and touches at most the description of a role of that name |
| `RoleTables.ScopesValidRespected` | internal/access/enforcer.go:213-322 | a table whose roles fit their scopes gives a policy whose roles do |
| `RoleTables.CreateRoleKeepsScopes` | internal/access/enforcer.go:453-478 | creating a role keeps the scope invariant exactly when the name is unused or the permissions fit the stored scope |
| `RoleTables.CreateRoleCanWidenAScope` | internal/access/enforcer.go:453-478 | a create under a used name gives a workspace's stored connection role a workspace permission |
| `RoleTables.WidenedRoleIsNotListed` | internal/access/enforcer.go:277-322 | in the table that leaves, the permission check grants the new permission and the listing leaves it out |
| `AccessRules.GrantsMeans` | internal/access/enforcer.go:213-347 | a permission is granted exactly when a binding row of the organization at one of the levels names the account, or a team, organization or workspace it is a member of, and binds a role of the organization that has the permission's row |
| `AccessRules.ListsMeans` | internal/access/enforcer.go:213-347 | it is listed exactly when the target has it and such a role's own scope does |
| `AccessRules.CreateRoleMeans` | internal/access/enforcer.go:453-478 | each refusal exactly for its reason; a success adds the permissions to a new role, or to the one that has the name, and changes nothing else |
| `AccessRules.UpdateRoleMeans` | internal/access/enforcer.go:509-561 | refused exactly for another organization's role, a built-in one, a permission out of scope, a repeated permission or a taken name; otherwise name, description and permissions are the new ones and nothing else changes |
| `AccessRules.DeleteRoleMeans` | internal/access/enforcer.go:565-605 | refused exactly for another organization's role, a built-in one or a bound one, with the number of its bindings; otherwise the role and its permissions go and nothing else |
| `AccessRules.BindMeans` | internal/access/enforcer.go:608-615 | refused exactly for an unknown role not bound like this already; otherwise the one binding row is there, added only if it was not |
| `AccessRules.SeedRoleMeans` | internal/access/enforcer.go:350-449 | seeding a role adds its row, its permissions and its one binding, and at most changes the description of a role of that name |
| `AccessRules.AllSeeded` | internal/access/enforcer.go:350-449 | where the names are free every built-in role is there with all its permissions, bound to the members or to the creator as it should be |
| `AccessRules.SeedingBindsOnly` | internal/access/enforcer.go:350-449 | seeding binds nobody but the creator and the members of the place, there, and takes no binding away |
| `RoleTables.UpdateRoleKeepsScopes` | internal/access/enforcer.go:509-561 | updating a role keeps the scope invariant |
| `RoleTables.SeedRoleKeepsScopes` | internal/access/enforcer.go:350-449 | seeding one role keeps it exactly when the name is unused or the permissions fit the stored scope |
| `RoleTables.SeedingKeepsScopes` | internal/access/enforcer.go:350-449 | seeding all built-in roles keeps it exactly when that holds of each of them beforehand |
| `Enforcers.Enforcer.Can` | internal/access/enforcer.go:27-52 | space owners may do everything; otherwise the answer is yes exactly when a binding row of the organization grants it at one of the levels seen: those of an unexpired ancestry entry, as it was made, or fresh ones, which are then remembered |
| `Enforcers.AskTwice` | internal/access/enforcer.go:152-210 | the first question about a resource decides its levels for the next one, under whatever organization |
| `Enforcers.AnswerForAnotherOrg` | internal/access/enforcer.go:27-52 | so a member of a second organization is denied what the tables give |
| `Enforcers.Enforcer.EffectivePermissions` | internal/access/enforcer.go:57-85 | a sorted list without duplicates holding exactly what binding rows grant at the levels seen within the role's scope and meaningful on the target, and, when roles fit their scopes, exactly what is granted and meaningful |
| `Enforcers.Enforcer.AncestryFor` | internal/access/enforcer.go:152-210 | the levels of an unexpired entry, or the closure plus the organization, which is then cached for fifteen minutes with the organization asked about; no other unexpired entry changes |
| `Enforcers.QueryAncestry` | internal/access/enforcer.go:165-208 | the query's rows plus the organization when it is missing |
| `Enforcers.Enforcer.LoadPolicy` | internal/access/enforcer.go:213-274 | every unexpired cached policy equals the one freshly built from the tables |
| `Enforcers.GroupPermissionRows` | internal/access/enforcer.go:225-245 | the loop over permission rows groups them by role |
| `Enforcers.GroupBindingRows` | internal/access/enforcer.go:248-270 | the loop over binding rows groups them by resource |
| `Enforcers.Enforcer.SeedOrg` | internal/access/enforcer.go:350-390 | seeds the organization roles and leaves no stale cached policy; it binds nobody but the owner and the members at the organization, and in a new one the owner then may do everything and members may read |
| `Enforcers.Enforcer.SeedWorkspace` | internal/access/enforcer.go:394-449 | seeds the workspace roles and leaves no stale cached policy; it binds nobody but the creator and the members at the workspace, and in a new one the creator then has the administrator's permissions and members may read |
| `Enforcers.OrgSeedGrants` | internal/access/enforcer.go:350-390 | what seeding an organization grants, said of the permission check |
| `Enforcers.WorkspaceSeedGrants` | internal/access/enforcer.go:394-449 | the same for a workspace |
| `Enforcers.Enforcer.CreateRole` | internal/access/enforcer.go:453-478 | refused exactly for a permission out of scope, repeated or already held, without effect; otherwise the named role gains the permissions and nothing else changes, and no cached policy is stale |
| `Enforcers.Enforcer.UpdateRole` | internal/access/enforcer.go:509-561 | the same for replacing a role's name, description and permissions: only by its organization, never of a built-in role |
| `Enforcers.Enforcer.DeleteRole` | internal/access/enforcer.go:565-605 | the same for deleting a role; built-in and bound roles are refused |
| `Enforcers.Enforcer.BindRole` | internal/access/enforcer.go:608-615 | one binding row is added, or none when it is there; refused exactly for an unknown role; no cached policy is stale |
| `Enforcers.Enforcer.UnbindRole` | internal/access/enforcer.go:618-625 | exactly the binding goes, and only if it is the organization's; roles and permissions stay, and no cached policy is stale |
| `Enforcers.Enforcer.InvalidateAncestry` | internal/access/enforcer.go:712-714 | drops exactly the resource's cached ancestry |
| `FileTree.InsertKeepsForest` | internal/database/workspace_files.go:93-112 | a new node under a fitting parent keeps the live nodes a forest |
| `FileTree.MoveKeepsForestIff` | internal/database/workspace_files.go:286-319 | a move under a fitting parent keeps the forest exactly when the parent is not in the moved subtree |
| `FileTree.DeleteKeepsForest` | internal/database/workspace_files.go:322-341 | tombstoning a subtree marks exactly its live nodes, changes nothing else and keeps the forest |
| `FileTree.EveryChainEnds` | internal/database/workspace_files.go:207-226 | every parent chain of a live node reaches a live root of the same tree |
| `FileTree.ValidateLocation` | internal/database/workspace_files.go:594-615 | the walk up ends, accepts exactly the fitting parents outside the subtree, and reports a cycle exactly for those inside |
| `FileTree.ListSubtree` | internal/database/workspace_files.go:242-260 | the recursive query ends with exactly the live nodes below |
| `FilePaths.JoinInjective` | internal/files/service.go:872-890 | joining valid segments loses nothing |
| `FilePaths.ValidIffKept` | internal/files/service.go:657-662 | among names without slashes the valid ones are exactly those that cleaning a key path leaves where they stand |
| `FilePaths.BaseSpellsTree` | internal/files/service.go:872-890 | a key spells owner, workspace, tree and path in this order |
| `FilePaths.ValueOfDecimal` | internal/files/service.go:872-890 | a number in a key reads back as that number |
| `FilePaths.BaseInjective` | internal/files/service.go:877-889 | keys of different trees differ, and within one tree the paths decide |
| `FilePaths.PathInjective` | assets/migrations_postgres/000013_workspace_files.up.sql:21-26 | with unique names in each folder no two live nodes of a tree share a path |
| `FilePaths.PathInside` | internal/files/service.go:894-927 | a move replaces exactly the leading part of every path in the moved subtree |
| `FilePaths.PathOutside` | internal/files/service.go:894-927 | and leaves every other path alone |
| `FilePaths.NewPathsAreNew` | internal/files/service.go:965-1001 | after a real move no path of the subtree is one any live node of the tree had before |
| `DirectoryKeys.KeyInjective` | internal/files/service.go:872-890 | no two live nodes share a storage key |
| `DirectoryKeys.MoveKeepsTree` | internal/database/workspace_files.go:286-319 | an accepted move keeps forest, unique names and valid names |
| `DirectoryKeys.SwapGivesNewKey` | internal/files/service.go:906-925 | replacing the old root of a descendant's key by the new root gives the key of its new path |
| `DirectoryKeys.NewKeysAreNew` | internal/files/service.go:965-1001 | no new key of a moved subtree was anyone's key before |
| `DirectoryKeys.MoveKeepsMirror` | internal/files/service.go:894-927 | after a move every live file's content is again at the key its visible path spells |
| `DirectoryKeys.SubtreeHasRoot` | internal/files/service.go:912-914 | every key of a subtree starts at the subtree's own key, so the prefix filter drops none |
| `Relocations.StageOne` | internal/files/service.go:966-999 | one copy: refused when the destination is taken, skipped when there is nothing to copy, no effect on failure; any other failure is that of a call |
| `Relocations.StageRelocations` | internal/files/service.go:965-1002 | success adds exactly the copies and means that no call failed; failure loses nothing and leaves exactly the old bytes when no call fails besides the one reported; a taken destination is reported only for a plan that has one; every state on the way extends the old bytes by copies |
| `Relocations.RollbackRelocations` | internal/files/service.go:1006-1014 | removes copies only, and exactly all of them when no call fails |
| `Relocations.FinishRelocations` | internal/files/service.go:1018-1027 | removes copied-from slots only, and exactly all of them when no call fails |
| `Relocations.RelocatedReadsTheSame` | internal/files/service.go:965-1027 | with distinct new keys apart from the old ones, each relocated slot reads what the old one read and all others read as before |
| `DirectoryMoves.PlanSeparates` | internal/files/service.go:894-927 | the plan of a real move has pairwise distinct new keys, none of them an old key, and moves every row |
| `DirectoryMoves.RekeyedIsRelocated` | internal/database/workspace_files.go:309-316 | the planned key updates put exactly the subtree's rows at their files' new keys |
| `DirectoryMoves.MoveKeepsReads` | internal/files/service.go:294-367 | after copies, metadata update and clean-up, whatever deletes failed, every live file reads the bytes it read before |
| `FileAccess.AuthorizedMeans` | internal/files/service.go:666-723 | a private file is reached only by its owner, a shared one only with the permission, nothing outside the scope's tree |
| `FileAccess.TreeAuthorizedMeans` | internal/files/service.go:696-723 | whose trees a caller may use: a private one in a personal workspace or as a member, and it is then the caller's own; a shared one with the permission; and which error is answered otherwise |
| `FileAccess.RefusedMeans` | internal/files/service.go:666-723 | a caller learns that something is forbidden only of a live shared file of the scope, and otherwise that it is not there |
| `Text.TrimSpaceMeans` | internal/files/service.go:240-242 | trimming leaves what lies between two ends all of spaces, and starts and ends in none |
| `Text.TrimQuotesMeans` | internal/files/service.go:560 | the same for quotes |
| `FileRequests.QuotesDoNotMatter` | internal/files/service.go:556-565 | a write passes with the hash bare exactly when it passes with it in double quotes |
| `FileRequests.PlaceTakenMeans` | assets/migrations_postgres/000013_workspace_files.up.sql:21-26 | the name index rejects a move exactly when names would no longer be unique |
| `FileRequests.CheckCreate` | internal/files/service.go:236-277 | passes exactly the requests of a caller who may use the tree for a known type, a valid name, a live folder of that tree and a name no live sibling has; each refusal has its condition; the node is what was asked for, in every column |
| `FileRequests.CheckUpdate` | internal/files/service.go:299-327 | passes exactly the authorised, well-named updates whose requested place is a live folder of the same tree outside the node's subtree, and reports a cycle exactly for one inside; the node then has the requested parent when one was given and the trimmed name when one was given, and is otherwise as it was |
| `FileRequests.CheckWrite` | internal/files/service.go:534-565 | when no call fails passes exactly an authorised caller who, for existing content, knows the hash of the bytes really stored |
| `DirectoryChanges.PlanRows` | internal/files/service.go:907-926 | one relocation for each row whose key starts at the old root, none for the others |
| `DirectoryChanges.MoveDone` | internal/files/service.go:294-367 | a committed move leaves a mirrored tree with all reads kept, also when nothing changes place |
| `DirectoryChanges.MoveReadsThrough` | internal/files/service.go:318-366 | a move that commits keeps all reads in every state it can be stopped in: while it copies, at its metadata update and throughout its clean-up |
| `DirectoryChanges.StagingKeepsReads` | internal/files/service.go:318-366 | however many of a move's copies are made, every live file reads what it read |
| `DirectoryChanges.BlockedMeans` | internal/files/service.go:965-990 | a plan runs into a taken destination exactly when bytes are at the new key of some row of the subtree |
| `DirectoryChanges.SaveKeepsMirror` | internal/database/workspace_files.go:523-585 | an unversioned save keeps every file's content at its key |
| `DirectoryChanges.DeleteReads` | internal/files/service.go:472-503 | however far the byte deletes got, files outside the subtree read as before |
| `DirectoryFiles.DirectoryFiles.FilePath` | internal/database/workspace_files.go:207-239 | the walk fails exactly for an unfit parent and otherwise returns the visible path |
| `DirectoryFiles.DirectoryFiles.ContentKey` | internal/files/service.go:872-890 | the key is base and visible path, joined |
| `DirectoryFiles.DirectoryFiles.PlanRelocations` | internal/files/service.go:894-927 | nothing for an unchanged place, an error exactly for an unfit parent, otherwise one relocation for every row of the subtree |
| `DirectoryFiles.DirectoryFiles.UpdateLocation` | internal/database/workspace_files.go:286-319 | all or nothing: an accepted move with the planned keys, or no change |
| `DirectoryFiles.DirectoryFiles.Update` | internal/files/service.go:294-367 | keeps the mirror; a success gives the node the requested parent and trimmed name, each when given, changes nothing else of the tree and keeps what every live file reads, in every state it can be stopped in, and leaves nothing at the old keys when no call fails; a failure changes no row and loses no bytes, in every such state, and leaves exactly the old ones when no call fails besides the one reported; when no call fails it succeeds exactly for an authorised, acyclic update of a free place with no bytes at the new keys |
| `DirectoryFiles.DirectoryFiles.Create` | internal/files/service.go:236-277 | adds one node with the columns asked for in the caller's tree, or nothing; when no call fails, exactly for the requests that may pass |
| `DirectoryFiles.DirectoryFiles.WriteContent` | internal/files/service.go:534-598 | when no call fails, succeeds exactly for a caller who knows the hash of the stored bytes; in every state it can be stopped in other files read what they read and the file the old bytes or the new; the row is the current one in place or a first one, on the active backend at the key of the visible path, with the hash; a failed write changes no row |
| `DirectoryFiles.DirectoryFiles.SaveContent` | internal/database/workspace_files.go:523-585 | the current row in place or a first row with version 1, and the mirror kept |
| `DirectoryFiles.DirectoryFiles.Delete` | internal/files/service.go:472-503 | tombstones the subtree and deletes its bytes; nothing before the metadata changes, nothing ever outside the subtree, wherever it stops; when no call fails, exactly for an authorised caller |
| `Revisions.ObjectKeyInjective` | internal/files/service.go:840-850 | no two files share an object key |
| `Revisions.SuffixInjective` | internal/files/service.go:840-850 | versions of a file differ in their key, and from its unversioned key |
| `Revisions.ObjectKeySpells` | internal/files/service.go:840-850 | a key spells workspace, file and version, or that the content is unversioned |
| `RevisionKeys.SaveKeepsKeysIffFree` | internal/files/service.go:569-590 | a save of any writer keeps all keys distinct exactly when the key it records is free |
| `RevisionKeys.KeysUniqueIffSavesFree` | internal/files/service.go:569-590 | over runs of any writers no two rows share a key exactly when every save records a free one |
| `RevisionKeys.FreeIffGuarded` | internal/files/service.go:569-579 | with one writer of a file at a time a key is free exactly when the write appends a version or no other row the file ever had is at the key it overwrites |
| `RevisionKeys.SharedKey` | internal/files/service.go:840-850 | a write under way shares its key only with rows of its own file, at the unversioned key |
| `RevisionSteps.GivenUpSurvives` | internal/database/workspace_files.go:503-520 | a row past the newest kept ones stays so when another such row is deleted |
| `RevisionSteps.InvStep` | internal/files/service.go:534-638 | every step of writers, retention and reapers keeps the invariant |
| `RevisionSteps.InvHolds` | internal/files/service.go:534-638 | in every run of any writers versions of a file are distinct, the current one greatest, and queued, listed and taken rows given up |
| `RevisionSteps.CandidateIsGivenUp` | internal/database/workspace_files.go:397-429 | what retention lists is neither current nor among the newest kept rows |
| `RevisionTheorems.VersionsAreNeverReused` | internal/database/workspace_files.go:523-585 | no version number is used for a second row of a file, not even after the first is gone |
| `RevisionTheorems.CurrentIsNewest` | internal/database/workspace_files.go:523-585 | the current row has a strictly greater version than every other row of its file |
| `RevisionTheorems.ProtectedIsNeverQueued` | internal/database/workspace_files.go:397-454 | neither the current row nor the newest kept ones are ever in the deletion queue |
| `RevisionTheorems.ProtectedIsNeverRemoved` | internal/database/workspace_files.go:503-520 | nor are they ever removed, however steps interleave |
| `RevisionTheorems.KeysUniqueIffGuarded` | internal/files/service.go:840-867 | with one writer of a file at a time no two rows ever written share a key exactly when every save meets its guard |
| `RevisionTheorems.ConstantUseIsGuarded` | internal/files/service.go:862-867 | while no rename changes whether a file keeps versions every save meets its guard |
| `RevisionTheorems.CurrentBytesAreThere` | internal/files/service.go:612-638 | in every guarded run the bytes of each live file's current row exist |
| `RevisionTheorems.OthersKeepReads` | internal/files/service.go:534-638 | while keys are distinct only a file's own save, delete or overwrite in place can change what it reads |
| `RevisionTheorems.ReadsLast` | internal/files/service.go:612-638 | until then a file reads the same bytes through any guarded run of other writes, retention and reapers |
| `RevisionTheorems.PendingBytesStay` | internal/files/service.go:579-590 | between the bytes and the metadata of a guarded write nothing touches what was put |
| `RevisionTheorems.LastWriteIsRead` | internal/files/service.go:534-598 | in a guarded run a file reads the bytes of its last write, whatever happens between the write's halves and after it |
| `Reclassification.ReclassifiedFileLosesItsBytes` | internal/files/service.go:862-867 | a run from the empty state whose last save does not meet its guard and after which a reaper deletes the bytes the file reads |
| `TwoWriters.TwoProcessesLoseBytes` | internal/files/service.go:780-785 | a run in which a stale write overwrites a version another process has saved and saves the next one at its key, after which clean-up may delete the current bytes |
| `RevisionLoss.LostIffThreatened` | internal/files/service.go:534-638 | in any state of any run clean-up can leave a file without the bytes it reads exactly when a row taken, or one it may come to take, is at the current slot |
| `RevisionLoss.UniqueKeysAreSafe` | internal/files/service.go:612-638 | which cannot be while all keys are distinct |
| `RevisionTraces.CleaningKeepsReads` | internal/files/service.go:600-638 | after guarded saves retention and reaping, finished or interrupted anywhere, change what no live file reads |
| `RevisionTraces.CleaningKeepsProtected` | internal/database/workspace_files.go:503-520 | however writes went, they remove neither a current row nor one of the newest kept ones |
| `RevisionTraces.WriteKeepsKeysIffGuarded` | internal/files/service.go:534-598 | a whole write keeps all keys distinct exactly when it meets its guard |
| `RevisionTraces.WriteKeepsOthers` | internal/files/service.go:534-598 | a write, whole or broken off after its bytes, guarded or not, leaves other files' reads alone |
| `ObjectTraces.ListingHoldsCandidates` | internal/database/workspace_files.go:415-428 | past the first rows of the newest-first listing stand exactly the rows with that many newer ones |
| `ObjectTraces.CleaningMeans` | internal/files/service.go:600-638 | any clean-up leaves protected rows, and every file whose bytes cannot be lost to it reads what it read |
| `ObjectStops.CleanUpMeans` | internal/files/service.go:610-638 | every state a clean-up passes through, not only its last, keeps protected rows and unthreatened reads, lets bytes go before rows, and is one a service can start from |
| `ObjectStops.CleansUpOn` | internal/files/service.go:610-638 | pieces of a clean-up, each with bytes going before rows, make up one in which they do |
| `ObjectStops.TakenNamesItsRow` | internal/files/service.go:612-635 | a deletion a reaper has read names the row's own bytes as long as the row is there, and no file has that row as its current one |
| `ObjectFiles.ObjectFiles.Create` | internal/files/service.go:236-277 | adds one node with the columns asked for in one transaction, or nothing; when no call fails, exactly for the requests that may pass |
| `ObjectFiles.ObjectFiles.Update` | internal/files/service.go:294-367 | gives the node the requested parent and trimmed name, each when given, in one transaction, and changes nothing else, or nothing at all; a cycle is reported exactly for a parent in the own subtree; when no call fails it succeeds exactly for an authorised, acyclic update of a free place |
| `ObjectFiles.ObjectFiles.Delete` | internal/files/service.go:472-503 | tombstones the subtree, then deletes the bytes of all its revisions; wherever it stops the files left read as before, guarded or not, and a service can start again |
| `ObjectFiles.ObjectFiles.ListRetentionCandidates` | internal/database/workspace_files.go:397-429 | lists, newest first, exactly the older rows of a live file that at least as many newer older rows as are kept stand before; a negative limit keeps none |
| `ObjectFiles.ObjectFiles.EnqueueDeletions` | internal/database/workspace_files.go:433-454 | all rows or none, rows already queued skipped, nothing when a row is gone |
| `ObjectTraces.QueueMeans` | internal/database/workspace_files.go:433-454 | then every row of the list is queued, what was queued is as it was, and what is new is a first attempt, due at once, at a row not queued before and at its own slot |
| `ObjectFiles.ObjectFiles.ListDeletionBatch` | internal/database/workspace_files.go:457-471 | rows whose next attempt is due, the longest waiting first: all of them while there is room, otherwise as many as there is room for with none left out that waits longer; none for a limit below one |
| `ObjectFiles.ObjectFiles.MarkFailed` | internal/database/workspace_files.go:484-499 | one more attempt, and the next one after the delay, a minute when none is given; nothing else changes |
| `ObjectFiles.ObjectFiles.DeleteIfNotCurrent` | internal/database/workspace_files.go:503-520 | deletes the row, and its queue row with it, exactly when no file points to it |
| `ObjectFiles.ObjectFiles.SaveContent` | internal/database/workspace_files.go:523-585 | the next version, a first version, or the current row in place |
| `ObjectFiles.ObjectFiles.WriteContent` | internal/files/service.go:534-608 | when no call fails, succeeds exactly for a caller with the hash of the stored bytes and then has queued every older row past the kept ones; the row is a further version at its own key, or the current or a first one at the unversioned key, with backend and hash; the file reads the new bytes, other files what they read before; wherever it stops a service can start again, other files read as before and the file the old bytes or the new; keys stay distinct exactly when the write meets its guard, and then a sound state stays sound, at every stop |
| `ObjectFiles.ObjectFiles.Reap` | internal/files/service.go:610-638 | removes no protected row and changes what no unthreatened file reads, after guarded writes what no file reads; wherever it stops that holds too, and content rows are gone only after their bytes and queue rows only after both; the tree stays and rows only go; what it counts as processed was due and is gone from store, table and queue, and when no call fails that is every row due, or as many as the batch holds with none left out that waits longer; when one call fails and the batch goes on, one row of that page is put off with one more attempt and the others are processed |
| `ObjectFiles.FailThenReap` | internal/files/service.go:610-638 | a deletion that failed is worked on again by a reap with room to spare exactly from its next attempt on, and then it is gone |
| `ObjectFiles.ReapHistory` | internal/files/service.go:600-638 | when all a file has no room for is queued and due, a reap with room to spare leaves no older row of it past the kept ones |
| `ObjectFiles.ObjectFiles.ReapOne` | internal/files/service.go:618-635 | bytes, then content row, then queue row: in every state it can be stopped in a row is gone only after its bytes and a queue row only after both; reaped exactly when no call fails, and put off with one more attempt when one does before the last |

## Left out

- SQL text, transactions, connection pools and migrations: tables are maps changed by atomic steps; unique indexes, foreign keys and cascades are rules of those steps; errors of reading queries are modelled only where a call carries on after one.
- HTTP handlers, routing, configuration, mail, tokens, logging and the frontend.
- Encryption, compression and JSON: contents and job payloads are opaque; the content hash is any function of the bytes.
- Mutexes and goroutines: components are sequential except for the job queue's workers and the revision machine, where every call is a step of its own.
- Time: instants are integers handed to each call; the main snapshot runs assume a strictly increasing clock.
- Identifiers are numbers, compared as the program compares its sortable ids; a new id is one the table has not used.
- The principals query and its cache: the account's teams and memberships are an argument of the permission check.
- Job events, listings, pagination and filters, and the worker loop around the job store.
- Snapshot object and relationship rows, which are stored beside a snapshot and deleted with it.
- Seeding: the order in which the built-in role tables are walked is fixed.
- Enforcers.Enforcer.SeedWorkspace: does not write the creator's membership row nor invalidate the cached principals, which are outside the model.
- Workspace names and organization slugs: fixed, with the slug made of a name an argument; keys are joined from valid segments, which cleaning leaves alone.
- Files and folders: duplication, purging after a failed create, listing, searching and reading back content.
- Symbolic links, temporary files and pruning of empty directories in the byte store; a put happens fully or not at all.
- The history of content rows kept beside the tables in object storage mode serves the statements; the program has no such table.
- The classification of a file as text: any function of name, media type and kind.
- Re-encryption of stored content, which rewrites bytes in place.
- DirectoryFiles.DirectoryFiles.WriteContent: after a failed metadata update the file may already read the new bytes, as in the program.
- ObjectFiles.ObjectFiles.EnqueueDeletions: the numbers consumed by skipped inserts are not modelled.
