/** The queries of object storage mode, and its calls as traces of the state machine. */
module ObjectTraces {
  import opened Wrappers
  import opened Query
  import opened FileTree
  import opened FilePaths
  import opened Relocations
  import opened StoredFiles
  import opened FileRequests
  import opened Revisions
  import opened RevisionRuns
  import opened RevisionSteps
  import opened RevisionKeys
  import opened RevisionTheorems
  import opened RevisionTraces
  import opened RevisionLoss

  // ---------------------------------------------------------------- the retention query

  predicate NewestFirst(a: Content, b: Content) {
    a.version > b.version || (a.version == b.version && a.id > b.id)
  }

  function OlderRows(files: Files, contents: Contents, f: nat): set<Content> {
    set c | c in contents && contents[c].fileID == f && !IsCurrent(files, contents[c]) :: contents[c]
  }

  function Ids(rows: seq<Content>): (ids: seq<nat>)
    ensures |ids| == |rows| && forall i | 0 <= i < |rows| :: ids[i] == rows[i].id
  {
    seq(|rows|, i requires 0 <= i < |rows| => rows[i].id)
  }

  /** All the older rows of a file, the newest first. */
  ghost predicate IsListing(files: Files, contents: Contents, f: nat, page: seq<Content>) {
    && (forall i | 0 <= i < |page| :: IsOlderRow(files, contents, f, page[i]))
    && (forall i, j | 0 <= i < j < |page| :: page[i].version > page[j].version)
    && (forall r | r in contents && IsOlderRow(files, contents, f, contents[r]) :: contents[r] in page)
  }

  ghost predicate IsOlderRow(files: Files, contents: Contents, f: nat, row: Content) {
    row.id in contents && contents[row.id] == row && row.fileID == f && !IsCurrent(files, row)
  }

  lemma PageIsListing(db: Tables, f: nat, page: seq<Content>, limit: nat)
    requires TablesOk(db) && IsPage(OlderRows(db.files, db.contents, f), NewestFirst, limit, page)
    requires |OlderRows(db.files, db.contents, f)| < limit
    ensures IsListing(db.files, db.contents, f, page)
  {
    ShortPageIsComplete(OlderRows(db.files, db.contents, f), NewestFirst, limit, page);
    forall i | 0 <= i < |page| ensures IsOlderRow(db.files, db.contents, f, page[i]) {
      assert page[i] in OlderRows(db.files, db.contents, f);
    }
    forall i, j | 0 <= i < j < |page| ensures page[i].version > page[j].version {
      assert IsOlderRow(db.files, db.contents, f, page[i]) && IsOlderRow(db.files, db.contents, f, page[j]);
      assert page[i] != page[j] && !NewestFirst(page[j], page[i]);
    }
    forall r | r in db.contents && IsOlderRow(db.files, db.contents, f, db.contents[r]) ensures db.contents[r] in page {
      assert db.contents[r] in OlderRows(db.files, db.contents, f);
    }
  }

  /** In a newest-first listing of a file's older rows, what is newer than a row is what stands before it. */
  lemma NewerIsPrefix(files: Files, contents: Contents, f: nat, page: seq<Content>, i: nat)
    requires IsListing(files, contents, f, page) && i < |page|
    requires forall c | c in contents :: contents[c].id == c
    ensures |Newer(files, contents, page[i])| == i
  {
    var before := Ids(page[..i]);
    forall r | r in Newer(files, contents, page[i]) ensures r in before {
      assert IsOlderRow(files, contents, f, contents[r]);
      var k :| 0 <= k < |page| && page[k] == contents[r];
      assert k < i && before[k] == r;
    }
    forall r | r in before ensures r in Newer(files, contents, page[i]) {
      var k :| 0 <= k < i && before[k] == r;
      assert IsOlderRow(files, contents, f, page[k]);
    }
    CountsSame(Newer(files, contents, page[i]), before);
  }

  /** Past the first `keep` rows of the listing are exactly the rows the retention rule gives up. */
  lemma ListingHoldsCandidates(keep: nat, db: Tables, f: nat, page: seq<Content>)
    requires TablesOk(db) && Live(db.files, f) && db.files[f].objectType == File && db.files[f].currentContentID.Some?
    requires IsListing(db.files, db.contents, f, page)
    ensures forall row :: row in ListedRows(keep, db, f) <==> row in (if |page| <= keep then [] else page[keep..])
  {
    forall i | 0 <= i < |page| ensures page[i] in ListedRows(keep, db, f) <==> i >= keep {
      NewerIsPrefix(db.files, db.contents, f, page, i);
      assert IsOlderRow(db.files, db.contents, f, page[i]);
    }
    forall row | row in ListedRows(keep, db, f) ensures row in page {
      assert IsOlderRow(db.files, db.contents, f, row);
    }
  }

  /** An older row of a live file that `keepLatest` newer older rows have no room for. */
  ghost predicate HasNoRoom(files: Files, contents: Contents, keepLatest: int, f: nat, c: nat) {
    && Live(files, f) && files[f].objectType == File && files[f].currentContentID.Some?
    && c in contents && contents[c].fileID == f && files[f].currentContentID != Some(c)
    && |set r | r in contents && contents[r].fileID == f && files[f].currentContentID != Some(r)
                && contents[r].version > contents[c].version| >= keepLatest
  }

  lemma NoRoomMeans(db: Tables, keepLatest: int, f: nat, c: nat)
    requires FilesOk(db)
    ensures c in Candidates(db.files, db.contents, if keepLatest < 0 then 0 else keepLatest, f) <==>
            HasNoRoom(db.files, db.contents, keepLatest, f, c)
  {
    if c in db.contents && db.contents[c].fileID == f && f in db.files {
      assert Newer(db.files, db.contents, db.contents[c]) ==
             set r | r in db.contents && db.contents[r].fileID == f && db.files[f].currentContentID != Some(r)
                     && db.contents[r].version > db.contents[c].version;
    }
  }

  lemma RemovingMakesRoom(files: Files, was: Contents, now: Contents, keepLatest: int, f: nat, c: nat)
    requires OnlyRemoves(was, now) && HasNoRoom(files, now, keepLatest, f, c)
    ensures HasNoRoom(files, was, keepLatest, f, c)
  {
    SubsetSize(set r | r in now && now[r].fileID == f && files[f].currentContentID != Some(r)
                       && now[r].version > now[c].version,
               set r | r in was && was[r].fileID == f && files[f].currentContentID != Some(r)
                       && was[r].version > was[c].version);
  }

  /** Every row that a file has no room for is queued. */
  ghost predicate HistoryQueued(files: Files, contents: Contents, keepLatest: int, queue: Queue, f: nat) {
    forall c | HasNoRoom(files, contents, keepLatest, f, c) :: exists q :: q in queue && queue[q].contentID == c
  }

  lemma NothingLeftOver(files: Files, was: Contents, now: Contents, keepLatest: int, queue: Queue, f: nat)
    requires OnlyRemoves(was, now) && HistoryQueued(files, was, keepLatest, queue, f)
    requires forall q | q in queue :: queue[q].contentID !in now
    ensures forall c :: !HasNoRoom(files, now, keepLatest, f, c)
  {
    forall c ensures !HasNoRoom(files, now, keepLatest, f, c) {
      if HasNoRoom(files, now, keepLatest, f, c) {
        RemovingMakesRoom(files, was, now, keepLatest, f, c);
      }
    }
  }

  lemma HistoryIsQueued(db: Tables, keepLatest: int, queue: Queue, f: nat)
    requires FilesOk(db)
    requires forall c | c in Candidates(db.files, db.contents, if keepLatest < 0 then 0 else keepLatest, f) ::
               Queued(queue, c)
    ensures HistoryQueued(db.files, db.contents, keepLatest, queue, f)
  {
    forall c | HasNoRoom(db.files, db.contents, keepLatest, f, c)
      ensures exists q :: q in queue && queue[q].contentID == c
    {
      NoRoomMeans(db, keepLatest, f, c);
      assert Queued(queue, c);
    }
  }

  lemma ListedMeans(db: Tables, keepLatest: int, f: nat)
    requires FilesOk(db)
    ensures forall row :: row in ListedRows(if keepLatest < 0 then 0 else keepLatest, db, f) <==>
              row.id in db.contents && db.contents[row.id] == row
              && HasNoRoom(db.files, db.contents, keepLatest, f, row.id)
  {
    forall c ensures c in Candidates(db.files, db.contents, if keepLatest < 0 then 0 else keepLatest, f) <==>
                     HasNoRoom(db.files, db.contents, keepLatest, f, c)
    {
      NoRoomMeans(db, keepLatest, f, c);
    }
  }

  // ---------------------------------------------------------------- states that runs reach

  /** From a state that runs reach, guarded or not, to another one. */
  ghost predicate StaysReached(uses: Uses, keep: nat, s: State, t: State) {
    && (Reached(uses, keep, false, s) ==> Reached(uses, keep, false, t))
    && (Reached(uses, keep, true, s) ==> Reached(uses, keep, true, t))
  }

  lemma StepStaysReached(uses: Uses, keep: nat, s: State, step: Step)
    requires Enabled(s, step) && Exclusive(s, step) && !step.Save?
    ensures StaysReached(uses, keep, s, After(uses, keep, s, step))
  {
    if Reached(uses, keep, false, s) {
      StepIsReached(uses, keep, false, s, step);
    }
    if Reached(uses, keep, true, s) {
      StepIsReached(uses, keep, true, s, step);
    }
  }

  lemma CleaningStaysReached(uses: Uses, keep: nat, s: State, steps: seq<Step>, t: State)
    requires Leads(uses, keep, s, steps, t) && AllClean(steps)
    ensures StaysReached(uses, keep, s, t)
  {
    if Reached(uses, keep, false, s) {
      CleaningIsReached(uses, keep, false, s, steps, t);
    }
    if Reached(uses, keep, true, s) {
      CleaningIsReached(uses, keep, true, s, steps, t);
    }
  }

  // ---------------------------------------------------------------- enqueueing

  /** What enqueueing does, row by row: rows already queued are skipped. */
  function EnqueueAll(s: State, rows: seq<Content>, at: int): State {
    if rows == [] then s
    else
      var init, row := EnqueueAll(s, rows[..|rows| - 1], at), rows[|rows| - 1];
      if Queued(init.queue, row.id) then init else EnqueueStep(init, row, at)
  }

  lemma {:induction false} EnqueueAllIsLocal(s: State, rows: seq<Content>, at: int)
    ensures EnqueueAll(s, rows, at) ==
            s.(queue := EnqueueAll(s, rows, at).queue, nextDeletionID := EnqueueAll(s, rows, at).nextDeletionID)
  {
    if rows != [] {
      EnqueueAllIsLocal(s, rows[..|rows| - 1], at);
    }
  }

  ghost predicate NextIsFresh(s: State) {
    forall q | q in s.queue :: q < s.nextDeletionID
  }

  /** Afterwards every row of the list is queued, and what was queued before still is. */
  lemma {:induction false} EnqueueAllQueues(s: State, rows: seq<Content>, at: int)
    requires NextIsFresh(s)
    ensures NextIsFresh(EnqueueAll(s, rows, at))
    ensures var queue := EnqueueAll(s, rows, at).queue; forall q | q in s.queue :: q in queue && queue[q] == s.queue[q]
    ensures forall row | row in rows :: Queued(EnqueueAll(s, rows, at).queue, row.id)
  {
    if rows != [] {
      var init, row, all := EnqueueAll(s, rows[..|rows| - 1], at), rows[|rows| - 1], EnqueueAll(s, rows, at);
      EnqueueAllQueues(s, rows[..|rows| - 1], at);
      forall r | r in rows ensures Queued(all.queue, r.id) {
        if r in rows[..|rows| - 1] {
          var q :| q in init.queue && init.queue[q].contentID == r.id;
          assert q in all.queue && all.queue[q] == init.queue[q];
        } else if !Queued(init.queue, row.id) {
          assert all.queue[init.nextDeletionID].contentID == r.id;
        }
      }
    }
  }

  /** A deletion of one of the rows, not tried yet and due at once. */
  ghost predicate FirstAttempt(rows: seq<Content>, at: int, d: Deletion) {
    && d.attempts == 0 && d.nextAttemptAt == at
    && exists i | 0 <= i < |rows| ::
         d.contentID == rows[i].id && d.backendID == rows[i].backendID && d.storageKey == rows[i].storageKey
  }

  /** What was queued stays as it was, and what is new is a first attempt at a row not queued before. */
  ghost predicate OnlyQueues(was: Queue, queue: Queue, rows: seq<Content>, at: int) {
    && (forall q | q in was :: q in queue && queue[q] == was[q])
    && (forall q | q in queue && q !in was ::
          queue[q].id == q && FirstAttempt(rows, at, queue[q])
          && forall k | k in was :: was[k].contentID != queue[q].contentID)
  }

  ghost predicate HoldsAll(queue: Queue, rows: seq<Content>) {
    forall row | row in rows :: exists q :: q in queue && queue[q].contentID == row.id
  }

  /** What is queued in addition is due at once, at the slot of its row, which was not queued before. */
  lemma {:induction false} EnqueueAllAdds(s: State, rows: seq<Content>, at: int)
    requires NextIsFresh(s)
    ensures var queue := EnqueueAll(s, rows, at).queue;
            forall q | q in queue && q !in s.queue ::
              queue[q].id == q && FirstAttempt(rows, at, queue[q]) && !Queued(s.queue, queue[q].contentID)
  {
    if rows != [] {
      var init, row, all := EnqueueAll(s, rows[..|rows| - 1], at), rows[|rows| - 1], EnqueueAll(s, rows, at);
      EnqueueAllAdds(s, rows[..|rows| - 1], at);
      EnqueueAllQueues(s, rows[..|rows| - 1], at);
      forall q | q in all.queue && q !in s.queue
        ensures all.queue[q].id == q && FirstAttempt(rows, at, all.queue[q])
        ensures !Queued(s.queue, all.queue[q].contentID)
      {
        if q in init.queue && q != init.nextDeletionID {
          var i :| 0 <= i < |rows| - 1 && all.queue[q].contentID == rows[i].id
                   && all.queue[q].backendID == rows[i].backendID && all.queue[q].storageKey == rows[i].storageKey;
        } else {
          assert all.queue[q].contentID == rows[|rows| - 1].id;
          assert forall k | k in s.queue :: k in init.queue && init.queue[k] == s.queue[k];
        }
      }
    }
  }

  /** Enqueueing all that retention lists for a file queues all the rows it gives up. */
  lemma CandidatesQueue(uses: Uses, keep: nat, s: State, f: nat, rows: seq<Content>, at: int)
    requires Reached(uses, keep, false, s) && forall row :: row in rows <==> row in ListedRows(keep, s.db, f)
    ensures forall row | row in rows :: row.id in s.db.contents
    ensures forall c | c in Candidates(s.db.files, s.db.contents, keep, f) :: Queued(EnqueueAll(s, rows, at).queue, c)
  {
    ReachedInv(uses, keep, false, s);
    EnqueueAllQueues(s, rows, at);
    forall c | c in Candidates(s.db.files, s.db.contents, keep, f) ensures Queued(EnqueueAll(s, rows, at).queue, c) {
      assert s.db.contents[c] in rows && s.db.contents[c].id == c;
    }
  }

  lemma {:induction false} EnqueueAllLeads(uses: Uses, keep: nat, s: State, rows: seq<Content>, at: int)
    returns (steps: seq<Step>)
    requires forall row | row in rows :: row in s.listed && row.id in s.db.contents
    ensures AllClean(steps) && Leads(uses, keep, s, steps, EnqueueAll(s, rows, at))
  {
    steps := [];
    if rows != [] {
      var init, row := EnqueueAll(s, rows[..|rows| - 1], at), rows[|rows| - 1];
      steps := EnqueueAllLeads(uses, keep, s, rows[..|rows| - 1], at);
      EnqueueAllIsLocal(s, rows[..|rows| - 1], at);
      assert row in rows;
      if !Queued(init.queue, row.id) {
        LeadsOneMore(uses, keep, s, steps, init, Enqueue(row, at));
        steps := steps + [Enqueue(row, at)];
      }
    }
  }

  lemma EnqueueingStaysReached(uses: Uses, keep: nat, s: State, rows: seq<Content>, at: int)
    requires forall row | row in rows :: row in s.listed && row.id in s.db.contents
    ensures var t := EnqueueAll(s, rows, at);
            t == s.(queue := t.queue, nextDeletionID := t.nextDeletionID) && StaysReached(uses, keep, s, t)
  {
    var t := EnqueueAll(s, rows, at);
    var steps := EnqueueAllLeads(uses, keep, s, rows, at);
    CleaningStaysReached(uses, keep, s, steps, t);
    EnqueueAllIsLocal(s, rows, at);
  }

  /** Afterwards every row is queued, and nothing else has happened to the queue. */
  lemma QueueMeans(uses: Uses, keep: nat, s: State, rows: seq<Content>, at: int)
    requires Reached(uses, keep, false, s)
    ensures var queue := EnqueueAll(s, rows, at).queue; OnlyQueues(s.queue, queue, rows, at) && HoldsAll(queue, rows)
  {
    ReachedInv(uses, keep, false, s);
    EnqueueAllQueues(s, rows, at);
    EnqueueAllAdds(s, rows, at);
    forall row | row in rows
      ensures exists q :: q in EnqueueAll(s, rows, at).queue && EnqueueAll(s, rows, at).queue[q].contentID == row.id
    {
      assert Queued(EnqueueAll(s, rows, at).queue, row.id);
    }
  }

  // ---------------------------------------------------------------- taking a batch

  predicate DueFirst(a: Deletion, b: Deletion) {
    a.nextAttemptAt < b.nextAttemptAt || (a.nextAttemptAt == b.nextAttemptAt && a.id < b.id)
  }

  function Due(queue: Queue, now: int): set<Deletion> {
    set q | q in queue && queue[q].nextAttemptAt <= now :: queue[q]
  }

  /** Rows whose time has come and none twice, the longest waiting first: all of them while there is room,
      and otherwise as many as there is room for, before which none was left out. */
  ghost predicate FirstDue(queue: Queue, now: int, limit: int, page: seq<Deletion>) {
    && (forall d | d in page :: d.id in queue && queue[d.id] == d && d.nextAttemptAt <= now)
    && (forall i, j | 0 <= i < j < |page| :: WaitsLonger(page[i], page[j]))
    && if limit <= 0 then page == []
       else if |page| < limit then forall q | q in queue && queue[q].nextAttemptAt <= now :: queue[q] in page
       else && |page| == limit
            && forall q, d | q in queue && queue[q].nextAttemptAt <= now && queue[q] !in page && d in page ::
                 WaitsLonger(d, queue[q])
  }

  ghost predicate WaitsLonger(a: Deletion, b: Deletion) {
    a.nextAttemptAt < b.nextAttemptAt || (a.nextAttemptAt == b.nextAttemptAt && a.id < b.id)
  }

  lemma PageIsFirstDue(queue: Queue, now: int, limit: nat, page: seq<Deletion>)
    requires limit > 0 && IsPage(Due(queue, now), DueFirst, limit, page) && forall q | q in queue :: queue[q].id == q
    ensures FirstDue(queue, now, limit, page)
  {
    forall i, j | 0 <= i < j < |page| ensures WaitsLonger(page[i], page[j]) {
      assert page[i] in Due(queue, now) && page[j] in Due(queue, now);
      assert page[i] != page[j] && !DueFirst(page[j], page[i]);
    }
    if |page| < limit {
      ShortPageIsComplete(Due(queue, now), DueFirst, limit, page);
      forall q | q in queue && queue[q].nextAttemptAt <= now ensures queue[q] in page {
        assert queue[q] in Due(queue, now);
      }
    } else {
      forall q, d | q in queue && queue[q].nextAttemptAt <= now && queue[q] !in page && d in page
        ensures WaitsLonger(d, queue[q])
      {
        assert queue[q] in Due(queue, now) && d in Due(queue, now) && !DueFirst(queue[q], d);
      }
    }
  }

  /** Rows may have gone, and those left are as they were. */
  ghost predicate OnlyShrinks(was: Queue, queue: Queue) {
    forall q | q in queue :: q in was && queue[q] == was[q]
  }

  /** The row, if it is there, has failed once more and waits until `at`; all others are as they were. */
  ghost predicate PutOff(was: Queue, queue: Queue, q: nat, at: int) {
    queue == if q in was then was[q := was[q].(attempts := was[q].attempts + 1, nextAttemptAt := at)] else was
  }

  /** The rows of the page were worked on, except for one, which was put off. */
  ghost predicate OnePutOff(page: seq<Deletion>, done: seq<Deletion>, queue: Queue, at: int) {
    exists k | 0 <= k < |page| :: done == page[..k] + page[k + 1..] && IsPutOff(page[k], queue, at)
  }

  ghost predicate IsPutOff(d: Deletion, queue: Queue, at: int) {
    d.id in queue ==> queue[d.id] == d.(attempts := d.attempts + 1, nextAttemptAt := at)
  }

  lemma PuttingOffLast(page: seq<Deletion>, d: Deletion, was: Queue, before: Queue, queue: Queue, at: int)
    requires InQueue(was, d) && OnlyShrinks(was, before) && PutOff(before, queue, d.id, at)
    ensures OnePutOff(page + [d], page, queue, at)
  {
    var longer := page + [d];
    assert longer[..|page|] == page && longer[|page| + 1..] == [];
    assert page == longer[..|page|] + longer[|page| + 1..] && IsPutOff(longer[|page|], queue, at);
  }

  lemma OnePutOffLasts(page: seq<Deletion>, done: seq<Deletion>, d: Deletion, before: Queue, queue: Queue, at: int)
    requires OnePutOff(page, done, before, at) && OnlyShrinks(before, queue)
    ensures OnePutOff(page + [d], done + [d], queue, at)
  {
    var k :| 0 <= k < |page| && done == page[..k] + page[k + 1..] && IsPutOff(page[k], before, at);
    var longer := page + [d];
    assert longer[..k] == page[..k] && longer[k + 1..] == page[k + 1..] + [d] && longer[k] == page[k];
    assert done + [d] == longer[..k] + longer[k + 1..] && IsPutOff(longer[k], queue, at);
  }

  /** Where a batch stands after `page` of it when `faults` calls have failed. */
  ghost predicate WorkedOn(was: Queue, page: seq<Deletion>, done: seq<Deletion>, queue: Queue, faults: int, at: int) {
    && faults >= 0 && (faults == 0 ==> done == page && OnlyShrinks(was, queue))
    && (faults == 1 ==> OnePutOff(page, done, queue, at))
  }

  lemma OneMoreReaped(was: Queue, page: seq<Deletion>, done: seq<Deletion>, d: Deletion, before: Queue, queue: Queue,
                      faults: int, at: int)
    requires WorkedOn(was, page, done, before, faults, at) && OnlyShrinks(before, queue)
    ensures WorkedOn(was, page + [d], done + [d], queue, faults, at)
  {
    if faults == 1 {
      OnePutOffLasts(page, done, d, before, queue, at);
    }
  }

  lemma OneMorePutOff(was: Queue, page: seq<Deletion>, done: seq<Deletion>, d: Deletion, before: Queue, queue: Queue,
                      faults: int, more: int, at: int)
    requires WorkedOn(was, page, done, before, faults, at) && InQueue(was, d)
    requires more >= 1 && (more == 1 ==> PutOff(before, queue, d.id, at))
    ensures WorkedOn(was, page + [d], done, queue, faults + more, at)
  {
    if faults == 0 && more == 1 {
      PuttingOffLast(page, d, was, before, queue, at);
    }
  }

  predicate InQueue(queue: Queue, d: Deletion) {
    d.id in queue && queue[d.id] == d
  }

  lemma NextOfBatch(batch: seq<Deletion>, i: nat)
    requires i < |batch| && forall i, j | 0 <= i < j < |batch| :: batch[i] != batch[j]
    ensures batch[..i + 1] == batch[..i] + [batch[i]] && batch[i] !in batch[..i]
  {
  }

  lemma QueuedApart(queue: Queue, batch: seq<Deletion>)
    requires forall d | d in batch :: InQueue(queue, d)
    requires forall i, j | 0 <= i < j < |batch| :: batch[i] != batch[j]
    ensures forall i, j | 0 <= i < j < |batch| :: batch[i].id != batch[j].id
  {
    forall i, j | 0 <= i < j < |batch| ensures batch[i].id != batch[j].id {
      assert InQueue(queue, batch[i]) && InQueue(queue, batch[j]);
    }
  }

  lemma {:induction false} TakingLeads(uses: Uses, keep: nat, s: State, batch: seq<Deletion>) returns (steps: seq<Step>)
    requires forall d | d in batch :: InQueue(s.queue, d)
    ensures AllClean(steps) && Leads(uses, keep, s, steps, s.(taken := s.taken + set d | d in batch))
  {
    steps := [];
    if batch == [] {
      assert s.taken + (set d | d in batch) == s.taken;
    } else {
      var init, d := batch[..|batch| - 1], batch[|batch| - 1];
      assert forall e | e in init :: e in batch;
      steps := TakingLeads(uses, keep, s, init);
      assert InQueue(s.queue, d);
      LeadsOneMore(uses, keep, s, steps, s.(taken := s.taken + set d | d in init), Take(d.id));
      steps := steps + [Take(d.id)];
      assert (s.taken + set d | d in init) + {d} == s.taken + set d | d in batch;
    }
  }

  lemma DueIsQueued(uses: Uses, keep: nat, s: State, now: int)
    requires Reached(uses, keep, false, s)
    ensures forall q | q in s.queue :: s.queue[q].id == q
    ensures forall d | d in Due(s.queue, now) :: InQueue(s.queue, d)
  {
    ReachedInv(uses, keep, false, s);
  }

  // ---------------------------------------------------------------- what cleaning leaves

  /** The tree stays, rows only go and nothing protected is among them, and every file whose bytes are not
      threatened reads what it read. */
  ghost predicate CleanedUp(uses: Uses, keep: nat, s: State, t: State) {
    && t.db.files == s.db.files && OnlyRemoves(s.db.contents, t.db.contents)
    && (forall c | c in s.db.contents && Protected(s.db, keep, c) :: c in t.db.contents)
    && (forall k | Live(s.db.files, k) && Reads(s, k).Some? && !MayLose(uses, keep, s, k) :: Reads(t, k) == Reads(s, k))
  }

  ghost predicate OnlyRemoves(was: Contents, now: Contents) {
    forall c | c in now :: c in was && now[c] == was[c]
  }

  lemma CleaningMeans(uses: Uses, keep: nat, s: State, steps: seq<Step>, t: State)
    requires Reached(uses, keep, false, s) && Leads(uses, keep, s, steps, t) && AllClean(steps)
    ensures CleanedUp(uses, keep, s, t)
  {
    ReachedInv(uses, keep, false, s);
    CleaningKeepsFiles(uses, keep, s, steps, t);
    forall c | c in s.db.contents && Protected(s.db, keep, c) ensures c in t.db.contents {
      CleaningKeepsProtected(uses, keep, s, steps, t, c);
    }
    forall k | Live(s.db.files, k) && Reads(s, k).Some? && !MayLose(uses, keep, s, k)
      ensures Reads(t, k) == Reads(s, k)
    {
      LostIffThreatened(uses, keep, s, k);
      UnthreatenedSlotIsSafe(uses, keep, s, steps, t, k);
    }
  }

  lemma {:induction false} CleaningKeepsFiles(uses: Uses, keep: nat, s: State, steps: seq<Step>, t: State)
    requires Leads(uses, keep, s, steps, t) && AllClean(steps)
    ensures t.db.files == s.db.files && t.pending == s.pending && OnlyRemoves(s.db.contents, t.db.contents)
    decreases |steps|
  {
    if steps != [] {
      assert Cleans(steps[0]);
      if !steps[0].DeleteRow? {
        RestOfCleaning(uses, keep, s, steps[0]);
      }
      CleaningKeepsFiles(uses, keep, After(uses, keep, s, steps[0]), steps[1..], t);
    }
  }

  lemma GuardedCleaningMeans(uses: Uses, keep: nat, s: State, steps: seq<Step>, t: State)
    requires Reached(uses, keep, true, s) && Leads(uses, keep, s, steps, t) && AllClean(steps)
    ensures Reached(uses, keep, true, t)
    ensures forall k | Live(s.db.files, k) :: k in t.db.files && Reads(t, k) == Reads(s, k)
  {
    CleaningIsReached(uses, keep, true, s, steps, t);
    forall k | Live(s.db.files, k) ensures k in t.db.files && Reads(t, k) == Reads(s, k) {
      CleaningKeepsReads(uses, keep, s, steps, t, k);
    }
  }

  // ---------------------------------------------------------------- changes of the tree

  ghost predicate NamedForest(files: Files) {
    Forest(files) && NamesUnique(files)
  }

  lemma CreateKeepsTree(files: Files, n: Node)
    requires NamedForest(files) && n.id !in files && !n.deleted && ParentFits(files, n) && !PlaceTaken(files, n)
    ensures NamedForest(files[n.id := n])
  {
    InsertKeepsForest(files, n);
  }

  lemma PointingKeepsTree(files: Files, id: nat, c: nat)
    requires NamedForest(files) && Live(files, id)
    ensures NamedForest(Pointed(files, id, c))
  {
    SameParentsSameRank(files, Pointed(files, id, c));
  }

  lemma DeleteKeepsTree(files: Files, id: nat)
    requires NamedForest(files)
    ensures NamedForest(Tombstoned(files, Subtree(files, id)))
  {
    DeleteKeepsForest(files, id);
  }

  function WithFiles(s: State, files: Files): State {
    s.(db := s.db.(files := files))
  }

  lemma CreateStaysReached(uses: Uses, keep: nat, s: State, n: Node)
    requires n.id !in s.db.files && n.currentContentID.None?
    ensures StaysReached(uses, keep, s, WithFiles(s, s.db.files[n.id := n]))
  {
    StepStaysReached(uses, keep, s, CreateFile(n));
  }

  lemma MoveStaysReached(uses: Uses, keep: nat, s: State, id: nat, parent: Option<nat>, name: string)
    requires Live(s.db.files, id) && s.db.files[id].id == id && s.pending == map[]
    ensures StaysReached(uses, keep, s, WithFiles(s, Moved(s.db.files, id, parent, name)))
  {
    StepStaysReached(uses, keep, s, Rename(id, parent, name));
  }

  /** The tombstones of a subtree, one file at a time. */
  lemma {:induction false} TombstonesStayReached(uses: Uses, keep: nat, s: State, ids: set<nat>)
    requires s.pending == map[] && forall f | f in ids :: Live(s.db.files, f) && s.db.files[f].id == f
    ensures StaysReached(uses, keep, s, WithFiles(s, Tombstoned(s.db.files, ids)))
  {
    if f :| f in ids {
      var rest := WithFiles(s, Tombstoned(s.db.files, ids - {f}));
      TombstonesStayReached(uses, keep, s, ids - {f});
      StepStaysReached(uses, keep, rest, DeleteFile(f));
      assert rest.db.files[f := rest.db.files[f].(id := f, deleted := true)] == Tombstoned(s.db.files, ids);
    } else {
      assert Tombstoned(s.db.files, ids) == s.db.files;
    }
  }

  ghost predicate AllDead(db: Tables, rows: set<nat>) {
    forall c | c in rows :: c in db.contents && db.contents[c].fileID in db.files
        && db.files[db.contents[c].fileID].deleted
  }

  lemma SubtreeDies(db: Tables, id: nat)
    requires Forest(db.files)
    ensures forall f | f in Subtree(db.files, id) :: Live(db.files, f) && db.files[f].id == f
    ensures AllDead(db.(files := Tombstoned(db.files, Subtree(db.files, id))),
                    SubtreeContents(db.files, db.contents, id))
  {
  }

  lemma TombstonesMean(uses: Uses, keep: nat, s: State, id: nat)
    requires NamedForest(s.db.files) && s.pending == map[]
    ensures var t := WithFiles(s, Tombstoned(s.db.files, Subtree(s.db.files, id)));
            && NamedForest(t.db.files) && StaysReached(uses, keep, s, t)
            && AllDead(t.db, SubtreeContents(s.db.files, s.db.contents, id))
  {
    SubtreeDies(s.db, id);
    DeleteKeepsTree(s.db.files, id);
    TombstonesStayReached(uses, keep, s, Subtree(s.db.files, id));
  }

  /** The bytes of dead files' rows, one at a time. */
  lemma {:induction false} ByteDeletesStayReached(uses: Uses, keep: nat, s: State, rows: set<nat>)
    requires AllDead(s.db, rows)
    ensures StaysReached(uses, keep, s, s.(bytes := s.bytes - SlotsOf(s.db.contents, rows)))
  {
    if c :| c in rows {
      var rest := s.(bytes := s.bytes - SlotsOf(s.db.contents, rows - {c}));
      ByteDeletesStayReached(uses, keep, s, rows - {c});
      StepStaysReached(uses, keep, rest, DeleteFileBytes(c));
      assert SlotsOf(s.db.contents, rows) == SlotsOf(s.db.contents, rows - {c}) + {SlotOf(s.db.contents[c])};
      assert rest.bytes - {SlotOf(s.db.contents[c])} == s.bytes - SlotsOf(s.db.contents, rows);
    } else {
      assert s.bytes - SlotsOf(s.db.contents, rows) == s.bytes;
    }
  }

  lemma DeadRowIsApart(db: Tables, c: nat, k: nat)
    requires FilesOk(db) && KeyShapes(db.files, db.history) && AllDead(db, {c}) && Live(db.files, k)
    ensures var current := CurrentOf(db.files, db.contents, k);
            current.Some? ==> SlotOf(current.value) != SlotOf(db.contents[c])
  {
    var current := CurrentOf(db.files, db.contents, k);
    if current.Some? && current.value.storageKey == db.contents[c].storageKey {
      assert c in {c};
      RowFilesDiffer(db, current.value.id, c);
    }
  }

  /** However many of them are gone, live files read as before, guarded or not, and runs still lead here. */
  lemma DeadBytesGo(uses: Uses, keep: nat, s: State, rows: set<nat>, bytes: ByteMap)
    requires Reached(uses, keep, false, s) && AllDead(s.db, rows)
    requires Shrinks(s.bytes, bytes, SlotsOf(s.db.contents, rows))
    ensures StaysReached(uses, keep, s, s.(bytes := bytes))
    ensures forall k | Live(s.db.files, k) :: Reads(s.(bytes := bytes), k) == Reads(s, k)
  {
    ShrunkByRows(s.db.contents, rows, s.bytes, bytes);
    ByteDeletesStayReached(uses, keep, s, set c | c in rows && SlotOf(s.db.contents[c]) !in bytes);
    ReachedInv(uses, keep, false, s);
    forall k | Live(s.db.files, k) ensures Reads(s.(bytes := bytes), k) == Reads(s, k) {
      DeadRowsAreApart(s.db, rows, k);
      ApartReadsTheSame(s.db, s.bytes, bytes, SlotsOf(s.db.contents, rows), k);
    }
  }

  lemma ApartReadsTheSame(db: Tables, was: ByteMap, bytes: ByteMap, gone: set<Slot>, k: nat)
    requires FilesOk(db) && k in db.files && Shrinks(was, bytes, gone)
    requires var current := CurrentOf(db.files, db.contents, k); current.Some? ==> SlotOf(current.value) !in gone
    ensures ReadIn(db.files, db.contents, bytes, k) == ReadIn(db.files, db.contents, was, k)
  {
  }

  lemma ShrunkByRows(contents: Contents, rows: set<nat>, was: ByteMap, bytes: ByteMap)
    requires rows <= contents.Keys && Shrinks(was, bytes, SlotsOf(contents, rows))
    ensures var gone := set c | c in rows && SlotOf(contents[c]) !in bytes; bytes == was - SlotsOf(contents, gone)
  {
    var gone := set c | c in rows && SlotOf(contents[c]) !in bytes;
    forall s | s in was && s !in bytes ensures s in SlotsOf(contents, gone) {
      var c :| c in rows && SlotOf(contents[c]) == s;
      assert c in gone;
    }
  }

  lemma DeadRowsAreApart(db: Tables, rows: set<nat>, k: nat)
    requires FilesOk(db) && KeyShapes(db.files, db.history) && AllDead(db, rows) && Live(db.files, k)
    ensures var current := CurrentOf(db.files, db.contents, k);
            current.Some? ==> SlotOf(current.value) !in SlotsOf(db.contents, rows)
  {
    forall c | c in rows
      ensures var current := CurrentOf(db.files, db.contents, k);
              current.Some? ==> SlotOf(current.value) != SlotOf(db.contents[c])
    {
      DeadRowIsApart(db, c, k);
    }
  }
}
