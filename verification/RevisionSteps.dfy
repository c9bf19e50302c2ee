/** Every step of every run, whoever takes it, keeps versions distinct and retention safe. */
module RevisionSteps {
  import opened Wrappers
  import opened Query
  import opened FileTree
  import opened Relocations
  import opened StoredFiles
  import opened Revisions
  import opened RevisionRuns

  // ---------------------------------------------------------------- retention only ever grows

  /** Newer rows may join; none of those counted may leave. */
  lemma GivenUpGrows(keep: nat, db: Tables, db': Tables, c: nat)
    requires GivenUp(keep, db, c)
    requires c in db'.history && db'.history[c] == db.history[c] && !IsCurrent(db'.files, db.history[c])
    requires forall r | r in Newer(db.files, db.contents, db.history[c]) ::
               r in db'.contents && db'.contents[r] == db.contents[r] && !IsCurrent(db'.files, db.contents[r])
    ensures GivenUp(keep, db', c)
  {
    SubsetSize(Newer(db.files, db.contents, db.history[c]), Newer(db'.files, db'.contents, db.history[c]));
  }

  /** A given-up row may go: the rows newer than it are newer than whatever it was newer than. */
  lemma GivenUpSurvives(keep: nat, db: Tables, gone: nat, c: nat)
    requires FilesOk(db) && GivenUp(keep, db, c) && GivenUp(keep, db, gone) && gone in db.contents
    ensures GivenUp(keep, WithoutRow(db, gone), c)
  {
    var row := db.history[c];
    var newer := Newer(db.files, db.contents, row);
    var newer' := Newer(db.files, db.contents - {gone}, row);
    assert newer' == newer - {gone};
    if gone in newer {
      SubsetSize(Newer(db.files, db.contents, db.history[gone]), newer');
    } else {
      assert newer' == newer;
    }
  }

  ghost predicate Carries(keep: nat, db: Tables, db': Tables) {
    forall c | GivenUp(keep, db, c) :: GivenUp(keep, db', c) && db'.history[c] == db.history[c]
  }

  lemma RetentionCarries(
    keep: nat, db: Tables, db': Tables, queue: Queue, next: nat, listed: set<Content>, taken: set<Deletion>)
    requires Carries(keep, db, db') && forall q | q in queue :: queue[q].contentID in db'.contents
    requires QueueOk(keep, db, queue, next) && ListedOk(keep, db, listed) && TakenOk(keep, db, taken)
    ensures QueueOk(keep, db', queue, next) && ListedOk(keep, db', listed) && TakenOk(keep, db', taken)
  {
  }

  // ---------------------------------------------------------------- listing and queueing

  lemma ListedRowsOk(keep: nat, db: Tables, listed: set<Content>, f: nat)
    requires TablesOk(db) && ListedOk(keep, db, listed)
    ensures ListedOk(keep, db, listed + ListedRows(keep, db, f))
  {
    forall row | row in ListedRows(keep, db, f) ensures GivenUp(keep, db, row.id) && row == db.history[row.id] {
      CandidateIsGivenUp(keep, db, f, row.id);
    }
  }

  /** What retention lists is given up: neither current nor among the newest older rows. */
  lemma CandidateIsGivenUp(keep: nat, db: Tables, f: nat, c: nat)
    requires FilesOk(db) && c in Candidates(db.files, db.contents, keep, f)
    ensures GivenUp(keep, db, c)
  {
  }

  lemma EnqueueKeepsQueue(keep: nat, s: State, row: Content, at: int)
    requires FilesOk(s.db)
    requires QueueOk(keep, s.db, s.queue, s.nextDeletionID) && ListedOk(keep, s.db, s.listed)
    requires row in s.listed && row.id in s.db.contents
    ensures QueueOk(keep, s.db, EnqueueStep(s, row, at).queue, s.nextDeletionID + 1)
  {
    assert HasSlot(row, EnqueueStep(s, row, at).queue[s.nextDeletionID]);
  }

  lemma FailedKeepsQueue(keep: nat, db: Tables, queue: Queue, next: nat, q: nat, at: int)
    requires QueueOk(keep, db, queue, next)
    ensures QueueOk(keep, db, Failed(queue, q, at), next)
  {
    forall k | k in queue ensures Failed(queue, q, at)[k].Slot() == queue[k].Slot() {
    }
  }

  lemma TakeKeepsTaken(keep: nat, db: Tables, queue: Queue, next: nat, taken: set<Deletion>, q: nat)
    requires QueueOk(keep, db, queue, next) && TakenOk(keep, db, taken) && q in queue
    ensures TakenOk(keep, db, taken + {queue[q]})
  {
  }

  lemma DequeueKeepsQueue(keep: nat, db: Tables, queue: Queue, next: nat, q: nat)
    requires QueueOk(keep, db, queue, next)
    ensures QueueOk(keep, db, queue - {q}, next)
  {
  }

  // ---------------------------------------------------------------- rows that go

  lemma RowGoneTables(db: Tables, c: nat)
    requires TablesOk(db) && c in db.contents && !IsCurrent(db.files, db.contents[c])
    ensures TablesOk(WithoutRow(db, c))
  {
    assert forall f | f in db.files && db.files[f].currentContentID.Some? :: db.files[f].currentContentID.value != c;
  }

  lemma RowGoneCarries(keep: nat, db: Tables, c: nat)
    requires FilesOk(db) && GivenUp(keep, db, c) && c in db.contents
    ensures Carries(keep, db, WithoutRow(db, c))
  {
    forall x | GivenUp(keep, db, x) ensures GivenUp(keep, WithoutRow(db, c), x) {
      GivenUpSurvives(keep, db, c, x);
    }
  }

  /** The queue's foreign key: its row goes with the content row. */
  lemma CascadeKeepsQueue(keep: nat, db: Tables, c: nat, queue: Queue, next: nat)
    requires QueueOk(keep, db, queue, next)
    ensures QueueOk(keep, db, QueueWithout(queue, c), next)
    ensures forall q | q in QueueWithout(queue, c) :: QueueWithout(queue, c)[q].contentID in WithoutRow(db, c).contents
  {
  }

  lemma RowGoneRetention(
    keep: nat, db: Tables, c: nat, queue: Queue, next: nat, listed: set<Content>, taken: set<Deletion>)
    requires FilesOk(db) && GivenUp(keep, db, c) && c in db.contents
    requires QueueOk(keep, db, queue, next) && ListedOk(keep, db, listed) && TakenOk(keep, db, taken)
    ensures QueueOk(keep, WithoutRow(db, c), QueueWithout(queue, c), next)
    ensures ListedOk(keep, WithoutRow(db, c), listed) && TakenOk(keep, WithoutRow(db, c), taken)
  {
    RowGoneCarries(keep, db, c);
    CascadeKeepsQueue(keep, db, c, queue, next);
    RetentionCarries(keep, db, WithoutRow(db, c), QueueWithout(queue, c), next, listed, taken);
  }

  // ---------------------------------------------------------------- files

  /** A new file, or one whose place, name or tombstone changes. */
  ghost predicate NodeFits(db: Tables, n: Node) {
    if n.id in db.files then
      && n.workspaceID == db.files[n.id].workspaceID && n.objectType == db.files[n.id].objectType
      && n.currentContentID == db.files[n.id].currentContentID
    else n.currentContentID.None?
  }

  lemma NodeKeepsTables(db: Tables, n: Node)
    requires TablesOk(db) && NodeFits(db, n)
    ensures TablesOk(WithNode(db, n))
  {
  }

  lemma NodeCarries(keep: nat, db: Tables, n: Node)
    requires FilesOk(db) && NodeFits(db, n)
    ensures Carries(keep, db, WithNode(db, n))
  {
    forall c | GivenUp(keep, db, c) ensures GivenUp(keep, WithNode(db, n), c) {
      GivenUpGrows(keep, db, WithNode(db, n), c);
    }
  }

  // ---------------------------------------------------------------- saving

  /** The row a save writes: new, with a version above every other of its file, or the current one again. */
  lemma SavedRowMeans(db: Tables, write: Write)
    requires TablesOk(db) && write.FileID() in db.files && write.content.backendID != ""
    ensures var row := RowOf(db, write);
            && row.fileID == write.FileID() && SlotOf(row) == SlotOf(write.content)
            && row.backendID != "" && row.storageKey == write.content.storageKey
            && if row.id == db.nextContentID then
                 && row.id !in db.history
                 && forall h | h in db.history && db.history[h].fileID == row.fileID ::
                    db.history[h].version < row.version
               else
                 && row.id in db.contents && IsCurrent(db.files, db.contents[row.id]) && !write.versioned
                 && db.contents[row.id].fileID == row.fileID && row.version == db.contents[row.id].version
  {
  }

  lemma SaveKeepsFiles(db: Tables, write: Write)
    requires TablesOk(db) && write.FileID() in db.files && write.content.backendID != ""
    ensures FilesOk(Saved(db, write))
  {
    SavedRowMeans(db, write);
  }

  lemma SaveKeepsGreatest(db: Tables, write: Write)
    requires TablesOk(db) && write.FileID() in db.files && write.content.backendID != ""
    ensures CurrentIsGreatest(Saved(db, write))
  {
    SavedRowMeans(db, write);
  }

  lemma SaveKeepsDistinct(db: Tables, write: Write)
    requires TablesOk(db) && write.FileID() in db.files && write.content.backendID != ""
    ensures VersionsDistinct(Saved(db, write).history)
  {
    SavedRowMeans(db, write);
  }

  lemma SaveCarries(keep: nat, db: Tables, write: Write)
    requires TablesOk(db) && write.FileID() in db.files && write.content.backendID != ""
    ensures Carries(keep, db, Saved(db, write))
  {
    forall c | GivenUp(keep, db, c)
      ensures Saved(db, write).history[c] == db.history[c] && GivenUp(keep, Saved(db, write), c)
    {
      SaveCarriesRow(keep, db, write, c);
    }
  }

  lemma SaveCarriesRow(keep: nat, db: Tables, write: Write, c: nat)
    requires TablesOk(db) && write.FileID() in db.files && write.content.backendID != "" && GivenUp(keep, db, c)
    ensures Saved(db, write).history[c] == db.history[c] && GivenUp(keep, Saved(db, write), c)
  {
    SavedRowMeans(db, write);
    GivenUpGrows(keep, db, Saved(db, write), c);
  }

  // ---------------------------------------------------------------- all steps

  lemma SaveStepKeeps(keep: nat, s: State, w: nat)
    requires Inv(keep, s) && w in s.pending
    ensures Inv(keep, SaveStep(s, w))
  {
    var write := s.pending[w];
    SaveKeepsFiles(s.db, write);
    SaveKeepsGreatest(s.db, write);
    SaveKeepsDistinct(s.db, write);
    SaveCarries(keep, s.db, write);
    RetentionCarries(keep, s.db, Saved(s.db, write), s.queue, s.nextDeletionID, s.listed, s.taken);
  }

  lemma NodeStepKeeps(keep: nat, s: State, n: Node)
    requires Inv(keep, s) && NodeFits(s.db, n)
    ensures Inv(keep, s.(db := WithNode(s.db, n)))
  {
    NodeKeepsTables(s.db, n);
    NodeCarries(keep, s.db, n);
    RetentionCarries(keep, s.db, WithNode(s.db, n), s.queue, s.nextDeletionID, s.listed, s.taken);
  }

  lemma RowStepKeeps(keep: nat, s: State, d: Deletion)
    requires Inv(keep, s) && d in s.taken && d.contentID in s.db.contents
    requires !IsCurrent(s.db.files, s.db.contents[d.contentID])
    ensures Inv(keep, s.(db := WithoutRow(s.db, d.contentID), queue := QueueWithout(s.queue, d.contentID)))
  {
    RowGoneTables(s.db, d.contentID);
    RowGoneRetention(keep, s.db, d.contentID, s.queue, s.nextDeletionID, s.listed, s.taken);
  }

  lemma QueueChanges(keep: nat, s: State, queue: Queue)
    requires Inv(keep, s) && QueueOk(keep, s.db, queue, s.nextDeletionID)
    ensures Inv(keep, s.(queue := queue))
  {
  }

  lemma TableStepKeeps(keep: nat, uses: Uses, s: State, step: Step)
    requires Inv(keep, s) && Enabled(s, step)
    requires step.Save? || step.DeleteRow? || step.CreateFile? || step.Rename? || step.DeleteFile?
    ensures Inv(keep, After(uses, keep, s, step))
  {
    match step
    case Save(w) => SaveStepKeeps(keep, s, w);
    case DeleteRow(d) => RowStepKeeps(keep, s, d);
    case CreateFile(n) => NodeStepKeeps(keep, s, n);
    case Rename(f, parent, name) => NodeStepKeeps(keep, s, s.db.files[f].(id := f, parentID := parent, name := name));
    case DeleteFile(f) => NodeStepKeeps(keep, s, s.db.files[f].(id := f, deleted := true));
    case _ =>
  }

  lemma DequeueStepKeeps(keep: nat, s: State, q: nat)
    requires Inv(keep, s)
    ensures Inv(keep, s.(queue := s.queue - {q}))
  {
    DequeueKeepsQueue(keep, s.db, s.queue, s.nextDeletionID, q);
    QueueChanges(keep, s, s.queue - {q});
  }

  lemma FailedStepKeeps(keep: nat, s: State, q: nat, at: int)
    requires Inv(keep, s)
    ensures Inv(keep, s.(queue := Failed(s.queue, q, at)))
  {
    FailedKeepsQueue(keep, s.db, s.queue, s.nextDeletionID, q, at);
    QueueChanges(keep, s, Failed(s.queue, q, at));
  }

  lemma ReadStepKeeps(keep: nat, uses: Uses, s: State, step: Step, s': State)
    requires Inv(keep, s) && Next(uses, keep, s, step, s')
    requires step.ListCandidates? || step.Take? || step.Enqueue?
    ensures Inv(keep, s')
  {
    match step
    case Enqueue(row, at) => EnqueueKeepsQueue(keep, s, row, at);
    case ListCandidates(f) => ListedRowsOk(keep, s.db, s.listed, f);
    case Take(q) => TakeKeepsTaken(keep, s.db, s.queue, s.nextDeletionID, s.taken, q);
    case _ =>
  }

  lemma PendingChanges(keep: nat, s: State, pending: map<nat, Write>, bytes: ByteMap)
    requires Inv(keep, s) && PendingOk(s.db, pending)
    ensures Inv(keep, s.(pending := pending, bytes := bytes))
  {
  }

  lemma BytesStepKeeps(keep: nat, uses: Uses, s: State, step: Step)
    requires Inv(keep, s) && Enabled(s, step)
    requires step.Plan? || step.Put? || step.GiveUp? || step.DeleteBytes? || step.DeleteFileBytes?
    ensures Inv(keep, After(uses, keep, s, step))
  {
    var t := After(uses, keep, s, step);
    PendingChanges(keep, s, t.pending, t.bytes);
  }

  lemma InvStep(uses: Uses, keep: nat, s: State, step: Step, s': State)
    requires Inv(keep, s) && Next(uses, keep, s, step, s')
    ensures Inv(keep, s')
  {
    if step.Plan? || step.Put? || step.GiveUp? || step.DeleteBytes? || step.DeleteFileBytes? {
      BytesStepKeeps(keep, uses, s, step);
    } else if step.ListCandidates? || step.Take? || step.Enqueue? {
      ReadStepKeeps(keep, uses, s, step, s');
    } else if step.Dequeue? {
      DequeueStepKeeps(keep, s, step.d.id);
    } else if step.MarkFailed? {
      FailedStepKeeps(keep, s, step.d.id, step.at);
    } else {
      TableStepKeeps(keep, uses, s, step);
    }
  }

  lemma InvNext(uses: Uses, keep: nat, states: seq<State>, steps: seq<Step>, i: nat)
    requires i < |steps| < |states| && StepAt(uses, keep, states, steps, i) && Inv(keep, states[i])
    ensures Inv(keep, states[i + 1])
  {
    InvStep(uses, keep, states[i], steps[i], states[i + 1]);
  }

  lemma {:induction false} InvHolds(uses: Uses, keep: nat, states: seq<State>, steps: seq<Step>, n: nat)
    requires IsRun(uses, keep, states, steps) && n < |states|
    ensures Inv(keep, states[n])
  {
    if n > 0 {
      InvHolds(uses, keep, states, steps, n - 1);
      InvNext(uses, keep, states, steps, n - 1);
    }
  }
}
