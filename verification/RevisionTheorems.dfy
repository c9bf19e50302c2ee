/** What holds over whole runs of writers, retention and reapers. */
module RevisionTheorems {
  import opened Wrappers
  import opened FileTree
  import opened FilePaths
  import opened Relocations
  import opened StoredFiles
  import opened Revisions
  import opened RevisionRuns
  import opened RevisionSteps
  import opened RevisionKeys
  import opened RevisionSafety

  // ---------------------------------------------------------------- any run: versions

  /** A row stays in the history, with its file and version. */
  ghost predicate RowLasts(history: Contents, history': Contents, c: nat)
    requires c in history
  {
    c in history' && history'[c].fileID == history[c].fileID && history'[c].version == history[c].version
  }

  lemma SaveKeepsHistory(db: Tables, write: Write, c: nat)
    requires TablesOk(db) && write.FileID() in db.files && write.content.backendID != "" && c in db.history
    ensures RowLasts(db.history, Saved(db, write).history, c)
  {
    SavedRowMeans(db, write);
  }

  lemma HistoryGrows(uses: Uses, keep: nat, states: seq<State>, steps: seq<Step>, j: nat, c: nat)
    requires IsRun(uses, keep, states, steps) && j < |steps| && c in states[j].db.history
    ensures RowLasts(states[j].db.history, states[j + 1].db.history, c)
  {
    InvHolds(uses, keep, states, steps, j);
    assert StepAt(uses, keep, states, steps, j);
    OtherStepsKeepHistory(uses, keep, states[j], steps[j], states[j + 1]);
    if steps[j].Save? {
      SaveKeepsHistory(states[j].db, states[j].pending[steps[j].w], c);
    }
  }

  lemma {:induction false} HistoryLasts(uses: Uses, keep: nat, states: seq<State>, steps: seq<Step>, i: nat, j: nat,
                                        c: nat)
    requires IsRun(uses, keep, states, steps) && i <= j < |states| && c in states[i].db.history
    ensures RowLasts(states[i].db.history, states[j].db.history, c)
    decreases j
  {
    if i < j {
      HistoryLasts(uses, keep, states, steps, i, j - 1, c);
      HistoryGrows(uses, keep, states, steps, j - 1, c);
    }
  }

  /** No version number is ever used for a second row of a file, not even after the first one is gone. */
  lemma VersionsAreNeverReused(uses: Uses, keep: nat, states: seq<State>, steps: seq<Step>, i: nat, a: nat, j: nat,
                               b: nat)
    requires IsRun(uses, keep, states, steps) && i <= j < |states|
    requires a in states[i].db.contents && b in states[j].db.contents
    requires states[i].db.contents[a].fileID == states[j].db.contents[b].fileID
    requires states[i].db.contents[a].version == states[j].db.contents[b].version
    ensures a == b
  {
    InvHolds(uses, keep, states, steps, i);
    InvHolds(uses, keep, states, steps, j);
    HistoryLasts(uses, keep, states, steps, i, j, a);
  }

  /** The current row is newer than every other row its file has. */
  lemma CurrentIsNewest(uses: Uses, keep: nat, states: seq<State>, steps: seq<Step>, n: nat, f: nat, c: nat)
    requires IsRun(uses, keep, states, steps) && n < |states|
    requires c in states[n].db.contents && states[n].db.contents[c].fileID == f
    ensures f in states[n].db.files && CurrentOf(states[n].db.files, states[n].db.contents, f).Some?
    ensures var current := CurrentOf(states[n].db.files, states[n].db.contents, f).value;
            current.id == c || states[n].db.contents[c].version < current.version
  {
    InvHolds(uses, keep, states, steps, n);
  }

  // ---------------------------------------------------------------- any run: retention

  /** The current row and the newest `keep` older rows. */
  predicate Protected(db: Tables, keep: nat, c: nat)
    requires c in db.contents
  {
    IsCurrent(db.files, db.contents[c]) || |Newer(db.files, db.contents, db.contents[c])| < keep
  }

  lemma ProtectedIsNeverQueued(uses: Uses, keep: nat, states: seq<State>, steps: seq<Step>, n: nat, q: nat)
    requires IsRun(uses, keep, states, steps) && n < |states| && q in states[n].queue
    ensures states[n].queue[q].contentID in states[n].db.contents
    ensures !Protected(states[n].db, keep, states[n].queue[q].contentID)
  {
    InvHolds(uses, keep, states, steps, n);
  }

  lemma ProtectedIsNeverRemoved(uses: Uses, keep: nat, states: seq<State>, steps: seq<Step>, n: nat, c: nat)
    requires IsRun(uses, keep, states, steps) && n < |steps|
    requires c in states[n].db.contents && Protected(states[n].db, keep, c)
    ensures c in states[n + 1].db.contents
  {
    InvHolds(uses, keep, states, steps, n);
    assert StepAt(uses, keep, states, steps, n);
    assert forall d | d in states[n].taken :: GivenUp(keep, states[n].db, d.contentID);
    OnlyReapersRemove(uses, keep, states[n], steps[n], states[n + 1], c);
  }

  lemma OnlyReapersRemove(uses: Uses, keep: nat, s: State, step: Step, s': State, c: nat)
    requires Next(uses, keep, s, step, s') && c in s.db.contents
    ensures c !in s'.db.contents ==> step.DeleteRow? && step.d in s.taken && step.d.contentID == c
  {
  }

  // ---------------------------------------------------------------- exclusive runs: keys

  /** With one writer of a file at a time, no two rows ever written share a storage key exactly when every
      save meets its guard. */
  lemma KeysUniqueIffGuarded(uses: Uses, keep: nat, states: seq<State>, steps: seq<Step>)
    requires IsExclusiveRun(uses, keep, states, steps)
    ensures (forall n | 0 <= n < |states| :: KeysUnique(states[n].db.history)) <==>
            (forall i | 0 <= i < |steps| :: Guarded(uses, states[i], steps[i]))
  {
    forall i | 0 <= i < |steps| ensures SavesFree(states[i], steps[i]) <==> Guarded(uses, states[i], steps[i]) {
      InvHolds(uses, keep, states, steps, i);
      WritesHold(uses, keep, states, steps, i);
      FreeIsGuarded(uses, states[i], steps[i]);
    }
    KeysUniqueIffSavesFree(uses, keep, states, steps);
  }

  lemma FreeIsGuarded(uses: Uses, s: State, step: Step)
    requires TablesOk(s.db) && WritesOk(uses, s)
    ensures SavesFree(s, step) <==> Guarded(uses, s, step)
  {
    if step.Save? && Enabled(s, step) {
      FreeIffGuarded(uses, s.db, s.pending[step.w]);
    }
  }

  /** A rename that changes neither the revision policy nor the file's classification. */
  predicate KeepsUse(uses: Uses, s: State, step: Step) {
    match step
    case Rename(f, _, name) =>
      f in s.db.files ==> (Versioned(uses, s.db.files[f].(name := name)) <==> Versioned(uses, s.db.files[f]))
    case _ => true
  }

  /** A file that keeps no versions has only ever had its current row. */
  ghost predicate UseOk(uses: Uses, db: Tables) {
    forall h | h in db.history && db.history[h].fileID in db.files
        && !Versioned(uses, db.files[db.history[h].fileID]) ::
      IsCurrent(db.files, db.history[h])
  }

  /** Runs in which no file changes its use of revisions meet every guard. */
  lemma ConstantUseIsGuarded(uses: Uses, keep: nat, states: seq<State>, steps: seq<Step>)
    requires IsExclusiveRun(uses, keep, states, steps)
    requires forall i | 0 <= i < |steps| :: KeepsUse(uses, states[i], steps[i])
    ensures IsGuardedRun(uses, keep, states, steps)
  {
    forall i | 0 <= i < |steps| ensures Guarded(uses, states[i], steps[i]) {
      UseHolds(uses, keep, states, steps, i);
    }
  }

  lemma UseNext(uses: Uses, keep: nat, states: seq<State>, steps: seq<Step>, i: nat)
    requires i < |steps| < |states| && StepAt(uses, keep, states, steps, i) && Exclusive(states[i], steps[i])
    requires Inv(keep, states[i]) && WritesOk(uses, states[i])
    requires UseOk(uses, states[i].db) && KeepsUse(uses, states[i], steps[i])
    ensures UseOk(uses, states[i + 1].db)
  {
    UseStep(uses, keep, states[i], steps[i]);
  }

  lemma {:induction false} UseHolds(uses: Uses, keep: nat, states: seq<State>, steps: seq<Step>, n: nat)
    requires IsExclusiveRun(uses, keep, states, steps) && n < |states|
    requires forall i | 0 <= i < n :: KeepsUse(uses, states[i], steps[i])
    ensures UseOk(uses, states[n].db)
  {
    if n > 0 {
      UseHolds(uses, keep, states, steps, n - 1);
      UseStays(uses, keep, states, steps, n - 1);
    }
  }

  lemma UseStays(uses: Uses, keep: nat, states: seq<State>, steps: seq<Step>, i: nat)
    requires IsExclusiveRun(uses, keep, states, steps) && i < |steps|
    requires UseOk(uses, states[i].db) && KeepsUse(uses, states[i], steps[i])
    ensures UseOk(uses, states[i + 1].db)
  {
    InvHolds(uses, keep, states, steps, i);
    WritesHold(uses, keep, states, steps, i);
    UseNext(uses, keep, states, steps, i);
  }

  lemma UseStep(uses: Uses, keep: nat, s: State, step: Step)
    requires TablesOk(s.db) && PendingOk(s.db, s.pending) && WritesOk(uses, s) && UseOk(uses, s.db)
    requires Enabled(s, step) && Exclusive(s, step) && KeepsUse(uses, s, step)
    ensures UseOk(uses, After(uses, keep, s, step).db)
  {
    if Aside(step) {
      AsideMeans(uses, keep, s, step);
    } else if step.CreateFile? || step.Rename? || step.DeleteFile? {
      NodeStepsFit(uses, keep, s, step);
      NodeKeepsUse(uses, s.db, NodeOf(s, step));
    } else {
      match step
      case Save(w) => SaveKeepsUse(uses, s.db, s.pending[w]);
      case _ =>
    }
  }

  lemma SaveKeepsUse(uses: Uses, db: Tables, write: Write)
    requires TablesOk(db) && UnderWay(uses, db, write) && UseOk(uses, db)
    ensures UseOk(uses, Saved(db, write))
  {
    SavedRowMeans(db, write);
  }

  lemma NodeKeepsUse(uses: Uses, db: Tables, n: Node)
    requires FilesOk(db) && UseOk(uses, db) && NodeFits(db, n)
    requires n.id in db.files ==> (Versioned(uses, n) <==> Versioned(uses, db.files[n.id]))
    ensures UseOk(uses, WithNode(db, n))
  {
  }

  // ---------------------------------------------------------------- guarded runs: bytes

  /** The bytes of a live file's current row are always there. */
  lemma CurrentBytesAreThere(uses: Uses, keep: nat, states: seq<State>, steps: seq<Step>, n: nat, f: nat)
    requires IsGuardedRun(uses, keep, states, steps) && n < |states|
    requires Live(states[n].db.files, f) && states[n].db.files[f].currentContentID.Some?
    ensures ReadIn(states[n].db.files, states[n].db.contents, states[n].bytes, f).Some?
  {
    InvHolds(uses, keep, states, steps, n);
    BytesHold(uses, keep, states, steps, n);
    assert CurrentOf(states[n].db.files, states[n].db.contents, f).Some?;
  }

  /** What a live file reads. */
  function Reads(s: State, f: nat): Option<Bytes>
    requires f in s.db.files
  {
    ReadIn(s.db.files, s.db.contents, s.bytes, f)
  }

  /** Steps that may change what a file reads: saving it, deleting it, and, where versions are not kept,
      overwriting its bytes in place. */
  predicate Rewrites(s: State, step: Step, f: nat) {
    || (step.Save? && step.w in s.pending && s.pending[step.w].FileID() == f) || step == DeleteFile(f)
    || (step.Put? && step.w in s.pending && s.pending[step.w].FileID() == f && !s.pending[step.w].versioned)
  }

  lemma NewWriteIsUnderWay(uses: Uses, s: State, step: Step)
    requires step.Plan? && Enabled(s, step)
    ensures UnderWay(uses, s.db, NewWrite(uses, s.db, step.f, step.backendID))
  {
  }

  lemma PutKeepsReads(uses: Uses, s: State, step: Step, f: nat)
    requires TablesOk(s.db) && WritesOk(uses, s) && step.Put? && Enabled(s, step)
    requires Live(s.db.files, f) && !Rewrites(s, step, f)
    ensures Reads(PutStep(s, step.w, step.data, step.hash), f) == Reads(s, f)
  {
    var write, current := s.pending[step.w], CurrentOf(s.db.files, s.db.contents, f);
    assert UnderWay(uses, s.db, write);
    if current.Some? && current.value.storageKey == write.content.storageKey {
      SharedKey(uses, s.db, write, current.value.id);
    }
  }

  lemma SaveKeepsReads(s: State, w: nat, f: nat)
    requires TablesOk(s.db) && PendingOk(s.db, s.pending) && w in s.pending
    requires Live(s.db.files, f) && f != s.pending[w].FileID()
    ensures Live(SaveStep(s, w).db.files, f) && Reads(SaveStep(s, w), f) == Reads(s, f)
  {
    SavedRowMeans(s.db, s.pending[w]);
    SaveLeavesOthers(s.db, s.pending[w], f);
  }

  lemma SpareKeepsReads(uses: Uses, s: State, slot: Slot, f: nat)
    requires Spare(uses, s, slot) && Live(s.db.files, f)
    ensures Reads(s.(bytes := s.bytes - {slot}), f) == Reads(s, f)
  {
    assert s.db.files[f].currentContentID.Some? && s.db.files[f].currentContentID.value in s.db.contents ==>
        CurrentOf(s.db.files, s.db.contents, f) == Some(s.db.contents[s.db.files[f].currentContentID.value]);
  }

  lemma DeletesKeepReads(uses: Uses, keep: nat, s: State, step: Step, f: nat)
    requires Enabled(s, step) && DeletesSlot(step) && Spare(uses, s, DeletedSlot(s, step)) && Live(s.db.files, f)
    ensures Live(After(uses, keep, s, step).db.files, f) && Reads(After(uses, keep, s, step), f) == Reads(s, f)
  {
    DeletesMean(uses, keep, s, step);
    SpareKeepsReads(uses, s, DeletedSlot(s, step), f);
  }

  lemma RowGoneKeepsReads(s: State, c: nat, queue: Queue, f: nat)
    requires FilesOk(s.db) && c in s.db.contents && !IsCurrent(s.db.files, s.db.contents[c]) && f in s.db.files
    ensures var t := s.(db := WithoutRow(s.db, c), queue := queue);
            && Reads(t, f) == Reads(s, f)
            && CurrentOf(t.db.files, t.db.contents, f) == CurrentOf(s.db.files, s.db.contents, f)
  {
    RowGoneLeavesAll(s.db, c, f);
  }

  lemma RestKeepsReads(uses: Uses, keep: nat, s: State, step: Step, f: nat)
    requires FilesOk(s.db) && Enabled(s, step) && Live(s.db.files, f) && !Rewrites(s, step, f)
    requires !step.Put? && !step.Save? && !DeletesSlot(step)
    ensures Live(After(uses, keep, s, step).db.files, f) && Reads(After(uses, keep, s, step), f) == Reads(s, f)
  {
    if Aside(step) {
      AsideMeans(uses, keep, s, step);
    } else if step.DeleteRow? {
      RowGoneKeepsReads(s, step.d.contentID, QueueWithout(s.queue, step.d.contentID), f);
    }
  }

  /** Everything else, reapers and other files' writes among it, leaves what a live file reads alone. */
  lemma OthersKeepReads(uses: Uses, keep: nat, s: State, step: Step, f: nat)
    requires TablesOk(s.db) && TakenOk(keep, s.db, s.taken) && PendingOk(s.db, s.pending)
    requires WritesOk(uses, s) && KeysUnique(s.db.history)
    requires Enabled(s, step) && Live(s.db.files, f) && !Rewrites(s, step, f)
    ensures Live(After(uses, keep, s, step).db.files, f) && Reads(After(uses, keep, s, step), f) == Reads(s, f)
  {
    if step.Put? {
      PutKeepsReads(uses, s, step, f);
    } else if step.Save? {
      SaveKeepsReads(s, step.w, f);
    } else if DeletesSlot(step) {
      DeletesAreSpare(uses, keep, s, step);
      DeletesKeepReads(uses, keep, s, step, f);
    } else {
      RestKeepsReads(uses, keep, s, step, f);
    }
  }

  lemma OthersKeepReadsAt(uses: Uses, keep: nat, states: seq<State>, steps: seq<Step>, n: nat, f: nat)
    requires IsGuardedRun(uses, keep, states, steps) && n < |steps|
    requires Live(states[n].db.files, f) && !Rewrites(states[n], steps[n], f)
    ensures Live(states[n + 1].db.files, f) && Reads(states[n + 1], f) == Reads(states[n], f)
  {
    InvHolds(uses, keep, states, steps, n);
    WritesHold(uses, keep, states, steps, n);
    BytesHold(uses, keep, states, steps, n);
    assert StepAt(uses, keep, states, steps, n);
    OthersKeepReads(uses, keep, states[n], steps[n], f);
  }

  lemma {:induction false} ReadsLast(uses: Uses, keep: nat, states: seq<State>, steps: seq<Step>, i: nat, j: nat,
                                     f: nat)
    requires IsGuardedRun(uses, keep, states, steps) && i <= j < |states|
    requires Live(states[i].db.files, f) && forall k | i <= k < j :: !Rewrites(states[k], steps[k], f)
    ensures Live(states[j].db.files, f) && Reads(states[j], f) == Reads(states[i], f)
    decreases j
  {
    if i < j {
      ReadsLast(uses, keep, states, steps, i, j - 1, f);
      OthersKeepReadsAt(uses, keep, states, steps, j - 1, f);
    }
  }

  // ---------------------------------------------------------------- a write and what it is read as

  /** The write under way, and the bytes it has put. */
  ghost predicate SamePending(s: State, s': State, w: nat)
    requires w in s.pending
  {
    && w in s'.pending && s'.pending[w] == s.pending[w]
    && Relocations.Lookup(s'.bytes, SlotOf(s.pending[w].content)) ==
       Relocations.Lookup(s.bytes, SlotOf(s.pending[w].content))
  }

  /** Nothing touches the file of a write under way. */
  lemma StepLeavesWritten(uses: Uses, keep: nat, s: State, step: Step, w: nat)
    requires TablesOk(s.db) && PendingOk(s.db, s.pending) && WritesOk(uses, s)
    requires Enabled(s, step) && Exclusive(s, step) && w in s.pending && step != Save(w)
    ensures Untouched(s.db, After(uses, keep, s, step).db, s.pending[w].FileID())
  {
    var f := s.pending[w].FileID();
    if Aside(step) {
      AsideMeans(uses, keep, s, step);
    } else if step.CreateFile? || step.Rename? || step.DeleteFile? {
      NodeStepsFit(uses, keep, s, step);
      NodeLeavesOthers(s.db, NodeOf(s, step), f);
    } else {
      match step
      case Save(v) => SaveLeavesOthers(s.db, s.pending[v], f);
      case DeleteRow(d) => RowGoneLeavesAll(s.db, d.contentID, f);
      case _ =>
    }
  }

  lemma PutKeepsPendingBytes(uses: Uses, s: State, step: Step, w: nat)
    requires TablesOk(s.db) && WritesOk(uses, s) && step.Put? && Enabled(s, step)
    requires w in s.pending && s.pending[w].put
    ensures SamePending(s, PutStep(s, step.w, step.data, step.hash), w)
  {
    assert UnderWay(uses, s.db, s.pending[step.w]) && UnderWay(uses, s.db, s.pending[w]);
    if s.pending[step.w].content.storageKey == s.pending[w].content.storageKey {
      WritesDiffer(uses, s.db, s.pending[step.w], s.pending[w]);
    }
  }

  lemma RestKeepsPendingBytes(uses: Uses, keep: nat, s: State, step: Step, w: nat)
    requires Enabled(s, step) && w in s.pending && step != Save(w) && step != GiveUp(w) && !step.Put?
    requires s.pending[w].FileID() in s.db.files && WriteGuard(uses, s.db, s.pending[w].FileID())
    requires DeletesSlot(step) ==> Spare(uses, s, DeletedSlot(s, step))
    ensures SamePending(s, After(uses, keep, s, step), w)
  {
    if DeletesSlot(step) {
      DeletesMean(uses, keep, s, step);
    }
  }

  /** Between the bytes and the row of a guarded write nothing touches what was put. */
  lemma PendingBytesStay(uses: Uses, keep: nat, states: seq<State>, steps: seq<Step>, n: nat, w: nat)
    requires IsGuardedRun(uses, keep, states, steps) && n < |steps|
    requires w in states[n].pending && states[n].pending[w].put && steps[n] != Save(w) && steps[n] != GiveUp(w)
    requires states[n].pending[w].FileID() in states[n].db.files
    requires WriteGuard(uses, states[n].db, states[n].pending[w].FileID())
    ensures SamePending(states[n], states[n + 1], w)
  {
    InvHolds(uses, keep, states, steps, n);
    WritesHold(uses, keep, states, steps, n);
    BytesHold(uses, keep, states, steps, n);
    var s, step := states[n], steps[n];
    assert StepAt(uses, keep, states, steps, n) && Exclusive(s, step);
    if step.Put? {
      PutKeepsPendingBytes(uses, s, step, w);
    } else {
      if DeletesSlot(step) {
        DeletesAreSpare(uses, keep, s, step);
      }
      RestKeepsPendingBytes(uses, keep, s, step, w);
    }
  }

  /** The write of `w` whose bytes are put at `i` is still under way at `j`. */
  ghost predicate StillPending(states: seq<State>, steps: seq<Step>, i: nat, j: nat, w: nat)
    requires i <= j < |states| <= |steps| + 1
  {
    && w in states[i].pending && states[i].pending[w].put && states[i].pending[w].FileID() in states[i].db.files
    && forall k | i <= k < j :: steps[k] != Save(w) && steps[k] != GiveUp(w)
  }

  /** The guard of a write does not change while it is under way. */
  lemma GuardStays(uses: Uses, keep: nat, states: seq<State>, steps: seq<Step>, n: nat, w: nat)
    requires IsGuardedRun(uses, keep, states, steps) && n < |steps| && StillPending(states, steps, n, n + 1, w)
    ensures w in states[n + 1].pending && states[n + 1].pending[w] == states[n].pending[w]
    ensures states[n].pending[w].FileID() in states[n + 1].db.files
    ensures WriteGuard(uses, states[n + 1].db, states[n].pending[w].FileID()) <==>
            WriteGuard(uses, states[n].db, states[n].pending[w].FileID())
  {
    InvHolds(uses, keep, states, steps, n);
    WritesHold(uses, keep, states, steps, n);
    assert StepAt(uses, keep, states, steps, n) && Exclusive(states[n], steps[n]);
    assert steps[n] != Save(w) && steps[n] != GiveUp(w);
    StepLeavesWritten(uses, keep, states[n], steps[n], w);
    UntouchedGuard(uses, states[n].db, states[n + 1].db, states[n].pending[w].FileID());
    PendingKept(uses, keep, states[n], steps[n], w);
  }

  lemma PendingKept(uses: Uses, keep: nat, s: State, step: Step, w: nat)
    requires Enabled(s, step) && w in s.pending && s.pending[w].put && step != Save(w) && step != GiveUp(w)
    ensures w in After(uses, keep, s, step).pending && After(uses, keep, s, step).pending[w] == s.pending[w]
  {
  }

  lemma {:induction false} PendingBytesLast(uses: Uses, keep: nat, states: seq<State>, steps: seq<Step>, i: nat,
                                            j: nat, w: nat)
    requires IsGuardedRun(uses, keep, states, steps) && i <= j < |states| && StillPending(states, steps, i, j, w)
    requires j < |steps| && steps[j] == Save(w)
    ensures SamePending(states[i], states[j], w) && WriteGuard(uses, states[i].db, states[i].pending[w].FileID())
    decreases j - i
  {
    if i == j {
      assert Guarded(uses, states[j], steps[j]) && StepAt(uses, keep, states, steps, j);
    } else {
      assert StillPending(states, steps, i, i + 1, w);
      GuardStays(uses, keep, states, steps, i, w);
      PendingBytesLast(uses, keep, states, steps, i + 1, j, w);
      PendingBytesStay(uses, keep, states, steps, i, w);
    }
  }

  /** Whatever happens between a write's two halves and after it, a file reads the bytes of its last
      write: of the put at step `i` and the save at step `j`, up to any state before the next change. */
  lemma LastWriteIsRead(uses: Uses, keep: nat, states: seq<State>, steps: seq<Step>, i: nat, j: nat, n: nat, w: nat,
                        f: nat)
    requires IsGuardedRun(uses, keep, states, steps) && i < j < n < |states|
    requires steps[i].Put? && steps[i].w == w && steps[j] == Save(w)
    requires w in states[i].pending && states[i].pending[w].FileID() == f
    requires forall k | i < k < j :: steps[k] != Save(w) && steps[k] != GiveUp(w)
    requires forall k | j < k < n :: !Rewrites(states[k], steps[k], f)
    ensures Live(states[n].db.files, f) && Reads(states[n], f) == Some(steps[i].data)
  {
    assert StepAt(uses, keep, states, steps, i);
    InvHolds(uses, keep, states, steps, i);
    assert StillPending(states, steps, i + 1, j, w);
    PendingBytesLast(uses, keep, states, steps, i + 1, j, w);
    SaveMakesReadable(uses, keep, states, steps, j, w);
    ReadsLast(uses, keep, states, steps, j + 1, n, f);
  }

  lemma SaveMakesReadable(uses: Uses, keep: nat, states: seq<State>, steps: seq<Step>, j: nat, w: nat)
    requires IsRun(uses, keep, states, steps) && j < |steps| && steps[j] == Save(w) && w in states[j].pending
    ensures Live(states[j + 1].db.files, states[j].pending[w].FileID())
    ensures Reads(states[j + 1], states[j].pending[w].FileID()) ==
            Relocations.Lookup(states[j].bytes, SlotOf(states[j].pending[w].content))
  {
    InvHolds(uses, keep, states, steps, j);
    assert StepAt(uses, keep, states, steps, j);
    SavedRowMeans(states[j].db, states[j].pending[w]);
  }
}
