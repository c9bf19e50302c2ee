/** Exclusive runs keep writes in shape; guarded ones keep the bytes of every current row. */
module RevisionSafety {
  import opened Wrappers
  import opened FileTree
  import opened FilePaths
  import opened Relocations
  import opened StoredFiles
  import opened Revisions
  import opened RevisionRuns
  import opened RevisionSteps
  import opened RevisionKeys

  // ---------------------------------------------------------------- a step's effect on one file

  /** The file's node, current row and history are as they were. */
  ghost predicate Untouched(db: Tables, db': Tables, f: nat)
    requires f in db.files
  {
    && f in db'.files && db'.files[f] == db.files[f]
    && CurrentOf(db'.files, db'.contents, f) == CurrentOf(db.files, db.contents, f)
    && (forall h | h in db'.history && db'.history[h].fileID == f :: h in db.history && db.history[h] == db'.history[h])
    && (forall h | h in db.history && db.history[h].fileID == f :: h in db'.history && db'.history[h] == db.history[h])
  }

  lemma UntouchedGuard(uses: Uses, db: Tables, db': Tables, f: nat)
    requires f in db.files && Untouched(db, db', f)
    ensures WriteGuard(uses, db', f) <==> WriteGuard(uses, db, f)
  {
    if !WriteGuard(uses, db, f) {
      var h :| h in db.history && db.history[h].fileID == f && !IsCurrent(db.files, db.history[h])
               && db.history[h].storageKey == CurrentKey(db.files[f]);
      assert h in db'.history && db'.history[h] == db.history[h];
    }
  }

  lemma UntouchedWrite(uses: Uses, db: Tables, db': Tables, write: Write)
    requires UnderWay(uses, db, write) && Untouched(db, db', write.FileID())
    ensures UnderWay(uses, db', write)
  {
  }

  lemma SaveLeavesOthers(db: Tables, write: Write, f: nat)
    requires TablesOk(db) && write.FileID() in db.files && write.content.backendID != "" && f in db.files
    requires f != write.FileID()
    ensures Untouched(db, Saved(db, write), f)
  {
    SavedRowMeans(db, write);
  }

  lemma RowGoneLeavesAll(db: Tables, c: nat, f: nat)
    requires FilesOk(db) && c in db.contents && !IsCurrent(db.files, db.contents[c]) && f in db.files
    ensures Untouched(db, WithoutRow(db, c), f)
  {
  }

  lemma NodeLeavesOthers(db: Tables, n: Node, f: nat)
    requires f in db.files && f != n.id
    ensures Untouched(db, WithNode(db, n), f)
  {
  }

  // ---------------------------------------------------------------- exclusive runs

  lemma SaveKeepsShapes(uses: Uses, db: Tables, write: Write)
    requires TablesOk(db) && KeyShapes(db.files, db.history) && UnderWay(uses, db, write)
    ensures KeyShapes(Saved(db, write).files, Saved(db, write).history)
  {
    SavedRowMeans(db, write);
    forall h | h in db.history ensures KeyShape(db.files, db.history[h]) {
    }
  }

  lemma SaveKeepsWrites(uses: Uses, s: State, w: nat)
    requires TablesOk(s.db) && PendingOk(s.db, s.pending) && WritesOk(uses, s) && w in s.pending
    ensures WritesOk(uses, SaveStep(s, w))
  {
    assert UnderWay(uses, s.db, s.pending[w]);
    SaveKeepsShapes(uses, s.db, s.pending[w]);
    forall v | v in s.pending && v != w ensures UnderWay(uses, Saved(s.db, s.pending[w]), s.pending[v]) {
      assert UnderWay(uses, s.db, s.pending[v]);
      SaveLeavesOthers(s.db, s.pending[w], s.pending[v].FileID());
      UntouchedWrite(uses, s.db, Saved(s.db, s.pending[w]), s.pending[v]);
    }
  }

  lemma PlanKeepsWrites(uses: Uses, s: State, w: nat, f: nat, backendID: string)
    requires WritesOk(uses, s) && Enabled(s, Plan(w, f, backendID)) && !Writing(s.pending, f)
    ensures WritesOk(uses, PlanStep(uses, s, w, f, backendID))
  {
  }

  lemma PutKeepsWrites(uses: Uses, s: State, w: nat, data: Bytes, hash: string)
    requires WritesOk(uses, s) && w in s.pending
    ensures WritesOk(uses, PutStep(s, w, data, hash))
  {
    forall v | v in s.pending ensures UnderWay(uses, s.db, PutStep(s, w, data, hash).pending[v]) {
      assert UnderWay(uses, s.db, s.pending[v]);
    }
  }

  lemma RowGoneKeepsWrites(uses: Uses, db: Tables, c: nat, pending: map<nat, Write>)
    requires FilesOk(db) && c in db.contents && !IsCurrent(db.files, db.contents[c]) && AllUnderWay(uses, db, pending)
    ensures AllUnderWay(uses, WithoutRow(db, c), pending)
  {
    forall v | v in pending ensures UnderWay(uses, WithoutRow(db, c), pending[v]) {
      assert UnderWay(uses, db, pending[v]);
      RowGoneLeavesAll(db, c, pending[v].FileID());
      UntouchedWrite(uses, db, WithoutRow(db, c), pending[v]);
    }
  }

  lemma NodeKeepsWrites(uses: Uses, db: Tables, n: Node, pending: map<nat, Write>)
    requires NodeFits(db, n) && !Writing(pending, n.id) && AllUnderWay(uses, db, pending)
    requires KeyShapes(db.files, db.history)
    ensures AllUnderWay(uses, WithNode(db, n), pending) && KeyShapes(WithNode(db, n).files, db.history)
  {
    forall v | v in pending ensures UnderWay(uses, WithNode(db, n), pending[v]) {
      assert UnderWay(uses, db, pending[v]);
      NodeLeavesOthers(db, n, pending[v].FileID());
      UntouchedWrite(uses, db, WithNode(db, n), pending[v]);
    }
    forall h | h in db.history ensures KeyShape(WithNode(db, n).files, db.history[h]) {
      assert KeyShape(db.files, db.history[h]);
    }
  }

  /** The node a file step puts in place. */
  function NodeOf(s: State, step: Step): Node
    requires Enabled(s, step) && (step.CreateFile? || step.Rename? || step.DeleteFile?)
  {
    match step
    case CreateFile(n) => n
    case Rename(f, parent, name) => s.db.files[f].(id := f, parentID := parent, name := name)
    case DeleteFile(f) => s.db.files[f].(id := f, deleted := true)
  }

  lemma NodeStepsFit(uses: Uses, keep: nat, s: State, step: Step)
    requires Enabled(s, step) && (step.CreateFile? || step.Rename? || step.DeleteFile?)
    requires WritesOk(uses, s) && Exclusive(s, step)
    ensures NodeFits(s.db, NodeOf(s, step)) && !Writing(s.pending, NodeOf(s, step).id)
    ensures After(uses, keep, s, step) == s.(db := WithNode(s.db, NodeOf(s, step)))
    ensures NodeOf(s, step).id in s.db.files ==> NodeOf(s, step).deleted || !s.db.files[NodeOf(s, step).id].deleted
  {
    assert forall w | w in s.pending :: UnderWay(uses, s.db, s.pending[w]);
  }

  lemma NodeStepKeepsWrites(uses: Uses, keep: nat, s: State, step: Step)
    requires Enabled(s, step) && (step.CreateFile? || step.Rename? || step.DeleteFile?)
    requires WritesOk(uses, s) && Exclusive(s, step)
    ensures WritesOk(uses, After(uses, keep, s, step))
  {
    NodeStepsFit(uses, keep, s, step);
    NodeKeepsWrites(uses, s.db, NodeOf(s, step), s.pending);
  }

  /** Steps that touch neither the tables nor the writes under way. */
  predicate Aside(step: Step) {
    || step.ListCandidates? || step.Enqueue? || step.Take? || step.Dequeue? || step.MarkFailed?
    || step.DeleteBytes? || step.DeleteFileBytes?
  }

  lemma AsideMeans(uses: Uses, keep: nat, s: State, step: Step)
    requires Enabled(s, step) && Aside(step)
    ensures After(uses, keep, s, step).db == s.db && After(uses, keep, s, step).pending == s.pending
    ensures !step.DeleteBytes? && !step.DeleteFileBytes? ==> After(uses, keep, s, step).bytes == s.bytes
  {
  }

  lemma WritesStep(uses: Uses, keep: nat, s: State, step: Step)
    requires TablesOk(s.db) && PendingOk(s.db, s.pending) && WritesOk(uses, s) && Enabled(s, step) && Exclusive(s, step)
    ensures WritesOk(uses, After(uses, keep, s, step))
  {
    if Aside(step) {
      AsideMeans(uses, keep, s, step);
    } else if step.CreateFile? || step.Rename? || step.DeleteFile? {
      NodeStepKeepsWrites(uses, keep, s, step);
    } else {
      match step
      case Plan(w, f, backendID) => PlanKeepsWrites(uses, s, w, f, backendID);
      case Put(w, data, hash) => PutKeepsWrites(uses, s, w, data, hash);
      case Save(w) => SaveKeepsWrites(uses, s, w);
      case DeleteRow(d) => RowGoneKeepsWrites(uses, s.db, d.contentID, s.pending);
      case GiveUp(w) =>
    }
  }

  lemma WritesNext(uses: Uses, keep: nat, states: seq<State>, steps: seq<Step>, i: nat)
    requires i < |steps| < |states| && StepAt(uses, keep, states, steps, i) && Exclusive(states[i], steps[i])
    requires Inv(keep, states[i]) && WritesOk(uses, states[i])
    ensures WritesOk(uses, states[i + 1])
  {
    WritesStep(uses, keep, states[i], steps[i]);
  }

  lemma {:induction false} WritesHold(uses: Uses, keep: nat, states: seq<State>, steps: seq<Step>, n: nat)
    requires IsExclusiveRun(uses, keep, states, steps) && n < |states|
    ensures WritesOk(uses, states[n])
  {
    if n > 0 {
      WritesHold(uses, keep, states, steps, n - 1);
      WritesStayOk(uses, keep, states, steps, n - 1);
    }
  }

  lemma WritesStayOk(uses: Uses, keep: nat, states: seq<State>, steps: seq<Step>, i: nat)
    requires IsExclusiveRun(uses, keep, states, steps) && i < |steps| && WritesOk(uses, states[i])
    ensures WritesOk(uses, states[i + 1])
  {
    InvHolds(uses, keep, states, steps, i);
    WritesNext(uses, keep, states, steps, i);
  }

  // ---------------------------------------------------------------- guarded runs

  /** A slot at which neither a guarded write under way nor a live file's current row has its bytes. */
  ghost predicate Spare(uses: Uses, s: State, slot: Slot) {
    && (forall w | w in s.pending && s.pending[w].FileID() in s.db.files
        && WriteGuard(uses, s.db, s.pending[w].FileID()) ::
          SlotOf(s.pending[w].content) != slot)
    && (forall f | Live(s.db.files, f) ::
          var current := CurrentOf(s.db.files, s.db.contents, f); current.Some? ==> SlotOf(current.value) != slot)
  }

  lemma SpareBytesMayGo(uses: Uses, s: State, slot: Slot)
    requires BytesSafe(uses, s) && Spare(uses, s, slot)
    ensures BytesSafe(uses, s.(bytes := s.bytes - {slot}))
  {
  }

  lemma CurrentIsApart(db: Tables, f: nat, c: nat)
    requires FilesOk(db) && KeysUnique(db.history) && c in db.history && Live(db.files, f)
    requires IsCurrent(db.files, db.history[c]) ==> !Live(db.files, db.history[c].fileID)
    ensures var current := CurrentOf(db.files, db.contents, f);
            current.Some? ==> SlotOf(current.value) != SlotOf(db.history[c])
  {
  }

  /** A row that is no live file's current one is at a spare slot. */
  lemma OtherRowIsSpare(uses: Uses, s: State, c: nat)
    requires TablesOk(s.db) && WritesOk(uses, s) && KeysUnique(s.db.history) && c in s.db.history
    requires IsCurrent(s.db.files, s.db.history[c]) ==> !Live(s.db.files, s.db.history[c].fileID)
    ensures Spare(uses, s, SlotOf(s.db.history[c]))
  {
    var slot := SlotOf(s.db.history[c]);
    forall w | w in s.pending && s.pending[w].FileID() in s.db.files && WriteGuard(uses, s.db, s.pending[w].FileID())
      ensures SlotOf(s.pending[w].content) != slot
    {
      assert UnderWay(uses, s.db, s.pending[w]);
      GuardedWriteIsApart(uses, s.db, s.pending[w], c);
    }
    forall f | Live(s.db.files, f)
      ensures var current := CurrentOf(s.db.files, s.db.contents, f); current.Some? ==> SlotOf(current.value) != slot
    {
      CurrentIsApart(s.db, f, c);
    }
  }

  lemma GuardedWriteIsApart(uses: Uses, db: Tables, write: Write, c: nat)
    requires TablesOk(db) && KeyShapes(db.files, db.history) && UnderWay(uses, db, write)
    requires WriteGuard(uses, db, write.FileID())
    requires c in db.history && (IsCurrent(db.files, db.history[c]) ==> !Live(db.files, db.history[c].fileID))
    ensures SlotOf(write.content) != SlotOf(db.history[c])
  {
    if write.content.storageKey == db.history[c].storageKey {
      SharedKey(uses, db, write, c);
    }
  }

  lemma PlanKeepsBytes(uses: Uses, s: State, w: nat, f: nat, backendID: string)
    requires BytesSafe(uses, s) && f in s.db.files
    ensures BytesSafe(uses, PlanStep(uses, s, w, f, backendID))
  {
  }

  lemma PutKeepsBytes(uses: Uses, s: State, w: nat, data: Bytes, hash: string)
    requires BytesSafe(uses, s) && w in s.pending
    ensures BytesSafe(uses, PutStep(s, w, data, hash))
  {
  }

  lemma SaveKeepsBytes(uses: Uses, s: State, w: nat)
    requires TablesOk(s.db) && PendingOk(s.db, s.pending) && WritesOk(uses, s) && BytesSafe(uses, s)
    requires w in s.pending && s.pending[w].put
    requires WriteGuard(uses, s.db, s.pending[w].FileID())
    ensures BytesSafe(uses, SaveStep(s, w))
  {
    var write := s.pending[w];
    assert UnderWay(uses, s.db, write);
    FreeIffGuarded(uses, s.db, write);
    SaveKeepsKeysIffFree(s.db, write);
    SavedBytesOk(uses, s.db, write, s.bytes);
    SavedPendingBytesOk(uses, s, w);
  }

  lemma SavedBytesOk(uses: Uses, db: Tables, write: Write, bytes: ByteMap)
    requires TablesOk(db) && UnderWay(uses, db, write) && BytesOk(db, bytes) && SlotOf(write.content) in bytes
    ensures BytesOk(Saved(db, write), bytes)
  {
    SavedRowMeans(db, write);
    forall f | f in db.files && f != write.FileID() ensures Untouched(db, Saved(db, write), f) {
      SaveLeavesOthers(db, write, f);
    }
  }

  lemma SavedPendingBytesOk(uses: Uses, s: State, w: nat)
    requires TablesOk(s.db) && PendingOk(s.db, s.pending) && WritesOk(uses, s) && w in s.pending
    requires PendingBytesOk(uses, s.db, s.pending, s.bytes)
    ensures PendingBytesOk(uses, Saved(s.db, s.pending[w]), s.pending - {w}, s.bytes)
  {
    assert UnderWay(uses, s.db, s.pending[w]);
    var db' := Saved(s.db, s.pending[w]);
    forall v | v in s.pending - {w} && s.pending[v].put && s.pending[v].FileID() in db'.files
        && WriteGuard(uses, db', s.pending[v].FileID())
      ensures SlotOf(s.pending[v].content) in s.bytes
    {
      assert UnderWay(uses, s.db, s.pending[v]);
      SaveLeavesOthers(s.db, s.pending[w], s.pending[v].FileID());
      UntouchedGuard(uses, s.db, db', s.pending[v].FileID());
    }
  }

  lemma TablesKeepBytes(uses: Uses, s: State, db': Tables)
    requires BytesSafe(uses, s) && db'.history == s.db.history
    requires forall w | w in s.pending :: s.pending[w].FileID() in s.db.files
               && Untouched(s.db, db', s.pending[w].FileID())
    requires forall f | Live(db'.files, f) && CurrentOf(db'.files, db'.contents, f).Some? ::
               Live(s.db.files, f) && CurrentOf(db'.files, db'.contents, f) == CurrentOf(s.db.files, s.db.contents, f)
    ensures BytesSafe(uses, s.(db := db'))
  {
    forall w | w in s.pending && s.pending[w].put && WriteGuard(uses, db', s.pending[w].FileID())
      ensures SlotOf(s.pending[w].content) in s.bytes
    {
      UntouchedGuard(uses, s.db, db', s.pending[w].FileID());
    }
  }

  lemma RowGoneKeepsBytes(uses: Uses, s: State, c: nat)
    requires TablesOk(s.db) && PendingOk(s.db, s.pending) && BytesSafe(uses, s)
    requires c in s.db.contents && !IsCurrent(s.db.files, s.db.contents[c])
    ensures BytesSafe(uses, s.(db := WithoutRow(s.db, c)))
  {
    forall f | f in s.db.files ensures Untouched(s.db, WithoutRow(s.db, c), f) {
      RowGoneLeavesAll(s.db, c, f);
    }
    TablesKeepBytes(uses, s, WithoutRow(s.db, c));
  }

  lemma NodeKeepsBytes(uses: Uses, s: State, n: Node)
    requires FilesOk(s.db) && PendingOk(s.db, s.pending) && BytesSafe(uses, s)
    requires NodeFits(s.db, n) && !Writing(s.pending, n.id)
    requires n.id in s.db.files ==> n.deleted || !s.db.files[n.id].deleted
    ensures BytesSafe(uses, s.(db := WithNode(s.db, n)))
  {
    forall w | w in s.pending ensures Untouched(s.db, WithNode(s.db, n), s.pending[w].FileID()) {
      NodeLeavesOthers(s.db, n, s.pending[w].FileID());
    }
    TablesKeepBytes(uses, s, WithNode(s.db, n));
  }

  predicate DeletesSlot(step: Step) {
    step.DeleteBytes? || step.DeleteFileBytes?
  }

  /** The slot whose bytes the step deletes. */
  function DeletedSlot(s: State, step: Step): Slot
    requires Enabled(s, step) && DeletesSlot(step)
  {
    match step
    case DeleteBytes(d) => d.Slot()
    case DeleteFileBytes(c) => SlotOf(s.db.contents[c])
  }

  lemma DeletedRow(keep: nat, s: State, step: Step) returns (c: nat)
    requires FilesOk(s.db) && TakenOk(keep, s.db, s.taken) && Enabled(s, step) && DeletesSlot(step)
    ensures c in s.db.history && DeletedSlot(s, step) == SlotOf(s.db.history[c])
    ensures IsCurrent(s.db.files, s.db.history[c]) ==> !Live(s.db.files, s.db.history[c].fileID)
  {
    c := if step.DeleteBytes? then step.d.contentID else step.c;
  }

  /** The bytes a step deletes are at a spare slot. */
  lemma DeletesAreSpare(uses: Uses, keep: nat, s: State, step: Step)
    requires TablesOk(s.db) && TakenOk(keep, s.db, s.taken) && WritesOk(uses, s) && KeysUnique(s.db.history)
    requires Enabled(s, step) && DeletesSlot(step)
    ensures Spare(uses, s, DeletedSlot(s, step))
  {
    var c := DeletedRow(keep, s, step);
    OtherRowIsSpare(uses, s, c);
  }

  lemma DeletesMean(uses: Uses, keep: nat, s: State, step: Step)
    requires Enabled(s, step) && DeletesSlot(step)
    ensures After(uses, keep, s, step) == s.(bytes := s.bytes - {DeletedSlot(s, step)})
  {
  }

  lemma AsideKeepsBytes(uses: Uses, keep: nat, s: State, step: Step)
    requires TablesOk(s.db) && TakenOk(keep, s.db, s.taken) && WritesOk(uses, s) && BytesSafe(uses, s)
    requires Enabled(s, step) && Aside(step)
    ensures BytesSafe(uses, After(uses, keep, s, step))
  {
    if DeletesSlot(step) {
      DeletesAreSpare(uses, keep, s, step);
      DeletesMean(uses, keep, s, step);
      SpareBytesMayGo(uses, s, DeletedSlot(s, step));
    } else {
      AsideMeans(uses, keep, s, step);
    }
  }

  lemma NodeStepKeepsBytes(uses: Uses, keep: nat, s: State, step: Step)
    requires TablesOk(s.db) && PendingOk(s.db, s.pending) && WritesOk(uses, s) && BytesSafe(uses, s)
    requires Enabled(s, step) && Exclusive(s, step) && (step.CreateFile? || step.Rename? || step.DeleteFile?)
    ensures BytesSafe(uses, After(uses, keep, s, step))
  {
    NodeStepsFit(uses, keep, s, step);
    NodeKeepsBytes(uses, s, NodeOf(s, step));
  }

  lemma BytesStep(uses: Uses, keep: nat, s: State, step: Step)
    requires Inv(keep, s) && WritesOk(uses, s) && BytesSafe(uses, s)
    requires Enabled(s, step) && Exclusive(s, step) && Guarded(uses, s, step)
    ensures BytesSafe(uses, After(uses, keep, s, step))
  {
    if Aside(step) {
      AsideKeepsBytes(uses, keep, s, step);
    } else if step.CreateFile? || step.Rename? || step.DeleteFile? {
      NodeStepKeepsBytes(uses, keep, s, step);
    } else {
      match step
      case Plan(w, f, backendID) => PlanKeepsBytes(uses, s, w, f, backendID);
      case Put(w, data, hash) => PutKeepsBytes(uses, s, w, data, hash);
      case Save(w) => SaveKeepsBytes(uses, s, w);
      case DeleteRow(d) => RowGoneKeepsBytes(uses, s, d.contentID);
      case GiveUp(w) =>
    }
  }

  lemma BytesNext(uses: Uses, keep: nat, states: seq<State>, steps: seq<Step>, i: nat)
    requires i < |steps| < |states| && StepAt(uses, keep, states, steps, i)
    requires Exclusive(states[i], steps[i]) && Guarded(uses, states[i], steps[i])
    requires Inv(keep, states[i]) && WritesOk(uses, states[i]) && BytesSafe(uses, states[i])
    ensures BytesSafe(uses, states[i + 1])
  {
    BytesStep(uses, keep, states[i], steps[i]);
  }

  lemma {:induction false} BytesHold(uses: Uses, keep: nat, states: seq<State>, steps: seq<Step>, n: nat)
    requires IsGuardedRun(uses, keep, states, steps) && n < |states|
    ensures BytesSafe(uses, states[n])
  {
    if n > 0 {
      BytesHold(uses, keep, states, steps, n - 1);
      StaysSafe(uses, keep, states, steps, n - 1);
    }
  }

  lemma StaysSafe(uses: Uses, keep: nat, states: seq<State>, steps: seq<Step>, i: nat)
    requires IsGuardedRun(uses, keep, states, steps) && i < |steps| && BytesSafe(uses, states[i])
    ensures BytesSafe(uses, states[i + 1])
  {
    InvHolds(uses, keep, states, steps, i);
    WritesHold(uses, keep, states, steps, i);
    BytesNext(uses, keep, states, steps, i);
  }
}
