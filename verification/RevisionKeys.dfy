/** Storage keys along a run: when a save gives a row a key of its own, and what then keeps the bytes of
    current rows out of the reapers' way. */
module RevisionKeys {
  import opened Wrappers
  import opened FileTree
  import opened FilePaths
  import opened Relocations
  import opened StoredFiles
  import opened Revisions
  import opened RevisionRuns
  import opened RevisionSteps

  // ---------------------------------------------------------------- any run: free keys

  /** No other row ever written is at the key the save records. */
  predicate KeyIsFree(db: Tables, write: Write)
    requires write.FileID() in db.files
  {
    forall h | h in db.history && h != RowOf(db, write).id :: db.history[h].storageKey != write.content.storageKey
  }

  /** A save, of whatever writer, keeps all keys distinct exactly when the key it records is free. */
  lemma SaveKeepsKeysIffFree(db: Tables, write: Write)
    requires TablesOk(db) && write.FileID() in db.files && write.content.backendID != "" && KeysUnique(db.history)
    ensures KeysUnique(Saved(db, write).history) <==> KeyIsFree(db, write)
  {
    SavedRowMeans(db, write);
    var row, history := RowOf(db, write), Saved(db, write).history;
    if !KeyIsFree(db, write) {
      var h :| h in db.history && h != row.id && db.history[h].storageKey == write.content.storageKey;
      assert h in history && row.id in history && history[h].storageKey == history[row.id].storageKey;
    }
  }

  /** The step is no save, or one whose key is free. */
  predicate SavesFree(s: State, step: Step) {
    step.Save? && Enabled(s, step) ==> KeyIsFree(s.db, s.pending[step.w])
  }

  lemma OtherStepsKeepHistory(uses: Uses, keep: nat, s: State, step: Step, s': State)
    requires Next(uses, keep, s, step, s')
    ensures s'.db.history == if step.Save? then Saved(s.db, s.pending[step.w]).history else s.db.history
  {
  }

  lemma StepKeepsKeysIff(uses: Uses, keep: nat, s: State, step: Step, s': State)
    requires Inv(keep, s) && Next(uses, keep, s, step, s') && KeysUnique(s.db.history)
    ensures KeysUnique(s'.db.history) <==> SavesFree(s, step)
  {
    OtherStepsKeepHistory(uses, keep, s, step, s');
    if step.Save? {
      SaveKeepsKeysIffFree(s.db, s.pending[step.w]);
    }
  }

  /** Over a whole run of any writers: no two rows ever written share a storage key exactly when every save
      records a free one. */
  lemma KeysUniqueIffSavesFree(uses: Uses, keep: nat, states: seq<State>, steps: seq<Step>)
    requires IsRun(uses, keep, states, steps)
    ensures (forall n | 0 <= n < |states| :: KeysUnique(states[n].db.history)) <==>
            (forall i | 0 <= i < |steps| :: SavesFree(states[i], steps[i]))
  {
    if forall n | 0 <= n < |states| :: KeysUnique(states[n].db.history) {
      forall i | 0 <= i < |steps| ensures SavesFree(states[i], steps[i]) {
        StepKeepsKeysIffAt(uses, keep, states, steps, i);
      }
    }
    if forall i | 0 <= i < |steps| :: SavesFree(states[i], steps[i]) {
      forall n | 0 <= n < |states| ensures KeysUnique(states[n].db.history) {
        FreeSavesKeepKeys(uses, keep, states, steps, n);
      }
    }
  }

  lemma StepKeepsKeysIffAt(uses: Uses, keep: nat, states: seq<State>, steps: seq<Step>, i: nat)
    requires IsRun(uses, keep, states, steps) && i < |steps| && KeysUnique(states[i].db.history)
    ensures KeysUnique(states[i + 1].db.history) <==> SavesFree(states[i], steps[i])
  {
    InvHolds(uses, keep, states, steps, i);
    assert StepAt(uses, keep, states, steps, i);
    StepKeepsKeysIff(uses, keep, states[i], steps[i], states[i + 1]);
  }

  lemma {:induction false} FreeSavesKeepKeys(uses: Uses, keep: nat, states: seq<State>, steps: seq<Step>, n: nat)
    requires IsRun(uses, keep, states, steps) && n < |states|
    requires forall i | 0 <= i < n :: SavesFree(states[i], steps[i])
    ensures KeysUnique(states[n].db.history)
  {
    if n > 0 {
      FreeSavesKeepKeys(uses, keep, states, steps, n - 1);
      StepKeepsKeysIffAt(uses, keep, states, steps, n - 1);
    }
  }

  // ---------------------------------------------------------------- exclusive runs: what keys look like

  lemma KeyForm(files: Files, history: Contents, h: nat) returns (suffix: seq<string>)
    requires KeyShapes(files, history) && h in history
    ensures ValidSegments(suffix) && history[h].fileID in files
    ensures history[h].storageKey == ObjectKey(files[history[h].fileID].workspaceID, history[h].fileID, suffix)
    ensures suffix == VersionSuffix(history[h].version) || suffix == CURRENT_SUFFIX
  {
    SuffixesAreValid(history[h].version);
    var f := history[h].fileID;
    assert KeyShape(files, history[h]);
    suffix := if history[h].storageKey == ObjectKey(files[f].workspaceID, f, CURRENT_SUFFIX) then CURRENT_SUFFIX
              else VersionSuffix(history[h].version);
  }

  function NextVersion(db: Tables, f: nat): int
    requires f in db.files
  {
    var current := CurrentOf(db.files, db.contents, f);
    if current.Some? then current.value.version + 1 else 1
  }

  lemma WriteForm(uses: Uses, db: Tables, write: Write) returns (suffix: seq<string>)
    requires FilesOk(db) && UnderWay(uses, db, write)
    ensures ValidSegments(suffix) && NextVersion(db, write.FileID()) >= 0
    ensures write.content.storageKey == ObjectKey(db.files[write.FileID()].workspaceID, write.FileID(), suffix)
    ensures suffix == if write.versioned then VersionSuffix(NextVersion(db, write.FileID())) else CURRENT_SUFFIX
  {
    SuffixesAreValid(NextVersion(db, write.FileID()));
    suffix := if write.versioned then VersionSuffix(NextVersion(db, write.FileID())) else CURRENT_SUFFIX;
  }

  /** A write under way shares its key only with rows of its own file, at the unversioned key. */
  lemma SharedKey(uses: Uses, db: Tables, write: Write, h: nat)
    requires TablesOk(db) && KeyShapes(db.files, db.history) && UnderWay(uses, db, write) && h in db.history
    requires db.history[h].storageKey == write.content.storageKey
    ensures db.history[h].fileID == write.FileID() && !write.versioned
    ensures write.content.storageKey == CurrentKey(db.files[write.FileID()])
  {
    var f, g := write.FileID(), db.history[h].fileID;
    var sf := WriteForm(uses, db, write);
    var sh := KeyForm(db.files, db.history, h);
    ObjectKeyInjective(db.files[f].workspaceID, f, sf, db.files[g].workspaceID, g, sh);
    SuffixInjective(NextVersion(db, f), db.history[h].version);
    SuffixInjective(db.history[h].version, 0);
  }

  /** While nothing else changes its file, a write's key is free exactly when the write meets its guard: it
      appends a version, or no older row of the file is at the key it overwrites. */
  lemma FreeIffGuarded(uses: Uses, db: Tables, write: Write)
    requires TablesOk(db) && KeyShapes(db.files, db.history) && UnderWay(uses, db, write)
    ensures KeyIsFree(db, write) <==> WriteGuard(uses, db, write.FileID())
  {
    var f := write.FileID();
    SavedRowMeans(db, write);
    if WriteGuard(uses, db, f) {
      forall h | h in db.history && h != RowOf(db, write).id
        ensures db.history[h].storageKey != write.content.storageKey
      {
        if db.history[h].storageKey == write.content.storageKey {
          SharedKey(uses, db, write, h);
        }
      }
    } else {
      var h :| h in db.history && db.history[h].fileID == f && !IsCurrent(db.files, db.history[h])
               && db.history[h].storageKey == CurrentKey(db.files[f]);
      assert h != RowOf(db, write).id;
    }
  }

  lemma WritesDiffer(uses: Uses, db: Tables, v: Write, w: Write)
    requires FilesOk(db) && UnderWay(uses, db, v) && UnderWay(uses, db, w)
    requires v.content.storageKey == w.content.storageKey
    ensures v.FileID() == w.FileID()
  {
    var sv := WriteForm(uses, db, v);
    var sw := WriteForm(uses, db, w);
    ObjectKeyInjective(db.files[v.FileID()].workspaceID, v.FileID(), sv, db.files[w.FileID()].workspaceID, w.FileID(),
                       sw);
  }

  lemma RowFilesDiffer(db: Tables, a: nat, b: nat)
    requires KeyShapes(db.files, db.history) && a in db.history && b in db.history
    requires db.history[a].storageKey == db.history[b].storageKey
    ensures db.history[a].fileID == db.history[b].fileID
  {
    var sa := KeyForm(db.files, db.history, a);
    var sb := KeyForm(db.files, db.history, b);
    var f, g := db.history[a].fileID, db.history[b].fileID;
    ObjectKeyInjective(db.files[f].workspaceID, f, sa, db.files[g].workspaceID, g, sb);
  }
}
