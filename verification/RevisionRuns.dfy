/** Writers, retention and reapers as one state machine. Every call to the database or to the byte store is
    a step of its own, so writers, retention and reapers interleave freely. */
module RevisionRuns {
  import opened Wrappers
  import opened Query
  import opened FileTree
  import opened FilePaths
  import opened Relocations
  import opened StoredFiles
  import opened Revisions

  /** The file and content tables. `history` holds every content row ever written, as last written. */
  datatype Tables = Tables(files: Files, contents: Contents, history: Contents, nextContentID: nat)

  /** A write under way: what it will record, whether as a further version, and whether its bytes are put.
      Key and version were decided on the file as it was when the write began. */
  datatype Write = Write(content: Content, versioned: bool, put: bool) {
    function FileID(): nat { content.fileID }

    /** The write as it was planned, before its bytes. */
    function Planned(): Write { this.(content := content.(contentHash := ""), put := false) }
  }

  /** `pending` holds each writer's write under way, `listed` every row retention has
      ever listed and `taken` every queue row a reaper has ever read: what was read once may be acted on at
      any later time. */
  datatype State = State(
    db: Tables, queue: Queue, nextDeletionID: nat, bytes: ByteMap,
    pending: map<nat, Write>, listed: set<Content>, taken: set<Deletion>)

  datatype Step =
    | Plan(w: nat, f: nat, backendID: string)
    | Put(w: nat, data: Bytes, hash: string)
    | Save(w: nat)
    | GiveUp(w: nat)
    | ListCandidates(f: nat)
    | Enqueue(row: Content, at: int)
    | Take(q: nat)
    | DeleteBytes(d: Deletion)
    | DeleteRow(d: Deletion)
    | Dequeue(d: Deletion)
    | MarkFailed(d: Deletion, at: int)
    | CreateFile(n: Node)
    | Rename(f: nat, parent: Option<nat>, name: string)
    | DeleteFile(f: nat)
    | DeleteFileBytes(c: nat)

  function Initial(): State {
    State(Tables(map[], map[], map[], 0), map[], 0, map[], map[], {}, {})
  }

  predicate IsLiveFile(files: Files, f: nat) {
    Live(files, f) && files[f].objectType == File
  }

  /** The step's guard in the program: the rows it finds. */
  predicate Enabled(s: State, step: Step) {
    match step
    case Plan(w, f, backendID) => IsLiveFile(s.db.files, f) && w !in s.pending && backendID != ""
    case Put(w, _, _) => w in s.pending && !s.pending[w].put
    case Save(w) => w in s.pending && s.pending[w].put && IsLiveFile(s.db.files, s.pending[w].FileID())
    case GiveUp(w) => w in s.pending
    case ListCandidates(_) => true
    case Enqueue(row, _) => row in s.listed && row.id in s.db.contents && !Queued(s.queue, row.id)
    case Take(q) => q in s.queue
    case DeleteBytes(d) => d in s.taken
    case DeleteRow(d) => d in s.taken && d.contentID in s.db.contents
        && !IsCurrent(s.db.files, s.db.contents[d.contentID])
    case Dequeue(d) => d in s.taken
    case MarkFailed(d, _) => d in s.taken
    case CreateFile(n) => n.id !in s.db.files && n.currentContentID.None?
    case Rename(f, _, _) => Live(s.db.files, f)
    case DeleteFile(f) => Live(s.db.files, f)
    case DeleteFileBytes(c) =>
      c in s.db.contents && s.db.contents[c].fileID in s.db.files && s.db.files[s.db.contents[c].fileID].deleted
  }

  function NewWrite(uses: Uses, db: Tables, f: nat, backendID: string): Write
    requires f in db.files
  {
    Write(Content(0, f, 0, backendID, ContentKey(uses, db.files[f], CurrentOf(db.files, db.contents, f)), ""),
          Versioned(uses, db.files[f]), false)
  }

  function RowOf(db: Tables, write: Write): Content
    requires write.FileID() in db.files
  {
    SavedRow(write.versioned, db.files, db.contents, db.nextContentID, write.FileID(), write.content)
  }

  function Saved(db: Tables, write: Write): Tables
    requires write.FileID() in db.files
  {
    var f, row := write.FileID(), RowOf(db, write);
    Tables(db.files[f := db.files[f].(currentContentID := Some(row.id))], db.contents[row.id := row],
           db.history[row.id := row], if row.id == db.nextContentID then db.nextContentID + 1 else db.nextContentID)
  }

  function ListedRows(keep: nat, db: Tables, f: nat): set<Content> {
    set c | c in Candidates(db.files, db.contents, keep, f) && c in db.contents :: db.contents[c]
  }

  function PlanStep(uses: Uses, s: State, w: nat, f: nat, backendID: string): State
    requires f in s.db.files
  {
    s.(pending := s.pending[w := NewWrite(uses, s.db, f, backendID)])
  }

  function PutStep(s: State, w: nat, data: Bytes, hash: string): State
    requires w in s.pending
  {
    var write := s.pending[w];
    s.(bytes := s.bytes[SlotOf(write.content) := data],
       pending := s.pending[w := write.(content := write.content.(contentHash := hash), put := true)])
  }

  function SaveStep(s: State, w: nat): State
    requires w in s.pending && s.pending[w].FileID() in s.db.files
  {
    s.(db := Saved(s.db, s.pending[w]), pending := s.pending - {w})
  }

  function EnqueueStep(s: State, row: Content, at: int): State {
    s.(queue := s.queue[s.nextDeletionID := Deletion(s.nextDeletionID, row.id, row.backendID, row.storageKey, 0, at)],
       nextDeletionID := s.nextDeletionID + 1)
  }

  function WithoutRow(db: Tables, c: nat): Tables {
    db.(contents := db.contents - {c})
  }

  function WithNode(db: Tables, n: Node): Tables {
    db.(files := db.files[n.id := n])
  }

  function After(uses: Uses, keep: nat, s: State, step: Step): State
    requires Enabled(s, step)
  {
    match step
    case Plan(w, f, backendID) => PlanStep(uses, s, w, f, backendID)
    case Put(w, data, hash) => PutStep(s, w, data, hash)
    case Save(w) => SaveStep(s, w)
    case GiveUp(w) => s.(pending := s.pending - {w})
    case ListCandidates(f) => s.(listed := s.listed + ListedRows(keep, s.db, f))
    case Enqueue(row, at) => EnqueueStep(s, row, at)
    case Take(q) => s.(taken := s.taken + {s.queue[q]})
    case DeleteBytes(d) => s.(bytes := s.bytes - {d.Slot()})
    case DeleteRow(d) => s.(db := WithoutRow(s.db, d.contentID), queue := QueueWithout(s.queue, d.contentID))
    case Dequeue(d) => s.(queue := s.queue - {d.id})
    case MarkFailed(d, at) => s.(queue := Failed(s.queue, d.id, at))
    case CreateFile(n) => s.(db := WithNode(s.db, n))
    case Rename(f, parent, name) => s.(db := WithNode(s.db, s.db.files[f].(id := f, parentID := parent, name := name)))
    case DeleteFile(f) => s.(db := WithNode(s.db, s.db.files[f].(id := f, deleted := true)))
    case DeleteFileBytes(c) => s.(bytes := s.bytes - {SlotOf(s.db.contents[c])})
  }

  ghost predicate Next(uses: Uses, keep: nat, s: State, step: Step, s': State) {
    Enabled(s, step) && s' == After(uses, keep, s, step)
  }

  ghost predicate IsRun(uses: Uses, keep: nat, states: seq<State>, steps: seq<Step>) {
    && |states| == |steps| + 1 && states[0] == Initial()
    && forall i | 0 <= i < |steps| :: StepAt(uses, keep, states, steps, i)
  }

  ghost predicate StepAt(uses: Uses, keep: nat, states: seq<State>, steps: seq<Step>, i: nat)
    requires i < |steps| < |states|
  {
    Next(uses, keep, states[i], steps[i], states[i + 1])
  }

  // ---------------------------------------------------------------- what writers must see to

  predicate Writing(pending: map<nat, Write>, f: nat) {
    exists w :: w in pending && pending[w].FileID() == f
  }

  /** What the workspace lock gives within one process: nothing else writes, renames or deletes a file while
      a write of it is under way. */
  predicate Exclusive(s: State, step: Step) {
    match step
    case Plan(_, f, _) => !Writing(s.pending, f)
    case Rename(f, _, _) => !Writing(s.pending, f)
    case DeleteFile(f) => !Writing(s.pending, f)
    case _ => true
  }

  ghost predicate IsExclusiveRun(uses: Uses, keep: nat, states: seq<State>, steps: seq<Step>) {
    IsRun(uses, keep, states, steps) && forall i | 0 <= i < |steps| :: Exclusive(states[i], steps[i])
  }

  function CurrentKey(n: Node): string {
    ObjectKey(n.workspaceID, n.id, CURRENT_SUFFIX)
  }

  /** Before a write that keeps no version: no other row the file ever had is at the key it overwrites. */
  predicate WriteGuard(uses: Uses, db: Tables, f: nat)
    requires f in db.files
  {
    || Versioned(uses, db.files[f])
    || forall h | h in db.history && db.history[h].fileID == f && !IsCurrent(db.files, db.history[h]) ::
         db.history[h].storageKey != CurrentKey(db.files[f])
  }

  /** The step is no save, or one whose write meets its guard. */
  predicate Guarded(uses: Uses, s: State, step: Step) {
    step.Save? && Enabled(s, step) ==> WriteGuard(uses, s.db, s.pending[step.w].FileID())
  }

  ghost predicate IsGuardedRun(uses: Uses, keep: nat, states: seq<State>, steps: seq<Step>) {
    IsExclusiveRun(uses, keep, states, steps) && forall i | 0 <= i < |steps| :: Guarded(uses, states[i], steps[i])
  }

  lemma RunOneMore(uses: Uses, keep: nat, run: seq<State>, steps: seq<Step>, step: Step, t: State)
    requires IsRun(uses, keep, run, steps) && Next(uses, keep, run[|steps|], step, t)
    ensures IsRun(uses, keep, run + [t], steps + [step]) && (run + [t])[|steps| + 1] == t
    ensures IsExclusiveRun(uses, keep, run, steps) && Exclusive(run[|steps|], step) ==>
              IsExclusiveRun(uses, keep, run + [t], steps + [step])
    ensures IsGuardedRun(uses, keep, run, steps)
            && Exclusive(run[|steps|], step) && Guarded(uses, run[|steps|], step) ==>
              IsGuardedRun(uses, keep, run + [t], steps + [step])
  {
    forall i | 0 <= i < |steps| + 1 ensures StepAt(uses, keep, run + [t], steps + [step], i) {
      assert i < |steps| ==> StepAt(uses, keep, run, steps, i);
    }
  }

  // ---------------------------------------------------------------- the invariant of any run

  ghost predicate FilesOk(db: Tables) {
    && (forall f | f in db.files :: db.files[f].id == f && (db.files[f].currentContentID.Some? ==>
          && db.files[f].currentContentID.value in db.contents
          && db.contents[db.files[f].currentContentID.value].fileID == f))
    && (forall c | c in db.contents :: c in db.history && db.contents[c] == db.history[c])
    && (forall h | h in db.history ::
          h < db.nextContentID && db.history[h].id == h && db.history[h].fileID in db.files
              && db.history[h].backendID != "")
  }

  /** The current row has the greatest version of its file's whole history. */
  ghost predicate CurrentIsGreatest(db: Tables) {
    forall h | h in db.history && db.history[h].fileID in db.files ::
      var current := db.files[db.history[h].fileID].currentContentID;
      current.Some? && current.value in db.history && db.history[h].version <= db.history[current.value].version
  }

  ghost predicate VersionsDistinct(history: Contents) {
    forall a, b | a in history && b in history && history[a].fileID == history[b].fileID
                  && history[a].version == history[b].version :: a == b
  }

  ghost predicate TablesOk(db: Tables) {
    FilesOk(db) && CurrentIsGreatest(db) && VersionsDistinct(db.history)
  }

  /** A row the retention rule gave up at some time, and gives up ever after. */
  ghost predicate GivenUp(keep: nat, db: Tables, c: nat) {
    c in db.history && Outdated(db.files, db.contents, keep, db.history[c])
  }

  ghost predicate QueueOk(keep: nat, db: Tables, queue: Queue, nextDeletionID: nat) {
    forall q | q in queue ::
      && q < nextDeletionID && queue[q].id == q && queue[q].contentID in db.contents
      && GivenUp(keep, db, queue[q].contentID) && HasSlot(db.history[queue[q].contentID], queue[q])
  }

  ghost predicate ListedOk(keep: nat, db: Tables, listed: set<Content>) {
    forall row | row in listed :: GivenUp(keep, db, row.id) && row == db.history[row.id]
  }

  ghost predicate TakenOk(keep: nat, db: Tables, taken: set<Deletion>) {
    forall d | d in taken :: GivenUp(keep, db, d.contentID) && HasSlot(db.history[d.contentID], d)
  }

  ghost predicate PendingOk(db: Tables, pending: map<nat, Write>) {
    forall w | w in pending :: pending[w].FileID() in db.files && pending[w].content.backendID != ""
  }

  ghost predicate Inv(keep: nat, s: State) {
    && TablesOk(s.db) && QueueOk(keep, s.db, s.queue, s.nextDeletionID)
    && ListedOk(keep, s.db, s.listed) && TakenOk(keep, s.db, s.taken) && PendingOk(s.db, s.pending)
  }

  // ---------------------------------------------------------------- the invariant of exclusive runs

  ghost predicate KeyShape(files: Files, row: Content)
    requires row.fileID in files
  {
    || row.storageKey == ObjectKey(files[row.fileID].workspaceID, row.fileID, VersionSuffix(row.version))
    || row.storageKey == ObjectKey(files[row.fileID].workspaceID, row.fileID, CURRENT_SUFFIX)
  }

  ghost predicate KeyShapes(files: Files, history: Contents) {
    && (forall h | h in history :: history[h].fileID in files)
    && (forall h {:trigger KeyShape(files, history[h])} | h in history :: KeyShape(files, history[h]))
  }

  /** A write under way whose file has not changed since its key was made. */
  ghost predicate UnderWay(uses: Uses, db: Tables, write: Write) {
    && IsLiveFile(db.files, write.FileID()) && write.content.backendID != ""
    && write.Planned() == NewWrite(uses, db, write.FileID(), write.content.backendID)
  }

  ghost predicate AllUnderWay(uses: Uses, db: Tables, pending: map<nat, Write>) {
    forall w {:trigger UnderWay(uses, db, pending[w])} | w in pending :: UnderWay(uses, db, pending[w])
  }

  ghost predicate OneWriterEach(pending: map<nat, Write>) {
    forall v, w | v in pending && w in pending && pending[v].FileID() == pending[w].FileID() :: v == w
  }

  ghost predicate WritesOk(uses: Uses, s: State) {
    KeyShapes(s.db.files, s.db.history) && AllUnderWay(uses, s.db, s.pending) && OneWriterEach(s.pending)
  }

  // ---------------------------------------------------------------- the invariant of guarded runs

  ghost predicate KeysUnique(history: Contents) {
    forall a, b | a in history && b in history && history[a].storageKey == history[b].storageKey :: a == b
  }

  /** The bytes of every live file's current row are there. */
  ghost predicate BytesOk(db: Tables, bytes: ByteMap) {
    forall f | Live(db.files, f) ::
      var current := CurrentOf(db.files, db.contents, f); current.Some? ==> SlotOf(current.value) in bytes
  }

  ghost predicate PendingBytesOk(uses: Uses, db: Tables, pending: map<nat, Write>, bytes: ByteMap) {
    forall w | w in pending && pending[w].put && pending[w].FileID() in db.files
               && WriteGuard(uses, db, pending[w].FileID()) ::
      SlotOf(pending[w].content) in bytes
  }

  ghost predicate BytesSafe(uses: Uses, s: State) {
    KeysUnique(s.db.history) && BytesOk(s.db, s.bytes) && PendingBytesOk(uses, s.db, s.pending, s.bytes)
  }
}
