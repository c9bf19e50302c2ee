/** What a call of object storage mode leaves behind, finished or stopped anywhere: a state that a service can
    start from again, and clean-ups in which bytes go before the rows that tell where they are. */
module ObjectStops {
  import opened Wrappers
  import opened Query
  import opened FileTree
  import opened Relocations
  import opened StoredFiles
  import opened Revisions
  import opened RevisionRuns
  import opened RevisionSteps
  import opened RevisionTheorems
  import opened RevisionTraces
  import opened ObjectTraces

  /** What the service keeps in the database. */
  datatype ObjectTables = ObjectTables(db: Tables, queue: Queue, nextDeletionID: nat)

  const NO_TABLES := ObjectTables(Tables(map[], map[], map[], 0), map[], 0)

  type ObjectStop = Stop<ObjectTables>

  /** The machine where nothing is under way. */
  function StateAt(stop: ObjectStop, listed: set<Content>, taken: set<Deletion>): State {
    State(stop.tables.db, stop.tables.queue, stop.tables.nextDeletionID, stop.bytes, map[], listed, taken)
  }

  function StopOf(s: State): ObjectStop {
    Stop(ObjectTables(s.db, s.queue, s.nextDeletionID), s.bytes)
  }

  function MetadataOf(stop: ObjectStop): Stop<Metadata> {
    Stop(Metadata(stop.tables.db.files, stop.tables.db.contents), stop.bytes)
  }

  function WithTree(tables: ObjectTables, files: Files): ObjectTables {
    tables.(db := tables.db.(files := files))
  }

  // ---------------------------------------------------------------- starting again

  /** A service started here finds a tree, and a state that runs reach. */
  ghost predicate Restartable(uses: Uses, keep: nat, guarded: bool, stop: ObjectStop) {
    && NamedForest(stop.tables.db.files)
    && exists listed, taken :: Reached(uses, keep, guarded, StateAt(stop, listed, taken))
  }

  ghost predicate RestartsThrough(
    uses: Uses, keep: nat, guarded: bool, before: seq<ObjectStop>, after: seq<ObjectStop>)
  {
    before <= after && forall i | |before| <= i < |after| :: Restartable(uses, keep, guarded, after[i])
  }

  lemma StopIsRestartable(uses: Uses, keep: nat, guarded: bool, s: State)
    requires Reached(uses, keep, guarded, s) && s.pending == map[] && NamedForest(s.db.files)
    ensures Restartable(uses, keep, guarded, StopOf(s))
  {
    assert StateAt(StopOf(s), s.listed, s.taken) == s;
  }

  lemma RestartsOneMore(uses: Uses, keep: nat, guarded: bool, before: seq<ObjectStop>, after: seq<ObjectStop>, s: State)
    requires RestartsThrough(uses, keep, guarded, before, after)
    requires Reached(uses, keep, guarded, s) && s.pending == map[] && NamedForest(s.db.files)
    ensures RestartsThrough(uses, keep, guarded, before, after + [StopOf(s)])
  {
    StopIsRestartable(uses, keep, guarded, s);
  }

  // ---------------------------------------------------------------- writes and deletes

  /** At every stop other files read what they read before, the file the old bytes or the new. */
  ghost predicate WritesThrough(before: seq<ObjectStop>, after: seq<ObjectStop>, s: State, id: nat, data: Bytes) {
    && before <= after
    && forall i | |before| <= i < |after| ::
         WriteStop(s.db.files, s.db.contents, s.bytes, id, data, MetadataOf(after[i]))
  }

  /** At every stop the files that are left read what they read before. */
  ghost predicate DeletesThrough(before: seq<ObjectStop>, after: seq<ObjectStop>, s: State) {
    && before <= after
    && forall i | |before| <= i < |after| ::
         SurvivorsRead(s.db.files, s.db.contents, s.bytes, MetadataOf(after[i]))
  }

  /** Deleting the bytes of dead rows, from the state in which they died. */
  lemma ShrinkingRestarts(uses: Uses, keep: nat, s: State, rows: set<nat>, before: seq<ObjectStop>,
                          after: seq<ObjectStop>)
    requires Reached(uses, keep, false, s) && s.pending == map[] && NamedForest(s.db.files) && AllDead(s.db, rows)
    requires TrailShrinks(before + [StopOf(s)], after, StopOf(s).tables, s.bytes, SlotsOf(s.db.contents, rows))
    ensures RestartsThrough(uses, keep, false, before, after)
    ensures Reached(uses, keep, true, s) ==> RestartsThrough(uses, keep, true, before, after)
    ensures DeletesThrough(before, after, s)
  {
    forall i | |before| <= i < |after|
      ensures Restartable(uses, keep, false, after[i])
      ensures Reached(uses, keep, true, s) ==> Restartable(uses, keep, true, after[i])
      ensures SurvivorsRead(s.db.files, s.db.contents, s.bytes, MetadataOf(after[i]))
    {
      if i == |before| {
        assert after[i] == (before + [StopOf(s)])[i];
      }
      ShrunkRestarts(uses, keep, s, rows, after[i]);
    }
  }

  lemma ShrunkRestarts(uses: Uses, keep: nat, s: State, rows: set<nat>, stop: ObjectStop)
    requires Reached(uses, keep, false, s) && s.pending == map[] && NamedForest(s.db.files) && AllDead(s.db, rows)
    requires stop.tables == StopOf(s).tables && Shrinks(s.bytes, stop.bytes, SlotsOf(s.db.contents, rows))
    ensures Restartable(uses, keep, false, stop)
    ensures Reached(uses, keep, true, s) ==> Restartable(uses, keep, true, stop)
    ensures SurvivorsRead(s.db.files, s.db.contents, s.bytes, MetadataOf(stop))
  {
    var t := s.(bytes := stop.bytes);
    assert StopOf(t) == stop;
    DeadBytesGo(uses, keep, s, rows, stop.bytes);
    StopIsRestartable(uses, keep, false, t);
    if Reached(uses, keep, true, s) {
      StopIsRestartable(uses, keep, true, t);
    }
    forall k | Live(s.db.files, k)
      ensures ReadIn(s.db.files, s.db.contents, stop.bytes, k) == ReadIn(s.db.files, s.db.contents, s.bytes, k)
    {
      assert Reads(t, k) == Reads(s, k);
    }
  }

  /** What survives the tombstones reads as before them. */
  lemma TombstonesRead(s: State, id: nat, stop: ObjectStop)
    requires NamedForest(s.db.files)
    requires SurvivorsRead(Tombstoned(s.db.files, Subtree(s.db.files, id)), s.db.contents, s.bytes, MetadataOf(stop))
    ensures SurvivorsRead(s.db.files, s.db.contents, s.bytes, MetadataOf(stop))
  {
  }

  lemma TombstonesReadThrough(s: State, id: nat, before: seq<ObjectStop>, after: seq<ObjectStop>)
    requires NamedForest(s.db.files)
    requires DeletesThrough(before, after, WithFiles(s, Tombstoned(s.db.files, Subtree(s.db.files, id))))
    ensures DeletesThrough(before, after, s)
  {
    forall i | |before| <= i < |after|
      ensures SurvivorsRead(s.db.files, s.db.contents, s.bytes, MetadataOf(after[i]))
    {
      TombstonesRead(s, id, after[i]);
    }
  }

  /** A write of one file, whole or half, is nothing to the others; the file reads the old bytes or the new. */
  lemma WriteStops(uses: Uses, keep: nat, s: State, call: Call)
    requires call.MayBegin(s) && Exclusive(s, call.Begin()) && Reached(uses, keep, false, s)
    ensures var t, half := Written(uses, keep, s, call), HalfWritten(uses, keep, s, call);
            && WriteStop(s.db.files, s.db.contents, s.bytes, call.f, call.data, MetadataOf(StopOf(t)))
            && WriteStop(s.db.files, s.db.contents, s.bytes, call.f, call.data, MetadataOf(StopOf(half)))
  {
    var t, half := Written(uses, keep, s, call), HalfWritten(uses, keep, s, call);
    WriteIsRead(uses, keep, false, s, call);
    HalfWrittenMeans(uses, keep, s, call);
    forall k | Live(s.db.files, k)
      ensures k in t.db.files && (Reads(t, k) == Reads(s, k) || (k == call.f && Reads(t, k) == Some(call.data)))
      ensures Reads(half, k) == Reads(s, k) || (k == call.f && Reads(half, k) == Some(call.data))
    {
      if k != call.f {
        WriteKeepsOthers(uses, keep, false, s, call, k);
      }
    }
  }

  // ---------------------------------------------------------------- clean-ups

  ghost predicate SameWork(d: Deletion, e: Deletion) {
    d.contentID == e.contentID && d.Slot() == e.Slot()
  }

  /** Bytes, rows and queue rows only go: a row after its bytes, a queue row after both. */
  ghost predicate Drains(a: ObjectStop, b: ObjectStop) {
    b.bytes.Keys <= a.bytes.Keys && RowsDrain(a, b) && QueueDrains(a, b)
  }

  ghost predicate RowsDrain(a: ObjectStop, b: ObjectStop) {
    && b.tables.db.contents.Keys <= a.tables.db.contents.Keys
    && forall c | c in a.tables.db.contents ::
         if c in b.tables.db.contents then b.tables.db.contents[c] == a.tables.db.contents[c]
         else SlotOf(a.tables.db.contents[c]) !in b.bytes
  }

  ghost predicate QueueDrains(a: ObjectStop, b: ObjectStop) {
    && b.tables.queue.Keys <= a.tables.queue.Keys
    && forall q | q in a.tables.queue ::
         if q in b.tables.queue then SameWork(b.tables.queue[q], a.tables.queue[q])
         else IsGone(b, a.tables.queue[q])
  }

  /** Its bytes and its content row. */
  predicate IsGone(stop: ObjectStop, d: Deletion) {
    d.Slot() !in stop.bytes && d.contentID !in stop.tables.db.contents
  }

  /** All of that and its queue row. */
  predicate IsReaped(stop: ObjectStop, d: Deletion) {
    IsGone(stop, d) && d.id !in stop.tables.queue
  }

  /** What was done of a page, each row of it once. */
  ghost predicate AllReaped(stop: ObjectStop, page: seq<Deletion>, done: seq<Deletion>) {
    && (forall d | d in done :: d in page && IsReaped(stop, d))
    && forall i, j | 0 <= i < j < |done| :: done[i] != done[j]
  }

  lemma FewerReaped(stop: ObjectStop, page: seq<Deletion>, i: nat, done: seq<Deletion>)
    requires i <= |page| && AllReaped(stop, page[..i], done)
    ensures AllReaped(stop, page, done)
  {
  }

  lemma AllReapedOn(before: ObjectStop, after: ObjectStop, page: seq<Deletion>, done: seq<Deletion>, d: Deletion)
    requires AllReaped(before, page, done) && d !in page && forall e | IsReaped(before, e) :: IsReaped(after, e)
    ensures AllReaped(after, page + [d], done)
    ensures IsReaped(after, d) ==> AllReaped(after, page + [d], done + [d])
  {
  }

  lemma DrainsOn(a: ObjectStop, b: ObjectStop, c: ObjectStop)
    requires Drains(a, b) && Drains(b, c)
    ensures Drains(a, c)
  {
  }

  ghost predicate CleansTo(uses: Uses, keep: nat, s: State, steps: seq<Step>, t: State) {
    AllClean(steps) && Leads(uses, keep, s, steps, t)
  }

  /** One stop of a clean-up that started in `s`. */
  ghost predicate CleanStop(uses: Uses, keep: nat, s: State, stop: ObjectStop) {
    Drains(StopOf(s), stop) && exists steps, t :: CleansTo(uses, keep, s, steps, t) && StopOf(t) == stop
  }

  ghost predicate CleansThrough(uses: Uses, keep: nat, s: State, before: seq<ObjectStop>, after: seq<ObjectStop>) {
    before <= after && forall i | |before| <= i < |after| :: CleanStop(uses, keep, s, after[i])
  }

  /** A piece of a clean-up: from `s` by these steps to `t`, through stops of that clean-up. */
  ghost predicate CleansUp(uses: Uses, keep: nat, s: State, before: seq<ObjectStop>, steps: seq<Step>,
                           t: State, after: seq<ObjectStop>)
  {
    && CleansTo(uses, keep, s, steps, t) && Drains(StopOf(s), StopOf(t))
    && CleansThrough(uses, keep, s, before, after)
  }

  lemma CleansUpOn(uses: Uses, keep: nat, s: State, before: seq<ObjectStop>, steps: seq<Step>,
                   t: State, mid: seq<ObjectStop>, more: seq<Step>, u: State, after: seq<ObjectStop>)
    requires CleansUp(uses, keep, s, before, steps, t, mid) && CleansUp(uses, keep, t, mid, more, u, after)
    ensures CleansUp(uses, keep, s, before, steps + more, u, after)
  {
    LeadsOn(uses, keep, s, steps, t, more, u);
    DrainsOn(StopOf(s), StopOf(t), StopOf(u));
    forall i | |before| <= i < |after| ensures CleanStop(uses, keep, s, after[i]) {
      if i < |mid| {
        assert after[i] == mid[i];
      } else {
        CleanStopOn(uses, keep, s, steps, t, after[i]);
      }
    }
  }

  lemma CleanStopOn(uses: Uses, keep: nat, s: State, steps: seq<Step>, t: State, stop: ObjectStop)
    requires CleansTo(uses, keep, s, steps, t) && Drains(StopOf(s), StopOf(t)) && CleanStop(uses, keep, t, stop)
    ensures CleanStop(uses, keep, s, stop)
  {
    var more, u :| CleansTo(uses, keep, t, more, u) && StopOf(u) == stop;
    LeadsOn(uses, keep, s, steps, t, more, u);
    assert CleansTo(uses, keep, s, steps + more, u);
    DrainsOn(StopOf(s), StopOf(t), stop);
  }

  /** A transaction that finds nothing to change. */
  lemma CleansNothing(uses: Uses, keep: nat, s: State, before: seq<ObjectStop>)
    ensures CleansUp(uses, keep, s, before, [], s, before)
    ensures CleansUp(uses, keep, s, before, [], s, before + [StopOf(s)])
  {
    assert CleansTo(uses, keep, s, [], s);
  }

  /** Steps that end in one stop, or in none when they change nothing that is kept. */
  lemma CleansBySteps(uses: Uses, keep: nat, s: State, before: seq<ObjectStop>, steps: seq<Step>, t: State)
    requires CleansTo(uses, keep, s, steps, t) && Drains(StopOf(s), StopOf(t))
    ensures CleansUp(uses, keep, s, before, steps, t, before)
    ensures CleansUp(uses, keep, s, before, steps, t, before + [StopOf(t)])
  {
  }

  lemma CleansByStep(uses: Uses, keep: nat, s: State, before: seq<ObjectStop>, step: Step)
    requires Enabled(s, step) && Cleans(step) && Drains(StopOf(s), StopOf(After(uses, keep, s, step)))
    ensures CleansUp(uses, keep, s, before, [step], After(uses, keep, s, step),
                     before + [StopOf(After(uses, keep, s, step))])
  {
    LeadsOneMore(uses, keep, s, [], s, step);
    assert [] + [step] == [step];
    CleansBySteps(uses, keep, s, before, [step], After(uses, keep, s, step));
  }

  lemma PostponingDrains(s: State, q: nat, at: int)
    ensures Drains(StopOf(s), StopOf(s.(queue := Failed(s.queue, q, at))))
  {
  }

  /** What is known of a deletion taken from the queue: whose bytes it names. */
  ghost predicate NamesItsRow(db: Tables, queue: Queue, d: Deletion) {
    && (d.contentID in db.contents ==> HasSlot(db.contents[d.contentID], d))
    && (d.id in queue ==> SameWork(queue[d.id], d))
    && (forall q | q in queue && queue[q].contentID == d.contentID :: queue[q].Slot() == d.Slot())
  }

  /** The tables after the delete of a content row that no file may have as its current one. */
  function WithoutOldRow(tables: ObjectTables, c: nat): ObjectTables {
    if c in tables.db.contents && Unreferenced(tables.db.files, c) then
      tables.(db := WithoutRow(tables.db, c), queue := QueueWithout(tables.queue, c))
    else tables
  }

  predicate Unreferenced(files: Files, c: nat) {
    forall f | f in files :: files[f].currentContentID != Some(c)
  }

  /** The row of a deletion whose bytes are gone, and with it all that is queued for the row. */
  lemma RowGoingDrains(s: State, d: Deletion)
    requires NamesItsRow(s.db, s.queue, d) && d.Slot() !in s.bytes
    ensures var t := s.(db := WithoutRow(s.db, d.contentID), queue := QueueWithout(s.queue, d.contentID));
            Drains(StopOf(s), StopOf(t))
  {
  }

  lemma DequeuingDrains(s: State, d: Deletion)
    requires IsGone(StopOf(s), d) && (d.id in s.queue ==> SameWork(s.queue[d.id], d))
    ensures Drains(StopOf(s), StopOf(s.(queue := s.queue - {d.id})))
  {
  }

  lemma RowGoes(uses: Uses, keep: nat, s: State, before: seq<ObjectStop>, d: Deletion)
    requires NamesItsRow(s.db, s.queue, d) && d.Slot() !in s.bytes && Enabled(s, DeleteRow(d))
    ensures var t := s.(db := WithoutRow(s.db, d.contentID), queue := QueueWithout(s.queue, d.contentID));
            CleansUp(uses, keep, s, before, [DeleteRow(d)], t, before + [StopOf(t)])
  {
    RowGoingDrains(s, d);
    CleansByStep(uses, keep, s, before, DeleteRow(d));
  }

  lemma CleaningKeepsReaped(uses: Uses, keep: nat, s: State, before: seq<ObjectStop>, steps: seq<Step>, t: State,
                            after: seq<ObjectStop>)
    requires CleansUp(uses, keep, s, before, steps, t, after)
    ensures forall d | IsReaped(StopOf(s), d) :: IsReaped(StopOf(t), d)
  {
  }

  /** What a batch read from the queue is about the same row while the batch is worked on, and no file has
      that row or will have it again. */
  lemma StillQueued(uses: Uses, keep: nat, s: State, before: seq<ObjectStop>, steps: seq<Step>, t: State,
                    after: seq<ObjectStop>, d: Deletion)
    requires CleansUp(uses, keep, s, before, steps, t, after) && Reached(uses, keep, false, s) && InQueue(s.queue, d)
    requires d in t.taken
    ensures NamesItsRow(t.db, t.queue, d) && Unreferenced(t.db.files, d.contentID)
  {
    CleaningIsReached(uses, keep, false, s, steps, t);
    ReachedInv(uses, keep, false, t);
    assert d.id in StopOf(s).tables.queue;
    TakenNamesItsRow(keep, t, d);
  }

  lemma TakenNamesItsRow(keep: nat, s: State, d: Deletion)
    requires Inv(keep, s) && d in s.taken && (d.id in s.queue ==> SameWork(s.queue[d.id], d))
    ensures NamesItsRow(s.db, s.queue, d) && Unreferenced(s.db.files, d.contentID)
  {
    assert HasSlot(s.db.history[d.contentID], d);
    QueuedSlots(keep, s.db, s.queue, s.nextDeletionID, d);
  }

  lemma QueuedSlots(keep: nat, db: Tables, queue: Queue, next: nat, d: Deletion)
    requires QueueOk(keep, db, queue, next) && d.contentID in db.history && HasSlot(db.history[d.contentID], d)
    ensures forall q | q in queue && queue[q].contentID == d.contentID :: queue[q].Slot() == d.Slot()
  {
    forall q | q in queue && queue[q].contentID == d.contentID ensures queue[q].Slot() == d.Slot() {
      assert HasSlot(db.history[queue[q].contentID], queue[q]);
    }
  }

  // ---------------------------------------------------------------- what a clean-up means

  /** At every stop no protected row is missing and no unthreatened file reads anything else, bytes have gone
      before rows, and a service can start again; after guarded writes no file at all reads anything else. */
  ghost predicate CleanedThrough(uses: Uses, keep: nat, s: State, before: seq<ObjectStop>, after: seq<ObjectStop>) {
    before <= after && forall i | |before| <= i < |after| :: CleanedAt(uses, keep, s, after[i])
  }

  ghost predicate CleanedAt(uses: Uses, keep: nat, s: State, stop: ObjectStop) {
    && Drains(StopOf(s), stop) && CleanedUp(uses, keep, s, StateAt(stop, s.listed, s.taken))
    && Restartable(uses, keep, false, stop)
    && (Reached(uses, keep, true, s) ==>
          Restartable(uses, keep, true, stop) && AllRead(s, StateAt(stop, s.listed, s.taken)))
  }

  ghost predicate AllRead(s: State, t: State) {
    forall k | Live(s.db.files, k) :: k in t.db.files && Reads(t, k) == Reads(s, k)
  }

  lemma CleanStopMeans(uses: Uses, keep: nat, s: State, stop: ObjectStop)
    requires Reached(uses, keep, false, s) && s.pending == map[] && NamedForest(s.db.files)
    requires CleanStop(uses, keep, s, stop)
    ensures CleanedAt(uses, keep, s, stop)
  {
    var steps, t :| CleansTo(uses, keep, s, steps, t) && StopOf(t) == stop;
    CleaningIsReached(uses, keep, false, s, steps, t);
    CleaningKeepsFiles(uses, keep, s, steps, t);
    StopIsRestartable(uses, keep, false, t);
    CleaningMeans(uses, keep, s, steps, t);
    if Reached(uses, keep, true, s) {
      GuardedCleaningMeans(uses, keep, s, steps, t);
      StopIsRestartable(uses, keep, true, t);
    }
    assert StateAt(stop, s.listed, s.taken) == t.(listed := s.listed, taken := s.taken);
  }

  lemma CleanUpMeans(uses: Uses, keep: nat, s: State, before: seq<ObjectStop>, steps: seq<Step>, t: State,
                     after: seq<ObjectStop>)
    requires Reached(uses, keep, false, s) && s.pending == map[] && NamedForest(s.db.files)
    requires CleansUp(uses, keep, s, before, steps, t, after)
    ensures CleanedThrough(uses, keep, s, before, after)
    ensures StaysReached(uses, keep, s, t) && CleanedUp(uses, keep, s, t)
    ensures Reached(uses, keep, true, s) ==> AllRead(s, t)
  {
    forall i | |before| <= i < |after| ensures CleanedAt(uses, keep, s, after[i]) {
      CleanStopMeans(uses, keep, s, after[i]);
    }
    CleaningStaysReached(uses, keep, s, steps, t);
    CleaningMeans(uses, keep, s, steps, t);
    if Reached(uses, keep, true, s) {
      GuardedCleaningMeans(uses, keep, s, steps, t);
    }
  }
}
