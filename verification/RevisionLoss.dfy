/** When retention and the reaper, left to themselves, delete bytes that a live file reads. */
module RevisionLoss {
  import opened Wrappers
  import opened Query
  import opened FileTree
  import opened Relocations
  import opened StoredFiles
  import opened Revisions
  import opened RevisionRuns
  import opened RevisionSteps
  import opened RevisionTheorems
  import opened RevisionTraces

  /** A row that retention and the reaper may still act on. */
  ghost predicate Reapable(keep: nat, s: State, c: nat)
    requires c in s.db.contents
  {
    && GivenUp(keep, s.db, c)
    && (Queued(s.queue, c) || s.db.contents[c] in s.listed || Listable(s.db, s.db.contents[c].fileID))
  }

  predicate Listable(db: Tables, f: nat) {
    IsLiveFile(db.files, f) && db.files[f].currentContentID.Some?
  }

  /** A row already taken, or one that may come to be taken, is at the slot. */
  ghost predicate Threatened(keep: nat, s: State, slot: Slot) {
    || (exists d :: d in s.taken && d.Slot() == slot)
    || (exists c :: c in s.db.contents && SlotOf(s.db.contents[c]) == slot && Reapable(keep, s, c))
  }

  /** Some steps of retention and the reaper, and nobody else, leave `f` without its bytes. */
  ghost predicate MayLose(uses: Uses, keep: nat, s: State, f: nat) {
    exists steps: seq<Step>, t: State :: Loses(uses, keep, s, steps, t, f)
  }

  ghost predicate Loses(uses: Uses, keep: nat, s: State, steps: seq<Step>, t: State, f: nat) {
    && Leads(uses, keep, s, steps, t) && AllClean(steps)
    && t.db.files == s.db.files && f in t.db.files && Reads(t, f) == None
  }

  /** A queue row at the slot of a file's current row: the reaper that reads it deletes the current bytes. */
  lemma QueuedSlotIsLost(uses: Uses, keep: nat, s: State, q: nat, f: nat) returns (t: State)
    requires q in s.queue && f in s.db.files
    requires var current := CurrentOf(s.db.files, s.db.contents, f);
             current.Some? && SlotOf(current.value) == s.queue[q].Slot()
    ensures Leads(uses, keep, s, [Take(q), DeleteBytes(s.queue[q])], t)
    ensures t.db == s.db && Reads(t, f) == None
  {
    var s1 := After(uses, keep, s, Take(q));
    t := After(uses, keep, s1, DeleteBytes(s.queue[q]));
    LeadsTwo(uses, keep, s, Take(q), DeleteBytes(s.queue[q]));
  }

  lemma LeadsTwo(uses: Uses, keep: nat, s: State, a: Step, b: Step)
    requires Enabled(s, a) && Enabled(After(uses, keep, s, a), b)
    ensures Leads(uses, keep, s, [a, b], After(uses, keep, After(uses, keep, s, a), b))
  {
    assert Leads(uses, keep, s, [], s);
    LeadsOneMore(uses, keep, s, [], s, a);
    LeadsOneMore(uses, keep, s, [] + [a], After(uses, keep, s, a), b);
    assert [a, b] == [] + [a] + [b];
  }

  lemma QueuedRow(keep: nat, s: State, c: nat) returns (q: nat)
    requires FilesOk(s.db) && QueueOk(keep, s.db, s.queue, s.nextDeletionID) && Queued(s.queue, c)
    ensures q in s.queue && c in s.db.contents && HasSlot(s.db.contents[c], s.queue[q])
  {
    q :| q in s.queue && s.queue[q].contentID == c;
  }

  /** Retention queues a row it has listed, or may list, unless it is queued already. */
  lemma ReapableIsQueued(uses: Uses, keep: nat, s: State, c: nat, at: int) returns (steps: seq<Step>, t: State, q: nat)
    requires FilesOk(s.db) && ListedOk(keep, s.db, s.listed) && QueueOk(keep, s.db, s.queue, s.nextDeletionID)
    requires c in s.db.contents && Reapable(keep, s, c)
    ensures Leads(uses, keep, s, steps, t) && AllClean(steps)
    ensures t.db == s.db && q in t.queue && HasSlot(s.db.contents[c], t.queue[q])
  {
    var row := s.db.contents[c];
    assert Leads(uses, keep, s, [], s);
    if Queued(s.queue, c) {
      q := QueuedRow(keep, s, c);
      steps, t := [], s;
    } else if row in s.listed {
      LeadsOneMore(uses, keep, s, [], s, Enqueue(row, at));
      steps, t, q := [] + [Enqueue(row, at)], After(uses, keep, s, Enqueue(row, at)), s.nextDeletionID;
    } else {
      assert c in Candidates(s.db.files, s.db.contents, keep, row.fileID);
      LeadsTwo(uses, keep, s, ListCandidates(row.fileID), Enqueue(row, at));
      steps, q := [ListCandidates(row.fileID), Enqueue(row, at)], s.nextDeletionID;
      t := After(uses, keep, After(uses, keep, s, ListCandidates(row.fileID)), Enqueue(row, at));
    }
  }

  /** A row that retention gives up at the slot of a file's current row: its clean-up deletes the current bytes. */
  lemma ReapableSlotIsLost(uses: Uses, keep: nat, s: State, c: nat, at: int, f: nat)
    returns (steps: seq<Step>, t: State)
    requires Inv(keep, s) && c in s.db.contents && Reapable(keep, s, c) && f in s.db.files
    requires var current := CurrentOf(s.db.files, s.db.contents, f);
             current.Some? && SlotOf(current.value) == SlotOf(s.db.contents[c])
    ensures Leads(uses, keep, s, steps, t) && AllClean(steps)
    ensures t.db == s.db && Reads(t, f) == None
  {
    var init, s2, q := ReapableIsQueued(uses, keep, s, c, at);
    steps, t := QueuedThenLost(uses, keep, s, init, s2, q, f);
  }

  lemma QueuedThenLost(uses: Uses, keep: nat, s: State, init: seq<Step>, s2: State, q: nat, f: nat)
    returns (steps: seq<Step>, t: State)
    requires Leads(uses, keep, s, init, s2) && AllClean(init)
    requires q in s2.queue && f in s2.db.files
    requires var current := CurrentOf(s2.db.files, s2.db.contents, f);
             current.Some? && SlotOf(current.value) == s2.queue[q].Slot()
    ensures Leads(uses, keep, s, steps, t) && AllClean(steps)
    ensures t.db == s2.db && Reads(t, f) == None
  {
    t := QueuedSlotIsLost(uses, keep, s2, q, f);
    steps := [Take(q), DeleteBytes(s2.queue[q])];
    LeadsOn(uses, keep, s, init, s2, steps, t);
    steps := init + steps;
  }

  // ---------------------------------------------------------------- the exact condition

  lemma RowsStaySafe(keep: nat, s: State, gone: nat, slot: Slot)
    requires FilesOk(s.db) && !Threatened(keep, s, slot)
    ensures !Threatened(keep, s.(db := WithoutRow(s.db, gone), queue := QueueWithout(s.queue, gone)), slot)
  {
    var s' := s.(db := WithoutRow(s.db, gone), queue := QueueWithout(s.queue, gone));
    forall c | c in s'.db.contents && SlotOf(s'.db.contents[c]) == slot ensures !Reapable(keep, s', c) {
      SubsetSize(Newer(s'.db.files, s'.db.contents, s.db.history[c]),
                 Newer(s.db.files, s.db.contents, s.db.history[c]));
      assert !Reapable(keep, s, c);
    }
  }

  lemma ListingStaysSafe(keep: nat, s: State, f: nat, slot: Slot)
    requires FilesOk(s.db) && !Threatened(keep, s, slot)
    ensures !Threatened(keep, s.(listed := s.listed + ListedRows(keep, s.db, f)), slot)
  {
    forall c | c in s.db.contents && SlotOf(s.db.contents[c]) == slot
      ensures !Reapable(keep, s.(listed := s.listed + ListedRows(keep, s.db, f)), c)
    {
      assert !Reapable(keep, s, c);
    }
  }

  lemma EnqueueStaysSafe(keep: nat, s: State, row: Content, at: int, slot: Slot)
    requires FilesOk(s.db) && ListedOk(keep, s.db, s.listed) && !Threatened(keep, s, slot)
    requires row in s.listed && row.id in s.db.contents && s.nextDeletionID !in s.queue
    ensures !Threatened(keep, EnqueueStep(s, row, at), slot)
  {
    forall c | c in s.db.contents && SlotOf(s.db.contents[c]) == slot
      ensures !Reapable(keep, EnqueueStep(s, row, at), c)
    {
      assert !Reapable(keep, s, c);
    }
  }

  lemma TakeStaysSafe(keep: nat, s: State, q: nat, slot: Slot)
    requires FilesOk(s.db) && QueueOk(keep, s.db, s.queue, s.nextDeletionID) && !Threatened(keep, s, slot)
    requires q in s.queue
    ensures !Threatened(keep, s.(taken := s.taken + {s.queue[q]}), slot)
  {
    var c := s.queue[q].contentID;
    assert HasSlot(s.db.history[c], s.queue[q]) && Reapable(keep, s, c);
    forall x | x in s.db.contents && SlotOf(s.db.contents[x]) == slot
      ensures !Reapable(keep, s.(taken := s.taken + {s.queue[q]}), x)
    {
      assert !Reapable(keep, s, x);
    }
  }

  lemma QueueStaysSafe(uses: Uses, keep: nat, s: State, step: Step, slot: Slot)
    requires !Threatened(keep, s, slot) && Enabled(s, step) && (step.Dequeue? || step.MarkFailed? || step.DeleteBytes?)
    ensures !Threatened(keep, After(uses, keep, s, step), slot)
  {
    var s' := After(uses, keep, s, step);
    forall c | c in s'.db.contents && SlotOf(s'.db.contents[c]) == slot ensures !Reapable(keep, s', c) {
      assert !Reapable(keep, s, c);
    }
  }

  lemma OtherSlotKeepsRead(s: State, slot: Slot, f: nat)
    requires f in s.db.files
    requires var current := CurrentOf(s.db.files, s.db.contents, f); current.Some? && SlotOf(current.value) != slot
    ensures Reads(s.(bytes := s.bytes - {slot}), f) == Reads(s, f)
  {
  }

  lemma CleaningKeepsRead(uses: Uses, keep: nat, s: State, step: Step, f: nat)
    requires FilesOk(s.db) && Enabled(s, step) && Cleans(step) && f in s.db.files
    requires var current := CurrentOf(s.db.files, s.db.contents, f);
             current.Some? && !Threatened(keep, s, SlotOf(current.value))
    ensures var t := After(uses, keep, s, step);
            && t.db.files == s.db.files && Reads(t, f) == Reads(s, f)
            && CurrentOf(t.db.files, t.db.contents, f) == CurrentOf(s.db.files, s.db.contents, f)
  {
    if step.DeleteRow? {
      RowGoneKeepsReads(s, step.d.contentID, QueueWithout(s.queue, step.d.contentID), f);
    } else if step.DeleteBytes? {
      OtherSlotKeepsRead(s, step.d.Slot(), f);
    } else {
      RestOfCleaning(uses, keep, s, step);
    }
  }

  lemma CleaningStaysSafe(uses: Uses, keep: nat, s: State, step: Step, slot: Slot)
    requires Inv(keep, s) && !Threatened(keep, s, slot) && Enabled(s, step) && Cleans(step)
    ensures !Threatened(keep, After(uses, keep, s, step), slot)
  {
    match step
    case DeleteRow(d) => RowsStaySafe(keep, s, d.contentID, slot);
    case ListCandidates(f) => ListingStaysSafe(keep, s, f, slot);
    case Enqueue(row, at) => EnqueueStaysSafe(keep, s, row, at, slot);
    case Take(q) => TakeStaysSafe(keep, s, q, slot);
    case _ => QueueStaysSafe(uses, keep, s, step, slot);
  }

  lemma {:induction false} UnthreatenedSlotIsSafe(uses: Uses, keep: nat, s: State, steps: seq<Step>, t: State, f: nat)
    requires Inv(keep, s) && Leads(uses, keep, s, steps, t) && AllClean(steps) && f in s.db.files
    requires var current := CurrentOf(s.db.files, s.db.contents, f);
             current.Some? && !Threatened(keep, s, SlotOf(current.value))
    ensures t.db.files == s.db.files && Reads(t, f) == Reads(s, f)
    decreases |steps|
  {
    if steps != [] {
      var s', slot := After(uses, keep, s, steps[0]), SlotOf(CurrentOf(s.db.files, s.db.contents, f).value);
      assert Next(uses, keep, s, steps[0], s') && Cleans(steps[0]);
      InvStep(uses, keep, s, steps[0], s');
      CleaningStaysSafe(uses, keep, s, steps[0], slot);
      CleaningKeepsRead(uses, keep, s, steps[0], f);
      UnthreatenedSlotIsSafe(uses, keep, s', steps[1..], t, f);
    }
  }

  lemma TakenSlotIsLost(uses: Uses, keep: nat, s: State, d: Deletion, f: nat)
    requires d in s.taken && f in s.db.files
    requires var current := CurrentOf(s.db.files, s.db.contents, f); current.Some? && SlotOf(current.value) == d.Slot()
    ensures MayLose(uses, keep, s, f)
  {
    var t := After(uses, keep, s, DeleteBytes(d));
    assert Leads(uses, keep, s, [], s);
    LeadsOneMore(uses, keep, s, [], s, DeleteBytes(d));
    assert Loses(uses, keep, s, [] + [DeleteBytes(d)], t, f);
  }

  lemma ReapableIsLost(uses: Uses, keep: nat, s: State, c: nat, f: nat)
    requires Inv(keep, s) && c in s.db.contents && Reapable(keep, s, c) && f in s.db.files
    requires var current := CurrentOf(s.db.files, s.db.contents, f);
             current.Some? && SlotOf(current.value) == SlotOf(s.db.contents[c])
    ensures MayLose(uses, keep, s, f)
  {
    var steps, t := ReapableSlotIsLost(uses, keep, s, c, 0, f);
    assert Loses(uses, keep, s, steps, t, f);
  }

  lemma ThreatenedIsLost(uses: Uses, keep: nat, s: State, f: nat)
    requires Inv(keep, s) && f in s.db.files
    requires var current := CurrentOf(s.db.files, s.db.contents, f);
             current.Some? && Threatened(keep, s, SlotOf(current.value))
    ensures MayLose(uses, keep, s, f)
  {
    var slot := SlotOf(CurrentOf(s.db.files, s.db.contents, f).value);
    if exists d :: d in s.taken && d.Slot() == slot {
      var d :| d in s.taken && d.Slot() == slot;
      TakenSlotIsLost(uses, keep, s, d, f);
    } else {
      var c :| c in s.db.contents && SlotOf(s.db.contents[c]) == slot && Reapable(keep, s, c);
      ReapableIsLost(uses, keep, s, c, f);
    }
  }

  /** Bytes of a file's current row can be lost to retention and the reaper exactly when a row that they
      have taken, or may come to take, is at the same slot. */
  lemma LostIffThreatened(uses: Uses, keep: nat, s: State, f: nat)
    requires Inv(keep, s) && f in s.db.files && Reads(s, f).Some?
    ensures CurrentOf(s.db.files, s.db.contents, f).Some?
    ensures MayLose(uses, keep, s, f) <==> Threatened(keep, s, SlotOf(CurrentOf(s.db.files, s.db.contents, f).value))
  {
    if Threatened(keep, s, SlotOf(CurrentOf(s.db.files, s.db.contents, f).value)) {
      ThreatenedIsLost(uses, keep, s, f);
    } else if MayLose(uses, keep, s, f) {
      var steps, t :| Loses(uses, keep, s, steps, t, f);
      UnthreatenedSlotIsSafe(uses, keep, s, steps, t, f);
    }
  }

  /** While no two rows ever written share a key, none of it can happen. */
  lemma UniqueKeysAreSafe(uses: Uses, keep: nat, s: State, f: nat)
    requires Inv(keep, s) && KeysUnique(s.db.history) && f in s.db.files && Reads(s, f).Some?
    ensures !MayLose(uses, keep, s, f)
  {
    var current := CurrentOf(s.db.files, s.db.contents, f).value;
    forall d | d in s.taken ensures d.Slot() != SlotOf(current) {
      assert HasSlot(s.db.history[d.contentID], d);
    }
    LostIffThreatened(uses, keep, s, f);
  }
}
