/** Calls of the service as short traces of the machine's steps, from one reachable state to another. */
module RevisionTraces {
  import opened Wrappers
  import opened Query
  import opened FileTree
  import opened Relocations
  import opened StoredFiles
  import opened Revisions
  import opened RevisionRuns
  import opened RevisionSteps
  import opened RevisionKeys
  import opened RevisionSafety
  import opened RevisionTheorems

  /** A state that some exclusive run leads to; with `guarded`, one whose saves all meet their guard. */
  ghost predicate Reached(uses: Uses, keep: nat, guarded: bool, s: State) {
    exists run: seq<State>, steps: seq<Step> :: LeadsTo(uses, keep, guarded, run, steps, s)
  }

  ghost predicate LeadsTo(uses: Uses, keep: nat, guarded: bool, run: seq<State>, steps: seq<Step>, s: State) {
    && |run| == |steps| + 1 && run[|steps|] == s
    && if guarded then IsGuardedRun(uses, keep, run, steps) else IsExclusiveRun(uses, keep, run, steps)
  }

  lemma GuardedIsReached(uses: Uses, keep: nat, s: State)
    requires Reached(uses, keep, true, s)
    ensures Reached(uses, keep, false, s)
  {
    var run, steps :| LeadsTo(uses, keep, true, run, steps, s);
    assert LeadsTo(uses, keep, false, run, steps, s);
  }

  lemma ReachedInv(uses: Uses, keep: nat, guarded: bool, s: State)
    requires Reached(uses, keep, guarded, s)
    ensures Inv(keep, s) && WritesOk(uses, s) && (guarded ==> BytesSafe(uses, s))
  {
    var run, steps :| LeadsTo(uses, keep, guarded, run, steps, s);
    InvHolds(uses, keep, run, steps, |steps|);
    WritesHold(uses, keep, run, steps, |steps|);
    if guarded {
      BytesHold(uses, keep, run, steps, |steps|);
    }
  }

  lemma ReachedTables(uses: Uses, keep: nat, guarded: bool, s: State)
    requires Reached(uses, keep, guarded, s)
    ensures TablesOk(s.db)
  {
    ReachedInv(uses, keep, guarded, s);
  }

  lemma InitialIsReached(uses: Uses, keep: nat, guarded: bool)
    ensures Reached(uses, keep, guarded, Initial())
  {
    assert LeadsTo(uses, keep, guarded, [Initial()], [], Initial());
  }

  lemma StepIsReached(uses: Uses, keep: nat, guarded: bool, s: State, step: Step)
    requires Reached(uses, keep, guarded, s) && Enabled(s, step) && Exclusive(s, step)
    requires guarded ==> Guarded(uses, s, step)
    ensures Reached(uses, keep, guarded, After(uses, keep, s, step))
  {
    var run, steps :| LeadsTo(uses, keep, guarded, run, steps, s);
    var t := After(uses, keep, s, step);
    assert Next(uses, keep, s, step, t);
    RunOneMore(uses, keep, run, steps, step, t);
    assert LeadsTo(uses, keep, guarded, run + [t], steps + [step], t);
  }

  /** The steps, taken one after the other from `s`, lead to `t`. */
  ghost predicate Leads(uses: Uses, keep: nat, s: State, steps: seq<Step>, t: State)
    decreases |steps|
  {
    if steps == [] then t == s
    else Enabled(s, steps[0]) && Leads(uses, keep, After(uses, keep, s, steps[0]), steps[1..], t)
  }

  lemma {:induction false} LeadsOn(uses: Uses, keep: nat, s: State, a: seq<Step>, t: State, b: seq<Step>, u: State)
    requires Leads(uses, keep, s, a, t) && Leads(uses, keep, t, b, u)
    ensures Leads(uses, keep, s, a + b, u)
    decreases |a|
  {
    if a == [] {
      assert a + b == b;
    } else {
      LeadsOn(uses, keep, After(uses, keep, s, a[0]), a[1..], t, b, u);
      assert (a + b)[0] == a[0] && (a + b)[1..] == a[1..] + b;
    }
  }

  lemma LeadsOneMore(uses: Uses, keep: nat, s: State, steps: seq<Step>, t: State, step: Step)
    requires Leads(uses, keep, s, steps, t) && Enabled(t, step)
    ensures Leads(uses, keep, s, steps + [step], After(uses, keep, t, step))
  {
    var u := After(uses, keep, t, step);
    assert Leads(uses, keep, u, [], u);
    assert [step][1..] == [];
    LeadsOn(uses, keep, s, steps, t, [step], u);
  }

  // ---------------------------------------------------------------- retention and reaping

  /** The steps of retention and of the reaper. */
  predicate Cleans(step: Step) {
    || step.ListCandidates? || step.Enqueue? || step.Take?
    || step.DeleteBytes? || step.DeleteRow? || step.Dequeue? || step.MarkFailed?
  }

  ghost predicate AllClean(steps: seq<Step>) {
    forall step | step in steps :: Cleans(step)
  }

  lemma {:induction false} CleaningIsReached(uses: Uses, keep: nat, guarded: bool, s: State, steps: seq<Step>, t: State)
    requires Reached(uses, keep, guarded, s) && Leads(uses, keep, s, steps, t) && AllClean(steps)
    ensures Reached(uses, keep, guarded, t)
    decreases |steps|
  {
    if steps != [] {
      assert Cleans(steps[0]);
      StepIsReached(uses, keep, guarded, s, steps[0]);
      CleaningIsReached(uses, keep, guarded, After(uses, keep, s, steps[0]), steps[1..], t);
    }
  }

  lemma RowGoneKeepsProtected(keep: nat, db: Tables, gone: nat, c: nat)
    requires FilesOk(db) && GivenUp(keep, db, gone) && gone in db.contents && c in db.contents && Protected(db, keep, c)
    ensures c in WithoutRow(db, gone).contents && Protected(WithoutRow(db, gone), keep, c)
  {
    SubsetSize(Newer(db.files, db.contents - {gone}, db.contents[c]), Newer(db.files, db.contents, db.contents[c]));
  }

  lemma RestOfCleaning(uses: Uses, keep: nat, s: State, step: Step)
    requires Enabled(s, step) && Cleans(step) && !step.DeleteRow?
    ensures After(uses, keep, s, step).db == s.db
    ensures !step.DeleteBytes? ==> After(uses, keep, s, step).bytes == s.bytes
  {
  }

  lemma CleanStepKeepsProtected(uses: Uses, keep: nat, s: State, step: Step, c: nat)
    requires FilesOk(s.db) && TakenOk(keep, s.db, s.taken) && Enabled(s, step) && Cleans(step)
    requires c in s.db.contents && Protected(s.db, keep, c)
    ensures c in After(uses, keep, s, step).db.contents && Protected(After(uses, keep, s, step).db, keep, c)
  {
    if step.DeleteRow? {
      RowGoneKeepsProtected(keep, s.db, step.d.contentID, c);
    } else {
      RestOfCleaning(uses, keep, s, step);
    }
  }

  /** Cleaning removes neither a current row nor one of the newest older ones. */
  lemma {:induction false} CleaningKeepsProtected(uses: Uses, keep: nat, s: State, steps: seq<Step>, t: State, c: nat)
    requires Inv(keep, s) && Leads(uses, keep, s, steps, t) && AllClean(steps)
    requires c in s.db.contents && Protected(s.db, keep, c)
    ensures c in t.db.contents
    decreases |steps|
  {
    if steps != [] {
      assert Cleans(steps[0]) && Next(uses, keep, s, steps[0], After(uses, keep, s, steps[0]));
      InvStep(uses, keep, s, steps[0], After(uses, keep, s, steps[0]));
      CleanStepKeepsProtected(uses, keep, s, steps[0], c);
      CleaningKeepsProtected(uses, keep, After(uses, keep, s, steps[0]), steps[1..], t, c);
    }
  }

  lemma StepKeepsReads(uses: Uses, keep: nat, s: State, step: Step, f: nat)
    requires Reached(uses, keep, true, s) && Enabled(s, step) && Live(s.db.files, f) && !Rewrites(s, step, f)
    ensures Live(After(uses, keep, s, step).db.files, f) && Reads(After(uses, keep, s, step), f) == Reads(s, f)
  {
    ReachedInv(uses, keep, true, s);
    OthersKeepReads(uses, keep, s, step, f);
  }

  /** From a guarded state retention and reaping, finished or interrupted anywhere, change what no live file
      reads. */
  lemma {:induction false} CleaningKeepsReads(uses: Uses, keep: nat, s: State, steps: seq<Step>, t: State, f: nat)
    requires Reached(uses, keep, true, s) && Leads(uses, keep, s, steps, t) && AllClean(steps) && Live(s.db.files, f)
    ensures Live(t.db.files, f) && Reads(t, f) == Reads(s, f)
    decreases |steps|
  {
    if steps != [] {
      assert Cleans(steps[0]);
      StepIsReached(uses, keep, true, s, steps[0]);
      StepKeepsReads(uses, keep, s, steps[0], f);
      CleaningKeepsReads(uses, keep, After(uses, keep, s, steps[0]), steps[1..], t, f);
    }
  }

  // ---------------------------------------------------------------- writing

  /** A writer's call: the file, where its bytes go, and what they are. */
  datatype Call = Call(w: nat, f: nat, backendID: string, data: Bytes, hash: string) {
    function Begin(): Step { Plan(w, f, backendID) }
    function Bytes(): Step { Put(w, data, hash) }
    function Row(): Step { Save(w) }
    predicate MayBegin(s: State) { Enabled(s, Begin()) }
  }

  /** A call after its bytes and before its row. */
  function BytesPut(uses: Uses, keep: nat, s: State, call: Call): State
    requires call.MayBegin(s)
  {
    After(uses, keep, After(uses, keep, s, call.Begin()), call.Bytes())
  }

  /** A whole call. */
  function Written(uses: Uses, keep: nat, s: State, call: Call): State
    requires call.MayBegin(s)
  {
    After(uses, keep, BytesPut(uses, keep, s, call), call.Row())
  }

  /** A call given up after its bytes were put. */
  function HalfWritten(uses: Uses, keep: nat, s: State, call: Call): State
    requires call.MayBegin(s)
  {
    After(uses, keep, BytesPut(uses, keep, s, call), GiveUp(call.w))
  }

  lemma BytesPutMeans(uses: Uses, keep: nat, s: State, call: Call)
    requires call.MayBegin(s)
    ensures var t := BytesPut(uses, keep, s, call);
            && t.db == s.db && call.w in t.pending && t.pending[call.w].put
            && t.pending[call.w].Planned() == NewWrite(uses, s.db, call.f, call.backendID)
            && t.bytes == s.bytes[SlotOf(NewWrite(uses, s.db, call.f, call.backendID).content) := call.data]
  {
  }

  lemma BytesPutIsReached(uses: Uses, keep: nat, guarded: bool, s: State, call: Call)
    requires call.MayBegin(s) && Exclusive(s, call.Begin()) && Reached(uses, keep, guarded, s)
    ensures Reached(uses, keep, guarded, BytesPut(uses, keep, s, call))
  {
    StepIsReached(uses, keep, guarded, s, call.Begin());
    StepIsReached(uses, keep, guarded, After(uses, keep, s, call.Begin()), call.Bytes());
  }

  lemma WriteIsReached(uses: Uses, keep: nat, guarded: bool, s: State, call: Call)
    requires call.MayBegin(s) && Exclusive(s, call.Begin()) && Reached(uses, keep, guarded, s)
    ensures Reached(uses, keep, guarded, HalfWritten(uses, keep, s, call))
    ensures !guarded || WriteGuard(uses, s.db, call.f) ==> Reached(uses, keep, guarded, Written(uses, keep, s, call))
  {
    BytesPutIsReached(uses, keep, guarded, s, call);
    BytesPutMeans(uses, keep, s, call);
    StepIsReached(uses, keep, guarded, BytesPut(uses, keep, s, call), GiveUp(call.w));
    if !guarded || WriteGuard(uses, s.db, call.f) {
      StepIsReached(uses, keep, guarded, BytesPut(uses, keep, s, call), call.Row());
    }
  }

  /** A write, taken whole: the file reads the new bytes. */
  lemma WriteIsRead(uses: Uses, keep: nat, guarded: bool, s: State, call: Call)
    requires call.MayBegin(s) && Reached(uses, keep, guarded, s)
    ensures Live(Written(uses, keep, s, call).db.files, call.f)
    ensures Reads(Written(uses, keep, s, call), call.f) == Some(call.data)
  {
    ReachedTables(uses, keep, guarded, s);
    BytesPutMeans(uses, keep, s, call);
    SavedRowMeans(s.db, BytesPut(uses, keep, s, call).pending[call.w]);
  }

  /** It keeps all keys distinct exactly when it meets its guard. */
  lemma WriteKeepsKeysIffGuarded(uses: Uses, keep: nat, guarded: bool, s: State, call: Call)
    requires call.MayBegin(s) && Reached(uses, keep, guarded, s) && KeysUnique(s.db.history)
    ensures KeysUnique(Written(uses, keep, s, call).db.history) <==> WriteGuard(uses, s.db, call.f)
  {
    var write := BytesPut(uses, keep, s, call).pending[call.w];
    ReachedInv(uses, keep, guarded, s);
    BytesPutMeans(uses, keep, s, call);
    FreeIffGuarded(uses, s.db, write);
    SaveKeepsKeysIffFree(s.db, write);
  }

  lemma BytesPutKeepsOthers(uses: Uses, keep: nat, guarded: bool, s: State, call: Call, g: nat)
    requires call.MayBegin(s) && Exclusive(s, call.Begin()) && Reached(uses, keep, guarded, s)
    requires Live(s.db.files, g) && g != call.f
    ensures Reads(BytesPut(uses, keep, s, call), g) == Reads(s, g)
  {
    var planned := After(uses, keep, s, call.Begin());
    StepIsReached(uses, keep, guarded, s, call.Begin());
    ReachedInv(uses, keep, guarded, planned);
    PutKeepsReads(uses, planned, call.Bytes(), g);
  }

  /** Saving a row, or giving the write up, is nothing to the other files. */
  lemma EndingKeepsOthers(uses: Uses, keep: nat, s: State, call: Call, g: nat)
    requires Inv(keep, s) && call.w in s.pending && s.pending[call.w].put && IsLiveFile(s.db.files, call.f)
    requires s.pending[call.w].FileID() == call.f && Live(s.db.files, g) && g != call.f
    ensures Enabled(s, call.Row()) && Live(After(uses, keep, s, call.Row()).db.files, g)
    ensures Reads(After(uses, keep, s, call.Row()), g) == Reads(s, g)
    ensures Reads(After(uses, keep, s, GiveUp(call.w)), g) == Reads(s, g)
  {
    SaveKeepsReads(s, call.w, g);
  }

  /** And every other file, with or without the metadata, what it read before; guarded or not. */
  lemma WriteKeepsOthers(uses: Uses, keep: nat, guarded: bool, s: State, call: Call, g: nat)
    requires call.MayBegin(s) && Exclusive(s, call.Begin()) && Reached(uses, keep, guarded, s)
    requires Live(s.db.files, g) && g != call.f
    ensures Live(Written(uses, keep, s, call).db.files, g) && Reads(Written(uses, keep, s, call), g) == Reads(s, g)
    ensures Reads(HalfWritten(uses, keep, s, call), g) == Reads(s, g)
  {
    BytesPutKeepsOthers(uses, keep, guarded, s, call, g);
    BytesPutIsReached(uses, keep, guarded, s, call);
    BytesPutMeans(uses, keep, s, call);
    ReachedInv(uses, keep, guarded, BytesPut(uses, keep, s, call));
    EndingKeepsOthers(uses, keep, BytesPut(uses, keep, s, call), call, g);
  }

  lemma HalfWrittenMeans(uses: Uses, keep: nat, s: State, call: Call)
    requires call.MayBegin(s)
    ensures var half := HalfWritten(uses, keep, s, call);
            && half.db == s.db && half.queue == s.queue && half.pending == s.pending
            && (Reads(half, call.f) == Reads(s, call.f) || Reads(half, call.f) == Some(call.data))
  {
    BytesPutMeans(uses, keep, s, call);
    assert s.pending[call.w := BytesPut(uses, keep, s, call).pending[call.w]] - {call.w} == s.pending;
  }

  lemma WrittenMeans(uses: Uses, keep: nat, s: State, call: Call)
    requires call.MayBegin(s)
    ensures var t := Written(uses, keep, s, call);
            var planned := NewWrite(uses, s.db, call.f, call.backendID);
            var row := RowOf(s.db, planned.(content := planned.content.(contentHash := call.hash)));
            && t.db.files == Pointed(s.db.files, call.f, row.id) && t.db.contents == s.db.contents[row.id := row]
            && t.queue == s.queue && t.pending == s.pending
  {
    BytesPutMeans(uses, keep, s, call);
    assert s.pending[call.w := BytesPut(uses, keep, s, call).pending[call.w]] - {call.w} == s.pending;
  }
}
