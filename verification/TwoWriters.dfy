/** Why a file needs one writer at a time: the workspace lock holds within one process only, and two
    processes that write the same version of a file lose its bytes. */
module TwoWriters {
  import opened Wrappers
  import opened FileTree
  import opened Relocations
  import opened StoredFiles
  import opened Revisions
  import opened RevisionRuns
  import opened RevisionSteps
  import opened RevisionKeys
  import opened RevisionTheorems
  import opened RevisionTraces
  import opened RevisionLoss

  function AlwaysVersions(name: string, mediaType: string, fileKind: string): bool {
    true
  }

  function FileWith(current: Option<nat>): Node {
    Node(0, 0, None, Shared, None, File, "a.txt", "", "", current, false)
  }

  /** Row `c` of the file, at the key of its first version. */
  function Row(c: nat, version: nat): Content {
    Content(c, 0, version, "local", ObjectKey(0, 0, VersionSuffix(1)), "")
  }

  function Created(): State {
    Initial().(db := Tables(map[0 := FileWith(None)], map[], map[], 0))
  }

  function Under(put: bool): Write {
    Write(Row(0, 0), true, put)
  }

  function BothPlanned(): State {
    Created().(pending := map[1 := Under(false), 2 := Under(false)])
  }

  function FirstPut(first: Bytes): State {
    Created().(bytes := map[SlotOf(Row(0, 0)) := first], pending := map[1 := Under(true), 2 := Under(false)])
  }

  /** The first writer has finished, and its bytes are overwritten. */
  function Overwritten(second: Bytes, put: bool): State {
    var rows := map[0 := Row(0, 1)];
    Created().(db := Tables(map[0 := FileWith(Some(0))], rows, rows, 1),
               bytes := map[SlotOf(Row(0, 0)) := second], pending := map[2 := Under(put)])
  }

  function BothSaved(data: Bytes): State {
    var rows := map[0 := Row(0, 1), 1 := Row(1, 2)];
    Overwritten(data, true).(db := Tables(map[0 := FileWith(Some(1))], rows, rows, 2), pending := map[])
  }

  // ---------------------------------------------------------------- the run

  ghost predicate ReachedBy(run: seq<State>, steps: seq<Step>, s: State) {
    IsRun(AlwaysVersions, 0, run, steps) && run[|steps|] == s
  }

  /** Both writers find the file without content and plan version 1. */
  lemma PlanTwice() returns (run: seq<State>, steps: seq<Step>)
    ensures ReachedBy(run, steps, BothPlanned())
  {
    var s1, s2 := Created(), Created().(pending := map[1 := Under(false)]);
    run, steps := [Initial()], [];
    RunOneMore(AlwaysVersions, 0, run, steps, CreateFile(FileWith(None)), s1);
    run, steps := run + [s1], steps + [CreateFile(FileWith(None))];
    RunOneMore(AlwaysVersions, 0, run, steps, Plan(1, 0, "local"), s2);
    run, steps := run + [s2], steps + [Plan(1, 0, "local")];
    RunOneMore(AlwaysVersions, 0, run, steps, Plan(2, 0, "local"), BothPlanned());
    run, steps := run + [BothPlanned()], steps + [Plan(2, 0, "local")];
  }

  /** The first one writes its version. */
  lemma FirstWrites(first: Bytes) returns (run: seq<State>, steps: seq<Step>)
    ensures ReachedBy(run, steps, Overwritten(first, false))
  {
    run, steps := PlanTwice();
    RunOneMore(AlwaysVersions, 0, run, steps, Put(1, first, ""), FirstPut(first));
    run, steps := run + [FirstPut(first)], steps + [Put(1, first, "")];
    assert FirstPut(first).pending - {1} == map[2 := Under(false)];
    RunOneMore(AlwaysVersions, 0, run, steps, Save(1), Overwritten(first, false));
    run, steps := run + [Overwritten(first, false)], steps + [Save(1)];
  }

  /** The second one overwrites the bytes of that version before it records its own row. */
  lemma SecondWrites(first: Bytes, second: Bytes) returns (run: seq<State>, steps: seq<Step>)
    ensures ReachedBy(run, steps, BothSaved(second)) && |steps| > 1
    ensures steps[|steps| - 1] == Save(2) && run[|steps| - 1] == Overwritten(second, true)
    ensures run[|steps| - 2] == Overwritten(first, false)
  {
    run, steps := FirstWrites(first);
    RunOneMore(AlwaysVersions, 0, run, steps, Put(2, second, ""), Overwritten(second, true));
    run, steps := run + [Overwritten(second, true)], steps + [Put(2, second, "")];
    assert Overwritten(second, true).pending - {2} == map[];
    RunOneMore(AlwaysVersions, 0, run, steps, Save(2), BothSaved(second));
    run, steps := run + [BothSaved(second)], steps + [Save(2)];
  }

  lemma SecondSaveIsNotFree(data: Bytes)
    ensures !KeyIsFree(Overwritten(data, true).db, Overwritten(data, true).pending[2])
  {
    var db, write := Overwritten(data, true).db, Overwritten(data, true).pending[2];
    assert RowOf(db, write).id == 1;
    assert 0 in db.history && db.history[0].storageKey == write.content.storageKey;
  }

  /** Two processes write the file at once. The second, working from what it read before the first one's
      save, overwrites the bytes of version 1, and then records version 2 at the same key. Once retention
      gives version 1 up, its clean-up deletes the bytes the file reads. The second save is the one whose key
      is not free. */
  lemma TwoProcessesLoseBytes(first: Bytes, second: Bytes)
    returns (run: seq<State>, steps: seq<Step>, s: State)
    ensures IsRun(AlwaysVersions, 0, run, steps) && run[|steps|] == s
    ensures |steps| > 1 && !SavesFree(run[|steps| - 1], steps[|steps| - 1])
    ensures 0 in run[|steps| - 2].db.files && Reads(run[|steps| - 2], 0) == Some(first)
    ensures 0 in run[|steps| - 1].db.files && Reads(run[|steps| - 1], 0) == Some(second)
    ensures run[|steps| - 1].db == run[|steps| - 2].db
    ensures Live(s.db.files, 0) && Reads(s, 0) == Some(second) && MayLose(AlwaysVersions, 0, s, 0)
  {
    run, steps := SecondWrites(first, second);
    s := BothSaved(second);
    SecondSaveIsNotFree(second);
    InvHolds(AlwaysVersions, 0, run, steps, |steps|);
    FirstRowIsReapable(second);
    ThreatenedIsLost(AlwaysVersions, 0, s, 0);
    OverwrittenReads(first, false);
    OverwrittenReads(second, true);
  }

  lemma OverwrittenReads(data: Bytes, put: bool)
    ensures 0 in Overwritten(data, put).db.files && Reads(Overwritten(data, put), 0) == Some(data)
  {
    assert Overwritten(data, put).db.contents[0] == Row(0, 1) && SlotOf(Row(0, 1)) == SlotOf(Row(0, 0));
  }

  lemma FirstRowIsReapable(data: Bytes)
    ensures var s := BothSaved(data);
            && Live(s.db.files, 0) && Reads(s, 0) == Some(data)
            && CurrentOf(s.db.files, s.db.contents, 0) == Some(Row(1, 2)) && Threatened(0, s, SlotOf(Row(1, 2)))
  {
    var s := BothSaved(data);
    assert s.db.contents[0] == Row(0, 1) && SlotOf(Row(0, 1)) == SlotOf(Row(1, 2));
    assert GivenUp(0, s.db, 0) && Listable(s.db, 0);
    assert 0 in s.db.contents && SlotOf(s.db.contents[0]) == SlotOf(Row(1, 2)) && Reapable(0, s, 0);
  }
}
