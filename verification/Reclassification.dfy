/** Why a write that keeps no version has a guard: a run in which a file changes its use of revisions, and
    the bytes it loses. */
module Reclassification {
  import opened Wrappers
  import opened FileTree
  import opened Relocations
  import opened StoredFiles
  import opened Revisions
  import opened RevisionRuns
  import opened RevisionSteps
  import opened RevisionTheorems

  /** Only text files keep versions. */
  function TextOnly(name: string, mediaType: string, fileKind: string): bool {
    name == "a.txt"
  }

  function FileNamed(name: string, current: Option<nat>): Node {
    Node(0, 0, None, Shared, None, File, name, "", "", current, false)
  }

  function Row(c: nat, version: nat, suffix: seq<string>): Content {
    Content(c, 0, version, "local", ObjectKey(0, 0, suffix), "")
  }

  function SlotAt(suffix: seq<string>): Slot {
    Slot("local", ObjectKey(0, 0, suffix))
  }

  lemma KeysDiffer()
    ensures SlotAt(CURRENT_SUFFIX) != SlotAt(VersionSuffix(2))
  {
    SuffixesAreValid(2);
    SuffixInjective(2, 2);
    if ObjectKey(0, 0, CURRENT_SUFFIX) == ObjectKey(0, 0, VersionSuffix(2)) {
      ObjectKeyInjective(0, 0, CURRENT_SUFFIX, 0, 0, VersionSuffix(2));
    }
  }

  // The states of the run after each write, and after the reaper has read the queue.

  function Binary(first: Bytes): State {
    var rows := map[0 := Row(0, 1, CURRENT_SUFFIX)];
    State(Tables(map[0 := FileNamed("a.bin", Some(0))], rows, rows, 1),
          map[], 0, map[SlotAt(CURRENT_SUFFIX) := first], map[], {}, {})
  }

  function TextTables(): Tables {
    var rows := map[0 := Row(0, 1, CURRENT_SUFFIX), 1 := Row(1, 2, VersionSuffix(2))];
    Tables(map[0 := FileNamed("a.txt", Some(1))], rows, rows, 2)
  }

  function TextBytes(first: Bytes, second: Bytes): ByteMap {
    map[SlotAt(CURRENT_SUFFIX) := first, SlotAt(VersionSuffix(2)) := second]
  }

  function TextFile(first: Bytes, second: Bytes): State {
    State(TextTables(), map[], 0, TextBytes(first, second), map[], {}, {})
  }

  function FirstDeletion(): Deletion {
    Deletion(0, 0, "local", ObjectKey(0, 0, CURRENT_SUFFIX), 0, 0)
  }

  function Reaping(first: Bytes, second: Bytes): State {
    State(TextTables(), map[0 := FirstDeletion()], 1, TextBytes(first, second), map[],
          {Row(0, 1, CURRENT_SUFFIX)}, {FirstDeletion()})
  }

  function RenamedBack(first: Bytes, second: Bytes): State {
    Reaping(first, second).(db := TextTables().(files := map[0 := FileNamed("a.bin", Some(1))]))
  }

  function Pending(suffix: seq<string>, versioned: bool, put: bool): map<nat, Write> {
    map[0 := Write(Row(0, 0, suffix), versioned, put)]
  }

  function PutAgain(third: Bytes, second: Bytes): State {
    RenamedBack(third, second).(pending := Pending(CURRENT_SUFFIX, false, true))
  }

  function BinaryAgain(third: Bytes, second: Bytes): State {
    var rows := map[0 := Row(0, 1, CURRENT_SUFFIX), 1 := Row(1, 2, CURRENT_SUFFIX)];
    Reaping(third, second).(db := Tables(map[0 := FileNamed("a.bin", Some(1))], rows, rows, 2))
  }

  // ---------------------------------------------------------------- the run

  ghost predicate ReachesAlone(run: seq<State>, steps: seq<Step>, s: State) {
    IsExclusiveRun(TextOnly, 0, run, steps) && run[|steps|] == s
  }

  /** One writer's call, taken whole. */
  lemma Writes(run: seq<State>, steps: seq<Step>, s: State, data: Bytes, planned: State, put: State, saved: State)
    returns (run': seq<State>, steps': seq<Step>)
    requires ReachesAlone(run, steps, s) && s.pending == map[]
    requires Next(TextOnly, 0, s, Plan(0, 0, "local"), planned)
    requires Next(TextOnly, 0, planned, Put(0, data, ""), put)
    requires Next(TextOnly, 0, put, Save(0), saved)
    ensures ReachesAlone(run', steps', saved) && |steps'| > 0
    ensures steps'[|steps'| - 1] == Save(0) && run'[|steps'| - 1] == put
  {
    RunOneMore(TextOnly, 0, run, steps, Plan(0, 0, "local"), planned);
    run', steps' := run + [planned], steps + [Plan(0, 0, "local")];
    RunOneMore(TextOnly, 0, run', steps', Put(0, data, ""), put);
    run', steps' := run' + [put], steps' + [Put(0, data, "")];
    RunOneMore(TextOnly, 0, run', steps', Save(0), saved);
    run', steps' := run' + [saved], steps' + [Save(0)];
  }

  lemma WriteBinary(first: Bytes) returns (run: seq<State>, steps: seq<Step>)
    ensures ReachesAlone(run, steps, Binary(first))
  {
    var file := FileNamed("a.bin", None);
    var s0 := Initial();
    var s1 := s0.(db := Tables(map[0 := file], map[], map[], 0));
    var planned := s1.(pending := Pending(CURRENT_SUFFIX, false, false));
    var put := s1.(bytes := map[SlotAt(CURRENT_SUFFIX) := first], pending := Pending(CURRENT_SUFFIX, false, true));
    RunOneMore(TextOnly, 0, [s0], [], CreateFile(file), s1);
    assert put.pending - {0} == map[];
    run, steps := Writes([s0] + [s1], [] + [CreateFile(file)], s1, first, planned, put, Binary(first));
  }

  /** Renamed to text, the file keeps its first row and gets a second one. */
  lemma WriteText(first: Bytes, second: Bytes) returns (run: seq<State>, steps: seq<Step>)
    ensures ReachesAlone(run, steps, TextFile(first, second))
  {
    var s2 := Binary(first);
    var s3 := s2.(db := s2.db.(files := map[0 := FileNamed("a.txt", Some(0))]));
    run, steps := WriteBinary(first);
    RunOneMore(TextOnly, 0, run, steps, Rename(0, None, "a.txt"), s3);
    SecondWrite(first, second, s3);
    run, steps := Writes(run + [s3], steps + [Rename(0, None, "a.txt")], s3, second,
                         s3.(pending := Pending(VersionSuffix(2), true, false)),
                         s3.(bytes := TextBytes(first, second), pending := Pending(VersionSuffix(2), true, true)),
                         TextFile(first, second));
  }

  lemma SecondWrite(first: Bytes, second: Bytes, s: State)
    requires s == Binary(first).(db := Binary(first).db.(files := map[0 := FileNamed("a.txt", Some(0))]))
    ensures var planned := s.(pending := Pending(VersionSuffix(2), true, false));
            var put := s.(bytes := TextBytes(first, second), pending := Pending(VersionSuffix(2), true, true));
            && Next(TextOnly, 0, s, Plan(0, 0, "local"), planned)
            && Next(TextOnly, 0, planned, Put(0, second, ""), put)
            && Next(TextOnly, 0, put, Save(0), TextFile(first, second))
  {
    KeysDiffer();
    var put := s.(bytes := TextBytes(first, second), pending := Pending(VersionSuffix(2), true, true));
    assert put.pending - {0} == map[];
  }

  /** Retention gives the first row up, and a reaper reads its queue row. */
  lemma ReapFirst(first: Bytes, second: Bytes) returns (run: seq<State>, steps: seq<Step>)
    ensures ReachesAlone(run, steps, Reaping(first, second))
  {
    var s5, row := TextFile(first, second), Row(0, 1, CURRENT_SUFFIX);
    var s6 := s5.(listed := {row});
    var s7 := s6.(queue := map[0 := FirstDeletion()], nextDeletionID := 1);
    run, steps := WriteText(first, second);
    FirstIsReaped(first, second);
    RunOneMore(TextOnly, 0, run, steps, ListCandidates(0), s6);
    run, steps := run + [s6], steps + [ListCandidates(0)];
    RunOneMore(TextOnly, 0, run, steps, Enqueue(row, 0), s7);
    run, steps := run + [s7], steps + [Enqueue(row, 0)];
    RunOneMore(TextOnly, 0, run, steps, Take(0), Reaping(first, second));
    run, steps := run + [Reaping(first, second)], steps + [Take(0)];
  }

  lemma FirstIsReaped(first: Bytes, second: Bytes)
    ensures var s5, row := TextFile(first, second), Row(0, 1, CURRENT_SUFFIX);
            var s6 := s5.(listed := {row});
            var s7 := s6.(queue := map[0 := FirstDeletion()], nextDeletionID := 1);
            && Next(TextOnly, 0, s5, ListCandidates(0), s6)
            && Next(TextOnly, 0, s6, Enqueue(row, 0), s7)
            && Next(TextOnly, 0, s7, Take(0), Reaping(first, second))
  {
    FirstIsListed();
  }

  lemma FirstIsListed()
    ensures ListedRows(0, TextTables(), 0) == {Row(0, 1, CURRENT_SUFFIX)}
  {
    assert Candidates(TextTables().files, TextTables().contents, 0, 0) == {0};
  }

  lemma RenameBack(first: Bytes, second: Bytes) returns (run: seq<State>, steps: seq<Step>)
    ensures ReachesAlone(run, steps, RenamedBack(first, second))
  {
    run, steps := ReapFirst(first, second);
    RunOneMore(TextOnly, 0, run, steps, Rename(0, None, "a.bin"), RenamedBack(first, second));
    run, steps := run + [RenamedBack(first, second)], steps + [Rename(0, None, "a.bin")];
  }

  lemma ThirdPut(first: Bytes, second: Bytes, third: Bytes)
    ensures var planned := RenamedBack(first, second).(pending := Pending(CURRENT_SUFFIX, false, false));
            && Next(TextOnly, 0, RenamedBack(first, second), Plan(0, 0, "local"), planned)
            && Next(TextOnly, 0, planned, Put(0, third, ""), PutAgain(third, second))
  {
    KeysDiffer();
  }

  /** Renamed back, the file's second row takes the key of its first. */
  lemma ThirdSave(second: Bytes, third: Bytes)
    ensures Next(TextOnly, 0, PutAgain(third, second), Save(0), BinaryAgain(third, second))
  {
    assert PutAgain(third, second).pending - {0} == map[];
  }

  /** The first row is at the key the write overwrites, and is not the current one. */
  lemma LastSaveIsUnguarded(third: Bytes, second: Bytes)
    ensures !WriteGuard(TextOnly, PutAgain(third, second).db, 0)
  {
    var db := PutAgain(third, second).db;
    assert 0 in db.history && db.history[0] == Row(0, 1, CURRENT_SUFFIX) && !IsCurrent(db.files, db.history[0]);
  }

  /** A file written as binary, renamed to text and written, then renamed back and written once more, has
      its newest bytes at the key of its first row: the reaper that took the first row deletes them. The
      last save is the one that does not meet its guard. */
  lemma ReclassifiedFileLosesItsBytes(first: Bytes, second: Bytes, third: Bytes)
    returns (run: seq<State>, steps: seq<Step>, s: State, d: Deletion)
    ensures IsExclusiveRun(TextOnly, 0, run, steps) && run[|steps|] == s
    ensures |steps| > 0 && !Guarded(TextOnly, run[|steps| - 1], steps[|steps| - 1])
    ensures Live(s.db.files, 0) && Reads(s, 0) == Some(third)
    ensures Enabled(s, DeleteBytes(d)) && Reads(After(TextOnly, 0, s, DeleteBytes(d)), 0) == None
  {
    s, d := BinaryAgain(third, second), FirstDeletion();
    run, steps := RenameBack(first, second);
    ThirdPut(first, second, third);
    ThirdSave(second, third);
    run, steps := Writes(run, steps, RenamedBack(first, second), third,
                         RenamedBack(first, second).(pending := Pending(CURRENT_SUFFIX, false, false)),
                         PutAgain(third, second), s);
    LastSaveIsUnguarded(third, second);
    BinaryAgainReads(third, second);
  }

  lemma BinaryAgainReads(third: Bytes, second: Bytes)
    ensures var s, d := BinaryAgain(third, second), FirstDeletion();
            && Live(s.db.files, 0) && Reads(s, 0) == Some(third)
            && Enabled(s, DeleteBytes(d)) && Reads(After(TextOnly, 0, s, DeleteBytes(d)), 0) == None
  {
    var s, d := BinaryAgain(third, second), FirstDeletion();
    assert d.Slot() == SlotAt(CURRENT_SUFFIX) == SlotOf(Row(1, 2, CURRENT_SUFFIX));
    assert s.db.contents[1] == Row(1, 2, CURRENT_SUFFIX);
    assert s.bytes[SlotAt(CURRENT_SUFFIX)] == third by { KeysDiffer(); }
  }
}
