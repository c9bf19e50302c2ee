/** A move in file storage mode as a whole: the plan, the copies, the metadata update and the clean-up
    leave every live file reading the bytes it read before. */
module DirectoryMoves {
  import opened Wrappers
  import opened FileTree
  import opened FilePaths
  import opened DirectoryKeys
  import opened Relocations
  import opened StoredFiles

  ghost predicate Plans(contents: Contents, r: Relocation, oldRoot: string, newRoot: string) {
    && r.contentID in contents && r.From() == SlotOf(contents[r.contentID])
    && r.newKey == SwapRoot(r.oldKey, oldRoot, newRoot)
  }

  /** One relocation for each of the rows. */
  ghost predicate PlanFor(contents: Contents, rows: set<nat>, oldRoot: string, newRoot: string, rs: seq<Relocation>) {
    && (forall i | 0 <= i < |rs| :: Plans(contents, rs[i], oldRoot, newRoot) && rs[i].contentID in rows)
    && (forall i, j | 0 <= i < j < |rs| :: rs[i].contentID != rs[j].contentID)
    && (forall c | c in rows :: exists i :: 0 <= i < |rs| && rs[i].contentID == c)
  }

  /** One relocation for each content row of the subtree. */
  ghost predicate IsPlan(files: Files, contents: Contents, id: nat, oldRoot: string, newRoot: string,
                         rs: seq<Relocation>)
    requires Forest(files)
  {
    PlanFor(contents, SubtreeContents(files, contents, id), oldRoot, newRoot, rs)
  }

  lemma PlanOneMore(contents: Contents, rows: set<nat>, oldRoot: string, newRoot: string, rs: seq<Relocation>,
                    r: Relocation)
    requires PlanFor(contents, rows, oldRoot, newRoot, rs)
    requires Plans(contents, r, oldRoot, newRoot) && r.contentID !in rows
    ensures PlanFor(contents, rows + {r.contentID}, oldRoot, newRoot, rs + [r])
  {
    var rs' := rs + [r];
    forall c | c in rows + {r.contentID} ensures exists i :: 0 <= i < |rs'| && rs'[i].contentID == c {
      if c == r.contentID {
        assert rs'[|rs|].contentID == c;
      } else {
        var i :| 0 <= i < |rs| && rs[i].contentID == c;
        assert rs'[i].contentID == c;
      }
    }
  }

  lemma MarkedIsPlan(files: Files, contents: Contents, id: nat, oldRoot: string, newRoot: string, rs: seq<Relocation>,
                     marked: seq<Relocation>)
    requires Forest(files) && IsPlan(files, contents, id, oldRoot, newRoot, rs) && SameButCopied(marked, rs)
    ensures IsPlan(files, contents, id, oldRoot, newRoot, marked)
  {
    forall i | 0 <= i < |rs|
      ensures marked[i].contentID == rs[i].contentID && marked[i].From() == rs[i].From()
      ensures marked[i].newKey == rs[i].newKey && marked[i].oldKey == rs[i].oldKey
    {
      assert marked[i].(copied := false) == rs[i].(copied := false);
      assert marked[i].(copied := false).contentID == marked[i].contentID;
      assert marked[i].(copied := false).newKey == marked[i].newKey;
      assert marked[i].(copied := false).oldKey == marked[i].oldKey;
      assert marked[i].(copied := false).backendID == marked[i].backendID;
    }
  }

  ghost function OldRoot(workspaces: Workspaces, files: Files, id: nat): string
    requires TreeOk(workspaces, files) && Live(files, id)
  {
    KeyOf(workspaces, files, id)
  }

  ghost function NewRoot(workspaces: Workspaces, files: Files, id: nat, parent: Option<nat>, name: string): string
    requires TreeOk(workspaces, files) && Live(files, id) && (parent.Some? ==> Live(files, parent.value))
  {
    Join(Base(workspaces, files[id]) + TargetPath(files, parent, name))
  }

  /** What a plan means for one row, once the move is accepted: from the file's old key to its new one. */
  lemma PlannedKeys(
    workspaces: Workspaces, files: Files, contents: Contents, id: nat, parent: Option<nat>, name: string,
    rs: seq<Relocation>, i: nat)
    requires TreeOk(workspaces, files) && Accepted(files, id, parent, name) && ValidSegment(name)
    requires Mirrors(workspaces, files, contents)
    requires IsPlan(files, contents, id, OldRoot(workspaces, files, id), NewRoot(workspaces, files, id, parent, name),
                    rs)
    requires i < |rs|
    ensures TreeOk(workspaces, Moved(files, id, parent, name))
    ensures rs[i].contentID in contents
    ensures var k := contents[rs[i].contentID].fileID;
            && Live(files, k) && Under(files, k, id) && Live(Moved(files, id, parent, name), k)
            && files[k].currentContentID == Some(rs[i].contentID)
            && rs[i].oldKey == KeyOf(workspaces, files, k)
               && rs[i].newKey == KeyOf(workspaces, Moved(files, id, parent, name), k)
  {
    assert Plans(contents, rs[i], OldRoot(workspaces, files, id), NewRoot(workspaces, files, id, parent, name));
    var k := contents[rs[i].contentID].fileID;
    assert rs[i].From().key == SlotOf(contents[rs[i].contentID]).key;
    SwapGivesNewKey(workspaces, files, id, parent, name, k);
  }

  lemma PlanSeparates(
    workspaces: Workspaces, files: Files, contents: Contents, id: nat, parent: Option<nat>, name: string,
    rs: seq<Relocation>)
    requires RealMove(workspaces, files, id, parent, name) && Mirrors(workspaces, files, contents)
    requires IsPlan(files, contents, id, OldRoot(workspaces, files, id), NewRoot(workspaces, files, id, parent, name),
                    rs)
    ensures Separate(rs)
    ensures forall i | 0 <= i < |rs| :: rs[i].Moves()
  {
    var moved := Moved(files, id, parent, name);
    forall i, j | 0 <= i < j < |rs| ensures rs[i].To() != rs[j].To() {
      PlannedKeys(workspaces, files, contents, id, parent, name, rs, i);
      PlannedKeys(workspaces, files, contents, id, parent, name, rs, j);
      if rs[i].newKey == rs[j].newKey {
        KeyInjective(workspaces, moved, contents[rs[i].contentID].fileID, contents[rs[j].contentID].fileID);
      }
    }
    forall i, j | 0 <= i < |rs| && 0 <= j < |rs| ensures rs[i].newKey != rs[j].oldKey {
      PlannedKeys(workspaces, files, contents, id, parent, name, rs, i);
      PlannedKeys(workspaces, files, contents, id, parent, name, rs, j);
      NewKeysAreNew(workspaces, files, id, parent, name, contents[rs[i].contentID].fileID,
                    contents[rs[j].contentID].fileID);
    }
  }

  /** The rows after the metadata update: each planned row at its new key. */
  function Rekeyed(contents: Contents, keys: map<nat, string>): Contents {
    map c | c in contents :: if c in keys then contents[c].(storageKey := keys[c]) else contents[c]
  }

  ghost predicate KeysOfPlan(keys: map<nat, string>, rs: seq<Relocation>) {
    && (forall i | 0 <= i < |rs| :: rs[i].contentID in keys && keys[rs[i].contentID] == rs[i].newKey)
    && (forall c | c in keys :: exists i :: 0 <= i < |rs| && rs[i].contentID == c)
  }

  /** A planned row, and no other, gets a new key. */
  lemma PlannedRows(files: Files, contents: Contents, id: nat, oldRoot: string, newRoot: string, rs: seq<Relocation>,
                    keys: map<nat, string>)
    requires Forest(files) && IsPlan(files, contents, id, oldRoot, newRoot, rs) && KeysOfPlan(keys, rs)
    ensures keys.Keys == SubtreeContents(files, contents, id)
  {
    forall c | c in keys ensures c in SubtreeContents(files, contents, id) {
      var i :| 0 <= i < |rs| && rs[i].contentID == c;
      assert rs[i].contentID in SubtreeContents(files, contents, id);
    }
    forall c | c in SubtreeContents(files, contents, id) ensures c in keys {
      var i :| 0 <= i < |rs| && rs[i].contentID == c;
      assert rs[i].contentID in keys;
    }
  }

  lemma RekeyedIsRelocated(
    workspaces: Workspaces, files: Files, contents: Contents, id: nat, parent: Option<nat>, name: string,
    rs: seq<Relocation>, keys: map<nat, string>)
    requires TreeOk(workspaces, files) && Accepted(files, id, parent, name) && ValidSegment(name)
    requires Mirrors(workspaces, files, contents)
    requires IsPlan(files, contents, id, OldRoot(workspaces, files, id), NewRoot(workspaces, files, id, parent, name),
                    rs)
    requires KeysOfPlan(keys, rs)
    ensures TreeOk(workspaces, Moved(files, id, parent, name))
    ensures Relocated(workspaces, files, contents, id, Moved(files, id, parent, name), Rekeyed(contents, keys))
  {
    MoveKeepsTree(workspaces, files, id, parent, name);
    PlannedRows(files, contents, id, OldRoot(workspaces, files, id), NewRoot(workspaces, files, id, parent, name), rs,
                keys);
    forall c | c in contents
      ensures Rekeyed(contents, keys)[c] ==
              if Live(files, contents[c].fileID) && Under(files, contents[c].fileID, id)
              then contents[c].(storageKey := KeyOf(workspaces, Moved(files, id, parent, name), contents[c].fileID))
                 else contents[c]
    {
      if c in SubtreeContents(files, contents, id) {
        var i :| 0 <= i < |rs| && rs[i].contentID == c;
        PlannedKeys(workspaces, files, contents, id, parent, name, rs, i);
      }
    }
  }

  /** What the copies did, when none of them failed. */
  ghost predicate AllStaged(was: ByteMap, bytes: ByteMap, rs: seq<Relocation>) {
    && Extends(was, bytes, CopiedTo(rs)) && CopiedTo(rs) !! was.Keys
    && forall i {:trigger Staged(was, bytes, rs[i])} | 0 <= i < |rs| :: Staged(was, bytes, rs[i])
  }

  /** What the copies and the clean-up left: `staged` holds the copies of `was`, and `bytes` is `staged`
      without some of the slots copied from. */
  ghost predicate Carried(was: ByteMap, staged: ByteMap, bytes: ByteMap, rs: seq<Relocation>) {
    AllStaged(was, staged, rs) && Shrinks(staged, bytes, CopiedFrom(rs))
  }

  /** The whole move: after the copies, the metadata update and the clean-up, however many of the
      clean-up's deletes failed, every live file reads exactly what it read before. */
  lemma MoveKeepsReads(
    workspaces: Workspaces, files: Files, contents: Contents, id: nat, parent: Option<nat>, name: string,
    rs: seq<Relocation>, keys: map<nat, string>, was: ByteMap, staged: ByteMap, bytes: ByteMap, k: nat)
    requires RealMove(workspaces, files, id, parent, name) && Mirrors(workspaces, files, contents)
    requires IsPlan(files, contents, id, OldRoot(workspaces, files, id), NewRoot(workspaces, files, id, parent, name),
                    rs)
    requires KeysOfPlan(keys, rs) && Carried(was, staged, bytes, rs)
    requires Live(files, k)
    ensures k in Moved(files, id, parent, name)
    ensures ReadIn(Moved(files, id, parent, name), Rekeyed(contents, keys), bytes, k) == ReadIn(files, contents, was, k)
  {
    if files[k].currentContentID.Some? {
      var c := files[k].currentContentID.value;
      if Under(files, k, id) {
        InsideReads(workspaces, files, contents, id, parent, name, rs, keys, was, staged, bytes, c);
      } else {
        OutsideReads(workspaces, files, contents, id, parent, name, rs, keys, was, staged, bytes, k);
      }
    }
  }

  /** Before the update: copies are at no key that a live file reads. */
  lemma StagedReads(
    workspaces: Workspaces, files: Files, contents: Contents, id: nat, parent: Option<nat>, name: string,
    rs: seq<Relocation>, was: ByteMap, bytes: ByteMap, k: nat)
    requires RealMove(workspaces, files, id, parent, name) && Mirrors(workspaces, files, contents)
    requires IsPlan(files, contents, id, OldRoot(workspaces, files, id), NewRoot(workspaces, files, id, parent, name),
                    rs)
    requires Extends(was, bytes, CopiedTo(rs)) && Live(files, k)
    ensures ReadIn(files, contents, bytes, k) == ReadIn(files, contents, was, k)
  {
    if files[k].currentContentID.Some? {
      NobodyReadsAtTargets(workspaces, files, contents, id, parent, name, rs, k);
    }
  }

  lemma NobodyReadsAtTargets(
    workspaces: Workspaces, files: Files, contents: Contents, id: nat, parent: Option<nat>, name: string,
    rs: seq<Relocation>, k: nat)
    requires RealMove(workspaces, files, id, parent, name) && Mirrors(workspaces, files, contents)
    requires IsPlan(files, contents, id, OldRoot(workspaces, files, id), NewRoot(workspaces, files, id, parent, name),
                    rs)
    requires Live(files, k) && files[k].currentContentID.Some?
    ensures files[k].currentContentID.value in contents
    ensures SlotOf(contents[files[k].currentContentID.value]) !in CopiedTo(rs)
  {
    var c := files[k].currentContentID.value;
    if Under(files, k, id) {
      assert c in SubtreeContents(files, contents, id);
      PlanSeparates(workspaces, files, contents, id, parent, name, rs);
      var j :| 0 <= j < |rs| && rs[j].contentID == c;
      assert Plans(contents, rs[j], OldRoot(workspaces, files, id), NewRoot(workspaces, files, id, parent, name));
      assert forall i | 0 <= i < |rs| :: rs[i].To() != rs[j].From();
    } else {
      OutsideThePlan(workspaces, files, contents, id, parent, name, rs, k);
    }
  }

  lemma InsideReads(
    workspaces: Workspaces, files: Files, contents: Contents, id: nat, parent: Option<nat>, name: string,
    rs: seq<Relocation>, keys: map<nat, string>, was: ByteMap, staged: ByteMap, bytes: ByteMap, c: nat)
    requires RealMove(workspaces, files, id, parent, name) && Mirrors(workspaces, files, contents)
    requires IsPlan(files, contents, id, OldRoot(workspaces, files, id), NewRoot(workspaces, files, id, parent, name),
                    rs)
    requires KeysOfPlan(keys, rs) && Carried(was, staged, bytes, rs)
    requires c in SubtreeContents(files, contents, id)
    ensures Lookup(bytes, SlotOf(Rekeyed(contents, keys)[c])) == Lookup(was, SlotOf(contents[c]))
  {
    PlanSeparates(workspaces, files, contents, id, parent, name, rs);
    RelocatedReadsTheSame(was, staged, bytes, rs);
    RowMoves(files, contents, id, OldRoot(workspaces, files, id), NewRoot(workspaces, files, id, parent, name), rs,
             keys, c);
  }

  lemma OutsideReads(
    workspaces: Workspaces, files: Files, contents: Contents, id: nat, parent: Option<nat>, name: string,
    rs: seq<Relocation>, keys: map<nat, string>, was: ByteMap, staged: ByteMap, bytes: ByteMap, k: nat)
    requires RealMove(workspaces, files, id, parent, name) && Mirrors(workspaces, files, contents)
    requires IsPlan(files, contents, id, OldRoot(workspaces, files, id), NewRoot(workspaces, files, id, parent, name),
                    rs)
    requires KeysOfPlan(keys, rs) && Carried(was, staged, bytes, rs)
    requires Live(files, k) && !Under(files, k, id) && files[k].currentContentID.Some?
    ensures files[k].currentContentID.value in contents
    ensures var c := files[k].currentContentID.value;
            Lookup(bytes, SlotOf(Rekeyed(contents, keys)[c])) == Lookup(was, SlotOf(contents[c]))
  {
    var c := files[k].currentContentID.value;
    PlanSeparates(workspaces, files, contents, id, parent, name, rs);
    RelocatedReadsTheSame(was, staged, bytes, rs);
    PlannedRows(files, contents, id, OldRoot(workspaces, files, id), NewRoot(workspaces, files, id, parent, name), rs,
                keys);
    OutsideThePlan(workspaces, files, contents, id, parent, name, rs, k);
    assert Rekeyed(contents, keys)[c] == contents[c];
  }

  /** A row of the subtree is at its relocation's old slot before the update and at its new one after. */
  lemma RowMoves(
    files: Files, contents: Contents, id: nat, oldRoot: string, newRoot: string, rs: seq<Relocation>,
    keys: map<nat, string>, c: nat)
    requires Forest(files) && IsPlan(files, contents, id, oldRoot, newRoot, rs) && KeysOfPlan(keys, rs)
    requires c in SubtreeContents(files, contents, id)
    ensures exists i :: 0 <= i < |rs| && SlotOf(contents[c]) == rs[i].From()
              && SlotOf(Rekeyed(contents, keys)[c]) == rs[i].To()
  {
    var i :| 0 <= i < |rs| && rs[i].contentID == c;
    assert Plans(contents, rs[i], oldRoot, newRoot);
    assert c in keys && keys[c] == rs[i].newKey;
  }

  /** A file outside the moved subtree is at none of the plan's slots, old or new. */
  lemma OutsideThePlan(
    workspaces: Workspaces, files: Files, contents: Contents, id: nat, parent: Option<nat>, name: string,
    rs: seq<Relocation>, k: nat)
    requires RealMove(workspaces, files, id, parent, name) && Mirrors(workspaces, files, contents)
    requires IsPlan(files, contents, id, OldRoot(workspaces, files, id), NewRoot(workspaces, files, id, parent, name),
                    rs)
    requires Live(files, k) && !Under(files, k, id) && files[k].currentContentID.Some?
    ensures files[k].currentContentID.value in contents
    ensures forall i | 0 <= i < |rs| ::
              SlotOf(contents[files[k].currentContentID.value]) != rs[i].From()
              && SlotOf(contents[files[k].currentContentID.value]) != rs[i].To()
  {
    var key := contents[files[k].currentContentID.value].storageKey;
    forall i | 0 <= i < |rs| ensures key != rs[i].oldKey && key != rs[i].newKey {
      PlannedKeys(workspaces, files, contents, id, parent, name, rs, i);
      var j := contents[rs[i].contentID].fileID;
      NewKeysAreNew(workspaces, files, id, parent, name, j, k);
      if key == rs[i].oldKey {
        KeyInjective(workspaces, files, j, k);
      }
    }
  }
}
