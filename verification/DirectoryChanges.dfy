/** What each change of the file service does to a mirrored tree: moves, new rows, deleted subtrees. */
module DirectoryChanges {
  import opened Wrappers
  import opened Text
  import opened FileTree
  import opened FilePaths
  import opened DirectoryKeys
  import opened Relocations
  import opened StoredFiles
  import opened DirectoryMoves
  import opened FileAccess
  import opened FileRequests

  lemma NothingMoved(files: Files, id: nat)
    requires id in files
    ensures Moved(files, id, files[id].parentID, files[id].name) == files
  {
  }

  ghost function Rooted(contents: Contents, rows: set<nat>, root: string): set<nat>
    requires rows <= contents.Keys
  {
    set c | c in rows && HasRoot(contents[c].storageKey, root)
  }

  /** Rows whose key does not start at the old root are left where they are. */
  method PlanRows(contents: Contents, rows: set<nat>, oldRoot: string, newRoot: string) returns (rs: seq<Relocation>)
    requires rows <= contents.Keys
    ensures PlanFor(contents, Rooted(contents, rows, oldRoot), oldRoot, newRoot, rs)
    ensures forall i | 0 <= i < |rs| :: !rs[i].copied
  {
    rs := [];
    var rest := rows;
    while rest != {}
      invariant rest <= rows
      invariant PlanFor(contents, Rooted(contents, rows - rest, oldRoot), oldRoot, newRoot, rs)
      invariant forall i | 0 <= i < |rs| :: !rs[i].copied
      decreases |rest|
    {
      var c :| c in rest;
      var content := contents[c];
      RootedOneMore(contents, rows, rest, c, oldRoot);
      if HasRoot(content.storageKey, oldRoot) {
        var r := Relocation(c, content.Backend(), content.storageKey, SwapRoot(content.storageKey, oldRoot, newRoot),
                            false);
        PlanOneMore(contents, Rooted(contents, rows - rest, oldRoot), oldRoot, newRoot, rs, r);
        rs := rs + [r];
      }
      rest := rest - {c};
    }
    assert rows - rest == rows;
  }

  lemma RootedOneMore(contents: Contents, rows: set<nat>, rest: set<nat>, c: nat, root: string)
    requires rest <= rows <= contents.Keys && c in rest
    ensures c !in Rooted(contents, rows - rest, root)
    ensures Rooted(contents, rows - (rest - {c}), root) ==
            Rooted(contents, rows - rest, root) + if HasRoot(contents[c].storageKey, root) then {c} else {}
  {
  }

  // ---------------------------------------------------------------- bytes kept, plans carried out

  ghost predicate Keeps(was: ByteMap, bytes: ByteMap) {
    forall s | s in was :: s in bytes && bytes[s] == was[s]
  }

  /** Every file that was live before reads the same bytes now. */
  ghost predicate ReadsKept(files: Files, contents: Contents, bytes: ByteMap, files': Files, contents': Contents,
                            bytes': ByteMap)
  {
    forall k | Live(files, k) :: k in files' && ReadIn(files', contents', bytes', k) ==
        ReadIn(files, contents, bytes, k)
  }

  ghost predicate ReadsKeptAt(files: Files, contents: Contents, bytes: ByteMap, stop: Stop<Metadata>) {
    ReadsKept(files, contents, bytes, stop.tables.files, stop.tables.contents, stop.bytes)
  }

  /** Every live file that has its bytes, or has no content, reads the same as before. */
  ghost predicate StoredKeptAt(files: Files, contents: Contents, bytes: ByteMap, stop: Stop<Metadata>) {
    forall k | Live(files, k) && (files[k].currentContentID.None? || ReadIn(files, contents, bytes, k).Some?) ::
      && k in stop.tables.files
      && ReadIn(stop.tables.files, stop.tables.contents, stop.bytes, k) == ReadIn(files, contents, bytes, k)
  }

  /** So at every state gone through since `before`: wherever a call stops. */
  ghost predicate ReadsThrough(
    before: seq<Stop<Metadata>>, after: seq<Stop<Metadata>>, files: Files, contents: Contents, bytes: ByteMap)
  {
    before <= after && forall i | |before| <= i < |after| :: ReadsKeptAt(files, contents, bytes, after[i])
  }

  ghost predicate StoredThrough(
    before: seq<Stop<Metadata>>, after: seq<Stop<Metadata>>, files: Files, contents: Contents, bytes: ByteMap)
  {
    before <= after && forall i | |before| <= i < |after| :: StoredKeptAt(files, contents, bytes, after[i])
  }

  lemma ReadsAreStored(
    before: seq<Stop<Metadata>>, after: seq<Stop<Metadata>>, files: Files, contents: Contents, bytes: ByteMap)
    requires ReadsThrough(before, after, files, contents, bytes)
    ensures StoredThrough(before, after, files, contents, bytes)
  {
    forall i | |before| <= i < |after| ensures StoredKeptAt(files, contents, bytes, after[i]) {
      assert ReadsKeptAt(files, contents, bytes, after[i]);
    }
  }

  /** Copies, whatever comes of them, leave all stored bytes where they are. */
  lemma ExtendingStores(before: seq<Stop<Metadata>>, after: seq<Stop<Metadata>>, files: Files, contents: Contents,
                        bytes: ByteMap, extra: set<Slot>)
    requires TrailExtends(before, after, Metadata(files, contents), bytes, extra)
    ensures StoredThrough(before, after, files, contents, bytes)
  {
  }

  /** The new keys, by content row. */
  method KeysOf(relocations: array<Relocation>) returns (keys: map<nat, string>)
    requires forall i, j | 0 <= i < j < relocations.Length :: relocations[i].contentID != relocations[j].contentID
    ensures KeysOfPlan(keys, relocations[..])
  {
    keys := map[];
    for n := 0 to relocations.Length
      invariant forall i | 0 <= i < n :: relocations[i].contentID in keys
                  && keys[relocations[i].contentID] == relocations[i].newKey
      invariant forall c | c in keys :: exists i :: 0 <= i < n && relocations[i].contentID == c
    {
      keys := keys[relocations[n].contentID := relocations[n].newKey];
    }
  }

  /** Copies went where nothing was, so taking them back, even partly, loses nothing. */
  lemma RollbackUndoes(was: ByteMap, copied: ByteMap, bytes: ByteMap, rs: seq<Relocation>)
    requires AllStaged(was, copied, rs)
    requires Shrinks(copied, bytes, CopiedTo(rs))
    ensures Keeps(was, bytes)
    ensures bytes == copied - CopiedTo(rs) ==> bytes == was
  {
  }

  /** Nothing to relocate for an unchanged place, and otherwise every row of the subtree. */
  ghost predicate PlansMove(
    workspaces: Workspaces, files: Files, contents: Contents, id: nat, parent: Option<nat>, name: string,
    plan: seq<Relocation>)
    requires TreeOk(workspaces, files) && Live(files, id) && ParentFits(files, files[id].(parentID := parent))
  {
    if parent == files[id].parentID && name == files[id].name then plan == []
    else IsPlan(files, contents, id, OldRoot(workspaces, files, id), NewRoot(workspaces, files, id, parent, name), plan)
  }

  lemma MarkedPlansMove(
    workspaces: Workspaces, files: Files, contents: Contents, id: nat, parent: Option<nat>, name: string,
    plan: seq<Relocation>, rs: seq<Relocation>)
    requires TreeOk(workspaces, files) && Live(files, id) && ParentFits(files, files[id].(parentID := parent))
    requires PlansMove(workspaces, files, contents, id, parent, name, plan) && SameButCopied(rs, plan)
    ensures PlansMove(workspaces, files, contents, id, parent, name, rs)
    ensures forall i, j | 0 <= i < j < |rs| :: rs[i].contentID != rs[j].contentID
  {
    if parent != files[id].parentID || name != files[id].name {
      MarkedIsPlan(files, contents, id, OldRoot(workspaces, files, id), NewRoot(workspaces, files, id, parent, name),
                   plan, rs);
    }
  }

  lemma MoveDone(
    workspaces: Workspaces, files: Files, contents: Contents, file: Node, rs: seq<Relocation>, keys: map<nat, string>,
    was: ByteMap, staged: ByteMap, bytes: ByteMap)
    requires TreeOk(workspaces, files) && Mirrors(workspaces, files, contents) && ValidSegment(file.name)
    requires Accepted(files, file.id, file.parentID, file.name)
    requires PlansMove(workspaces, files, contents, file.id, file.parentID, file.name, rs)
    requires KeysOfPlan(keys, rs) && Carried(was, staged, bytes, rs)
    ensures var after := Moved(files, file.id, file.parentID, file.name);
            && TreeOk(workspaces, after) && Mirrors(workspaces, after, Rekeyed(contents, keys))
            && ReadsKept(files, contents, was, after, Rekeyed(contents, keys), bytes)
  {
    var after := Moved(files, file.id, file.parentID, file.name);
    if file.parentID == files[file.id].parentID && file.name == files[file.id].name {
      NothingMoved(files, file.id);
      assert Rekeyed(contents, keys) == contents;
      assert bytes == was;
    } else {
      RekeyedIsRelocated(workspaces, files, contents, file.id, file.parentID, file.name, rs, keys);
      MoveKeepsMirror(workspaces, files, contents, file.id, file.parentID, file.name, Rekeyed(contents, keys));
      forall k | Live(files, k)
        ensures k in after && ReadIn(after, Rekeyed(contents, keys), bytes, k) == ReadIn(files, contents, was, k)
      {
        MoveKeepsReads(workspaces, files, contents, file.id, file.parentID, file.name, rs, keys, was, staged, bytes, k);
      }
    }
  }

  // ---------------------------------------------------------------- a move stopped anywhere

  /** The copies of an accepted move, before the update: nobody reads at the new keys yet. */
  lemma StagingKeepsReads(
    workspaces: Workspaces, files: Files, contents: Contents, file: Node, rs: seq<Relocation>,
    was: ByteMap, bytes: ByteMap)
    requires TreeOk(workspaces, files) && Mirrors(workspaces, files, contents) && ValidSegment(file.name)
    requires Accepted(files, file.id, file.parentID, file.name)
    requires PlansMove(workspaces, files, contents, file.id, file.parentID, file.name, rs)
    requires Extends(was, bytes, CopiedTo(rs))
    ensures ReadsKept(files, contents, was, files, contents, bytes)
  {
    if file.parentID == files[file.id].parentID && file.name == files[file.id].name {
      assert CopiedTo(rs) == {};
      assert bytes == was;
    } else {
      forall k | Live(files, k) ensures ReadIn(files, contents, bytes, k) == ReadIn(files, contents, was, k) {
        StagedReads(workspaces, files, contents, file.id, file.parentID, file.name, rs, was, bytes, k);
      }
    }
  }

  lemma MoveStaged(
    workspaces: Workspaces, files: Files, contents: Contents, file: Node, rs: seq<Relocation>,
    before: seq<Stop<Metadata>>, mid: seq<Stop<Metadata>>, was: ByteMap)
    requires TreeOk(workspaces, files) && Mirrors(workspaces, files, contents) && ValidSegment(file.name)
    requires Accepted(files, file.id, file.parentID, file.name)
    requires PlansMove(workspaces, files, contents, file.id, file.parentID, file.name, rs)
    requires TrailExtends(before, mid, Metadata(files, contents), was, CopiedTo(rs))
    ensures ReadsThrough(before, mid, files, contents, was)
  {
    forall i | |before| <= i < |mid| ensures ReadsKeptAt(files, contents, was, mid[i]) {
      StagingKeepsReads(workspaces, files, contents, file, rs, was, mid[i].bytes);
    }
  }

  /** The trail of a commit and of the clean-up after it. */
  ghost predicate CommitThenCleanup(
    mid: seq<Stop<Metadata>>, after: seq<Stop<Metadata>>, moved: Metadata, staged: ByteMap, rs: seq<Relocation>)
  {
    TrailShrinks(mid + [Stop(moved, staged)], after, moved, staged, CopiedFrom(rs))
  }

  lemma MoveCleanedUp(
    workspaces: Workspaces, files: Files, contents: Contents, file: Node, rs: seq<Relocation>, keys: map<nat, string>,
    mid: seq<Stop<Metadata>>, after: seq<Stop<Metadata>>, was: ByteMap, staged: ByteMap)
    requires TreeOk(workspaces, files) && Mirrors(workspaces, files, contents) && ValidSegment(file.name)
    requires Accepted(files, file.id, file.parentID, file.name)
    requires PlansMove(workspaces, files, contents, file.id, file.parentID, file.name, rs)
    requires KeysOfPlan(keys, rs) && AllStaged(was, staged, rs)
    requires CommitThenCleanup(mid, after, Metadata(Moved(files, file.id, file.parentID, file.name),
                                                    Rekeyed(contents, keys)), staged, rs)
    ensures ReadsThrough(mid, after, files, contents, was)
  {
    var moved := Metadata(Moved(files, file.id, file.parentID, file.name), Rekeyed(contents, keys));
    forall i | |mid| <= i < |after| ensures ReadsKeptAt(files, contents, was, after[i]) {
      if i == |mid| {
        assert after[i] == (mid + [Stop(moved, staged)])[i];
      }
      MoveDone(workspaces, files, contents, file, rs, keys, was, staged, after[i].bytes);
    }
  }

  /** A committed move, stopped anywhere: before, at or after its update. */
  lemma MoveReadsThrough(
    workspaces: Workspaces, files: Files, contents: Contents, file: Node, rs: seq<Relocation>, keys: map<nat, string>,
    before: seq<Stop<Metadata>>, mid: seq<Stop<Metadata>>, after: seq<Stop<Metadata>>, was: ByteMap, staged: ByteMap)
    requires TreeOk(workspaces, files) && Mirrors(workspaces, files, contents) && ValidSegment(file.name)
    requires Accepted(files, file.id, file.parentID, file.name)
    requires PlansMove(workspaces, files, contents, file.id, file.parentID, file.name, rs)
    requires KeysOfPlan(keys, rs) && AllStaged(was, staged, rs)
    requires TrailExtends(before, mid, Metadata(files, contents), was, CopiedTo(rs))
    requires CommitThenCleanup(mid, after, Metadata(Moved(files, file.id, file.parentID, file.name),
                                                    Rekeyed(contents, keys)), staged, rs)
    ensures ReadsThrough(before, after, files, contents, was)
  {
    MoveStaged(workspaces, files, contents, file, rs, before, mid, was);
    MoveCleanedUp(workspaces, files, contents, file, rs, keys, mid, after, was, staged);
    assert forall i | |before| <= i < |mid| :: after[i] == mid[i];
  }

  // ---------------------------------------------------------------- when a move can be staged

  /** No bytes are in the way of a row's new key. */
  ghost predicate DestinationsFree(
    workspaces: Workspaces, files: Files, contents: Contents, bytes: ByteMap, id: nat, parent: Option<nat>,
    name: string)
    requires TreeOk(workspaces, files) && Live(files, id) && (parent.Some? ==> Live(files, parent.value))
  {
    || (parent == files[id].parentID && name == files[id].name)
    || forall c | c in SubtreeContents(files, contents, id) ::
         NewSlot(workspaces, files, contents, id, parent, name, c) !in bytes
  }

  ghost function NewSlot(
    workspaces: Workspaces, files: Files, contents: Contents, id: nat, parent: Option<nat>, name: string, c: nat): Slot
    requires TreeOk(workspaces, files) && Live(files, id) && (parent.Some? ==> Live(files, parent.value))
    requires c in contents
  {
    Slot(contents[c].Backend(),
         SwapRoot(contents[c].storageKey, OldRoot(workspaces, files, id), NewRoot(workspaces, files, id, parent, name)))
  }

  lemma BlockedMeans(
    workspaces: Workspaces, files: Files, contents: Contents, file: Node, rs: seq<Relocation>, was: ByteMap)
    requires TreeOk(workspaces, files) && Mirrors(workspaces, files, contents) && ValidSegment(file.name)
    requires Accepted(files, file.id, file.parentID, file.name)
    requires PlansMove(workspaces, files, contents, file.id, file.parentID, file.name, rs)
    ensures Blocked(was, rs) <==>
            !DestinationsFree(workspaces, files, contents, was, file.id, file.parentID, file.name)
  {
    if file.parentID != files[file.id].parentID || file.name != files[file.id].name {
      PlanSeparates(workspaces, files, contents, file.id, file.parentID, file.name, rs);
      PlanTargets(workspaces, files, contents, file.id, file.parentID, file.name, rs);
      if Blocked(was, rs) {
        var i :| 0 <= i < |rs| && BlockedAt(was, rs, i);
        assert rs[i].contentID in SubtreeContents(files, contents, file.id) && rs[i].To() in was;
      } else {
        forall c | c in SubtreeContents(files, contents, file.id)
          ensures NewSlot(workspaces, files, contents, file.id, file.parentID, file.name, c) !in was
        {
          var i :| 0 <= i < |rs| && rs[i].contentID == c;
          assert !BlockedAt(was, rs, i);
        }
      }
    }
  }

  lemma PlanTargets(
    workspaces: Workspaces, files: Files, contents: Contents, id: nat, parent: Option<nat>, name: string,
    rs: seq<Relocation>)
    requires TreeOk(workspaces, files) && Live(files, id) && (parent.Some? ==> Live(files, parent.value))
    requires IsPlan(files, contents, id, OldRoot(workspaces, files, id), NewRoot(workspaces, files, id, parent, name),
                    rs)
    ensures forall i | 0 <= i < |rs| ::
              && rs[i].contentID in contents && rs[i].From() == SlotOf(contents[rs[i].contentID])
              && rs[i].To() == NewSlot(workspaces, files, contents, id, parent, name, rs[i].contentID)
  {
    forall i | 0 <= i < |rs|
      ensures rs[i].contentID in contents && rs[i].From() == SlotOf(contents[rs[i].contentID])
      ensures rs[i].To() == NewSlot(workspaces, files, contents, id, parent, name, rs[i].contentID)
    {
      assert Plans(contents, rs[i], OldRoot(workspaces, files, id), NewRoot(workspaces, files, id, parent, name));
    }
  }

  /** What is staged is not blocked. */
  lemma StagedIsUnblocked(was: ByteMap, bytes: ByteMap, rs: seq<Relocation>)
    requires AllStaged(was, bytes, rs) && Separate(rs)
    ensures !Blocked(was, rs)
  {
    forall i | 0 <= i < |rs| ensures !BlockedAt(was, rs, i) {
      assert Staged(was, bytes, rs[i]);
    }
  }

  /** After a clean-up without faults nothing is left at a key the move has left behind. */
  lemma OldSlotsEmpty(
    workspaces: Workspaces, files: Files, contents: Contents, id: nat, parent: Option<nat>, name: string,
    rs: seq<Relocation>, was: ByteMap, staged: ByteMap, c: nat)
    requires RealMove(workspaces, files, id, parent, name) && Mirrors(workspaces, files, contents)
    requires IsPlan(files, contents, id, OldRoot(workspaces, files, id), NewRoot(workspaces, files, id, parent, name),
                    rs)
    requires AllStaged(was, staged, rs) && c in SubtreeContents(files, contents, id)
    ensures SlotOf(contents[c]) !in staged - CopiedFrom(rs)
  {
    PlanSeparates(workspaces, files, contents, id, parent, name, rs);
    PlanTargets(workspaces, files, contents, id, parent, name, rs);
    var i :| 0 <= i < |rs| && rs[i].contentID == c;
    assert rs[i] in rs && forall j | 0 <= j < |rs| :: rs[j].To() != rs[i].From();
    assert Staged(was, staged, rs[i]);
  }

  // ---------------------------------------------------------------- changes that move nothing

  /** What is live afterwards was live before, in the same place. */
  ghost predicate StaysPut(files: Files, after: Files) {
    forall k | Live(after, k) ::
      Live(files, k) && SameTree(after[k], files[k]) && after[k].parentID == files[k].parentID
          && after[k].name == files[k].name
  }

  lemma {:induction false} PathStays(files: Files, after: Files, k: nat)
    requires Forest(files) && Forest(after) && StaysPut(files, after) && Live(after, k)
    ensures PathOf(after, k) == PathOf(files, k)
    decreases Rank(after)[k]
  {
    if after[k].parentID.Some? {
      PathStays(files, after, after[k].parentID.value);
    }
  }

  lemma StillTree(workspaces: Workspaces, files: Files, after: Files)
    requires TreeOk(workspaces, files) && Forest(after) && StaysPut(files, after)
    ensures TreeOk(workspaces, after)
    ensures forall k | Live(after, k) :: KeyOf(workspaces, after, k) == KeyOf(workspaces, files, k)
  {
    forall k | Live(after, k) ensures NodeOk(workspaces, after[k]) && PathOf(after, k) == PathOf(files, k) {
      assert NodeOk(workspaces, files[k]);
      PathStays(files, after, k);
    }
  }

  lemma CreateDone(workspaces: Workspaces, files: Files, contents: Contents, n: Node)
    requires TreeOk(workspaces, files) && Mirrors(workspaces, files, contents)
    requires n.id !in files && !n.deleted && ParentFits(files, n) && NodeOk(workspaces, n) && !PlaceTaken(files, n)
    requires n.currentContentID == None
    ensures TreeOk(workspaces, files[n.id := n]) && Mirrors(workspaces, files[n.id := n], contents)
  {
    InsertKeepsForest(files, n);
    var after := files[n.id := n];
    forall k | Live(files, k) ensures Live(after, k) && PathOf(files, k) == PathOf(after, k) {
      PathStays(after, files, k);
    }
  }

  /** The row a save writes: the current one in place, or a first one. */
  ghost predicate SavedAs(files: Files, contents: Contents, id: nat, content: Content, row: Content)
    requires id in files
  {
    && row == content.(id := row.id, fileID := id, version := row.version)
    && if files[id].currentContentID.Some? then
         row.id == files[id].currentContentID.value && row.id in contents && row.version == contents[row.id].version
       else row.id !in contents && row.version == 1
  }

  lemma PointedIsForest(files: Files, id: nat, c: nat)
    requires Forest(files) && Live(files, id)
    ensures Forest(Pointed(files, id, c)) && StaysPut(files, Pointed(files, id, c))
    ensures StaysPut(Pointed(files, id, c), files)
  {
    SameParentsSameRank(files, Pointed(files, id, c));
  }

  lemma PointedIsTree(workspaces: Workspaces, files: Files, id: nat, c: nat)
    requires TreeOk(workspaces, files) && Live(files, id)
    ensures TreeOk(workspaces, Pointed(files, id, c))
    ensures forall k | Live(files, k) :: Live(Pointed(files, id, c), k)
              && KeyOf(workspaces, Pointed(files, id, c), k) == KeyOf(workspaces, files, k)
  {
    PointedIsForest(files, id, c);
    StillTree(workspaces, files, Pointed(files, id, c));
  }

  lemma SaveKeepsMirror(workspaces: Workspaces, files: Files, contents: Contents, id: nat, content: Content,
                        row: Content)
    requires TreeOk(workspaces, files) && Mirrors(workspaces, files, contents) && Live(files, id)
    requires SavedAs(files, contents, id, content, row) && content.storageKey == KeyOf(workspaces, files, id)
    ensures TreeOk(workspaces, Pointed(files, id, row.id))
    ensures Mirrors(workspaces, Pointed(files, id, row.id), contents[row.id := row])
  {
    var after, rows := Pointed(files, id, row.id), contents[row.id := row];
    PointedIsTree(workspaces, files, id, row.id);
    forall k | Live(after, k) && after[k].currentContentID.Some?
      ensures var c := after[k].currentContentID.value;
              c in rows && rows[c].fileID == k && rows[c].storageKey == KeyOf(workspaces, after, k)
    {
      assert Live(files, k);
    }
  }

  /** A save changes what its own file reads, and no other. */
  lemma SaveReads(workspaces: Workspaces, files: Files, contents: Contents, id: nat, content: Content, row: Content,
                  bytes: ByteMap)
    requires TreeOk(workspaces, files) && Mirrors(workspaces, files, contents) && Live(files, id)
    requires SavedAs(files, contents, id, content, row)
    ensures forall k | Live(files, k) ::
              ReadIn(Pointed(files, id, row.id), contents[row.id := row], bytes, k) ==
              if k == id then Relocations.Lookup(bytes, SlotOf(row)) else ReadIn(files, contents, bytes, k)
  {
  }

  /** A write through states it may be stopped in. */
  ghost predicate WritesThrough(before: seq<Stop<Metadata>>, after: seq<Stop<Metadata>>,
                                files: Files, contents: Contents, bytes: ByteMap, id: nat, data: Bytes)
  {
    before <= after && forall i | |before| <= i < |after| :: WriteStop(files, contents, bytes, id, data, after[i])
  }

  lemma WritesOneMore(before: seq<Stop<Metadata>>, after: seq<Stop<Metadata>>, files: Files, contents: Contents,
                      bytes: ByteMap, id: nat, data: Bytes, stop: Stop<Metadata>)
    requires WritesThrough(before, after, files, contents, bytes, id, data)
    requires WriteStop(files, contents, bytes, id, data, stop)
    ensures WritesThrough(before, after + [stop], files, contents, bytes, id, data)
  {
  }

  /** Bytes put at one file's key are at no other file's. */
  lemma PutStops(workspaces: Workspaces, files: Files, contents: Contents, id: nat, backend: string,
                 bytes: ByteMap, data: Bytes)
    requires TreeOk(workspaces, files) && Mirrors(workspaces, files, contents) && Live(files, id)
    ensures var after := bytes[Slot(backend, KeyOf(workspaces, files, id)) := data];
            WriteStop(files, contents, bytes, id, data, Stop(Metadata(files, contents), after))
  {
    forall k | Live(files, k) && KeyOf(workspaces, files, k) == KeyOf(workspaces, files, id) ensures k == id {
      KeyInjective(workspaces, files, k, id);
    }
  }

  /** And with the row saved, the file reads them. */
  lemma SaveStops(workspaces: Workspaces, files: Files, contents: Contents, id: nat, content: Content, row: Content,
                  bytes: ByteMap, data: Bytes)
    requires TreeOk(workspaces, files) && Mirrors(workspaces, files, contents) && Live(files, id)
    requires SavedAs(files, contents, id, content, row) && content.storageKey == KeyOf(workspaces, files, id)
    ensures var files', contents' := Pointed(files, id, row.id), contents[row.id := row];
            var after := bytes[SlotOf(content) := data];
            && WriteStop(files, contents, bytes, id, data, Stop(Metadata(files', contents'), after))
            && ReadIn(files', contents', after, id) == Some(data)
  {
    var after := bytes[SlotOf(content) := data];
    assert SlotOf(row) == SlotOf(content);
    PutStops(workspaces, files, contents, id, content.Backend(), bytes, data);
    SaveReads(workspaces, files, contents, id, content, row, after);
  }

  /** Deleting a subtree leaves the rest a mirrored tree. */
  lemma DeleteDone(workspaces: Workspaces, files: Files, contents: Contents, id: nat)
    requires TreeOk(workspaces, files) && Mirrors(workspaces, files, contents)
    ensures var after := Tombstoned(files, Subtree(files, id));
            TreeOk(workspaces, after) && Mirrors(workspaces, after, contents)
  {
    DeleteKeepsForest(files, id);
    StillTree(workspaces, files, Tombstoned(files, Subtree(files, id)));
  }

  /** No file outside a subtree has its bytes at a slot of the subtree. */
  lemma SlotsApart(workspaces: Workspaces, files: Files, contents: Contents, id: nat, c: nat, k: nat)
    requires TreeOk(workspaces, files) && Mirrors(workspaces, files, contents)
    requires c in SubtreeContents(files, contents, id) && Live(files, k) && !Under(files, k, id)
    requires files[k].currentContentID.Some?
    ensures files[k].currentContentID.value in contents
    ensures SlotOf(contents[c]) != SlotOf(contents[files[k].currentContentID.value])
  {
    var j := contents[c].fileID;
    if KeyOf(workspaces, files, j) == KeyOf(workspaces, files, k) {
      KeyInjective(workspaces, files, j, k);
    }
  }

  /** Whatever part of a deleted subtree's bytes is gone, the files that are still live read as before. */
  lemma DeleteReads(workspaces: Workspaces, files: Files, contents: Contents, id: nat, was: ByteMap, bytes: ByteMap)
    requires TreeOk(workspaces, files) && Mirrors(workspaces, files, contents)
    requires Keeps(bytes, was) && forall s | s in was && s !in bytes ::
               s in SlotsOf(contents, SubtreeContents(files, contents, id))
    ensures var after := Tombstoned(files, Subtree(files, id));
            forall k | Live(after, k) :: k in files && ReadIn(after, contents, bytes, k) ==
                ReadIn(files, contents, was, k)
  {
    var after := Tombstoned(files, Subtree(files, id));
    forall k | Live(after, k) ensures ReadIn(after, contents, bytes, k) == ReadIn(files, contents, was, k) {
      if files[k].currentContentID.Some? {
        forall c | c in SubtreeContents(files, contents, id)
          ensures SlotOf(contents[c]) != SlotOf(contents[files[k].currentContentID.value])
        {
          SlotsApart(workspaces, files, contents, id, c, k);
        }
      }
    }
  }
}
