/** The workspace file service in file storage mode: the tree, its content rows and the bytes on the
    configured backends, changed step by step. */
module DirectoryFiles {
  import opened Wrappers
  import opened Text
  import opened FileTree
  import opened FilePaths
  import opened DirectoryKeys
  import opened Relocations
  import opened StoredFiles
  import opened DirectoryMoves
  import opened FileAccess
  import opened FileRequests
  import opened DirectoryChanges

  class DirectoryFiles {
    const workspaces: Workspaces
    const storage: Storage<Metadata>
    const activeBackend: string
    const hash: Bytes -> string

    function Tree(): Files
      reads storage
    {
      storage.tables.files
    }

    function Rows(): Contents
      reads storage
    {
      storage.tables.contents
    }

    ghost predicate Valid()
      reads this, storage
    {
      activeBackend != "" && storage.Recorded() && TreeOk(workspaces, Tree()) && Mirrors(workspaces, Tree(), Rows())
    }

    constructor (workspaces: Workspaces, storage: Storage<Metadata>, activeBackend: string, hash: Bytes -> string)
      requires storage.tables == Metadata(map[], map[]) && storage.Recorded()
      ensures Valid() && this.workspaces == workspaces && this.storage == storage && this.hash == hash
      ensures this.activeBackend == if activeBackend == "" then "local" else activeBackend
    {
      this.workspaces, this.storage, this.hash := workspaces, storage, hash;
      this.activeBackend := if activeBackend == "" then DEFAULT_BACKEND else activeBackend;
      new;
      EmptyIsForest();
    }

    /** The walk up the parents. It fails exactly when the node's parent does not fit. */
    method FilePath(file: Node) returns (path: Option<seq<string>>)
      requires Valid()
      ensures path.Some? <==> ParentFits(Tree(), file)
      ensures path.Some? ==> path.value == TargetPath(Tree(), file.parentID, file.name)
    {
      var names, parentID := [file.name], file.parentID;
      while parentID.Some?
        invariant parentID != file.parentID ==> ParentFits(Tree(), file)
        invariant ParentFits(Tree(), file) ==>
                    && (parentID.Some? ==> FolderFor(Tree(), parentID.value, file))
                    && PathAbove(Tree(), parentID) + names == TargetPath(Tree(), file.parentID, file.name)
        decreases parentID.Some?, if parentID.Some? && Live(Tree(), parentID.value) then Rank(Tree())[parentID.value]
            else 0
      {
        if !Live(Tree(), parentID.value) {
          return None;
        }
        var parent := Tree()[parentID.value];
        if !SameTree(parent, file) || parent.objectType != Folder {
          return None;
        }
        StepUp(Tree(), parentID.value, file, names);
        names := [parent.name] + names;
        parentID := parent.parentID;
      }
      return Some(names);
    }

    method ContentKey(file: Node) returns (key: Option<string>)
      requires Valid() && file.workspaceID in workspaces && OwnerFits(file)
      ensures key.Some? <==> ParentFits(Tree(), file)
      ensures key.Some? ==> key.value == Join(Base(workspaces, file) + TargetPath(Tree(), file.parentID, file.name))
    {
      var names := FilePath(file);
      return if names.None? then None else Some(Join(Base(workspaces, file) + names.value));
    }

    /** The relocations of a subtree: nothing to do for an unchanged place, nothing possible for an unfit
        parent, and otherwise one for each content row. */
    method PlanRelocations(id: nat, parent: Option<nat>, name: string) returns (plan: Option<seq<Relocation>>)
      requires Valid() && Live(Tree(), id)
      ensures plan.Some? <==> ParentFits(Tree(), Tree()[id].(parentID := parent))
      ensures plan.Some? ==>
                && PlansMove(workspaces, Tree(), Rows(), id, parent, name, plan.value)
                && forall i | 0 <= i < |plan.value| :: !plan.value[i].copied
    {
      var current := Tree()[id];
      if name == current.name && parent == current.parentID {
        return Some([]);
      }
      assert NodeOk(workspaces, current);
      var oldRoot := ContentKey(current);
      if oldRoot.None? {
        return None;
      }
      var newRoot := ContentKey(current.(parentID := parent, name := name));
      if newRoot.None? {
        return None;
      }
      var rows := ListSubtreeContents(Tree(), Rows(), id);
      SubtreeIsRooted(id);
      var relocations := PlanRows(Rows(), rows, oldRoot.value, newRoot.value);
      return Some(relocations);
    }

    lemma SubtreeIsRooted(id: nat)
      requires Valid() && Live(Tree(), id)
      ensures Rooted(Rows(), SubtreeContents(Tree(), Rows(), id), OldRoot(workspaces, Tree(), id)) ==
                SubtreeContents(Tree(), Rows(), id)
    {
      forall c | c in SubtreeContents(Tree(), Rows(), id)
        ensures HasRoot(Rows()[c].storageKey, OldRoot(workspaces, Tree(), id))
      {
        SubtreeHasRoot(workspaces, Tree(), id, Rows()[c].fileID);
      }
    }

    /** The metadata update, in one transaction: all of it or none. */
    method UpdateLocation(file: Node, keys: map<nat, string>) returns (error: Option<FileError>)
      requires Valid()
      requires Live(Tree(), file.id) ==> file == Tree()[file.id].(parentID := file.parentID, name := file.name)
      modifies storage`tables, storage`trail, storage`faults
      ensures error.Some? ==> storage.tables == old(storage.tables) && storage.trail == old(storage.trail)
      ensures error.None? ==>
                && Accepted(old(Tree()), file.id, file.parentID, file.name)
                && storage.tables ==
                   Metadata(Moved(old(Tree()), file.id, file.parentID, file.name), Rekeyed(old(Rows()), keys))
                && storage.trail == old(storage.trail) + [Stop(storage.tables, storage.bytes)]
      ensures storage.faults == old(storage.faults) + if error.Some? then Faults(error.value) else 0
      ensures storage.faults == old(storage.faults) ==>
                (error.None? <==> Accepted(old(Tree()), file.id, file.parentID, file.name))
      ensures error == Some(Location(MoveCycle)) ==> ClosesCircle(old(Tree()), file)
    {
      error := CheckLocation(Tree(), file);
      if error.Some? {
        return;
      }
      var moved := Metadata(Moved(Tree(), file.id, file.parentID, file.name), Rekeyed(Rows(), keys));
      var ok := storage.Commit(moved);
      return if ok then None else Some(DatabaseFailed);
    }

    /** Plan, copy, update the metadata, then delete the old bytes; or take the copies back. */
    method Relocate(file: Node) returns (error: Option<FileError>)
      requires Valid() && Live(Tree(), file.id) && ValidSegment(file.name)
      requires file == Tree()[file.id].(parentID := file.parentID, name := file.name)
      modifies storage
      ensures Valid()
      ensures error.Some? ==>
                && storage.tables == old(storage.tables) && Keeps(old(storage.bytes), storage.bytes)
                && storage.faults >= old(storage.faults) + Faults(error.value)
                && (storage.faults == old(storage.faults) + Faults(error.value) ==>
                      storage.bytes == old(storage.bytes))
      ensures error.None? ==>
                && Accepted(old(Tree()), file.id, file.parentID, file.name)
                && Tree() == Moved(old(Tree()), file.id, file.parentID, file.name)
                && ReadsKept(old(Tree()), old(Rows()), old(storage.bytes), Tree(), Rows(), storage.bytes)
                && ReadsThrough(old(storage.trail), storage.trail, old(Tree()), old(Rows()), old(storage.bytes))
                && (storage.faults == old(storage.faults) ==>
                      OldSlotsEmptied(old(Tree()), old(Rows()), file, storage.bytes))
      ensures StoredThrough(old(storage.trail), storage.trail, old(Tree()), old(Rows()), old(storage.bytes))
      ensures storage.faults >= old(storage.faults)
      ensures storage.faults == old(storage.faults) ==>
                (error.None? <==>
                   && Accepted(old(Tree()), file.id, file.parentID, file.name)
                   && DestinationsFree(workspaces, old(Tree()), old(Rows()), old(storage.bytes),
                                       file.id, file.parentID, file.name))
      ensures error == Some(Location(MoveCycle)) ==> ClosesCircle(old(Tree()), file)
    {
      var relocations, keys, failed := StageMove(file);
      if failed.Some? {
        return failed;
      }
      ghost var staged, mid := storage.bytes, storage.trail;
      error := CommitMove(file, relocations, keys, old(storage.bytes), old(storage.trail));
      if error.None? {
        MoveDone(workspaces, old(Tree()), old(Rows()), file, relocations[..], keys, old(storage.bytes), staged,
                 storage.bytes);
        MoveReadsThrough(workspaces, old(Tree()), old(Rows()), file, relocations[..], keys,
                         old(storage.trail), mid, storage.trail, old(storage.bytes), staged);
        ReadsAreStored(old(storage.trail), storage.trail, old(Tree()), old(Rows()), old(storage.bytes));
        MoveLeavesNothing(old(Tree()), old(Rows()), file, relocations[..], old(storage.bytes), staged);
      }
    }

    /** Nothing is left at a key that a real move has left behind. */
    ghost predicate OldSlotsEmptied(files: Files, contents: Contents, file: Node, bytes: ByteMap)
      requires Forest(files) && Live(files, file.id)
    {
      || (file.parentID == files[file.id].parentID && file.name == files[file.id].name)
      || forall c | c in SubtreeContents(files, contents, file.id) :: SlotOf(contents[c]) !in bytes
    }

    lemma MoveLeavesNothing(files: Files, contents: Contents, file: Node, rs: seq<Relocation>,
                            was: ByteMap, staged: ByteMap)
      requires TreeOk(workspaces, files) && Mirrors(workspaces, files, contents) && ValidSegment(file.name)
      requires Accepted(files, file.id, file.parentID, file.name)
      requires PlansMove(workspaces, files, contents, file.id, file.parentID, file.name, rs)
      requires AllStaged(was, staged, rs)
      ensures OldSlotsEmptied(files, contents, file, staged - CopiedFrom(rs))
      ensures DestinationsFree(workspaces, files, contents, was, file.id, file.parentID, file.name)
    {
      BlockedMeans(workspaces, files, contents, file, rs, was);
      if file.parentID != files[file.id].parentID || file.name != files[file.id].name {
        PlanSeparates(workspaces, files, contents, file.id, file.parentID, file.name, rs);
        StagedIsUnblocked(was, staged, rs);
        forall c | c in SubtreeContents(files, contents, file.id)
          ensures SlotOf(contents[c]) !in staged - CopiedFrom(rs)
        {
          OldSlotsEmpty(workspaces, files, contents, file.id, file.parentID, file.name, rs, was, staged, c);
        }
      }
    }

    /** The first half: the plan and its copies. */
    method StageMove(file: Node)
      returns (relocations: array<Relocation>, keys: map<nat, string>, error: Option<FileError>)
      requires Valid() && Live(Tree(), file.id) && ValidSegment(file.name)
      requires file == Tree()[file.id].(parentID := file.parentID, name := file.name)
      modifies storage`bytes, storage`trail, storage`faults
      ensures fresh(relocations) && storage.Recorded() && Keeps(old(storage.bytes), storage.bytes)
      ensures StoredThrough(old(storage.trail), storage.trail, Tree(), Rows(), old(storage.bytes))
      ensures error.Some? ==>
                && storage.faults >= old(storage.faults) + Faults(error.value)
                && (storage.faults == old(storage.faults) + Faults(error.value) ==>
                      storage.bytes == old(storage.bytes))
      ensures error.None? ==>
                && storage.faults == old(storage.faults)
                && ParentFits(Tree(), Tree()[file.id].(parentID := file.parentID))
                && PlansMove(workspaces, Tree(), Rows(), file.id, file.parentID, file.name, relocations[..])
                && KeysOfPlan(keys, relocations[..]) && AllStaged(old(storage.bytes), storage.bytes, relocations[..])
                && TrailExtends(old(storage.trail), storage.trail, storage.tables, old(storage.bytes),
                                CopiedTo(relocations[..]))
      ensures error.Some? && storage.faults == old(storage.faults) ==>
                !(&& Accepted(Tree(), file.id, file.parentID, file.name)
                  && DestinationsFree(workspaces, Tree(), Rows(), old(storage.bytes),
                                      file.id, file.parentID, file.name))
      ensures error != Some(Location(MoveCycle))
    {
      keys := map[];
      var plan := PlanRelocations(file.id, file.parentID, file.name);
      if plan.None? {
        relocations := new Relocation[0];
        return relocations, keys, Some(Location(InvalidParent));
      }
      var failed;
      relocations, failed := StagePlan(plan.value);
      ExtendingStores(old(storage.trail), storage.trail, Tree(), Rows(), old(storage.bytes), CopiedTo(relocations[..]));
      MarkedPlansMove(workspaces, Tree(), Rows(), file.id, file.parentID, file.name, plan.value, relocations[..]);
      if failed.Some? {
        if Accepted(Tree(), file.id, file.parentID, file.name) {
          BlockedMeans(workspaces, Tree(), Rows(), file, relocations[..], old(storage.bytes));
        }
        return relocations, keys, Some(StorageFailed(failed.value));
      }
      keys := KeysOf(relocations);
      return relocations, keys, None;
    }

    /** The copies of a plan. */
    method StagePlan(plan: seq<Relocation>) returns (relocations: array<Relocation>, error: Option<StageError>)
      requires storage.Recorded() && forall i | 0 <= i < |plan| :: !plan[i].copied
      modifies storage`bytes, storage`trail, storage`faults
      ensures fresh(relocations) && SameButCopied(relocations[..], plan) && storage.Recorded()
      ensures Keeps(old(storage.bytes), storage.bytes)
      ensures TrailExtends(old(storage.trail), storage.trail, storage.tables, old(storage.bytes),
                           CopiedTo(relocations[..]))
      ensures error.None? ==>
                storage.faults == old(storage.faults) && AllStaged(old(storage.bytes), storage.bytes, relocations[..])
      ensures error.Some? ==>
                && storage.faults >= old(storage.faults) + StageFaults(error.value)
                && (storage.faults == old(storage.faults) + StageFaults(error.value) ==>
                      storage.bytes == old(storage.bytes))
      ensures error == Some(DestinationExists) ==> Blocked(old(storage.bytes), relocations[..])
    {
      relocations := new Relocation[|plan|](i requires 0 <= i < |plan| => plan[i]);
      assert relocations[..] == plan;
      error := StageRelocations(storage, relocations);
    }

    /** The second half: the metadata update, then the clean-up, or the rollback of the copies. */
    method CommitMove(file: Node, relocations: array<Relocation>, keys: map<nat, string>,
                      ghost was: ByteMap, ghost before: seq<Stop<Metadata>>)
      returns (error: Option<FileError>)
      requires Valid()
      requires Live(Tree(), file.id) ==> file == Tree()[file.id].(parentID := file.parentID, name := file.name)
      requires AllStaged(was, storage.bytes, relocations[..])
      requires TrailExtends(before, storage.trail, storage.tables, was, CopiedTo(relocations[..]))
      modifies storage
      ensures storage.Recorded() && storage.faults >= old(storage.faults)
      ensures error.Some? ==>
                && storage.tables == old(storage.tables) && Keeps(was, storage.bytes)
                && storage.faults >= old(storage.faults) + Faults(error.value)
                && (storage.faults == old(storage.faults) + Faults(error.value) ==> storage.bytes == was)
                && StoredThrough(before, storage.trail, old(Tree()), old(Rows()), was)
      ensures error.None? ==>
                && Accepted(old(Tree()), file.id, file.parentID, file.name)
                && storage.tables ==
                   Metadata(Moved(old(Tree()), file.id, file.parentID, file.name), Rekeyed(old(Rows()), keys))
                && Carried(was, old(storage.bytes), storage.bytes, relocations[..])
                && CommitThenCleanup(old(storage.trail), storage.trail, storage.tables, old(storage.bytes),
                                     relocations[..])
                && (storage.faults == old(storage.faults) ==>
                      storage.bytes == old(storage.bytes) - CopiedFrom(relocations[..]))
      ensures storage.faults == old(storage.faults) ==>
                (error.None? <==> Accepted(old(Tree()), file.id, file.parentID, file.name))
      ensures error == Some(Location(MoveCycle)) ==> ClosesCircle(old(Tree()), file)
    {
      ghost var mid := storage.trail;
      error := UpdateLocation(file, keys);
      if error.Some? {
        RollbackMove(relocations, was, before);
      } else {
        FinishMove(relocations, was, mid);
      }
    }

    method FinishMove(relocations: array<Relocation>, ghost was: ByteMap, ghost mid: seq<Stop<Metadata>>)
      requires storage.Recorded() && AllStaged(was, storage.bytes, relocations[..])
      requires storage.trail == mid + [Stop(storage.tables, storage.bytes)]
      modifies storage`bytes, storage`trail, storage`faults
      ensures storage.Recorded() && storage.faults >= old(storage.faults)
      ensures Carried(was, old(storage.bytes), storage.bytes, relocations[..])
      ensures CommitThenCleanup(mid, storage.trail, storage.tables, old(storage.bytes), relocations[..])
      ensures storage.faults == old(storage.faults) ==>
                storage.bytes == old(storage.bytes) - CopiedFrom(relocations[..])
    {
      FinishRelocations(storage, relocations);
    }

    method RollbackMove(relocations: array<Relocation>, ghost was: ByteMap, ghost before: seq<Stop<Metadata>>)
      requires storage.Recorded() && AllStaged(was, storage.bytes, relocations[..])
      requires TrailExtends(before, storage.trail, storage.tables, was, CopiedTo(relocations[..]))
      modifies storage`bytes, storage`trail, storage`faults
      ensures storage.Recorded() && storage.faults >= old(storage.faults) && Keeps(was, storage.bytes)
      ensures storage.faults == old(storage.faults) ==> storage.bytes == was
      ensures StoredThrough(before, storage.trail, Tree(), Rows(), was)
    {
      ghost var staged, trail := storage.bytes, storage.trail;
      RollbackRelocations(storage, relocations, relocations.Length);
      assert relocations[..relocations.Length] == relocations[..];
      RollbackUndoes(was, staged, storage.bytes, relocations[..]);
      TakingBackExtends(before, trail, storage.trail, storage.tables, was, staged, CopiedTo(relocations[..]));
      ExtendingStores(before, storage.trail, Tree(), Rows(), was, CopiedTo(relocations[..]));
    }

    /** When a move succeeds, as long as no call fails. */
    ghost predicate MayMove(files: Files, contents: Contents, bytes: ByteMap,
                            scope: Scope, id: nat, name: Option<string>, parent: Option<Option<nat>>)
      requires TreeOk(workspaces, files)
    {
      && MayUpdate(files, scope, id, name, parent) && RequestedPlaceIsFree(files, id, name, parent)
      && DestinationsFree(workspaces, files, contents, bytes, id,
                          if parent.Some? then parent.value else files[id].parentID,
                          if name.Some? then TrimSpace(name.value) else files[id].name)
    }

    /** Rename, move, or both. A failure leaves the tree and the rows as they were and loses no bytes; it
        leaves exactly the old bytes when no call fails besides the one it reports. After a success every
        live file reads what it read before, at the key of its new path. Wherever the call stops in between,
        every file that had its bytes reads them, and in a call that succeeds every file reads what it read. */
    method Update(scope: Scope, id: nat, name: Option<string>, parent: Option<Option<nat>>)
      returns (r: Result<Node, FileError>)
      requires Valid()
      modifies storage
      ensures Valid()
      ensures r.Failure? ==>
                && storage.tables == old(storage.tables) && Keeps(old(storage.bytes), storage.bytes)
                && storage.faults >= old(storage.faults) + Faults(r.error)
                && (storage.faults == old(storage.faults) + Faults(r.error) ==> storage.bytes == old(storage.bytes))
      ensures r.Success? ==>
                && AuthorizedFile(old(Tree()), scope, id).Success?
                && r.value.parentID == (if parent.Some? then parent.value else old(Tree())[id].parentID)
                && r.value.name == (if name.Some? then TrimSpace(name.value) else old(Tree())[id].name)
                && r.value == old(Tree())[id].(parentID := r.value.parentID, name := r.value.name)
                && Tree() == old(Tree())[id := r.value] && Accepted(old(Tree()), id, r.value.parentID, r.value.name)
                && ReadsKept(old(Tree()), old(Rows()), old(storage.bytes), Tree(), Rows(), storage.bytes)
                && ReadsThrough(old(storage.trail), storage.trail, old(Tree()), old(Rows()), old(storage.bytes))
                && (storage.faults == old(storage.faults) ==>
                      OldSlotsEmptied(old(Tree()), old(Rows()), r.value, storage.bytes))
      ensures StoredThrough(old(storage.trail), storage.trail, old(Tree()), old(Rows()), old(storage.bytes))
      ensures storage.faults == old(storage.faults) ==>
                (r.Success? <==> MayMove(old(Tree()), old(Rows()), old(storage.bytes), scope, id, name, parent))
      ensures r == Failure(Location(MoveCycle)) <==> CyclicMove(old(Tree()), scope, id, name, parent)
    {
      r := CheckUpdate(Tree(), scope, id, name, parent);
      if r.Failure? {
        return;
      }
      assert NodeOk(workspaces, Tree()[id]);
      AcceptedMeans(Tree(), scope, id, name, parent, r.value);
      var failed := Relocate(r.value);
      if failed.Some? {
        return Failure(failed.value);
      }
    }

    lemma AcceptedMeans(files: Files, scope: Scope, id: nat, name: Option<string>, parent: Option<Option<nat>>,
                        file: Node)
      requires TreeOk(workspaces, files) && MayUpdate(files, scope, id, name, parent)
      requires file == files[id].(parentID := file.parentID, name := file.name)
      requires file.parentID == if parent.Some? then parent.value else files[id].parentID
      requires file.name == if name.Some? then TrimSpace(name.value) else files[id].name
      ensures Accepted(files, id, file.parentID, file.name) <==> RequestedPlaceIsFree(files, id, name, parent)
    {
      PlaceTakenMeans(files, id, file.parentID, file.name);
      PlaceTakenIsNotFree(files, id, name, parent, file);
    }

    /** Insert a file or folder. It starts without content, and no other file is touched. */
    method Create(scope: Scope, parent: Option<nat>, objectType: string, name: string, mediaType: string,
                  fileKind: string)
      returns (r: Result<Node, FileError>)
      requires Valid() && scope.workspaceID in workspaces && WorkspaceOk(workspaces[scope.workspaceID])
      modifies storage`tables, storage`trail, storage`faults
      ensures Valid()
      ensures r.Failure? ==> storage.tables == old(storage.tables)
      ensures r.Success? ==>
                && r.value.id !in old(Tree())
                && storage.tables == Metadata(old(Tree())[r.value.id := r.value], old(Rows()))
                && r.value ==
                   Node(r.value.id, scope.workspaceID, parent, scope.visibility, OwnerOf(scope),
                        if objectType == "folder" then Folder else File, TrimSpace(name), TrimSpace(mediaType),
                        TrimSpace(fileKind), None, false)
      ensures storage.faults == old(storage.faults) ==>
                (r.Success? <==> MayCreate(old(Tree()), scope, parent, objectType, name, mediaType, fileKind))
    {
      r := CheckCreate(Tree(), scope, parent, objectType, name, mediaType, fileKind);
      if r.Failure? {
        return;
      }
      CreateDone(workspaces, Tree(), Rows(), r.value);
      var ok := storage.Commit(Metadata(Tree()[r.value.id := r.value], Rows()));
      if !ok {
        return Failure(DatabaseFailed);
      }
    }

    /** New bytes for a file. Existing content is replaced only by a caller who knows its hash; wherever the
        call stops, other files keep their bytes and the file reads the old ones or the new; a failed write
        leaves the metadata alone. */
    method WriteContent(scope: Scope, id: nat, expectedHash: string, data: Bytes)
      returns (r: Result<Content, FileError>)
      requires Valid()
      modifies storage
      ensures Valid()
      ensures r.Failure? ==> storage.tables == old(storage.tables)
      ensures WriteStop(old(Tree()), old(Rows()), old(storage.bytes), id, data, Stop(storage.tables, storage.bytes))
      ensures WritesThrough(old(storage.trail), storage.trail, old(Tree()), old(Rows()), old(storage.bytes), id, data)
      ensures r.Success? ==>
                && MayWrite(old(Tree()), old(Rows()), old(storage.bytes), hash, scope, id, expectedHash)
                && Tree() == old(Tree())[id := old(Tree())[id].(currentContentID := Some(r.value.id))]
                && Rows() == old(Rows())[r.value.id := r.value]
                && SavedAs(old(Tree()), old(Rows()), id,
                           Content(0, id, 0, activeBackend, KeyOf(workspaces, old(Tree()), id), hash(data)), r.value)
                && ReadIn(Tree(), Rows(), storage.bytes, id) == Some(data)
      ensures storage.faults == old(storage.faults) ==>
                (r.Success? <==> MayWrite(old(Tree()), old(Rows()), old(storage.bytes), hash, scope, id, expectedHash))
    {
      var refused := CheckWrite(Tree(), Rows(), storage, hash, scope, id, expectedHash);
      if refused.Some? {
        return Failure(refused.value);
      }
      var file := Tree()[id];
      assert NodeOk(workspaces, file);
      var key := ContentKey(file);
      var available := storage.Open(activeBackend);
      if key.None? || !available {
        return Failure(StorageFailed(BackendUnavailable));
      }
      r := StoreContent(id, key.value, data);
    }

    /** Bytes first, then the row. */
    method StoreContent(id: nat, key: string, data: Bytes) returns (r: Result<Content, FileError>)
      requires Valid() && Live(Tree(), id) && Tree()[id].objectType == File && key == KeyOf(workspaces, Tree(), id)
      modifies storage
      ensures Valid()
      ensures r.Failure? ==> storage.tables == old(storage.tables) && storage.faults == old(storage.faults) + 1
      ensures WriteStop(old(Tree()), old(Rows()), old(storage.bytes), id, data, Stop(storage.tables, storage.bytes))
      ensures WritesThrough(old(storage.trail), storage.trail, old(Tree()), old(Rows()), old(storage.bytes), id, data)
      ensures r.Success? ==>
                && storage.faults == old(storage.faults)
                && Tree() == old(Tree())[id := old(Tree())[id].(currentContentID := Some(r.value.id))]
                && Rows() == old(Rows())[r.value.id := r.value]
                && SavedAs(old(Tree()), old(Rows()), id, Content(0, id, 0, activeBackend, key, hash(data)), r.value)
                && ReadIn(Tree(), Rows(), storage.bytes, id) == Some(data)
    {
      ghost var files, contents, was, before := Tree(), Rows(), storage.bytes, storage.trail;
      var ok := storage.Put(Slot(activeBackend, key), data);
      if !ok {
        return Failure(StorageFailed(CannotWrite));
      }
      PutStops(workspaces, files, contents, id, activeBackend, was, data);
      WritesOneMore(before, before, files, contents, was, id, data, Stop(storage.tables, storage.bytes));
      ghost var trail := storage.trail;
      var content := Content(0, id, 0, activeBackend, key, hash(data));
      r := SaveContent(id, content);
      if r.Success? {
        SaveStops(workspaces, files, contents, id, content, r.value, was, data);
        WritesOneMore(before, trail, files, contents, was, id, data, Stop(storage.tables, storage.bytes));
      }
    }

    /** The transaction that records new content: the row in place, or a first row. */
    method SaveContent(id: nat, content: Content) returns (r: Result<Content, FileError>)
      requires Valid() && Live(Tree(), id) && Tree()[id].objectType == File
      requires content.storageKey == KeyOf(workspaces, Tree(), id)
      modifies storage`tables, storage`trail, storage`faults
      ensures Valid()
      ensures storage.faults == old(storage.faults) + if r.Success? then 0 else 1
      ensures r.Failure? ==> storage.tables == old(storage.tables) && storage.trail == old(storage.trail)
      ensures r.Success? ==>
                && storage.tables == Metadata(Pointed(old(Tree()), id, r.value.id), old(Rows())[r.value.id := r.value])
                && SavedAs(old(Tree()), old(Rows()), id, content, r.value)
                && storage.trail == old(storage.trail) + [Stop(storage.tables, storage.bytes)]
    {
      var row;
      if Tree()[id].currentContentID.Some? {
        var current := Rows()[Tree()[id].currentContentID.value];
        row := content.(id := current.id, fileID := id, version := current.version);
      } else {
        var unused := UnusedID(Rows().Keys);
        row := content.(id := unused, fileID := id, version := 1);
      }
      SaveKeepsMirror(workspaces, Tree(), Rows(), id, content, row);
      var saved := Metadata(Pointed(Tree(), id, row.id), Rows()[row.id := row]);
      var ok := storage.Commit(saved);
      if !ok {
        return Failure(DatabaseFailed);
      }
      assert Tree() == saved.files && Rows() == saved.contents;
      return Success(row);
    }

    ghost predicate DeletesThrough(before: seq<Stop<Metadata>>, after: seq<Stop<Metadata>>,
                                   files: Files, contents: Contents, bytes: ByteMap)
    {
      before <= after && forall i | |before| <= i < |after| :: SurvivorsRead(files, contents, bytes, after[i])
    }

    /** Tombstone a subtree, then delete its bytes; the rows stay. Files outside it never lose anything,
        wherever the call stops, and nothing at all happens before the metadata changes. */
    method Delete(scope: Scope, id: nat) returns (error: Option<FileError>)
      requires Valid()
      modifies storage
      ensures Valid() && Rows() == old(Rows())
      ensures Tree() == old(Tree()) || Tree() == Tombstoned(old(Tree()), Subtree(old(Tree()), id))
      ensures Tree() == old(Tree()) ==> storage.bytes == old(storage.bytes)
      ensures SurvivorsRead(old(Tree()), old(Rows()), old(storage.bytes), Stop(storage.tables, storage.bytes))
      ensures DeletesThrough(old(storage.trail), storage.trail, old(Tree()), old(Rows()), old(storage.bytes))
      ensures error.None? ==>
                && AuthorizedFile(old(Tree()), scope, id).Success?
                && Tree() == Tombstoned(old(Tree()), Subtree(old(Tree()), id))
                && storage.bytes == old(storage.bytes) - SlotsOf(Rows(), SubtreeContents(old(Tree()), Rows(), id))
      ensures storage.faults == old(storage.faults) ==>
                (error.None? <==> AuthorizedFile(old(Tree()), scope, id).Success?)
    {
      var authorized := AuthorizedFile(Tree(), scope, id);
      if authorized.Failure? {
        return Some(authorized.error);
      }
      var rows := ListSubtreeContents(Tree(), Rows(), id);
      var available := AllAvailable(storage, Rows(), rows);
      if !available {
        return Some(StorageFailed(BackendUnavailable));
      }
      var subtree := ListSubtree(Tree(), id);
      DeleteDone(workspaces, Tree(), Rows(), id);
      assert id in subtree;
      var ok := storage.Commit(Metadata(Tombstoned(Tree(), subtree), Rows()));
      if !ok {
        return Some(DatabaseFailed);
      }
      error := DeleteSubtreeBytes(id, rows, old(Tree()), old(storage.bytes), old(storage.trail));
    }

    method DeleteSubtreeBytes(id: nat, rows: set<nat>, ghost files: Files, ghost was: ByteMap,
                              ghost before: seq<Stop<Metadata>>)
      returns (error: Option<FileError>)
      requires Valid() && TreeOk(workspaces, files) && Mirrors(workspaces, files, Rows())
      requires Tree() == Tombstoned(files, Subtree(files, id)) && rows == SubtreeContents(files, Rows(), id)
      requires storage.bytes == was && storage.trail == before + [Stop(storage.tables, was)]
      modifies storage`bytes, storage`trail, storage`faults
      ensures Valid() && SurvivorsRead(files, Rows(), was, Stop(storage.tables, storage.bytes))
      ensures DeletesThrough(before, storage.trail, files, Rows(), was)
      ensures error.None? ==> storage.bytes == was - SlotsOf(Rows(), rows)
      ensures storage.faults == old(storage.faults) + if error.None? then 0 else 1
    {
      var deleted, gone := DeleteAll(storage, Rows(), rows);
      SlotsWithin(Rows(), gone, rows);
      DeleteReads(workspaces, files, Rows(), id, was, storage.bytes);
      forall i | |before| <= i < |storage.trail|
        ensures SurvivorsRead(files, Rows(), was, storage.trail[i])
      {
        if i == |before| {
          assert storage.trail[i] == Stop(storage.tables, was);
        }
        DeleteReads(workspaces, files, Rows(), id, was, storage.trail[i].bytes);
      }
      return if deleted then None else Some(StorageFailed(CannotWrite));
    }
  }
}
