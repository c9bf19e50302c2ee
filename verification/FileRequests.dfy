/** What the file service checks before it changes anything, in either storage mode, and the parts of its
    requests that both modes share. */
module FileRequests {
  import opened Wrappers
  import opened Text
  import opened FileTree
  import opened FilePaths
  import opened Relocations
  import opened StoredFiles
  import opened FileAccess

  // ---------------------------------------------------------------- moves that would close a circle

  /** The node's new parent is the node itself or lies below it. */
  ghost predicate ClosesCircle(files: Files, file: Node)
    requires Forest(files)
  {
    file.parentID.Some? && (file.parentID.value == file.id
                            || (ParentFits(files, file) && Under(files, file.parentID.value, file.id)))
  }

  /** What the request asks for is allowed, but the place lies in the node's own subtree. */
  ghost predicate CyclicMove(files: Files, scope: Scope, id: nat, name: Option<string>, parent: Option<Option<nat>>)
    requires Forest(files)
  {
    && AuthorizedFile(files, scope, id).Success? && (name.Some? || parent.Some?)
    && (name.Some? ==> ValidName(name.value))
    && var place := if parent.Some? then parent.value else files[id].parentID;
       && place.Some?
       && (place.value == id || (FolderFor(files, place.value, files[id]) && Under(files, place.value, id)))
  }

  lemma {:induction false} OnlyFoldersHaveDescendants(files: Files, k: nat, id: nat)
    requires Forest(files) && Live(files, k) && Under(files, k, id) && k != id
    ensures Live(files, id) && files[id].objectType == Folder
    decreases Rank(files)[k]
  {
    var p := files[k].parentID.value;
    if p != id {
      OnlyFoldersHaveDescendants(files, p, id);
    }
  }

  /** The index on live names rejects a move exactly when the place is taken. */
  predicate PlaceTaken(files: Files, n: Node) {
    exists k :: k in files && Live(files, k) && k != n.id && SameTree(files[k], n) && files[k].parentID == n.parentID
        && files[k].name == n.name
  }

  lemma PlaceTakenMeans(files: Files, id: nat, parent: Option<nat>, name: string)
    requires Forest(files) && NamesUnique(files) && Live(files, id)
    ensures NamesUnique(Moved(files, id, parent, name)) <==>
              !PlaceTaken(files, files[id].(parentID := parent, name := name))
  {
    var after, n := Moved(files, id, parent, name), files[id].(parentID := parent, name := name);
    if PlaceTaken(files, n) {
      var k :| k in files && Live(files, k) && k != n.id && SameTree(files[k], n) && files[k].parentID == n.parentID
          && files[k].name == n.name;
      assert Live(after, k) && Live(after, id) && after[k] == files[k];
    }
  }

  lemma PlaceTakenIsNotFree(files: Files, id: nat, name: Option<string>, parent: Option<Option<nat>>, file: Node)
    requires Live(files, id) && files[id].id == id && file == files[id].(parentID := file.parentID, name := file.name)
    requires file.parentID == if parent.Some? then parent.value else files[id].parentID
    requires file.name == if name.Some? then TrimSpace(name.value) else files[id].name
    ensures PlaceTaken(files, file) <==> !RequestedPlaceIsFree(files, id, name, parent)
  {
  }

  /** An id the table has not used. */
  method UnusedID(ids: set<nat>) returns (id: nat)
    ensures id !in ids
  {
    id := 0;
    var rest := ids;
    while rest != {}
      invariant forall k | k in ids :: k in rest || k < id
      decreases |rest|
    {
      var k :| k in rest;
      rest := rest - {k};
      id := if id <= k then k + 1 else id;
    }
  }

  // ---------------------------------------------------------------- the checks

  ghost predicate IsBadName(name: string) {
    name == "" || name == "." || name == ".." || '/' in name || '\\' in name
  }

  /** A file, by default, or a folder, which has neither a media type nor a kind. */
  ghost predicate TypeFits(objectType: string, mediaType: string, fileKind: string) {
    || objectType == "" || objectType == "file"
    || (objectType == "folder" && TrimSpace(mediaType) == "" && TrimSpace(fileKind) == "")
  }

  /** A live folder of the caller's tree. */
  ghost predicate FolderOf(files: Files, scope: Scope, k: nat) {
    && Live(files, k) && files[k].objectType == Folder && files[k].workspaceID == scope.workspaceID
    && files[k].visibility == scope.visibility && files[k].ownerAccountID == OwnerOf(scope)
  }

  /** A valid name and type in a tree the caller may touch, under a fitting parent and at a free place. */
  ghost predicate MayCreate(files: Files, scope: Scope, parent: Option<nat>, objectType: string,
                            name: string, mediaType: string, fileKind: string)
  {
    && ValidName(name) && TypeFits(objectType, mediaType, fileKind) && MayUseTree(scope)
    && (parent.Some? ==> FolderOf(files, scope, parent.value))
    && NameIsFree(files, scope, OwnerOf(scope), parent, TrimSpace(name))
  }

  ghost predicate NameIsFree(files: Files, scope: Scope, owner: Option<nat>, parent: Option<nat>, name: string) {
    forall k | Live(files, k) && files[k].workspaceID == scope.workspaceID && files[k].visibility == scope.visibility
               && files[k].ownerAccountID == owner && files[k].parentID == parent :: files[k].name != name
  }

  /** What is checked before and at the insert of a row, and the row. */
  method CheckCreate(files: Files, scope: Scope, parent: Option<nat>, objectType: string,
                     name: string, mediaType: string, fileKind: string)
    returns (r: Result<Node, FileError>)
    ensures r.Success? <==> MayCreate(files, scope, parent, objectType, name, mediaType, fileKind)
    ensures r.Success? ==>
              && r.value.id !in files && ValidSegment(r.value.name)
              && r.value ==
                 Node(r.value.id, scope.workspaceID, parent, scope.visibility, OwnerOf(scope),
                      if objectType == "folder" then Folder else File, TrimSpace(name), TrimSpace(mediaType),
                      TrimSpace(fileKind), None, false)
              && ParentFits(files, r.value) && !PlaceTaken(files, r.value)
    ensures r == Failure(InvalidName) <==> IsBadName(TrimSpace(name))
    ensures r == Failure(InvalidObjectType) <==> ValidName(name) && !TypeFits(objectType, mediaType, fileKind)
    ensures r == Failure(Forbidden) <==>
            && ValidName(name) && TypeFits(objectType, mediaType, fileKind) && !MayUseTree(scope) && !scope.personal
    ensures r == Failure(NameTaken) <==>
            && ValidName(name) && TypeFits(objectType, mediaType, fileKind) && MayUseTree(scope)
            && (parent.Some? ==> FolderOf(files, scope, parent.value))
            && !NameIsFree(files, scope, OwnerOf(scope), parent, TrimSpace(name))
  {
    TrimIdempotent(name);
    if !ValidName(TrimSpace(name)) {
      return Failure(InvalidName);
    }
    if objectType !in ["", "file", "folder"] {
      return Failure(InvalidObjectType);
    }
    if objectType == "folder" && (TrimSpace(mediaType) != "" || TrimSpace(fileKind) != "") {
      return Failure(InvalidObjectType);
    }
    var owner := AuthorizeTree(scope);
    if owner.Failure? {
      return Failure(owner.error);
    }
    if parent.Some? && !ValidParent(files, scope, parent.value, owner.value) {
      return Failure(NotFound);
    }
    var id := UnusedID(files.Keys);
    var kind := if objectType == "folder" then Folder else File;
    var n := Node(id, scope.workspaceID, parent, scope.visibility, owner.value, kind,
                  TrimSpace(name), TrimSpace(mediaType), TrimSpace(fileKind), None, false);
    return if PlaceTaken(files, n) then Failure(NameTaken) else Success(n);
  }

  /** An authorised change to a valid name under a fitting parent that closes no circle. */
  ghost predicate MayUpdate(files: Files, scope: Scope, id: nat, name: Option<string>, parent: Option<Option<nat>>)
    requires Forest(files)
  {
    && AuthorizedFile(files, scope, id).Success? && (name.Some? || parent.Some?)
    && (name.Some? ==> ValidName(name.value))
    && var place := if parent.Some? then parent.value else files[id].parentID;
       place.Some? ==> FolderFor(files, place.value, files[id]) && !Under(files, place.value, id)
  }

  /** No other live node of the tree has the requested name at the requested place. */
  ghost predicate RequestedPlaceIsFree(files: Files, id: nat, name: Option<string>, parent: Option<Option<nat>>)
    requires id in files
  {
    var place := if parent.Some? then parent.value else files[id].parentID;
    var called := if name.Some? then TrimSpace(name.value) else files[id].name;
    forall k | k != id && Live(files, k) && SameTree(files[k], files[id]) && files[k].parentID == place ::
      files[k].name != called
  }

  /** What is checked before an update touches any bytes. */
  method CheckUpdate(files: Files, scope: Scope, id: nat, name: Option<string>, parent: Option<Option<nat>>)
    returns (r: Result<Node, FileError>)
    requires Forest(files)
    ensures r.Success? <==> MayUpdate(files, scope, id, name, parent)
    ensures r.Success? ==>
              && r.value.parentID == (if parent.Some? then parent.value else files[id].parentID)
              && r.value.name == (if name.Some? then TrimSpace(name.value) else files[id].name)
              && r.value == files[id].(parentID := r.value.parentID, name := r.value.name)
    ensures r == Failure(MissingUpdate) <==>
            AuthorizedFile(files, scope, id).Success? && name.None? && parent.None?
    ensures r == Failure(InvalidName) <==>
            AuthorizedFile(files, scope, id).Success? && name.Some? && IsBadName(TrimSpace(name.value))
    ensures r == Failure(Location(MoveCycle)) <==> CyclicMove(files, scope, id, name, parent)
    ensures r.Failure? ==> Faults(r.error) == 0
  {
    var authorized := AuthorizedFile(files, scope, id);
    if authorized.Failure? {
      return Failure(authorized.error);
    }
    var file := authorized.value;
    if name.None? && parent.None? {
      return Failure(MissingUpdate);
    }
    var updated := file;
    if name.Some? {
      updated := updated.(name := TrimSpace(name.value));
      TrimIdempotent(name.value);
      if !ValidName(updated.name) {
        return Failure(InvalidName);
      }
    }
    if parent.Some? {
      updated := updated.(parentID := parent.value);
    }
    if updated.parentID.Some? {
      if updated.parentID.value == updated.id {
        return Failure(Location(MoveCycle));
      }
      if !ValidParent(files, scope, updated.parentID.value, updated.ownerAccountID) {
        return Failure(NotFound);
      }
    }
    if updated.objectType == Folder && updated.parentID.Some? {
      var subtree := ListSubtree(files, updated.id);
      if updated.parentID.value in subtree {
        return Failure(Location(MoveCycle));
      }
    } else if updated.parentID.Some? && Under(files, updated.parentID.value, updated.id) {
      OnlyFoldersHaveDescendants(files, updated.parentID.value, updated.id);
    }
    return Success(updated);
  }

  /** What the update's transaction checks again. */
  method CheckLocation(files: Files, file: Node) returns (error: Option<FileError>)
    requires Forest(files) && NamesUnique(files)
    requires Live(files, file.id) ==> file == files[file.id].(parentID := file.parentID, name := file.name)
    ensures error.None? <==> Accepted(files, file.id, file.parentID, file.name)
    ensures error == Some(Location(MoveCycle)) ==> ClosesCircle(files, file)
    ensures error.Some? ==> Faults(error.value) == 0
  {
    var invalid := ValidateLocation(files, file);
    if invalid.Some? {
      return Some(Location(invalid.value));
    }
    if !Live(files, file.id) {
      return Some(NotFound);
    }
    PlaceTakenMeans(files, file.id, file.parentID, file.name);
    return if PlaceTaken(files, file) then Some(NameTaken) else None;
  }

  ghost predicate CurrentRowsExist(files: Files, contents: Contents) {
    forall f | Live(files, f) && files[f].currentContentID.Some? :: files[f].currentContentID.value in contents
  }

  /** Existing content is replaced only by a caller who knows the hash of the bytes that are really there. */
  method CheckWrite<T>(files: Files, contents: Contents, storage: Storage<T>, hash: Bytes -> string,
                       scope: Scope, id: nat, expectedHash: string)
    returns (refused: Option<FileError>)
    requires CurrentRowsExist(files, contents)
    modifies storage`faults
    ensures storage.faults >= old(storage.faults)
    ensures refused.None? ==> storage.faults == old(storage.faults)
    ensures storage.faults == old(storage.faults) ==>
              (refused.None? <==> MayWrite(files, contents, storage.bytes, hash, scope, id, expectedHash))
    ensures refused == Some(FolderContent) <==>
            AuthorizedFile(files, scope, id).Success? && files[id].objectType == Folder
    ensures refused == Some(PreconditionRequired) || refused == Some(StaleContent) ==>
              && Live(files, id) && ReadIn(files, contents, storage.bytes, id).Some?
              && var given := TrimQuotes(TrimSpace(expectedHash));
                 && (given == "" || given != hash(ReadIn(files, contents, storage.bytes, id).value))
                 && (refused == Some(PreconditionRequired) <==> given == "")
  {
    var authorized := AuthorizedFile(files, scope, id);
    if authorized.Failure? {
      return Some(authorized.error);
    }
    if files[id].objectType != File {
      return Some(FolderContent);
    }
    if files[id].currentContentID.None? {
      return None;
    }
    var current := contents[files[id].currentContentID.value];
    var available := storage.Open(current.Backend());
    if !available {
      return Some(StorageFailed(BackendUnavailable));
    }
    var reader := storage.Get(SlotOf(current));
    if !reader.Found? {
      return Some(StorageFailed(CannotRead));
    }
    var expected := TrimQuotes(TrimSpace(expectedHash));
    if expected == "" {
      return Some(PreconditionRequired);
    }
    return if expected != hash(reader.data) then Some(StaleContent) else None;
  }

  /** The caller may write the file and, when it has content, knows the hash of its stored bytes. */
  ghost predicate MayWrite(
    files: Files, contents: Contents, bytes: ByteMap, hash: Bytes -> string, scope: Scope, id: nat,
    expectedHash: string)
  {
    && AuthorizedFile(files, scope, id).Success? && files[id].objectType == File
    && (files[id].currentContentID.Some? ==>
          var before := ReadIn(files, contents, bytes, id);
          before.Some? && TrimQuotes(TrimSpace(expectedHash)) == hash(before.value) && hash(before.value) != "")
  }

  /** A hash may be given bare or in double quotes, as an entity tag is. */
  lemma QuotesDoNotMatter(files: Files, contents: Contents, bytes: ByteMap, hash: Bytes -> string, scope: Scope,
                          id: nat, given: string)
    requires forall c | c in given :: !IsQuote(c) && !IsSpace(c)
    ensures MayWrite(files, contents, bytes, hash, scope, id, "\"" + given + "\"") <==>
            MayWrite(files, contents, bytes, hash, scope, id, given)
  {
    QuotesGo(given);
  }

  // ---------------------------------------------------------------- the content of a subtree

  method ListSubtreeContents(files: Files, contents: Contents, id: nat) returns (rows: set<nat>)
    requires Forest(files)
    ensures rows == SubtreeContents(files, contents, id)
  {
    var subtree := ListSubtree(files, id);
    rows := set c | c in contents && contents[c].fileID in subtree;
  }

  method AllAvailable<T>(storage: Storage<T>, contents: Contents, rows: set<nat>) returns (available: bool)
    requires rows <= contents.Keys
    modifies storage`faults
    ensures storage.faults == old(storage.faults) + if available then 0 else 1
  {
    available := true;
    var rest := rows;
    while available && rest != {}
      invariant rest <= rows
      invariant storage.faults == old(storage.faults) + if available then 0 else 1
      decreases |rest|
    {
      var c :| c in rest;
      rest := rest - {c};
      available := storage.Open(contents[c].Backend());
    }
  }

  /** Deletes the rows' bytes and stops at the first delete that fails. */
  method DeleteAll<T>(storage: Storage<T>, contents: Contents, rows: set<nat>) returns (ok: bool, ghost gone: set<nat>)
    requires rows <= contents.Keys
    modifies storage`bytes, storage`trail, storage`faults
    ensures gone <= rows && (ok ==> gone == rows)
    ensures storage.bytes == old(storage.bytes) - SlotsOf(contents, gone)
    ensures storage.faults == old(storage.faults) + if ok then 0 else 1
    ensures TrailShrinks(old(storage.trail), storage.trail, storage.tables, old(storage.bytes), SlotsOf(contents, rows))
    ensures old(storage.Recorded()) ==> storage.Recorded()
  {
    ok, gone := true, {};
    var rest := rows;
    ghost var was, before, all := storage.bytes, storage.trail, SlotsOf(contents, rows);
    assert SlotsOf(contents, {}) == {};
    while rest != {} && ok
      invariant rest <= rows && gone <= rows - rest && (ok ==> gone == rows - rest)
      invariant storage.bytes == was - SlotsOf(contents, gone)
      invariant storage.faults == old(storage.faults) + if ok then 0 else 1
      invariant TrailShrinks(before, storage.trail, storage.tables, was, all)
      invariant old(storage.Recorded()) ==> storage.Recorded()
      decreases |rest|
    {
      var c :| c in rest;
      OneMoreGone(contents, was, gone, c, rows);
      ok := DeleteSlot(storage, SlotOf(contents[c]), before, was, all);
      rest := rest - {c};
      if ok {
        gone := gone + {c};
      }
    }
  }

  lemma SlotsOneMore(contents: Contents, rows: set<nat>, c: nat)
    requires rows <= contents.Keys && c in contents
    ensures SlotsOf(contents, rows + {c}) == SlotsOf(contents, rows) + {SlotOf(contents[c])}
  {
  }

  lemma OneMoreGone(contents: Contents, was: ByteMap, gone: set<nat>, c: nat, rows: set<nat>)
    requires gone <= rows <= contents.Keys && c in rows
    ensures was - SlotsOf(contents, gone) - {SlotOf(contents[c])} == was - SlotsOf(contents, gone + {c})
    ensures SlotsOf(contents, rows) + {SlotOf(contents[c])} == SlotsOf(contents, rows)
    ensures Shrinks(was, was - SlotsOf(contents, gone), SlotsOf(contents, rows))
  {
    SlotsOneMore(contents, gone, c);
    SlotsWithin(contents, gone, rows);
  }

  lemma SlotsWithin(contents: Contents, some: set<nat>, rows: set<nat>)
    requires some <= rows <= contents.Keys
    ensures SlotsOf(contents, some) <= SlotsOf(contents, rows)
  {
  }
}
