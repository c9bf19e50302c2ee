/** The workspace file service in object storage mode: writes that append revisions, retention, and the
    reaper, each call's effect tied to the steps of the state machine. */
module ObjectFiles {
  import opened Wrappers
  import opened Query
  import opened Text
  import opened FileTree
  import opened FilePaths
  import opened Relocations
  import opened StoredFiles
  import opened FileAccess
  import opened FileRequests
  import opened Revisions
  import opened RevisionRuns
  import opened RevisionSteps
  import opened RevisionTheorems
  import opened RevisionTraces
  import opened RevisionLoss
  import opened ObjectTraces
  import opened ObjectStops

  datatype Outcome = Reaped | Postponed | Stopped

  const MINUTE := 60

  class ObjectFiles {
    const uses: Uses
    const keepLatest: int
    const activeBackend: string
    const hash: Bytes -> string
    const storage: Storage<ObjectTables>
    ghost var listed: set<Content>
    ghost var taken: set<Deletion>

    function Keep(): nat {
      if keepLatest < 0 then 0 else keepLatest
    }

    function Db(): Tables
      reads storage
    {
      storage.tables.db
    }

    function Tree(): Files
      reads storage
    {
      Db().files
    }

    function Rows(): Contents
      reads storage
    {
      Db().contents
    }

    function Deletions(): Queue
      reads storage
    {
      storage.tables.queue
    }

    ghost function Here(): ObjectStop
      reads storage
    {
      Stop(storage.tables, storage.bytes)
    }

    /** The machine's state between the calls of the service. */
    ghost function Abstract(): State
      reads this, storage
    {
      StateAt(Here(), listed, taken)
    }

    /** The tables are a tree, and some run with one writer of a file at a time leads here. */
    ghost predicate Valid()
      reads this, storage
    {
      && activeBackend != "" && storage.Recorded()
      && NamedForest(Tree()) && Reached(uses, Keep(), false, Abstract())
    }

    /** Some such run leads here whose saves all met their guard. */
    ghost predicate Sound()
      reads this, storage
    {
      Reached(uses, Keep(), true, Abstract())
    }

    constructor (uses: Uses, keepLatest: int, activeBackend: string, hash: Bytes -> string,
                 storage: Storage<ObjectTables>)
      requires storage.tables == NO_TABLES && storage.bytes == map[] && storage.Recorded()
      ensures Valid() && Sound() && Abstract() == Initial()
      ensures this.uses == uses && this.keepLatest == keepLatest && this.hash == hash && this.storage == storage
      ensures this.activeBackend == if activeBackend == "" then "local" else activeBackend
    {
      this.uses, this.keepLatest, this.hash, this.storage := uses, keepLatest, hash, storage;
      this.activeBackend := if activeBackend == "" then DEFAULT_BACKEND else activeBackend;
      listed, taken := {}, {};
      new;
      EmptyIsForest();
      InitialIsReached(uses, Keep(), false);
      InitialIsReached(uses, Keep(), true);
    }

    // -------------------------------------------------------------- the tree

    /** One transaction on the nodes, which some steps of the machine can make, too. */
    method CommitTree(files: Files) returns (ok: bool)
      requires Valid() && NamedForest(files)
      requires StaysReached(uses, Keep(), Abstract(), WithFiles(Abstract(), files))
      modifies storage`tables, storage`trail, storage`faults
      ensures Valid() && (old(Sound()) ==> Sound())
      ensures storage.tables == if ok then WithTree(old(storage.tables), files) else old(storage.tables)
      ensures storage.trail == old(storage.trail) + if ok then [Here()] else []
      ensures storage.faults == old(storage.faults) + if ok then 0 else 1
    {
      ghost var s := Abstract();
      ok := storage.Commit(WithTree(storage.tables, files));
      assert Abstract() == if ok then WithFiles(s, files) else s;
    }

    /** Insert a file or folder, without content. */
    method Create(scope: Scope, parent: Option<nat>, objectType: string, name: string, mediaType: string,
                  fileKind: string)
      returns (r: Result<Node, FileError>)
      requires Valid()
      modifies storage`tables, storage`trail, storage`faults
      ensures Valid() && (old(Sound()) ==> Sound())
      ensures storage.trail == old(storage.trail) + if r.Success? then [Here()] else []
      ensures r.Failure? ==> storage.tables == old(storage.tables)
      ensures r.Success? ==>
                && r.value.id !in old(Tree())
                && storage.tables == WithTree(old(storage.tables), old(Tree())[r.value.id := r.value])
                && r.value ==
                   Node(r.value.id, scope.workspaceID, parent, scope.visibility, OwnerOf(scope),
                        if objectType == "folder" then Folder else File, TrimSpace(name), TrimSpace(mediaType),
                        TrimSpace(fileKind), None, false)
      ensures storage.faults == old(storage.faults) ==>
                (r.Success? <==> MayCreate(old(Tree()), scope, parent, objectType, name, mediaType, fileKind))
    {
      r := CheckCreate(Tree(), scope, parent, objectType, name, mediaType, fileKind);
      if r.Failure? {
        return;
      }
      CreateStaysReached(uses, Keep(), Abstract(), r.value);
      CreateKeepsTree(Tree(), r.value);
      var ok := CommitTree(Tree()[r.value.id := r.value]);
      if !ok {
        return Failure(DatabaseFailed);
      }
    }

    /** Rename, move, or both. Keys do not depend on names, so no bytes move and no file reads anything
        else; what the file's next write does may change. */
    method Update(scope: Scope, id: nat, name: Option<string>, parent: Option<Option<nat>>)
      returns (r: Result<Node, FileError>)
      requires Valid()
      modifies storage`tables, storage`trail, storage`faults
      ensures Valid() && (old(Sound()) ==> Sound())
      ensures storage.trail == old(storage.trail) + if r.Success? then [Here()] else []
      ensures r.Failure? ==> storage.tables == old(storage.tables)
      ensures r.Success? ==>
                && AuthorizedFile(old(Tree()), scope, id).Success?
                && r.value.parentID == (if parent.Some? then parent.value else old(Tree())[id].parentID)
                && r.value.name == (if name.Some? then TrimSpace(name.value) else old(Tree())[id].name)
                && r.value == old(Tree())[id].(parentID := r.value.parentID, name := r.value.name)
                && Tree() == old(Tree())[id := r.value]
                && Db() == old(Db()).(files := Tree()) && storage.tables == old(storage.tables).(db := Db())
                && Accepted(old(Tree()), id, r.value.parentID, r.value.name)
      ensures r == Failure(Location(MoveCycle)) <==> CyclicMove(old(Tree()), scope, id, name, parent)
      ensures storage.faults == old(storage.faults) ==>
                (r.Success? <==>
                   && MayUpdate(old(Tree()), scope, id, name, parent)
                   && RequestedPlaceIsFree(old(Tree()), id, name, parent))
    {
      r := CheckUpdate(Tree(), scope, id, name, parent);
      if r.Failure? {
        return;
      }
      ReachedTables(uses, Keep(), false, Abstract());
      var refused := CheckLocation(Tree(), r.value);
      PlaceTakenMeans(Tree(), id, r.value.parentID, r.value.name);
      PlaceTakenIsNotFree(Tree(), id, name, parent, r.value);
      if refused.Some? {
        return Failure(refused.value);
      }
      MoveStaysReached(uses, Keep(), Abstract(), id, r.value.parentID, r.value.name);
      MoveKeepsForest(Tree(), id, r.value.parentID, r.value.name);
      var ok := CommitTree(Moved(Tree(), id, r.value.parentID, r.value.name));
      if !ok {
        return Failure(DatabaseFailed);
      }
    }

    /** Tombstone a subtree, then delete the bytes of all its rows; the rows stay. Files outside it read
        what they read before, wherever the call stops, and nothing happens before the metadata changes. */
    method Delete(scope: Scope, id: nat) returns (error: Option<FileError>)
      requires Valid()
      modifies storage
      ensures Valid() && (old(Sound()) ==> Sound())
      ensures || storage.tables == old(storage.tables)
              || storage.tables == WithTree(old(storage.tables), Tombstoned(old(Tree()), Subtree(old(Tree()), id)))
      ensures storage.tables == old(storage.tables) ==> storage.bytes == old(storage.bytes)
      ensures SurvivorsRead(old(Tree()), old(Rows()), old(storage.bytes), MetadataOf(Here()))
      ensures DeletesThrough(old(storage.trail), storage.trail, old(Abstract()))
      ensures RestartsThrough(uses, Keep(), false, old(storage.trail), storage.trail)
      ensures old(Sound()) ==> RestartsThrough(uses, Keep(), true, old(storage.trail), storage.trail)
      ensures error.None? ==>
                && AuthorizedFile(old(Tree()), scope, id).Success?
                && Tree() == Tombstoned(old(Tree()), Subtree(old(Tree()), id))
                && storage.bytes == old(storage.bytes) - SlotsOf(Rows(), SubtreeContents(old(Tree()), Rows(), id))
      ensures storage.faults == old(storage.faults) ==>
                (error.None? <==> AuthorizedFile(old(Tree()), scope, id).Success?)
    {
      var authorized := AuthorizedFile(Tree(), scope, id);
      if authorized.Failure? {
        return Some(authorized.error);
      }
      var rows := ListSubtreeContents(Tree(), Rows(), id);
      var available := AllAvailable(storage, Rows(), rows);
      if !available {
        return Some(StorageFailed(BackendUnavailable));
      }
      var subtree := ListSubtree(Tree(), id);
      TombstonesMean(uses, Keep(), Abstract(), id);
      assert id in Subtree(Tree(), id);
      var ok := CommitTree(Tombstoned(Tree(), subtree));
      if !ok {
        return Some(DatabaseFailed);
      }
      var deleted := DeleteRowBytes(rows, old(storage.trail));
      TombstonesRead(old(Abstract()), id, Here());
      TombstonesReadThrough(old(Abstract()), id, old(storage.trail), storage.trail);
      return if deleted then None else Some(StorageFailed(CannotWrite));
    }

    /** The bytes of files just deleted. No live file reads anything else at any stop. */
    method DeleteRowBytes(rows: set<nat>, ghost before: seq<ObjectStop>) returns (ok: bool)
      requires Valid() && AllDead(Db(), rows) && storage.trail == before + [Here()]
      modifies storage`bytes, storage`trail, storage`faults
      ensures Valid() && (old(Sound()) ==> Sound())
      ensures storage.faults == old(storage.faults) + if ok then 0 else 1
      ensures SurvivorsRead(Tree(), Rows(), old(storage.bytes), MetadataOf(Here()))
      ensures DeletesThrough(before, storage.trail, old(Abstract()))
      ensures RestartsThrough(uses, Keep(), false, before, storage.trail)
      ensures old(Sound()) ==> RestartsThrough(uses, Keep(), true, before, storage.trail)
      ensures ok ==> storage.bytes == old(storage.bytes) - SlotsOf(Rows(), rows)
    {
      ghost var s, was := Abstract(), storage.bytes;
      ghost var gone;
      ok, gone := DeleteAll(storage, Rows(), rows);
      SlotsWithin(Rows(), gone, rows);
      DeadBytesGo(uses, Keep(), s, rows, storage.bytes);
      assert Abstract() == s.(bytes := storage.bytes);
      ShrinkingRestarts(uses, Keep(), s, rows, before, storage.trail);
    }

    // -------------------------------------------------------------- retention

    /** Newest first, past the current row and the newest older ones that are kept. */
    method ListRetentionCandidates(f: nat) returns (rows: seq<Content>)
      requires Valid()
      modifies `listed
      ensures Valid() && (old(Sound()) ==> Sound()) && listed == old(listed) + ListedRows(Keep(), Db(), f)
      ensures forall row :: row in rows <==> row in ListedRows(Keep(), Db(), f)
      ensures forall row :: row in rows <==>
                row.id in Rows() && Rows()[row.id] == row && HasNoRoom(Tree(), Rows(), keepLatest, f, row.id)
      ensures forall i, j | 0 <= i < j < |rows| :: rows[i].version > rows[j].version
    {
      ghost var s := Abstract();
      ReachedTables(uses, Keep(), false, s);
      ListedMeans(Db(), keepLatest, f);
      StepStaysReached(uses, Keep(), s, ListCandidates(f));
      rows := QueryCandidates(f);
      listed := listed + ListedRows(Keep(), Db(), f);
    }

    method QueryCandidates(f: nat) returns (rows: seq<Content>)
      requires TablesOk(Db())
      ensures forall row :: row in rows <==> row in ListedRows(Keep(), Db(), f)
      ensures forall i, j | 0 <= i < j < |rows| :: rows[i].version > rows[j].version
    {
      if !Live(Tree(), f) || Tree()[f].objectType != File || Tree()[f].currentContentID.None? {
        return [];
      }
      var page := ListOlderRows(f);
      ListingHoldsCandidates(Keep(), Db(), f, page);
      return if |page| <= Keep() then [] else page[Keep()..];
    }

    method ListOlderRows(f: nat) returns (page: seq<Content>)
      requires TablesOk(Db())
      ensures IsListing(Tree(), Rows(), f, page)
    {
      var older := OlderRows(Tree(), Rows(), f);
      page := OrderBy(older, NewestFirst, |older| + 1);
      PageIsListing(Db(), f, page, |older| + 1);
    }

    /** One insert for all rows: it fails as a whole, also when a row is gone by now, and skips rows that
        are queued already. */
    method EnqueueDeletions(rows: seq<Content>, now: int)
      requires Valid() && forall row | row in rows :: row in listed
      modifies storage`tables, storage`trail, storage`faults
      ensures Valid() && (old(Sound()) ==> Sound()) && Db() == old(Db())
      ensures Abstract() == old(Abstract()) || Abstract() == EnqueueAll(old(Abstract()), rows, now)
      ensures storage.trail == old(storage.trail) || storage.trail == old(storage.trail) + [Here()]
      ensures storage.faults >= old(storage.faults)
      ensures storage.faults == old(storage.faults) && (forall row | row in rows :: row.id in Rows()) ==>
                Abstract() == EnqueueAll(old(Abstract()), rows, now)
    {
      if rows == [] || exists row :: row in rows && row.id !in Rows() {
        return;
      }
      ghost var s := Abstract();
      ghost var t := EnqueueAll(s, rows, now);
      EnqueueingStaysReached(uses, Keep(), s, rows, now);
      var queue, next := InsertDeletions(rows, now, s);
      var ok := storage.Commit(storage.tables.(queue := queue, nextDeletionID := next));
      assert Abstract() == if ok then t else s;
    }

    method InsertDeletions(rows: seq<Content>, now: int, ghost s: State) returns (queue: Queue, next: nat)
      requires s.queue == Deletions() && s.nextDeletionID == storage.tables.nextDeletionID
      ensures queue == EnqueueAll(s, rows, now).queue && next == EnqueueAll(s, rows, now).nextDeletionID
    {
      queue, next := Deletions(), storage.tables.nextDeletionID;
      for i := 0 to |rows|
        invariant queue == EnqueueAll(s, rows[..i], now).queue
        invariant next == EnqueueAll(s, rows[..i], now).nextDeletionID
      {
        assert rows[..i + 1][..i] == rows[..i];
        if !Queued(queue, rows[i].id) {
          queue := queue[next := Deletion(next, rows[i].id, rows[i].backendID, rows[i].storageKey, 0, now)];
          next := next + 1;
        }
      }
      assert rows[..|rows|] == rows;
    }

    /** Best effort: a failure leaves the queue as it was. */
    method EnqueueCleanup(f: nat, now: int)
      requires Valid()
      modifies `listed, storage`tables, storage`trail, storage`faults
      ensures Valid() && (old(Sound()) ==> Sound()) && Db() == old(Db())
      ensures storage.trail == old(storage.trail) || storage.trail == old(storage.trail) + [Here()]
      ensures storage.faults >= old(storage.faults)
      ensures storage.faults == old(storage.faults) ==>
                HistoryQueued(Tree(), Rows(), keepLatest, Deletions(), f)
    {
      var ok := storage.Query();
      if ok {
        ReachedTables(uses, Keep(), false, Abstract());
        var rows := ListRetentionCandidates(f);
        CandidatesQueue(uses, Keep(), Abstract(), f, rows, now);
        EnqueueDeletions(rows, now);
        if storage.faults == old(storage.faults) {
          HistoryIsQueued(Db(), keepLatest, Deletions(), f);
        }
      }
    }

    // -------------------------------------------------------------- writing

    /** The transaction that records new content: the current row in place, or a further version. */
    method SaveContent(f: nat, content: Content, versioned: bool) returns (saved: Option<Content>)
      requires IsLiveFile(Tree(), f) && FilesOk(Db()) && content.fileID == f
      modifies storage`tables, storage`trail, storage`faults
      ensures storage.faults == old(storage.faults) + if saved.Some? then 0 else 1
      ensures storage.trail == old(storage.trail) + if saved.Some? then [Here()] else []
      ensures saved.None? ==> storage.tables == old(storage.tables)
      ensures saved.Some? ==>
                && storage.tables == old(storage.tables).(db := Saved(old(Db()), Write(content, versioned, true)))
                && saved.value == RowOf(old(Db()), Write(content, versioned, true))
    {
      var row := NextRow(f, content, versioned);
      var next := Db().nextContentID + if row.id == Db().nextContentID then 1 else 0;
      var db := Tables(Tree()[f := Tree()[f].(currentContentID := Some(row.id))], Rows()[row.id := row],
                       Db().history[row.id := row], next);
      var ok := storage.Commit(storage.tables.(db := db));
      return if ok then Some(row) else None;
    }

    method NextRow(f: nat, content: Content, versioned: bool) returns (row: Content)
      requires IsLiveFile(Tree(), f) && FilesOk(Db()) && content.fileID == f
      ensures row == RowOf(Db(), Write(content, versioned, true))
    {
      if Tree()[f].currentContentID.None? {
        return content.(id := Db().nextContentID, fileID := f, version := 1);
      }
      var current := Rows()[Tree()[f].currentContentID.value];
      if versioned {
        return content.(id := Db().nextContentID, fileID := f, version := current.version + 1);
      }
      return content.(id := current.id, fileID := f, version := current.version);
    }

    ghost function CallOf(f: nat, data: Bytes): Call {
      Call(0, f, activeBackend, data, hash(data))
    }

    /** The row a write records. */
    ghost function RowFor(db: Tables, f: nat, data: Bytes): Content
      requires f in db.files
    {
      var planned := NewWrite(uses, db, f, activeBackend);
      RowOf(db, planned.(content := planned.content.(contentHash := hash(data))))
    }

    /** The bytes of a write, then its row: all of it, only the bytes, or nothing. */
    method StoreContent(f: nat, data: Bytes) returns (saved: Option<Content>, ghost put: bool)
      requires FilesOk(Db()) && activeBackend != "" && IsLiveFile(Tree(), f)
      modifies storage
      ensures storage.faults == old(storage.faults) + if saved.Some? then 0 else 1
      ensures old(storage.Recorded()) ==> storage.Recorded()
      ensures saved.Some? ==>
                && Abstract() == Written(uses, Keep(), old(Abstract()), CallOf(f, data))
                && saved.value == RowFor(old(Db()), f, data)
                && Tree() == Pointed(old(Tree()), f, saved.value.id)
                && storage.trail ==
                   old(storage.trail) + [StopOf(HalfWritten(uses, Keep(), old(Abstract()), CallOf(f, data)))] + [Here()]
      ensures saved.None? ==>
                && storage.tables == old(storage.tables)
                && storage.trail == old(storage.trail) + (if put then [Here()] else [])
                && Abstract() == if put then HalfWritten(uses, Keep(), old(Abstract()), CallOf(f, data))
                   else old(Abstract())
    {
      put := false;
      var versioned := Versioned(uses, Tree()[f]);
      var content := Content(0, f, 0, activeBackend, ContentKey(uses, Tree()[f], CurrentOf(Tree(), Rows(), f)),
                             hash(data));
      var available := storage.Open(activeBackend);
      if !available {
        return None, put;
      }
      var ok := storage.Put(SlotOf(content), data);
      if !ok {
        return None, put;
      }
      put := true;
      BytesPutMeans(uses, Keep(), old(Abstract()), CallOf(f, data));
      HalfWrittenMeans(uses, Keep(), old(Abstract()), CallOf(f, data));
      assert Abstract() == HalfWritten(uses, Keep(), old(Abstract()), CallOf(f, data));
      saved := SaveContent(f, content, versioned);
    }

    /** What a write, whole or half, leaves of everything else. */
    ghost predicate WriteDone(s: State, id: nat, data: Bytes)
      requires CallOf(id, data).MayBegin(s)
    {
      var t, half := Written(uses, Keep(), s, CallOf(id, data)), HalfWritten(uses, Keep(), s, CallOf(id, data));
      && Reached(uses, Keep(), false, t) && Reached(uses, Keep(), false, half)
      && id in t.db.files && Reads(t, id) == Some(data)
      && WriteStop(s.db.files, s.db.contents, s.bytes, id, data, MetadataOf(StopOf(t)))
      && WriteStop(s.db.files, s.db.contents, s.bytes, id, data, MetadataOf(StopOf(half)))
    }

    lemma StoredMeans(s: State, id: nat, data: Bytes)
      requires activeBackend != "" && s.pending == map[] && Reached(uses, Keep(), false, s)
      requires CallOf(id, data).MayBegin(s)
      ensures WriteDone(s, id, data)
    {
      var call := CallOf(id, data);
      WriteIsReached(uses, Keep(), false, s, call);
      WriteIsRead(uses, Keep(), false, s, call);
      WriteStops(uses, Keep(), s, call);
    }

    /** What a write does to soundness: kept by a guarded or a half write, and keys stay distinct exactly
        when it is guarded. */
    ghost predicate WriteIsSound(s: State, id: nat, data: Bytes)
      requires CallOf(id, data).MayBegin(s)
    {
      var t, half := Written(uses, Keep(), s, CallOf(id, data)), HalfWritten(uses, Keep(), s, CallOf(id, data));
      && (Reached(uses, Keep(), true, s) ==>
            Reached(uses, Keep(), true, half) && (WriteGuard(uses, s.db, id) ==> Reached(uses, Keep(), true, t)))
      && (KeysUnique(s.db.history) ==> (KeysUnique(t.db.history) <==> WriteGuard(uses, s.db, id)))
    }

    lemma SoundnessMeans(s: State, id: nat, data: Bytes)
      requires activeBackend != "" && s.pending == map[] && Reached(uses, Keep(), false, s)
      requires CallOf(id, data).MayBegin(s)
      ensures WriteIsSound(s, id, data)
    {
      if Reached(uses, Keep(), true, s) {
        WriteIsReached(uses, Keep(), true, s, CallOf(id, data));
      }
      if KeysUnique(s.db.history) {
        WriteKeepsKeysIffGuarded(uses, Keep(), false, s, CallOf(id, data));
      }
    }

    /** A write through its stops: a service can start again at each, other files read what they read, and
        the file the old bytes or the new. */
    ghost predicate Wrote(s: State, before: seq<ObjectStop>, now: ObjectStop, after: seq<ObjectStop>,
                          id: nat, data: Bytes)
    {
      && WriteStop(s.db.files, s.db.contents, s.bytes, id, data, MetadataOf(now))
      && WritesThrough(before, after, s, id, data) && RestartsThrough(uses, Keep(), false, before, after)
    }

    /** A further version of a versioned file at a key of its own, and otherwise the current row, or a first
        one, at the file's unversioned key. */
    ghost predicate RecordedAs(db: Tables, id: nat, data: Bytes, row: Content)
      requires id in db.files
    {
      var file, current := db.files[id], db.files[id].currentContentID;
      var versioned := uses(file.name, file.mediaType, file.fileKind);
      && (current.Some? ==> current.value in db.contents)
      && var next := if current.Some? then db.contents[current.value].version + 1 else 1;
         && row.fileID == id && row.backendID == activeBackend && row.contentHash == hash(data)
         && row.storageKey == Join(["objects", Decimal(file.workspaceID), Decimal(id)]
                                   + if versioned then ["versions", Decimal(next)] else ["current"])
         && if current.Some? && !versioned then row.id == current.value && row.version == next - 1
            else row.id == db.nextContentID && row.version == next
    }

    lemma RowForMeans(db: Tables, id: nat, data: Bytes)
      requires FilesOk(db) && id in db.files
      ensures RecordedAs(db, id, data, RowFor(db, id, data))
    {
    }

    /** The row of a write that succeeded, and what the file reads. */
    ghost predicate Stored(db: Tables, id: nat, data: Bytes, row: Content, now: ObjectStop) {
      && id in db.files && RecordedAs(db, id, data, row)
      && now.tables.db.files == db.files[id := db.files[id].(currentContentID := Some(row.id))]
      && now.tables.db.contents == db.contents[row.id := row]
      && ReadIn(now.tables.db.files, now.tables.db.contents, now.bytes, id) == Some(data)
    }

    lemma WroteHalf(s: State, before: seq<ObjectStop>, id: nat, data: Bytes)
      requires activeBackend != "" && CallOf(id, data).MayBegin(s) && s.pending == map[] && NamedForest(s.db.files)
      requires Reached(uses, Keep(), false, s)
      ensures var half := HalfWritten(uses, Keep(), s, CallOf(id, data));
              && Reached(uses, Keep(), false, half) && Wrote(s, before, StopOf(half), before + [StopOf(half)], id, data)
              && (Reached(uses, Keep(), true, s) ==>
                    && Reached(uses, Keep(), true, half)
                    && RestartsThrough(uses, Keep(), true, before, before + [StopOf(half)]))
    {
      var half := HalfWritten(uses, Keep(), s, CallOf(id, data));
      StoredMeans(s, id, data);
      SoundnessMeans(s, id, data);
      HalfWrittenMeans(uses, Keep(), s, CallOf(id, data));
      RestartsOneMore(uses, Keep(), false, before, before, half);
      if Reached(uses, Keep(), true, s) {
        RestartsOneMore(uses, Keep(), true, before, before, half);
      }
    }

    lemma WroteAll(s: State, before: seq<ObjectStop>, id: nat, data: Bytes, row: Content)
      requires activeBackend != "" && CallOf(id, data).MayBegin(s) && s.pending == map[] && NamedForest(s.db.files)
      requires Reached(uses, Keep(), false, s) && row == RowFor(s.db, id, data)
      ensures var half, t := HalfWritten(uses, Keep(), s, CallOf(id, data)), Written(uses, Keep(), s, CallOf(id, data));
              && Reached(uses, Keep(), false, t) && NamedForest(t.db.files) && Stored(s.db, id, data, row, StopOf(t))
              && Wrote(s, before, StopOf(t), before + [StopOf(half)] + [StopOf(t)], id, data)
    {
      var half, t := HalfWritten(uses, Keep(), s, CallOf(id, data)), Written(uses, Keep(), s, CallOf(id, data));
      StoredMeans(s, id, data);
      WroteHalf(s, before, id, data);
      WrittenMeans(uses, Keep(), s, CallOf(id, data));
      ReachedTables(uses, Keep(), false, s);
      RowForMeans(s.db, id, data);
      PointingKeepsTree(s.db.files, id, row.id);
      RestartsOneMore(uses, Keep(), false, before, before + [StopOf(half)], t);
    }

    lemma WroteSoundly(s: State, before: seq<ObjectStop>, id: nat, data: Bytes)
      requires activeBackend != "" && CallOf(id, data).MayBegin(s) && s.pending == map[] && NamedForest(s.db.files)
      requires Reached(uses, Keep(), false, s)
      requires var t := Written(uses, Keep(), s, CallOf(id, data)); NamedForest(t.db.files)
      ensures var half, t := HalfWritten(uses, Keep(), s, CallOf(id, data)), Written(uses, Keep(), s, CallOf(id, data));
              && (Reached(uses, Keep(), true, s) && WriteGuard(uses, s.db, id) ==>
                    && Reached(uses, Keep(), true, t)
                    && RestartsThrough(uses, Keep(), true, before, before + [StopOf(half)] + [StopOf(t)]))
              && (KeysUnique(s.db.history) ==> (KeysUnique(t.db.history) <==> WriteGuard(uses, s.db, id)))
    {
      var half, t := HalfWritten(uses, Keep(), s, CallOf(id, data)), Written(uses, Keep(), s, CallOf(id, data));
      SoundnessMeans(s, id, data);
      if Reached(uses, Keep(), true, s) && WriteGuard(uses, s.db, id) {
        WroteHalf(s, before, id, data);
        WrittenMeans(uses, Keep(), s, CallOf(id, data));
        RestartsOneMore(uses, Keep(), true, before, before + [StopOf(half)], t);
      }
    }

    lemma WroteNothing(id: nat, data: Bytes)
      requires Valid()
      ensures Wrote(Abstract(), storage.trail, Here(), storage.trail, id, data)
      ensures Sound() ==> RestartsThrough(uses, Keep(), true, storage.trail, storage.trail)
    {
    }

    /** The write itself, without its clean-up. */
    method Store(id: nat, data: Bytes) returns (saved: Option<Content>)
      requires Valid() && IsLiveFile(Tree(), id)
      modifies storage
      ensures Valid()
      ensures storage.faults == old(storage.faults) + if saved.Some? then 0 else 1
      ensures saved.None? ==> storage.tables == old(storage.tables)
      ensures Wrote(old(Abstract()), old(storage.trail), Here(), storage.trail, id, data)
      ensures saved.Some? ==> Stored(old(Db()), id, data, saved.value, Here())
      ensures old(Sound()) && (saved.Some? ==> WriteGuard(uses, old(Db()), id)) ==>
                Sound() && RestartsThrough(uses, Keep(), true, old(storage.trail), storage.trail)
      ensures saved.Some? && KeysUnique(old(Db()).history) ==>
                (KeysUnique(Db().history) <==> WriteGuard(uses, old(Db()), id))
    {
      ghost var s, before := Abstract(), storage.trail;
      ReachedTables(uses, Keep(), false, s);
      WroteNothing(id, data);
      ghost var put;
      saved, put := StoreContent(id, data);
      if saved.Some? {
        WroteAll(s, before, id, data, saved.value);
        WroteSoundly(s, before, id, data);
        assert StopOf(Written(uses, Keep(), s, CallOf(id, data))) == Here();
      } else if put {
        WroteHalf(s, before, id, data);
        assert StopOf(HalfWritten(uses, Keep(), s, CallOf(id, data))) == Here();
      } else {
        assert storage.trail == before && Abstract() == s;
      }
    }

    /** A write up to its clean-up: only a caller who knows the hash of the old bytes gets new ones in. */
    method CheckedWrite(scope: Scope, id: nat, expectedHash: string, data: Bytes)
      returns (r: Result<Content, FileError>)
      requires Valid()
      modifies storage
      ensures Valid() && storage.faults >= old(storage.faults)
      ensures storage.faults == old(storage.faults) ==>
                (r.Success? <==>
                   MayWrite(old(Tree()), old(Rows()), old(storage.bytes), hash, scope, id, expectedHash))
      ensures r.Failure? ==> storage.tables == old(storage.tables)
      ensures Wrote(old(Abstract()), old(storage.trail), Here(), storage.trail, id, data)
      ensures r.Success? ==>
                && MayWrite(old(Tree()), old(Rows()), old(storage.bytes), hash, scope, id, expectedHash)
                && Stored(old(Db()), id, data, r.value, Here())
      ensures old(Sound()) && (r.Success? ==> WriteGuard(uses, old(Db()), id)) ==>
                Sound() && RestartsThrough(uses, Keep(), true, old(storage.trail), storage.trail)
      ensures r.Success? && KeysUnique(old(Db()).history) ==>
                (KeysUnique(Db().history) <==> WriteGuard(uses, old(Db()), id))
    {
      ReachedTables(uses, Keep(), false, Abstract());
      WroteNothing(id, data);
      var refused := CheckWrite(Tree(), Rows(), storage, hash, scope, id, expectedHash);
      assert Here() == old(Here()) && Abstract() == old(Abstract());
      assert Valid();
      if refused.Some? {
        return Failure(refused.value);
      }
      var saved := Store(id, data);
      return if saved.None? then Failure(DatabaseFailed) else Success(saved.value);
    }

    /** Only files that keep versions have revisions to queue. */
    method CleanUpAfter(id: nat, now: int)
      requires Valid() && id in Tree()
      modifies `listed, storage`tables, storage`trail, storage`faults
      ensures Valid() && (old(Sound()) ==> Sound()) && Db() == old(Db()) && storage.faults >= old(storage.faults)
      ensures storage.trail == old(storage.trail) || storage.trail == old(storage.trail) + [Here()]
      ensures storage.faults == old(storage.faults) && Versioned(uses, Tree()[id]) ==>
                HistoryQueued(Tree(), Rows(), keepLatest, Deletions(), id)
    {
      if Versioned(uses, Tree()[id]) {
        EnqueueCleanup(id, now);
      }
    }

    /** New bytes for a file; then the revisions the file has no room for are queued, as far as that works.
        Wherever the call stops, a service can start again, and soundly so after a guarded write. */
    method WriteContent(scope: Scope, id: nat, expectedHash: string, data: Bytes, now: int)
      returns (r: Result<Content, FileError>)
      requires Valid()
      modifies `listed, storage
      ensures Valid()
      ensures storage.faults == old(storage.faults) ==>
                (r.Success? <==>
                   MayWrite(old(Tree()), old(Rows()), old(storage.bytes), hash, scope, id, expectedHash))
      ensures storage.faults == old(storage.faults) && r.Success?
              && uses(old(Tree())[id].name, old(Tree())[id].mediaType, old(Tree())[id].fileKind) ==>
                HistoryQueued(Tree(), Rows(), keepLatest, Deletions(), id)
      ensures r.Failure? ==> storage.tables == old(storage.tables)
      ensures Wrote(old(Abstract()), old(storage.trail), Here(), storage.trail, id, data)
      ensures r.Success? ==>
                && MayWrite(old(Tree()), old(Rows()), old(storage.bytes), hash, scope, id, expectedHash)
                && Stored(old(Db()), id, data, r.value, Here())
      ensures old(Sound()) && (r.Success? ==> WriteGuard(uses, old(Db()), id)) ==>
                Sound() && RestartsThrough(uses, Keep(), true, old(storage.trail), storage.trail)
      ensures r.Success? && KeysUnique(old(Db()).history) ==>
                (KeysUnique(Db().history) <==> WriteGuard(uses, old(Db()), id))
    {
      r := CheckedWrite(scope, id, expectedHash, data);
      if r.Success? {
        ghost var trail := storage.trail;
        CleanUpAfter(id, now);
        WroteOneMore(old(Abstract()), old(storage.trail), trail, id, data);
      }
    }

    lemma WroteOneMore(s: State, before: seq<ObjectStop>, after: seq<ObjectStop>, id: nat, data: Bytes)
      requires Valid() && Wrote(s, before, Here(), after, id, data)
      ensures Wrote(s, before, Here(), after + [Here()], id, data)
      ensures Sound() && RestartsThrough(uses, Keep(), true, before, after) ==>
                RestartsThrough(uses, Keep(), true, before, after + [Here()])
    {
      assert StopOf(Abstract()) == Here();
      RestartsOneMore(uses, Keep(), false, before, after, Abstract());
      if Sound() && RestartsThrough(uses, Keep(), true, before, after) {
        RestartsOneMore(uses, Keep(), true, before, after, Abstract());
      }
    }

    // -------------------------------------------------------------- reaping

    /** The due rows, first those waiting longest. */
    method ListDeletionBatch(limit: int, now: int) returns (batch: seq<Deletion>, ghost steps: seq<Step>)
      requires Valid()
      modifies `taken
      ensures taken == old(taken) + set d | d in batch
      ensures CleansTo(uses, Keep(), old(Abstract()), steps, Abstract())
      ensures FirstDue(Deletions(), now, limit, batch) && forall d | d in batch :: InQueue(Deletions(), d)
      ensures forall i, j | 0 <= i < j < |batch| :: batch[i] != batch[j]
    {
      batch := [];
      DueIsQueued(uses, Keep(), Abstract(), now);
      if limit > 0 {
        batch := OrderBy(Due(Deletions(), now), DueFirst, limit);
        PageIsFirstDue(Deletions(), now, limit, batch);
      }
      steps := TakingLeads(uses, Keep(), Abstract(), batch);
      taken := taken + set d | d in batch;
    }

    /** When a deletion that fails now is tried again: after a minute unless something else is asked for. */
    ghost function NextAttempt(now: int, retryAfter: int): int {
      now + if retryAfter <= 0 then 60 else retryAfter
    }

    method MarkFailed(d: Deletion, now: int, retryAfter: int) returns (ghost steps: seq<Step>)
      requires d in taken
      modifies storage`tables, storage`trail, storage`faults
      ensures storage.faults >= old(storage.faults)
      ensures old(storage.Recorded()) ==> storage.Recorded()
      ensures CleansUp(uses, Keep(), old(Abstract()), old(storage.trail), steps, Abstract(), storage.trail)
      ensures storage.tables == old(storage.tables).(queue := Deletions()) && storage.bytes == old(storage.bytes)
      ensures Deletions() ==
              if storage.faults > old(storage.faults) || d.id !in old(Deletions()) then old(Deletions())
              else old(Deletions())[d.id := old(Deletions())[d.id].(
                attempts := old(Deletions())[d.id].attempts + 1,
                nextAttemptAt := now + if retryAfter <= 0 then 60 else retryAfter)]
    {
      ghost var s, before := Abstract(), storage.trail;
      var at := now + if retryAfter <= 0 then MINUTE else retryAfter;
      PostponingDrains(s, d.id, at);
      CleansNothing(uses, Keep(), s, before);
      CleansByStep(uses, Keep(), s, before, RevisionRuns.MarkFailed(d, at));
      var ok := storage.Commit(storage.tables.(queue := Failed(Deletions(), d.id, at)));
      steps := if ok then [RevisionRuns.MarkFailed(d, at)] else [];
    }

    /** The content row, unless a file points to it or it is gone already; its queue row goes with it. */
    method DeleteIfNotCurrent(d: Deletion) returns (ok: bool, ghost steps: seq<Step>)
      requires d in taken && NamesItsRow(Db(), Deletions(), d) && d.Slot() !in storage.bytes
      modifies storage`tables, storage`trail, storage`faults
      ensures storage.faults == old(storage.faults) + if ok then 0 else 1
      ensures old(storage.Recorded()) ==> storage.Recorded()
      ensures CleansUp(uses, Keep(), old(Abstract()), old(storage.trail), steps, Abstract(), storage.trail)
      ensures Tree() == old(Tree())
      ensures Rows() == if ok && Unreferenced(Tree(), d.contentID) then old(Rows()) - {d.contentID} else old(Rows())
      ensures var goes := ok && d.contentID in old(Rows()) && Unreferenced(Tree(), d.contentID);
              Deletions() == map q | q in old(Deletions()) && !(goes && old(Deletions())[q].contentID == d.contentID) ::
                old(Deletions())[q]
    {
      ghost var s, before := Abstract(), storage.trail;
      CleansNothing(uses, Keep(), s, before);
      steps := [];
      if d.contentID in Rows() && Unreferenced(Tree(), d.contentID) {
        RowGoes(uses, Keep(), s, before, d);
        steps := [DeleteRow(d)];
      }
      ok := storage.Commit(WithoutOldRow(storage.tables, d.contentID));
      steps := if ok then steps else [];
    }

    method FinishOne(d: Deletion, rowDone: bool, now: int, retryAfter: int)
      returns (outcome: Outcome, ghost steps: seq<Step>)
      requires d in taken && (d.id in Deletions() ==> SameWork(Deletions()[d.id], d))
      requires rowDone ==> IsGone(Here(), d)
      modifies storage`tables, storage`trail, storage`faults
      ensures storage.faults >= old(storage.faults)
      ensures outcome.Reaped? <==> rowDone && storage.faults == old(storage.faults)
      ensures rowDone ==> !outcome.Postponed? && OnlyShrinks(old(Deletions()), Deletions())
      ensures !rowDone ==>
                && outcome.Postponed?
                && (storage.faults == old(storage.faults) ==>
                      PutOff(old(Deletions()), Deletions(), d.id, NextAttempt(now, retryAfter)))
      ensures old(storage.Recorded()) ==> storage.Recorded()
      ensures CleansUp(uses, Keep(), old(Abstract()), old(storage.trail), steps, Abstract(), storage.trail)
      ensures outcome.Reaped? ==> IsReaped(Here(), d)
    {
      ghost var s, before := Abstract(), storage.trail;
      if !rowDone {
        steps := MarkFailed(d, now, retryAfter);
        return Postponed, steps;
      }
      DequeuingDrains(s, d);
      CleansNothing(uses, Keep(), s, before);
      CleansByStep(uses, Keep(), s, before, Dequeue(d));
      var ok := storage.Commit(storage.tables.(queue := Deletions() - {d.id}));
      if !ok {
        return Stopped, [];
      }
      return Reaped, [Dequeue(d)];
    }

    /** One row: its bytes, its content row, its queue row, in this order at every stop. */
    method ReapOne(d: Deletion, now: int, retryAfter: int) returns (outcome: Outcome, ghost steps: seq<Step>)
      requires d in taken && NamesItsRow(Db(), Deletions(), d) && Unreferenced(Tree(), d.contentID)
      modifies storage
      ensures storage.faults >= old(storage.faults)
      ensures outcome.Reaped? <==> storage.faults == old(storage.faults)
      ensures outcome.Reaped? ==> OnlyShrinks(old(Deletions()), Deletions())
      ensures outcome.Postponed? && storage.faults == old(storage.faults) + 1 ==>
                PutOff(old(Deletions()), Deletions(), d.id, NextAttempt(now, retryAfter))
      ensures old(storage.Recorded()) ==> storage.Recorded()
      ensures CleansUp(uses, Keep(), old(Abstract()), old(storage.trail), steps, Abstract(), storage.trail)
      ensures outcome.Reaped? ==> IsReaped(Here(), d)
    {
      ghost var s, before := Abstract(), storage.trail;
      var deleted;
      deleted, steps := ReapBytes(d);
      ghost var t, mid := Abstract(), storage.trail;
      ghost var more;
      if deleted {
        outcome, more := ReapRow(d, now, retryAfter);
      } else {
        outcome := Postponed;
        more := MarkFailed(d, now, retryAfter);
      }
      CleansUpOn(uses, Keep(), s, before, steps, t, mid, more, Abstract(), storage.trail);
      steps := steps + more;
    }

    method ReapBytes(d: Deletion) returns (deleted: bool, ghost steps: seq<Step>)
      requires d in taken
      modifies storage`bytes, storage`trail, storage`faults
      ensures storage.faults == old(storage.faults) + if deleted then 0 else 1
      ensures old(storage.Recorded()) ==> storage.Recorded()
      ensures CleansUp(uses, Keep(), old(Abstract()), old(storage.trail), steps, Abstract(), storage.trail)
      ensures deleted ==> d.Slot() !in storage.bytes
    {
      ghost var s, before := Abstract(), storage.trail;
      CleansNothing(uses, Keep(), s, before);
      CleansByStep(uses, Keep(), s, before, DeleteBytes(d));
      steps := [];
      deleted := storage.Open(d.backendID);
      if deleted {
        deleted := storage.Delete(d.Slot());
        steps := if deleted then [DeleteBytes(d)] else [];
      }
    }

    /** The content row and the queue row, after the bytes. */
    method ReapRow(d: Deletion, now: int, retryAfter: int) returns (outcome: Outcome, ghost steps: seq<Step>)
      requires d in taken && NamesItsRow(Db(), Deletions(), d) && Unreferenced(Tree(), d.contentID)
      requires d.Slot() !in storage.bytes
      modifies storage`tables, storage`trail, storage`faults
      ensures storage.faults >= old(storage.faults)
      ensures outcome.Reaped? <==> storage.faults == old(storage.faults)
      ensures outcome.Reaped? ==> OnlyShrinks(old(Deletions()), Deletions())
      ensures outcome.Postponed? && storage.faults == old(storage.faults) + 1 ==>
                PutOff(old(Deletions()), Deletions(), d.id, NextAttempt(now, retryAfter))
      ensures old(storage.Recorded()) ==> storage.Recorded()
      ensures CleansUp(uses, Keep(), old(Abstract()), old(storage.trail), steps, Abstract(), storage.trail)
      ensures outcome.Reaped? ==> IsReaped(Here(), d)
    {
      ghost var s, before, queue := Abstract(), storage.trail, Deletions();
      var ok;
      ok, steps := DeleteIfNotCurrent(d);
      assert if ok then OnlyShrinks(queue, Deletions()) else Deletions() == queue;
      ghost var t, mid := Abstract(), storage.trail;
      ghost var more;
      outcome, more := FinishOne(d, ok, now, retryAfter);
      CleansUpOn(uses, Keep(), s, before, steps, t, mid, more, Abstract(), storage.trail);
      steps := steps + more;
    }

    /** One batch. It removes no row that is current or among the newest older ones. No file whose bytes no
        queued or outdated row shares reads anything else, and after guarded writes that is every file. All
        this holds wherever the call stops, too, and bytes go before rows. For each row it counts as
        processed bytes, content row and queue row are gone. */
    method Reap(batchSize: int, now: int, retryAfter: int) returns (processed: nat, ok: bool, ghost done: seq<Deletion>)
      requires Valid()
      modifies `taken, storage
      ensures Valid() && (old(Sound()) ==> Sound()) && CleanedUp(uses, Keep(), old(Abstract()), Abstract())
      ensures old(Sound()) ==> AllRead(old(Abstract()), Abstract())
      ensures storage.faults >= old(storage.faults)
      ensures CleanedThrough(uses, Keep(), old(Abstract()), old(storage.trail), storage.trail)
      ensures |done| == processed && forall d | d in done ::
                && d.id in old(Deletions()) && old(Deletions())[d.id] == d && d.nextAttemptAt <= now
                && Slot(d.backendID, d.storageKey) !in storage.bytes
                && d.contentID !in Rows() && d.id !in Deletions()
      ensures forall i, j | 0 <= i < j < |done| :: done[i].id != done[j].id
      ensures storage.faults == old(storage.faults) ==>
                ok && FirstDue(old(Deletions()), now, batchSize, done)
      ensures storage.faults == old(storage.faults) + 1 && ok ==>
                exists page :: && FirstDue(old(Deletions()), now, batchSize, page)
                               && OnePutOff(page, done, Deletions(), NextAttempt(now, retryAfter))
    {
      ghost var s, before := Abstract(), storage.trail;
      var batch, steps := ListDeletionBatch(batchSize, now);
      CleansBySteps(uses, Keep(), s, before, steps, Abstract());
      processed, ok, done, steps := ReapBatch(batch, now, retryAfter, s, before, steps);
      CleanUpMeans(uses, Keep(), s, before, steps, Abstract(), storage.trail);
      QueuedApart(s.queue, done);
    }

    method ReapBatch(batch: seq<Deletion>, now: int, retryAfter: int,
                     ghost s: State, ghost before: seq<ObjectStop>, ghost taking: seq<Step>)
      returns (processed: nat, ok: bool, ghost done: seq<Deletion>, ghost steps: seq<Step>)
      requires Reached(uses, Keep(), false, s) && storage.Recorded() && Deletions() == s.queue
      requires CleansUp(uses, Keep(), s, before, taking, Abstract(), storage.trail)
      requires forall d | d in batch :: d in taken && InQueue(s.queue, d)
      requires forall i, j | 0 <= i < j < |batch| :: batch[i] != batch[j]
      modifies storage
      ensures storage.Recorded() && storage.faults >= old(storage.faults)
      ensures storage.faults == old(storage.faults) ==> ok
      ensures ok ==> WorkedOn(s.queue, batch, done, Deletions(), storage.faults - old(storage.faults),
                              NextAttempt(now, retryAfter))
      ensures CleansUp(uses, Keep(), s, before, steps, Abstract(), storage.trail)
      ensures |done| == processed && AllReaped(Here(), batch, done)
    {
      processed, ok, done, steps := 0, true, [], taking;
      for i := 0 to |batch|
        invariant storage.Recorded() && storage.faults >= old(storage.faults) && ok
        invariant WorkedOn(s.queue, batch[..i], done, Deletions(), storage.faults - old(storage.faults),
                           NextAttempt(now, retryAfter))
        invariant CleansUp(uses, Keep(), s, before, steps, Abstract(), storage.trail)
        invariant |done| == processed
        invariant AllReaped(Here(), batch[..i], done)
      {
        NextOfBatch(batch, i);
        var outcome;
        outcome, steps := ReapNext(batch[i], now, retryAfter, s, before, steps, batch[..i], done,
                                   storage.faults - old(storage.faults));
        if outcome.Stopped? {
          ok := false;
          FewerReaped(Here(), batch, i, done);
          return;
        }
        if outcome.Reaped? {
          done := done + [batch[i]];
          processed := processed + 1;
        }
      }
      assert batch[..|batch|] == batch;
    }

    method ReapNext(d: Deletion, now: int, retryAfter: int,
                    ghost s: State, ghost before: seq<ObjectStop>, ghost earlier: seq<Step>,
                    ghost page: seq<Deletion>, ghost done: seq<Deletion>, ghost spent: int)
      returns (outcome: Outcome, ghost steps: seq<Step>)
      requires Reached(uses, Keep(), false, s) && storage.Recorded() && d in taken && InQueue(s.queue, d)
      requires WorkedOn(s.queue, page, done, Deletions(), spent, NextAttempt(now, retryAfter))
      requires AllReaped(Here(), page, done) && d !in page
      requires CleansUp(uses, Keep(), s, before, earlier, Abstract(), storage.trail)
      modifies storage
      ensures storage.Recorded() && storage.faults >= old(storage.faults)
      ensures outcome.Reaped? <==> storage.faults == old(storage.faults)
      ensures !outcome.Stopped? ==>
                WorkedOn(s.queue, page + [d], if outcome.Reaped? then done + [d] else done, Deletions(),
                         spent + storage.faults - old(storage.faults), NextAttempt(now, retryAfter))
      ensures CleansUp(uses, Keep(), s, before, steps, Abstract(), storage.trail)
      ensures AllReaped(Here(), page + [d], if outcome.Reaped? then done + [d] else done)
    {
      ghost var t, mid, queue := Abstract(), storage.trail, Deletions();
      StillQueued(uses, Keep(), s, before, earlier, t, mid, d);
      outcome, steps := ReapOne(d, now, retryAfter);
      if outcome.Reaped? {
        OneMoreReaped(s.queue, page, done, d, queue, Deletions(), spent, NextAttempt(now, retryAfter));
      } else if outcome.Postponed? {
        OneMorePutOff(s.queue, page, done, d, queue, Deletions(), spent, storage.faults - old(storage.faults),
                      NextAttempt(now, retryAfter));
      }
      CleansUpOn(uses, Keep(), s, before, earlier, t, mid, steps, Abstract(), storage.trail);
      CleaningKeepsReaped(uses, Keep(), t, mid, steps, Abstract(), storage.trail);
      AllReapedOn(StopOf(t), Here(), page, done, d);
      steps := earlier + steps;
    }
  }

  /** A deletion that failed comes back: a reap with room to spare works on it again exactly from its next
      attempt on, and then it is gone. */
  method FailThenReap(o: ObjectFiles, d: Deletion, now: int, retryAfter: int, later: int, batchSize: int)
    returns (processed: nat, ok: bool, ghost done: seq<Deletion>)
    requires o.Valid() && d in o.taken && d.id in o.Deletions() && o.Deletions()[d.id] == d
    modifies o, o.storage
    ensures o.Valid() && (old(o.Sound()) ==> o.Sound())
    ensures o.storage.faults == old(o.storage.faults) && processed < batchSize ==>
              && ((exists e :: e in done && e.id == d.id) <==>
                    now + (if retryAfter <= 0 then 60 else retryAfter) <= later)
              && (now + (if retryAfter <= 0 then 60 else retryAfter) <= later ==>
                    && Slot(d.backendID, d.storageKey) !in o.storage.bytes
                    && d.contentID !in o.Rows() && d.id !in o.Deletions())
  {
    ghost var s, before := o.Abstract(), o.storage.trail;
    ghost var steps := o.MarkFailed(d, now, retryAfter);
    CleanUpMeans(o.uses, o.Keep(), s, before, steps, o.Abstract(), o.storage.trail);
    ghost var waiting := o.Deletions();
    processed, ok, done := o.Reap(batchSize, later, retryAfter);
    if o.storage.faults == old(o.storage.faults) && processed < batchSize {
      ComesUpWhenDue(waiting, later, batchSize, done, d.id);
    }
  }

  /** When all is queued that a file has no room for, and all is due, a reap with room to spare leaves the
      file no more than the current row and the older ones it has room for. */
  method ReapHistory(o: ObjectFiles, f: nat, now: int, retryAfter: int, batchSize: int)
    returns (processed: nat, ok: bool, ghost done: seq<Deletion>)
    requires o.Valid() && HistoryQueued(o.Tree(), o.Rows(), o.keepLatest, o.Deletions(), f)
    requires forall q | q in o.Deletions() :: o.Deletions()[q].nextAttemptAt <= now
    modifies o, o.storage
    ensures o.Valid() && (old(o.Sound()) ==> o.Sound())
    ensures o.storage.faults == old(o.storage.faults) && processed < batchSize ==>
              forall c :: !HasNoRoom(o.Tree(), o.Rows(), o.keepLatest, f, c)
  {
    ghost var rows, queue := o.Rows(), o.Deletions();
    processed, ok, done := o.Reap(batchSize, now, retryAfter);
    if o.storage.faults == old(o.storage.faults) && processed < batchSize {
      assert forall q | q in queue :: queue[q] in done;
      NothingLeftOver(o.Tree(), rows, o.Rows(), o.keepLatest, queue, f);
    }
  }

  lemma ComesUpWhenDue(queue: Queue, now: int, limit: int, page: seq<Deletion>, q: nat)
    requires FirstDue(queue, now, limit, page) && |page| < limit && q in queue && queue[q].id == q
    ensures (exists e :: e in page && e.id == q) <==> queue[q].nextAttemptAt <= now
    ensures queue[q].nextAttemptAt <= now ==> queue[q] in page
  {
  }
}
