/** Where a file's bytes are: from the node to its current content row to a slot on a backend. */
module StoredFiles {
  import opened Wrappers
  import opened FileTree
  import opened Relocations

  /** The tables of files and of their content rows. */
  datatype Metadata = Metadata(files: Files, contents: Contents)

  /** The bytes a live file reads. */
  function ReadIn(files: Files, contents: Contents, bytes: ByteMap, id: nat): Option<Bytes>
    requires id in files
  {
    match files[id].currentContentID
    case None => None
    case Some(c) => if c in contents then Relocations.Lookup(bytes, SlotOf(contents[c])) else None
  }

  function SlotOf(c: Content): Slot {
    Slot(c.Backend(), c.storageKey)
  }

  function Pointed(files: Files, id: nat, c: nat): Files
    requires id in files
  {
    files[id := files[id].(currentContentID := Some(c))]
  }

  /** The content rows of a live subtree. */
  ghost function SubtreeContents(files: Files, contents: Contents, id: nat): set<nat>
    requires Forest(files)
  {
    set c | c in contents && Live(files, contents[c].fileID) && Under(files, contents[c].fileID, id)
  }

  ghost function SlotsOf(contents: Contents, rows: set<nat>): set<Slot>
    requires rows <= contents.Keys
  {
    set c | c in rows :: SlotOf(contents[c])
  }

  // ---------------------------------------------------------------- where calls may stop

  /** What a write may be stopped in: other files read what they read before, the file the old bytes or
      the new. */
  ghost predicate WriteStop(files: Files, contents: Contents, bytes: ByteMap, id: nat, data: Bytes,
                            stop: Stop<Metadata>)
  {
    forall k | Live(files, k) ::
      && k in stop.tables.files
      && var before := ReadIn(files, contents, bytes, k);
         var now := ReadIn(stop.tables.files, stop.tables.contents, stop.bytes, k);
         now == before || (k == id && now == Some(data))
  }

  /** Every file that the tombstones leave reads what it read before. */
  ghost predicate SurvivorsRead(files: Files, contents: Contents, bytes: ByteMap, stop: Stop<Metadata>) {
    forall k | Live(stop.tables.files, k) ::
      && k in files
      && ReadIn(stop.tables.files, stop.tables.contents, stop.bytes, k) == ReadIn(files, contents, bytes, k)
  }
}
