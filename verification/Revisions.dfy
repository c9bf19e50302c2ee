/** Object storage mode: keys made of ids and versions, the revision history, and its retention rule. */
module Revisions {
  import opened Wrappers
  import opened FileTree
  import opened FilePaths
  import opened Relocations
  import opened StoredFiles

  /** Whether a file's writes append versions: the revision policy together with the classification of a
      file by its name, media type and kind. */
  type Uses = (string, string, string) -> bool

  predicate Versioned(uses: Uses, n: Node) {
    uses(n.name, n.mediaType, n.fileKind)
  }

  // ---------------------------------------------------------------- keys

  function ObjectKey(workspaceID: nat, fileID: nat, suffix: seq<string>): string {
    Join(["objects", Decimal(workspaceID), Decimal(fileID)] + suffix)
  }

  function VersionSuffix(version: nat): seq<string> {
    ["versions", Decimal(version)]
  }

  const CURRENT_SUFFIX := ["current"]

  function ContentKey(uses: Uses, n: Node, current: Option<Content>): string {
    var version := if current.Some? then current.value.version + 1 else 1;
    ObjectKey(n.workspaceID, n.id, if Versioned(uses, n) then VersionSuffix(version) else CURRENT_SUFFIX)
  }

  /** The keys of a file's versions and of its unversioned content, spelled out. */
  lemma ObjectKeySpells(w: nat, f: nat, version: nat)
    ensures ObjectKey(w, f, VersionSuffix(version)) ==
            Slashed("objects", Slashed(Decimal(w), Decimal(f))) + "/" + Slashed("versions", Decimal(version))
    ensures ObjectKey(w, f, CURRENT_SUFFIX) == Slashed("objects", Slashed(Decimal(w), Decimal(f))) + "/" + "current"
  {
    JoinSplits(["objects", Decimal(w), Decimal(f)], VersionSuffix(version));
    JoinSplits(["objects", Decimal(w), Decimal(f)], CURRENT_SUFFIX);
    ThreeSegments("objects", Decimal(w), Decimal(f));
    TwoSegments("versions", Decimal(version));
  }

  lemma ThreeSegments(a: string, b: string, c: string)
    ensures Join([a, b, c]) == Slashed(a, Slashed(b, c))
  {
    assert [a, b, c][1..] == [b, c];
    TwoSegments(b, c);
  }

  lemma SuffixesAreValid(version: nat)
    ensures ValidSegments(VersionSuffix(version)) && ValidSegments(CURRENT_SUFFIX)
  {
    DecimalIsSegment(version, "");
    assert Decimal(version) + "" == Decimal(version);
  }

  /** A key names its file and what is kept there: no two files share a key. */
  lemma ObjectKeyInjective(w: nat, f: nat, s: seq<string>, w': nat, f': nat, s': seq<string>)
    requires ValidSegments(s) && ValidSegments(s') && ObjectKey(w, f, s) == ObjectKey(w', f', s')
    ensures f == f' && s == s'
  {
    var k, k' := ["objects", Decimal(w), Decimal(f)] + s, ["objects", Decimal(w'), Decimal(f')] + s';
    NumbersAreSegments(w, f);
    NumbersAreSegments(w', f');
    JoinInjective(k, k');
    assert k[2] == k'[2] && k[3..] == k'[3..];
    DecimalInjective(f, f');
  }

  lemma NumbersAreSegments(w: nat, f: nat)
    ensures ValidSegments(["objects", Decimal(w), Decimal(f)])
  {
    DecimalIsSegment(w, "");
    DecimalIsSegment(f, "");
    assert Decimal(w) + "" == Decimal(w) && Decimal(f) + "" == Decimal(f);
  }

  /** Versions of a file do not share a key, nor does any of them with the key of unversioned content. */
  lemma SuffixInjective(version: nat, version': nat)
    ensures VersionSuffix(version) == VersionSuffix(version') ==> version == version'
    ensures VersionSuffix(version) != CURRENT_SUFFIX
  {
    if VersionSuffix(version) == VersionSuffix(version') {
      assert VersionSuffix(version)[1] == VersionSuffix(version')[1];
      DecimalInjective(version, version');
    }
    assert |VersionSuffix(version)| != |CURRENT_SUFFIX|;
  }

  // ---------------------------------------------------------------- tables

  datatype Deletion = Deletion(id: nat, contentID: nat, backendID: string, storageKey: string, attempts: nat,
                               nextAttemptAt: int) {
    function Slot(): Slot { Relocations.Slot(backendID, storageKey) }
  }

  type Queue = map<nat, Deletion>

  predicate IsCurrent(files: Files, row: Content) {
    row.fileID in files && files[row.fileID].currentContentID == Some(row.id)
  }

  function CurrentOf(files: Files, contents: Contents, f: nat): Option<Content>
    requires f in files
  {
    match files[f].currentContentID
    case None => None
    case Some(c) => if c in contents then Some(contents[c]) else None
  }

  /** The older rows of the same file that are newer than `row`. */
  function Newer(files: Files, contents: Contents, row: Content): set<nat> {
    set r | r in contents && contents[r].fileID == row.fileID && !IsCurrent(files, contents[r])
        && contents[r].version > row.version
  }

  /** A row the retention rule gives up: an older row with `keep` newer older rows. */
  predicate Outdated(files: Files, contents: Contents, keep: nat, row: Content) {
    !IsCurrent(files, row) && |Newer(files, contents, row)| >= keep
  }

  /** The rows retention lists for a file. */
  function Candidates(files: Files, contents: Contents, keep: nat, f: nat): set<nat> {
    if Live(files, f) && files[f].objectType == File && files[f].currentContentID.Some? then
      set c | c in contents && contents[c].fileID == f && Outdated(files, contents, keep, contents[c])
    else {}
  }

  /** The row a save writes, and the tables after it. */
  function SavedRow(versioned: bool, files: Files, contents: Contents, nextID: nat, f: nat, content: Content): Content
    requires f in files
  {
    var current := CurrentOf(files, contents, f);
    if current.None? then content.(id := nextID, fileID := f, version := 1)
    else if versioned then content.(id := nextID, fileID := f, version := current.value.version + 1)
    else content.(id := current.value.id, fileID := f, version := current.value.version)
  }

  predicate HasSlot(row: Content, d: Deletion) {
    d.contentID == row.id && d.Slot() == SlotOf(row)
  }

  predicate Queued(queue: Queue, contentID: nat) {
    exists q :: q in queue && queue[q].contentID == contentID
  }

  function QueueWithout(queue: Queue, contentID: nat): Queue {
    map q | q in queue && queue[q].contentID != contentID :: queue[q]
  }

  function Failed(queue: Queue, q: nat, at: int): Queue {
    if q in queue then queue[q := queue[q].(attempts := queue[q].attempts + 1, nextAttemptAt := at)] else queue
  }
}
