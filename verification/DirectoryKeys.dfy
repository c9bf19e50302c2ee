/** File storage mode: every live file's content sits at the key that spells its visible path. */
module DirectoryKeys {
  import opened Wrappers
  import opened FileTree
  import opened FilePaths

  ghost predicate NodeOk(workspaces: Workspaces, n: Node) {
    n.workspaceID in workspaces && WorkspaceOk(workspaces[n.workspaceID]) && OwnerFits(n) && ValidSegment(n.name)
  }

  ghost predicate TreeOk(workspaces: Workspaces, files: Files) {
    && Forest(files) && NamesUnique(files)
    && forall id | Live(files, id) :: NodeOk(workspaces, files[id])
  }

  lemma {:induction false} PathValid(workspaces: Workspaces, files: Files, id: nat)
    requires TreeOk(workspaces, files) && Live(files, id)
    ensures ValidSegments(PathOf(files, id))
    decreases Rank(files)[id]
  {
    if files[id].parentID.Some? {
      PathValid(workspaces, files, files[id].parentID.value);
    }
    assert NodeOk(workspaces, files[id]);
  }

  /** The key of a live node: its tree's base, then its visible path. */
  ghost function KeyOf(workspaces: Workspaces, files: Files, id: nat): string
    requires TreeOk(workspaces, files) && Live(files, id)
  {
    Join(Base(workspaces, files[id]) + PathOf(files, id))
  }

  /** No two live nodes, of the same tree or of different ones, share a key. */
  lemma KeyInjective(workspaces: Workspaces, files: Files, a: nat, b: nat)
    requires TreeOk(workspaces, files) && Live(files, a) && Live(files, b)
    requires KeyOf(workspaces, files, a) == KeyOf(workspaces, files, b)
    ensures a == b
  {
    SameKeySamePath(workspaces, files, a, files, b);
    PathInjective(files, a, b);
  }

  lemma SameKeySamePath(workspaces: Workspaces, f: Files, a: nat, g: Files, b: nat)
    requires TreeOk(workspaces, f) && Live(f, a) && TreeOk(workspaces, g) && Live(g, b)
    requires KeyOf(workspaces, f, a) == KeyOf(workspaces, g, b)
    ensures SameTree(f[a], g[b]) && PathOf(f, a) == PathOf(g, b)
  {
    var ba, bb, p, q := Base(workspaces, f[a]), Base(workspaces, g[b]), PathOf(f, a), PathOf(g, b);
    PathValid(workspaces, f, a);
    PathValid(workspaces, g, b);
    BaseValid(workspaces, f[a]);
    BaseValid(workspaces, g[b]);
    assert ValidSegments(ba + p) && ValidSegments(bb + q);
    JoinInjective(ba + p, bb + q);
    BaseInjective(workspaces, f[a], p, g[b], q);
  }

  // ---------------------------------------------------------------- keys across a move

  /** A move of a directory tree: accepted by the database, to a valid name, and to a different place. */
  ghost predicate RealMove(workspaces: Workspaces, files: Files, id: nat, parent: Option<nat>, name: string) {
    && TreeOk(workspaces, files) && Accepted(files, id, parent, name) && ValidSegment(name)
    && (parent != files[id].parentID || name != files[id].name)
  }

  lemma MoveKeepsTree(workspaces: Workspaces, files: Files, id: nat, parent: Option<nat>, name: string)
    requires TreeOk(workspaces, files) && Accepted(files, id, parent, name) && ValidSegment(name)
    ensures TreeOk(workspaces, Moved(files, id, parent, name))
  {
    MoveKeepsForest(files, id, parent, name);
    var after := Moved(files, id, parent, name);
    forall k | Live(after, k) ensures NodeOk(workspaces, after[k]) {
      assert NodeOk(workspaces, files[k]);
    }
  }

  ghost function PathAbove(files: Files, parent: Option<nat>): seq<string>
    requires Forest(files) && (parent.Some? ==> Live(files, parent.value))
  {
    if parent.Some? then PathOf(files, parent.value) else []
  }

  /** One level of the walk up from a node of the tree: `p` names itself, and its own parent fits as well. */
  lemma StepUp(files: Files, p: nat, n: Node, names: seq<string>)
    requires Forest(files) && Live(files, p) && SameTree(files[p], n)
    ensures files[p].parentID.Some? ==>
              && FolderFor(files, files[p].parentID.value, n) && p in Rank(files)
                 && files[p].parentID.value in Rank(files)
              && Rank(files)[files[p].parentID.value] < Rank(files)[p]
    ensures PathAbove(files, Some(p)) + names == PathAbove(files, files[p].parentID) + ([files[p].name] + names)
  {
    LiveIsRanked(files, p);
  }

  /** Where the node will be: its new parent's path and its new name. */
  ghost function TargetPath(files: Files, parent: Option<nat>, name: string): seq<string>
    requires Forest(files) && (parent.Some? ==> Live(files, parent.value))
  {
    PathAbove(files, parent) + [name]
  }

  lemma TargetIsNewPath(workspaces: Workspaces, files: Files, id: nat, parent: Option<nat>, name: string)
    requires TreeOk(workspaces, files) && Accepted(files, id, parent, name) && ValidSegment(name)
    ensures TreeOk(workspaces, Moved(files, id, parent, name)) && Live(Moved(files, id, parent, name), id)
    ensures PathOf(Moved(files, id, parent, name), id) == TargetPath(files, parent, name)
  {
    MoveKeepsTree(workspaces, files, id, parent, name);
    if parent.Some? {
      PathOutside(files, id, parent, name, parent.value);
    }
  }

  lemma KeyOutside(workspaces: Workspaces, files: Files, id: nat, parent: Option<nat>, name: string, k: nat)
    requires TreeOk(workspaces, files) && Accepted(files, id, parent, name) && ValidSegment(name)
    requires Live(files, k) && !Under(files, k, id)
    ensures TreeOk(workspaces, Moved(files, id, parent, name)) && Live(Moved(files, id, parent, name), k)
    ensures KeyOf(workspaces, Moved(files, id, parent, name), k) == KeyOf(workspaces, files, k)
  {
    MoveKeepsTree(workspaces, files, id, parent, name);
    PathOutside(files, id, parent, name, k);
  }

  predicate HasRoot(key: string, root: string) {
    key == root || root + "/" <= key
  }

  function SwapRoot(key: string, oldRoot: string, newRoot: string): string {
    newRoot + if oldRoot <= key then key[|oldRoot|..] else key
  }

  lemma SwapText(root: string, tail: string, newRoot: string)
    requires tail == "" || tail[0] == '/'
    ensures HasRoot(root + tail, root) && SwapRoot(root + tail, root, newRoot) == newRoot + tail
  {
    assert (root + tail)[|root|..] == tail;
    if tail == "" {
      assert root + tail == root;
    } else {
      assert tail == "/" + tail[1..];
      assert root + tail == root + "/" + tail[1..];
    }
  }

  lemma SwapJoined(base: seq<string>, oldPath: seq<string>, newPath: seq<string>, rest: seq<string>)
    requires base != [] && oldPath != [] && newPath != []
    ensures HasRoot(Join(base + (oldPath + rest)), Join(base + oldPath))
    ensures SwapRoot(Join(base + (oldPath + rest)), Join(base + oldPath), Join(base + newPath)) ==
              Join(base + (newPath + rest))
  {
    var was, now := base + oldPath, base + newPath;
    assert base + (oldPath + rest) == was + rest && base + (newPath + rest) == now + rest;
    var tail := if rest == [] then "" else "/" + Join(rest);
    assert Join(was + rest) == Join(was) + tail && Join(now + rest) == Join(now) + tail by {
      JoinWithTail(was, rest);
      JoinWithTail(now, rest);
    }
    SwapText(Join(was), tail, Join(now));
  }

  lemma JoinWithTail(a: seq<string>, rest: seq<string>)
    requires a != []
    ensures Join(a + rest) == Join(a) + if rest == [] then "" else "/" + Join(rest)
  {
    if rest == [] {
      assert a + rest == a;
    } else {
      JoinSplits(a, rest);
      assert Join(a) + "/" + Join(rest) == Join(a) + ("/" + Join(rest));
    }
  }

  /** Inside the moved subtree, replacing the old root of a key by the new one gives the key of the new path. */
  lemma SwapGivesNewKey(workspaces: Workspaces, files: Files, id: nat, parent: Option<nat>, name: string, k: nat)
    requires TreeOk(workspaces, files) && Accepted(files, id, parent, name) && ValidSegment(name)
    requires Live(files, k) && Under(files, k, id)
    ensures TreeOk(workspaces, Moved(files, id, parent, name)) && Live(Moved(files, id, parent, name), k)
    ensures var oldRoot, newRoot := KeyOf(workspaces, files, id),
              Join(Base(workspaces, files[id]) + TargetPath(files, parent, name));
            && HasRoot(KeyOf(workspaces, files, k), oldRoot)
            && SwapRoot(KeyOf(workspaces, files, k), oldRoot, newRoot) ==
               KeyOf(workspaces, Moved(files, id, parent, name), k)
  {
    TargetIsNewPath(workspaces, files, id, parent, name);
    UnderRank(files, k, id);
    StaysInItsTree(files, id, parent, name, k);
    var rest := PathInside(files, id, parent, name, k);
    assert Base(workspaces, files[k]) == Base(workspaces, files[id]) ==
           Base(workspaces, Moved(files, id, parent, name)[k]);
    SwapJoined(Base(workspaces, files[id]), PathOf(files, id), TargetPath(files, parent, name), rest);
  }

  /** No key inside the moved subtree is, after the move, a key any live node had before. */
  lemma NewKeysAreNew(workspaces: Workspaces, files: Files, id: nat, parent: Option<nat>, name: string, k: nat, g: nat)
    requires RealMove(workspaces, files, id, parent, name)
    requires Live(files, k) && Under(files, k, id) && Live(files, g)
    ensures TreeOk(workspaces, Moved(files, id, parent, name)) && Live(Moved(files, id, parent, name), k)
    ensures KeyOf(workspaces, Moved(files, id, parent, name), k) != KeyOf(workspaces, files, g)
  {
    MoveKeepsTree(workspaces, files, id, parent, name);
    StaysInItsTree(files, id, parent, name, k);
    if KeyOf(workspaces, Moved(files, id, parent, name), k) == KeyOf(workspaces, files, g) {
      SameKeySamePath(workspaces, Moved(files, id, parent, name), k, files, g);
      NewPathsAreNew(files, id, parent, name, k, g);
    }
  }

  // ---------------------------------------------------------------- the mirror

  /** Every live file's current content is at the file's key, and is its only content row. */
  ghost predicate Mirrors(workspaces: Workspaces, files: Files, contents: Contents)
    requires TreeOk(workspaces, files)
  {
    && (forall c | c in contents :: contents[c].id == c && contents[c].fileID in files)
    && (forall c | c in contents && Live(files, contents[c].fileID) ::
        files[contents[c].fileID].currentContentID == Some(c))
    && (forall id | Live(files, id) && files[id].currentContentID.Some? ::
          var c := files[id].currentContentID.value;
          c in contents && contents[c].fileID == id && contents[c].storageKey == KeyOf(workspaces, files, id))
  }

  /** The rows after a move: those of the subtree at their files' new keys. */
  ghost predicate Relocated(workspaces: Workspaces, files: Files, contents: Contents, id: nat, moved: Files,
                            after: Contents)
    requires Forest(files) && TreeOk(workspaces, moved) && (forall k | Live(files, k) :: Live(moved, k))
  {
    && after.Keys == contents.Keys
    && forall c | c in contents ::
         after[c] ==
           if Live(files, contents[c].fileID) && Under(files, contents[c].fileID, id) then
             contents[c].(storageKey := KeyOf(workspaces, moved, contents[c].fileID))
           else contents[c]
  }

  lemma MoveKeepsMirror(workspaces: Workspaces, files: Files, contents: Contents, id: nat, parent: Option<nat>,
                        name: string, after: Contents)
    requires TreeOk(workspaces, files) && Accepted(files, id, parent, name) && ValidSegment(name)
    requires Mirrors(workspaces, files, contents)
    requires TreeOk(workspaces, Moved(files, id, parent, name))
    requires Relocated(workspaces, files, contents, id, Moved(files, id, parent, name), after)
    ensures Mirrors(workspaces, Moved(files, id, parent, name), after)
  {
    var moved := Moved(files, id, parent, name);
    forall k | Live(moved, k) && moved[k].currentContentID.Some?
      ensures var c := moved[k].currentContentID.value;
              c in after && after[c].fileID == k && after[c].storageKey == KeyOf(workspaces, moved, k)
    {
      assert Live(files, k) && files[k].currentContentID == moved[k].currentContentID;
      if !Under(files, k, id) {
        KeyOutside(workspaces, files, id, parent, name, k);
      }
    }
  }

  lemma PathTail(files: Files, id: nat, k: nat) returns (rest: seq<string>)
    requires Forest(files) && Live(files, id) && Live(files, k) && Under(files, k, id)
    ensures PathOf(files, k) == PathOf(files, id) + rest && SameTree(files[id], files[k])
  {
    UnderExtendsPath(files, k, id);
    UnderRank(files, k, id);
    rest := PathOf(files, k)[|PathOf(files, id)|..];
  }

  /** A subtree's keys all start at its root's key. */
  lemma SubtreeHasRoot(workspaces: Workspaces, files: Files, id: nat, k: nat)
    requires TreeOk(workspaces, files) && Live(files, id) && Live(files, k) && Under(files, k, id)
    ensures HasRoot(KeyOf(workspaces, files, k), KeyOf(workspaces, files, id))
  {
    var rest := PathTail(files, id, k);
    SwapJoined(Base(workspaces, files[id]), PathOf(files, id), PathOf(files, id), rest);
  }
}
