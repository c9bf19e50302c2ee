/** The workspace file tree: nodes that name their parent, live or tombstoned, and the changes that keep
    the live ones a forest. */
module FileTree {
  import opened Wrappers

  datatype Visibility = Private | Shared
  datatype ObjectType = File | Folder

  datatype Node = Node(
    id: nat, workspaceID: nat, parentID: Option<nat>, visibility: Visibility, ownerAccountID: Option<nat>,
    objectType: ObjectType, name: string, mediaType: string, fileKind: string,
    currentContentID: Option<nat>, deleted: bool)

  type Files = map<nat, Node>

  const DEFAULT_BACKEND := "local"

  datatype Content = Content(id: nat, fileID: nat, version: nat, backendID: string, storageKey: string,
                             contentHash: string) {
    function Backend(): string { if backendID == "" then DEFAULT_BACKEND else backendID }
  }

  type Contents = map<nat, Content>

  predicate Live(files: Files, id: nat) {
    id in files && !files[id].deleted
  }

  /** Same workspace, same visibility, same private owner. */
  predicate SameTree(a: Node, b: Node) {
    a.workspaceID == b.workspaceID && a.visibility == b.visibility && a.ownerAccountID == b.ownerAccountID
  }

  predicate FolderFor(files: Files, parent: nat, n: Node) {
    Live(files, parent) && files[parent].objectType == Folder && SameTree(files[parent], n)
  }

  predicate ParentFits(files: Files, n: Node) {
    n.parentID.Some? ==> FolderFor(files, n.parentID.value, n)
  }

  /** Every live node ranks above its parent, so no chain of parents goes round in a circle. */
  ghost predicate RankedBy(files: Files, rank: map<nat, nat>) {
    forall id {:trigger files[id].parentID} | Live(files, id) ::
      id in rank && (files[id].parentID.Some? ==>
        var p := files[id].parentID.value; p in rank && rank[p] < rank[id])
  }

  /** The live nodes are a forest: each parent is a live folder of the same tree, and chains end. */
  ghost predicate Forest(files: Files) {
    && (forall id | id in files :: files[id].id == id)
    && (forall id | Live(files, id) :: ParentFits(files, files[id]))
    && exists rank :: RankedBy(files, rank)
  }

  lemma EmptyIsForest()
    ensures Forest(map[])
  {
    var none: Files := map[];
    assert forall id :: !Live(none, id);
    assert RankedBy(none, map[]);
  }

  ghost function Rank(files: Files): (rank: map<nat, nat>)
    requires Forest(files)
    ensures RankedBy(files, rank)
  {
    var rank :| RankedBy(files, rank);
    rank
  }

  lemma LiveIsRanked(files: Files, id: nat)
    requires Forest(files) && Live(files, id)
    ensures id in Rank(files)
    ensures files[id].parentID.Some? ==>
              files[id].parentID.value in Rank(files) && Rank(files)[files[id].parentID.value] < Rank(files)[id]
  {
  }

  /** What is live keeps its parent, so the old ranks still fit. */
  lemma SameParentsSameRank(files: Files, after: Files)
    requires Forest(files) && forall k | Live(after, k) :: Live(files, k) && after[k].parentID == files[k].parentID
    ensures RankedBy(after, Rank(files))
  {
    forall k | Live(after, k)
      ensures k in Rank(files) && (after[k].parentID.Some? ==>
                after[k].parentID.value in Rank(files) && Rank(files)[after[k].parentID.value] < Rank(files)[k])
    {
      LiveIsRanked(files, k);
    }
  }

  /** `id` is `root` or below it. */
  ghost predicate Under(files: Files, id: nat, root: nat)
    requires Forest(files) && Live(files, id)
    decreases Rank(files)[id]
  {
    id == root || (files[id].parentID.Some? && Under(files, files[id].parentID.value, root))
  }

  ghost function Subtree(files: Files, root: nat): set<nat>
    requires Forest(files)
  {
    set id | id in files && Live(files, id) && Under(files, id, root)
  }

  lemma {:induction false} UnderRank(files: Files, id: nat, root: nat)
    requires Forest(files) && Live(files, id) && Under(files, id, root)
    ensures Live(files, root) && SameTree(files[root], files[id])
    ensures id != root ==> Rank(files)[root] < Rank(files)[id]
    decreases Rank(files)[id]
  {
    if id != root {
      UnderRank(files, files[id].parentID.value, root);
    }
  }

  lemma {:induction false} UnderTransitive(files: Files, low: nat, mid: nat, high: nat)
    requires Forest(files) && Live(files, low) && Live(files, mid) && Under(files, low, mid) && Under(files, mid, high)
    ensures Under(files, low, high)
    decreases Rank(files)[low]
  {
    if low != mid {
      UnderTransitive(files, files[low].parentID.value, mid, high);
    }
  }

  /** Every chain of parents ends: it reaches a live node with no parent. */
  lemma {:induction false} EveryChainEnds(files: Files, id: nat) returns (top: nat)
    requires Forest(files) && Live(files, id)
    ensures Live(files, top) && files[top].parentID.None? && Under(files, id, top) && SameTree(files[top], files[id])
    decreases Rank(files)[id]
  {
    if files[id].parentID.None? {
      top := id;
    } else {
      top := EveryChainEnds(files, files[id].parentID.value);
    }
  }

  // ---------------------------------------------------------------- insert, move, delete

  /** A new node under a fitting parent. */
  lemma InsertKeepsForest(files: Files, n: Node)
    requires Forest(files) && n.id !in files && !n.deleted && ParentFits(files, n)
    ensures Forest(files[n.id := n])
  {
    var rank := Rank(files);
    var rank' := rank[n.id := if n.parentID.Some? then rank[n.parentID.value] + 1 else 0];
    forall k | Live(files[n.id := n], k) && k != n.id ensures k in rank && files[n.id := n][k] == files[k] {
      LiveIsRanked(files, k);
    }
    assert RankedBy(files[n.id := n], rank');
  }

  function Moved(files: Files, id: nat, parent: Option<nat>, name: string): Files
    requires id in files
  {
    files[id := files[id].(parentID := parent, name := name)]
  }

  /** Moving a live node under a fitting parent keeps the forest exactly when the parent is not in the
      node's own subtree. */
  lemma MoveKeepsForestIff(files: Files, id: nat, parent: Option<nat>, name: string)
    requires Forest(files) && Live(files, id) && ParentFits(files, files[id].(parentID := parent))
    ensures Forest(Moved(files, id, parent, name)) <==> (parent.Some? ==> !Under(files, parent.value, id))
  {
    if parent.Some? && Under(files, parent.value, id) {
      if Forest(Moved(files, id, parent, name)) {
        CycleHasNoRank(files, id, parent.value, parent, name);
      }
    } else {
      MoveKeepsForest(files, id, parent, name);
    }
  }

  lemma MoveKeepsForest(files: Files, id: nat, parent: Option<nat>, name: string)
    requires Forest(files) && Live(files, id) && ParentFits(files, files[id].(parentID := parent))
    requires parent.Some? ==> !Under(files, parent.value, id)
    ensures Forest(Moved(files, id, parent, name))
  {
    var after := Moved(files, id, parent, name);
    MovedIsRanked(files, id, parent, name);
    assert forall k | Live(after, k) :: ParentFits(after, after[k]);
  }

  lemma MovedIsRanked(files: Files, id: nat, parent: Option<nat>, name: string)
    requires Forest(files) && Live(files, id) && ParentFits(files, files[id].(parentID := parent))
    requires parent.Some? ==> !Under(files, parent.value, id)
    ensures RankedBy(Moved(files, id, parent, name), Lifted(files, id, parent))
  {
    var after := Moved(files, id, parent, name);
    forall k | Live(after, k)
      ensures k in Lifted(files, id, parent)
      ensures after[k].parentID.Some? ==>
                var p := after[k].parentID.value;
                p in Lifted(files, id, parent) && Lifted(files, id, parent)[p] < Lifted(files, id, parent)[k]
    {
      LiftedRanks(files, id, parent, name, k);
    }
  }

  /** The old ranks, with the moved subtree raised above its new parent. */
  ghost function Lifted(files: Files, id: nat, parent: Option<nat>): map<nat, nat>
    requires Forest(files)
  {
    var rank := Rank(files);
    var lift := if parent.Some? && parent.value in rank then rank[parent.value] + 1 else 0;
    map k | k in rank :: if k in Subtree(files, id) then rank[k] + lift else rank[k]
  }

  lemma LiftedRanks(files: Files, id: nat, parent: Option<nat>, name: string, k: nat)
    requires Forest(files) && Live(files, id) && ParentFits(files, files[id].(parentID := parent))
    requires parent.Some? ==> !Under(files, parent.value, id)
    requires Live(files, k)
    ensures var after, rank := Moved(files, id, parent, name), Lifted(files, id, parent);
            k in rank && (after[k].parentID.Some? ==>
              after[k].parentID.value in rank && rank[after[k].parentID.value] < rank[k])
  {
    var after := Moved(files, id, parent, name);
    if after[k].parentID.Some? {
      var p := after[k].parentID.value;
      assert Live(files, p);
      assert k != id ==> (k in Subtree(files, id) <==> p in Subtree(files, id));
      assert id in Subtree(files, id);
    }
  }

  /** Up the chain from `low` to the moved node, ranks fall; and the moved node would rank above `low`. */
  lemma {:induction false} CycleHasNoRank(files: Files, id: nat, low: nat, parent: Option<nat>, name: string)
    requires Forest(files) && Live(files, id) && Live(files, low) && Under(files, low, id)
    requires Forest(Moved(files, id, parent, name))
    ensures id in Rank(Moved(files, id, parent, name)) && low in Rank(Moved(files, id, parent, name))
    ensures id != low ==> Rank(Moved(files, id, parent, name))[id] < Rank(Moved(files, id, parent, name))[low]
    ensures parent != Some(low)
    decreases Rank(files)[low]
  {
    var after := Moved(files, id, parent, name);
    assert Live(after, id) && Live(after, low);
    if low != id {
      CycleHasNoRank(files, id, files[low].parentID.value, parent, name);
      assert after[low] == files[low];
    }
  }

  function Tombstoned(files: Files, ids: set<nat>): Files {
    map k | k in files :: if k in ids then files[k].(deleted := true) else files[k]
  }

  /** Tombstones mark the live nodes of the subtree and change nothing else. */
  lemma DeleteKeepsForest(files: Files, root: nat)
    requires Forest(files)
    ensures var after := Tombstoned(files, Subtree(files, root));
            && Forest(after) && after.Keys == files.Keys
            && forall k | k in files ::
                 after[k] == if Live(files, k) && Under(files, k, root) then files[k].(deleted := true) else files[k]
  {
    var gone := Subtree(files, root);
    var after := Tombstoned(files, gone);
    forall id | Live(after, id) ensures ParentFits(after, after[id]) {
      if files[id].parentID.Some? {
        assert files[id].parentID.value !in gone;
      }
    }
    assert RankedBy(after, Rank(files));
  }

  // ---------------------------------------------------------------- the walk up and the scan down

  datatype LocationError = MoveCycle | InvalidParent

  /** The update's own check: walk from the new parent to the top, refusing to meet the moved node. */
  method ValidateLocation(files: Files, file: Node) returns (error: Option<LocationError>)
    requires Forest(files)
    ensures error.None? <==>
            ParentFits(files, file) && (file.parentID.Some? ==> !Under(files, file.parentID.value, file.id))
    ensures error == Some(MoveCycle) <==>
            file.parentID.Some? && (file.parentID.value == file.id
                                    || (ParentFits(files, file) && Under(files, file.parentID.value, file.id)))
  {
    var parentID := file.parentID;
    ghost var start := file.parentID;
    while parentID.Some?
      invariant parentID != start ==> start.Some? && ParentFits(files, file) && start.value != file.id
      invariant parentID.Some? && parentID != start ==> FolderFor(files, parentID.value, file)
      invariant parentID != start ==>
                  (Under(files, start.value, file.id) <==> parentID.Some? && Under(files, parentID.value, file.id))
      decreases parentID.Some?, if parentID.Some? && Live(files, parentID.value) then Rank(files)[parentID.value] else 0
    {
      if parentID.value == file.id {
        return Some(MoveCycle);
      }
      if !Live(files, parentID.value) {
        return Some(InvalidParent);
      }
      var parent := files[parentID.value];
      if !SameTree(parent, file) || parent.objectType != Folder {
        return Some(InvalidParent);
      }
      parentID := parent.parentID;
    }
    return None;
  }

  /** The recursive query: the node, then the live children of each level. */
  method ListSubtree(files: Files, root: nat) returns (ids: set<nat>)
    requires Forest(files)
    ensures ids == Subtree(files, root)
  {
    var level := if Live(files, root) then {root} else {};
    ids := level;
    ScanStart(files, root);
    while level != {}
      invariant Scanned(files, root, ids, level)
      decreases |files.Keys - ids|, |level|
    {
      var next := Children(files, level);
      ScanStep(files, root, ids, level);
      ids := ids + next;
      level := next;
    }
    ScanComplete(files, root, ids);
  }

  /** `ids` are the levels seen so far, `level` the last of them. */
  ghost predicate Scanned(files: Files, root: nat, ids: set<nat>, level: set<nat>)
    requires Forest(files)
  {
    && level <= ids <= Subtree(files, root)
    && (Live(files, root) ==> root in ids)
    && (forall id | id in ids && id != root :: files[id].parentID.Some? && files[id].parentID.value in ids - level)
    && Children(files, ids - level) <= ids
  }

  lemma ScanStart(files: Files, root: nat)
    requires Forest(files)
    ensures var level := if Live(files, root) then {root} else {}; Scanned(files, root, level, level)
  {
    var level := if Live(files, root) then {root} else {};
    assert Children(files, level - level) == {};
  }

  lemma ScanComplete(files: Files, root: nat, ids: set<nat>)
    requires Forest(files) && Scanned(files, root, ids, {})
    ensures ids == Subtree(files, root)
  {
    assert ids - {} == ids;
    forall id | id in Subtree(files, root) ensures id in ids {
      ClosedHoldsSubtree(files, root, ids, id);
    }
  }

  lemma ScanStep(files: Files, root: nat, ids: set<nat>, level: set<nat>)
    requires Forest(files) && Scanned(files, root, ids, level)
    ensures Children(files, level) !! ids
    ensures Scanned(files, root, ids + Children(files, level), Children(files, level))
    ensures Children(files, level) != {} ==> |files.Keys - (ids + Children(files, level))| < |files.Keys - ids|
  {
    var next := Children(files, level);
    assert next <= files.Keys;
    ChildrenAreNew(files, root, ids, level);
    assert (ids + next) - next == ids;
    forall id | id in Children(files, ids) ensures id in ids + next {
      assert id in Children(files, ids - level) || id in Children(files, level);
    }
    assert files.Keys - ids == (files.Keys - (ids + next)) + next;
  }

  function Children(files: Files, parents: set<nat>): set<nat> {
    set id | id in files && Live(files, id) && files[id].parentID.Some? && files[id].parentID.value in parents
  }

  /** In a forest no level of the query meets a node a second time. */
  lemma ChildrenAreNew(files: Files, root: nat, ids: set<nat>, level: set<nat>)
    requires Forest(files) && level <= ids <= Subtree(files, root)
    requires forall id | id in ids && id != root :: files[id].parentID.Some? && files[id].parentID.value in ids - level
    ensures Children(files, level) !! ids && Children(files, level) <= Subtree(files, root)
  {
    forall id | id in Children(files, level) ensures id !in ids && id in Subtree(files, root) {
      var p := files[id].parentID.value;
      assert p in Subtree(files, root);
      if id == root {
        UnderRank(files, p, root);
      }
    }
  }

  lemma {:induction false} ClosedHoldsSubtree(files: Files, root: nat, ids: set<nat>, id: nat)
    requires Forest(files) && Live(files, id) && Under(files, id, root)
    requires (Live(files, root) ==> root in ids) && Children(files, ids) <= ids
    ensures id in ids
    decreases Rank(files)[id]
  {
    if id != root {
      ClosedHoldsSubtree(files, root, ids, files[id].parentID.value);
      assert id in Children(files, ids);
    }
  }
}
