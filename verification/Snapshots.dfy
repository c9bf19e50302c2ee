/** Schema snapshots: immutable generations per connection, one of them active, published atomically.
    The tables are maps; one database transaction is one step. */
module Snapshots {
  import opened Wrappers
  import opened Query

  datatype Status = Building | Ready

  datatype Snapshot = Snapshot(
    id: nat, connectionID: int, orgID: Option<int>, status: Status, isActive: bool,
    directory: string, generatedAt: int, createdAt: int, completedAt: Option<int>)

  datatype Directory = Directory(data: string, generatedAt: Option<int>)

  /** The connection's own policy and the flag of the organization it belongs to, if any. */
  datatype Policy = Policy(disabled: bool, orgEnabled: Option<bool>)

  datatype Error =
    DirectoryRequired | DuplicateID | NotFound | NotPublishable | ConnectionNotFound | SnapshotsDisabled | Superseded

  type Rows = map<nat, Snapshot>

  // ---------------------------------------------------------------- the queries

  function ActiveRows(rows: Rows, connection: int): set<Snapshot> {
    set id | id in rows && rows[id].connectionID == connection && rows[id].isActive :: rows[id]
  }

  function ReadyRows(rows: Rows, connection: int): set<Snapshot> {
    set id | id in rows && rows[id].connectionID == connection && rows[id].status == Ready :: rows[id]
  }

  /** `ORDER BY completed_at DESC, created_at DESC`. */
  predicate Newer(a: Snapshot, b: Snapshot) {
    match (a.completedAt, b.completedAt)
    case (Some(x), Some(y)) => x > y || (x == y && a.createdAt > b.createdAt)
    case _ => false
  }

  predicate Enabled(p: Policy) {
    !p.disabled && p.orgEnabled != Some(false)
  }

  function Completed(s: Snapshot, now: int): Snapshot {
    s.(status := Ready, isActive := true, completedAt := Some(now))
  }

  function Deactivated(rows: Rows, connection: int): Rows {
    map k | k in rows ::
      if rows[k].connectionID == connection && rows[k].isActive then rows[k].(isActive := false) else rows[k]
  }

  /** The rows once `id` has replaced whatever was active on its connection. */
  function Activated(rows: Rows, id: nat, now: int): Rows
    requires id in rows
  {
    map k | k in rows ::
      if k == id then Completed(rows[id], now)
      else if rows[k].connectionID == rows[id].connectionID then rows[k].(isActive := false)
      else rows[k]
  }

  /** The rows without the connection's ready generations that are not retained. */
  function Pruned(rows: Rows, connection: int, retained: set<nat>): Rows {
    map k | k in rows && !(rows[k].connectionID == connection && rows[k].status == Ready && k !in retained) :: rows[k]
  }

  /** Why publication is refused, if it is. */
  function Refusal(rows: Rows, policies: map<int, Policy>, id: nat): Option<Error> {
    if id !in rows then Some(NotFound)
    else if rows[id].status != Building then Some(NotPublishable)
    else if rows[id].connectionID !in policies then Some(ConnectionNotFound)
    else if !Enabled(policies[rows[id].connectionID]) then Some(SnapshotsDisabled)
    else if exists a | a in ActiveRows(rows, rows[id].connectionID) :: a.generatedAt >= rows[id].generatedAt then
      Some(Superseded)
    else None
  }

  // ---------------------------------------------------------------- the store

  class SnapshotStore {
    var rows: Rows
    var policies: map<int, Policy>

    /** What the tables themselves enforce: rows under their own key, one active row per connection. */
    ghost predicate Valid()
      reads this
    {
      Keyed(rows) && OneActive(rows)
    }

    method Begin(id: nat, connection: int, org: Option<int>, directory: Option<Directory>, now: int)
      returns (result: Result<Snapshot, Error>)
      requires Valid()
      modifies this`rows
      ensures Valid()
      ensures result.Failure? ==> rows == old(rows)
      ensures result == Failure(DirectoryRequired) <==> directory.None?
      ensures result == Failure(DuplicateID) <==> directory.Some? && id in old(rows)
      ensures directory.Some? && id !in old(rows) ==>
                && result == Success(Started(id, connection, org, directory.value, now))
                && rows == old(rows)[id := result.value]
      ensures result.Success? ==>
                && result.value.id == id && result.value.connectionID == connection && result.value.orgID == org
                && result.value.status == Building && !result.value.isActive && result.value.completedAt.None?
                && result.value.directory == directory.value.data && result.value.createdAt == now
                && (directory.value.generatedAt.Some? ==>
                      result.value.generatedAt == directory.value.generatedAt.value)
                && (directory.value.generatedAt.None? ==> result.value.generatedAt == now)
    {
      if directory.None? {
        return Failure(DirectoryRequired);
      }
      var generatedAt := now;
      if directory.value.generatedAt.Some? {
        generatedAt := directory.value.generatedAt.value;
      }
      var snapshot := Snapshot(id, connection, org, Building, false, directory.value.data, generatedAt, now, None);
      if id in rows {
        return Failure(DuplicateID);
      }
      rows := rows[id := snapshot];
      return Success(snapshot);
    }

    method Publish(id: nat, now: int) returns (result: Result<(), Error>, ghost retained: seq<Snapshot>)
      requires Valid()
      modifies this`rows
      ensures Valid()
      ensures match Refusal(old(rows), policies, id)
              case Some(e) => result == Failure(e) && rows == old(rows)
              case None =>
                var connection := old(rows)[id].connectionID;
                var activated := Activated(old(rows), id, now);
                && result == Success(())
                && IsPage(ReadyRows(activated, connection), Newer, 2, retained)
                && rows == Pruned(activated, connection, set s | s in retained :: s.id)
      ensures AnswerFits(old(rows), policies, id, if result.Failure? then Some(result.error) else None)
      ensures result.Success? ==> PublishedAt(old(rows), rows, id, now)
    {
      RefusalFits(rows, policies, id);
      retained := [];
      if id !in rows {
        return Failure(NotFound), [];
      }
      var snapshot := rows[id];
      var connection := snapshot.connectionID;
      if snapshot.status != Building {
        return Failure(NotPublishable), [];
      }
      if connection !in policies {
        return Failure(ConnectionNotFound), [];
      }
      if !Enabled(policies[connection]) {
        return Failure(SnapshotsDisabled), [];
      }
      var activeRows := ActiveRows(rows, connection);
      if activeRows != {} {
        var active :| active in activeRows;
        OnlyActive(rows, active);
        if !(active.generatedAt < snapshot.generatedAt) {
          return Failure(Superseded), [];
        }
      }
      assert Refusal(rows, policies, id).None?;
      ghost var before := rows;
      rows := Deactivated(rows, connection);
      rows := rows[id := rows[id].(status := Ready, isActive := true, completedAt := Some(now))];
      ActivationKeepsTables(before, id, now);
      NewerOrders(ReadyRows(rows, connection));
      var kept := OrderBy(ReadyRows(rows, connection), Newer, 2);
      var ids := set s | s in kept :: s.id;
      PublishedMeans(before, id, now, kept);
      rows := Pruned(rows, connection, ids);
      return Success(()), kept;
    }

    method Abort(id: nat)
      requires Valid()
      modifies this`rows
      ensures Valid()
      ensures rows == if id in old(rows) && old(rows)[id].status == Building then old(rows) - {id} else old(rows)
    {
      if id in rows && rows[id].status == Building {
        rows := rows - {id};
      }
    }

    method Active(connection: int) returns (found: Option<Snapshot>)
      requires Valid()
      ensures found.Some? ==> ActiveRows(rows, connection) == {found.value}
      ensures found.None? ==> ActiveRows(rows, connection) == {}
    {
      var active := ActiveRows(rows, connection);
      if active == {} {
        return None;
      }
      var s :| s in active;
      return Some(s);
    }

    method PurgeConnection(connection: int)
      requires Valid()
      modifies this`rows
      ensures Valid()
      ensures rows == map k | k in old(rows) && old(rows)[k].connectionID != connection :: old(rows)[k]
    {
      rows := map k | k in rows && rows[k].connectionID != connection :: rows[k];
    }
  }

  function Started(id: nat, connection: int, org: Option<int>, directory: Directory, now: int): Snapshot {
    Snapshot(id, connection, org, Building, false, directory.data,
             if directory.generatedAt.Some? then directory.generatedAt.value else now, now, None)
  }

  /** Each refusal for its own reason, and none without: only a building snapshot of a known connection is
      published, only while neither the connection nor its organization has snapshots turned off, and only
      over an active one generated before it. */
  ghost predicate AnswerFits(rows: Rows, policies: map<int, Policy>, id: nat, refused: Option<Error>) {
    && (refused == Some(NotFound) <==> id !in rows)
    && (refused == Some(NotPublishable) <==> id in rows && rows[id].status == Ready)
    && (refused == Some(ConnectionNotFound) <==>
          id in rows && rows[id].status == Building && rows[id].connectionID !in policies)
    && (id in rows && rows[id].status == Building && rows[id].connectionID in policies ==>
          var connection, policy := rows[id].connectionID, policies[rows[id].connectionID];
          var off := policy.disabled || policy.orgEnabled == Some(false);
          && (refused == Some(SnapshotsDisabled) <==> off)
          && (refused == Some(Superseded) <==>
                !off && exists k | k in rows ::
                  && rows[k].connectionID == connection && rows[k].isActive
                  && rows[k].generatedAt >= rows[id].generatedAt)
          && (refused.Some? ==> refused.value in {SnapshotsDisabled, Superseded}))
  }

  lemma RefusalFits(rows: Rows, policies: map<int, Policy>, id: nat)
    ensures AnswerFits(rows, policies, id, Refusal(rows, policies, id))
  {
    if id in rows {
      var connection := rows[id].connectionID;
      if k :| k in rows && rows[k].connectionID == connection && rows[k].isActive
              && rows[k].generatedAt >= rows[id].generatedAt {
        assert rows[k] in ActiveRows(rows, connection);
      }
    }
  }

  /** The row was completed later than the other or, if at the same time, created later. */
  predicate CompletedAfter(a: Snapshot, b: Snapshot) {
    && a.completedAt.Some? && b.completedAt.Some?
    && (a.completedAt.value > b.completedAt.value
        || (a.completedAt.value == b.completedAt.value && a.createdAt > b.createdAt))
  }

  /** What a publication leaves: the snapshot as it was built, now ready, active and completed at `now`; the
      connection's others, inactive; of its ready generations the two that were completed last, counting
      this one; and everything else. */
  ghost predicate PublishedAt(was: Rows, rows: Rows, id: nat, now: int)
    requires id in was
  {
    var published := was[id].(status := Ready, isActive := true, completedAt := Some(now));
    OneActivated(was, rows, id, published) && LastTwoKept(was[id := published], rows, published.connectionID)
  }

  ghost predicate OneActivated(was: Rows, rows: Rows, id: nat, published: Snapshot) {
    && (forall k | k in rows ::
          && k in was
          && rows[k] == if k == id then published
                        else if was[k].connectionID == published.connectionID then was[k].(isActive := false)
                        else was[k])
    && forall k | k in was && k !in rows ::
         k == id || (was[k].connectionID == published.connectionID && was[k].status == Ready)
  }

  /** `rows` holds two of the connection's generations in `all`, or as many as there are, and none of them
      was completed before one that is missing. */
  ghost predicate LastTwoKept(all: Rows, rows: Rows, connection: int) {
    && ((forall k | Generation(all, connection, k) :: k in rows)
        || exists a, b | Generation(rows, connection, a) && Generation(rows, connection, b) :: a != b)
    && (forall a, b, c | Generation(rows, connection, a) && Generation(rows, connection, b)
                         && Generation(rows, connection, c) :: a == b || b == c || a == c)
    && forall a, b | Generation(rows, connection, a) && Generation(all, connection, b) && b !in rows ::
         !CompletedAfter(all[b], rows[a])
  }

  predicate Generation(rows: Rows, connection: int, k: nat) {
    k in rows && rows[k].connectionID == connection && rows[k].status == Ready
  }

  lemma PublishedMeans(was: Rows, id: nat, now: int, page: seq<Snapshot>)
    requires Keyed(was) && id in was
    requires IsPage(ReadyRows(Activated(was, id, now), was[id].connectionID), Newer, 2, page)
    ensures PublishedAt(was, Pruned(Activated(was, id, now), was[id].connectionID, set s | s in page :: s.id), id, now)
  {
    var connection, activated, kept := was[id].connectionID, Activated(was, id, now), set s | s in page :: s.id;
    KeptAreLast(activated, connection, page);
    PruningOnlyActivates(was, id, now, kept);
    PruningKeepsTwo(was, id, now, kept);
  }

  /** Two of the ready generations or all of them, and none completed before one that is not among them. */
  ghost predicate TwoLast(rows: Rows, connection: int, kept: set<nat>) {
    && (forall k | k in kept :: Generation(rows, connection, k))
    && (forall a, b, c | a in kept && b in kept && c in kept :: a == b || b == c || a == c)
    && ((forall k | Generation(rows, connection, k) :: k in kept) || exists a, b | a in kept && b in kept :: a != b)
    && forall a, b | a in kept && Generation(rows, connection, b) && b !in kept :: !CompletedAfter(rows[b], rows[a])
  }

  lemma PruningOnlyActivates(was: Rows, id: nat, now: int, kept: set<nat>)
    requires id in was
    ensures OneActivated(was, Pruned(Activated(was, id, now), was[id].connectionID, kept), id, Completed(was[id], now))
  {
  }

  lemma PruningKeepsTwo(was: Rows, id: nat, now: int, kept: set<nat>)
    requires id in was && TwoLast(Activated(was, id, now), was[id].connectionID, kept)
    ensures LastTwoKept(was[id := Completed(was[id], now)],
                        Pruned(Activated(was, id, now), was[id].connectionID, kept), was[id].connectionID)
  {
    var connection, activated := was[id].connectionID, Activated(was, id, now);
    var left, all := Pruned(activated, connection, kept), was[id := activated[id]];
    assert forall k :: Generation(left, connection, k) <==> k in kept;
    assert forall k :: Generation(all, connection, k) <==> Generation(activated, connection, k);
  }

  lemma PageHolds(rows: Rows, connection: int, page: seq<Snapshot>)
    requires Keyed(rows) && forall s | s in page :: s in ReadyRows(rows, connection)
    ensures forall k :: k in (set s | s in page :: s.id) <==> Generation(rows, connection, k) && rows[k] in page
  {
    forall k | k in (set s | s in page :: s.id) ensures Generation(rows, connection, k) && rows[k] in page {
      var s :| s in page && s.id == k;
      var j :| j in rows && rows[j] == s && s.connectionID == connection && s.status == Ready;
    }
  }

  lemma KeptAreLast(rows: Rows, connection: int, page: seq<Snapshot>)
    requires Keyed(rows) && IsPage(ReadyRows(rows, connection), Newer, 2, page)
    ensures TwoLast(rows, connection, set s | s in page :: s.id)
  {
    var kept, ready := set s | s in page :: s.id, ReadyRows(rows, connection);
    PageHolds(rows, connection, page);
    if |page| < 2 {
      ShortPageIsComplete(ready, Newer, 2, page);
      forall k | Generation(rows, connection, k) ensures k in kept {
        assert rows[k] in ready;
      }
    } else {
      assert page[0] in page && page[1] in page;
      assert page[0].id in kept && page[1].id in kept && rows[page[0].id] == page[0] && rows[page[1].id] == page[1];
    }
    forall a, b | a in kept && Generation(rows, connection, b) && b !in kept
      ensures a in rows && !CompletedAfter(rows[b], rows[a])
    {
      assert rows[b] in ready && rows[b] !in page && rows[a] in page;
      assert !Newer(rows[b], rows[a]);
    }
  }

  ghost predicate Keyed(rows: Rows) {
    forall id | id in rows :: rows[id].id == id
  }

  ghost predicate OneActive(rows: Rows) {
    forall a, b | a in rows && b in rows && rows[a].isActive && rows[b].isActive
                  && rows[a].connectionID == rows[b].connectionID :: a == b
  }

  lemma OnlyActive(rows: Rows, a: Snapshot)
    requires Keyed(rows) && OneActive(rows) && a in ActiveRows(rows, a.connectionID)
    ensures ActiveRows(rows, a.connectionID) == {a}
  {
    var k :| k in rows && rows[k] == a;
    forall b | b in ActiveRows(rows, a.connectionID) ensures b == a {
      var j :| j in rows && rows[j] == b;
    }
  }

  /** Deactivating first and activating second is one activation, and leaves one active row. */
  lemma ActivationKeepsTables(rows: Rows, id: nat, now: int)
    requires Keyed(rows) && OneActive(rows) && id in rows
    ensures var d := Deactivated(rows, rows[id].connectionID);
            d[id := d[id].(status := Ready, isActive := true, completedAt := Some(now))] == Activated(rows, id, now)
    ensures Keyed(Activated(rows, id, now)) && OneActive(Activated(rows, id, now))
  {
  }

  lemma NewerOrders(rows: set<Snapshot>)
    ensures Orders(Newer, rows)
  {
  }
}
