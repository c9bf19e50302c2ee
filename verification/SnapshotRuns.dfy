/** Every run of the snapshot store, with one organization per connection; and, while the clock strictly
    increases, what publication leaves behind and that the active generation never goes back. */
module SnapshotRuns {
  import opened Wrappers
  import opened Query
  import opened Snapshots

  datatype State = State(rows: Rows, policies: map<int, Policy>, clock: int)

  datatype Step =
    | Begin(id: nat, connection: int, directory: Directory)
    | Publish(id: nat, retained: seq<Snapshot>)
    | Abort(id: nat)
    | PurgeConnection(connection: int)
    | PurgeOrganization(org: int)
    | SetPolicy(connection: int, policy: Policy)

  /** The rows after publication: `Refusal` leaves them alone. */
  function PublishRows(s: State, id: nat, retained: seq<Snapshot>, now: int): Rows {
    if Refusal(s.rows, s.policies, id).Some? then s.rows
    else Pruned(Activated(s.rows, id, now), s.rows[id].connectionID, set x | x in retained :: x.id)
  }

  /** One step of the store at time `next.clock`; `orgs` gives each connection its organization. */
  ghost predicate Next(orgs: int -> Option<int>, s: State, step: Step, next: State) {
    && (step.SetPolicy? || next.policies == s.policies)
    && match step
       case Begin(id, connection, directory) =>
         next.rows == if id in s.rows then s.rows
                      else s.rows[id := Started(id, connection, orgs(connection), directory, next.clock)]
       case Publish(id, retained) =>
         && (Refusal(s.rows, s.policies, id).None? ==>
               IsPage(ReadyRows(Activated(s.rows, id, next.clock), s.rows[id].connectionID), Newer, 2, retained))
         && next.rows == PublishRows(s, id, retained, next.clock)
       case Abort(id) =>
         next.rows == if id in s.rows && s.rows[id].status == Building then s.rows - {id} else s.rows
       case PurgeConnection(connection) =>
         next.rows == map k | k in s.rows && s.rows[k].connectionID != connection :: s.rows[k]
       case PurgeOrganization(org) =>
         next.rows == map k | k in s.rows && s.rows[k].orgID != Some(org) :: s.rows[k]
       case SetPolicy(connection, policy) =>
         next.rows == s.rows && next.policies == s.policies[connection := policy]
  }

  /** A run of the store, whatever its clock shows. */
  ghost predicate IsRun(orgs: int -> Option<int>, states: seq<State>, steps: seq<Step>) {
    && |states| == |steps| + 1
    && states[0].rows == map[]
    && forall i | 0 <= i < |steps| :: StepAt(orgs, states, steps, i)
  }

  ghost predicate StepAt(orgs: int -> Option<int>, states: seq<State>, steps: seq<Step>, i: nat)
    requires i < |steps| < |states|
  {
    Next(orgs, states[i], steps[i], states[i + 1])
  }

  ghost predicate Reaches(orgs: int -> Option<int>, states: seq<State>, steps: seq<Step>, s: State) {
    IsRun(orgs, states, steps) && states[|steps|] == s
  }

  lemma RunOneMore(orgs: int -> Option<int>, states: seq<State>, steps: seq<Step>, s: State, step: Step, t: State)
    requires Reaches(orgs, states, steps, s) && Next(orgs, s, step, t)
    ensures Reaches(orgs, states + [t], steps + [step], t)
  {
    forall i | 0 <= i < |steps| + 1 ensures StepAt(orgs, states + [t], steps + [step], i) {
      assert i < |steps| ==> StepAt(orgs, states, steps, i);
    }
  }

  ghost predicate IsClockedRun(orgs: int -> Option<int>, states: seq<State>, steps: seq<Step>) {
    IsRun(orgs, states, steps) && forall i | 0 <= i < |steps| :: states[i].clock < states[i + 1].clock
  }

  lemma ClockedStep(orgs: int -> Option<int>, states: seq<State>, steps: seq<Step>, i: nat)
    requires IsClockedRun(orgs, states, steps) && i < |steps|
    ensures Next(orgs, states[i], steps[i], states[i + 1]) && states[i].clock < states[i + 1].clock
  {
    assert StepAt(orgs, states, steps, i);
  }

  // ---------------------------------------------------------------- the invariant

  predicate IsReady(rows: Rows, k: nat) {
    k in rows && rows[k].status == Ready
  }

  /** `a` is active on the connection of `k`, and `k` is either `a` itself or was completed before it. */
  predicate Leads(rows: Rows, a: nat, k: nat) {
    && a in rows && k in rows
    && rows[a].connectionID == rows[k].connectionID && rows[a].isActive
    && (a == k || (rows[a].completedAt.Some? && rows[k].completedAt.Some?
                   && rows[k].completedAt.value < rows[a].completedAt.value))
  }

  ghost predicate Inv(orgs: int -> Option<int>, s: State) {
    && Sound(orgs, s)
    && (forall k | IsReady(s.rows, k) :: exists a :: Leads(s.rows, a, k))
  }

  ghost predicate Sound(orgs: int -> Option<int>, s: State) {
    && Keyed(s.rows) && OneActive(s.rows)
    && (forall k | k in s.rows :: s.rows[k].orgID == orgs(s.rows[k].connectionID))
    && (forall k | k in s.rows && s.rows[k].isActive :: s.rows[k].status == Ready)
    && (forall k | IsReady(s.rows, k) :: s.rows[k].completedAt.Some? && s.rows[k].completedAt.value <= s.clock)
  }

  /** What a successful publication does to the connection: exactly the new generation is active, the
      ready ones are the new one and the one it replaced, and nothing else changes. */
  ghost predicate Replaces(before: Rows, id: nat, after: Rows, now: int) {
    && id in before && id in after && after[id] == Completed(before[id], now)
    && (forall k | k in after :: k in before)
    && (forall k | k in before && k != id ::
          var same := before[k].connectionID == before[id].connectionID;
          if same && before[k].status == Ready && !before[k].isActive then k !in after
          else k in after && after[k] == if same then before[k].(isActive := false) else before[k])
  }

  lemma PublishReplaces(orgs: int -> Option<int>, s: State, id: nat, retained: seq<Snapshot>, now: int)
    requires Inv(orgs, s) && s.clock < now && Refusal(s.rows, s.policies, id).None?
    requires IsPage(ReadyRows(Activated(s.rows, id, now), s.rows[id].connectionID), Newer, 2, retained)
    ensures Replaces(s.rows, id, PublishRows(s, id, retained, now), now)
  {
    var kept := set x | x in retained :: x.id;
    assert id in kept by {
      LatestLeads(orgs, s, id, now);
      NewestIsRetained(ReadyRows(Activated(s.rows, id, now), s.rows[id].connectionID), retained,
                       Activated(s.rows, id, now)[id]);
      assert Activated(s.rows, id, now)[id].id == id;
    }
    forall k | IsReady(s.rows, k) && k != id && s.rows[k].connectionID == s.rows[id].connectionID
      ensures k in kept <==> s.rows[k].isActive
    {
      RetainsExactlyTheActive(orgs, s, id, retained, now, k);
    }
  }

  lemma LatestLeads(orgs: int -> Option<int>, s: State, id: nat, now: int)
    requires Inv(orgs, s) && s.clock < now && Refusal(s.rows, s.policies, id).None?
    ensures var activated := Activated(s.rows, id, now);
            var ready := ReadyRows(activated, s.rows[id].connectionID);
            activated[id] in ready && forall x | x in ready && x != activated[id] :: Newer(activated[id], x)
  {
    var activated := Activated(s.rows, id, now);
    var ready := ReadyRows(activated, s.rows[id].connectionID);
    forall x | x in ready && x != activated[id] ensures Newer(activated[id], x) {
      var k :| k in activated && activated[k] == x && x.status == Ready;
      assert IsReady(s.rows, k);
    }
  }

  lemma RetainsExactlyTheActive(
    orgs: int -> Option<int>, s: State, id: nat, retained: seq<Snapshot>, now: int, k: nat)
    requires Inv(orgs, s) && s.clock < now && Refusal(s.rows, s.policies, id).None?
    requires IsPage(ReadyRows(Activated(s.rows, id, now), s.rows[id].connectionID), Newer, 2, retained)
    requires IsReady(s.rows, k) && k != id && s.rows[k].connectionID == s.rows[id].connectionID
    ensures k in (set x | x in retained :: x.id) <==> s.rows[k].isActive
  {
    var activated := Activated(s.rows, id, now);
    var ready := ReadyRows(activated, s.rows[id].connectionID);
    var a :| Leads(s.rows, a, k);
    var latest, previous := activated[id], activated[a];
    LatestLeads(orgs, s, id, now);
    assert a != id && IsReady(s.rows, a) && previous.id == a && latest.id == id;
    assert previous in ready;
    forall x | x in ready && x != latest && x != previous ensures Newer(previous, x) {
      var j :| j in activated && activated[j] == x && x.connectionID == previous.connectionID && x.status == Ready;
      assert IsReady(s.rows, j);
      var b :| Leads(s.rows, b, j);
      assert a == b;
    }
    TwoNewestAreRetained(ready, retained, latest, previous);
  }

  lemma NewestIsRetained(rows: set<Snapshot>, page: seq<Snapshot>, newest: Snapshot)
    requires IsPage(rows, Newer, 2, page) && newest in rows
    requires forall x | x in rows && x != newest :: Newer(newest, x)
    ensures newest in page
  {
    assert rows != {};
    assert page[0] in page && page[0] in rows;
  }

  lemma TwoNewestAreRetained(rows: set<Snapshot>, page: seq<Snapshot>, newest: Snapshot, second: Snapshot)
    requires IsPage(rows, Newer, 2, page) && newest in rows && second in rows && newest != second
    requires forall x | x in rows && x != newest :: Newer(newest, x)
    requires forall x | x in rows && x != newest && x != second :: Newer(second, x)
    ensures newest in page && second in page
    ensures forall x | x in page :: x == newest || x == second
  {
    NewestIsRetained(rows, page, newest);
    var pair := {newest, second};
    SubsetSize(pair, rows);
    assert |page| == 2 && page[0] in page && page[1] in page;
    assert page[0] in rows && page[1] in rows && page[0] != page[1];
  }

  lemma InvStep(orgs: int -> Option<int>, s: State, step: Step, next: State)
    requires Inv(orgs, s) && Next(orgs, s, step, next) && s.clock < next.clock
    ensures Inv(orgs, next)
  {
    match step
    case Publish(id, retained) =>
      if Refusal(s.rows, s.policies, id).None? {
        PublishReplaces(orgs, s, id, retained, next.clock);
        InvReplaced(orgs, s, id, next);
      } else {
        InvUnchanged(orgs, s, next);
      }
    case Begin(_, _, _) => InvUnchanged(orgs, s, next);
    case Abort(_) => InvUnchanged(orgs, s, next);
    case PurgeConnection(_) => InvUnchanged(orgs, s, next);
    case PurgeOrganization(_) => InvUnchanged(orgs, s, next);
    case SetPolicy(_, _) => InvUnchanged(orgs, s, next);
  }

  /** Steps that only add building rows, or remove building rows and whole connections. */
  lemma InvUnchanged(orgs: int -> Option<int>, s: State, next: State)
    requires Inv(orgs, s) && s.clock < next.clock
    requires forall k | k in next.rows && !(k in s.rows && next.rows[k] == s.rows[k]) ::
               next.rows[k].id == k && next.rows[k].status == Building && !next.rows[k].isActive
               && next.rows[k].orgID == orgs(next.rows[k].connectionID)
    requires forall a, k | Leads(s.rows, a, k) && IsReady(next.rows, k) :: a in next.rows && next.rows[a] == s.rows[a]
    ensures Inv(orgs, next)
  {
    forall k | IsReady(next.rows, k)
      ensures exists a :: Leads(next.rows, a, k)
    {
      assert IsReady(s.rows, k);
      var a :| Leads(s.rows, a, k);
      assert Leads(next.rows, a, k);
    }
  }

  lemma InvReplaced(orgs: int -> Option<int>, s: State, id: nat, next: State)
    requires Inv(orgs, s) && s.clock < next.clock && Replaces(s.rows, id, next.rows, next.clock)
    ensures Inv(orgs, next)
  {
    SoundReplaced(orgs, s, id, next);
    forall k | IsReady(next.rows, k)
      ensures exists a :: Leads(next.rows, a, k)
    {
      LeaderAfterReplacement(orgs, s, id, next, k);
    }
  }

  lemma SoundReplaced(orgs: int -> Option<int>, s: State, id: nat, next: State)
    requires Sound(orgs, s) && s.clock < next.clock && Replaces(s.rows, id, next.rows, next.clock)
    ensures Sound(orgs, next)
  {
    forall k | IsReady(next.rows, k) && k != id ensures IsReady(s.rows, k) {}
  }

  lemma LeaderAfterReplacement(orgs: int -> Option<int>, s: State, id: nat, next: State, k: nat)
    requires Inv(orgs, s) && s.clock < next.clock && Replaces(s.rows, id, next.rows, next.clock)
    requires IsReady(next.rows, k)
    ensures exists a :: Leads(next.rows, a, k)
  {
    if k == id || next.rows[k].connectionID == next.rows[id].connectionID {
      assert k == id || IsReady(s.rows, k);
      assert Leads(next.rows, id, k);
    } else {
      assert IsReady(s.rows, k);
      var a :| Leads(s.rows, a, k);
      assert Leads(next.rows, a, k);
    }
  }

  lemma {:induction false} InvHolds(orgs: int -> Option<int>, states: seq<State>, steps: seq<Step>, i: nat)
    requires IsClockedRun(orgs, states, steps) && i < |states|
    ensures Inv(orgs, states[i])
  {
    if i > 0 {
      InvHolds(orgs, states, steps, i - 1);
      ClockedStep(orgs, states, steps, i - 1);
      InvStep(orgs, states[i - 1], steps[i - 1], states[i]);
    }
  }

  // ---------------------------------------------------------------- the theorems

  ghost predicate IsActive(s: State, connection: int, k: nat) {
    k in s.rows && s.rows[k].connectionID == connection && s.rows[k].isActive
  }

  /** In every reachable state a connection has at most one active snapshot, an active snapshot is
      ready, and a connection with ready snapshots has an active one. */
  lemma ActiveIsReadyAndUnique(orgs: int -> Option<int>, states: seq<State>, steps: seq<Step>, i: nat)
    requires IsClockedRun(orgs, states, steps) && i < |states|
    ensures forall c, a, b | IsActive(states[i], c, a) && IsActive(states[i], c, b) :: a == b
    ensures forall c, a | IsActive(states[i], c, a) :: IsReady(states[i].rows, a)
    ensures forall k | IsReady(states[i].rows, k) :: exists a :: IsActive(states[i], states[i].rows[k].connectionID, a)
  {
    InvHolds(orgs, states, steps, i);
    var rows := states[i].rows;
    forall k | IsReady(rows, k) ensures exists a :: IsActive(states[i], rows[k].connectionID, a) {
      var a :| Leads(rows, a, k);
      assert IsActive(states[i], rows[k].connectionID, a);
    }
  }

  /** A publication in a run goes through exactly for a building snapshot of a known connection for which
      snapshots are turned on, by itself and by its organization, and which was generated after the active
      one. Then exactly the new snapshot is active, and exactly it and the one it replaced are ready; otherwise
      no row changes. */
  lemma PublishLeavesTwo(orgs: int -> Option<int>, states: seq<State>, steps: seq<Step>, i: nat)
    requires IsClockedRun(orgs, states, steps) && i < |steps| && steps[i].Publish?
    ensures var s, next, id := states[i], states[i + 1], steps[i].id;
            var goes :=
              && id in s.rows && s.rows[id].status == Building && s.rows[id].connectionID in s.policies
              && !s.policies[s.rows[id].connectionID].disabled
              && s.policies[s.rows[id].connectionID].orgEnabled != Some(false)
              && forall k | IsActive(s, s.rows[id].connectionID, k) :: s.rows[k].generatedAt < s.rows[id].generatedAt;
            if !goes then next.rows == s.rows
            else
              var c := s.rows[id].connectionID;
              && Replaces(s.rows, id, next.rows, next.clock)
              && (forall k :: IsActive(next, c, k) <==> k == id)
              && (forall k :: IsReady(next.rows, k) && next.rows[k].connectionID == c <==> k == id || IsActive(s, c, k))
  {
    RefusalFits(states[i].rows, states[i].policies, steps[i].id);
    var s, id := states[i], steps[i].id;
    InvHolds(orgs, states, steps, i);
    ClockedStep(orgs, states, steps, i);
    if Refusal(s.rows, s.policies, id).None? {
      PublishReplaces(orgs, s, id, steps[i].retained, states[i + 1].clock);
      ReplacedReadyAndActive(orgs, s, id, states[i + 1]);
    }
  }

  lemma ReplacedReadyAndActive(orgs: int -> Option<int>, s: State, id: nat, next: State)
    requires Sound(orgs, s) && Replaces(s.rows, id, next.rows, next.clock) && s.rows[id].status == Building
    ensures var c := s.rows[id].connectionID;
            && (forall k :: IsActive(next, c, k) <==> k == id)
            && (forall k :: IsReady(next.rows, k) && next.rows[k].connectionID == c <==> k == id || IsActive(s, c, k))
  {
  }

  /** Steps that may take a connection's active snapshot away. */
  predicate Purges(orgs: int -> Option<int>, step: Step, connection: int) {
    (step.PurgeConnection? && step.connection == connection)
    || (step.PurgeOrganization? && orgs(connection) == Some(step.org))
  }

  /** The same snapshot, or one generated strictly later. */
  predicate GivesWay(before: Snapshot, after: Snapshot) {
    after == before || after.generatedAt > before.generatedAt
  }

  lemma ActiveStep(orgs: int -> Option<int>, s: State, step: Step, next: State, connection: int, a: nat)
    returns (b: nat)
    requires Inv(orgs, s) && Next(orgs, s, step, next) && s.clock < next.clock && !Purges(orgs, step, connection)
    requires IsActive(s, connection, a)
    ensures IsActive(next, connection, b) && GivesWay(s.rows[a], next.rows[b])
  {
    b := a;
    if step.Publish? && Refusal(s.rows, s.policies, step.id).None? {
      PublishReplaces(orgs, s, step.id, step.retained, next.clock);
      assert s.rows[a] in ActiveRows(s.rows, connection);
      if s.rows[step.id].connectionID == connection {
        b := step.id;
      }
    }
  }

  predicate NoPurge(orgs: int -> Option<int>, steps: seq<Step>, connection: int, i: nat, j: nat) {
    forall k | i <= k < j && k < |steps| :: !Purges(orgs, steps[k], connection)
  }

  /** Between purges a connection never loses its active snapshot, and the active snapshot only ever
      gives way to one generated strictly later. */
  lemma {:induction false} ActiveNeverGoesBack(
    orgs: int -> Option<int>, states: seq<State>, steps: seq<Step>, connection: int, i: nat, j: nat, a: nat)
    returns (b: nat)
    requires IsClockedRun(orgs, states, steps) && i <= j < |states|
    requires NoPurge(orgs, steps, connection, i, j) && IsActive(states[i], connection, a)
    ensures IsActive(states[j], connection, b) && GivesWay(states[i].rows[a], states[j].rows[b])
    decreases j - i
  {
    if i == j {
      b := a;
    } else {
      var c := ActiveNeverGoesBack(orgs, states, steps, connection, i, j - 1, a);
      b := ActiveStepAt(orgs, states, steps, connection, j - 1, c);
    }
  }

  lemma ActiveStepAt(orgs: int -> Option<int>, states: seq<State>, steps: seq<Step>, connection: int, i: nat, a: nat)
    returns (b: nat)
    requires IsClockedRun(orgs, states, steps) && i < |steps| && !Purges(orgs, steps[i], connection)
    requires IsActive(states[i], connection, a)
    ensures IsActive(states[i + 1], connection, b) && GivesWay(states[i].rows[a], states[i + 1].rows[b])
  {
    InvHolds(orgs, states, steps, i);
    ClockedStep(orgs, states, steps, i);
    b := ActiveStep(orgs, states[i], steps[i], states[i + 1], connection, a);
  }

  /** The step that began the row, with the directory and, if it had one, the generation time the row has. */
  predicate Began(steps: seq<Step>, j: nat, row: Snapshot) {
    && j < |steps| && steps[j].Begin? && steps[j].id == row.id && steps[j].connection == row.connectionID
    && steps[j].directory.data == row.directory
    && (steps[j].directory.generatedAt.Some? ==> row.generatedAt == steps[j].directory.generatedAt.value)
  }

  /** In every run, under any clock, each snapshot, published or not, is the directory it was begun with. */
  lemma {:induction false} DirectoriesAreKept(
    orgs: int -> Option<int>, states: seq<State>, steps: seq<Step>, i: nat, k: nat) returns (j: nat)
    requires IsRun(orgs, states, steps) && i < |states| && k in states[i].rows
    ensures j < i && Began(steps, j, states[i].rows[k]) && states[i].rows[k].id == k
  {
    assert i > 0;
    assert StepAt(orgs, states, steps, i - 1);
    if k in states[i - 1].rows {
      j := DirectoriesAreKept(orgs, states, steps, i - 1, k);
      StepKeepsDirectory(orgs, states[i - 1], steps[i - 1], states[i], k);
    } else {
      j := i - 1;
    }
  }

  lemma StepKeepsDirectory(orgs: int -> Option<int>, s: State, step: Step, next: State, k: nat)
    requires Next(orgs, s, step, next) && k in s.rows && k in next.rows
    ensures next.rows[k].(status := Ready, isActive := false, completedAt := None) ==
            s.rows[k].(status := Ready, isActive := false, completedAt := None)
  {
  }
}
