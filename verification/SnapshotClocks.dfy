/** What a clock that does not run forward does to publication: pruning orders generations by completion
    time, so a publication can prune the very row it has just made active. */
module SnapshotClocks {
  import opened Wrappers
  import opened Query
  import opened Snapshots
  import opened SnapshotRuns

  /** The connection's other ready rows that the published row does not come strictly before in the
      pruning's order: completed later, or at the same time and not created earlier. */
  function NotBefore(rows: Rows, id: nat, now: int): set<nat>
    requires id in rows
  {
    set k | k in rows && k != id && rows[k].connectionID == rows[id].connectionID && rows[k].status == Ready
            && !Newer(Completed(rows[id], now), rows[k])
  }

  function Retained(retained: seq<Snapshot>): set<nat> {
    set x | x in retained :: x.id
  }

  /** The answers the pruning's query may get. */
  ghost predicate IsAnswer(rows: Rows, id: nat, now: int, retained: seq<Snapshot>)
    requires id in rows
  {
    IsPage(ReadyRows(Activated(rows, id, now), rows[id].connectionID), Newer, 2, retained)
  }

  /** The rows of `NotBefore`, as they are once the new row is active. */
  function Ahead(rows: Rows, id: nat, now: int): set<Snapshot>
    requires id in rows
  {
    set k | k in NotBefore(rows, id, now) :: Activated(rows, id, now)[k]
  }

  lemma AheadMeans(rows: Rows, id: nat, now: int)
    requires Keyed(rows) && id in rows
    ensures |Ahead(rows, id, now)| == |NotBefore(rows, id, now)|
    ensures forall x :: x in Ahead(rows, id, now) <==>
              && x in ReadyRows(Activated(rows, id, now), rows[id].connectionID)
              && x.id != id && !Newer(Activated(rows, id, now)[id], x)
  {
    SameSize(Activated(rows, id, now), NotBefore(rows, id, now));
    forall x | x in ReadyRows(Activated(rows, id, now), rows[id].connectionID)
               && x.id != id && !Newer(Activated(rows, id, now)[id], x)
      ensures x in Ahead(rows, id, now)
    {
      var k :| k in rows && Activated(rows, id, now)[k] == x;
      assert k in NotBefore(rows, id, now);
    }
  }

  lemma {:induction false} SameSize(rows: Rows, ids: set<nat>)
    requires Keyed(rows) && ids <= rows.Keys
    ensures |set k | k in ids :: rows[k]| == |ids|
  {
    if k :| k in ids {
      SameSize(rows, ids - {k});
      assert (set j | j in ids :: rows[j]) == (set j | j in ids - {k} :: rows[j]) + {rows[k]};
    }
  }

  lemma {:induction false} FirstExists(rows: set<Snapshot>) returns (first: Snapshot)
    requires rows != {}
    ensures first in rows && forall x | x in rows :: !Newer(x, first)
  {
    var one :| one in rows;
    if rows - {one} == {} {
      first := one;
      assert rows == {one};
    } else {
      var other := FirstExists(rows - {one});
      first := if Newer(one, other) then one else other;
      forall x | x in rows ensures !Newer(x, first) {
        assert x != one ==> x in rows - {one};
      }
    }
  }

  /** Two rows the new one does not precede fill the page without it. */
  lemma PageWithout(rows: Rows, id: nat, now: int) returns (retained: seq<Snapshot>)
    requires Keyed(rows) && id in rows && |NotBefore(rows, id, now)| >= 2
    ensures IsAnswer(rows, id, now, retained) && id !in Retained(retained)
  {
    var row := Activated(rows, id, now)[id];
    AheadMeans(rows, id, now);
    retained := FirstTwo(Ahead(rows, id, now));
    PageAhead(ReadyRows(Activated(rows, id, now), rows[id].connectionID), Ahead(rows, id, now), row, retained);
    forall x | x in retained ensures x.id != id {
      assert x in Ahead(rows, id, now);
    }
  }

  lemma FirstTwo(rows: set<Snapshot>) returns (page: seq<Snapshot>)
    requires |rows| >= 2
    ensures IsPage(rows, Newer, 2, page)
  {
    var a := FirstExists(rows);
    assert |rows - {a}| >= 1;
    var b := FirstExists(rows - {a});
    page := [a, b];
  }

  /** What `row` does not precede comes before all that it precedes. */
  lemma PageAhead(ready: set<Snapshot>, ahead: set<Snapshot>, row: Snapshot, page: seq<Snapshot>)
    requires row in ready && ahead <= ready && |ahead| >= 2 && IsPage(ahead, Newer, 2, page)
    requires forall x | x in ready :: x in ahead <==> x != row && !Newer(row, x)
    ensures IsPage(ready, Newer, 2, page)
  {
    SubsetSize(ahead, ready);
    forall x, y | x in ready && x !in page && y in page ensures !Newer(x, y) {
      assert y in ahead;
    }
  }

  lemma AnswerHolds(rows: Rows, id: nat, now: int, retained: seq<Snapshot>)
    requires Keyed(rows) && id in rows && |NotBefore(rows, id, now)| <= 1 && IsAnswer(rows, id, now, retained)
    ensures id in Retained(retained)
  {
    var ready, row := ReadyRows(Activated(rows, id, now), rows[id].connectionID), Activated(rows, id, now)[id];
    AheadMeans(rows, id, now);
    assert row in ready;
    if row !in retained {
      ShortOrFull(ready, retained, row);
      assert retained[0] in retained && retained[1] in retained && retained[0] != retained[1];
      forall x | x in retained ensures x.id != id {
        var k :| k in rows && Activated(rows, id, now)[k] == x;
      }
      assert {retained[0], retained[1]} <= Ahead(rows, id, now);
      SubsetSize({retained[0], retained[1]}, Ahead(rows, id, now));
    }
    assert row in retained && row.id == id;
  }

  lemma ShortOrFull(ready: set<Snapshot>, page: seq<Snapshot>, row: Snapshot)
    requires IsPage(ready, Newer, 2, page) && row in ready && row !in page
    ensures |page| == 2
  {
    if |page| < 2 {
      ShortPageIsComplete(ready, Newer, 2, page);
    }
  }

  /** A published row is sure to survive its own pruning exactly when at most one other ready row of its
      connection is not strictly before it. */
  lemma PublishedSurvivesIff(rows: Rows, id: nat, now: int)
    requires Keyed(rows) && id in rows
    ensures (forall retained | IsAnswer(rows, id, now, retained) :: id in Retained(retained)) <==>
            |NotBefore(rows, id, now)| <= 1
  {
    if |NotBefore(rows, id, now)| <= 1 {
      forall retained | IsAnswer(rows, id, now, retained) ensures id in Retained(retained) {
        AnswerHolds(rows, id, now, retained);
      }
    } else {
      var retained := PageWithout(rows, id, now);
      assert IsAnswer(rows, id, now, retained);
    }
  }

  /** A clock that has passed every completion of the connection is enough. */
  lemma LaterClockSurvives(rows: Rows, id: nat, now: int)
    requires Keyed(rows) && id in rows
    requires forall k | k in rows && k != id && rows[k].connectionID == rows[id].connectionID
               && rows[k].status == Ready ::
               rows[k].completedAt.Some? && rows[k].completedAt.value < now
    ensures NotBefore(rows, id, now) == {}
  {
  }

  // ---------------------------------------------------------------- a clock that goes back

  const ON := Policy(false, None)

  function Row(id: nat, status: Status, active: bool, at: int, completedAt: Option<int>): Snapshot {
    Snapshot(id, 0, None, status, active, "", id, at, completedAt)
  }

  function Two(): Rows {
    map[1 := Row(1, Ready, false, 1, Some(10)), 2 := Row(2, Ready, true, 11, Some(20))]
  }

  function NoOrg(connection: int): Option<int> {
    None
  }

  function Generation(id: nat): Directory {
    Directory("", Some(id))
  }

  /** One generation begun and published. */
  lemma FirstPublished() returns (states: seq<State>, steps: seq<Step>)
    ensures Reaches(NoOrg, states, steps, State(map[1 := Row(1, Ready, true, 1, Some(10))], map[0 := ON], 10))
  {
    var s0, s1 := State(map[], map[], 0), State(map[], map[0 := ON], 0);
    var s2 := State(map[1 := Row(1, Building, false, 1, None)], map[0 := ON], 1);
    var published := Row(1, Ready, true, 1, Some(10));
    var s3 := State(map[1 := published], map[0 := ON], 10);
    states, steps := [s0], [];
    RunOneMore(NoOrg, states, steps, s0, SetPolicy(0, ON), s1);
    states, steps := states + [s1], steps + [SetPolicy(0, ON)];
    RunOneMore(NoOrg, states, steps, s1, Begin(1, 0, Generation(1)), s2);
    states, steps := states + [s2], steps + [Begin(1, 0, Generation(1))];
    assert Activated(s2.rows, 1, 10) == s3.rows;
    assert ReadyRows(s3.rows, 0) == {published};
    RunOneMore(NoOrg, states, steps, s2, Publish(1, [published]), s3);
    states, steps := states + [s3], steps + [Publish(1, [published])];
  }

  lemma SecondIsFirst(rows: Rows)
    requires rows == map[1 := Row(1, Ready, true, 1, Some(10)), 2 := Row(2, Building, false, 11, None)]
    ensures Activated(rows, 2, 20) == Two() && ActiveRows(rows, 0) == {rows[1]}
    ensures IsAnswer(rows, 2, 20, [Two()[2], Two()[1]])
    ensures Pruned(Two(), 0, Retained([Two()[2], Two()[1]])) == Two()
  {
    assert Activated(rows, 2, 20) == Two();
    assert ReadyRows(Two(), 0) == {Two()[1], Two()[2]};
    assert Two()[1] in [Two()[2], Two()[1]] && Two()[2] in [Two()[2], Two()[1]];
  }

  /** A second one, by which the first is kept and no longer active. */
  lemma SecondPublished() returns (states: seq<State>, steps: seq<Step>)
    ensures Reaches(NoOrg, states, steps, State(Two(), map[0 := ON], 20))
  {
    var first := Row(1, Ready, true, 1, Some(10));
    var s3, s5 := State(map[1 := first], map[0 := ON], 10), State(Two(), map[0 := ON], 20);
    var s4 := State(map[1 := first, 2 := Row(2, Building, false, 11, None)], map[0 := ON], 11);
    states, steps := FirstPublished();
    RunOneMore(NoOrg, states, steps, s3, Begin(2, 0, Generation(2)), s4);
    states, steps := states + [s4], steps + [Begin(2, 0, Generation(2))];
    SecondIsFirst(s4.rows);
    RunOneMore(NoOrg, states, steps, s4, Publish(2, [Two()[2], Two()[1]]), s5);
    states, steps := states + [s5], steps + [Publish(2, [Two()[2], Two()[1]])];
  }

  function Third(): Rows {
    Two()[3 := Row(3, Building, false, 4, None)]
  }

  /** The first two generations, neither of them active. */
  function Deposed(): Rows {
    Two()[2 := Row(2, Ready, false, 11, Some(20))]
  }

  lemma ThirdIsPublishable()
    ensures Refusal(Third(), map[0 := ON], 3).None?
  {
    forall a | a in ActiveRows(Third(), 0) ensures a.generatedAt < 3 {
    }
  }

  function Newest(): seq<Snapshot> {
    [Deposed()[2], Deposed()[1]]
  }

  /** The pruning's query finds the new row last. */
  lemma ThirdIsLast()
    ensures Activated(Third(), 3, 5) == Deposed()[3 := Row(3, Ready, true, 4, Some(5))]
    ensures IsAnswer(Third(), 3, 5, Newest())
  {
    var activated := Deposed()[3 := Row(3, Ready, true, 4, Some(5))];
    assert Activated(Third(), 3, 5) == activated;
    assert ReadyRows(activated, 0) == {activated[1], activated[2], activated[3]};
  }

  lemma ThirdIsPruned()
    ensures Pruned(Activated(Third(), 3, 5), 0, Retained(Newest())) == Deposed()
  {
    ThirdIsLast();
    assert Newest()[0] in Newest() && Newest()[1] in Newest();
    assert Retained(Newest()) == {1, 2};
  }

  /** A third generation, published after the clock went back: it becomes active, is pruned at once as the
      oldest, and the connection is left without an active snapshot. */
  lemma PublicationPrunesItself() returns (states: seq<State>, steps: seq<Step>, s: State)
    ensures Reaches(NoOrg, states, steps, s) && |steps| > 0 && steps[|steps| - 1].Publish?
    ensures Refusal(states[|steps| - 1].rows, states[|steps| - 1].policies, steps[|steps| - 1].id).None?
    ensures steps[|steps| - 1].id !in s.rows && IsReady(s.rows, 1) && IsReady(s.rows, 2)
    ensures forall k :: !IsActive(s, 0, k)
  {
    var s5, s6 := State(Two(), map[0 := ON], 20), State(Third(), map[0 := ON], 4);
    var publish := Publish(3, Newest());
    s := State(Deposed(), map[0 := ON], 5);
    states, steps := SecondPublished();
    RunOneMore(NoOrg, states, steps, s5, Begin(3, 0, Generation(3)), s6);
    states, steps := states + [s6], steps + [Begin(3, 0, Generation(3))];
    ThirdIsPublishable();
    ThirdIsLast();
    ThirdIsPruned();
    RunOneMore(NoOrg, states, steps, s6, publish, s);
    states, steps := states + [s], steps + [publish];
  }
}
