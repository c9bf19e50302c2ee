/** Moving bytes between storage keys in two phases around a metadata update: copy first, delete last,
    and take the copies back when anything fails in between. */
module Relocations {
  import opened Wrappers

  type Bytes = seq<bv8>

  /** A key on one of the configured backends. */
  datatype Slot = Slot(backendID: string, key: string)

  type ByteMap = map<Slot, Bytes>

  function Lookup(bytes: ByteMap, s: Slot): Option<Bytes> {
    if s in bytes then Some(bytes[s]) else None
  }

  datatype Read = Found(data: Bytes) | NotExist | ReadError

  /** One state of what outlives a call that is stopped: the tables and the bytes. */
  datatype Stop<T> = Stop(tables: T, bytes: ByteMap)

  /** The database and the configured backends. Any call may fail; a failed one counts as a fault and
      changes nothing. Every change is recorded. */
  class Storage<T> {
    var tables: T
    var bytes: ByteMap
    ghost var trail: seq<Stop<T>>
    ghost var faults: nat

    ghost predicate Recorded()
      reads this
    {
      trail != [] && trail[|trail| - 1] == Stop(tables, bytes)
    }

    constructor (tables: T)
      ensures this.tables == tables && bytes == map[] && Recorded()
    {
      this.tables, bytes, faults := tables, map[], 0;
      trail := [Stop(tables, map[])];
    }

    method Open(backendID: string) returns (available: bool)
      modifies `faults
      ensures faults == old(faults) + if available then 0 else 1
    {
      available := *;
      faults := faults + if available then 0 else 1;
    }

    method Get(s: Slot) returns (r: Read)
      modifies `faults
      ensures r.Found? ==> s in bytes && r.data == bytes[s]
      ensures r.NotExist? ==> s !in bytes
      ensures faults == old(faults) + if r.ReadError? then 1 else 0
    {
      var fails: bool := *;
      if fails {
        faults := faults + 1;
        return ReadError;
      }
      return if s in bytes then Found(bytes[s]) else NotExist;
    }

    method Put(s: Slot, data: Bytes) returns (ok: bool)
      modifies `bytes, `trail, `faults
      ensures bytes == if ok then old(bytes)[s := data] else old(bytes)
      ensures trail == if ok then old(trail) + [Stop(tables, bytes)] else old(trail)
      ensures faults == old(faults) + if ok then 0 else 1
    {
      ok := *;
      if ok {
        bytes := bytes[s := data];
        trail := trail + [Stop(tables, bytes)];
      } else {
        faults := faults + 1;
      }
    }

    /** Deleting what is not there succeeds. */
    method Delete(s: Slot) returns (ok: bool)
      modifies `bytes, `trail, `faults
      ensures bytes == if ok then old(bytes) - {s} else old(bytes)
      ensures trail == if ok then old(trail) + [Stop(tables, bytes)] else old(trail)
      ensures faults == old(faults) + if ok then 0 else 1
    {
      ok := *;
      if ok {
        bytes := bytes - {s};
        trail := trail + [Stop(tables, bytes)];
      } else {
        faults := faults + 1;
      }
    }

    /** A query; its answer is there when it succeeds. */
    method Query() returns (ok: bool)
      modifies `faults
      ensures faults == old(faults) + if ok then 0 else 1
    {
      ok := *;
      faults := faults + if ok then 0 else 1;
    }

    /** One transaction: all of its changes to the tables, or none. */
    method Commit(changed: T) returns (ok: bool)
      modifies `tables, `trail, `faults
      ensures tables == if ok then changed else old(tables)
      ensures trail == if ok then old(trail) + [Stop(tables, bytes)] else old(trail)
      ensures faults == old(faults) + if ok then 0 else 1
    {
      ok := *;
      if ok {
        tables := changed;
        trail := trail + [Stop(tables, bytes)];
      } else {
        faults := faults + 1;
      }
    }
  }

  datatype Relocation = Relocation(contentID: nat, backendID: string, oldKey: string, newKey: string, copied: bool) {
    function From(): Slot { Slot(backendID, oldKey) }
    function To(): Slot { Slot(backendID, newKey) }
    predicate Moves() { oldKey != newKey }
  }

  datatype StageError = BackendUnavailable | DestinationExists | CannotRead | CannotWrite

  ghost function CopiedTo(rs: seq<Relocation>): set<Slot> {
    set r | r in rs && r.copied :: r.To()
  }

  ghost function CopiedFrom(rs: seq<Relocation>): set<Slot> {
    set r | r in rs && r.copied :: r.From()
  }

  /** `bytes` is `was` with some more slots, all of them in `extra`. */
  ghost predicate Extends(was: ByteMap, bytes: ByteMap, extra: set<Slot>) {
    && (forall s | s in was :: s in bytes && bytes[s] == was[s])
    && (forall s | s in bytes :: s in was || s in extra)
  }

  /** `bytes` is `was` without some slots, all of them in `gone`. */
  ghost predicate Shrinks(was: ByteMap, bytes: ByteMap, gone: set<Slot>) {
    && (forall s | s in bytes :: s in was && bytes[s] == was[s])
    && (forall s | s in was && s !in bytes :: s in gone)
  }

  /** From `before` on the trail has gone only through states with these tables whose bytes extend `was`. */
  ghost predicate TrailExtends<T>(
    before: seq<Stop<T>>, after: seq<Stop<T>>, tables: T, was: ByteMap, extra: set<Slot>)
  {
    && before <= after
    && forall i | |before| <= i < |after| :: after[i].tables == tables && Extends(was, after[i].bytes, extra)
  }

  ghost predicate TrailShrinks<T>(
    before: seq<Stop<T>>, after: seq<Stop<T>>, tables: T, was: ByteMap, gone: set<Slot>)
  {
    && before <= after
    && forall i | |before| <= i < |after| :: after[i].tables == tables && Shrinks(was, after[i].bytes, gone)
  }

  lemma ExtendingMore<T>(before: seq<Stop<T>>, after: seq<Stop<T>>, tables: T, was: ByteMap, extra: set<Slot>,
                         more: set<Slot>, bytes: ByteMap)
    requires TrailExtends(before, after, tables, was, extra) && extra <= more && Extends(was, bytes, more)
    ensures TrailExtends(before, after, tables, was, more)
    ensures TrailExtends(before, after + [Stop(tables, bytes)], tables, was, more)
  {
  }

  /** Taking back what was added only goes through states between the two. */
  lemma TakingBackExtends<T>(before: seq<Stop<T>>, mid: seq<Stop<T>>, after: seq<Stop<T>>, tables: T, was: ByteMap,
                             bytes: ByteMap, extra: set<Slot>)
    requires TrailExtends(before, mid, tables, was, extra) && Extends(was, bytes, extra) && extra !! was.Keys
    requires TrailShrinks(mid, after, tables, bytes, extra)
    ensures TrailExtends(before, after, tables, was, extra)
  {
    forall i | |before| <= i < |after| ensures after[i].tables == tables && Extends(was, after[i].bytes, extra) {
      if i < |mid| {
        assert after[i] == mid[i];
      }
    }
  }

  /** What staging did for one relocation. */
  ghost predicate Staged(was: ByteMap, bytes: ByteMap, r: Relocation) {
    && (r.copied ==> r.Moves() && r.To() in bytes && r.From() in bytes)
    && (r.Moves() ==>
          && r.To() !in was
          && (r.From() in was ==> r.copied && r.To() in bytes && bytes[r.To()] == was[r.From()]))
  }

  ghost predicate SameButCopied(a: seq<Relocation>, b: seq<Relocation>) {
    |a| == |b| && forall i | 0 <= i < |a| :: a[i].(copied := false) == b[i].(copied := false)
  }

  lemma CopiedToOneMore(rs: seq<Relocation>, r: Relocation)
    ensures CopiedTo(rs + [r]) == CopiedTo(rs) + (if r.copied then {r.To()} else {})
    ensures CopiedFrom(rs + [r]) == CopiedFrom(rs) + (if r.copied then {r.From()} else {})
  {
    forall s ensures s in CopiedTo(rs + [r]) <==> s in CopiedTo(rs) + (if r.copied then {r.To()} else {}) {
      if s in CopiedTo(rs) {
        var x :| x in rs && x.copied && x.To() == s;
        assert x in rs + [r];
      }
      if r.copied && s == r.To() {
        assert r in rs + [r];
      }
    }
    forall s ensures s in CopiedFrom(rs + [r]) <==> s in CopiedFrom(rs) + (if r.copied then {r.From()} else {}) {
      if s in CopiedFrom(rs) {
        var x :| x in rs && x.copied && x.From() == s;
        assert x in rs + [r];
      }
      if r.copied && s == r.From() {
        assert r in rs + [r];
      }
    }
  }

  /** How many calls must have failed for staging to end in this error. */
  function StageFaults(error: StageError): nat {
    if error == DestinationExists then 0 else 1
  }

  /** Some destination is taken, from the outset or by an earlier relocation. */
  ghost predicate Blocked(was: ByteMap, rs: seq<Relocation>) {
    exists i :: 0 <= i < |rs| && BlockedAt(was, rs, i)
  }

  ghost predicate BlockedAt(was: ByteMap, rs: seq<Relocation>, i: nat)
    requires i < |rs|
  {
    rs[i].Moves() && (rs[i].To() in was || exists j :: 0 <= j < i && rs[j].To() == rs[i].To())
  }

  /** Copies each relocation's bytes to its new key, marking it; on failure the copies made so far are
      taken back, and nothing but the old bytes is left when no further call fails. */
  method StageRelocations<T>(storage: Storage<T>, relocations: array<Relocation>) returns (error: Option<StageError>)
    requires forall i | 0 <= i < relocations.Length :: !relocations[i].copied
    modifies storage`bytes, storage`trail, storage`faults, relocations
    ensures SameButCopied(relocations[..], old(relocations[..]))
    ensures Extends(old(storage.bytes), storage.bytes, CopiedTo(relocations[..]))
    ensures CopiedTo(relocations[..]) !! old(storage.bytes).Keys
    ensures error.None? ==>
              && storage.faults == old(storage.faults)
              && forall i | 0 <= i < relocations.Length :: Staged(old(storage.bytes), storage.bytes, relocations[i])
    ensures error.Some? ==>
              && storage.faults >= old(storage.faults) + StageFaults(error.value)
              && (storage.faults == old(storage.faults) + StageFaults(error.value) ==>
                    storage.bytes == old(storage.bytes))
    ensures error == Some(DestinationExists) ==> Blocked(old(storage.bytes), relocations[..])
    ensures TrailExtends(old(storage.trail), storage.trail, storage.tables, old(storage.bytes),
                         CopiedTo(relocations[..]))
    ensures old(storage.Recorded()) ==> storage.Recorded()
  {
    ghost var was, plan, before := storage.bytes, relocations[..], storage.trail;
    assert relocations[..0] == [];
    var i := 0;
    while i < relocations.Length
      invariant StagedUpTo(was, storage.bytes, relocations[..], plan, i) && storage.faults == old(storage.faults)
      invariant TrailExtends(before, storage.trail, storage.tables, was, CopiedTo(relocations[..i]))
      invariant old(storage.Recorded()) ==> storage.Recorded()
    {
      error := StageNext(storage, relocations, i, before, was, plan);
      if error.Some? {
        Unstage(storage, relocations, i, before, was, plan);
        return;
      }
      i := i + 1;
    }
    assert relocations[..][..i] == relocations[..];
    return None;
  }

  /** What staging leaves, and went through: the old bytes and some copies. */
  ghost predicate StagingKept<T>(before: seq<Stop<T>>, trail: seq<Stop<T>>, tables: T, was: ByteMap, bytes: ByteMap,
                                 rs: seq<Relocation>)
  {
    && CopiedTo(rs) !! was.Keys && Extends(was, bytes, CopiedTo(rs))
    && TrailExtends(before, trail, tables, was, CopiedTo(rs))
  }

  /** One round of staging: one relocation more, or no change. */
  method StageNext<T>(storage: Storage<T>, relocations: array<Relocation>, i: nat,
                      ghost before: seq<Stop<T>>, ghost was: ByteMap, ghost plan: seq<Relocation>)
    returns (error: Option<StageError>)
    requires i < relocations.Length && StagedUpTo(was, storage.bytes, relocations[..], plan, i)
    requires TrailExtends(before, storage.trail, storage.tables, was, CopiedTo(relocations[..i]))
    modifies storage`bytes, storage`trail, storage`faults, relocations
    ensures var n := if error.None? then i + 1 else i;
            && StagedUpTo(was, storage.bytes, relocations[..], plan, n)
            && TrailExtends(before, storage.trail, storage.tables, was, CopiedTo(relocations[..n]))
    ensures storage.faults == old(storage.faults) + if error.Some? then StageFaults(error.value) else 0
    ensures error == Some(DestinationExists) ==> Blocked(was, relocations[..])
    ensures old(storage.Recorded()) ==> storage.Recorded()
  {
    ghost var bytes, rs, trail := storage.bytes, relocations[..], storage.trail;
    var staged := StageOne(storage, relocations[i]);
    if staged.Failure? {
      if staged.error == DestinationExists {
        TakenIsBlocked(was, bytes, rs, plan, i);
      }
      return Some(staged.error);
    }
    StagedOneMore(before, trail, storage.trail, storage.tables, was, bytes, storage.bytes, rs, plan, i, staged.value);
    Mark(relocations, i, staged.value);
    return None;
  }

  method Mark(relocations: array<Relocation>, i: nat, copied: bool)
    requires i < relocations.Length
    modifies relocations
    ensures var rs := old(relocations[..]); relocations[..] == rs[i := rs[i].(copied := copied)]
  {
    relocations[i] := relocations[i].(copied := copied);
  }

  /** Takes the first `i` copies back. */
  method Unstage<T>(storage: Storage<T>, relocations: array<Relocation>, i: nat,
                    ghost before: seq<Stop<T>>, ghost was: ByteMap, ghost plan: seq<Relocation>)
    requires i <= relocations.Length && StagedUpTo(was, storage.bytes, relocations[..], plan, i)
    requires TrailExtends(before, storage.trail, storage.tables, was, CopiedTo(relocations[..i]))
    modifies storage`bytes, storage`trail, storage`faults
    ensures StagingKept(before, storage.trail, storage.tables, was, storage.bytes, relocations[..])
    ensures storage.faults >= old(storage.faults)
    ensures storage.faults == old(storage.faults) ==> storage.bytes == was
    ensures old(storage.Recorded()) ==> storage.Recorded()
  {
    ghost var bytes, trail := storage.bytes, storage.trail;
    assert relocations[..][..i] == relocations[..i];
    UnmarkedCopiesNothing(relocations[..], i);
    RollbackRelocations(storage, relocations, i);
    TakingBackExtends(before, trail, storage.trail, storage.tables, was, bytes, CopiedTo(relocations[..i]));
  }

  lemma TakenIsBlocked(was: ByteMap, bytes: ByteMap, rs: seq<Relocation>, plan: seq<Relocation>, i: nat)
    requires i < |rs| && StagedUpTo(was, bytes, rs, plan, i) && rs[i].Moves() && rs[i].To() in bytes
    ensures Blocked(was, rs)
  {
    if rs[i].To() !in was {
      var j := CopierOf(rs, i, rs[i].To());
    }
    assert BlockedAt(was, rs, i);
  }

  lemma CopierOf(rs: seq<Relocation>, n: nat, s: Slot) returns (j: nat)
    requires n <= |rs| && s in CopiedTo(rs[..n])
    ensures j < n && rs[j].copied && rs[j].To() == s
  {
    var r :| r in rs[..n] && r.copied && r.To() == s;
    j :| 0 <= j < n && rs[j] == r;
  }

  lemma StagedOneMore<T>(before: seq<Stop<T>>, trail: seq<Stop<T>>, after: seq<Stop<T>>, tables: T, was: ByteMap,
                         bytes: ByteMap, now: ByteMap, rs: seq<Relocation>, plan: seq<Relocation>, i: nat, copied: bool)
    requires i < |rs| && StagedUpTo(was, bytes, rs, plan, i) && OneStaged(bytes, now, rs[i], copied)
    requires TrailExtends(before, trail, tables, was, CopiedTo(rs[..i]))
    requires after == if copied then trail + [Stop(tables, now)] else trail
    ensures var marked := rs[i := rs[i].(copied := copied)];
            && StagedUpTo(was, now, marked, plan, i + 1)
            && TrailExtends(before, after, tables, was, CopiedTo(marked[..i + 1]))
  {
    StageStep(was, bytes, now, rs, plan, i, copied);
    TrailStep(before, trail, after, tables, was, bytes, now, rs, plan, i, copied);
  }

  lemma TrailStep<T>(before: seq<Stop<T>>, trail: seq<Stop<T>>, after: seq<Stop<T>>, tables: T, was: ByteMap,
                     bytes: ByteMap, now: ByteMap, rs: seq<Relocation>, plan: seq<Relocation>, i: nat, copied: bool)
    requires i < |rs| && StagedUpTo(was, bytes, rs, plan, i) && OneStaged(bytes, now, rs[i], copied)
    requires TrailExtends(before, trail, tables, was, CopiedTo(rs[..i]))
    requires after == if copied then trail + [Stop(tables, now)] else trail
    ensures TrailExtends(before, after, tables, was, CopiedTo(rs[i := rs[i].(copied := copied)][..i + 1]))
  {
    var r := rs[i].(copied := copied);
    assert rs[i := r][..i + 1] == rs[..i] + [r];
    CopiedToOneMore(rs[..i], r);
    ExtendsOneMore(was, bytes, now, rs[i], copied, CopiedTo(rs[..i]));
    ExtendingMore(before, trail, tables, was, CopiedTo(rs[..i]), CopiedTo(rs[..i] + [r]), now);
  }

  /** The state of staging after `i` relocations. */
  ghost predicate StagedUpTo(was: ByteMap, bytes: ByteMap, rs: seq<Relocation>, plan: seq<Relocation>, i: nat) {
    && i <= |rs| && SameButCopied(rs, plan)
    && (forall k | i <= k < |rs| :: !rs[k].copied)
    && Extends(was, bytes, CopiedTo(rs[..i])) && CopiedTo(rs[..i]) !! was.Keys
    && (forall k {:trigger Staged(was, bytes, rs[k])} | 0 <= k < i :: Staged(was, bytes, rs[k]))
  }

  /** What `StageOne` may do to the bytes. */
  ghost predicate OneStaged(bytes: ByteMap, after: ByteMap, r: Relocation, copied: bool) {
    if copied then
      r.Moves() && r.To() !in bytes && r.From() in bytes && after == bytes[r.To() := bytes[r.From()]]
    else
      after == bytes && (r.Moves() ==> r.To() !in bytes && r.From() !in bytes)
  }

  lemma StageStep(was: ByteMap, bytes: ByteMap, after: ByteMap, rs: seq<Relocation>, plan: seq<Relocation>, i: nat,
                  copied: bool)
    requires i < |rs| && StagedUpTo(was, bytes, rs, plan, i) && OneStaged(bytes, after, rs[i], copied)
    ensures StagedUpTo(was, after, rs[i := rs[i].(copied := copied)], plan, i + 1)
  {
    var r := rs[i].(copied := copied);
    var next := rs[i := r];
    assert next[..i + 1] == rs[..i] + [r];
    CopiedToOneMore(rs[..i], r);
    ExtendsOneMore(was, bytes, after, rs[i], copied, CopiedTo(rs[..i]));
    MarkingKeepsPlan(rs, plan, i, copied);
    forall k | 0 <= k < i + 1 ensures Staged(was, after, next[k]) {
      if k < i {
        StagedLasts(was, bytes, after, rs[i], copied, rs[k]);
      } else {
        OneStagedIsStaged(was, bytes, after, rs[i], copied, CopiedTo(rs[..i]));
      }
    }
  }

  lemma ExtendsOneMore(was: ByteMap, bytes: ByteMap, after: ByteMap, r: Relocation, copied: bool, extra: set<Slot>)
    requires Extends(was, bytes, extra) && extra !! was.Keys && OneStaged(bytes, after, r, copied)
    ensures var more := extra + if copied then {r.To()} else {}; Extends(was, after, more) && more !! was.Keys
  {
  }

  lemma MarkingKeepsPlan(rs: seq<Relocation>, plan: seq<Relocation>, i: nat, copied: bool)
    requires i < |rs| && SameButCopied(rs, plan)
    ensures SameButCopied(rs[i := rs[i].(copied := copied)], plan)
  {
  }

  lemma StagedLasts(was: ByteMap, bytes: ByteMap, after: ByteMap, r: Relocation, copied: bool, earlier: Relocation)
    requires OneStaged(bytes, after, r, copied) && Staged(was, bytes, earlier)
    ensures Staged(was, after, earlier)
  {
  }

  lemma OneStagedIsStaged(was: ByteMap, bytes: ByteMap, after: ByteMap, r: Relocation, copied: bool, extra: set<Slot>)
    requires Extends(was, bytes, extra) && extra !! was.Keys && OneStaged(bytes, after, r, copied)
    ensures Staged(was, after, r.(copied := copied))
  {
    var s := r.(copied := copied);
    assert s.To() == r.To() && s.From() == r.From();
  }

  /** One relocation's copy: refused when the new key is taken, skipped when there is nothing to copy. */
  method StageOne<T>(storage: Storage<T>, r: Relocation) returns (copied: Result<bool, StageError>)
    modifies storage`bytes, storage`trail, storage`faults
    ensures copied.Failure? ==> storage.bytes == old(storage.bytes)
    ensures copied.Success? ==> OneStaged(old(storage.bytes), storage.bytes, r, copied.value)
    ensures copied == Failure(DestinationExists) ==> r.Moves() && r.To() in storage.bytes
    ensures storage.faults == old(storage.faults) + if copied.Failure? then StageFaults(copied.error) else 0
    ensures copied != Success(true) ==> storage.trail == old(storage.trail)
    ensures copied == Success(true) ==> storage.trail == old(storage.trail) + [Stop(storage.tables, storage.bytes)]
  {
    if r.oldKey == r.newKey {
      return Success(false);
    }
    var available := storage.Open(r.backendID);
    if !available {
      return Failure(BackendUnavailable);
    }
    var existing := storage.Get(r.To());
    if existing.Found? {
      return Failure(DestinationExists);
    }
    if existing.ReadError? {
      return Failure(CannotRead);
    }
    var reader := storage.Get(r.From());
    if reader.NotExist? {
      return Success(false);
    }
    if reader.ReadError? {
      return Failure(CannotRead);
    }
    var ok := storage.Put(r.To(), reader.data);
    if !ok {
      return Failure(CannotWrite);
    }
    return Success(true);
  }

  lemma CopiesOfPrefix(rs: seq<Relocation>, n: nat)
    requires n <= |rs|
    ensures CopiedTo(rs[..n]) <= CopiedTo(rs)
  {
    forall s | s in CopiedTo(rs[..n]) ensures s in CopiedTo(rs) {
      var r :| r in rs[..n] && r.copied && r.To() == s;
      assert r in rs;
    }
  }

  lemma UnmarkedCopiesNothing(rs: seq<Relocation>, n: nat)
    requires n <= |rs| && forall k | n <= k < |rs| :: !rs[k].copied
    ensures CopiedTo(rs) == CopiedTo(rs[..n])
  {
    forall s | s in CopiedTo(rs) ensures s in CopiedTo(rs[..n]) {
      var r :| r in rs && r.copied && r.To() == s;
      assert r in rs[..n];
    }
    CopiesOfPrefix(rs, n);
  }

  /** Deletes the copies made for the first `n` relocations: all of them unless a call fails. */
  method RollbackRelocations<T>(storage: Storage<T>, relocations: array<Relocation>, n: nat)
    requires n <= relocations.Length
    modifies storage`bytes, storage`trail, storage`faults
    ensures Shrinks(old(storage.bytes), storage.bytes, CopiedTo(relocations[..n]))
    ensures storage.faults >= old(storage.faults)
    ensures storage.faults == old(storage.faults) ==> storage.bytes == old(storage.bytes) - CopiedTo(relocations[..n])
    ensures TrailShrinks(old(storage.trail), storage.trail, storage.tables, old(storage.bytes),
                         CopiedTo(relocations[..n]))
    ensures old(storage.Recorded()) ==> storage.Recorded()
  {
    ghost var was, before := storage.bytes, storage.trail;
    assert CopiedTo(relocations[..0]) == {};
    for i := 0 to n
      invariant Shrinks(was, storage.bytes, CopiedTo(relocations[..i])) && storage.faults >= old(storage.faults)
      invariant storage.faults == old(storage.faults) ==> storage.bytes == was - CopiedTo(relocations[..i])
      invariant TrailShrinks(before, storage.trail, storage.tables, was, CopiedTo(relocations[..i]))
      invariant old(storage.Recorded()) ==> storage.Recorded()
    {
      assert relocations[..i + 1] == relocations[..i] + [relocations[i]];
      CopiedToOneMore(relocations[..i], relocations[i]);
      if relocations[i].copied {
        TryDelete(storage, relocations[i].To(), before, was, CopiedTo(relocations[..i]));
      }
    }
  }

  /** Deletes the old keys of what was copied: all of them unless a call fails. */
  method FinishRelocations<T>(storage: Storage<T>, relocations: array<Relocation>)
    modifies storage`bytes, storage`trail, storage`faults
    ensures Shrinks(old(storage.bytes), storage.bytes, CopiedFrom(relocations[..]))
    ensures storage.faults >= old(storage.faults)
    ensures storage.faults == old(storage.faults) ==> storage.bytes == old(storage.bytes) - CopiedFrom(relocations[..])
    ensures TrailShrinks(old(storage.trail), storage.trail, storage.tables, old(storage.bytes),
                         CopiedFrom(relocations[..]))
    ensures old(storage.Recorded()) ==> storage.Recorded()
  {
    ghost var was, before := storage.bytes, storage.trail;
    assert CopiedFrom(relocations[..0]) == {};
    for i := 0 to relocations.Length
      invariant Shrinks(was, storage.bytes, CopiedFrom(relocations[..i])) && storage.faults >= old(storage.faults)
      invariant storage.faults == old(storage.faults) ==> storage.bytes == was - CopiedFrom(relocations[..i])
      invariant TrailShrinks(before, storage.trail, storage.tables, was, CopiedFrom(relocations[..i]))
      invariant old(storage.Recorded()) ==> storage.Recorded()
    {
      assert relocations[..i + 1] == relocations[..i] + [relocations[i]];
      CopiedToOneMore(relocations[..i], relocations[i]);
      if relocations[i].copied {
        TryDelete(storage, relocations[i].From(), before, was, CopiedFrom(relocations[..i]));
      }
    }
    assert relocations[..relocations.Length] == relocations[..];
  }

  /** One more slot to delete, as far as its backend can be opened and the delete works. */
  method TryDelete<T>(storage: Storage<T>, s: Slot,
                      ghost before: seq<Stop<T>>, ghost was: ByteMap, ghost gone: set<Slot>)
    requires Shrinks(was, storage.bytes, gone)
    requires TrailShrinks(before, storage.trail, storage.tables, was, gone)
    modifies storage`bytes, storage`trail, storage`faults
    ensures storage.faults >= old(storage.faults)
    ensures Shrinks(was, storage.bytes, gone + {s})
    ensures storage.faults == old(storage.faults) ==> storage.bytes == old(storage.bytes) - {s}
    ensures TrailShrinks(before, storage.trail, storage.tables, was, gone + {s})
    ensures old(storage.Recorded()) ==> storage.Recorded()
  {
    var available := storage.Open(s.backendID);
    if available {
      var _ := DeleteSlot(storage, s, before, was, gone);
    }
  }

  /** One more slot to delete. */
  method DeleteSlot<T>(storage: Storage<T>, s: Slot,
                       ghost before: seq<Stop<T>>, ghost was: ByteMap, ghost gone: set<Slot>)
    returns (ok: bool)
    requires Shrinks(was, storage.bytes, gone)
    requires TrailShrinks(before, storage.trail, storage.tables, was, gone)
    modifies storage`bytes, storage`trail, storage`faults
    ensures storage.faults == old(storage.faults) + if ok then 0 else 1
    ensures storage.bytes == if ok then old(storage.bytes) - {s} else old(storage.bytes)
    ensures Shrinks(was, storage.bytes, gone + {s})
    ensures TrailShrinks(before, storage.trail, storage.tables, was, gone + {s})
    ensures old(storage.Recorded()) ==> storage.Recorded()
  {
    ok := storage.Delete(s);
  }

  lemma ShrinkingMore<T>(before: seq<Stop<T>>, after: seq<Stop<T>>, tables: T, was: ByteMap, gone: set<Slot>,
                         more: set<Slot>)
    requires TrailShrinks(before, after, tables, was, gone) && gone <= more
    ensures TrailShrinks(before, after, tables, was, more)
  {
  }

  /** New keys are pairwise distinct, and none of them is one of the old keys. */
  ghost predicate Separate(rs: seq<Relocation>) {
    && (forall i, j | 0 <= i < j < |rs| :: rs[i].To() != rs[j].To())
    && (forall i, j | 0 <= i < |rs| && 0 <= j < |rs| && rs[i].Moves() :: rs[i].To() != rs[j].From())
  }

  /** After copying, then deleting some of what was copied from: every relocated key reads what it read
      before at its old key, and every slot that is neither a source nor a destination reads as before. */
  lemma RelocatedReadsTheSame(was: ByteMap, staged: ByteMap, after: ByteMap, rs: seq<Relocation>)
    requires Separate(rs) && Extends(was, staged, CopiedTo(rs))
    requires forall i | 0 <= i < |rs| :: Staged(was, staged, rs[i])
    requires Shrinks(staged, after, CopiedFrom(rs))
    ensures forall i | 0 <= i < |rs| && rs[i].Moves() :: Lookup(after, rs[i].To()) == Lookup(was, rs[i].From())
    ensures forall s | (forall i | 0 <= i < |rs| :: s != rs[i].From() && s != rs[i].To()) ::
              Lookup(after, s) == Lookup(was, s)
  {
    forall i | 0 <= i < |rs| && rs[i].Moves()
      ensures Lookup(after, rs[i].To()) == Lookup(was, rs[i].From())
    {
      var to := rs[i].To();
      assert to !in CopiedFrom(rs);
      if rs[i].From() !in was {
        assert to !in staged;
      }
    }
    forall s | (forall i | 0 <= i < |rs| :: s != rs[i].From() && s != rs[i].To())
      ensures Lookup(after, s) == Lookup(was, s)
    {
      assert s !in CopiedFrom(rs) && s !in CopiedTo(rs);
    }
  }
}
