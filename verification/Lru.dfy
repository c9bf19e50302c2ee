/** A bounded recency list with per-entry expiry: what the in-process cache is meant to be.
    The front of the list is the most recently used entry. */
module Lru {
  import opened Wrappers

  type Bytes = seq<bv8>

  datatype Item = Item(key: string, data: Bytes, expiresAt: int)

  /** What an invalidation removes: one key, or every key with a prefix. */
  datatype Selector = Key(key: string) | Prefix(prefix: string) {
    predicate Matches(k: string) {
      match this
      case Key(key) => k == key
      case Prefix(prefix) => prefix <= k
    }
  }

  datatype Op =
    | Get(key: string, now: int)
    | Set(key: string, data: Bytes, now: int, ttl: int)
    | Invalidate(target: Selector)

  function Lookup(s: seq<Item>, key: string): Option<Item> {
    if s == [] then None else if s[0].key == key then Some(s[0]) else Lookup(s[1..], key)
  }

  /** No key occurs twice. */
  predicate Distinct(s: seq<Item>) {
    s == [] || (Lookup(s[1..], s[0].key).None? && Distinct(s[1..]))
  }

  /** `s` without the selected entries, the others in their old order. */
  function Drop(s: seq<Item>, sel: Selector): seq<Item> {
    if s == [] then []
    else if sel.Matches(s[0].key) then Drop(s[1..], sel)
    else [s[0]] + Drop(s[1..], sel)
  }

  function Evict(s: seq<Item>, cap: nat): seq<Item> {
    if |s| > cap then s[..cap] else s
  }

  /** One operation on the recency list, with what the caller gets back. */
  function Apply(s: seq<Item>, cap: nat, op: Op): (seq<Item>, Option<Bytes>) {
    match op
    case Get(key, now) =>
      (match Lookup(s, key)
       case None => (s, None)
       case Some(it) =>
         if now > it.expiresAt then (Drop(s, Key(key)), None)
         else ([it] + Drop(s, Key(key)), Some(it.data)))
    case Set(key, data, now, ttl) =>
      (Evict([Item(key, data, now + ttl)] + Drop(s, Key(key)), cap), None)
    case Invalidate(sel) => (Drop(s, sel), None)
  }

  /** The list after all of `ops` on a new cache. */
  function Run(cap: nat, ops: seq<Op>): seq<Item> {
    if ops == [] then [] else Apply(Run(cap, ops[..|ops| - 1]), cap, ops[|ops| - 1]).0
  }

  /** What the `i`-th operation of a run returns. */
  function Outcome(cap: nat, ops: seq<Op>, i: nat): Option<Bytes>
    requires i < |ops|
  {
    Apply(Run(cap, ops[..i]), cap, ops[i]).1
  }

  /** What is written is read until its time to live has passed, and not after. */
  lemma WriteLasts(s: seq<Item>, cap: nat, key: string, data: Bytes, now: int, ttl: int, later: int)
    requires cap >= 1
    ensures Apply(Apply(s, cap, Set(key, data, now, ttl)).0, cap, Get(key, later)).1 ==
            if later <= now + ttl then Some(data) else None
  {
    var after := Apply(s, cap, Set(key, data, now, ttl)).0;
    assert after[0] == Item(key, data, now + ttl);
  }

  // ---------------------------------------------------------------- Drop, Evict and Lookup

  lemma {:induction false} DropLookup(s: seq<Item>, sel: Selector, key: string)
    ensures Lookup(Drop(s, sel), key) == if sel.Matches(key) then None else Lookup(s, key)
  {
    if s != [] {
      DropLookup(s[1..], sel, key);
    }
  }

  /** An invalidation takes away the entry of its key, or those whose keys start with its prefix. */
  lemma InvalidationMeans(s: seq<Item>, cap: nat, target: string, key: string)
    ensures Lookup(Apply(s, cap, Invalidate(Key(target))).0, key) == if key == target then None else Lookup(s, key)
    ensures Lookup(Apply(s, cap, Invalidate(Prefix(target))).0, key) ==
            if |target| <= |key| && key[..|target|] == target then None else Lookup(s, key)
  {
    DropLookup(s, Key(target), key);
    DropLookup(s, Prefix(target), key);
  }

  lemma {:induction false} DropDistinct(s: seq<Item>, sel: Selector)
    requires Distinct(s)
    ensures Distinct(Drop(s, sel)) && |Drop(s, sel)| <= |s|
  {
    if s != [] {
      DropDistinct(s[1..], sel);
      DropLookup(s[1..], sel, s[0].key);
    }
  }

  lemma {:induction false} DropKeySize(s: seq<Item>, key: string)
    requires Distinct(s)
    ensures |Drop(s, Key(key))| == |s| - (if Lookup(s, key).Some? then 1 else 0)
    ensures Lookup(s, key).None? ==> Drop(s, Key(key)) == s
  {
    if s != [] {
      DropKeySize(s[1..], key);
    }
  }

  lemma {:induction false} LookupKey(s: seq<Item>, key: string)
    ensures Lookup(s, key).Some? ==> Lookup(s, key).value.key == key
  {
    if s != [] {
      LookupKey(s[1..], key);
    }
  }

  lemma {:induction false} TakeLookup(s: seq<Item>, n: nat, key: string)
    requires n <= |s| && Lookup(s[..n], key).Some?
    ensures Lookup(s[..n], key) == Lookup(s, key)
  {
    if n > 0 && s[0].key != key {
      assert s[..n][1..] == s[1..][..n - 1];
      TakeLookup(s[1..], n - 1, key);
    }
  }

  lemma {:induction false} TakeDistinct(s: seq<Item>, n: nat)
    requires n <= |s| && Distinct(s)
    ensures Distinct(s[..n])
  {
    if n > 0 {
      assert s[..n][1..] == s[1..][..n - 1];
      TakeDistinct(s[1..], n - 1);
      if Lookup(s[1..][..n - 1], s[0].key).Some? {
        TakeLookup(s[1..], n - 1, s[0].key);
      }
    }
  }

  // ---------------------------------------------------------------- every run keeps the bound

  lemma {:induction false} PushDistinct(it: Item, s: seq<Item>)
    requires Distinct(s)
    ensures Distinct([it] + Drop(s, Key(it.key)))
  {
    DropDistinct(s, Key(it.key));
    DropLookup(s, Key(it.key), it.key);
    assert ([it] + Drop(s, Key(it.key)))[1..] == Drop(s, Key(it.key));
  }

  lemma {:induction false} StepKeepsBound(s: seq<Item>, cap: nat, op: Op)
    requires Distinct(s) && |s| <= cap
    ensures Distinct(Apply(s, cap, op).0) && |Apply(s, cap, op).0| <= cap
  {
    match op
    case Get(key, _) =>
      DropDistinct(s, Key(key));
      DropKeySize(s, key);
      LookupKey(s, key);
      if Lookup(s, key).Some? {
        PushDistinct(Lookup(s, key).value, s);
      }
    case Set(key, data, now, ttl) =>
      var pushed := [Item(key, data, now + ttl)] + Drop(s, Key(key));
      PushDistinct(Item(key, data, now + ttl), s);
      if |pushed| > cap {
        TakeDistinct(pushed, cap);
      }
    case Invalidate(sel) =>
      DropDistinct(s, sel);
  }

  lemma {:induction false} RunKeepsBound(cap: nat, ops: seq<Op>)
    ensures Distinct(Run(cap, ops)) && |Run(cap, ops)| <= cap
  {
    if ops != [] {
      RunKeepsBound(cap, ops[..|ops| - 1]);
      StepKeepsBound(Run(cap, ops[..|ops| - 1]), cap, ops[|ops| - 1]);
    }
  }

  /** Setting a new key in a full cache evicts the last entry of the list and nothing else. */
  lemma {:induction false} SetEvictsLast(s: seq<Item>, cap: nat, key: string, data: Bytes, now: int, ttl: int)
    requires Distinct(s) && 1 <= cap && |s| == cap && Lookup(s, key).None?
    ensures Apply(s, cap, Set(key, data, now, ttl)).0 == [Item(key, data, now + ttl)] + s[..cap - 1]
  {
    DropKeySize(s, key);
  }

  // ---------------------------------------------------------------- recency order

  /** How far into `ops` the key was last read or written; 0 when it never was. */
  function LastTouch(ops: seq<Op>, key: string): (n: nat)
    ensures n <= |ops|
  {
    if ops == [] then 0
    else
      var op := ops[|ops| - 1];
      if !op.Invalidate? && op.key == key then |ops| else LastTouch(ops[..|ops| - 1], key)
  }

  /** The keys of `s` were last touched in strictly decreasing order, all of them before `bound`. */
  ghost predicate Descending(ops: seq<Op>, s: seq<Item>, bound: nat) {
    s == [] || (LastTouch(ops, s[0].key) < bound && Descending(ops, s[1..], LastTouch(ops, s[0].key)))
  }

  lemma {:induction false} DescendingAt(ops: seq<Op>, s: seq<Item>, bound: nat, i: nat, j: nat)
    requires Descending(ops, s, bound) && i < j < |s|
    ensures LastTouch(ops, s[j].key) < LastTouch(ops, s[i].key) < bound
  {
    if i > 0 {
      DescendingAt(ops, s[1..], LastTouch(ops, s[0].key), i - 1, j - 1);
    } else if j > 1 {
      DescendingAt(ops, s[1..], LastTouch(ops, s[0].key), 0, j - 1);
    }
  }

  lemma {:induction false} DescendingTake(ops: seq<Op>, s: seq<Item>, bound: nat, n: nat)
    requires Descending(ops, s, bound) && n <= |s|
    ensures Descending(ops, s[..n], bound)
  {
    if n > 0 {
      assert s[..n][1..] == s[1..][..n - 1];
      DescendingTake(ops, s[1..], LastTouch(ops, s[0].key), n - 1);
    }
  }

  lemma {:induction false} DescendingBound(ops: seq<Op>, s: seq<Item>, low: nat, high: nat)
    requires Descending(ops, s, low) && low <= high
    ensures Descending(ops, s, high)
  {
  }

  /** The last operation leaves the order of the entries it does not touch alone. */
  lemma {:induction false} UntouchedStayDescending(ops: seq<Op>, s: seq<Item>, sel: Selector, bound: nat)
    requires ops != [] && Descending(ops[..|ops| - 1], s, bound)
    requires !ops[|ops| - 1].Invalidate? ==> sel == Key(ops[|ops| - 1].key)
    ensures Descending(ops, Drop(s, sel), bound)
  {
    if s != [] {
      var next := LastTouch(ops[..|ops| - 1], s[0].key);
      UntouchedStayDescending(ops, s[1..], sel, next);
      if sel.Matches(s[0].key) {
        DescendingBound(ops, Drop(s[1..], sel), next, bound);
      } else {
        assert LastTouch(ops, s[0].key) == next;
        assert Drop(s, sel)[1..] == Drop(s[1..], sel);
      }
    }
  }

  lemma {:induction false} RunDescending(cap: nat, ops: seq<Op>)
    ensures Descending(ops, Run(cap, ops), |ops| + 1)
  {
    if ops != [] {
      var before := ops[..|ops| - 1];
      var op := ops[|ops| - 1];
      var s := Run(cap, before);
      RunDescending(cap, before);
      RunKeepsBound(cap, before);
      var sel := if op.Invalidate? then op.target else Key(op.key);
      UntouchedStayDescending(ops, s, sel, |ops|);
      DescendingBound(ops, Drop(s, sel), |ops|, |ops| + 1);
      match op
      case Get(key, now) =>
        LookupKey(s, key);
        DropKeySize(s, key);
        if Lookup(s, key).Some? {
          assert ([Lookup(s, key).value] + Drop(s, sel))[1..] == Drop(s, sel);
        }
      case Set(key, data, now, ttl) =>
        var pushed := [Item(key, data, now + ttl)] + Drop(s, sel);
        assert pushed[1..] == Drop(s, sel);
        if |pushed| > cap {
          DescendingTake(ops, pushed, |ops| + 1, cap);
        }
      case Invalidate(_) =>
    }
  }

  /** In every run the list is sorted by the last read or write of each key, latest first;
      so the entry an insertion evicts (`SetEvictsLast`) is the least recently used one. */
  lemma {:induction false} RecencyOrder(cap: nat, ops: seq<Op>)
    ensures forall i, j | 0 <= i < j < |Run(cap, ops)| ::
              LastTouch(ops, Run(cap, ops)[i].key) > LastTouch(ops, Run(cap, ops)[j].key)
  {
    RunDescending(cap, ops);
    forall i, j | 0 <= i < j < |Run(cap, ops)|
      ensures LastTouch(ops, Run(cap, ops)[i].key) > LastTouch(ops, Run(cap, ops)[j].key)
    {
      DescendingAt(ops, Run(cap, ops), |ops| + 1, i, j);
    }
  }

  // ---------------------------------------------------------------- what a hit returns

  /** The last value set for the key and not since invalidated. */
  function LastWrite(ops: seq<Op>, key: string): Option<Item> {
    if ops == [] then None
    else
      var op := ops[|ops| - 1];
      var before := ops[..|ops| - 1];
      match op
      case Set(k, data, now, ttl) => if k == key then Some(Item(k, data, now + ttl)) else LastWrite(before, key)
      case Invalidate(sel) => if sel.Matches(key) then None else LastWrite(before, key)
      case Get(_, _) => LastWrite(before, key)
  }

  /** What one operation does to the entry of a key it leaves in the list. */
  lemma {:induction false} StepLookup(s: seq<Item>, cap: nat, op: Op, key: string)
    requires Lookup(Apply(s, cap, op).0, key).Some?
    ensures Lookup(Apply(s, cap, op).0, key) ==
            if op.Set? && op.key == key then Some(Item(key, op.data, op.now + op.ttl)) else Lookup(s, key)
    ensures op.Invalidate? ==> !op.target.Matches(key)
  {
    match op
    case Get(k, now) =>
      DropLookup(s, Key(k), key);
      LookupKey(s, k);
      if Lookup(s, k).Some? {
        assert ([Lookup(s, k).value] + Drop(s, Key(k)))[1..] == Drop(s, Key(k));
      }
    case Set(k, data, now, ttl) =>
      var pushed := [Item(k, data, now + ttl)] + Drop(s, Key(k));
      DropLookup(s, Key(k), key);
      assert pushed[1..] == Drop(s, Key(k));
      if |pushed| > cap {
        TakeLookup(pushed, cap, key);
      }
    case Invalidate(sel) =>
      DropLookup(s, sel, key);
  }

  lemma {:induction false} EntryIsLastWrite(cap: nat, ops: seq<Op>, key: string)
    requires Lookup(Run(cap, ops), key).Some?
    ensures Lookup(Run(cap, ops), key) == LastWrite(ops, key)
  {
    if ops != [] {
      var before := ops[..|ops| - 1];
      var op := ops[|ops| - 1];
      StepLookup(Run(cap, before), cap, op, key);
      if !(op.Set? && op.key == key) {
        EntryIsLastWrite(cap, before, key);
      }
    }
  }

  /** A hit returns the last value set for the key, not since invalidated and not yet expired. */
  lemma {:induction false} HitReturnsLastWrite(cap: nat, ops: seq<Op>, i: nat)
    requires i < |ops| && ops[i].Get? && Outcome(cap, ops, i).Some?
    ensures LastWrite(ops[..i], ops[i].key).Some?
    ensures LastWrite(ops[..i], ops[i].key).value.data == Outcome(cap, ops, i).value
    ensures ops[i].now <= LastWrite(ops[..i], ops[i].key).value.expiresAt
  {
    EntryIsLastWrite(cap, ops[..i], ops[i].key);
  }

  /** Reads and writes happen at non-decreasing times, none of them later than `end`. */
  ghost predicate Timed(ops: seq<Op>, end: int) {
    ops == [] ||
    var op := ops[|ops| - 1];
    if op.Invalidate? then Timed(ops[..|ops| - 1], end) else op.now <= end && Timed(ops[..|ops| - 1], op.now)
  }

  lemma {:induction false} TimedLater(ops: seq<Op>, end: int, later: int)
    requires Timed(ops, end) && end <= later
    ensures Timed(ops, later)
  {
    if ops != [] && ops[|ops| - 1].Invalidate? {
      TimedLater(ops[..|ops| - 1], end, later);
    }
  }

  /** The operation sets a key that a full list does not hold, and `key` is the entry that makes room. */
  ghost predicate Evicts(s: seq<Item>, cap: nat, op: Op, key: string) {
    op.Set? && Lookup(s, op.key).None? && |s| == cap > 0 && s[|s| - 1].key == key
  }

  /** The key was evicted after it was last set. */
  ghost predicate EvictedSince(cap: nat, ops: seq<Op>, key: string) {
    ops != [] &&
    var before, op := ops[..|ops| - 1], ops[|ops| - 1];
    !(op.Set? && op.key == key) && (Evicts(Run(cap, before), cap, op, key) || EvictedSince(cap, before, key))
  }

  /** The key was read too late after it was last set. */
  ghost predicate LapsedSince(ops: seq<Op>, key: string) {
    ops != [] &&
    var before, op := ops[..|ops| - 1], ops[|ops| - 1];
    !(op.Set? && op.key == key) && (ReadTooLate(before, op, key) || LapsedSince(before, key))
  }

  ghost predicate ReadTooLate(before: seq<Op>, op: Op, key: string) {
    op.Get? && op.key == key && LastWrite(before, key).Some? && op.now > LastWrite(before, key).value.expiresAt
  }

  lemma {:induction false} HeldAt(s: seq<Item>, key: string) returns (i: nat)
    requires Lookup(s, key).Some?
    ensures i < |s| && s[i].key == key
  {
    if s[0].key == key {
      i := 0;
    } else {
      i := HeldAt(s[1..], key);
      i := i + 1;
    }
  }

  /** Of all the keys held it is the least recently used one that makes room. */
  lemma EvictsLeastRecent(cap: nat, ops: seq<Op>, op: Op, key: string, other: string)
    requires Evicts(Run(cap, ops), cap, op, key) && Lookup(Run(cap, ops), other).Some? && other != key
    ensures LastTouch(ops, key) < LastTouch(ops, other)
  {
    var s := Run(cap, ops);
    var i := HeldAt(s, other);
    RecencyOrder(cap, ops);
    assert i < |s| - 1 && s[i].key == other && s[|s| - 1].key == key;
  }

  lemma {:induction false} InitKeepsAllButLast(s: seq<Item>, key: string)
    requires Distinct(s) && s != []
    ensures Lookup(s[..|s| - 1], key).Some? <==> Lookup(s, key).Some? && s[|s| - 1].key != key
    ensures Lookup(s, s[|s| - 1].key).Some?
  {
    if |s| > 1 {
      assert s[..|s| - 1][1..] == s[1..][..|s| - 2];
      InitKeepsAllButLast(s[1..], key);
    }
  }

  lemma LookupBehind(item: Item, s: seq<Item>, key: string)
    requires item.key != key
    ensures Lookup([item] + s, key) == Lookup(s, key)
  {
    assert ([item] + s)[1..] == s;
  }

  /** Setting a key evicts the last entry when it finds the list full and itself absent, and nothing else. */
  lemma SetKeepsOthers(s: seq<Item>, cap: nat, op: Op, key: string)
    requires Distinct(s) && 0 < |s| <= cap && op.Set? && op.key != key
    ensures Lookup(Apply(s, cap, op).0, key).Some? <==> Lookup(s, key).Some? && !Evicts(s, cap, op, key)
  {
    var item, kept := Item(op.key, op.data, op.now + op.ttl), Drop(s, Key(op.key));
    DropLookup(s, Key(op.key), key);
    DropKeySize(s, op.key);
    LookupBehind(item, kept, key);
    if |kept| == cap {
      assert ([item] + kept)[..cap] == [item] + s[..cap - 1];
      LookupBehind(item, s[..cap - 1], key);
      InitKeepsAllButLast(s, key);
    }
  }

  lemma SetIntoEmpty(cap: nat, op: Op, key: string)
    requires 0 < cap && op.Set? && op.key != key
    ensures Lookup(Apply([], cap, op).0, key).None?
  {
    assert Drop([], Key(op.key)) == [];
  }

  lemma SetIsFound(s: seq<Item>, cap: nat, op: Op)
    requires 0 < cap && op.Set?
    ensures Lookup(Apply(s, cap, op).0, op.key).Some?
  {
    var pushed := [Item(op.key, op.data, op.now + op.ttl)] + Drop(s, Key(op.key));
    assert pushed[0].key == op.key;
  }

  lemma GetKeepsOthers(s: seq<Item>, cap: nat, op: Op, key: string)
    requires op.Get?
    ensures Lookup(Apply(s, cap, op).0, key).Some? <==>
            Lookup(s, key).Some? && !(op.key == key && op.now > Lookup(s, key).value.expiresAt)
  {
    DropLookup(s, Key(op.key), key);
    LookupKey(s, op.key);
    if Lookup(s, op.key).Some? {
      assert ([Lookup(s, op.key).value] + Drop(s, Key(op.key)))[1..] == Drop(s, Key(op.key));
    }
  }

  /** At any capacity and under any clock the cache holds a key exactly when it was set and since then
      neither invalidated nor evicted nor read too late. */
  lemma {:induction false} HeldIff(cap: nat, ops: seq<Op>, key: string)
    requires cap > 0
    ensures Lookup(Run(cap, ops), key).Some? <==>
            LastWrite(ops, key).Some? && !EvictedSince(cap, ops, key) && !LapsedSince(ops, key)
  {
    if ops != [] {
      var before, op := ops[..|ops| - 1], ops[|ops| - 1];
      var s := Run(cap, before);
      HeldIff(cap, before, key);
      RunKeepsBound(cap, before);
      match op
      case Get(_, _) =>
        GetKeepsOthers(s, cap, op, key);
        if Lookup(s, key).Some? {
          EntryIsLastWrite(cap, before, key);
        }
      case Set(_, _, _, _) =>
        if op.key == key {
          SetIsFound(s, cap, op);
        } else if s == [] {
          SetIntoEmpty(cap, op, key);
        } else {
          SetKeepsOthers(s, cap, op, key);
        }
      case Invalidate(target) => DropLookup(s, target, key);
    }
  }

  /** A read hits exactly when the last write of its key is there to be read, in time, and neither evicted
      nor lapsed since, and returns that write: at any capacity and under any clock. */
  lemma GetIsExact(cap: nat, ops: seq<Op>, i: nat)
    requires cap > 0 && i < |ops| && ops[i].Get?
    ensures var w := LastWrite(ops[..i], ops[i].key);
            var held := !EvictedSince(cap, ops[..i], ops[i].key) && !LapsedSince(ops[..i], ops[i].key);
            Outcome(cap, ops, i) ==
            if w.Some? && held && ops[i].now <= w.value.expiresAt then Some(w.value.data) else None
  {
    HeldIff(cap, ops[..i], ops[i].key);
    if Lookup(Run(cap, ops[..i]), ops[i].key).Some? {
      EntryIsLastWrite(cap, ops[..i], ops[i].key);
    }
  }

  /** When the clock never runs backwards a read came too late only for writes that have expired. */
  lemma {:induction false} LapsedIsExpired(ops: seq<Op>, key: string, now: int)
    requires Timed(ops, now) && LapsedSince(ops, key) && LastWrite(ops, key).Some?
    ensures LastWrite(ops, key).value.expiresAt < now
  {
    var before, op := ops[..|ops| - 1], ops[|ops| - 1];
    if !ReadTooLate(before, op, key) {
      if !op.Invalidate? {
        TimedLater(before, op.now, now);
      }
      LapsedIsExpired(before, key, now);
    }
  }

  /** So under such a clock, at any capacity, a read misses exactly for one of four reasons: its key was
      never set, was invalidated or evicted since, or has expired. */
  lemma MissesForAReason(cap: nat, ops: seq<Op>, i: nat)
    requires cap > 0 && i < |ops| && ops[i].Get? && Timed(ops[..i], ops[i].now)
    ensures var w := LastWrite(ops[..i], ops[i].key);
            Outcome(cap, ops, i).None? <==>
            w.None? || w.value.expiresAt < ops[i].now || EvictedSince(cap, ops[..i], ops[i].key)
  {
    GetIsExact(cap, ops, i);
    if LastWrite(ops[..i], ops[i].key).Some? && LapsedSince(ops[..i], ops[i].key) {
      LapsedIsExpired(ops[..i], ops[i].key, ops[i].now);
    }
  }

  lemma {:induction false} RunSize(cap: nat, ops: seq<Op>)
    ensures |Run(cap, ops)| <= |ops|
  {
    if ops != [] {
      var s := Run(cap, ops[..|ops| - 1]);
      var op := ops[|ops| - 1];
      RunSize(cap, ops[..|ops| - 1]);
      RunKeepsBound(cap, ops[..|ops| - 1]);
      DropDistinct(s, if op.Invalidate? then op.target else Key(op.key));
      if op.Get? {
        DropKeySize(s, op.key);
      }
    }
  }

  /** With room for one entry per operation nothing is ever evicted. */
  lemma {:induction false} NothingEvictedWithRoom(cap: nat, ops: seq<Op>, key: string)
    requires |ops| <= cap
    ensures !EvictedSince(cap, ops, key)
  {
    if ops != [] {
      RunSize(cap, ops[..|ops| - 1]);
      NothingEvictedWithRoom(cap, ops[..|ops| - 1], key);
    }
  }

  // ---------------------------------------------------------------- inclusion across capacities

  /** `s` is what is left of `l` after removing some of its entries. */
  ghost predicate Subsequence(s: seq<Item>, l: seq<Item>) {
    if s == [] then true
    else if l == [] then false
    else if s[0] == l[0] then Subsequence(s[1..], l[1..])
    else Subsequence(s, l[1..])
  }

  /** How the lists of a smaller and a larger cache are related throughout a run. */
  ghost predicate Included(s: seq<Item>, c1: nat, l: seq<Item>, c2: nat) {
    Subsequence(s, l) && |l| - |s| <= c2 - c1
  }

  lemma {:induction false} SubTail(s: seq<Item>, l: seq<Item>)
    requires s != [] && Subsequence(s, l)
    ensures Subsequence(s[1..], l)
    decreases |l|, 0
  {
    if s[0] == l[0] {
      SubCons(s[1..], l[1..], l[0]);
    } else {
      SubTail(s, l[1..]);
      SubCons(s[1..], l[1..], l[0]);
    }
  }

  lemma {:induction false} SubCons(s: seq<Item>, l: seq<Item>, x: Item)
    requires Subsequence(s, l)
    ensures Subsequence(s, [x] + l)
    decreases |l|, 1
  {
    assert ([x] + l)[1..] == l;
    if s != [] && s[0] == x {
      SubTail(s, l);
    }
  }

  lemma {:induction false} SubSize(s: seq<Item>, l: seq<Item>)
    requires Subsequence(s, l)
    ensures |s| <= |l|
  {
    if s != [] {
      if s[0] == l[0] { SubSize(s[1..], l[1..]); } else { SubSize(s, l[1..]); }
    }
  }

  lemma {:induction false} SubDrop(s: seq<Item>, l: seq<Item>, sel: Selector)
    requires Subsequence(s, l)
    ensures Subsequence(Drop(s, sel), Drop(l, sel))
  {
    if s != [] {
      if s[0] == l[0] {
        SubDrop(s[1..], l[1..], sel);
        if !sel.Matches(l[0].key) {
          assert Drop(s, sel)[1..] == Drop(s[1..], sel) && Drop(l, sel)[1..] == Drop(l[1..], sel);
        }
      } else {
        SubDrop(s, l[1..], sel);
        if !sel.Matches(l[0].key) {
          SubCons(Drop(s, sel), Drop(l[1..], sel), l[0]);
        }
      }
    }
  }

  /** Dropping the last entries of the small list, or of both, keeps it a subsequence. */
  lemma {:induction false} SubInit(s: seq<Item>, l: seq<Item>)
    requires s != [] && Subsequence(s, l)
    ensures Subsequence(s[..|s| - 1], l) && l != [] && Subsequence(s[..|s| - 1], l[..|l| - 1])
  {
    SubSize(s, l);
    var si, li := s[..|s| - 1], l[..|l| - 1];
    if s[0] == l[0] {
      if |s| > 1 {
        SubInit(s[1..], l[1..]);
        SubSize(s[1..], l[1..]);
        assert si[1..] == s[1..][..|s| - 2] && li[1..] == l[1..][..|l| - 2];
      }
    } else {
      SubInit(s, l[1..]);
      assert li == [] || li[1..] == l[1..][..|l| - 2];
    }
  }

  lemma {:induction false} SubLookup(s: seq<Item>, l: seq<Item>, key: string)
    requires Subsequence(s, l) && Distinct(l) && Lookup(s, key).Some?
    ensures Lookup(l, key) == Lookup(s, key)
  {
    if s[0] != l[0] {
      SubLookup(s, l[1..], key);
      LookupKey(s, key);
    } else if s[0].key != key {
      SubLookup(s[1..], l[1..], key);
    }
  }

  lemma {:induction false} SubSameHead(x: Item, s: seq<Item>, l: seq<Item>)
    requires Subsequence(s, l)
    ensures Subsequence([x] + s, [x] + l)
  {
    assert ([x] + s)[1..] == s && ([x] + l)[1..] == l;
  }

  lemma {:induction false} InclusionStep(s: seq<Item>, c1: nat, l: seq<Item>, c2: nat, op: Op)
    requires Distinct(s) && |s| <= c1 && Distinct(l) && |l| <= c2
    requires 1 <= c1 <= c2 && Included(s, c1, l, c2)
    ensures Included(Apply(s, c1, op).0, c1, Apply(l, c2, op).0, c2)
    ensures Apply(s, c1, op).1.Some? ==> Apply(l, c2, op).1 == Apply(s, c1, op).1
  {
    match op
    case Get(key, now) =>
      InclusionGet(s, l, key);
    case Set(key, data, now, ttl) =>
      InclusionSet(s, c1, l, c2, Item(key, data, now + ttl));
    case Invalidate(sel) =>
      SubDrop(s, l, sel);
      DropGap(s, l, sel);
  }

  lemma {:induction false} InclusionGet(s: seq<Item>, l: seq<Item>, key: string)
    requires Distinct(s) && Distinct(l) && Subsequence(s, l)
    ensures Lookup(s, key).Some? ==> Lookup(l, key) == Lookup(s, key)
    ensures Subsequence(Drop(s, Key(key)), Drop(l, Key(key)))
    ensures Lookup(s, key).None? ==> Drop(s, Key(key)) == s
    ensures |Drop(s, Key(key))| == |s| - (if Lookup(s, key).Some? then 1 else 0)
    ensures |Drop(l, Key(key))| == |l| - (if Lookup(l, key).Some? then 1 else 0)
    ensures Lookup(l, key).Some? ==>
              var it := Lookup(l, key).value;
              Subsequence(if Lookup(s, key).Some? then [it] + Drop(s, Key(key)) else s, [it] + Drop(l, Key(key)))
  {
    SubDrop(s, l, Key(key));
    DropKeySize(s, key);
    DropKeySize(l, key);
    if Lookup(s, key).Some? {
      SubLookup(s, l, key);
      SubSameHead(Lookup(l, key).value, Drop(s, Key(key)), Drop(l, Key(key)));
    } else if Lookup(l, key).Some? {
      SubCons(s, Drop(l, Key(key)), Lookup(l, key).value);
    }
  }

  /** Removing the selected entries never widens the gap between the two sizes. */
  lemma {:induction false} DropGap(s: seq<Item>, l: seq<Item>, sel: Selector)
    requires Subsequence(s, l)
    ensures |Drop(l, sel)| - |Drop(s, sel)| <= |l| - |s|
  {
    if s == [] {
      DropSize(l, sel);
    } else if s[0] == l[0] {
      DropGap(s[1..], l[1..], sel);
    } else {
      DropGap(s, l[1..], sel);
    }
  }

  lemma {:induction false} DropSize(s: seq<Item>, sel: Selector)
    ensures |Drop(s, sel)| <= |s|
  {
    if s != [] {
      DropSize(s[1..], sel);
    }
  }

  lemma {:induction false} InclusionSet(s: seq<Item>, c1: nat, l: seq<Item>, c2: nat, it: Item)
    requires Distinct(s) && |s| <= c1 && Distinct(l) && |l| <= c2
    requires 1 <= c1 <= c2 && Included(s, c1, l, c2)
    ensures Included(Evict([it] + Drop(s, Key(it.key)), c1), c1, Evict([it] + Drop(l, Key(it.key)), c2), c2)
  {
    var s', l' := [it] + Drop(s, Key(it.key)), [it] + Drop(l, Key(it.key));
    SubDrop(s, l, Key(it.key));
    DropGap(s, l, Key(it.key));
    DropSize(s, Key(it.key));
    DropSize(l, Key(it.key));
    SubSameHead(it, Drop(s, Key(it.key)), Drop(l, Key(it.key)));
    SubInit(s', l');
  }

  /** Growing the cache keeps everything the smaller one holds. */
  lemma {:induction false} Inclusion(c1: nat, c2: nat, ops: seq<Op>)
    requires 1 <= c1 <= c2
    ensures Included(Run(c1, ops), c1, Run(c2, ops), c2)
  {
    if ops != [] {
      var before := ops[..|ops| - 1];
      Inclusion(c1, c2, before);
      RunKeepsBound(c1, before);
      RunKeepsBound(c2, before);
      InclusionStep(Run(c1, before), c1, Run(c2, before), c2, ops[|ops| - 1]);
    }
  }

  /** The capacity a cache works with: at least one entry. */
  function Capacity(requested: int): nat {
    if requested < 1 then 1 else requested
  }

  /** Growing the cache never turns a hit into a miss, nor changes what a hit returns. */
  lemma {:induction false} HitsSurviveGrowth(c1: int, c2: int, ops: seq<Op>, i: nat)
    requires c1 <= c2 && i < |ops|
    requires Outcome(Capacity(c1), ops, i).Some?
    ensures Outcome(Capacity(c2), ops, i) == Outcome(Capacity(c1), ops, i)
  {
    var small, large := Capacity(c1), Capacity(c2);
    Inclusion(small, large, ops[..i]);
    RunKeepsBound(small, ops[..i]);
    RunKeepsBound(large, ops[..i]);
    InclusionStep(Run(small, ops[..i]), small, Run(large, ops[..i]), large, ops[i]);
  }
}
