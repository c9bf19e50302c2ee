/** The in-process cache: a map from keys to list elements beside a recency list of those elements.
    Each method is proved to be one step of the recency list in `Lru`. */
module MemCaches {
  import opened Wrappers
  import opened Lru

  class Entry {
    const key: string
    var data: Bytes
    var expiresAt: int

    constructor (key: string, data: Bytes, expiresAt: int)
      ensures this.key == key && this.data == data && this.expiresAt == expiresAt
    {
      this.key, this.data, this.expiresAt := key, data, expiresAt;
    }
  }

  function Find(order: seq<Entry>, key: string): (found: Option<Entry>)
    ensures found.Some? ==> found.value in order && found.value.key == key
  {
    if order == [] then None else if order[0].key == key then Some(order[0]) else Find(order[1..], key)
  }

  /** `order` without the element of that key. */
  function Without(order: seq<Entry>, key: string): (rest: seq<Entry>)
    ensures forall e | e in rest :: e in order
  {
    if order == [] then [] else if order[0].key == key then order[1..] else [order[0]] + Without(order[1..], key)
  }

  ghost predicate DistinctKeys(order: seq<Entry>) {
    order == [] || (Find(order[1..], order[0].key).None? && DistinctKeys(order[1..]))
  }

  ghost function ItemOf(e: Entry): Item
    reads e
  {
    Item(e.key, e.data, e.expiresAt)
  }

  /** The values held by a list of elements. */
  ghost function Items(order: seq<Entry>): (s: seq<Item>)
    reads order
    ensures |s| == |order|
  {
    if order == [] then [] else [ItemOf(order[0])] + Items(order[1..])
  }

  lemma {:induction false} WithoutDrops(order: seq<Entry>, key: string)
    requires DistinctKeys(order) && Find(order, key).Some?
    ensures Items(Without(order, key)) == Drop(Items(order), Key(key))
    ensures DistinctKeys(Without(order, key)) && |Without(order, key)| == |order| - 1
  {
    if order[0].key == key {
      FindItem(order[1..], key);
      DropAbsentKey(Items(order[1..]), key);
    } else {
      WithoutDrops(order[1..], key);
      WithoutFind(order[1..], key, order[0].key);
    }
  }

  lemma {:induction false} WithoutFind(order: seq<Entry>, key: string, k: string)
    requires DistinctKeys(order)
    ensures Find(Without(order, key), k) == if k == key then None else Find(order, k)
  {
    if order != [] && order[0].key != key {
      WithoutFind(order[1..], key, k);
    }
  }

  lemma {:induction false} FindItem(order: seq<Entry>, key: string)
    ensures Lookup(Items(order), key) ==
            if Find(order, key).Some? then Some(ItemOf(Find(order, key).value)) else None
  {
    if order != [] {
      FindItem(order[1..], key);
    }
  }

  lemma {:induction false} DistinctItems(order: seq<Entry>)
    requires DistinctKeys(order)
    ensures Distinct(Items(order))
  {
    if order != [] {
      DistinctItems(order[1..]);
      FindItem(order[1..], order[0].key);
    }
  }

  class MemCache {
    const cap: nat
    var items: map<string, Entry>
    var order: seq<Entry>

    /** The map and the list hold the same elements, under distinct keys and within capacity. */
    ghost predicate Valid()
      reads this
    {
      1 <= cap && |order| <= cap && Indexed()
    }

    ghost predicate Indexed()
      reads this
    {
      && DistinctKeys(order)
      && (forall k :: k in items <==> Find(order, k).Some?)
      && (forall k | k in items :: Find(order, k) == Some(items[k]))
    }

    /** The recency list this cache stands for. */
    ghost function Contents(): seq<Item>
      reads this, order
    {
      Items(order)
    }

    constructor (capacity: int)
      ensures Valid() && Contents() == [] && items == map[] && cap == if capacity < 1 then 1 else capacity
    {
      cap := if capacity < 1 then 1 else capacity;
      items := map[];
      order := [];
    }

    method Get(key: string, now: int) returns (result: Option<Bytes>)
      requires Valid()
      modifies this
      ensures Valid() && forall e | e in order :: e in old(order)
      ensures (Contents(), result) == Apply(old(Contents()), cap, Lru.Get(key, now))
      ensures result ==
              if key in old(items) && now <= old(items)[key].expiresAt then Some(old(items)[key].data) else None
    {
      FindItem(order, key);
      if key !in items {
        return None;
      }
      var el := items[key];
      if now > el.expiresAt {
        RemoveElement(el);
        return None;
      }
      MoveToFront(el);
      return Some(el.data);
    }

    method Set(key: string, data: Bytes, ttl: int, now: int)
      requires Valid()
      modifies this, order
      ensures Valid() && forall e | e in order :: e in old(order) || fresh(e)
      ensures Contents() == Apply(old(Contents()), cap, Lru.Set(key, data, now, ttl)).0
    {
      if key in items {
        Refresh(items[key], data, now + ttl);
        return;
      }
      FindItem(order, key);
      DropAbsentKey(Contents(), key);
      var el := new Entry(key, data, now + ttl);
      PushFront(el);
      EvictOverflow();
    }

    /** Overwrites an element in place and makes it the most recently used. */
    method Refresh(el: Entry, data: Bytes, expiresAt: int)
      requires Indexed() && Find(order, el.key) == Some(el)
      modifies this, el
      ensures Indexed() && |order| == |old(order)|
      ensures forall e | e in order :: e in old(order)
      ensures Contents() == [Item(el.key, data, expiresAt)] + Drop(old(Contents()), Key(el.key))
    {
      ghost var rest := Without(order, el.key);
      WithoutDrops(order, el.key);
      WithoutFind(order, el.key, el.key);
      NotIn(rest, el);
      el.data := data;
      el.expiresAt := expiresAt;
      assert Items(rest) == old(Items(rest));
      WithoutDrops(order, el.key);
      MoveToFront(el);
    }

    /** Removes elements from the back until the list fits the capacity. */
    method EvictOverflow()
      requires Indexed()
      modifies this
      ensures Indexed() && |order| <= cap
      ensures forall e | e in order :: e in old(order)
      ensures Contents() == Evict(old(Contents()), cap)
    {
      ghost var full := Contents();
      while |order| > cap
        invariant Indexed() && |order| <= |full|
        invariant |order| == |full| || |order| >= cap
        invariant forall e | e in order :: e in old(order)
        invariant Contents() == full[..|order|]
        decreases |order|
      {
        var back := order[|order| - 1];
        FindBack(order);
        DroppingBack(order);
        assert full[..|order|][..|order| - 1] == full[..|order| - 1];
        RemoveElement(back);
      }
    }

    method Invalidate(key: string)
      requires Valid()
      modifies this
      ensures Valid() && forall e | e in order :: e in old(order)
      ensures Contents() == Apply(old(Contents()), cap, Lru.Invalidate(Key(key))).0
      ensures items == old(items) - {key}
    {
      if key in items {
        RemoveElement(items[key]);
      } else {
        FindItem(order, key);
        DropAbsentKey(Contents(), key);
      }
    }

    /** Visits the keys in whatever order the map yields them. */
    method InvalidatePrefix(prefix: string)
      requires Valid()
      modifies this
      ensures Valid() && forall e | e in order :: e in old(order)
      ensures Contents() == Apply(old(Contents()), cap, Lru.Invalidate(Prefix(prefix))).0
    {
      var unseen := items.Keys;
      ghost var before := Contents();
      while unseen != {}
        invariant Valid() && unseen <= items.Keys
        invariant forall e | e in order :: e in old(order)
        invariant forall k | k in items && prefix <= k :: k in unseen
        invariant Drop(Contents(), Prefix(prefix)) == Drop(before, Prefix(prefix))
        decreases |unseen|
      {
        var key :| key in unseen;
        unseen := unseen - {key};
        if prefix <= key {
          DropTwice(Contents(), key, prefix);
          RemoveElement(items[key]);
        }
      }
      forall k | prefix <= k ensures Lookup(Contents(), k).None? {
        FindItem(order, k);
      }
      DropNothing(Contents(), prefix);
    }

    method RemoveElement(el: Entry)
      requires Indexed() && Find(order, el.key) == Some(el)
      modifies this
      ensures Indexed() && |order| == |old(order)| - 1
      ensures forall e | e in order :: e in old(order)
      ensures items == old(items) - {el.key}
      ensures Contents() == Drop(old(Contents()), Key(el.key))
    {
      WithoutDrops(order, el.key);
      forall k ensures Find(Without(order, el.key), k) == if k == el.key then None else Find(order, k) {
        WithoutFind(order, el.key, k);
      }
      order := Without(order, el.key);
      items := items - {el.key};
    }

    method MoveToFront(el: Entry)
      requires Indexed() && Find(order, el.key) == Some(el)
      modifies this
      ensures Indexed() && |order| == |old(order)| && items == old(items)
      ensures forall e | e in order :: e in old(order)
      ensures Contents() == [ItemOf(el)] + Drop(old(Contents()), Key(el.key))
    {
      WithoutDrops(order, el.key);
      ghost var rest := Without(order, el.key);
      assert ([el] + rest)[1..] == rest;
      WithoutFind(order, el.key, el.key);
      forall k ensures Find([el] + rest, k) == Find(order, k) {
        WithoutFind(order, el.key, k);
      }
      order := [el] + Without(order, el.key);
      assert order[1..] == rest;
    }

    method PushFront(el: Entry)
      requires Indexed() && el.key !in items
      modifies this
      ensures Indexed() && order == [el] + old(order) && items == old(items)[el.key := el]
      ensures Contents() == [ItemOf(el)] + old(Contents())
    {
      order := [el] + order;
      items := items[el.key := el];
      assert order[1..] == old(order);
    }
  }

  lemma {:induction false} NotIn(order: seq<Entry>, el: Entry)
    requires Find(order, el.key).None?
    ensures el !in order
  {
    if order != [] {
      NotIn(order[1..], el);
    }
  }

  lemma {:induction false} FindBack(order: seq<Entry>)
    requires order != [] && DistinctKeys(order)
    ensures Find(order, order[|order| - 1].key) == Some(order[|order| - 1])
  {
    if |order| > 1 {
      FindBack(order[1..]);
    }
  }

  lemma {:induction false} ItemsAt(order: seq<Entry>, i: nat)
    requires i < |order|
    ensures Items(order)[i] == ItemOf(order[i])
  {
    if i > 0 {
      ItemsAt(order[1..], i - 1);
    }
  }

  lemma DroppingBack(order: seq<Entry>)
    requires order != [] && DistinctKeys(order)
    ensures Drop(Items(order), Key(order[|order| - 1].key)) == Items(order)[..|order| - 1]
  {
    DistinctItems(order);
    ItemsAt(order, |order| - 1);
    DropLast(Items(order));
  }

  lemma {:induction false} DropLast(s: seq<Item>)
    requires s != [] && Distinct(s)
    ensures Drop(s, Key(s[|s| - 1].key)) == s[..|s| - 1]
  {
    if |s| > 1 {
      DropLast(s[1..]);
      LastPresent(s[1..]);
      assert s[..|s| - 1] == [s[0]] + s[1..][..|s| - 2];
    }
  }

  lemma {:induction false} LastPresent(s: seq<Item>)
    requires s != []
    ensures Lookup(s, s[|s| - 1].key).Some?
  {
    if |s| > 1 {
      LastPresent(s[1..]);
    }
  }

  lemma {:induction false} DropAbsentKey(s: seq<Item>, key: string)
    requires Lookup(s, key).None?
    ensures Drop(s, Key(key)) == s
  {
    if s != [] {
      DropAbsentKey(s[1..], key);
    }
  }

  lemma {:induction false} DropTwice(s: seq<Item>, key: string, prefix: string)
    requires prefix <= key
    ensures Drop(Drop(s, Key(key)), Prefix(prefix)) == Drop(s, Prefix(prefix))
  {
    if s != [] {
      DropTwice(s[1..], key, prefix);
      assert ([s[0]] + Drop(s[1..], Key(key)))[1..] == Drop(s[1..], Key(key));
    }
  }

  lemma {:induction false} DropNothing(s: seq<Item>, prefix: string)
    requires forall k | prefix <= k :: Lookup(s, k).None?
    ensures Drop(s, Prefix(prefix)) == s
  {
    if s != [] {
      assert Lookup(s, s[0].key).Some?;
      forall k | prefix <= k ensures Lookup(s[1..], k).None? {
        assert Lookup(s, k).None?;
      }
      DropNothing(s[1..], prefix);
    }
  }
}
