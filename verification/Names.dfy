/** Strings in the order `sort.Strings` puts them. */
module Names {
  predicate Precedes(a: string, b: string) {
    b != "" && (a == "" || a[0] < b[0] || (a[0] == b[0] && Precedes(a[1..], b[1..])))
  }

  /** The order of the first difference: a shorter string comes before its extensions. */
  lemma {:induction false} PrecedesMeans(a: string, b: string)
    ensures Precedes(a, b) <==> exists i :: FirstDifference(a, b, i)
  {
    if a != "" && b != "" && a[0] == b[0] {
      PrecedesMeans(a[1..], b[1..]);
      if Precedes(a[1..], b[1..]) {
        var i :| FirstDifference(a[1..], b[1..], i);
        assert FirstDifference(a, b, i + 1);
      }
      if i :| FirstDifference(a, b, i) {
        assert FirstDifference(a[1..], b[1..], i - 1);
      }
    } else if b != "" && (a == "" || a[0] < b[0]) {
      assert FirstDifference(a, b, 0);
    }
  }

  ghost predicate FirstDifference(a: string, b: string, i: int) {
    && 0 <= i <= |a| && i < |b| && (forall k | 0 <= k < i :: a[k] == b[k])
    && (i == |a| || a[i] < b[i])
  }

  ghost predicate Sorted(s: seq<string>) {
    forall i, j | 0 <= i < j < |s| :: !Precedes(s[j], s[i])
  }

  ghost predicate StrictlySorted(s: seq<string>) {
    forall i, j | 0 <= i < j < |s| :: Precedes(s[i], s[j])
  }

  lemma {:induction false} PrecedesTransitive(a: string, b: string, c: string)
    requires Precedes(a, b) && Precedes(b, c)
    ensures Precedes(a, c)
  {
    if a != "" && a[0] == b[0] == c[0] {
      PrecedesTransitive(a[1..], b[1..], c[1..]);
    }
  }

  lemma {:induction false} PrecedesTotal(a: string, b: string)
    ensures a == b || Precedes(a, b) || Precedes(b, a)
    ensures !(Precedes(a, b) && Precedes(b, a)) && !Precedes(a, a)
  {
    if a != "" && b != "" {
      PrecedesTotal(a[1..], b[1..]);
      if a[1..] == b[1..] && a[0] == b[0] {
        assert a == [a[0]] + a[1..] == b;
      }
    }
    if a != "" {
      PrecedesTotal(a[1..], a[1..]);
    }
  }

  /** The elements of a set in some order. */
  method ListOf<T(==)>(s: set<T>) returns (list: seq<T>)
    ensures forall x :: x in list <==> x in s
    ensures forall i, j | 0 <= i < j < |list| :: list[i] != list[j]
  {
    list := [];
    var rest := s;
    while rest != {}
      invariant rest <= s && forall x :: x in s <==> x in rest || x in list
      invariant forall x | x in list :: x !in rest
      invariant forall i, j | 0 <= i < j < |list| :: list[i] != list[j]
      decreases |rest|
    {
      var x :| x in rest;
      rest := rest - {x};
      list := list + [x];
    }
  }

  /** Insertion sort. */
  method SortNames(names: seq<string>) returns (sorted: seq<string>)
    ensures Sorted(sorted) && multiset(sorted) == multiset(names)
  {
    sorted := [];
    for n := 0 to |names|
      invariant Sorted(sorted) && multiset(sorted) == multiset(names[..n])
    {
      var i := |sorted|;
      while i > 0 && Precedes(names[n], sorted[i - 1])
        invariant 0 <= i <= |sorted|
        invariant forall k | i <= k < |sorted| :: Precedes(names[n], sorted[k])
      {
        i := i - 1;
      }
      assert names[..n + 1] == names[..n] + [names[n]];
      InsertSorted(sorted, i, names[n]);
      sorted := sorted[..i] + [names[n]] + sorted[i..];
    }
    assert names[..|names|] == names;
  }

  lemma NothingEarlier(a: string, b: string, x: string)
    requires !Precedes(b, a) && !Precedes(x, b)
    ensures !Precedes(x, a)
  {
    if a != b && Precedes(x, a) {
      PrecedesTotal(a, b);
      PrecedesTransitive(x, a, b);
    }
  }

  lemma InsertSorted(s: seq<string>, i: nat, x: string)
    requires i <= |s| && Sorted(s)
    requires i > 0 ==> !Precedes(x, s[i - 1])
    requires forall k | i <= k < |s| :: Precedes(x, s[k])
    ensures Sorted(s[..i] + [x] + s[i..])
    ensures multiset(s[..i] + [x] + s[i..]) == multiset(s) + multiset{x}
  {
    assert s == s[..i] + s[i..];
    forall k | 0 <= k < i ensures !Precedes(x, s[k]) {
      if k < i - 1 {
        NothingEarlier(s[k], s[i - 1], x);
      }
    }
    forall k | i <= k < |s| ensures !Precedes(s[k], x) {
      PrecedesTotal(s[k], x);
    }
    StaysSorted(s, i, x);
  }

  lemma StaysSorted(s: seq<string>, i: nat, x: string)
    requires i <= |s| && Sorted(s)
    requires forall k | 0 <= k < i :: !Precedes(x, s[k])
    requires forall k | i <= k < |s| :: !Precedes(s[k], x)
    ensures Sorted(s[..i] + [x] + s[i..])
  {
  }

  ghost predicate NoRepeats(s: seq<string>) {
    forall i, j | 0 <= i < j < |s| :: s[i] != s[j]
  }

  lemma {:induction false} CountedOnce(s: seq<string>, x: string)
    requires NoRepeats(s)
    ensures multiset(s)[x] <= 1 && (multiset(s)[x] == 1 <==> x in s)
  {
    if s != [] {
      var init, last := s[..|s| - 1], s[|s| - 1];
      assert s == init + [last];
      CountedOnce(init, x);
      if x == last {
        assert x !in init;
      }
    }
  }

  lemma CountedTwice(s: seq<string>, i: nat, j: nat)
    requires i < j < |s| && s[i] == s[j]
    ensures multiset(s)[s[i]] >= 2
  {
    assert s == s[..j] + [s[j]] + s[j + 1..];
    assert s[i] in s[..j];
  }

  /** Sorting what has no repeats sorts it strictly. */
  lemma SortedStrictly(sorted: seq<string>, names: seq<string>)
    requires Sorted(sorted) && multiset(sorted) == multiset(names) && NoRepeats(names)
    ensures StrictlySorted(sorted) && forall p :: p in sorted <==> p in names
  {
    forall i, j | 0 <= i < j < |sorted| ensures Precedes(sorted[i], sorted[j]) {
      if sorted[i] == sorted[j] {
        CountedTwice(sorted, i, j);
        CountedOnce(names, sorted[i]);
      }
      PrecedesTotal(sorted[i], sorted[j]);
    }
    forall p ensures p in sorted <==> p in names {
      assert p in multiset(sorted) <==> p in multiset(names);
    }
  }

  /** A set as the list sorting gives, in whatever order its elements were collected. */
  method SortSet(names: set<string>) returns (sorted: seq<string>)
    ensures StrictlySorted(sorted) && forall p :: p in sorted <==> p in names
  {
    var listed := ListOf(names);
    sorted := SortNames(listed);
    SortedStrictly(sorted, listed);
  }
}
