/** The one piece of the database the steps need: `SELECT … ORDER BY … LIMIT n`. */
module Query {

  /** `before` can be used to sort `rows`. Ties (neither row before the other) are allowed. */
  ghost predicate Orders<T(!new)>(before: (T, T) -> bool, rows: set<T>) {
    && (forall x | x in rows :: !before(x, x))
    && (forall x, y, z | x in rows && y in rows && z in rows && before(x, y) && before(y, z) :: before(x, z))
  }

  /** `page` is an answer the database may give: as many distinct rows as allowed, sorted, and none
      left out that should have come earlier. */
  ghost predicate IsPage<T(!new)>(rows: set<T>, before: (T, T) -> bool, limit: nat, page: seq<T>) {
    && (forall x | x in page :: x in rows)
    && (forall i, j | 0 <= i < j < |page| :: page[i] != page[j] && !before(page[j], page[i]))
    && |page| == (if |rows| < limit then |rows| else limit)
    && (forall x, y | x in rows && x !in page && y in page :: !before(x, y))
  }

  method PickFirst<T(==, !new)>(rows: set<T>, before: (T, T) -> bool) returns (first: T)
    requires rows != {} && Orders(before, rows)
    ensures first in rows
    ensures forall x | x in rows :: !before(x, first)
  {
    first :| first in rows;
    var rest := rows - {first};
    while rest != {}
      invariant rest <= rows && first in rows && first !in rest
      invariant forall x | x in rows - rest :: !before(x, first)
      decreases |rest|
    {
      var x :| x in rest;
      rest := rest - {x};
      if before(x, first) {
        first := x;
      }
    }
  }

  method OrderBy<T(==, !new)>(rows: set<T>, before: (T, T) -> bool, limit: nat) returns (page: seq<T>)
    requires Orders(before, rows)
    ensures IsPage(rows, before, limit, page)
  {
    page := [];
    var rest := rows;
    while |page| < limit && rest != {}
      invariant rest <= rows && |page| + |rest| == |rows| && |page| <= limit
      invariant forall x :: x in rows <==> x in rest || x in page
      invariant forall x | x in page :: x !in rest
      invariant forall i, j | 0 <= i < j < |page| :: page[i] != page[j] && !before(page[j], page[i])
      invariant forall x, y | x in rest && y in page :: !before(x, y)
      decreases |rest|
    {
      var first := PickFirst(rest, before);
      rest := rest - {first};
      page := page + [first];
    }
  }

  /** A page with room for more rows than it holds is the whole table. */
  lemma {:induction false} ShortPageIsComplete<T(!new)>(rows: set<T>, before: (T, T) -> bool, limit: nat, page: seq<T>)
    requires IsPage(rows, before, limit, page) && |page| < limit
    ensures forall x | x in rows :: x in page
  {
    var onPage := set x | x in page;
    DistinctCount(page);
    SubsetOfEqualSize(onPage, rows);
  }

  lemma {:induction false} DistinctCount<T>(s: seq<T>)
    requires forall i, j | 0 <= i < j < |s| :: s[i] != s[j]
    ensures |set x | x in s| == |s|
  {
    if s == [] {
      assert (set x | x in s) == {};
    } else {
      var init := s[..|s| - 1];
      DistinctCount(init);
      assert (set x | x in s) == (set x | x in init) + {s[|s| - 1]};
    }
  }

  lemma CountsSame<T>(rows: set<T>, s: seq<T>)
    requires forall i, j | 0 <= i < j < |s| :: s[i] != s[j]
    requires forall x :: x in rows <==> x in s
    ensures |rows| == |s|
  {
    DistinctCount(s);
    assert rows == set x | x in s;
  }

  lemma {:induction false} SubsetOfEqualSize<T>(a: set<T>, b: set<T>)
    requires a <= b && |a| == |b|
    ensures a == b
  {
    if x :| x in b && x !in a {
      SubsetSize(a, b - {x});
    }
  }

  lemma {:induction false} SubsetSize<T>(a: set<T>, b: set<T>)
    requires a <= b
    ensures |a| <= |b|
  {
    if x :| x in a {
      SubsetSize(a - {x}, b - {x});
    }
  }
}
