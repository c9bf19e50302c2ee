/** The resource hierarchy and its ancestor query: a recursive fixpoint over parent rows, on any finite
    relation, even one with several parents or a cycle. */
module Ancestry {

  datatype ResourceKey = ResourceKey(typ: string, id: int)

  /** One row of the hierarchy table. */
  datatype Edge = Edge(child: ResourceKey, parent: ResourceKey)

  type Hierarchy = set<Edge>

  function Parents(h: Hierarchy, of: set<ResourceKey>): set<ResourceKey> {
    set e | e in h && e.child in of :: e.parent
  }

  /** `path` climbs from `low` to `high`, one parent row at a time. */
  ghost predicate Climbs(h: Hierarchy, low: ResourceKey, path: seq<ResourceKey>, high: ResourceKey)
    decreases |path|
  {
    if path == [] then low == high
    else Edge(low, path[0]) in h && Climbs(h, path[0], path[1..], high)
  }

  ghost predicate IsAncestor(h: Hierarchy, low: ResourceKey, high: ResourceKey) {
    exists path :: path != [] && Climbs(h, low, path, high)
  }

  /** Everything above `of`: the transitive closure of the parent relation. */
  ghost function Ancestors(h: Hierarchy, of: ResourceKey): set<ResourceKey> {
    set e | e in h && IsAncestor(h, of, e.parent) :: e.parent
  }

  lemma {:induction false} AncestorHasRow(h: Hierarchy, low: ResourceKey, path: seq<ResourceKey>, high: ResourceKey)
    requires path != [] && Climbs(h, low, path, high)
    ensures exists e :: e in h && e.parent == high
    decreases |path|
  {
    if |path| == 1 {
      assert Edge(low, path[0]) in h;
    } else {
      AncestorHasRow(h, path[0], path[1..], high);
    }
  }

  lemma InAncestors(h: Hierarchy, low: ResourceKey, high: ResourceKey)
    ensures high in Ancestors(h, low) <==> IsAncestor(h, low, high)
  {
    if IsAncestor(h, low, high) {
      var path :| path != [] && Climbs(h, low, path, high);
      AncestorHasRow(h, low, path, high);
    }
  }

  lemma {:induction false} ClimbOn(h: Hierarchy, low: ResourceKey, path: seq<ResourceKey>, mid: ResourceKey,
                                   on: seq<ResourceKey>, high: ResourceKey)
    requires Climbs(h, low, path, mid) && Climbs(h, mid, on, high)
    ensures Climbs(h, low, path + on, high)
    decreases |path|
  {
    if path == [] {
      assert path + on == on;
    } else {
      ClimbOn(h, path[0], path[1..], mid, on, high);
      assert (path + on)[1..] == path[1..] + on;
    }
  }

  lemma IsAncestorTransitive(h: Hierarchy, low: ResourceKey, mid: ResourceKey, high: ResourceKey)
    requires IsAncestor(h, low, mid) && IsAncestor(h, mid, high)
    ensures IsAncestor(h, low, high)
  {
    var p :| p != [] && Climbs(h, low, p, mid);
    var q :| q != [] && Climbs(h, mid, q, high);
    ClimbOn(h, low, p, mid, q, high);
    assert p + q != [];
  }

  lemma ParentIsAncestor(h: Hierarchy, low: ResourceKey, mid: ResourceKey, k: ResourceKey)
    requires Edge(mid, k) in h && (low == mid || IsAncestor(h, low, mid))
    ensures IsAncestor(h, low, k)
  {
    assert Climbs(h, k, [], k);
    assert Climbs(h, mid, [k], k);
    if low != mid {
      IsAncestorTransitive(h, low, mid, k);
    }
  }

  /** A set that holds the parents of `low` and of its own members holds every ancestor of `low`. */
  lemma {:induction false} ClosedHoldsAncestors(h: Hierarchy, closed: set<ResourceKey>, low: ResourceKey,
                                                path: seq<ResourceKey>, high: ResourceKey)
    requires Parents(h, {low}) <= closed && Parents(h, closed) <= closed
    requires path != [] && Climbs(h, low, path, high)
    ensures high in closed
    decreases |path|
  {
    assert Edge(low, path[0]) in h && path[0] in Parents(h, {low});
    if |path| > 1 {
      assert Parents(h, {path[0]}) <= Parents(h, closed);
      ClosedHoldsAncestors(h, closed, path[0], path[1..], high);
    }
  }

  lemma ClosedAndReached(h: Hierarchy, of: ResourceKey, found: set<ResourceKey>)
    requires Parents(h, {of}) <= found && Parents(h, found) <= found
    requires forall k | k in found :: IsAncestor(h, of, k)
    ensures found == Ancestors(h, of)
  {
    forall k ensures k in found <==> k in Ancestors(h, of) {
      InAncestors(h, of, k);
      if IsAncestor(h, of, k) {
        var path :| path != [] && Climbs(h, of, path, k);
        ClosedHoldsAncestors(h, found, of, path, k);
      }
    }
  }

  /** The recursive query: each round joins the rows found in the round before with the hierarchy and
      keeps the new ones, until a round finds nothing. */
  method QueryAncestors(h: Hierarchy, of: ResourceKey) returns (found: set<ResourceKey>)
    ensures found == Ancestors(h, of)
  {
    found := Parents(h, {of});
    var latest := found;
    ghost var all := set e | e in h :: e.parent;
    forall k | k in found ensures IsAncestor(h, of, k) {
      ParentIsAncestor(h, of, of, k);
    }
    while latest != {}
      invariant latest <= found <= all
      invariant Parents(h, {of}) <= found
      invariant forall k | k in found :: IsAncestor(h, of, k)
      invariant Parents(h, found - latest) <= found
      decreases |all - found|, |latest|
    {
      var next := Parents(h, latest) - found;
      forall k | k in next ensures IsAncestor(h, of, k) {
        var e :| e in h && e.child in latest && e.parent == k;
        ParentIsAncestor(h, of, e.child, k);
      }
      forall k | k in Parents(h, found) ensures k in found + next {}
      if next != {} {
        StrictlyFewer(all - found, all - (found + next), next);
      }
      found := found + next;
      latest := next;
    }
    ClosedAndReached(h, of, found);
  }

  lemma StrictlyFewer(a: set<ResourceKey>, b: set<ResourceKey>, gone: set<ResourceKey>)
    requires gone != {} && gone <= a && b == a - gone
    ensures |b| < |a|
  {
    assert a == b + gone;
  }

  // ---------------------------------------------------------------- the levels a permission may come from

  predicate HasOrg(keys: set<ResourceKey>) {
    exists k | k in keys :: k.typ == "org"
  }

  /** The ancestors of a resource, with the organization added when the hierarchy names none. */
  ghost function AncestryOf(h: Hierarchy, of: ResourceKey, org: int): set<ResourceKey> {
    var above := Ancestors(h, of);
    if !HasOrg(above) && org != 0 then above + {ResourceKey("org", org)} else above
  }

  ghost function Levels(h: Hierarchy, of: ResourceKey, org: int): set<ResourceKey> {
    if of.typ == "org" then {of} else {of} + AncestryOf(h, of, org)
  }

  /** Where a permission on a resource may come from: the resource, everything above it and, when no
      organization is above it, the one asked about; for an organization only itself. */
  lemma LevelsMean(h: Hierarchy, of: ResourceKey, org: int, k: ResourceKey)
    ensures k in Levels(h, of, org) <==>
            || k == of
            || (of.typ != "org"
                && (IsAncestor(h, of, k)
                    || (k == ResourceKey("org", org) && org != 0
                        && !exists id: int :: IsAncestor(h, of, ResourceKey("org", id)))))
  {
    InAncestors(h, of, k);
    if HasOrg(Ancestors(h, of)) {
      var o :| o in Ancestors(h, of) && o.typ == "org";
      InAncestors(h, of, o);
      assert o == ResourceKey("org", o.id);
    } else {
      forall id: int ensures !IsAncestor(h, of, ResourceKey("org", id)) {
        InAncestors(h, of, ResourceKey("org", id));
      }
    }
  }

  /** The ancestry cache is keyed by the resource alone. Its entry, made under one organization, is right
      under another exactly when the hierarchy itself names an organization above the resource. */
  lemma AncestryDependsOnOrg(h: Hierarchy, of: ResourceKey, org: int, other: int)
    ensures AncestryOf(h, of, org) == AncestryOf(h, of, other) <==> org == other || HasOrg(Ancestors(h, of))
  {
    var above := Ancestors(h, of);
    if org != other && !HasOrg(above) {
      var named := if org != 0 then org else other;
      assert ResourceKey("org", named) !in above;
      assert (ResourceKey("org", named) in AncestryOf(h, of, org)) !=
             (ResourceKey("org", named) in AncestryOf(h, of, other));
    }
  }

  /** One workspace the hierarchy says nothing about, asked about under two organizations. */
  lemma AncestryDiffersBetweenOrgs()
    ensures var of := ResourceKey("workspace", 5);
            && AncestryOf({}, of, 1) == {ResourceKey("org", 1)} && AncestryOf({}, of, 2) == {ResourceKey("org", 2)}
  {
    var of := ResourceKey("workspace", 5);
    forall k ensures !IsAncestor({}, of, k) {
      forall path | path != [] ensures !Climbs({}, of, path, k) {
        var none: Hierarchy := {};
        assert Edge(of, path[0]) !in none;
      }
    }
    forall k | k in Ancestors({}, of) ensures false {
      InAncestors({}, of, k);
    }
    assert Ancestors({}, of) == {};
  }

  /** A resource below another sees every level the other sees, unless the hierarchy names an
      organization above the lower one only, and not the organization asked about. */
  lemma LevelsInherited(h: Hierarchy, low: ResourceKey, high: ResourceKey, org: int)
    requires low.typ != "org" && IsAncestor(h, low, high)
    ensures Levels(h, high, org) <= Levels(h, low, org) <==>
            high.typ == "org" || org == 0 || HasOrg(Ancestors(h, high)) || !HasOrg(Ancestors(h, low))
            || ResourceKey("org", org) in Ancestors(h, low)
  {
    InAncestors(h, low, high);
    forall k | k in Ancestors(h, high) ensures k in Ancestors(h, low) {
      InAncestors(h, high, k);
      InAncestors(h, low, k);
      IsAncestorTransitive(h, low, high, k);
    }
    if !(high.typ == "org" || org == 0 || HasOrg(Ancestors(h, high)) || !HasOrg(Ancestors(h, low))
         || ResourceKey("org", org) in Ancestors(h, low)) {
      assert ResourceKey("org", org) in Levels(h, high, org);
      assert ResourceKey("org", org) !in Levels(h, low, org);
    }
  }

  ghost predicate SingleParent(h: Hierarchy) {
    forall a, b | a in h && b in h && a.child == b.child :: a.parent == b.parent
  }

  ghost predicate OrgsAreRoots(h: Hierarchy) {
    forall e | e in h :: e.child.typ != "org"
  }

  lemma {:induction false} OneWayUp(h: Hierarchy, low: ResourceKey, p: seq<ResourceKey>, a: ResourceKey,
                                    q: seq<ResourceKey>, b: ResourceKey)
    requires SingleParent(h) && p != [] && q != [] && Climbs(h, low, p, a) && Climbs(h, low, q, b)
    ensures a == b || IsAncestor(h, a, b) || IsAncestor(h, b, a)
    decreases |p|
  {
    assert Edge(low, p[0]) in h && Edge(low, q[0]) in h;
    if |p| > 1 && |q| > 1 {
      OneWayUp(h, p[0], p[1..], a, q[1..], b);
    }
  }

  lemma NothingAboveOrg(h: Hierarchy, org: ResourceKey, k: ResourceKey)
    requires OrgsAreRoots(h) && org.typ == "org"
    ensures !IsAncestor(h, org, k)
  {
    forall path | path != [] ensures !Climbs(h, org, path, k) {
      assert Edge(org, path[0]) !in h;
    }
  }

  /** In a hierarchy where each resource has one parent and organizations have none, a resource sees
      every level its ancestors see. */
  lemma TreeLevelsInherited(h: Hierarchy, low: ResourceKey, high: ResourceKey, org: int)
    requires SingleParent(h) && OrgsAreRoots(h) && IsAncestor(h, low, high)
    ensures Levels(h, high, org) <= Levels(h, low, org)
  {
    if low.typ == "org" {
      NothingAboveOrg(h, low, high);
    } else {
      LevelsInherited(h, low, high, org);
      if k :| k in Ancestors(h, low) && k.typ == "org" {
        InAncestors(h, low, k);
        var p :| p != [] && Climbs(h, low, p, high);
        var q :| q != [] && Climbs(h, low, q, k);
        OneWayUp(h, low, p, high, q, k);
        NothingAboveOrg(h, k, high);
        InAncestors(h, high, k);
      }
    }
  }
}
