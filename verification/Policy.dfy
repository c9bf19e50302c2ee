/** An organization's policy and its two evaluators: the check of one permission and the listing of all. */
module Policy {
  import opened Ancestry
  import opened Permissions

  const ACCOUNT := "account"
  const TEAM := "team"
  const ORG_MEMBERS := "org_members"
  const WORKSPACE_MEMBERS := "workspace_members"

  /** Everything an account counts as within one organization. */
  datatype Principals = Principals(orgID: int, teamIDs: seq<int>, workspaceMemberIDs: seq<int>, orgMember: bool)

  datatype Binding = Binding(roleID: int, subjectType: string, subjectID: int)

  /** The bindings of one resource are a set: the query that loads them promises no order, and the
      table's unique key rules duplicates out. */
  datatype OrgPolicy = OrgPolicy(
    rolePermissions: map<int, set<string>>, roleScopeTypes: map<int, string>,
    roleBindings: map<ResourceKey, set<Binding>>)
  {
    function PermissionsOf(role: int): set<string> {
      if role in rolePermissions then rolePermissions[role] else {}
    }

    function ScopeOf(role: int): string {
      if role in roleScopeTypes then roleScopeTypes[role] else ""
    }

    function BindingsAt(key: ResourceKey): set<Binding> {
      if key in roleBindings then roleBindings[key] else {}
    }
  }

  predicate MatchesPrincipal(b: Binding, account: int, principals: Principals) {
    if b.subjectType == ACCOUNT then b.subjectID == account
    else if b.subjectType == TEAM then b.subjectID in principals.teamIDs
    else if b.subjectType == ORG_MEMBERS then principals.orgMember && b.subjectID == principals.orgID
    else b.subjectType == WORKSPACE_MEMBERS && b.subjectID in principals.workspaceMemberIDs
  }

  /** Some binding of the account at the level gives it a role with the permission. */
  predicate GrantsAt(policy: OrgPolicy, account: int, principals: Principals, level: ResourceKey, permission: string) {
    exists b | b in policy.BindingsAt(level) ::
      MatchesPrincipal(b, account, principals) && permission in policy.PermissionsOf(b.roleID)
  }

  ghost predicate Grants(policy: OrgPolicy, account: int, principals: Principals, levels: set<ResourceKey>,
                         permission: string)
  {
    exists level | level in levels :: GrantsAt(policy, account, principals, level, permission)
  }

  ghost function LevelSet(levels: seq<ResourceKey>): set<ResourceKey> {
    set level | level in levels
  }

  method CheckPolicy(policy: OrgPolicy, account: int, principals: Principals, levels: seq<ResourceKey>,
                     permission: string)
    returns (granted: bool)
    ensures granted <==> Grants(policy, account, principals, LevelSet(levels), permission)
  {
    for i := 0 to |levels|
      invariant forall k | 0 <= k < i :: !GrantsAt(policy, account, principals, levels[k], permission)
    {
      var unseen := policy.BindingsAt(levels[i]);
      while unseen != {}
        invariant unseen <= policy.BindingsAt(levels[i])
        invariant forall b | b in policy.BindingsAt(levels[i]) - unseen ::
                    !(MatchesPrincipal(b, account, principals) && permission in policy.PermissionsOf(b.roleID))
        decreases |unseen|
      {
        var b :| b in unseen;
        unseen := unseen - {b};
        if !MatchesPrincipal(b, account, principals) {
          continue;
        }
        if permission in policy.PermissionsOf(b.roleID) {
          assert GrantsAt(policy, account, principals, levels[i], permission);
          assert levels[i] in LevelSet(levels);
          return true;
        }
      }
    }
    return false;
  }

  /** Whom a single binding reaches, by the type of its subject, and that it reaches them at its own level only. */
  lemma OneBindingReaches(
    level: ResourceKey, role: int, subjectType: string, subject: int, permission: string,
    account: int, principals: Principals, levels: set<ResourceKey>)
    ensures var b := Binding(role, subjectType, subject);
            var policy := OrgPolicy(map[role := {permission}], map[], map[level := {b}]);
            Grants(policy, account, principals, levels, permission) <==>
              && level in levels
              && match subjectType
                 case "account" => account == subject
                 case "team" => subject in principals.teamIDs
                 case "org_members" => principals.orgMember && principals.orgID == subject
                 case "workspace_members" => subject in principals.workspaceMemberIDs
                 case _ => false
  {
    var b := Binding(role, subjectType, subject);
    var policy := OrgPolicy(map[role := {permission}], map[], map[level := {b}]);
    assert b in policy.BindingsAt(level) && permission in policy.PermissionsOf(role);
    if MatchesPrincipal(b, account, principals) {
      assert GrantsAt(policy, account, principals, level, permission);
    }
  }

  /** The permission is granted at the level by a role whose own scope allows it, and is meaningful on the target. */
  predicate ListsAt(policy: OrgPolicy, account: int, principals: Principals, level: ResourceKey, target: string,
                    permission: string)
  {
    exists b | b in policy.BindingsAt(level) :: ListedBy(policy, b, account, principals, target, permission)
  }

  predicate ListedBy(policy: OrgPolicy, b: Binding, account: int, principals: Principals, target: string,
                     permission: string)
  {
    && MatchesPrincipal(b, account, principals) && permission in policy.PermissionsOf(b.roleID)
    && ValidForScope(permission, policy.ScopeOf(b.roleID)) && ValidForResource(permission, target)
  }

  method EffectivePolicyPermissions(
    policy: OrgPolicy, account: int, principals: Principals, levels: seq<ResourceKey>, target: string)
    returns (seen: set<string>)
    ensures forall p :: p in seen <==> Lists(policy, account, principals, LevelSet(levels), target, p)
  {
    seen := {};
    for i := 0 to |levels|
      invariant forall p :: p in seen <==> Lists(policy, account, principals, LevelSet(levels[..i]), target, p)
    {
      assert LevelSet(levels[..i + 1]) == LevelSet(levels[..i]) + {levels[i]};
      forall p ensures Lists(policy, account, principals, LevelSet(levels[..i + 1]), target, p) <==>
                       Lists(policy, account, principals, LevelSet(levels[..i]), target, p)
                       || ListsAt(policy, account, principals, levels[i], target, p)
      {
        ListsOneMore(policy, account, principals, LevelSet(levels[..i]), levels[i], target, p);
      }
      seen := ListLevel(policy, account, principals, levels[i], target, seen);
    }
    assert levels[..|levels|] == levels;
  }

  ghost predicate Lists(policy: OrgPolicy, account: int, principals: Principals, levels: set<ResourceKey>,
                        target: string, permission: string)
  {
    exists level | level in levels :: ListsAt(policy, account, principals, level, target, permission)
  }

  lemma ListsOneMore(
    policy: OrgPolicy, account: int, principals: Principals, levels: set<ResourceKey>, level: ResourceKey,
    target: string, p: string)
    ensures Lists(policy, account, principals, levels + {level}, target, p) <==>
            Lists(policy, account, principals, levels, target, p)
                || ListsAt(policy, account, principals, level, target, p)
  {
    if ListsAt(policy, account, principals, level, target, p) {
      assert level in levels + {level};
    }
  }

  method ListLevel(
    policy: OrgPolicy, account: int, principals: Principals, level: ResourceKey, target: string, seen: set<string>)
    returns (more: set<string>)
    ensures forall p :: p in more <==> p in seen || ListsAt(policy, account, principals, level, target, p)
  {
    more := seen;
    var unseen := policy.BindingsAt(level);
    while unseen != {}
      invariant unseen <= policy.BindingsAt(level)
      invariant forall p | p in more :: p in seen || ListsAt(policy, account, principals, level, target, p)
      invariant forall p | p in seen :: p in more
      invariant forall b, p | b in policy.BindingsAt(level) && b !in unseen
                  && ListedBy(policy, b, account, principals, target, p) :: p in more
      decreases |unseen|
    {
      var b :| b in unseen;
      unseen := unseen - {b};
      if !MatchesPrincipal(b, account, principals) {
        continue;
      }
      var scope := policy.ScopeOf(b.roleID);
      var listed := set p | p in policy.PermissionsOf(b.roleID) && ValidForScope(p, scope)
          && ValidForResource(p, target);
      forall p ensures p in listed <==> ListedBy(policy, b, account, principals, target, p) {}
      more := more + listed;
    }
  }

  /** What a role holds and is meaningful somewhere, its stored scope allows. */
  ghost predicate ScopesRespected(policy: OrgPolicy) {
    forall role, p, target | p in policy.PermissionsOf(role) && ValidForResource(p, target) ::
      ValidForScope(p, policy.ScopeOf(role))
  }

  /** The two evaluators agree: what is listed for a target is what is granted and meaningful there. */
  ghost predicate EvaluatorsAgree(
    policy: OrgPolicy, account: int, principals: Principals, levels: set<ResourceKey>, target: string,
    permission: string)
  {
    Lists(policy, account, principals, levels, target, permission) <==>
    Grants(policy, account, principals, levels, permission) && ValidForResource(permission, target)
  }

  lemma ListingIsChecking(
    policy: OrgPolicy, account: int, principals: Principals, levels: set<ResourceKey>, target: string,
    permission: string)
    requires ScopesRespected(policy)
    ensures EvaluatorsAgree(policy, account, principals, levels, target, permission)
  {
    forall level
      ensures ListsAt(policy, account, principals, level, target, permission) <==>
              GrantsAt(policy, account, principals, level, permission) && ValidForResource(permission, target)
    {
      forall b
        ensures ListedBy(policy, b, account, principals, target, permission) <==>
                MatchesPrincipal(b, account, principals) && permission in policy.PermissionsOf(b.roleID)
                && ValidForResource(permission, target)
      {
      }
    }
  }

  /** For given roles the evaluators agree, however they are bound and whoever asks about whatever, exactly
      when each role's meaningful permissions fit its stored scope. */
  lemma EvaluatorsAgreeIffScopesRespected(policy: OrgPolicy)
    ensures (forall bindings, account, principals, levels, target, permission ::
               EvaluatorsAgree(policy.(roleBindings := bindings), account, principals, levels, target, permission))
            <==> ScopesRespected(policy)
  {
    if ScopesRespected(policy) {
      forall bindings, account, principals, levels, target, permission
        ensures EvaluatorsAgree(policy.(roleBindings := bindings), account, principals, levels, target, permission)
      {
        var bound := policy.(roleBindings := bindings);
        assert forall role ::
            bound.PermissionsOf(role) == policy.PermissionsOf(role) && bound.ScopeOf(role) == policy.ScopeOf(role);
        ListingIsChecking(bound, account, principals, levels, target, permission);
      }
    } else {
      var role, p, target :| p in policy.PermissionsOf(role) && ValidForResource(p, target)
                             && !ValidForScope(p, policy.ScopeOf(role));
      OutOfScopeIsNotListed(policy, role, target, p);
    }
  }

  /** One binding of a role outside its scope is enough for the two to disagree. */
  lemma OutOfScopeIsNotListed(policy: OrgPolicy, role: int, target: string, p: string)
    requires p in policy.PermissionsOf(role) && ValidForResource(p, target) && !ValidForScope(p, policy.ScopeOf(role))
    ensures exists bindings, account, principals, levels ::
              !EvaluatorsAgree(policy.(roleBindings := bindings), account, principals, levels, target, p)
  {
    var key, b := ResourceKey("org", 1), Binding(role, ACCOUNT, 1);
    var bindings := map[key := {b}];
    var bound, nobody := policy.(roleBindings := bindings), Principals(1, [], [], false);
    assert b in bound.BindingsAt(key) && p in bound.PermissionsOf(role);
    assert GrantsAt(bound, 1, nobody, key, p);
    assert Grants(bound, 1, nobody, {key}, p);
    assert !ListsAt(bound, 1, nobody, key, target, p) by {
      assert bound.BindingsAt(key) == {b} && bound.ScopeOf(role) == policy.ScopeOf(role);
    }
    assert !EvaluatorsAgree(bound, 1, nobody, {key}, target, p);
  }

  /** One resource's grants are all granted on another, whatever the policy, exactly when the other is
      checked at all the levels of the first. */
  lemma InheritsIffLevels(upper: set<ResourceKey>, lower: set<ResourceKey>)
    ensures (forall policy, account, principals, permission | Grants(policy, account, principals, upper, permission) ::
               Grants(policy, account, principals, lower, permission)) <==> upper <= lower
  {
    if upper <= lower {
      forall policy, account, principals, permission | Grants(policy, account, principals, upper, permission)
        ensures Grants(policy, account, principals, lower, permission)
      {
        var level :| level in upper && GrantsAt(policy, account, principals, level, permission);
        assert level in lower;
      }
    } else {
      var level :| level in upper && level !in lower;
      var b := Binding(1, ACCOUNT, 1);
      var policy := OrgPolicy(map[1 := {ORG_READ}], map[1 := "org"], map[level := {b}]);
      var principals := Principals(1, [], [], false);
      assert b in policy.BindingsAt(level);
      assert GrantsAt(policy, 1, principals, level, ORG_READ);
      assert Grants(policy, 1, principals, upper, ORG_READ);
      forall other | other in lower ensures !GrantsAt(policy, 1, principals, other, ORG_READ) {
        assert policy.BindingsAt(other) == {};
      }
    }
  }

  /** Two sets of levels give every account the same answers under every policy exactly when they are equal. */
  lemma SameAnswersIffSameLevels(a: set<ResourceKey>, b: set<ResourceKey>)
    ensures (forall policy, account, principals, permission ::
               Grants(policy, account, principals, a, permission) <==>
                   Grants(policy, account, principals, b, permission))
            <==> a == b
  {
    InheritsIffLevels(a, b);
    InheritsIffLevels(b, a);
  }

  /** Whatever a policy grants on a resource it grants on everything below it, in a hierarchy where each
      resource has one parent and organizations have none. */
  lemma GrantsAreInherited(
    h: Hierarchy, low: ResourceKey, high: ResourceKey, org: int, policy: OrgPolicy, account: int,
    principals: Principals, permission: string)
    requires SingleParent(h) && OrgsAreRoots(h) && IsAncestor(h, low, high)
    requires Grants(policy, account, principals, Levels(h, high, org), permission)
    ensures Grants(policy, account, principals, Levels(h, low, org), permission)
  {
    TreeLevelsInherited(h, low, high, org);
    InheritsIffLevels(Levels(h, high, org), Levels(h, low, org));
  }
}
