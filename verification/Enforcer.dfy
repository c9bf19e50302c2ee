/** The permission enforcer: role mutators, the cached policy and ancestry, and the two evaluators over them.
    Principals are what the membership tables give for the account; how they are read is not modelled. */
module Enforcers {
  import opened Wrappers
  import opened Ancestry
  import opened Permissions
  import opened Policy
  import opened RoleTables
  import opened AccessRules
  import opened Query
  import opened Names

  datatype Cached<+T> = Cached(value: T, expiresAt: int)

  /** What an ancestry entry was made from. */
  datatype Origin = Origin(hierarchy: Hierarchy, org: int)

  /** Fifteen minutes, in nanoseconds. */
  const TTL := 15 * 60 * 1000000000

  method AllFit(permissions: seq<string>, scopeType: string) returns (fit: bool)
    ensures fit <==> forall p | p in permissions :: ValidForScope(p, scopeType)
  {
    for i := 0 to |permissions|
      invariant forall k | 0 <= k < i :: ValidForScope(permissions[k], scopeType)
    {
      if !ValidForScope(permissions[i], scopeType) {
        return false;
      }
    }
    return true;
  }

  class Enforcer {
    var hierarchy: Hierarchy
    var db: Tables
    var policies: map<int, Cached<OrgPolicy>>
    var ancestries: map<ResourceKey, Cached<seq<ResourceKey>>>
    ghost var origins: map<ResourceKey, Origin>

    /** Every cached policy, expired or not, is the one the tables amount to now; every cached ancestry is
        the one its origin gave. */
    ghost predicate Valid()
      reads this
    {
      && Sound(db)
      && (forall org | org in policies :: policies[org].value == PolicyOf(db, org))
      && AncestriesValid()
    }

    ghost predicate AncestriesValid()
      reads this
    {
      forall k | k in ancestries ::
        && k in origins && k.typ != "org"
        && LevelSet(ancestries[k].value) == AncestryOf(origins[k].hierarchy, k, origins[k].org)
    }

    constructor (hierarchy: Hierarchy)
      ensures Valid() && this.hierarchy == hierarchy && db == Tables(map[], {}, map[], 1, 1)
      ensures policies == map[] && ancestries == map[]
    {
      this.hierarchy := hierarchy;
      db := Tables(map[], {}, map[], 1, 1);
      policies, ancestries, origins := map[], map[], map[];
    }

    /** Resources are created, moved and deleted elsewhere; the cache hears of it only by `InvalidateAncestry`. */
    method ChangeHierarchy(changed: Hierarchy)
      requires Valid()
      modifies this`hierarchy
      ensures Valid() && hierarchy == changed
    {
      hierarchy := changed;
    }

    // ---------------------------------------------------------------- evaluation

    /** What the ancestry query is answered from: an unexpired entry's origin, or the hierarchy as it is now. */
    ghost function AnsweredFrom(resource: ResourceKey, org: int, now: int): Origin
      reads this
    {
      if resource in ancestries && resource in origins && now <= ancestries[resource].expiresAt
          && resource.typ != "org" then
        origins[resource]
      else Origin(hierarchy, org)
    }

    ghost function LevelsSeen(resource: ResourceKey, org: int, now: int): set<ResourceKey>
      reads this
    {
      var origin := AnsweredFrom(resource, org, now);
      Levels(origin.hierarchy, resource, origin.org)
    }

    /** The answer is the tables' for the levels the ancestry query gives; by `SameAnswersIffSameLevels` it is
        right under every policy exactly when these are the levels of the hierarchy and organization asked about. */
    method Can(
      account: int, org: int, ownerType: string, resource: ResourceKey, permission: string, principals: Principals,
      now: int)
      returns (allowed: bool)
      requires Valid()
      modifies this`policies, this`ancestries, this`origins
      ensures Valid()
      ensures ownerType == "space" ==> allowed
      ensures ownerType != "space" ==>
                (allowed <==> Grants(PolicyOf(db, org), account, principals, old(LevelsSeen(resource, org, now)),
                                     permission))
      ensures ownerType != "space" ==>
                (allowed <==>
                   exists b ::
                     GrantedBy(db, org, b, account, principals, old(LevelsSeen(resource, org, now)), permission))
      ensures ownerType != "space" ==> Remembers(old(AnsweredFrom(resource, org, now)), resource, now)
    {
      GrantsMeans(db, org, account, principals, LevelsSeen(resource, org, now), permission);
      if ownerType == "space" {
        return true;
      }
      var levels := AncestryFor(resource, org, now);
      var policy := LoadPolicy(org, now);
      allowed := CheckPolicy(policy, account, principals, levels, permission);
    }

    /** Until it expires, the entry answers every query about the resource, under whatever organization. */
    ghost predicate Remembers(origin: Origin, resource: ResourceKey, now: int)
      reads this
    {
      resource.typ != "org" ==>
        && resource in ancestries && resource in origins && now <= ancestries[resource].expiresAt
        && origins[resource] == origin
    }

    /** The listing is sorted, has no duplicates, and holds what the roles grant within their scope and is
        meaningful on the target; when roles respect their scopes, that is what `Can` grants. */
    method EffectivePermissions(
      account: int, org: int, ownerType: string, resource: ResourceKey, principals: Principals, now: int)
      returns (permissions: seq<string>)
      requires Valid()
      modifies this`policies, this`ancestries, this`origins
      ensures Valid()
      ensures StrictlySorted(permissions)
      ensures ownerType == "space" ==> forall p :: p in permissions <==> ValidForResource(p, resource.typ)
      ensures ownerType != "space" ==>
                forall p :: p in permissions <==>
                  Lists(PolicyOf(db, org), account, principals, old(LevelsSeen(resource, org, now)), resource.typ, p)
      ensures ownerType != "space" && ScopesRespected(PolicyOf(db, org)) ==>
                forall p :: p in permissions <==>
                  && ValidForResource(p, resource.typ)
                  && Grants(PolicyOf(db, org), account, principals, old(LevelsSeen(resource, org, now)), p)
      ensures ownerType != "space" ==>
                forall p :: p in permissions <==>
                  && p in ResourcePermissions(resource.typ)
                  && exists b :: GrantedBy(db, org, b, account, principals, old(LevelsSeen(resource, org, now)), p)
                                 && p in ScopePermissions(db.roles[db.bindings[b].binding.roleID].scopeType)
    {
      if ownerType == "space" {
        permissions := SortNames(ResourcePermissions(resource.typ));
        NoRepeatedPermissions(resource.typ);
        SortedStrictly(permissions, ResourcePermissions(resource.typ));
        return;
      }
      permissions := ListPermissions(account, org, resource, principals, now);
      ListsAllMean(db, org, account, principals, old(LevelsSeen(resource, org, now)), resource.typ);
      ListingAllIsChecking(PolicyOf(db, org), account, principals, old(LevelsSeen(resource, org, now)), resource.typ);
    }

    /** The listing proper: the policy's answer for the levels seen, sorted. */
    method ListPermissions(account: int, org: int, resource: ResourceKey, principals: Principals, now: int)
      returns (permissions: seq<string>)
      requires Valid()
      modifies this`policies, this`ancestries, this`origins
      ensures Valid() && StrictlySorted(permissions)
      ensures forall p :: p in permissions <==>
                Lists(PolicyOf(db, org), account, principals, old(LevelsSeen(resource, org, now)), resource.typ, p)
    {
      var levels := AncestryFor(resource, org, now);
      var policy := LoadPolicy(org, now);
      var seen := EffectivePolicyPermissions(policy, account, principals, levels, resource.typ);
      permissions := SortSet(seen);
    }

    method AncestryFor(resource: ResourceKey, org: int, now: int) returns (levels: seq<ResourceKey>)
      requires Valid()
      modifies this`ancestries, this`origins
      ensures Valid()
      ensures LevelSet(levels) == old(LevelsSeen(resource, org, now))
      ensures Remembers(old(AnsweredFrom(resource, org, now)), resource, now)
      ensures resource.typ != "org" && (resource !in old(ancestries) || old(ancestries)[resource].expiresAt < now) ==>
                ancestries[resource].expiresAt == now + 15 * 60 * 1000000000
      ensures forall k | k in old(ancestries) && (k != resource || now <= old(ancestries)[k].expiresAt) ::
                k in ancestries && ancestries[k] == old(ancestries)[k]
    {
      levels := [resource];
      if resource.typ == "org" {
        assert LevelSet(levels) == {resource};
        return;
      }
      if resource in ancestries && now <= ancestries[resource].expiresAt {
        levels := levels + ancestries[resource].value;
        assert LevelSet(levels) == {resource} + LevelSet(ancestries[resource].value);
        return;
      }
      var ancestry := QueryAncestry(hierarchy, resource, org);
      ancestries := ancestries[resource := Cached(ancestry, now + TTL)];
      origins := origins[resource := Origin(hierarchy, org)];
      levels := levels + ancestry;
      assert LevelSet(levels) == {resource} + LevelSet(ancestry);
    }

    /** Loads the policy, or returns the cached one; either way it is the one the tables amount to. */
    method LoadPolicy(org: int, now: int) returns (policy: OrgPolicy)
      requires Valid()
      modifies this`policies
      ensures Valid() && policy == PolicyOf(db, org)
    {
      if org in policies && now <= policies[org].expiresAt {
        return policies[org].value;
      }
      var rolePermissions, roleScopeTypes := GroupPermissionRows(db.roles, PermissionRows(db, org));
      var roleBindings := GroupBindingRows(BindingRows(db, org));
      policy := OrgPolicy(rolePermissions, roleScopeTypes, roleBindings);
      policies := policies[org := Cached(policy, now + TTL)];
    }

    // ---------------------------------------------------------------- mutators

    method SeedOrg(org: int, owner: int)
      requires Valid()
      modifies this`db, this`policies
      ensures Valid()
      ensures db == SeedRoles(old(db), OrgPlace(org, owner), ORG_BUILTIN_ROLES)
      ensures OnlyBinds(old(db), db, org, ResourceKey("org", org), owner, "org_members")
      ensures (forall r | r in old(db).roles :: old(db).roles[r].orgID != org) ==> OrgIsSeeded(db, org, owner)
    {
      OrgSeedGrants(db, org, owner);
      Seed(OrgPlace(org, owner), ORG_BUILTIN_ROLES);
      policies := policies - {org};
    }

    method SeedWorkspace(org: int, workspace: int, creator: int)
      requires Valid()
      modifies this`db, this`policies
      ensures Valid()
      ensures db == SeedRoles(old(db), WorkspacePlace(org, workspace, creator), WORKSPACE_BUILTIN_ROLES)
      ensures OnlyBinds(old(db), db, org, ResourceKey("workspace", workspace), creator, "workspace_members")
      ensures (forall r | r in old(db).roles :: old(db).roles[r].workspaceID != Some(workspace)) ==>
                WorkspaceIsSeeded(db, org, workspace, creator)
    {
      WorkspaceSeedGrants(db, org, workspace, creator);
      Seed(WorkspacePlace(org, workspace, creator), WORKSPACE_BUILTIN_ROLES);
      policies := policies - {org};
    }

    method Seed(at: SeedPlace, roles: seq<BuiltinRole>)
      requires Sound(db)
      modifies this`db
      ensures Sound(db) && db == SeedRoles(old(db), at, roles)
      ensures forall o | o != at.org :: PolicyOf(db, o) == PolicyOf(old(db), o)
    {
      var i := 0;
      while i < |roles|
        invariant i <= |roles| && Sound(db)
        invariant SeedRoles(old(db), at, roles) == SeedRoles(db, at, roles[i..])
        invariant forall o | o != at.org :: PolicyOf(db, o) == PolicyOf(old(db), o)
      {
        SeedRoleSound(db, at, roles[i]);
        SeedRoleIsLocal(db, at, roles[i]);
        assert roles[i..][1..] == roles[i + 1..];
        db := SeedRole(db, at, roles[i]);
        i := i + 1;
      }
    }

    method CreateRole(org: int, workspace: Option<int>, name: string, description: string, scopeType: string,
                      permissions: seq<string>)
      returns (result: Result<int, Error>)
      requires Valid()
      modifies this`db, this`policies
      ensures Valid()
      ensures match RoleTables.CreateRole(old(db), org, workspace, name, description, scopeType, permissions)
              case Success((after, id)) => db == after && result == Success(id)
              case Failure(e) => db == old(db) && policies == old(policies) && result == Failure(e)
      ensures Created(old(db), org, workspace, name, description, scopeType, permissions, db, result)
    {
      CreateRoleMeans(db, org, workspace, name, description, scopeType, permissions);
      var fit := AllFit(permissions, scopeType);
      if !fit {
        return Failure(InvalidScopePermission);
      }
      var (inserted, id) := InsertRole(db, org, workspace, name, description, scopeType, false);
      var filled := InsertPermissions(inserted, id, permissions, false);
      if filled.Failure? {
        return Failure(filled.error);
      }
      CreateRoleIsLocal(db, org, workspace, name, description, scopeType, permissions);
      db := filled.value;
      policies := policies - {org};
      return Success(id);
    }

    method UpdateRole(role: int, org: int, name: string, description: string, permissions: seq<string>)
      returns (result: Result<(), Error>)
      requires Valid()
      modifies this`db, this`policies
      ensures Valid()
      ensures match RoleTables.UpdateRole(old(db), role, org, name, description, permissions)
              case Success(after) => db == after && result == Success(())
              case Failure(e) => db == old(db) && policies == old(policies) && result == Failure(e)
      ensures Updated(old(db), role, org, name, description, permissions, db, result)
    {
      UpdateRoleMeans(db, role, org, name, description, permissions);
      var updated := RoleTables.UpdateRole(db, role, org, name, description, permissions);
      if updated.Failure? {
        return Failure(updated.error);
      }
      UpdateRoleIsLocal(db, role, org, name, description, permissions);
      db := updated.value;
      policies := policies - {org};
      return Success(());
    }

    method DeleteRole(role: int, org: int) returns (result: Result<(), Error>)
      requires Valid()
      modifies this`db, this`policies
      ensures Valid()
      ensures match RoleTables.DeleteRole(old(db), role, org)
              case Success(after) => db == after && result == Success(())
              case Failure(e) => db == old(db) && policies == old(policies) && result == Failure(e)
      ensures Deleted(old(db), role, org, db, result)
    {
      DeleteRoleMeans(db, role, org);
      var deleted := RoleTables.DeleteRole(db, role, org);
      if deleted.Failure? {
        return Failure(deleted.error);
      }
      DeleteRoleIsLocal(db, role, org);
      db := deleted.value;
      policies := policies - {org};
      return Success(());
    }

    method BindRole(org: int, role: int, subjectType: string, subjectID: int, resource: ResourceKey)
      returns (result: Result<(), Error>)
      requires Valid()
      modifies this`db, this`policies
      ensures Valid()
      ensures match InsertBinding(old(db), BindingRow(org, Binding(role, subjectType, subjectID), resource))
              case Success(after) => db == after && result == Success(())
              case Failure(e) => db == old(db) && policies == old(policies) && result == Failure(e)
      ensures Bound(old(db), org, Binding(role, subjectType, subjectID), resource, db, result)
    {
      BindMeans(db, org, Binding(role, subjectType, subjectID), resource);
      var bound := InsertBinding(db, BindingRow(org, Binding(role, subjectType, subjectID), resource));
      if bound.Failure? {
        return Failure(bound.error);
      }
      InsertBindingIsLocal(db, BindingRow(org, Binding(role, subjectType, subjectID), resource));
      db := bound.value;
      policies := policies - {org};
      return Success(());
    }

    method UnbindRole(binding: int, org: int)
      requires Valid()
      modifies this`db, this`policies
      ensures Valid() && db == RoleTables.UnbindRole(old(db), binding, org)
      ensures db.roles == old(db).roles && db.permissions == old(db).permissions
      ensures forall b :: b in db.bindings <==>
                b in old(db).bindings && (b == binding ==> old(db).bindings[b].orgID != org)
      ensures forall b | b in db.bindings :: db.bindings[b] == old(db).bindings[b]
    {
      UnbindRoleIsLocal(db, binding, org);
      db := RoleTables.UnbindRole(db, binding, org);
      policies := policies - {org};
    }

    method InvalidateAncestry(resource: ResourceKey)
      requires Valid()
      modifies this`ancestries
      ensures Valid() && ancestries == old(ancestries) - {resource}
    {
      ancestries := ancestries - {resource};
    }
  }

  // ---------------------------------------------------------------- an entry made under another organization

  const READER := Role(2, None, "Reader", "", "org", false)
  const READER_BINDING := BindingRow(2, Binding(1, ACCOUNT, 7), ResourceKey("org", 2))
  const READER_TABLES := Tables(map[1 := READER], {(1, WS_READ)}, map[1 := READER_BINDING], 2, 2)
  const MEMBERS := Principals(2, [], [], true)

  const NO_TABLES := Tables(map[], {}, map[], 1, 1)
  const UNBOUND_TABLES := READER_TABLES.(bindings := map[], nextBindingID := 1)

  lemma ReaderIsMade()
    ensures UniqueNames(NO_TABLES)
    ensures RoleTables.CreateRole(NO_TABLES, 2, None, "Reader", "", "org", [WS_READ]) == Success((UNBOUND_TABLES, 1))
  {
    var (inserted, id) := InsertRole(NO_TABLES, 2, None, "Reader", "", "org", false);
    assert inserted == NO_TABLES.(roles := map[1 := READER], nextRoleID := 2) && id == 1;
    assert (set p | p in [WS_READ] :: (id, p)) == {(1, WS_READ)};
    assert !Conflicts(inserted, id, [WS_READ]);
    var filled := inserted.(permissions := inserted.permissions + set p | p in [WS_READ] :: (id, p));
    assert filled.permissions == {(1, WS_READ)};
    assert filled == UNBOUND_TABLES;
    assert WS_READ in ScopePermissions("org");
  }

  lemma ReaderIsBound()
    ensures InsertBinding(UNBOUND_TABLES, READER_BINDING) == Success(READER_TABLES)
  {
  }

  lemma ReaderReads(levels: set<ResourceKey>)
    ensures Grants(PolicyOf(READER_TABLES, 2), 7, MEMBERS, levels, WS_READ) <==> ResourceKey("org", 2) in levels
  {
    var policy, org := PolicyOf(READER_TABLES, 2), ResourceKey("org", 2);
    PolicyHolds(READER_TABLES, 2, 1, WS_READ);
    PolicyBinds(READER_TABLES, 2, org, READER_BINDING.binding);
    assert 1 in READER_TABLES.bindings && (org, READER_BINDING.binding) in BindingRows(READER_TABLES, 2);
    assert GrantsAt(policy, 7, MEMBERS, org, WS_READ);
    forall level | level != org ensures !GrantsAt(policy, 7, MEMBERS, level, WS_READ) {
      forall b | b in policy.BindingsAt(level) ensures false {
        PolicyBinds(READER_TABLES, 2, level, b);
      }
    }
  }

  /** Organization 2 with one role, bound to account 7. */
  method ReaderEnforcer() returns (e: Enforcer)
    ensures fresh(e) && e.Valid() && e.db == READER_TABLES && e.hierarchy == {} && e.ancestries == map[]
  {
    e := new Enforcer({});
    ReaderIsMade();
    ReaderIsBound();
    var created := e.CreateRole(2, None, "Reader", "", "org", [WS_READ]);
    var bound := e.BindRole(2, 1, ACCOUNT, 7, ResourceKey("org", 2));
  }

  /** Whoever asks about a resource first decides the levels for the next, under whatever organization. */
  method AskTwice(
    e: Enforcer, account: int, first: int, second: int, resource: ResourceKey, permission: string,
    principals: Principals, now: int)
    returns (allowed: bool)
    requires e.Valid() && resource !in e.ancestries && resource.typ != "org"
    modifies e
    ensures e.Valid() && e.db == old(e.db) && e.hierarchy == old(e.hierarchy)
    ensures allowed <==>
            Grants(PolicyOf(e.db, second), account, principals, Levels(e.hierarchy, resource, first), permission)
  {
    var _ := e.Can(account, first, "org", resource, permission, principals, now);
    assert e.AnsweredFrom(resource, second, now) == Origin(e.hierarchy, first);
    allowed := e.Can(account, second, "org", resource, permission, principals, now);
  }

  /** A workspace the hierarchy says nothing about is asked about under organization 1 first: the entry made
      then denies a member of organization 2 what the tables give. */
  method AnswerForAnotherOrg() returns (e: Enforcer, allowed: bool)
    ensures fresh(e) && e.Valid() && !allowed
    ensures Grants(PolicyOf(e.db, 2), 7, MEMBERS, Levels(e.hierarchy, ResourceKey("workspace", 5), 2), WS_READ)
  {
    var workspace := ResourceKey("workspace", 5);
    AncestryDiffersBetweenOrgs();
    ReaderReads(Levels({}, workspace, 1));
    ReaderReads(Levels({}, workspace, 2));
    e := ReaderEnforcer();
    allowed := AskTwice(e, 7, 1, 2, workspace, WS_READ, MEMBERS, 0);
  }

  function OrgPlace(org: int, owner: int): SeedPlace {
    SeedPlace(org, None, "org", ResourceKey("org", org), ORG_MEMBERS, owner)
  }

  function WorkspacePlace(org: int, workspace: int, creator: int): SeedPlace {
    SeedPlace(org, Some(workspace), "workspace", ResourceKey("workspace", workspace), WORKSPACE_MEMBERS, creator)
  }

  /** The bindings that have come are the organization's, at this resource, and reach only the account that
      made the place and the place's members. */
  ghost predicate OnlyBinds(db: Tables, after: Tables, org: int, resource: ResourceKey, maker: int, members: string) {
    && (forall b | b in db.bindings :: b in after.bindings && after.bindings[b] == db.bindings[b])
    && forall b | b in after.bindings && b !in db.bindings ::
         && after.bindings[b].orgID == org && after.bindings[b].resource == resource
         && (|| (after.bindings[b].binding.subjectType == "account" && after.bindings[b].binding.subjectID == maker)
             || (after.bindings[b].binding.subjectType == members
                 && after.bindings[b].binding.subjectID == resource.id))
  }

  /** The owner may do everything in the organization, and every member may read it. */
  ghost predicate OrgIsSeeded(db: Tables, org: int, owner: int) {
    forall account, principals: Principals, levels: set<ResourceKey>, p | ResourceKey("org", org) in levels ::
      ((account == owner && p in ScopePermissions("org"))
       || (principals.orgMember && principals.orgID == org && p == ORG_READ)) ==>
        Grants(PolicyOf(db, org), account, principals, levels, p)
  }

  /** Who made the workspace may do what its administrators may, and every member may read it. */
  ghost predicate WorkspaceIsSeeded(db: Tables, org: int, workspace: int, creator: int) {
    forall account, principals: Principals, levels: set<ResourceKey>, p
      | ResourceKey("workspace", workspace) in levels ::
      ((account == creator && p in WORKSPACE_BUILTIN_ROLES[0].permissions)
       || (workspace in principals.workspaceMemberIDs && p == WS_READ)) ==>
        Grants(PolicyOf(db, org), account, principals, levels, p)
  }

  /** Whoever a builtin role is meant for has its permissions wherever the place is among the levels. */
  lemma PlaceGrants(db: Tables, at: SeedPlace, roles: seq<BuiltinRole>, k: nat, account: int, principals: Principals,
                    levels: set<ResourceKey>, p: string)
    requires Sound(db) && DistinctNames(roles) && forall r | r in roles :: NameFree(db, at, r.name)
    requires k < |roles| && p in roles[k].permissions && at.resource in levels
    requires match roles[k].boundTo
             case Creator => account == at.creator
             case Members => StandsFor(at.members, at.resource.id, account, principals)
             case Nobody => false
    ensures Grants(PolicyOf(SeedRoles(db, at, roles), at.org), account, principals, levels, p)
  {
    var id := AllSeeded(db, at, roles, k);
    SeededGrants(SeedRoles(db, at, roles), at, roles[k], id, account, principals, levels, p);
  }

  lemma OrgRolesAre()
    ensures |ORG_BUILTIN_ROLES| == 3 && DistinctNames(ORG_BUILTIN_ROLES)
    ensures ORG_BUILTIN_ROLES[0].boundTo == Creator && ORG_BUILTIN_ROLES[0].permissions == ScopePermissions("org")
    ensures ORG_BUILTIN_ROLES[2].boundTo == Members && ORG_READ in ORG_BUILTIN_ROLES[2].permissions
  {
  }

  lemma WorkspaceRolesAre()
    ensures |WORKSPACE_BUILTIN_ROLES| == 2 && DistinctNames(WORKSPACE_BUILTIN_ROLES)
    ensures WORKSPACE_BUILTIN_ROLES[0].boundTo == Creator && WORKSPACE_BUILTIN_ROLES[1].boundTo == Members
    ensures WS_READ in WORKSPACE_BUILTIN_ROLES[1].permissions
  {
  }

  lemma OrgSeedGrants(db: Tables, org: int, owner: int)
    requires Sound(db)
    ensures var after := SeedRoles(db, OrgPlace(org, owner), ORG_BUILTIN_ROLES);
            && OnlyBinds(db, after, org, ResourceKey("org", org), owner, "org_members")
            && ((forall r | r in db.roles :: db.roles[r].orgID != org) ==> OrgIsSeeded(after, org, owner))
  {
    var at := OrgPlace(org, owner);
    SeedingBindsOnly(db, at, ORG_BUILTIN_ROLES);
    if forall r | r in db.roles :: db.roles[r].orgID != org {
      forall account, principals: Principals, levels: set<ResourceKey>, p
        | ResourceKey("org", org) in levels
          && ((account == owner && p in ScopePermissions("org"))
              || (principals.orgMember && principals.orgID == org && p == ORG_READ))
        ensures Grants(PolicyOf(SeedRoles(db, at, ORG_BUILTIN_ROLES), org), account, principals, levels, p)
      {
        OrgRolesAre();
        PlaceGrants(db, at, ORG_BUILTIN_ROLES, if account == owner && p in ScopePermissions("org") then 0 else 2,
                    account, principals, levels, p);
      }
    }
  }

  lemma WorkspaceSeedGrants(db: Tables, org: int, workspace: int, creator: int)
    requires Sound(db)
    ensures var after := SeedRoles(db, WorkspacePlace(org, workspace, creator), WORKSPACE_BUILTIN_ROLES);
            && OnlyBinds(db, after, org, ResourceKey("workspace", workspace), creator, "workspace_members")
            && ((forall r | r in db.roles :: db.roles[r].workspaceID != Some(workspace)) ==>
                  WorkspaceIsSeeded(after, org, workspace, creator))
  {
    var at := WorkspacePlace(org, workspace, creator);
    SeedingBindsOnly(db, at, WORKSPACE_BUILTIN_ROLES);
    if forall r | r in db.roles :: db.roles[r].workspaceID != Some(workspace) {
      forall account, principals: Principals, levels: set<ResourceKey>, p
        | ResourceKey("workspace", workspace) in levels
          && ((account == creator && p in WORKSPACE_BUILTIN_ROLES[0].permissions)
              || (workspace in principals.workspaceMemberIDs && p == WS_READ))
        ensures Grants(PolicyOf(SeedRoles(db, at, WORKSPACE_BUILTIN_ROLES), org), account, principals, levels, p)
      {
        WorkspaceRolesAre();
        var k := if account == creator && p in WORKSPACE_BUILTIN_ROLES[0].permissions then 0 else 1;
        PlaceGrants(db, at, WORKSPACE_BUILTIN_ROLES, k, account, principals, levels, p);
      }
    }
  }

  lemma ListsAllMean(
    db: Tables, org: int, account: int, principals: Principals, levels: set<ResourceKey>, target: string)
    ensures forall p :: Lists(PolicyOf(db, org), account, principals, levels, target, p) <==>
              && p in ResourcePermissions(target)
              && exists b :: GrantedBy(db, org, b, account, principals, levels, p)
                             && p in ScopePermissions(db.roles[db.bindings[b].binding.roleID].scopeType)
  {
    forall p ensures Lists(PolicyOf(db, org), account, principals, levels, target, p) <==>
                     && p in ResourcePermissions(target)
                     && exists b :: GrantedBy(db, org, b, account, principals, levels, p)
                                    && p in ScopePermissions(db.roles[db.bindings[b].binding.roleID].scopeType) {
      ListsMeans(db, org, account, principals, levels, target, p);
    }
  }

  lemma ListingAllIsChecking(
    policy: OrgPolicy, account: int, principals: Principals, levels: set<ResourceKey>, target: string)
    ensures ScopesRespected(policy) ==>
              forall p :: EvaluatorsAgree(policy, account, principals, levels, target, p)
  {
    if ScopesRespected(policy) {
      forall p ensures EvaluatorsAgree(policy, account, principals, levels, target, p) {
        ListingIsChecking(policy, account, principals, levels, target, p);
      }
    }
  }

  lemma NoRepeatedPermissions(resourceType: string)
    ensures NoRepeats(ResourcePermissions(resourceType))
  {
    forall i, j | 0 <= i < j < |ResourcePermissions(resourceType)|
      ensures ResourcePermissions(resourceType)[i] != ResourcePermissions(resourceType)[j]
    {
      ResourcePermissionsAreDistinct(resourceType, i, j);
    }
  }

  /** The ancestor rows, and the organization at the end unless the rows name one. */
  method QueryAncestry(hierarchy: Hierarchy, resource: ResourceKey, org: int) returns (ancestry: seq<ResourceKey>)
    ensures LevelSet(ancestry) == AncestryOf(hierarchy, resource, org)
  {
    var rows := QueryAncestors(hierarchy, resource);
    ancestry := ListOf(rows);
    assert LevelSet(ancestry) == rows;
    var hasOrg := false;
    for i := 0 to |ancestry|
      invariant hasOrg <==> exists k | 0 <= k < i :: ancestry[k].typ == "org"
    {
      if ancestry[i].typ == "org" {
        hasOrg := true;
        break;
      }
    }
    assert hasOrg <==> HasOrg(rows) by {
      if k :| 0 <= k < |ancestry| && ancestry[k].typ == "org" {
        assert ancestry[k] in rows;
      }
    }
    if !hasOrg && org != 0 {
      ancestry := ancestry + [ResourceKey("org", org)];
      assert LevelSet(ancestry) == rows + {ResourceKey("org", org)};
    }
  }

  /** The loader's first loop: permissions by role, with the role's scope. */
  method GroupPermissionRows(roles: map<int, Role>, rows: set<(int, string)>)
    returns (rolePermissions: map<int, set<string>>, roleScopeTypes: map<int, string>)
    requires forall row | row in rows :: row.0 in roles
    ensures rolePermissions == Grouped(roles, rows, {}).rolePermissions
    ensures roleScopeTypes == Grouped(roles, rows, {}).roleScopeTypes
  {
    rolePermissions, roleScopeTypes := map[], map[];
    var rest := rows;
    while rest != {}
      invariant rest <= rows
      invariant rolePermissions == Grouped(roles, rows - rest, {}).rolePermissions
      invariant roleScopeTypes == Grouped(roles, rows - rest, {}).roleScopeTypes
      decreases |rest|
    {
      var row :| row in rest;
      GroupNextPermission(roles, rows, rest, row);
      rest := rest - {row};
      if row.0 !in rolePermissions {
        rolePermissions := rolePermissions[row.0 := {}];
      }
      roleScopeTypes := roleScopeTypes[row.0 := roles[row.0].scopeType];
      rolePermissions := rolePermissions[row.0 := rolePermissions[row.0] + {row.1}];
    }
    assert rows - rest == rows;
  }

  /** The loader's second loop: bindings by resource. */
  method GroupBindingRows(rows: set<(ResourceKey, Binding)>) returns (roleBindings: map<ResourceKey, set<Binding>>)
    ensures roleBindings == Grouped(map[], {}, rows).roleBindings
  {
    roleBindings := map[];
    var rest := rows;
    while rest != {}
      invariant rest <= rows && roleBindings == Grouped(map[], {}, rows - rest).roleBindings
      decreases |rest|
    {
      var row :| row in rest;
      GroupOneBinding(rows - rest, row);
      assert rows - (rest - {row}) == (rows - rest) + {row};
      rest := rest - {row};
      roleBindings := roleBindings[row.0 := (if row.0 in roleBindings then roleBindings[row.0] else {}) + {row.1}];
    }
    assert rows - rest == rows;
  }

  lemma GroupNextPermission(roles: map<int, Role>, rows: set<(int, string)>, rest: set<(int, string)>,
                            row: (int, string))
    requires rest <= rows && row in rest && row.0 in roles
    ensures var before, after := Grouped(roles, rows - rest, {}), Grouped(roles, rows - (rest - {row}), {});
            && after.rolePermissions == before.rolePermissions[row.0 := before.PermissionsOf(row.0) + {row.1}]
            && after.roleScopeTypes == before.roleScopeTypes[row.0 := roles[row.0].scopeType]
  {
    GroupOnePermission(roles, rows - rest, row);
    assert rows - (rest - {row}) == (rows - rest) + {row};
  }

  lemma GroupOnePermission(roles: map<int, Role>, rows: set<(int, string)>, row: (int, string))
    requires row.0 in roles
    ensures var before, after := Grouped(roles, rows, {}), Grouped(roles, rows + {row}, {});
            && after.rolePermissions == before.rolePermissions[row.0 := before.PermissionsOf(row.0) + {row.1}]
            && after.roleScopeTypes == before.roleScopeTypes[row.0 := roles[row.0].scopeType]
            && after.roleBindings == before.roleBindings
  {
    var more := rows + {row};
    assert RoleIDs(more) == RoleIDs(rows) + {row.0};
    forall r | r != row.0 ensures PermissionsIn(more, r) == PermissionsIn(rows, r) {}
    assert PermissionsIn(more, row.0) == PermissionsIn(rows, row.0) + {row.1};
    if row.0 !in RoleIDs(rows) {
      assert PermissionsIn(rows, row.0) == {};
    }
  }

  lemma GroupOneBinding(rows: set<(ResourceKey, Binding)>, row: (ResourceKey, Binding))
    ensures var before, after := Grouped(map[], {}, rows), Grouped(map[], {}, rows + {row});
            after.roleBindings == before.roleBindings[row.0 := before.BindingsAt(row.0) + {row.1}]
  {
    var more := rows + {row};
    assert BoundKeys(more) == BoundKeys(rows) + {row.0};
    forall k | k != row.0 ensures BindingsIn(more, k) == BindingsIn(rows, k) {}
    assert BindingsIn(more, row.0) == BindingsIn(rows, row.0) + {row.1};
    if row.0 !in BoundKeys(rows) {
      assert BindingsIn(rows, row.0) == {};
    }
  }

  // ---------------------------------------------------------------- each mutator touches one organization

  /** Databases with the same binding rows for an organization, and the same roles and permissions. */
  lemma BindingChangeIsLocal(db: Tables, after: Tables, org: int)
    requires after.roles == db.roles && after.permissions == db.permissions
    requires forall b | b in db.bindings && db.bindings[b].orgID != org :: b in after.bindings
               && after.bindings[b] == db.bindings[b]
    requires forall b | b in after.bindings && after.bindings[b].orgID != org :: b in db.bindings
               && after.bindings[b] == db.bindings[b]
    ensures forall o | o != org :: PolicyOf(after, o) == PolicyOf(db, o)
  {
    forall o | o != org ensures PolicyOf(after, o) == PolicyOf(db, o) {
      forall row ensures row in BindingRows(after, o) <==> row in BindingRows(db, o) {
        if row in BindingRows(after, o) {
          var b :| b in after.bindings && after.bindings[b].orgID == o
              && row == (after.bindings[b].resource, after.bindings[b].binding);
          assert db.bindings[b] == after.bindings[b];
        }
        if row in BindingRows(db, o) {
          var b :| b in db.bindings && db.bindings[b].orgID == o
              && row == (db.bindings[b].resource, db.bindings[b].binding);
          assert after.bindings[b] == db.bindings[b];
        }
      }
      SamePolicy(db, after, o);
    }
  }

  lemma InsertBindingIsLocal(db: Tables, row: BindingRow)
    requires Sound(db) && InsertBinding(db, row).Success?
    ensures Sound(InsertBinding(db, row).value)
    ensures forall o | o != row.orgID :: PolicyOf(InsertBinding(db, row).value, o) == PolicyOf(db, o)
  {
    BindingChangeIsLocal(db, InsertBinding(db, row).value, row.orgID);
  }

  lemma UnbindRoleIsLocal(db: Tables, binding: int, org: int)
    requires Sound(db)
    ensures Sound(RoleTables.UnbindRole(db, binding, org))
    ensures forall o | o != org :: PolicyOf(RoleTables.UnbindRole(db, binding, org), o) == PolicyOf(db, o)
  {
    BindingChangeIsLocal(db, RoleTables.UnbindRole(db, binding, org), org);
  }

  /** Every difference between the two role and permission tables belongs to one organization. */
  ghost predicate DiffersOnlyIn(db: Tables, after: Tables, org: int) {
    && (forall r | r in db.roles && r !in after.roles :: db.roles[r].orgID == org)
    && (forall r | r in after.roles && r !in db.roles :: after.roles[r].orgID == org)
    && (forall r | r in db.roles && r in after.roles ::
          after.roles[r].orgID == db.roles[r].orgID && (db.roles[r].orgID == org
                                                        || after.roles[r].scopeType == db.roles[r].scopeType))
    && (forall r: int, p | (r, p) in after.permissions && (r, p) !in db.permissions ::
          r in after.roles && after.roles[r].orgID == org)
    && (forall r: int, p | (r, p) in db.permissions && (r, p) !in after.permissions ::
          r in db.roles && db.roles[r].orgID == org)
  }

  lemma PermissionRowKept(db: Tables, after: Tables, org: int, o: int, r: int, p: string)
    requires Sound(db) && DiffersOnlyIn(db, after, org) && o != org
    ensures (r, p) in PermissionRows(after, o) <==> (r, p) in PermissionRows(db, o)
  {
    if (r, p) in db.permissions {
      assert (r, p).0 in db.roles;
    }
  }

  lemma RoleChangeIsLocal(db: Tables, after: Tables, org: int)
    requires Sound(db) && after.bindings == db.bindings && DiffersOnlyIn(db, after, org)
    ensures forall o | o != org :: PolicyOf(after, o) == PolicyOf(db, o)
  {
    forall o | o != org ensures PolicyOf(after, o) == PolicyOf(db, o) {
      forall r: int, p ensures (r, p) in PermissionRows(after, o) <==> (r, p) in PermissionRows(db, o) {
        PermissionRowKept(db, after, org, o, r, p);
      }
      assert PermissionRows(after, o) == PermissionRows(db, o);
      SamePolicy(db, after, o);
    }
  }

  lemma CreateRoleIsLocal(
    db: Tables, org: int, workspace: Option<int>, name: string, description: string, scopeType: string,
    permissions: seq<string>)
    requires Sound(db) && RoleTables.CreateRole(db, org, workspace, name, description, scopeType, permissions).Success?
    ensures var after := RoleTables.CreateRole(db, org, workspace, name, description, scopeType, permissions).value.0;
            Sound(after) && forall o | o != org :: PolicyOf(after, o) == PolicyOf(db, o)
  {
    InsertRoleSound(db, org, workspace, name, description, scopeType, false);
    RoleChangeIsLocal(db, RoleTables.CreateRole(db, org, workspace, name, description, scopeType, permissions).value.0,
                      org);
  }

  lemma UpdateRoleIsLocal(db: Tables, role: int, org: int, name: string, description: string, permissions: seq<string>)
    requires Sound(db) && RoleTables.UpdateRole(db, role, org, name, description, permissions).Success?
    ensures var after := RoleTables.UpdateRole(db, role, org, name, description, permissions).value;
            Sound(after) && forall o | o != org :: PolicyOf(after, o) == PolicyOf(db, o)
  {
    RoleChangeIsLocal(db, RoleTables.UpdateRole(db, role, org, name, description, permissions).value, org);
  }

  lemma DeleteRoleIsLocal(db: Tables, role: int, org: int)
    requires Sound(db) && RoleTables.DeleteRole(db, role, org).Success?
    ensures var after := RoleTables.DeleteRole(db, role, org).value;
            Sound(after) && forall o | o != org :: PolicyOf(after, o) == PolicyOf(db, o)
  {
    RoleChangeIsLocal(db, RoleTables.DeleteRole(db, role, org).value, org);
  }

  lemma SeedRoleIsLocal(db: Tables, at: SeedPlace, role: BuiltinRole)
    requires Sound(db)
    ensures forall o | o != at.org :: PolicyOf(SeedRole(db, at, role), o) == PolicyOf(db, o)
  {
    var (inserted, id) := InsertRole(db, at.org, at.workspace, role.name, role.description, at.scopeType, true);
    InsertRoleSound(db, at.org, at.workspace, role.name, role.description, at.scopeType, true);
    var filled := inserted.(permissions := inserted.permissions + set p | p in role.permissions :: (id, p));
    RoleChangeIsLocal(db, filled, at.org);
    if role.boundTo != Nobody {
      var binding := if role.boundTo == Members then Binding(id, at.members, at.resource.id)
          else Binding(id, ACCOUNT, at.creator);
      if InsertBinding(filled, BindingRow(at.org, binding, at.resource)).Success? {
        InsertBindingIsLocal(filled, BindingRow(at.org, binding, at.resource));
      }
    }
  }
}
