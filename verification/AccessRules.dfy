/** What the rows of the role and binding tables mean for access, and what each change of a role or a binding
    does to them, said of the rows themselves. */
module AccessRules {
  import opened Wrappers
  import opened Ancestry
  import opened Names
  import opened Permissions
  import opened Policy
  import opened RoleTables

  // ---------------------------------------------------------------- who is granted what

  /** Whom a subject stands for: one account, the members of one team, organization or workspace, or nobody. */
  ghost predicate StandsFor(subjectType: string, subject: int, account: int, principals: Principals) {
    match subjectType
    case "account" => account == subject
    case "team" => subject in principals.teamIDs
    case "org_members" => principals.orgMember && principals.orgID == subject
    case "workspace_members" => subject in principals.workspaceMemberIDs
    case _ => false
  }

  /** Binding row `b` of the organization gives the account the permission at one of the levels, by a role
      of the organization. */
  ghost predicate GrantedBy(db: Tables, org: int, b: int, account: int, principals: Principals,
                            levels: set<ResourceKey>, permission: string)
  {
    && b in db.bindings && db.bindings[b].orgID == org && db.bindings[b].resource in levels
    && StandsFor(db.bindings[b].binding.subjectType, db.bindings[b].binding.subjectID, account, principals)
    && (db.bindings[b].binding.roleID, permission) in db.permissions
    && db.bindings[b].binding.roleID in db.roles && db.roles[db.bindings[b].binding.roleID].orgID == org
  }

  lemma GrantsMeans(db: Tables, org: int, account: int, principals: Principals, levels: set<ResourceKey>,
                    permission: string)
    ensures Grants(PolicyOf(db, org), account, principals, levels, permission) <==>
            exists b :: GrantedBy(db, org, b, account, principals, levels, permission)
  {
    if Grants(PolicyOf(db, org), account, principals, levels, permission) {
      var b := GrantingRow(db, org, account, principals, levels, permission);
    }
    if b :| GrantedBy(db, org, b, account, principals, levels, permission) {
      RowGrants(db, org, b, account, principals, levels, permission);
    }
  }

  lemma GrantingRow(db: Tables, org: int, account: int, principals: Principals, levels: set<ResourceKey>,
                    permission: string) returns (b: int)
    requires Grants(PolicyOf(db, org), account, principals, levels, permission)
    ensures GrantedBy(db, org, b, account, principals, levels, permission)
  {
    var policy := PolicyOf(db, org);
    var level :| level in levels && GrantsAt(policy, account, principals, level, permission);
    var binding :| binding in policy.BindingsAt(level) && MatchesPrincipal(binding, account, principals)
                   && permission in policy.PermissionsOf(binding.roleID);
    PolicyBinds(db, org, level, binding);
    PolicyHolds(db, org, binding.roleID, permission);
    b :| b in db.bindings && db.bindings[b].orgID == org
         && (db.bindings[b].resource, db.bindings[b].binding) == (level, binding);
  }

  lemma RowGrants(db: Tables, org: int, b: int, account: int, principals: Principals, levels: set<ResourceKey>,
                  permission: string)
    requires GrantedBy(db, org, b, account, principals, levels, permission)
    ensures Grants(PolicyOf(db, org), account, principals, levels, permission)
  {
    var level, binding := db.bindings[b].resource, db.bindings[b].binding;
    assert (level, binding) in BindingRows(db, org);
    PolicyBinds(db, org, level, binding);
    PolicyHolds(db, org, binding.roleID, permission);
    assert GrantsAt(PolicyOf(db, org), account, principals, level, permission);
  }

  /** What is listed for a target: what such a row grants, the role's own scope allows, and the target has. */
  lemma ListsMeans(db: Tables, org: int, account: int, principals: Principals, levels: set<ResourceKey>,
                   target: string, permission: string)
    ensures Lists(PolicyOf(db, org), account, principals, levels, target, permission) <==>
            && permission in ResourcePermissions(target)
            && exists b :: GrantedBy(db, org, b, account, principals, levels, permission)
                           && permission in ScopePermissions(db.roles[db.bindings[b].binding.roleID].scopeType)
  {
    var policy := PolicyOf(db, org);
    if Lists(policy, account, principals, levels, target, permission) {
      var level :| level in levels && ListsAt(policy, account, principals, level, target, permission);
      var binding :| binding in policy.BindingsAt(level)
                     && ListedBy(policy, binding, account, principals, target, permission);
      PolicyBinds(db, org, level, binding);
      PolicyHolds(db, org, binding.roleID, permission);
      var b :| b in db.bindings && db.bindings[b].orgID == org
               && (db.bindings[b].resource, db.bindings[b].binding) == (level, binding);
      assert GrantedBy(db, org, b, account, principals, levels, permission);
    }
    if b :| GrantedBy(db, org, b, account, principals, levels, permission)
            && permission in ScopePermissions(db.roles[db.bindings[b].binding.roleID].scopeType) {
      if permission in ResourcePermissions(target) {
        var level, binding := db.bindings[b].resource, db.bindings[b].binding;
        assert (level, binding) in BindingRows(db, org);
        PolicyBinds(db, org, level, binding);
        PolicyHolds(db, org, binding.roleID, permission);
        assert ListedBy(policy, binding, account, principals, target, permission);
        assert ListsAt(policy, account, principals, level, target, permission);
      }
    }
  }

  // ---------------------------------------------------------------- changes of roles

  /** The role with that name in the organization or workspace. */
  ghost predicate IsNamed(db: Tables, id: int, org: int, workspace: Option<int>, name: string) {
    id in db.roles && db.roles[id].orgID == org && db.roles[id].workspaceID == workspace && db.roles[id].name == name
  }

  /** Creating a role adds its permissions to a new role, or to the one that has the name already; every other
      row stays. It is refused for a permission its scope does not have, and for one listed twice or already held. */
  ghost predicate Created(db: Tables, org: int, workspace: Option<int>, name: string, description: string,
                          scopeType: string, permissions: seq<string>, after: Tables, r: Result<int, Error>)
  {
    && (r == Failure(InvalidScopePermission) <==> exists p :: p in permissions && p !in ScopePermissions(scopeType))
    && (r == Failure(UniqueViolation) <==>
          && (forall p | p in permissions :: p in ScopePermissions(scopeType))
          && (!NoRepeats(permissions)
              || exists id, p ::
                   IsNamed(db, id, org, workspace, name) && p in permissions && (id, p) in db.permissions))
    && (r.Failure? ==> after == db && r.error in {InvalidScopePermission, UniqueViolation})
    && (r.Success? ==>
          && IsNamed(after, r.value, org, workspace, name)
          && (forall rp :: rp in after.permissions <==>
                rp in db.permissions || (rp.0 == r.value && rp.1 in permissions))
          && after.bindings == db.bindings
          && if r.value in db.roles then after.roles == db.roles
             else after.roles == db.roles[r.value := Role(org, workspace, name, description, scopeType, false)])
  }

  lemma CreateRoleMeans(db: Tables, org: int, workspace: Option<int>, name: string, description: string,
                        scopeType: string, permissions: seq<string>)
    requires Sound(db)
    ensures match CreateRole(db, org, workspace, name, description, scopeType, permissions)
            case Success((after, id)) =>
              Created(db, org, workspace, name, description, scopeType, permissions, after, Success(id))
            case Failure(e) => Created(db, org, workspace, name, description, scopeType, permissions, db, Failure(e))
  {
    var (inserted, id) := InsertRole(db, org, workspace, name, description, scopeType, false);
    InsertRoleSound(db, org, workspace, name, description, scopeType, false);
    if forall p | p in permissions :: p in ScopePermissions(scopeType) {
      ConflictMeans(db, inserted, id, org, workspace, name, permissions);
    }
  }

  lemma ConflictMeans(db: Tables, inserted: Tables, id: int, org: int, workspace: Option<int>, name: string,
                      permissions: seq<string>)
    requires Sound(db) && Sound(inserted) && inserted.permissions == db.permissions
    requires IsNamed(inserted, id, org, workspace, name)
    requires forall k | k in db.roles :: k in inserted.roles
               && inserted.roles[k].(description := "") == db.roles[k].(description := "")
    requires id !in db.roles ==> forall k :: !IsNamed(db, k, org, workspace, name)
    ensures Conflicts(inserted, id, permissions) <==>
            !NoRepeats(permissions)
            || exists k, p :: IsNamed(db, k, org, workspace, name) && p in permissions && (k, p) in db.permissions
  {
    forall k | IsNamed(db, k, org, workspace, name) ensures k == id {
      assert inserted.roles[k].(description := "").name == name;
      assert Named(inserted.roles[k], inserted.roles[id].orgID, inserted.roles[id].workspaceID,
                   inserted.roles[id].name);
    }
    if p :| p in permissions && (id, p) in db.permissions {
      assert (id, p).0 in db.roles;
      assert IsNamed(db, id, org, workspace, name);
    }
  }

  /** A role is changed only by its own organization and never when built in; then it has the new name,
      description and permissions, each within its scope, and nothing else has changed. */
  ghost predicate Updated(db: Tables, role: int, org: int, name: string, description: string, permissions: seq<string>,
                          after: Tables, r: Result<(), Error>)
  {
    && (r == Failure(RoleNotFound) <==> role !in db.roles || db.roles[role].orgID != org)
    && (role in db.roles && db.roles[role].orgID == org ==>
          && (r == Failure(BuiltinRoleError) <==> db.roles[role].builtin)
          && (!db.roles[role].builtin ==>
                var fit := forall p | p in permissions :: p in ScopePermissions(db.roles[role].scopeType);
                && (r == Failure(InvalidScopePermission) <==> !fit)
                && (r == Failure(UniqueViolation) <==>
                      fit && (!NoRepeats(permissions)
                              || exists k :: k != role && IsNamed(db, k, org, db.roles[role].workspaceID, name)))
                && (r.Failure? ==> r.error in {InvalidScopePermission, UniqueViolation})))
    && (r.Failure? ==> after == db)
    && (r.Success? ==>
          && role in db.roles && after.bindings == db.bindings
          && after.roles == db.roles[role := db.roles[role].(name := name, description := description)]
          && forall rp :: rp in after.permissions <==>
               if rp.0 == role then rp.1 in permissions else rp in db.permissions)
  }

  lemma UpdateRoleMeans(db: Tables, role: int, org: int, name: string, description: string, permissions: seq<string>)
    requires Sound(db)
    ensures match UpdateRole(db, role, org, name, description, permissions)
            case Success(after) => Updated(db, role, org, name, description, permissions, after, Success(()))
            case Failure(e) => Updated(db, role, org, name, description, permissions, db, Failure(e))
  {
    if role in db.roles && db.roles[role].orgID == org && !db.roles[role].builtin {
      var workspace := db.roles[role].workspaceID;
      var holder := FindRole(db, org, workspace, name);
      if holder.Some? {
        assert IsNamed(db, holder.value, org, workspace, name);
        forall k | IsNamed(db, k, org, workspace, name) ensures k == holder.value {
          assert Named(db.roles[k], db.roles[holder.value].orgID, db.roles[holder.value].workspaceID,
                       db.roles[holder.value].name);
        }
      }
    }
  }

  /** A role is deleted only by its own organization, never when built in and never while it is bound; its
      permissions go with it, and nothing else. */
  ghost predicate Deleted(db: Tables, role: int, org: int, after: Tables, r: Result<(), Error>) {
    && (r == Failure(RoleNotFound) <==> role !in db.roles || db.roles[role].orgID != org)
    && (role in db.roles && db.roles[role].orgID == org ==>
          && (r == Failure(BuiltinRoleError) <==> db.roles[role].builtin)
          && (!db.roles[role].builtin ==>
                var here := set b | b in db.bindings && db.bindings[b].binding.roleID == role
                                    && db.bindings[b].orgID == org;
                && (here != {} ==> r == Failure(RoleInUse(|here|)))
                && (here == {} ==>
                      && (r.Success? <==> forall b | b in db.bindings :: db.bindings[b].binding.roleID != role)
                      && (r.Failure? ==> r.error == ForeignKeyViolation))))
    && (r.Failure? ==> after == db)
    && (r.Success? ==>
          && after.bindings == db.bindings && after.roles == db.roles - {role}
          && forall rp :: rp in after.permissions <==> rp in db.permissions && rp.0 != role)
  }

  lemma DeleteRoleMeans(db: Tables, role: int, org: int)
    ensures match DeleteRole(db, role, org)
            case Success(after) => Deleted(db, role, org, after, Success(()))
            case Failure(e) => Deleted(db, role, org, db, Failure(e))
  {
    var here := set b | b in db.bindings && db.bindings[b].binding.roleID == role && db.bindings[b].orgID == org;
    assert BindingCount(db, role, org) == |here|;
  }

  // ---------------------------------------------------------------- changes of bindings

  /** The rows that bind the role to the subject at the resource. */
  ghost predicate IsBound(db: Tables, b: int, binding: Binding, resource: ResourceKey) {
    b in db.bindings && db.bindings[b].binding == binding && db.bindings[b].resource == resource
  }

  /** Binding is refused only for a role that does not exist and is not bound like this already; it adds one
      row, or none when there is one. */
  ghost predicate Bound(db: Tables, org: int, binding: Binding, resource: ResourceKey, after: Tables,
                        r: Result<(), Error>)
  {
    var already := exists b :: IsBound(db, b, binding, resource);
    && (r.Success? <==> already || binding.roleID in db.roles)
    && (r.Failure? ==> r.error == ForeignKeyViolation && after == db)
    && (r.Success? ==>
          && after.roles == db.roles && after.permissions == db.permissions
          && if already then after == db
             else exists b ::
                    b !in db.bindings && after.bindings == db.bindings[b := BindingRow(org, binding, resource)])
  }

  lemma BindMeans(db: Tables, org: int, binding: Binding, resource: ResourceKey)
    requires Sound(db)
    ensures match InsertBinding(db, BindingRow(org, binding, resource))
            case Success(after) => Bound(db, org, binding, resource, after, Success(()))
            case Failure(e) => Bound(db, org, binding, resource, db, Failure(e))
  {
    if exists b :: IsBound(db, b, binding, resource) {
    } else {
      assert forall b | b in db.bindings :: !IsBound(db, b, binding, resource);
      assert db.nextBindingID !in db.bindings;
    }
  }

  // ---------------------------------------------------------------- seeding

  /** Whom a builtin role is bound to: the place's members, or the account that makes the place. */
  ghost function SeededBinding(at: SeedPlace, role: BuiltinRole, id: int): Binding {
    if role.boundTo == Members then Binding(id, at.members, at.resource.id) else Binding(id, "account", at.creator)
  }

  /** The role is there under its name, with all its permissions, and bound at the place to whom it should be. */
  ghost predicate SeededAs(db: Tables, at: SeedPlace, role: BuiltinRole, id: int) {
    && IsNamed(db, id, at.org, at.workspace, role.name)
    && (forall p | p in role.permissions :: (id, p) in db.permissions)
    && (role.boundTo != Nobody ==>
          exists b ::
            b in db.bindings && db.bindings[b] == BindingRow(at.org, SeededBinding(at, role, id), at.resource))
  }

  /** Rows only come: the role's own, its permissions, and at most its one binding. */
  ghost predicate SeedAdds(db: Tables, at: SeedPlace, role: BuiltinRole, id: int, after: Tables) {
    && RoleAdded(db, at, role, id, after)
    && if role.boundTo == Nobody then after.bindings == db.bindings
       else BindingsGrow(db, after, BindingRow(at.org, SeededBinding(at, role, id), at.resource))
  }

  ghost predicate RoleAdded(db: Tables, at: SeedPlace, role: BuiltinRole, id: int, after: Tables) {
    && IsNamed(after, id, at.org, at.workspace, role.name)
    && (if id in db.roles then
          && after.roles.Keys == db.roles.Keys
          && forall k | k in db.roles ::
               after.roles[k] == if k == id && role.description != "" then db.roles[k].(description := role.description)
                                 else db.roles[k]
        else after.roles == db.roles[id := Role(at.org, at.workspace, role.name, role.description, at.scopeType, true)])
    && (forall rp :: rp in after.permissions <==> rp in db.permissions || (rp.0 == id && rp.1 in role.permissions))
  }

  /** The old binding rows and, unless one binds the same already, the new one. */
  ghost predicate BindingsGrow(db: Tables, after: Tables, row: BindingRow) {
    && (forall b | b in db.bindings :: b in after.bindings && after.bindings[b] == db.bindings[b])
    && (forall b | b in after.bindings && b !in db.bindings :: after.bindings[b] == row)
    && exists b :: IsBound(after, b, row.binding, row.resource)
  }

  lemma FilledMeans(db: Tables, at: SeedPlace, role: BuiltinRole)
    requires Sound(db)
    ensures var (filled, id) := Filled(db, at, role);
            && Sound(filled) && RoleAdded(db, at, role, id, filled) && filled.bindings == db.bindings
            && filled.nextBindingID == db.nextBindingID
            && (id in db.roles ==> IsNamed(db, id, at.org, at.workspace, role.name))
  {
    InsertRoleSound(db, at.org, at.workspace, role.name, role.description, at.scopeType, true);
  }

  lemma SeedRoleMeans(db: Tables, at: SeedPlace, role: BuiltinRole) returns (id: int)
    requires Sound(db)
    ensures SeedAdds(db, at, role, id, SeedRole(db, at, role)) && Sound(SeedRole(db, at, role))
    ensures id !in db.roles ==> SeededAs(SeedRole(db, at, role), at, role, id)
    ensures id in db.roles ==> IsNamed(db, id, at.org, at.workspace, role.name)
  {
    var filled := Filled(db, at, role).0;
    id := Filled(db, at, role).1;
    FilledMeans(db, at, role);
    SeedRoleSound(db, at, role);
    if role.boundTo != Nobody {
      BindingAdded(filled, at.org, SeededBinding(at, role, id), at.resource);
      if id !in db.roles {
        NewRoleIsUnbound(db, id);
      }
    }
  }

  lemma NewRoleIsUnbound(db: Tables, id: int)
    requires Sound(db) && id !in db.roles
    ensures forall b | b in db.bindings :: db.bindings[b].binding.roleID != id
  {
  }

  lemma BindingAdded(db: Tables, org: int, binding: Binding, resource: ResourceKey)
    requires Sound(db) && binding.roleID in db.roles
    ensures var r := InsertBinding(db, BindingRow(org, binding, resource));
            && r.Success? && r.value.roles == db.roles && r.value.permissions == db.permissions
            && BindingsGrow(db, r.value, BindingRow(org, binding, resource))
            && ((forall b :: !IsBound(db, b, binding, resource)) ==>
                  exists b :: b in r.value.bindings && r.value.bindings[b] == BindingRow(org, binding, resource))
  {
    var after := InsertBinding(db, BindingRow(org, binding, resource)).value;
    BindMeans(db, org, binding, resource);
    if b :| IsBound(db, b, binding, resource) {
      assert IsBound(after, b, binding, resource);
    } else {
      assert after.bindings[db.nextBindingID] == BindingRow(org, binding, resource);
      assert IsBound(after, db.nextBindingID, binding, resource);
    }
  }

  lemma SeedingKeepsSeeded(db: Tables, at: SeedPlace, role: BuiltinRole, other: BuiltinRole, id: int)
    requires Sound(db) && SeededAs(db, at, role, id)
    ensures SeededAs(SeedRole(db, at, other), at, role, id)
  {
    var made := SeedRoleMeans(db, at, other);
    if role.boundTo != Nobody {
      var b :| b in db.bindings && db.bindings[b] == BindingRow(at.org, SeededBinding(at, role, id), at.resource);
      assert b in SeedRole(db, at, other).bindings;
    }
  }

  lemma {:induction false} SeededStays(db: Tables, at: SeedPlace, roles: seq<BuiltinRole>, role: BuiltinRole, id: int)
    requires Sound(db) && SeededAs(db, at, role, id)
    ensures SeededAs(SeedRoles(db, at, roles), at, role, id)
    decreases |roles|
  {
    if roles != [] {
      SeedingKeepsSeeded(db, at, role, roles[0], id);
      SeedRoleSound(db, at, roles[0]);
      SeededStays(SeedRole(db, at, roles[0]), at, roles[1..], role, id);
    }
  }

  ghost predicate NameFree(db: Tables, at: SeedPlace, name: string) {
    forall id :: !IsNamed(db, id, at.org, at.workspace, name)
  }

  lemma NameStaysFree(db: Tables, at: SeedPlace, role: BuiltinRole, name: string)
    requires Sound(db) && NameFree(db, at, name) && name != role.name
    ensures NameFree(SeedRole(db, at, role), at, name)
  {
    var made := SeedRoleMeans(db, at, role);
    forall id ensures !IsNamed(SeedRole(db, at, role), id, at.org, at.workspace, name) {
      assert !IsNamed(db, id, at.org, at.workspace, name);
    }
  }

  /** Where the names are free every builtin role is made, filled and bound as it should be. */
  lemma {:induction false} AllSeeded(db: Tables, at: SeedPlace, roles: seq<BuiltinRole>, k: nat) returns (id: int)
    requires Sound(db) && DistinctNames(roles) && k < |roles|
    requires forall r | r in roles :: NameFree(db, at, r.name)
    ensures SeededAs(SeedRoles(db, at, roles), at, roles[k], id)
    decreases |roles|
  {
    var after, rest := SeedRole(db, at, roles[0]), roles[1..];
    var made := SeedRoleMeans(db, at, roles[0]);
    assert roles == [roles[0]] + rest && roles[0] in roles;
    if k == 0 {
      id := made;
      SeededStays(after, at, rest, roles[0], id);
    } else {
      forall r | r in rest ensures NameFree(after, at, r.name) {
        var j :| 0 <= j < |rest| && rest[j] == r;
        assert roles[j + 1] == r && r in roles;
        NameStaysFree(db, at, roles[0], r.name);
      }
      id := AllSeeded(after, at, rest, k - 1);
    }
  }

  /** Seeding takes nothing away, and binds nobody but the place's members and the account that makes it. */
  lemma {:induction false} SeedingBindsOnly(db: Tables, at: SeedPlace, roles: seq<BuiltinRole>)
    requires Sound(db)
    ensures var after := SeedRoles(db, at, roles);
            && db.permissions <= after.permissions
            && (forall b | b in db.bindings :: b in after.bindings && after.bindings[b] == db.bindings[b])
            && forall b | b in after.bindings && b !in db.bindings ::
                 && after.bindings[b].orgID == at.org && after.bindings[b].resource == at.resource
                 && var binding := after.bindings[b].binding;
                    || (binding.subjectType == "account" && binding.subjectID == at.creator)
                    || (binding.subjectType == at.members && binding.subjectID == at.resource.id)
    decreases |roles|
  {
    if roles != [] {
      var id := SeedRoleMeans(db, at, roles[0]);
      SeedingBindsOnly(SeedRole(db, at, roles[0]), at, roles[1..]);
    }
  }

  /** A seeded role gives its permissions to everyone its binding stands for, at the place. */
  lemma SeededGrants(db: Tables, at: SeedPlace, role: BuiltinRole, id: int, account: int, principals: Principals,
                     levels: set<ResourceKey>, permission: string)
    requires Sound(db) && SeededAs(db, at, role, id) && role.boundTo != Nobody
    requires permission in role.permissions && at.resource in levels
    requires StandsFor(SeededBinding(at, role, id).subjectType, SeededBinding(at, role, id).subjectID, account,
                       principals)
    ensures Grants(PolicyOf(db, at.org), account, principals, levels, permission)
  {
    var b :| b in db.bindings && db.bindings[b] == BindingRow(at.org, SeededBinding(at, role, id), at.resource);
    assert GrantedBy(db, at.org, b, account, principals, levels, permission);
    GrantsMeans(db, at.org, account, principals, levels, permission);
  }
}
