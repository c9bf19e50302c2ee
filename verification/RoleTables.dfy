/** The role, permission and binding tables, the statements that change them, and the policy they amount to. */
module RoleTables {
  import opened Wrappers
  import opened Ancestry
  import opened Permissions
  import opened Policy

  datatype Role = Role(orgID: int, workspaceID: Option<int>, name: string, description: string, scopeType: string,
                       builtin: bool)

  datatype BindingRow = BindingRow(orgID: int, binding: Binding, resource: ResourceKey)

  datatype Tables = Tables(
    roles: map<int, Role>, permissions: set<(int, string)>, bindings: map<int, BindingRow>, nextRoleID: int,
    nextBindingID: int)

  datatype Error =
    | InvalidScopePermission | RoleNotFound | BuiltinRoleError | RoleInUse(bindings: nat)
    | UniqueViolation | ForeignKeyViolation

  predicate Named(r: Role, org: int, workspace: Option<int>, name: string) {
    r.orgID == org && r.workspaceID == workspace && r.name == name
  }

  /** What the schema enforces: foreign keys, unique role names per organization or workspace, fresh ids. */
  ghost predicate Sound(db: Tables) {
    && (forall rp | rp in db.permissions :: rp.0 in db.roles)
    && (forall b | b in db.bindings :: db.bindings[b].binding.roleID in db.roles && b < db.nextBindingID)
    && (forall r | r in db.roles :: r < db.nextRoleID)
    && UniqueNames(db)
  }

  ghost predicate UniqueNames(db: Tables) {
    forall a, b | a in db.roles && b in db.roles
                  && Named(db.roles[a], db.roles[b].orgID, db.roles[b].workspaceID, db.roles[b].name) :: a == b
  }

  function FindRole(db: Tables, org: int, workspace: Option<int>, name: string): (found: Option<int>)
    requires UniqueNames(db)
    ensures found.Some? ==> found.value in db.roles && Named(db.roles[found.value], org, workspace, name)
    ensures found.None? ==> forall id | id in db.roles :: !Named(db.roles[id], org, workspace, name)
  {
    if exists id | id in db.roles :: Named(db.roles[id], org, workspace, name) then
      var id :| id in db.roles && Named(db.roles[id], org, workspace, name);
      Some(id)
    else None
  }

  // ---------------------------------------------------------------- statements

  /** Inserts a role, or finds the one that already has the name. */
  function InsertRole(db: Tables, org: int, workspace: Option<int>, name: string, description: string,
                      scopeType: string, builtin: bool): (Tables, int)
    requires UniqueNames(db)
  {
    match FindRole(db, org, workspace, name)
    case None =>
      (db.(roles := db.roles[db.nextRoleID := Role(org, workspace, name, description, scopeType, builtin)],
           nextRoleID := db.nextRoleID + 1), db.nextRoleID)
    case Some(id) =>
      var described := db.roles[id := db.roles[id].(description := description)];
      (if builtin && description != "" then db.(roles := described) else db, id)
  }

  predicate Conflicts(db: Tables, role: int, permissions: seq<string>) {
    || (exists i, j | 0 <= i < j < |permissions| :: permissions[i] == permissions[j])
    || (exists p | p in permissions :: (role, p) in db.permissions)
  }

  function InsertPermissions(db: Tables, role: int, permissions: seq<string>, ignoreConflicts: bool)
    : Result<Tables, Error>
  {
    if !ignoreConflicts && Conflicts(db, role, permissions) then Failure(UniqueViolation)
    else Success(db.(permissions := db.permissions + set p | p in permissions :: (role, p)))
  }

  function InsertBinding(db: Tables, row: BindingRow): Result<Tables, Error> {
    if exists b | b in db.bindings :: db.bindings[b].binding == row.binding
        && db.bindings[b].resource == row.resource then
      Success(db)
    else if row.binding.roleID !in db.roles then Failure(ForeignKeyViolation)
    else Success(db.(bindings := db.bindings[db.nextBindingID := row], nextBindingID := db.nextBindingID + 1))
  }

  // ---------------------------------------------------------------- operations on roles

  predicate AllValid(permissions: seq<string>, scopeType: string) {
    forall p | p in permissions :: ValidForScope(p, scopeType)
  }

  function CreateRole(
    db: Tables, org: int, workspace: Option<int>, name: string, description: string, scopeType: string,
    permissions: seq<string>)
    : Result<(Tables, int), Error>
    requires UniqueNames(db)
  {
    if !AllValid(permissions, scopeType) then Failure(InvalidScopePermission)
    else
      var (inserted, id) := InsertRole(db, org, workspace, name, description, scopeType, false);
      var filled :- InsertPermissions(inserted, id, permissions, false);
      Success((filled, id))
  }

  function UpdateRole(db: Tables, role: int, org: int, name: string, description: string,
                      permissions: seq<string>): Result<Tables, Error>
    requires UniqueNames(db)
  {
    if role !in db.roles || db.roles[role].orgID != org then Failure(RoleNotFound)
    else if db.roles[role].builtin then Failure(BuiltinRoleError)
    else if !AllValid(permissions, db.roles[role].scopeType) then Failure(InvalidScopePermission)
    else
      var holder := FindRole(db, org, db.roles[role].workspaceID, name);
      if holder.Some? && holder.value != role then Failure(UniqueViolation)
      else
        var cleared := db.(roles := db.roles[role := db.roles[role].(name := name, description := description)],
                           permissions := set rp | rp in db.permissions && rp.0 != role);
        InsertPermissions(cleared, role, permissions, false)
  }

  function BindingCount(db: Tables, role: int, org: int): nat {
    |set b | b in db.bindings && db.bindings[b].binding.roleID == role && db.bindings[b].orgID == org|
  }

  function DeleteRole(db: Tables, role: int, org: int): Result<Tables, Error> {
    if role !in db.roles || db.roles[role].orgID != org then Failure(RoleNotFound)
    else if db.roles[role].builtin then Failure(BuiltinRoleError)
    else if BindingCount(db, role, org) > 0 then Failure(RoleInUse(BindingCount(db, role, org)))
    else if exists b | b in db.bindings :: db.bindings[b].binding.roleID == role then Failure(ForeignKeyViolation)
    else Success(db.(roles := db.roles - {role}, permissions := set rp | rp in db.permissions && rp.0 != role))
  }

  function UnbindRole(db: Tables, binding: int, org: int): Tables {
    if binding in db.bindings && db.bindings[binding].orgID == org then db.(bindings := db.bindings - {binding}) else db
  }

  /** Where a set of builtin roles is seeded, and whom they are bound to. */
  datatype SeedPlace = SeedPlace(org: int, workspace: Option<int>, scopeType: string, resource: ResourceKey,
                                 members: string, creator: int)

  /** The role with its permissions, before it is bound. */
  function Filled(db: Tables, at: SeedPlace, role: BuiltinRole): (Tables, int)
    requires UniqueNames(db)
  {
    var (inserted, id) := InsertRole(db, at.org, at.workspace, role.name, role.description, at.scopeType, true);
    (inserted.(permissions := inserted.permissions + set p | p in role.permissions :: (id, p)), id)
  }

  function SeedRole(db: Tables, at: SeedPlace, role: BuiltinRole): Tables
    requires UniqueNames(db)
  {
    var (filled, id) := Filled(db, at, role);
    var binding := if role.boundTo == Members then Binding(id, at.members, at.resource.id)
        else Binding(id, ACCOUNT, at.creator);
    if role.boundTo == Nobody then filled
    else
      var bound := InsertBinding(filled, BindingRow(at.org, binding, at.resource));
      if bound.Success? then bound.value else filled
  }

  lemma InsertRoleSound(db: Tables, org: int, workspace: Option<int>, name: string, description: string,
                        scopeType: string, builtin: bool)
    requires Sound(db)
    ensures var (after, id) := InsertRole(db, org, workspace, name, description, scopeType, builtin);
            && Sound(after) && id in after.roles && Named(after.roles[id], org, workspace, name)
            && after.permissions == db.permissions && after.bindings == db.bindings
            && (forall r | r in db.roles ::
                  r in after.roles && after.roles[r].(description := "") == db.roles[r].(description := ""))
            && (forall r | r in after.roles && r !in db.roles ::
                  r == id && after.roles[r] == Role(org, workspace, name, description, scopeType, builtin))
  {
  }

  lemma SeedRoleSound(db: Tables, at: SeedPlace, role: BuiltinRole)
    requires Sound(db)
    ensures Sound(SeedRole(db, at, role))
  {
    InsertRoleSound(db, at.org, at.workspace, role.name, role.description, at.scopeType, true);
  }

  function SeedRoles(db: Tables, at: SeedPlace, roles: seq<BuiltinRole>): (after: Tables)
    requires Sound(db)
    ensures Sound(after)
    decreases |roles|
  {
    if roles == [] then db
    else
      SeedRoleSound(db, at, roles[0]);
      SeedRoles(SeedRole(db, at, roles[0]), at, roles[1..])
  }

  // ---------------------------------------------------------------- the policy the tables amount to

  /** The rows the loader reads for an organization: `role_permissions` joined with `roles`, and `role_bindings`. */
  function PermissionRows(db: Tables, org: int): set<(int, string)> {
    set rp | rp in db.permissions && rp.0 in db.roles && db.roles[rp.0].orgID == org
  }

  function BindingRows(db: Tables, org: int): set<(ResourceKey, Binding)> {
    set b | b in db.bindings && db.bindings[b].orgID == org :: (db.bindings[b].resource, db.bindings[b].binding)
  }

  function RoleIDs(rows: set<(int, string)>): set<int> {
    set row | row in rows :: row.0
  }

  function BoundKeys(rows: set<(ResourceKey, Binding)>): set<ResourceKey> {
    set row | row in rows :: row.0
  }

  function PermissionsIn(rows: set<(int, string)>, role: int): set<string> {
    set row | row in rows && row.0 == role :: row.1
  }

  function BindingsIn(rows: set<(ResourceKey, Binding)>, key: ResourceKey): set<Binding> {
    set row | row in rows && row.0 == key :: row.1
  }

  /** The rows grouped the way the loader's loops group them. */
  function Grouped(roles: map<int, Role>, permissionRows: set<(int, string)>,
                   bindingRows: set<(ResourceKey, Binding)>)
    : OrgPolicy
  {
    OrgPolicy(map r | r in RoleIDs(permissionRows) :: PermissionsIn(permissionRows, r),
              map r | r in RoleIDs(permissionRows) && r in roles :: roles[r].scopeType,
              map k | k in BoundKeys(bindingRows) :: BindingsIn(bindingRows, k))
  }

  function PolicyOf(db: Tables, org: int): OrgPolicy {
    Grouped(db.roles, PermissionRows(db, org), BindingRows(db, org))
  }

  /** A role holds in the policy what the table says, if it is one of the organization's. */
  lemma PolicyHolds(db: Tables, org: int, role: int, p: string)
    ensures p in PolicyOf(db, org).PermissionsOf(role) <==> (role, p) in PermissionRows(db, org)
    ensures (role, p) in PermissionRows(db, org) ==> PolicyOf(db, org).ScopeOf(role) == db.roles[role].scopeType
  {
    var rows := PermissionRows(db, org);
    if (role, p) in rows {
      assert role in RoleIDs(rows) && p in PermissionsIn(rows, role);
    }
  }

  lemma PolicyBinds(db: Tables, org: int, key: ResourceKey, b: Binding)
    ensures b in PolicyOf(db, org).BindingsAt(key) <==> (key, b) in BindingRows(db, org)
  {
    var rows := BindingRows(db, org);
    if (key, b) in rows {
      assert key in BoundKeys(rows) && b in BindingsIn(rows, key);
    }
  }

  /** Two databases that agree on an organization's rows amount to the same policy for it. */
  lemma SamePolicy(a: Tables, b: Tables, org: int)
    requires PermissionRows(a, org) == PermissionRows(b, org) && BindingRows(a, org) == BindingRows(b, org)
    requires forall r | r in a.roles && a.roles[r].orgID == org :: r in b.roles
               && b.roles[r].scopeType == a.roles[r].scopeType
    ensures PolicyOf(a, org) == PolicyOf(b, org)
  {
    var rows := PermissionRows(a, org);
    forall r | r in RoleIDs(rows) ensures r in a.roles && r in b.roles && b.roles[r].scopeType == a.roles[r].scopeType {
      var row :| row in rows && row.0 == r;
    }
  }

  // ---------------------------------------------------------------- roles hold what their scope allows

  ghost predicate ScopesValid(db: Tables) {
    forall rp | rp in db.permissions :: rp.0 in db.roles && ValidForScope(rp.1, db.roles[rp.0].scopeType)
  }

  lemma ScopesValidRespected(db: Tables, org: int)
    requires ScopesValid(db)
    ensures ScopesRespected(PolicyOf(db, org))
  {
    var policy, rows := PolicyOf(db, org), PermissionRows(db, org);
    forall role, p, target | p in policy.PermissionsOf(role) && ValidForResource(p, target)
      ensures ValidForScope(p, policy.ScopeOf(role))
    {
      var row :| row in rows && row.0 == role && row.1 == p;
      assert row.0 in RoleIDs(rows);
    }
  }

  /** Creating a role checks the permissions against the scope asked for, but when the name is taken it
      adds them to the role that has it. The store stays valid exactly when the name was free or the
      permissions also fit the scope that role was stored with. */
  lemma CreateRoleKeepsScopes(
    db: Tables, org: int, workspace: Option<int>, name: string, description: string, scopeType: string,
    permissions: seq<string>)
    requires Sound(db) && ScopesValid(db)
    requires CreateRole(db, org, workspace, name, description, scopeType, permissions).Success?
    ensures ScopesValid(CreateRole(db, org, workspace, name, description, scopeType, permissions).value.0) <==>
            (FindRole(db, org, workspace, name).None?
             || AllValid(permissions, db.roles[FindRole(db, org, workspace, name).value].scopeType))
  {
    var (after, id) := CreateRole(db, org, workspace, name, description, scopeType, permissions).value;
    InsertRoleSound(db, org, workspace, name, description, scopeType, false);
    forall p | p in permissions ensures (id, p) in after.permissions {}
    if FindRole(db, org, workspace, name).None? {
      forall rp | rp in after.permissions ensures ValidForScope(rp.1, after.roles[rp.0].scopeType) {
        assert rp in db.permissions || (rp.0 == id && rp.1 in permissions);
      }
    } else if AllValid(permissions, db.roles[id].scopeType) {
      forall rp | rp in after.permissions ensures ValidForScope(rp.1, after.roles[rp.0].scopeType) {
        assert rp in db.permissions || (rp.0 == id && rp.1 in permissions);
      }
    } else {
      var p :| p in permissions && !ValidForScope(p, db.roles[id].scopeType);
      assert (id, p) in after.permissions;
    }
  }

  /** The role "Analyst" of workspace 5, stored for connections, and bound at the workspace. */
  const ANALYST := Role(1, Some(5), "Analyst", "", "connection", false)
  const ANALYST_BINDING := Binding(1, ACCOUNT, 7)
  const ANALYST_TABLES := Tables(
    map[1 := ANALYST], {(1, CONN_DQL)}, map[1 := BindingRow(1, ANALYST_BINDING, ResourceKey("workspace", 5))], 2, 2)

  /** "Creating" it again, this time for workspaces. */
  function AnalystAgain(): Result<(Tables, int), Error>
    requires UniqueNames(ANALYST_TABLES)
  {
    CreateRole(ANALYST_TABLES, 1, Some(5), "Analyst", "", "workspace", [WS_WRITE])
  }

  lemma CreateRoleCanWidenAScope()
    ensures Sound(ANALYST_TABLES) && ScopesValid(ANALYST_TABLES)
    ensures AnalystAgain().Success?
    ensures var after := AnalystAgain().value.0;
            && after == ANALYST_TABLES.(permissions := {(1, CONN_DQL), (1, WS_WRITE)}) && !ScopesValid(after)
  {
    var db := ANALYST_TABLES;
    assert Named(db.roles[1], 1, Some(5), "Analyst");
    assert FindRole(db, 1, Some(5), "Analyst") == Some(1);
    assert WS_WRITE in [WS_WRITE] && !ValidForScope(WS_WRITE, "connection") && ValidForScope(WS_WRITE, "workspace");
    assert (1, WS_WRITE) !in db.permissions;
    var after := AnalystAgain().value.0;
    assert (set p | p in [WS_WRITE] :: (1, p)) == {(1, WS_WRITE)};
    assert (1, WS_WRITE) in after.permissions;
  }

  /** After that the account may write to the workspace, but the listing of what it may do there does not say so. */
  lemma WidenedRoleIsNotListed()
    ensures UniqueNames(ANALYST_TABLES) && AnalystAgain().Success?
    ensures var policy, levels := PolicyOf(AnalystAgain().value.0, 1), {ResourceKey("workspace", 5)};
            && Grants(policy, 7, Principals(1, [], [], false), levels, WS_WRITE)
               && ValidForResource(WS_WRITE, "workspace")
            && !Lists(policy, 7, Principals(1, [], [], false), levels, "workspace", WS_WRITE)
  {
    CreateRoleCanWidenAScope();
    var db, key, nobody := AnalystAgain().value.0, ResourceKey("workspace", 5), Principals(1, [], [], false);
    var policy := PolicyOf(db, 1);
    PolicyHolds(db, 1, 1, WS_WRITE);
    AnalystIsBound(db);
    assert !ValidForScope(WS_WRITE, "connection");
    assert GrantsAt(policy, 7, nobody, key, WS_WRITE);
    assert !ListsAt(policy, 7, nobody, key, "workspace", WS_WRITE);
  }

  lemma AnalystIsBound(db: Tables)
    requires db.bindings == ANALYST_TABLES.bindings
    ensures var here := PolicyOf(db, 1).BindingsAt(ResourceKey("workspace", 5));
            ANALYST_BINDING in here && forall b | b in here :: b == ANALYST_BINDING
  {
    var key := ResourceKey("workspace", 5);
    var rows := BindingRows(db, 1);
    assert 1 in db.bindings && (key, ANALYST_BINDING) in rows;
    PolicyBinds(db, 1, key, ANALYST_BINDING);
    forall b | b in PolicyOf(db, 1).BindingsAt(key) ensures b == ANALYST_BINDING {
      PolicyBinds(db, 1, key, b);
    }
  }

  lemma UpdateRoleKeepsScopes(db: Tables, role: int, org: int, name: string, description: string,
                              permissions: seq<string>)
    requires Sound(db) && ScopesValid(db) && UpdateRole(db, role, org, name, description, permissions).Success?
    ensures ScopesValid(UpdateRole(db, role, org, name, description, permissions).value)
  {
  }

  /** Seeding keeps the store valid exactly when each builtin name is free or already belongs to a role
      whose stored scope allows the builtin permissions. */
  lemma SeedRoleKeepsScopes(db: Tables, at: SeedPlace, role: BuiltinRole)
    requires Sound(db) && ScopesValid(db) && AllValid(role.permissions, at.scopeType)
    ensures ScopesValid(SeedRole(db, at, role)) <==>
            (FindRole(db, at.org, at.workspace, role.name).None?
             || AllValid(role.permissions, db.roles[FindRole(db, at.org, at.workspace, role.name).value].scopeType))
  {
    var (inserted, id) := InsertRole(db, at.org, at.workspace, role.name, role.description, at.scopeType, true);
    InsertRoleSound(db, at.org, at.workspace, role.name, role.description, at.scopeType, true);
    var after := SeedRole(db, at, role);
    assert after.roles == inserted.roles && after.permissions == inserted.permissions + set p | p in role.permissions ::
           (id, p);
    if !AllValid(role.permissions, inserted.roles[id].scopeType) {
      var p :| p in role.permissions && !ValidForScope(p, inserted.roles[id].scopeType);
      assert (id, p) in after.permissions;
    }
  }

  /** The name is free in the place to be seeded, or belongs to a role whose scope allows the permissions. */
  predicate NameFits(db: Tables, at: SeedPlace, role: BuiltinRole)
    requires UniqueNames(db)
  {
    var holder := FindRole(db, at.org, at.workspace, role.name);
    holder.None? || AllValid(role.permissions, db.roles[holder.value].scopeType)
  }

  lemma SeedingOthersKeepsFit(db: Tables, at: SeedPlace, role: BuiltinRole, other: BuiltinRole)
    requires Sound(db) && Sound(SeedRole(db, at, role)) && role.name != other.name
    ensures NameFits(SeedRole(db, at, role), at, other) <==> NameFits(db, at, other)
  {
    var after := SeedRole(db, at, role);
    InsertRoleSound(db, at.org, at.workspace, role.name, role.description, at.scopeType, true);
    assert after.roles == InsertRole(db, at.org, at.workspace, role.name, role.description, at.scopeType, true).0.roles;
    var was, now := FindRole(db, at.org, at.workspace, other.name), FindRole(after, at.org, at.workspace, other.name);
    if was.Some? {
      assert Named(after.roles[was.value], at.org, at.workspace, other.name);
      assert now == was;
    }
  }

  /** Seeding changes no stored scope and takes no permission away. */
  lemma SeedRoleGrows(db: Tables, at: SeedPlace, role: BuiltinRole)
    requires Sound(db)
    ensures var after := SeedRole(db, at, role);
            && db.permissions <= after.permissions
            && forall r | r in db.roles :: r in after.roles && after.roles[r].scopeType == db.roles[r].scopeType
  {
    InsertRoleSound(db, at.org, at.workspace, role.name, role.description, at.scopeType, true);
    var after := SeedRole(db, at, role);
    assert after.roles == InsertRole(db, at.org, at.workspace, role.name, role.description, at.scopeType, true).0.roles;
    forall r | r in db.roles ensures r in after.roles && after.roles[r].scopeType == db.roles[r].scopeType {
      assert after.roles[r].(description := "").scopeType == db.roles[r].(description := "").scopeType;
    }
  }

  lemma SeedingKeepsViolations(db: Tables, at: SeedPlace, role: BuiltinRole)
    requires Sound(db) && !ScopesValid(db)
    ensures !ScopesValid(SeedRole(db, at, role))
  {
    SeedRoleGrows(db, at, role);
    ViolationStays(db, SeedRole(db, at, role));
  }

  lemma ViolationStays(db: Tables, after: Tables)
    requires Sound(db) && !ScopesValid(db) && db.permissions <= after.permissions
    requires forall r | r in db.roles :: r in after.roles && after.roles[r].scopeType == db.roles[r].scopeType
    ensures !ScopesValid(after)
  {
    if ScopesValid(after) {
      forall rp | rp in db.permissions ensures rp.0 in db.roles && ValidForScope(rp.1, db.roles[rp.0].scopeType) {
        FitsAsBefore(db, after, rp.0, rp.1);
      }
    }
  }

  lemma FitsAsBefore(db: Tables, after: Tables, role: int, p: string)
    requires Sound(db) && ScopesValid(after) && (role, p) in db.permissions && db.permissions <= after.permissions
    requires role in db.roles ==> role in after.roles && after.roles[role].scopeType == db.roles[role].scopeType
    ensures role in db.roles && ValidForScope(p, db.roles[role].scopeType)
  {
    var rp := (role, p);
    assert rp in after.permissions && rp.0 in db.roles && ValidForScope(rp.1, after.roles[rp.0].scopeType);
  }

  lemma {:induction false} ScopesStayInvalid(db: Tables, at: SeedPlace, roles: seq<BuiltinRole>)
    requires Sound(db) && !ScopesValid(db)
    ensures !ScopesValid(SeedRoles(db, at, roles))
    decreases |roles|
  {
    if roles != [] {
      var after := SeedRole(db, at, roles[0]);
      SeedRoleSound(db, at, roles[0]);
      SeedingKeepsViolations(db, at, roles[0]);
      ScopesStayInvalid(after, at, roles[1..]);
    }
  }

  ghost predicate DistinctNames(roles: seq<BuiltinRole>) {
    forall i, j | 0 <= i < j < |roles| :: roles[i].name != roles[j].name
  }

  /** Seeding keeps every role within its scope exactly when each builtin name is free or already belongs
      to a role whose stored scope allows the builtin permissions. */
  lemma {:induction false} SeedingKeepsScopes(db: Tables, at: SeedPlace, roles: seq<BuiltinRole>)
    requires Sound(db) && ScopesValid(db) && DistinctNames(roles)
    requires forall r | r in roles :: AllValid(r.permissions, at.scopeType)
    ensures ScopesValid(SeedRoles(db, at, roles)) <==> forall r | r in roles :: NameFits(db, at, r)
    decreases |roles|
  {
    if roles != [] {
      var role, rest := roles[0], roles[1..];
      var after := SeedRole(db, at, role);
      SeedRoleSound(db, at, role);
      assert roles == [role] + rest;
      SeedRoleKeepsScopes(db, at, role);
      if NameFits(db, at, role) {
        forall r | r in rest ensures NameFits(after, at, r) <==> NameFits(db, at, r) {
          SeedingOthersKeepsFit(db, at, role, r);
        }
        SeedingKeepsScopes(after, at, rest);
      } else {
        ScopesStayInvalid(after, at, rest);
      }
    }
  }
}
