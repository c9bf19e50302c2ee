/** The permission tables: what a role of each scope may contain, and what is meaningful on each resource. */
module Permissions {

  const ORG_READ := "org:read"
  const ORG_WRITE := "org:write"
  const ORG_DELETE := "org:delete"
  const ORG_INVITE := "org:invite"
  const ORG_TRANSFER_OWNERSHIP := "org:transfer_ownership"
  const WS_READ := "ws:read"
  const WS_WRITE := "ws:write"
  const WS_CREATE := "ws:create"
  const WS_DELETE := "ws:delete"
  const WSFILE_READ := "wsfile:read"
  const WSFILE_CREATE := "wsfile:create"
  const WSFILE_WRITE := "wsfile:write"
  const WSFILE_DELETE := "wsfile:delete"
  const ENV_READ := "env:read"
  const ENV_WRITE := "env:write"
  const ENV_CREATE := "env:create"
  const ENV_DELETE := "env:delete"
  const ENV_DEPLOY := "env:deploy"
  const CONN_READ := "conn:read"
  const CONN_UPDATE := "conn:update"
  const CONN_CREATE := "conn:create"
  const CONN_DELETE := "conn:delete"
  const CONN_EXECUTE := "conn:execute"
  const CONN_DQL := "conn:dql"
  const CONN_DML := "conn:dml"
  const CONN_DDL := "conn:ddl"
  const POLICY_READ := "policy:read"
  const POLICY_MODIFY := "policy:modify"

  function ScopePermissions(scopeType: string): seq<string> {
    if scopeType == "org" then
      [ORG_READ, ORG_WRITE, ORG_DELETE, ORG_INVITE, ORG_TRANSFER_OWNERSHIP,
       WS_READ, WS_WRITE, WS_CREATE, WS_DELETE,
       WSFILE_READ, WSFILE_CREATE, WSFILE_WRITE, WSFILE_DELETE,
       ENV_READ, ENV_WRITE, ENV_CREATE, ENV_DELETE, ENV_DEPLOY,
       CONN_READ, CONN_UPDATE, CONN_CREATE, CONN_DELETE, CONN_EXECUTE, CONN_DQL, CONN_DML, CONN_DDL,
       POLICY_READ, POLICY_MODIFY]
    else if scopeType == "workspace" then
      [WS_READ, WS_WRITE,
       WSFILE_READ, WSFILE_CREATE, WSFILE_WRITE, WSFILE_DELETE,
       ENV_READ, ENV_WRITE, ENV_CREATE, ENV_DELETE, ENV_DEPLOY,
       CONN_READ, CONN_UPDATE, CONN_CREATE, CONN_DELETE, CONN_EXECUTE, CONN_DQL, CONN_DML, CONN_DDL,
       POLICY_READ, POLICY_MODIFY]
    else if scopeType == "environment" then
      [ENV_READ, ENV_WRITE, ENV_DELETE, ENV_DEPLOY,
       CONN_READ, CONN_UPDATE, CONN_CREATE, CONN_DELETE, CONN_EXECUTE, CONN_DQL, CONN_DML, CONN_DDL]
    else if scopeType == "connection" then
      [CONN_READ, CONN_UPDATE, CONN_DELETE, CONN_EXECUTE, CONN_DQL, CONN_DML, CONN_DDL]
    else []
  }

  function ResourcePermissions(resourceType: string): seq<string> {
    if resourceType == "org" then ScopePermissions("org")
    else if resourceType == "workspace" then
      [WS_READ, WS_WRITE, WS_DELETE,
       WSFILE_READ, WSFILE_CREATE, WSFILE_WRITE, WSFILE_DELETE,
       ENV_READ, ENV_WRITE, ENV_CREATE, ENV_DELETE, ENV_DEPLOY,
       CONN_READ, CONN_UPDATE, CONN_CREATE, CONN_DELETE, CONN_EXECUTE, CONN_DQL, CONN_DML, CONN_DDL,
       POLICY_READ, POLICY_MODIFY]
    else if resourceType == "environment" then
      [ENV_READ, ENV_WRITE, ENV_DELETE, ENV_DEPLOY,
       CONN_READ, CONN_UPDATE, CONN_CREATE, CONN_DELETE, CONN_EXECUTE, CONN_DQL, CONN_DML, CONN_DDL]
    else if resourceType == "connection" then
      [CONN_READ, CONN_UPDATE, CONN_DELETE, CONN_EXECUTE, CONN_DQL, CONN_DML, CONN_DDL]
    else []
  }

  lemma OrgPermissionsAreDistinct(i: nat, j: nat)
    requires i < j < |ResourcePermissions("org")|
    ensures ResourcePermissions("org")[i] != ResourcePermissions("org")[j]
  {
  }

  lemma WorkspacePermissionsAreDistinct(i: nat, j: nat)
    requires i < j < |ResourcePermissions("workspace")|
    ensures ResourcePermissions("workspace")[i] != ResourcePermissions("workspace")[j]
  {
  }

  lemma EnvironmentPermissionsAreDistinct(i: nat, j: nat)
    requires i < j < |ResourcePermissions("environment")|
    ensures ResourcePermissions("environment")[i] != ResourcePermissions("environment")[j]
  {
  }

  lemma ConnectionPermissionsAreDistinct(i: nat, j: nat)
    requires i < j < |ResourcePermissions("connection")|
    ensures ResourcePermissions("connection")[i] != ResourcePermissions("connection")[j]
  {
  }

  /** No permission is listed twice for a resource type. */
  lemma ResourcePermissionsAreDistinct(resourceType: string, i: nat, j: nat)
    requires i < j < |ResourcePermissions(resourceType)|
    ensures ResourcePermissions(resourceType)[i] != ResourcePermissions(resourceType)[j]
  {
    match resourceType
    case "org" => OrgPermissionsAreDistinct(i, j);
    case "workspace" => WorkspacePermissionsAreDistinct(i, j);
    case "environment" => EnvironmentPermissionsAreDistinct(i, j);
    case _ => ConnectionPermissionsAreDistinct(i, j);
  }

  predicate ValidForScope(p: string, scopeType: string) {
    p in ScopePermissions(scopeType)
  }

  predicate ValidForResource(p: string, resourceType: string) {
    p in ResourcePermissions(resourceType)
  }

  const OWNER := "Owner"
  const ADMINISTRATOR := "Administrator"
  const BASELINE_ACCESS := "Baseline Access"
  const WORKSPACE_ADMIN := "Workspace Admin"
  const WORKSPACE_MEMBER := "Workspace Member"

  const DESCRIBE_OWNER := "Full organization owner access, including all organization, workspace, " +
    "environment, connection, and policy permissions."
  const DESCRIBE_ADMINISTRATOR := "Administrative organization access for day-to-day management " +
    "without ownership transfer or organization deletion."
  const DESCRIBE_BASELINE_ACCESS := "Baseline organization access with read access to organization-level information."
  const DESCRIBE_WORKSPACE_ADMIN := "Full workspace administration access, including shared files, " +
    "workspace updates, environments, connections, queries, and workspace policies."
  const DESCRIBE_WORKSPACE_MEMBER := "Baseline workspace member access with workspace visibility."

  /** A role every organization or workspace starts with, and whom it is bound to, if anyone. */
  datatype BuiltinRole = BuiltinRole(name: string, description: string, permissions: seq<string>, boundTo: BoundTo)
  datatype BoundTo = Nobody | Creator | Members

  const ORG_BUILTIN_ROLES: seq<BuiltinRole> := [
    BuiltinRole(OWNER, DESCRIBE_OWNER, ScopePermissions("org"), Creator),
    BuiltinRole(ADMINISTRATOR, DESCRIBE_ADMINISTRATOR,
                [ORG_READ, ORG_WRITE, ORG_INVITE,
                 WS_CREATE, WS_DELETE, WS_READ, WS_WRITE,
                 WSFILE_READ, WSFILE_CREATE, WSFILE_WRITE, WSFILE_DELETE,
                 ENV_READ, ENV_WRITE, ENV_CREATE, ENV_DELETE, ENV_DEPLOY,
                 CONN_READ, CONN_UPDATE, CONN_CREATE, CONN_DELETE, CONN_EXECUTE, CONN_DQL, CONN_DML, CONN_DDL,
                 POLICY_READ, POLICY_MODIFY], Nobody),
    BuiltinRole(BASELINE_ACCESS, DESCRIBE_BASELINE_ACCESS, [ORG_READ], Members)]

  const WORKSPACE_BUILTIN_ROLES: seq<BuiltinRole> := [
    BuiltinRole(WORKSPACE_ADMIN, DESCRIBE_WORKSPACE_ADMIN,
                [WS_READ, WS_WRITE,
                 WSFILE_READ, WSFILE_CREATE, WSFILE_WRITE, WSFILE_DELETE,
                 ENV_READ, ENV_WRITE, ENV_CREATE, ENV_DELETE, ENV_DEPLOY,
                 CONN_READ, CONN_UPDATE, CONN_CREATE, CONN_DELETE, CONN_EXECUTE, CONN_DQL, CONN_DML, CONN_DDL,
                 POLICY_READ, POLICY_MODIFY], Creator),
    BuiltinRole(WORKSPACE_MEMBER, DESCRIBE_WORKSPACE_MEMBER, [WS_READ], Members)]

  /** A permission a role may hold for a narrower scope it may hold for every wider one. */
  lemma ScopesNest(p: string)
    ensures ValidForScope(p, "connection") ==> ValidForScope(p, "environment")
    ensures ValidForScope(p, "environment") ==> ValidForScope(p, "workspace")
    ensures ValidForScope(p, "workspace") ==> ValidForScope(p, "org")
  {
  }

  /** What has a meaning on a resource is what a role of that scope may hold, and on a workspace its deletion
      as well, which is for organization roles to grant. */
  lemma ResourcesAndScopes(p: string)
    ensures ValidForResource(p, "workspace") <==> ValidForScope(p, "workspace") || p == WS_DELETE
    ensures forall s | s in {"org", "environment", "connection"} :: ValidForResource(p, s) <==> ValidForScope(p, s)
  {
  }

  /** Owners hold everything, members may read, and workspace administrators hold all a workspace role may. */
  lemma BuiltinRolesHold(p: string)
    ensures p in ORG_BUILTIN_ROLES[0].permissions <==> ValidForScope(p, "org")
    ensures p in ORG_BUILTIN_ROLES[2].permissions <==> p == ORG_READ
    ensures p in WORKSPACE_BUILTIN_ROLES[0].permissions <==> ValidForScope(p, "workspace")
    ensures p in WORKSPACE_BUILTIN_ROLES[1].permissions <==> p == WS_READ
  {
  }

  /** Administrators hold all that owners do, except to delete the organization or to give it away. */
  lemma AdministratorsHold(p: string)
    ensures p in ORG_BUILTIN_ROLES[1].permissions <==>
              ValidForScope(p, "org") && p != ORG_DELETE && p != ORG_TRANSFER_OWNERSHIP
  {
    BuiltinRolesFitTheirScope();
    if p in ORG_BUILTIN_ROLES[1].permissions {
      var i :| 0 <= i < |ORG_BUILTIN_ROLES[1].permissions| && ORG_BUILTIN_ROLES[1].permissions[i] == p;
      AdministratorsCannotDelete(i);
      AdministratorsCannotTransfer(i);
    } else {
      AdministratorsHoldTheRest(p);
    }
  }

  lemma AdministratorsCannotDelete(i: nat)
    requires i < |ORG_BUILTIN_ROLES[1].permissions|
    ensures ORG_BUILTIN_ROLES[1].permissions[i] != ORG_DELETE
  {
  }

  lemma AdministratorsCannotTransfer(i: nat)
    requires i < |ORG_BUILTIN_ROLES[1].permissions|
    ensures ORG_BUILTIN_ROLES[1].permissions[i] != ORG_TRANSFER_OWNERSHIP
  {
  }

  lemma AdministratorsHoldTheRest(p: string)
    ensures ValidForScope(p, "org") && p != ORG_DELETE && p != ORG_TRANSFER_OWNERSHIP ==>
              p in ORG_BUILTIN_ROLES[1].permissions
  {
  }

  /** Every permission that is meaningful on a workspace, environment or connection may be held by an
      organization role, so inheritance from the organization can always be displayed. */
  lemma ResourcePermissionsAreOrgPermissions(p: string, resourceType: string)
    requires ValidForResource(p, resourceType)
    ensures ValidForScope(p, "org")
  {
  }

  lemma BuiltinRolesFitTheirScope()
    ensures forall r, p | r in ORG_BUILTIN_ROLES && p in r.permissions :: ValidForScope(p, "org")
    ensures forall r, p | r in WORKSPACE_BUILTIN_ROLES && p in r.permissions :: ValidForScope(p, "workspace")
  {
  }
}
