/** A role's tenant permissions (public/apps/configuration/panels/role-edit/tenant-panel.tsx,
    public/apps/configuration/utils/tenant-utils.tsx). */
module TenantPermissions {
  import opened IndexPermissions

  const TENANT_READ_PERMISSION := "kibana_all_read"
  const TENANT_WRITE_PERMISSION := "kibana_all_write"

  datatype PermissionType = NoAccess | Read | ReadWrite

  datatype TenantPermission = TenantPermission(tenantPatterns: seq<string>, allowedActions: seq<string>)

  datatype TenantPermissionState = TenantPermissionState(
    tenantPatterns: seq<ComboBoxOption>,
    permissionType: PermissionType)

  function GetTenantPermissionType(actions: seq<string>): PermissionType {
    if TENANT_WRITE_PERMISSION in actions then ReadWrite
    else if TENANT_READ_PERMISSION in actions then Read
    else NoAccess
  }

  /** The lookup table from a permission type to its actions. */
  function ActionsFor(permissionType: PermissionType): seq<string> {
    match permissionType
    case ReadWrite => [TENANT_WRITE_PERMISSION]
    case Read => [TENANT_READ_PERMISSION]
    case NoAccess => []
  }

  function BuildTenantPermissionState(permissions: seq<TenantPermission>): seq<TenantPermissionState> {
    seq(|permissions|, i requires 0 <= i < |permissions| =>
      TenantPermissionState(
        ToOptions(permissions[i].tenantPatterns),
        GetTenantPermissionType(permissions[i].allowedActions)))
  }

  function UnbuildTenantPermissionState(states: seq<TenantPermissionState>): seq<TenantPermission> {
    seq(|states|, i requires 0 <= i < |states| =>
      TenantPermission(FromOptions(states[i].tenantPatterns), ActionsFor(states[i].permissionType)))
  }

  function Resave(permissions: seq<TenantPermission>): seq<TenantPermission> {
    UnbuildTenantPermissionState(BuildTenantPermissionState(permissions))
  }

  lemma TypeOfActions(permissionType: PermissionType)
    ensures GetTenantPermissionType(ActionsFor(permissionType)) == permissionType
  {
    assert TENANT_READ_PERMISSION != TENANT_WRITE_PERMISSION by {
      assert |TENANT_READ_PERMISSION| != |TENANT_WRITE_PERMISSION|;
    }
  }

  /** Saving a role keeps every pattern and the kind of access each entry grants. */
  lemma ResaveKeepsAccess(permissions: seq<TenantPermission>, k: nat)
    requires k < |permissions|
    ensures |Resave(permissions)| == |permissions|
    ensures Resave(permissions)[k].tenantPatterns == permissions[k].tenantPatterns
    ensures GetTenantPermissionType(Resave(permissions)[k].allowedActions)
         == GetTenantPermissionType(permissions[k].allowedActions)
    ensures Resave(permissions)[k] == permissions[k] <==>
            permissions[k].allowedActions in {[], [TENANT_READ_PERMISSION], [TENANT_WRITE_PERMISSION]}
  {
    FromToOptions(permissions[k].tenantPatterns);
    TypeOfActions(GetTenantPermissionType(permissions[k].allowedActions));
    TypeOfActions(Read);
    TypeOfActions(ReadWrite);
    TypeOfActions(NoAccess);
  }

  lemma ResaveIdempotent(permissions: seq<TenantPermission>)
    ensures Resave(Resave(permissions)) == Resave(permissions)
  {
    forall k | 0 <= k < |permissions|
      ensures Resave(Resave(permissions))[k] == Resave(permissions)[k]
    {
      ResaveKeepsAccess(permissions, k);
      ResaveKeepsAccess(Resave(permissions), k);
    }
  }

  /** Main result: an entry that may write is shown as read-write, one that may only read as
      read, any other as neither; and saving sends exactly the action the type shown stands for. */
  lemma EditorShowsAccess(permissions: seq<TenantPermission>, states: seq<TenantPermissionState>, k: nat)
    requires k < |permissions| && k < |states|
    ensures var actions, shown := permissions[k].allowedActions, BuildTenantPermissionState(permissions)[k];
            && Shows(shown.tenantPatterns, permissions[k].tenantPatterns)
            && (shown.permissionType == ReadWrite <==> "kibana_all_write" in actions)
            && (shown.permissionType == Read <==> "kibana_all_read" in actions && "kibana_all_write" !in actions)
    ensures var saved := UnbuildTenantPermissionState(states)[k];
            && Shows(states[k].tenantPatterns, saved.tenantPatterns)
            && (forall action :: action in saved.allowedActions <==>
                                 (states[k].permissionType == ReadWrite && action == "kibana_all_write")
                                 || (states[k].permissionType == Read && action == "kibana_all_read"))
            && |saved.allowedActions| <= 1
  {
  }
}
