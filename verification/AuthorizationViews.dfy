/**
 The same tables are read in two places: by the permission context of a signed-in user and by the
 operator snapshot that guards grants. They say the same (apps/portal/src/lib/permissions.ts,
 apps/portal/src/lib/authz/operator.ts).
 */
module AuthorizationViews {
  import opened Wrappers
  import Grants
  import MenuTree
  import PermissionCache

  /** Row `i` of the nested read is an active role. */
  predicate ActiveAt(row: PermissionCache.UserRow, i: nat)
    requires i < |row.roles|
  {
    row.roles[i].Some? && row.roles[i].value.active
  }

  ghost predicate ListsPermissions(permissions: seq<Option<PermissionCache.PermissionRow>>, codes: set<string>)
  {
    forall code :: code in codes <==>
      exists k | 0 <= k < |permissions| :: permissions[k] == Some(PermissionCache.PermissionRow(code, true))
  }

  /** The nested rows are what one query reads of the user from the tables. */
  ghost predicate ReadsTables(row: PermissionCache.UserRow, org: Grants.Org, t: Grants.Tables, user: string)
  {
    && user in org.users && row.active == org.users[user].active
    && (forall role :: Grants.Holds(org, t, user, role) ==>
          exists i | 0 <= i < |row.roles| :: ActiveAt(row, i) && row.roles[i].value.id == role)
    && forall i | 0 <= i < |row.roles| && ActiveAt(row, i) ::
         var role := row.roles[i].value;
         && Grants.Holds(org, t, user, role.id)
         && role.code == org.roles[role.id].code
         && ListsPermissions(role.permissions, Grants.RoleCodes(org, t, role.id))
  }

  function RoleCodesOf(context: PermissionCache.Context): seq<string>
  {
    seq(|context.roles|, i requires 0 <= i < |context.roles| => context.roles[i].code)
  }

  lemma SameCodes(row: PermissionCache.UserRow, org: Grants.Org, t: Grants.Tables, user: string, code: string)
    requires ReadsTables(row, org, t, user)
    ensures PermissionCache.GrantsCode(row, code) <==> code in Grants.Effective(org, t, user)
  {
    if code in Grants.Effective(org, t, user) {
      var role :| Grants.Holds(org, t, user, role) && code in Grants.RoleCodes(org, t, role);
      var i :| 0 <= i < |row.roles| && ActiveAt(row, i) && row.roles[i].value.id == role;
      var permissions := row.roles[i].value.permissions;
      var k :| 0 <= k < |permissions| && permissions[k] == Some(PermissionCache.PermissionRow(code, true));
    }
    if PermissionCache.GrantsCode(row, code) {
      var i, k :| 0 <= i < |row.roles| && row.roles[i].Some? && 0 <= k < |row.roles[i].value.permissions| &&
                  row.roles[i].value.active &&
                  row.roles[i].value.permissions[k] == Some(PermissionCache.PermissionRow(code, true));
      assert ActiveAt(row, i);
    }
  }

  lemma SameAdmin(row: PermissionCache.UserRow, org: Grants.Org, t: Grants.Tables, user: string)
    requires ReadsTables(row, org, t, user) && row.active
    ensures MenuTree.IsAdminRole(RoleCodesOf(PermissionCache.Derived(Some(row)).context)) <==>
            Grants.IsAdmin(org, t, user)
  {
    var roles := PermissionCache.ActiveRoles(row.roles);
    var context := PermissionCache.Derived(Some(row)).context;
    var codes := RoleCodesOf(context);
    if j :| 0 <= j < |codes| && codes[j] in MenuTree.ADMIN_ROLE_CODES {
      PermissionCache.ActiveRolesAreThose(row.roles, roles[j]);
      var i :| 0 <= i < |row.roles| && row.roles[i] == Some(roles[j]);
      assert ActiveAt(row, i);
      assert roles[j].id in Grants.HeldRoles(org, t, user);
    }
    if role :| role in Grants.HeldRoles(org, t, user) && Grants.IsAdminRole(org, role) {
      assert Grants.Holds(org, t, user, role);
      var i :| 0 <= i < |row.roles| && ActiveAt(row, i) && row.roles[i].value.id == role;
      PermissionCache.ActiveRolesAreThose(row.roles, row.roles[i].value);
      var j :| 0 <= j < |roles| && roles[j] == row.roles[i].value;
      assert codes[j] in MenuTree.ADMIN_ROLE_CODES;
    }
  }

  /**
   Whatever the tables hold: a user gets a permission context exactly when the operator snapshot
   accepts them, and every decision on the context is the decision on the snapshot.
   */
  lemma ContextAgreesWithOperator(row: PermissionCache.UserRow, org: Grants.Org, t: Grants.Tables, user: string,
                                  code: string)
    requires ReadsTables(row, org, t, user)
    ensures PermissionCache.Derived(Some(row)).Granted? <==> Grants.LoadOperator(org, t, user).Some?
    ensures Grants.LoadOperator(org, t, user).Some? ==>
              var context := PermissionCache.Derived(Some(row)).context;
              var operator := Grants.LoadOperator(org, t, user).value;
              && (code in context.permissions <==> code in operator.permissions)
              && (MenuTree.Can(MenuTree.Subject(RoleCodesOf(context), context.permissions), code) <==>
                  operator.isAdmin || code in operator.permissions)
  {
    if row.active {
      SameCodes(row, org, t, user, code);
      SameAdmin(row, org, t, user);
      PermissionCache.DerivedCodes(row, code);
    }
  }
}
