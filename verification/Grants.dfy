/**
 Who may hand out what: the three writes of the user-role and role-permission tables, and the laws
 that hold over whole runs of them (apps/portal/src/lib/role-permission-assignment.ts,
 apps/portal/src/lib/user-role-assignment.ts, apps/portal/src/lib/authz/operator.ts).
 */
module Grants {
  import opened Wrappers
  import Collections
  import Departments

  // ---- The tables ----

  const SUPER_ADMIN := "SUPER_ADMIN"
  const MAX_ASSIGNED_ROLES := 100
  const MAX_ASSIGNED_PERMISSIONS := 500

  datatype User = User(dept: Option<string>, active: bool)
  datatype Role = Role(code: string, dept: string, isSystem: bool, active: bool)
  datatype Permission = Permission(code: string, active: bool)

  /** What stays fixed while grants change: accounts, roles, permissions and departments themselves. */
  datatype Org = Org(users: map<string, User>, roles: map<string, Role>, permissions: map<string, Permission>,
                     departments: Departments.Table)

  datatype UserRole = UserRole(user: string, role: string)
  datatype RolePermission = RolePermission(role: string, permission: string)

  datatype Tables = Tables(userRoles: set<UserRole>, rolePermissions: set<RolePermission>)

  // ---- What a user holds ----

  predicate ActivePermission(org: Org, permission: string)
  {
    permission in org.permissions && org.permissions[permission].active
  }

  /** Codes of the active permissions bound to a role. */
  function RoleCodes(org: Org, t: Tables, role: string): set<string>
  {
    set b | b in t.rolePermissions && b.role == role && ActivePermission(org, b.permission) ::
      org.permissions[b.permission].code
  }

  predicate ActiveRole(org: Org, role: string)
  {
    role in org.roles && org.roles[role].active
  }

  predicate Holds(org: Org, t: Tables, user: string, role: string)
  {
    UserRole(user, role) in t.userRoles && ActiveRole(org, role)
  }

  /** The user's active roles. */
  function HeldRoles(org: Org, t: Tables, user: string): (held: set<string>)
    ensures forall role :: role in held <==> Holds(org, t, user, role)
  {
    set b | b in t.userRoles && b.user == user && ActiveRole(org, b.role) :: b.role
  }

  /** The effective permission codes: active permissions of active roles. */
  function Effective(org: Org, t: Tables, user: string): (codes: set<string>)
    ensures forall code :: code in codes <==>
              exists role :: Holds(org, t, user, role) && code in RoleCodes(org, t, role)
  {
    set role, code | role in HeldRoles(org, t, user) && code in RoleCodes(org, t, role) :: code
  }

  predicate IsAdminRole(org: Org, role: string)
  {
    ActiveRole(org, role) && org.roles[role].code == SUPER_ADMIN
  }

  /** The user holds the break-glass role. */
  predicate IsAdmin(org: Org, t: Tables, user: string)
  {
    exists role | role in HeldRoles(org, t, user) :: IsAdminRole(org, role)
  }

  datatype Operator = Operator(isAdmin: bool, permissions: set<string>)

  function LoadOperator(org: Org, t: Tables, operator: string): Option<Operator>
  {
    if operator in org.users && org.users[operator].active then
      Some(Operator(IsAdmin(org, t, operator), Effective(org, t, operator)))
    else None
  }

  function Scope(org: Org, t: Tables, operator: string): set<string>
  {
    if operator !in org.users then {}
    else
      Departments.ResolveScope(org.departments,
                               set role | role in HeldRoles(org, t, operator) :: org.roles[role].dept)
  }

  predicate WithinScope(org: Org, t: Tables, operator: string, dept: Option<string>)
  {
    dept.Some? && dept.value != "" && dept.value in Scope(org, t, operator)
  }

  // ---- The three operations as functions of the tables ----

  datatype Error = Validation | Forbidden | NotFound | SystemRole

  predicate NoRepeats(ids: seq<string>)
  {
    forall i, j | 0 <= i < j < |ids| :: ids[i] != ids[j]
  }

  /** Nobody below may touch an administrator or somebody with codes beyond the operator's own. */
  function MutateUserError(org: Org, t: Tables, operator: string, target: string): Option<Error>
  {
    match LoadOperator(org, t, operator)
    case None => Some(Forbidden)
    case Some(o) =>
      if o.isAdmin then None
      else if IsAdmin(org, t, target) || !(Effective(org, t, target) <= o.permissions) then Some(Forbidden)
      else None
  }

  function MutateRoleError(org: Org, t: Tables, operator: string, role: string): Option<Error>
  {
    match LoadOperator(org, t, operator)
    case None => Some(Forbidden)
    case Some(o) => if o.isAdmin || RoleCodes(org, t, role) <= o.permissions then None else Some(Forbidden)
  }

  function FoundRoles(org: Org, ids: seq<string>): set<string>
  {
    set id | id in ids && id in org.roles
  }

  function FoundPermissions(org: Org, ids: seq<string>): set<string>
  {
    set id | id in ids && ActivePermission(org, id)
  }

  predicate Assignable(org: Org, dept: Option<string>, role: string)
    requires role in org.roles
  {
    Some(org.roles[role].dept) == dept && org.roles[role].active
  }

  /** `validateRoleAssignment`, branch by branch. */
  function RoleAssignmentError(org: Org, t: Tables, dept: Option<string>, roleIds: seq<string>, operator: string)
    : Option<Error>
  {
    if dept.None? || dept.value == "" then Some(Validation)
    else if |FoundRoles(org, roleIds)| != |roleIds| then Some(Validation)
    else if exists role | role in FoundRoles(org, roleIds) :: !Assignable(org, dept, role) then Some(Validation)
    else
      match LoadOperator(org, t, operator)
      case None => Some(Forbidden)
      case Some(o) =>
        if o.isAdmin then None
        else if exists role | role in FoundRoles(org, roleIds) :: org.roles[role].isSystem then Some(Forbidden)
        else if exists role | role in FoundRoles(org, roleIds) :: !(RoleCodes(org, t, role) <= o.permissions) then
          Some(Forbidden)
        else None
  }

  function WithUserRoles(t: Tables, user: string, roleIds: seq<string>): Tables
  {
    t.(userRoles := (set b | b in t.userRoles && b.user != user) + set role | role in roleIds :: UserRole(user, role))
  }

  predicate RoleIdsOk(roleIds: seq<string>)
  {
    1 <= |roleIds| <= MAX_ASSIGNED_ROLES && NoRepeats(roleIds)
  }

  function AssignedUserRoles(org: Org, t: Tables, operator: string, target: string, roleIds: seq<string>)
    : Result<Tables, Error>
  {
    if !RoleIdsOk(roleIds) then Err(Validation)
    else if operator == target then Err(Forbidden)
    else if target !in org.users then Err(NotFound)
    else if !WithinScope(org, t, operator, org.users[target].dept) then Err(Forbidden)
    else if MutateUserError(org, t, operator, target).Some? then Err(MutateUserError(org, t, operator, target).value)
    else
      match RoleAssignmentError(org, t, org.users[target].dept, roleIds, operator)
      case Some(e) => Err(e)
      case None => Ok(WithUserRoles(t, target, roleIds))
  }

  function BoundRoles(t: Tables, user: string): set<string>
  {
    set b | b in t.userRoles && b.user == user :: b.role
  }

  function RemovedUserRole(org: Org, t: Tables, operator: string, target: string, role: string): Result<Tables, Error>
  {
    if operator == target then Err(Forbidden)
    else if target !in org.users then Err(NotFound)
    else if !WithinScope(org, t, operator, org.users[target].dept) then Err(Forbidden)
    else if MutateUserError(org, t, operator, target).Some? then Err(MutateUserError(org, t, operator, target).value)
    else if |BoundRoles(t, target)| <= 1 && role in BoundRoles(t, target) then Err(Validation)
    else Ok(t.(userRoles := t.userRoles - {UserRole(target, role)}))
  }

  function WithRolePermissions(t: Tables, role: string, ids: seq<string>): Tables
  {
    var others := set b | b in t.rolePermissions && b.role != role;
    t.(rolePermissions := others + set id | id in ids :: RolePermission(role, id))
  }

  predicate PermissionIdsOk(ids: seq<string>)
  {
    |ids| <= MAX_ASSIGNED_PERMISSIONS && NoRepeats(ids)
  }

  predicate Overreach(org: Org, o: Operator, ids: seq<string>)
  {
    exists id | id in FoundPermissions(org, ids) :: org.permissions[id].code !in o.permissions
  }

  function AssignedRolePermissions(org: Org, t: Tables, operator: string, role: string, ids: seq<string>)
    : Result<Tables, Error>
  {
    if !PermissionIdsOk(ids) then Err(Validation)
    else if role !in org.roles then Err(NotFound)
    else if !WithinScope(org, t, operator, Some(org.roles[role].dept)) then Err(Forbidden)
    else if org.roles[role].isSystem then Err(SystemRole)
    else if MutateRoleError(org, t, operator, role).Some? then Err(MutateRoleError(org, t, operator, role).value)
    else if |FoundPermissions(org, ids)| != |ids| then Err(Validation)
    else
      match LoadOperator(org, t, operator)
      case None => Err(Forbidden)
      case Some(o) =>
        if !o.isAdmin && Overreach(org, o, ids) then Err(Forbidden) else Ok(WithRolePermissions(t, role, ids))
  }

  // ---- The store ----

  datatype AuditEntry =
    | RolesAssigned(operator: string, target: string, roleIds: seq<string>)
    | RoleRemoved(operator: string, target: string, role: string)
    | PermissionsAssigned(operator: string, role: string, ids: seq<string>)

  datatype CodeRow = CodeRow(role: string, code: string)

  /** The two link tables and the audit log; every write is one transaction. */
  class GrantStore {
    const org: Org
    var userRoles: set<UserRole>
    var rolePermissions: set<RolePermission>
    var audit: seq<AuditEntry>

    constructor (org: Org, t: Tables)
      ensures this.org == org && Current() == t && audit == []
    {
      this.org := org;
      userRoles, rolePermissions := t.userRoles, t.rolePermissions;
      audit := [];
    }

    function Current(): Tables
      reads this
    {
      Tables(userRoles, rolePermissions)
    }

    /** Success writes the new tables and one audit row; failure writes nothing. */
    ghost predicate Committed(error: Option<Error>, before: Tables, log: seq<AuditEntry>,
                              result: Result<Tables, Error>, entry: AuditEntry)
      reads this
    {
      match result
      case Ok(t) => error == None && Current() == t && audit == log + [entry]
      case Err(e) => error == Some(e) && Current() == before && audit == log
    }

    /** The join of bindings and active permissions for some roles. */
    method SelectCodes(roles: set<string>) returns (rows: seq<CodeRow>)
      ensures forall role, code ::
                CodeRow(role, code) in rows <==> role in roles && code in RoleCodes(org, Current(), role)
    {
      rows := [];
      var todo := set b | b in rolePermissions && b.role in roles && ActivePermission(org, b.permission);
      ghost var all := todo;
      while todo != {}
        invariant todo <= all
        invariant forall row :: row in rows <==>
                    exists b :: b in all - todo && row == CodeRow(b.role, org.permissions[b.permission].code)
        decreases todo
      {
        var b :| b in todo;
        rows := rows + [CodeRow(b.role, org.permissions[b.permission].code)];
        todo := todo - {b};
      }
    }

    /** `byRole` collects, role by role, the codes of the rows. */
    method GroupByRole(rows: seq<CodeRow>) returns (byRole: map<string, set<string>>)
      ensures forall role, code :: CodeRow(role, code) in rows <==> role in byRole && code in byRole[role]
    {
      byRole := map[];
      for i := 0 to |rows|
        invariant forall role, code :: CodeRow(role, code) in rows[..i] <==> role in byRole && code in byRole[role]
      {
        var row := rows[i];
        var codes := if row.role in byRole then byRole[row.role] else {};
        byRole := byRole[row.role := codes + {row.code}];
        assert rows[..i + 1] == rows[..i] + [row];
      }
    }

    method ValidateRoleAssignment(dept: Option<string>, roleIds: seq<string>, operator: string)
      returns (error: Option<Error>)
      ensures error == RoleAssignmentError(org, Current(), dept, roleIds, operator)
    {
      if dept.None? || dept.value == "" {
        return Some(Validation);
      }
      var roles := FoundRoles(org, roleIds);
      if |roles| != |roleIds| || exists role | role in roles :: !Assignable(org, dept, role) {
        return Some(Validation);
      }
      var loaded := LoadOperator(org, Current(), operator);
      if loaded.None? {
        return Some(Forbidden);
      }
      if loaded.value.isAdmin {
        return None;
      }
      if exists role | role in roles :: org.roles[role].isSystem {
        return Some(Forbidden);
      }
      var rows := SelectCodes(roles);
      var byRole := GroupByRole(rows);
      var granted := loaded.value.permissions;
      forall role | role in roles
        ensures (role in byRole && exists code | code in byRole[role] :: code !in granted)
                <==> !(RoleCodes(org, Current(), role) <= granted)
      {
        forall code ensures code in RoleCodes(org, Current(), role) <==> role in byRole && code in byRole[role] {
          assert CodeRow(role, code) in rows <==> code in RoleCodes(org, Current(), role);
        }
      }
      if exists role | role in roles :: role in byRole && exists code | code in byRole[role] :: code !in granted {
        return Some(Forbidden);
      }
      return None;
    }

    method AssignUserRoles(operator: string, target: string, roleIds: seq<string>) returns (error: Option<Error>)
      modifies this
      ensures Committed(error, old(Current()), old(audit),
                        AssignedUserRoles(org, old(Current()), operator, target, roleIds),
                        RolesAssigned(operator, target, roleIds))
    {
      if !RoleIdsOk(roleIds) {
        return Some(Validation);
      }
      if operator == target {
        return Some(Forbidden);
      }
      if target !in org.users {
        return Some(NotFound);
      }
      if !WithinScope(org, Current(), operator, org.users[target].dept) {
        return Some(Forbidden);
      }
      error := MutateUserError(org, Current(), operator, target);
      if error.Some? {
        return;
      }
      error := ValidateRoleAssignment(org.users[target].dept, roleIds, operator);
      if error.Some? {
        return;
      }
      userRoles := set b | b in userRoles && b.user != target;
      userRoles := userRoles + set role | role in roleIds :: UserRole(target, role);
      audit := audit + [RolesAssigned(operator, target, roleIds)];
    }

    method RemoveUserRole(operator: string, target: string, role: string) returns (error: Option<Error>)
      modifies this
      ensures Committed(error, old(Current()), old(audit),
                        RemovedUserRole(org, old(Current()), operator, target, role),
                        RoleRemoved(operator, target, role))
    {
      if operator == target {
        return Some(Forbidden);
      }
      if target !in org.users {
        return Some(NotFound);
      }
      if !WithinScope(org, Current(), operator, org.users[target].dept) {
        return Some(Forbidden);
      }
      error := MutateUserError(org, Current(), operator, target);
      if error.Some? {
        return;
      }
      var bound := BoundRoles(Current(), target);
      if |bound| <= 1 && role in bound {
        return Some(Validation);
      }
      userRoles := userRoles - {UserRole(target, role)};
      audit := audit + [RoleRemoved(operator, target, role)];
    }

    method AssignRolePermissions(operator: string, role: string, ids: seq<string>) returns (error: Option<Error>)
      modifies this
      ensures Committed(error, old(Current()), old(audit),
                        AssignedRolePermissions(org, old(Current()), operator, role, ids),
                        PermissionsAssigned(operator, role, ids))
    {
      if !PermissionIdsOk(ids) {
        return Some(Validation);
      }
      if role !in org.roles {
        return Some(NotFound);
      }
      if !WithinScope(org, Current(), operator, Some(org.roles[role].dept)) {
        return Some(Forbidden);
      }
      if org.roles[role].isSystem {
        return Some(SystemRole);
      }
      error := MutateRoleError(org, Current(), operator, role);
      if error.Some? {
        return;
      }
      if |ids| > 0 && |FoundPermissions(org, ids)| != |ids| {
        return Some(Validation);
      }
      var loaded := LoadOperator(org, Current(), operator);
      if loaded.None? {
        return Some(Forbidden);
      }
      if !loaded.value.isAdmin && Overreach(org, loaded.value, ids) {
        return Some(Forbidden);
      }
      rolePermissions := set b | b in rolePermissions && b.role != role;
      if |ids| > 0 {
        rolePermissions := rolePermissions + set id | id in ids :: RolePermission(role, id);
      }
      audit := audit + [PermissionsAssigned(operator, role, ids)];
      assert Current() == WithRolePermissions(old(Current()), role, ids);
    }
  }

  // ---- Runs ----

  datatype Step =
    | AssignRoles(operator: string, target: string, roleIds: seq<string>)
    | RemoveRole(operator: string, target: string, role: string)
    | AssignPermissions(operator: string, role: string, ids: seq<string>)

  function Attempt(org: Org, t: Tables, step: Step): Result<Tables, Error>
  {
    match step
    case AssignRoles(operator, target, roleIds) => AssignedUserRoles(org, t, operator, target, roleIds)
    case RemoveRole(operator, target, role) => RemovedUserRole(org, t, operator, target, role)
    case AssignPermissions(operator, role, ids) => AssignedRolePermissions(org, t, operator, role, ids)
  }

  function After(org: Org, t: Tables, step: Step): Tables
  {
    match Attempt(org, t, step)
    case Ok(after) => after
    case Err(_) => t
  }

  function Run(org: Org, t: Tables, steps: seq<Step>): Tables
    decreases steps
  {
    if steps == [] then t else Run(org, After(org, t, steps[0]), steps[1..])
  }

  // ---- What one step may reach and what it does ----

  /** Department of the user or role that a step changes. */
  function TargetDept(org: Org, step: Step): Option<string>
  {
    match step
    case AssignPermissions(_, role, _) => if role in org.roles then Some(org.roles[role].dept) else None
    case _ => if step.target in org.users then org.users[step.target].dept else None
  }

  /** Departments form a forest and every role is filed under one of them. */
  ghost predicate SoundDepartments(org: Org)
  {
    && Departments.WellFormed(org.departments)
    && forall role | role in org.roles :: org.roles[role].dept in org.departments
  }

  /** Whoever acts, administrators included, reaches only the subtrees of the departments of their own active roles. */
  lemma StepStaysInScope(org: Org, t: Tables, step: Step)
    requires SoundDepartments(org) && Attempt(org, t, step).Ok?
    ensures TargetDept(org, step).Some? && TargetDept(org, step).value in org.departments
    ensures exists role :: Holds(org, t, step.operator, role) &&
              Departments.Above(org.departments, org.roles[role].dept, TargetDept(org, step).value)
  {
    var depts := set role | role in HeldRoles(org, t, step.operator) :: org.roles[role].dept;
    var dept := TargetDept(org, step).value;
    forall d | d in depts ensures '/' !in d {
      assert Departments.Uuid(d);
    }
    Departments.ScopeIsSubtrees(org.departments, depts, dept);
    var d :| d in depts && (d == dept || d in Departments.Chain(org.departments, dept));
    var role :| role in HeldRoles(org, t, step.operator) && org.roles[role].dept == d;
    assert Holds(org, t, step.operator, role);
  }

  lemma RolesUntouched(org: Org, t: Tables, after: Tables, user: string)
    requires after.rolePermissions == t.rolePermissions
    requires forall role :: Holds(org, after, user, role) ==> Holds(org, t, user, role)
    ensures Effective(org, after, user) <= Effective(org, t, user)
    ensures IsAdmin(org, after, user) ==> IsAdmin(org, t, user)
  {
  }

  // ---- When a step succeeds, and what it leaves ----

  /** The operator's account is live. */
  predicate Acts(org: Org, operator: string)
  {
    operator in org.users && org.users[operator].active
  }

  /** An administrator, or somebody whose own codes include these. */
  predicate Outranks(org: Org, t: Tables, operator: string, codes: set<string>)
  {
    IsAdmin(org, t, operator) || forall code | code in codes :: code in Effective(org, t, operator)
  }

  /** The operator may change this user's roles. */
  predicate MayChangeUser(org: Org, t: Tables, operator: string, target: string)
    requires target in org.users
  {
    && WithinScope(org, t, operator, org.users[target].dept) && Acts(org, operator)
    && Outranks(org, t, operator, Effective(org, t, target))
    && (IsAdmin(org, t, target) ==> IsAdmin(org, t, operator))
  }

  /** The operator may hand this role to a user of that department. */
  predicate MayHandOut(org: Org, t: Tables, operator: string, dept: Option<string>, role: string)
  {
    && role in org.roles && org.roles[role].active && Some(org.roles[role].dept) == dept
    && (org.roles[role].isSystem ==> IsAdmin(org, t, operator))
    && Outranks(org, t, operator, RoleCodes(org, t, role))
  }

  /** What a user has, on the rows: codes reached through active roles and permissions, and the break-glass role. */
  lemma WhatUsersHold(org: Org, t: Tables, user: string, code: string)
    ensures code in Effective(org, t, user) <==>
            exists role, permission ::
              && UserRole(user, role) in t.userRoles && role in org.roles && org.roles[role].active
              && RolePermission(role, permission) in t.rolePermissions
              && permission in org.permissions && org.permissions[permission].active
              && org.permissions[permission].code == code
    ensures IsAdmin(org, t, user) <==>
            exists role ::
              && UserRole(user, role) in t.userRoles && role in org.roles && org.roles[role].active
              && org.roles[role].code == "SUPER_ADMIN"
  {
    if role :| Holds(org, t, user, role) && code in RoleCodes(org, t, role) {
      var b :| b in t.rolePermissions && b.role == role && ActivePermission(org, b.permission) &&
               org.permissions[b.permission].code == code;
      assert b == RolePermission(role, b.permission);
    }
    if role, permission :| && UserRole(user, role) in t.userRoles && ActiveRole(org, role)
                           && RolePermission(role, permission) in t.rolePermissions
                           && ActivePermission(org, permission) && org.permissions[permission].code == code {
      assert Holds(org, t, user, role) && code in RoleCodes(org, t, role);
    }
    if role :| role in HeldRoles(org, t, user) && IsAdminRole(org, role) {
      assert UserRole(user, role) in t.userRoles;
    }
    if role :| UserRole(user, role) in t.userRoles && IsAdminRole(org, role) {
      assert Holds(org, t, user, role) && role in HeldRoles(org, t, user);
    }
  }

  /** All ids are found, each once, exactly when as many are found as were asked for. */
  lemma CountIsAll(found: set<string>, ids: seq<string>)
    requires NoRepeats(ids) && forall id :: id in found ==> id in ids
    ensures |found| == |ids| <==> forall id | id in ids :: id in found
  {
    var all := set id | id in ids;
    DistinctCount(ids);
    if |found| == |ids| {
      AllFound(found, ids);
    }
    if forall id | id in ids :: id in found {
      assert found == all;
    }
  }

  lemma {:induction false} DistinctCount(ids: seq<string>)
    requires NoRepeats(ids)
    ensures |set id | id in ids| == |ids|
  {
    if ids == [] {
    } else {
      var rest := ids[1..];
      assert forall i, j | 0 <= i < j < |rest| :: rest[i] == ids[i + 1] && rest[j] == ids[j + 1];
      DistinctCount(rest);
      assert ids[0] !in rest by {
        assert forall k | 0 <= k < |rest| :: rest[k] == ids[k + 1] && ids[0] != ids[k + 1];
      }
      assert (set id | id in ids) == (set id | id in rest) + {ids[0]};
    }
  }

  lemma MutateUserIff(org: Org, t: Tables, operator: string, target: string)
    requires target in org.users && WithinScope(org, t, operator, org.users[target].dept)
    ensures MutateUserError(org, t, operator, target).None? <==> MayChangeUser(org, t, operator, target)
    ensures MutateUserError(org, t, operator, target).Some? ==>
              MutateUserError(org, t, operator, target) == Some(Forbidden)
  {
  }

  lemma RoleAssignmentIff(org: Org, t: Tables, dept: Option<string>, roleIds: seq<string>, operator: string)
    requires NoRepeats(roleIds) && Acts(org, operator)
    ensures var error := RoleAssignmentError(org, t, dept, roleIds, operator);
            && (error.None? <==>
                  && dept != None && dept != Some("")
                  && forall role | role in roleIds :: MayHandOut(org, t, operator, dept, role))
            && (error == Some(Validation) <==>
                  || dept == None || dept == Some("")
                  || exists role | role in roleIds ::
                       role !in org.roles || !org.roles[role].active || Some(org.roles[role].dept) != dept)
            && (error.Some? ==> error == Some(Validation) || error == Some(Forbidden))
  {
    CountIsAll(FoundRoles(org, roleIds), roleIds);
    assert forall role :: role in FoundRoles(org, roleIds) <==> role in roleIds && role in org.roles;
    if forall role | role in roleIds :: role in org.roles {
      assert forall role | role in roleIds :: role in FoundRoles(org, roleIds);
    }
  }

  /** Who may assign which roles to whom: every refusal with its full condition, and what a success leaves. */
  lemma AssignRolesIff(org: Org, t: Tables, operator: string, target: string, roleIds: seq<string>)
    ensures var result := AssignedUserRoles(org, t, operator, target, roleIds);
            var idsOk := 1 <= |roleIds| <= 100 && NoRepeats(roleIds);
            && (!idsOk ==> result == Err(Validation))
            && (idsOk && operator == target ==> result == Err(Forbidden))
            && (result == Err(NotFound) <==> idsOk && operator != target && target !in org.users)
            && (idsOk && operator != target && target in org.users ==>
                  var dept := org.users[target].dept;
                  && (!MayChangeUser(org, t, operator, target) ==> result == Err(Forbidden))
                  && (MayChangeUser(org, t, operator, target) ==>
                        && (result.Ok? <==> forall role | role in roleIds :: MayHandOut(org, t, operator, dept, role))
                        && (result == Err(Validation) <==>
                              exists role | role in roleIds ::
                                role !in org.roles || !org.roles[role].active || Some(org.roles[role].dept) != dept)))
  {
    if target in org.users && WithinScope(org, t, operator, org.users[target].dept) {
      MutateUserIff(org, t, operator, target);
      if Acts(org, operator) && NoRepeats(roleIds) {
        RoleAssignmentIff(org, t, org.users[target].dept, roleIds, operator);
      }
    }
  }

  /** Who may take a role from whom: not the last one, and otherwise like an assignment. */
  lemma RemoveRoleIff(org: Org, t: Tables, operator: string, target: string, role: string)
    ensures var result := RemovedUserRole(org, t, operator, target, role);
            && (operator == target ==> result == Err(Forbidden))
            && (result == Err(NotFound) <==> operator != target && target !in org.users)
            && (operator != target && target in org.users ==>
                  && (!MayChangeUser(org, t, operator, target) <==> result == Err(Forbidden))
                  && (MayChangeUser(org, t, operator, target) ==>
                        var last := UserRole(target, role) in t.userRoles &&
                                    forall other | UserRole(target, other) in t.userRoles :: other == role;
                        result.Err? <==> last && result == Err(Validation)))
  {
    if target in org.users && WithinScope(org, t, operator, org.users[target].dept) {
      MutateUserIff(org, t, operator, target);
      LastRole(t, target, role);
    }
  }

  lemma LastRole(t: Tables, user: string, role: string)
    ensures |BoundRoles(t, user)| <= 1 && role in BoundRoles(t, user) <==>
            UserRole(user, role) in t.userRoles && forall other | UserRole(user, other) in t.userRoles :: other == role
  {
    var bound := BoundRoles(t, user);
    assert forall r :: r in bound <==> UserRole(user, r) in t.userRoles;
    if role in bound && forall other | other in bound :: other == role {
      assert bound == {role};
    }
    if role in bound && |bound| <= 1 {
      forall other | other in bound ensures other == role {
        assert |bound - {role}| == 0;
      }
    }
  }

  /** Who may bind which permissions to a role. */
  lemma AssignPermissionsIff(org: Org, t: Tables, operator: string, role: string, ids: seq<string>)
    ensures var result := AssignedRolePermissions(org, t, operator, role, ids);
            var idsOk := |ids| <= 500 && NoRepeats(ids);
            && (!idsOk ==> result == Err(Validation))
            && (result == Err(NotFound) <==> idsOk && role !in org.roles)
            && (idsOk && role in org.roles ==>
                  var inScope := WithinScope(org, t, operator, Some(org.roles[role].dept));
                  var known := forall id | id in ids :: id in org.permissions && org.permissions[id].active;
                  var may := Acts(org, operator) && Outranks(org, t, operator, RoleCodes(org, t, role));
                  && (result == Err(SystemRole) <==> inScope && org.roles[role].isSystem)
                  && (result == Err(Validation) <==> inScope && !org.roles[role].isSystem && may && !known)
                  && (result.Ok? <==>
                        && inScope && !org.roles[role].isSystem && may && known
                        && (IsAdmin(org, t, operator) ||
                            forall id | id in ids :: org.permissions[id].code in Effective(org, t, operator))))
  {
    if NoRepeats(ids) {
      assert forall id :: id in FoundPermissions(org, ids) <==> id in ids && ActivePermission(org, id);
      CountIsAll(FoundPermissions(org, ids), ids);
    }
  }

  /** What a successful step leaves in the two tables, row by row. */
  lemma StepTakesEffect(org: Org, t: Tables, step: Step, row: UserRole, binding: RolePermission)
    requires Attempt(org, t, step).Ok?
    ensures var after := After(org, t, step);
            && (row in after.userRoles <==>
                match step
                case AssignRoles(_, target, roleIds) =>
                  if row.user == target then row.role in roleIds else row in t.userRoles
                case RemoveRole(_, target, role) => row in t.userRoles && row != UserRole(target, role)
                case AssignPermissions(_, _, _) => row in t.userRoles)
            && (binding in after.rolePermissions <==>
                if step.AssignPermissions? && binding.role == step.role then binding.permission in step.ids
                else binding in t.rolePermissions)
  {
  }

  // ---- One step of a non-admin operator ----

  lemma AssignedRolesStayUnder(org: Org, t: Tables, operator: string, target: string, roleIds: seq<string>,
                               user: string)
    requires !IsAdmin(org, t, operator) && AssignedUserRoles(org, t, operator, target, roleIds).Ok?
    ensures Effective(org, WithUserRoles(t, target, roleIds), user) <=
            Effective(org, t, user) + Effective(org, t, operator)
  {
    var after := WithUserRoles(t, target, roleIds);
    if user != target {
      RolesUntouched(org, t, after, user);
    } else {
      forall code | code in Effective(org, after, user) ensures code in Effective(org, t, operator) {
        var role :| Holds(org, after, user, role) && code in RoleCodes(org, after, role);
        assert role in FoundRoles(org, roleIds);
        assert RoleCodes(org, after, role) == RoleCodes(org, t, role);
      }
    }
  }

  lemma NewRoleCodes(org: Org, t: Tables, role: string, ids: seq<string>, other: string)
    ensures var after := WithRolePermissions(t, role, ids);
            RoleCodes(org, after, other) ==
            if other == role then set id | id in FoundPermissions(org, ids) :: org.permissions[id].code
            else RoleCodes(org, t, other)
  {
    var after := WithRolePermissions(t, role, ids);
    if other == role {
      forall code | code in set id | id in FoundPermissions(org, ids) :: org.permissions[id].code
        ensures code in RoleCodes(org, after, role) {
        var id :| id in FoundPermissions(org, ids) && org.permissions[id].code == code;
        assert RolePermission(role, id) in after.rolePermissions;
      }
    }
  }

  lemma AssignedPermissionsStayUnder(org: Org, t: Tables, operator: string, role: string, ids: seq<string>,
                                     user: string)
    requires !IsAdmin(org, t, operator) && AssignedRolePermissions(org, t, operator, role, ids).Ok?
    ensures Effective(org, WithRolePermissions(t, role, ids), user) <=
            Effective(org, t, user) + Effective(org, t, operator)
  {
    var after := WithRolePermissions(t, role, ids);
    forall code | code in Effective(org, after, user)
      ensures code in Effective(org, t, user) + Effective(org, t, operator) {
      var held :| Holds(org, after, user, held) && code in RoleCodes(org, after, held);
      NewRoleCodes(org, t, role, ids, held);
    }
  }

  /** Whatever a non-admin operator does, nobody gains a code that the operator does not hold. */
  lemma StepStaysUnderOperator(org: Org, t: Tables, step: Step, user: string)
    requires !IsAdmin(org, t, step.operator)
    ensures Effective(org, After(org, t, step), user) <= Effective(org, t, user) + Effective(org, t, step.operator)
  {
    if Attempt(org, t, step).Ok? {
      match step {
        case AssignRoles(operator, target, roleIds) => AssignedRolesStayUnder(org, t, operator, target, roleIds, user);
        case RemoveRole(operator, target, role) => RolesUntouched(org, t, After(org, t, step), user);
        case AssignPermissions(operator, role, ids) => AssignedPermissionsStayUnder(org, t, operator, role, ids, user);
      }
    }
  }

  /** In particular no step enlarges its own operator's effective set. */
  lemma StepNeverHelpsOperator(org: Org, t: Tables, step: Step)
    requires !IsAdmin(org, t, step.operator)
    ensures Effective(org, After(org, t, step), step.operator) <= Effective(org, t, step.operator)
  {
    StepStaysUnderOperator(org, t, step, step.operator);
  }

  /** A role with a code beyond the operator is bound, unbound and re-filled by nobody like them. */
  lemma StrongRoleStays(org: Org, t: Tables, step: Step, user: string, role: string, code: string)
    requires !IsAdmin(org, t, step.operator)
    requires Holds(org, t, user, role) && code in RoleCodes(org, t, role) && code !in Effective(org, t, step.operator)
    ensures Holds(org, After(org, t, step), user, role)
    ensures code in RoleCodes(org, After(org, t, step), role)
  {
    if Attempt(org, t, step).Ok? {
      if step.AssignPermissions? {
        NewRoleCodes(org, t, step.role, step.ids, role);
      } else {
        assert code in Effective(org, t, user);
        assert step.target != user;
      }
    }
  }

  /** Nor does anybody lose a code that the operator does not hold. */
  lemma StepTakesOnlyOwnCodes(org: Org, t: Tables, step: Step, user: string)
    requires !IsAdmin(org, t, step.operator)
    ensures Effective(org, t, user) <= Effective(org, After(org, t, step), user) + Effective(org, t, step.operator)
  {
    forall code | code in Effective(org, t, user) && code !in Effective(org, t, step.operator)
      ensures code in Effective(org, After(org, t, step), user) {
      var role :| Holds(org, t, user, role) && code in RoleCodes(org, t, role);
      StrongRoleStays(org, t, step, user, role, code);
    }
  }

  // ---- Administrators ----

  /** Every break-glass role in use is marked as a system role. */
  ghost predicate AdminRolesAreSystem(org: Org)
  {
    forall role | IsAdminRole(org, role) :: org.roles[role].isSystem
  }

  /** The step hands the target a break-glass role that nobody marked as a system role. */
  ghost predicate HandsOutAdmin(org: Org, step: Step, user: string)
  {
    step.AssignRoles? && step.target == user && exists role | role in step.roleIds :: IsAdminRole(org, role)
  }

  /**
   The administrators after a step by a non-admin operator: the same ones, and nobody else unless the
   step hands out a break-glass role, which can only be one not marked as a system role.
   */
  lemma AdminsAfterStep(org: Org, t: Tables, step: Step, user: string)
    requires !IsAdmin(org, t, step.operator)
    ensures IsAdmin(org, After(org, t, step), user) <==>
            IsAdmin(org, t, user) || (Attempt(org, t, step).Ok? && HandsOutAdmin(org, step, user))
    ensures Attempt(org, t, step).Ok? && HandsOutAdmin(org, step, user) ==> !AdminRolesAreSystem(org)
  {
    var after := After(org, t, step);
    if Attempt(org, t, step).Ok? {
      match step {
        case AssignRoles(operator, target, roleIds) =>
          if user == target {
            NewRoles(org, t, target, roleIds);
            forall role | role in roleIds && IsAdminRole(org, role) ensures !org.roles[role].isSystem {
              assert role in FoundRoles(org, roleIds);
            }
          } else {
            SameRoles(org, t, after, user);
          }
        case RemoveRole(operator, target, role) =>
          if user != target {
            SameRoles(org, t, after, user);
          } else {
            RolesUntouched(org, t, after, user);
          }
        case AssignPermissions(operator, role, ids) => SameRoles(org, t, after, user);
      }
    }
  }

  lemma NewRoles(org: Org, t: Tables, target: string, roleIds: seq<string>)
    ensures IsAdmin(org, WithUserRoles(t, target, roleIds), target) <==>
            exists role | role in roleIds :: IsAdminRole(org, role)
  {
    var after := WithUserRoles(t, target, roleIds);
    forall role | ActiveRole(org, role) ensures Holds(org, after, target, role) <==> role in roleIds {
    }
    if role :| role in roleIds && IsAdminRole(org, role) {
      assert role in HeldRoles(org, after, target);
    }
  }

  lemma SameRoles(org: Org, t: Tables, after: Tables, user: string)
    requires forall role :: UserRole(user, role) in after.userRoles <==> UserRole(user, role) in t.userRoles
    ensures IsAdmin(org, after, user) == IsAdmin(org, t, user)
  {
    forall role ensures role in HeldRoles(org, after, user) <==> role in HeldRoles(org, t, user) {
      assert Holds(org, after, user, role) <==> Holds(org, t, user, role);
    }
  }

  /**
   Only what exists and is active is ever handed out; and an operator who is no administrator hands out no
   system role.
   */
  lemma OnlyActiveIsGranted(org: Org, t: Tables, step: Step, id: string)
    requires Attempt(org, t, step).Ok?
    ensures step.AssignRoles? && id in step.roleIds ==>
              && id in org.roles && org.roles[id].active
              && (org.roles[id].isSystem ==> IsAdmin(org, t, step.operator))
    ensures step.AssignPermissions? && id in step.ids ==> id in org.permissions && org.permissions[id].active
    ensures step.AssignPermissions? ==> !org.roles[step.role].isSystem
  {
    match step {
      case AssignRoles(_, _, roleIds) =>
        AllFound(FoundRoles(org, roleIds), roleIds);
        assert id in roleIds ==> id in FoundRoles(org, roleIds);
      case AssignPermissions(_, _, ids) =>
        AllFound(FoundPermissions(org, ids), ids);
      case RemoveRole(_, _, _) =>
    }
  }

  // ---- Laws over whole runs ----

  ghost predicate ByNonAdmins(org: Org, t: Tables, steps: seq<Step>)
  {
    forall i | 0 <= i < |steps| :: !IsAdmin(org, t, steps[i].operator)
  }

  /** Over every run by non-admin operators the set of administrators stays exactly the same. */
  lemma {:induction false} AdminsStayTheSame(org: Org, t: Tables, steps: seq<Step>, user: string)
    requires AdminRolesAreSystem(org) && ByNonAdmins(org, t, steps)
    ensures IsAdmin(org, Run(org, t, steps), user) == IsAdmin(org, t, user)
    decreases steps
  {
    if steps == [] {
    } else {
      StillNonAdmins(org, t, steps);
      AdminsAfterStep(org, t, steps[0], user);
      AdminsStayTheSame(org, After(org, t, steps[0]), steps[1..], user);
    }
  }

  lemma StillNonAdmins(org: Org, t: Tables, steps: seq<Step>)
    requires AdminRolesAreSystem(org) && ByNonAdmins(org, t, steps) && steps != []
    ensures ByNonAdmins(org, After(org, t, steps[0]), steps[1..])
  {
    forall i | 0 <= i < |steps[1..]| ensures !IsAdmin(org, After(org, t, steps[0]), steps[1..][i].operator) {
      assert steps[1..][i] == steps[i + 1];
      AdminsAfterStep(org, t, steps[0], steps[i + 1].operator);
    }
  }

  /** Every operator of the run holds codes from `ceiling` only. */
  ghost predicate OperatorsUnder(org: Org, t: Tables, steps: seq<Step>, ceiling: set<string>)
  {
    forall i | 0 <= i < |steps| :: Effective(org, t, steps[i].operator) <= ceiling
  }

  /**
   Conservation: over every run by non-admin operators, the codes beyond those that its operators held
   at the start neither appear nor disappear anywhere: each user holds exactly the same ones as before.
   */
  lemma {:induction false} CodesBeyondOperatorsAreConserved(org: Org, t: Tables, steps: seq<Step>, ceiling: set<string>,
                                                            user: string)
    requires AdminRolesAreSystem(org) && ByNonAdmins(org, t, steps) && OperatorsUnder(org, t, steps, ceiling)
    ensures Effective(org, Run(org, t, steps), user) - ceiling == Effective(org, t, user) - ceiling
    decreases steps
  {
    if steps == [] {
    } else {
      var after, rest := After(org, t, steps[0]), steps[1..];
      StillNonAdmins(org, t, steps);
      forall i | 0 <= i < |rest| ensures Effective(org, after, rest[i].operator) <= ceiling {
        assert rest[i] == steps[i + 1];
        StepStaysUnderOperator(org, t, steps[0], steps[i + 1].operator);
      }
      StepStaysUnderOperator(org, t, steps[0], user);
      StepTakesOnlyOwnCodes(org, t, steps[0], user);
      CodesBeyondOperatorsAreConserved(org, after, rest, ceiling, user);
    }
  }

  ghost predicate HeldByNonAdmin(org: Org, t: Tables, code: string)
  {
    exists user :: !IsAdmin(org, t, user) && code in Effective(org, t, user)
  }

  ghost function OperatorCodes(org: Org, t: Tables, steps: seq<Step>): set<string>
  {
    set i, code | 0 <= i < |steps| && code in Effective(org, t, steps[i].operator) :: code
  }

  /**
   No escalation: over every run by non-admin operators, a code held by some non-admin user at the
   end was held by some non-admin user at the start.
   */
  lemma {:induction false} NoEscalation(org: Org, t: Tables, steps: seq<Step>, code: string)
    requires AdminRolesAreSystem(org) && ByNonAdmins(org, t, steps)
    ensures HeldByNonAdmin(org, Run(org, t, steps), code) ==> HeldByNonAdmin(org, t, code)
  {
    var final := Run(org, t, steps);
    if HeldByNonAdmin(org, final, code) {
      var user :| !IsAdmin(org, final, user) && code in Effective(org, final, user);
      AdminsStayTheSame(org, t, steps, user);
      CodesBeyondOperatorsAreConserved(org, t, steps, OperatorCodes(org, t, steps), user);
      if code !in OperatorCodes(org, t, steps) {
        assert code in Effective(org, final, user) - OperatorCodes(org, t, steps);
        assert code in Effective(org, t, user) - OperatorCodes(org, t, steps);
      }
    }
  }

  ghost predicate HasRole(t: Tables, user: string)
  {
    exists role :: UserRole(user, role) in t.userRoles
  }

  /** Over every run, by anybody: who has a role keeps at least one. */
  lemma {:induction false} NobodyLosesTheLastRole(org: Org, t: Tables, steps: seq<Step>, user: string)
    requires HasRole(t, user)
    ensures HasRole(Run(org, t, steps), user)
    decreases steps
  {
    if steps == [] {
    } else {
      StepKeepsARole(org, t, steps[0], user);
      NobodyLosesTheLastRole(org, After(org, t, steps[0]), steps[1..], user);
    }
  }

  lemma StepKeepsARole(org: Org, t: Tables, step: Step, user: string)
    requires HasRole(t, user)
    ensures HasRole(After(org, t, step), user)
  {
    var kept :| UserRole(user, kept) in t.userRoles;
    var after := After(org, t, step);
    if Attempt(org, t, step).Ok? && step.AssignRoles? && step.target == user {
      assert UserRole(user, step.roleIds[0]) in after.userRoles;
    } else if Attempt(org, t, step).Ok? && step.RemoveRole? && step.target == user {
      var bound := BoundRoles(t, user);
      if step.role == kept {
        AnotherOne(bound, kept);
        var other :| other in bound && other != kept;
        assert UserRole(user, other) in after.userRoles;
      } else {
        assert UserRole(user, kept) in after.userRoles;
      }
    } else {
      assert UserRole(user, kept) in after.userRoles;
    }
  }

  lemma AnotherOne(s: set<string>, x: string)
    requires x in s && |s| > 1
    ensures exists y :: y in s && y != x
  {
    assert |s - {x}| > 0;
    var y :| y in s - {x};
  }

  /** Every bound role exists and is filed under its user's own department. */
  ghost predicate RolesAtHome(org: Org, t: Tables)
  {
    forall b | b in t.userRoles ::
      b.user in org.users && b.role in org.roles && Some(org.roles[b.role].dept) == org.users[b.user].dept
  }

  /** Over every run, by anybody, administrators included: nobody gets a role of another department. */
  lemma {:induction false} RolesStayAtHome(org: Org, t: Tables, steps: seq<Step>)
    requires RolesAtHome(org, t)
    ensures RolesAtHome(org, Run(org, t, steps))
    decreases steps
  {
    if steps == [] {
    } else {
      var step, after := steps[0], After(org, t, steps[0]);
      if Attempt(org, t, step).Ok? && step.AssignRoles? {
        AllFound(FoundRoles(org, step.roleIds), step.roleIds);
        forall role | role in step.roleIds
          ensures role in org.roles && Assignable(org, org.users[step.target].dept, role)
        {
          assert role in FoundRoles(org, step.roleIds);
        }
      }
      RolesStayAtHome(org, after, steps[1..]);
    }
  }

  /** Equal counts mean that every id was found. */
  lemma AllFound(found: set<string>, ids: seq<string>)
    requires found <= (set id | id in ids) && |found| == |ids|
    ensures forall id | id in ids :: id in found
  {
    Collections.SetOfSeq(ids);
    SameSize(found, set id | id in ids);
  }

  lemma SameSize(a: set<string>, b: set<string>)
    requires a <= b && |b| <= |a|
    ensures a == b
  {
    assert |b| == |a| + |b - a| by {
      assert b == a + (b - a);
    }
  }

  /** A head with one ordinary role, a clerk without roles, and a break-glass role not marked as system. */
  function UnmarkedOrg(head: string, clerk: string, chief: string, root: string, code: string, dept: string): Org
  {
    Org(map[head := User(Some(dept), true), clerk := User(Some(dept), true)],
        map[chief := Role(code, dept, false, true), root := Role(SUPER_ADMIN, dept, false, true)],
        map[], map[dept := Departments.Dept(None, None, true)])
  }

  lemma HeadReachesDepartment(head: string, clerk: string, chief: string, root: string, code: string, dept: string)
    requires head != clerk && chief != root && code != SUPER_ADMIN && dept != ""
    ensures var org, t := UnmarkedOrg(head, clerk, chief, root, code, dept), Tables({UserRole(head, chief)}, {});
            && HeldRoles(org, t, head) == {chief} && HeldRoles(org, t, clerk) == {}
            && WithinScope(org, t, head, Some(dept))
  {
    var org, t := UnmarkedOrg(head, clerk, chief, root, code, dept), Tables({UserRole(head, chief)}, {});
    assert chief in HeldRoles(org, t, head);
    var depts := set role | role in HeldRoles(org, t, head) :: org.roles[role].dept;
    assert dept in depts && Departments.Covers(dept, dept, None);
  }

  /**
   The system mark is what protects the break-glass role. Without it the administrators do grow: a
   department head who is no administrator makes a colleague one.
   */
  lemma UnmarkedAdminRoleEscapes(head: string, clerk: string, chief: string, root: string, code: string, dept: string)
    requires head != clerk && chief != root && code != SUPER_ADMIN && dept != ""
    ensures var org, t := UnmarkedOrg(head, clerk, chief, root, code, dept), Tables({UserRole(head, chief)}, {});
            && !IsAdmin(org, t, head) && !IsAdmin(org, t, clerk)
            && IsAdmin(org, After(org, t, AssignRoles(head, clerk, [root])), clerk)
  {
    var org, t := UnmarkedOrg(head, clerk, chief, root, code, dept), Tables({UserRole(head, chief)}, {});
    HeadReachesDepartment(head, clerk, chief, root, code, dept);
    assert FoundRoles(org, [root]) == {root};
    assert RoleCodes(org, t, root) == {};
    assert Attempt(org, t, AssignRoles(head, clerk, [root])) == Ok(WithUserRoles(t, clerk, [root]));
    NewRoles(org, t, clerk, [root]);
    assert root in [root] && IsAdminRole(org, root);
  }
}
