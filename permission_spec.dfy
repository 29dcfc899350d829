/**
 * What each public operation of the migration permission tool
 * (phpbb_db_migration_tools_permission) does to the ACL tables, as a
 * function from the database before the call to a Transition: the database
 * after it, the outcome (done, or the exception raised) and whether the ACL
 * cache was purged. The class PermissionTool carries out the same
 * transitions statement by statement.
 */
module PermissionSpec {
  import opened Wrappers
  import opened AclTables
  import opened MigrationExceptions

  /** Every operation returns false on success, or throws one migration exception. */
  datatype Outcome = Done | Raised(error: MigrationException)

  datatype Transition = Transition(db: Db, out: Outcome, purge: bool)

  const RoleType := "role"
  const GroupType := "group"

  /** exists(name, global): some option row has the name and the requested scope flag. */
  function OptionExists(options: seq<OptionRow>, name: string, global: bool): (b: bool)
    ensures b <==> exists i :: 0 <= i < |options| && options[i].name == name && InScope(options[i], global)
  {
    FindOption(options, name, global).Some?
  }

  /** The options row a new option gets from the ACL admin's add-option entry point. */
  function FreshOption(db: Db, name: string, global: bool): OptionRow
  {
    OptionRow(db.nextOptionId, name, global, !global)
  }

  function Add(db: Db, name: string, global: bool): Transition
  {
    if OptionExists(db.options, name, global) then
      Transition(db, Raised(Error("PERMISSION_ALREADY_EXISTS", Str(name))), false)
    else if OptionExists(db.options, name, !global) then
      Transition(db.(options := SetBothScopes(db.options, name)), Done, false)
    else
      Transition(db.(options := db.options + [FreshOption(db, name, global)], nextOptionId := db.nextOptionId + 1), Done, false)
  }

  /** The cascade of remove: the option's rows in acl_groups, acl_roles_data, acl_users and acl_options. */
  function DeleteOption(db: Db, id: nat): Db
  {
    db.(groupAuth := Delete(db.groupAuth, OptionOfGroupAuth, {id}),
        roleData := Delete(db.roleData, OptionOfData, {id}),
        userAuth := Delete(db.userAuth, OptionOfUserAuth, {id}),
        options := Delete(db.options, OptionIdOf, {id}))
  }

  function Remove(db: Db, name: string, global: bool): Transition
  {
    match FindOption(db.options, name, global)
    case None => Transition(db, Raised(Error("PERMISSION_NOT_EXIST", Str(name))), false)
    case Some(i) =>
      var row := db.options[i];
      if row.isGlobal && row.isLocal then
        Transition(db.(options := ClearScope(db.options, row.id, global)), Done, true)
      else
        Transition(DeleteOption(db, row.id), Done, true)
  }

  /**
   * role_add. The exception for a taken name passes $old_role_name, a
   * variable this method never defines, so its parameter is null.
   */
  function RoleAdd(db: Db, name: string, roleType: string, description: string): Transition
  {
    if RoleIdByName(db.roles, name) != 0 then
      Transition(db, Raised(Error("ROLE_ALREADY_EXISTS", Null)), false)
    else
      var order := NextOrder(MaxOrder(db.roles, roleType));
      Transition(db.(roles := db.roles + [RoleRow(db.nextRoleId, name, description, roleType, order)],
                     nextRoleId := db.nextRoleId + 1), Done, false)
  }

  /** role_update: renames every role called oldName; whether newName is taken is not checked. */
  function RoleUpdate(db: Db, oldName: string, newName: string): Transition
  {
    if RoleIdByName(db.roles, oldName) == 0 then
      Transition(db, Raised(Error("ROLE_NOT_EXISTS", Str(oldName))), false)
    else
      Transition(db.(roles := RenameRoles(db.roles, oldName, newName)), Done, false)
  }

  /** role_remove: the role's settings and the role row go; acl_groups rows naming the role stay. */
  function RoleRemove(db: Db, name: string): Transition
  {
    var roleId := RoleIdByName(db.roles, name);
    if roleId == 0 then
      Transition(db, Raised(Error("ROLE_NOT_EXIST", Str(name))), false)
    else
      Transition(db.(roleData := Delete(db.roleData, RoleOfData, {roleId}),
                     roles := Delete(db.roles, RoleIdOf, {roleId})), Done, true)
  }

  /**
   * The name a group's call is forwarded with. A role id that names no role
   * fetches false, which the SQL escaping turns into the empty string.
   */
  function ForwardedName(roles: seq<RoleRow>, roleId: nat): string
  {
    match RoleNameById(roles, roleId)
    case None => ""
    case Some(n) => n
  }

  /**
   * permission_set. Each resolved option the subject has no setting for
   * gets one row set to hasPermission; existing settings are left alone. A
   * group that delegates to a role at forum 0 has the call forwarded to that
   * role. An unknown subject type matches neither case and only purges.
   */
  function PermissionSet(db: Db, name: string, names: seq<string>, subjectType: string, hasPermission: bool): Transition
    decreases if subjectType == GroupType then 1 else 0
  {
    var ids := ResolveIds(db.options, names);
    if ids == [] then Transition(db, Done, false)
    else if subjectType == RoleType then
      var roleId := RoleIdByName(db.roles, name);
      if roleId == 0 then Transition(db, Raised(Error("ROLE_NOT_EXIST", Str(name))), false)
      else Transition(db.(roleData := SetRoleData(db.roleData, roleId, ids, Setting(hasPermission))), Done, true)
    else if subjectType == GroupType then
      var groupId := GroupIdByName(db.groups, name);
      if groupId == 0 then Transition(db, Raised(Error("GROUP_NOT_EXIST", Str(name))), false)
      else
        var roleId := DelegatedRole(db.groupAuth, groupId, true);
        if roleId != 0 then PermissionSet(db, ForwardedName(db.roles, roleId), names, RoleType, hasPermission)
        else Transition(db.(groupAuth := SetGroupAuth(db.groupAuth, groupId, ids, Setting(hasPermission))), Done, true)
    else Transition(db, Done, true)
  }

  /**
   * permission_unset. The DELETE filters on the option ids alone, so the
   * options leave every role (or every group), not only the named one; and
   * the group's delegation lookup accepts a role in any forum.
   */
  function PermissionUnset(db: Db, name: string, names: seq<string>, subjectType: string): Transition
    decreases if subjectType == GroupType then 1 else 0
  {
    var ids := ResolveIds(db.options, names);
    if ids == [] then Transition(db, Done, false)
    else if subjectType == RoleType then
      if RoleIdByName(db.roles, name) == 0 then Transition(db, Raised(Error("ROLE_NOT_EXIST", Str(name))), false)
      else Transition(db.(roleData := Delete(db.roleData, OptionOfData, Elements(ids))), Done, true)
    else if subjectType == GroupType then
      var groupId := GroupIdByName(db.groups, name);
      if groupId == 0 then Transition(db, Raised(Error("GROUP_NOT_EXIST", Str(name))), false)
      else
        var roleId := DelegatedRole(db.groupAuth, groupId, false);
        if roleId != 0 then PermissionUnset(db, ForwardedName(db.roles, roleId), names, RoleType)
        else Transition(db.(groupAuth := Delete(db.groupAuth, OptionOfGroupAuth, Elements(ids))), Done, true)
    else Transition(db, Done, true)
  }
}
