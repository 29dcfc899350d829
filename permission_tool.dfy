/**
 * The migration permission tool as an object: the ACL tables it reaches
 * through its database connection are fields, each public method issues the
 * same queries in the same order as the PHP class, and the loops over fetched
 * rows are loops here. Every method is proved to end in the state the
 * matching function of PermissionSpec describes, and to keep Valid.
 */
module PermissionTools {
  import opened Wrappers
  import opened AclTables
  import opened MigrationExceptions
  import opened PermissionSpec
  import PermissionInvariants

  /** The options a role or group holds after rows are fetched one by one. */
  lemma RoleSettingsAppend(rows: seq<RoleDataRow>, row: RoleDataRow, roleId: nat)
    ensures RoleSettings(rows + [row], roleId) == RoleSettings(rows, roleId) + (if row.roleId == roleId then {row.optionId} else {})
  {
    var s := rows + [row];
    forall x | x in RoleSettings(s, roleId)
      ensures x in RoleSettings(rows, roleId) + (if row.roleId == roleId then {row.optionId} else {})
    {
      var w :| w in s && w.roleId == roleId && w.optionId == x;
      if w != row {
        assert w in rows;
      }
    }
    forall x | x in RoleSettings(rows, roleId) ensures x in RoleSettings(s, roleId) {
      var w :| w in rows && w.roleId == roleId && w.optionId == x;
      assert w in s;
    }
    if row.roleId == roleId {
      assert row in s;
    }
  }

  lemma GroupSettingsAppend(rows: seq<GroupAuthRow>, row: GroupAuthRow, groupId: nat)
    ensures GroupSettings(rows + [row], groupId) == GroupSettings(rows, groupId) + (if row.groupId == groupId then {row.optionId} else {})
  {
    var s := rows + [row];
    forall x | x in GroupSettings(s, groupId)
      ensures x in GroupSettings(rows, groupId) + (if row.groupId == groupId then {row.optionId} else {})
    {
      var w :| w in s && w.groupId == groupId && w.optionId == x;
      if w != row {
        assert w in rows;
      }
    }
    forall x | x in GroupSettings(rows, groupId) ensures x in GroupSettings(s, groupId) {
      var w :| w in rows && w.groupId == groupId && w.optionId == x;
      assert w in s;
    }
    if row.groupId == groupId {
      assert row in s;
    }
  }

  /** One more id through the `!isset($current_auth[...])` filter. */
  lemma MissingIdsStep(ids: seq<nat>, i: nat, present: set<nat>)
    requires i < |ids|
    ensures MissingIds(ids[..i + 1], present) == MissingIds(ids[..i], present) + (if ids[i] in present then [] else [ids[i]])
  {
    assert ids[..i + 1][..i] == ids[..i];
  }

  lemma RoleRowsAppend(roleId: nat, ids: seq<nat>, id: nat, setting: int)
    ensures RoleRows(roleId, ids + [id], setting) == RoleRows(roleId, ids, setting) + [RoleDataRow(roleId, id, setting)]
  {
    assert (ids + [id])[..|ids|] == ids;
  }

  lemma GroupRowsAppend(groupId: nat, ids: seq<nat>, id: nat, setting: int)
    ensures GroupRows(groupId, ids + [id], setting) == GroupRows(groupId, ids, setting) + [GroupAuthRow(groupId, 0, id, 0, setting)]
  {
    assert (ids + [id])[..|ids|] == ids;
  }

  class PermissionTool {
    var options: seq<OptionRow>
    var roles: seq<RoleRow>
    var roleData: seq<RoleDataRow>
    var groups: seq<GroupRow>
    var groupAuth: seq<GroupAuthRow>
    var userAuth: seq<UserAuthRow>
    var nextOptionId: nat
    var nextRoleId: nat
    /** How often the ACL option cache has been purged. */
    var cachePurges: nat
    /** Set by add once it gets past the "already exists" check. */
    var permissionsAdded: bool

    function Tables(): Db
      reads this
    {
      Db(options, roles, roleData, groups, groupAuth, userAuth, nextOptionId, nextRoleId)
    }

    ghost predicate Valid()
      reads this
    {
      AclTables.Valid(Tables())
    }

    constructor (db: Db)
      ensures Tables() == db
      ensures cachePurges == 0 && !permissionsAdded
    {
      options := db.options;
      roles := db.roles;
      roleData := db.roleData;
      groups := db.groups;
      groupAuth := db.groupAuth;
      userAuth := db.userAuth;
      nextOptionId := db.nextOptionId;
      nextRoleId := db.nextRoleId;
      cachePurges := 0;
      permissionsAdded := false;
    }

    /** exists: some option row has the name and the requested scope flag. */
    method Exists(name: string, global: bool) returns (b: bool)
      ensures b <==> exists i :: 0 <= i < |options| && options[i].name == name && InScope(options[i], global)
    {
      b := FindOption(options, name, global).Some?;
    }

    method PurgeCache()
      modifies this
      ensures Tables() == old(Tables()) && permissionsAdded == old(permissionsAdded)
      ensures cachePurges == old(cachePurges) + 1
    {
      cachePurges := cachePurges + 1;
    }

    method Add(name: string, global: bool) returns (out: Outcome)
      modifies this
      ensures var t := PermissionSpec.Add(old(Tables()), name, global);
        Tables() == t.db && out == t.out
      ensures cachePurges == old(cachePurges)
      ensures permissionsAdded == (old(permissionsAdded) || out == Done)
      ensures old(Valid()) ==> Valid()
    {
      ghost var db := Tables();
      var taken := Exists(name, global);
      if taken {
        return Raised(Error("PERMISSION_ALREADY_EXISTS", Str(name)));
      }
      permissionsAdded := true;
      var otherScope := Exists(name, !global);
      if otherScope {
        options := SetBothScopes(options, name);
      } else {
        // acl_add_option: a new row with the next id, flagged for the one scope
        options := options + [FreshOption(Tables(), name, global)];
        nextOptionId := nextOptionId + 1;
      }
      if old(Valid()) {
        PermissionInvariants.AddKeepsValid(db, name, global);
      }
      return Done;
    }

    method Remove(name: string, global: bool) returns (out: Outcome)
      modifies this
      ensures var t := PermissionSpec.Remove(old(Tables()), name, global);
        Tables() == t.db && out == t.out
      ensures cachePurges == old(cachePurges) + (if out == Done then 1 else 0)
      ensures permissionsAdded == old(permissionsAdded)
      ensures old(Valid()) ==> Valid()
    {
      ghost var db := Tables();
      var present := Exists(name, global);
      if !present {
        return Raised(Error("PERMISSION_NOT_EXIST", Str(name)));
      }
      var i := FindOption(options, name, global).value;
      var row := options[i];
      var id := row.id;
      if row.isGlobal && row.isLocal {
        options := ClearScope(options, id, global);
        assert Tables() == db.(options := ClearScope(db.options, id, global));
      } else {
        DeleteOptionRows(id);
      }
      PurgeCache();
      if old(Valid()) {
        PermissionInvariants.RemoveKeepsValid(db, name, global);
      }
      return Done;
    }

    /** The four DELETEs of remove, in the order the PHP issues them. */
    method DeleteOptionRows(id: nat)
      modifies this
      ensures Tables() == DeleteOption(old(Tables()), id)
      ensures cachePurges == old(cachePurges) && permissionsAdded == old(permissionsAdded)
    {
      groupAuth := Delete(groupAuth, OptionOfGroupAuth, {id});
      roleData := Delete(roleData, OptionOfData, {id});
      userAuth := Delete(userAuth, OptionOfUserAuth, {id});
      options := Delete(options, OptionIdOf, {id});
    }

    method RoleAdd(name: string, roleType: string, description: string) returns (out: Outcome)
      modifies this
      ensures var t := PermissionSpec.RoleAdd(old(Tables()), name, roleType, description);
        Tables() == t.db && out == t.out
      ensures cachePurges == old(cachePurges) && permissionsAdded == old(permissionsAdded)
      ensures old(Valid()) ==> Valid()
    {
      ghost var db := Tables();
      if old(Valid()) {
        PermissionInvariants.RoleAddKeepsValid(db, name, roleType, description);
      }
      var roleId := RoleIdByName(roles, name);
      if roleId != 0 {
        // the PHP passes $old_role_name, which role_add never assigns
        return Raised(Error("ROLE_ALREADY_EXISTS", Null));
      }
      var order := NextOrder(MaxOrder(roles, roleType));
      roles := roles + [RoleRow(nextRoleId, name, description, roleType, order)];
      nextRoleId := nextRoleId + 1;
      return Done;
    }

    method RoleUpdate(oldName: string, newName: string) returns (out: Outcome)
      modifies this
      ensures var t := PermissionSpec.RoleUpdate(old(Tables()), oldName, newName);
        Tables() == t.db && out == t.out
      ensures cachePurges == old(cachePurges) && permissionsAdded == old(permissionsAdded)
      ensures old(Valid()) ==> Valid()
    {
      ghost var db := Tables();
      if old(Valid()) {
        PermissionInvariants.RoleUpdateKeepsValid(db, oldName, newName);
      }
      var roleId := RoleIdByName(roles, oldName);
      if roleId == 0 {
        return Raised(Error("ROLE_NOT_EXISTS", Str(oldName)));
      }
      roles := RenameRoles(roles, oldName, newName);
      return Done;
    }

    method RoleRemove(name: string) returns (out: Outcome)
      modifies this
      ensures var t := PermissionSpec.RoleRemove(old(Tables()), name);
        Tables() == t.db && out == t.out
      ensures cachePurges == old(cachePurges) + (if out == Done then 1 else 0)
      ensures permissionsAdded == old(permissionsAdded)
      ensures old(Valid()) ==> Valid()
    {
      ghost var db := Tables();
      if old(Valid()) {
        PermissionInvariants.RoleRemoveKeepsValid(db, name);
      }
      var roleId := RoleIdByName(roles, name);
      if roleId == 0 {
        return Raised(Error("ROLE_NOT_EXIST", Str(name)));
      }
      roleData := Delete(roleData, RoleOfData, {roleId});
      roles := Delete(roles, RoleIdOf, {roleId});
      PurgeCache();
      return Done;
    }

    /** The fetch loop over SELECT auth_option_id ... WHERE auth_option IN names. */
    method CollectOptionIds(names: seq<string>) returns (ids: seq<nat>)
      ensures ids == ResolveIds(options, names)
      ensures forall id :: id in ids <==> exists i :: 0 <= i < |options| && options[i].name in names && options[i].id == id
    {
      ids := [];
      var i := 0;
      while i < |options|
        invariant 0 <= i <= |options|
        invariant ids == ResolveIds(options[..i], names)
      {
        assert options[..i + 1][..i] == options[..i];
        if options[i].name in names {
          ids := ids + [options[i].id];
        }
        i := i + 1;
      }
      assert options[..i] == options;
    }

    /** $current_auth for a role: option id to setting, one entry per fetched row. */
    method LoadRoleSettings(roleId: nat) returns (current: map<nat, int>)
      ensures current.Keys == RoleSettings(roleData, roleId)
      ensures forall id :: id in current ==> RoleDataRow(roleId, id, current[id]) in roleData
    {
      current := map[];
      var i := 0;
      while i < |roleData|
        invariant 0 <= i <= |roleData|
        invariant current.Keys == RoleSettings(roleData[..i], roleId)
        invariant forall id :: id in current ==> RoleDataRow(roleId, id, current[id]) in roleData[..i]
      {
        var row := roleData[i];
        assert roleData[..i + 1] == roleData[..i] + [row];
        RoleSettingsAppend(roleData[..i], row, roleId);
        if row.roleId == roleId {
          current := current[row.optionId := row.setting];
        }
        i := i + 1;
      }
      assert roleData[..i] == roleData;
    }

    /** $current_auth for a group: its settings in every forum. */
    method LoadGroupSettings(groupId: nat) returns (current: map<nat, int>)
      ensures current.Keys == GroupSettings(groupAuth, groupId)
      ensures forall id :: id in current ==> exists r :: r in groupAuth && r.groupId == groupId && r.optionId == id && r.setting == current[id]
    {
      current := map[];
      var i := 0;
      while i < |groupAuth|
        invariant 0 <= i <= |groupAuth|
        invariant current.Keys == GroupSettings(groupAuth[..i], groupId)
        invariant forall id :: id in current ==> exists r :: r in groupAuth[..i] && r.groupId == groupId && r.optionId == id && r.setting == current[id]
      {
        var row := groupAuth[i];
        assert groupAuth[..i + 1] == groupAuth[..i] + [row];
        GroupSettingsAppend(groupAuth[..i], row, groupId);
        if row.groupId == groupId {
          current := current[row.optionId := row.setting];
        }
        i := i + 1;
      }
      assert groupAuth[..i] == groupAuth;
    }

    /** The foreach over $new_auth that collects the acl_roles_data rows to insert. */
    method BuildRoleRows(roleId: nat, newAuth: seq<nat>, current: map<nat, int>, setting: int) returns (rows: seq<RoleDataRow>)
      ensures rows == RoleRows(roleId, MissingIds(newAuth, current.Keys), setting)
    {
      rows := [];
      var i := 0;
      while i < |newAuth|
        invariant 0 <= i <= |newAuth|
        invariant rows == RoleRows(roleId, MissingIds(newAuth[..i], current.Keys), setting)
      {
        var id := newAuth[i];
        MissingIdsStep(newAuth, i, current.Keys);
        if id !in current {
          RoleRowsAppend(roleId, MissingIds(newAuth[..i], current.Keys), id, setting);
          rows := rows + [RoleDataRow(roleId, id, setting)];
        } else {
          assert MissingIds(newAuth[..i], current.Keys) + [] == MissingIds(newAuth[..i], current.Keys);
        }
        i := i + 1;
      }
      assert newAuth[..i] == newAuth;
    }

    /** The foreach over $new_auth that collects the acl_groups rows to insert. */
    method BuildGroupRows(groupId: nat, newAuth: seq<nat>, current: map<nat, int>, setting: int) returns (rows: seq<GroupAuthRow>)
      ensures rows == GroupRows(groupId, MissingIds(newAuth, current.Keys), setting)
    {
      rows := [];
      var i := 0;
      while i < |newAuth|
        invariant 0 <= i <= |newAuth|
        invariant rows == GroupRows(groupId, MissingIds(newAuth[..i], current.Keys), setting)
      {
        var id := newAuth[i];
        MissingIdsStep(newAuth, i, current.Keys);
        if id !in current {
          GroupRowsAppend(groupId, MissingIds(newAuth[..i], current.Keys), id, setting);
          rows := rows + [GroupAuthRow(groupId, 0, id, 0, setting)];
        } else {
          assert MissingIds(newAuth[..i], current.Keys) + [] == MissingIds(newAuth[..i], current.Keys);
        }
        i := i + 1;
      }
      assert newAuth[..i] == newAuth;
    }

    /** Reads the role's current settings and inserts a row for each id it lacks. */
    method InsertRoleSettings(roleId: nat, newAuth: seq<nat>, setting: int)
      modifies this
      ensures Tables() == old(Tables()).(roleData := SetRoleData(old(roleData), roleId, newAuth, setting))
      ensures cachePurges == old(cachePurges) && permissionsAdded == old(permissionsAdded)
    {
      var current := LoadRoleSettings(roleId);
      var rows := BuildRoleRows(roleId, newAuth, current, setting);
      roleData := roleData + rows;
    }

    /** Reads the group's current settings, in every forum, and inserts a forum-0 row for each id it lacks. */
    method InsertGroupSettings(groupId: nat, newAuth: seq<nat>, setting: int)
      modifies this
      ensures Tables() == old(Tables()).(groupAuth := SetGroupAuth(old(groupAuth), groupId, newAuth, setting))
      ensures cachePurges == old(cachePurges) && permissionsAdded == old(permissionsAdded)
    {
      var current := LoadGroupSettings(groupId);
      var rows := BuildGroupRows(groupId, newAuth, current, setting);
      groupAuth := groupAuth + rows;
    }

    method PermissionSet(name: string, names: seq<string>, subjectType: string, hasPermission: bool) returns (out: Outcome)
      modifies this
      ensures var t := PermissionSpec.PermissionSet(old(Tables()), name, names, subjectType, hasPermission);
        Tables() == t.db && out == t.out && cachePurges == old(cachePurges) + (if t.purge then 1 else 0)
      ensures permissionsAdded == old(permissionsAdded)
      ensures old(Valid()) ==> Valid()
      decreases if subjectType == GroupType then 1 else 0
    {
      ghost var db := Tables();
      var newAuth := CollectOptionIds(names);
      if newAuth == [] {
        return Done;
      }
      if subjectType == RoleType {
        var roleId := RoleIdByName(roles, name);
        if roleId == 0 {
          return Raised(Error("ROLE_NOT_EXIST", Str(name)));
        }
        InsertRoleSettings(roleId, newAuth, Setting(hasPermission));
      } else if subjectType == GroupType {
        var groupId := GroupIdByName(groups, name);
        if groupId == 0 {
          return Raised(Error("GROUP_NOT_EXIST", Str(name)));
        }
        var roleId := DelegatedRole(groupAuth, groupId, true);
        if roleId != 0 {
          var roleName := ForwardedName(roles, roleId);
          out := PermissionSet(roleName, names, RoleType, hasPermission);
          return;
        }
        InsertGroupSettings(groupId, newAuth, Setting(hasPermission));
      }
      if old(Valid()) {
        PermissionInvariants.PermissionSetKeepsValid(db, name, names, subjectType, hasPermission);
      }
      PurgeCache();
      return Done;
    }

    /** DELETE FROM acl_roles_data WHERE auth_option_id IN ids: every role loses the options. */
    method DeleteRoleSettings(ids: set<nat>)
      modifies this
      ensures Tables() == old(Tables()).(roleData := Delete(old(roleData), OptionOfData, ids))
      ensures cachePurges == old(cachePurges) && permissionsAdded == old(permissionsAdded)
    {
      roleData := Delete(roleData, OptionOfData, ids);
    }

    /** DELETE FROM acl_groups WHERE auth_option_id IN ids: every group loses the options, in every forum. */
    method DeleteGroupSettings(ids: set<nat>)
      modifies this
      ensures Tables() == old(Tables()).(groupAuth := Delete(old(groupAuth), OptionOfGroupAuth, ids))
      ensures cachePurges == old(cachePurges) && permissionsAdded == old(permissionsAdded)
    {
      groupAuth := Delete(groupAuth, OptionOfGroupAuth, ids);
    }

    method PermissionUnset(name: string, names: seq<string>, subjectType: string) returns (out: Outcome)
      modifies this
      ensures var t := PermissionSpec.PermissionUnset(old(Tables()), name, names, subjectType);
        Tables() == t.db && out == t.out && cachePurges == old(cachePurges) + (if t.purge then 1 else 0)
      ensures permissionsAdded == old(permissionsAdded)
      ensures old(Valid()) ==> Valid()
      decreases if subjectType == GroupType then 1 else 0
    {
      ghost var db := Tables();
      var toRemove := CollectOptionIds(names);
      if toRemove == [] {
        return Done;
      }
      if subjectType == RoleType {
        var roleId := RoleIdByName(roles, name);
        if roleId == 0 {
          return Raised(Error("ROLE_NOT_EXIST", Str(name)));
        }
        DeleteRoleSettings(Elements(toRemove));
      } else if subjectType == GroupType {
        var groupId := GroupIdByName(groups, name);
        if groupId == 0 {
          return Raised(Error("GROUP_NOT_EXIST", Str(name)));
        }
        var roleId := DelegatedRole(groupAuth, groupId, false);
        if roleId != 0 {
          var roleName := ForwardedName(roles, roleId);
          out := PermissionUnset(roleName, names, RoleType);
          return;
        }
        DeleteGroupSettings(Elements(toRemove));
      }
      if old(Valid()) {
        PermissionInvariants.PermissionUnsetKeepsValid(db, name, names, subjectType);
      }
      PurgeCache();
      return Done;
    }
  }
}
