/**
 * What permission_set and permission_unset promise: unknown option names are
 * ignored (and with none known nothing happens before the subject is even
 * looked up); set inserts a setting only where the subject has none, so it
 * never overwrites and running it twice is running it once; a group that
 * delegates to a role is served through that role. The lemmas marked "as
 * written" state where the code's filters differ from its comments.
 */
module AssignmentProperties {
  import opened Wrappers
  import opened AclTables
  import opened MigrationExceptions
  import opened PermissionSpec
  import opened PermissionProperties

  predicate GroupNamed(groups: seq<GroupRow>, name: string)
  {
    exists i :: 0 <= i < |groups| && groups[i].name == name
  }

  // ---------------------------------------------------------------------
  // The table updates

  /**
   * The role's existing rows are a prefix of the result; afterwards every
   * id has a setting for the role; each appended row is the role's, carries
   * the setting and is for an id the role had no setting for.
   */
  lemma SetRoleDataAdds(roleData: seq<RoleDataRow>, roleId: nat, ids: seq<nat>, setting: int)
    ensures var r := SetRoleData(roleData, roleId, ids, setting);
      && |r| >= |roleData| && r[..|roleData|] == roleData
      && (forall x :: x in ids ==> x in RoleSettings(r, roleId))
      && (forall k :: |roleData| <= k < |r| ==>
            r[k].roleId == roleId && r[k].setting == setting && r[k].optionId in ids && r[k].optionId !in RoleSettings(roleData, roleId))
  {
    var present := RoleSettings(roleData, roleId);
    var missing := MissingIds(ids, present);
    var r := SetRoleData(roleData, roleId, ids, setting);
    forall x | x in ids ensures x in RoleSettings(r, roleId) {
      if x in present {
        var w :| w in roleData && w.roleId == roleId && w.optionId == x;
        assert w in r;
      } else {
        assert x in missing;
        var k :| 0 <= k < |missing| && missing[k] == x;
        assert r[|roleData| + k] == RoleDataRow(roleId, x, setting);
        assert r[|roleData| + k] in r;
      }
    }
    forall k | |roleData| <= k < |r|
      ensures r[k].roleId == roleId && r[k].setting == setting && r[k].optionId in ids && r[k].optionId !in present
    {
      assert missing[k - |roleData|] in missing;
    }
  }

  lemma SetRoleDataIdempotent(roleData: seq<RoleDataRow>, roleId: nat, ids: seq<nat>, setting: int)
    ensures var r := SetRoleData(roleData, roleId, ids, setting);
      SetRoleData(r, roleId, ids, setting) == r
  {
    var r := SetRoleData(roleData, roleId, ids, setting);
    SetRoleDataAdds(roleData, roleId, ids, setting);
    MissingIdsNone(ids, RoleSettings(r, roleId));
    assert r + [] == r;
  }

  /** As for roles; appended rows are at forum 0 and name no role. */
  lemma SetGroupAuthAdds(groupAuth: seq<GroupAuthRow>, groupId: nat, ids: seq<nat>, setting: int)
    ensures var r := SetGroupAuth(groupAuth, groupId, ids, setting);
      && |r| >= |groupAuth| && r[..|groupAuth|] == groupAuth
      && (forall x :: x in ids ==> x in GroupSettings(r, groupId))
      && (forall k :: |groupAuth| <= k < |r| ==>
            && r[k].groupId == groupId && r[k].forumId == 0 && r[k].roleId == 0 && r[k].setting == setting
            && r[k].optionId in ids && r[k].optionId !in GroupSettings(groupAuth, groupId))
  {
    var present := GroupSettings(groupAuth, groupId);
    var missing := MissingIds(ids, present);
    var r := SetGroupAuth(groupAuth, groupId, ids, setting);
    forall x | x in ids ensures x in GroupSettings(r, groupId) {
      if x in present {
        var w :| w in groupAuth && w.groupId == groupId && w.optionId == x;
        assert w in r;
      } else {
        assert x in missing;
        var k :| 0 <= k < |missing| && missing[k] == x;
        assert r[|groupAuth| + k] == GroupAuthRow(groupId, 0, x, 0, setting);
        assert r[|groupAuth| + k] in r;
      }
    }
    forall k | |groupAuth| <= k < |r|
      ensures r[k].groupId == groupId && r[k].forumId == 0 && r[k].roleId == 0 && r[k].setting == setting
        && r[k].optionId in ids && r[k].optionId !in present
    {
      assert missing[k - |groupAuth|] in missing;
    }
  }

  lemma SetGroupAuthIdempotent(groupAuth: seq<GroupAuthRow>, groupId: nat, ids: seq<nat>, setting: int)
    ensures var r := SetGroupAuth(groupAuth, groupId, ids, setting);
      SetGroupAuth(r, groupId, ids, setting) == r
  {
    var r := SetGroupAuth(groupAuth, groupId, ids, setting);
    SetGroupAuthAdds(groupAuth, groupId, ids, setting);
    MissingIdsNone(ids, GroupSettings(r, groupId));
    assert r + [] == r;
  }

  /** The rows permission_set appends name no role, so they create no delegation. */
  lemma SetGroupAuthKeepsNoDelegation(groupAuth: seq<GroupAuthRow>, groupId: nat, ids: seq<nat>, setting: int, forumZeroOnly: bool)
    requires DelegatedRole(groupAuth, groupId, forumZeroOnly) == 0
    ensures DelegatedRole(SetGroupAuth(groupAuth, groupId, ids, setting), groupId, forumZeroOnly) == 0
  {
    var r := SetGroupAuth(groupAuth, groupId, ids, setting);
    SetGroupAuthAdds(groupAuth, groupId, ids, setting);
    forall k | 0 <= k < |r| ensures !Delegates(r[k], groupId, forumZeroOnly) {
      if k < |groupAuth| {
        assert r[k] == groupAuth[k];
      }
    }
  }

  /** Deleting rows creates no delegation. */
  lemma DeleteKeepsNoDelegation(groupAuth: seq<GroupAuthRow>, groupId: nat, keys: set<nat>, forumZeroOnly: bool)
    requires DelegatedRole(groupAuth, groupId, forumZeroOnly) == 0
    ensures DelegatedRole(Delete(groupAuth, OptionOfGroupAuth, keys), groupId, forumZeroOnly) == 0
  {
    var r := Delete(groupAuth, OptionOfGroupAuth, keys);
    forall k | 0 <= k < |r| ensures !Delegates(r[k], groupId, forumZeroOnly) {
      assert r[k] in r;
      var j :| 0 <= j < |groupAuth| && groupAuth[j] == r[k];
    }
  }

  /** With no known option name the resolved id list is empty. */
  lemma {:induction false} NoKnownNames(options: seq<OptionRow>, names: seq<string>)
    requires forall i :: 0 <= i < |options| ==> options[i].name !in names
    ensures ResolveIds(options, names) == []
  {
    if options != [] {
      NoKnownNames(options[..|options| - 1], names);
    }
  }

  // ---------------------------------------------------------------------
  // permission_set

  /** Unknown names are ignored: with none known, nothing happens, before the subject is looked up. */
  lemma SetUnknownOptions(db: Db, name: string, names: seq<string>, subjectType: string, hasPermission: bool)
    requires forall i :: 0 <= i < |db.options| ==> db.options[i].name !in names
    ensures PermissionSet(db, name, names, subjectType, hasPermission) == Transition(db, Done, false)
  {
    NoKnownNames(db.options, names);
  }

  lemma SetRoleMissing(db: Db, name: string, names: seq<string>, hasPermission: bool)
    requires ResolveIds(db.options, names) != []
    requires !RoleNamed(db.roles, name)
    ensures PermissionSet(db, name, names, RoleType, hasPermission) == Transition(db, Raised(Error("ROLE_NOT_EXIST", Str(name))), false)
  {
  }

  /**
   * For a role: the existing rows stay as they are, each resolved option
   * ends up with a setting for the role, and the rows added are the role's,
   * set to hasPermission, for options it had no setting for.
   */
  lemma SetRoleInserts(db: Db, name: string, names: seq<string>, hasPermission: bool)
    requires Valid(db)
    requires ResolveIds(db.options, names) != []
    requires RoleNamed(db.roles, name)
    ensures var t := PermissionSet(db, name, names, RoleType, hasPermission);
            var roleId := RoleIdByName(db.roles, name);
            var ids := ResolveIds(db.options, names);
      && roleId != 0 && t.out == Done && t.purge
      && t.db == db.(roleData := t.db.roleData)
      && |t.db.roleData| >= |db.roleData| && t.db.roleData[..|db.roleData|] == db.roleData
      && (forall x :: x in ids ==> x in RoleSettings(t.db.roleData, roleId))
      && (forall k :: |db.roleData| <= k < |t.db.roleData| ==>
            && t.db.roleData[k].roleId == roleId && t.db.roleData[k].setting == Setting(hasPermission)
            && t.db.roleData[k].optionId in ids && t.db.roleData[k].optionId !in RoleSettings(db.roleData, roleId))
  {
    var i :| 0 <= i < |db.roles| && db.roles[i].name == name && db.roles[i].id == RoleIdByName(db.roles, name);
    assert db.roles[i] in db.roles;
    SetRoleDataAdds(db.roleData, RoleIdByName(db.roles, name), ResolveIds(db.options, names), Setting(hasPermission));
  }

  lemma SetGroupMissing(db: Db, name: string, names: seq<string>, hasPermission: bool)
    requires ResolveIds(db.options, names) != []
    requires !GroupNamed(db.groups, name)
    ensures PermissionSet(db, name, names, GroupType, hasPermission) == Transition(db, Raised(Error("GROUP_NOT_EXIST", Str(name))), false)
  {
  }

  /** A group delegating to a role at forum 0 is served through that role; its own rows stay. */
  lemma SetGroupForwards(db: Db, name: string, names: seq<string>, hasPermission: bool)
    requires ResolveIds(db.options, names) != []
    requires GroupIdByName(db.groups, name) != 0
    requires DelegatedRole(db.groupAuth, GroupIdByName(db.groups, name), true) != 0
    ensures var roleId := DelegatedRole(db.groupAuth, GroupIdByName(db.groups, name), true);
            var t := PermissionSet(db, name, names, GroupType, hasPermission);
      && t == PermissionSet(db, ForwardedName(db.roles, roleId), names, RoleType, hasPermission)
      && t.db.groupAuth == db.groupAuth
  {
  }

  /**
   * For a group without delegation: as for roles, with the added rows at
   * forum 0; existing rows stay.
   */
  lemma SetGroupInserts(db: Db, name: string, names: seq<string>, hasPermission: bool)
    requires Valid(db)
    requires ResolveIds(db.options, names) != []
    requires GroupNamed(db.groups, name)
    requires DelegatedRole(db.groupAuth, GroupIdByName(db.groups, name), true) == 0
    ensures var t := PermissionSet(db, name, names, GroupType, hasPermission);
            var groupId := GroupIdByName(db.groups, name);
            var ids := ResolveIds(db.options, names);
      && groupId != 0 && t.out == Done && t.purge
      && t.db == db.(groupAuth := t.db.groupAuth)
      && |t.db.groupAuth| >= |db.groupAuth| && t.db.groupAuth[..|db.groupAuth|] == db.groupAuth
      && (forall x :: x in ids ==> x in GroupSettings(t.db.groupAuth, groupId))
      && (forall k :: |db.groupAuth| <= k < |t.db.groupAuth| ==>
            && t.db.groupAuth[k].groupId == groupId && t.db.groupAuth[k].forumId == 0 && t.db.groupAuth[k].roleId == 0
            && t.db.groupAuth[k].setting == Setting(hasPermission)
            && t.db.groupAuth[k].optionId in ids && t.db.groupAuth[k].optionId !in GroupSettings(db.groupAuth, groupId))
    ensures var t := PermissionSet(db, name, names, GroupType, hasPermission);
      forall j, k :: |db.groupAuth| <= j < k < |t.db.groupAuth| ==> t.db.groupAuth[j].optionId != t.db.groupAuth[k].optionId
  {
    var i :| 0 <= i < |db.groups| && db.groups[i].name == name && db.groups[i].id == GroupIdByName(db.groups, name);
    assert db.groups[i] in db.groups;
    var groupId := GroupIdByName(db.groups, name);
    var ids := ResolveIds(db.options, names);
    SetGroupAuthAdds(db.groupAuth, groupId, ids, Setting(hasPermission));
    ResolveIdsDistinct(db.options, names);
    MissingIdsDistinct(ids, GroupSettings(db.groupAuth, groupId));
    assert PermissionSet(db, name, names, GroupType, hasPermission).db.groupAuth
      == db.groupAuth + GroupRows(groupId, MissingIds(ids, GroupSettings(db.groupAuth, groupId)), Setting(hasPermission));
  }

  /**
   * As written: a setting the group has in any forum counts as already set,
   * so an option the group holds only in forum f != 0 gets no forum-0 row.
   */
  lemma SetGroupSeesEveryForum(db: Db, name: string, names: seq<string>, hasPermission: bool, k: nat)
    requires Valid(db)
    requires ResolveIds(db.options, names) != []
    requires GroupNamed(db.groups, name)
    requires DelegatedRole(db.groupAuth, GroupIdByName(db.groups, name), true) == 0
    requires k < |db.groupAuth| && db.groupAuth[k].groupId == GroupIdByName(db.groups, name)
    ensures var t := PermissionSet(db, name, names, GroupType, hasPermission);
      forall j :: |db.groupAuth| <= j < |t.db.groupAuth| ==> t.db.groupAuth[j].optionId != db.groupAuth[k].optionId
  {
    SetGroupInserts(db, name, names, hasPermission);
    assert db.groupAuth[k] in db.groupAuth;
    assert db.groupAuth[k].optionId in GroupSettings(db.groupAuth, GroupIdByName(db.groups, name));
  }

  lemma SetUnknownType(db: Db, name: string, names: seq<string>, subjectType: string, hasPermission: bool)
    requires ResolveIds(db.options, names) != []
    requires subjectType != RoleType && subjectType != GroupType
    ensures PermissionSet(db, name, names, subjectType, hasPermission) == Transition(db, Done, true)
  {
  }

  /** A role-targeted set changes acl_roles_data alone. */
  lemma SetRoleOnlyTouchesRoleData(db: Db, name: string, names: seq<string>, hasPermission: bool)
    ensures var t := PermissionSet(db, name, names, RoleType, hasPermission);
      t.db == db.(roleData := t.db.roleData)
  {
  }

  /**
   * On every path permission_set never overwrites or removes a setting:
   * the old acl_roles_data and acl_groups rows are prefixes of the new ones,
   * and no other table changes.
   */
  lemma {:induction false} SetNeverOverwrites(db: Db, name: string, names: seq<string>, subjectType: string, hasPermission: bool)
    ensures var t := PermissionSet(db, name, names, subjectType, hasPermission);
      && |t.db.roleData| >= |db.roleData| && t.db.roleData[..|db.roleData|] == db.roleData
      && |t.db.groupAuth| >= |db.groupAuth| && t.db.groupAuth[..|db.groupAuth|] == db.groupAuth
      && t.db == db.(roleData := t.db.roleData, groupAuth := t.db.groupAuth)
    decreases if subjectType == GroupType then 1 else 0
  {
    var ids := ResolveIds(db.options, names);
    if ids != [] {
      if subjectType == RoleType {
        var roleId := RoleIdByName(db.roles, name);
        SetRoleDataAdds(db.roleData, roleId, ids, Setting(hasPermission));
      } else if subjectType == GroupType {
        var groupId := GroupIdByName(db.groups, name);
        if groupId != 0 {
          var roleId := DelegatedRole(db.groupAuth, groupId, true);
          if roleId != 0 {
            var fwd := ForwardedName(db.roles, roleId);
            assert PermissionSet(db, name, names, subjectType, hasPermission) == PermissionSet(db, fwd, names, RoleType, hasPermission);
            SetNeverOverwrites(db, fwd, names, RoleType, hasPermission);
          } else {
            var setting := Setting(hasPermission);
            assert PermissionSet(db, name, names, subjectType, hasPermission)
                == Transition(db.(groupAuth := SetGroupAuth(db.groupAuth, groupId, ids, setting)), Done, true);
            SetGroupAuthAdds(db.groupAuth, groupId, ids, setting);
          }
        }
      }
    }
  }

  /** Running permission_set again on its result changes nothing and reports the same. */
  lemma {:induction false} SetIdempotent(db: Db, name: string, names: seq<string>, subjectType: string, hasPermission: bool)
    ensures var t := PermissionSet(db, name, names, subjectType, hasPermission);
      PermissionSet(t.db, name, names, subjectType, hasPermission) == t
    decreases if subjectType == GroupType then 1 else 0
  {
    var t := PermissionSet(db, name, names, subjectType, hasPermission);
    var ids := ResolveIds(db.options, names);
    if ids != [] {
      if subjectType == RoleType {
        var roleId := RoleIdByName(db.roles, name);
        if roleId != 0 {
          SetRoleDataIdempotent(db.roleData, roleId, ids, Setting(hasPermission));
        }
      } else if subjectType == GroupType {
        var groupId := GroupIdByName(db.groups, name);
        if groupId != 0 {
          var roleId := DelegatedRole(db.groupAuth, groupId, true);
          if roleId != 0 {
            var fwd := ForwardedName(db.roles, roleId);
            SetIdempotent(db, fwd, names, RoleType, hasPermission);
            SetRoleOnlyTouchesRoleData(db, fwd, names, hasPermission);
            assert t == PermissionSet(db, fwd, names, RoleType, hasPermission);
          } else {
            SetGroupAuthIdempotent(db.groupAuth, groupId, ids, Setting(hasPermission));
            SetGroupAuthKeepsNoDelegation(db.groupAuth, groupId, ids, Setting(hasPermission), true);
          }
        }
      }
    }
  }

  // ---------------------------------------------------------------------
  // permission_unset

  lemma UnsetUnknownOptions(db: Db, name: string, names: seq<string>, subjectType: string)
    requires forall i :: 0 <= i < |db.options| ==> db.options[i].name !in names
    ensures PermissionUnset(db, name, names, subjectType) == Transition(db, Done, false)
  {
    NoKnownNames(db.options, names);
  }

  lemma UnsetRoleMissing(db: Db, name: string, names: seq<string>)
    requires ResolveIds(db.options, names) != []
    requires !RoleNamed(db.roles, name)
    ensures PermissionUnset(db, name, names, RoleType) == Transition(db, Raised(Error("ROLE_NOT_EXIST", Str(name))), false)
  {
  }

  lemma UnsetGroupMissing(db: Db, name: string, names: seq<string>)
    requires ResolveIds(db.options, names) != []
    requires !GroupNamed(db.groups, name)
    ensures PermissionUnset(db, name, names, GroupType) == Transition(db, Raised(Error("GROUP_NOT_EXIST", Str(name))), false)
  {
  }

  /**
   * As written: the DELETE is filtered on the option ids only, so the
   * options are taken from every role, the named one and all others alike.
   */
  lemma UnsetRoleClearsEveryRole(db: Db, name: string, names: seq<string>)
    requires Valid(db)
    requires ResolveIds(db.options, names) != []
    requires RoleNamed(db.roles, name)
    ensures var t := PermissionUnset(db, name, names, RoleType);
            var ids := ResolveIds(db.options, names);
      && t.out == Done && t.purge
      && t.db == db.(roleData := t.db.roleData)
      && (forall r :: r in t.db.roleData <==> r in db.roleData && r.optionId !in ids)
  {
    var i :| 0 <= i < |db.roles| && db.roles[i].name == name && db.roles[i].id == RoleIdByName(db.roles, name);
    assert db.roles[i] in db.roles;
  }

  /** As written: for a group without delegation the options are taken from every group, in every forum. */
  lemma UnsetGroupClearsEveryGroup(db: Db, name: string, names: seq<string>)
    requires Valid(db)
    requires ResolveIds(db.options, names) != []
    requires GroupNamed(db.groups, name)
    requires DelegatedRole(db.groupAuth, GroupIdByName(db.groups, name), false) == 0
    ensures var t := PermissionUnset(db, name, names, GroupType);
            var ids := ResolveIds(db.options, names);
      && t.out == Done && t.purge
      && t.db == db.(groupAuth := t.db.groupAuth)
      && (forall r :: r in t.db.groupAuth <==> r in db.groupAuth && r.optionId !in ids)
  {
    var i :| 0 <= i < |db.groups| && db.groups[i].name == name && db.groups[i].id == GroupIdByName(db.groups, name);
    assert db.groups[i] in db.groups;
  }

  lemma UnsetGroupForwards(db: Db, name: string, names: seq<string>)
    requires ResolveIds(db.options, names) != []
    requires GroupIdByName(db.groups, name) != 0
    requires DelegatedRole(db.groupAuth, GroupIdByName(db.groups, name), false) != 0
    ensures var roleId := DelegatedRole(db.groupAuth, GroupIdByName(db.groups, name), false);
      PermissionUnset(db, name, names, GroupType) == PermissionUnset(db, ForwardedName(db.roles, roleId), names, RoleType)
  {
  }

  /**
   * As written: the two delegation lookups differ. A group whose only role
   * row is in a forum other than 0 is set directly but unset through the role.
   */
  lemma DelegationLookupsDiffer(db: Db, name: string, names: seq<string>, hasPermission: bool)
    requires ResolveIds(db.options, names) != []
    requires GroupIdByName(db.groups, name) != 0
    requires DelegatedRole(db.groupAuth, GroupIdByName(db.groups, name), true) == 0
    requires DelegatedRole(db.groupAuth, GroupIdByName(db.groups, name), false) != 0
    ensures var groupId := GroupIdByName(db.groups, name);
            var ids := ResolveIds(db.options, names);
            var roleId := DelegatedRole(db.groupAuth, groupId, false);
      && PermissionSet(db, name, names, GroupType, hasPermission).db.groupAuth == SetGroupAuth(db.groupAuth, groupId, ids, Setting(hasPermission))
      && PermissionUnset(db, name, names, GroupType) == PermissionUnset(db, ForwardedName(db.roles, roleId), names, RoleType)
      && exists k :: 0 <= k < |db.groupAuth| && db.groupAuth[k].groupId == groupId && db.groupAuth[k].roleId != 0 && db.groupAuth[k].forumId != 0
  {
  }

  /** Running permission_unset again on its result changes nothing and reports the same. */
  lemma {:induction false} UnsetIdempotent(db: Db, name: string, names: seq<string>, subjectType: string)
    ensures var t := PermissionUnset(db, name, names, subjectType);
      PermissionUnset(t.db, name, names, subjectType) == t
    decreases if subjectType == GroupType then 1 else 0
  {
    var t := PermissionUnset(db, name, names, subjectType);
    var ids := ResolveIds(db.options, names);
    if ids != [] {
      if subjectType == RoleType {
        DeleteIdempotent(db.roleData, OptionOfData, Elements(ids));
      } else if subjectType == GroupType {
        var groupId := GroupIdByName(db.groups, name);
        if groupId != 0 {
          var roleId := DelegatedRole(db.groupAuth, groupId, false);
          if roleId != 0 {
            var fwd := ForwardedName(db.roles, roleId);
            UnsetIdempotent(db, fwd, names, RoleType);
            assert t == PermissionUnset(db, fwd, names, RoleType);
          } else {
            DeleteIdempotent(db.groupAuth, OptionOfGroupAuth, Elements(ids));
            DeleteKeepsNoDelegation(db.groupAuth, groupId, Elements(ids), false);
          }
        }
      }
    }
  }
}
