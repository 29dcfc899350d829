/**
 * Every operation of the permission tool keeps Valid: the schema's unique
 * option ids and names, unique role and group ids and one setting per role
 * and option, together with the invariants the model adds, auto-increment
 * counters above every id and every option row in some scope.
 */
module PermissionInvariants {
  import opened Wrappers
  import opened AclTables
  import opened MigrationExceptions
  import opened PermissionSpec

  // ---------------------------------------------------------------------
  // Integrity constraints are kept

  lemma MergeKeepsValid(db: Db, name: string)
    requires Valid(db)
    ensures Valid(db.(options := SetBothScopes(db.options, name)))
  {
    var o := SetBothScopes(db.options, name);
    assert forall i :: 0 <= i < |o| ==> o[i].id == db.options[i].id && o[i].name == db.options[i].name;
    assert forall x :: x in o ==> exists i :: 0 <= i < |db.options| && x == o[i] && db.options[i] in db.options;
  }

  lemma InsertOptionKeepsValid(db: Db, name: string, global: bool)
    requires Valid(db)
    requires forall o :: o in db.options ==> o.name != name
    ensures Valid(db.(options := db.options + [FreshOption(db, name, global)], nextOptionId := db.nextOptionId + 1))
  {
    var newRow := FreshOption(db, name, global);
    var o := db.options + [newRow];
    assert Pairwise(o, DistinctOptions) by {
      forall i, j | 0 <= i < j < |o| ensures DistinctOptions(o[i], o[j]) {
        assert o[i] == db.options[i] && o[i] in db.options;
        if j < |db.options| {
          assert o[j] == db.options[j];
        }
      }
    }
  }

  lemma AddKeepsValid(db: Db, name: string, global: bool)
    requires Valid(db)
    ensures Valid(Add(db, name, global).db)
  {
    if !OptionExists(db.options, name, global) {
      if OptionExists(db.options, name, !global) {
        MergeKeepsValid(db, name);
      } else {
        forall o | o in db.options ensures o.name != name {
          assert HasScope(o);
          var i :| 0 <= i < |db.options| && db.options[i] == o;
          assert InScope(o, global) || InScope(o, !global);
        }
        InsertOptionKeepsValid(db, name, global);
      }
    }
  }

  /** Clearing one flag of a row that has both keeps Valid: the row stays in the other scope. */
  lemma ClearScopeKeepsValid(db: Db, i: nat, global: bool)
    requires Valid(db)
    requires i < |db.options| && db.options[i].isGlobal && db.options[i].isLocal
    ensures Valid(db.(options := ClearScope(db.options, db.options[i].id, global)))
  {
    var id := db.options[i].id;
    var o := ClearScope(db.options, id, global);
    forall k | 0 <= k < |o|
      ensures o[k].id == db.options[k].id && o[k].name == db.options[k].name && HasScope(o[k]) && o[k].id < db.nextOptionId
    {
      assert db.options[k] in db.options;
      if k < i {
        assert DistinctOptions(db.options[k], db.options[i]);
      } else if i < k {
        assert DistinctOptions(db.options[i], db.options[k]);
      }
    }
    assert Pairwise(o, DistinctOptions) by {
      forall a, b | 0 <= a < b < |o| ensures DistinctOptions(o[a], o[b]) {
        assert DistinctOptions(db.options[a], db.options[b]);
      }
    }
    forall x | x in o ensures 0 < x.id < db.nextOptionId && HasScope(x) {
      var k :| 0 <= k < |o| && o[k] == x;
      assert db.options[k] in db.options;
    }
  }

  lemma DeleteOptionKeepsValid(db: Db, id: nat)
    requires Valid(db)
    ensures Valid(DeleteOption(db, id))
  {
    DeleteKeepsPairwise(db.options, OptionIdOf, {id}, DistinctOptions);
    DeleteKeepsPairwise(db.roleData, OptionOfData, {id}, DistinctRoleData);
  }

  lemma RemoveKeepsValid(db: Db, name: string, global: bool)
    requires Valid(db)
    ensures Valid(Remove(db, name, global).db)
  {
    match FindOption(db.options, name, global)
    case None =>
    case Some(i) =>
      var row := db.options[i];
      if row.isGlobal && row.isLocal {
        ClearScopeKeepsValid(db, i, global);
      } else {
        DeleteOptionKeepsValid(db, row.id);
      }
  }

  lemma RoleAddKeepsValid(db: Db, name: string, roleType: string, description: string)
    requires Valid(db)
    ensures Valid(RoleAdd(db, name, roleType, description).db)
  {
    var t := RoleAdd(db, name, roleType, description);
    if t.out.Done? {
      var r := t.db.roles;
      assert Pairwise(r, DistinctRoles) by {
        forall i, j | 0 <= i < j < |r| ensures DistinctRoles(r[i], r[j]) {
          assert r[i] == db.roles[i] && r[i] in db.roles;
          if j < |db.roles| {
            assert r[j] == db.roles[j];
          }
        }
      }
    }
  }

  lemma RoleUpdateKeepsValid(db: Db, oldName: string, newName: string)
    requires Valid(db)
    ensures Valid(RoleUpdate(db, oldName, newName).db)
  {
    var r := RenameRoles(db.roles, oldName, newName);
    assert Pairwise(r, DistinctRoles) by {
      forall i, j | 0 <= i < j < |r| ensures DistinctRoles(r[i], r[j]) {
        assert DistinctRoles(db.roles[i], db.roles[j]);
      }
    }
    forall x | x in r ensures 0 < x.id < db.nextRoleId {
      var i :| 0 <= i < |r| && r[i] == x;
      assert db.roles[i] in db.roles;
    }
    assert Valid(db.(roles := r));
  }

  lemma RoleRemoveKeepsValid(db: Db, name: string)
    requires Valid(db)
    ensures Valid(RoleRemove(db, name).db)
  {
    var roleId := RoleIdByName(db.roles, name);
    DeleteKeepsPairwise(db.roles, RoleIdOf, {roleId}, DistinctRoles);
    DeleteKeepsPairwise(db.roleData, RoleOfData, {roleId}, DistinctRoleData);
  }

  /** Appending settings only for missing options keeps one setting per role and option. */
  lemma SetRoleDataKeepsKey(roleData: seq<RoleDataRow>, roleId: nat, ids: seq<nat>, setting: int)
    requires Pairwise(roleData, DistinctRoleData)
    requires Distinct(ids)
    ensures Pairwise(SetRoleData(roleData, roleId, ids, setting), DistinctRoleData)
  {
    var present := RoleSettings(roleData, roleId);
    var missing := MissingIds(ids, present);
    MissingIdsDistinct(ids, present);
    var added := RoleRows(roleId, missing, setting);
    var r := roleData + added;
    forall i, j | 0 <= i < j < |r| ensures DistinctRoleData(r[i], r[j]) {
      if j < |roleData| {
        assert r[i] == roleData[i] && r[j] == roleData[j];
      } else if i < |roleData| {
        var a := roleData[i];
        assert r[i] == a && a in roleData;
        assert r[j] == RoleDataRow(roleId, missing[j - |roleData|], setting);
        assert missing[j - |roleData|] in missing;
        if a.roleId == roleId {
          assert a.optionId in present;
        }
      } else {
        assert r[i].optionId == missing[i - |roleData|] && r[j].optionId == missing[j - |roleData|];
      }
    }
  }

  lemma PermissionSetKeepsValid(db: Db, name: string, names: seq<string>, subjectType: string, hasPermission: bool)
    requires Valid(db)
    ensures Valid(PermissionSet(db, name, names, subjectType, hasPermission).db)
    decreases if subjectType == GroupType then 1 else 0
  {
    var ids := ResolveIds(db.options, names);
    if ids != [] {
      if subjectType == RoleType {
        var roleId := RoleIdByName(db.roles, name);
        if roleId != 0 {
          ResolveIdsDistinct(db.options, names);
          SetRoleDataKeepsKey(db.roleData, roleId, ids, Setting(hasPermission));
        }
      } else if subjectType == GroupType {
        var groupId := GroupIdByName(db.groups, name);
        if groupId != 0 {
          var roleId := DelegatedRole(db.groupAuth, groupId, true);
          if roleId != 0 {
            PermissionSetKeepsValid(db, ForwardedName(db.roles, roleId), names, RoleType, hasPermission);
          }
        }
      }
    }
  }

  lemma PermissionUnsetKeepsValid(db: Db, name: string, names: seq<string>, subjectType: string)
    requires Valid(db)
    ensures Valid(PermissionUnset(db, name, names, subjectType).db)
    decreases if subjectType == GroupType then 1 else 0
  {
    var ids := ResolveIds(db.options, names);
    if ids != [] {
      if subjectType == RoleType {
        DeleteKeepsPairwise(db.roleData, OptionOfData, Elements(ids), DistinctRoleData);
      } else if subjectType == GroupType {
        var groupId := GroupIdByName(db.groups, name);
        if groupId != 0 {
          var roleId := DelegatedRole(db.groupAuth, groupId, false);
          if roleId != 0 {
            PermissionUnsetKeepsValid(db, ForwardedName(db.roles, roleId), names, RoleType);
          }
        }
      }
    }
  }
}
