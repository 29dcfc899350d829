/**
 * What the permission tool's operations promise their callers, stated over
 * the transition functions: errors leave the tables alone, add merges scopes
 * onto one row, remove clears one flag or cascades, role_add ranks roles
 * per type, and permission_set only inserts missing settings, so that
 * running it again changes nothing. The lemmas marked "as written" state
 * what the code does where that differs from what its comments suggest.
 */
module PermissionProperties {
  import opened Wrappers
  import opened AclTables
  import opened MigrationExceptions
  import opened PermissionSpec
  import opened PermissionInvariants

  /** Two databases that differ at most in the options table and its counter. */
  predicate OnlyOptionsDiffer(a: Db, b: Db)
  {
    a.(options := b.options, nextOptionId := b.nextOptionId) == b
  }

  // ---------------------------------------------------------------------
  // add

  lemma AddExisting(db: Db, name: string, global: bool)
    requires OptionExists(db.options, name, global)
    ensures Add(db, name, global) == Transition(db, Raised(Error("PERMISSION_ALREADY_EXISTS", Str(name))), false)
  {
  }

  /** After a successful add the option exists in the requested scope. */
  lemma AddThenExists(db: Db, name: string, global: bool)
    requires !OptionExists(db.options, name, global)
    ensures Add(db, name, global).out == Done
    ensures OptionExists(Add(db, name, global).db.options, name, global)
    ensures OnlyOptionsDiffer(Add(db, name, global).db, db)
  {
    var o := Add(db, name, global).db.options;
    if OptionExists(db.options, name, !global) {
      var i :| 0 <= i < |db.options| && db.options[i].name == name && InScope(db.options[i], !global);
      assert o[i].name == name && InScope(o[i], global);
    } else {
      assert o[|db.options|] == FreshOption(db, name, global);
    }
  }

  lemma AddTwiceRaises(db: Db, name: string, global: bool)
    ensures Add(Add(db, name, global).db, name, global).out == Raised(Error("PERMISSION_ALREADY_EXISTS", Str(name)))
  {
    if !OptionExists(db.options, name, global) {
      AddThenExists(db, name, global);
    }
  }

  /**
   * Present only in the other scope: no row is inserted; the rows with the
   * name get both flags, so the option exists in both scopes.
   */
  lemma AddMergesScopes(db: Db, name: string, global: bool)
    requires !OptionExists(db.options, name, global) && OptionExists(db.options, name, !global)
    ensures var t := Add(db, name, global);
      && t.out == Done
      && |t.db.options| == |db.options| && t.db.nextOptionId == db.nextOptionId
      && OptionExists(t.db.options, name, true) && OptionExists(t.db.options, name, false)
      && (forall i :: 0 <= i < |db.options| ==> t.db.options[i].id == db.options[i].id && t.db.options[i].name == db.options[i].name)
      && (forall i :: 0 <= i < |db.options| && db.options[i].name != name ==> t.db.options[i] == db.options[i])
      && (forall i :: 0 <= i < |db.options| && db.options[i].name == name ==> t.db.options[i].isGlobal && t.db.options[i].isLocal)
  {
    var t := Add(db, name, global);
    var o := SetBothScopes(db.options, name);
    assert t == Transition(db.(options := o), Done, false);
    var i :| 0 <= i < |db.options| && db.options[i].name == name && InScope(db.options[i], !global);
    SetBothScopesFlagsRow(db.options, name, i);
  }

  /** The UPDATE keeps every row's id and name, flags the named rows for both scopes and leaves the rest. */
  lemma SetBothScopesFlagsRow(options: seq<OptionRow>, name: string, i: nat)
    requires i < |options| && options[i].name == name
    ensures var o := SetBothScopes(options, name);
      && |o| == |options|
      && OptionExists(o, name, true) && OptionExists(o, name, false)
      && (forall k :: 0 <= k < |options| ==> o[k].id == options[k].id && o[k].name == options[k].name)
      && (forall k :: 0 <= k < |options| && options[k].name != name ==> o[k] == options[k])
      && (forall k :: 0 <= k < |options| && options[k].name == name ==> o[k].isGlobal && o[k].isLocal)
  {
    var o := SetBothScopes(options, name);
    assert o[i].name == name && InScope(o[i], true) && InScope(o[i], false);
  }

  /** Absent in both scopes: exactly one row is appended, in the requested scope only. */
  lemma AddInsertsOneRow(db: Db, name: string, global: bool)
    requires !OptionExists(db.options, name, global) && !OptionExists(db.options, name, !global)
    ensures var t := Add(db, name, global);
      && t.out == Done
      && |t.db.options| == |db.options| + 1 && t.db.options[..|db.options|] == db.options
      && OptionExists(t.db.options, name, global) && !OptionExists(t.db.options, name, !global)
  {
    var o := Add(db, name, global).db.options;
    assert o[|db.options|] == FreshOption(db, name, global);
    assert forall i :: 0 <= i < |db.options| ==> o[i] == db.options[i];
  }

  /** Adding an option locally and then globally leaves one row for it, with both flags. */
  lemma AddLocalThenGlobal(db: Db, name: string)
    requires Valid(db)
    requires forall o :: o in db.options ==> o.name != name
    ensures var t1 := Add(db, name, false);
            var t2 := Add(t1.db, name, true);
      && t1.out == Done && t2.out == Done
      && |t2.db.options| == |db.options| + 1
      && (exists i :: 0 <= i < |t2.db.options| && t2.db.options[i].name == name && t2.db.options[i].isGlobal && t2.db.options[i].isLocal)
      && (forall i, j :: 0 <= i < |t2.db.options| && 0 <= j < |t2.db.options| && t2.db.options[i].name == name && t2.db.options[j].name == name ==> i == j)
  {
    var t1 := Add(db, name, false);
    assert !OptionExists(db.options, name, false) && !OptionExists(db.options, name, true) by {
      forall k | 0 <= k < |db.options| ensures db.options[k].name != name {
        assert db.options[k] in db.options;
      }
    }
    AddInsertsOneRow(db, name, false);
    AddKeepsValid(db, name, false);
    var t2 := Add(t1.db, name, true);
    AddMergesScopes(t1.db, name, true);
    AddKeepsValid(t1.db, name, true);
    OneRowInBothScopes(t2.db.options, name);
  }

  /**
   * Under the unique key on auth_option, a name present in both scopes has
   * one row, carrying both flags.
   */
  lemma OneRowInBothScopes(options: seq<OptionRow>, name: string)
    requires Pairwise(options, DistinctOptions)
    requires OptionExists(options, name, true) && OptionExists(options, name, false)
    ensures exists i :: 0 <= i < |options| && options[i].name == name && options[i].isGlobal && options[i].isLocal
    ensures forall i, j :: 0 <= i < |options| && 0 <= j < |options| && options[i].name == name && options[j].name == name ==> i == j
  {
    var i :| 0 <= i < |options| && options[i].name == name && InScope(options[i], true);
    var k :| 0 <= k < |options| && options[k].name == name && InScope(options[k], false);
    SameNameSameRow(options, i, k);
    forall a, b | 0 <= a < |options| && 0 <= b < |options| && options[a].name == name && options[b].name == name
      ensures a == b
    {
      SameNameSameRow(options, a, b);
    }
  }

  /** Under the unique key on auth_option, two rows with one name are one row. */
  lemma SameNameSameRow(options: seq<OptionRow>, i: nat, j: nat)
    requires Pairwise(options, DistinctOptions)
    requires i < |options| && j < |options| && options[i].name == options[j].name
    ensures i == j
  {
  }

  // ---------------------------------------------------------------------
  // remove

  lemma RemoveMissing(db: Db, name: string, global: bool)
    requires !OptionExists(db.options, name, global)
    ensures Remove(db, name, global) == Transition(db, Raised(Error("PERMISSION_NOT_EXIST", Str(name))), false)
  {
  }

  /** Clearing one flag of a two-scope row, with names unique, leaves the name in the other scope only. */
  lemma ClearScopeOfSharedRow(options: seq<OptionRow>, i: nat, global: bool)
    requires Pairwise(options, DistinctOptions)
    requires i < |options| && options[i].isGlobal && options[i].isLocal
    ensures var o := ClearScope(options, options[i].id, global);
      |o| == |options| && !OptionExists(o, options[i].name, global) && OptionExists(o, options[i].name, !global)
  {
    var o := ClearScope(options, options[i].id, global);
    var name := options[i].name;
    assert InScope(o[i], !global);
    forall k | 0 <= k < |o| && o[k].name == name ensures !InScope(o[k], global) {
      assert options[k].name == name;
    }
  }

  /**
   * An option in both scopes: only the requested flag is cleared; the row
   * and every assignment stay; the cache is purged.
   */
  lemma RemoveOneOfTwoScopes(db: Db, name: string, global: bool)
    requires Pairwise(db.options, DistinctOptions)
    requires OptionExists(db.options, name, global) && OptionExists(db.options, name, !global)
    ensures var t := Remove(db, name, global);
      && t.out == Done && t.purge
      && |t.db.options| == |db.options|
      && !OptionExists(t.db.options, name, global) && OptionExists(t.db.options, name, !global)
      && t.db == db.(options := t.db.options)
    ensures var t := Remove(db, name, global);
            var i := FindOption(db.options, name, global).value;
      forall k :: 0 <= k < |db.options| ==>
        t.db.options[k] == (if k != i then db.options[k]
                            else if global then db.options[k].(isGlobal := false)
                            else db.options[k].(isLocal := false))
  {
    var i := FindOption(db.options, name, global).value;
    var j :| 0 <= j < |db.options| && db.options[j].name == name && InScope(db.options[j], !global);
    SameNameSameRow(db.options, i, j);
    var row := db.options[i];
    assert row.isGlobal && row.isLocal;
    ClearScopeOfSharedRow(db.options, i, global);
    var o := ClearScope(db.options, row.id, global);
    assert Remove(db, name, global) == Transition(db.(options := o), Done, true);
    forall k | 0 <= k < |db.options| && k != i
      ensures o[k] == db.options[k]
    {
      if k < i {
        assert DistinctOptions(db.options[k], db.options[i]);
      } else {
        assert DistinctOptions(db.options[i], db.options[k]);
      }
    }
  }

  /**
   * An option in one scope only: its row goes, and so does every
   * acl_groups, acl_roles_data and acl_users row of its id; the cache is purged.
   */
  lemma RemoveLastScope(db: Db, name: string, global: bool)
    requires Pairwise(db.options, DistinctOptions)
    requires OptionExists(db.options, name, global) && !OptionExists(db.options, name, !global)
    ensures var t := Remove(db, name, global);
            var id := db.options[FindOption(db.options, name, global).value].id;
      && t.out == Done && t.purge
      && !OptionExists(t.db.options, name, true) && !OptionExists(t.db.options, name, false)
      && (forall o :: o in t.db.options <==> o in db.options && o.id != id)
      && (forall r :: r in t.db.roleData <==> r in db.roleData && r.optionId != id)
      && (forall r :: r in t.db.groupAuth <==> r in db.groupAuth && r.optionId != id)
      && (forall r :: r in t.db.userAuth <==> r in db.userAuth && r.optionId != id)
      && t.db.roles == db.roles && t.db.groups == db.groups
      && t.db.nextOptionId == db.nextOptionId && t.db.nextRoleId == db.nextRoleId
  {
    var i := FindOption(db.options, name, global).value;
    var row := db.options[i];
    assert !(row.isGlobal && row.isLocal);
    var t := Remove(db, name, global);
    assert t == Transition(DeleteOption(db, row.id), Done, true);
    var o := Delete(db.options, OptionIdOf, {row.id});
    assert t.db.options == o;
    DeleteRowDropsName(db.options, i);
    assert db.options[i].name == name;
    assert o == Delete(db.options, OptionIdOf, {db.options[i].id});
    assert forall k :: 0 <= k < |o| ==> o[k].name != name;
    assert !OptionExists(o, name, true) && !OptionExists(o, name, false);
  }

  /** Under the unique key on auth_option, deleting a row's id leaves no row with its name. */
  lemma DeleteRowDropsName(options: seq<OptionRow>, i: nat)
    requires Pairwise(options, DistinctOptions) && i < |options|
    ensures var r := Delete(options, OptionIdOf, {options[i].id});
      forall k :: 0 <= k < |r| ==> r[k].name != options[i].name
  {
    var r := Delete(options, OptionIdOf, {options[i].id});
    forall k | 0 <= k < |r| ensures r[k].name != options[i].name {
      assert r[k] in r;
      var j :| 0 <= j < |options| && options[j] == r[k];
      if r[k].name == options[i].name {
        SameNameSameRow(options, i, j);
      }
    }
  }

  // ---------------------------------------------------------------------
  // role_add, role_update, role_remove

  predicate RoleNamed(roles: seq<RoleRow>, name: string)
  {
    exists i :: 0 <= i < |roles| && roles[i].name == name
  }

  /** A taken name raises ROLE_ALREADY_EXISTS whose parameter is null (as written), not the name. */
  lemma RoleAddTaken(db: Db, name: string, roleType: string, description: string)
    requires Valid(db)
    requires RoleNamed(db.roles, name)
    ensures RoleAdd(db, name, roleType, description) == Transition(db, Raised(Error("ROLE_ALREADY_EXISTS", Null)), false)
    ensures RoleAdd(db, name, roleType, description).out.error.parameters != [Str(name)]
  {
    var i :| 0 <= i < |db.roles| && db.roles[i].name == name && db.roles[i].id == RoleIdByName(db.roles, name);
    assert db.roles[i] in db.roles;
  }

  /**
   * A free name: one role is appended, ranked above every role of its type,
   * one above the highest rank when that is positive, and 1 for the first of its type.
   */
  lemma RoleAddFree(db: Db, name: string, roleType: string, description: string)
    requires !RoleNamed(db.roles, name)
    ensures var t := RoleAdd(db, name, roleType, description);
            var r := t.db.roles[|db.roles|];
      && t.out == Done && !t.purge
      && |t.db.roles| == |db.roles| + 1 && t.db.roles[..|db.roles|] == db.roles
      && r.name == name && r.roleType == roleType && r.description == description && r.id == db.nextRoleId
      && r.order >= 1
      && (forall i :: 0 <= i < |db.roles| && db.roles[i].roleType == roleType ==> db.roles[i].order < r.order)
      && (forall i :: 0 <= i < |db.roles| && db.roles[i].roleType == roleType && db.roles[i].order > 0
            && (forall j :: 0 <= j < |db.roles| && db.roles[j].roleType == roleType ==> db.roles[j].order <= db.roles[i].order)
            ==> r.order == db.roles[i].order + 1)
      && ((forall i :: 0 <= i < |db.roles| ==> db.roles[i].roleType != roleType) ==> r.order == 1)
      && (((exists i :: 0 <= i < |db.roles| && db.roles[i].roleType == roleType)
           && (forall i :: 0 <= i < |db.roles| && db.roles[i].roleType == roleType ==> db.roles[i].order == 0))
          ==> r.order == 1)
      && t.db == db.(roles := t.db.roles, nextRoleId := t.db.nextRoleId)
  {
    var m := MaxOrder(db.roles, roleType);
    forall i | 0 <= i < |db.roles| && db.roles[i].roleType == roleType && db.roles[i].order > 0
        && (forall j :: 0 <= j < |db.roles| && db.roles[j].roleType == roleType ==> db.roles[j].order <= db.roles[i].order)
      ensures NextOrder(m) == db.roles[i].order + 1
    {
      var k :| 0 <= k < |db.roles| && db.roles[k].roleType == roleType && db.roles[k].order == m.value;
    }
  }

  /** The first role of a type gets rank 1 and a second one rank 2. */
  lemma RoleAddFirstThenSecond(db: Db, first: string, second: string, roleType: string, d1: string, d2: string)
    requires first != second
    requires !RoleNamed(db.roles, first) && !RoleNamed(db.roles, second)
    requires forall i :: 0 <= i < |db.roles| ==> db.roles[i].roleType != roleType
    ensures var t1 := RoleAdd(db, first, roleType, d1);
            var t2 := RoleAdd(t1.db, second, roleType, d2);
      && t1.out == Done && t2.out == Done
      && t2.db.roles[|db.roles|].order == 1 && t2.db.roles[|db.roles| + 1].order == 2
  {
    var t1 := RoleAdd(db, first, roleType, d1);
    RoleAddFree(db, first, roleType, d1);
    assert !RoleNamed(t1.db.roles, second) by {
      forall i | 0 <= i < |t1.db.roles| ensures t1.db.roles[i].name != second {
        if i < |db.roles| {
          assert t1.db.roles[i] == db.roles[i];
        }
      }
    }
    RoleAddFree(t1.db, second, roleType, d2);
    var r := t1.db.roles;
    assert forall i :: 0 <= i < |r| && r[i].roleType == roleType ==> i == |db.roles| by {
      forall i | 0 <= i < |r| && r[i].roleType == roleType ensures i == |db.roles| {
      }
    }
  }

  /** Adding the same name twice raises ROLE_ALREADY_EXISTS the second time. */
  lemma RoleAddTwiceRaises(db: Db, name: string, roleType: string, description: string)
    requires Valid(db)
    ensures var t := RoleAdd(db, name, roleType, description);
      RoleAdd(t.db, name, roleType, description).out == Raised(Error("ROLE_ALREADY_EXISTS", Null))
  {
    var t := RoleAdd(db, name, roleType, description);
    RoleAddKeepsValid(db, name, roleType, description);
    if !RoleNamed(db.roles, name) {
      RoleAddFree(db, name, roleType, description);
      assert t.db.roles[|db.roles|].name == name;
    }
    RoleAddTaken(t.db, name, roleType, description);
  }

  lemma RoleUpdateMissing(db: Db, oldName: string, newName: string)
    requires !RoleNamed(db.roles, oldName)
    ensures RoleUpdate(db, oldName, newName) == Transition(db, Raised(Error("ROLE_NOT_EXISTS", Str(oldName))), false)
  {
  }

  /** Only role_name changes, and it changes on exactly the roles called oldName. */
  lemma RoleUpdateRenames(db: Db, oldName: string, newName: string)
    requires Valid(db)
    requires RoleNamed(db.roles, oldName)
    ensures var t := RoleUpdate(db, oldName, newName);
      && t.out == Done && !t.purge
      && t.db == db.(roles := t.db.roles)
      && |t.db.roles| == |db.roles|
      && (forall i :: 0 <= i < |db.roles| ==> t.db.roles[i].(name := db.roles[i].name) == db.roles[i])
      && (forall i :: 0 <= i < |db.roles| ==> t.db.roles[i].name == if db.roles[i].name == oldName then newName else db.roles[i].name)
      && RoleNamed(t.db.roles, newName)
      && (oldName != newName ==> !RoleNamed(t.db.roles, oldName))
  {
    var i :| 0 <= i < |db.roles| && db.roles[i].name == oldName && db.roles[i].id == RoleIdByName(db.roles, oldName);
    assert db.roles[i] in db.roles;
    assert RoleUpdate(db, oldName, newName) == Transition(db.(roles := RenameRoles(db.roles, oldName, newName)), Done, false);
    RenameRolesNames(db.roles, oldName, newName, i);
  }

  /** The UPDATE changes names only, renames exactly the rows called oldName, and so leaves none. */
  lemma RenameRolesNames(roles: seq<RoleRow>, oldName: string, newName: string, i: nat)
    requires i < |roles| && roles[i].name == oldName
    ensures var r := RenameRoles(roles, oldName, newName);
      && |r| == |roles|
      && (forall k :: 0 <= k < |roles| ==> r[k].(name := roles[k].name) == roles[k])
      && (forall k :: 0 <= k < |roles| ==> r[k].name == if roles[k].name == oldName then newName else roles[k].name)
      && RoleNamed(r, newName) && (oldName != newName ==> !RoleNamed(r, oldName))
  {
    var r := RenameRoles(roles, oldName, newName);
    assert r[i].name == newName;
  }

  /** As written: renaming onto a name already in use leaves two roles with that name. */
  lemma RoleUpdateCanDuplicateName(db: Db, oldName: string, newName: string, i: nat, j: nat)
    requires Valid(db)
    requires i < |db.roles| && j < |db.roles|
    requires db.roles[i].name == oldName && db.roles[j].name == newName && oldName != newName
    ensures var t := RoleUpdate(db, oldName, newName);
      t.out == Done && i != j && t.db.roles[i].name == newName && t.db.roles[j].name == newName
  {
    RoleUpdateRenames(db, oldName, newName);
  }

  lemma RoleRemoveMissing(db: Db, name: string)
    requires !RoleNamed(db.roles, name)
    ensures RoleRemove(db, name) == Transition(db, Raised(Error("ROLE_NOT_EXIST", Str(name))), false)
  {
  }

  /**
   * The role row and that role's settings go; the settings of every other
   * role, and the acl_groups rows that name the role, stay.
   */
  lemma RoleRemoveDeletes(db: Db, name: string)
    requires Valid(db)
    requires RoleNamed(db.roles, name)
    ensures var t := RoleRemove(db, name);
            var roleId := RoleIdByName(db.roles, name);
      && t.out == Done && t.purge
      && roleId != 0
      && (forall r :: r in t.db.roles <==> r in db.roles && r.id != roleId)
      && (forall r :: r in t.db.roleData <==> r in db.roleData && r.roleId != roleId)
      && t.db == db.(roles := t.db.roles, roleData := t.db.roleData)
  {
    var i :| 0 <= i < |db.roles| && db.roles[i].name == name && db.roles[i].id == RoleIdByName(db.roles, name);
    assert db.roles[i] in db.roles;
  }

  /**
   * As written: a group that delegated to the removed role still does, and
   * the role id now names no role, so forwarding uses the empty name.
   */
  lemma RoleRemoveLeavesDelegation(db: Db, name: string, groupId: nat)
    requires Valid(db)
    requires RoleNamed(db.roles, name)
    requires DelegatedRole(db.groupAuth, groupId, true) == RoleIdByName(db.roles, name)
    ensures var t := RoleRemove(db, name);
            var roleId := RoleIdByName(db.roles, name);
      && DelegatedRole(t.db.groupAuth, groupId, true) == roleId
      && RoleNameById(t.db.roles, roleId).None?
      && ForwardedName(t.db.roles, roleId) == ""
  {
    RoleRemoveDeletes(db, name);
    var t := RoleRemove(db, name);
    var roleId := RoleIdByName(db.roles, name);
    forall k | 0 <= k < |t.db.roles| ensures t.db.roles[k].id != roleId {
      assert t.db.roles[k] in t.db.roles;
    }
  }
}
