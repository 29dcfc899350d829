/**
 * The ACL tables the permission tool reads and writes, as sequences of rows
 * in the order the database returns them, and the single SQL statements the
 * tool issues against them (first-row fetches, UPDATEs, DELETEs). Ids are
 * naturals and 0 stands for "no row", as the tool's `if (!$role_id)` tests do.
 */
module AclTables {
  import opened Wrappers

  /** acl_options: an option may be global, local, or both on one row. */
  datatype OptionRow = OptionRow(id: nat, name: string, isGlobal: bool, isLocal: bool)

  /** acl_roles */
  datatype RoleRow = RoleRow(id: nat, name: string, description: string, roleType: string, order: nat)

  /** acl_roles_data */
  datatype RoleDataRow = RoleDataRow(roleId: nat, optionId: nat, setting: int)

  /** groups (only the columns the tool reads) */
  datatype GroupRow = GroupRow(id: nat, name: string)

  /** acl_groups: a group's setting for an option in a forum, or a role it delegates to */
  datatype GroupAuthRow = GroupAuthRow(groupId: nat, forumId: nat, optionId: nat, roleId: nat, setting: int)

  /** acl_users */
  datatype UserAuthRow = UserAuthRow(userId: nat, forumId: nat, optionId: nat, roleId: nat, setting: int)

  /** The tables, and the next auto-increment values of acl_options and acl_roles. */
  datatype Db = Db(
    options: seq<OptionRow>,
    roles: seq<RoleRow>,
    roleData: seq<RoleDataRow>,
    groups: seq<GroupRow>,
    groupAuth: seq<GroupAuthRow>,
    userAuth: seq<UserAuthRow>,
    nextOptionId: nat,
    nextRoleId: nat)

  // ---------------------------------------------------------------------
  // Integrity constraints

  predicate Pairwise<T>(s: seq<T>, differ: (T, T) -> bool)
  {
    forall i, j :: 0 <= i < j < |s| ==> differ(s[i], s[j])
  }

  /** Primary key auth_option_id and unique key auth_option. */
  predicate DistinctOptions(a: OptionRow, b: OptionRow)
  {
    a.id != b.id && a.name != b.name
  }

  predicate DistinctRoles(a: RoleRow, b: RoleRow)
  {
    a.id != b.id
  }

  predicate DistinctGroups(a: GroupRow, b: GroupRow)
  {
    a.id != b.id
  }

  /** Primary key (role_id, auth_option_id): at most one setting per role and option. */
  predicate DistinctRoleData(a: RoleDataRow, b: RoleDataRow)
  {
    a.roleId != b.roleId || a.optionId != b.optionId
  }

  predicate HasScope(r: OptionRow)
  {
    r.isGlobal || r.isLocal
  }

  /**
   * The constraints of the schema, the auto-increment counters lying above
   * every id, and every option row carrying at least one scope flag (no
   * operation leaves a row with neither: remove deletes it instead).
   */
  ghost predicate Valid(db: Db)
  {
    && db.nextOptionId > 0 && db.nextRoleId > 0
    && (forall o :: o in db.options ==> 0 < o.id < db.nextOptionId && HasScope(o))
    && Pairwise(db.options, DistinctOptions)
    && (forall r :: r in db.roles ==> 0 < r.id < db.nextRoleId)
    && Pairwise(db.roles, DistinctRoles)
    && (forall g :: g in db.groups ==> g.id > 0)
    && Pairwise(db.groups, DistinctGroups)
    && Pairwise(db.roleData, DistinctRoleData)
  }

  // ---------------------------------------------------------------------
  // Fetching the first row of a query

  /** The index of the first row satisfying p: the row a single fetch returns. */
  function FirstIndex<T>(s: seq<T>, p: T -> bool): (r: Option<nat>)
    ensures r.Some? ==> r.value < |s| && p(s[r.value])
    ensures r.Some? ==> forall j :: 0 <= j < r.value ==> !p(s[j])
    ensures r.None? <==> forall j :: 0 <= j < |s| ==> !p(s[j])
  {
    if s == [] then None
    else if p(s[0]) then Some(0)
    else
      match FirstIndex(s[1..], p)
      case None => None
      case Some(k) => Some(k + 1)
  }

  predicate InScope(r: OptionRow, global: bool)
  {
    if global then r.isGlobal else r.isLocal
  }

  /** SELECT ... FROM acl_options WHERE auth_option = name AND is_global/is_local = 1 */
  function FindOption(options: seq<OptionRow>, name: string, global: bool): (r: Option<nat>)
    ensures r.Some? ==> r.value < |options| && options[r.value].name == name && InScope(options[r.value], global)
    ensures r.None? <==> forall j :: 0 <= j < |options| ==> !(options[j].name == name && InScope(options[j], global))
  {
    FirstIndex(options, (o: OptionRow) => o.name == name && InScope(o, global))
  }

  /** SELECT role_id FROM acl_roles WHERE role_name = name; 0 when no row comes back. */
  function RoleIdByName(roles: seq<RoleRow>, name: string): (id: nat)
    ensures id != 0 ==> exists i :: 0 <= i < |roles| && roles[i].name == name && roles[i].id == id
    ensures (forall i :: 0 <= i < |roles| ==> roles[i].name != name) ==> id == 0
    ensures (exists i :: 0 <= i < |roles| && roles[i].name == name) ==> exists i :: 0 <= i < |roles| && roles[i].name == name && roles[i].id == id
  {
    match FirstIndex(roles, (r: RoleRow) => r.name == name)
    case None => 0
    case Some(i) => roles[i].id
  }

  /** SELECT group_id FROM groups WHERE group_name = name; 0 when no row comes back. */
  function GroupIdByName(groups: seq<GroupRow>, name: string): (id: nat)
    ensures id != 0 ==> exists i :: 0 <= i < |groups| && groups[i].name == name && groups[i].id == id
    ensures (forall i :: 0 <= i < |groups| ==> groups[i].name != name) ==> id == 0
    ensures (exists i :: 0 <= i < |groups| && groups[i].name == name) ==> exists i :: 0 <= i < |groups| && groups[i].name == name && groups[i].id == id
  {
    match FirstIndex(groups, (g: GroupRow) => g.name == name)
    case None => 0
    case Some(i) => groups[i].id
  }

  /** The group's acl_groups rows that name a role; the set lookup also demands forum 0. */
  predicate Delegates(r: GroupAuthRow, groupId: nat, forumZeroOnly: bool)
  {
    r.groupId == groupId && r.roleId != 0 && (!forumZeroOnly || r.forumId == 0)
  }

  /** SELECT auth_role_id FROM acl_groups WHERE group_id = ... AND auth_role_id <> 0 [AND forum_id = 0] */
  function DelegatedRole(groupAuth: seq<GroupAuthRow>, groupId: nat, forumZeroOnly: bool): (roleId: nat)
    ensures roleId != 0 ==> exists i :: 0 <= i < |groupAuth| && Delegates(groupAuth[i], groupId, forumZeroOnly) && groupAuth[i].roleId == roleId
    ensures roleId == 0 <==> forall i :: 0 <= i < |groupAuth| ==> !Delegates(groupAuth[i], groupId, forumZeroOnly)
  {
    match FirstIndex(groupAuth, (r: GroupAuthRow) => Delegates(r, groupId, forumZeroOnly))
    case None => 0
    case Some(i) => groupAuth[i].roleId
  }

  /** SELECT role_name FROM acl_roles WHERE role_id = id */
  function RoleNameById(roles: seq<RoleRow>, id: nat): (name: Option<string>)
    ensures name.Some? ==> exists i :: 0 <= i < |roles| && roles[i].id == id && roles[i].name == name.value
    ensures name.None? ==> forall i :: 0 <= i < |roles| ==> roles[i].id != id
  {
    match FirstIndex(roles, (r: RoleRow) => r.id == id)
    case None => None
    case Some(i) => Some(roles[i].name)
  }

  // ---------------------------------------------------------------------
  // DELETE and UPDATE statements

  /** DELETE FROM table WHERE key IN keys: the rows whose key is not in keys, in their order. */
  function Delete<T(!new)>(s: seq<T>, key: T -> nat, keys: set<nat>): (r: seq<T>)
    ensures |r| <= |s|
    ensures forall x :: x in r <==> x in s && key(x) !in keys
  {
    if s == [] then []
    else if key(s[0]) in keys then Delete(s[1..], key, keys)
    else [s[0]] + Delete(s[1..], key, keys)
  }

  /** A DELETE keeps every remaining row as many times as it occurred, and drops every matching one. */
  lemma {:induction false} DeleteMultiplicity<T(!new)>(s: seq<T>, key: T -> nat, keys: set<nat>)
    ensures forall x :: multiset(Delete(s, key, keys))[x] == if key(x) in keys then 0 else multiset(s)[x]
  {
    if s != [] {
      assert s == [s[0]] + s[1..];
      DeleteMultiplicity(s[1..], key, keys);
    }
  }

  /** Deleting rows keeps any pairwise constraint of the rows that are left. */
  lemma {:induction false} DeleteKeepsPairwise<T(!new)>(s: seq<T>, key: T -> nat, keys: set<nat>, differ: (T, T) -> bool)
    requires Pairwise(s, differ)
    ensures Pairwise(Delete(s, key, keys), differ)
  {
    if s != [] {
      assert Pairwise(s[1..], differ) by {
        forall i, j | 0 <= i < j < |s[1..]| ensures differ(s[1..][i], s[1..][j]) {
          assert s[1..][i] == s[i + 1] && s[1..][j] == s[j + 1];
        }
      }
      DeleteKeepsPairwise(s[1..], key, keys, differ);
      var rest := Delete(s[1..], key, keys);
      if key(s[0]) !in keys {
        var r := [s[0]] + rest;
        forall i, j | 0 <= i < j < |r| ensures differ(r[i], r[j]) {
          if i == 0 {
            assert r[j] == rest[j - 1];
            assert rest[j - 1] in s[1..];
            var k :| 0 <= k < |s[1..]| && s[1..][k] == rest[j - 1];
            assert s[k + 1] == r[j];
          } else {
            assert r[i] == rest[i - 1] && r[j] == rest[j - 1];
          }
        }
      }
    }
  }

  /** A DELETE that matches no row leaves the table as it was. */
  lemma {:induction false} DeleteNothing<T(!new)>(s: seq<T>, key: T -> nat, keys: set<nat>)
    requires forall x :: x in s ==> key(x) !in keys
    ensures Delete(s, key, keys) == s
  {
    if s != [] {
      assert forall x :: x in s[1..] ==> x in s;
      DeleteNothing(s[1..], key, keys);
      assert [s[0]] + s[1..] == s;
    }
  }

  /** Running the same DELETE twice is running it once. */
  lemma DeleteIdempotent<T(!new)>(s: seq<T>, key: T -> nat, keys: set<nat>)
    ensures Delete(Delete(s, key, keys), key, keys) == Delete(s, key, keys)
  {
    DeleteNothing(Delete(s, key, keys), key, keys);
  }

  function OptionIdOf(r: OptionRow): nat { r.id }
  function RoleIdOf(r: RoleRow): nat { r.id }
  function RoleOfData(r: RoleDataRow): nat { r.roleId }
  function OptionOfData(r: RoleDataRow): nat { r.optionId }
  function OptionOfGroupAuth(r: GroupAuthRow): nat { r.optionId }
  function OptionOfUserAuth(r: UserAuthRow): nat { r.optionId }

  /** UPDATE acl_options SET is_global = 1, is_local = 1 WHERE auth_option = name */
  function SetBothScopes(options: seq<OptionRow>, name: string): (r: seq<OptionRow>)
  {
    seq(|options|, i requires 0 <= i < |options| =>
      if options[i].name == name then options[i].(isGlobal := true, isLocal := true) else options[i])
  }

  /** UPDATE acl_options SET is_global = 0 (or is_local = 0) WHERE auth_option_id = id */
  function ClearScope(options: seq<OptionRow>, id: nat, global: bool): (r: seq<OptionRow>)
  {
    seq(|options|, i requires 0 <= i < |options| =>
      if options[i].id != id then options[i]
      else if global then options[i].(isGlobal := false)
      else options[i].(isLocal := false))
  }

  /** UPDATE acl_roles SET role_name = newName WHERE role_name = oldName */
  function RenameRoles(roles: seq<RoleRow>, oldName: string, newName: string): (r: seq<RoleRow>)
  {
    seq(|roles|, i requires 0 <= i < |roles| =>
      if roles[i].name == oldName then roles[i].(name := newName) else roles[i])
  }

  // ---------------------------------------------------------------------
  // Pieces of permission_set and permission_unset

  /**
   * SELECT auth_option_id FROM acl_options WHERE auth_option IN names, in
   * table order; names that match no row contribute nothing.
   */
  function ResolveIds(options: seq<OptionRow>, names: seq<string>): (ids: seq<nat>)
    ensures |ids| <= |options|
    ensures forall id :: id in ids <==> exists i :: 0 <= i < |options| && options[i].name in names && options[i].id == id
  {
    if options == [] then []
    else
      var last := options[|options| - 1];
      ResolveIds(options[..|options| - 1], names) + (if last.name in names then [last.id] else [])
  }

  predicate Distinct(ids: seq<nat>)
  {
    forall i, j :: 0 <= i < j < |ids| ==> ids[i] != ids[j]
  }

  /** Distinct option ids resolve to distinct ids. */
  lemma {:induction false} ResolveIdsDistinct(options: seq<OptionRow>, names: seq<string>)
    requires Pairwise(options, DistinctOptions)
    ensures Distinct(ResolveIds(options, names))
  {
    if options != [] {
      var n := |options| - 1;
      var prefix := options[..n];
      assert Pairwise(prefix, DistinctOptions) by {
        forall i, j | 0 <= i < j < |prefix| ensures DistinctOptions(prefix[i], prefix[j]) {
          assert prefix[i] == options[i] && prefix[j] == options[j];
        }
      }
      ResolveIdsDistinct(prefix, names);
      var last := options[n];
      if last.name in names {
        var front := ResolveIds(prefix, names);
        var ids := front + [last.id];
        forall i, j | 0 <= i < j < |ids| ensures ids[i] != ids[j] {
          if j == |front| {
            assert front[i] in front;
            var k :| 0 <= k < |prefix| && prefix[k].name in names && prefix[k].id == front[i];
            assert DistinctOptions(options[k], options[n]);
          } else {
            assert ids[i] == front[i] && ids[j] == front[j];
          }
        }
      }
    }
  }

  /** The option ids a role already has a setting for ($current_auth). */
  function RoleSettings(roleData: seq<RoleDataRow>, roleId: nat): set<nat>
  {
    set r | r in roleData && r.roleId == roleId :: r.optionId
  }

  /** The option ids a group already has a setting for, in any forum. */
  function GroupSettings(groupAuth: seq<GroupAuthRow>, groupId: nat): set<nat>
  {
    set r | r in groupAuth && r.groupId == groupId :: r.optionId
  }

  /** The ids of `ids`, in order, that are not in present (the `!isset($current_auth[...])` filter). */
  function MissingIds(ids: seq<nat>, present: set<nat>): (r: seq<nat>)
    ensures |r| <= |ids|
    ensures forall x :: x in r <==> x in ids && x !in present
  {
    if ids == [] then []
    else
      var last := ids[|ids| - 1];
      MissingIds(ids[..|ids| - 1], present) + (if last in present then [] else [last])
  }

  lemma {:induction false} MissingIdsDistinct(ids: seq<nat>, present: set<nat>)
    requires Distinct(ids)
    ensures Distinct(MissingIds(ids, present))
  {
    if ids != [] {
      var n := |ids| - 1;
      var prefix := ids[..n];
      assert Distinct(prefix) by {
        forall i, j | 0 <= i < j < |prefix| ensures prefix[i] != prefix[j] {
          assert prefix[i] == ids[i] && prefix[j] == ids[j];
        }
      }
      MissingIdsDistinct(prefix, present);
      var front := MissingIds(prefix, present);
      if ids[n] !in present {
        var r := front + [ids[n]];
        forall i, j | 0 <= i < j < |r| ensures r[i] != r[j] {
          if j == |front| {
            assert front[i] in front;
            var k :| 0 <= k < |prefix| && prefix[k] == front[i];
            assert ids[k] != ids[n];
          } else {
            assert r[i] == front[i] && r[j] == front[j];
          }
        }
      }
    }
  }

  /** When every id is present, nothing is missing. */
  lemma MissingIdsNone(ids: seq<nat>, present: set<nat>)
    requires forall x :: x in ids ==> x in present
    ensures MissingIds(ids, present) == []
  {
  }

  /** The rows of the bulk insert into acl_roles_data, one per id. */
  function RoleRows(roleId: nat, ids: seq<nat>, setting: int): (rows: seq<RoleDataRow>)
    ensures |rows| == |ids|
    ensures forall i :: 0 <= i < |ids| ==> rows[i] == RoleDataRow(roleId, ids[i], setting)
  {
    if ids == [] then [] else RoleRows(roleId, ids[..|ids| - 1], setting) + [RoleDataRow(roleId, ids[|ids| - 1], setting)]
  }

  /** The rows of the bulk insert into acl_groups; forum_id and auth_role_id take their default 0. */
  function GroupRows(groupId: nat, ids: seq<nat>, setting: int): (rows: seq<GroupAuthRow>)
    ensures |rows| == |ids|
    ensures forall i :: 0 <= i < |ids| ==> rows[i] == GroupAuthRow(groupId, 0, ids[i], 0, setting)
  {
    if ids == [] then [] else GroupRows(groupId, ids[..|ids| - 1], setting) + [GroupAuthRow(groupId, 0, ids[|ids| - 1], 0, setting)]
  }

  /** The stored value of a boolean setting: true as 1, false as 0. */
  function Setting(hasPermission: bool): int
  {
    if hasPermission then 1 else 0
  }

  /** acl_roles_data after permission_set for a role: existing rows kept, missing ids appended. */
  function SetRoleData(roleData: seq<RoleDataRow>, roleId: nat, ids: seq<nat>, setting: int): seq<RoleDataRow>
  {
    roleData + RoleRows(roleId, MissingIds(ids, RoleSettings(roleData, roleId)), setting)
  }

  /** acl_groups after permission_set for a group that delegates to no role. */
  function SetGroupAuth(groupAuth: seq<GroupAuthRow>, groupId: nat, ids: seq<nat>, setting: int): seq<GroupAuthRow>
  {
    groupAuth + GroupRows(groupId, MissingIds(ids, GroupSettings(groupAuth, groupId)), setting)
  }

  /** The id list of a DELETE ... WHERE auth_option_id IN (...), as a set. */
  function Elements(ids: seq<nat>): set<nat>
  {
    set x | x in ids
  }

  // ---------------------------------------------------------------------
  // Role order

  /** SELECT MAX(role_order) FROM acl_roles WHERE role_type = roleType; None when there is no such role. */
  function MaxOrder(roles: seq<RoleRow>, roleType: string): (m: Option<nat>)
    ensures m.None? <==> forall i :: 0 <= i < |roles| ==> roles[i].roleType != roleType
    ensures m.Some? ==> exists i :: 0 <= i < |roles| && roles[i].roleType == roleType && roles[i].order == m.value
    ensures m.Some? ==> forall i :: 0 <= i < |roles| && roles[i].roleType == roleType ==> roles[i].order <= m.value
  {
    if roles == [] then None
    else
      var rest := MaxOrder(roles[1..], roleType);
      if roles[0].roleType != roleType then rest
      else
        match rest
        case None => Some(roles[0].order)
        case Some(v) => Some(if roles[0].order < v then v else roles[0].order)
  }

  /** `(!$role_order) ? 1 : $role_order + 1`: no maximum and a maximum of 0 both give 1. */
  function NextOrder(max: Option<nat>): (order: nat)
    ensures order >= 1
    ensures max.Some? ==> order > max.value
    ensures max.None? ==> order == 1
    ensures max.Some? && max.value == 0 ==> order == 1
    ensures max.Some? && max.value > 0 ==> order == max.value + 1
  {
    match max
    case None => 1
    case Some(v) => if v == 0 then 1 else v + 1
  }
}
