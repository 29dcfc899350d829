# phpBB migration permission tool, migration exception and extensions migration

This project models three pieces of phpBB's database migration machinery in Dafny:

- **The permission tool** (`phpbb_db_migration_tools_permission`). Migrations use it to add and remove ACL options, manage permission roles, and grant or revoke options for a role or a group.
- **The migration exception** (`phpbb_db_migration_exception`). The tools throw it.
- **The extensions migration unit** (`phpbb_db_migration_data_extensions`). It declares the extensions table and the ACP module for extensions.

## How the tables are modelled

The ACL tables the tool touches are sequences of rows, in the order the database returns them (module `AclTables`):

- `acl_options`, `acl_roles`, `acl_roles_data`, `groups`, `acl_groups` and `acl_users`;
- the next auto-increment values of `acl_options` and `acl_roles`.

A query that keeps only the first row fetched picks the first matching row of the sequence. An id of 0 stands for "no row": the PHP tests `if (!$role_id)` the same way. `Valid` collects the constraints the model relies on. The first two come from the schema; the last two are invariants the model adds and proves every operation preserves:

- primary keys and the unique key on `auth_option`;
- one setting per role and option;
- auto-increment counters above every id;
- every option row flagged for at least one scope.

## How each operation is specified and proved

Each public method of the tool is specified in `PermissionSpec` as a function from the tables before the call to a `Transition`. A `Transition` holds three things:

- the tables after the call;
- the outcome: done, or the migration exception thrown;
- whether the ACL cache was purged.

The class `PermissionTools.PermissionTool` holds the tables as fields and carries out each method step by step, in the PHP's order. Where the PHP loops, the class loops too:

- the fetch loops that collect option ids and the current settings;
- the `foreach` loops that build the rows of the bulk insert.

Every method is proved to end in exactly the state its `PermissionSpec` function gives, and to keep `Valid`:

- `PermissionInvariants` proves that each transition keeps `Valid`.
- `PermissionProperties` and `AssignmentProperties` prove what the operations promise:
  - errors leave the tables alone;
  - `add` merges the two scopes onto one row;
  - `remove` clears one flag or deletes the option's rows in every table that refers to it;
  - `role_add` ranks a new role above every role of its type;
  - `permission_set` only inserts missing settings, so running it twice is running it once;
  - a group that delegates to a role is served through that role.

## Behaviour reproduced as the code is written

The model keeps the following behaviour of the code and proves each one by a lemma:

- the null parameter of `ROLE_ALREADY_EXISTS`;
- `__toString` ignoring the stored parameters;
- `permission_unset` deleting the options from every role or group;
- its delegation lookup without the forum-0 filter;
- the group "already set" check seeing every forum;
- `role_update` not checking the new name;
- `role_remove` leaving group rows that name the role.

The extensions migration is a value (`ExtensionsMigration.Extensions`) with lemmas about its dependencies, schema delta and data delta.

## Model

| member | source | states |
|---|---|---|
| `AclTables.FirstIndex` | phpBB/includes/db/migration/tools/permission.php:63-64 | The row a single fetch returns is the first row that matches. None means no row matches. |
| `AclTables.FindOption` | phpBB/includes/db/migration/tools/permission.php:144-160 | The option lookup by name and scope flag returns a row with that name and flag, or none exactly when no row has both. |
| `AclTables.RoleIdByName` | phpBB/includes/db/migration/tools/permission.php:193-196 | The role id fetched by name is nonzero only for a role with that name. It is 0 when no role has the name, and the id of a role with that name when one exists. |
| `AclTables.GroupIdByName` | phpBB/includes/db/migration/tools/permission.php:338-340 | The group id fetched by name is nonzero only for a group with that name. It is 0 when none exists. |
| `AclTables.DelegatedRole` | phpBB/includes/db/migration/tools/permission.php:348-353 | The set lookup returns a nonzero role id of an `acl_groups` row of the group at forum 0, or 0 exactly when there is no such row. |
| `AclTables.RoleNameById` | phpBB/includes/db/migration/tools/permission.php:356-359 | The name fetched for a role id is that role's name. None means no role has the id. |
| `AclTables.Delete` | phpBB/includes/db/migration/tools/permission.php:172-175 | A DELETE keeps exactly the rows whose key is not in the key set and never adds rows; their multiplicity is `DeleteMultiplicity`. |
| `AclTables.DeleteMultiplicity` | phpBB/includes/db/migration/tools/permission.php:172-175 | A DELETE keeps every row whose key is not in the key set exactly as many times as it occurred, and no row whose key is. |
| `AclTables.DeleteKeepsPairwise` | phpBB/includes/db/migration/tools/permission.php:172-175 | Deleting rows keeps every pairwise constraint (uniqueness) of what is left. |
| `AclTables.DeleteNothing` | phpBB/includes/db/migration/tools/permission.php:462-464 | A DELETE that matches no row leaves the table unchanged. |
| `AclTables.DeleteIdempotent` | phpBB/includes/db/migration/tools/permission.php:494-496 | Running the same DELETE twice equals running it once. |
| `AclTables.ResolveIds` | phpBB/includes/db/migration/tools/permission.php:295-303 | The ids collected for a list of option names are exactly the ids of rows whose name is in the list. Unknown names contribute nothing. |
| `AclTables.ResolveIdsDistinct` | phpBB/includes/db/migration/tools/permission.php:295-303 | Under unique option ids, the collected ids are distinct. |
| `AclTables.MissingIds` | phpBB/includes/db/migration/tools/permission.php:379-390 | The `!isset($current_auth[...])` filter keeps exactly the ids that have no current setting. |
| `AclTables.MissingIdsDistinct` | phpBB/includes/db/migration/tools/permission.php:379-390 | Filtering distinct ids leaves distinct ids. |
| `AclTables.MissingIdsNone` | phpBB/includes/db/migration/tools/permission.php:379-390 | When every id already has a setting, nothing is inserted. |
| `AclTables.RoleRows` | phpBB/includes/db/migration/tools/permission.php:383-388 | The bulk insert holds one `acl_roles_data` row per id, for the role, in order, with the setting. |
| `AclTables.GroupRows` | phpBB/includes/db/migration/tools/permission.php:399-404 | The bulk insert holds one `acl_groups` row per id, for the group, at forum 0 with no role, with the setting. |
| `AclTables.MaxOrder` | phpBB/includes/db/migration/tools/permission.php:203-206 | `SELECT MAX(role_order)` for a type is none when no role has the type. Otherwise it is the order of some role of the type, and no such role ranks higher. |
| `AclTables.NextOrder` | phpBB/includes/db/migration/tools/permission.php:207 | The next rank is 1 when there is no maximum or the maximum is 0, and one above a positive maximum. |
| `PermissionSpec.OptionExists` | phpBB/includes/db/migration/tools/permission.php:46-72 | `exists` is true exactly when some option row has the name and the requested scope flag. |
| `PermissionSpec.FreshOption` | phpBB/includes/db/migration/tools/permission.php:112-121 | Defines the row the ACL admin's add-option call creates: the next option id, the name, and the requested scope flag only. |
| `PermissionSpec.Add` | phpBB/includes/db/migration/tools/permission.php:84-125 | Defines `add`: throws if the option exists in the scope; sets both flags if it exists only in the other scope; otherwise appends a fresh row. No purge. Its properties are the `Add*` lemmas. |
| `PermissionSpec.DeleteOption` | phpBB/includes/db/migration/tools/permission.php:169-176 | Defines the cascade of `remove`: the option's rows go from `acl_groups`, `acl_roles_data`, `acl_users` and `acl_options`. |
| `PermissionSpec.Remove` | phpBB/includes/db/migration/tools/permission.php:137-183 | Defines `remove`: a missing option throws; a row in both scopes loses one flag; otherwise the cascade deletes it. The cache is purged on success. Its properties are the `Remove*` lemmas. |
| `PermissionSpec.RoleAdd` | phpBB/includes/db/migration/tools/permission.php:191-220 | Defines `role_add`: a taken name throws with a null parameter; otherwise a role row is appended with the next rank of its type. |
| `PermissionSpec.RoleUpdate` | phpBB/includes/db/migration/tools/permission.php:228-246 | Defines `role_update`: a missing role throws; otherwise every role called the old name is renamed. |
| `PermissionSpec.RoleRemove` | phpBB/includes/db/migration/tools/permission.php:253-276 | Defines `role_remove`: a missing role throws; otherwise the role's settings and the role row are deleted, with a purge. |
| `PermissionSpec.ForwardedName` | phpBB/includes/db/migration/tools/permission.php:356-361 | Defines the name a delegating group's call is forwarded with: the role's name, or the empty string when the id names no role. |
| `PermissionSpec.PermissionSet` | phpBB/includes/db/migration/tools/permission.php:288-414 | Defines `permission_set`, including the group-to-role forwarding. Its properties are the `Set*` lemmas and `PermissionSetKeepsValid`. |
| `PermissionSpec.PermissionUnset` | phpBB/includes/db/migration/tools/permission.php:425-503 | Defines `permission_unset`, including the group-to-role forwarding. Its properties are the `Unset*` lemmas and `PermissionUnsetKeepsValid`. |
| `AclTables.SetBothScopes` | phpBB/includes/db/migration/tools/permission.php:103-110 | Defines the UPDATE that sets both scope flags on the rows with the name. |
| `AclTables.ClearScope` | phpBB/includes/db/migration/tools/permission.php:164-167 | Defines the UPDATE that clears one scope flag on the row with the id. |
| `AclTables.RenameRoles` | phpBB/includes/db/migration/tools/permission.php:240-243 | Defines the UPDATE that renames the roles with the old name. |
| `AclTables.RoleSettings` | phpBB/includes/db/migration/tools/permission.php:326-334 | Defines the keys of `$current_auth` for a role: the options it has a setting for. |
| `AclTables.GroupSettings` | phpBB/includes/db/migration/tools/permission.php:364-371 | Defines the keys of `$current_auth` for a group: the options it has a setting for in any forum. |
| `AclTables.Setting` | phpBB/includes/db/migration/tools/permission.php:386 | Defines the stored `auth_setting` of the boolean `$has_permission`: 1 for true, 0 for false (also line 402). |
| `AclTables.SetRoleData` | phpBB/includes/db/migration/tools/permission.php:326-391 | Defines `acl_roles_data` after a role-targeted set: the old rows followed by the rows for missing settings. |
| `AclTables.SetGroupAuth` | phpBB/includes/db/migration/tools/permission.php:364-407 | Defines `acl_groups` after a group-targeted set: the old rows followed by the forum-0 rows for missing settings. |
| `PermissionInvariants.MergeKeepsValid` | phpBB/includes/db/migration/tools/permission.php:101-111 | Setting both flags on the rows of a name keeps the schema's constraints. |
| `PermissionInvariants.InsertOptionKeepsValid` | phpBB/includes/db/migration/tools/permission.php:112-121 | Appending a fresh option row under a new name keeps the constraints and advances the counter. |
| `PermissionInvariants.AddKeepsValid` | phpBB/includes/db/migration/tools/permission.php:84-125 | `add` keeps the constraints; in particular it never creates a second row with one name. |
| `PermissionInvariants.ClearScopeKeepsValid` | phpBB/includes/db/migration/tools/permission.php:162-168 | Clearing one flag of a row that has both keeps `Valid`: the unique keys, the counters above every id, and every option row in some scope. |
| `PermissionInvariants.DeleteOptionKeepsValid` | phpBB/includes/db/migration/tools/permission.php:169-176 | The cascade delete keeps the constraints. |
| `PermissionInvariants.RemoveKeepsValid` | phpBB/includes/db/migration/tools/permission.php:137-183 | `remove` keeps the constraints, so no option row is left with neither flag. |
| `PermissionInvariants.RoleAddKeepsValid` | phpBB/includes/db/migration/tools/permission.php:191-220 | `role_add` keeps unique role ids. |
| `PermissionInvariants.RoleUpdateKeepsValid` | phpBB/includes/db/migration/tools/permission.php:228-246 | `role_update` keeps the constraints. |
| `PermissionInvariants.RoleRemoveKeepsValid` | phpBB/includes/db/migration/tools/permission.php:253-276 | `role_remove` keeps the constraints. |
| `PermissionInvariants.SetRoleDataKeepsKey` | phpBB/includes/db/migration/tools/permission.php:376-391 | Inserting only missing settings keeps one `acl_roles_data` row per role and option. |
| `PermissionInvariants.PermissionSetKeepsValid` | phpBB/includes/db/migration/tools/permission.php:288-414 | `permission_set` keeps the constraints on every path, forwarding included. |
| `PermissionInvariants.PermissionUnsetKeepsValid` | phpBB/includes/db/migration/tools/permission.php:425-503 | `permission_unset` keeps the constraints on every path. |
| `PermissionProperties.AddExisting` | phpBB/includes/db/migration/tools/permission.php:86-89 | An option already present in the scope throws PERMISSION_ALREADY_EXISTS with its name. The tables are unchanged and there is no purge. |
| `PermissionProperties.AddThenExists` | phpBB/includes/db/migration/tools/permission.php:84-125 | After a successful `add`, `exists` holds for the scope, and only the options table and its counter changed. |
| `PermissionProperties.AddTwiceRaises` | phpBB/includes/db/migration/tools/permission.php:86-89 | Adding the same option twice throws PERMISSION_ALREADY_EXISTS the second time. |
| `PermissionProperties.AddMergesScopes` | phpBB/includes/db/migration/tools/permission.php:101-111 | An option present only in the other scope gets no new row. Every row with its name then carries both flags, so it exists in both scopes; ids, names and other rows are unchanged. |
| `PermissionProperties.SetBothScopesFlagsRow` | phpBB/includes/db/migration/tools/permission.php:103-110 | The UPDATE sets both flags on every row with the name and keeps every id and name and every other row. |
| `PermissionProperties.AddInsertsOneRow` | phpBB/includes/db/migration/tools/permission.php:112-121 | An option absent from both scopes gets exactly one appended row, flagged for the requested scope only. |
| `PermissionProperties.AddLocalThenGlobal` | phpBB/includes/db/migration/tools/permission.php:100-121 | Adding an option locally and then globally leaves one row with its name, carrying both flags. |
| `PermissionProperties.OneRowInBothScopes` | phpBB/includes/db/migration/tools/permission.php:100-111 | Under the unique key, a name that exists in both scopes has a single row with both flags. |
| `PermissionProperties.RemoveMissing` | phpBB/includes/db/migration/tools/permission.php:139-142 | Removing an option absent from the scope throws PERMISSION_NOT_EXIST with its name. The tables are unchanged and there is no purge. |
| `PermissionProperties.ClearScopeOfSharedRow` | phpBB/includes/db/migration/tools/permission.php:162-168 | Clearing a flag on a row with both leaves the option in the other scope only. |
| `PermissionProperties.RemoveOneOfTwoScopes` | phpBB/includes/db/migration/tools/permission.php:162-168 | For an option in both scopes, the found row loses only the requested flag and every other option row is unchanged. The option stays in the other scope only, every other table stays, and the cache is purged. |
| `PermissionProperties.RemoveLastScope` | phpBB/includes/db/migration/tools/permission.php:169-180 | For an option in one scope only, its row and every `acl_groups`, `acl_roles_data` and `acl_users` row of its id are deleted. Nothing else goes, the option no longer exists, both counters are unchanged, and the cache is purged. |
| `PermissionProperties.DeleteRowDropsName` | phpBB/includes/db/migration/tools/permission.php:175 | Under the unique key, deleting an option's id leaves no row with its name. |
| `PermissionProperties.RoleAddTaken` | phpBB/includes/db/migration/tools/permission.php:198-201 | A taken name throws ROLE_ALREADY_EXISTS whose parameter is null, not the name, and changes nothing. |
| `PermissionProperties.RoleAddFree` | phpBB/includes/db/migration/tools/permission.php:203-217 | A free name appends one role with the next id. It ranks above every role of its type: one above the highest positive rank, 1 for the first of its type, and 1 when every role of its type has rank 0. |
| `PermissionProperties.RoleAddFirstThenSecond` | phpBB/includes/db/migration/tools/permission.php:203-207 | The first two roles of a type get ranks 1 and 2. |
| `PermissionProperties.RoleAddTwiceRaises` | phpBB/includes/db/migration/tools/permission.php:193-201 | Adding the same role name twice throws the second time. |
| `PermissionProperties.RoleUpdateMissing` | phpBB/includes/db/migration/tools/permission.php:235-238 | Renaming a missing role throws ROLE_NOT_EXISTS with the old name and changes nothing. |
| `PermissionProperties.RoleUpdateRenames` | phpBB/includes/db/migration/tools/permission.php:240-243 | Only `role_name` changes, and only on the roles called the old name. The new name is then in use and the old one is gone. |
| `PermissionProperties.RenameRolesNames` | phpBB/includes/db/migration/tools/permission.php:240-243 | The UPDATE changes names only, on exactly the rows with the old name. |
| `PermissionProperties.RoleUpdateCanDuplicateName` | phpBB/includes/db/migration/tools/permission.php:240-243 | Renaming onto a name already in use succeeds and leaves two roles with that name. |
| `PermissionProperties.RoleRemoveMissing` | phpBB/includes/db/migration/tools/permission.php:260-263 | Removing a missing role throws ROLE_NOT_EXIST and changes nothing. |
| `PermissionProperties.RoleRemoveDeletes` | phpBB/includes/db/migration/tools/permission.php:265-273 | The role row and exactly that role's settings go. Other roles' settings and every other table stay; the cache is purged. |
| `PermissionProperties.RoleRemoveLeavesDelegation` | phpBB/includes/db/migration/tools/permission.php:265-271 | A group delegating to the removed role still delegates to its id, which now names no role, so forwarding uses the empty name. |
| `AssignmentProperties.SetRoleDataAdds` | phpBB/includes/db/migration/tools/permission.php:326-334 | Old rows are a prefix. Afterwards every id has a setting for the role, and each added row is the role's, carries the setting, and is for an id it lacked. |
| `AssignmentProperties.SetRoleDataIdempotent` | phpBB/includes/db/migration/tools/permission.php:379-391 | Inserting missing role settings a second time adds nothing. |
| `AssignmentProperties.SetGroupAuthAdds` | phpBB/includes/db/migration/tools/permission.php:364-371 | As for roles; the added rows are at forum 0 and name no role. |
| `AssignmentProperties.SetGroupAuthIdempotent` | phpBB/includes/db/migration/tools/permission.php:395-407 | Inserting missing group settings a second time adds nothing. |
| `AssignmentProperties.SetGroupAuthKeepsNoDelegation` | phpBB/includes/db/migration/tools/permission.php:399-404 | The rows `permission_set` inserts create no delegation to a role. |
| `AssignmentProperties.DeleteKeepsNoDelegation` | phpBB/includes/db/migration/tools/permission.php:494-496 | Deleting `acl_groups` rows creates no delegation. |
| `AssignmentProperties.NoKnownNames` | phpBB/includes/db/migration/tools/permission.php:295-303 | When no option has a listed name, no id is collected. |
| `AssignmentProperties.SetUnknownOptions` | phpBB/includes/db/migration/tools/permission.php:305-308 | With no known option name, `permission_set` returns without any change or purge, before the subject is looked up. |
| `AssignmentProperties.SetRoleMissing` | phpBB/includes/db/migration/tools/permission.php:322-325 | An unknown role throws ROLE_NOT_EXIST with its name and changes nothing. |
| `AssignmentProperties.SetRoleInserts` | phpBB/includes/db/migration/tools/permission.php:316-391 | For a role, only `acl_roles_data` changes and old rows are kept. Every resolved option gets a setting; the added rows are the role's, set to `has_permission`, for options it lacked. The cache is purged. |
| `AssignmentProperties.SetGroupMissing` | phpBB/includes/db/migration/tools/permission.php:342-345 | An unknown group throws GROUP_NOT_EXIST with its name and changes nothing. |
| `AssignmentProperties.SetGroupForwards` | phpBB/includes/db/migration/tools/permission.php:347-362 | A group with a role at forum 0 is served as a role-targeted set on that role's name. The group's own rows stay. |
| `AssignmentProperties.SetGroupInserts` | phpBB/includes/db/migration/tools/permission.php:364-407 | For a group without such a role, only `acl_groups` changes and old rows are kept. Every resolved option gets a setting; the added rows are at forum 0, set to `has_permission`, for options the group lacked, at most one per option. |
| `AssignmentProperties.SetGroupSeesEveryForum` | phpBB/includes/db/migration/tools/permission.php:364-370 | A setting the group holds in any forum blocks the forum-0 insert for that option. |
| `AssignmentProperties.SetUnknownType` | phpBB/includes/db/migration/tools/permission.php:314-413 | A subject type other than role or group changes no table but still purges the cache. |
| `AssignmentProperties.SetRoleOnlyTouchesRoleData` | phpBB/includes/db/migration/tools/permission.php:316-391 | A role-targeted set changes `acl_roles_data` alone. |
| `AssignmentProperties.SetNeverOverwrites` | phpBB/includes/db/migration/tools/permission.php:379-407 | On every path, old `acl_roles_data` and `acl_groups` rows are prefixes of the new ones, and no other table changes. |
| `AssignmentProperties.SetIdempotent` | phpBB/includes/db/migration/tools/permission.php:288-414 | Running `permission_set` again on its result changes nothing and reports the same outcome and purge. |
| `AssignmentProperties.UnsetUnknownOptions` | phpBB/includes/db/migration/tools/permission.php:442-445 | With no known option name, `permission_unset` returns without any change or purge. |
| `AssignmentProperties.UnsetRoleMissing` | phpBB/includes/db/migration/tools/permission.php:457-460 | An unknown role throws ROLE_NOT_EXIST and changes nothing. |
| `AssignmentProperties.UnsetGroupMissing` | phpBB/includes/db/migration/tools/permission.php:473-476 | An unknown group throws GROUP_NOT_EXIST and changes nothing. |
| `AssignmentProperties.UnsetRoleClearsEveryRole` | phpBB/includes/db/migration/tools/permission.php:462-464 | The options leave every role, not only the named one: a settings row stays exactly when its option was not resolved. |
| `AssignmentProperties.UnsetGroupClearsEveryGroup` | phpBB/includes/db/migration/tools/permission.php:494-496 | For a group without a role, the options leave every group in every forum. |
| `AssignmentProperties.UnsetGroupForwards` | phpBB/includes/db/migration/tools/permission.php:478-492 | A group with a role in any forum is served as a role-targeted unset on that role's name. |
| `AssignmentProperties.DelegationLookupsDiffer` | phpBB/includes/db/migration/tools/permission.php:479-481 | A group whose only role row is outside forum 0 is set directly but unset through the role. |
| `AssignmentProperties.UnsetIdempotent` | phpBB/includes/db/migration/tools/permission.php:425-503 | Running `permission_unset` again on its result changes nothing and reports the same. |
| `PermissionTools.PermissionTool.constructor` | phpBB/includes/db/migration/tools/permission.php:27-34 | The tool starts on the given tables with no purge recorded. |
| `PermissionTools.PermissionTool.Exists` | phpBB/includes/db/migration/tools/permission.php:46-72 | Reads only. True exactly when some option row has the name and the scope flag. |
| `PermissionTools.PermissionTool.PurgeCache` | phpBB/includes/db/migration/tools/permission.php:179-180 | One cache purge (`cache->destroy('_acl_options')` with `acl_clear_prefetch()`, and the lone `acl_clear_prefetch()` at lines 273, 411 and 500) adds one to the purge count and changes no table. |
| `PermissionTools.PermissionTool.Add` | phpBB/includes/db/migration/tools/permission.php:84-125 | Ends in the tables and outcome of `PermissionSpec.Add`, and keeps `Valid`. `permissions_added` becomes true once the exists check passes. |
| `PermissionTools.PermissionTool.Remove` | phpBB/includes/db/migration/tools/permission.php:137-183 | Ends in the tables and outcome of `PermissionSpec.Remove`, purging once on success, and keeps `Valid`. |
| `PermissionTools.PermissionTool.DeleteOptionRows` | phpBB/includes/db/migration/tools/permission.php:169-176 | The four DELETEs leave the tables `PermissionSpec.DeleteOption` describes. |
| `PermissionTools.PermissionTool.RoleAdd` | phpBB/includes/db/migration/tools/permission.php:191-220 | Ends in the tables and outcome of `PermissionSpec.RoleAdd`, and keeps `Valid`. |
| `PermissionTools.PermissionTool.RoleUpdate` | phpBB/includes/db/migration/tools/permission.php:228-246 | Ends in the tables and outcome of `PermissionSpec.RoleUpdate`, and keeps `Valid`. |
| `PermissionTools.PermissionTool.RoleRemove` | phpBB/includes/db/migration/tools/permission.php:253-276 | Ends in the tables and outcome of `PermissionSpec.RoleRemove`, purging once on success, and keeps `Valid`. |
| `PermissionTools.PermissionTool.CollectOptionIds` | phpBB/includes/db/migration/tools/permission.php:295-303 | The fetch loop collects exactly the ids of options whose name is listed, in table order. |
| `PermissionTools.PermissionTool.LoadRoleSettings` | phpBB/includes/db/migration/tools/permission.php:326-334 | The loop's `$current_auth` has a key for exactly the options the role has a setting for. Each value is the setting of such a row. |
| `PermissionTools.PermissionTool.LoadGroupSettings` | phpBB/includes/db/migration/tools/permission.php:364-371 | The loop's `$current_auth` has a key for exactly the options the group has a setting for, in any forum. |
| `PermissionTools.PermissionTool.BuildRoleRows` | phpBB/includes/db/migration/tools/permission.php:379-390 | The `foreach` builds one `acl_roles_data` row per resolved id without a current setting, in order. |
| `PermissionTools.PermissionTool.BuildGroupRows` | phpBB/includes/db/migration/tools/permission.php:395-406 | The `foreach` builds one forum-0 `acl_groups` row per resolved id without a current setting, in order. |
| `PermissionTools.PermissionTool.InsertRoleSettings` | phpBB/includes/db/migration/tools/permission.php:326-391 | Loading, building and the bulk insert append exactly the missing role settings. |
| `PermissionTools.PermissionTool.InsertGroupSettings` | phpBB/includes/db/migration/tools/permission.php:364-407 | Loading, building and the bulk insert append exactly the missing group settings. |
| `PermissionTools.PermissionTool.PermissionSet` | phpBB/includes/db/migration/tools/permission.php:288-414 | Ends in the tables, outcome and purge of `PermissionSpec.PermissionSet`, forwarding included, and keeps `Valid`. |
| `PermissionTools.PermissionTool.DeleteRoleSettings` | phpBB/includes/db/migration/tools/permission.php:462-464 | The DELETE on option ids alone removes the options from every role. |
| `PermissionTools.PermissionTool.DeleteGroupSettings` | phpBB/includes/db/migration/tools/permission.php:494-496 | The DELETE on option ids alone removes the options from every group. |
| `PermissionTools.PermissionTool.PermissionUnset` | phpBB/includes/db/migration/tools/permission.php:425-503 | Ends in the tables, outcome and purge of `PermissionSpec.PermissionUnset`, and keeps `Valid`. |
| `MigrationExceptions.MessageText` | phpBB/includes/db/migration/exception.php:31 | Defines the message the base exception stores: the string given, or the empty string for null. |
| `MigrationExceptions.Create` | phpBB/includes/db/migration/exception.php:27-34 | Defines the constructor: the first argument becomes the message, the rest the parameters. |
| `MigrationExceptions.VarExport` | phpBB/includes/db/migration/exception.php:38 | Defines `var_export(..., true)` of null and of a plain string. |
| `MigrationExceptions.ToString` | phpBB/includes/db/migration/exception.php:36-39 | Defines `__toString`: the message, `': '` and the export of the never-assigned local `$parameters`. |
| `MigrationExceptions.ArrayShift` | phpBB/includes/db/migration/exception.php:29-30 | `array_shift` splits a non-empty argument list into its head and the rest, which rejoin to the list. An empty list gives null and nothing. |
| `MigrationExceptions.Arguments` | phpBB/includes/db/migration/exception.php:27-34 | The argument list that builds an exception is one longer than its parameters. |
| `MigrationExceptions.Error` | phpBB/includes/db/migration/exception.php:27-34 | A kind-and-name throw gives that message and exactly that one parameter. |
| `MigrationExceptions.CreateMessage` | phpBB/includes/db/migration/exception.php:29-31 | The first constructor argument becomes the message. |
| `MigrationExceptions.CreateParameters` | phpBB/includes/db/migration/exception.php:29-33 | The remaining arguments become the parameters, one for one and in order. |
| `MigrationExceptions.CreateSingleArgument` | phpBB/includes/db/migration/exception.php:29-33 | With one argument, the parameters are empty. |
| `MigrationExceptions.CreateNoArguments` | phpBB/includes/db/migration/exception.php:29-33 | With no arguments, the message is empty and there are no parameters. |
| `MigrationExceptions.CreateArgumentsRoundTrip` | phpBB/includes/db/migration/exception.php:27-34 | Building an exception from its own argument list gives it back. |
| `MigrationExceptions.ArgumentsCreateRoundTrip` | phpBB/includes/db/migration/exception.php:27-34 | An argument list starting with a string is recovered from the exception built from it. |
| `MigrationExceptions.ToStringShape` | phpBB/includes/db/migration/exception.php:36-39 | The text is the message, `': '` and the export of null. |
| `MigrationExceptions.ToStringIgnoresParameters` | phpBB/includes/db/migration/exception.php:38 | Two exceptions with one message print alike, whatever their parameters. |
| `MigrationExceptions.ToStringDropsName` | phpBB/includes/db/migration/exception.php:38 | A ROLE_NOT_EXIST error prints the same whatever name it carries. |
| `ExtensionsMigration.Extensions` | phpBB/includes/db/migration/data/extensions.php:10-48 | Defines the migration class: its name with its dependencies, schema delta and data delta. |
| `ExtensionsMigration.OperationName` | phpBB/includes/db/migration/data/extensions.php:38 | Defines the tool call name of a data step: `module.add`. |
| `ExtensionsMigration.DependsOn` | phpBB/includes/db/migration/data/extensions.php:12-15 | Defines `depends_on`: the one prerequisite migration. |
| `ExtensionsMigration.UpdateSchema` | phpBB/includes/db/migration/data/extensions.php:17-33 | Defines `update_schema`: the `add_tables` entry for EXT_TABLE with its columns and key. |
| `ExtensionsMigration.UpdateData` | phpBB/includes/db/migration/data/extensions.php:35-47 | Defines `update_data`: the one `module.add` step. |
| `ExtensionsMigration.ExtensionsDependencies` | phpBB/includes/db/migration/data/extensions.php:12-15 | The unit depends on exactly `phpbb_db_migration_data_3_0_11`, and not on itself. |
| `ExtensionsMigration.ExtensionsSchemaAddsOneTable` | phpBB/includes/db/migration/data/extensions.php:17-33 | The schema delta adds exactly one table, EXT_TABLE, and drops none. |
| `ExtensionsMigration.ExtensionsColumns` | phpBB/includes/db/migration/data/extensions.php:22-26 | The columns are `ext_name` VCHAR `''`, `ext_active` BOOL 0 and `ext_state` TEXT `''`, in order. |
| `ExtensionsMigration.ExtensionsKey` | phpBB/includes/db/migration/data/extensions.php:27-29 | The only key is UNIQUE `ext_name` over column `ext_name`, and that column is declared. |
| `ExtensionsMigration.ExtensionsDataStep` | phpBB/includes/db/migration/data/extensions.php:35-47 | The data delta is one `module.add` step: area `acp`, parent `ACP_GENERAL_TASKS`, basename `extensions`, modes `main`. |
| `ExtensionsMigration.ExtensionsWellFormed` | phpBB/includes/db/migration/data/extensions.php:10-48 | The unit is well formed: no self-dependency, no repeated dependency, and every key over declared columns. |

## Left out

- The database layer is not modelled. Queries become operations on the table sequences. SQL text, `sql_escape` and injection are not modelled.
- `auth_admin::acl_add_option` is not part of this model. The conditional include that loads it is left out too. It is specified only as appending one fresh option row, with the next id, flagged for the requested scope.
- Cache internals are not modelled: `cache->destroy('_acl_options')` and `auth->acl_clear_prefetch()` are one purge counter. `remove` calls both; `role_remove` and the two assignment methods call the second only. All count as one purge.
- `PermissionTools.PermissionTool.PermissionSet`: a group delegating to a role is forwarded as a role-targeted `permission_set`. The PHP calls `$this->set(...)`, which this class does not define, so as written that path stops with a fatal "call to undefined method" error before anything is forwarded. The model follows the evidently intended behaviour, a role-targeted `permission_set` on the delegated role's name, and the cache purge on that path is the forwarded call's.
- `PermissionSpec.ForwardedName`: a delegated role id that names no role forwards the empty name, because the PHP fetches false and the SQL escaping turns it into an empty string. The forwarded call then looks up a role named `''`. If one exists, the call proceeds on that role. Otherwise it throws ROLE_NOT_EXIST, with the empty string as its parameter in the model where the PHP passes the raw `false`.
- Default arguments are not modelled; every member takes all its arguments explicitly. The PHP defaults are `$global = true` for `exists`, `add` and `remove`; `$role_type = ''` and `$role_description = ''` for `role_add`; `$new_role_name = ''` for `role_update`; `$auth_option = array()` and `$type = 'role'` for `permission_set` and `permission_unset`; and `$has_permission = true` for `permission_set`.
- The constructor's database, cache and auth handles, root path and PHP extension are not modelled.
- A single option name passed instead of an array is modelled as a one-element list.
- An empty option list is modelled as a query that resolves no ids. What `sql_in_set` does with an empty list is not part of this model.
- `MigrationExceptions.VarExport`: only null and plain strings are exported. Quote escaping inside strings is not modelled.
- The PHP notice raised by reading the undefined variables in `role_add` and `__toString` is not modelled.
- The `IN_PHPBB` exit guard at the top of the exception file is left out.
- `permissions_added` is a field of the class. The field is not declared in the PHP class shown, and its parent class is not part of this model.
- The value of the EXT_TABLE constant is not part of this model; it stays a symbolic name.
- Executing the extensions schema delta and the `module.add` step is not modelled. Those belong to the schema mutator and the module tool, which are not part of this model.
- The migration resolver and runner are not part of this model.
- The rows `permission_set` inserts into `acl_groups` leave `forum_id` and `auth_role_id` at their column default, taken here to be 0.
- `auth_setting` receives the PHP boolean `$has_permission`, stored as 1 or 0 (`AclTables.Setting`).
