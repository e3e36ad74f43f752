# Kodkod permission core, in Dafny

This project models the permission logic of Kodkod's `PermissionAppService`
and the fixed catalog of `PermissionsConsts`:

- **Grant resolution for a user.** The service finds the first user whose
  user name is the principal's name. It then follows that user's role
  assignments to roles, the roles' permission links, and the linked
  permissions. The user holds the target when one of those permissions has
  the target's name. An unknown user holds nothing.
- **Grant resolution for a role.** The service finds the stored role with the
  given role's id and runs the same name test over that role's own links.
  An unknown role holds nothing.
- **Catalog reset** (`InitializePermissions`). Every link owned by a role with
  the admin name is deleted and committed. Then every permission is deleted
  and committed. Then each input permission is inserted in order, with one
  admin-role link to it, and everything is committed at the end.
- **Listing filter.** With a non-empty filter text, the permission listing
  keeps a permission when its name or its display name contains the text.

## How the model is built

- `entities.dfy` (module `Entities`): the entities as datatypes. A GUID is a
  value compared by equality. `AdminRoleName` stands for
  `RoleConsts.AdminRoleName`.
- `linq.dfy` (module `Linq`): the query operators the service uses. These are
  `Where`, `Select`, `SelectMany`, `Any`, `FirstOrDefault` and ordinal
  `String.Contains`, each a recursive function over sequences. Each one's
  contract or lemmas state what it computes: for `Select` the length and each
  element, for the others which elements the result holds.
- `permissions_consts.dfy` (module `PermissionsConsts`): `ApiUser`,
  `ApiUserPermission` and `AllPermissions()`.
- `permission_app_service.dfy` (module `PermissionService`): the class
  `PermissionAppService`. It has one `seq` field per repository: users, user
  roles, roles, permissions and role-permission links. The grant checks and
  the filter are functions that read the fields. The reset is a method with
  a loop.
- Navigation properties (`ur.Role`, `r.RolePermissions`, `rp.Permission`) are
  joins on key equality. When keys are unique, as primary keys are, a join
  gives the one entity the navigation loads.
- Inside the reset, the two deletions are assigned to the fields at once,
  because their commits happen before the loop. The loop's insertions build
  up in pending locals, and the final commit assigns them. If the admin role
  is missing while the input is non-empty, the method returns
  `MissingAdminRole`. That stands for the null dereference of `role.Id` in
  PermissionAppService.cs:106, after the lookup at line 103 finds no admin role. The two
  deletions stay committed and the pending insertions are never saved.
- The reset's post-state is stated through `LinksAfterReset`: the links left
  by the delete phase, followed by one admin link per input entry. The lemmas
  about that function carry the promises of the reset.
- RoleConsts.cs is not part of this model. The admin role's name is taken
  as `"Admin"`. No property depends on that value.
- A failed reset leaves the two committed deletions in place. It does not
  fail without effect, and the model keeps that behaviour.

## Model

| member | source | states |
|---|---|---|
| `PermissionsConsts.AllPermissions` | src/Kodkod.Core/Permissions/PermissionsConsts.cs:8-23 | the catalog has exactly one entry, the API-user permission (name `"ApiUser"`, display name `"Api user"`, id `28126FFD-51C2-4201-939C-B64E3DF43B9D`); every entry is named `ApiUser` and names are pairwise distinct |
| `Linq.FirstOrDefault` | src/Kodkod.Application/Permissions/PermissionAppService.cs:63 | result is empty exactly when no element satisfies the predicate; otherwise it is the element at the first index that does |
| `Linq.SelectMany` | src/Kodkod.Application/Permissions/PermissionAppService.cs:71 | an element is in the flattened result exactly when it is in the projection of some source element |
| `Linq.Any` | src/Kodkod.Application/Permissions/PermissionAppService.cs:74 | true exactly when some element satisfies the predicate |
| `Linq.Contains` | src/Kodkod.Application/Permissions/PermissionAppService.cs:50-51 | true exactly when the part occurs in the text at some index |
| `Linq.Where` | src/Kodkod.Application/Permissions/PermissionAppService.cs:48-51 | the filtered sequence is never longer than its source; `WhereMembers` and `WhereCount` state which elements it keeps and how often |
| `Linq.Select` | src/Kodkod.Application/Permissions/PermissionAppService.cs:104-108 | the projection has the source's length and its i-th element is the function applied to the i-th source element |
| `PermissionService.UserRolesOf` | src/Kodkod.Application/Permissions/PermissionAppService.cs:69 | `user.UserRoles` holds exactly the assignments whose user id is the user's |
| `PermissionService.RolesOf` | src/Kodkod.Application/Permissions/PermissionAppService.cs:70 | a role is reached exactly when it is stored and some assignment names its id |
| `PermissionService.LinksOfRoles` | src/Kodkod.Application/Permissions/PermissionAppService.cs:71 | a link is reached exactly when it is stored and its role id is that of one of the given roles |
| `PermissionService.PermissionsOf` | src/Kodkod.Application/Permissions/PermissionAppService.cs:72 | a permission is reached exactly when it is stored and some given link names its id |
| `PermissionService.LinksOfRole` | src/Kodkod.Application/Permissions/PermissionAppService.cs:85 | a role's `RolePermissions` are exactly the stored links with its id |
| `PermissionService.AdminRole` | src/Kodkod.Application/Permissions/PermissionAppService.cs:103 | the lookup finds nothing exactly when no stored role has the admin name; what it finds is a stored role with the admin name |
| `PermissionService.WithoutAdminLinks` | src/Kodkod.Application/Permissions/PermissionAppService.cs:93 | the links left by the delete phase are stored links, none owned by a role with the admin name, and no more of them than before |
| `PermissionService.AdminGrants` | src/Kodkod.Application/Permissions/PermissionAppService.cs:99-110 | with no admin role nothing is inserted; otherwise one link per input entry, the i-th from the admin role's id to the i-th entry's id |
| `PermissionService.LinksAfterReset` | src/Kodkod.Application/Permissions/PermissionAppService.cs:91-112 | after a completed reset every earlier link of a role without the admin name is still there, and every link owned by an admin-named role is one the loop inserted |
| `PermissionService.DeletePhaseKeepsOtherLinks` | src/Kodkod.Application/Permissions/PermissionAppService.cs:93 | the delete phase removes every link owned by a role with the admin name and keeps every other link, as many times as it occurred |
| `PermissionService.DeletePhaseRemovesGrants` | src/Kodkod.Application/Permissions/PermissionAppService.cs:93 | the delete phase of a later reset removes every link an earlier reset inserted |
| `PermissionService.PermissionAppService.constructor` | src/Kodkod.Application/Permissions/PermissionAppService.cs:30-44 | the service works on exactly the given repository contents |
| `PermissionService.PermissionAppService.UserReaches` | src/Kodkod.Application/Permissions/PermissionAppService.cs:69-74 | the query chain is true exactly when some role assigned to the user has a link to a stored permission with the name |
| `PermissionService.PermissionAppService.RoleReaches` | src/Kodkod.Application/Permissions/PermissionAppService.cs:85-88 | the query over a role's links is true exactly when one of its links points at a stored permission with the name |
| `PermissionService.PermissionAppService.IsPermissionGrantedForUser` | src/Kodkod.Application/Permissions/PermissionAppService.cs:61-75 | false when no user has the user name, whatever the permission; otherwise true exactly when the first user with that name holds a permission with the target's name through its roles; the target's id plays no part |
| `PermissionService.PermissionAppService.IsPermissionGrantedForRole` | src/Kodkod.Application/Permissions/PermissionAppService.cs:77-89 | false when no stored role has the role's id; otherwise true exactly when one of that role's own links reaches a permission with the target's name; no user is consulted |
| `PermissionService.PermissionAppService.FilterPermissions` | src/Kodkod.Application/Permissions/PermissionAppService.cs:46-51 | a null or empty filter lists every permission; otherwise a permission is listed exactly when it is stored and its name or display name contains the filter |
| `PermissionService.PermissionAppService.InitializePermissions` | src/Kodkod.Application/Permissions/PermissionAppService.cs:91-113 | fails exactly when the input is non-empty and no role has the admin name; on success the catalog is the input in order and the links are `LinksAfterReset` of the old links; on failure the catalog is empty and only the admin links are gone; users, assignments and roles are untouched |
| `PermissionService.GrantsAreAdminOwned` | src/Kodkod.Application/Permissions/PermissionAppService.cs:103-109 | every inserted link belongs to the admin role, and none is inserted exactly when the input is empty or there is no admin role |
| `PermissionService.AdminLinksAfterReset` | src/Kodkod.Application/Permissions/PermissionAppService.cs:99-110 | after a completed reset the admin role's links are exactly one link per input entry, in input order, the i-th pointing at the i-th entry's id |
| `PermissionService.OtherRolesKeepTheirLinks` | src/Kodkod.Application/Permissions/PermissionAppService.cs:93 | a role whose id no admin-named role shares keeps exactly its earlier links, in order |
| `PermissionService.EmptyResetClearsAdminLinks` | src/Kodkod.Application/Permissions/PermissionAppService.cs:93-112 | a reset with an empty input leaves no link to any admin-named role |
| `PermissionService.ResetTwice` | src/Kodkod.Application/Permissions/PermissionAppService.cs:91-113 | two resets in a row leave the links one reset with the second list leaves; nothing of the first list survives |
| `PermissionService.CatalogResetIsStable` | src/Kodkod.Core/Permissions/PermissionsConsts.cs:17-23 | resetting to the application's catalog twice leaves the same links as doing it once |
| `PermissionService.AdminGrantAfterReset` | src/Kodkod.Application/Permissions/PermissionAppService.cs:99-110 | after a completed reset the admin role holds a permission exactly when some input entry has its name |
| `PermissionService.OtherRoleGrantAfterReset` | src/Kodkod.Application/Permissions/PermissionAppService.cs:93 | after a completed reset any other role holds a permission exactly when one of its earlier links points at an input entry with that name |
| `PermissionService.ApiUserGrantedToAdmin` | src/Kodkod.Core/Permissions/PermissionsConsts.cs:10-15 | after a reset to the application's catalog the admin role holds any permission named `ApiUser` |
| `PermissionService.GrantChecksCompareNames` | src/Kodkod.Application/Permissions/PermissionAppService.cs:74-88 | two permissions with the same name get the same answer from both checks, and two roles with the same id get the same answer from the role check |

## Left out

- Sorting, paging, DTO mapping and the count of `GetPermissionsAsync`
  (src/Kodkod.Application/Permissions/PermissionAppService.cs:52-58). They rely
  on dynamic `OrderBy`, `PagedBy`, `ToPagedList`, AutoMapper and EF
  `CountAsync`, which are not part of this model. Only the filter is modelled.
- `async`/`Task`, the `ClaimsPrincipal` type and dependency-injection wiring.
  The principal is a plain user-name string. A null identity name is not
  modelled, nor is a null `permission` argument (`permission.Name`, lines 74
  and 88) or a null `role` argument (`role.Id`, line 79); the model's
  arguments are always values.
- Database behaviour. Transactions, change tracking, lazy loading and
  foreign-key enforcement are not modelled. In particular, a database
  cascade that deletes non-admin links to deleted permissions is not
  modelled. Those links stay in the model as dangling links and lead nowhere
  unless the new catalog reuses their permission id.
- Dangling references. A join that finds no row gives nothing. In the source,
  a null navigation property would throw.
- Query collation. `Contains` and the user-name equality are ordinal and
  case-sensitive. A database collation that ignores case is not modelled.
- GUID parsing. A GUID is kept as its text and compared as a value.
  Differences in the case of its hex digits are not modelled.
- PermissionService.PermissionAppService.InitializePermissions: does not
  enforce the primary key of `Permission`. An input list that repeats an id
  would make the source fail at `Insert` (line 101) or at the final
  `SaveChanges` (line 112). The model completes instead, with two catalog
  entries and two admin links for that id.
- Concurrency between a reset and grant checks. The source provides no
  coordination for it.
- A failure of the database between the three commits is not modelled. A
  failure in the middle of the insert loop is modelled only when it comes
  from the missing admin role.
