/**
 * The entities the permission core reads and writes, as values: a
 * permission, a role, the link granting a permission to a role, a user and
 * the link assigning a role to a user.
 */
module Entities {

  /** Stands for a reference that may be null, or a lookup that may miss. */
  datatype Option<+T> = None | Some(value: T)

  /** A GUID, compared by value; its text is kept as written. */
  datatype Guid = Guid(text: string)

  datatype Permission = Permission(id: Guid, name: string, displayName: string)

  datatype Role = Role(id: Guid, name: string)

  /** Grants the permission with id `permissionId` to the role with id `roleId`. */
  datatype RolePermission = RolePermission(roleId: Guid, permissionId: Guid)

  datatype User = User(id: Guid, userName: string)

  /** Assigns the role with id `roleId` to the user with id `userId`. */
  datatype UserRole = UserRole(userId: Guid, roleId: Guid)

  /** The well-known name of the admin role (`RoleConsts.AdminRoleName`). */
  const AdminRoleName: string := "Admin"

  /** No two permissions of `ps` share a name. */
  predicate NamesDistinct(ps: seq<Permission>) {
    forall i, j :: 0 <= i < j < |ps| ==> ps[i].name != ps[j].name
  }
}
