/**
 * The fixed permission catalog: the single `ApiUser` permission, which is
 * what the catalog reset is normally fed.
 */
module PermissionsConsts {
  import opened Entities

  /** The machine name of the API-user permission. */
  const ApiUser: string := "ApiUser"

  /** The API-user permission, with its well-known id. */
  const ApiUserPermission: Permission :=
    Permission(Guid("28126FFD-51C2-4201-939C-B64E3DF43B9D"), ApiUser, "Api user")

  /**
   * Every permission the application defines. Each call builds a fresh list
   * with the same content; as a value, that is one constant sequence.
   */
  function AllPermissions(): (all: seq<Permission>)
    ensures |all| == 1 && ApiUserPermission in all
    ensures forall p :: p in all ==> p.name == ApiUser && p.displayName == "Api user"
    ensures NamesDistinct(all)
  {
    [ApiUserPermission]
  }
}
