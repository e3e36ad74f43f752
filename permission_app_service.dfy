/**
 * The permission application service: whether a user or a role holds a
 * permission, the text filter of the permission listing, and the reset that
 * replaces the catalog and the admin role's grants.
 *
 * The repositories the service works on are the fields of the class, one
 * sequence per table. Navigation properties (`ur.Role`, `r.RolePermissions`,
 * `rp.Permission`) are joins on key equality.
 */
module PermissionService {
  import opened Entities
  import opened Linq
  import opened PermissionsConsts

  /** How a catalog reset ends. */
  datatype ResetOutcome =
    | Initialized
      /** The admin role lookup found no role while permissions remained to insert. */
    | MissingAdminRole

  predicate IsAdminRole(r: Role) {
    r.name == AdminRoleName
  }

  /** The first role named as the admin role, as the reset looks it up. */
  function AdminRole(roles: seq<Role>): (admin: Option<Role>)
    ensures admin.None? <==> forall r :: r in roles ==> !IsAdminRole(r)
    ensures admin.Some? ==> admin.value in roles && IsAdminRole(admin.value)
  {
    FirstOrDefault(roles, IsAdminRole)
  }

  /** `rp.Role.Name == RoleConsts.AdminRoleName`: the link belongs to a role with the admin name. */
  predicate OwnedByAdmin(rp: RolePermission, roles: seq<Role>) {
    exists r :: r in roles && r.id == rp.roleId && IsAdminRole(r)
  }

  // The lambdas of the service's queries, named so that each query is one term.

  function NotOwnedByAdmin(roles: seq<Role>): RolePermission -> bool {
    (rp: RolePermission) => !OwnedByAdmin(rp, roles)
  }

  function UserNamed(userName: string): User -> bool {
    (u: User) => u.userName == userName
  }

  function RoleWithId(id: Guid): Role -> bool {
    (r: Role) => r.id == id
  }

  function LinkOfRole(roleId: Guid): RolePermission -> bool {
    (rp: RolePermission) => rp.roleId == roleId
  }

  function RoleOfUser(userId: Guid): UserRole -> bool {
    (ur: UserRole) => ur.userId == userId
  }

  function PermissionWithId(id: Guid): Permission -> bool {
    (p: Permission) => p.id == id
  }

  function PermissionNamed(name: string): Permission -> bool {
    (p: Permission) => p.name == name
  }

  function GrantTo(roleId: Guid): Permission -> RolePermission {
    (p: Permission) => RolePermission(roleId, p.id)
  }

  /** The links that survive the first phase of the reset. */
  function WithoutAdminLinks(links: seq<RolePermission>, roles: seq<Role>): (kept: seq<RolePermission>)
    ensures |kept| <= |links|
    ensures forall rp :: rp in kept ==> rp in links && !OwnedByAdmin(rp, roles)
  {
    WhereMembers(links, NotOwnedByAdmin(roles));
    Where(links, NotOwnedByAdmin(roles))
  }

  /** One admin-role link per permission of `ps`, in order; none when there is no admin role. */
  function AdminGrants(roles: seq<Role>, ps: seq<Permission>): (grants: seq<RolePermission>)
    ensures AdminRole(roles).None? ==> grants == []
    ensures AdminRole(roles).Some? ==> |grants| == |ps|
    ensures AdminRole(roles).Some? ==>
      forall i :: 0 <= i < |ps| ==> grants[i] == RolePermission(AdminRole(roles).value.id, ps[i].id)
  {
    match AdminRole(roles)
    case None => []
    case Some(admin) => Select(ps, GrantTo(admin.id))
  }

  /** The links a reset that completes leaves behind. */
  function LinksAfterReset(links: seq<RolePermission>, roles: seq<Role>, ps: seq<Permission>): (after: seq<RolePermission>)
    ensures forall rp :: rp in links && !OwnedByAdmin(rp, roles) ==> rp in after
    ensures forall rp :: rp in after && OwnedByAdmin(rp, roles) ==> rp in AdminGrants(roles, ps)
  {
    WhereMembers(links, NotOwnedByAdmin(roles));
    WithoutAdminLinks(links, roles) + AdminGrants(roles, ps)
  }

  /** `role.RolePermissions`: the links whose role id is `roleId`. */
  function LinksOfRole(links: seq<RolePermission>, roleId: Guid): (owned: seq<RolePermission>)
    ensures forall rp :: rp in owned <==> rp in links && rp.roleId == roleId
  {
    WhereMembers(links, LinkOfRole(roleId));
    Where(links, LinkOfRole(roleId))
  }

  /** `user.UserRoles`: the assignments whose user id is `userId`. */
  function UserRolesOf(userRoles: seq<UserRole>, userId: Guid): (own: seq<UserRole>)
    ensures forall ur :: ur in own <==> ur in userRoles && ur.userId == userId
  {
    WhereMembers(userRoles, RoleOfUser(userId));
    Where(userRoles, RoleOfUser(userId))
  }

  /** `ur.Role`: the roles with the id the assignment names. */
  function RolesOfAssignment(roles: seq<Role>): UserRole -> seq<Role> {
    (ur: UserRole) => Where(roles, RoleWithId(ur.roleId))
  }

  /** `.Select(ur => ur.Role)`: the roles the assignments `urs` point at. */
  function RolesOf(urs: seq<UserRole>, roles: seq<Role>): (reached: seq<Role>)
    ensures forall r :: r in reached <==> r in roles && exists ur :: ur in urs && ur.roleId == r.id
  {
    forall ur | ur in urs {
      WhereMembers(roles, RoleWithId(ur.roleId));
    }
    SelectMany(urs, RolesOfAssignment(roles))
  }

  /** `r.RolePermissions`, as a function of the role. */
  function LinksOfEachRole(links: seq<RolePermission>): Role -> seq<RolePermission> {
    (r: Role) => LinksOfRole(links, r.id)
  }

  /** `.SelectMany(r => r.RolePermissions)`: the links of all roles `rs`. */
  function LinksOfRoles(rs: seq<Role>, links: seq<RolePermission>): (owned: seq<RolePermission>)
    ensures forall rp :: rp in owned <==> rp in links && exists r :: r in rs && rp.roleId == r.id
  {
    SelectMany(rs, LinksOfEachRole(links))
  }

  /** `rp.Permission`: the permissions with the id the link names. */
  function PermissionsOfLink(permissions: seq<Permission>): RolePermission -> seq<Permission> {
    (rp: RolePermission) => Where(permissions, PermissionWithId(rp.permissionId))
  }

  /** `.Select(rp => rp.Permission)`: the permissions the links `ls` point at. */
  function PermissionsOf(ls: seq<RolePermission>, permissions: seq<Permission>): (reached: seq<Permission>)
    ensures forall p :: p in reached <==> p in permissions && exists rp :: rp in ls && rp.permissionId == p.id
  {
    forall rp | rp in ls {
      WhereMembers(permissions, PermissionWithId(rp.permissionId));
    }
    SelectMany(ls, PermissionsOfLink(permissions))
  }

  /** `Name.Contains(filter) || DisplayName.Contains(filter)`. */
  predicate MatchesFilter(p: Permission, filter: string) {
    Contains(p.name, filter) || Contains(p.displayName, filter)
  }

  function MatchingFilter(filter: string): Permission -> bool {
    (p: Permission) => MatchesFilter(p, filter)
  }

  /** `string.IsNullOrEmpty`, with null as `None`. */
  predicate IsNullOrEmpty(s: Option<string>) {
    s.None? || s.value == ""
  }

  class PermissionAppService {
    var users: seq<User>
    var userRoles: seq<UserRole>
    var roles: seq<Role>
    var permissions: seq<Permission>
    var rolePermissions: seq<RolePermission>

    /** The service over the given contents of its repositories. */
    constructor (users: seq<User>, userRoles: seq<UserRole>, roles: seq<Role>,
                 permissions: seq<Permission>, rolePermissions: seq<RolePermission>)
      ensures this.users == users && this.userRoles == userRoles && this.roles == roles
      ensures this.permissions == permissions && this.rolePermissions == rolePermissions
    {
      this.users := users;
      this.userRoles := userRoles;
      this.roles := roles;
      this.permissions := permissions;
      this.rolePermissions := rolePermissions;
    }

    /** Some link of the role with id `roleId` leads to a permission named `name`. */
    ghost predicate RoleHolds(roleId: Guid, name: string)
      reads this
    {
      exists rp, p :: rp in rolePermissions && p in permissions &&
        rp.roleId == roleId && p.id == rp.permissionId && p.name == name
    }

    /** Some role assigned to `user` holds a permission named `name`. */
    ghost predicate UserHolds(user: User, name: string)
      reads this
    {
      exists ur, r :: ur in userRoles && r in roles &&
        ur.userId == user.id && r.id == ur.roleId && RoleHolds(r.id, name)
    }

    /** `users[i]` is the first user whose user name is `userName`. */
    ghost predicate IsFirstUserNamed(i: int, userName: string)
      reads this
    {
      0 <= i < |users| && users[i].userName == userName &&
      forall j :: 0 <= j < i ==> users[j].userName != userName
    }

    /**
     * `user.UserRoles.Select(ur => ur.Role).SelectMany(r => r.RolePermissions)
     * .Select(rp => rp.Permission).Any(p => p.Name == name)`: some permission
     * reached from the user's roles is named `name`.
     */
    function UserReaches(user: User, name: string): (reached: bool)
      reads this
      ensures reached <==> UserHolds(user, name)
    {
      var userRoleList := RolesOf(UserRolesOf(userRoles, user.id), roles);
      var granted := PermissionsOf(LinksOfRoles(userRoleList, rolePermissions), permissions);
      Any(granted, PermissionNamed(name))
    }

    /**
     * `role.RolePermissions.Select(rp => rp.Permission).Any(p => p.Name == name)`:
     * some permission reached from the links of the role with id `roleId` is
     * named `name`.
     */
    function RoleReaches(roleId: Guid, name: string): (reached: bool)
      reads this
      ensures reached <==> RoleHolds(roleId, name)
    {
      var granted := PermissionsOf(LinksOfRole(rolePermissions, roleId), permissions);
      Any(granted, PermissionNamed(name))
    }

    /**
     * Whether the user named `userName` holds a permission with the name of
     * `permission`: the first user with that user name, each of its roles,
     * each link of those roles, each permission those links reach.
     */
    function IsPermissionGrantedForUser(userName: string, permission: Permission): (granted: bool)
      reads this
      ensures (forall u :: u in users ==> u.userName != userName) ==> !granted
      ensures granted <==> exists i :: IsFirstUserNamed(i, userName) && UserHolds(users[i], permission.name)
    {
      match FirstOrDefault(users, UserNamed(userName))
      case None =>
        assert forall i :: 0 <= i < |users| ==> users[i] in users;
        false
      case Some(user) =>
        UserReaches(user, permission.name)
    }

    /**
     * Whether the stored role with the id of `role` holds a permission with the
     * name of `permission`, through that role's own links.
     */
    function IsPermissionGrantedForRole(role: Role, permission: Permission): (granted: bool)
      reads this
      ensures (forall r :: r in roles ==> r.id != role.id) ==> !granted
      ensures granted <==> (exists r :: r in roles && r.id == role.id) && RoleHolds(role.id, permission.name)
    {
      match FirstOrDefault(roles, RoleWithId(role.id))
      case None => false
      case Some(existing) => RoleReaches(existing.id, permission.name)
    }

    /**
     * The filter of the permission listing: with a null or empty filter every
     * permission, otherwise those whose name or display name contains it.
     */
    function FilterPermissions(filter: Option<string>): (listed: seq<Permission>)
      reads this
      ensures IsNullOrEmpty(filter) ==> listed == permissions
      ensures !IsNullOrEmpty(filter) ==>
        forall p :: p in listed <==> p in permissions && MatchesFilter(p, filter.value)
      ensures |listed| <= |permissions|
    {
      if IsNullOrEmpty(filter) then permissions
      else
        WhereMembers(permissions, MatchingFilter(filter.value));
        Where(permissions, MatchingFilter(filter.value))
    }

    /**
     * Replaces the catalog by `ps` and the admin role's links by one link per
     * permission of `ps`. The two deletions are committed at once; the
     * insertions stay pending until the final commit, so a missing admin
     * role discards them.
     */
    method InitializePermissions(ps: seq<Permission>) returns (outcome: ResetOutcome)
      modifies this
      ensures users == old(users) && userRoles == old(userRoles) && roles == old(roles)
      ensures outcome == MissingAdminRole <==> ps != [] && AdminRole(roles).None?
      ensures outcome == Initialized ==>
        permissions == ps && rolePermissions == LinksAfterReset(old(rolePermissions), roles, ps)
      ensures outcome == MissingAdminRole ==>
        permissions == [] && rolePermissions == WithoutAdminLinks(old(rolePermissions), roles)
    {
      rolePermissions := WithoutAdminLinks(rolePermissions, roles);
      permissions := [];

      var pendingPermissions: seq<Permission> := [];
      var pendingLinks: seq<RolePermission> := [];
      for i := 0 to |ps|
        invariant pendingPermissions == ps[..i]
        invariant i > 0 ==> AdminRole(roles).Some?
        invariant pendingLinks == AdminGrants(roles, ps[..i])
        invariant users == old(users) && userRoles == old(userRoles) && roles == old(roles)
        invariant permissions == [] && rolePermissions == WithoutAdminLinks(old(rolePermissions), roles)
      {
        var permission := ps[i];
        pendingPermissions := pendingPermissions + [permission];
        var role := FirstOrDefault(roles, IsAdminRole);
        if role.None? {
          return MissingAdminRole;
        }
        pendingLinks := pendingLinks + [RolePermission(role.value.id, permission.id)];
      }

      assert ps[..|ps|] == ps;
      permissions := permissions + pendingPermissions;
      rolePermissions := rolePermissions + pendingLinks;
      outcome := Initialized;
    }
  }

  // Properties of the catalog reset.

  /** The admin role found by the reset is one of the roles and has the admin name. */
  /** Every grant the reset inserts belongs to the admin role. */
  lemma GrantsAreAdminOwned(roles: seq<Role>, ps: seq<Permission>)
    ensures forall rp :: rp in AdminGrants(roles, ps) ==> OwnedByAdmin(rp, roles)
    ensures AdminGrants(roles, ps) == [] <==> ps == [] || AdminRole(roles).None?
  {
  }

  /**
   * The delete phase removes every link owned by an admin-named role and
   * keeps every other link, each as many times as it occurred.
   */
  lemma DeletePhaseKeepsOtherLinks(links: seq<RolePermission>, roles: seq<Role>)
    ensures forall rp :: rp in WithoutAdminLinks(links, roles) <==> rp in links && !OwnedByAdmin(rp, roles)
    ensures forall rp :: multiset(WithoutAdminLinks(links, roles))[rp] == if OwnedByAdmin(rp, roles) then 0 else multiset(links)[rp]
  {
    WhereMembers(links, NotOwnedByAdmin(roles));
    forall rp {
      WhereCount(links, NotOwnedByAdmin(roles), rp);
    }
  }

  /** The delete phase of a later reset removes every grant a reset inserts. */
  lemma DeletePhaseRemovesGrants(roles: seq<Role>, ps: seq<Permission>)
    ensures WithoutAdminLinks(AdminGrants(roles, ps), roles) == []
  {
    var grants := AdminGrants(roles, ps);
    GrantsAreAdminOwned(roles, ps);
    assert forall rp :: rp in grants ==> !NotOwnedByAdmin(roles)(rp);
    WhereNone(grants, NotOwnedByAdmin(roles));
  }

  /**
   * After a completed reset the admin role owns exactly one link per entry
   * of `ps`, in order, each pointing at that entry's id.
   */
  lemma {:induction false} AdminLinksAfterReset(links: seq<RolePermission>, roles: seq<Role>, ps: seq<Permission>, admin: Role)
    requires AdminRole(roles) == Some(admin)
    ensures LinksOfRole(LinksAfterReset(links, roles, ps), admin.id) == Select(ps, GrantTo(admin.id))
  {
    var kept, grants := WithoutAdminLinks(links, roles), AdminGrants(roles, ps);
    WhereConcat(kept, grants, LinkOfRole(admin.id));
    DeletePhaseKeepsOtherLinks(links, roles);
    WhereNone(kept, LinkOfRole(admin.id));
    WhereAll(grants, LinkOfRole(admin.id));
  }

  /**
   * A role whose id no admin-named role shares keeps exactly the links it
   * had, in order; the reset adds none to it.
   */
  lemma {:induction false} OtherRolesKeepTheirLinks(links: seq<RolePermission>, roles: seq<Role>, ps: seq<Permission>, roleId: Guid)
    requires forall r :: r in roles && r.id == roleId ==> !IsAdminRole(r)
    ensures LinksOfRole(LinksAfterReset(links, roles, ps), roleId) == LinksOfRole(links, roleId)
  {
    var kept, grants := WithoutAdminLinks(links, roles), AdminGrants(roles, ps);
    GrantsAreAdminOwned(roles, ps);
    WhereConcat(kept, grants, LinkOfRole(roleId));
    WhereNone(grants, LinkOfRole(roleId));
    WhereWhere(links, NotOwnedByAdmin(roles), LinkOfRole(roleId));
  }

  /** A reset with an empty list leaves no link to any admin-named role. */
  lemma EmptyResetClearsAdminLinks(links: seq<RolePermission>, roles: seq<Role>, r: Role)
    requires r in roles && IsAdminRole(r)
    ensures LinksOfRole(LinksAfterReset(links, roles, []), r.id) == []
  {
    DeletePhaseKeepsOtherLinks(links, roles);
    WhereNone(LinksAfterReset(links, roles, []), LinkOfRole(r.id));
  }

  /** A second reset leaves only what the second list puts there: nothing of the first survives. */
  lemma {:induction false} ResetTwice(links: seq<RolePermission>, roles: seq<Role>, ps1: seq<Permission>, ps2: seq<Permission>)
    ensures LinksAfterReset(LinksAfterReset(links, roles, ps1), roles, ps2) == LinksAfterReset(links, roles, ps2)
  {
    var keep := NotOwnedByAdmin(roles);
    var kept, grants := Where(links, keep), AdminGrants(roles, ps1);
    assert WithoutAdminLinks(kept + grants, roles) == kept by {
      assert Where(grants, keep) == [] by {
        DeletePhaseRemovesGrants(roles, ps1);
      }
      assert Where(kept, keep) == kept by {
        WhereWhere(links, keep, keep);
      }
      WhereConcat(kept, grants, keep);
    }
    assert LinksAfterReset(links, roles, ps1) == kept + grants;
  }

  /** Resetting to the application's catalog twice ends where resetting once does. */
  lemma CatalogResetIsStable(links: seq<RolePermission>, roles: seq<Role>)
    ensures LinksAfterReset(LinksAfterReset(links, roles, AllPermissions()), roles, AllPermissions())
         == LinksAfterReset(links, roles, AllPermissions())
  {
    ResetTwice(links, roles, AllPermissions(), AllPermissions());
  }

  // Grant checks over the state a completed reset leaves.

  /**
   * After a completed reset with `ps`, the admin role holds a permission
   * exactly when some entry of `ps` has its name.
   */
  lemma AdminGrantAfterReset(s: PermissionAppService, links: seq<RolePermission>, ps: seq<Permission>, admin: Role, target: Permission)
    requires s.permissions == ps && s.rolePermissions == LinksAfterReset(links, s.roles, ps)
    requires AdminRole(s.roles) == Some(admin)
    ensures s.IsPermissionGrantedForRole(admin, target) <==> exists p :: p in ps && p.name == target.name
  {
    AdminLinksAfterReset(links, s.roles, ps, admin);
    var owned := LinksOfRole(s.rolePermissions, admin.id);
    if p :| p in ps && p.name == target.name {
      var i :| 0 <= i < |ps| && ps[i] == p;
      assert owned[i] in owned;
    }
    if s.RoleHolds(admin.id, target.name) {
      var rp, p :| rp in s.rolePermissions && p in s.permissions &&
        rp.roleId == admin.id && p.id == rp.permissionId && p.name == target.name;
      assert p in ps;
    }
  }

  /**
   * After a completed reset, a role that does not share its id with an
   * admin-named role holds a permission exactly when one of its own earlier
   * links points at an entry of `ps` with that name.
   */
  lemma OtherRoleGrantAfterReset(s: PermissionAppService, links: seq<RolePermission>, ps: seq<Permission>, role: Role, target: Permission)
    requires s.permissions == ps && s.rolePermissions == LinksAfterReset(links, s.roles, ps)
    requires forall r :: r in s.roles && r.id == role.id ==> !IsAdminRole(r)
    ensures s.IsPermissionGrantedForRole(role, target) <==>
      (exists r :: r in s.roles && r.id == role.id) &&
      exists rp, p :: rp in links && p in ps && rp.roleId == role.id && p.id == rp.permissionId && p.name == target.name
  {
    OtherRolesKeepTheirLinks(links, s.roles, ps, role.id);
    assert forall rp :: rp in s.rolePermissions && rp.roleId == role.id <==> rp in links && rp.roleId == role.id by {
      assert forall rp :: rp in LinksOfRole(s.rolePermissions, role.id) <==> rp in LinksOfRole(links, role.id);
    }
  }

  /** The application's catalog grants the API-user permission to the admin role. */
  lemma ApiUserGrantedToAdmin(s: PermissionAppService, links: seq<RolePermission>, admin: Role, target: Permission)
    requires s.permissions == AllPermissions() && s.rolePermissions == LinksAfterReset(links, s.roles, AllPermissions())
    requires AdminRole(s.roles) == Some(admin)
    requires target.name == ApiUser
    ensures s.IsPermissionGrantedForRole(admin, target)
  {
    AdminGrantAfterReset(s, links, AllPermissions(), admin, target);
    assert ApiUserPermission in AllPermissions();
  }

  /**
   * Both checks look only at the permission's name, and the role check only
   * at the role's id.
   */
  lemma GrantChecksCompareNames(s: PermissionAppService, userName: string, r1: Role, r2: Role, p1: Permission, p2: Permission)
    requires p1.name == p2.name && r1.id == r2.id
    ensures s.IsPermissionGrantedForUser(userName, p1) == s.IsPermissionGrantedForUser(userName, p2)
    ensures s.IsPermissionGrantedForRole(r1, p1) == s.IsPermissionGrantedForRole(r2, p2)
  {
  }
}
