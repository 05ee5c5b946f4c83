/** The claim snapshot the auth service builds for a player before issuing
    a token: identity, level and experience from the profile, matches,
    wins and rating from the statistic, the names of the player's roles, and
    the permission names those roles grant, without repetition. */
module PlayerClaims {
  import opened Common
  import opened Records
  import opened Store

  /** The snapshot, with the role list and the permission list as sets of names. */
  datatype PlayerInfoClaim = PlayerInfoClaim(
    id: int,
    username: string,
    email: string,
    level: int,
    experience: int,
    totalMatches: int,
    wins: int,
    rating: int,
    roles: set<string>,
    permissions: set<string>)

  /** PlayerRoles where PlayerId == pid, joined with Roles on the role id, projected to the name. */
  function RoleNames(t: Tables, pid: int): (names: set<string>)
    ensures forall pr :: pr in t.playerRoles && pr.playerId == pid && pr.roleId in t.roles ==>
              t.roles[pr.roleId].roleName in names
    ensures forall name :: name in names ==>
              exists pr :: pr in t.playerRoles && pr.playerId == pid && pr.roleId in t.roles
                        && t.roles[pr.roleId].roleName == name
  {
    set pr | pr in t.playerRoles && pr.playerId == pid && pr.roleId in t.roles :: t.roles[pr.roleId].roleName
  }

  /** The permission names one role grants: RolePermissions joined with Permissions. */
  function GrantedBy(t: Tables, rid: int): (names: set<string>)
    ensures forall rp :: rp in t.rolePermissions && rp.roleId == rid && rp.permissionId in t.permissions ==>
              t.permissions[rp.permissionId].permissionName in names
    ensures forall name :: name in names ==>
              exists rp :: rp in t.rolePermissions && rp.roleId == rid && rp.permissionId in t.permissions
                        && t.permissions[rp.permissionId].permissionName == name
  {
    set rp | rp in t.rolePermissions && rp.roleId == rid && rp.permissionId in t.permissions
      :: t.permissions[rp.permissionId].permissionName
  }

  /** PlayerRoles where PlayerId == pid, joined with RolePermissions on the
      role id and with Permissions on the permission id, then Distinct. */
  function PermissionNames(t: Tables, pid: int): (names: set<string>)
  {
    set rp | rp in t.rolePermissions && PlayerRole(pid, rp.roleId) in t.playerRoles && rp.permissionId in t.permissions
      :: t.permissions[rp.permissionId].permissionName
  }

  /** A permission name is in the snapshot exactly when one of the player's
      linked roles grants it. */
  lemma PermissionNamesIffGranted(t: Tables, pid: int, name: string)
    ensures name in PermissionNames(t, pid) <==>
            exists rid :: PlayerRole(pid, rid) in t.playerRoles && name in GrantedBy(t, rid)
  {
    if name in PermissionNames(t, pid) {
      var rp :| rp in t.rolePermissions && PlayerRole(pid, rp.roleId) in t.playerRoles
                && rp.permissionId in t.permissions && t.permissions[rp.permissionId].permissionName == name;
      assert name in GrantedBy(t, rp.roleId);
    }
    if exists rid :: PlayerRole(pid, rid) in t.playerRoles && name in GrantedBy(t, rid) {
      var rid :| PlayerRole(pid, rid) in t.playerRoles && name in GrantedBy(t, rid);
      var rp :| rp in t.rolePermissions && rp.roleId == rid && rp.permissionId in t.permissions
                && t.permissions[rp.permissionId].permissionName == name;
      assert PlayerRole(pid, rp.roleId) in t.playerRoles;
    }
  }

  /** Linking one more role to the player adds exactly what that role grants:
      the permission list is the duplicate-free union over the player's roles. */
  lemma LinkRoleAddsGrants(t: Tables, pid: int, rid: int)
    ensures PermissionNames(t.(playerRoles := t.playerRoles + {PlayerRole(pid, rid)}), pid)
         == PermissionNames(t, pid) + GrantedBy(t, rid)
  {
    var t' := t.(playerRoles := t.playerRoles + {PlayerRole(pid, rid)});
    forall name
      ensures name in PermissionNames(t', pid) <==> name in PermissionNames(t, pid) + GrantedBy(t, rid)
    {
      PermissionNamesIffGranted(t', pid, name);
      PermissionNamesIffGranted(t, pid, name);
      if name in PermissionNames(t', pid) {
        var r :| PlayerRole(pid, r) in t'.playerRoles && name in GrantedBy(t', r);
        assert GrantedBy(t', r) == GrantedBy(t, r);
      }
      if name in GrantedBy(t, rid) {
        assert GrantedBy(t', rid) == GrantedBy(t, rid);
      }
      if name in PermissionNames(t, pid) {
        var r :| PlayerRole(pid, r) in t.playerRoles && name in GrantedBy(t, r);
        assert GrantedBy(t', r) == GrantedBy(t, r);
      }
    }
  }

  /** Distinct role links of one player give distinct names, so the role
      list of the snapshot never repeats a name. */
  lemma RoleNamesNoRepeats(t: Tables, pid: int, r1: int, r2: int)
    requires Consistent(t)
    requires PlayerRole(pid, r1) in t.playerRoles && PlayerRole(pid, r2) in t.playerRoles && r1 != r2
    ensures t.roles[r1].roleName != t.roles[r2].roleName
  {
  }

  /** A role name is in the snapshot exactly when one of the player's links names that role. */
  lemma RoleNamesIffLinked(t: Tables, pid: int, name: string)
    requires Consistent(t)
    ensures name in RoleNames(t, pid) <==> exists rid :: PlayerRole(pid, rid) in t.playerRoles && t.roles[rid].roleName == name
  {
    if name in RoleNames(t, pid) {
      var pr :| pr in t.playerRoles && pr.playerId == pid && pr.roleId in t.roles && t.roles[pr.roleId].roleName == name;
      assert PlayerRole(pid, pr.roleId) == pr;
    }
  }

  /** MapToPlayerInfoClaim. It dereferences the profile and the statistic it
      is given, so a missing one is a failure (None) that the callers catch. */
  function MapToPlayerInfoClaim(t: Tables, player: Player, profile: Option<PlayerProfile>,
                                statistic: Option<PlayerStatistic>): (c: Option<PlayerInfoClaim>)
    ensures c.Some? <==> profile.Some? && statistic.Some?
    ensures c.Some? ==>
      && c.value.id == player.id && c.value.username == player.username && c.value.email == player.email
      && c.value.level == profile.value.level && c.value.experience == profile.value.experience
      && c.value.totalMatches == statistic.value.totalMatches && c.value.wins == statistic.value.wins
      && c.value.rating == statistic.value.rating
      && c.value.roles == RoleNames(t, player.id) && c.value.permissions == PermissionNames(t, player.id)
  {
    if profile.None? || statistic.None? then None
    else
      Some(PlayerInfoClaim(player.id, player.username, player.email,
                           profile.value.level, profile.value.experience,
                           statistic.value.totalMatches, statistic.value.wins, statistic.value.rating,
                           RoleNames(t, player.id), PermissionNames(t, player.id)))
  }

  /** Roles {A, B} and {B, C}: a player holding both is granted {A, B, C},
      with B once. */
  lemma OverlappingRolesExample()
    ensures var t := Tables(
              map[1 := Player(1, "p", "p@x", "h", "r", None, 0, 0, false, "", 0, 0)],
              map[], map[],
              map[10 := Role(10, "R1"), 20 := Role(20, "R2")],
              map[100 := Permission(100, "A"), 200 := Permission(200, "B"), 300 := Permission(300, "C")],
              {PlayerRole(1, 10), PlayerRole(1, 20)},
              {RolePermission(10, 100), RolePermission(10, 200), RolePermission(20, 200), RolePermission(20, 300)},
              2, 21, 301);
            PermissionNames(t, 1) == {"A", "B", "C"} && RoleNames(t, 1) == {"R1", "R2"}
  {
    var t := Tables(
              map[1 := Player(1, "p", "p@x", "h", "r", None, 0, 0, false, "", 0, 0)],
              map[], map[],
              map[10 := Role(10, "R1"), 20 := Role(20, "R2")],
              map[100 := Permission(100, "A"), 200 := Permission(200, "B"), 300 := Permission(300, "C")],
              {PlayerRole(1, 10), PlayerRole(1, 20)},
              {RolePermission(10, 100), RolePermission(10, 200), RolePermission(20, 200), RolePermission(20, 300)},
              2, 21, 301);
    ExampleGrants(t);
    var t0 := t.(playerRoles := {});
    var t1 := t0.(playerRoles := {PlayerRole(1, 10)});
    LinksAddGrants(t0, t1, t);
    assert RoleNames(t, 1) == {"R1", "R2"} by {
      assert PlayerRole(1, 10) in t.playerRoles && PlayerRole(1, 20) in t.playerRoles;
    }
  }

  lemma ExampleGrants(t: Tables)
    requires t.permissions == map[100 := Permission(100, "A"), 200 := Permission(200, "B"), 300 := Permission(300, "C")]
    requires t.rolePermissions
          == {RolePermission(10, 100), RolePermission(10, 200), RolePermission(20, 200), RolePermission(20, 300)}
    ensures GrantedBy(t, 10) == {"A", "B"} && GrantedBy(t, 20) == {"B", "C"}
  {
    assert RolePermission(10, 100) in t.rolePermissions && RolePermission(10, 200) in t.rolePermissions;
    assert RolePermission(20, 200) in t.rolePermissions && RolePermission(20, 300) in t.rolePermissions;
  }

  lemma LinksAddGrants(t0: Tables, t1: Tables, t: Tables)
    requires t0 == t.(playerRoles := {}) && t1 == t.(playerRoles := {PlayerRole(1, 10)})
    requires t.playerRoles == {PlayerRole(1, 10), PlayerRole(1, 20)}
    requires GrantedBy(t, 10) == {"A", "B"} && GrantedBy(t, 20) == {"B", "C"}
    ensures PermissionNames(t, 1) == {"A", "B", "C"}
  {
    assert PermissionNames(t0, 1) == {};
    assert GrantedBy(t0, 10) == GrantedBy(t, 10);
    LinkRoleAddsGrants(t0, 1, 10);
    assert t1 == t0.(playerRoles := t0.playerRoles + {PlayerRole(1, 10)});
    assert GrantedBy(t1, 20) == GrantedBy(t, 20);
    LinkRoleAddsGrants(t1, 1, 20);
    assert t == t1.(playerRoles := t1.playerRoles + {PlayerRole(1, 20)});
  }
}
