/** The database the services work on: players, statistics and profiles by
    player id, roles and permissions by id, and the two link tables as sets
    of id pairs. Ids come from identity sequences. The schema's keys, unique
    indexes, column limits and foreign keys are the invariant Consistent. */
module Store {
  import opened Common
  import opened Records

  /** The contents of every table at one instant. */
  datatype Tables = Tables(
    players: map<int, Player>,
    profiles: map<int, PlayerProfile>,
    statistics: map<int, PlayerStatistic>,
    roles: map<int, Role>,
    permissions: map<int, Permission>,
    playerRoles: set<PlayerRole>,
    rolePermissions: set<RolePermission>,
    nextPlayerId: int,
    nextRoleId: int,
    nextPermissionId: int)

  /** Player ids are the integer keys the sequence handed out; Username and
      Email are unique and fit their columns. */
  ghost predicate PlayersConsistent(t: Tables) {
    && 1 <= t.nextPlayerId <= Int32Max + 1
    && (forall id :: id in t.players ==> t.players[id].id == id && 1 <= id < t.nextPlayerId)
    && (forall id :: id in t.players ==>
          |t.players[id].username| <= UsernameMaxLength && |t.players[id].email| <= EmailMaxLength)
    && (forall a, b :: a in t.players && b in t.players && a != b ==>
          t.players[a].username != t.players[b].username && t.players[a].email != t.players[b].email)
  }

  /** At most one profile and one statistic per player, each owned by a stored player. */
  ghost predicate OwnedRowsConsistent(t: Tables) {
    && (forall id :: id in t.profiles ==> t.profiles[id].idPlayer == id && id in t.players)
    && (forall id :: id in t.statistics ==> t.statistics[id].idPlayer == id && id in t.players)
  }

  /** Role and permission names are unique and fit their columns. */
  ghost predicate AccessConsistent(t: Tables) {
    && 1 <= t.nextRoleId && 1 <= t.nextPermissionId
    && (forall id :: id in t.roles ==>
          t.roles[id].id == id && 1 <= id < t.nextRoleId && |t.roles[id].roleName| <= RoleNameMaxLength)
    && (forall a, b :: a in t.roles && b in t.roles && a != b ==> t.roles[a].roleName != t.roles[b].roleName)
    && (forall id :: id in t.permissions ==>
          t.permissions[id].id == id && 1 <= id < t.nextPermissionId
          && |t.permissions[id].permissionName| <= PermissionNameMaxLength)
    && (forall a, b :: a in t.permissions && b in t.permissions && a != b ==>
          t.permissions[a].permissionName != t.permissions[b].permissionName)
  }

  /** Every link refers to rows that exist. */
  ghost predicate LinksConsistent(t: Tables) {
    && (forall pr :: pr in t.playerRoles ==> pr.playerId in t.players && pr.roleId in t.roles)
    && (forall rp :: rp in t.rolePermissions ==> rp.roleId in t.roles && rp.permissionId in t.permissions)
  }

  ghost predicate Consistent(t: Tables) {
    PlayersConsistent(t) && OwnedRowsConsistent(t) && AccessConsistent(t) && LinksConsistent(t)
  }

  /** The database as created by the migration: every table empty, every sequence at 1. */
  function EmptyTables(): (t: Tables)
    ensures Consistent(t)
  {
    Tables(map[], map[], map[], map[], map[], {}, {}, 1, 1, 1)
  }

  // ---- Inserting a player row --------------------------------------------

  /** Saving a new player row succeeds when the sequence still has a 32-bit
      value, both strings fit their columns and neither unique index is hit. */
  predicate PlayerInsertable(t: Tables, p: Player) {
    && t.nextPlayerId <= Int32Max
    && |p.username| <= UsernameMaxLength && |p.email| <= EmailMaxLength
    && (forall id :: id in t.players ==> t.players[id].username != p.username && t.players[id].email != p.email)
  }

  /** The row is stored under the next sequence value, which it also carries as its id. */
  function WithPlayer(t: Tables, p: Player): (t': Tables)
    ensures t'.players == t.players[t.nextPlayerId := p.(id := t.nextPlayerId)]
    ensures t'.nextPlayerId == t.nextPlayerId + 1
    ensures t' == t.(players := t'.players, nextPlayerId := t'.nextPlayerId)
  {
    t.(players := t.players[t.nextPlayerId := p.(id := t.nextPlayerId)], nextPlayerId := t.nextPlayerId + 1)
  }

  lemma WithPlayerConsistent(t: Tables, p: Player)
    requires Consistent(t) && PlayerInsertable(t, p)
    ensures Consistent(WithPlayer(t, p))
    ensures t.nextPlayerId !in t.players && t.nextPlayerId !in t.profiles && t.nextPlayerId !in t.statistics
  {
    var t' := WithPlayer(t, p);
    var n := t.nextPlayerId;
    forall a, b | a in t'.players && b in t'.players && a != b
      ensures t'.players[a].username != t'.players[b].username && t'.players[a].email != t'.players[b].email
    {
      if a == n {
        assert b in t.players;
      } else if b == n {
        assert a in t.players;
      }
    }
  }

  // ---- The rows that complete an account -------------------------------

  /** A new profile and statistic for the player and one link per role id. */
  function WithAccountRows(t: Tables, pid: int, roleIds: set<int>): (t': Tables)
    ensures t'.profiles == t.profiles[pid := NewProfile(pid)]
    ensures t'.statistics == t.statistics[pid := NewStatistic(pid)]
    ensures t'.playerRoles == t.playerRoles + set rid | rid in roleIds :: PlayerRole(pid, rid)
    ensures t'.players == t.players && t'.roles == t.roles && t'.permissions == t.permissions
    ensures t'.rolePermissions == t.rolePermissions && t'.nextPlayerId == t.nextPlayerId
    ensures t'.nextRoleId == t.nextRoleId && t'.nextPermissionId == t.nextPermissionId
  {
    t.(profiles := t.profiles[pid := NewProfile(pid)],
       statistics := t.statistics[pid := NewStatistic(pid)],
       playerRoles := t.playerRoles + set rid | rid in roleIds :: PlayerRole(pid, rid))
  }

  lemma WithAccountRowsConsistent(t: Tables, pid: int, roleIds: set<int>)
    requires Consistent(t) && pid in t.players
    requires forall rid :: rid in roleIds ==> rid in t.roles
    ensures Consistent(WithAccountRows(t, pid, roleIds))
  {
  }

  /** Rewriting a stored player's row keeps the tables consistent as long as
      the key, Username and Email stay as they were. */
  lemma UpdatePlayerConsistent(t: Tables, p: Player)
    requires Consistent(t) && p.id in t.players
    requires p.username == t.players[p.id].username && p.email == t.players[p.id].email
    ensures Consistent(t.(players := t.players[p.id := p]))
  {
    var t' := t.(players := t.players[p.id := p]);
    forall a, b | a in t'.players && b in t'.players && a != b
      ensures t'.players[a].username != t'.players[b].username && t'.players[a].email != t'.players[b].email
    {
      assert t'.players[a].username == t.players[a].username && t'.players[a].email == t.players[a].email;
      assert t'.players[b].username == t.players[b].username && t'.players[b].email == t.players[b].email;
    }
  }

  // ---- Lookups by name ---------------------------------------------------

  /** In consistent tables, a lookup by a player's own username and email
      finds that player and no other. */
  lemma OnlyMatch(t: Tables, pid: int)
    requires Consistent(t) && pid in t.players
    ensures PlayersMatching(t, Some(t.players[pid].username), Some(t.players[pid].email)) == {pid}
  {
    var m := PlayersMatching(t, Some(t.players[pid].username), Some(t.players[pid].email));
    assert pid in m;
    forall id | id in m ensures id == pid {
    }
  }

  /** Roles.FirstOrDefault(r => r.RoleName == name): the id of a role with that name. */
  ghost function RoleIdByName(t: Tables, name: string): (r: Option<int>)
    ensures r.Some? ==> r.value in t.roles && t.roles[r.value].roleName == name
    ensures r.None? <==> forall id :: id in t.roles ==> t.roles[id].roleName != name
  {
    if exists id :: id in t.roles && t.roles[id].roleName == name then
      var id :| id in t.roles && t.roles[id].roleName == name; Some(id)
    else None
  }

  /** Role names are unique, so the lookup finds the one role with that name. */
  lemma RoleIdByNameUnique(t: Tables, id: int)
    requires Consistent(t) && id in t.roles
    ensures RoleIdByName(t, t.roles[id].roleName) == Some(id)
  {
  }

  /** Permissions.FirstOrDefault(p => p.PermissionName == name). */
  ghost function PermissionIdByName(t: Tables, name: string): (r: Option<int>)
    ensures r.Some? ==> r.value in t.permissions && t.permissions[r.value].permissionName == name
    ensures r.None? <==> forall id :: id in t.permissions ==> t.permissions[id].permissionName != name
  {
    if exists id :: id in t.permissions && t.permissions[id].permissionName == name then
      var id :| id in t.permissions && t.permissions[id].permissionName == name; Some(id)
    else None
  }

  lemma PermissionIdByNameUnique(t: Tables, id: int)
    requires Consistent(t) && id in t.permissions
    ensures PermissionIdByName(t, t.permissions[id].permissionName) == Some(id)
  {
  }

  /** The players whose Username equals `username` or whose Email equals `email`. */
  function PlayersMatching(t: Tables, username: Option<string>, email: Option<string>): set<int> {
    set id | id in t.players && (Some(t.players[id].username) == username || Some(t.players[id].email) == email)
  }

  /** FirstOrDefault over PlayersMatching: some match when there is one,
      none otherwise; which match comes first depends on the store's order
      and is left open. */
  ghost predicate FirstMatch(t: Tables, username: Option<string>, email: Option<string>, found: Option<int>) {
    && (found.None? <==> PlayersMatching(t, username, email) == {})
    && (found.Some? ==> found.value in PlayersMatching(t, username, email))
  }

  /** The role ids linked to a player. */
  ghost function LinkedRoleIds(t: Tables, pid: int): set<int> {
    set pr | pr in t.playerRoles && pr.playerId == pid :: pr.roleId
  }

  /** `ids` lists the player's role links, each once, in some order. */
  ghost predicate EnumeratesLinks(t: Tables, pid: int, ids: seq<int>) {
    && (forall i, j :: 0 <= i < j < |ids| ==> ids[i] != ids[j])
    && (forall rid :: rid in ids <==> PlayerRole(pid, rid) in t.playerRoles)
  }

  // ---- Inserting roles, permissions and their links ----------------------

  /** Saving a new role succeeds when the name fits its column and no role has it yet. */
  predicate RoleInsertable(t: Tables, name: string) {
    |name| <= RoleNameMaxLength && forall id :: id in t.roles ==> t.roles[id].roleName != name
  }

  function WithRole(t: Tables, name: string): Tables {
    t.(roles := t.roles[t.nextRoleId := Role(t.nextRoleId, name)], nextRoleId := t.nextRoleId + 1)
  }

  predicate PermissionInsertable(t: Tables, name: string) {
    |name| <= PermissionNameMaxLength && forall id :: id in t.permissions ==> t.permissions[id].permissionName != name
  }

  function WithPermission(t: Tables, name: string): Tables {
    t.(permissions := t.permissions[t.nextPermissionId := Permission(t.nextPermissionId, name)],
       nextPermissionId := t.nextPermissionId + 1)
  }

  /** Role-permission links that can be saved: both ends are stored and the
      pair is not, so neither a foreign key nor the primary key is violated. */
  predicate LinksInsertable(t: Tables, links: set<RolePermission>) {
    forall l :: l in links ==> l.roleId in t.roles && l.permissionId in t.permissions && l !in t.rolePermissions
  }

  function WithRoleLinks(t: Tables, links: set<RolePermission>): Tables {
    t.(rolePermissions := t.rolePermissions + links)
  }

  /** A saved role keeps the tables consistent and the links that could be saved before still can. */
  lemma WithRoleConsistent(t: Tables, name: string, links: set<RolePermission>)
    requires Consistent(t) && RoleInsertable(t, name) && LinksInsertable(t, links)
    ensures Consistent(WithRole(t, name)) && LinksInsertable(WithRole(t, name), links)
    ensures RoleIdByName(WithRole(t, name), name) == Some(t.nextRoleId)
  {
    RoleIdByNameUnique(WithRole(t, name), t.nextRoleId);
  }

  lemma WithPermissionConsistent(t: Tables, name: string, links: set<RolePermission>)
    requires Consistent(t) && PermissionInsertable(t, name) && LinksInsertable(t, links)
    ensures Consistent(WithPermission(t, name)) && LinksInsertable(WithPermission(t, name), links)
    ensures PermissionIdByName(WithPermission(t, name), name) == Some(t.nextPermissionId)
  {
    PermissionIdByNameUnique(WithPermission(t, name), t.nextPermissionId);
  }

  lemma WithRoleLinksConsistent(t: Tables, links: set<RolePermission>)
    requires Consistent(t) && LinksInsertable(t, links)
    ensures Consistent(WithRoleLinks(t, links)) && LinksInsertable(WithRoleLinks(t, links), {})
  {
  }

  /** `rows` lists the statistic records, each once, in some order. */
  ghost predicate EnumeratesStatistics(t: Tables, rows: seq<PlayerStatistic>) {
    && (forall i, j :: 0 <= i < j < |rows| ==> rows[i].idPlayer != rows[j].idPlayer)
    && (forall i :: 0 <= i < |rows| ==> rows[i].idPlayer in t.statistics && rows[i] == t.statistics[rows[i].idPlayer])
    && (forall id :: id in t.statistics ==> t.statistics[id] in rows)
  }

  lemma SomeKey(s: set<int>)
    requires s != {}
    ensures exists k :: k in s
  {
    if forall k :: k !in s {
      assert false;
    }
  }

  /** Rewriting two stored statistic records under their own ids keeps the tables consistent. */
  lemma UpdateStatisticsConsistent(t: Tables, a: PlayerStatistic, b: PlayerStatistic)
    requires Consistent(t) && a.idPlayer in t.statistics && b.idPlayer in t.statistics
    ensures Consistent(t.(statistics := t.statistics[a.idPlayer := a][b.idPlayer := b]))
  {
  }

  class GameDb {
    var players: map<int, Player>
    var profiles: map<int, PlayerProfile>
    var statistics: map<int, PlayerStatistic>
    var roles: map<int, Role>
    var permissions: map<int, Permission>
    var playerRoles: set<PlayerRole>
    var rolePermissions: set<RolePermission>
    var nextPlayerId: int
    var nextRoleId: int
    var nextPermissionId: int

    function State(): Tables
      reads this
    {
      Tables(players, profiles, statistics, roles, permissions, playerRoles, rolePermissions,
             nextPlayerId, nextRoleId, nextPermissionId)
    }

    ghost predicate Valid()
      reads this
    {
      Consistent(State())
    }

    constructor ()
      ensures Valid() && State() == EmptyTables()
    {
      players, profiles, statistics := map[], map[], map[];
      roles, permissions := map[], map[];
      playerRoles, rolePermissions := {}, {};
      nextPlayerId, nextRoleId, nextPermissionId := 1, 1, 1;
    }

    /** Adds the player row and saves: the id comes from the sequence, and
        the save fails, leaving every table as it was, on a unique index,
        a column limit or an exhausted sequence. */
    method SavePlayer(p: Player) returns (id: Option<int>)
      modifies this
      ensures PlayerInsertable(old(State()), p) ==> id == Some(old(nextPlayerId)) && State() == WithPlayer(old(State()), p)
      ensures !PlayerInsertable(old(State()), p) ==> id.None? && State() == old(State())
    {
      if nextPlayerId <= Int32Max && |p.username| <= UsernameMaxLength && |p.email| <= EmailMaxLength
         && forall k :: k in players ==> players[k].username != p.username && players[k].email != p.email
      {
        id := Some(nextPlayerId);
        players := players[nextPlayerId := p.(id := nextPlayerId)];
        nextPlayerId := nextPlayerId + 1;
      } else {
        id := None;
      }
    }

    /** Adds a profile, a statistic and one role link per id for the player, and saves. */
    method SaveAccountRows(pid: int, roleIds: set<int>)
      modifies this
      ensures State() == WithAccountRows(old(State()), pid, roleIds)
    {
      profiles := profiles[pid := NewProfile(pid)];
      statistics := statistics[pid := NewStatistic(pid)];
      playerRoles := playerRoles + set rid | rid in roleIds :: PlayerRole(pid, rid);
    }

    /** Adds a role with the given name and saves it together with the
        pending links; the save fails, leaving every table as it was, when
        the name is too long for its column or taken, or a link cannot be stored. */
    method SaveRole(name: string, pending: set<RolePermission>) returns (id: Option<int>)
      modifies this
      ensures RoleInsertable(old(State()), name) && LinksInsertable(old(State()), pending) ==>
                id == Some(old(nextRoleId)) && State() == WithRoleLinks(WithRole(old(State()), name), pending)
      ensures !(RoleInsertable(old(State()), name) && LinksInsertable(old(State()), pending)) ==>
                id.None? && State() == old(State())
    {
      if RoleInsertable(State(), name) && LinksInsertable(State(), pending) {
        id := Some(nextRoleId);
        roles := roles[nextRoleId := Role(nextRoleId, name)];
        nextRoleId := nextRoleId + 1;
        rolePermissions := rolePermissions + pending;
      } else {
        id := None;
      }
    }

    /** Adds a permission with the given name and saves it together with the pending links. */
    method SavePermission(name: string, pending: set<RolePermission>) returns (id: Option<int>)
      modifies this
      ensures PermissionInsertable(old(State()), name) && LinksInsertable(old(State()), pending) ==>
                id == Some(old(nextPermissionId))
                && State() == WithRoleLinks(WithPermission(old(State()), name), pending)
      ensures !(PermissionInsertable(old(State()), name) && LinksInsertable(old(State()), pending)) ==>
                id.None? && State() == old(State())
    {
      if PermissionInsertable(State(), name) && LinksInsertable(State(), pending) {
        id := Some(nextPermissionId);
        permissions := permissions[nextPermissionId := Permission(nextPermissionId, name)];
        nextPermissionId := nextPermissionId + 1;
        rolePermissions := rolePermissions + pending;
      } else {
        id := None;
      }
    }

    /** Saves the pending links alone. */
    method SaveRoleLinks(pending: set<RolePermission>) returns (saved: bool)
      modifies this
      ensures saved == LinksInsertable(old(State()), pending)
      ensures saved ==> State() == WithRoleLinks(old(State()), pending)
      ensures !saved ==> State() == old(State())
    {
      saved := LinksInsertable(State(), pending);
      if saved {
        rolePermissions := rolePermissions + pending;
      }
    }

    /** Writes two statistic records back, each under its own player id, and saves. */
    method SaveStatistics(a: PlayerStatistic, b: PlayerStatistic)
      modifies this
      ensures State() == old(State()).(statistics := old(statistics)[a.idPlayer := a][b.idPlayer := b])
    {
      statistics := statistics[a.idPlayer := a][b.idPlayer := b];
    }

    /** PlayerStatistics.ToList(): every record once, in whatever order the store returns them. */
    method StatisticsList() returns (rows: seq<PlayerStatistic>)
      requires Valid()
      ensures EnumeratesStatistics(State(), rows)
    {
      var left := statistics.Keys;
      rows := [];
      while left != {}
        invariant left <= statistics.Keys
        invariant forall i, j :: 0 <= i < j < |rows| ==> rows[i].idPlayer != rows[j].idPlayer
        invariant forall i :: 0 <= i < |rows| ==>
                    rows[i].idPlayer in statistics && rows[i].idPlayer !in left && rows[i] == statistics[rows[i].idPlayer]
        invariant forall id :: id in statistics ==> id in left || statistics[id] in rows
        decreases left
      {
        SomeKey(left);
        var k :| k in left;
        rows := rows + [statistics[k]];
        left := left - {k};
      }
    }

    /** Overwrites one stored player row and saves. */
    method UpdatePlayer(p: Player)
      modifies this
      ensures State() == old(State()).(players := old(players)[p.id := p])
    {
      players := players[p.id := p];
    }

    method FindRoleByName(name: string) returns (r: Option<int>)
      requires Valid()
      ensures r == RoleIdByName(State(), name)
    {
      if exists id :: id in roles && roles[id].roleName == name {
        var id :| id in roles && roles[id].roleName == name;
        RoleIdByNameUnique(State(), id);
        r := Some(id);
      } else {
        r := None;
      }
    }

    method FindPermissionByName(name: string) returns (r: Option<int>)
      requires Valid()
      ensures r == PermissionIdByName(State(), name)
    {
      if exists id :: id in permissions && permissions[id].permissionName == name {
        var id :| id in permissions && permissions[id].permissionName == name;
        PermissionIdByNameUnique(State(), id);
        r := Some(id);
      } else {
        r := None;
      }
    }

    /** Players.FirstOrDefault(p => p.Username == username || p.Email == email). */
    method FindPlayerByNameOrEmail(username: Option<string>, email: Option<string>) returns (found: Option<int>)
      ensures FirstMatch(State(), username, email, found)
    {
      if exists id :: id in players && (Some(players[id].username) == username || Some(players[id].email) == email) {
        var id :| id in players && (Some(players[id].username) == username || Some(players[id].email) == email);
        assert id in PlayersMatching(State(), username, email);
        found := Some(id);
      } else {
        assert PlayersMatching(State(), username, email) == {};
        found := None;
      }
    }

    /** PlayerRoles.Where(pr => pr.PlayerId == pid).Select(pr => pr.RoleId):
        every linked role id once, in whatever order the store returns them. */
    method RoleIdsOf(pid: int) returns (ids: seq<int>)
      ensures EnumeratesLinks(State(), pid, ids)
    {
      var left := set pr | pr in playerRoles && pr.playerId == pid :: pr.roleId;
      ids := [];
      while left != {}
        invariant forall i, j :: 0 <= i < j < |ids| ==> ids[i] != ids[j]
        invariant forall rid :: rid in left ==> rid !in ids
        invariant forall rid :: rid in ids || rid in left <==> PlayerRole(pid, rid) in playerRoles
        decreases left
      {
        var rid :| rid in left;
        ids := ids + [rid];
        left := left - {rid};
      }
    }
  }
}
