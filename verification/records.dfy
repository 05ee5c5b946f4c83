/** The persisted records of the game backend: players, their statistics and
    profiles, roles, permissions and the two link tables, with the defaults
    a freshly constructed record carries. */
module Records {
  import opened Common

  // Column limits declared on the records and in the schema.
  const UsernameMaxLength: int := 50
  const EmailMaxLength: int := 100
  const RoleNameMaxLength: int := 50
  const PermissionNameMaxLength: int := 100

  const DefaultRating: int := 1000
  const DefaultLevel: int := 1

  /** A player row. RefreshTokenExpiry is nullable; RefreshToken is a plain
      string. The navigation collections are not stored on the row: roles,
      profile and statistic live in their own tables keyed by the player id. */
  datatype Player = Player(
    id: int,
    username: string,
    email: string,
    passwordHash: string,
    refreshToken: string,
    refreshTokenExpiry: Option<int>,
    lastLogin: int,
    loginCount: int,
    isBanned: bool,
    banReason: string,
    createdAt: int,
    updatedAt: int)

  /** Match counters and rating, keyed by the player id: one record per player. */
  datatype PlayerStatistic = PlayerStatistic(
    idPlayer: int, totalMatches: int := 0, wins: int := 0, losses: int := 0, rating: int := DefaultRating)

  /** Profile data keyed by the player id. Its Rating is separate from the
      statistic's Rating, which is the one matches update. */
  datatype PlayerProfile = PlayerProfile(
    idPlayer: int, avatarUrl: Option<string> := None, rating: int := DefaultRating,
    level: int := DefaultLevel, experience: int := 0)

  datatype Role = Role(id: int, roleName: string)
  datatype Permission = Permission(id: int, permissionName: string)

  // The link tables, each keyed by its pair of ids.
  datatype PlayerRole = PlayerRole(playerId: int, roleId: int)
  datatype RolePermission = RolePermission(roleId: int, permissionId: int)

  /** A player built with the record's initialisers and the given fields: no
      logins yet, not banned with an empty reason, and every timestamp the
      construction instant. The id is assigned by the store on save. */
  function NewPlayer(username: string, email: string, passwordHash: string, refreshToken: string,
                     refreshTokenExpiry: Option<int>, now: int): (p: Player)
    ensures p.loginCount == 0 && !p.isBanned && p.banReason == ""
    ensures p.username == username && p.email == email && p.passwordHash == passwordHash
    ensures p.refreshToken == refreshToken && p.refreshTokenExpiry == refreshTokenExpiry
    ensures p.lastLogin == now && p.createdAt == now && p.updatedAt == now
  {
    Player(0, username, email, passwordHash, refreshToken, refreshTokenExpiry, now, 0, false, "", now, now)
  }

  /** Wins and losses account for every match played. */
  predicate CountersAgree(s: PlayerStatistic) {
    s.wins + s.losses == s.totalMatches
  }

  /** A statistic record with its initialisers: no matches, rating 1000. */
  function NewStatistic(idPlayer: int): (s: PlayerStatistic)
    ensures s.idPlayer == idPlayer && s.rating == DefaultRating
    ensures s.totalMatches == 0 && s.wins == 0 && s.losses == 0 && CountersAgree(s)
  {
    PlayerStatistic(idPlayer)
  }

  /** A profile with its initialisers: no avatar, rating 1000, level 1, no experience. */
  function NewProfile(idPlayer: int): (p: PlayerProfile)
    ensures p.idPlayer == idPlayer && p.avatarUrl.None?
    ensures p.rating == DefaultRating && p.level == DefaultLevel && p.experience == 0
  {
    PlayerProfile(idPlayer)
  }
}
