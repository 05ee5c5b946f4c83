/** The authentication service: registration, login, refresh and logout.
    Each operation is a method of AuthService that works on the database
    step by step, and is specified by a step function over the tables: the
    tables after the call and either the error it answers with or the id of
    the player it issued tokens for. BCrypt, the random source, the clock and
    the token id are inputs. */
module Authentication {
  import opened Common
  import opened IntText
  import opened Records
  import opened Store
  import opened PlayerClaims
  import opened TokenService
  import opened AuthDto

  /** Every failure the service answers with, one per message it returns. */
  datatype AuthError =
    | InvalidData            // the request breaks a data annotation
    | PasswordsDiffer
    | UsernameTaken
    | EmailRequired
    | EmailTaken
    | SaveFailed             // DbUpdateException while saving the new player
    | RegistrationFailed     // any other exception during registration
    | WrongCredentials
    | AccountBanned(reason: string)
    | LoginFailed            // an exception during login
    | RefreshTokenRequired
    | InvalidToken
    | UserNotFound
    | RefreshTokenMismatch
    | RefreshTokenExpired
    | RefreshFailed          // an exception during refresh
    | LogoutUserNotFound

  /** AuthResponse: tokens and the player on success, or the failure. */
  datatype AuthResponse =
    | Issued(token: Jwt, refreshToken: string, tokenExpiry: int, player: PlayerInfo)
    | LoggedOut
    | Failed(error: AuthError)

  datatype Outcome = Fail(error: AuthError) | Done(pid: int)

  /** The tables after an operation and what it concluded. */
  datatype Step = Step(tables: Tables, outcome: Outcome)

  /** BCrypt.HashPassword and BCrypt.Verify. */
  datatype PasswordHasher = PasswordHasher(hash: string -> string, verify: (string, string) -> bool)

  /** The hasher accepts every password against its own hash. */
  ghost predicate Sound(h: PasswordHasher) {
    forall p :: h.verify(p, h.hash(p))
  }

  const PlayerRoleName: string := "Player"
  const RefreshTokenDays: int := 7
  const RememberMeDays: int := 30

  /** MapToPlayerInfo. */
  function PlayerInfoOf(p: Player): PlayerInfo {
    PlayerInfo(p.id, p.username, p.email, p.createdAt, p.lastLogin)
  }

  /** The claim snapshot of a stored player whose profile and statistic exist. */
  function ClaimOf(t: Tables, pid: int): PlayerInfoClaim
    requires pid in t.players && pid in t.profiles && pid in t.statistics
  {
    MapToPlayerInfoClaim(t, t.players[pid], Some(t.profiles[pid]), Some(t.statistics[pid])).value
  }

  /** The response matches the step: the error on failure; on success a
      fresh refresh token from the random buffer, the reported expiry, the
      player's info and an access token issued for the player's snapshot. */
  ghost predicate Answers(r: AuthResponse, s: Step, cfg: JwtSettings, secret: string, now: int,
                          entropy: seq<Byte>, jti: string)
    requires |entropy| == RefreshTokenBytes
  {
    match s.outcome
    case Fail(e) => r == Failed(e)
    case Done(pid) =>
      && pid in s.tables.players && pid in s.tables.profiles && pid in s.tables.statistics
      && s.tables.players[pid].id == pid
      && r.Issued?
      && r.refreshToken == GenerateRefreshToken(entropy)
      && r.tokenExpiry == AddHours(now, ConfigInt(cfg, ReportedLifetimeKey, 1))
      && r.player == PlayerInfoOf(s.tables.players[pid])
      && IssuedFor(r.token, s.tables, ClaimOf(s.tables, pid), cfg, secret, now, jti)
  }

  /** The claim snapshot reads only the id, Username and Email of the row. */
  lemma ClaimOfAfterUpdate(t: Tables, pid: int, p: Player)
    requires pid in t.players && pid in t.profiles && pid in t.statistics && t.players[pid].id == pid
    requires p.id == pid && p.username == t.players[pid].username && p.email == t.players[pid].email
    ensures ClaimOf(t.(players := t.players[pid := p]), pid) == ClaimOf(t, pid)
  {
    var t' := t.(players := t.players[pid := p]);
    assert RoleNames(t', pid) == RoleNames(t, pid);
    assert PermissionNames(t', pid) == PermissionNames(t, pid);
  }

  /** Rewriting a player's row keeps its access token issued for it, as long
      as the id, Username and Email stay: the snapshot reads nothing else of the row. */
  lemma IssuedForAfterUpdate(token: Jwt, t: Tables, pid: int, p: Player, cfg: JwtSettings,
                             secret: string, now: int, jti: string)
    requires pid in t.players && pid in t.profiles && pid in t.statistics && t.players[pid].id == pid
    requires p.id == pid && p.username == t.players[pid].username && p.email == t.players[pid].email
    requires IssuedFor(token, t, ClaimOf(t, pid), cfg, secret, now, jti)
    ensures var t' := t.(players := t.players[pid := p]);
            IssuedFor(token, t', ClaimOf(t', pid), cfg, secret, now, jti)
  {
    var t' := t.(players := t.players[pid := p]);
    var c := ClaimOf(t, pid);
    ClaimOfAfterUpdate(t, pid, p);
    var roles :| ListsRolesOf(t, pid, roles)
                 && token == BuildJwt(c, t.statistics[pid].rating, t.profiles[pid].level, roles, cfg, secret, now, jti);
    ListsRolesOfFrame(t, t', pid, roles);
  }

  // ---- RegisterAsync -------------------------------------------------------

  /** The checks before anything is written, in order. The username and
      email comparisons use the request's strings as sent, untrimmed. */
  function RegisterCheck(t: Tables, req: RegisterRequest): Option<AuthError> {
    if !IsValidRegister(req) then Some(InvalidData)
    else if req.password != req.confirmPassword then Some(PasswordsDiffer)
    else if exists id :: id in t.players && Some(t.players[id].username) == req.username then Some(UsernameTaken)
    else if IsNullOrEmpty(req.email) then Some(EmailRequired)
    else if exists id :: id in t.players && Some(t.players[id].email) == req.email then Some(EmailTaken)
    else None
  }

  /** The new player: trimmed username and email, the hashed password, a
      refresh token valid for seven days, and one login counted. */
  function RegisteredPlayer(req: RegisterRequest, hasher: PasswordHasher, now: int, entropy: seq<Byte>): Player
    requires IsValidRegister(req) && |entropy| == RefreshTokenBytes
  {
    NewPlayer(Trim(req.username.value), Trim(req.email.value), hasher.hash(req.password.value),
              GenerateRefreshToken(entropy), Some(AddDays(now, RefreshTokenDays)), now).(loginCount := 1)
  }

  /** The writes of RegisterAsync for the new row p. The player row is
      saved first; a failing save is a SaveFailed. Then the profile, the
      statistic and the link to the role named "Player" are saved together;
      when that role does not exist the lookup throws after the player row
      was saved, so the registration fails with the player stored and
      nothing else. */
  ghost function CreateAccount(t: Tables, p: Player): Step {
    if !PlayerInsertable(t, p) then Step(t, Fail(SaveFailed))
    else
      var t1 := WithPlayer(t, p);
      match RoleIdByName(t1, PlayerRoleName)
      case None => Step(t1, Fail(RegistrationFailed))
      case Some(rid) => Step(WithAccountRows(t1, t.nextPlayerId, {rid}), Done(t.nextPlayerId))
  }

  /** RegisterAsync: the checks, then the writes for the new player. */
  ghost function RegisterSpec(t: Tables, req: RegisterRequest, hasher: PasswordHasher, now: int,
                              entropy: seq<Byte>): Step
    requires |entropy| == RefreshTokenBytes
  {
    match RegisterCheck(t, req)
    case Some(e) => Step(t, Fail(e))
    case None => CreateAccount(t, RegisteredPlayer(req, hasher, now, entropy))
  }

  /** The checks pass exactly for a valid request whose username and email
      no stored player has, as sent. */
  lemma RegisterCheckPasses(t: Tables, req: RegisterRequest)
    ensures RegisterCheck(t, req).None? <==>
            && IsValidRegister(req)
            && (forall id :: id in t.players ==> Some(t.players[id].username) != req.username)
            && (forall id :: id in t.players ==> Some(t.players[id].email) != req.email)
  {
    if IsValidRegister(req) {
      assert req.email.value != "" by {
        assert !IsNullOrWhiteSpace(req.email);
      }
    }
  }

  /** The password comparison and the empty-email check can never fire: the
      validation before them already demands equal passwords and an email. */
  lemma RegisterUnreachableErrors(t: Tables, req: RegisterRequest)
    ensures RegisterCheck(t, req) != Some(PasswordsDiffer)
    ensures RegisterCheck(t, req) != Some(EmailRequired)
  {
    if IsValidRegister(req) {
      assert req.email.value != "" by {
        assert !IsNullOrWhiteSpace(req.email);
      }
    }
  }

  /** The writes keep every schema invariant, also when they stop halfway. */
  lemma CreateAccountConsistent(t: Tables, p: Player)
    requires Consistent(t)
    ensures Consistent(CreateAccount(t, p).tables)
  {
    if PlayerInsertable(t, p) {
      WithPlayerConsistent(t, p);
      var t1 := WithPlayer(t, p);
      var rid := RoleIdByName(t1, PlayerRoleName);
      if rid.Some? {
        WithAccountRowsConsistent(t1, t.nextPlayerId, {rid.value});
      }
    }
  }

  /** A save the store refuses writes nothing. When no role is named
      "Player" the new row is stored under the next id with no profile, no
      statistic and no role. */
  lemma CreateAccountFailures(t: Tables, p: Player)
    requires Consistent(t)
    ensures CreateAccount(t, p).outcome == Fail(SaveFailed) <==> !PlayerInsertable(t, p)
    ensures !PlayerInsertable(t, p) ==> CreateAccount(t, p).tables == t
    ensures var s := CreateAccount(t, p);
            var pid := t.nextPlayerId;
            s.outcome == Fail(RegistrationFailed) ==>
              && (forall id :: id in t.roles ==> t.roles[id].roleName != PlayerRoleName)
              && pid !in t.players && s.tables.players == t.players[pid := p.(id := pid)]
              && pid !in s.tables.profiles && pid !in s.tables.statistics
              && RoleNames(s.tables, pid) == {}
  {
    var s := CreateAccount(t, p);
    var pid := t.nextPlayerId;
    if s.outcome == Fail(RegistrationFailed) {
      WithPlayerConsistent(t, p);
      var t1 := WithPlayer(t, p);
      assert s.tables == t1;
      assert forall n :: n !in RoleNames(t1, pid);
    }
  }

  /** A completed account: the row under the next id, a default profile and
      statistic, and exactly the role "Player". */
  lemma CreateAccountDone(t: Tables, p: Player)
    requires Consistent(t) && CreateAccount(t, p).outcome.Done?
    ensures var s := CreateAccount(t, p);
            var pid := t.nextPlayerId;
            && s.outcome.pid == pid && pid !in t.players && PlayerInsertable(t, p)
            && s.tables.players == t.players[pid := p.(id := pid)]
            && s.tables.profiles == t.profiles[pid := NewProfile(pid)]
            && s.tables.statistics == t.statistics[pid := NewStatistic(pid)]
            && RoleNames(s.tables, pid) == {PlayerRoleName}
            && Consistent(s.tables)
  {
    var s := CreateAccount(t, p);
    var pid := t.nextPlayerId;
    WithPlayerConsistent(t, p);
    CreateAccountConsistent(t, p);
    var t1 := WithPlayer(t, p);
    var rid := RoleIdByName(t1, PlayerRoleName).value;
    assert s.tables == WithAccountRows(t1, pid, {rid});
    forall n ensures n in RoleNames(s.tables, pid) <==> n == PlayerRoleName {
      if n == PlayerRoleName {
        assert PlayerRole(pid, rid) in s.tables.playerRoles;
      }
      if n in RoleNames(s.tables, pid) {
        var pr :| pr in s.tables.playerRoles && pr.playerId == pid && pr.roleId in s.tables.roles
                  && s.tables.roles[pr.roleId].roleName == n;
        assert pr !in t.playerRoles;
      }
    }
  }

  /** Registration keeps every schema invariant, also when it stops halfway. */
  lemma RegisterPreservesConsistent(t: Tables, req: RegisterRequest, hasher: PasswordHasher, now: int,
                                    entropy: seq<Byte>)
    requires Consistent(t) && |entropy| == RefreshTokenBytes
    ensures Consistent(RegisterSpec(t, req, hasher, now, entropy).tables)
  {
    if RegisterCheck(t, req).None? {
      CreateAccountConsistent(t, RegisteredPlayer(req, hasher, now, entropy));
    }
  }

  /** A completed registration stores the trimmed names, the password's
      hash (which a sound hasher then accepts), the issued refresh token
      valid for seven days and one login; the player gets a default profile
      and statistic and holds exactly the role "Player". */
  lemma RegisterCreatesAccount(t: Tables, req: RegisterRequest, hasher: PasswordHasher, now: int,
                               entropy: seq<Byte>)
    requires Consistent(t) && |entropy| == RefreshTokenBytes
    requires RegisterSpec(t, req, hasher, now, entropy).outcome.Done?
    ensures var s := RegisterSpec(t, req, hasher, now, entropy);
            var pid := s.outcome.pid;
            && req.username.Some? && req.email.Some? && req.password.Some?
            && pid == t.nextPlayerId && pid !in t.players
            && pid in s.tables.players && pid in s.tables.profiles && pid in s.tables.statistics
            && var p := s.tables.players[pid];
            && p.id == pid && p.username == Trim(req.username.value) && p.email == Trim(req.email.value)
            && p.passwordHash == hasher.hash(req.password.value)
            && (Sound(hasher) ==> hasher.verify(req.password.value, p.passwordHash))
            && p.refreshToken == GenerateRefreshToken(entropy)
            && p.refreshTokenExpiry == Some(now + RefreshTokenDays * SecondsPerDay)
            && p.loginCount == 1 && !p.isBanned && p.createdAt == now
            && s.tables.profiles[pid] == NewProfile(pid) && s.tables.statistics[pid] == NewStatistic(pid)
            && RoleNames(s.tables, pid) == {PlayerRoleName}
            && Consistent(s.tables)
  {
    assert RegisterCheck(t, req).None?;
    var p := RegisteredPlayer(req, hasher, now, entropy);
    assert RegisterSpec(t, req, hasher, now, entropy) == CreateAccount(t, p);
    CreateAccountDone(t, p);
  }

  /** The username check compares the name as sent while the row stores it
      trimmed: a request whose name passes the check but trims to a stored
      name is refused by the unique index, so the answer is the save
      failure, not "username taken". */
  lemma RegisterTrimmedNameCollides(t: Tables, req: RegisterRequest, hasher: PasswordHasher, now: int,
                                    entropy: seq<Byte>)
    requires |entropy| == RefreshTokenBytes && RegisterCheck(t, req).None?
    requires req.username.Some? && exists id :: id in t.players && t.players[id].username == Trim(req.username.value)
    ensures RegisterSpec(t, req, hasher, now, entropy) == Step(t, Fail(SaveFailed))
  {
    var p := RegisteredPlayer(req, hasher, now, entropy);
    var id :| id in t.players && t.players[id].username == Trim(req.username.value);
    assert t.players[id].username == p.username;
  }

  /** The stored name "alice" and a request for "alice ": the check passes. */
  lemma TrailingSpaceRequestPasses(t: Tables)
    requires t.players == map[1 := Player(1, "alice", "a@b.io", "h", "r", None, 0, 1, false, "", 0, 0)]
    ensures RegisterCheck(t, RegisterRequest(Some("alice "), Some("c@d.io"), Some("secret"), Some("secret"))).None?
  {
    assert IndexOf("c@d.io", '@') == 1 by {
      assert "c@d.io"[1..] == "@d.io";
    }
    assert LastIndexOf("c@d.io", '@') == 1 by {
      assert "c@d.io"[..5] == "c@d.i";
      assert "c@d.i"[..4] == "c@d.";
      assert "c@d."[..3] == "c@d";
      assert "c@d"[..2] == "c@";
    }
    assert !IsWhiteSpace("alice "[0]) && !IsWhiteSpace("c@d.io"[0]) && !IsWhiteSpace("secret"[0]);
  }

  lemma TrimTrailingSpace()
    ensures Trim("alice ") == "alice"
  {
    assert SkipWhiteSpace("alice ", 0) == 0;
    assert BackWhiteSpace("alice ", 6) == 5 by {
      assert IsWhiteSpace("alice "[5]) && !IsWhiteSpace("alice "[4]);
    }
    assert "alice "[0..5] == "alice";
  }

  /** A concrete case of the collision: "alice" is stored and "alice " asks
      to register with a new email. */
  lemma RegisterUntrimmedNameCollides(hasher: PasswordHasher, now: int, entropy: seq<Byte>)
    requires |entropy| == RefreshTokenBytes
    ensures var t := Tables(map[1 := Player(1, "alice", "a@b.io", "h", "r", None, 0, 1, false, "", 0, 0)],
                            map[], map[], map[], map[], {}, {}, 2, 1, 1);
            var req := RegisterRequest(Some("alice "), Some("c@d.io"), Some("secret"), Some("secret"));
            && RegisterCheck(t, req).None?
            && RegisterSpec(t, req, hasher, now, entropy) == Step(t, Fail(SaveFailed))
  {
    var t := Tables(map[1 := Player(1, "alice", "a@b.io", "h", "r", None, 0, 1, false, "", 0, 0)],
                    map[], map[], map[], map[], {}, {}, 2, 1, 1);
    var req := RegisterRequest(Some("alice "), Some("c@d.io"), Some("secret"), Some("secret"));
    TrailingSpaceRequestPasses(t);
    TrimTrailingSpace();
    assert 1 in t.players && t.players[1].username == Trim(req.username.value);
    RegisterTrimmedNameCollides(t, req, hasher, now, entropy);
  }

  // ---- LoginAsync ----------------------------------------------------------

  /** A row with a new refresh token from the random buffer and its expiry. */
  function WithRefreshToken(p: Player, entropy: seq<Byte>, expiry: int): Player
    requires |entropy| == RefreshTokenBytes
  {
    p.(refreshToken := GenerateRefreshToken(entropy), refreshTokenExpiry := Some(expiry))
  }

  /** The lookup of a login: first by username or email, as sent. */
  ghost predicate FoundBy(t: Tables, req: LoginRequest, chosen: Option<int>) {
    FirstMatch(t, req.username, req.email, chosen)
  }

  ghost function AnyMatch(t: Tables, req: LoginRequest): (chosen: Option<int>)
    ensures FoundBy(t, req, chosen)
  {
    if exists id :: id in PlayersMatching(t, req.username, req.email) then
      var id :| id in PlayersMatching(t, req.username, req.email); Some(id)
    else None
  }

  /** The row after a login: the login counted and stamped, a new refresh
      token valid 30 days with "remember me" and 7 days without. */
  function LoggedIn(p: Player, rememberMe: bool, now: int, entropy: seq<Byte>): Player
    requires |entropy| == RefreshTokenBytes
  {
    WithRefreshToken(p.(lastLogin := now, loginCount := WrapInt32(p.loginCount + 1), updatedAt := now), entropy,
                     AddDays(now, if rememberMe then RememberMeDays else RefreshTokenDays))
  }

  /** LoginAsync for a valid request: no match is reported like a wrong
      password; otherwise the login goes on for the player the lookup returned. */
  function LoginSpec(t: Tables, req: LoginRequest, hasher: PasswordHasher, now: int, entropy: seq<Byte>,
                     chosen: Option<int>): Step
    requires |entropy| == RefreshTokenBytes && FoundBy(t, req, chosen)
  {
    if !IsValidLogin(req) then Step(t, Fail(InvalidData))
    else if chosen.None? then Step(t, Fail(WrongCredentials))
    else LoginAsSpec(t, chosen.value, req.password.value, req.rememberMe, hasher, now, entropy)
  }

  /** LoginAsync once the lookup has returned player pid. A ban is reported
      before the password is checked. A missing profile or statistic makes
      the claim snapshot throw before anything is saved. */
  function LoginAsSpec(t: Tables, pid: int, password: string, rememberMe: bool, hasher: PasswordHasher,
                       now: int, entropy: seq<Byte>): Step
    requires |entropy| == RefreshTokenBytes && pid in t.players
  {
    var p := t.players[pid];
    if p.isBanned then Step(t, Fail(AccountBanned(p.banReason)))
    else if !hasher.verify(password, p.passwordHash) then Step(t, Fail(WrongCredentials))
    else if pid !in t.profiles || pid !in t.statistics then Step(t, Fail(LoginFailed))
    else Step(t.(players := t.players[pid := LoggedIn(p, rememberMe, now, entropy)]), Done(pid))
  }

  /** The row a login writes differs from the stored one only in its login
      stamp, counter, update stamp and refresh token. The counter goes up by
      one and wraps from Int32.MaxValue to Int32.MinValue. The new refresh
      token expires 30 days on with "remember me" and 7 days on without. */
  lemma LoggedInChanges(p: Player, rememberMe: bool, now: int, entropy: seq<Byte>)
    requires |entropy| == RefreshTokenBytes
    ensures var p' := LoggedIn(p, rememberMe, now, entropy);
            && IsInt32(p'.loginCount)
            && (Int32Min <= p.loginCount < Int32Max ==> p'.loginCount == p.loginCount + 1)
            && (p.loginCount == Int32Max ==> p'.loginCount == Int32Min)
            && p'.lastLogin == now && p'.updatedAt == now
            && p'.refreshToken == GenerateRefreshToken(entropy)
            && p'.refreshTokenExpiry == Some(now + (if rememberMe then 30 else 7) * SecondsPerDay)
            && p'.(lastLogin := p.lastLogin, loginCount := p.loginCount, updatedAt := p.updatedAt,
                   refreshToken := p.refreshToken, refreshTokenExpiry := p.refreshTokenExpiry) == p
  {
  }

  /** A failed login writes nothing. A banned player is refused whatever
      password is given. A successful login is for a player that matched the
      username or the email sent, is not banned, whose hash accepts the
      password and who has a profile and a statistic; only that player's
      row changes, to the logged-in row. */
  lemma LoginOutcomes(t: Tables, req: LoginRequest, hasher: PasswordHasher, now: int, entropy: seq<Byte>,
                      chosen: Option<int>)
    requires |entropy| == RefreshTokenBytes && FoundBy(t, req, chosen)
    ensures var s := LoginSpec(t, req, hasher, now, entropy, chosen);
            && (s.outcome.Fail? ==> s.tables == t)
            && (IsValidLogin(req) && chosen.Some? && t.players[chosen.value].isBanned ==>
                  s.outcome == Fail(AccountBanned(t.players[chosen.value].banReason)))
            && (s.outcome.Done? ==>
                  var pid := s.outcome.pid;
                  var p := t.players[pid];
                  && chosen == Some(pid) && IsValidLogin(req)
                  && (Some(p.username) == req.username || Some(p.email) == req.email)
                  && !p.isBanned && hasher.verify(req.password.value, p.passwordHash)
                  && pid in t.profiles && pid in t.statistics
                  && s.tables == t.(players := t.players[pid := LoggedIn(p, req.rememberMe, now, entropy)]))
  {
    if IsValidLogin(req) && chosen.Some? {
      assert chosen.value in PlayersMatching(t, req.username, req.email);
    }
  }

  lemma LoginPreservesConsistent(t: Tables, req: LoginRequest, hasher: PasswordHasher, now: int,
                                 entropy: seq<Byte>, chosen: Option<int>)
    requires Consistent(t) && |entropy| == RefreshTokenBytes && FoundBy(t, req, chosen)
    ensures Consistent(LoginSpec(t, req, hasher, now, entropy, chosen).tables)
  {
    var s := LoginSpec(t, req, hasher, now, entropy, chosen);
    if s.outcome.Done? {
      var pid := chosen.value;
      UpdatePlayerConsistent(t, LoggedIn(t.players[pid], req.rememberMe, now, entropy));
    }
  }

  /** A player who has just registered logs in with the same username, email
      and password (names without surrounding white space): the lookup can
      only return that player, and the login succeeds. */
  lemma RegisteredPlayerCanLogIn(t: Tables, req: RegisterRequest, hasher: PasswordHasher, now: int,
                                 entropy: seq<Byte>, rememberMe: bool, now2: int, entropy2: seq<Byte>,
                                 chosen: Option<int>)
    requires Consistent(t) && Sound(hasher)
    requires |entropy| == RefreshTokenBytes && |entropy2| == RefreshTokenBytes
    requires RegisterSpec(t, req, hasher, now, entropy).outcome.Done?
    requires req.username.Some? && Trim(req.username.value) == req.username.value
    requires req.email.Some? && Trim(req.email.value) == req.email.value
    requires FoundBy(RegisterSpec(t, req, hasher, now, entropy).tables,
                     LoginRequest(req.username, req.email, req.password, rememberMe), chosen)
    ensures var s := RegisterSpec(t, req, hasher, now, entropy);
            && chosen == Some(s.outcome.pid)
            && LoginSpec(s.tables, LoginRequest(req.username, req.email, req.password, rememberMe),
                         hasher, now2, entropy2, chosen).outcome == Done(s.outcome.pid)
  {
    var s := RegisterSpec(t, req, hasher, now, entropy);
    var pid := s.outcome.pid;
    var lreq := LoginRequest(req.username, req.email, req.password, rememberMe);
    RegisterCreatesAccount(t, req, hasher, now, entropy);
    assert RegisterCheck(t, req).None?;
    RegisterAllowsLogin(req, rememberMe);
    OnlyMatch(s.tables, pid);
    assert chosen == Some(pid);
  }

  /** A valid registration request, sent again as a login, is a valid login. */
  lemma RegisterAllowsLogin(req: RegisterRequest, rememberMe: bool)
    requires IsValidRegister(req)
    ensures IsValidLogin(LoginRequest(req.username, req.email, req.password, rememberMe))
  {
  }

  // ---- RefreshTokenAsync ---------------------------------------------------

  /** The row after a refresh: a new refresh token valid seven days. */
  function Refreshed(p: Player, now: int, entropy: seq<Byte>): Player
    requires |entropy| == RefreshTokenBytes
  {
    WithRefreshToken(p.(updatedAt := now), entropy, AddDays(now, RefreshTokenDays))
  }

  /** RefreshTokenAsync. The access token must validate (its lifetime is
      not checked) and carry a player id; the stored refresh token must equal
      the one sent and must not have expired. A row without an expiry never
      counts as expired. */
  function RefreshSpec(t: Tables, req: RefreshTokenRequest, cfg: JwtSettings, secret: string, now: int,
                       entropy: seq<Byte>): Step
    requires |entropy| == RefreshTokenBytes
  {
    if IsNullOrEmpty(req.refreshToken) then Step(t, Fail(RefreshTokenRequired))
    else
      var validated := ValidateTokenWithoutLifetime(cfg, secret, req.token);
      if validated.None? then Step(t, Fail(InvalidToken))
      else
        var id := TryParseInt32(FirstClaimValue(validated.value.payload.claims, NameIdentifierClaim));
        if id.None? then Step(t, Fail(InvalidToken))
        else if id.value !in t.players then Step(t, Fail(UserNotFound))
        else
          var pid := id.value;
          var p := t.players[pid];
          if Some(p.refreshToken) != req.refreshToken then Step(t, Fail(RefreshTokenMismatch))
          else if p.refreshTokenExpiry.Some? && p.refreshTokenExpiry.value <= now then Step(t, Fail(RefreshTokenExpired))
          else if pid !in t.profiles || pid !in t.statistics then Step(t, Fail(RefreshFailed))
          else Step(t.(players := t.players[pid := Refreshed(p, now, entropy)]), Done(pid))
  }

  /** A failed refresh writes nothing; a successful one rotates only the
      refresh token, its expiry and the update stamp of the player the
      token names, after the stored token matched the one sent and had not
      expired (a row without an expiry passes). */
  lemma RefreshOutcomes(t: Tables, req: RefreshTokenRequest, cfg: JwtSettings, secret: string, now: int,
                        entropy: seq<Byte>)
    requires |entropy| == RefreshTokenBytes
    ensures var s := RefreshSpec(t, req, cfg, secret, now, entropy);
            && (s.outcome.Fail? ==> s.tables == t)
            && (s.outcome.Done? ==>
                  var pid := s.outcome.pid;
                  var p := t.players[pid];
                  && req.token.Some? && ValidateTokenWithoutLifetime(cfg, secret, req.token) == req.token
                  && TryParseInt32(FirstClaimValue(req.token.value.payload.claims, NameIdentifierClaim)) == Some(pid)
                  && req.refreshToken == Some(p.refreshToken)
                  && (p.refreshTokenExpiry.None? || now < p.refreshTokenExpiry.value)
                  && s.tables == t.(players := t.players[pid := Refreshed(p, now, entropy)]))
  {
  }

  lemma RefreshPreservesConsistent(t: Tables, req: RefreshTokenRequest, cfg: JwtSettings, secret: string,
                                   now: int, entropy: seq<Byte>)
    requires Consistent(t) && |entropy| == RefreshTokenBytes
    ensures Consistent(RefreshSpec(t, req, cfg, secret, now, entropy).tables)
  {
    var s := RefreshSpec(t, req, cfg, secret, now, entropy);
    if s.outcome.Done? {
      var pid := s.outcome.pid;
      UpdatePlayerConsistent(t, Refreshed(t.players[pid], now, entropy));
    }
  }

  /** A refresh token works once: after a refresh, the same request is
      refused, because the stored token was replaced by one made from new
      random bytes. */
  lemma RefreshIsSingleUse(t: Tables, req: RefreshTokenRequest, cfg: JwtSettings, secret: string, now: int,
                           entropy: seq<Byte>, now2: int, entropy2: seq<Byte>)
    requires |entropy| == RefreshTokenBytes && |entropy2| == RefreshTokenBytes
    requires RefreshSpec(t, req, cfg, secret, now, entropy).outcome.Done?
    requires req.refreshToken != Some(GenerateRefreshToken(entropy))
    ensures RefreshSpec(RefreshSpec(t, req, cfg, secret, now, entropy).tables, req, cfg, secret, now2, entropy2).outcome
            == Fail(RefreshTokenMismatch)
  {
  }

  /** The refresh token sent was itself made from random bytes; when the new
      bytes differ from those, the token sent cannot be used again. */
  lemma RefreshWithFreshBytesIsSingleUse(t: Tables, req: RefreshTokenRequest, cfg: JwtSettings, secret: string,
                                         previous: seq<Byte>, now: int, entropy: seq<Byte>, now2: int,
                                         entropy2: seq<Byte>)
    requires |previous| == RefreshTokenBytes && |entropy| == RefreshTokenBytes && |entropy2| == RefreshTokenBytes
    requires req.refreshToken == Some(GenerateRefreshToken(previous)) && entropy != previous
    requires RefreshSpec(t, req, cfg, secret, now, entropy).outcome.Done?
    ensures RefreshSpec(RefreshSpec(t, req, cfg, secret, now, entropy).tables, req, cfg, secret, now2, entropy2).outcome
            == Fail(RefreshTokenMismatch)
  {
    if GenerateRefreshToken(entropy) == GenerateRefreshToken(previous) {
      RefreshTokenInjective(entropy, previous);
    }
    RefreshIsSingleUse(t, req, cfg, secret, now, entropy, now2, entropy2);
  }

  /** The converse of the success case above: when every check passes, the
      refresh succeeds for the player the token names. */
  lemma RefreshSucceedsWhen(t: Tables, req: RefreshTokenRequest, cfg: JwtSettings, secret: string, now: int,
                            entropy: seq<Byte>, pid: int)
    requires |entropy| == RefreshTokenBytes
    requires req.token.Some? && ValidateTokenWithoutLifetime(cfg, secret, req.token).Some?
    requires TryParseInt32(FirstClaimValue(req.token.value.payload.claims, NameIdentifierClaim)) == Some(pid)
    requires pid in t.players && pid in t.profiles && pid in t.statistics
    requires req.refreshToken == Some(t.players[pid].refreshToken) && t.players[pid].refreshToken != ""
    requires t.players[pid].refreshTokenExpiry.None? || now < t.players[pid].refreshTokenExpiry.value
    ensures RefreshSpec(t, req, cfg, secret, now, entropy).outcome == Done(pid)
  {
  }

  /** The tokens a successful step answers with can be refreshed: the access
      token validates, its id claim names the player, and the refresh token
      is the stored one; so the refresh succeeds for that player while the
      stored refresh token has not expired. */
  lemma IssuedTokensRefresh(s: Step, r: AuthResponse, cfg: JwtSettings, secret: string, now: int,
                            entropy: seq<Byte>, jti: string, now2: int, entropy2: seq<Byte>)
    requires |entropy| == RefreshTokenBytes && |entropy2| == RefreshTokenBytes
    requires cfg.issuer.Some? && cfg.audience.Some?
    requires s.outcome.Done? && IsInt32(s.outcome.pid) && Answers(r, s, cfg, secret, now, entropy, jti)
    requires s.tables.players[s.outcome.pid].refreshToken == r.refreshToken
    requires s.tables.players[s.outcome.pid].refreshTokenExpiry.None?
             || now2 < s.tables.players[s.outcome.pid].refreshTokenExpiry.value
    ensures RefreshSpec(s.tables, RefreshTokenRequest(Some(r.token), Some(r.refreshToken)), cfg, secret, now2, entropy2).outcome
            == Done(s.outcome.pid)
  {
    var t := s.tables;
    var pid := s.outcome.pid;
    var c := ClaimOf(t, pid);
    assert c.id == pid;
    var rating, level := t.statistics[pid].rating, t.profiles[pid].level;
    var roles :| ListsRolesOf(t, pid, roles) && r.token == BuildJwt(c, rating, level, roles, cfg, secret, now, jti);
    IssuedTokenValidates(c, rating, level, roles, cfg, secret, now, jti);
    IdClaimRoundTrip(c, rating, level, roles, cfg, secret, now, jti);
    RefreshSucceedsWhen(t, RefreshTokenRequest(Some(r.token), Some(r.refreshToken)), cfg, secret, now2, entropy2, pid);
  }

  /** The tokens of a successful login refresh until the refresh token's
      lifetime (7 days, or 30 with "remember me") is over. */
  lemma LoginTokensRefresh(t: Tables, pid: int, password: string, rememberMe: bool, hasher: PasswordHasher,
                           now: int, entropy: seq<Byte>, r: AuthResponse, cfg: JwtSettings, secret: string,
                           jti: string, now2: int, entropy2: seq<Byte>)
    requires pid in t.players && IsInt32(pid) && |entropy| == RefreshTokenBytes && |entropy2| == RefreshTokenBytes
    requires cfg.issuer.Some? && cfg.audience.Some?
    requires LoginAsSpec(t, pid, password, rememberMe, hasher, now, entropy).outcome.Done?
    requires Answers(r, LoginAsSpec(t, pid, password, rememberMe, hasher, now, entropy), cfg, secret, now, entropy, jti)
    requires now2 < now + (if rememberMe then RememberMeDays else RefreshTokenDays) * SecondsPerDay
    ensures RefreshSpec(LoginAsSpec(t, pid, password, rememberMe, hasher, now, entropy).tables,
                        RefreshTokenRequest(Some(r.token), Some(r.refreshToken)), cfg, secret, now2, entropy2).outcome
            == Done(pid)
  {
    var s := LoginAsSpec(t, pid, password, rememberMe, hasher, now, entropy);
    var p' := LoggedIn(t.players[pid], rememberMe, now, entropy);
    assert s.tables.players[pid] == p';
    assert p'.refreshTokenExpiry == Some(AddDays(now, if rememberMe then RememberMeDays else RefreshTokenDays));
    IssuedTokensRefresh(s, r, cfg, secret, now, entropy, jti, now2, entropy2);
  }

  // ---- LogoutAsync ---------------------------------------------------------

  /** The row after a logout: the refresh token replaced by a random one
      that already expired a day ago. */
  function SignedOut(p: Player, now: int, entropy: seq<Byte>): Player
    requires |entropy| == RefreshTokenBytes
  {
    p.(refreshToken := GenerateRefreshToken(entropy), refreshTokenExpiry := Some(AddDays(now, -1)), updatedAt := now)
  }

  function LogoutSpec(t: Tables, pid: int, now: int, entropy: seq<Byte>): Step
    requires |entropy| == RefreshTokenBytes
  {
    if pid !in t.players then Step(t, Fail(LogoutUserNotFound))
    else Step(t.(players := t.players[pid := SignedOut(t.players[pid], now, entropy)]), Done(pid))
  }

  /** Logging out an unknown id fails and writes nothing; otherwise only the
      player's refresh token, its expiry and the update stamp change. */
  lemma LogoutOutcomes(t: Tables, pid: int, now: int, entropy: seq<Byte>)
    requires |entropy| == RefreshTokenBytes
    ensures var s := LogoutSpec(t, pid, now, entropy);
            && (pid !in t.players <==> s.outcome == Fail(LogoutUserNotFound))
            && (s.outcome.Fail? ==> s.tables == t)
            && (s.outcome.Done? ==>
                  && s.tables.players[pid].refreshTokenExpiry == Some(now - SecondsPerDay)
                  && s.tables.players[pid].(refreshToken := t.players[pid].refreshToken,
                                            refreshTokenExpiry := t.players[pid].refreshTokenExpiry,
                                            updatedAt := t.players[pid].updatedAt) == t.players[pid]
                  && s.tables == t.(players := s.tables.players)
                  && s.tables.players.Keys == t.players.Keys)
  {
  }

  lemma LogoutPreservesConsistent(t: Tables, pid: int, now: int, entropy: seq<Byte>)
    requires Consistent(t) && |entropy| == RefreshTokenBytes
    ensures Consistent(LogoutSpec(t, pid, now, entropy).tables)
  {
    if pid in t.players {
      UpdatePlayerConsistent(t, SignedOut(t.players[pid], now, entropy));
    }
  }

  /** After a logout no refresh for that player succeeds until the clock is
      set back more than a day, whatever tokens are presented. */
  lemma LogoutEndsRefresh(t: Tables, pid: int, now: int, entropy: seq<Byte>, req: RefreshTokenRequest,
                          cfg: JwtSettings, secret: string, now2: int, entropy2: seq<Byte>)
    requires |entropy| == RefreshTokenBytes && |entropy2| == RefreshTokenBytes
    requires LogoutSpec(t, pid, now, entropy).outcome.Done? && now2 >= now - SecondsPerDay
    ensures RefreshSpec(LogoutSpec(t, pid, now, entropy).tables, req, cfg, secret, now2, entropy2).outcome != Done(pid)
  {
  }

  // ---- The service ---------------------------------------------------------

  class AuthService {
    const db: GameDb
    const cfg: JwtSettings
    const secret: string
    const hasher: PasswordHasher

    constructor (db: GameDb, cfg: JwtSettings, secret: string, hasher: PasswordHasher)
      ensures this.db == db && this.cfg == cfg && this.secret == secret && this.hasher == hasher
    {
      this.db := db;
      this.cfg := cfg;
      this.secret := secret;
      this.hasher := hasher;
    }

    method Register(req: RegisterRequest, now: int, entropy: seq<Byte>, jti: string) returns (r: AuthResponse)
      requires db.Valid() && |entropy| == RefreshTokenBytes
      modifies db
      ensures db.Valid()
      ensures var s := RegisterSpec(old(db.State()), req, hasher, now, entropy);
              db.State() == s.tables && Answers(r, s, cfg, secret, now, entropy, jti)
    {
      ghost var t := db.State();
      if !IsValidRegister(req) {
        return Failed(InvalidData);
      }
      if req.password != req.confirmPassword {
        return Failed(PasswordsDiffer);
      }
      if exists id :: id in db.players && Some(db.players[id].username) == req.username {
        return Failed(UsernameTaken);
      }
      if IsNullOrEmpty(req.email) {
        return Failed(EmailRequired);
      }
      if exists id :: id in db.players && Some(db.players[id].email) == req.email {
        return Failed(EmailTaken);
      }
      assert RegisterCheck(t, req).None?;
      var player := RegisteredPlayer(req, hasher, now, entropy);
      r := SaveAccount(player, now, entropy, jti);
    }

    /** The writes of RegisterAsync and its answer, for a new row whose
        refresh token comes from the random buffer. */
    method SaveAccount(player: Player, now: int, entropy: seq<Byte>, jti: string) returns (r: AuthResponse)
      requires db.Valid() && |entropy| == RefreshTokenBytes && player.refreshToken == GenerateRefreshToken(entropy)
      modifies db
      ensures db.Valid()
      ensures var s := CreateAccount(old(db.State()), player);
              db.State() == s.tables && Answers(r, s, cfg, secret, now, entropy, jti)
    {
      ghost var t := db.State();
      ghost var s := CreateAccount(t, player);
      var saved := db.SavePlayer(player);
      if saved.None? {
        return Failed(SaveFailed);
      }
      var pid := saved.value;
      WithPlayerConsistent(t, player);
      var roleId := db.FindRoleByName(PlayerRoleName);
      if roleId.None? {
        assert s == Step(db.State(), Fail(RegistrationFailed));
        return Failed(RegistrationFailed);
      }
      db.SaveAccountRows(pid, {roleId.value});
      WithAccountRowsConsistent(WithPlayer(t, player), pid, {roleId.value});
      assert s == Step(db.State(), Done(pid));
      var claim := MapToPlayerInfoClaim(db.State(), db.players[pid], Some(db.profiles[pid]), Some(db.statistics[pid])).value;
      var token := GenerateJwtToken(db, claim, cfg, secret, now, jti);
      r := Issued(token, player.refreshToken, AddHours(now, ConfigInt(cfg, ReportedLifetimeKey, 1)),
                  PlayerInfoOf(db.players[pid]));
    }

    method Login(req: LoginRequest, now: int, entropy: seq<Byte>, jti: string)
      returns (r: AuthResponse, ghost chosen: Option<int>)
      requires db.Valid() && |entropy| == RefreshTokenBytes
      modifies db
      ensures db.Valid() && FoundBy(old(db.State()), req, chosen)
      ensures var s := LoginSpec(old(db.State()), req, hasher, now, entropy, chosen);
              db.State() == s.tables && Answers(r, s, cfg, secret, now, entropy, jti)
    {
      ghost var t := db.State();
      if !IsValidLogin(req) {
        chosen := AnyMatch(t, req);
        return Failed(InvalidData), chosen;
      }
      var found := db.FindPlayerByNameOrEmail(req.username, req.email);
      chosen := found;
      if found.None? {
        return Failed(WrongCredentials), chosen;
      }
      assert found.value in PlayersMatching(t, req.username, req.email);
      r := LoginAs(found.value, req.password.value, req.rememberMe, now, entropy, jti);
    }

    /** The login of the player the lookup returned. */
    method LoginAs(pid: int, password: string, rememberMe: bool, now: int, entropy: seq<Byte>, jti: string)
      returns (r: AuthResponse)
      requires db.Valid() && |entropy| == RefreshTokenBytes && pid in db.players
      modifies db
      ensures db.Valid()
      ensures var s := LoginAsSpec(old(db.State()), pid, password, rememberMe, hasher, now, entropy);
              db.State() == s.tables && Answers(r, s, cfg, secret, now, entropy, jti)
    {
      ghost var t := db.State();
      var player := db.players[pid];
      assert player.id == pid;
      if player.isBanned {
        return Failed(AccountBanned(player.banReason));
      }
      if !hasher.verify(password, player.passwordHash) {
        return Failed(WrongCredentials);
      }
      player := player.(lastLogin := now, loginCount := WrapInt32(player.loginCount + 1), updatedAt := now);
      if player.id !in db.profiles || player.id !in db.statistics {
        // the claim snapshot dereferences the missing row and throws; nothing was saved
        return Failed(LoginFailed);
      }
      var expiry := AddDays(now, if rememberMe then RememberMeDays else RefreshTokenDays);
      assert LoggedIn(t.players[pid], rememberMe, now, entropy) == WithRefreshToken(player, entropy, expiry);
      r := IssueTokens(player, expiry, now, entropy, jti);
    }

    /** The common end of a login and a refresh: the claim snapshot of the
        row, a signed access token for it, a new refresh token from the
        random buffer with the given expiry written to the row and saved,
        and the answer. */
    method IssueTokens(player: Player, expiry: int, now: int, entropy: seq<Byte>, jti: string) returns (r: AuthResponse)
      requires db.Valid() && |entropy| == RefreshTokenBytes
      requires player.id in db.players && player.id in db.profiles && player.id in db.statistics
      requires player.username == db.players[player.id].username && player.email == db.players[player.id].email
      modifies db
      ensures db.Valid()
      ensures db.State() == old(db.State()).(players := old(db.players)[player.id := WithRefreshToken(player, entropy, expiry)])
      ensures Answers(r, Step(db.State(), Done(player.id)), cfg, secret, now, entropy, jti)
    {
      ghost var t := db.State();
      var claim := MapToPlayerInfoClaim(db.State(), player, Some(db.profiles[player.id]), Some(db.statistics[player.id])).value;
      var token := GenerateJwtToken(db, claim, cfg, secret, now, jti);
      var refreshToken := GenerateRefreshToken(entropy);
      var row := WithRefreshToken(player, entropy, expiry);
      db.UpdatePlayer(row);
      UpdatePlayerConsistent(t, row);
      assert claim == ClaimOf(t, player.id);
      IssuedForAfterUpdate(token, t, player.id, row, cfg, secret, now, jti);
      r := Issued(token, refreshToken, AddHours(now, ConfigInt(cfg, ReportedLifetimeKey, 1)), PlayerInfoOf(row));
    }

    method Refresh(req: RefreshTokenRequest, now: int, entropy: seq<Byte>, jti: string) returns (r: AuthResponse)
      requires db.Valid() && |entropy| == RefreshTokenBytes
      modifies db
      ensures db.Valid()
      ensures var s := RefreshSpec(old(db.State()), req, cfg, secret, now, entropy);
              db.State() == s.tables && Answers(r, s, cfg, secret, now, entropy, jti)
    {
      ghost var t := db.State();
      if IsNullOrEmpty(req.refreshToken) {
        return Failed(RefreshTokenRequired);
      }
      var jwtToken := ValidateTokenWithoutLifetime(cfg, secret, req.token);
      if jwtToken.None? {
        return Failed(InvalidToken);
      }
      var playerIdClaim := FirstClaimValue(jwtToken.value.payload.claims, NameIdentifierClaim);
      var playerId := TryParseInt32(playerIdClaim);
      if playerId.None? {
        return Failed(InvalidToken);
      }
      if playerId.value !in db.players {
        return Failed(UserNotFound);
      }
      var player := db.players[playerId.value];
      if Some(player.refreshToken) != req.refreshToken {
        return Failed(RefreshTokenMismatch);
      }
      if player.refreshTokenExpiry.Some? && player.refreshTokenExpiry.value <= now {
        return Failed(RefreshTokenExpired);
      }
      if player.id !in db.profiles || player.id !in db.statistics {
        return Failed(RefreshFailed);
      }
      // UpdatedAt is set before the snapshot here; the snapshot does not read it
      r := IssueTokens(player.(updatedAt := now), AddDays(now, RefreshTokenDays), now, entropy, jti);
    }

    method Logout(playerId: int, now: int, entropy: seq<Byte>) returns (r: AuthResponse)
      requires db.Valid() && |entropy| == RefreshTokenBytes
      modifies db
      ensures db.Valid()
      ensures db.State() == LogoutSpec(old(db.State()), playerId, now, entropy).tables
      ensures r == if LogoutSpec(old(db.State()), playerId, now, entropy).outcome.Done? then LoggedOut
                   else Failed(LogoutUserNotFound)
    {
      ghost var t := db.State();
      if playerId !in db.players {
        return Failed(LogoutUserNotFound);
      }
      var player := db.players[playerId];
      player := player.(refreshToken := GenerateRefreshToken(entropy), refreshTokenExpiry := Some(AddDays(now, -1)),
                        updatedAt := now);
      db.UpdatePlayer(player);
      UpdatePlayerConsistent(t, player);
      r := LoggedOut;
    }
  }
}
