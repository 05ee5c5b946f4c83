/** The token service: refresh tokens made from 32 random bytes, access
    tokens (a JWT signed with HMAC-SHA256, RFC 7519) carrying the player's
    claims and a comma-joined role string, and validation that checks
    issuer, audience and signature but not the lifetime. Signing is
    symbolic: a signature is the key paired with the payload it covers. */
module TokenService {
  import opened Common
  import opened Records
  import opened IntText
  import opened Base64
  import opened Store
  import opened PlayerClaims

  // ---- Refresh tokens ----------------------------------------------------

  const RefreshTokenBytes: int := 32

  /** GenerateRefreshToken after the random source has filled the buffer:
      Convert.ToBase64String, then '+' to '-', '/' to '_', and every '='
      removed. The result is the unpadded base64url text of the buffer. */
  function GenerateRefreshToken(buffer: seq<Byte>): (token: string)
    requires |buffer| == RefreshTokenBytes
    ensures token == Base64UrlNoPad(buffer)
    ensures |token| == 43
  {
    UrlSafeUnpaddedIsBase64Url(buffer);
    Base64UrlNoPadShape(buffer);
    UrlSafeUnpadded(ToBase64String(buffer))
  }

  /** The refresh token is 43 URL-safe characters with no '+', '/' or '=',
      and decoding it gives back the buffer. */
  lemma RefreshTokenDecodes(buffer: seq<Byte>)
    requires |buffer| == RefreshTokenBytes
    ensures var token := GenerateRefreshToken(buffer);
            && (forall i :: 0 <= i < |token| ==> IsUrlSafe(token[i]))
            && (forall i :: 0 <= i < |token| ==> token[i] != '+' && token[i] != '/' && token[i] != '=')
            && DecodeBase64UrlNoPad(token) == Some(buffer)
  {
    Base64UrlNoPadShape(buffer);
    DecodeEncode(buffer);
  }

  /** Different random buffers never give the same refresh token. */
  lemma RefreshTokenInjective(a: seq<Byte>, b: seq<Byte>)
    requires |a| == RefreshTokenBytes && |b| == RefreshTokenBytes
    requires GenerateRefreshToken(a) == GenerateRefreshToken(b)
    ensures a == b
  {
    Base64UrlInjective(a, b);
  }

  // ---- Claims and tokens -------------------------------------------------

  // The claim type URIs of System.Security.Claims.ClaimTypes and the
  // registered claim names of RFC 7519 section 4.1.
  const NameIdentifierClaim: string := "http://schemas.xmlsoap.org/ws/2005/05/identity/claims/nameidentifier"
  const NameClaim: string := "http://schemas.xmlsoap.org/ws/2005/05/identity/claims/name"
  const EmailClaim: string := "http://schemas.xmlsoap.org/ws/2005/05/identity/claims/emailaddress"
  const RoleClaim: string := "http://schemas.microsoft.com/ws/2008/06/identity/claims/role"
  const RatingClaim: string := "rating"
  const LevelClaim: string := "level"
  const JtiClaim: string := "jti"
  const IatClaim: string := "iat"

  datatype Claim = Claim(claimType: string, value: string)

  datatype JwtPayload = JwtPayload(issuer: Option<string>, audience: Option<string>, claims: seq<Claim>, expires: int)

  /** An HMAC-SHA256 signature over a payload under a key. */
  datatype Signature = HmacSha256(key: string, signed: JwtPayload)

  datatype Jwt = Jwt(payload: JwtPayload, signature: Signature)

  /** The configuration the service reads: JwtConfig:Issuer,
      JwtConfig:Audience, and integer settings by key. */
  datatype JwtSettings = JwtSettings(issuer: Option<string>, audience: Option<string>, ints: map<string, int>)

  /** The key the token builder reads its lifetime from. */
  const TokenLifetimeKey: string := "JwtConfig:ExpirationInHour"
  /** The key the auth service reads the lifetime it reports from. */
  const ReportedLifetimeKey: string := "JwtConfig:ExpirationInHours"

  /** IConfiguration.GetValue<int>(key, default): the configured value when
      the key is present, the default otherwise. */
  function ConfigInt(cfg: JwtSettings, key: string, default: int): (v: int)
    ensures key !in cfg.ints ==> v == default
    ensures key in cfg.ints ==> v == cfg.ints[key]
  {
    if key in cfg.ints then cfg.ints[key] else default
  }

  /** The reference for the role claim: the names in order with ", " between
      consecutive ones. */
  function JoinRoles(names: seq<string>): (s: string)
    ensures names == [] ==> s == ""
    ensures |names| == 1 ==> s == names[0]
  {
    if names == [] then ""
    else if |names| == 1 then names[0]
    else JoinRoles(names[..|names| - 1]) + ", " + names[|names| - 1]
  }

  /** The joined string starts with the first name and ends with the last,
      so there is no separator at either end. */
  lemma {:induction false} JoinRolesEnds(names: seq<string>)
    requires names != []
    ensures var s := JoinRoles(names);
            |names[0]| <= |s| && s[..|names[0]|] == names[0]
            && |names[|names| - 1]| <= |s| && s[|s| - |names[|names| - 1]|..] == names[|names| - 1]
  {
    if |names| > 1 {
      var init := names[..|names| - 1];
      JoinRolesEnds(init);
      assert init[0] == names[0];
      var s := JoinRoles(names);
      assert s == JoinRoles(init) + ", " + names[|names| - 1];
      assert s[..|names[0]|] == JoinRoles(init)[..|names[0]|];
    }
  }

  /** The join has one separator fewer than it has names. */
  lemma {:induction false} JoinRolesLength(names: seq<string>)
    requires names != []
    ensures |JoinRoles(names)| == TotalLength(names) + 2 * (|names| - 1)
  {
    if |names| > 1 {
      JoinRolesLength(names[..|names| - 1]);
      assert names[..|names| - 1] + [names[|names| - 1]] == names;
      TotalLengthAppend(names[..|names| - 1], names[|names| - 1]);
    }
  }

  function TotalLength(names: seq<string>): nat {
    if names == [] then 0 else |names[0]| + TotalLength(names[1..])
  }

  lemma {:induction false} TotalLengthAppend(names: seq<string>, last: string)
    ensures TotalLength(names + [last]) == TotalLength(names) + |last|
  {
    if names != [] {
      assert (names + [last])[1..] == names[1..] + [last];
      TotalLengthAppend(names[1..], last);
    } else {
      assert (names + [last])[1..] == [];
    }
  }

  /** The role names of the ids, in the order of the ids. */
  function NamesOf(ids: seq<int>, roles: map<int, Role>): (names: seq<string>)
    requires forall i :: 0 <= i < |ids| ==> ids[i] in roles
    ensures |names| == |ids|
    ensures forall i :: 0 <= i < |ids| ==> names[i] == roles[ids[i]].roleName
  {
    seq(|ids|, i requires 0 <= i < |ids| => roles[ids[i]].roleName)
  }

  /** The role-string loop of GenerateJwtToken: for each id, the role's name,
      and ", " after every name but the last. */
  method BuildRoleString(ids: seq<int>, roles: map<int, Role>) returns (s: string)
    requires forall i :: 0 <= i < |ids| ==> ids[i] in roles
    ensures s == JoinRoles(NamesOf(ids, roles))
  {
    ghost var names := NamesOf(ids, roles);
    s := "";
    var i := 0;
    while i < |ids|
      invariant 0 <= i <= |ids|
      invariant i == 0 ==> s == ""
      invariant 0 < i < |ids| ==> s == JoinRoles(names[..i]) + ", "
      invariant i == |ids| && i > 0 ==> s == JoinRoles(names[..i])
    {
      s := s + roles[ids[i]].roleName;
      assert names[..i + 1][..i] == names[..i];
      if i < |ids| - 1 {
        s := s + ", ";
      }
      i := i + 1;
    }
    assert names[..|ids|] == names;
  }

  /** `roles` is the role string for some order in which the store lists the player's links. */
  ghost predicate ListsRolesOf(t: Tables, pid: int, roles: string) {
    exists ids :: EnumeratesLinks(t, pid, ids) && (forall i :: 0 <= i < |ids| ==> ids[i] in t.roles)
                  && roles == JoinRoles(NamesOf(ids, t.roles))
  }

  /** The role string depends on the links and the roles only. */
  lemma ListsRolesOfFrame(t: Tables, t': Tables, pid: int, roles: string)
    requires t'.playerRoles == t.playerRoles && t'.roles == t.roles && ListsRolesOf(t, pid, roles)
    ensures ListsRolesOf(t', pid, roles)
  {
    var ids :| EnumeratesLinks(t, pid, ids) && (forall i :: 0 <= i < |ids| ==> ids[i] in t.roles)
               && roles == JoinRoles(NamesOf(ids, t.roles));
    assert EnumeratesLinks(t', pid, ids);
  }

  /** The claim list of an access token, in the order GenerateJwtToken writes it. */
  function TokenClaims(id: int, username: string, email: string, rating: int, level: int,
                       jti: string, roles: string, now: int): (cs: seq<Claim>)
    ensures |cs| == 8 && cs[0] == Claim(NameIdentifierClaim, IntToString(id)) && cs[6] == Claim(RoleClaim, roles)
  {
    [Claim(NameIdentifierClaim, IntToString(id)),
     Claim(NameClaim, username),
     Claim(EmailClaim, email),
     Claim(RatingClaim, IntToString(rating)),
     Claim(LevelClaim, IntToString(level)),
     Claim(JtiClaim, jti),
     Claim(RoleClaim, roles),
     Claim(IatClaim, IntToString(now))]
  }

  /** The signed token for a claim snapshot: issuer and audience from the
      configuration, expiry `now` plus the hours under JwtConfig:ExpirationInHour
      (1 when absent), signed with the secret. */
  function BuildJwt(c: PlayerInfoClaim, rating: int, level: int, roles: string,
                    cfg: JwtSettings, secret: string, now: int, jti: string): (token: Jwt)
    ensures token.payload.expires == AddHours(now, ConfigInt(cfg, TokenLifetimeKey, 1))
    ensures token.signature == HmacSha256(secret, token.payload)
    ensures token.payload.issuer == cfg.issuer && token.payload.audience == cfg.audience
  {
    var payload := JwtPayload(cfg.issuer, cfg.audience,
                              TokenClaims(c.id, c.username, c.email, rating, level, jti, roles, now),
                              AddHours(now, ConfigInt(cfg, TokenLifetimeKey, 1)));
    Jwt(payload, HmacSha256(secret, payload))
  }

  /** GenerateJwtToken. It re-reads the statistic and the profile by the
      player id (asserting both exist) and builds the role string from the
      player's links in store order; no permission claim is written. */
  method GenerateJwtToken(db: GameDb, c: PlayerInfoClaim, cfg: JwtSettings, secret: string, now: int, jti: string)
    returns (token: Jwt)
    requires db.Valid() && c.id in db.statistics && c.id in db.profiles
    ensures exists roles :: ListsRolesOf(db.State(), c.id, roles)
              && token == BuildJwt(c, db.statistics[c.id].rating, db.profiles[c.id].level, roles, cfg, secret, now, jti)
  {
    var ids := db.RoleIdsOf(c.id);
    assert forall i :: 0 <= i < |ids| ==> ids[i] in db.roles by {
      forall i | 0 <= i < |ids| ensures ids[i] in db.roles {
        assert PlayerRole(c.id, ids[i]) in db.playerRoles;
      }
    }
    var roles := BuildRoleString(ids, db.roles);
    assert ListsRolesOf(db.State(), c.id, roles);
    token := BuildJwt(c, db.statistics[c.id].rating, db.profiles[c.id].level, roles, cfg, secret, now, jti);
  }

  /** The token's claim list as issued. */
  ghost predicate IssuedFor(token: Jwt, t: Tables, c: PlayerInfoClaim, cfg: JwtSettings, secret: string, now: int, jti: string)
    requires c.id in t.statistics && c.id in t.profiles
  {
    exists roles :: ListsRolesOf(t, c.id, roles)
      && token == BuildJwt(c, t.statistics[c.id].rating, t.profiles[c.id].level, roles, cfg, secret, now, jti)
  }

  // ---- Validation ----------------------------------------------------------

  /** ValidateTokenWithoutLifetime: null when there is no token, when the
      issuer or audience is not the configured one (an unset configured value
      matches nothing), or when the signature is not the HMAC of this payload
      under the secret. The expiry is not looked at. */
  function ValidateTokenWithoutLifetime(cfg: JwtSettings, secret: string, token: Option<Jwt>): (r: Option<Jwt>)
    ensures r.Some? <==>
      && token.Some? && cfg.issuer.Some? && cfg.audience.Some?
      && token.value.payload.issuer == cfg.issuer && token.value.payload.audience == cfg.audience
      && token.value.signature == HmacSha256(secret, token.value.payload)
    ensures r.Some? ==> r == token
  {
    if token.None? then None
    else
      var tk := token.value;
      if cfg.issuer.None? || tk.payload.issuer != cfg.issuer then None
      else if cfg.audience.None? || tk.payload.audience != cfg.audience then None
      else if tk.signature != HmacSha256(secret, tk.payload) then None
      else Some(tk)
  }

  /** A token this service issued validates under the same settings and
      secret, however long ago it expired. */
  lemma IssuedTokenValidates(c: PlayerInfoClaim, rating: int, level: int, roles: string,
                             cfg: JwtSettings, secret: string, now: int, jti: string)
    requires cfg.issuer.Some? && cfg.audience.Some?
    ensures var token := BuildJwt(c, rating, level, roles, cfg, secret, now, jti);
            ValidateTokenWithoutLifetime(cfg, secret, Some(token)) == Some(token)
  {
  }

  /** A token signed under another secret, or whose payload was changed after
      signing, is rejected. */
  lemma ForgedTokenRejected(cfg: JwtSettings, secret: string, token: Jwt)
    requires token.signature.key != secret || token.signature.signed != token.payload
    ensures ValidateTokenWithoutLifetime(cfg, secret, Some(token)).None?
  {
  }

  /** The result does not depend on the expiry: re-signing the same payload
      with any other expiry gives the same verdict. */
  lemma LifetimeIgnored(cfg: JwtSettings, secret: string, payload: JwtPayload, expires: int)
    ensures var p' := payload.(expires := expires);
            (ValidateTokenWithoutLifetime(cfg, secret, Some(Jwt(payload, HmacSha256(secret, payload)))).Some?
             <==> ValidateTokenWithoutLifetime(cfg, secret, Some(Jwt(p', HmacSha256(secret, p')))).Some?)
  {
  }

  /** claims.FirstOrDefault(c => c.Type == claimType)?.Value */
  function FirstClaimValue(claims: seq<Claim>, claimType: string): (v: Option<string>)
    ensures v.Some? ==> exists i :: 0 <= i < |claims| && claims[i] == Claim(claimType, v.value)
                                   && forall j :: 0 <= j < i ==> claims[j].claimType != claimType
    ensures v.None? <==> forall i :: 0 <= i < |claims| ==> claims[i].claimType != claimType
  {
    if claims == [] then None
    else if claims[0].claimType == claimType then Some(claims[0].value)
    else
      var v := FirstClaimValue(claims[1..], claimType);
      assert v.Some? ==> exists i :: 0 <= i < |claims| && claims[i] == Claim(claimType, v.value)
                                   && forall j :: 0 <= j < i ==> claims[j].claimType != claimType by {
        if v.Some? {
          var i :| 0 <= i < |claims[1..]| && claims[1..][i] == Claim(claimType, v.value)
                   && forall j :: 0 <= j < i ==> claims[1..][j].claimType != claimType;
          assert claims[i + 1] == Claim(claimType, v.value);
          assert forall j :: 0 <= j < i + 1 ==> claims[j].claimType != claimType by {
            forall j | 0 <= j < i + 1 ensures claims[j].claimType != claimType {
              if j > 0 { assert claims[j] == claims[1..][j - 1]; }
            }
          }
        }
      }
      v
  }

  /** The claim at `k` is found when no earlier claim has its type. */
  lemma {:induction false} FirstClaimAt(claims: seq<Claim>, k: nat)
    requires k < |claims|
    requires forall j :: 0 <= j < k ==> claims[j].claimType != claims[k].claimType
    ensures FirstClaimValue(claims, claims[k].claimType) == Some(claims[k].value)
  {
    if k > 0 {
      assert claims[0].claimType != claims[k].claimType;
      assert claims[1..][k - 1] == claims[k];
      FirstClaimAt(claims[1..], k - 1);
    }
  }

  /** An issued token carries the player's name and email. */
  lemma TokenCarriesIdentity(c: PlayerInfoClaim, rating: int, level: int, roles: string,
                             cfg: JwtSettings, secret: string, now: int, jti: string)
    ensures var cs := BuildJwt(c, rating, level, roles, cfg, secret, now, jti).payload.claims;
            && FirstClaimValue(cs, NameClaim) == Some(c.username)
            && FirstClaimValue(cs, EmailClaim) == Some(c.email)
  {
    var cs := TokenClaims(c.id, c.username, c.email, rating, level, jti, roles, now);
    assert |cs[0].claimType| == 68 && |cs[1].claimType| == 58 && |cs[2].claimType| == 66;
    FirstClaimAt(cs, 1);
    FirstClaimAt(cs, 2);
  }

  /** The rating claim of an issued token reads back through int.TryParse
      as the stored 32-bit rating written into it. */
  lemma TokenCarriesRating(c: PlayerInfoClaim, rating: int, level: int, roles: string,
                           cfg: JwtSettings, secret: string, now: int, jti: string)
    requires IsInt32(rating)
    ensures var cs := BuildJwt(c, rating, level, roles, cfg, secret, now, jti).payload.claims;
            TryParseInt32(FirstClaimValue(cs, RatingClaim)) == Some(rating)
  {
    var cs := TokenClaims(c.id, c.username, c.email, rating, level, jti, roles, now);
    assert |cs[0].claimType| == 68 && |cs[1].claimType| == 58 && |cs[2].claimType| == 66;
    assert |cs[3].claimType| == 6;
    FirstClaimAt(cs, 3);
    IntTextRoundTrip(rating);
  }

  /** The level claim of an issued token reads back through int.TryParse
      as the stored 32-bit level written into it. */
  lemma TokenCarriesLevel(c: PlayerInfoClaim, rating: int, level: int, roles: string,
                          cfg: JwtSettings, secret: string, now: int, jti: string)
    requires IsInt32(level)
    ensures var cs := BuildJwt(c, rating, level, roles, cfg, secret, now, jti).payload.claims;
            TryParseInt32(FirstClaimValue(cs, LevelClaim)) == Some(level)
  {
    var cs := TokenClaims(c.id, c.username, c.email, rating, level, jti, roles, now);
    assert |cs[0].claimType| == 68 && |cs[1].claimType| == 58 && |cs[2].claimType| == 66;
    assert |cs[3].claimType| == 6 && |cs[4].claimType| == 5;
    FirstClaimAt(cs, 4);
    IntTextRoundTrip(level);
  }

  /** An issued token carries its jti and the role string. */
  lemma TokenCarriesSession(c: PlayerInfoClaim, rating: int, level: int, roles: string,
                            cfg: JwtSettings, secret: string, now: int, jti: string)
    ensures var cs := BuildJwt(c, rating, level, roles, cfg, secret, now, jti).payload.claims;
            && FirstClaimValue(cs, JtiClaim) == Some(jti)
            && FirstClaimValue(cs, RoleClaim) == Some(roles)
  {
    var cs := TokenClaims(c.id, c.username, c.email, rating, level, jti, roles, now);
    assert |cs[0].claimType| == 68 && |cs[1].claimType| == 58 && |cs[2].claimType| == 66;
    assert |cs[3].claimType| == 6 && |cs[4].claimType| == 5 && |cs[5].claimType| == 3;
    assert |cs[6].claimType| == 60;
    FirstClaimAt(cs, 5);
    FirstClaimAt(cs, 6);
  }

  /** An issued token carries its issue time as decimal text. */
  lemma TokenCarriesIssueTime(c: PlayerInfoClaim, rating: int, level: int, roles: string,
                              cfg: JwtSettings, secret: string, now: int, jti: string)
    ensures var cs := BuildJwt(c, rating, level, roles, cfg, secret, now, jti).payload.claims;
            FirstClaimValue(cs, IatClaim) == Some(IntToString(now))
  {
    var cs := TokenClaims(c.id, c.username, c.email, rating, level, jti, roles, now);
    assert |cs[0].claimType| == 68 && |cs[1].claimType| == 58 && |cs[2].claimType| == 66;
    assert |cs[3].claimType| == 6 && |cs[4].claimType| == 5 && |cs[6].claimType| == 60;
    assert cs[5].claimType[0] != cs[7].claimType[0] && |cs[7].claimType| == 3;
    FirstClaimAt(cs, 7);
  }

  /** The id claim of an issued token parses back to the player's id. */
  lemma IdClaimRoundTrip(c: PlayerInfoClaim, rating: int, level: int, roles: string,
                         cfg: JwtSettings, secret: string, now: int, jti: string)
    requires IsInt32(c.id)
    ensures var token := BuildJwt(c, rating, level, roles, cfg, secret, now, jti);
            TryParseInt32(FirstClaimValue(token.payload.claims, NameIdentifierClaim)) == Some(c.id)
  {
    IntTextRoundTrip(c.id);
  }

  /** The token's own lifetime and the lifetime the auth service reports are
      read under different keys: configuring only "…ExpirationInHours" to 24
      gives a token that expires after one hour while 24 hours are reported. */
  lemma LifetimeKeysDiffer(c: PlayerInfoClaim, rating: int, level: int, roles: string,
                           secret: string, now: int, jti: string)
    ensures var cfg := JwtSettings(Some("iss"), Some("aud"), map[ReportedLifetimeKey := 24]);
            && BuildJwt(c, rating, level, roles, cfg, secret, now, jti).payload.expires == now + 3600
            && AddHours(now, ConfigInt(cfg, ReportedLifetimeKey, 1)) == now + 24 * 3600
  {
    var cfg := JwtSettings(Some("iss"), Some("aud"), map[ReportedLifetimeKey := 24]);
    assert TokenLifetimeKey != ReportedLifetimeKey by {
      assert |TokenLifetimeKey| != |ReportedLifetimeKey|;
    }
  }
}
