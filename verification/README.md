# Tower defense meta server: identity, seeding, ratings and leaderboard

A Dafny model of the server core of a tower defense game backend:

- **Authentication** (`auth.dfy`): registration, login, refresh-token rotation and logout. Each is a
  method of `AuthService` that works step by step on the database (`GameDb` in `store.dfy`). Each is
  specified by a step function over the tables. The step function gives the tables after the call
  and either the error it answers with or the player it issued tokens for.
- **Claim snapshot** (`claims.dfy`): the role names linked to a player, and the duplicate-free union
  of the permission names those roles grant.
- **Token service** (`jwt.dfy`, `base64.dfy`, `inttext.dfy`):
  - refresh tokens are 32 random bytes as unpadded base64url (RFC 4648 sections 4 and 5);
  - access tokens carry the claims and a role string joined with ", ";
  - validation checks issuer, audience and signature but not the lifetime.
- **Authorization seeding** (`seed.dfy`): the get-or-create run over the configured roles,
  permissions and links, and the administrator bootstrap.
- **Match results** (`rating.dfy`): the validation, the counter updates and the rating rule.
- **Leaderboard** (`leaderboard.dfy`): a stable sort by rating, highest first, joined with the
  usernames.
- **Requests and records** (`dto.dfy`, `records.dfy`): the validity rules of the request records and
  the defaults of the player, statistic and profile records.

The database is a class whose fields are the tables:
- players, profiles and statistics as maps keyed by player id;
- roles and permissions as maps keyed by id;
- the two link tables as sets of id pairs;
- the identity sequences.

The schema's keys, unique indexes, column lengths and foreign keys form the invariant
`Store.Consistent`, and every operation is proved to keep it.

External pieces are parameters of the model:
- BCrypt is a `PasswordHasher` pair of functions; `Sound` states that `verify(p, hash(p))` holds.
- The random number generator is the 32-byte buffer it fills.
- The clock is an integer `now` in seconds.
- `Guid.NewGuid()` is the token id string.
- HMAC-SHA256 signing is symbolic: a signature is the key paired with the payload it covers.
- Where the store returns rows in an unspecified order, that order is a ghost out-parameter of the
  method (the login lookup, the statistics list).

Where the written description of the system and the code differ, the model follows the code:
- The rating exponent is `(winner - loser) / 400` in C# integer division, not
  `(loser - winner) / 400`. A stronger winner therefore gains more, and ratings fewer than 400 points
  apart always move by exactly 16 (1200 beating 1000 gains 16, like 1000 beating 1000).
- The loser loses exactly what the winner gains. `e2` is computed as `1 - e1`, so `r2 == -r1` holds
  in doubles too and both truncate alike; they never differ by one.
- Registration is not atomic. The player row is saved first, and a missing "Player" role leaves it
  saved without a profile, statistic or role link.
- The access token carries the role names as one joined string and no permission claim.

## Model

| member | source | states |
|---|---|---|
| Records.NewPlayer | TowerDefense.Common/Models/Player/Player.cs:26-35 | a new player has LoginCount 0, is not banned, has an empty ban reason, and carries the given names, hash, refresh token and expiry with every timestamp `now` |
| Records.NewStatistic | TowerDefense.Common/Models/Player/PlayerStatistic.cs:9-14 | a new statistic record belongs to its player, has no matches, no wins, no losses and rating 1000 |
| Records.NewProfile | TowerDefense.Common/Models/Player/PlayerProfile.cs:9-14 | a new profile belongs to its player, has no avatar, its own rating 1000, level 1 and no experience |
| Common.TruncDiv | TowerDefense.Server/Controllers/MatchController.cs:97 | C# integer division by a positive divisor truncates toward zero: the quotient times the divisor lies within one divisor of the dividend, on the side of zero |
| Common.Trim | TowerDefense.Server/Services/AuthService.cs:85-86 | string.Trim gives the piece of the input between a white-space prefix and a white-space suffix, with no white space at either end of it, and "" exactly for all-white-space input |
| Common.WrapInt32 | TowerDefense.Server/Services/AuthService.cs:207 | unchecked int arithmetic gives a 32-bit value that differs from the exact one by a multiple of 2^32, and the exact one when it fits |
| Common.Utf16Length | TowerDefense.Common/Models/DTO/AuthDTO.cs:8-35 | string.Length counts UTF-16 units: between one and two per character, and one per character when none is beyond U+FFFF |
| Common.Utf16LengthChar | TowerDefense.Common/Models/DTO/AuthDTO.cs:8-35 | a character beyond U+FFFF counts two units (a surrogate pair), any other one |
| Common.Utf16LengthAppend | TowerDefense.Common/Models/DTO/AuthDTO.cs:8-35 | the length of a concatenation is the sum of the lengths, so a text counts the sum of its characters' units |
| Common.TrimIdempotent | TowerDefense.Server/Services/AuthService.cs:85-86 | trimming a trimmed name changes nothing |
| AuthDto.IndexOf | TowerDefense.Common/Models/DTO/AuthDTO.cs:12 | string.IndexOf(char) returns -1 or a position holding the character |
| AuthDto.IndexOfIsFirst | TowerDefense.Common/Models/DTO/AuthDTO.cs:12 | no earlier position holds the character, and -1 means it does not occur |
| AuthDto.LastIndexOf | TowerDefense.Common/Models/DTO/AuthDTO.cs:12 | string.LastIndexOf(char) returns -1 or a position holding the character |
| AuthDto.LastIndexOfIsLast | TowerDefense.Common/Models/DTO/AuthDTO.cs:12 | no later position holds the character, and -1 means it does not occur |
| AuthDto.EmailAddressIffOneInnerAt | TowerDefense.Common/Models/DTO/AuthDTO.cs:29-32 | [EmailAddress] accepts exactly the strings with one '@' that is neither first nor last |
| AuthDto.ValidRegisterFacts | TowerDefense.Common/Models/DTO/AuthDTO.cs:23-40 | a valid registration has a username of 3 to 50 UTF-16 units (at most 50 characters) that is not blank, a non-empty password of 6 to 100 units equal to its confirmation, and a non-empty email of at most 100 characters with an inner '@' |
| AuthDto.ValidLoginFacts | TowerDefense.Common/Models/DTO/AuthDTO.cs:5-21 | a valid login has all of username (at most 50 UTF-16 units), email (at most 100) and password (at most 100) present and not blank |
| IntText.IntToString | TowerDefense.Server/Services/JwtTokenService.cs:70 | int.ToString is non-empty decimal digits, with a leading '-' for negative numbers |
| IntText.TryParseInt32 | TowerDefense.Server/Services/AuthService.cs:268-269 | int.TryParse fails on null and yields only 32-bit values |
| IntText.SkipParseWhite | TowerDefense.Server/Services/AuthService.cs:269 | the leading white space int.TryParse skips ends at the first character that is not white space |
| IntText.BackParseWhite | TowerDefense.Server/Services/AuthService.cs:269 | the trailing white space int.TryParse skips starts after the last character that is not white space |
| IntText.CutsAreWhiteEnds | TowerDefense.Server/Services/AuthService.cs:269 | in an accepted text the sign and digits lie exactly between the leading and the trailing white space |
| IntText.TryParseInt32Sound | TowerDefense.Server/Services/AuthService.cs:269 | what int.TryParse accepts is white space, an optional sign, one or more digits and white space, and the result is their 32-bit value |
| IntText.TryParseInt32Complete | TowerDefense.Server/Services/AuthService.cs:269 | every text of that shape whose value fits in 32 bits is accepted with that value |
| IntText.TryParseInt32Accepts | TowerDefense.Server/Services/AuthService.cs:268-269 | int.TryParse yields v exactly when the text is white space, an optional sign, one or more digits and white space, v is their value and v fits in 32 bits |
| IntText.DigitsRoundTrip | TowerDefense.Server/Services/JwtTokenService.cs:70 | the digits written for a natural number read back as that number |
| IntText.IntTextRoundTrip | TowerDefense.Server/Services/AuthService.cs:268-269 | parsing the text int.ToString wrote gives back every 32-bit number |
| IntText.IntToStringInjective | TowerDefense.Server/Services/JwtTokenService.cs:70 | distinct 32-bit ids never share a claim value |
| Base64.ToBase64StringLength | TowerDefense.Server/Services/JwtTokenService.cs:47 | Convert.ToBase64String writes four characters per started group of three bytes |
| Base64.Base64UrlNoPadShape | TowerDefense.Server/Services/JwtTokenService.cs:47-48 | unpadded base64url has ceil(4n/3) characters, all from the URL-safe alphabet |
| Base64.ReplaceChar | TowerDefense.Server/Services/JwtTokenService.cs:48 | string.Replace(char, char) keeps the length and replaces exactly the occurrences |
| Base64.RemoveChar | TowerDefense.Server/Services/JwtTokenService.cs:48 | Replace("=", "") leaves no '=' and never lengthens |
| Base64.RemoveCharCounts | TowerDefense.Server/Services/JwtTokenService.cs:48 | Replace("=", "") removes every '=' and keeps every other character as often as it occurs |
| Base64.UrlSafeUnpaddedIsBase64Url | TowerDefense.Server/Services/JwtTokenService.cs:47-48 | the replacement chain applied to Convert.ToBase64String is exactly unpadded base64url (RFC 4648 section 5) |
| Base64.DecodeEncode | TowerDefense.Server/Services/JwtTokenService.cs:47-48 | a base64url decoder recovers the bytes from the encoding |
| Base64.Base64UrlInjective | TowerDefense.Server/Services/JwtTokenService.cs:47-48 | distinct byte strings never share an encoding |
| TokenService.GenerateRefreshToken | TowerDefense.Server/Services/JwtTokenService.cs:42-49 | the refresh token of a 32-byte buffer is its unpadded base64url text and is exactly 43 characters long |
| TokenService.RefreshTokenDecodes | TowerDefense.Server/Services/JwtTokenService.cs:44-48 | every character is URL-safe, none is '+', '/' or '=', and decoding gives back the buffer |
| TokenService.RefreshTokenInjective | TowerDefense.Server/Services/JwtTokenService.cs:44-48 | different random buffers never give the same refresh token |
| TokenService.ConfigInt | TowerDefense.Server/Services/JwtTokenService.cs:80 | GetValue<int>(key, default) is the configured value when the key is set and the default otherwise |
| TokenService.JoinRoles | TowerDefense.Server/Services/JwtTokenService.cs:55-65 | the role string is empty for no roles and is the name itself for one role |
| TokenService.JoinRolesEnds | TowerDefense.Server/Services/JwtTokenService.cs:55-65 | the joined string starts with the first name and ends with the last, with no separator in front or behind |
| TokenService.JoinRolesLength | TowerDefense.Server/Services/JwtTokenService.cs:55-65 | the join holds the names plus one ", " fewer than there are names |
| TokenService.NamesOf | TowerDefense.Server/Services/JwtTokenService.cs:60 | one role name per role id, in the order of the ids |
| TokenService.BuildRoleString | TowerDefense.Server/Services/JwtTokenService.cs:55-65 | the index loop builds exactly the names of the ids joined with ", " |
| TokenService.ListsRolesOfFrame | TowerDefense.Server/Services/JwtTokenService.cs:56-60 | the role string depends on the player's links and the roles only |
| TokenService.TokenClaims | TowerDefense.Server/Services/JwtTokenService.cs:68-78 | eight claims, the player id as decimal text first and the role string seventh; the TokenCarries lemmas read back every other claim |
| TokenService.BuildJwt | TowerDefense.Server/Services/JwtTokenService.cs:80-90 | the token expires `now` plus the hours under JwtConfig:ExpirationInHour (default 1), names the configured issuer and audience, and is signed with the secret over its payload |
| TokenService.GenerateJwtToken | TowerDefense.Server/Services/JwtTokenService.cs:51-91 | the token is built from the stored rating and level and the role string of the player's links in some store order |
| TokenService.ValidateTokenWithoutLifetime | TowerDefense.Server/Services/JwtTokenService.cs:93-117 | a token validates exactly when it is present, names the configured issuer and audience, and is signed with the secret over its own payload; the result is then the token itself, and null otherwise |
| TokenService.IssuedTokenValidates | TowerDefense.Server/Services/JwtTokenService.cs:82-110 | a token this service issued validates under the same settings and secret |
| TokenService.ForgedTokenRejected | TowerDefense.Server/Services/JwtTokenService.cs:108-115 | a token signed under another secret, or changed after signing, does not validate |
| TokenService.LifetimeIgnored | TowerDefense.Server/Services/JwtTokenService.cs:104 | validation does not depend on the expiry |
| TokenService.FirstClaimValue | TowerDefense.Server/Services/AuthService.cs:268 | FirstOrDefault over the claims by type: the value of the first claim of that type, and null exactly when there is none |
| TokenService.FirstClaimAt | TowerDefense.Server/Services/AuthService.cs:268 | a claim with no earlier claim of its type is the one FirstOrDefault finds |
| TokenService.TokenCarriesIdentity | TowerDefense.Server/Services/JwtTokenService.cs:71-72 | the name and email claims of an issued token are the player's username and email |
| TokenService.TokenCarriesRating | TowerDefense.Server/Services/JwtTokenService.cs:73 | the rating claim of an issued token parses back to the 32-bit stored rating written |
| TokenService.TokenCarriesLevel | TowerDefense.Server/Services/JwtTokenService.cs:74 | the level claim of an issued token parses back to the 32-bit stored level written |
| TokenService.TokenCarriesSession | TowerDefense.Server/Services/JwtTokenService.cs:75-76 | an issued token carries its jti and the player's role string |
| TokenService.TokenCarriesIssueTime | TowerDefense.Server/Services/JwtTokenService.cs:77 | an issued token carries its issue time as decimal text |
| TokenService.IdClaimRoundTrip | TowerDefense.Server/Services/AuthService.cs:268-269 | the id claim of an issued token parses back to the player's id |
| TokenService.LifetimeKeysDiffer | TowerDefense.Server/Services/JwtTokenService.cs:80 | the token reads its lifetime from JwtConfig:ExpirationInHour while the service reports JwtConfig:ExpirationInHours, so a configuration of 24 hours still issues one-hour tokens |
| PlayerClaims.RoleNames | TowerDefense.Server/Services/AuthService.cs:355-361 | the names are exactly those of the roles linked to the player: every linked role contributes its name and every name comes from a linked role |
| PlayerClaims.GrantedBy | TowerDefense.Server/Services/AuthService.cs:364-371 | the names are exactly those of the permissions linked to the role: every linked permission contributes its name and every name comes from a linked permission |
| PlayerClaims.PermissionNamesIffGranted | TowerDefense.Server/Services/AuthService.cs:362-373 | a permission name is in the snapshot exactly when one of the player's roles is linked to a permission of that name |
| PlayerClaims.LinkRoleAddsGrants | TowerDefense.Server/Services/AuthService.cs:362-373 | linking one more role adds exactly what that role grants |
| PlayerClaims.RoleNamesNoRepeats | TowerDefense.Common/Configuration/RoleConfiguration.cs:11-12 | distinct role links of one player carry distinct names, so the role list has no repeats |
| PlayerClaims.RoleNamesIffLinked | TowerDefense.Server/Services/AuthService.cs:355-361 | a role name is in the snapshot exactly when one of the player's links names that role |
| PlayerClaims.MapToPlayerInfoClaim | TowerDefense.Server/Services/AuthService.cs:352-388 | the snapshot exists exactly when profile and statistic do, and carries the player's id, names, level, experience, match counts, rating, roles and permissions |
| PlayerClaims.OverlappingRolesExample | TowerDefense.Server/Services/AuthService.cs:362-373 | roles granting {A, B} and {B, C} give a holder of both exactly {A, B, C} |
| PlayerClaims.LinksAddGrants | TowerDefense.Server/Services/AuthService.cs:362-373 | the holder of both roles is granted the union |
| Store.EmptyTables | TowerDefense.Server/Migrations/20260121193311_AddTables.cs:15-166 | the freshly migrated database is consistent |
| Store.WithPlayer | TowerDefense.Server/Services/AuthService.cs:96-97 | a saved player is stored under the next sequence value, which becomes its id; nothing else changes |
| Store.WithPlayerConsistent | TowerDefense.Common/Configuration/PlayerConfiguration.cs:11-15 | saving an insertable player keeps the tables consistent and gives it an id no row had |
| Store.WithAccountRows | TowerDefense.Server/Services/AuthService.cs:99-116 | the account rows add a default profile, a default statistic and one link per role id, and nothing else |
| Store.WithAccountRowsConsistent | TowerDefense.Server/Services/AuthService.cs:113-116 | adding the rows of a new player with stored roles keeps the tables consistent |
| Store.UpdatePlayerConsistent | TowerDefense.Server/Services/AuthService.cs:206-222 | rewriting a player's row with the same id, username and email keeps the tables consistent |
| Store.OnlyMatch | TowerDefense.Common/Configuration/PlayerConfiguration.cs:11-15 | with unique usernames and emails, a lookup by a player's own username and email finds only that player |
| Store.RoleIdByName | TowerDefense.Server/Services/AuthorizationSeedService.cs:35 | the lookup returns the id of a role with that name, and null exactly when there is none |
| Store.RoleIdByNameUnique | TowerDefense.Common/Configuration/RoleConfiguration.cs:11-12 | role names are unique, so the lookup finds the one role with that name |
| Store.PermissionIdByName | TowerDefense.Server/Services/AuthorizationSeedService.cs:46-47 | the lookup returns the id of a permission with that name, and null exactly when there is none |
| Store.PermissionIdByNameUnique | TowerDefense.Common/Configuration/PermissionConfiguration.cs:11-12 | permission names are unique, so the lookup finds the one permission with that name |
| Store.WithRoleConsistent | TowerDefense.Server/Services/AuthorizationSeedService.cs:38-40 | a saved role keeps the tables consistent, is found by its name under the next id, and pending links stay insertable |
| Store.WithPermissionConsistent | TowerDefense.Server/Services/AuthorizationSeedService.cs:51-53 | a saved permission keeps the tables consistent, is found by its name under the next id, and pending links stay insertable |
| Store.WithRoleLinksConsistent | TowerDefense.Server/Services/AuthorizationSeedService.cs:73 | saving insertable links keeps the tables consistent |
| Store.UpdateStatisticsConsistent | TowerDefense.Server/Controllers/MatchController.cs:71 | rewriting two stored statistic records under their own ids keeps the tables consistent |
| Store.GameDb.SavePlayer | TowerDefense.Server/Services/AuthService.cs:96-97 | the save succeeds with the next id exactly when the row fits its columns and hits no unique index; a refused save changes nothing |
| Store.GameDb.SaveAccountRows | TowerDefense.Server/Services/AuthService.cs:113-116 | the profile, statistic and role links are added together |
| Store.GameDb.SaveRole | TowerDefense.Server/Services/AuthorizationSeedService.cs:38-40 | the role and the pending links are saved exactly when the name fits and is unused and the links are insertable; otherwise nothing changes |
| Store.GameDb.SavePermission | TowerDefense.Server/Services/AuthorizationSeedService.cs:51-53 | the permission and the pending links are saved exactly when the name fits and is unused and the links are insertable; otherwise nothing changes |
| Store.GameDb.SaveRoleLinks | TowerDefense.Server/Services/AuthorizationSeedService.cs:73 | the pending links are saved exactly when they are insertable; otherwise nothing changes |
| Store.GameDb.SaveStatistics | TowerDefense.Server/Controllers/MatchController.cs:71 | the two records are written under their player ids and nothing else changes |
| Store.GameDb.StatisticsList | TowerDefense.Server/Controllers/LeaderboardController.cs:26 | ToList gives every stored statistic record once, each as stored, in some order |
| Store.GameDb.UpdatePlayer | TowerDefense.Server/Services/AuthService.cs:206-222 | the player's row is replaced and nothing else changes |
| Store.GameDb.FindRoleByName | TowerDefense.Server/Services/AuthorizationSeedService.cs:35 | the role lookup by name |
| Store.GameDb.FindPermissionByName | TowerDefense.Server/Services/AuthorizationSeedService.cs:46-47 | the permission lookup by name |
| Store.GameDb.FindPlayerByNameOrEmail | TowerDefense.Server/Services/AuthService.cs:178-180 | some player whose username or email matches, and null exactly when none does |
| Store.GameDb.RoleIdsOf | TowerDefense.Server/Services/JwtTokenService.cs:56-57 | the role ids of the player's links, each once, in some order |
| Authentication.ClaimOfAfterUpdate | TowerDefense.Server/Services/AuthService.cs:213-218 | the claim snapshot depends on the row's id, username and email only |
| Authentication.IssuedForAfterUpdate | TowerDefense.Server/Services/AuthService.cs:215-222 | the access token stays issued for the player after the row is rewritten with the same names |
| Authentication.RegisterCheckPasses | TowerDefense.Server/Services/AuthService.cs:41-80 | the checks pass exactly for a valid request whose username and email, as sent, no stored player has |
| Authentication.RegisterUnreachableErrors | TowerDefense.Server/Services/AuthService.cs:49-72 | the password comparison and the empty-email check never fire, because validation already demands both |
| Authentication.CreateAccountConsistent | TowerDefense.Server/Services/AuthService.cs:96-116 | the registration writes keep the tables consistent, also when they stop after the first save |
| Authentication.CreateAccountFailures | TowerDefense.Server/Services/AuthService.cs:96-162 | a refused player save writes nothing; a missing "Player" role fails the registration with the player row saved and no profile, statistic or role |
| Authentication.CreateAccountDone | TowerDefense.Server/Services/AuthService.cs:96-116 | a completed account has the row under the next id, a default profile and statistic, and exactly the role "Player" |
| Authentication.RegisterPreservesConsistent | TowerDefense.Server/Services/AuthService.cs:37-163 | registration keeps the tables consistent whatever its outcome |
| Authentication.RegisterCreatesAccount | TowerDefense.Server/Services/AuthService.cs:82-116 | a completed registration stores the trimmed names, the password's hash, the issued refresh token valid seven days, one login, a default profile and statistic and exactly the role "Player" |
| Authentication.RegisterTrimmedNameCollides | TowerDefense.Server/Services/AuthService.cs:57 | when the trimmed username is stored but the untrimmed one is not, the checks pass and the save fails on the unique index |
| Authentication.TrailingSpaceRequestPasses | TowerDefense.Server/Services/AuthService.cs:57 | with "alice" stored, a request for "alice " passes the username check |
| Authentication.RegisterUntrimmedNameCollides | TowerDefense.Server/Services/AuthService.cs:134-152 | with "alice" stored, registering "alice " ends in the save error, not in the username-taken answer |
| Authentication.AnyMatch | TowerDefense.Server/Services/AuthService.cs:178-180 | some lookup result exists for every request |
| Authentication.LoggedInChanges | TowerDefense.Server/Services/AuthService.cs:206-220 | a login adds one to LoginCount, wrapping from Int32.MaxValue to Int32.MinValue, stamps the login and update times, sets a new refresh token valid 30 days with "remember me" and 7 without, and changes nothing else in the row |
| Authentication.LoginOutcomes | TowerDefense.Server/Services/AuthService.cs:165-244 | a failed login writes nothing; a banned player is refused whatever the password; a success is for a matching, unbanned player whose hash accepts the password, and rewrites only that row |
| Authentication.LoginPreservesConsistent | TowerDefense.Server/Services/AuthService.cs:206-222 | login keeps the tables consistent |
| Authentication.RegisteredPlayerCanLogIn | TowerDefense.Server/Services/AuthService.cs:178-222 | a freshly registered player logging in with the same names and password is the only match and logs in |
| Authentication.RegisterAllowsLogin | TowerDefense.Common/Models/DTO/AuthDTO.cs:5-40 | a valid registration request is also a valid login request |
| Authentication.RefreshOutcomes | TowerDefense.Server/Services/AuthService.cs:246-338 | a failed refresh writes nothing; a success needs a validating token whose id claim names the player, the stored refresh token equal to the one sent, and no expiry or one in the future, and rotates only that player's token, expiry and update time |
| Authentication.RefreshPreservesConsistent | TowerDefense.Server/Services/AuthService.cs:311-315 | refresh keeps the tables consistent |
| Authentication.RefreshIsSingleUse | TowerDefense.Server/Services/AuthService.cs:287-312 | after a refresh that drew a different token, the same request is refused as a mismatch |
| Authentication.RefreshWithFreshBytesIsSingleUse | TowerDefense.Server/Services/AuthService.cs:287-312 | when the new random bytes differ from those the sent token was made from, the sent token cannot be used again |
| Authentication.RefreshSucceedsWhen | TowerDefense.Server/Services/AuthService.cs:250-315 | when every check passes the refresh succeeds for the player the token names |
| Authentication.IssuedTokensRefresh | TowerDefense.Server/Services/AuthService.cs:259-302 | the tokens a success answers with refresh successfully while the stored refresh token has not expired |
| Authentication.LoginTokensRefresh | TowerDefense.Server/Services/AuthService.cs:215-222 | the tokens of a login refresh successfully until 7 days, or 30 with "remember me", have passed |
| Authentication.LogoutOutcomes | TowerDefense.Server/Services/AuthService.cs:390-423 | logging out an unknown id fails and writes nothing; otherwise only the refresh token, an expiry of a day ago and the update time change |
| Authentication.LogoutPreservesConsistent | TowerDefense.Server/Services/AuthService.cs:403-406 | logout keeps the tables consistent |
| Authentication.LogoutEndsRefresh | TowerDefense.Server/Services/AuthService.cs:403-404 | after a logout no refresh for that player succeeds |
| Authentication.AuthService.Register | TowerDefense.Server/Services/AuthService.cs:37-163 | the tables and the answer are those of the registration step; the tables stay consistent |
| Authentication.AuthService.SaveAccount | TowerDefense.Server/Services/AuthService.cs:96-132 | the two saves and the answer for the new row |
| Authentication.AuthService.Login | TowerDefense.Server/Services/AuthService.cs:165-244 | the tables and the answer are those of the login step for the player the lookup returned |
| Authentication.AuthService.LoginAs | TowerDefense.Server/Services/AuthService.cs:189-233 | the login of the player found |
| Authentication.AuthService.IssueTokens | TowerDefense.Server/Services/AuthService.cs:210-233 | only the player's row changes, to the new refresh token and expiry, and the answer carries a token issued for the snapshot |
| Authentication.AuthService.Refresh | TowerDefense.Server/Services/AuthService.cs:246-338 | the tables and the answer are those of the refresh step |
| Authentication.AuthService.Logout | TowerDefense.Server/Services/AuthService.cs:390-423 | the tables and the answer are those of the logout step |
| AuthorizationSeed.GrewTrans | TowerDefense.Server/Services/AuthorizationSeedService.cs:33-71 | growth by added rows and links composes over the loop |
| AuthorizationSeed.LongPermission | TowerDefense.Server/Services/AuthorizationSeedService.cs:51-53 | a permission name over 100 characters makes the entry one with a long name |
| AuthorizationSeed.RoleIdByNameGrows | TowerDefense.Server/Services/AuthorizationSeedService.cs:35-41 | a role found by name is still found under the same id after rows are added |
| AuthorizationSeed.PermissionIdByNameGrows | TowerDefense.Server/Services/AuthorizationSeedService.cs:46-54 | a permission found by name is still found under the same id after rows are added |
| AuthorizationSeed.LinkedInGrows | TowerDefense.Server/Services/AuthorizationSeedService.cs:57-69 | a link between named rows stays in place when rows and links are only added |
| AuthorizationSeed.EntrySeededGrows | TowerDefense.Server/Services/AuthorizationSeedService.cs:44-70 | a seeded entry stays seeded when rows and links are only added |
| AuthorizationSeed.EntriesSeededGrows | TowerDefense.Server/Services/AuthorizationSeedService.cs:33-71 | seeded entries stay seeded when rows and links are only added |
| AuthorizationSeed.EntrySeededStep | TowerDefense.Server/Services/AuthorizationSeedService.cs:44-70 | one more linked permission extends a seeded prefix of an entry |
| AuthorizationSeed.EntriesSeededStep | TowerDefense.Server/Services/AuthorizationSeedService.cs:33-71 | one more seeded entry extends a seeded prefix of the configuration |
| AuthorizationSeed.PlanLinksStops | TowerDefense.Server/Services/AuthorizationSeedService.cs:118-122 | once a role is missing the rest of the list is not looked at |
| AuthorizationSeed.PlannedRolesExist | TowerDefense.Server/Services/AuthorizationSeedService.cs:113-129 | every planned link names a stored role |
| AuthorizationSeed.PlanOfRoleList | TowerDefense.Server/Services/AuthorizationSeedService.cs:80-129 | the two-role list plans the default role's and the "Player" role's ids, stops at the first missing one, and repeats only when the default role is "Player" |
| AuthorizationSeed.SeedAdminRefusals | TowerDefense.Server/Services/AuthorizationSeedService.cs:83-95 | missing credentials exactly when both name and email are null or empty; an existing admin exactly when some player has that username or email; a throwing hash only for a missing password; all of these write nothing |
| AuthorizationSeed.SeedAdminRoleMissing | TowerDefense.Server/Services/AuthorizationSeedService.cs:108-122 | a missing role leaves the administrator row saved with no profile, statistic or role link |
| AuthorizationSeed.SeedAdminCreates | TowerDefense.Server/Services/AuthorizationSeedService.cs:96-130 | a created administrator has the row built from the settings, one login, a refresh token valid seven days, a default profile and statistic, and exactly the default role and "Player" |
| AuthorizationSeed.SeedAdminPreservesConsistent | TowerDefense.Server/Services/AuthorizationSeedService.cs:76-131 | the administrator bootstrap keeps the tables consistent |
| AuthorizationSeed.CreateAdminConsistent | TowerDefense.Server/Services/AuthorizationSeedService.cs:108-130 | the writes for the administrator row keep the tables consistent whether they stop at a missing role or complete |
| AuthorizationSeed.SeedAdminAgainChangesNothing | TowerDefense.Server/Services/AuthorizationSeedService.cs:89-95 | after a run that stopped at a missing role, every later run finds the administrator and changes nothing, so the partial account is permanent |
| AuthorizationSeed.AdminCanLogIn | TowerDefense.Server/Services/AuthorizationSeedService.cs:96-130 | the created administrator logs in with the configured password |
| AuthorizationSeed.AuthorizationSeedService.SeedAsync | TowerDefense.Server/Services/AuthorizationSeedService.cs:26-74 | the tables and the result are those of the seeding run `SeedSpec`: the loops, then the save of the links still pending; the tables stay consistent; a link tracked twice means the configuration lists some (role, permission) pair twice; every role, permission and link added is a configured one |
| AuthorizationSeed.AuthorizationSeedService.SeedEntries | TowerDefense.Server/Services/AuthorizationSeedService.cs:33-71 | the outer loop ends in the state the step-by-step run `EntriesFrom` reaches over all entries, stopping at the first entry that does not complete |
| AuthorizationSeed.AuthorizationSeedService.SeedEntry | TowerDefense.Server/Services/AuthorizationSeedService.cs:35-70 | one entry gives the state of `EntryStep`: its role, then its permissions, and the pending links stay insertable |
| AuthorizationSeed.AuthorizationSeedService.SeedLinks | TowerDefense.Server/Services/AuthorizationSeedService.cs:44-70 | the inner loop ends in the state `LinksFrom` reaches over the entry's permissions, stopping at the first step that does not complete |
| AuthorizationSeed.AuthorizationSeedService.SeedRole | TowerDefense.Server/Services/AuthorizationSeedService.cs:35-41 | the role is found by name or created with the pending links saved, as `RoleStep` says; a completed step returns the id the name is found under |
| AuthorizationSeed.AuthorizationSeedService.SeedLink | TowerDefense.Server/Services/AuthorizationSeedService.cs:46-69 | one permission gives the state of `LinkStep`: found or created, then the link stored or pending; TrackedTwice exactly when the permission already exists and its link to the role is pending |
| AuthorizationSeed.RoleStepFacts | TowerDefense.Server/Services/AuthorizationSeedService.cs:35-41 | the role step only adds; when it completes the role is found under the returned id; it fails only with SaveRejected for a name over 50 characters; a found role changes nothing |
| AuthorizationSeed.RoleStepConfigured | TowerDefense.Server/Services/AuthorizationSeedService.cs:35-41 | a created role is the entry's role, so what the run adds stays configured |
| AuthorizationSeed.LinkStepFacts | TowerDefense.Server/Services/AuthorizationSeedService.cs:46-69 | the permission step only adds and keeps the role; a completed step leaves the link stored or pending; SaveRejected only for a permission name over 100 characters; TrackedTwice exactly when the permission exists and its link to the role is pending; a link already stored changes nothing |
| AuthorizationSeed.LinkStepConfigured | TowerDefense.Server/Services/AuthorizationSeedService.cs:46-69 | what the step adds is a configured permission or the link of the configured pair, and a link tracked twice belongs to a pair met before |
| AuthorizationSeed.LinksFromGrew | TowerDefense.Server/Services/AuthorizationSeedService.cs:44-70 | the inner loop only adds rows and links and keeps the role found by its name |
| AuthorizationSeed.LinksFromOutcome | TowerDefense.Server/Services/AuthorizationSeedService.cs:44-70 | a completed inner loop leaves every permission of the entry stored and linked to the role, stored or pending; a rejected save means a permission name is too long |
| AuthorizationSeed.LinksFromIdle | TowerDefense.Server/Services/AuthorizationSeedService.cs:44-70 | permissions whose links are all stored change nothing |
| AuthorizationSeed.EntryPairsGrow | TowerDefense.Server/Services/AuthorizationSeedService.cs:44 | the pairs of a shorter prefix of an entry's permissions are among those of a longer one |
| AuthorizationSeed.LinksFromConfigured | TowerDefense.Server/Services/AuthorizationSeedService.cs:44-70 | every link the inner loop adds or leaves pending joins a configured pair, and a link tracked twice repeats a pair met earlier in the run |
| AuthorizationSeed.EntryStepFacts | TowerDefense.Server/Services/AuthorizationSeedService.cs:35-70 | one entry only adds; a completed entry is seeded; a rejected save means one of its names is too long |
| AuthorizationSeed.EntryStepIdle | TowerDefense.Server/Services/AuthorizationSeedService.cs:35-70 | an entry already seeded changes nothing |
| AuthorizationSeed.EntryStepConfigured | TowerDefense.Server/Services/AuthorizationSeedService.cs:35-70 | what one entry adds is its role, configured permissions and configured links, and a link it tracks twice repeats a pair met before |
| AuthorizationSeed.EntriesFromOutcome | TowerDefense.Server/Services/AuthorizationSeedService.cs:33-71 | the outer loop keeps the tables consistent and only adds; when it completes every entry is seeded; a rejected save means some entry has a name too long |
| AuthorizationSeed.EntriesFromIdle | TowerDefense.Server/Services/AuthorizationSeedService.cs:33-71 | entries already seeded change nothing |
| AuthorizationSeed.EntriesFromConfigured | TowerDefense.Server/Services/AuthorizationSeedService.cs:33-71 | every role, permission and link the outer loop adds is configured, and a run that tracks a link twice has a configuration repeating a (role, permission) pair |
| AuthorizationSeed.SeedOnlyAdds | TowerDefense.Server/Services/AuthorizationSeedService.cs:26-74 | a seeding run keeps the tables consistent and only adds roles, permissions and links; without a section it changes nothing and completes |
| AuthorizationSeed.SeedCompletedSeeds | TowerDefense.Server/Services/AuthorizationSeedService.cs:26-74 | a completed run leaves every configured role, permission and link stored |
| AuthorizationSeed.SeedFailures | TowerDefense.Server/Services/AuthorizationSeedService.cs:26-74 | a rejected save needs a name too long for its column; a link tracked twice needs a configuration that lists some (role, permission) pair twice |
| AuthorizationSeed.SeedAddsConfigured | TowerDefense.Server/Services/AuthorizationSeedService.cs:26-74 | every role the run adds is configured, every permission is configured, and every link joins a configured (role, permission) pair |
| AuthorizationSeed.SeedAgainChangesNothing | TowerDefense.Server/Services/AuthorizationSeedService.cs:26-74 | a run over tables that hold the whole configuration completes and changes nothing |
| AuthorizationSeed.SeedCompletes | TowerDefense.Server/Services/AuthorizationSeedService.cs:26-74 | a configuration with no name too long and no repeated pair always completes and is then stored |
| AuthorizationSeed.PairsOfGrows | TowerDefense.Server/Services/AuthorizationSeedService.cs:33-71 | adding rows does not rename the stored roles and permissions a link joins |
| AuthorizationSeed.PairsOfMono | TowerDefense.Server/Services/AuthorizationSeedService.cs:56-69 | more links join more name pairs |
| AuthorizationSeed.AddsConfiguredFlush | TowerDefense.Server/Services/AuthorizationSeedService.cs:40 | saving configured rows together with the pending links keeps everything added configured |
| AuthorizationSeed.AddsConfiguredWider | TowerDefense.Server/Services/AuthorizationSeedService.cs:33-71 | what a prefix of the configuration allows, the whole configuration allows |
| AuthorizationSeed.EntriesGrow | TowerDefense.Server/Services/AuthorizationSeedService.cs:33 | the roles and pairs of a prefix of the entries are among those of a longer prefix |
| AuthorizationSeed.EntryPairsStep | TowerDefense.Server/Services/AuthorizationSeedService.cs:44 | one more permission adds its pair with the entry's role |
| AuthorizationSeed.TrackedTwiceRepeats | TowerDefense.Server/Services/AuthorizationSeedService.cs:57-69 | a pair met again later in the configuration is a repeated pair |
| AuthorizationSeed.RepeatedPairExample | TowerDefense.Server/Services/AuthorizationSeedService.cs:33-44 | a role listed twice with the same permission repeats that pair |
| AuthorizationSeed.AuthorizationSeedService.SeedAdmin | TowerDefense.Server/Services/AuthorizationSeedService.cs:76-131 | the tables and the outcome are those of the bootstrap step; the tables stay consistent |
| AuthorizationSeed.AuthorizationSeedService.SaveAdmin | TowerDefense.Server/Services/AuthorizationSeedService.cs:108-130 | the writes for the administrator row |
| AuthorizationSeed.AuthorizationSeedService.PlanRoleLinks | TowerDefense.Server/Services/AuthorizationSeedService.cs:113-129 | the loop over the role list collects the ids the plan names, or stops where the plan stops |
| MatchRating.Pow10 | TowerDefense.Server/Controllers/MatchController.cs:97 | a power of ten is at least 1 |
| MatchRating.ExactGain | TowerDefense.Server/Controllers/MatchController.cs:97-102 | K(1 - 1/(1 + 10^n)) as a fraction with a positive denominator |
| MatchRating.GainIsExactUpTo16 | TowerDefense.Server/Controllers/MatchController.cs:97-108 | for n up to 16 the gain table is the exact value truncated: 0, 2, 16, 29 and 31 |
| MatchRating.ExactGainStaysBelowK | TowerDefense.Server/Controllers/MatchController.cs:97-108 | from n = 2 on the exact value truncates to 31 and never reaches 32 |
| MatchRating.GainMonotone | TowerDefense.Server/Controllers/MatchController.cs:97-108 | the gain grows with the exponent |
| MatchRating.RatingsZeroSum | TowerDefense.Server/Controllers/MatchController.cs:97-108 | the loser loses what the winner gains, the sum is kept, the gain is between 0 and 32, and only the difference of the ratings matters |
| MatchRating.CloseRatingsMoveBy16 | TowerDefense.Server/Controllers/MatchController.cs:97-108 | ratings less than 400 apart move by exactly 16 |
| MatchRating.StrongerWinnerGainsMore | TowerDefense.Server/Controllers/MatchController.cs:97 | a stronger winner gains at least as much as a weaker one against the same loser |
| MatchRating.ExponentMonotone | TowerDefense.Server/Controllers/MatchController.cs:97 | the exponent grows with the winner's rating |
| MatchRating.UpsetGainsLess | TowerDefense.Server/Controllers/MatchController.cs:97-108 | 1000 beating 1400 gains 2; 1400 beating 1000 gains 29 |
| MatchRating.LoserRatingMayGoNegative | TowerDefense.Server/Controllers/MatchController.cs:108 | two players at 0 end at 16 and -16 |
| MatchRating.SaveResultOutcomes | TowerDefense.Server/Controllers/MatchController.cs:36-83 | invalid players exactly when the ids are equal or the winner is neither; missing statistics exactly when a record is absent; both write nothing; a saved result changes the two records only, by one match and one win or loss each, keeping their sum of ratings |
| MatchRating.SaveResultKeepsCountersAgree | TowerDefense.Server/Controllers/MatchController.cs:60-64 | wins plus losses stays the match count in every record |
| MatchRating.SaveResultPreservesConsistent | TowerDefense.Server/Controllers/MatchController.cs:58-71 | saving a result keeps the tables consistent |
| MatchRating.MatchController.SaveResultMatch | TowerDefense.Server/Controllers/MatchController.cs:23-85 | the tables and the outcome are those of the match step; the tables stay consistent |
| Leaderboard.InsertByRating | TowerDefense.Server/Controllers/LeaderboardController.cs:35 | insertion adds exactly the one record |
| Leaderboard.OrderByRatingDescending | TowerDefense.Server/Controllers/LeaderboardController.cs:35 | the sort is a permutation of its input |
| Leaderboard.InsertedFrom | TowerDefense.Server/Controllers/LeaderboardController.cs:35 | every record after insertion is the new one or an old one |
| Leaderboard.InsertKeepsDescending | TowerDefense.Server/Controllers/LeaderboardController.cs:35 | insertion into a list sorted by rating, highest first, keeps it sorted |
| Leaderboard.OrderIsDescending | TowerDefense.Server/Controllers/LeaderboardController.cs:35 | the sorted list has non-increasing ratings |
| Leaderboard.ConsWithRating | TowerDefense.Server/Controllers/LeaderboardController.cs:35 | the records of one rating in a list with one more record in front |
| Leaderboard.InsertKeepsTies | TowerDefense.Server/Controllers/LeaderboardController.cs:35 | insertion places the record ahead of every record of its rating |
| Leaderboard.OrderKeepsTies | TowerDefense.Server/Controllers/LeaderboardController.cs:35 | the sort is stable: the records of every rating keep their input order |
| Leaderboard.EntryOf | TowerDefense.Server/Controllers/LeaderboardController.cs:48-55 | an entry carries the owner's username and the record's rating, matches, wins and losses |
| Leaderboard.IdsOfMembers | TowerDefense.Server/Controllers/LeaderboardController.cs:26 | an id is among the records' ids exactly when some record has it |
| Leaderboard.DistinctIdsCount | TowerDefense.Server/Controllers/LeaderboardController.cs:26 | records with distinct ids have as many ids as records |
| Leaderboard.EnumerationCount | TowerDefense.Server/Controllers/LeaderboardController.cs:26 | the list of a consistent statistics table has one row per stored record |
| Leaderboard.LeaderboardEmpty | TowerDefense.Server/Controllers/LeaderboardController.cs:26-33 | the answer is the failure for no statistics exactly when the table is empty |
| Leaderboard.LeaderboardPlayerMissing | TowerDefense.Server/Controllers/LeaderboardController.cs:40-47 | the whole call fails exactly when some stored record names a player that is not stored, so never in a consistent database |
| Leaderboard.BoardCoversRecords | TowerDefense.Server/Controllers/LeaderboardController.cs:38-56 | every stored record has an entry with its owner's name and counters |
| Leaderboard.BoardShowsRecords | TowerDefense.Server/Controllers/LeaderboardController.cs:38-56 | every entry shows a stored record |
| Leaderboard.LeaderboardBoard | TowerDefense.Server/Controllers/LeaderboardController.cs:35-56 | the board has one entry per stored record, highest rating first |
| Leaderboard.LeaderboardController.GetLeaderboard | TowerDefense.Server/Controllers/LeaderboardController.cs:24-59 | the answer is the leaderboard of the records in the order the store listed them; it reports no statistics exactly when the table is empty, and a board has one entry per stored record, highest rating first |

## Left out

- HTTP routing, `[Authorize]`, status codes, logging and `Console.WriteLine`: they do not affect the stored state or the answers' content.
- Concurrency and transactions: two simultaneous refreshes for one player, or two registrations with the same name, are not modelled. Every operation runs alone.
- EF change tracking beyond the explicit save points: each save point is one step of the store class.
- BCrypt, the random number generator, the clock, `Guid.NewGuid()` and HMAC-SHA256: these are parameters. Signing is symbolic, so a forged signature is one made under another key or over another payload.
- The JSON layout of a JWT: a token is its payload and signature as a value, and is not encoded to text.
- `ModelState.IsValid` on `ResultMatchInfo`: `[Required]` on plain ints never fails, so the check is left out.
- The DbUpdateException message test in RegisterAsync (the RefreshToken and NULL words): the refresh token is never null, so that branch is not modelled and a refused save is always SaveFailed.
- MatchRating.Gain: the value 32 for exponents of 17 and more comes from IEEE double rounding of `1 - 10^-n` to 1, and doubles are not modelled. The exact value is proved to truncate to 31 there (`ExactGainStaysBelowK`).
- MatchRating.RatingsAfterMatch: 32-bit wrap-around of ratings and of the rating difference is not modelled. Ratings are unbounded integers.
- MatchRating.MatchController.SaveResultMatch: 32-bit wrap-around of the match counters is not modelled.
- AuthorizationSeed.SeedFailures: a run that tracks a link twice is proved to come from a configuration that repeats a (role, permission) pair, but a repeated pair does not always end that way. In [R: [A]], [R: [B, A]] the creation of B saves the pending link of R and A, so the second A finds it stored and the run completes. Which repeats throw is not characterised.
- Store.GameDb.SavePlayer: a PostgreSQL identity column draws its next value even when the insert is then refused, so after a refused registration the next player gets an id one higher. The model keeps `nextPlayerId` unchanged on a refused save; ids are still unique and increasing, but gaps are not modelled.
- PlayerClaims.PlayerInfoClaim: the role and permission lists are sets of names. The role list never repeats a name and the permission list is made distinct, but the order in which the store returns them is not modelled.
- IntText.TryParseInt32: the culture's own sign strings, trailing NUL characters and white space other than U+0009 to U+000D and U+0020 are not modelled; the invariant culture's '+' and '-' are.
- The configuration binding of AuthorizationOptions and the environment variables of SeedAdmin are parameters (`Option<AuthorizationOptions>`, `AdminSettings`).
- Program.cs start-up, the other controllers, and the Inventory, Formation and Tower records are not part of this model.
