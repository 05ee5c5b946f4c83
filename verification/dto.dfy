/** The request and response records of the API and the data-annotation
    rules that decide whether a request is valid: Required (not null and not
    white space only), StringLength (null passes; otherwise the length is
    within bounds), EmailAddress (null passes; otherwise exactly one '@',
    neither first nor last) and Compare (the two values are equal). */
module AuthDto {
  import opened Common
  import opened TokenService

  datatype LoginRequest = LoginRequest(
    username: Option<string>, email: Option<string>, password: Option<string>, rememberMe: bool := false)

  datatype RegisterRequest = RegisterRequest(
    username: Option<string>, email: Option<string>, password: Option<string>, confirmPassword: Option<string>)

  /** The access token as the client sends it back: None stands for a
      missing token and for a string that is not a well-formed JWT. */
  datatype RefreshTokenRequest = RefreshTokenRequest(token: Option<Jwt>, refreshToken: Option<string>)

  /** Three plain ints: [Required] on a value type can never fail, so the
      record has no validity rule and the id checks are the controller's. */
  datatype ResultMatchInfo = ResultMatchInfo(idPlayer1: int, idPlayer2: int, idPlayerWinner: int)

  datatype PlayerInfo = PlayerInfo(id: int, username: string, email: string, createdAt: int, lastLogin: int)

  datatype LeaderboardInfo = LeaderboardInfo(username: string, rating: int, totalMatches: int, wins: int, losses: int)

  /** [Required] on a string. */
  predicate Required(s: Option<string>) {
    !IsNullOrWhiteSpace(s)
  }

  /** [StringLength(max, MinimumLength = min)]: the length in UTF-16 code
      units, as string.Length counts it. */
  predicate LengthWithin(s: Option<string>, min: int, max: int) {
    s.None? || min <= Utf16Length(s.value) <= max
  }

  /** string.IndexOf(char): the first position of c, or -1. */
  function IndexOf(s: string, c: char): (k: int)
    ensures -1 <= k < |s|
    ensures k >= 0 ==> s[k] == c
  {
    if s == [] then -1
    else if s[0] == c then 0
    else
      var k := IndexOf(s[1..], c);
      if k == -1 then -1 else k + 1
  }

  /** No c comes before the position IndexOf returns, and -1 means there is none. */
  lemma {:induction false} IndexOfIsFirst(s: string, c: char)
    ensures var k := IndexOf(s, c);
            && (k >= 0 ==> forall j :: 0 <= j < k ==> s[j] != c)
            && (k == -1 ==> forall j :: 0 <= j < |s| ==> s[j] != c)
  {
    if s != [] && s[0] != c {
      IndexOfIsFirst(s[1..], c);
      assert forall j :: 1 <= j < |s| ==> s[j] == s[1..][j - 1];
    }
  }

  /** string.LastIndexOf(char): the last position of c, or -1. */
  function LastIndexOf(s: string, c: char): (k: int)
    ensures -1 <= k < |s|
    ensures k >= 0 ==> s[k] == c
  {
    if s == [] then -1
    else if s[|s| - 1] == c then |s| - 1
    else LastIndexOf(s[..|s| - 1], c)
  }

  /** No c comes after the position LastIndexOf returns, and -1 means there is none. */
  lemma {:induction false} LastIndexOfIsLast(s: string, c: char)
    ensures var k := LastIndexOf(s, c);
            && (k >= 0 ==> forall j :: k < j < |s| ==> s[j] != c)
            && (k == -1 ==> forall j :: 0 <= j < |s| ==> s[j] != c)
  {
    if s != [] && s[|s| - 1] != c {
      LastIndexOfIsLast(s[..|s| - 1], c);
    }
  }

  /** [EmailAddress]: the first '@' is also the last, and it is neither the
      first nor the last character. */
  predicate EmailAddressValid(s: Option<string>) {
    s.None? ||
    var k := IndexOf(s.value, '@');
    k > 0 && k != |s.value| - 1 && k == LastIndexOf(s.value, '@')
  }

  /** The rule accepts exactly the strings with one '@' strictly inside. */
  lemma EmailAddressIffOneInnerAt(s: string)
    ensures EmailAddressValid(Some(s)) <==>
            exists k :: 0 < k < |s| - 1 && s[k] == '@' && forall j :: 0 <= j < |s| && s[j] == '@' ==> j == k
  {
    var first, last := IndexOf(s, '@'), LastIndexOf(s, '@');
    IndexOfIsFirst(s, '@');
    LastIndexOfIsLast(s, '@');
    if exists k :: 0 < k < |s| - 1 && s[k] == '@' && forall j :: 0 <= j < |s| && s[j] == '@' ==> j == k {
      var k :| 0 < k < |s| - 1 && s[k] == '@' && forall j :: 0 <= j < |s| && s[j] == '@' ==> j == k;
      assert first == k;
      assert last == k;
    }
    if EmailAddressValid(Some(s)) {
      assert forall j :: 0 <= j < |s| && s[j] == '@' ==> j == first by {
        forall j | 0 <= j < |s| && s[j] == '@' ensures j == first {
        }
      }
    }
  }

  /** ModelState.IsValid for a RegisterRequest. */
  predicate IsValidRegister(r: RegisterRequest) {
    && Required(r.username) && LengthWithin(r.username, 3, 50)
    && Required(r.email) && EmailAddressValid(r.email) && LengthWithin(r.email, 0, 100)
    && Required(r.password) && LengthWithin(r.password, 6, 100)
    && r.confirmPassword == r.password
  }

  /** ModelState.IsValid for a LoginRequest: all three identifiers are
      required, although the lookup matches on either of the first two. */
  predicate IsValidLogin(r: LoginRequest) {
    && Required(r.username) && LengthWithin(r.username, 0, 50)
    && Required(r.email) && EmailAddressValid(r.email) && LengthWithin(r.email, 0, 100)
    && Required(r.password) && LengthWithin(r.password, 0, 100)
  }

  /** What a valid registration guarantees the service: a username of 3 to
      50 UTF-16 units (so at most 50 characters) that does not trim to
      nothing, a password of 6 to 100 units confirmed by an equal value, and
      a non-empty email of at most 100 units with one inner '@'. */
  lemma ValidRegisterFacts(r: RegisterRequest)
    requires IsValidRegister(r)
    ensures r.username.Some? && 3 <= Utf16Length(r.username.value) <= 50 && |r.username.value| <= 50
    ensures Trim(r.username.value) != ""
    ensures r.password.Some? && 6 <= Utf16Length(r.password.value) <= 100 && r.password.value != []
    ensures r.confirmPassword == r.password
    ensures r.email.Some? && !IsNullOrEmpty(r.email) && |r.email.value| <= 100 && Trim(r.email.value) != ""
    ensures exists k :: 0 < k < |r.email.value| - 1 && r.email.value[k] == '@'
  {
    EmailAddressIffOneInnerAt(r.email.value);
  }

  /** What a valid login guarantees: all three strings are present and fit
      their limits in UTF-16 units, and so in characters, and none is white
      space only. */
  lemma ValidLoginFacts(r: LoginRequest)
    requires IsValidLogin(r)
    ensures r.username.Some? && Utf16Length(r.username.value) <= 50 && |r.username.value| <= 50
    ensures r.email.Some? && Utf16Length(r.email.value) <= 100 && |r.email.value| <= 100
    ensures r.password.Some? && Utf16Length(r.password.value) <= 100
    ensures Trim(r.username.value) != "" && Trim(r.email.value) != "" && Trim(r.password.value) != ""
  {
  }
}
