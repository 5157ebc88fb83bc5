/**
 * The pure rules of convex/auth.ts and the profile writes of its sign-up and
 * sign-in actions. The better-auth calls (`signUpEmail`, `signInEmail`,
 * `getToken`) are foreign: their answers are parameters.
 */
module Auth {
  import opened Wrappers
  import opened Text
  import opened Schema
  import Username
  import ProfilesInternal

  const UsernameError := "Username: 3-20 letters/numbers, case insensitive"
  const EmailDomain := "users.chui.local"
  const EmailRequired := "Email required"
  const SessionTokenMissing := "Authentication session token missing"

  /** `requireValidUsername`: normalise and match `^[a-z0-9]{3,20}$`. It
      accepts exactly the names the shared rules accept, with the same text. */
  function RequireValidUsername(raw: string): (r: Result<string>)
    ensures r.Ok? <==> Username.Parse(raw).Some?
    ensures r.Ok? ==> r.value == Username.Parse(raw).value
    ensures r.Err? ==> r.message == UsernameError
  {
    var username := Username.Normalize(raw);
    if username == [] || !Username.IsValid(username) then Err(UsernameError) else Ok(username)
  }

  /** The thrown text is the one `parseUsernameOrThrow` uses by default, so both
      report a bad name identically. */
  lemma SameErrorAsSharedRules(raw: string)
    ensures RequireValidUsername(raw) == Username.ParseOrThrow(raw, None)
  {
    ErrorTextsAgree();
  }

  lemma ErrorTextsAgree()
    ensures UsernameError == Username.DefaultParseError
  {
    var d := Username.DefaultParseError;
    assert |UsernameError| == |d|;
    assert forall i :: 0 <= i < |d| ==> UsernameError[i] == d[i];
  }

  /** `usernameToEmail`: the synthetic address under the app's own domain. */
  function UsernameToEmail(username: string): (r: string)
    ensures |r| == |username| + 1 + |EmailDomain|
    ensures r[..|username|] == username && r[|username|..] == "@" + EmailDomain
    ensures Contains(r, "@")
  {
    var r := username + "@" + EmailDomain;
    ContainsAt(r, "@", |username|);
    r
  }

  /** Distinct usernames get distinct synthetic addresses. */
  lemma UsernameToEmailInjective(u1: string, u2: string)
    requires UsernameToEmail(u1) == UsernameToEmail(u2)
    ensures u1 == u2
  {
    var e := UsernameToEmail(u1);
    assert |e| == |u1| + |"@" + EmailDomain| == |u2| + |"@" + EmailDomain|;
  }

  /** The sign-up address: the trimmed, lower-cased requested email when it is
      non-empty and contains "@", otherwise the username's synthetic address. */
  function ChooseSignUpEmail(username: string, requestedEmail: Option<string>): (email: string)
    ensures Contains(email, "@")
  {
    var requested := ToLower(Trim(requestedEmail.GetOr("")));
    if requested != [] && Contains(requested, "@") then requested else UsernameToEmail(username)
  }

  /** A requested email with an "@" is kept, trimmed and lower-cased. */
  lemma SignUpKeepsRequestedEmail(username: string, requestedEmail: string)
    requires Contains(ToLower(Trim(requestedEmail)), "@")
    ensures ChooseSignUpEmail(username, Some(requestedEmail)) == ToLower(Trim(requestedEmail))
  {
  }

  /** Without an "@" in the requested email, the address is derived from the username. */
  lemma SignUpFallsBackToSyntheticEmail(username: string, requestedEmail: Option<string>)
    requires requestedEmail.None? || '@' !in requestedEmail.value
    ensures ChooseSignUpEmail(username, requestedEmail) == UsernameToEmail(username)
  {
    var requested := ToLower(Trim(requestedEmail.GetOr("")));
    if Contains(requested, "@") {
      ContainsCharIn(requested, '@');
      assert false;
    }
  }

  /** Which address a sign-in identifier stands for: an empty identifier is
      refused; one without "@" must be a valid username and maps to its
      synthetic address; otherwise it is the trimmed, lower-cased email. */
  function SignInEmail(identifier: string): (r: Result<string>)
    ensures IsBlank(identifier) <==> r == Err(EmailRequired)
    ensures !IsBlank(identifier) && Contains(ToLower(Trim(identifier)), "@") ==> r == Ok(ToLower(Trim(identifier)))
    ensures !IsBlank(identifier) && !Contains(ToLower(Trim(identifier)), "@") ==>
      match RequireValidUsername(identifier)
      case Ok(u) => r == Ok(UsernameToEmail(u))
      case Err(e) => r == Err(UsernameError)
  {
    var email := ToLower(Trim(identifier));
    if email == [] then Err(EmailRequired)
    else if !Contains(email, "@") then
      match RequireValidUsername(identifier)
      case Err(e) => Err(e)
      case Ok(u) => Ok(UsernameToEmail(u))
    else Ok(email)
  }

  /** The synthetic address of a valid username is already trimmed and lower case. */
  lemma {:induction false} SyntheticEmailIsNormalized(u: string)
    requires Username.IsValid(u)
    ensures ToLower(Trim(UsernameToEmail(u))) == UsernameToEmail(u)
  {
    var e := UsernameToEmail(u);
    assert Username.InAlphabet(e[0]) && e[|e| - 1] == 'l';
    assert IsTrimmed(e);
    assert HasNoUpper(e) by {
      forall i | 0 <= i < |e| ensures !('A' <= e[i] <= 'Z') {
        if i >= |u| {
          assert e[i] == ("@" + EmailDomain)[i - |u|];
        }
      }
    }
    ToLowerResult(e);
  }

  /** Signing in with a valid username or with its synthetic address reaches the same account. */
  lemma SignInByUsernameOrSyntheticEmail(u: string)
    requires Username.IsValid(u)
    ensures SignInEmail(u) == Ok(UsernameToEmail(u))
    ensures SignInEmail(UsernameToEmail(u)) == Ok(UsernameToEmail(u))
  {
    Username.ValidIsNormalized(u);
    assert ToLower(Trim(u)) == u;
    ContainsCharIn(u, '@');
    assert !Contains(u, "@") by {
      assert forall i :: 0 <= i < |u| ==> u[i] != '@';
    }
    SyntheticEmailIsNormalized(u);
  }

  /** `getConvexJwtFromSessionToken`'s guard: a missing or empty session
      token is refused before the auth provider is asked for a token. */
  function RequireSessionToken(sessionToken: Option<string>): (r: Result<string>)
    ensures r.Ok? <==> sessionToken.Some? && sessionToken.value != []
    ensures r.Ok? ==> r.value == sessionToken.value
    ensures r.Err? ==> r.message == SessionTokenMissing
  {
    if sessionToken.None? || sessionToken.value == [] then Err(SessionTokenMissing) else Ok(sessionToken.value)
  }

  /** The profile name used after sign-in: the auth user's normalised name, or "" without one. */
  function SignInUsername(authUserName: Option<string>): (r: string)
    ensures authUserName.None? ==> r == []
    ensures authUserName.Some? ==> r == Username.Normalize(authUserName.value)
  {
    Username.Normalize(authUserName.GetOr(""))
  }

  /** One entry of `listProfiles`. */
  datatype ProfileListing = ProfileListing(username: string, email: Option<string>)

  /** `listProfiles`: nothing without an identity, otherwise every profile's
      username and email, in table order. */
  function ListProfiles(identitySubject: Option<string>, profiles: seq<Profile>): (r: seq<ProfileListing>)
    ensures identitySubject.None? ==> r == []
    ensures identitySubject.Some? ==> |r| == |profiles|
    ensures identitySubject.Some? ==>
              forall i :: 0 <= i < |r| ==> r[i].username == profiles[i].username && r[i].email == profiles[i].email
  {
    if identitySubject.None? then []
    else seq(|profiles|, i requires 0 <= i < |profiles| => ProfileListing(profiles[i].username, profiles[i].email))
  }

  /** In a table with one row per username, the listing names nobody twice. */
  lemma ListProfilesNamesDistinct(identitySubject: Option<string>, profiles: seq<Profile>)
    requires UniqueUsernames(profiles)
    ensures var r := ListProfiles(identitySubject, profiles);
            forall i, j :: 0 <= i < j < |r| ==> r[i].username != r[j].username
  {
  }

  /** What better-auth answers to `signUpEmail` / `signInEmail`. */
  datatype AuthUser = AuthUser(id: string, name: Option<string>)
  datatype AuthResponse = AuthResponse(user: AuthUser, sessionToken: Option<string>)

  /** What the sign-up and sign-in actions return. */
  datatype SignedIn = SignedIn(token: string, sessionToken: string, username: string, userId: nat)

  /** `signUpWithUsernameEmailAndPassword`: validate the username, choose the
      email, (ask the provider to create the user: `response`), check its
      session token, (exchange it for `convexToken`), then upsert the profile
      with the auth user id and the chosen email. No failure writes a profile. */
  method SignUp(db: Db, rawUsername: string, requestedEmail: Option<string>,
                response: AuthResponse, convexToken: string, now: int) returns (r: Result<SignedIn>)
    requires db.Valid()
    modifies db
    ensures db.Valid() && db.messages == old(db.messages)
    ensures Username.Parse(rawUsername).None? ==> r == Err(UsernameError) && db.profiles == old(db.profiles)
    ensures Username.Parse(rawUsername).Some? && RequireSessionToken(response.sessionToken).Err? ==>
      r == Err(SessionTokenMissing) && db.profiles == old(db.profiles)
    ensures Username.Parse(rawUsername).Some? && RequireSessionToken(response.sessionToken).Ok? ==> r.Ok?
    ensures r.Ok? ==>
      var username := Username.Parse(rawUsername).value;
      var email := ChooseSignUpEmail(username, requestedEmail);
      r.value.username == username && r.value.token == convexToken &&
      Some(r.value.sessionToken) == response.sessionToken &&
      (db.profiles, r.value.userId) ==
        ProfilesInternal.Upserted(old(db.profiles), username, Some(response.user.id), Some(email), now)
    ensures r.Err? ==> db.profiles == old(db.profiles)
  {
    var checked := RequireValidUsername(rawUsername);
    if checked.Err? {
      return Err(checked.message);
    }
    var username := checked.value;
    var email := ChooseSignUpEmail(username, requestedEmail);
    r := CompleteAuth(db, username, Some(email), response, convexToken, now);
  }

  /** The tail both actions share: check the provider's session token, (exchange
      it for `convexToken`), upsert the profile linked to the auth user, and
      return the tokens with the profile's id. */
  method CompleteAuth(db: Db, username: string, email: Option<string>,
                      response: AuthResponse, convexToken: string, now: int) returns (r: Result<SignedIn>)
    requires db.Valid()
    modifies db
    ensures db.Valid() && db.messages == old(db.messages)
    ensures RequireSessionToken(response.sessionToken).Err? <==> r.Err?
    ensures r.Err? ==> r == Err(SessionTokenMissing) && db.profiles == old(db.profiles)
    ensures r.Ok? ==>
      r.value.username == username && r.value.token == convexToken &&
      Some(r.value.sessionToken) == response.sessionToken &&
      (db.profiles, r.value.userId) ==
        ProfilesInternal.Upserted(old(db.profiles), username, Some(response.user.id), email, now)
  {
    var session := RequireSessionToken(response.sessionToken);
    if session.Err? {
      return Err(session.message);
    }
    var userId := ProfilesInternal.UpsertProfileInternal(db, username, Some(response.user.id), email, now);
    return Ok(SignedIn(convexToken, session.value, username, userId));
  }

  /** `signInWithEmailAndPassword`: resolve the identifier to an email, (ask
      the provider to sign in: `response`), check its session token, then
      upsert the profile named after the auth user, linking its id and leaving
      the stored email alone. The resolved name is not validated. */
  method SignIn(db: Db, identifier: string, response: AuthResponse, convexToken: string, now: int)
    returns (r: Result<SignedIn>)
    requires db.Valid()
    modifies db
    ensures db.Valid() && db.messages == old(db.messages)
    ensures SignInEmail(identifier).Err? ==> r == Err(SignInEmail(identifier).message) && db.profiles == old(db.profiles)
    ensures SignInEmail(identifier).Ok? && RequireSessionToken(response.sessionToken).Err? ==>
      r == Err(SessionTokenMissing) && db.profiles == old(db.profiles)
    ensures SignInEmail(identifier).Ok? && RequireSessionToken(response.sessionToken).Ok? ==> r.Ok?
    ensures r.Ok? ==>
      var username := SignInUsername(response.user.name);
      r.value.username == username && r.value.token == convexToken &&
      Some(r.value.sessionToken) == response.sessionToken &&
      (db.profiles, r.value.userId) ==
        ProfilesInternal.Upserted(old(db.profiles), username, Some(response.user.id), None, now)
    ensures r.Err? ==> db.profiles == old(db.profiles)
  {
    var email := SignInEmail(identifier);
    if email.Err? {
      return Err(email.message);
    }
    r := CompleteAuth(db, SignInUsername(response.user.name), None, response, convexToken, now);
  }
}
