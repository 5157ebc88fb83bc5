/**
 * The client's token state (src/data/session.ts): two in-memory tokens,
 * initialised from a session file that holds either a JSON object or, in the
 * older format, a bare token. File access and `JSON.parse` are outside the
 * model: the read is a `FileRead` value and the parser a function parameter.
 */
module Session {
  import opened Wrappers
  import opened Text

  /** `{ convexToken, sessionToken }`, `null` being `None`. */
  datatype SessionState = SessionState(convexToken: Option<string>, sessionToken: Option<string>)

  const NoSession := SessionState(None, None)

  /** The outcome of reading the session file. */
  datatype FileRead = ReadFailed | Content(text: string)

  /** A JSON value, as far as the reader distinguishes it. */
  datatype JsonValue = JString(s: string) | JNull | JOther

  /** The outcome of `JSON.parse`: a thrown error, or an object's fields. */
  datatype JsonParse = ParseFailed | JsonObject(fields: map<string, JsonValue>)

  /** `typeof parsed[name] === "string" ? parsed[name] : null` */
  function StringField(fields: map<string, JsonValue>, name: string): (r: Option<string>)
    ensures r.Some? <==> name in fields && fields[name].JString?
    ensures r.Some? ==> fields[name] == JString(r.value)
  {
    if name in fields && fields[name].JString? then Some(fields[name].s) else None
  }

  /** `readPersistedSession`: a failed read, an empty file or unparsable
      JSON gives no tokens; text not starting with "{" is a legacy bare token;
      otherwise each field is taken when it is a string. */
  function ReadPersistedSession(file: FileRead, parseJson: string -> JsonParse): (r: SessionState)
    ensures file.ReadFailed? ==> r == NoSession
    ensures file.Content? && IsBlank(file.text) ==> r == NoSession
    ensures file.Content? && !IsBlank(file.text) && !StartsWith(Trim(file.text), "{") ==>
      r == SessionState(Some(Trim(file.text)), None)
    ensures file.Content? && StartsWith(Trim(file.text), "{") ==>
      match parseJson(Trim(file.text))
      case ParseFailed => r == NoSession
      case JsonObject(fields) =>
        r == SessionState(StringField(fields, "convexToken"), StringField(fields, "sessionToken"))
  {
    match file
    case ReadFailed => NoSession
    case Content(text) =>
      var raw := Trim(text);
      if raw == [] then NoSession
      else if !StartsWith(raw, "{") then SessionState(Some(raw), None)
      else
        match parseJson(raw)
        case ParseFailed => NoSession
        case JsonObject(fields) =>
          SessionState(StringField(fields, "convexToken"), StringField(fields, "sessionToken"))
  }

  function ToJsonValue(token: Option<string>): JsonValue {
    if token.Some? then JString(token.value) else JNull
  }

  /** The fields `persistSession` writes with `JSON.stringify`. */
  function ToJson(state: SessionState): map<string, JsonValue> {
    map["convexToken" := ToJsonValue(state.convexToken), "sessionToken" := ToJsonValue(state.sessionToken)]
  }

  /** What `persistSession` writes is read back as the same state, provided
      the parser reads the written object back. */
  lemma PersistThenReadRoundTrip(state: SessionState, written: string, parseJson: string -> JsonParse)
    requires StartsWith(Trim(written), "{")
    requires parseJson(Trim(written)) == JsonObject(ToJson(state))
    ensures ReadPersistedSession(Content(written), parseJson) == state
  {
    var fields := ToJson(state);
    assert StringField(fields, "convexToken") == state.convexToken;
    assert StringField(fields, "sessionToken") == state.sessionToken;
  }

  /** The last thing done to the session file (write failures are ignored by the source). */
  datatype FileWrite = Untouched | Written(state: SessionState) | Removed

  /** The module-level `authToken` / `authSessionToken` pair. */
  class TokenStore {
    var authToken: Option<string>
    var authSessionToken: Option<string>
    var file: FileWrite

    /** What was last written to the session file is what the tokens hold;
        a removed file means both are gone. */
    ghost predicate Valid()
      reads this
    {
      match file
      case Untouched => true
      case Written(state) => state == SessionState(authToken, authSessionToken)
      case Removed => authToken.None? && authSessionToken.None?
    }

    /** Module initialisation: both tokens come from the persisted file. */
    constructor (persisted: FileRead, parseJson: string -> JsonParse)
      ensures Valid()
      ensures SessionState(authToken, authSessionToken) == ReadPersistedSession(persisted, parseJson)
      ensures file == Untouched
    {
      var state := ReadPersistedSession(persisted, parseJson);
      authToken := state.convexToken;
      authSessionToken := state.sessionToken;
      file := Untouched;
    }

    /** `getAuthToken`: the token last written to the session file, none once it is removed. */
    function GetAuthToken(): (r: Option<string>)
      reads this
      requires Valid()
      ensures file.Written? ==> r == file.state.convexToken
      ensures file.Removed? ==> r.None?
    {
      authToken
    }

    /** `getSessionToken`: the session token last written to the file, none once it is removed. */
    function GetSessionToken(): (r: Option<string>)
      reads this
      requires Valid()
      ensures file.Written? ==> r == file.state.sessionToken
      ensures file.Removed? ==> r.None?
    {
      authSessionToken
    }

    /** `setAuthToken(token, sessionToken)`: the auth token is always replaced;
        the session token only by a non-null one (`sessionToken ?? current`).
        The new pair is persisted. */
    method SetAuthToken(token: string, sessionToken: Option<string>)
      requires Valid()
      modifies this
      ensures Valid()
      ensures GetAuthToken() == Some(token)
      ensures GetSessionToken() == if sessionToken.Some? then sessionToken else old(GetSessionToken())
      ensures old(GetSessionToken()).Some? ==> GetSessionToken().Some?
      ensures file == Written(SessionState(GetAuthToken(), GetSessionToken()))
    {
      authToken := Some(token);
      authSessionToken := if sessionToken.Some? then sessionToken else authSessionToken;
      file := Written(SessionState(authToken, authSessionToken));
    }

    /** `clearAuthToken`: both tokens are dropped and the file removed. */
    method ClearAuthToken()
      modifies this
      ensures Valid()
      ensures GetAuthToken().None? && GetSessionToken().None?
      ensures file == Removed
    {
      authToken := None;
      authSessionToken := None;
      file := Removed;
    }
  }
}
