/**
 * The shared username rules (shared/username.ts): a username is normalised by
 * trimming and lower-casing, and is valid when it has 3 to 20 characters, all
 * lower-case ASCII letters or digits.
 */
module Username {
  import opened Wrappers
  import opened Text

  const MinLength: nat := 3
  const MaxLength: nat := 20
  const RulesText := "3-20 letters/numbers, case insensitive"
  /** The message `parseUsernameOrThrow` throws when the caller gives none. */
  const DefaultParseError := "Username: " + RulesText

  /** The character class `[a-z0-9]`. */
  predicate InAlphabet(c: char) {
    'a' <= c <= 'z' || '0' <= c <= '9'
  }

  /** `raw.trim().toLowerCase()`; the same normalisation is repeated in
      convex/auth.ts, convex/users.ts and src/data/user_repository.ts. */
  function Normalize(raw: string): (r: string)
    ensures IsTrimmed(r) && HasNoUpper(r)
    ensures |r| <= |raw|
    ensures r == [] <==> IsBlank(raw)
  {
    ToLowerResult(Trim(raw));
    ToLower(Trim(raw))
  }

  /** Normalising twice is normalising once. */
  lemma NormalizeIdempotent(raw: string)
    ensures Normalize(Normalize(raw)) == Normalize(raw)
  {
    var n := Normalize(raw);
    ToLowerResult(n);
  }

  /** Length within [3, 20] and every character matching `[a-z0-9]`. */
  predicate IsValid(v: string) {
    MinLength <= |v| <= MaxLength && forall i :: 0 <= i < |v| ==> InAlphabet(v[i])
  }

  /** A valid username is already normalised. */
  lemma ValidIsNormalized(v: string)
    requires IsValid(v)
    ensures Normalize(v) == v
  {
    ToLowerResult(v);
  }

  /** `parseUsername`: the normalised input when it is valid, otherwise null. */
  function Parse(raw: string): (r: Option<string>)
    ensures r.Some? ==> IsValid(r.value) && r.value == Normalize(raw)
    ensures r.None? <==> !IsValid(Normalize(raw))
  {
    var normalized := Normalize(raw);
    if IsValid(normalized) then Some(normalized) else None
  }

  /** A successful parse is a fixpoint of parsing. */
  lemma ParseFixpoint(raw: string)
    requires Parse(raw).Some?
    ensures Parse(Parse(raw).value) == Parse(raw)
  {
    ValidIsNormalized(Parse(raw).value);
  }

  /** Surrounding whitespace and upper-case letters do not make a valid name invalid. */
  lemma ParseAcceptsPaddedMixedCase(a: string, u: string, b: string)
    requires IsBlank(a) && IsBlank(b)
    requires IsValid(ToLower(u))
    ensures Parse(a + u + b) == Some(ToLower(u))
  {
    assert !IsWhitespace(ToLower(u)[0]) && !IsWhitespace(ToLower(u)[|u| - 1]);
    TrimSurrounded(a, u, b);
  }

  /** The concrete case " Alice " gives "alice". */
  lemma ParsePaddedAlice()
    ensures Parse(" Alice ") == Some("alice")
  {
    assert " Alice " == " " + "Alice" + " ";
    assert ToLower("Alice") == "alice";
    ParseAcceptsPaddedMixedCase(" ", "Alice", " ");
  }

  /** `parseUsernameOrThrow`; `errorMessage` is `None` when the caller omits it. */
  function ParseOrThrow(raw: string, errorMessage: Option<string>): (r: Result<string>)
    ensures r.Ok? <==> Parse(raw).Some?
    ensures r.Ok? ==> r.value == Normalize(raw) && IsValid(r.value)
    ensures r.Err? ==> r.message == errorMessage.GetOr(DefaultParseError)
  {
    var parsed := Parse(raw);
    if parsed.None? then Err(errorMessage.GetOr(DefaultParseError)) else Ok(parsed.value)
  }
}
