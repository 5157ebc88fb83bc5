/**
 * The profile mutation and queries of convex/users.ts. This file validates
 * usernames against `^[a-z0-9_]{3,20}$`, a wider alphabet than the shared rules.
 */
module Users {
  import opened Wrappers
  import opened Text
  import opened Schema
  import Username
  import ProfilesInternal

  const UsernameError := "Username must be 3-20 characters: [a-z0-9_]"

  /** The character class `[a-z0-9_]`. */
  predicate InAlphabet(c: char) {
    'a' <= c <= 'z' || '0' <= c <= '9' || c == '_'
  }

  /** `^[a-z0-9_]{3,20}$` */
  predicate IsValid(v: string) {
    3 <= |v| <= 20 && forall i :: 0 <= i < |v| ==> InAlphabet(v[i])
  }

  /** Every name the shared rules accept is accepted here ... */
  lemma SharedRulesImplyUnderscoreRules(v: string)
    requires Username.IsValid(v)
    ensures IsValid(v)
  {
  }

  /** ... but not the other way round. */
  lemma UnderscoreOnlyHere()
    ensures IsValid("a_b") && !Username.IsValid("a_b")
  {
    assert !Username.InAlphabet("a_b"[1]);
  }

  /** A name valid here is already normalised. */
  lemma ValidIsNormalized(v: string)
    requires IsValid(v)
    ensures Username.Normalize(v) == v
  {
    assert InAlphabet(v[0]) && InAlphabet(v[|v| - 1]);
    assert IsTrimmed(v);
    assert Trim(v) == v;
    assert HasNoUpper(v);
    ToLowerResult(v);
  }

  /** `requireValidUsername`: the normalised name, or the error. */
  function RequireValidUsername(raw: string): (r: Result<string>)
    ensures r.Ok? <==> IsValid(Username.Normalize(raw))
    ensures r.Ok? ==> r.value == Username.Normalize(raw)
    ensures r.Err? ==> r.message == UsernameError
  {
    var username := Username.Normalize(raw);
    if !IsValid(username) then Err(UsernameError) else Ok(username)
  }

  datatype UpsertResult = UpsertResult(userId: nat, username: string)

  /** `upsertByUsername`: an invalid name is refused before the table is
      read; otherwise the existing row is touched or a new one inserted. The
      new table is the internal upsert's with no auth user id and no email. */
  method UpsertByUsername(db: Db, rawUsername: string, now: int) returns (r: Result<UpsertResult>)
    requires db.Valid()
    modifies db
    ensures db.Valid() && db.messages == old(db.messages)
    ensures r.Err? <==> !IsValid(Username.Normalize(rawUsername))
    ensures r.Err? ==> r.message == UsernameError && db.profiles == old(db.profiles)
    ensures r.Ok? ==>
      var username := Username.Normalize(rawUsername);
      (db.profiles, r.value.userId) == ProfilesInternal.Upserted(old(db.profiles), username, None, None, now) &&
      r.value.username == username
  {
    var checked := RequireValidUsername(rawUsername);
    if checked.Err? {
      return Err(checked.message);
    }
    var id, storedName := TouchOrInsert(db, checked.value, now);
    return Ok(UpsertResult(id, storedName));
  }

  /** The write of `upsertByUsername`: refresh `updatedAt` of the row with
      this username, or insert a new row; returns its id and stored name. */
  method TouchOrInsert(db: Db, username: string, now: int) returns (id: nat, storedName: string)
    requires db.Valid()
    modifies db
    ensures db.Valid() && db.messages == old(db.messages)
    ensures (db.profiles, id) == ProfilesInternal.Upserted(old(db.profiles), username, None, None, now)
    ensures storedName == username
  {
    ghost var expected := ProfilesInternal.Upserted(db.profiles, username, None, None, now);
    var existing := FindUsername(db.profiles, username);
    if existing.Some? {
      id := existing.value;
      var row := db.profiles[id];
      assert row.(updatedAt := now) == ProfilesInternal.Patched(row, None, None, now);
      db.profiles := db.profiles[id := row.(updatedAt := now)];
      storedName := row.username;
    } else {
      id := |db.profiles|;
      db.profiles := db.profiles + [Profile(username, None, None, now, now)];
      storedName := username;
    }
    assert (db.profiles, id) == expected;
  }

  /** An upsert by username touches only `updatedAt` of an existing row and
      keeps every other field, including a linked auth user id and email. */
  lemma UpsertByUsernameTouchesOnlyUpdatedAt(profiles: seq<Profile>, username: string, now: int)
    requires UniqueUsernames(profiles)
    requires FindUsername(profiles, username).Some?
    ensures var (p, id) := ProfilesInternal.Upserted(profiles, username, None, None, now);
            p == profiles[id := profiles[id].(updatedAt := now)]
  {
  }

  /** `getByUsername`: validate, then read the row (the table is not changed). */
  function GetByUsername(profiles: seq<Profile>, rawUsername: string): (r: Result<Option<Profile>>)
    ensures r.Err? <==> !IsValid(Username.Normalize(rawUsername))
    ensures r.Ok? && r.value.Some? ==> r.value.value in profiles && r.value.value.username == Username.Normalize(rawUsername)
    ensures r.Ok? && r.value.None? ==> forall p :: p in profiles ==> p.username != Username.Normalize(rawUsername)
  {
    match RequireValidUsername(rawUsername)
    case Err(e) => Err(e)
    case Ok(username) =>
      var found := FindUsername(profiles, username);
      if found.Some? then Ok(Some(profiles[found.value])) else Ok(None)
  }

  /** `getMyProfile`: null without an identity, otherwise the unique profile
      linked to the identity's subject (an error if two are linked). */
  function GetMyProfile(profiles: seq<Profile>, identitySubject: Option<string>): (r: Result<Option<Profile>>)
    ensures identitySubject.None? ==> r == Ok(None)
    ensures identitySubject.Some? ==>
      (r.Err? <==> exists i, j :: 0 <= i < j < |profiles| &&
                     HasAuthUser(profiles[i], identitySubject.value) && HasAuthUser(profiles[j], identitySubject.value))
    ensures r.Err? ==> r.message == NotUnique
    ensures identitySubject.Some? && r == Ok(None) ==>
      forall i :: 0 <= i < |profiles| ==> profiles[i].authUserId != identitySubject
    ensures r.Ok? && r.value.Some? ==>
      identitySubject.Some? && r.value.value in profiles && r.value.value.authUserId == identitySubject &&
      forall i :: 0 <= i < |profiles| && profiles[i].authUserId == identitySubject ==> profiles[i] == r.value.value
  {
    match identitySubject
    case None => Ok(None)
    case Some(subject) =>
      match UniqueByAuthUser(profiles, subject)
      case Err(e) => Err(e)
      case Ok(found) => if found.Some? then Ok(Some(profiles[found.value])) else Ok(None)
  }

  /** Once an upsert links `subject` to a profile, and no profile under another
      name carried it, `getMyProfile` for that subject returns exactly that profile. */
  lemma {:induction false} GetMyProfileAfterLink(profiles: seq<Profile>, username: string, subject: string,
                                                 email: Option<string>, now: int)
    requires UniqueUsernames(profiles)
    requires forall i :: 0 <= i < |profiles| && profiles[i].username != username ==> !HasAuthUser(profiles[i], subject)
    ensures var (linked, id) := ProfilesInternal.Upserted(profiles, username, Some(subject), email, now);
      GetMyProfile(linked, Some(subject)) == Ok(Some(linked[id]))
  {
    var (linked, id) := ProfilesInternal.Upserted(profiles, username, Some(subject), email, now);
    assert HasAuthUser(linked[id], subject);
    forall i | 0 <= i < |linked| && i != id ensures !HasAuthUser(linked[i], subject) {
      assert i < |profiles| && linked[i] == profiles[i] && profiles[i].username != username;
    }
    var found := UniqueByAuthUser(linked, subject);
    assert found.Ok? && found.value == Some(id);
  }
}
