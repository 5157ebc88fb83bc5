/**
 * The client-side `upsertByUsername` (src/data/user_repository.ts): it
 * normalises and checks the name itself before calling the server mutation of
 * convex/users.ts, and forwards only the normalised name. Its pattern and
 * message are the server's (`^[a-z0-9_]{3,20}$`), so the check is
 * `Users.RequireValidUsername`.
 */
module UserRepository {
  import opened Wrappers
  import opened Schema
  import Username
  import Users
  import ProfilesInternal

  /** The name the client forwards is accepted unchanged by the server's own check. */
  lemma ForwardedNameAccepted(rawUsername: string)
    requires Users.RequireValidUsername(rawUsername).Ok?
    ensures var forwarded := Users.RequireValidUsername(rawUsername).value;
            forwarded == Username.Normalize(rawUsername) &&
            Users.RequireValidUsername(forwarded) == Ok(forwarded)
  {
    Users.ValidIsNormalized(Users.RequireValidUsername(rawUsername).value);
  }

  /** An invalid name throws without reaching the server; a valid one is
      forwarded in normalised form and the server's upsert takes effect. */
  method UpsertByUsername(db: Db, rawUsername: string, now: int) returns (r: Result<Users.UpsertResult>)
    requires db.Valid()
    modifies db
    ensures db.Valid() && db.messages == old(db.messages)
    ensures r.Err? <==> !Users.IsValid(Username.Normalize(rawUsername))
    ensures r.Err? ==> r.message == Users.UsernameError && db.profiles == old(db.profiles)
    ensures r.Ok? ==>
      var username := Username.Normalize(rawUsername);
      r.value.username == username &&
      (db.profiles, r.value.userId) == ProfilesInternal.Upserted(old(db.profiles), username, None, None, now)
  {
    var checked := Users.RequireValidUsername(rawUsername);
    if checked.Err? {
      return Err(checked.message);
    }
    ForwardedNameAccepted(rawUsername);
    r := Users.UpsertByUsername(db, checked.value, now);
  }
}
