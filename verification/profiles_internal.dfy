/**
 * `upsertProfileInternal` (convex/profiles_internal.ts): find the profile by
 * username and patch it, or insert a new one. The username is stored as given,
 * without validation; the clock reading `Date.now()` is the parameter `now`.
 */
module ProfilesInternal {
  import opened Wrappers
  import opened Schema

  /** The patch applied to an existing row: `updatedAt` is refreshed, the auth
      user id is replaced only by a supplied one, the email only when supplied. */
  function Patched(existing: Profile, authUserId: Option<string>, email: Option<string>, now: int): (p: Profile)
    ensures p.username == existing.username && p.createdAt == existing.createdAt
    ensures p.updatedAt == now
    ensures existing.authUserId.Some? ==> p.authUserId.Some?
    ensures p.authUserId == if authUserId.Some? then authUserId else existing.authUserId
    ensures p.email == if email.Some? then email else existing.email
  {
    existing.(updatedAt := now,
              authUserId := if authUserId.Some? then authUserId else existing.authUserId,
              email := if email.Some? then email else existing.email)
  }

  /** The table and returned id after one upsert. */
  function Upserted(profiles: seq<Profile>, username: string, authUserId: Option<string>,
                    email: Option<string>, now: int): (r: (seq<Profile>, nat))
    requires UniqueUsernames(profiles)
    ensures UniqueUsernames(r.0)
    ensures r.1 < |r.0| && r.0[r.1].username == username && r.0[r.1].updatedAt == now
    // a patch leaves the row count alone and touches only the matching row
    ensures FindUsername(profiles, username).Some? ==>
      r.1 == FindUsername(profiles, username).value && |r.0| == |profiles| &&
      r.0[r.1] == Patched(profiles[r.1], authUserId, email, now) &&
      forall i :: 0 <= i < |profiles| && i != r.1 ==> r.0[i] == profiles[i]
    // an insert appends exactly one row
    ensures FindUsername(profiles, username).None? ==>
      r.1 == |profiles| && r.0 == profiles + [Profile(username, authUserId, email, now, now)]
  {
    match FindUsername(profiles, username)
    case Some(id) => (profiles[id := Patched(profiles[id], authUserId, email, now)], id)
    case None => (profiles + [Profile(username, authUserId, email, now, now)], |profiles|)
  }

  /** Upserting the same username again returns the same id and adds no row. */
  lemma UpsertedIdempotent(profiles: seq<Profile>, username: string,
                           a1: Option<string>, e1: Option<string>, t1: int,
                           a2: Option<string>, e2: Option<string>, t2: int)
    requires UniqueUsernames(profiles)
    ensures var (p1, id1) := Upserted(profiles, username, a1, e1, t1);
            var (p2, id2) := Upserted(p1, username, a2, e2, t2);
            id2 == id1 && |p2| == |p1| &&
            forall i :: 0 <= i < |p2| && p2[i].username == username ==> i == id1
  {
    var (p1, id1) := Upserted(profiles, username, a1, e1, t1);
    assert FindUsername(p1, username) == Some(id1);
  }

  /** Once a profile carries an auth user id, no upsert clears it. */
  lemma AuthUserIdSticky(profiles: seq<Profile>, username: string, authUserId: Option<string>,
                         email: Option<string>, now: int, k: nat)
    requires UniqueUsernames(profiles)
    requires k < |profiles| && profiles[k].authUserId.Some?
    ensures var (p, _) := Upserted(profiles, username, authUserId, email, now);
            k < |p| && p[k].authUserId.Some?
  {
  }

  method UpsertProfileInternal(db: Db, username: string, authUserId: Option<string>,
                               email: Option<string>, now: int) returns (id: nat)
    requires db.Valid()
    modifies db
    ensures db.Valid() && db.messages == old(db.messages)
    ensures (db.profiles, id) == Upserted(old(db.profiles), username, authUserId, email, now)
  {
    var existing := FindUsername(db.profiles, username);
    if existing.Some? {
      id := existing.value;
      db.profiles := db.profiles[id := Patched(db.profiles[id], authUserId, email, now)];
    } else {
      id := |db.profiles|;
      db.profiles := db.profiles + [Profile(username, authUserId, email, now, now)];
    }
  }
}
