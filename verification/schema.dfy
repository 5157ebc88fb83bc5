/**
 * The two tables of the data store (convex/schema.ts) and the index lookups
 * the handlers perform on them. A table is a sequence whose positions are the
 * row ids, so ids grow with insertion and "table order" is index order.
 */
module Schema {
  import opened Wrappers

  /** A row of `profiles`. `email` is not declared by the schema but is
      written by convex/profiles_internal.ts and read by convex/auth.ts. */
  datatype Profile = Profile(
    username: string,
    authUserId: Option<string>,
    email: Option<string>,
    createdAt: int,
    updatedAt: int)

  /** A row of `messages`; `profileId` is the id of the sender's profile. */
  datatype Message = Message(profileId: nat, body: string, createdAt: int)

  /** At most one profile per username (the `by_username` index is used as a unique key). */
  predicate UniqueUsernames(profiles: seq<Profile>) {
    forall i, j :: 0 <= i < j < |profiles| ==> profiles[i].username != profiles[j].username
  }

  /** The first row at or after `from` that satisfies `matches`. */
  function FindFrom(profiles: seq<Profile>, matches: Profile -> bool, from: nat): (r: Option<nat>)
    requires from <= |profiles|
    ensures r.Some? ==> from <= r.value < |profiles| && matches(profiles[r.value])
    ensures r.Some? ==> forall i :: from <= i < r.value ==> !matches(profiles[i])
    ensures r.None? ==> forall i :: from <= i < |profiles| ==> !matches(profiles[i])
    decreases |profiles| - from
  {
    if from == |profiles| then None
    else if matches(profiles[from]) then Some(from)
    else FindFrom(profiles, matches, from + 1)
  }

  /** The `by_username` lookup. */
  function FindUsername(profiles: seq<Profile>, username: string): (r: Option<nat>)
    ensures r.Some? ==> r.value < |profiles| && profiles[r.value].username == username
    ensures r.None? <==> forall i :: 0 <= i < |profiles| ==> profiles[i].username != username
  {
    FindFrom(profiles, (p: Profile) => p.username == username, 0)
  }

  predicate HasAuthUser(p: Profile, subject: string) {
    p.authUserId == Some(subject)
  }

  /** The error Convex's `.unique()` raises when more than one row matches. */
  const NotUnique := "unique() query returned more than one document"

  /** The `by_auth_user_id` lookup followed by `.unique()`: no row, the one
      row, or an error when two rows carry the same auth user id. */
  function UniqueByAuthUser(profiles: seq<Profile>, subject: string): (r: Result<Option<nat>>)
    ensures r == Ok(None) <==> forall i :: 0 <= i < |profiles| ==> profiles[i].authUserId != Some(subject)
    ensures r.Ok? && r.value.Some? ==>
      var k := r.value.value;
      k < |profiles| && profiles[k].authUserId == Some(subject) &&
      forall i :: 0 <= i < |profiles| && i != k ==> profiles[i].authUserId != Some(subject)
    ensures r.Err? <==> exists i, j :: 0 <= i < j < |profiles| && HasAuthUser(profiles[i], subject) && HasAuthUser(profiles[j], subject)
    ensures r.Err? ==> r.message == NotUnique
  {
    var matches := (p: Profile) => p.authUserId == Some(subject);
    var first := FindFrom(profiles, matches, 0);
    if first.None? then Ok(None)
    else
      var second := FindFrom(profiles, matches, first.value + 1);
      if second.Some? then Err(NotUnique) else Ok(Some(first.value))
  }

  /** The data store: both tables, updated in place by the mutations. */
  class Db {
    var profiles: seq<Profile>
    var messages: seq<Message>

    ghost predicate Valid()
      reads this
    {
      UniqueUsernames(profiles)
    }

    constructor ()
      ensures Valid() && profiles == [] && messages == []
    {
      profiles := [];
      messages := [];
    }
  }
}
