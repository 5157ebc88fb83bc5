/**
 * The message log of convex/messages.ts: `sendMessage` appends one message
 * for the caller's profile, `listRecent` reads the newest messages joined
 * with their senders' usernames. Identity is the optional subject of the
 * caller; `Date.now()` is the parameter `now`.
 */
module Messages {
  import opened Wrappers
  import opened Text
  import opened Schema
  import opened Sorting

  const Unauthorized := "Unauthorized"
  const ProfileNotFound := "Profile not found for current user"
  const DefaultLimit := 30
  const MaxLimit := 100
  /** The name shown for a message whose sender profile is gone. */
  const UnknownSender := "unknown"

  datatype Sent = Sent(messageId: nat, createdAt: int)

  /** `sendMessage`: refused without an identity or without the caller's
      profile (nothing is written); otherwise exactly one message is appended,
      its body trimmed (a blank body is stored as ""), stamped `now`. */
  method SendMessage(db: Db, identitySubject: Option<string>, body: string, now: int) returns (r: Result<Sent>)
    modifies db
    ensures db.profiles == old(db.profiles)
    ensures identitySubject.None? ==> r == Err(Unauthorized)
    ensures identitySubject.Some? && UniqueByAuthUser(db.profiles, identitySubject.value) == Ok(None) ==>
      r == Err(ProfileNotFound)
    ensures identitySubject.Some? && UniqueByAuthUser(db.profiles, identitySubject.value).Err? ==>
      r == Err(NotUnique)
    ensures r.Err? ==> db.messages == old(db.messages)
    ensures identitySubject.Some? ==>
      var found := UniqueByAuthUser(db.profiles, identitySubject.value);
      found.Ok? && found.value.Some? ==> r.Ok?
    ensures r.Ok? ==>
      identitySubject.Some? &&
      var found := UniqueByAuthUser(db.profiles, identitySubject.value);
      found.Ok? && found.value.Some? &&
      r.value == Sent(|old(db.messages)|, now) &&
      db.messages == old(db.messages) + [Message(found.value.value, Trim(body), now)]
  {
    if identitySubject.None? {
      return Err(Unauthorized);
    }
    var profile := UniqueByAuthUser(db.profiles, identitySubject.value);
    if profile.Err? {
      return Err(profile.message);
    }
    if profile.value.None? {
      return Err(ProfileNotFound);
    }
    var messageId := |db.messages|;
    db.messages := db.messages + [Message(profile.value.value, Trim(body), now)];
    return Ok(Sent(messageId, now));
  }

  /** `Math.min(Math.max(limit ?? 30, 1), 100)` */
  function EffectiveLimit(limit: Option<int>): (n: nat)
    ensures 1 <= n <= MaxLimit
    ensures limit.None? ==> n == DefaultLimit
    ensures limit.Some? && 1 <= limit.value <= MaxLimit ==> n == limit.value
    ensures limit.Some? && limit.value < 1 ==> n == 1
    ensures limit.Some? && limit.value > MaxLimit ==> n == MaxLimit
  {
    var requested := limit.GetOr(DefaultLimit);
    var atLeastOne := if requested < 1 then 1 else requested;
    if atLeastOne > MaxLimit then MaxLimit else atLeastOne
  }

  /** A message together with its id. */
  datatype Stored = Stored(id: nat, message: Message)

  function CreatedAt(s: Stored): int { s.message.createdAt }

  /** The `messages` table as (id, row) pairs in id order. */
  function WithIds(messages: seq<Message>): (r: seq<Stored>)
    ensures |r| == |messages|
    ensures forall i :: 0 <= i < |r| ==> r[i] == Stored(i, messages[i])
  {
    seq(|messages|, i requires 0 <= i < |messages| => Stored(i, messages[i]))
  }

  /** The `by_created_at` index read in descending order: newest first
      (the order among equal timestamps is not stated). */
  function NewestFirst(messages: seq<Message>): (r: seq<Stored>)
    ensures SortedDescendingBy(r, CreatedAt)
    ensures multiset(r) == multiset(WithIds(messages))
    ensures |r| == |messages|
  {
    var ascending := SortBy(WithIds(messages), CreatedAt);
    ReverseOfSorted(ascending, CreatedAt);
    ReverseSameElements(ascending);
    Reverse(ascending)
  }

  /** One entry of `listRecent`: the message's fields plus its sender's name. */
  datatype RecentMessage = RecentMessage(id: nat, profileId: nat, body: string, createdAt: int, username: string)

  /** The sender's username, or "unknown" when the profile does not exist. */
  function SenderName(profiles: seq<Profile>, profileId: nat): string {
    if profileId < |profiles| then profiles[profileId].username else UnknownSender
  }

  function Joined(profiles: seq<Profile>, s: Stored): RecentMessage {
    RecentMessage(s.id, s.message.profileId, s.message.body, s.message.createdAt,
                  SenderName(profiles, s.message.profileId))
  }

  /** A rearrangement of the stored messages holds each message under its own id, and no id twice. */
  lemma RearrangedEntries(messages: seq<Message>, r: seq<Stored>)
    requires multiset(r) == multiset(WithIds(messages))
    ensures forall i :: 0 <= i < |r| ==> r[i].id < |messages| && r[i] == Stored(r[i].id, messages[r[i].id])
    ensures forall i, j :: 0 <= i < j < |r| ==> r[i].id != r[j].id
  {
    var w := WithIds(messages);
    forall i | 0 <= i < |r| ensures r[i].id < |messages| && r[i] == Stored(r[i].id, messages[r[i].id]) {
      var x := r[i];
      assert x in multiset(r);
      assert x in multiset(w);
      var t :| 0 <= t < |w| && w[t] == x;
    }
    forall i, j | 0 <= i < j < |r| ensures r[i].id != r[j].id {
      if r[i].id == r[j].id {
        var x := r[i];
        assert r == r[..i] + [x] + r[i + 1..j] + [x] + r[j + 1..];
        assert multiset(r)[x] >= 2;
        AtMostOnce(w, x);
        assert false;
      }
    }
  }

  /** In a sequence without repeats every element occurs at most once. */
  lemma {:induction false} AtMostOnce<T>(s: seq<T>, x: T)
    requires forall i, j :: 0 <= i < j < |s| ==> s[i] != s[j]
    ensures multiset(s)[x] <= 1
  {
    if s != [] {
      AtMostOnce(s[1..], x);
      assert s == [s[0]] + s[1..];
      assert s[0] !in s[1..];
    }
  }

  /** The first `n` entries of a newest-first listing, joined with their senders. */
  function Page(profiles: seq<Profile>, newest: seq<Stored>, n: nat): (r: seq<RecentMessage>)
    ensures |r| == if |newest| < n then |newest| else n
    ensures forall i :: 0 <= i < |r| ==> r[i] == Joined(profiles, newest[i])
  {
    var count := if |newest| < n then |newest| else n;
    seq(count, i requires 0 <= i < count => Joined(profiles, newest[i]))
  }

  /** `listRecent` over a snapshot of both tables: the newest messages, at most
      the effective limit of them, newest first, each with its sender's name. */
  function ListRecent(profiles: seq<Profile>, messages: seq<Message>, limit: Option<int>): (r: seq<RecentMessage>)
    ensures |r| == if |messages| < EffectiveLimit(limit) then |messages| else EffectiveLimit(limit)
    ensures forall i, j :: 0 <= i < j < |r| ==> r[i].createdAt >= r[j].createdAt
    ensures forall i :: 0 <= i < |r| ==> r[i].id < |messages| && r[i] == Joined(profiles, Stored(r[i].id, messages[r[i].id]))
  {
    var newest := NewestFirst(messages);
    RearrangedEntries(messages, newest);
    PageKeepsOrder(profiles, newest, EffectiveLimit(limit));
    Page(profiles, newest, EffectiveLimit(limit))
  }

  /** A page of a newest-first listing is newest first. */
  lemma PageKeepsOrder(profiles: seq<Profile>, newest: seq<Stored>, n: nat)
    requires Sorting.SortedDescendingBy(newest, CreatedAt)
    ensures var r := Page(profiles, newest, n);
      forall i, j :: 0 <= i < j < |r| ==> r[i].createdAt >= r[j].createdAt
  {
    var r := Page(profiles, newest, n);
    forall i, j | 0 <= i < j < |r| ensures r[i].createdAt >= r[j].createdAt {
      assert CreatedAt(newest[i]) >= CreatedAt(newest[j]);
    }
  }

  /** No message id appears twice in a page. */
  lemma ListRecentDistinct(profiles: seq<Profile>, messages: seq<Message>, limit: Option<int>)
    ensures var r := ListRecent(profiles, messages, limit);
            forall i, j :: 0 <= i < j < |r| ==> r[i].id != r[j].id
  {
    RearrangedEntries(messages, NewestFirst(messages));
  }

  /** The page holds the most recent messages: every message left out is no newer than any message in the page. */
  lemma ListRecentIsMostRecent(profiles: seq<Profile>, messages: seq<Message>, limit: Option<int>, k: nat)
    requires k < |messages|
    requires forall i :: 0 <= i < |ListRecent(profiles, messages, limit)| ==> ListRecent(profiles, messages, limit)[i].id != k
    ensures forall i :: 0 <= i < |ListRecent(profiles, messages, limit)| ==>
              messages[k].createdAt <= ListRecent(profiles, messages, limit)[i].createdAt
  {
    var r := ListRecent(profiles, messages, limit);
    var newest := NewestFirst(messages);
    RearrangedEntries(messages, newest);
    var w := WithIds(messages);
    assert w[k] == Stored(k, messages[k]);
    assert Stored(k, messages[k]) in multiset(w);
    assert Stored(k, messages[k]) in multiset(newest);
    var p :| 0 <= p < |newest| && newest[p] == Stored(k, messages[k]);
    assert p >= |r|;
  }
}
