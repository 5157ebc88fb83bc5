/**
 * The searchable user directory of src/ui/components/views/users_list_view.ts:
 * a case-insensitive substring search over usernames and emails, and the
 * text of each visible line.
 */
module UsersListView {
  import opened Wrappers
  import opened Text

  /** `UserListItem` */
  datatype UserListItem = UserListItem(username: string, email: Option<string>)

  /** The search key: the query trimmed and lowercased. */
  function SearchKey(searchQuery: string): (q: string)
    ensures q == [] <==> IsBlank(searchQuery)
  {
    ToLower(Trim(searchQuery))
  }

  /** The lowercased username or email contains `q`. */
  predicate Matches(user: UserListItem, q: string) {
    Contains(ToLower(user.username), q)
    || (user.email.Some? && Contains(ToLower(user.email.value), q))
  }

  /** `a` is `b` with some elements left out, the rest in their order. */
  predicate IsSubsequence<T(==)>(a: seq<T>, b: seq<T>)
    decreases |b|
  {
    a == [] || (b != [] && ((a[0] == b[0] && IsSubsequence(a[1..], b[1..])) || IsSubsequence(a, b[1..])))
  }

  /** `users.filter(...)`: the matching users, in order. */
  function FilterMatching(users: seq<UserListItem>, q: string): (r: seq<UserListItem>)
    ensures IsSubsequence(r, users)
    ensures forall u :: u in r <==> u in users && Matches(u, q)
  {
    if users == [] then []
    else
      var rest := FilterMatching(users[1..], q);
      if Matches(users[0], q) then [users[0]] + rest else rest
  }

  /** The users `renderList` shows: everyone for a blank query, else the matches. */
  function Filtered(users: seq<UserListItem>, searchQuery: string): seq<UserListItem> {
    var q := SearchKey(searchQuery);
    if q != [] then FilterMatching(users, q) else users
  }

  /** Every user matches the empty key, so the blank-query shortcut agrees
      with filtering. */
  lemma {:induction false} EmptyKeyMatchesAll(users: seq<UserListItem>)
    ensures FilterMatching(users, []) == users
  {
    if users != [] {
      assert Contains(ToLower(users[0].username), []) by {
        assert StartsWith(ToLower(users[0].username), []);
      }
      EmptyKeyMatchesAll(users[1..]);
      assert [users[0]] + users[1..] == users;
    }
  }

  /** A user is shown exactly when the query is blank or the user matches it,
      and the shown users keep the list's order. */
  lemma FilteredIsSearch(users: seq<UserListItem>, searchQuery: string)
    ensures IsSubsequence(Filtered(users, searchQuery), users)
    ensures forall u :: u in Filtered(users, searchQuery) <==> u in users && Matches(u, SearchKey(searchQuery))
  {
    if SearchKey(searchQuery) == [] {
      EmptyKeyMatchesAll(users);
    }
  }

  datatype Line = Line(id: string, content: string)

  /** The list: one placeholder text, or one line per shown user. */
  datatype ListContent = Empty(text: string) | Lines(lines: seq<Line>)

  const LineIdPrefix := "user-"
  const NoMatchText := "No users match your search"
  const NoUsersText := "No users yet"

  /** A line reads "username (email)" when the user has a non-empty email,
      and just the username otherwise. */
  function LineContent(user: UserListItem): (r: string)
    ensures user.email.None? || user.email.value == [] ==> r == user.username
    ensures user.email.Some? && user.email.value != [] ==>
      |r| == |user.username| + |user.email.value| + 3 &&
      r[..|user.username|] == user.username && r[|user.username|..|user.username| + 2] == " (" &&
      r[|user.username| + 2..|r| - 1] == user.email.value && r[|r| - 1] == ')'
  {
    if user.email.Some? && user.email.value != "" then user.username + " (" + user.email.value + ")"
    else user.username
  }

  function LineFor(user: UserListItem, index: nat): Line {
    Line(LineIdPrefix + NatToString(index), LineContent(user))
  }

  function LinesFor(shown: seq<UserListItem>): (r: seq<Line>)
    ensures |r| == |shown|
    ensures forall i :: 0 <= i < |r| ==> r[i] == LineFor(shown[i], i)
  {
    seq(|shown|, i requires 0 <= i < |shown| => LineFor(shown[i], i))
  }

  /** What `renderList` shows. */
  function ListContentFor(users: seq<UserListItem>, searchQuery: string): ListContent {
    var shown := Filtered(users, searchQuery);
    if shown == [] then Empty(if SearchKey(searchQuery) != [] then NoMatchText else NoUsersText)
    else Lines(LinesFor(shown))
  }

  /** The placeholder appears exactly when nobody is shown, and says whether
      a search is active; otherwise there is one line per shown user. */
  lemma ListContentShape(users: seq<UserListItem>, searchQuery: string)
    ensures var r := ListContentFor(users, searchQuery);
      && (r.Empty? <==> Filtered(users, searchQuery) == [])
      && (r.Empty? ==> (r.text == NoMatchText <==> !IsBlank(searchQuery)))
      && (r.Lines? ==> |r.lines| == |Filtered(users, searchQuery)|)
  {
  }

  /** A blank query shows every user, or "No users yet" when there are none. */
  lemma BlankQueryShowsEveryone(users: seq<UserListItem>, searchQuery: string)
    requires IsBlank(searchQuery)
    ensures ListContentFor(users, searchQuery) == if users == [] then Empty(NoUsersText) else Lines(LinesFor(users))
  {
  }

  /** The `filtered.forEach` of `renderList`: one line per shown user, in order. */
  method RenderLines(shown: seq<UserListItem>) returns (lines: seq<Line>)
    ensures lines == LinesFor(shown)
  {
    lines := [];
    var i := 0;
    while i < |shown|
      invariant i <= |shown|
      invariant lines == LinesFor(shown[..i])
    {
      lines := lines + [LineFor(shown[i], i)];
      i := i + 1;
    }
    assert shown[..i] == shown;
  }

  /** `renderList`: the filter, then the placeholder or the lines. */
  method RenderList(users: seq<UserListItem>, searchQuery: string) returns (content: ListContent)
    ensures content == ListContentFor(users, searchQuery)
  {
    var shown := Filtered(users, searchQuery);
    if |shown| == 0 {
      content := Empty(if SearchKey(searchQuery) != [] then NoMatchText else NoUsersText);
    } else {
      var lines := RenderLines(shown);
      content := Lines(lines);
    }
  }

  class UsersListView {
    var users: seq<UserListItem>
    var searchQuery: string
    var content: ListContent

    ghost predicate Valid()
      reads this
    {
      content == ListContentFor(users, searchQuery)
    }

    /** `createUsersListView`: the initial users (none by default), no search. */
    constructor(initialUsers: Option<seq<UserListItem>>)
      ensures Valid()
      ensures users == initialUsers.GetOr([]) && searchQuery == ""
    {
      var initial := initialUsers.GetOr([]);
      var initialContent := RenderList(initial, "");
      users, searchQuery, content := initial, "", initialContent;
    }

    /** `setUsers` */
    method SetUsers(nextUsers: seq<UserListItem>)
      modifies this
      ensures Valid()
      ensures users == nextUsers && searchQuery == old(searchQuery)
    {
      users := nextUsers;
      content := RenderList(users, searchQuery);
    }

    /** `setSearch`, and the search input's change handler. */
    method SetSearch(query: string)
      modifies this
      ensures Valid()
      ensures searchQuery == query && users == old(users)
    {
      searchQuery := query;
      content := RenderList(users, searchQuery);
    }
  }
}
