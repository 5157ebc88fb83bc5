/**
 * The home screen of src/ui/screens/home.ts: a sidebar listing users (with a
 * search box) beside the chat panel (header, message bubbles, composer).
 * Rendering is reduced to the content it produces: the header text, the user
 * rows and the message bubbles are fields kept in step with the state.
 */
module HomeScreen {
  import opened Wrappers
  import opened Text
  import Sorting
  import Chat
  import MessageComposer

  // Spacing tokens: `spacing.xs` and `spacing.sm`.
  const SpacingXs := 1
  const SpacingSm := 2

  /** `computeSidebarWidth`: `scaledWidth` stands for `Math.floor(renderer.width * 0.24)`. */
  function SidebarWidth(scaledWidth: int): (r: int)
    ensures 22 <= r <= 28
    ensures 22 <= scaledWidth <= 28 ==> r == scaledWidth
  {
    MessageComposer.Max(22, MessageComposer.Min(28, scaledWidth))
  }

  /** `getSearchInputWidth` */
  function SearchWidth(sidebarWidth: int): int {
    MessageComposer.Max(12, sidebarWidth - 6)
  }

  /** `getComposerTotalWidth`: the renderer width less the sidebar, the app's
      side padding, the gap between the panels and the chat panel's padding
      and border. */
  function ComposerTotalWidth(width: int, sidebarWidth: int): (r: int)
    ensures r >= MessageComposer.MinTotalWidth
  {
    var appHorizontalPadding := SpacingSm * 2;
    var interPanelGap := SpacingSm;
    var chatPanelHorizontalPadding := SpacingXs * 2;
    var chatPanelBorder := 2;
    MessageComposer.Max(24, width - sidebarWidth - appHorizontalPadding - interPanelGap
      - chatPanelHorizontalPadding - chatPanelBorder)
  }

  /** On any sidebar width the screen produces, the search box fits inside
      the sidebar, and on a supported terminal (at least 80 columns) the
      sidebar, the composer and the 10 columns of chrome fill the width exactly. */
  lemma WidthsFit(width: int, scaledWidth: int)
    ensures var sidebar := SidebarWidth(scaledWidth);
      SearchWidth(sidebar) == sidebar - 6 && 16 <= SearchWidth(sidebar) <= 22
    ensures width >= 80 ==>
      var sidebar := SidebarWidth(scaledWidth);
      sidebar + ComposerTotalWidth(width, sidebar) + 10 == width
  {
  }

  const NoSelectionHeader := " "
  const ChatWithPrefix := "Chat with "

  /** `updateHeader` */
  function Header(selected: Option<string>): (r: string)
    ensures !Chat.HasSelection(selected) <==> r == NoSelectionHeader
    ensures Chat.HasSelection(selected) ==> r == ChatWithPrefix + selected.value
  {
    if Chat.HasSelection(selected) then ChatWithPrefix + selected.value else NoSelectionHeader
  }

  datatype UserRow = UserRow(id: string, username: string, selected: bool)

  /** The sidebar's list: a single placeholder text, or one row per visible user. */
  datatype UserList = Placeholder(text: string) | Rows(rows: seq<UserRow>)

  const UserRowPrefix := "chat-user-"

  function UserRowFor(user: Chat.ChatUser, index: nat, selected: Option<string>): UserRow {
    UserRow(UserRowPrefix + NatToString(index), user.username, selected == Some(user.username))
  }

  function UserRowsFor(visible: seq<Chat.ChatUser>, selected: Option<string>): (r: seq<UserRow>)
    ensures |r| == |visible|
    ensures forall i :: 0 <= i < |r| ==> r[i] == UserRowFor(visible[i], i, selected)
  {
    seq(|visible|, i requires 0 <= i < |visible| => UserRowFor(visible[i], i, selected))
  }

  /** The placeholder of an empty list: whether a search is active decides it. */
  function EmptyListText(searchQuery: string): (r: string)
    ensures r == "No match" <==> !IsBlank(searchQuery)
    ensures r == "No match" || r == "No users found"
  {
    if ToLower(Trim(searchQuery)) != [] then "No match" else "No users found"
  }

  /** `renderUsers`: "No match" when a search finds nobody, "No users found"
      when there is nobody without a search, else one row per visible user
      with the selected one marked. */
  function UserListFor(visible: seq<Chat.ChatUser>, searchQuery: string, selected: Option<string>): (r: UserList)
    ensures r.Placeholder? <==> visible == []
  {
    if visible == [] then Placeholder(EmptyListText(searchQuery))
    else Rows(UserRowsFor(visible, selected))
  }

  lemma UserListForFaithful(visible: seq<Chat.ChatUser>, searchQuery: string, selected: Option<string>)
    ensures var r := UserListFor(visible, searchQuery, selected);
      && (visible == [] <==> r.Placeholder?)
      && (r.Placeholder? ==> (r.text == "No match" <==> !IsBlank(searchQuery)))
      && (r.Rows? ==> |r.rows| == |visible|)
      && (r.Rows? ==> forall i :: 0 <= i < |r.rows| ==> r.rows[i].username == visible[i].username)
      && (r.Rows? ==> forall i :: 0 <= i < |r.rows| ==> (r.rows[i].selected <==> selected == Some(visible[i].username)))
  {
  }

  /** At most one row is marked selected when the visible usernames are distinct. */
  lemma {:induction false} AtMostOneSelectedRow(visible: seq<Chat.ChatUser>, searchQuery: string, selected: Option<string>, i: nat, j: nat)
    requires forall a, b :: 0 <= a < b < |visible| ==> visible[a].username != visible[b].username
    requires visible != [] && i < j < |visible|
    ensures var rows := UserListFor(visible, searchQuery, selected).rows;
      !(rows[i].selected && rows[j].selected)
  {
    UserListForFaithful(visible, searchQuery, selected);
  }

  /** The sidebar is clamped and the search box sized from it. */
  predicate PanelsFit(sidebarWidth: int, searchWidth: int) {
    22 <= sidebarWidth <= 28 && searchWidth == SearchWidth(sidebarWidth)
  }

  /** The chat panel shows the ordered messages under the right header. */
  predicate ChatShown(messages: seq<Chat.ChatMessage>, currentUsername: string, selected: Option<string>,
                      header: string, bubbles: seq<Chat.Bubble>) {
    Sorting.SortedBy(messages, Chat.CreatedAt)
    && header == Header(selected)
    && bubbles == Chat.MessageBubbles(messages, currentUsername)
  }

  /** The sidebar shows the filtered users. */
  predicate UsersShown(visible: seq<Chat.ChatUser>, searchQuery: string, selected: Option<string>, userList: UserList) {
    userList == UserListFor(visible, searchQuery, selected)
  }

  /** What the screen holds apart from what it renders and apart from the
      composer: the search width, the header, the user list and the bubbles
      are derived from it (`HomeScreen.Valid`). */
  datatype ScreenState = ScreenState(
    rendererWidth: int, sidebarWidth: int, currentUsername: string, selected: Option<string>,
    users: seq<Chat.ChatUser>, messages: seq<Chat.ChatMessage>, sending: bool, searchQuery: string)

  class HomeScreen {
    const composer: MessageComposer.Composer
    /** `filterUsersByQuery` of home_utils.ts, which is not part of this model:
        any filter the screen is created with. */
    const filterUsers: (seq<Chat.ChatUser>, string) -> seq<Chat.ChatUser>

    var rendererWidth: int
    var sidebarWidth: int
    var searchWidth: int
    var currentUsername: string
    var selected: Option<string>
    var users: seq<Chat.ChatUser>
    var messages: seq<Chat.ChatMessage>
    var sending: bool
    var searchQuery: string
    var header: string
    var userList: UserList
    var bubbles: seq<Chat.Bubble>

    ghost predicate Valid()
      reads this, composer
    {
      composer.Valid()
      && composer.totalWidth == ComposerTotalWidth(rendererWidth, sidebarWidth)
      && PanelsFit(sidebarWidth, searchWidth)
      && Shown()
    }

    /** The chat panel and the sidebar render the current state. */
    ghost predicate Shown()
      reads this`messages, this`currentUsername, this`selected, this`header, this`bubbles,
        this`users, this`searchQuery, this`userList
    {
      ChatShown(messages, currentUsername, selected, header, bubbles)
      && UsersShown(filterUsers(users, searchQuery), searchQuery, selected, userList)
    }

    ghost function State(): ScreenState
      reads this
    {
      ScreenState(rendererWidth, sidebarWidth, currentUsername, selected, users, messages, sending, searchQuery)
    }

    /** `createHomeScreen`: nobody selected, nothing listed, an empty composer. */
    constructor(width: int, scaledWidth: int, filterUsers: (seq<Chat.ChatUser>, string) -> seq<Chat.ChatUser>)
      ensures Valid() && fresh(composer)
      ensures State() == ScreenState(width, SidebarWidth(scaledWidth), "", None, [], [], false, "")
      ensures header == NoSelectionHeader && bubbles == []
      ensures composer.State() == MessageComposer.ComposerState("", MessageComposer.MinLines, " ", Chat.TextMuted)
    {
      var sidebar := SidebarWidth(scaledWidth);
      this.filterUsers := filterUsers;
      composer := new MessageComposer.Composer(ComposerTotalWidth(width, sidebar));
      rendererWidth := width;
      sidebarWidth := sidebar;
      searchWidth := SearchWidth(sidebar);
      currentUsername := "";
      selected := None;
      users := [];
      messages := [];
      sending := false;
      searchQuery := "";
      header := NoSelectionHeader;
      bubbles := [];
      // The initial `renderUsers`.
      var noUsers: seq<Chat.ChatUser>, noQuery: string := [], [];
      userList := UserListFor(filterUsers(noUsers, noQuery), noQuery, None);
    }

    /** `renderUsers`: rebuilds the sidebar list from the filtered users. */
    method RenderUsers()
      modifies this`userList
      ensures userList == UserListFor(filterUsers(users, searchQuery), searchQuery, selected)
      ensures rendererWidth == old(rendererWidth) && sidebarWidth == old(sidebarWidth) && searchWidth == old(searchWidth)
      ensures currentUsername == old(currentUsername) && selected == old(selected) && users == old(users)
      ensures messages == old(messages) && sending == old(sending) && searchQuery == old(searchQuery)
      ensures header == old(header) && bubbles == old(bubbles)
    {
      var visible := filterUsers(users, searchQuery);
      if |visible| == 0 {
        userList := Placeholder(EmptyListText(searchQuery));
        return;
      }
      var rows: seq<UserRow> := [];
      var index := 0;
      while index < |visible|
        invariant index <= |visible|
        invariant rows == UserRowsFor(visible[..index], selected)
      {
        rows := rows + [UserRowFor(visible[index], index, selected)];
        index := index + 1;
      }
      assert visible[..index] == visible;
      userList := Rows(rows);
    }

    /** `renderMessages` */
    method RenderMessages()
      modifies this`bubbles
      ensures bubbles == Chat.MessageBubbles(messages, currentUsername)
      ensures rendererWidth == old(rendererWidth) && sidebarWidth == old(sidebarWidth) && searchWidth == old(searchWidth)
      ensures currentUsername == old(currentUsername) && selected == old(selected) && users == old(users)
      ensures messages == old(messages) && sending == old(sending) && searchQuery == old(searchQuery)
      ensures header == old(header) && userList == old(userList)
    {
      bubbles := Chat.RenderMessageBubbles(messages, currentUsername);
    }

    /** The `LayoutEvents.RESIZED` handler (`syncResponsiveWidths`);
        `lineCount` is what the composer's text area reports at its new width. */
    method Resize(width: int, scaledWidth: int, lineCount: int)
      requires Valid()
      modifies this`rendererWidth, this`sidebarWidth, this`searchWidth, composer
      ensures Valid()
      ensures rendererWidth == width && sidebarWidth == SidebarWidth(scaledWidth)
      ensures unchanged(this`currentUsername, this`selected, this`users, this`messages, this`sending, this`searchQuery)
      ensures composer.State() == old(composer.State()).(lineCount := lineCount)
    {
      var sidebar := SidebarWidth(scaledWidth);
      composer.SetTotalWidth(ComposerTotalWidth(width, sidebar), lineCount);
      rendererWidth, sidebarWidth, searchWidth := width, sidebar, SearchWidth(sidebar);
    }

    /** `setCurrentUsername` */
    method SetCurrentUsername(username: string)
      requires Valid()
      modifies this
      ensures Valid()
      ensures State() == old(State()).(currentUsername := username)
    {
      currentUsername := username;
      RenderMessages();
    }

    /** `setUsers`: the selection survives only if it names someone in the new list. */
    method SetUsers(nextUsers: seq<Chat.ChatUser>)
      requires Valid()
      modifies this`users, this`selected, this`header, this`userList, this`bubbles
      ensures Valid()
      ensures State() == old(State()).(users := nextUsers, selected := Chat.KeptSelection(old(selected), nextUsers))
    {
      users := nextUsers;
      if Chat.HasSelection(selected) && !Chat.HasUser(users, selected.value) {
        selected := None;
      }
      header := Header(selected);
      RenderUsers();
      RenderMessages();
    }

    /** `setSelectedUser` */
    method SetSelectedUser(username: Option<string>)
      requires Valid()
      modifies this
      ensures Valid()
      ensures State() == old(State()).(selected := username)
    {
      selected := username;
      header := Header(selected);
      RenderUsers();
      RenderMessages();
    }

    /** `setMessages`: the list is kept ordered by `createdAt`. */
    method SetMessages(nextMessages: seq<Chat.ChatMessage>)
      requires Valid()
      modifies this
      ensures Valid()
      ensures State() == old(State()).(messages := Chat.SortByCreatedAt(nextMessages))
    {
      messages := Chat.SortByCreatedAt(nextMessages);
      RenderMessages();
    }

    /** `appendMessage`: a message no older than the last one is appended;
        otherwise the whole list is sorted again. */
    method AppendMessage(message: Chat.ChatMessage)
      requires Valid()
      modifies this
      ensures Valid()
      ensures old(messages) == [] || old(messages[|messages| - 1].createdAt) <= message.createdAt ==>
        messages == old(messages) + [message]
      ensures multiset(messages) == multiset(old(messages)) + multiset{message}
      ensures State() == old(State()).(messages := messages)
    {
      if |messages| == 0 || messages[|messages| - 1].createdAt <= message.createdAt {
        AppendKeepsOrder(messages, message);
        messages := messages + [message];
      } else {
        messages := Chat.SortByCreatedAt(messages + [message]);
      }
      RenderMessages();
    }

    /** A click on row `index` of the sidebar. Returns the username handed to
        `onSelectUser`, which is called whether or not the selection changed. */
    method ClickUserRow(index: nat) returns (selectRequest: string)
      requires Valid()
      requires userList.Rows? && index < |userList.rows|
      modifies this
      ensures Valid()
      ensures selectRequest == old(userList.rows[index].username)
      ensures old(selected) == Some(selectRequest) ==> State() == old(State())
      ensures old(selected) != Some(selectRequest) ==> State() == old(State()).(selected := Some(selectRequest), messages := [])
    {
      selectRequest := userList.rows[index].username;
      if selected != Some(selectRequest) {
        selected := Some(selectRequest);
        messages := [];
        header := Header(selected);
        RenderUsers();
        RenderMessages();
      }
    }

    /** `setStatus`: shown in the composer's status row; muted by default. */
    method SetStatus(message: string, color: Option<string>)
      requires Valid()
      modifies composer
      ensures Valid()
      ensures composer.State() == old(composer.State()).(statusMessage := if message == "" then " " else message,
                                                         statusColor := color.GetOr(Chat.TextMuted))
    {
      composer.SetStatus(message, color);
    }

    /** `submitMessage`, up to the call of `onSendMessage`; returns the
        (recipient, body) handed to it, if any. */
    method SubmitMessage() returns (request: Option<(string, string)>)
      requires Valid()
      modifies this`sending, composer
      ensures Valid()
      ensures var decision := Chat.Decide(old(sending), old(selected), old(composer.text));
        && request == (if decision.Send? then Some((decision.to, decision.body)) else None)
        && sending == (decision.Busy? || decision.Send?)
        && (decision.Busy? ==> composer.State() == old(composer.State()))
        && (!decision.Busy? ==> composer.State() == old(composer.State()).(
              statusMessage := Chat.DecisionStatus(decision), statusColor := Chat.Warning))
      ensures unchanged(this`rendererWidth, this`sidebarWidth, this`currentUsername, this`selected,
        this`users, this`messages, this`searchQuery)
    {
      var decision := Chat.Decide(sending, selected, composer.Value());
      request := None;
      if !decision.Busy? {
        if decision.Send? {
          sending := true;
          request := Some((decision.to, decision.body));
        }
        composer.SetStatus(Chat.DecisionStatus(decision), Some(Chat.Warning));
      }
    }

    /** The send resolved: the composer is cleared, the status blanked, and
        the screen accepts the next submit. */
    method CompleteSend()
      requires Valid()
      modifies this, composer
      ensures Valid()
      ensures State() == old(State()).(sending := false)
      ensures composer.State() == MessageComposer.ComposerState("", MessageComposer.MinLines, " ", Chat.TextMuted)
    {
      composer.Clear();
      composer.SetStatus(" ", None);
      sending := false;
    }

    /** The send failed with `errorMessage`: it is shown in the error colour
        and the composer keeps its text. (A failed `onSelectUser` only shows
        its error: `SetStatus(message, Some(Chat.Error))`.) */
    method FailSend(errorMessage: string)
      requires Valid()
      modifies this, composer
      ensures Valid()
      ensures State() == old(State()).(sending := false)
      ensures composer.State() == old(composer.State()).(
                statusMessage := if errorMessage == "" then " " else errorMessage, statusColor := Chat.Error)
    {
      composer.SetStatus(errorMessage, Some(Chat.Error));
      sending := false;
    }

    /** The search box's change handler. */
    method SetSearchQuery(value: string)
      requires Valid()
      modifies this
      ensures Valid()
      ensures State() == old(State()).(searchQuery := value)
    {
      searchQuery := value;
      RenderUsers();
    }

    /** `clearComposer` */
    method ClearComposer()
      requires Valid()
      modifies composer
      ensures Valid()
      ensures composer.State() == MessageComposer.ComposerState("", MessageComposer.MinLines, " ", Chat.TextMuted)
    {
      composer.Clear();
    }
  }

  /** Appending a message no older than the last keeps the list ordered. */
  lemma AppendKeepsOrder(messages: seq<Chat.ChatMessage>, message: Chat.ChatMessage)
    requires Sorting.SortedBy(messages, Chat.CreatedAt)
    requires messages == [] || messages[|messages| - 1].createdAt <= message.createdAt
    ensures Sorting.SortedBy(messages + [message], Chat.CreatedAt)
  {
  }
}
