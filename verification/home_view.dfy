/**
 * The older chat view of src/ui/components/views/home_view.ts: a user list
 * beside a message pane with a plain text input and a status line. The pane
 * shows a system placeholder until a user is selected and while the thread
 * is empty.
 */
module HomeView {
  import opened Wrappers
  import opened Text
  import Sorting
  import Chat

  const UnselectedHeader := "Select a user to start chatting"
  const ConversationWithPrefix := "Conversation with "

  /** `updateHeader` */
  function Header(selected: Option<string>): (r: string)
    ensures !Chat.HasSelection(selected) <==> r == UnselectedHeader
    ensures Chat.HasSelection(selected) ==> r == ConversationWithPrefix + selected.value
  {
    if Chat.HasSelection(selected) then
      var r := ConversationWithPrefix + selected.value;
      assert r[0] != UnselectedHeader[0];
      r
    else UnselectedHeader
  }

  const PickUserText := "Pick a username on the left to open a conversation."

  function EmptyThreadText(username: string): string {
    "No messages with " + username + " yet. Say hello."
  }

  /** `renderMessages`: a system placeholder with nobody selected or nothing
      to show, else the message bubbles. */
  function MessagePane(selected: Option<string>, messages: seq<Chat.ChatMessage>, currentUsername: string): (r: seq<Chat.Bubble>)
    ensures |r| >= 1
    ensures Chat.HasSelection(selected) && messages != [] ==> |r| == |messages|
  {
    if !Chat.HasSelection(selected) then [Chat.Bubble("chat-empty-unselected", PickUserText, Chat.SystemNote)]
    else if messages == [] then [Chat.Bubble("chat-empty-thread", EmptyThreadText(selected.value), Chat.SystemNote)]
    else Chat.MessageBubbles(messages, currentUsername)
  }

  /** The pane holds a system note exactly when it holds the single
      placeholder: with no selection or no messages. Otherwise it holds one
      bubble per message, in order. */
  lemma MessagePaneShape(selected: Option<string>, messages: seq<Chat.ChatMessage>, currentUsername: string)
    ensures var pane := MessagePane(selected, messages, currentUsername);
      && (!Chat.HasSelection(selected) ==> pane == [Chat.Bubble("chat-empty-unselected", PickUserText, Chat.SystemNote)])
      && (Chat.HasSelection(selected) && messages == [] ==> |pane| == 1 && pane[0].text == EmptyThreadText(selected.value))
      && ((exists i :: 0 <= i < |pane| && pane[i].variant == Chat.SystemNote) <==> !Chat.HasSelection(selected) || messages == [])
      && (Chat.HasSelection(selected) && messages != [] ==> |pane| == |messages|)
  {
    var pane := MessagePane(selected, messages, currentUsername);
    if Chat.HasSelection(selected) && messages != [] {
      forall i | 0 <= i < |pane| ensures pane[i].variant != Chat.SystemNote {
        Chat.MessageBubblesFaithful(messages, currentUsername, i);
      }
    } else {
      assert pane[0].variant == Chat.SystemNote;
    }
  }

  datatype UserRow = UserRow(id: string, username: string, selected: bool)

  /** The list: "No users found" alone, or one row per user. */
  datatype UserList = NoUsers | Rows(rows: seq<UserRow>)

  const UserRowPrefix := "chat-user-"

  function UserRowsFor(users: seq<Chat.ChatUser>, selected: Option<string>): (r: seq<UserRow>)
    ensures |r| == |users|
    ensures forall i :: 0 <= i < |r| ==> r[i].username == users[i].username
    ensures forall i :: 0 <= i < |r| ==> (r[i].selected <==> selected == Some(users[i].username))
  {
    seq(|users|, i requires 0 <= i < |users| =>
      UserRow(UserRowPrefix + NatToString(i), users[i].username, selected == Some(users[i].username)))
  }

  /** `renderUsers` */
  function UserListFor(users: seq<Chat.ChatUser>, selected: Option<string>): UserList {
    if users == [] then NoUsers else Rows(UserRowsFor(users, selected))
  }

  /** What the view holds apart from what it renders: the header, the list
      and the pane are derived from it (`HomeView.Valid`). */
  datatype ViewState = ViewState(
    currentUsername: string, selected: Option<string>, users: seq<Chat.ChatUser>,
    messages: seq<Chat.ChatMessage>, sending: bool, composerValue: string,
    statusMessage: string, statusColor: string)

  class HomeView {
    var currentUsername: string
    var selected: Option<string>
    var users: seq<Chat.ChatUser>
    var messages: seq<Chat.ChatMessage>
    var sending: bool
    /** `composerInput.value` */
    var composerValue: string
    var statusMessage: string
    var statusColor: string
    var header: string
    var userList: UserList
    var pane: seq<Chat.Bubble>

    ghost predicate Valid()
      reads this
    {
      Sorting.SortedBy(messages, Chat.CreatedAt)
      && header == Header(selected)
      && userList == UserListFor(users, selected)
      && pane == MessagePane(selected, messages, currentUsername)
    }

    ghost function State(): ViewState
      reads this
    {
      ViewState(currentUsername, selected, users, messages, sending, composerValue, statusMessage, statusColor)
    }

    /** `createHomeView` */
    constructor()
      ensures Valid()
      ensures State() == ViewState("", None, [], [], false, "", " ", Chat.Gray500)
      ensures header == UnselectedHeader && userList == NoUsers
      ensures pane == [Chat.Bubble("chat-empty-unselected", PickUserText, Chat.SystemNote)]
    {
      currentUsername := "";
      selected := None;
      users := [];
      messages := [];
      sending := false;
      composerValue := "";
      statusMessage := " ";
      statusColor := Chat.Gray500;
      header := UnselectedHeader;
      userList := NoUsers;
      pane := [Chat.Bubble("chat-empty-unselected", PickUserText, Chat.SystemNote)];
    }

    /** `renderMessages`: the placeholder decision, then the bubble loop. */
    method RenderMessages()
      modifies this
      ensures pane == MessagePane(selected, messages, currentUsername)
      ensures currentUsername == old(currentUsername) && selected == old(selected) && users == old(users)
      ensures messages == old(messages) && sending == old(sending) && composerValue == old(composerValue)
      ensures statusMessage == old(statusMessage) && statusColor == old(statusColor)
      ensures header == old(header) && userList == old(userList)
    {
      if !Chat.HasSelection(selected) {
        pane := [Chat.Bubble("chat-empty-unselected", PickUserText, Chat.SystemNote)];
        return;
      }
      if |messages| == 0 {
        pane := [Chat.Bubble("chat-empty-thread", EmptyThreadText(selected.value), Chat.SystemNote)];
        return;
      }
      pane := Chat.RenderMessageBubbles(messages, currentUsername);
    }

    /** `setStatus`: an empty message shows as " "; grey by default. */
    method SetStatus(message: string, color: Option<string>)
      requires Valid()
      modifies this
      ensures Valid()
      ensures State() == old(State()).(statusMessage := if message == "" then " " else message,
                                       statusColor := color.GetOr(Chat.Gray500))
    {
      statusMessage := if message == "" then " " else message;
      statusColor := color.GetOr(Chat.Gray500);
    }

    /** `setCurrentUsername` */
    method SetCurrentUsername(username: string)
      requires Valid()
      modifies this
      ensures Valid()
      ensures State() == old(State()).(currentUsername := username)
    {
      currentUsername := username;
      RenderMessages();
    }

    /** `setUsers`: the selection survives only if it names someone in the new list. */
    method SetUsers(nextUsers: seq<Chat.ChatUser>)
      requires Valid()
      modifies this
      ensures Valid()
      ensures State() == old(State()).(users := nextUsers, selected := Chat.KeptSelection(old(selected), nextUsers))
    {
      users := nextUsers;
      if Chat.HasSelection(selected) && !Chat.HasUser(users, selected.value) {
        selected := None;
      }
      header := Header(selected);
      userList := UserListFor(users, selected);
      RenderMessages();
    }

    /** `setSelectedUser` */
    method SetSelectedUser(username: Option<string>)
      requires Valid()
      modifies this
      ensures Valid()
      ensures State() == old(State()).(selected := username)
    {
      selected := username;
      header := Header(selected);
      userList := UserListFor(users, selected);
      RenderMessages();
    }

    /** `setMessages`: a sorted copy; ties keep their input order. */
    method SetMessages(nextMessages: seq<Chat.ChatMessage>)
      requires Valid()
      modifies this
      ensures Valid()
      ensures State() == old(State()).(messages := Chat.SortByCreatedAt(nextMessages))
    {
      messages := Chat.SortByCreatedAt(nextMessages);
      RenderMessages();
    }

    /** A click on row `index` of the list; returns the username handed to `onSelectUser`. */
    method ClickUserRow(index: nat) returns (selectRequest: string)
      requires Valid()
      requires userList.Rows? && index < |userList.rows|
      modifies this
      ensures Valid()
      ensures selectRequest == old(users[index].username)
      ensures old(selected) == Some(selectRequest) ==> State() == old(State())
      ensures old(selected) != Some(selectRequest) ==> State() == old(State()).(selected := Some(selectRequest), messages := [])
    {
      selectRequest := users[index].username;
      if selected != Some(selectRequest) {
        selected := Some(selectRequest);
        messages := [];
        header := Header(selected);
        userList := UserListFor(users, selected);
        RenderMessages();
      }
    }

    /** The text input changed. */
    method SetComposerValue(value: string)
      requires Valid()
      modifies this
      ensures Valid()
      ensures State() == old(State()).(composerValue := value)
    {
      composerValue := value;
    }

    /** `submitMessage` up to the call of `onSendMessage`; returns the
        (recipient, body) handed to it, if any. */
    method SubmitMessage() returns (request: Option<(string, string)>)
      requires Valid()
      modifies this
      ensures Valid()
      ensures var decision := Chat.Decide(old(sending), old(selected), old(composerValue));
        && request == (if decision.Send? then Some((decision.to, decision.body)) else None)
        && (decision.Busy? ==> State() == old(State()))
        && (!decision.Busy? ==> State() == old(State()).(sending := decision.Send?,
              statusMessage := Chat.DecisionStatus(decision), statusColor := Chat.Warning))
    {
      var decision := Chat.Decide(sending, selected, composerValue);
      request := None;
      if !decision.Busy? {
        if decision.Send? {
          sending := true;
          request := Some((decision.to, decision.body));
        }
        SetStatus(Chat.DecisionStatus(decision), Some(Chat.Warning));
      }
    }

    /** The send resolved: the input is emptied and the status blanked. */
    method CompleteSend()
      requires Valid()
      modifies this
      ensures Valid()
      ensures State() == old(State()).(sending := false, composerValue := "", statusMessage := " ", statusColor := Chat.Gray500)
    {
      composerValue := "";
      SetStatus(" ", None);
      sending := false;
    }

    /** The send failed: the error is shown and the input kept. (A failed
        `onSelectUser` only shows its error: `SetStatus(message, Some(Chat.Error))`.) */
    method FailSend(errorMessage: string)
      requires Valid()
      modifies this
      ensures Valid()
      ensures State() == old(State()).(sending := false, statusColor := Chat.Error,
                                       statusMessage := if errorMessage == "" then " " else errorMessage)
    {
      SetStatus(errorMessage, Some(Chat.Error));
      sending := false;
    }

    /** `clearComposer` */
    method ClearComposer()
      requires Valid()
      modifies this
      ensures Valid()
      ensures State() == old(State()).(composerValue := "")
    {
      composerValue := "";
    }
  }
}
