/**
 * What src/ui/screens/home.ts and src/ui/components/views/home_view.ts share:
 * the chat user and message records, the message bubbles both render, the
 * truthiness of the selected username, the `setUsers` selection rule and the
 * `submitMessage` guards.
 */
module Chat {
  import opened Wrappers
  import opened Text
  import Sorting

  /** `HomeChatUser` */
  datatype ChatUser = ChatUser(username: string)

  /** `HomeChatMessage` */
  datatype ChatMessage = ChatMessage(id: Option<string>, senderUsername: string, body: string, createdAt: int)

  /** The `variant` of a text bubble. */
  datatype Variant = Outgoing | Incoming | SystemNote

  datatype Bubble = Bubble(id: string, text: string, variant: Variant)

  // Colour tokens the state below records.
  const TextMuted := "#9A92B0"
  const Gray500 := "#9A92B0"
  const Warning := "#FFB020"
  const Error := "#FF3B30"

  /** `selectedUsername` is truthy: present and not the empty string. */
  /** `!!selectedUsername`: both null and the empty name mean nobody is selected. */
  predicate HasSelection(selected: Option<string>) {
    selected.Some? && selected.value != ""
  }

  /** `!selectedUsername`: null and the empty name both mean nobody is
      selected, and any other name is a selection. */
  lemma NoSelectionIsFalsy(selected: Option<string>)
    ensures !HasSelection(selected) <==> selected == None || selected == Some("")
  {
  }

  predicate HasUser(users: seq<ChatUser>, username: string) {
    exists i :: 0 <= i < |users| && users[i].username == username
  }

  /** The selection after `setUsers(users)`: a truthy selection that names
      nobody in the new list is dropped; anything else is kept. */
  function KeptSelection(selected: Option<string>, users: seq<ChatUser>): (r: Option<string>)
    ensures r.None? <==> selected.None? || (selected.value != "" && !HasUser(users, selected.value))
    ensures r.Some? ==> r == selected
    ensures HasSelection(r) ==> HasUser(users, r.value)
  {
    if HasSelection(selected) && !HasUser(users, selected.value) then None else selected
  }

  function CreatedAt(m: ChatMessage): int {
    m.createdAt
  }

  /** Messages ordered by `createdAt`, ascending, ties in input order
      (`[...messages].sort((a, b) => a.createdAt - b.createdAt)`). */
  function SortByCreatedAt(messages: seq<ChatMessage>): (r: seq<ChatMessage>)
    ensures Sorting.SortedBy(r, CreatedAt)
    ensures multiset(r) == multiset(messages)
  {
    Sorting.SortBy(messages, CreatedAt)
  }

  /** Messages with equal `createdAt` keep their input order. */
  lemma SortByCreatedAtIsStable(messages: seq<ChatMessage>, t: int)
    ensures Sorting.WithKey(SortByCreatedAt(messages), CreatedAt, t) == Sorting.WithKey(messages, CreatedAt, t)
  {
    Sorting.SortByIsStable(messages, CreatedAt, t);
  }

  const MessageIdPrefix := "chat-message-"

  /** `message.id ?? \`chat-message-${index}\`` */
  function BubbleId(m: ChatMessage, index: nat): string {
    match m.id
    case Some(id) => id
    case None => MessageIdPrefix + NatToString(index)
  }

  function MessageBubble(m: ChatMessage, index: nat, currentUsername: string): Bubble {
    Bubble(BubbleId(m, index), m.body, if m.senderUsername == currentUsername then Outgoing else Incoming)
  }

  /** The bubbles `renderMessages` adds for a non-empty message list. */
  function MessageBubbles(messages: seq<ChatMessage>, currentUsername: string): (r: seq<Bubble>)
    ensures |r| == |messages|
    ensures forall i :: 0 <= i < |r| ==> r[i] == MessageBubble(messages[i], i, currentUsername)
  {
    seq(|messages|, i requires 0 <= i < |messages| => MessageBubble(messages[i], i, currentUsername))
  }

  /** The `messages.forEach` of `renderMessages`: one bubble per message, in order. */
  method RenderMessageBubbles(messages: seq<ChatMessage>, currentUsername: string) returns (bubbles: seq<Bubble>)
    ensures bubbles == MessageBubbles(messages, currentUsername)
  {
    bubbles := [];
    var index := 0;
    while index < |messages|
      invariant index <= |messages|
      invariant bubbles == MessageBubbles(messages[..index], currentUsername)
    {
      bubbles := bubbles + [MessageBubble(messages[index], index, currentUsername)];
      index := index + 1;
    }
    assert messages[..index] == messages;
  }

  /** A bubble carries its message's body and is outgoing exactly when the
      current user sent it; none of them is a system note. */
  lemma MessageBubblesFaithful(messages: seq<ChatMessage>, currentUsername: string, i: nat)
    requires i < |messages|
    ensures MessageBubbles(messages, currentUsername)[i].text == messages[i].body
    ensures MessageBubbles(messages, currentUsername)[i].variant == Outgoing <==> messages[i].senderUsername == currentUsername
    ensures MessageBubbles(messages, currentUsername)[i].variant != SystemNote
  {
  }

  /** Messages without an id get pairwise different bubble ids. */
  lemma {:induction false} GeneratedBubbleIdsDistinct(messages: seq<ChatMessage>, currentUsername: string, i: nat, j: nat)
    requires i < j < |messages|
    requires messages[i].id.None? && messages[j].id.None?
    ensures MessageBubbles(messages, currentUsername)[i].id != MessageBubbles(messages, currentUsername)[j].id
  {
    var a, b := NatToString(i), NatToString(j);
    if MessageIdPrefix + a == MessageIdPrefix + b {
      assert a == (MessageIdPrefix + a)[|MessageIdPrefix|..];
      assert b == (MessageIdPrefix + b)[|MessageIdPrefix|..];
      NatToStringInjective(i, j);
      assert false;
    }
  }

  /** What `submitMessage` decides before anything is sent. */
  datatype SubmitDecision =
    | Busy          // a send is in flight: nothing happens
    | NoSelection   // "Select a user first"
    | NoBody        // "Type a message first"
    | Send(to: string, body: string)

  const SelectFirst := "Select a user first"
  const TypeFirst := "Type a message first"
  const Sending := "Sending..."

  function Decide(sending: bool, selected: Option<string>, input: string): (r: SubmitDecision)
    ensures r.Busy? <==> sending
    ensures r.NoSelection? <==> !sending && !HasSelection(selected)
    ensures r.NoBody? <==> !sending && HasSelection(selected) && IsBlank(input)
    ensures r.Send? ==> HasSelection(selected) && r.to == selected.value && r.body == Trim(input)
  {
    if sending then Busy
    else if !HasSelection(selected) then NoSelection
    else
      var body := Trim(input);
      if body == [] then NoBody else Send(selected.value, body)
  }

  /** The warning shown for a submit that is not ignored. */
  function DecisionStatus(decision: SubmitDecision): string
    requires !decision.Busy?
  {
    match decision
    case NoSelection => SelectFirst
    case NoBody => TypeFirst
    case Send(_, _) => Sending
  }

  /** Only a trimmed, non-blank body is ever sent. */
  lemma SentBodyIsTrimmedAndNotBlank(sending: bool, selected: Option<string>, input: string)
    requires Decide(sending, selected, input).Send?
    ensures var body := Decide(sending, selected, input).body;
      body != [] && IsTrimmed(body) && Trim(body) == body
  {
  }
}
