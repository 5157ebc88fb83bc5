# chui, modelled in Dafny

chui is a terminal chat client. Its server side runs on Convex (a profiles
table and a messages table, with username-based sign-up and sign-in through
better-auth). Its client keeps a session token on disk and draws a home
screen: a searchable user list, a message pane and a message composer. This
project models the logic of that system that is more than rendering:

- the two sets of username rules and how they relate (`Username`, `Users`,
  `Auth`, `UserRepository`);
- the profile upserts over the profiles table, and the message log with its
  clamped, newest-first, sender-joined read (`Schema`, `ProfilesInternal`,
  `Users`, `Messages`);
- the email chosen at sign-up, the identifier resolution at sign-in, the
  session-token guard and the profile listing (`Auth`);
- the client's token state and the format decision for its session file
  (`Session`);
- the patch bump and the README badge rewrite of the release script
  (`BumpVersion`);
- the state of the home screen, the older home view, the users list view and
  the message composer, and the terminal-size gate (`HomeScreen`, `HomeView`,
  `Chat`, `UsersListView`, `MessageComposer`, `Viewport`).

Tables are sequences indexed by row id, so ids grow with insertion and table
order is id order. The database is a class (`Schema.Db`) whose mutations
change its fields in place. The screens are classes whose fields are the
closure variables of the source. The text their render functions produce is
kept in fields that a class invariant ties to specification functions.
Clocks (`Date.now()`), identities, renderer measurements and the answers of
the auth provider are parameters.

`Text` models the string built-ins the source uses (`trim`, `toLowerCase`,
`includes`, `startsWith`, number formatting). `Sorting` provides a stable
insertion sort with its permutation and stability lemmas.

## Model

| member | source | states |
|---|---|---|
| Username.Normalize | shared/username.ts:9 | the result is trimmed, has no upper-case letter, is no longer than the input, and is empty exactly when the input is blank |
| Username.NormalizeIdempotent | shared/username.ts:9 | normalising twice equals normalising once |
| Username.ValidIsNormalized | shared/username.ts:9-17 | a valid username (3 to 20 characters from `[a-z0-9]`) is its own normalisation |
| Username.Parse | shared/username.ts:19-22 | the result is null exactly when the normalised input is invalid, and otherwise is the normalised input, which is valid |
| Username.ParseFixpoint | shared/username.ts:19-22 | parsing a successful parse gives the same result again |
| Username.ParseAcceptsPaddedMixedCase | shared/username.ts:9-22 | a name valid after lower-casing, padded with blanks, parses to its lower-case form |
| Username.ParsePaddedAlice | shared/username.ts:19-22 | " Alice " parses to "alice" |
| Username.ParseOrThrow | shared/username.ts:24-33 | succeeds exactly when parsing does, with the normalised valid name; otherwise fails with the caller's message or the default "Username: 3-20 letters/numbers, case insensitive" |
| Auth.RequireValidUsername | convex/auth.ts:12-23 | accepts exactly the inputs the shared rules accept, returns the same name, and otherwise fails with the rules text |
| Auth.SameErrorAsSharedRules | convex/auth.ts:17-23 | the check is identical, failures included, to the shared `parseUsernameOrThrow` with its default message |
| Auth.ErrorTextsAgree | convex/auth.ts:20 | the thrown text equals the shared default message |
| Auth.UsernameToEmail | convex/auth.ts:25-26 | the address is the username, "@", then "users.chui.local", and contains "@" |
| Auth.UsernameToEmailInjective | convex/auth.ts:25-26 | distinct usernames give distinct synthetic addresses |
| Auth.ChooseSignUpEmail | convex/auth.ts:52-56 | the chosen address always contains "@" |
| Auth.SignUpKeepsRequestedEmail | convex/auth.ts:52-55 | a requested email whose trimmed, lower-cased form contains "@" is used in that form |
| Auth.SignUpFallsBackToSyntheticEmail | convex/auth.ts:53-56 | a requested email that is absent or has no "@" gives the synthetic address |
| Auth.SignInEmail | convex/auth.ts:89-93 | a blank identifier fails with "Email required"; one whose normalised form contains "@" is that form; otherwise it must be a valid username and maps to its synthetic address |
| Auth.SyntheticEmailIsNormalized | convex/auth.ts:89-93 | the synthetic address of a valid username is unchanged by trimming and lower-casing |
| Auth.SignInByUsernameOrSyntheticEmail | convex/auth.ts:89-93 | signing in with a valid username and with its synthetic address resolve to the same address |
| Auth.RequireSessionToken | convex/auth.ts:32-34 | a missing or empty session token fails with "Authentication session token missing"; any other token passes unchanged |
| Auth.SignInUsername | convex/auth.ts:105 | the normalised auth user name, or "" without one |
| Auth.ListProfiles | convex/auth.ts:164-178 | nothing without an identity; otherwise one entry per profile in table order, with that profile's username and email |
| Auth.ListProfilesNamesDistinct | convex/auth.ts:164-178 | with one row per username, no username is listed twice |
| Auth.SignUp | convex/auth.ts:45-81 | an invalid username or a missing session token fails and writes nothing; a valid username with a session token always succeeds; success upserts the profile with the auth user id and the chosen email, and returns the name, both tokens and the row id |
| Auth.CompleteAuth | convex/auth.ts:66-80 | fails exactly when the session token is missing or empty, and then writes nothing; otherwise upserts the profile linked to the auth user with the given email and returns the name, both tokens and the row id |
| Auth.SignIn | convex/auth.ts:83-118 | an identifier that does not resolve, or a missing session token, fails and writes nothing; a resolving identifier with a session token always succeeds; success upserts the profile named after the auth user with its id and without touching the email |
| Schema.FindUsername | convex/schema.ts:11 | the `by_username` lookup: a row with that username, or none exactly when no row has it |
| Schema.UniqueByAuthUser | convex/schema.ts:12 | the `by_auth_user_id` lookup with `.unique()`: none exactly when no row links the subject, the only linked row, or an error exactly when two rows link it |
| Schema.Db.constructor | convex/schema.ts:4-21 | both tables start empty and the one-row-per-username invariant holds |
| ProfilesInternal.Patched | convex/profiles_internal.ts:18-22 | username and createdAt are kept, updatedAt becomes now, the auth user id is replaced only by a supplied one and never cleared, and the email is replaced only when supplied |
| ProfilesInternal.Upserted | convex/profiles_internal.ts:4-34 | the uniqueness invariant is kept; an existing row is patched in place with every other row unchanged and its id returned; otherwise exactly one row with createdAt = updatedAt = now is appended |
| ProfilesInternal.UpsertedIdempotent | convex/profiles_internal.ts:12-26 | a second upsert of the same username returns the same id, adds no row, and leaves one row with that name |
| ProfilesInternal.AuthUserIdSticky | convex/profiles_internal.ts:20 | no upsert clears a linked auth user id |
| ProfilesInternal.UpsertProfileInternal | convex/profiles_internal.ts:4-34 | the table and the returned id are those of `Upserted`; the messages table is untouched |
| Users.SharedRulesImplyUnderscoreRules | convex/users.ts:4 | every name valid under `[a-z0-9]` is valid under `[a-z0-9_]` |
| Users.UnderscoreOnlyHere | convex/users.ts:4 | "a_b" is valid here but not under the shared rules |
| Users.ValidIsNormalized | convex/users.ts:4-9 | a name valid under `[a-z0-9_]{3,20}` is its own normalisation |
| Users.RequireValidUsername | convex/users.ts:8-14 | succeeds exactly when the normalised name matches `[a-z0-9_]{3,20}`, returning it; otherwise fails with the `[a-z0-9_]` message |
| Users.UpsertByUsername | convex/users.ts:16-48 | an invalid name fails before any read and writes nothing; otherwise the table and the id are those of the internal upsert without auth user id or email, and the stored name is returned |
| Users.TouchOrInsert | convex/users.ts:24-46 | an existing row gets only a new updatedAt and keeps its id; otherwise a new row with empty auth user id and email is appended at the next id; messages are untouched; the table invariant holds afterwards |
| Users.UpsertByUsernameTouchesOnlyUpdatedAt | convex/users.ts:29-35 | for an existing name only that row's updatedAt changes |
| Users.GetByUsername | convex/users.ts:50-61 | fails exactly on an invalid name; otherwise returns a row of the table with that name, or none when no row has it |
| Users.GetMyProfile | convex/users.ts:63-78 | null without an identity; an error ("not unique") exactly when two rows link the subject; null only when no row links it; a returned row is in the table, linked to the subject, and the only row linked to it |
| Users.GetMyProfileAfterLink | convex/users.ts:63-78 | after an upsert links a profile to a subject that no other row links, `getMyProfile` returns exactly that profile |
| UserRepository.ForwardedNameAccepted | src/data/user_repository.ts:13-19 | the forwarded name is the normalised input, and the server's own check accepts it unchanged |
| UserRepository.UpsertByUsername | src/data/user_repository.ts:12-20 | an invalid name fails with the `[a-z0-9_]` message and the table is untouched; a valid one is forwarded normalised and the server's upsert takes effect |
| Messages.SendMessage | convex/messages.ts:4-34 | no identity fails with "Unauthorized" and no profile with "Profile not found for current user", neither writing; a caller whose identity links exactly one profile always succeeds; success appends exactly one message with the caller's profile id, the trimmed body and now |
| Messages.EffectiveLimit | convex/messages.ts:41 | the limit lies in [1, 100]: 30 when absent, the requested value when within range, else the nearer bound |
| Messages.NewestFirst | convex/messages.ts:43-47 | a permutation of the stored messages in non-increasing createdAt order |
| Messages.RearrangedEntries | convex/messages.ts:43-47 | a permutation of the stored messages holds each message under its own id, and no id twice |
| Messages.Page | convex/messages.ts:47-57 | as many entries as the limit allows, each the message joined with its sender's name |
| Messages.ListRecent | convex/messages.ts:36-59 | the page size is min(stored, limit); entries are in non-increasing createdAt order; each is a stored message with its own id, fields and sender's username, or "unknown" |
| Messages.PageKeepsOrder | convex/messages.ts:47-57 | a page cut from a newest-first list is itself in non-increasing createdAt order |
| Messages.ListRecentDistinct | convex/messages.ts:43-47 | no message appears twice in a page |
| Messages.ListRecentIsMostRecent | convex/messages.ts:43-47 | every message left out of the page is no newer than any message in it |
| Session.StringField | src/data/session.ts:29-30 | a field is taken exactly when it is present and a string |
| Session.ReadPersistedSession | src/data/session.ts:12-35 | a failed read, blank content or unparsable JSON gives no tokens; content not starting with "{" is a legacy auth token; JSON gives each field that is a string |
| Session.PersistThenReadRoundTrip | src/data/session.ts:37-48 | the written state reads back as the same state |
| Session.TokenStore.constructor | src/data/session.ts:58-60 | both tokens come from the persisted session |
| Session.TokenStore.GetAuthToken | src/data/session.ts:62 | the auth token last written to the session file, and none once the file is removed |
| Session.TokenStore.GetSessionToken | src/data/session.ts:63 | the session token last written to the session file, and none once the file is removed |
| Session.TokenStore.SetAuthToken | src/data/session.ts:65-72 | the auth token is replaced; the session token only by a non-null one; a present session token stays present; the new pair is persisted |
| Session.TokenStore.ClearAuthToken | src/data/session.ts:74-78 | both tokens become null and the file is removed |
| BumpVersion.Split | scripts/bump-version.ts:13 | at least one part, no part contains the separator, and joining the parts with the separator gives the input back |
| BumpVersion.ParseVersion | scripts/bump-version.ts:13-19 | succeeds exactly when the input splits at "." into three runs of decimal digits (an empty run reading as 0) |
| BumpVersion.FormatVersion | scripts/bump-version.ts:22 | splitting the text at "." gives back the decimal renderings of major, minor and patch |
| BumpVersion.SplitJoin | scripts/bump-version.ts:13 | splitting the join of separator-free parts gives the parts back |
| BumpVersion.ParseFormatRoundTrip | scripts/bump-version.ts:13-22 | a formatted version parses back to itself |
| BumpVersion.BumpPatchVersion | scripts/bump-version.ts:12-23 | fails with "Invalid semver version: " and the input exactly when the input is not three digit-string parts; otherwise the result is the canonical "major.minor.patch" text of the same major and minor and the next patch |
| BumpVersion.BumpIterates | scripts/bump-version.ts:12-23 | a bumped version can be bumped again |
| BumpVersion.NextVersion | scripts/bump-version.ts:28-29 | a missing version gives "0.0.1"; a present one is bumped |
| BumpVersion.FirstBump | scripts/bump-version.ts:28-29 | bumping "0.0.0" gives "0.0.1" |
| BumpVersion.BadgeEndAt | scripts/bump-version.ts:9-10 | a match starts with the badge prefix, holds at least four more characters and ends with ")" |
| BumpVersion.BadgeEndAtIsTheMatch | scripts/bump-version.ts:9-10 | a match has the pattern's shape (prefix, non-empty text without "-", "-", non-empty text without ")", ")"), and every text of that shape at the start is the match found: the match exists exactly when the shape does, and it is unique |
| BumpVersion.FirstBadge | scripts/bump-version.ts:9-10 | a returned start and end are a match of the pattern at that start |
| BumpVersion.FirstBadgeIsLeftmost | scripts/bump-version.ts:9-10 | the match found is the leftmost one, with no match before it, and none is found only when there is none anywhere |
| BumpVersion.ReplaceBadge | scripts/bump-version.ts:40-42 | without a match the README is unchanged; otherwise only the first match is replaced by the badge, the text before and after it kept |
| BumpVersion.PatternMatchesAt | scripts/bump-version.ts:9-10 | prefix, version, "-", colour, ")" form one whole match wherever they stand, when the version has no "-" or ")" and the colour no ")" |
| BumpVersion.BadgeMatchesPattern | scripts/bump-version.ts:39 | the badge written for such a version is one whole match |
| BumpVersion.ReplacedBadgeIsFound | scripts/bump-version.ts:39-42 | after the replacement the new badge stands where the first match was and is a match there |
| BumpVersion.FormattedVersionFitsBadge | scripts/bump-version.ts:22 | a formatted version is non-empty and has no "-" or ")" |
| BumpVersion.Run | scripts/bump-version.ts:25-47 | succeeds exactly when the version bump does, with the bumped version; the README is written exactly when the replacement changed it, with the replaced text, and not at all without a match |
| Viewport.SupportedIsMonotone | src/ui/design/viewport.ts:3-5 | growing a supported terminal in either direction keeps it supported |
| Viewport.MinimumIsTight | src/ui/design/viewport.ts:3-5 | 80x20 is supported, and one column or one row less is not |
| Viewport.NarrowNeverSupported | src/ui/design/viewport.ts:4 | a width below 80 is refused whatever the height |
| Viewport.ConstraintMessage | src/ui/design/viewport.ts:7-9 | "Terminal too small (", the given width "x" height, then the fixed "). Minimum 80x20." |
| Viewport.IsSupported | src/ui/design/viewport.ts:3-5 | supported exactly from 80 columns and 20 rows on |
| Viewport.ConstraintMessageInjective | src/ui/design/viewport.ts:7-9 | the message determines the size: different sizes never give the same message |
| Viewport.MinimumTail | src/ui/design/viewport.ts:8 | the minimum part of the message always reads "). Minimum 80x20." |
| Viewport.MinimumDigits | src/ui/design/tokens.ts:45-48 | the minimums are rendered as "80" and "20" |
| Chat.KeptSelection | src/ui/screens/home.ts:347-351 | the selection is dropped exactly when it is a non-empty name absent from the new users; otherwise it is kept |
| Chat.NoSelectionIsFalsy | src/ui/screens/home.ts:185 | `HasSelection` is false exactly for null and the empty name |
| Chat.SortByCreatedAt | src/ui/components/views/home_view.ts:327-330 | sorted ascending by createdAt, a permutation of the input |
| Chat.SortByCreatedAtIsStable | src/ui/components/views/home_view.ts:328 | messages with equal createdAt keep their input order |
| Chat.MessageBubbles | src/ui/screens/home.ts:262-274 | one bubble per message, in order |
| Chat.RenderMessageBubbles | src/ui/screens/home.ts:262-274 | the loop produces exactly `MessageBubbles` |
| Chat.MessageBubblesFaithful | src/ui/components/views/home_view.ts:248-260 | each bubble carries its message's body, is outgoing exactly when the current user sent it, and is never a system note |
| Text.NatToStringInjective | src/ui/components/views/home_view.ts:249 | distinct indices render as distinct decimal strings |
| Chat.GeneratedBubbleIdsDistinct | src/ui/components/views/home_view.ts:249 | messages without an id get pairwise distinct "chat-message-" ids |
| Chat.Decide | src/ui/screens/home.ts:282-293 | busy exactly while sending; "no selection" exactly when not sending and nobody is selected; "no body" exactly when the input is blank; a send goes to the selected user with the trimmed input |
| Chat.SentBodyIsTrimmedAndNotBlank | src/ui/screens/home.ts:289-298 | a sent body is non-empty and trimmed |
| HomeScreen.SidebarWidth | src/ui/screens/home.ts:55 | always within [22, 28], equal to the scaled width when it is in range |
| HomeScreen.ComposerTotalWidth | src/ui/screens/home.ts:57-73 | never below the composer's minimum of 24 |
| HomeScreen.WidthsFit | src/ui/screens/home.ts:55-73 | the search box is the sidebar less 6, within [16, 22]; from 80 columns on, sidebar, composer and 10 columns of chrome fill the width exactly |
| HomeScreen.Header | src/ui/screens/home.ts:184-191 | " " exactly when nobody is selected, else exactly "Chat with " followed by the name |
| HomeScreen.UserRowsFor | src/ui/screens/home.ts:213-215 | one row per visible user, row i with id "chat-user-i" |
| HomeScreen.EmptyListText | src/ui/screens/home.ts:197-205 | "No match" exactly when the query is not blank, else "No users found" |
| HomeScreen.UserListFor | src/ui/screens/home.ts:193-215 | the placeholder exactly when nobody is visible |
| HomeScreen.UserListForFaithful | src/ui/screens/home.ts:193-252 | the placeholder appears exactly when nobody is visible; otherwise one row per visible user with its name, marked selected exactly when it is the selected user |
| HomeScreen.AtMostOneSelectedRow | src/ui/screens/home.ts:213-215 | with distinct usernames, at most one row is marked selected |
| HomeScreen.AppendKeepsOrder | src/ui/screens/home.ts:366-368 | appending a message no older than the last keeps the list ordered |
| HomeScreen.HomeScreen.constructor | src/ui/screens/home.ts:50-75 | the renderer width is the given width and the sidebar its clamped scaled width; no current user, nobody selected, nothing listed, not sending, an empty query; the composer is empty, one line high, with a blank muted status, at the width derived from those (`Valid`) |
| HomeScreen.HomeScreen.RenderUsers | src/ui/screens/home.ts:193-252 | the list becomes the one `UserListFor` specifies for the filtered users; nothing else changes |
| HomeScreen.HomeScreen.RenderMessages | src/ui/screens/home.ts:254-280 | the bubbles become `MessageBubbles` of the messages; nothing else changes |
| HomeScreen.HomeScreen.Resize | src/ui/screens/home.ts:317-326 | the renderer width becomes the new width and the sidebar its clamped scaled width, the composer gets the new line count and a derived total width; current user, selection, users, messages, sending, query, composer text and status are unchanged |
| HomeScreen.HomeScreen.SetCurrentUsername | src/ui/screens/home.ts:343-346 | the whole new state: only the current user changes, and the screen re-renders |
| HomeScreen.HomeScreen.SetUsers | src/ui/screens/home.ts:347-355 | the whole new state: only the users and, through `KeptSelection`, the selection change |
| HomeScreen.HomeScreen.SetSelectedUser | src/ui/screens/home.ts:356-361 | the whole new state: only the selection changes |
| HomeScreen.HomeScreen.SetMessages | src/ui/screens/home.ts:362-365 | the whole new state: only the messages change, to the given ones sorted by createdAt |
| HomeScreen.HomeScreen.AppendMessage | src/ui/screens/home.ts:366-373 | a message no older than the last is appended at the end; always the old messages plus the new one; the order invariant holds and nothing else changes |
| HomeScreen.HomeScreen.ClickUserRow | src/ui/screens/home.ts:227-239 | returns the clicked user's name, handed to `onSelectUser`; clicking the selected user changes nothing, another selects it and empties the messages, and nothing else changes |
| HomeScreen.HomeScreen.SetStatus | src/ui/screens/home.ts:180-182 | the composer shows the message (" " for empty) in the given colour, muted by default; its text and line count and the whole screen state are unchanged |
| HomeScreen.HomeScreen.SubmitMessage | src/ui/screens/home.ts:282-298 | follows `Decide`: while sending nothing changes; otherwise the warning is shown in the warning colour and, for a send, sending is set and the trimmed body goes to the selected user; the rest of the screen and the composer text are unchanged |
| HomeScreen.HomeScreen.CompleteSend | src/ui/screens/home.ts:299-309 | sending is reset and the composer becomes empty, one line high, with a blank muted status; nothing else changes |
| HomeScreen.HomeScreen.FailSend | src/ui/screens/home.ts:303-309 | the error (" " for empty) is shown in the error colour, the text is kept and sending reset; nothing else changes |
| HomeScreen.HomeScreen.SetSearchQuery | src/ui/screens/home.ts:312-315 | the whole new state: only the query changes, and the list re-renders |
| HomeScreen.HomeScreen.ClearComposer | src/ui/screens/home.ts:374-376 | the composer becomes empty, one line high, with a blank muted status; the screen state is unchanged |
| HomeView.Header | src/ui/components/views/home_view.ts:150-157 | "Select a user to start chatting" exactly when nobody is selected, else exactly "Conversation with " followed by the name |
| HomeView.MessagePane | src/ui/components/views/home_view.ts:218-266 | never empty, and one bubble per message when someone is selected and there are messages (the full shape is `MessagePaneShape`) |
| HomeView.MessagePaneShape | src/ui/components/views/home_view.ts:218-266 | the pick-a-user note alone without a selection; the empty-thread note alone without messages; a system note appears exactly in those two cases; otherwise one bubble per message |
| HomeView.UserRowsFor | src/ui/components/views/home_view.ts:176-215 | one row per user with its name, marked selected exactly when it is the selected user |
| HomeView.HomeView.constructor | src/ui/components/views/home_view.ts:42-48 | no current user (""), nobody selected, no users or messages, not sending, an empty input, a blank grey status, the unselected header and the pick-a-user note, as the initial `updateHeader`, `renderUsers` and `renderMessages` calls (home_view.ts:301-303) leave them |
| HomeView.HomeView.RenderMessages | src/ui/components/views/home_view.ts:218-266 | the pane becomes `MessagePane`; nothing else changes |
| HomeView.HomeView.SetStatus | src/ui/components/views/home_view.ts:145-148 | the whole new state: only the status changes, to the message (" " for empty) in the given colour, grey by default |
| HomeView.HomeView.SetCurrentUsername | src/ui/components/views/home_view.ts:308-311 | the whole new state: only the current user changes, and the view re-renders |
| HomeView.HomeView.SetUsers | src/ui/components/views/home_view.ts:312-320 | the whole new state: only the users and, through `KeptSelection`, the selection change |
| HomeView.HomeView.SetSelectedUser | src/ui/components/views/home_view.ts:321-326 | the whole new state: only the selection changes |
| HomeView.HomeView.SetMessages | src/ui/components/views/home_view.ts:327-330 | the whole new state: only the messages change, to a stably sorted copy of the given ones |
| HomeView.HomeView.ClickUserRow | src/ui/components/views/home_view.ts:190-203 | returns the clicked user's name; clicking the selected user changes nothing, another selects it and empties the messages, and nothing else changes |
| HomeView.HomeView.SetComposerValue | src/ui/components/views/home_view.ts:275 | the whole new state: only the input's value changes |
| HomeView.HomeView.SubmitMessage | src/ui/components/views/home_view.ts:268-284 | follows `Decide`: while sending nothing changes; otherwise the warning is shown in the warning colour and, for a send, sending is set and the trimmed body goes to the selected user; nothing else changes |
| HomeView.HomeView.CompleteSend | src/ui/components/views/home_view.ts:285-296 | the whole new state: the input is emptied, the status blanked in grey and sending reset |
| HomeView.HomeView.FailSend | src/ui/components/views/home_view.ts:289-296 | the whole new state: the error (" " for empty) is shown in the error colour, the input kept and sending reset |
| HomeView.HomeView.ClearComposer | src/ui/components/views/home_view.ts:331-333 | the whole new state: only the input is emptied |
| UsersListView.SearchKey | src/ui/components/views/users_list_view.ts:50 | the key is empty exactly when the query is blank |
| UsersListView.FilterMatching | src/ui/components/views/users_list_view.ts:51-56 | an order-preserving subsequence holding exactly the users whose lower-cased name or email contains the key |
| UsersListView.EmptyKeyMatchesAll | src/ui/components/views/users_list_view.ts:51-57 | filtering with the empty key keeps every user |
| UsersListView.FilteredIsSearch | src/ui/components/views/users_list_view.ts:50-57 | the shown users are an order-preserving subsequence, and a user is shown exactly when it matches the key |
| UsersListView.LineContent | src/ui/components/views/users_list_view.ts:74 | the username alone without a non-empty email; else exactly the username, " (", the email and ")" |
| UsersListView.LinesFor | src/ui/components/views/users_list_view.ts:70-79 | one line per shown user, line i with id "user-i" |
| UsersListView.ListContentShape | src/ui/components/views/users_list_view.ts:59-79 | the placeholder appears exactly when nobody is shown and reads "No users match your search" exactly when the query is not blank; otherwise one line per shown user |
| UsersListView.BlankQueryShowsEveryone | src/ui/components/views/users_list_view.ts:50-67 | a blank query lists every user, or reads "No users yet" when there are none |
| UsersListView.RenderLines | src/ui/components/views/users_list_view.ts:70-79 | the loop produces exactly `LinesFor`: one line per shown user, in order |
| UsersListView.RenderList | src/ui/components/views/users_list_view.ts:47-80 | produces exactly `ListContentFor` |
| UsersListView.UsersListView.constructor | src/ui/components/views/users_list_view.ts:32-33 | the initial users, or none, and an empty query, with the list derived |
| UsersListView.UsersListView.SetUsers | src/ui/components/views/users_list_view.ts:111-114 | replaces the users, keeps the query, and re-derives the list |
| UsersListView.UsersListView.SetSearch | src/ui/components/views/users_list_view.ts:115-118 | replaces the query, keeps the users, and re-derives the list |
| MessageComposer.WidthsFillTheRow | src/ui/primitives/message_composer.ts:139-150 | from 24 columns on, the box is total - 9 and the text area total - 13, filling the row exactly |
| MessageComposer.ComposerLines | src/ui/primitives/message_composer.ts:153-160 | the line count always lies in [1, 5] |
| MessageComposer.ComposerLinesCases | src/ui/primitives/message_composer.ts:153-160 | 1 for blank text, else the measured count clamped to [1, 5] |
| MessageComposer.StatusLines | src/ui/primitives/message_composer.ts:137 | the status row is 0 or 1 high |
| MessageComposer.StatusLinesBlank | src/ui/primitives/message_composer.ts:137 | the status row is 0 high exactly when the status is blank |
| MessageComposer.Composer.constructor | src/ui/primitives/message_composer.ts:39-46 | at least 24 wide, empty text, a blank muted status, one line and control height 4 |
| MessageComposer.Composer.BottomInset | src/ui/primitives/message_composer.ts:161-162 | the gap below the text area equals the side padding at every line count |
| MessageComposer.Composer.UpdateWidths | src/ui/primitives/message_composer.ts:139-151 | the box and text-area widths follow the total width; heights and status are untouched |
| MessageComposer.Composer.SyncHeights | src/ui/primitives/message_composer.ts:153-170 | the text area gets the clamped line count, and the box and the button both get lines + 3; the status row follows the status |
| MessageComposer.Composer.SetText | src/ui/primitives/message_composer.ts:93 | new text and line count, heights resynced, width and status kept |
| MessageComposer.Composer.SetTotalWidth | src/ui/primitives/message_composer.ts:180-185 | the width becomes max(24, requested) and the layout invariant holds |
| MessageComposer.Composer.SetStatus | src/ui/primitives/message_composer.ts:186-192 | an empty message is stored as " ", the colour is muted by default, and the text is kept |
| MessageComposer.Composer.Value | src/ui/primitives/message_composer.ts:193 | the text shown; when it is blank the box is one line high |
| MessageComposer.Composer.Clear | src/ui/primitives/message_composer.ts:194-201 | empty text, a blank muted status, one line, no status row |

## Left out

- The pairwise direct-conversation calls of src/data/convex_actions.ts (`sendDirectMessage`, `listMyConversations`, `listConversationMessages`) have no server code in convex/messages.ts. The model invents none of them.
- Rendering: renderables, colours other than the status colours, borders, scroll positions, focus, `setOnSubmit`, and the removal of old rows.
- The better-auth calls (`signUpEmail`, `signInEmail`, `getToken`, `signOut`) and Convex identity resolution. Their answers are parameters: an `AuthResponse`, a token string, and an optional identity subject. `getCurrentUser` is not modelled beyond the `.unique()` lookup it shares with `getMyProfile`.
- `Users.UpsertByUsername`, `ProfilesInternal.UpsertProfileInternal`: the `by_username` lookup assumes the one-row-per-username invariant (`Schema.UniqueUsernames`). The duplicate-row error of `.unique()` on that index is not modelled. It is modelled for `by_auth_user_id`.
- `Schema.Profile` carries `email` although convex/schema.ts does not declare it, because convex/profiles_internal.ts writes it and convex/auth.ts reads it.
- Concurrent mutations and races between upserts.
- File and process I/O: the session file, package.json and README.md are values. `JSON.parse` is a parameter. JSON serialisation is not modelled, so `Session.PersistThenReadRoundTrip` assumes the parser reads back the written object.
- The Promise chains of both `submitMessage` functions are split into a start step (`SubmitMessage`) and an outcome step (`CompleteSend` or `FailSend`). The `finally` part is folded into both outcomes.
- src/ui/screens/home_utils.ts is not part of this model:
  - `filterUsersByQuery` is any function the screen is created with;
  - `sortMessagesByCreatedAt` is modelled as the stable sort `Chat.SortByCreatedAt`;
  - `toErrorMessage` becomes the message parameter of `FailSend`.
- `HomeScreen.SidebarWidth`: the floating-point `Math.floor(renderer.width * 0.24)` is the integer parameter `scaledWidth`.
- `MessageComposer.Composer.SetText`: the text area's `virtualLineCount` is a renderer measurement and arrives as the parameter `lineCount`.
- `BumpVersion.PartValue`: only decimal digit strings are accepted, the empty string reading as 0. JavaScript's `Number` also accepts surrounding whitespace, a leading "+" ("+1"), hexadecimal, binary and octal literals ("0x1", "0b1", "0o7"), exponents, fractions that are integers and "-0", so those versions are rejected here although the script accepts them.
- `Messages.NewestFirst`: the order among messages with equal createdAt (the index's tie-break) is not stated.
- `Text.Trim`, `Text.ToLower`: whitespace and case folding are ASCII only.
- Numbers are unbounded integers; JavaScript's floating-point widths and timestamps are not modelled.
- The scripts release.ts and verify-renderables-only.ts, the keyboard predicates, the login, sign-up and splash screens, and the design system are not part of this model.
