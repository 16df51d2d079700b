# cove: the chat cursor engine, the room list and the packet unions

This project models three parts of cove, a terminal client for euphoria-style
threaded chat rooms, and proves properties of the model.

* **The cursor engine of a chat tree view** (`src/ui/chat/tree/cursor.rs`).
  A room's messages form a forest of reply trees. The cursor sits in one of
  four places:
  * `Bottom`, below all messages;
  * on a message (`Msg`);
  * in the reply editor (`Editor`);
  * on the placeholder row of a reply being composed (`Pseudo`).

  The engine moves the cursor in four ways:
  * up and down through the depth-first order, skipping folded subtrees;
  * from sibling to sibling;
  * to the parent or to the root;
  * through the chronological order of all messages or of unseen ones only.

  It also picks the parent of a new reply with two complementary
  heuristics. The message store is read-only to the engine and is modelled
  as an immutable forest snapshot (module `Store`). Any store request can
  fail, and a failed request leaves the view unchanged.
  * `TreeCursor` holds the cursor engine:
    * the `find_*` helpers as methods;
    * one specification function per helper (`…Step`) and per move
      (`…Target`);
    * a `TreeView` class whose `move_cursor_*`, `scroll_*` and
      `center_cursor` methods update `cursor`, `correction` and `scroll`.
  * `CursorProps` holds the lemmas about those functions:
    * down and up are inverse;
    * folding keeps the cursor on visible messages;
    * sibling moves keep the depth;
    * the two ends of the order;
    * chronological walks;
    * the reply heuristics;
    * scrolling.
* **The room list** (`src/ui/rooms.rs`):
  * `Rooms` holds the `p/b/l/n` population summary (`format_pbln`) and the
    status suffix (`format_status`), with a parser that shows the text
    determines the counts.
  * `RoomsState` holds these list operations:
    * the list of room names (`room_names`);
    * the retain filter for running rooms (`stabilize_rooms`);
    * the three-state key handler (`handle_key_event`), in a `Rooms` class
      with the fields `state` and `euphRooms`.
  * `RoomsProps` states what each key does in each state.
* **The packet unions** (`cove-core/src/macros.rs`). The `packets!` macro
  generates the tagged unions `Cmd`, `Rpl` and `Ntf`, each with `From`
  injections and `TryFrom` projections. Module `Packets` writes out one
  expansion: three commands (Nick, Send, Who) and three notifications
  (Join, Nick, Part). It proves the round trips, the mismatch errors and the
  pairing of commands with replies.

Two moves treat an `Editor` or `Pseudo` cursor as follows:
* `move_cursor_to_parent` leaves an `Editor` cursor unchanged and moves a
  `Pseudo` cursor with a parent to that parent;
* `move_cursor_to_root` leaves an `Editor` cursor unchanged and asks the
  store for the path of a `Pseudo` cursor's parent, so that request can
  fail.

`move_cursor_up_sibling` from a `Pseudo` cursor with a parent moves to the
parent's last child even when the parent is folded, and the model keeps that
behaviour.

## Model

| member | source | states |
|---|---|---|
| TreeCursor.RefersTo | src/ui/chat/tree/cursor.rs:33-39 | true exactly when the cursor is on message `id` |
| TreeCursor.RefersToLastChildOf | src/ui/chat/tree/cursor.rs:41-55 | true exactly when an editor or placeholder cursor has parent `id` |
| TreeCursor.FindParent | src/ui/chat/tree/cursor.rs:59-66 | moves exactly when the message has a parent, to that parent, one level up and within the same tree |
| TreeCursor.FindFirstChild | src/ui/chat/tree/cursor.rs:68-79 | a folded message never moves; otherwise it moves exactly when it has children, to the first child one level down |
| TreeCursor.FindLastChild | src/ui/chat/tree/cursor.rs:81-92 | a folded message never moves; otherwise it moves exactly when it has children, to the last child one level down |
| TreeCursor.DescendLast | src/ui/chat/tree/cursor.rs:158 | the `while find_last_child {}` loop ends on LastDescendant: the deepest last unfolded descendant, in the same tree |
| TreeCursor.LastDescendant | src/ui/chat/tree/cursor.rs:158 | stays in the tree of its start; stays put exactly when the start is folded or childless; otherwise ends strictly deeper |
| TreeCursor.FindPrevSibling | src/ui/chat/tree/cursor.rs:97-119 | result, tree and id are those of PrevSiblingStep: a failure or a `false` leaves tree and id unchanged |
| TreeCursor.FindNextSibling | src/ui/chat/tree/cursor.rs:124-146 | result, tree and id are those of NextSiblingStep, with the same failure rule |
| TreeCursor.FindPrevMsg | src/ui/chat/tree/cursor.rs:149-164 | result, tree and id are those of PrevMsgStep: the previous sibling's last descendant, else the parent |
| TreeCursor.FindNextMsg | src/ui/chat/tree/cursor.rs:167-192 | result, tree and id are those of NextMsgStep, which tries the first child, then the next sibling, then the next sibling of each ancestor; on `false` the id is unchanged |
| TreeCursor.PrevSiblingStep | src/ui/chat/tree/cursor.rs:97-119 | every move lands on a message of the tree it names |
| TreeCursor.NextSiblingStep | src/ui/chat/tree/cursor.rs:124-146 | every move lands on a message of the tree it names |
| TreeCursor.ClimbStep | src/ui/chat/tree/cursor.rs:183-191 | the parent-climbing loop lands on a message of the tree it names |
| TreeCursor.NextMsgStep | src/ui/chat/tree/cursor.rs:167-192 | every move lands on a message of the tree it names |
| TreeCursor.PrevMsgStep | src/ui/chat/tree/cursor.rs:149-164 | every move lands on a message of the tree it names |
| TreeCursor.PathTree | src/ui/chat/tree/cursor.rs:205-206 | `tree(path(id).first())`, when it succeeds, is the tree that contains `id` |
| TreeCursor.WrapI32 | src/ui/chat/tree/cursor.rs:429-437 | the i32 result of `scroll ± amount`: in range, congruent modulo 2^32, and the plain sum when that is in range |
| TreeCursor.TreeView.MoveCursorUp | src/ui/chat/tree/cursor.rs:194-222 | new cursor and correction as UpTarget gives them; a failure changes nothing |
| CursorProps.UpTargetLands | src/ui/chat/tree/cursor.rs:194-222 | up lands on a message the forest holds or stays where it is, so it never produces Bottom or a placeholder; an editor stays |
| TreeCursor.TreeView.MoveCursorDown | src/ui/chat/tree/cursor.rs:224-254 | new cursor and correction as DownTarget gives them; a failure changes nothing |
| CursorProps.DownTargetLands | src/ui/chat/tree/cursor.rs:224-254 | down lands on a message the forest holds or on Bottom, and never leaves a placeholder in place; Bottom and an editor stay |
| TreeCursor.TreeView.MoveCursorUpSibling | src/ui/chat/tree/cursor.rs:256-284 | new cursor and correction as UpSiblingTarget gives them |
| CursorProps.UpSiblingTargetLands | src/ui/chat/tree/cursor.rs:256-284 | up-sibling lands on a message the forest holds or stays; an editor stays |
| TreeCursor.TreeView.MoveCursorDownSibling | src/ui/chat/tree/cursor.rs:286-304 | new cursor and correction as DownSiblingTarget gives them |
| CursorProps.DownSiblingTargetLands | src/ui/chat/tree/cursor.rs:286-304 | down-sibling lands on a message, on Bottom or stays; a message reaches Bottom only from a root; a top-level placeholder becomes Bottom; Bottom, an editor and a placeholder with a parent stay |
| TreeCursor.TreeView.MoveCursorToParent | src/ui/chat/tree/cursor.rs:306-322 | new cursor and correction as ParentTarget gives them |
| CursorProps.ParentTargetLands | src/ui/chat/tree/cursor.rs:306-322 | a message with a parent moves to that parent and a message without one stays; a placeholder with a parent moves to it without a store request; only a message's request can fail |
| TreeCursor.TreeView.MoveCursorToRoot | src/ui/chat/tree/cursor.rs:324-341 | new cursor and correction as RootTarget gives them |
| CursorProps.RootTargetLands | src/ui/chat/tree/cursor.rs:324-341 | a message, or a placeholder with a parent, moves to a root: a message of the root sequence without a parent; every other cursor stays |
| TreeCursor.TreeView.MoveCursorOlder | src/ui/chat/tree/cursor.rs:343-359 | new cursor and correction as OlderTarget over all messages gives them |
| CursorProps.OlderTargetLands | src/ui/chat/tree/cursor.rs:343-359 | a cursor that moves lands on a message of the chronology, and on an unseen message when only unseen messages are followed (lines 379-395); an editor stays |
| TreeCursor.TreeView.MoveCursorNewer | src/ui/chat/tree/cursor.rs:361-377 | new cursor and correction as NewerTarget over all messages gives them |
| CursorProps.NewerTargetLands | src/ui/chat/tree/cursor.rs:361-377 | a cursor that moves lands on Bottom or on a message of the chronology, an unseen one when only unseen messages are followed (lines 397-413); a placeholder becomes Bottom; Bottom and an editor stay |
| TreeCursor.TreeView.MoveCursorOlderUnseen | src/ui/chat/tree/cursor.rs:379-395 | new cursor and correction as OlderTarget over unseen messages gives them |
| TreeCursor.TreeView.MoveCursorNewerUnseen | src/ui/chat/tree/cursor.rs:397-413 | new cursor and correction as NewerTarget over unseen messages gives them |
| TreeCursor.TreeView.MoveCursorToTop | src/ui/chat/tree/cursor.rs:415-421 | cursor and correction change only when a first root exists: the cursor moves to that root |
| TreeCursor.TreeView.MoveCursorToBottom | src/ui/chat/tree/cursor.rs:423-427 | cursor Bottom and correction MakeCursorVisible; the view stays valid |
| TreeCursor.TreeView.ScrollUp | src/ui/chat/tree/cursor.rs:429-432 | scroll grows by `amount` with i32 wrap-around; correction MoveCursorToVisibleArea |
| TreeCursor.TreeView.ScrollDown | src/ui/chat/tree/cursor.rs:434-437 | scroll shrinks by `amount` with i32 wrap-around; correction MoveCursorToVisibleArea |
| TreeCursor.TreeView.CenterCursor | src/ui/chat/tree/cursor.rs:439-441 | only the correction changes, to CenterCursor; the view stays valid |
| Store.PathRoot | src/ui/chat/tree/cursor.rs:205-206 | `path(id).first()` succeeds exactly for a known id whose request does not fail, and then is that tree's root |
| Store.TreeOf | src/ui/chat/tree/cursor.rs:315 | `tree(id)` succeeds exactly for a known id whose request does not fail, and then contains `id` |
| Store.RootOf | src/ui/chat/tree/cursor.rs:331 | the first element of a message's path is a parentless root of the root sequence |
| Store.OlderUnseenMsgId | src/ui/chat/tree/cursor.rs:382 | answers only unseen messages |
| Store.NewerUnseenMsgId | src/ui/chat/tree/cursor.rs:400 | answers only unseen messages |
| Store.NewestUnseenMsgId | src/ui/chat/tree/cursor.rs:387 | answers only unseen messages |
| Store.DepthBound | src/ui/chat/tree/cursor.rs:158 | a message has fewer ancestors than the forest has messages, so the descend and climb loops end |
| CursorProps.PrevSiblingStepCases | src/ui/chat/tree/cursor.rs:97-119 | a move keeps the depth and goes to a sibling in the same tree, or from a root to the previous root with its tree; it stays only without a sibling, and otherwise the store's failure is passed on |
| CursorProps.NextSiblingStepCases | src/ui/chat/tree/cursor.rs:124-146 | the same for the next sibling and the next root |
| CursorProps.SiblingStepsInverse | src/ui/chat/tree/cursor.rs:97-146 | without failures, the next-sibling step from x lands on y exactly when the previous-sibling step from y lands on x |
| CursorProps.TreeOfMessage | src/ui/chat/tree/cursor.rs:205-206 | a tree containing a message is the tree of its root |
| CursorProps.UpKeepsVisible | src/ui/chat/tree/cursor.rs:194-222 | from a cursor on a visible message (not inside a folded subtree), moving up lands on a visible message |
| CursorProps.DownKeepsVisible | src/ui/chat/tree/cursor.rs:224-254 | the same for moving down |
| CursorProps.LastDescendantVisible | src/ui/chat/tree/cursor.rs:200 | descending through last children from a visible message stays visible |
| CursorProps.NextMsgStepVisible | src/ui/chat/tree/cursor.rs:167-192 | the next message of a visible message is visible |
| CursorProps.PrevMsgStepVisible | src/ui/chat/tree/cursor.rs:149-164 | the previous message of a visible message is visible |
| CursorProps.SiblingMovesKeepDepth | src/ui/chat/tree/cursor.rs:256-304 | up and down sibling moves from a visible message land on a visible message at the same depth |
| CursorProps.NextMsgAfterLastDescendant | src/ui/chat/tree/cursor.rs:167-192 | the message after a subtree's last descendant is the one after the whole subtree |
| CursorProps.DownThenUpStep | src/ui/chat/tree/cursor.rs:149-192 | without failures, find_prev_msg undoes find_next_msg on visible messages |
| CursorProps.UpThenDownStep | src/ui/chat/tree/cursor.rs:149-192 | without failures, find_next_msg undoes find_prev_msg on visible messages |
| CursorProps.DownThenUp | src/ui/chat/tree/cursor.rs:194-254 | move_cursor_up undoes a move_cursor_down between messages |
| CursorProps.UpThenDown | src/ui/chat/tree/cursor.rs:194-254 | move_cursor_down undoes a move_cursor_up that moved |
| CursorProps.UpStopsOnlyAtFirstRoot | src/ui/chat/tree/cursor.rs:149-164 | find_prev_msg stays exactly on the first root |
| CursorProps.DownStopsOnlyAtLast | src/ui/chat/tree/cursor.rs:167-192 | find_next_msg from a visible message stays exactly on the last visible message |
| CursorProps.LastMessageStops | src/ui/chat/tree/cursor.rs:167-192 | the last visible message has no next message |
| CursorProps.BottomFollowsLastMessage | src/ui/chat/tree/cursor.rs:194-232 | down from a message reaches Bottom exactly on the last visible message, and up from Bottom lands on it |
| CursorProps.EmptyRoomStaysAtBottom | src/ui/chat/tree/cursor.rs:196-354 | with no messages, up, up-sibling and older leave Bottom where it is |
| CursorProps.PlaceholderDownSkipsSubtree | src/ui/chat/tree/cursor.rs:236-249 | down from a placeholder under p goes to the message after p's whole subtree, or to Bottom |
| CursorProps.PlaceholderFallsToBottom | src/ui/chat/tree/cursor.rs:233-408 | a placeholder always becomes Bottom on newer; a top-level placeholder also on down and down-sibling |
| CursorProps.DownSiblingToBottom | src/ui/chat/tree/cursor.rs:286-296 | down-sibling from a message reaches Bottom exactly from the last root |
| CursorProps.EditorStays | src/ui/chat/tree/cursor.rs:209-409 | every move except top and bottom leaves an editor cursor unchanged |
| CursorProps.OlderNewerInverse | src/ui/chat/tree/cursor.rs:343-377 | newer from x lands on y exactly when older from y lands on x |
| CursorProps.OlderFromBottom | src/ui/chat/tree/cursor.rs:350-368 | older from Bottom or a placeholder lands on the newest message, from which newer returns to Bottom |
| CursorProps.OlderUnseenFromBottom | src/ui/chat/tree/cursor.rs:379-413 | older-unseen from Bottom or a placeholder lands on the k-th message exactly when it is the newest unseen one, newer-unseen from there returns to Bottom, and with no unseen message the cursor stays |
| CursorProps.NewerTimesFromBottom | src/ui/chat/tree/cursor.rs:373 | newer leaves Bottom where it is, however often repeated |
| CursorProps.NewerWalk | src/ui/chat/tree/cursor.rs:361-377 | k newer moves from the i-th message land on the (i+k)-th, or on Bottom past the newest |
| CursorProps.WalkWholeChronology | src/ui/chat/tree/cursor.rs:361-377 | newer moves from the oldest message visit every message in order and end on Bottom |
| CursorProps.NewerUnseenAt | src/ui/chat/tree/cursor.rs:397-405 | the next unseen message after position i is at j exactly when j is later, unseen, and nothing in between is unseen |
| CursorProps.OlderUnseenAt | src/ui/chat/tree/cursor.rs:379-385 | the previous unseen message, characterised the same way |
| CursorProps.UnseenMovesInverse | src/ui/chat/tree/cursor.rs:379-413 | between unseen messages, newer-unseen and older-unseen are inverse |
| CursorProps.ReplyHeuristicsComplement | src/ui/chat/tree/cursor.rs:445-497 | Bottom gives a top-level reply; editors and placeholders give none; for a message with a parent the two heuristics pick opposite targets, the message itself exactly when a next sibling exists; for a root message both pick the message |
| TreeCursor.ParentForNormalReply | src/ui/chat/tree/cursor.rs:445-471 | a reply is possible exactly at Bottom (top-level) or on a message, whose reply goes to the message itself or to its parent; only a message's requests can fail |
| TreeCursor.ParentForAlternateReply | src/ui/chat/tree/cursor.rs:475-497 | the same shape as the normal reply: Bottom gives a top-level reply, a message a reply to itself or its parent, anything else none |
| CursorProps.ScrollUpDownInverse | src/ui/chat/tree/cursor.rs:429-437 | scrolling up and then down by the same i32 amount restores the offset, wrap-around included |
| CursorProps.WrapI32Shift | src/ui/chat/tree/cursor.rs:430 | wrapping ignores multiples of 2^32 |
| Rooms.Tally | src/ui/rooms.rs:126-137 | the four category counts add up to the number of sessions counted |
| Rooms.CategoryOf | src/ui/rooms.rs:131-136 | a session is a lurker or nurker exactly when its nick is empty, and a bot or nurker exactly when its type is bot |
| Rooms.PblnCountsEveryone | src/ui/rooms.rs:130 | p + b + l + n is one more than the size of the listing, because the own session is counted |
| Rooms.TallyPermutation | src/ui/rooms.rs:130 | the counts do not depend on the order of the listing |
| Rooms.CountCategories | src/ui/rooms.rs:126-137 | the counting loop yields the per-category counts of all sessions |
| Rooms.FormatPbln | src/ui/rooms.rs:125-155 | the text is the nonzero counts, in the order p, b, l, n, joined by single spaces |
| Rooms.PblnNonEmpty | src/ui/rooms.rs:139-140 | the summary is never empty and starts with a digit |
| Rooms.Decimal | src/ui/rooms.rs:143 | a count prints as a nonempty run of digits, longer than one digit exactly from 10 on, and without a leading zero when it is positive |
| Rooms.DecimalRoundTrip | src/ui/rooms.rs:143 | a printed count reads back as the same number |
| Rooms.PblnRoundTrip | src/ui/rooms.rs:141-154 | the summary text determines the four counts |
| Rooms.PopulatedText | src/ui/rooms.rs:162 | a joined room's status text differs from the connecting, auth-required and joining texts |
| Rooms.StatusRoundTrip | src/ui/rooms.rs:157-164 | reading the status text back gives connecting, auth required, joining, or the room's counts, as the status was |
| Rooms.FormatStatus | src/ui/rooms.rs:157-164 | every status text is a parenthesised suffix: it starts with a space and `(` and ends with `)` |
| Rooms.StatusTextInjective | src/ui/rooms.rs:157-164 | equal status texts mean the same kind of status with the same counts |
| RoomsState.Stabilized | src/ui/rooms.rs:69-70 | a running room is kept exactly when it has not stopped or the database knows it, unchanged |
| RoomsState.StabilizeIdempotent | src/ui/rooms.rs:62-75 | stabilising twice against the same database keeps the same rooms as once |
| RoomsState.Rooms.StabilizeRooms | src/ui/rooms.rs:62-75 | the running rooms become the stabilised ones |
| RoomsState.GetOrInsert | src/ui/rooms.rs:87-91 | afterwards the name is running; an existing room is kept, a missing one is created; no other room changes |
| RoomsState.Rooms.GetOrInsertRoom | src/ui/rooms.rs:87-91 | the running rooms become GetOrInsert of the old ones |
| RoomsState.SortNames | src/ui/rooms.rs:82 | `sort_unstable`: ascending and a permutation of its input |
| RoomsState.Dedup | src/ui/rooms.rs:83 | `dedup`: the same names; strictly ascending when the input was sorted |
| RoomsState.Rooms.RoomNames | src/ui/rooms.rs:77-85 | strictly ascending, and a name is listed exactly when the database or the running rooms have it |
| RoomsState.StrictlySortedUnique | src/ui/rooms.rs:82-83 | the listing is determined by its set of names, whatever order the map's keys came in |
| RoomsState.LessTotal | src/ui/rooms.rs:82 | two different names are ordered one way or the other |
| RoomsState.LessTransitive | src/ui/rooms.rs:82 | name order is transitive |
| RoomsState.Rooms.constructor | src/ui/rooms.rs:47-55 | starts on the list with no running rooms |
| RoomsState.Rooms.HandleKeyEvent | src/ui/rooms.rs:242-317 | new state, new running rooms and the handled flag as KeyOutcome gives them; a valid prompt stays valid |
| RoomsState.KeyOutcome | src/ui/rooms.rs:242-317 | an unhandled key leaves the state as it was, and no running room is replaced by another value |
| RoomsState.InsertChar | src/ui/rooms.rs:307 | inserts the character at the cursor and moves the cursor past it |
| RoomsState.Backspace | src/ui/rooms.rs:310 | removes the character before the cursor, if any |
| RoomsState.Delete | src/ui/rooms.rs:311 | removes the character after the cursor, if any |
| RoomsState.MoveLeft | src/ui/rooms.rs:308 | moves the cursor one left unless it is at the start |
| RoomsState.MoveRight | src/ui/rooms.rs:309 | moves the cursor one right unless it is at the end |
| RoomsProps.PromptEscapes | src/ui/rooms.rs:299 | Esc in the prompt returns to the list and touches no room |
| RoomsProps.PromptEnter | src/ui/rooms.rs:300-306 | Enter with an empty name changes nothing; with a name it shows that room and makes it run |
| RoomsProps.PromptTyping | src/ui/rooms.rs:307-312 | a character is handled exactly when it is an ASCII letter or digit or '_', and only then inserted |
| RoomsProps.KeyKeepsPrompt | src/ui/rooms.rs:298-313 | the prompt's text stays a possible room name; a room entered from the prompt has a nonempty such name |
| RoomsProps.InsertKeepsRoomText | src/ui/rooms.rs:307 | inserting a room character keeps the text a possible room name |
| RoomsProps.DeleteKeepsRoomText | src/ui/rooms.rs:310-311 | deleting keeps the text a possible room name |
| RoomsProps.ListEnter | src/ui/rooms.rs:257-261 | Enter shows a room exactly when the list cursor is on one, and then that room |
| RoomsProps.ListConnectNew | src/ui/rooms.rs:267 | 'C' opens the prompt with an empty text |
| RoomsProps.ListHandledKeys | src/ui/rooms.rs:249-281 | the list handles exactly its movement keys, Enter, c, C, d and D |
| RoomsProps.ListMovementChangesNothing | src/ui/rooms.rs:250-255 | list movement changes neither the state nor the rooms |
| RoomsProps.ShownRoom | src/ui/rooms.rs:282-297 | the shown room is running afterwards; it is left, for the list, only by an Esc the room does not handle |
| RoomsProps.UnhandledChangesNothing | src/ui/rooms.rs:280-312 | an unhandled key leaves the state unchanged, and the rooms too apart from the shown room being made to run |
| RoomsProps.OnlyDeleteRemoves | src/ui/rooms.rs:273-279 | 'D' on the selected room is the only way a running room goes away; no key replaces a room |
| RoomsProps.NewRoomsAreNamed | src/ui/rooms.rs:262-304 | a room starts running only when named by c or d, by being shown, or by Enter in the prompt |
| Packets.NickCmdIntoCmd | cove-core/src/macros.rs:47-51 | `From` puts a payload in its own variant |
| Packets.NickCmdFromCmd | cove-core/src/macros.rs:37-45 | `TryFrom` succeeds exactly on the payload's own variant |
| Packets.SendCmdIntoCmd | cove-core/src/macros.rs:47-51 | `From` puts a Send payload in the Send variant |
| Packets.WhoCmdIntoCmd | cove-core/src/macros.rs:47-51 | `From` puts a Who payload in the Who variant |
| Packets.SendCmdFromCmd | cove-core/src/macros.rs:37-45 | `TryFrom` succeeds exactly on the Send variant |
| Packets.WhoCmdFromCmd | cove-core/src/macros.rs:37-45 | `TryFrom` succeeds exactly on the Who variant |
| Packets.NickRplIntoRpl | cove-core/src/macros.rs:71-75 | `From` puts a Nick reply in the Nick variant of `Rpl` |
| Packets.SendRplIntoRpl | cove-core/src/macros.rs:71-75 | `From` puts a Send reply in the Send variant of `Rpl` |
| Packets.WhoRplIntoRpl | cove-core/src/macros.rs:71-75 | `From` puts a Who reply in the Who variant of `Rpl` |
| Packets.NickRplFromRpl | cove-core/src/macros.rs:61-69 | `TryFrom` succeeds exactly on the Nick variant of `Rpl` |
| Packets.SendRplFromRpl | cove-core/src/macros.rs:61-69 | `TryFrom` succeeds exactly on the Send variant of `Rpl` |
| Packets.WhoRplFromRpl | cove-core/src/macros.rs:61-69 | `TryFrom` succeeds exactly on the Who variant of `Rpl` |
| Packets.JoinNtfIntoNtf | cove-core/src/macros.rs:95-99 | `From` puts a Join payload in the Join variant of `Ntf` |
| Packets.NickNtfIntoNtf | cove-core/src/macros.rs:95-99 | `From` puts a Nick payload in the Nick variant of `Ntf` |
| Packets.PartNtfIntoNtf | cove-core/src/macros.rs:95-99 | `From` puts a Part payload in the Part variant of `Ntf` |
| Packets.JoinNtfFromNtf | cove-core/src/macros.rs:85-93 | `TryFrom` succeeds exactly on the Join variant of `Ntf` |
| Packets.NickNtfFromNtf | cove-core/src/macros.rs:85-93 | `TryFrom` succeeds exactly on the Nick variant of `Ntf` |
| Packets.PartNtfFromNtf | cove-core/src/macros.rs:85-93 | `TryFrom` succeeds exactly on the Part variant of `Ntf` |
| Packets.CmdRoundTrip | cove-core/src/macros.rs:37-51 | `TryFrom` after `From` gives the payload back; a successful `TryFrom` is undone by `From` |
| Packets.CmdMismatch | cove-core/src/macros.rs:39-44 | a command of another variant projects to `Err(())` |
| Packets.CmdProjectsOnce | cove-core/src/macros.rs:32-45 | every command projects to exactly one payload type |
| Packets.RplRoundTrip | cove-core/src/macros.rs:60-76 | the round trips for replies |
| Packets.RplMismatch | cove-core/src/macros.rs:63-68 | the mismatch errors for replies |
| Packets.NtfRoundTrip | cove-core/src/macros.rs:84-100 | the round trips for notifications |
| Packets.NtfMismatch | cove-core/src/macros.rs:87-92 | the mismatch errors for notifications |
| Packets.ReplyPairing | cove-core/src/macros.rs:32-58 | a reply answers a command, by sharing its variant name, exactly when it projects to that command's reply type |
| Packets.NamesShared | cove-core/src/macros.rs:32-58 | every command name is also a reply name |

## Left out

- The message store's implementation (an actor over SQLite) is not part of this model. It is a read-only forest snapshot; every request may fail, and a failure is the abstract `Fault`.
- `store.tree(id)` is taken to return the tree that contains `id`. The source passes non-root ids to it (lines 214, 240 and 315).
- Async/await: every store call is one synchronous step of one request.
- The error values of the store are two abstract values, `NotFound` and `Fault`.
- How a `Correction` is resolved against the screen is not modelled: that is the renderer's job.
- The `Cursor::editor` constructor (cursor.rs:24-29) is used as the plain datatype constructor.
- TreeCursor.TreeView.ScrollUp: wraps around like an i32 in a release build. A debug build panics on overflow instead, and that is not modelled.
- TreeCursor.TreeView.ScrollDown: wraps around like an i32 in a release build, as ScrollUp does. A debug build panics on overflow instead, and that is not modelled.
- The counters of format_pbln (`usize`) are unbounded integers; overflow is out of reach.
- A session's id is reduced to its session type, and the listing, a hash map, to the sequence of its values. Rooms.TallyPermutation shows the order of that sequence does not matter.
- A running `EuphRoom` is reduced to whether it has stopped. `EuphRoom::new` becomes the `created` parameter. The room's own key handling becomes the boolean `roomHandled`. These effects are not modelled: `connect`, `disconnect`, `retain`, the vault's `delete`, and `vault.euph(..)`.
- The database's room list is a parameter, since it comes from the vault.
- The list widget (`ListState`) is a parameter: the room under its cursor. Its own cursor and scroll movement are not modelled; those keys are only shown to change nothing else.
- The layout of `EditorState` lives in a file that is not part of this model. It is modelled as a text with a character cursor. Graphemes, widths and highlighting are not modelled.
- The `widget` method's choice to stabilise outside `ShowRoom` is not modelled. Neither are `widget`, `rooms_widget`, `render_rows` and `list_key_bindings` (styling and layout).
- `sort_unstable` and `dedup` are stated on values by their contracts (SortNames, Dedup). They are library algorithms that work in place on the vector.
- The packets macro is modelled on one example expansion, because the list of packets is given where the macro is invoked, which is not part of this model. Serde's `tag`/`content` encoding and `id_alias` are not modelled.
- The terminal event loop, the vault, the configuration and the widgets are not modelled. They are I/O, concurrency and rendering.
