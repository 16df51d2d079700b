/**
 * What handle_key_event of src/ui/rooms.rs promises, stated on KeyOutcome:
 * how each of the three states reacts, which keys count as handled, and
 * how the set of running rooms may change.
 */
module RoomsProps {
  import opened Base
  import opened RoomsState

  // ---------------------------------------------------------------------------
  // The "connect to" prompt
  // ---------------------------------------------------------------------------

  /** Esc in the prompt always returns to the list and touches no room. */
  lemma PromptEscapes(ed: EditorState, rooms: map<string, EuphRoom>, selected: Option<string>,
                      roomHandled: bool, created: EuphRoom)
    requires PromptOk(ed)
    ensures KeyOutcome(Connect(ed), rooms, Esc, selected, roomHandled, created)
      == Outcome(ShowList, rooms, true)
  {
  }

  /** Enter in the prompt enters the typed room when the text is not empty,
      creating the room if it is not running, and otherwise does nothing
      while still counting as handled. */
  lemma PromptEnter(ed: EditorState, rooms: map<string, EuphRoom>, selected: Option<string>,
                    roomHandled: bool, created: EuphRoom)
    requires PromptOk(ed)
    ensures var out := KeyOutcome(Connect(ed), rooms, Enter, selected, roomHandled, created);
      out.handled
      && (|ed.text| == 0 ==> out.state == Connect(ed) && out.rooms == rooms)
      && (|ed.text| > 0 ==> out.state == ShowRoom(ed.text) && ed.text in out.rooms
                            && out.rooms.Keys == rooms.Keys + {ed.text})
  {
  }

  /** A typed character reaches the prompt exactly when it may be part of a
      room name; it is then inserted at the cursor. Any other character is
      left to the caller. */
  lemma PromptTyping(ed: EditorState, c: char, rooms: map<string, EuphRoom>, selected: Option<string>,
                     roomHandled: bool, created: EuphRoom)
    requires PromptOk(ed)
    ensures var out := KeyOutcome(Connect(ed), rooms, Char(c), selected, roomHandled, created);
      (out.handled <==> IsRoomChar(c))
      && out.rooms == rooms
      && (IsRoomChar(c) ==> out.state == Connect(InsertChar(ed, c)))
      && (!IsRoomChar(c) ==> out.state == Connect(ed))
  {
  }

  /** Inserting a room character keeps the text a possible room name. */
  lemma {:induction false} InsertKeepsRoomText(ed: EditorState, c: char)
    requires PromptOk(ed) && IsRoomChar(c)
    ensures PromptOk(InsertChar(ed, c))
  {
    var r := InsertChar(ed, c);
    assert r.text == ed.text[..ed.cursor] + [c] + ed.text[ed.cursor..];
    forall i | 0 <= i < |r.text|
      ensures IsRoomChar(r.text[i])
    {
      if i < ed.cursor {
        assert r.text[i] == ed.text[i];
      } else if i > ed.cursor {
        assert r.text[i] == ed.text[i - 1];
      }
    }
  }

  /** Deleting characters keeps the text a possible room name. */
  lemma {:induction false} DeleteKeepsRoomText(ed: EditorState)
    requires PromptOk(ed)
    ensures PromptOk(Backspace(ed)) && PromptOk(Delete(ed))
  {
    var bs := Backspace(ed);
    forall i | 0 <= i < |bs.text|
      ensures IsRoomChar(bs.text[i])
    {
      if ed.cursor > 0 {
        if i < ed.cursor - 1 {
          assert bs.text[i] == ed.text[i];
        } else {
          assert bs.text[i] == ed.text[i + 1];
        }
      }
    }
    var dl := Delete(ed);
    forall i | 0 <= i < |dl.text|
      ensures IsRoomChar(dl.text[i])
    {
      if ed.cursor < |ed.text| {
        if i < ed.cursor {
          assert dl.text[i] == ed.text[i];
        } else {
          assert dl.text[i] == ed.text[i + 1];
        }
      }
    }
  }

  /** Every key keeps the prompt's text a possible room name, and a room
      entered from the prompt has a nonempty name made of room characters. */
  lemma KeyKeepsPrompt(st: State, rooms: map<string, EuphRoom>, event: KeyEvent, selected: Option<string>,
                       roomHandled: bool, created: EuphRoom)
    requires StateOk(st)
    ensures var out := KeyOutcome(st, rooms, event, selected, roomHandled, created);
      StateOk(out.state)
      && (st.Connect? && out.state.ShowRoom? ==> |out.state.name| > 0 && RoomText(out.state.name))
  {
    if st.Connect? {
      DeleteKeepsRoomText(st.editor);
      if event.Char? && IsRoomChar(event.c) {
        InsertKeepsRoomText(st.editor, event.c);
      }
    }
  }

  // ---------------------------------------------------------------------------
  // The room list
  // ---------------------------------------------------------------------------

  /** Enter in the list shows a room exactly when the list cursor is on
      one, and then that room. */
  lemma ListEnter(rooms: map<string, EuphRoom>, selected: Option<string>, roomHandled: bool,
                  created: EuphRoom, name: string)
    ensures var out := KeyOutcome(ShowList, rooms, Enter, selected, roomHandled, created);
      out.handled && out.rooms == rooms
      && (out.state == ShowRoom(name) <==> selected == Some(name))
      && (selected.None? ==> out.state == ShowList)
  {
  }

  /** 'C' opens the prompt with an empty text. */
  lemma ListConnectNew(rooms: map<string, EuphRoom>, selected: Option<string>, roomHandled: bool,
                       created: EuphRoom)
    ensures var out := KeyOutcome(ShowList, rooms, Char('C'), selected, roomHandled, created);
      out.handled && out.rooms == rooms && out.state.Connect?
      && out.state.editor.text == "" && PromptOk(out.state.editor)
  {
  }

  /** The list handles exactly its movement keys, Enter, and c, C, d, D. */
  lemma ListHandledKeys(rooms: map<string, EuphRoom>, event: KeyEvent, selected: Option<string>,
                        roomHandled: bool, created: EuphRoom)
    ensures var out := KeyOutcome(ShowList, rooms, event, selected, roomHandled, created);
      out.handled <==> ListMovement(event) || event == Enter
                       || event in {Char('c'), Char('C'), Char('d'), Char('D')}
  {
  }

  /** Moving the list's cursor changes neither the state nor the rooms. */
  lemma ListMovementChangesNothing(rooms: map<string, EuphRoom>, event: KeyEvent, selected: Option<string>,
                                   roomHandled: bool, created: EuphRoom)
    requires ListMovement(event)
    ensures KeyOutcome(ShowList, rooms, event, selected, roomHandled, created) == Outcome(ShowList, rooms, true)
  {
  }

  // ---------------------------------------------------------------------------
  // A shown room
  // ---------------------------------------------------------------------------

  /** A shown room is running after every key. It is left only for the list,
      and only by an Esc the room itself does not handle. */
  lemma ShownRoom(name: string, rooms: map<string, EuphRoom>, event: KeyEvent, selected: Option<string>,
                  roomHandled: bool, created: EuphRoom)
    ensures var out := KeyOutcome(ShowRoom(name), rooms, event, selected, roomHandled, created);
      name in out.rooms
      && (out.state == ShowList <==> !roomHandled && event == Esc)
      && (out.state != ShowList ==> out.state == ShowRoom(name))
      && (out.handled <==> roomHandled || event == Esc)
  {
  }

  // ---------------------------------------------------------------------------
  // Across states
  // ---------------------------------------------------------------------------

  /** A key that is not handled leaves the state as it was; the rooms are
      unchanged too, except that a shown room has been made to run. */
  lemma UnhandledChangesNothing(st: State, rooms: map<string, EuphRoom>, event: KeyEvent,
                                selected: Option<string>, roomHandled: bool, created: EuphRoom)
    requires StateOk(st)
    ensures var out := KeyOutcome(st, rooms, event, selected, roomHandled, created);
      !out.handled ==>
        out.state == st
        && out.rooms == (if st.ShowRoom? then GetOrInsert(rooms, st.name, created) else rooms)
  {
  }

  /** 'D' on a selected room is the only way a running room goes away, and
      no key replaces a running room by another. */
  lemma OnlyDeleteRemoves(st: State, rooms: map<string, EuphRoom>, event: KeyEvent,
                          selected: Option<string>, roomHandled: bool, created: EuphRoom, n: string)
    requires StateOk(st) && n in rooms
    ensures var out := KeyOutcome(st, rooms, event, selected, roomHandled, created);
      (n !in out.rooms <==> st == ShowList && event == Char('D') && selected == Some(n))
      && (n in out.rooms ==> out.rooms[n] == rooms[n])
  {
  }

  /** A room that starts running was asked for by name: with c or d in the
      list, by being shown, or by Enter in the prompt. */
  lemma NewRoomsAreNamed(st: State, rooms: map<string, EuphRoom>, event: KeyEvent,
                         selected: Option<string>, roomHandled: bool, created: EuphRoom, n: string)
    requires StateOk(st) && n !in rooms
    ensures var out := KeyOutcome(st, rooms, event, selected, roomHandled, created);
      n in out.rooms ==>
        out.rooms[n] == created
        && ((st == ShowList && event in {Char('c'), Char('d')} && selected == Some(n))
            || st == ShowRoom(n)
            || (st.Connect? && event == Enter && st.editor.text == n))
  {
  }
}
