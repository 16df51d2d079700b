/**
 * The room list of src/ui/rooms.rs: which rooms are listed (room_names),
 * which running rooms are kept (stabilize_rooms), and how key presses move
 * between the list, a room and the "connect to" prompt (handle_key_event).
 *
 * The database of rooms (the vault) and the list widget's cursor are not
 * part of this model: the rooms the database knows and the room under the
 * list cursor are passed in. A running room is reduced to the one fact the
 * list logic reads, whether it has stopped; a room's own key handling is
 * passed in as the boolean it answers.
 */
module RoomsState {
  import opened Base

  // ---------------------------------------------------------------------------
  // The order of room names
  // ---------------------------------------------------------------------------

  /** Lexicographic order on strings, as `Ord` for Rust's `String` (byte
      order of UTF-8 agrees with code point order). */
  predicate Less(a: string, b: string)
    decreases |a|
  {
    if |a| == 0 then |b| > 0
    else if |b| == 0 then false
    else a[0] < b[0] || (a[0] == b[0] && Less(a[1..], b[1..]))
  }

  predicate Le(a: string, b: string) {
    a == b || Less(a, b)
  }

  lemma {:induction false} LessIrreflexive(a: string)
    ensures !Less(a, a)
    decreases |a|
  {
    if |a| > 0 {
      LessIrreflexive(a[1..]);
    }
  }

  lemma {:induction false} LessTransitive(a: string, b: string, c: string)
    requires Less(a, b) && Less(b, c)
    ensures Less(a, c)
    decreases |a|
  {
    if |a| > 0 && a[0] == b[0] && b[0] == c[0] {
      LessTransitive(a[1..], b[1..], c[1..]);
    }
  }

  lemma {:induction false} LessTotal(a: string, b: string)
    requires a != b
    ensures Less(a, b) || Less(b, a)
    decreases |a|
  {
    if |a| > 0 && |b| > 0 && a[0] == b[0] {
      assert a == [a[0]] + a[1..] && b == [b[0]] + b[1..];
      LessTotal(a[1..], b[1..]);
    }
  }

  lemma LessAsymmetric(a: string, b: string)
    requires Less(a, b)
    ensures !Less(b, a)
  {
    if Less(b, a) {
      LessTransitive(a, b, a);
      LessIrreflexive(a);
    }
  }

  lemma LeTransitive(a: string, b: string, c: string)
    requires Le(a, b) && Le(b, c)
    ensures Le(a, c)
  {
    if a != b && b != c {
      LessTransitive(a, b, c);
    }
  }

  predicate Sorted(s: seq<string>) {
    forall i, j :: 0 <= i < j < |s| ==> Le(s[i], s[j])
  }

  predicate StrictlySorted(s: seq<string>) {
    forall i, j :: 0 <= i < j < |s| ==> Less(s[i], s[j])
  }

  /** A strictly sorted list is determined by its elements: whatever order
      the names were gathered in, the listing comes out the same. */
  lemma {:induction false} StrictlySortedUnique(a: seq<string>, b: seq<string>)
    requires StrictlySorted(a) && StrictlySorted(b)
    requires forall x :: x in a <==> x in b
    ensures a == b
    decreases |a|
  {
    if |b| > 0 {
      var y := b[0];
      assert y in b;
    }
    if |a| > 0 {
      assert a[0] in b;
      assert b[0] in a;
      if a[0] != b[0] {
        var i :| 0 <= i < |b| && b[i] == a[0];
        var j :| 0 <= j < |a| && a[j] == b[0];
        assert Less(b[0], a[0]);
        assert Less(a[0], b[0]);
        LessAsymmetric(a[0], b[0]);
      } else {
        forall x | x in a[1..]
          ensures x in b[1..]
        {
          var k :| 1 <= k < |a| && a[k] == x;
          LessIrreflexive(a[0]);
          assert x in b;
        }
        forall x | x in b[1..]
          ensures x in a[1..]
        {
          var k :| 1 <= k < |b| && b[k] == x;
          LessIrreflexive(b[0]);
          assert x in a;
        }
        StrictlySortedUnique(a[1..], b[1..]);
      }
    }
  }

  // ---------------------------------------------------------------------------
  // sort_unstable and dedup, stated on values
  // ---------------------------------------------------------------------------

  function Insert(x: string, s: seq<string>): (r: seq<string>)
    requires Sorted(s)
    ensures Sorted(r)
    ensures multiset(r) == multiset(s) + multiset{x}
    decreases |s|
  {
    if |s| == 0 then [x]
    else if Le(x, s[0]) then
      InsertFrontSorted(x, s);
      [x] + s
    else
      LessTotal(x, s[0]);
      var rest := Insert(x, s[1..]);
      InsertBehindSorted(s[0], x, s[1..], rest);
      assert s == [s[0]] + s[1..];
      [s[0]] + rest
  }

  lemma InsertFrontSorted(x: string, s: seq<string>)
    requires Sorted(s) && |s| > 0 && Le(x, s[0])
    ensures Sorted([x] + s)
  {
    forall j | 0 < j < |s| + 1
      ensures Le(x, ([x] + s)[j])
    {
      LeTransitive(x, s[0], s[j - 1]);
    }
  }

  lemma InsertBehindSorted(y: string, x: string, tail: seq<string>, rest: seq<string>)
    requires Sorted([y] + tail) && Less(y, x) && Sorted(rest)
    requires multiset(rest) == multiset(tail) + multiset{x}
    ensures Sorted([y] + rest)
  {
    forall j | 0 <= j < |rest|
      ensures Le(y, rest[j])
    {
      assert rest[j] in multiset(rest);
      if rest[j] != x {
        assert rest[j] in multiset(tail);
        var k :| 0 <= k < |tail| && tail[k] == rest[j];
        assert ([y] + tail)[k + 1] == tail[k];
        assert Le(([y] + tail)[0], ([y] + tail)[k + 1]);
      }
    }
  }

  /** `sort_unstable`: the same names, in ascending order. */
  function SortNames(s: seq<string>): (r: seq<string>)
    ensures Sorted(r)
    ensures multiset(r) == multiset(s)
    decreases |s|
  {
    if |s| == 0 then []
    else
      assert s == [s[0]] + s[1..];
      Insert(s[0], SortNames(s[1..]))
  }

  /** `dedup`: drop every name equal to the one before it. */
  function Dedup(s: seq<string>): (r: seq<string>)
    ensures forall x :: x in r <==> x in s
    ensures Sorted(s) ==> StrictlySorted(r)
    ensures |r| <= |s|
    decreases |s|
  {
    if |s| <= 1 then
      s
    else if s[0] == s[1] then
      assert forall x :: x in s <==> x in s[1..];
      Dedup(s[1..])
    else
      var rest := Dedup(s[1..]);
      DedupHead(s, rest);
      assert s == [s[0]] + s[1..];
      [s[0]] + rest
  }

  lemma DedupHead(s: seq<string>, rest: seq<string>)
    requires |s| > 1 && s[0] != s[1]
    requires forall x :: x in rest <==> x in s[1..]
    requires Sorted(s[1..]) ==> StrictlySorted(rest)
    ensures Sorted(s) ==> StrictlySorted([s[0]] + rest)
  {
    if Sorted(s) {
      assert Sorted(s[1..]) by {
        forall i, j | 0 <= i < j < |s[1..]|
          ensures Le(s[1..][i], s[1..][j])
        {
          assert s[1..][i] == s[i + 1] && s[1..][j] == s[j + 1];
        }
      }
      forall j | 0 <= j < |rest|
        ensures Less(s[0], rest[j])
      {
        assert rest[j] in s[1..];
        var k :| 0 <= k < |s[1..]| && s[1..][k] == rest[j];
        assert Le(s[1], s[k + 1]) by {
          if k > 0 {
            assert Le(s[1], s[k + 1]);
          }
        }
        assert Less(s[0], s[1]);
        if s[1] != s[k + 1] {
          LessTransitive(s[0], s[1], s[k + 1]);
        }
      }
    }
  }

  // ---------------------------------------------------------------------------
  // Running rooms and their retention
  // ---------------------------------------------------------------------------

  /** A running room, as far as the room list sees it. */
  datatype EuphRoom = EuphRoom(stopped: bool)

  /** The retain predicate of stabilize_rooms. */
  predicate Keep(name: string, room: EuphRoom, db: set<string>) {
    !room.stopped || name in db
  }

  /** The running rooms stabilize_rooms keeps. */
  function Stabilized(rooms: map<string, EuphRoom>, db: set<string>): (r: map<string, EuphRoom>)
    ensures forall n :: n in r <==> n in rooms && Keep(n, rooms[n], db)
    ensures forall n :: n in r ==> r[n] == rooms[n]
  {
    map n | n in rooms && Keep(n, rooms[n], db) :: rooms[n]
  }

  /** A second stabilisation against the same database removes nothing. */
  lemma StabilizeIdempotent(rooms: map<string, EuphRoom>, db: set<string>)
    ensures Stabilized(Stabilized(rooms, db), db) == Stabilized(rooms, db)
  {
    var once := Stabilized(rooms, db);
    assert Stabilized(once, db).Keys == once.Keys;
  }

  /** `entry(name).or_insert_with(..)`: the room of that name, created
      (as `created`) when there is none. */
  function GetOrInsert(rooms: map<string, EuphRoom>, name: string, created: EuphRoom): (r: map<string, EuphRoom>)
    ensures r.Keys == rooms.Keys + {name}
    ensures name in rooms ==> r == rooms
    ensures name !in rooms ==> r[name] == created
    ensures forall n :: n in rooms ==> r[n] == rooms[n]
  {
    if name in rooms then rooms else rooms[name := created]
  }

  // ---------------------------------------------------------------------------
  // The "connect to" prompt
  // ---------------------------------------------------------------------------

  /** The single-line editor of the prompt: its text and the cursor, an
      index into the text. */
  datatype EditorState = EditorState(text: string, cursor: nat)

  predicate EditorOk(ed: EditorState) {
    ed.cursor <= |ed.text|
  }

  function NewEditor(): (ed: EditorState)
    ensures EditorOk(ed) && ed.text == ""
  {
    EditorState("", 0)
  }

  function InsertChar(ed: EditorState, c: char): (r: EditorState)
    requires EditorOk(ed)
    ensures EditorOk(r) && r.cursor == ed.cursor + 1
    ensures r.text[..r.cursor] == ed.text[..ed.cursor] + [c]
    ensures r.text[r.cursor..] == ed.text[ed.cursor..]
  {
    EditorState(ed.text[..ed.cursor] + [c] + ed.text[ed.cursor..], ed.cursor + 1)
  }

  function MoveLeft(ed: EditorState): (r: EditorState)
    requires EditorOk(ed)
    ensures EditorOk(r) && r.text == ed.text
    ensures r.cursor == if ed.cursor > 0 then ed.cursor - 1 else 0
  {
    if ed.cursor > 0 then EditorState(ed.text, ed.cursor - 1) else ed
  }

  function MoveRight(ed: EditorState): (r: EditorState)
    requires EditorOk(ed)
    ensures EditorOk(r) && r.text == ed.text
    ensures r.cursor == if ed.cursor < |ed.text| then ed.cursor + 1 else ed.cursor
  {
    if ed.cursor < |ed.text| then EditorState(ed.text, ed.cursor + 1) else ed
  }

  /** Delete the character before the cursor. */
  function Backspace(ed: EditorState): (r: EditorState)
    requires EditorOk(ed)
    ensures EditorOk(r)
    ensures ed.cursor == 0 ==> r == ed
    ensures ed.cursor > 0 ==>
      (r.cursor == ed.cursor - 1 && r.text[..r.cursor] == ed.text[..r.cursor]
       && r.text[r.cursor..] == ed.text[ed.cursor..])
  {
    if ed.cursor > 0 then
      EditorState(ed.text[..ed.cursor - 1] + ed.text[ed.cursor..], ed.cursor - 1)
    else ed
  }

  /** Delete the character after the cursor. */
  function Delete(ed: EditorState): (r: EditorState)
    requires EditorOk(ed)
    ensures EditorOk(r) && r.cursor == ed.cursor
    ensures ed.cursor == |ed.text| ==> r == ed
    ensures ed.cursor < |ed.text| ==>
      (r.text[..r.cursor] == ed.text[..ed.cursor] && r.text[r.cursor..] == ed.text[ed.cursor + 1..])
  {
    if ed.cursor < |ed.text| then
      EditorState(ed.text[..ed.cursor] + ed.text[ed.cursor + 1..], ed.cursor)
    else ed
  }

  /** The characters the prompt accepts: ASCII letters and digits, and '_'. */
  predicate IsRoomChar(c: char) {
    ('a' <= c <= 'z') || ('A' <= c <= 'Z') || ('0' <= c <= '9') || c == '_'
  }

  predicate RoomText(s: string) {
    forall i :: 0 <= i < |s| ==> IsRoomChar(s[i])
  }

  /** What the prompt keeps true: the cursor is inside the text and the
      text is a possible room name. */
  predicate PromptOk(ed: EditorState) {
    EditorOk(ed) && RoomText(ed.text)
  }

  // ---------------------------------------------------------------------------
  // Key handling
  // ---------------------------------------------------------------------------

  datatype State = ShowList | ShowRoom(name: string) | Connect(editor: EditorState)

  /** A key press: a plain character, a control chord, or a named key. */
  datatype KeyEvent =
    | Char(c: char)
    | Ctrl(c: char)
    | Up | Down | Home | End
    | Enter | Esc | Left | Right | BackspaceKey | DeleteKey
    | OtherKey

  /** Every state the prompt can be in keeps PromptOk. */
  predicate StateOk(st: State) {
    st.Connect? ==> PromptOk(st.editor)
  }

  /** The new state, the new running rooms and whether the key was
      handled. */
  datatype Outcome = Outcome(state: State, rooms: map<string, EuphRoom>, handled: bool)

  /** Keys of the list that only move its cursor or scroll it. */
  predicate ListMovement(event: KeyEvent) {
    event in {Char('k'), Up, Char('j'), Down, Char('g'), Home, Char('G'), End, Ctrl('y'), Ctrl('e')}
  }

  /** handle_key_event as a function of the state, the running rooms, the
      key, the room under the list cursor, what the shown room answers to
      the key and the room a missing entry is created as. */
  function KeyOutcome(st: State, rooms: map<string, EuphRoom>, event: KeyEvent,
                      selected: Option<string>, roomHandled: bool, created: EuphRoom): (r: Outcome)
    requires StateOk(st)
    ensures !r.handled ==> r.state == st
    ensures forall n :: n in rooms && n in r.rooms ==> r.rooms[n] == rooms[n]
  {
    match st
    case ShowList =>
      if ListMovement(event) then Outcome(st, rooms, true)
      else if event == Enter then
        Outcome(if selected.Some? then ShowRoom(selected.value) else st, rooms, true)
      else if event == Char('c') || event == Char('d') then
        Outcome(st, if selected.Some? then GetOrInsert(rooms, selected.value, created) else rooms, true)
      else if event == Char('C') then Outcome(Connect(NewEditor()), rooms, true)
      else if event == Char('D') then
        Outcome(st, if selected.Some? then rooms - {selected.value} else rooms, true)
      else Outcome(st, rooms, false)
    case ShowRoom(name) =>
      var entered := GetOrInsert(rooms, name, created);
      if roomHandled then Outcome(st, entered, true)
      else if event == Esc then Outcome(ShowList, entered, true)
      else Outcome(st, entered, false)
    case Connect(ed) =>
      match event
      case Esc => Outcome(ShowList, rooms, true)
      case Enter =>
        if |ed.text| > 0 then Outcome(ShowRoom(ed.text), GetOrInsert(rooms, ed.text, created), true)
        else Outcome(st, rooms, true)
      case Char(c) =>
        if IsRoomChar(c) then Outcome(Connect(InsertChar(ed, c)), rooms, true)
        else Outcome(st, rooms, false)
      case Left => Outcome(Connect(MoveLeft(ed)), rooms, true)
      case Right => Outcome(Connect(MoveRight(ed)), rooms, true)
      case BackspaceKey => Outcome(Connect(Backspace(ed)), rooms, true)
      case DeleteKey => Outcome(Connect(Delete(ed)), rooms, true)
      case _ => Outcome(st, rooms, false)
  }

  /** The running rooms known to the list, with their state. */
  class Rooms {
    var state: State
    var euphRooms: map<string, EuphRoom>

    ghost predicate Valid()
      reads this
    {
      StateOk(state)
    }

    constructor ()
      ensures Valid()
      ensures state == ShowList && euphRooms == map[]
    {
      state := ShowList;
      euphRooms := map[];
    }

    /** get_or_insert_room. */
    method GetOrInsertRoom(name: string, created: EuphRoom)
      modifies this`euphRooms
      ensures euphRooms == GetOrInsert(old(euphRooms), name, created)
    {
      if name !in euphRooms {
        euphRooms := euphRooms[name := created];
      }
    }

    /** stabilize_rooms, against the set of rooms the database knows. */
    method StabilizeRooms(db: set<string>)
      modifies this`euphRooms
      ensures euphRooms == Stabilized(old(euphRooms), db)
    {
      euphRooms := map n | n in euphRooms && (!euphRooms[n].stopped || n in db) :: euphRooms[n];
    }

    /** room_names: the rooms of the database and the running rooms, every
        name once, in ascending order. */
    method RoomNames(db: seq<string>) returns (names: seq<string>)
      ensures StrictlySorted(names)
      ensures forall x :: x in names <==> x in db || x in euphRooms
    {
      var rooms := db;
      var keys := euphRooms.Keys;
      while keys != {}
        invariant keys <= euphRooms.Keys
        invariant forall x :: x in rooms <==> x in db || (x in euphRooms && x !in keys)
        decreases |keys|
      {
        var room :| room in keys;
        rooms := rooms + [room];
        keys := keys - {room};
      }
      rooms := SortNames(rooms);
      assert forall x :: x in rooms <==> x in multiset(rooms);
      rooms := Dedup(rooms);
      return rooms;
    }

    /** handle_key_event. */
    method HandleKeyEvent(event: KeyEvent, selected: Option<string>, roomHandled: bool, created: EuphRoom)
      returns (handled: bool)
      requires Valid()
      modifies this
      ensures Valid()
      ensures Outcome(state, euphRooms, handled)
        == KeyOutcome(old(state), old(euphRooms), event, selected, roomHandled, created)
    {
      // The outcome every path below reaches.
      ghost var o := KeyOutcome(state, euphRooms, event, selected, roomHandled, created);
      match state {
        case ShowList =>
          if ListMovement(event) {
            return true;
          } else if event == Enter {
            if selected.Some? {
              state := ShowRoom(selected.value);
            }
          } else if event == Char('c') || event == Char('d') {
            if selected.Some? {
              GetOrInsertRoom(selected.value, created);
            }
          } else if event == Char('C') {
            state := Connect(NewEditor());
          } else if event == Char('D') {
            if selected.Some? {
              euphRooms := euphRooms - {selected.value};
            }
          } else {
            return false;
          }
        case ShowRoom(name) =>
          GetOrInsertRoom(name, created);
          if roomHandled {
            return true;
          }
          if event == Esc {
            state := ShowList;
            return true;
          }
          return false;
        case Connect(ed) =>
          match event {
            case Esc => state := ShowList;
            case Enter =>
              var name := ed.text;
              if |name| > 0 {
                GetOrInsertRoom(name, created);
                state := ShowRoom(name);
              }
            case Char(c) =>
              if IsRoomChar(c) {
                state := Connect(InsertChar(ed, c));
              } else {
                return false;
              }
            case Left => state := Connect(MoveLeft(ed));
            case Right => state := Connect(MoveRight(ed));
            case BackspaceKey => state := Connect(Backspace(ed));
            case DeleteKey => state := Connect(Delete(ed));
            case _ => return false;
          }
      }
      return true;
    }
  }
}
