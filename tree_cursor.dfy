/** The threaded-chat cursor engine: a single logical position moved through
    a forest of message trees, depth first (skipping folded subtrees), from
    sibling to sibling, to the parent or the root, chronologically, and to the
    top or the bottom; plus the "smart reply" choice of a reply target.

    Every step first asks the store; an error answer ends the step with
    nothing changed.  Each movement operation is specified by a function
    (`...Step` for the helpers that move an id inside a tree, `...Target` for the
    view's public operations), the imperative versions are proved against
    those, and the lemmas of cursor_props.dfy state what the functions
    guarantee. */
module TreeCursor {
  import opened Base
  import opened Store

  datatype Cursor =
    | Bottom                                              // the live edge, below every message
    | Msg(id: Id)                                         // on a real message
    | Editor(comingFrom: Option<Id>, parent: Option<Id>)  // composing a reply under `parent`
    | Pseudo(comingFrom: Option<Id>, parent: Option<Id>)  // the placeholder of a reply being sent

  datatype Correction = MakeCursorVisible | MoveCursorToVisibleArea | CenterCursor

  function RefersTo(c: Cursor, id: Id): (r: bool)
    ensures r <==> c == Msg(id)
  {
    if c.Msg? then c.id == id else false
  }

  function RefersToLastChildOf(c: Cursor, id: Id): (r: bool)
    ensures r <==> (c.Editor? || c.Pseudo?) && c.parent == Some(id)
  {
    match c
    case Editor(_, Some(p)) => p == id
    case Pseudo(_, Some(p)) => p == id
    case _ => false
  }

  // ---------------------------------------------------------------------------
  // Steps inside a tree

  /** What one `find_*` helper does to its `tree` and `id` arguments: it fails
      (leaving both), stays (returns false, leaving both) or moves. */
  datatype Step = Failed(error: Error) | Stay | MovedTo(tree: Tree, id: Id)

  /** A step always lands on a message of the tree it reports. */
  ghost predicate Lands(f: Forest, step: Step)
    requires WellFormed(f)
  {
    step.MovedTo? ==> InTree(f, step.tree, step.id)
  }

  /** The helper's result `r` and new `t'`, `id'` are the outcome `step`. */
  predicate Realizes(step: Step, r: Result<bool, Error>, t: Tree, id: Id, t': Tree, id': Id) {
    match step
    case Failed(e) => r == Err(e) && t' == t && id' == id
    case Stay => r == Ok(false) && t' == t && id' == id
    case MovedTo(nt, nid) => r == Ok(true) && t' == nt && id' == nid
  }

  /** The previous sibling is a message of the same tree, at the same depth,
      under the same parent, and `id` is its next sibling. */
  lemma PrevSiblingFacts(f: Forest, t: Tree, id: Id)
    requires WellFormed(f) && InTree(f, t, id)
    ensures PrevSibling(f, id).Some? ==>
      var p := PrevSibling(f, id).value;
      && id in f.parent && p in f.parent && f.parent[p] == f.parent[id]
      && InTree(f, t, p) && f.depth[p] == f.depth[id]
      && NextSibling(f, p) == Some(id)
  {
    if PrevSibling(f, id).Some? {
      var q := f.parent[id];
      var sibs := Children(f, q);
      var i := IndexOf(sibs, id);
      BeforeAt(sibs, i);
      var p := sibs[i - 1];
      ParentInTree(f, t, id);
      ChildInTree(f, t, q, i - 1);
      assert p in f.parent && f.parent[p] == q;
      BeforeAfterInverse(sibs, p, id);
    }
  }

  /** The mirror image of PrevSiblingFacts. */
  lemma NextSiblingFacts(f: Forest, t: Tree, id: Id)
    requires WellFormed(f) && InTree(f, t, id)
    ensures NextSibling(f, id).Some? ==>
      var n := NextSibling(f, id).value;
      && id in f.parent && n in f.parent && f.parent[n] == f.parent[id]
      && InTree(f, t, n) && f.depth[n] == f.depth[id]
      && PrevSibling(f, n) == Some(id)
  {
    if NextSibling(f, id).Some? {
      var q := f.parent[id];
      var sibs := Children(f, q);
      var i := IndexOf(sibs, id);
      AfterAt(sibs, i);
      var n := sibs[i + 1];
      ParentInTree(f, t, id);
      ChildInTree(f, t, q, i + 1);
      assert n in f.parent && f.parent[n] == q;
      BeforeAfterInverse(sibs, id, n);
    }
  }

  /** find_prev_sibling: the previous sibling inside the tree or, only from a
      root, the root of the previous tree, whose tree replaces `tree`. */
  function PrevSiblingStep(s: Store, t: Tree, id: Id): (step: Step)
    requires WellFormed(s.forest) && InTree(s.forest, t, id)
    ensures Lands(s.forest, step)
  {
    var f := s.forest;
    PrevSiblingFacts(f, t, id);
    match PrevSibling(f, id)
    case Some(p) => MovedTo(t, p)
    case None =>
      if id in f.parent then Stay
      else match PrevRootId(s, t.root)
        case Err(e) => Failed(e)
        case Ok(None) => Stay
        case Ok(Some(r)) =>
          match TreeOf(s, r)
          case Err(e) => Failed(e)
          case Ok(nt) => MovedTo(nt, r)
  }

  /** find_next_sibling: the next sibling inside the tree or, only from a
      root, the root of the next tree, whose tree replaces `tree`. */
  function NextSiblingStep(s: Store, t: Tree, id: Id): (step: Step)
    requires WellFormed(s.forest) && InTree(s.forest, t, id)
    ensures Lands(s.forest, step)
  {
    var f := s.forest;
    NextSiblingFacts(f, t, id);
    match NextSibling(f, id)
    case Some(n) => MovedTo(t, n)
    case None =>
      if id in f.parent then Stay
      else match NextRootId(s, t.root)
        case Err(e) => Failed(e)
        case Ok(None) => Stay
        case Ok(Some(r)) =>
          match TreeOf(s, r)
          case Err(e) => Failed(e)
          case Ok(nt) => MovedTo(nt, r)
  }

  /** The `while find_parent(&mut tmp_id)` loop of find_next_msg: the next
      sibling of the nearest ancestor of `tmp` that has one. */
  function ClimbStep(s: Store, t: Tree, tmp: Id): (step: Step)
    requires WellFormed(s.forest) && InTree(s.forest, t, tmp)
    ensures Lands(s.forest, step)
    decreases s.forest.depth[tmp]
  {
    var f := s.forest;
    if tmp !in f.parent then Stay
    else
      var p := f.parent[tmp];
      ParentInTree(f, t, tmp);
      match NextSiblingStep(s, t, p)
      case Stay => ClimbStep(s, t, p)
      case other => other
  }

  /** `while find_last_child(..) {}`: the deepest last descendant of `id`
      reached through unfolded messages only.  It stays in the tree of `id`,
      and it is `id` itself exactly when `id` is folded or has no children. */
  function LastDescendant(f: Forest, folded: set<Id>, id: Id): (d: Id)
    requires WellFormed(f) && id in f.children
    ensures d in f.children && RootOf(f, d) == RootOf(f, id)
    ensures d == id <==> id in folded || |Children(f, id)| == 0
    ensures d != id ==> f.depth[d] > f.depth[id]
    decreases Headroom(f, id)
  {
    var c := Children(f, id);
    if id !in folded && |c| > 0 then
      DepthBound(f, c[|c| - 1]);
      LastDescendant(f, folded, c[|c| - 1])
    else id
  }

  /** find_next_msg: the pre-order successor among unfolded messages. */
  function NextMsgStep(s: Store, folded: set<Id>, t: Tree, id: Id): (step: Step)
    requires WellFormed(s.forest) && InTree(s.forest, t, id)
    ensures Lands(s.forest, step)
  {
    var c := Children(s.forest, id);
    if id !in folded && |c| > 0 then
      ChildInTree(s.forest, t, id, 0);
      MovedTo(t, c[0])
    else match NextSiblingStep(s, t, id)
      case Stay => ClimbStep(s, t, id)
      case other => other
  }

  /** find_prev_msg: the pre-order predecessor among unfolded messages. */
  function PrevMsgStep(s: Store, folded: set<Id>, t: Tree, id: Id): (step: Step)
    requires WellFormed(s.forest) && InTree(s.forest, t, id)
    ensures Lands(s.forest, step)
  {
    var f := s.forest;
    match PrevSiblingStep(s, t, id)
    case Failed(e) => Failed(e)
    case MovedTo(nt, p) =>
      MovedTo(nt, LastDescendant(f, folded, p))
    case Stay =>
      if id in f.parent then
        ParentInTree(f, t, id);
        MovedTo(t, f.parent[id])
      else Stay
  }

  // ---------------------------------------------------------------------------
  // The helpers, in place

  method FindParent(f: Forest, t: Tree, id: Id) returns (moved: bool, id': Id)
    requires WellFormed(f) && InTree(f, t, id)
    ensures moved <==> id in f.parent
    ensures id' == if moved then f.parent[id] else id
    ensures InTree(f, t, id')
    ensures moved ==> f.depth[id'] + 1 == f.depth[id]
  {
    if id in f.parent {
      ParentInTree(f, t, id);
      return true, f.parent[id];
    }
    return false, id;
  }

  method FindFirstChild(folded: set<Id>, f: Forest, t: Tree, id: Id) returns (moved: bool, id': Id)
    requires WellFormed(f) && InTree(f, t, id)
    ensures id in folded ==> !moved && id' == id
    ensures moved <==> id !in folded && |Children(f, id)| > 0
    ensures id' == if moved then Children(f, id)[0] else id
    ensures InTree(f, t, id')
    ensures moved ==> f.depth[id'] == f.depth[id] + 1
  {
    if id in folded {
      return false, id;
    }
    var c := Children(f, id);
    if |c| > 0 {
      ChildInTree(f, t, id, 0);
      return true, c[0];
    }
    return false, id;
  }

  method FindLastChild(folded: set<Id>, f: Forest, t: Tree, id: Id) returns (moved: bool, id': Id)
    requires WellFormed(f) && InTree(f, t, id)
    ensures id in folded ==> !moved && id' == id
    ensures moved <==> id !in folded && |Children(f, id)| > 0
    ensures id' == if moved then Children(f, id)[|Children(f, id)| - 1] else id
    ensures InTree(f, t, id')
    ensures moved ==> f.depth[id'] == f.depth[id] + 1
  {
    if id in folded {
      return false, id;
    }
    var c := Children(f, id);
    if |c| > 0 {
      ChildInTree(f, t, id, |c| - 1);
      return true, c[|c| - 1];
    }
    return false, id;
  }

  /** `while find_last_child(folded, tree, &mut id) {}`. */
  method DescendLast(folded: set<Id>, f: Forest, t: Tree, id: Id) returns (d: Id)
    requires WellFormed(f) && InTree(f, t, id)
    ensures d == LastDescendant(f, folded, id)
    ensures InTree(f, t, d)
  {
    d := id;
    var moved := true;
    while moved
      invariant InTree(f, t, d)
      invariant LastDescendant(f, folded, d) == LastDescendant(f, folded, id)
      invariant !moved ==> d == LastDescendant(f, folded, d)
      decreases Headroom(f, d), moved
    {
      moved, d := FindLastChild(folded, f, t, d);
    }
  }

  method FindPrevSibling(s: Store, t: Tree, id: Id) returns (r: Result<bool, Error>, t': Tree, id': Id)
    requires WellFormed(s.forest) && InTree(s.forest, t, id)
    ensures Realizes(PrevSiblingStep(s, t, id), r, t, id, t', id')
  {
    var f := s.forest;
    t', id' := t, id;
    var prev := PrevSibling(f, id);
    if prev.Some? {
      return Ok(true), t, prev.value;
    } else if id !in f.parent {
      var prevRoot := PrevRootId(s, t.root);
      if prevRoot.Err? {
        return Err(prevRoot.error), t, id;
      }
      if prevRoot.value.Some? {
        var tr := TreeOf(s, prevRoot.value.value);
        if tr.Err? {
          return Err(tr.error), t, id;
        }
        return Ok(true), tr.value, prevRoot.value.value;
      }
    }
    return Ok(false), t, id;
  }

  method FindNextSibling(s: Store, t: Tree, id: Id) returns (r: Result<bool, Error>, t': Tree, id': Id)
    requires WellFormed(s.forest) && InTree(s.forest, t, id)
    ensures Realizes(NextSiblingStep(s, t, id), r, t, id, t', id')
  {
    var f := s.forest;
    t', id' := t, id;
    var next := NextSibling(f, id);
    if next.Some? {
      return Ok(true), t, next.value;
    } else if id !in f.parent {
      var nextRoot := NextRootId(s, t.root);
      if nextRoot.Err? {
        return Err(nextRoot.error), t, id;
      }
      if nextRoot.value.Some? {
        var tr := TreeOf(s, nextRoot.value.value);
        if tr.Err? {
          return Err(tr.error), t, id;
        }
        return Ok(true), tr.value, nextRoot.value.value;
      }
    }
    return Ok(false), t, id;
  }

  method FindPrevMsg(s: Store, folded: set<Id>, t: Tree, id: Id) returns (r: Result<bool, Error>, t': Tree, id': Id)
    requires WellFormed(s.forest) && InTree(s.forest, t, id)
    ensures Realizes(PrevMsgStep(s, folded, t, id), r, t, id, t', id')
    ensures r.Ok? ==> InTree(s.forest, t', id')
  {
    var f := s.forest;
    r, t', id' := FindPrevSibling(s, t, id);
    if r.Err? {
      return;
    }
    if r.value {
      id' := DescendLast(folded, f, t', id');
      return Ok(true), t', id';
    }
    var moved;
    moved, id' := FindParent(f, t, id);
    return Ok(moved), t, id';
  }

  method FindNextMsg(s: Store, folded: set<Id>, t: Tree, id: Id) returns (r: Result<bool, Error>, t': Tree, id': Id)
    requires WellFormed(s.forest) && InTree(s.forest, t, id)
    ensures Realizes(NextMsgStep(s, folded, t, id), r, t, id, t', id')
    ensures r.Ok? ==> InTree(s.forest, t', id')
  {
    var f := s.forest;
    var moved;
    moved, id' := FindFirstChild(folded, f, t, id);
    if moved {
      return Ok(true), t, id';
    }
    r, t', id' := FindNextSibling(s, t, id);
    if r != Ok(false) {
      return;
    }
    // Climb on a temporary id so that `id` is left alone when no ancestor
    // has a next sibling.
    var tmp := id;
    while true
      invariant InTree(f, t, tmp)
      invariant ClimbStep(s, t, tmp) == ClimbStep(s, t, id)
      decreases f.depth[tmp]
    {
      var climbed;
      climbed, tmp := FindParent(f, t, tmp);
      if !climbed {
        break;
      }
      var found, nt, sib := FindNextSibling(s, t, tmp);
      if found.Err? {
        return Err(found.error), t, id;
      }
      if found.value {
        return Ok(true), nt, sib;
      }
    }
    return Ok(false), t, id;
  }

  // ---------------------------------------------------------------------------
  // The view's movement operations, as functions of the state they start in

  /** `store.path(id)` followed by `store.tree(path.first())`: the tree
      containing `id`. */
  function PathTree(s: Store, id: Id): (r: Result<Tree, Error>)
    requires WellFormed(s.forest)
    ensures r.Ok? ==> InTree(s.forest, r.value, id)
  {
    match PathRoot(s, id)
    case Err(e) => Err(e)
    case Ok(root) => TreeOf(s, root)
  }

  /** The cursor a step leads to: the message it moved to, or `stay`. */
  function StepTarget(step: Step, stay: Cursor): Result<Cursor, Error> {
    match step
    case Failed(e) => Err(e)
    case Stay => Ok(stay)
    case MovedTo(_, n) => Ok(Msg(n))
  }

  /** move_cursor_up. */
  function UpTarget(s: Store, folded: set<Id>, c: Cursor): Result<Cursor, Error>
    requires WellFormed(s.forest)
  {
    var f := s.forest;
    match c
    case Bottom | Pseudo(_, None) =>
      (match LastRootId(s)
       case Err(e) => Err(e)
       case Ok(None) => Ok(c)
       case Ok(Some(root)) =>
         (match TreeOf(s, root)
          case Err(e) => Err(e)
          case Ok(_) => Ok(Msg(LastDescendant(f, folded, root)))))
    case Msg(m) =>
      (match PathTree(s, m)
       case Err(e) => Err(e)
       case Ok(t) => StepTarget(PrevMsgStep(s, folded, t, m), c))
    case Editor(_, _) => Ok(c)
    case Pseudo(_, Some(p)) =>
      (match TreeOf(s, p)
       case Err(e) => Err(e)
       case Ok(_) => Ok(Msg(LastDescendant(f, folded, p))))
  }

  /** move_cursor_down. */
  function DownTarget(s: Store, folded: set<Id>, c: Cursor): Result<Cursor, Error>
    requires WellFormed(s.forest)
  {
    var f := s.forest;
    match c
    case Msg(m) =>
      (match PathTree(s, m)
       case Err(e) => Err(e)
       case Ok(t) => StepTarget(NextMsgStep(s, folded, t, m), Bottom))
    case Pseudo(_, None) => Ok(Bottom)
    case Pseudo(_, Some(p)) =>
      (match TreeOf(s, p)
       case Err(e) => Err(e)
       case Ok(t) =>
         StepTarget(NextMsgStep(s, folded, t, LastDescendant(f, folded, p)), Bottom))
    case _ => Ok(c)
  }

  /** move_cursor_up_sibling. */
  function UpSiblingTarget(s: Store, c: Cursor): Result<Cursor, Error>
    requires WellFormed(s.forest)
  {
    var f := s.forest;
    match c
    case Bottom | Pseudo(_, None) =>
      (match LastRootId(s)
       case Err(e) => Err(e)
       case Ok(None) => Ok(c)
       case Ok(Some(root)) => Ok(Msg(root)))
    case Msg(m) =>
      (match PathTree(s, m)
       case Err(e) => Err(e)
       case Ok(t) => StepTarget(PrevSiblingStep(s, t, m), c))
    case Editor(_, _) => Ok(c)
    case Pseudo(_, Some(p)) =>
      (match PathTree(s, p)
       case Err(e) => Err(e)
       case Ok(_) =>
         var kids := Children(f, p);
         if |kids| > 0 then Ok(Msg(kids[|kids| - 1])) else Ok(c))
  }

  /** move_cursor_down_sibling. */
  function DownSiblingTarget(s: Store, c: Cursor): Result<Cursor, Error>
    requires WellFormed(s.forest)
  {
    var f := s.forest;
    match c
    case Msg(m) =>
      (match PathTree(s, m)
       case Err(e) => Err(e)
       case Ok(t) => StepTarget(NextSiblingStep(s, t, m), if m !in f.parent then Bottom else c))
    case Pseudo(_, None) => Ok(Bottom)
    case _ => Ok(c)
  }

  /** move_cursor_to_parent. */
  function ParentTarget(s: Store, c: Cursor): Result<Cursor, Error>
    requires WellFormed(s.forest)
  {
    var f := s.forest;
    match c
    case Pseudo(_, Some(p)) => Ok(Msg(p))
    case Msg(m) =>
      (match TreeOf(s, m)
       case Err(e) => Err(e)
       case Ok(_) => if m in f.parent then Ok(Msg(f.parent[m])) else Ok(c))
    case _ => Ok(c)
  }

  /** move_cursor_to_root. */
  function RootTarget(s: Store, c: Cursor): Result<Cursor, Error>
    requires WellFormed(s.forest)
  {
    match c
    case Pseudo(_, Some(p)) =>
      (match PathRoot(s, p)
       case Err(e) => Err(e)
       case Ok(root) => Ok(Msg(root)))
    case Msg(m) =>
      (match PathRoot(s, m)
       case Err(e) => Err(e)
       case Ok(root) => Ok(Msg(root)))
    case _ => Ok(c)
  }

  /** Which chronology a chronological move follows: every message, or the
      unseen ones only. */
  datatype Chronology = AllMessages | UnseenOnly

  function OlderId(s: Store, ch: Chronology, id: Id): Result<Option<Id>, Error> {
    if ch == AllMessages then OlderMsgId(s, id) else OlderUnseenMsgId(s, id)
  }

  function NewerId(s: Store, ch: Chronology, id: Id): Result<Option<Id>, Error> {
    if ch == AllMessages then NewerMsgId(s, id) else NewerUnseenMsgId(s, id)
  }

  function NewestId(s: Store, ch: Chronology): Result<Option<Id>, Error> {
    if ch == AllMessages then NewestMsgId(s) else NewestUnseenMsgId(s)
  }

  /** move_cursor_older and move_cursor_older_unseen. */
  function OlderTarget(s: Store, ch: Chronology, c: Cursor): Result<Cursor, Error> {
    match c
    case Msg(m) =>
      (match OlderId(s, ch, m)
       case Err(e) => Err(e)
       case Ok(None) => Ok(c)
       case Ok(Some(o)) => Ok(Msg(o)))
    case Bottom | Pseudo(_, _) =>
      (match NewestId(s, ch)
       case Err(e) => Err(e)
       case Ok(None) => Ok(c)
       case Ok(Some(n)) => Ok(Msg(n)))
    case Editor(_, _) => Ok(c)
  }

  /** move_cursor_newer and move_cursor_newer_unseen. */
  function NewerTarget(s: Store, ch: Chronology, c: Cursor): Result<Cursor, Error> {
    match c
    case Msg(m) =>
      (match NewerId(s, ch, m)
       case Err(e) => Err(e)
       case Ok(None) => Ok(Bottom)
       case Ok(Some(n)) => Ok(Msg(n)))
    case Pseudo(_, _) => Ok(Bottom)
    case _ => Ok(c)
  }

  /** parent_for_normal_reply: the outer option says whether a reply is
      possible at all, the inner one whether it has a parent. */
  function ParentForNormalReply(s: Store, c: Cursor): (r: Result<Option<Option<Id>>, Error>)
    requires WellFormed(s.forest)
    ensures r.Ok? ==> (r.value.Some? <==> c.Bottom? || c.Msg?)
    ensures c.Bottom? ==> r == Ok(Some(None))
    ensures r.Ok? && c.Msg? ==>
      r.value.value.Some?
      && (r.value.value.value == c.id
          || (c.id in s.forest.parent && r.value.value.value == s.forest.parent[c.id]))
    ensures r.Err? ==> c.Msg?
  {
    var f := s.forest;
    match c
    case Bottom => Ok(Some(None))
    case Msg(m) =>
      (match PathTree(s, m)
       case Err(e) => Err(e)
       case Ok(_) =>
         Ok(Some(Some(
           if NextSibling(f, m).Some? then m
           else if m in f.parent then f.parent[m]
           else m))))
    case _ => Ok(None)
  }

  /** parent_for_alternate_reply. */
  function ParentForAlternateReply(s: Store, c: Cursor): (r: Result<Option<Option<Id>>, Error>)
    requires WellFormed(s.forest)
    ensures r.Ok? ==> (r.value.Some? <==> c.Bottom? || c.Msg?)
    ensures c.Bottom? ==> r == Ok(Some(None))
    ensures r.Ok? && c.Msg? ==>
      r.value.value.Some?
      && (r.value.value.value == c.id
          || (c.id in s.forest.parent && r.value.value.value == s.forest.parent[c.id]))
    ensures r.Err? ==> c.Msg?
  {
    var f := s.forest;
    match c
    case Bottom => Ok(Some(None))
    case Msg(m) =>
      (match PathTree(s, m)
       case Err(e) => Err(e)
       case Ok(_) =>
         Ok(Some(Some(
           if NextSibling(f, m).None? then m
           else if m in f.parent then f.parent[m]
           else m))))
    case _ => Ok(None)
  }

  // ---------------------------------------------------------------------------
  // The view state

  /** Whether `x` fits in a Rust `i32`. */
  predicate IsI32(x: int) {
    -0x8000_0000 <= x < 0x8000_0000
  }

  /** Two's-complement wrap-around of `i32` arithmetic. */
  function WrapI32(x: int): (r: int)
    ensures IsI32(r)
    ensures (r - x) % 0x1_0000_0000 == 0
    ensures IsI32(x) ==> r == x
  {
    (x + 0x8000_0000) % 0x1_0000_0000 - 0x8000_0000
  }

  /** The new cursor and correction of a movement whose target is `target`:
      on an error nothing changes, otherwise the cursor becomes the target and
      the correction asks to make it visible. */
  predicate Applied(target: Result<Cursor, Error>, r: Result<(), Error>,
                    c0: Cursor, k0: Option<Correction>, c1: Cursor, k1: Option<Correction>) {
    match target
    case Err(e) => r == Err(e) && c1 == c0 && k1 == k0
    case Ok(c) => r == Ok(()) && c1 == c && k1 == Some(MakeCursorVisible)
  }

  /** The part of a chat tree view that the cursor engine works on. */
  class TreeView {
    const store: Store
    var folded: set<Id>
    var cursor: Cursor
    var correction: Option<Correction>
    var scroll: int  // an i32

    ghost predicate Valid()
      reads this
    {
      WellFormed(store.forest) && IsI32(scroll)
    }

    constructor (store: Store, folded: set<Id>, cursor: Cursor, correction: Option<Correction>, scroll: int)
      requires WellFormed(store.forest) && IsI32(scroll)
      ensures Valid()
      ensures this.store == store && this.folded == folded && this.cursor == cursor
      ensures this.correction == correction && this.scroll == scroll
    {
      this.store := store;
      this.folded := folded;
      this.cursor := cursor;
      this.correction := correction;
      this.scroll := scroll;
    }

    method MoveCursorUp() returns (r: Result<(), Error>)
      requires Valid()
      modifies this`cursor, this`correction
      ensures Valid()
      ensures Applied(UpTarget(store, folded, old(cursor)), r, old(cursor), old(correction), cursor, correction)
    {
      var f := store.forest;
      match cursor {
      case Bottom | Pseudo(_, None) =>
        var last := LastRootId(store);
        if last.Err? {
          return Err(last.error);
        }
        if last.value.Some? {
          var root := last.value.value;
          var tree := TreeOf(store, root);
          if tree.Err? {
            return Err(tree.error);
          }
          var id := DescendLast(folded, f, tree.value, root);
          cursor := Msg(id);
        }
      case Msg(m) =>
        var path := PathRoot(store, m);
        if path.Err? {
          return Err(path.error);
        }
        var tree := TreeOf(store, path.value);
        if tree.Err? {
          return Err(tree.error);
        }
        var res, _, id := FindPrevMsg(store, folded, tree.value, m);
        if res.Err? {
          return Err(res.error);
        }
        cursor := Msg(id);
      case Editor(_, _) =>
      case Pseudo(_, Some(p)) =>
        var tree := TreeOf(store, p);
        if tree.Err? {
          return Err(tree.error);
        }
        var id := DescendLast(folded, f, tree.value, p);
        cursor := Msg(id);
      }
      correction := Some(MakeCursorVisible);
      return Ok(());
    }

    method MoveCursorDown() returns (r: Result<(), Error>)
      requires Valid()
      modifies this`cursor, this`correction
      ensures Valid()
      ensures Applied(DownTarget(store, folded, old(cursor)), r, old(cursor), old(correction), cursor, correction)
    {
      var f := store.forest;
      match cursor {
      case Msg(m) =>
        var path := PathRoot(store, m);
        if path.Err? {
          return Err(path.error);
        }
        var tree := TreeOf(store, path.value);
        if tree.Err? {
          return Err(tree.error);
        }
        var res, _, id := FindNextMsg(store, folded, tree.value, m);
        if res.Err? {
          return Err(res.error);
        }
        cursor := if res.value then Msg(id) else Bottom;
      case Pseudo(_, None) =>
        cursor := Bottom;
      case Pseudo(_, Some(p)) =>
        var tree := TreeOf(store, p);
        if tree.Err? {
          return Err(tree.error);
        }
        var id := DescendLast(folded, f, tree.value, p);
        // Now we are at the message just before the placeholder.
        var res, _, next := FindNextMsg(store, folded, tree.value, id);
        if res.Err? {
          return Err(res.error);
        }
        cursor := if res.value then Msg(next) else Bottom;
      case _ =>
      }
      correction := Some(MakeCursorVisible);
      return Ok(());
    }

    method MoveCursorUpSibling() returns (r: Result<(), Error>)
      requires Valid()
      modifies this`cursor, this`correction
      ensures Valid()
      ensures Applied(UpSiblingTarget(store, old(cursor)), r, old(cursor), old(correction), cursor, correction)
    {
      var f := store.forest;
      match cursor {
      case Bottom | Pseudo(_, None) =>
        var last := LastRootId(store);
        if last.Err? {
          return Err(last.error);
        }
        if last.value.Some? {
          cursor := Msg(last.value.value);
        }
      case Msg(m) =>
        var path := PathRoot(store, m);
        if path.Err? {
          return Err(path.error);
        }
        var tree := TreeOf(store, path.value);
        if tree.Err? {
          return Err(tree.error);
        }
        var res, _, id := FindPrevSibling(store, tree.value, m);
        if res.Err? {
          return Err(res.error);
        }
        cursor := Msg(id);
      case Editor(_, _) =>
      case Pseudo(_, Some(p)) =>
        var path := PathRoot(store, p);
        if path.Err? {
          return Err(path.error);
        }
        var tree := TreeOf(store, path.value);
        if tree.Err? {
          return Err(tree.error);
        }
        var kids := Children(f, p);
        if |kids| > 0 {
          cursor := Msg(kids[|kids| - 1]);
        }
      }
      correction := Some(MakeCursorVisible);
      return Ok(());
    }

    method MoveCursorDownSibling() returns (r: Result<(), Error>)
      requires Valid()
      modifies this`cursor, this`correction
      ensures Valid()
      ensures Applied(DownSiblingTarget(store, old(cursor)), r, old(cursor), old(correction), cursor, correction)
    {
      var f := store.forest;
      match cursor {
      case Msg(m) =>
        var path := PathRoot(store, m);
        if path.Err? {
          return Err(path.error);
        }
        var tree := TreeOf(store, path.value);
        if tree.Err? {
          return Err(tree.error);
        }
        var res, _, id := FindNextSibling(store, tree.value, m);
        if res.Err? {
          return Err(res.error);
        }
        cursor := Msg(id);
        if !res.value && Parent(f, id).None? {
          cursor := Bottom;
        }
      case Pseudo(_, None) =>
        cursor := Bottom;
      case _ =>
      }
      correction := Some(MakeCursorVisible);
      return Ok(());
    }

    method MoveCursorToParent() returns (r: Result<(), Error>)
      requires Valid()
      modifies this`cursor, this`correction
      ensures Valid()
      ensures Applied(ParentTarget(store, old(cursor)), r, old(cursor), old(correction), cursor, correction)
    {
      var f := store.forest;
      match cursor {
      case Pseudo(_, Some(p)) =>
        cursor := Msg(p);
      case Msg(m) =>
        var tree := TreeOf(store, m);
        if tree.Err? {
          return Err(tree.error);
        }
        var _, id := FindParent(f, tree.value, m);
        cursor := Msg(id);
      case _ =>
      }
      correction := Some(MakeCursorVisible);
      return Ok(());
    }

    method MoveCursorToRoot() returns (r: Result<(), Error>)
      requires Valid()
      modifies this`cursor, this`correction
      ensures Valid()
      ensures Applied(RootTarget(store, old(cursor)), r, old(cursor), old(correction), cursor, correction)
    {
      match cursor {
      case Pseudo(_, Some(p)) =>
        var path := PathRoot(store, p);
        if path.Err? {
          return Err(path.error);
        }
        cursor := Msg(path.value);
      case Msg(m) =>
        var path := PathRoot(store, m);
        if path.Err? {
          return Err(path.error);
        }
        cursor := Msg(path.value);
      case _ =>
      }
      correction := Some(MakeCursorVisible);
      return Ok(());
    }

    method MoveCursorOlder() returns (r: Result<(), Error>)
      requires Valid()
      modifies this`cursor, this`correction
      ensures Valid()
      ensures Applied(OlderTarget(store, AllMessages, old(cursor)), r, old(cursor), old(correction), cursor, correction)
    {
      match cursor {
      case Msg(m) =>
        var older := OlderMsgId(store, m);
        if older.Err? {
          return Err(older.error);
        }
        if older.value.Some? {
          cursor := Msg(older.value.value);
        }
      case Bottom | Pseudo(_, _) =>
        var newest := NewestMsgId(store);
        if newest.Err? {
          return Err(newest.error);
        }
        if newest.value.Some? {
          cursor := Msg(newest.value.value);
        }
      case _ =>
      }
      correction := Some(MakeCursorVisible);
      return Ok(());
    }

    method MoveCursorNewer() returns (r: Result<(), Error>)
      requires Valid()
      modifies this`cursor, this`correction
      ensures Valid()
      ensures Applied(NewerTarget(store, AllMessages, old(cursor)), r, old(cursor), old(correction), cursor, correction)
    {
      match cursor {
      case Msg(m) =>
        var newer := NewerMsgId(store, m);
        if newer.Err? {
          return Err(newer.error);
        }
        if newer.value.Some? {
          cursor := Msg(newer.value.value);
        } else {
          cursor := Bottom;
        }
      case Pseudo(_, _) =>
        cursor := Bottom;
      case _ =>
      }
      correction := Some(MakeCursorVisible);
      return Ok(());
    }

    method MoveCursorOlderUnseen() returns (r: Result<(), Error>)
      requires Valid()
      modifies this`cursor, this`correction
      ensures Valid()
      ensures Applied(OlderTarget(store, UnseenOnly, old(cursor)), r, old(cursor), old(correction), cursor, correction)
    {
      match cursor {
      case Msg(m) =>
        var older := OlderUnseenMsgId(store, m);
        if older.Err? {
          return Err(older.error);
        }
        if older.value.Some? {
          cursor := Msg(older.value.value);
        }
      case Bottom | Pseudo(_, _) =>
        var newest := NewestUnseenMsgId(store);
        if newest.Err? {
          return Err(newest.error);
        }
        if newest.value.Some? {
          cursor := Msg(newest.value.value);
        }
      case _ =>
      }
      correction := Some(MakeCursorVisible);
      return Ok(());
    }

    method MoveCursorNewerUnseen() returns (r: Result<(), Error>)
      requires Valid()
      modifies this`cursor, this`correction
      ensures Valid()
      ensures Applied(NewerTarget(store, UnseenOnly, old(cursor)), r, old(cursor), old(correction), cursor, correction)
    {
      match cursor {
      case Msg(m) =>
        var newer := NewerUnseenMsgId(store, m);
        if newer.Err? {
          return Err(newer.error);
        }
        if newer.value.Some? {
          cursor := Msg(newer.value.value);
        } else {
          cursor := Bottom;
        }
      case Pseudo(_, _) =>
        cursor := Bottom;
      case _ =>
      }
      correction := Some(MakeCursorVisible);
      return Ok(());
    }

    /** The cursor and the correction change only when a first root exists. */
    method MoveCursorToTop() returns (r: Result<(), Error>)
      requires Valid()
      modifies this`cursor, this`correction
      ensures Valid()
      ensures match FirstRootId(store)
        case Err(e) => r == Err(e) && cursor == old(cursor) && correction == old(correction)
        case Ok(None) => r == Ok(()) && cursor == old(cursor) && correction == old(correction)
        case Ok(Some(root)) => r == Ok(()) && cursor == Msg(root) && correction == Some(MakeCursorVisible)
    {
      var first := FirstRootId(store);
      if first.Err? {
        return Err(first.error);
      }
      if first.value.Some? {
        cursor := Msg(first.value.value);
        correction := Some(MakeCursorVisible);
      }
      return Ok(());
    }

    method MoveCursorToBottom()
      requires Valid()
      modifies this`cursor, this`correction
      ensures Valid()
      ensures cursor == Bottom && correction == Some(MakeCursorVisible)
    {
      cursor := Bottom;
      correction := Some(MakeCursorVisible);
    }

    method ScrollUp(amount: int)
      requires Valid() && IsI32(amount)
      modifies this`scroll, this`correction
      ensures Valid()
      ensures scroll == WrapI32(old(scroll) + amount)
      ensures correction == Some(MoveCursorToVisibleArea)
    {
      scroll := WrapI32(scroll + amount);
      correction := Some(MoveCursorToVisibleArea);
    }

    method ScrollDown(amount: int)
      requires Valid() && IsI32(amount)
      modifies this`scroll, this`correction
      ensures Valid()
      ensures scroll == WrapI32(old(scroll) - amount)
      ensures correction == Some(MoveCursorToVisibleArea)
    {
      scroll := WrapI32(scroll - amount);
      correction := Some(MoveCursorToVisibleArea);
    }

    method CenterCursor()
      requires Valid()
      modifies this`correction
      ensures Valid()
      ensures correction == Some(Correction.CenterCursor)
    {
      correction := Some(Correction.CenterCursor);
    }
  }
}
