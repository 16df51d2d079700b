/** What the cursor engine guarantees: the sibling steps keep the depth and
    cross trees only at the top level, the depth-first moves never enter a
    folded subtree and undo each other, the chronological moves walk the
    chronology in order, and the reply heuristics complement each other.

    The round trips assume a store that answers every request (`failing` is
    empty); with failures allowed, each move may instead end with nothing
    changed, which `Applied` already states for every operation. */
module CursorProps {
  import opened Base
  import opened Store
  import opened TreeCursor

  // ---------------------------------------------------------------------------
  // Sibling steps

  /** find_prev_sibling keeps the depth, and either moves to the previous
      sibling inside the same tree or, only from a root, to the previous root
      with that root's tree; it stays exactly when neither exists. */
  lemma PrevSiblingStepCases(s: Store, t: Tree, id: Id)
    requires WellFormed(s.forest) && InTree(s.forest, t, id)
    ensures match PrevSiblingStep(s, t, id)
      case MovedTo(nt, p) =>
        && s.forest.depth[p] == s.forest.depth[id]
        && (|| (nt == t && PrevSibling(s.forest, id) == Some(p))
            || (id !in s.forest.parent && nt == Tree(p) && PrevRootId(s, t.root) == Ok(Some(p))))
      case Stay =>
        PrevSibling(s.forest, id).None? && (id in s.forest.parent || PrevRootId(s, t.root) == Ok(None))
      case Failed(_) =>
        PrevSibling(s.forest, id).None? && id !in s.forest.parent
  {
    var f := s.forest;
    PrevSiblingFacts(f, t, id);
    if PrevSibling(f, id).None? && id !in f.parent {
      match PrevRootId(s, t.root)
      case Ok(Some(p)) =>
        var i := IndexOf(f.roots, t.root);
        assert p == f.roots[i - 1];
      case _ =>
    }
  }

  /** The mirror image of PrevSiblingStepCases for find_next_sibling. */
  lemma NextSiblingStepCases(s: Store, t: Tree, id: Id)
    requires WellFormed(s.forest) && InTree(s.forest, t, id)
    ensures match NextSiblingStep(s, t, id)
      case MovedTo(nt, n) =>
        && s.forest.depth[n] == s.forest.depth[id]
        && (|| (nt == t && NextSibling(s.forest, id) == Some(n))
            || (id !in s.forest.parent && nt == Tree(n) && NextRootId(s, t.root) == Ok(Some(n))))
      case Stay =>
        NextSibling(s.forest, id).None? && (id in s.forest.parent || NextRootId(s, t.root) == Ok(None))
      case Failed(_) =>
        NextSibling(s.forest, id).None? && id !in s.forest.parent
  {
    var f := s.forest;
    NextSiblingFacts(f, t, id);
    if NextSibling(f, id).None? && id !in f.parent {
      match NextRootId(s, t.root)
      case Ok(Some(n)) =>
        var i := IndexOf(f.roots, t.root);
        assert n == f.roots[i + 1];
      case _ =>
    }
  }

  /** A tree is named by its root, so a message's tree is determined. */
  lemma TreeOfMessage(f: Forest, t: Tree, id: Id)
    requires WellFormed(f) && InTree(f, t, id)
    ensures t == Tree(RootOf(f, id))
  {
  }

  /** With a store that answers everything, the two sibling steps are each
      other's inverse, trees included. */
  lemma SiblingStepsInverse(s: Store, t: Tree, x: Id, nt: Tree, y: Id)
    requires WellFormed(s.forest) && s.failing == {}
    requires InTree(s.forest, t, x) && InTree(s.forest, nt, y)
    ensures NextSiblingStep(s, t, x) == MovedTo(nt, y) <==> PrevSiblingStep(s, nt, y) == MovedTo(t, x)
  {
    var f := s.forest;
    NextSiblingFacts(f, t, x);
    PrevSiblingFacts(f, nt, y);
    TreeOfMessage(f, t, x);
    TreeOfMessage(f, nt, y);
    BeforeAfterInverse(f.roots, x, y);
    if NextSiblingStep(s, t, x) == MovedTo(nt, y) && NextSibling(f, x).None? {
      assert x !in f.parent && After(f.roots, x) == Some(y);
      assert y in f.roots;
    }
    if PrevSiblingStep(s, nt, y) == MovedTo(t, x) && PrevSibling(f, y).None? {
      assert y !in f.parent && Before(f.roots, y) == Some(x);
      assert x in f.roots;
    }
  }

  // ---------------------------------------------------------------------------
  // Folding: what the depth-first moves may land on

  /** A message is shown when none of its ancestors is folded (the message
      itself may be folded: then its subtree is hidden, not the message). */
  ghost predicate Visible(f: Forest, folded: set<Id>, id: Id)
    requires WellFormed(f) && id in f.children
    decreases f.depth[id]
  {
    id in f.parent ==> f.parent[id] !in folded && Visible(f, folded, f.parent[id])
  }

  /** A cursor on a shown message, or an editor or placeholder under one. */
  ghost predicate OnVisible(f: Forest, folded: set<Id>, c: Cursor)
    requires WellFormed(f)
  {
    match c
    case Msg(m) => m in f.children && Visible(f, folded, m)
    case Editor(_, Some(p)) => p in f.children && Visible(f, folded, p)
    case Pseudo(_, Some(p)) => p in f.children && Visible(f, folded, p)
    case _ => true
  }

  lemma VisibleChild(f: Forest, folded: set<Id>, p: Id, i: nat)
    requires WellFormed(f) && p in f.children && Visible(f, folded, p)
    requires p !in folded && i < |Children(f, p)|
    ensures Children(f, p)[i] in f.children && Visible(f, folded, Children(f, p)[i])
  {
    assert f.parent[Children(f, p)[i]] == p;
  }

  /** Siblings share their parent, so they are shown together. */
  lemma VisibleSibling(f: Forest, folded: set<Id>, t: Tree, id: Id)
    requires WellFormed(f) && InTree(f, t, id) && Visible(f, folded, id)
    ensures PrevSibling(f, id).Some? ==> Visible(f, folded, PrevSibling(f, id).value)
    ensures NextSibling(f, id).Some? ==> Visible(f, folded, NextSibling(f, id).value)
  {
    PrevSiblingFacts(f, t, id);
    NextSiblingFacts(f, t, id);
  }

  lemma {:induction false} LastDescendantVisible(f: Forest, folded: set<Id>, id: Id)
    requires WellFormed(f) && id in f.children && Visible(f, folded, id)
    ensures Visible(f, folded, LastDescendant(f, folded, id))
    decreases Headroom(f, id)
  {
    var c := Children(f, id);
    if id !in folded && |c| > 0 {
      VisibleChild(f, folded, id, |c| - 1);
      DepthBound(f, c[|c| - 1]);
      LastDescendantVisible(f, folded, c[|c| - 1]);
    }
  }

  lemma SiblingStepsVisible(s: Store, folded: set<Id>, t: Tree, id: Id)
    requires WellFormed(s.forest) && InTree(s.forest, t, id) && Visible(s.forest, folded, id)
    ensures PrevSiblingStep(s, t, id).MovedTo? ==> Visible(s.forest, folded, PrevSiblingStep(s, t, id).id)
    ensures NextSiblingStep(s, t, id).MovedTo? ==> Visible(s.forest, folded, NextSiblingStep(s, t, id).id)
  {
    VisibleSibling(s.forest, folded, t, id);
    PrevSiblingStepCases(s, t, id);
    NextSiblingStepCases(s, t, id);
  }

  lemma {:induction false} ClimbStepVisible(s: Store, folded: set<Id>, t: Tree, tmp: Id)
    requires WellFormed(s.forest) && InTree(s.forest, t, tmp) && Visible(s.forest, folded, tmp)
    ensures ClimbStep(s, t, tmp).MovedTo? ==> Visible(s.forest, folded, ClimbStep(s, t, tmp).id)
    decreases s.forest.depth[tmp]
  {
    var f := s.forest;
    if tmp in f.parent {
      var p := f.parent[tmp];
      ParentInTree(f, t, tmp);
      SiblingStepsVisible(s, folded, t, p);
      if NextSiblingStep(s, t, p) == Stay {
        ClimbStepVisible(s, folded, t, p);
      }
    }
  }

  /** find_next_msg never lands inside a folded subtree. */
  lemma NextMsgStepVisible(s: Store, folded: set<Id>, t: Tree, id: Id)
    requires WellFormed(s.forest) && InTree(s.forest, t, id) && Visible(s.forest, folded, id)
    ensures NextMsgStep(s, folded, t, id).MovedTo? ==> Visible(s.forest, folded, NextMsgStep(s, folded, t, id).id)
  {
    var c := Children(s.forest, id);
    if id !in folded && |c| > 0 {
      VisibleChild(s.forest, folded, id, 0);
    } else {
      SiblingStepsVisible(s, folded, t, id);
      ClimbStepVisible(s, folded, t, id);
    }
  }

  /** find_prev_msg never lands inside a folded subtree. */
  lemma PrevMsgStepVisible(s: Store, folded: set<Id>, t: Tree, id: Id)
    requires WellFormed(s.forest) && InTree(s.forest, t, id) && Visible(s.forest, folded, id)
    ensures PrevMsgStep(s, folded, t, id).MovedTo? ==> Visible(s.forest, folded, PrevMsgStep(s, folded, t, id).id)
  {
    SiblingStepsVisible(s, folded, t, id);
    match PrevSiblingStep(s, t, id)
    case MovedTo(_, p) => LastDescendantVisible(s.forest, folded, p);
    case _ =>
  }

  /** A root has no ancestor to fold it away. */
  lemma RootVisible(f: Forest, folded: set<Id>, r: Id)
    requires WellFormed(f) && r in f.children && r !in f.parent
    ensures Visible(f, folded, r)
  {
  }

  /** move_cursor_up keeps the cursor on shown messages. */
  lemma UpKeepsVisible(s: Store, folded: set<Id>, c: Cursor)
    requires WellFormed(s.forest) && OnVisible(s.forest, folded, c)
    ensures UpTarget(s, folded, c).Ok? ==> OnVisible(s.forest, folded, UpTarget(s, folded, c).value)
  {
    var f := s.forest;
    match c
    case Bottom | Pseudo(_, None) =>
      if |f.roots| > 0 {
        var root := f.roots[|f.roots| - 1];
        RootVisible(f, folded, root);
        LastDescendantVisible(f, folded, root);
      }
    case Msg(m) =>
      if PathTree(s, m).Ok? {
        PrevMsgStepVisible(s, folded, PathTree(s, m).value, m);
      }
    case Editor(_, _) =>
    case Pseudo(_, Some(p)) =>
      LastDescendantVisible(f, folded, p);
  }

  /** move_cursor_down keeps the cursor on shown messages. */
  lemma DownKeepsVisible(s: Store, folded: set<Id>, c: Cursor)
    requires WellFormed(s.forest) && OnVisible(s.forest, folded, c)
    ensures DownTarget(s, folded, c).Ok? ==> OnVisible(s.forest, folded, DownTarget(s, folded, c).value)
  {
    var f := s.forest;
    match c
    case Msg(m) =>
      if PathTree(s, m).Ok? {
        NextMsgStepVisible(s, folded, PathTree(s, m).value, m);
      }
    case Pseudo(_, Some(p)) =>
      if TreeOf(s, p).Ok? {
        LastDescendantVisible(f, folded, p);
        NextMsgStepVisible(s, folded, TreeOf(s, p).value, LastDescendant(f, folded, p));
      }
    case _ =>
  }

  /** The sibling moves keep a message cursor on shown messages at the same
      depth. */
  lemma SiblingMovesKeepDepth(s: Store, folded: set<Id>, m: Id)
    requires WellFormed(s.forest) && m in s.forest.children && Visible(s.forest, folded, m)
    ensures UpSiblingTarget(s, Msg(m)).Ok? ==>
      var c := UpSiblingTarget(s, Msg(m)).value;
      c.Msg? && c.id in s.forest.children && s.forest.depth[c.id] == s.forest.depth[m]
      && Visible(s.forest, folded, c.id)
    ensures DownSiblingTarget(s, Msg(m)).Ok? && DownSiblingTarget(s, Msg(m)).value.Msg? ==>
      var c := DownSiblingTarget(s, Msg(m)).value;
      c.id in s.forest.children && s.forest.depth[c.id] == s.forest.depth[m]
      && Visible(s.forest, folded, c.id)
  {
    if PathTree(s, m).Ok? {
      var t := PathTree(s, m).value;
      PrevSiblingStepCases(s, t, m);
      NextSiblingStepCases(s, t, m);
      SiblingStepsVisible(s, folded, t, m);
    }
  }

  // ---------------------------------------------------------------------------
  // Depth-first order: down and up undo each other

  /** The first message after the subtree of `w`: what find_next_msg finds
      once it cannot descend below `w`. */
  function AfterSubtree(s: Store, t: Tree, w: Id): (step: Step)
    requires WellFormed(s.forest) && InTree(s.forest, t, w)
  {
    match NextSiblingStep(s, t, w)
    case Stay => ClimbStep(s, t, w)
    case other => other
  }

  /** A message without a next sibling is the last child of its parent. */
  lemma LastChild(f: Forest, z: Id)
    requires WellFormed(f) && z in f.parent && NextSibling(f, z).None?
    ensures |Children(f, f.parent[z])| > 0
    ensures Children(f, f.parent[z])[|Children(f, f.parent[z])| - 1] == z
  {
    var c := f.children[f.parent[z]];
    assert Children(f, f.parent[z]) == c;
    assert z in c;
    var i := IndexOf(c, z);
    assert After(c, z) == None;
    assert i < |c| && c[i] == z && !(i + 1 < |c|);
  }

  /** Below an unfolded parent, the deepest last descendant is that of its
      last child. */
  lemma LastDescendantOfParent(f: Forest, folded: set<Id>, z: Id)
    requires WellFormed(f) && z in f.parent && NextSibling(f, z).None?
    requires f.parent[z] !in folded
    ensures LastDescendant(f, folded, f.parent[z]) == LastDescendant(f, folded, z)
  {
    LastChild(f, z);
  }

  /** Stepping forward from the deepest last descendant of `w` leaves the
      subtree of `w`. */
  lemma {:induction false} NextMsgAfterLastDescendant(s: Store, folded: set<Id>, t: Tree, w: Id)
    requires WellFormed(s.forest) && InTree(s.forest, t, w)
    ensures NextMsgStep(s, folded, t, LastDescendant(s.forest, folded, w)) == AfterSubtree(s, t, w)
    decreases Headroom(s.forest, w)
  {
    var f := s.forest;
    var c := Children(f, w);
    if w !in folded && |c| > 0 {
      var z := c[|c| - 1];
      ChildInTree(f, t, w, |c| - 1);
      DepthBound(f, z);
      NextMsgAfterLastDescendant(s, folded, t, z);
      assert LastDescendant(f, folded, w) == LastDescendant(f, folded, z);
      AfterAt(c, |c| - 1);
      assert z in f.parent && f.parent[z] == w;
      assert NextSibling(f, z).None?;
      assert NextSiblingStep(s, t, z) == Stay;
      ParentInTree(f, t, z);
      var ns := NextSiblingStep(s, t, w);
      assert ClimbStep(s, t, z) == if ns.Stay? then ClimbStep(s, t, w) else ns;
      assert AfterSubtree(s, t, z) == ClimbStep(s, t, z) == AfterSubtree(s, t, w);
    } else {
      assert LastDescendant(f, folded, w) == w;
      assert NextMsgStep(s, folded, t, w) == AfterSubtree(s, t, w);
    }
  }

  /** Stepping back from the next sibling `y` of `p` lands on the last
      descendant `x` of `p`. */
  lemma BackFromSibling(s: Store, folded: set<Id>, t: Tree, p: Id, nt: Tree, y: Id, x: Id)
    requires WellFormed(s.forest) && s.failing == {}
    requires InTree(s.forest, t, p) && InTree(s.forest, nt, y)
    requires NextSiblingStep(s, t, p) == MovedTo(nt, y)
    requires LastDescendant(s.forest, folded, p) == x
    ensures PrevMsgStep(s, folded, nt, y) == MovedTo(t, x)
  {
    SiblingStepsInverse(s, t, p, nt, y);
  }

  /** Climbing from a message `z` that ends the subtree of each of its
      ancestors crossed, and stepping back, returns to `x`. */
  lemma {:induction false} ClimbThenBack(s: Store, folded: set<Id>, t: Tree, z: Id, x: Id)
    requires WellFormed(s.forest) && s.failing == {}
    requires InTree(s.forest, t, z) && Visible(s.forest, folded, z)
    requires LastDescendant(s.forest, folded, z) == x
    requires NextSiblingStep(s, t, z) == Stay
    ensures ClimbStep(s, t, z).MovedTo? ==>
      PrevMsgStep(s, folded, ClimbStep(s, t, z).tree, ClimbStep(s, t, z).id) == MovedTo(t, x)
    decreases s.forest.depth[z]
  {
    var f := s.forest;
    if z in f.parent {
      var p := f.parent[z];
      ParentInTree(f, t, z);
      assert NextSibling(f, z).None? && p !in folded && Visible(f, folded, p);
      LastDescendantOfParent(f, folded, z);
      var ns := NextSiblingStep(s, t, p);
      assert ClimbStep(s, t, z) == if ns.Stay? then ClimbStep(s, t, p) else ns;
      if ns.Stay? {
        ClimbThenBack(s, folded, t, p, x);
      } else if ns.MovedTo? {
        BackFromSibling(s, folded, t, p, ns.tree, ns.id, x);
      }
    }
  }

  /** find_next_msg followed by find_prev_msg returns to the start, tree
      included, from a shown message of a store that answers everything. */
  lemma DownThenUpStep(s: Store, folded: set<Id>, t: Tree, x: Id)
    requires WellFormed(s.forest) && s.failing == {}
    requires InTree(s.forest, t, x) && Visible(s.forest, folded, x)
    ensures var step := NextMsgStep(s, folded, t, x);
      step.MovedTo? ==> PrevMsgStep(s, folded, step.tree, step.id) == MovedTo(t, x)
  {
    var f := s.forest;
    var c := Children(f, x);
    if x !in folded && |c| > 0 {
      ChildInTree(f, t, x, 0);
      assert NextMsgStep(s, folded, t, x) == MovedTo(t, c[0]);
      assert c[0] in f.parent && f.parent[c[0]] == x;
      BeforeAt(c, 0);
      assert PrevSibling(f, c[0]).None?;
      assert PrevSiblingStep(s, t, c[0]) == Stay;
    } else {
      var ns := NextSiblingStep(s, t, x);
      assert NextMsgStep(s, folded, t, x) == if ns.Stay? then ClimbStep(s, t, x) else ns;
      match ns
      case MovedTo(nt, y) =>
        SiblingStepsInverse(s, t, x, nt, y);
      case Stay =>
        ClimbThenBack(s, folded, t, x, x);
      case Failed(_) =>
    }
  }

  /** find_prev_msg followed by find_next_msg returns to the start whenever
      the first step moved. */
  lemma UpThenDownStep(s: Store, folded: set<Id>, t: Tree, y: Id)
    requires WellFormed(s.forest) && s.failing == {}
    requires InTree(s.forest, t, y) && Visible(s.forest, folded, y)
    ensures var step := PrevMsgStep(s, folded, t, y);
      step.MovedTo? ==> NextMsgStep(s, folded, step.tree, step.id) == MovedTo(t, y)
  {
    var f := s.forest;
    match PrevSiblingStep(s, t, y)
    case MovedTo(nt, p) =>
      SiblingStepsInverse(s, nt, p, t, y);
      NextMsgAfterLastDescendant(s, folded, nt, p);
    case Stay =>
      if y in f.parent {
        var x := f.parent[y];
        var c := Children(f, x);
        var i := IndexOf(c, y);
        assert i == 0;
      }
    case Failed(_) =>
  }

  /** `path(id)` followed by `tree(path.first())` finds the tree of a message
      the store knows. */
  lemma PathTreeFinds(s: Store, t: Tree, id: Id)
    requires WellFormed(s.forest) && s.failing == {} && InTree(s.forest, t, id)
    ensures PathTree(s, id) == Ok(t)
  {
  }

  /** move_cursor_down then move_cursor_up returns to the message it started
      from. */
  lemma DownThenUp(s: Store, folded: set<Id>, x: Id, y: Id)
    requires WellFormed(s.forest) && s.failing == {}
    requires x in s.forest.children && Visible(s.forest, folded, x)
    requires DownTarget(s, folded, Msg(x)) == Ok(Msg(y))
    ensures UpTarget(s, folded, Msg(y)) == Ok(Msg(x))
  {
    var t := PathTree(s, x).value;
    DownThenUpStep(s, folded, t, x);
    var step := NextMsgStep(s, folded, t, x);
    PathTreeFinds(s, step.tree, y);
  }

  /** move_cursor_up then move_cursor_down returns to the message it started
      from, unless the first move stayed put (on the first root). */
  lemma UpThenDown(s: Store, folded: set<Id>, y: Id, x: Id)
    requires WellFormed(s.forest) && s.failing == {}
    requires y in s.forest.children && Visible(s.forest, folded, y)
    requires UpTarget(s, folded, Msg(y)) == Ok(Msg(x)) && x != y
    ensures DownTarget(s, folded, Msg(x)) == Ok(Msg(y))
  {
    var t := PathTree(s, y).value;
    UpThenDownStep(s, folded, t, y);
    var step := PrevMsgStep(s, folded, t, y);
    PathTreeFinds(s, step.tree, x);
  }

  // ---------------------------------------------------------------------------
  // The ends of the depth-first order

  /** find_prev_msg stays put exactly on the first root. */
  lemma UpStopsOnlyAtFirstRoot(s: Store, folded: set<Id>, t: Tree, m: Id)
    requires WellFormed(s.forest) && s.failing == {} && InTree(s.forest, t, m)
    ensures PrevMsgStep(s, folded, t, m) == Stay <==> |s.forest.roots| > 0 && m == s.forest.roots[0]
  {
    var f := s.forest;
    PrevSiblingStepCases(s, t, m);
    if m !in f.parent {
      assert t.root == m;
      var i := IndexOf(f.roots, m);
      BeforeAt(f.roots, i);
      if |f.roots| > 0 && m == f.roots[0] {
        IndexOfDistinct(f.roots, 0);
      }
    }
  }

  /** A climb that finds nothing started in the last tree, below ancestors
      that each end their parent's subtree. */
  lemma {:induction false} ClimbStaysOnlyInLastTree(s: Store, folded: set<Id>, t: Tree, z: Id)
    requires WellFormed(s.forest) && s.failing == {}
    requires InTree(s.forest, t, z) && Visible(s.forest, folded, z)
    requires NextSiblingStep(s, t, z) == Stay && ClimbStep(s, t, z) == Stay
    ensures |s.forest.roots| > 0 && RootOf(s.forest, z) == s.forest.roots[|s.forest.roots| - 1]
    ensures LastDescendant(s.forest, folded, RootOf(s.forest, z)) == LastDescendant(s.forest, folded, z)
    decreases s.forest.depth[z]
  {
    var f := s.forest;
    if z !in f.parent {
      assert t.root == z;
      var i := IndexOf(f.roots, z);
      AfterAt(f.roots, i);
    } else {
      var p := f.parent[z];
      ParentInTree(f, t, z);
      LastDescendantOfParent(f, folded, z);
      ClimbStaysOnlyInLastTree(s, folded, t, p);
    }
  }

  /** find_next_msg finds nothing after the deepest last descendant of the
      last root. */
  lemma LastMessageStops(s: Store, folded: set<Id>)
    requires WellFormed(s.forest) && s.failing == {} && |s.forest.roots| > 0
    ensures var last := s.forest.roots[|s.forest.roots| - 1];
      NextMsgStep(s, folded, Tree(last), LastDescendant(s.forest, folded, last)) == Stay
  {
    var f := s.forest;
    var last := f.roots[|f.roots| - 1];
    NextMsgAfterLastDescendant(s, folded, Tree(last), last);
    AfterAt(f.roots, |f.roots| - 1);
  }

  /** find_next_msg stays put exactly on the last shown message: the deepest
      last descendant of the last root. */
  lemma DownStopsOnlyAtLast(s: Store, folded: set<Id>, t: Tree, m: Id)
    requires WellFormed(s.forest) && s.failing == {}
    requires InTree(s.forest, t, m) && Visible(s.forest, folded, m)
    ensures |s.forest.roots| > 0
    ensures NextMsgStep(s, folded, t, m) == Stay <==>
      m == LastDescendant(s.forest, folded, s.forest.roots[|s.forest.roots| - 1])
  {
    var f := s.forest;
    assert RootOf(f, m) in f.roots;
    var last := f.roots[|f.roots| - 1];
    if NextMsgStep(s, folded, t, m) == Stay {
      StayIsLast(s, folded, t, m);
    }
    if m == LastDescendant(f, folded, last) {
      TreeOfMessage(f, t, m);
      LastMessageStops(s, folded);
    }
  }

  /** The direction of DownStopsOnlyAtLast from a stay to the last message. */
  lemma StayIsLast(s: Store, folded: set<Id>, t: Tree, m: Id)
    requires WellFormed(s.forest) && s.failing == {}
    requires InTree(s.forest, t, m) && Visible(s.forest, folded, m)
    requires NextMsgStep(s, folded, t, m) == Stay
    ensures |s.forest.roots| > 0
    ensures m == LastDescendant(s.forest, folded, s.forest.roots[|s.forest.roots| - 1])
  {
    assert m in folded || |Children(s.forest, m)| == 0;
    assert NextSiblingStep(s, t, m) == Stay && ClimbStep(s, t, m) == Stay;
    ClimbStaysOnlyInLastTree(s, folded, t, m);
  }

  /** move_cursor_down turns a message cursor into `Bottom` exactly on the
      last shown message, and move_cursor_up from `Bottom` goes there (or
      nowhere, in an empty room). */
  lemma BottomFollowsLastMessage(s: Store, folded: set<Id>, m: Id)
    requires WellFormed(s.forest) && s.failing == {}
    requires m in s.forest.children && Visible(s.forest, folded, m)
    ensures |s.forest.roots| > 0
    ensures var last := LastDescendant(s.forest, folded, s.forest.roots[|s.forest.roots| - 1]);
      && (DownTarget(s, folded, Msg(m)) == Ok(Bottom) <==> m == last)
      && UpTarget(s, folded, Bottom) == Ok(Msg(last))
  {
    var t := PathTree(s, m).value;
    DownStopsOnlyAtLast(s, folded, t, m);
  }

  /** In an empty room the depth-first moves have nowhere to go. */
  lemma EmptyRoomStaysAtBottom(s: Store, folded: set<Id>)
    requires WellFormed(s.forest) && s.failing == {} && |s.forest.roots| == 0
    ensures UpTarget(s, folded, Bottom) == Ok(Bottom)
    ensures UpSiblingTarget(s, Bottom) == Ok(Bottom)
    ensures OlderTarget(s, AllMessages, Bottom) == Ok(Bottom)
  {
    var f := s.forest;
    if |f.chrono| > 0 {
      var r := RootOf(f, f.chrono[0]);
      assert false;
    }
  }

  /** move_cursor_down from a placeholder under `p` steps forward from the
      deepest last descendant `d` of `p`. */
  lemma PlaceholderDown(s: Store, folded: set<Id>, cf: Option<Id>, p: Id, t: Tree, d: Id)
    requires WellFormed(s.forest) && TreeOf(s, p) == Ok(t)
    requires p in s.forest.children && d == LastDescendant(s.forest, folded, p)
    requires InTree(s.forest, t, d)
    ensures DownTarget(s, folded, Pseudo(cf, Some(p))) == StepTarget(NextMsgStep(s, folded, t, d), Bottom)
  {
  }

  /** move_cursor_down from a placeholder under `p` goes to whatever follows
      the subtree of `p`. */
  lemma PlaceholderDownSkipsSubtree(s: Store, folded: set<Id>, cf: Option<Id>, p: Id)
    requires WellFormed(s.forest) && s.failing == {} && p in s.forest.children
    ensures var t := Tree(RootOf(s.forest, p));
      DownTarget(s, folded, Pseudo(cf, Some(p))) == StepTarget(AfterSubtree(s, t, p), Bottom)
  {
    var f := s.forest;
    var t := Tree(RootOf(f, p));
    assert TreeOf(s, p) == Ok(t);
    var d := LastDescendant(f, folded, p);
    PlaceholderDown(s, folded, cf, p, t, d);
    NextMsgAfterLastDescendant(s, folded, t, p);
  }

  // ---------------------------------------------------------------------------
  // Where each move lands

  /** The cursor is on a message that the forest holds. */
  ghost predicate OnMessage(f: Forest, c: Cursor) {
    c.Msg? && c.id in f.children
  }

  /** move_cursor_up lands on a message or stays: it never produces `Bottom`
      or a placeholder, and an editor stays. */
  lemma UpTargetLands(s: Store, folded: set<Id>, c: Cursor)
    requires WellFormed(s.forest)
    ensures var r := UpTarget(s, folded, c);
      && (r.Ok? ==> r.value == c || OnMessage(s.forest, r.value))
      && (c.Editor? ==> r == Ok(c))
  {
  }

  /** move_cursor_down lands on a message or on `Bottom`, never leaves a
      placeholder in place, and leaves `Bottom` and an editor alone. */
  lemma DownTargetLands(s: Store, folded: set<Id>, c: Cursor)
    requires WellFormed(s.forest)
    ensures var r := DownTarget(s, folded, c);
      && (r.Ok? ==> r.value == Bottom || OnMessage(s.forest, r.value) || (r.value == c && !c.Pseudo?))
      && (c.Bottom? || c.Editor? ==> r == Ok(c))
  {
    var f := s.forest;
    match c
    case Msg(m) =>
      var pt := PathTree(s, m);
      if pt.Ok? {
        var step := NextMsgStep(s, folded, pt.value, m);
        assert DownTarget(s, folded, c) == StepTarget(step, Bottom);
        assert step.MovedTo? ==> InTree(f, step.tree, step.id);
      }
    case Pseudo(_, Some(p)) =>
      var tr := TreeOf(s, p);
      if tr.Ok? {
        var d := LastDescendant(f, folded, p);
        var step := NextMsgStep(s, folded, tr.value, d);
        assert DownTarget(s, folded, c) == StepTarget(step, Bottom);
        assert step.MovedTo? ==> InTree(f, step.tree, step.id);
      }
    case _ =>
  }

  /** move_cursor_up_sibling lands on a message or stays; an editor stays. */
  lemma UpSiblingTargetLands(s: Store, c: Cursor)
    requires WellFormed(s.forest)
    ensures var r := UpSiblingTarget(s, c);
      && (r.Ok? ==> r.value == c || OnMessage(s.forest, r.value))
      && (c.Editor? ==> r == Ok(c))
  {
  }

  /** move_cursor_down_sibling lands on a message, on `Bottom` or stays; a
      message reaches `Bottom` only from a root, and a top-level placeholder
      always does. */
  lemma DownSiblingTargetLands(s: Store, c: Cursor)
    requires WellFormed(s.forest)
    ensures var r := DownSiblingTarget(s, c);
      && (r.Ok? ==> r.value == Bottom || OnMessage(s.forest, r.value) || r.value == c)
      && (r.Ok? && r.value == Bottom && c.Msg? ==> c.id !in s.forest.parent)
      && (c.Pseudo? && c.parent.None? ==> r == Ok(Bottom))
      && (!c.Msg? && !(c.Pseudo? && c.parent.None?) ==> r == Ok(c))
  {
    if c.Msg? {
      var pt := PathTree(s, c.id);
      if pt.Ok? {
        var step := NextSiblingStep(s, pt.value, c.id);
        assert DownSiblingTarget(s, c) ==
          StepTarget(step, if c.id !in s.forest.parent then Bottom else c);
        assert step.MovedTo? ==> InTree(s.forest, step.tree, step.id);
      }
    }
  }

  /** move_cursor_to_parent moves a message to its parent and a placeholder
      to the message it is under; only a message's request can fail. */
  lemma ParentTargetLands(s: Store, c: Cursor)
    requires WellFormed(s.forest)
    ensures var r := ParentTarget(s, c);
      && (r.Ok? && r.value != c ==> r.value.Msg?)
      && (r.Ok? && r.value != c && c.Msg? ==>
            c.id in s.forest.parent && r.value.id == s.forest.parent[c.id])
      && (r.Ok? && c.Msg? && c.id in s.forest.parent ==> r.value == Msg(s.forest.parent[c.id]))
      && (c.Pseudo? && c.parent.Some? ==> r == Ok(Msg(c.parent.value)))
      && (r.Err? ==> c.Msg?)
  {
  }

  /** move_cursor_to_root moves a message, or a placeholder under one, to a
      root; every other cursor stays. */
  lemma RootTargetLands(s: Store, c: Cursor)
    requires WellFormed(s.forest)
    ensures var r := RootTarget(s, c);
      && (r.Ok? && (c.Msg? || (c.Pseudo? && c.parent.Some?)) ==>
            OnMessage(s.forest, r.value) && r.value.id in s.forest.roots && r.value.id !in s.forest.parent)
      && (r.Ok? && !(c.Msg? || (c.Pseudo? && c.parent.Some?)) ==> r.value == c)
  {
  }

  /** move_cursor_older (and _unseen) lands on a message of the chronology
      (an unseen one when following unseen messages) or stays. */
  lemma OlderTargetLands(s: Store, ch: Chronology, c: Cursor)
    ensures var r := OlderTarget(s, ch, c);
      && (r.Ok? && r.value != c ==> r.value.Msg?)
      && (r.Ok? && r.value != c && ch == AllMessages ==> r.value.id in s.forest.chrono)
      && (r.Ok? && r.value != c && ch == UnseenOnly ==> r.value.id in s.forest.unseen)
      && (c.Editor? ==> r == Ok(c))
  {
  }

  /** move_cursor_newer (and _unseen) lands on `Bottom` or on a message of
      the chronology (an unseen one when following unseen messages); a
      placeholder becomes `Bottom`. */
  lemma NewerTargetLands(s: Store, ch: Chronology, c: Cursor)
    ensures var r := NewerTarget(s, ch, c);
      && (r.Ok? && r.value != c && r.value != Bottom ==> r.value.Msg?)
      && (r.Ok? && r.value.Msg? && r.value != c && ch == AllMessages ==> r.value.id in s.forest.chrono)
      && (r.Ok? && r.value.Msg? && r.value != c && ch == UnseenOnly ==> r.value.id in s.forest.unseen)
      && (c.Pseudo? ==> r == Ok(Bottom))
      && (c.Bottom? || c.Editor? ==> r == Ok(c))
  {
  }

  // ---------------------------------------------------------------------------
  // Chronological moves

  /** `k` presses of move_cursor_newer (or move_cursor_newer_unseen). */
  function NewerTimes(s: Store, ch: Chronology, c: Cursor, k: nat): Result<Cursor, Error>
    decreases k
  {
    if k == 0 then Ok(c)
    else match NewerTarget(s, ch, c)
      case Err(e) => Err(e)
      case Ok(c') => NewerTimes(s, ch, c', k - 1)
  }

  /** `Bottom` is where move_cursor_newer ends up and stays. */
  lemma {:induction false} NewerTimesFromBottom(s: Store, ch: Chronology, k: nat)
    ensures NewerTimes(s, ch, Bottom, k) == Ok(Bottom)
  {
    if k > 0 {
      NewerTimesFromBottom(s, ch, k - 1);
    }
  }

  /** From the `i`-th oldest message, `k` presses of move_cursor_newer visit
      the following messages one by one and then reach `Bottom`. */
  lemma {:induction false} NewerWalk(s: Store, i: nat, k: nat)
    requires WellFormed(s.forest) && s.failing == {}
    requires i < |s.forest.chrono| && i + k <= |s.forest.chrono|
    ensures NewerTimes(s, AllMessages, Msg(s.forest.chrono[i]), k) ==
      if i + k < |s.forest.chrono| then Ok(Msg(s.forest.chrono[i + k])) else Ok(Bottom)
    decreases k
  {
    var f := s.forest;
    if k > 0 {
      AfterAt(f.chrono, i);
      var next := if i + 1 < |f.chrono| then Msg(f.chrono[i + 1]) else Bottom;
      assert NewerTarget(s, AllMessages, Msg(f.chrono[i])) == Ok(next);
      assert NewerTimes(s, AllMessages, Msg(f.chrono[i]), k) == NewerTimes(s, AllMessages, next, k - 1);
      if i + 1 < |f.chrono| {
        NewerWalk(s, i + 1, k - 1);
      } else {
        NewerTimesFromBottom(s, AllMessages, k - 1);
      }
    }
  }

  /** Walking newer from the oldest message visits the whole chronology. */
  lemma WalkWholeChronology(s: Store, k: nat)
    requires WellFormed(s.forest) && s.failing == {}
    requires 0 < |s.forest.chrono| && k <= |s.forest.chrono|
    ensures NewerTimes(s, AllMessages, Msg(s.forest.chrono[0]), k) ==
      if k < |s.forest.chrono| then Ok(Msg(s.forest.chrono[k])) else Ok(Bottom)
  {
    NewerWalk(s, 0, k);
  }

  /** move_cursor_older and move_cursor_newer undo each other between two
      messages. */
  lemma OlderNewerInverse(s: Store, x: Id, y: Id)
    requires WellFormed(s.forest) && s.failing == {}
    ensures NewerTarget(s, AllMessages, Msg(x)) == Ok(Msg(y)) <==>
      x != y && OlderTarget(s, AllMessages, Msg(y)) == Ok(Msg(x))
  {
    var f := s.forest;
    BeforeAfterInverse(f.chrono, x, y);
    if After(f.chrono, x) == Some(y) {
      var i := IndexOf(f.chrono, x);
      IndexOfDistinct(f.chrono, i + 1);
    }
  }

  /** move_cursor_older from `Bottom` or a placeholder goes to the newest
      message, and move_cursor_newer from there returns to `Bottom`. */
  lemma OlderFromBottom(s: Store, c: Cursor)
    requires WellFormed(s.forest) && s.failing == {} && (c.Bottom? || c.Pseudo?)
    ensures |s.forest.chrono| == 0 ==> OlderTarget(s, AllMessages, c) == Ok(c)
    ensures |s.forest.chrono| > 0 ==>
      var newest := s.forest.chrono[|s.forest.chrono| - 1];
      OlderTarget(s, AllMessages, c) == Ok(Msg(newest))
      && NewerTarget(s, AllMessages, Msg(newest)) == Ok(Bottom)
  {
    var f := s.forest;
    if |f.chrono| > 0 {
      AfterAt(f.chrono, |f.chrono| - 1);
    }
  }

  /** move_cursor_older_unseen from `Bottom` or a placeholder goes to the
      `k`-th oldest message exactly when that is the newest unseen one, and
      move_cursor_newer_unseen from there returns to `Bottom`. With no unseen
      message the cursor stays. */
  lemma {:induction false} OlderUnseenFromBottom(s: Store, c: Cursor, k: nat)
    requires WellFormed(s.forest) && s.failing == {} && (c.Bottom? || c.Pseudo?)
    requires k < |s.forest.chrono|
    ensures OlderTarget(s, UnseenOnly, c) == Ok(Msg(s.forest.chrono[k])) <==>
      && s.forest.chrono[k] in s.forest.unseen
      && forall j :: k < j < |s.forest.chrono| ==> s.forest.chrono[j] !in s.forest.unseen
    ensures OlderTarget(s, UnseenOnly, c) == Ok(Msg(s.forest.chrono[k])) ==>
      NewerTarget(s, UnseenOnly, Msg(s.forest.chrono[k])) == Ok(Bottom)
    ensures (forall j :: 0 <= j < |s.forest.chrono| ==> s.forest.chrono[j] !in s.forest.unseen) ==>
      OlderTarget(s, UnseenOnly, c) == Ok(c)
  {
    var f := s.forest;
    var li := LastIndexIn(f.chrono, f.unseen);
    if li.Some? {
      var k2 := li.value;
      assert OlderTarget(s, UnseenOnly, c) == Ok(Msg(f.chrono[k2]));
      if f.chrono[k] in f.unseen && forall j :: k < j < |f.chrono| ==> f.chrono[j] !in f.unseen {
        assert k2 == k;
        IndexOfDistinct(f.chrono, k);
        var rest := f.chrono[k + 1..];
        forall j | 0 <= j < |rest| ensures rest[j] !in f.unseen {
          assert rest[j] == f.chrono[k + 1 + j];
        }
        assert FirstIndexIn(rest, f.unseen).None?;
      }
    }
  }

  /** In `s`, the first element of `u` after position `i` is at `j` exactly
      when `s[j]` is in `u` and nothing in between is. */
  lemma FirstAfterAt(s: seq<Id>, u: set<Id>, i: nat, j: nat)
    requires i < |s| && j < |s|
    ensures (i < j && FirstIndexIn(s[i + 1..], u) == Some(j - i - 1)) <==>
      && i < j && s[j] in u
      && forall k :: i < k < j ==> s[k] !in u
  {
    var rest := s[i + 1..];
    if i < j {
      assert rest[j - i - 1] == s[j];
      if FirstIndexIn(rest, u) == Some(j - i - 1) {
        forall k | i < k < j
          ensures s[k] !in u
        {
          assert rest[k - i - 1] == s[k];
        }
      }
      if s[j] in u && forall k :: i < k < j ==> s[k] !in u {
        var r := FirstIndexIn(rest, u).value;
        assert rest[r] == s[i + 1 + r];
      }
    }
  }

  /** In a sequence without repeats, the first element of `u` after position
      `i` is `s[j]` exactly when it sits at `j`, as `FirstAfterAt` says. */
  lemma FirstAfterIsAt(s: seq<Id>, u: set<Id>, i: nat, j: nat)
    requires Distinct(s) && i < |s| && j < |s|
    ensures (match FirstIndexIn(s[i + 1..], u)
             case None => false
             case Some(k) => s[i + 1 + k] == s[j]) <==>
      && i < j && s[j] in u
      && forall k :: i < k < j ==> s[k] !in u
  {
    FirstAfterAt(s, u, i, j);
    var r := FirstIndexIn(s[i + 1..], u);
    if r.Some? {
      assert s[i + 1 + r.value] == s[j] <==> i + 1 + r.value == j;
    }
  }

  /** In `s`, the last element of `u` before position `j` is at `i` exactly
      when `s[i]` is in `u` and nothing in between is. */
  lemma LastBeforeAt(s: seq<Id>, u: set<Id>, i: nat, j: nat)
    requires i < |s| && j < |s|
    ensures (i < j && LastIndexIn(s[..j], u) == Some(i)) <==>
      && i < j && s[i] in u
      && forall k :: i < k < j ==> s[k] !in u
  {
    var before := s[..j];
    if i < j {
      assert before[i] == s[i];
      if LastIndexIn(before, u) == Some(i) {
        forall k | i < k < j
          ensures s[k] !in u
        {
          assert before[k] == s[k];
        }
      }
      if s[i] in u && forall k :: i < k < j ==> s[k] !in u {
        var r := LastIndexIn(before, u).value;
        assert before[r] == s[r];
      }
    }
  }

  /** move_cursor_newer_unseen from the `i`-th oldest message goes to the
      `j`-th exactly when that is the first unseen message after it. */
  lemma NewerUnseenAt(s: Store, i: nat, j: nat)
    requires WellFormed(s.forest) && s.failing == {}
    requires i < |s.forest.chrono| && j < |s.forest.chrono|
    ensures NewerUnseenMsgId(s, s.forest.chrono[i]) == Ok(Some(s.forest.chrono[j])) <==>
      && i < j && s.forest.chrono[j] in s.forest.unseen
      && forall k :: i < k < j ==> s.forest.chrono[k] !in s.forest.unseen
  {
    var f := s.forest;
    assert Distinct(f.chrono);
    IndexOfDistinct(f.chrono, i);
    FirstAfterIsAt(f.chrono, f.unseen, i, j);
  }

  /** move_cursor_older_unseen from the `j`-th oldest message goes to the
      `i`-th exactly when that is the last unseen message before it. */
  lemma OlderUnseenAt(s: Store, i: nat, j: nat)
    requires WellFormed(s.forest) && s.failing == {}
    requires i < |s.forest.chrono| && j < |s.forest.chrono|
    ensures OlderUnseenMsgId(s, s.forest.chrono[j]) == Ok(Some(s.forest.chrono[i])) <==>
      && i < j && s.forest.chrono[i] in s.forest.unseen
      && forall k :: i < k < j ==> s.forest.chrono[k] !in s.forest.unseen
  {
    var f := s.forest;
    IndexOfDistinct(f.chrono, j);
    LastBeforeAt(f.chrono, f.unseen, i, j);
    var r := LastIndexIn(f.chrono[..j], f.unseen);
    if r.Some? {
      assert f.chrono[..j][r.value] == f.chrono[r.value];
      IndexOfDistinct(f.chrono, r.value);
      IndexOfDistinct(f.chrono, i);
    }
  }

  /** Between two unseen messages, move_cursor_older_unseen and
      move_cursor_newer_unseen undo each other. */
  lemma UnseenMovesInverse(s: Store, i: nat, j: nat)
    requires WellFormed(s.forest) && s.failing == {}
    requires i < |s.forest.chrono| && j < |s.forest.chrono|
    requires s.forest.chrono[i] in s.forest.unseen && s.forest.chrono[j] in s.forest.unseen
    ensures NewerTarget(s, UnseenOnly, Msg(s.forest.chrono[i])) == Ok(Msg(s.forest.chrono[j])) <==>
      i != j && OlderTarget(s, UnseenOnly, Msg(s.forest.chrono[j])) == Ok(Msg(s.forest.chrono[i]))
  {
    NewerUnseenAt(s, i, j);
    OlderUnseenAt(s, i, j);
    var f := s.forest;
    if i != j {
      assert f.chrono[i] != f.chrono[j];
    }
  }

  // ---------------------------------------------------------------------------
  // Replies, editors and placeholders

  /** The two reply heuristics: `Some(None)` (a new thread) from `Bottom`, no
      reply from an editor or placeholder; on a message with a parent they
      pick opposite targets, the message itself and its distinct parent,
      the normal one replying directly exactly when the message has a
      younger sibling; on a root both reply to the root. */
  lemma ReplyHeuristicsComplement(s: Store, c: Cursor)
    requires WellFormed(s.forest)
    ensures var n := ParentForNormalReply(s, c);
      var a := ParentForAlternateReply(s, c);
      match c
      case Bottom => n == Ok(Some(None)) && a == Ok(Some(None))
      case Msg(m) =>
        && (n.Ok? <==> a.Ok?)
        && (n.Ok? && m in s.forest.parent ==>
              var p := s.forest.parent[m];
              && p != m
              && (|| (n == Ok(Some(Some(m))) && a == Ok(Some(Some(p))))
                  || (n == Ok(Some(Some(p))) && a == Ok(Some(Some(m)))))
              && (n == Ok(Some(Some(m))) <==> NextSibling(s.forest, m).Some?))
        && (n.Ok? && m !in s.forest.parent ==> n == Ok(Some(Some(m))) && a == n)
      case _ => n == Ok(None) && a == Ok(None)
  {
    match c
    case Msg(m) =>
      if PathTree(s, m).Ok? && m in s.forest.parent {
        assert s.forest.depth[m] == s.forest.depth[s.forest.parent[m]] + 1;
      }
    case _ =>
  }

  /** An editor cursor is left alone by every move except to the top or the
      bottom. */
  lemma EditorStays(s: Store, folded: set<Id>, ch: Chronology, cf: Option<Id>, p: Option<Id>)
    requires WellFormed(s.forest)
    ensures var e := Editor(cf, p);
      && UpTarget(s, folded, e) == Ok(e) && DownTarget(s, folded, e) == Ok(e)
      && UpSiblingTarget(s, e) == Ok(e) && DownSiblingTarget(s, e) == Ok(e)
      && ParentTarget(s, e) == Ok(e) && RootTarget(s, e) == Ok(e)
      && OlderTarget(s, ch, e) == Ok(e) && NewerTarget(s, ch, e) == Ok(e)
  {
  }

  /** A placeholder cursor falls back to `Bottom` when moving newer, and a
      top-level one (a new thread) also when moving down. */
  lemma PlaceholderFallsToBottom(s: Store, folded: set<Id>, ch: Chronology, cf: Option<Id>, p: Option<Id>)
    requires WellFormed(s.forest)
    ensures NewerTarget(s, ch, Pseudo(cf, p)) == Ok(Bottom)
    ensures DownTarget(s, folded, Pseudo(cf, None)) == Ok(Bottom)
    ensures DownSiblingTarget(s, Pseudo(cf, None)) == Ok(Bottom)
  {
  }

  /** The sibling move down degrades to `Bottom` exactly from the last root. */
  lemma DownSiblingToBottom(s: Store, m: Id)
    requires WellFormed(s.forest) && s.failing == {} && m in s.forest.children
    ensures DownSiblingTarget(s, Msg(m)) == Ok(Bottom) <==>
      |s.forest.roots| > 0 && m == s.forest.roots[|s.forest.roots| - 1]
  {
    var f := s.forest;
    var t := PathTree(s, m).value;
    NextSiblingStepCases(s, t, m);
    if m !in f.parent {
      var i := IndexOf(f.roots, m);
      AfterAt(f.roots, i);
      IndexOfDistinct(f.roots, |f.roots| - 1);
    }
  }

  // ---------------------------------------------------------------------------
  // Scrolling

  lemma WrapI32Unique(x: int, y: int)
    requires IsI32(x) && IsI32(y) && (x - y) % 0x1_0000_0000 == 0
    ensures x == y
  {
    var d := x - y;
    assert d == 0x1_0000_0000 * (d / 0x1_0000_0000);
  }

  lemma WrapI32Shift(x: int, k: int)
    ensures WrapI32(x + k * 0x1_0000_0000) == WrapI32(x)
  {
    var a := WrapI32(x + k * 0x1_0000_0000);
    var b := WrapI32(x);
    assert (a - b) % 0x1_0000_0000 == 0 by {
      var qa := (x + k * 0x1_0000_0000 + 0x8000_0000) / 0x1_0000_0000;
      var qb := (x + 0x8000_0000) / 0x1_0000_0000;
      assert a == x + k * 0x1_0000_0000 - qa * 0x1_0000_0000;
      assert b == x - qb * 0x1_0000_0000;
      assert a - b == (k - qa + qb) * 0x1_0000_0000;
    }
    WrapI32Unique(a, b);
  }

  /** scroll_down by the amount of a preceding scroll_up restores the
      scroll offset, and the other way round, wrap-around included. */
  lemma ScrollUpDownInverse(scroll: int, amount: int)
    requires IsI32(scroll) && IsI32(amount)
    ensures WrapI32(WrapI32(scroll + amount) - amount) == scroll
    ensures WrapI32(WrapI32(scroll - amount) + amount) == scroll
  {
    var q1 := (scroll + amount + 0x8000_0000) / 0x1_0000_0000;
    assert WrapI32(scroll + amount) - amount == scroll + (-q1) * 0x1_0000_0000;
    WrapI32Shift(scroll, -q1);
    var q2 := (scroll - amount + 0x8000_0000) / 0x1_0000_0000;
    assert WrapI32(scroll - amount) + amount == scroll + (-q2) * 0x1_0000_0000;
    WrapI32Shift(scroll, -q2);
  }
}
