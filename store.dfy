/** The message store as the cursor engine sees it.

    The store itself (an actor in front of a SQLite database) is not part of
    this model.  What the engine relies on is a read-only view of one room's
    message forest: the ordered root sequence, parent and ordered children of
    every message, the chronological order of all messages and the set of
    unseen ones.  A `Forest` is that view as an immutable snapshot, and a
    `Store` adds the one thing the engine has to cope with besides answers:
    a request may fail. */
module Store {
  import opened Base

  /** Message identifiers. */
  type Id = nat

  /** A snapshot of one room's message forest. */
  datatype Forest = Forest(
    roots: seq<Id>,              // the root ids, in root order
    parent: map<Id, Id>,         // the parent of every message that has one
    children: map<Id, seq<Id>>,  // the ordered children of every message; its keys are the messages
    depth: map<Id, nat>,         // the number of ancestors (0 for a root): witnesses that parent links have no cycle
    chrono: seq<Id>,             // every message, oldest first
    unseen: set<Id>)             // the messages not yet marked as seen

  predicate Distinct(s: seq<Id>) {
    forall i, j :: 0 <= i < j < |s| ==> s[i] != s[j]
  }

  /** The forest invariant: parent and children describe the same single-parent
      relation, depths strictly grow along parent links (so there are no
      cycles), the parentless messages are exactly the roots, and the root and
      chronological sequences list each message once. */
  ghost predicate WellFormed(f: Forest) {
    && f.parent.Keys <= f.children.Keys
    && f.depth.Keys == f.children.Keys
    && (forall c :: c in f.parent ==>
          && f.parent[c] in f.children
          && c in f.children[f.parent[c]]
          && f.depth[c] == f.depth[f.parent[c]] + 1)
    && (forall p, i :: p in f.children && 0 <= i < |f.children[p]| ==>
          f.children[p][i] in f.parent && f.parent[f.children[p][i]] == p)
    && (forall p :: p in f.children ==> Distinct(f.children[p]))
    && (forall m :: m in f.children && m !in f.parent ==> f.depth[m] == 0 && m in f.roots)
    && (forall i :: 0 <= i < |f.roots| ==> f.roots[i] in f.children && f.roots[i] !in f.parent)
    && Distinct(f.roots)
    && Distinct(f.chrono)
    && (forall m :: m in f.chrono <==> m in f.children)
  }

  // ---------------------------------------------------------------------------
  // Positions in a sequence of ids

  /** The position of `x` in `s`. */
  function IndexOf(s: seq<Id>, x: Id): (i: nat)
    requires x in s
    ensures i < |s| && s[i] == x
    ensures forall j :: 0 <= j < i ==> s[j] != x
  {
    if s[0] == x then 0 else 1 + IndexOf(s[1..], x)
  }

  lemma IndexOfDistinct(s: seq<Id>, i: nat)
    requires Distinct(s) && i < |s|
    ensures IndexOf(s, s[i]) == i
  {
  }

  /** The element just before `x` in `s`, if any. */
  function Before(s: seq<Id>, x: Id): Option<Id> {
    if x in s && IndexOf(s, x) > 0 then Some(s[IndexOf(s, x) - 1]) else None
  }

  /** The element just after `x` in `s`, if any. */
  function After(s: seq<Id>, x: Id): Option<Id> {
    if x in s && IndexOf(s, x) + 1 < |s| then Some(s[IndexOf(s, x) + 1]) else None
  }

  lemma BeforeAt(s: seq<Id>, i: nat)
    requires Distinct(s) && i < |s|
    ensures Before(s, s[i]) == if i > 0 then Some(s[i - 1]) else None
  {
    IndexOfDistinct(s, i);
  }

  lemma AfterAt(s: seq<Id>, i: nat)
    requires Distinct(s) && i < |s|
    ensures After(s, s[i]) == if i + 1 < |s| then Some(s[i + 1]) else None
  {
    IndexOfDistinct(s, i);
  }

  /** In a sequence without repetitions, "just before" and "just after" are
      each other's inverse. */
  lemma {:induction false} BeforeAfterInverse(s: seq<Id>, x: Id, y: Id)
    requires Distinct(s)
    ensures Before(s, y) == Some(x) <==> After(s, x) == Some(y)
  {
    if Before(s, y) == Some(x) {
      var i := IndexOf(s, y);
      AfterAt(s, i - 1);
    }
    if After(s, x) == Some(y) {
      var i := IndexOf(s, x);
      BeforeAt(s, i + 1);
    }
  }

  /** The last position of `s` holding an element of `u`, if any. */
  function LastIndexIn(s: seq<Id>, u: set<Id>): (r: Option<nat>)
    ensures r.Some? ==> r.value < |s| && s[r.value] in u
    ensures r.Some? ==> forall j :: r.value < j < |s| ==> s[j] !in u
    ensures r.None? ==> forall j :: 0 <= j < |s| ==> s[j] !in u
  {
    if |s| == 0 then None
    else if s[|s| - 1] in u then Some(|s| - 1)
    else LastIndexIn(s[..|s| - 1], u)
  }

  /** The first position of `s` holding an element of `u`, if any. */
  function FirstIndexIn(s: seq<Id>, u: set<Id>): (r: Option<nat>)
    ensures r.Some? ==> r.value < |s| && s[r.value] in u
    ensures r.Some? ==> forall j :: 0 <= j < r.value ==> s[j] !in u
    ensures r.None? ==> forall j :: 0 <= j < |s| ==> s[j] !in u
  {
    if |s| == 0 then None
    else if s[0] in u then Some(0)
    else match FirstIndexIn(s[1..], u)
      case None => None
      case Some(k) => Some(k + 1)
  }

  // ---------------------------------------------------------------------------
  // Structural queries

  function Parent(f: Forest, id: Id): Option<Id> {
    if id in f.parent then Some(f.parent[id]) else None
  }

  function Children(f: Forest, id: Id): seq<Id> {
    if id in f.children then f.children[id] else []
  }

  /** The previous sibling under the same parent; a root has none (a tree has
      a single root). */
  function PrevSibling(f: Forest, id: Id): Option<Id> {
    if id in f.parent then Before(Children(f, f.parent[id]), id) else None
  }

  /** The next sibling under the same parent; a root has none. */
  function NextSibling(f: Forest, id: Id): Option<Id> {
    if id in f.parent then After(Children(f, f.parent[id]), id) else None
  }

  /** The root of the tree containing `id`: the first element of its path. */
  function RootOf(f: Forest, id: Id): (r: Id)
    requires WellFormed(f) && id in f.children
    ensures r in f.children && r !in f.parent && r in f.roots
    decreases f.depth[id]
  {
    if id in f.parent then RootOf(f, f.parent[id]) else id
  }

  /** The ancestors of `id`, itself included. */
  ghost function Ancestors(f: Forest, id: Id): (a: set<Id>)
    requires WellFormed(f) && id in f.children
    ensures id in a && a <= f.children.Keys
    ensures forall x :: x in a ==> f.depth[x] <= f.depth[id]
    decreases f.depth[id]
  {
    {id} + (if id in f.parent then Ancestors(f, f.parent[id]) else {})
  }

  lemma {:induction false} AncestorsCount(f: Forest, id: Id)
    requires WellFormed(f) && id in f.children
    ensures |Ancestors(f, id)| == f.depth[id] + 1
    decreases f.depth[id]
  {
    if id in f.parent {
      var p := f.parent[id];
      AncestorsCount(f, p);
      assert f.depth[id] == f.depth[p] + 1;
      assert id !in Ancestors(f, p);
      assert Ancestors(f, id) == {id} + Ancestors(f, p);
    } else {
      assert Ancestors(f, id) == {id} && f.depth[id] == 0;
    }
  }

  lemma SubsetCard(a: set<Id>, b: set<Id>)
    requires a <= b
    ensures |a| <= |b|
  {
    assert b == a + (b - a);
  }

  /** A message has fewer ancestors than the forest has messages: descending
      through children must stop. */
  lemma DepthBound(f: Forest, id: Id)
    requires WellFormed(f) && id in f.children
    ensures f.depth[id] < |f.children.Keys|
  {
    AncestorsCount(f, id);
    SubsetCard(Ancestors(f, id), f.children.Keys);
  }

  /** The remaining room for descending below `id`. */
  function Headroom(f: Forest, id: Id): nat
    requires WellFormed(f) && id in f.children
  {
    DepthBound(f, id);
    |f.children.Keys| - f.depth[id]
  }

  // ---------------------------------------------------------------------------
  // Trees

  /** A materialised root tree, named by its root.  Its parent, children and
      sibling queries are those of the forest, restricted to its own
      messages. */
  datatype Tree = Tree(root: Id)

  ghost predicate InTree(f: Forest, t: Tree, id: Id)
    requires WellFormed(f)
  {
    id in f.children && RootOf(f, id) == t.root
  }

  lemma ParentInTree(f: Forest, t: Tree, id: Id)
    requires WellFormed(f) && InTree(f, t, id) && id in f.parent
    ensures InTree(f, t, f.parent[id])
  {
  }

  lemma ChildInTree(f: Forest, t: Tree, p: Id, i: nat)
    requires WellFormed(f) && InTree(f, t, p) && i < |Children(f, p)|
    ensures InTree(f, t, Children(f, p)[i])
    ensures f.depth[Children(f, p)[i]] == f.depth[p] + 1
  {
  }

  // ---------------------------------------------------------------------------
  // The store: the forest plus the requests it answers with an error

  datatype Error = NotFound | Fault

  /** The requests the engine sends to the store. */
  datatype Request =
    | PathReq(Id) | TreeReq(Id)
    | PrevRootReq(Id) | NextRootReq(Id) | FirstRootReq | LastRootReq
    | OlderReq(Id) | NewerReq(Id) | NewestReq
    | OlderUnseenReq(Id) | NewerUnseenReq(Id) | NewestUnseenReq

  /** A store in a given state; each request in `failing` is answered with a
      storage fault. */
  datatype Store = Store(forest: Forest, failing: set<Request>)

  /** `path(id).first()`: the root of the tree containing `id`. */
  function PathRoot(s: Store, id: Id): (r: Result<Id, Error>)
    requires WellFormed(s.forest)
    ensures r.Ok? <==> PathReq(id) !in s.failing && id in s.forest.children
    ensures r.Ok? ==> r.value == RootOf(s.forest, id)
  {
    if PathReq(id) in s.failing then Err(Fault)
    else if id !in s.forest.children then Err(NotFound)
    else Ok(RootOf(s.forest, id))
  }

  /** `tree(id)`: the tree containing `id`. */
  function TreeOf(s: Store, id: Id): (r: Result<Tree, Error>)
    requires WellFormed(s.forest)
    ensures r.Ok? <==> TreeReq(id) !in s.failing && id in s.forest.children
    ensures r.Ok? ==> InTree(s.forest, r.value, id)
  {
    if TreeReq(id) in s.failing then Err(Fault)
    else if id !in s.forest.children then Err(NotFound)
    else Ok(Tree(RootOf(s.forest, id)))
  }

  function PrevRootId(s: Store, root: Id): Result<Option<Id>, Error> {
    if PrevRootReq(root) in s.failing then Err(Fault) else Ok(Before(s.forest.roots, root))
  }

  function NextRootId(s: Store, root: Id): Result<Option<Id>, Error> {
    if NextRootReq(root) in s.failing then Err(Fault) else Ok(After(s.forest.roots, root))
  }

  function FirstRootId(s: Store): Result<Option<Id>, Error> {
    if FirstRootReq in s.failing then Err(Fault)
    else if |s.forest.roots| == 0 then Ok(None)
    else Ok(Some(s.forest.roots[0]))
  }

  function LastRootId(s: Store): Result<Option<Id>, Error> {
    if LastRootReq in s.failing then Err(Fault)
    else if |s.forest.roots| == 0 then Ok(None)
    else Ok(Some(s.forest.roots[|s.forest.roots| - 1]))
  }

  function OlderMsgId(s: Store, id: Id): Result<Option<Id>, Error> {
    if OlderReq(id) in s.failing then Err(Fault) else Ok(Before(s.forest.chrono, id))
  }

  function NewerMsgId(s: Store, id: Id): Result<Option<Id>, Error> {
    if NewerReq(id) in s.failing then Err(Fault) else Ok(After(s.forest.chrono, id))
  }

  function NewestMsgId(s: Store): Result<Option<Id>, Error> {
    if NewestReq in s.failing then Err(Fault)
    else if |s.forest.chrono| == 0 then Ok(None)
    else Ok(Some(s.forest.chrono[|s.forest.chrono| - 1]))
  }

  /** The newest unseen message older than `id`. */
  function OlderUnseenMsgId(s: Store, id: Id): (r: Result<Option<Id>, Error>)
    ensures r.Ok? && r.value.Some? ==> r.value.value in s.forest.unseen
  {
    var f := s.forest;
    if OlderUnseenReq(id) in s.failing then Err(Fault)
    else if id !in f.chrono then Ok(None)
    else match LastIndexIn(f.chrono[..IndexOf(f.chrono, id)], f.unseen)
      case None => Ok(None)
      case Some(k) => Ok(Some(f.chrono[k]))
  }

  /** The oldest unseen message newer than `id`. */
  function NewerUnseenMsgId(s: Store, id: Id): (r: Result<Option<Id>, Error>)
    ensures r.Ok? && r.value.Some? ==> r.value.value in s.forest.unseen
  {
    var f := s.forest;
    if NewerUnseenReq(id) in s.failing then Err(Fault)
    else if id !in f.chrono then Ok(None)
    else
      var i := IndexOf(f.chrono, id);
      match FirstIndexIn(f.chrono[i + 1..], f.unseen)
      case None => Ok(None)
      case Some(k) => Ok(Some(f.chrono[i + 1 + k]))
  }

  /** The newest unseen message. */
  function NewestUnseenMsgId(s: Store): (r: Result<Option<Id>, Error>)
    ensures r.Ok? && r.value.Some? ==> r.value.value in s.forest.unseen
  {
    var f := s.forest;
    if NewestUnseenReq in s.failing then Err(Fault)
    else match LastIndexIn(f.chrono, f.unseen)
      case None => Ok(None)
      case Some(k) => Ok(Some(f.chrono[k]))
  }
}
