/** namespaces_of.go and pid_namespaces.go: building the forest of namespaces from a
    scan of processes, and displaying it. */
module NamespaceForest {

  datatype Id = Id(device: nat, inode: nat)

  /** The key of the entry for owners that are not visible. */
  const INVIS := Id(0, 0)

  const CLONE_NEWUSER := 0x1000_0000

  /** What the kernel tells about namespaces: their type, and the parent or owner that
      the ioctl() returns (no entry in `up`: the call fails with EPERM). Chains of
      parents are finite: `depth` falls along them and stays below `height`. */
  datatype World = World(types: map<Id, int>, up: map<Id, Id>, depth: map<Id, nat>, height: nat)

  ghost predicate ValidWorld(w: World, pidMode: bool) {
    && INVIS !in w.types
    && w.up.Keys <= w.types.Keys && w.depth.Keys == w.types.Keys
    && (forall x :: x in w.up ==> w.up[x] in w.types && w.depth[w.up[x]] < w.depth[x])
    && (forall x :: x in w.depth ==> w.depth[x] < w.height)
    // owners, and parents of user namespaces, are user namespaces
    && (!pidMode ==> forall x :: x in w.up ==> w.types[w.up[x]] == CLONE_NEWUSER)
    // one topmost visible namespace
    && (forall x, y :: IsTop(w, pidMode, x) && IsTop(w, pidMode, y) ==> x == y)
  }

  /** The ioctl() fails and the program takes the namespace for the root. */
  predicate IsTop(w: World, pidMode: bool, x: Id) {
    x in w.types && x !in w.up && (pidMode || w.types[x] == CLONE_NEWUSER)
  }

  /** The entry under which `x` is filed, if it is not a root. */
  predicate HasUp(w: World, pidMode: bool, x: Id) { x in w.types && !IsTop(w, pidMode, x) }

  function UpOf(w: World, x: Id): Id { if x in w.up then w.up[x] else INVIS }

  datatype Entry = Entry(nsType: int, pids: seq<int>, children: seq<Id>)
  datatype Forest = Forest(list: map<Id, Entry>, root: Id)

  // ----- building

  function AppendChild(f: Forest, p: Id, c: Id): Forest {
    if p in f.list then f.(list := f.list[p := f.list[p].(children := f.list[p].children + [c])]) else f
  }

  function AppendPid(f: Forest, x: Id, pid: int): Forest {
    if x in f.list && pid > 0 then f.(list := f.list[x := f.list[x].(pids := f.list[x].pids + [pid])]) else f
  }

  function AddEntry(f: Forest, x: Id, nsType: int): Forest {
    f.(list := f.list[x := Entry(nsType, [], [])])
  }

  /** The special parent entry is created when first needed. */
  function WithInvis(f: Forest): Forest {
    if INVIS in f.list then f else AddEntry(f, INVIS, CLONE_NEWUSER)
  }

  /** addNamespace() */
  ghost function Add(w: World, pidMode: bool, f: Forest, x: Id, pid: int): Forest
    requires ValidWorld(w, pidMode) && x in w.types
    decreases w.depth[x], 1
  {
    AppendPid(if x in f.list then f else AddToList(w, pidMode, f, x), x, pid)
  }

  /** addNamespaceToList() */
  ghost function AddToList(w: World, pidMode: bool, f: Forest, x: Id): Forest
    requires ValidWorld(w, pidMode) && x in w.types
    decreases w.depth[x], 0
  {
    var g := AddEntry(f, x, w.types[x]);
    if IsTop(w, pidMode, x) then g.(root := x)
    else if x !in w.up then AppendChild(WithInvis(g), INVIS, x)
    else AppendChild(Add(w, pidMode, g, w.up[x], -1), w.up[x], x)
  }

  // ----- the invariant

  ghost predicate NoDup(s: seq<Id>) { forall i, j :: 0 <= i < j < |s| ==> s[i] != s[j] }

  /** `c` is recorded and filed under `p`; `pending` entries are not filed yet. */
  ghost predicate Filed(w: World, pidMode: bool, keys: set<Id>, pending: set<Id>, c: Id, p: Id) {
    c in keys && c !in pending && HasUp(w, pidMode, c) && UpOf(w, c) == p
  }

  /** The child lists hold exactly the filed entries, each in one place. */
  ghost predicate ChildrenExact(w: World, pidMode: bool, f: Forest, pending: set<Id>) {
    forall p :: p in f.list ==>
      NoDup(f.list[p].children) &&
      forall c :: c in f.list[p].children <==> Filed(w, pidMode, f.list.Keys, pending, c, p)
  }

  /** Recorded entries are known to the kernel and closed under parent or owner. */
  ghost predicate Closed(w: World, pidMode: bool, keys: set<Id>, pending: set<Id>) {
    && (forall x :: x in keys ==> x in w.types || x == INVIS)
    && (forall x :: x in keys && x !in pending && HasUp(w, pidMode, x) ==> UpOf(w, x) in keys)
  }

  ghost predicate RootRight(w: World, pidMode: bool, f: Forest, pending: set<Id>) {
    && (f.root == INVIS || (IsTop(w, pidMode, f.root) && f.root in f.list))
    && (forall x :: x in f.list && x !in pending && IsTop(w, pidMode, x) ==> f.root == x)
  }

  ghost predicate Linked(w: World, pidMode: bool, f: Forest, pending: set<Id>) {
    && Closed(w, pidMode, f.list.Keys, pending)
    && ChildrenExact(w, pidMode, f, pending)
    && RootRight(w, pidMode, f, pending)
  }

  /** `x`, its parent or owner, and so on up, the invisible owner included. */
  ghost function Ancestry(w: World, pidMode: bool, x: Id): set<Id>
    requires ValidWorld(w, pidMode)
    decreases if x in w.depth then w.depth[x] else 0
  {
    {x} + if x in w.up then Ancestry(w, pidMode, w.up[x])
          else if HasUp(w, pidMode, x) then {INVIS} else {}
  }

  /** A recorded entry's whole ancestry is recorded. */
  lemma {:induction false} AncestryRecorded(w: World, pidMode: bool, keys: set<Id>, pending: set<Id>, x: Id)
    requires ValidWorld(w, pidMode) && Closed(w, pidMode, keys, pending) && x in keys && x in w.types
    requires forall y :: y in pending ==> y in w.types && w.depth[y] > w.depth[x]
    ensures Ancestry(w, pidMode, x) <= keys
    decreases w.depth[x]
  {
    if x in w.up {
      assert UpOf(w, x) in keys;
      AncestryRecorded(w, pidMode, keys, pending, w.up[x]);
    }
  }

  lemma {:induction false} FilePending(w: World, pidMode: bool, f: Forest, pending: set<Id>, x: Id, p: Id)
    requires Linked(w, pidMode, f, pending + {x}) && x !in pending && x in f.list && p in f.list
    requires HasUp(w, pidMode, x) && UpOf(w, x) == p
    ensures Linked(w, pidMode, AppendChild(f, p, x), pending)
  {
    var g := AppendChild(f, p, x);
    assert g.list.Keys == f.list.Keys;
    forall q | q in g.list
      ensures NoDup(g.list[q].children)
      ensures forall c :: c in g.list[q].children <==> Filed(w, pidMode, g.list.Keys, pending, c, q)
    {
      assert forall c :: c in f.list[q].children <==> Filed(w, pidMode, f.list.Keys, pending + {x}, c, q);
      assert x !in f.list[q].children;
      assert NoDup(f.list[q].children);
    }
  }

  lemma {:induction false} NewEntryPending(w: World, pidMode: bool, f: Forest, pending: set<Id>, x: Id)
    requires Linked(w, pidMode, f, pending) && x !in f.list && x in w.types && x != INVIS
    requires forall c :: c in f.list && c !in pending && HasUp(w, pidMode, c) ==> UpOf(w, c) != x
    ensures Linked(w, pidMode, AddEntry(f, x, w.types[x]), pending + {x})
  {
  }

  lemma {:induction false} InvisLinked(w: World, pidMode: bool, f: Forest, pending: set<Id>)
    requires ValidWorld(w, pidMode) && Linked(w, pidMode, f, pending)
    ensures Linked(w, pidMode, WithInvis(f), pending)
  {
  }

  lemma {:induction false} PidLinked(w: World, pidMode: bool, f: Forest, pending: set<Id>, x: Id, pid: int)
    requires Linked(w, pidMode, f, pending)
    ensures Linked(w, pidMode, AppendPid(f, x, pid), pending)
    ensures AppendPid(f, x, pid).list.Keys == f.list.Keys
  {
  }

  ghost predicate Grew(w: World, pidMode: bool, f: Forest, g: Forest, x: Id, pending: set<Id>)
    requires ValidWorld(w, pidMode)
  {
    Linked(w, pidMode, g, pending) && g.list.Keys == f.list.Keys + Ancestry(w, pidMode, x)
  }

  ghost predicate Deeper(w: World, pending: set<Id>, x: Id)
    requires x in w.depth
  {
    forall y :: y in pending ==> y in w.depth && w.depth[y] > w.depth[x]
  }

  /** One addNamespace() keeps the forest linked and records exactly the ancestry. */
  lemma {:induction false} AddLinks(w: World, pidMode: bool, f: Forest, x: Id, pid: int, pending: set<Id>)
    requires ValidWorld(w, pidMode) && x in w.types && Linked(w, pidMode, f, pending) && Deeper(w, pending, x)
    ensures Grew(w, pidMode, f, Add(w, pidMode, f, x, pid), x, pending)
    decreases w.depth[x], 1
  {
    if x in f.list {
      AncestryRecorded(w, pidMode, f.list.Keys, pending, x);
      PidLinked(w, pidMode, f, pending, x, pid);
      assert f.list.Keys == f.list.Keys + Ancestry(w, pidMode, x);
    } else {
      AddToListLinks(w, pidMode, f, x, pending);
      PidLinked(w, pidMode, AddToList(w, pidMode, f, x), pending, x, pid);
    }
  }

  lemma {:induction false} AddToListLinks(w: World, pidMode: bool, f: Forest, x: Id, pending: set<Id>)
    requires ValidWorld(w, pidMode) && x in w.types && x !in f.list
    requires Linked(w, pidMode, f, pending) && Deeper(w, pending, x)
    ensures Grew(w, pidMode, f, AddToList(w, pidMode, f, x), x, pending)
    decreases w.depth[x], 0
  {
    var g := AddEntry(f, x, w.types[x]);
    NewEntryPending(w, pidMode, f, pending, x);
    assert g.list.Keys == f.list.Keys + {x};
    if IsTop(w, pidMode, x) {
      TopLinked(w, pidMode, g, pending, x);
    } else if x !in w.up {
      OrphanGrows(w, pidMode, f, g, x, pending);
    } else {
      AddLinks(w, pidMode, g, w.up[x], -1, pending + {x});
      ParentGrows(w, pidMode, f, Add(w, pidMode, g, w.up[x], -1), x, pending);
    }
  }

  lemma {:induction false} OrphanGrows(w: World, pidMode: bool, f: Forest, g: Forest, x: Id, pending: set<Id>)
    requires ValidWorld(w, pidMode) && HasUp(w, pidMode, x) && x !in w.up && x !in pending
    requires Linked(w, pidMode, g, pending + {x}) && g.list.Keys == f.list.Keys + {x}
    ensures Grew(w, pidMode, f, AppendChild(WithInvis(g), INVIS, x), x, pending)
  {
    InvisLinked(w, pidMode, g, pending + {x});
    FilePending(w, pidMode, WithInvis(g), pending, x, INVIS);
    assert AppendChild(WithInvis(g), INVIS, x).list.Keys == g.list.Keys + {INVIS};
  }

  lemma {:induction false} ParentGrows(w: World, pidMode: bool, f: Forest, h: Forest, x: Id, pending: set<Id>)
    requires ValidWorld(w, pidMode) && x in w.up && x !in pending
    requires Linked(w, pidMode, h, pending + {x})
    requires h.list.Keys == f.list.Keys + {x} + Ancestry(w, pidMode, w.up[x])
    ensures Grew(w, pidMode, f, AppendChild(h, w.up[x], x), x, pending)
  {
    assert w.up[x] in Ancestry(w, pidMode, w.up[x]);
    FilePending(w, pidMode, h, pending, x, w.up[x]);
    assert AppendChild(h, w.up[x], x).list.Keys == h.list.Keys;
  }

  lemma {:induction false} TopLinked(w: World, pidMode: bool, g: Forest, pending: set<Id>, x: Id)
    requires ValidWorld(w, pidMode) && IsTop(w, pidMode, x) && x in g.list && x !in pending
    requires Linked(w, pidMode, g, pending + {x})
    ensures Linked(w, pidMode, g.(root := x), pending)
  {
  }
}
