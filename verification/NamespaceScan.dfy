/** Whole scans: what the forest holds after any sequence of processes, that the order
    of the scan does not matter, and that display shows every entry once. */
module NamespaceScan {
  import opened NamespaceForest

  /** One /proc/PID/ns link: process `pid` is a member of namespace `ns`. */
  datatype Scan = Scan(ns: Id, pid: int)

  ghost predicate Visible(w: World, scans: seq<Scan>) {
    forall i :: 0 <= i < |scans| ==> scans[i].ns in w.types
  }

  const EMPTY_FOREST := Forest(map[], INVIS)

  ghost function ScanAll(w: World, pidMode: bool, scans: seq<Scan>): Forest
    requires ValidWorld(w, pidMode) && Visible(w, scans)
  {
    if scans == [] then EMPTY_FOREST
    else
      var last := scans[|scans|-1];
      Add(w, pidMode, ScanAll(w, pidMode, scans[..|scans|-1]), last.ns, last.pid)
  }

  // ----- members and types

  ghost function Pids(f: Forest, y: Id): seq<int> { if y in f.list then f.list[y].pids else [] }

  ghost function TypeOf(w: World, y: Id): int { if y in w.types then w.types[y] else CLONE_NEWUSER }

  ghost predicate TypesRight(w: World, f: Forest) {
    forall y :: y in f.list ==> f.list[y].nsType == TypeOf(w, y)
  }

  ghost predicate SameMembers(f: Forest, g: Forest) { forall y :: Pids(g, y) == Pids(f, y) }

  /** Only the namespace that is added gains a member, at the end of its list. */
  lemma {:induction false} AddMembers(w: World, pidMode: bool, f: Forest, x: Id, pid: int)
    requires ValidWorld(w, pidMode) && x in w.types
    ensures var g := Add(w, pidMode, f, x, pid);
            && x in g.list
            && (forall y :: Pids(g, y) == Pids(f, y) + if y == x && pid > 0 then [pid] else [])
    decreases w.depth[x], 1
  {
    if x !in f.list {
      AddToListMembers(w, pidMode, f, x);
    }
  }

  lemma {:induction false} AddToListMembers(w: World, pidMode: bool, f: Forest, x: Id)
    requires ValidWorld(w, pidMode) && x in w.types && x !in f.list
    ensures var g := AddToList(w, pidMode, f, x);
            x in g.list && SameMembers(f, g)
    decreases w.depth[x], 0
  {
    var g := AddEntry(f, x, w.types[x]);
    var r := AddToList(w, pidMode, f, x);
    if x in w.up {
      AddMembers(w, pidMode, g, w.up[x], -1);
      AddKeepsKeys(w, pidMode, g, w.up[x], -1, x);
      var h := Add(w, pidMode, g, w.up[x], -1);
      forall y ensures Pids(r, y) == Pids(f, y) {
        assert Pids(r, y) == Pids(h, y) == Pids(g, y) + [] == Pids(g, y) == Pids(f, y);
      }
    }
  }

  ghost function Children(f: Forest, y: Id): seq<Id> { if y in f.list then f.list[y].children else [] }

  ghost predicate Extends(f: Forest, g: Forest) { forall y :: Children(f, y) <= Children(g, y) }

  /** Insertion only appends: a child stays where it is in its list, and new ones follow. */
  lemma {:induction false} AddAppendsChildren(w: World, pidMode: bool, f: Forest, x: Id, pid: int)
    requires ValidWorld(w, pidMode) && x in w.types
    ensures Extends(f, Add(w, pidMode, f, x, pid))
    decreases w.depth[x]
  {
    if x !in f.list {
      var g := AddEntry(f, x, w.types[x]);
      assert Extends(f, g);
      if x in w.up {
        AddAppendsChildren(w, pidMode, g, w.up[x], -1);
        var h := Add(w, pidMode, g, w.up[x], -1);
        assert Extends(h, AppendChild(h, w.up[x], x));
      } else {
        assert Extends(g, WithInvis(g)) && Extends(WithInvis(g), AppendChild(WithInvis(g), INVIS, x));
      }
      assert Extends(f, AddToList(w, pidMode, f, x));
    }
  }

  lemma {:induction false} AddTypes(w: World, pidMode: bool, f: Forest, x: Id, pid: int)
    requires ValidWorld(w, pidMode) && x in w.types && TypesRight(w, f)
    ensures TypesRight(w, Add(w, pidMode, f, x, pid))
    decreases w.depth[x]
  {
    if x !in f.list && x in w.up {
      AddTypes(w, pidMode, AddEntry(f, x, w.types[x]), w.up[x], -1);
    }
  }

  lemma {:induction false} AddKeepsKeys(w: World, pidMode: bool, f: Forest, x: Id, pid: int, y: Id)
    requires ValidWorld(w, pidMode) && x in w.types && y in f.list
    ensures y in Add(w, pidMode, f, x, pid).list
    decreases w.depth[x]
  {
    if x !in f.list && x in w.up {
      AddKeepsKeys(w, pidMode, AddEntry(f, x, w.types[x]), w.up[x], -1, y);
    }
  }

  // ----- what a scan records

  ghost function Recorded(w: World, pidMode: bool, scans: seq<Scan>): set<Id>
    requires ValidWorld(w, pidMode)
  {
    if scans == [] then {}
    else Recorded(w, pidMode, scans[..|scans|-1]) + Ancestry(w, pidMode, scans[|scans|-1].ns)
  }

  lemma {:induction false} RecordedIff(w: World, pidMode: bool, scans: seq<Scan>, y: Id)
    requires ValidWorld(w, pidMode)
    ensures y in Recorded(w, pidMode, scans) <==> exists sc :: sc in scans && y in Ancestry(w, pidMode, sc.ns)
  {
    if scans != [] {
      var init, last := scans[..|scans|-1], scans[|scans|-1];
      RecordedIff(w, pidMode, init, y);
      assert forall sc :: sc in scans <==> sc in init || sc == last;
    }
  }

  /** The forest is linked, records the ancestry of every scanned namespace and nothing
      else, and lists each scanned process under its namespace as often as scanned. */
  lemma {:induction false} ScanResult(w: World, pidMode: bool, scans: seq<Scan>)
    requires ValidWorld(w, pidMode) && Visible(w, scans)
    ensures var f := ScanAll(w, pidMode, scans);
            && Linked(w, pidMode, f, {}) && TypesRight(w, f)
            && f.list.Keys == Recorded(w, pidMode, scans)
  {
    if scans != [] {
      var init, last := scans[..|scans|-1], scans[|scans|-1];
      ScanResult(w, pidMode, init);
      AddLinks(w, pidMode, ScanAll(w, pidMode, init), last.ns, last.pid, {});
      AddTypes(w, pidMode, ScanAll(w, pidMode, init), last.ns, last.pid);
    }
  }

  lemma {:induction false} ScanMembers(w: World, pidMode: bool, scans: seq<Scan>, y: Id, n: int)
    requires ValidWorld(w, pidMode) && Visible(w, scans)
    ensures multiset(Pids(ScanAll(w, pidMode, scans), y))[n] == if n > 0 then multiset(scans)[Scan(y, n)] else 0
  {
    if scans != [] {
      var init, last := scans[..|scans|-1], scans[|scans|-1];
      ScanMembers(w, pidMode, init, y, n);
      AddMembers(w, pidMode, ScanAll(w, pidMode, init), last.ns, last.pid);
      assert scans == init + [last];
    }
  }

  /** Two forests that differ at most in the order inside their lists. */
  ghost predicate SameForest(f: Forest, g: Forest) {
    && f.list.Keys == g.list.Keys && f.root == g.root
    && forall y :: y in f.list ==>
         && f.list[y].nsType == g.list[y].nsType
         && multiset(f.list[y].children) == multiset(g.list[y].children)
         && multiset(f.list[y].pids) == multiset(g.list[y].pids)
  }

  lemma {:induction false} NoDupMultiset(s: seq<Id>, c: Id)
    requires NoDup(s)
    ensures multiset(s)[c] == if c in s then 1 else 0
  {
    if s != [] {
      var init, last := s[..|s|-1], s[|s|-1];
      NoDupMultiset(init, c);
      assert s == init + [last];
      assert last !in init;
    }
  }

  /** Each recorded entry other than a root lies in exactly one child list, once; the
      root and the invisible owner lie in none. */
  lemma {:induction false} OneChildList(w: World, pidMode: bool, f: Forest, c: Id, p: Id)
    requires ValidWorld(w, pidMode) && Linked(w, pidMode, f, {}) && c in f.list && p in f.list
    ensures multiset(f.list[p].children)[c] == if HasUp(w, pidMode, c) && p == UpOf(w, c) then 1 else 0
    ensures HasUp(w, pidMode, c) ==> UpOf(w, c) in f.list
  {
    NoDupMultiset(f.list[p].children, c);
    assert c in f.list[p].children <==> Filed(w, pidMode, f.list.Keys, {}, c, p);
  }

  lemma {:induction false} SameChildren(w: World, pidMode: bool, f: Forest, g: Forest, y: Id)
    requires ChildrenExact(w, pidMode, f, {}) && ChildrenExact(w, pidMode, g, {})
    requires f.list.Keys == g.list.Keys && y in f.list
    ensures multiset(f.list[y].children) == multiset(g.list[y].children)
  {
    var a, b := f.list[y].children, g.list[y].children;
    forall c ensures multiset(a)[c] == multiset(b)[c] {
      NoDupMultiset(a, c);
      NoDupMultiset(b, c);
      assert c in a <==> Filed(w, pidMode, f.list.Keys, {}, c, y);
      assert c in b <==> Filed(w, pidMode, g.list.Keys, {}, c, y);
    }
  }

  lemma {:induction false} SameRoots(w: World, pidMode: bool, f: Forest, g: Forest)
    requires RootRight(w, pidMode, f, {}) && RootRight(w, pidMode, g, {}) && f.list.Keys == g.list.Keys
    ensures f.root == g.root
  {
  }

  lemma {:induction false} SameRecorded(w: World, pidMode: bool, a: seq<Scan>, b: seq<Scan>)
    requires ValidWorld(w, pidMode) && multiset(a) == multiset(b)
    ensures Recorded(w, pidMode, a) == Recorded(w, pidMode, b)
  {
    assert forall sc :: sc in a <==> sc in multiset(a);
    assert forall sc :: sc in b <==> sc in multiset(b);
    forall y ensures y in Recorded(w, pidMode, a) <==> y in Recorded(w, pidMode, b) {
      RecordedIff(w, pidMode, a, y);
      RecordedIff(w, pidMode, b, y);
    }
  }

  lemma {:induction false} SamePids(w: World, pidMode: bool, a: seq<Scan>, b: seq<Scan>, y: Id)
    requires ValidWorld(w, pidMode) && Visible(w, a) && Visible(w, b) && multiset(a) == multiset(b)
    ensures multiset(Pids(ScanAll(w, pidMode, a), y)) == multiset(Pids(ScanAll(w, pidMode, b), y))
  {
    forall n: int
      ensures multiset(Pids(ScanAll(w, pidMode, a), y))[n] == multiset(Pids(ScanAll(w, pidMode, b), y))[n]
    {
      ScanMembers(w, pidMode, a, y, n);
      ScanMembers(w, pidMode, b, y, n);
    }
  }

  /** Main result: any permutation of the same processes gives the same forest. */
  lemma {:induction false} ScanOrderIrrelevant(w: World, pidMode: bool, a: seq<Scan>, b: seq<Scan>)
    requires ValidWorld(w, pidMode) && Visible(w, a) && Visible(w, b) && multiset(a) == multiset(b)
    ensures SameForest(ScanAll(w, pidMode, a), ScanAll(w, pidMode, b))
  {
    var f, g := ScanAll(w, pidMode, a), ScanAll(w, pidMode, b);
    ScanResult(w, pidMode, a);
    ScanResult(w, pidMode, b);
    SameRecorded(w, pidMode, a, b);
    SameRoots(w, pidMode, f, g);
    forall y | y in f.list
      ensures f.list[y].nsType == g.list[y].nsType
      ensures multiset(f.list[y].children) == multiset(g.list[y].children)
      ensures multiset(f.list[y].pids) == multiset(g.list[y].pids)
    {
      SameChildren(w, pidMode, f, g, y);
      SamePids(w, pidMode, a, b, y);
    }
  }

  // ----- display

  ghost function Room(w: World, x: Id): nat {
    if x in w.depth && w.depth[x] < w.height then w.height - w.depth[x] else w.height + 1
  }

  ghost predicate Displayable(w: World, pidMode: bool, f: Forest) {
    ValidWorld(w, pidMode) && Linked(w, pidMode, f, {})
  }

  /** displayNamespaceTree(): the entries in the order they are visited. */
  ghost function Display(w: World, pidMode: bool, f: Forest, x: Id): seq<Id>
    requires Displayable(w, pidMode, f) && x in f.list
    decreases Room(w, x), |f.list[x].children| + 1
  {
    [x] + DisplayAll(w, pidMode, f, x, f.list[x].children)
  }

  ghost function DisplayAll(w: World, pidMode: bool, f: Forest, x: Id, cs: seq<Id>): seq<Id>
    requires Displayable(w, pidMode, f) && x in f.list && cs <= f.list[x].children
    decreases Room(w, x), |cs|
  {
    if cs == [] then []
    else
      var c := cs[|cs|-1];
      assert c in f.list[x].children;
      assert Filed(w, pidMode, f.list.Keys, {}, c, x);
      DisplayAll(w, pidMode, f, x, cs[..|cs|-1]) + Display(w, pidMode, f, c)
  }

  ghost function Depth(w: World, x: Id): int { if x in w.depth then w.depth[x] else -1 }

  lemma {:induction false} AncestryDepth(w: World, pidMode: bool, y: Id, z: Id)
    requires ValidWorld(w, pidMode) && y in w.types && z in Ancestry(w, pidMode, y)
    ensures z == y || Depth(w, z) < Depth(w, y)
    decreases w.depth[y]
  {
    if z != y && y in w.up {
      AncestryDepth(w, pidMode, w.up[y], z);
    }
  }

  /** A chain passes through at most one child of any entry. */
  lemma {:induction false} OneChildOnChain(w: World, pidMode: bool, y: Id, c: Id, d: Id)
    requires ValidWorld(w, pidMode) && y in w.types
    requires c in Ancestry(w, pidMode, y) && d in Ancestry(w, pidMode, y)
    requires HasUp(w, pidMode, c) && HasUp(w, pidMode, d) && UpOf(w, c) == UpOf(w, d)
    ensures c == d
    decreases w.depth[y]
  {
    if c != d {
      if c == y || d == y {
        var e := if c == y then d else c;
        // e is above y, so it is its own parent's ancestor
        if y in w.up {
          AncestryDepth(w, pidMode, w.up[y], e);
        }
        assert false;
      } else {
        OneChildOnChain(w, pidMode, w.up[y], c, d);
      }
    }
  }

  /** The children of `x` that lie on the chain of `y` are one if `x` is properly above
      `y` and none otherwise. */
  lemma {:induction false} ChildOnChain(w: World, pidMode: bool, f: Forest, x: Id, y: Id) returns (c: Id)
    requires Displayable(w, pidMode, f) && x in f.list && y in f.list && y in w.types
    requires x in Ancestry(w, pidMode, y) && x != y
    ensures c in f.list[x].children && c in Ancestry(w, pidMode, y)
    decreases w.depth[y]
  {
    if UpOf(w, y) == x {
      c := y;
      assert Filed(w, pidMode, f.list.Keys, {}, y, x);
    } else {
      assert UpOf(w, y) in f.list;
      c := ChildOnChain(w, pidMode, f, x, w.up[y]);
    }
  }

  lemma {:induction false} AboveChild(w: World, pidMode: bool, y: Id, c: Id)
    requires ValidWorld(w, pidMode) && y in w.types && c in Ancestry(w, pidMode, y) && HasUp(w, pidMode, c)
    ensures UpOf(w, c) in Ancestry(w, pidMode, y)
    decreases w.depth[y]
  {
    if c != y {
      AboveChild(w, pidMode, w.up[y], c);
    } else if y in w.up {
      assert w.up[y] in Ancestry(w, pidMode, w.up[y]);
    }
  }

  /** Displaying from `x` visits `y` once if `x` is `y` or above it, else never. */
  lemma {:induction false} DisplayCount(w: World, pidMode: bool, f: Forest, x: Id, y: Id)
    requires Displayable(w, pidMode, f) && x in f.list && y in f.list && y in w.types
    ensures multiset(Display(w, pidMode, f, x))[y] == if x in Ancestry(w, pidMode, y) then 1 else 0
    decreases Room(w, x), |f.list[x].children| + 1
  {
    var cs := f.list[x].children;
    DisplayAllCount(w, pidMode, f, x, cs, y);
    forall c | c in cs && c in Ancestry(w, pidMode, y) ensures x in Ancestry(w, pidMode, y) && x != y {
      assert Filed(w, pidMode, f.list.Keys, {}, c, x);
      AboveChild(w, pidMode, y, c);
      AncestryDepth(w, pidMode, y, c);
    }
    if x in Ancestry(w, pidMode, y) && x != y {
      var c := ChildOnChain(w, pidMode, f, x, y);
    }
  }

  lemma {:induction false} DisplayAllCount(w: World, pidMode: bool, f: Forest, x: Id, cs: seq<Id>, y: Id)
    requires Displayable(w, pidMode, f) && x in f.list && cs <= f.list[x].children && y in f.list && y in w.types
    ensures multiset(DisplayAll(w, pidMode, f, x, cs))[y] ==
            if exists c :: c in cs && c in Ancestry(w, pidMode, y) then 1 else 0
    decreases Room(w, x), |cs|
  {
    if cs != [] {
      var init, c := cs[..|cs|-1], cs[|cs|-1];
      assert c in f.list[x].children;
      assert Filed(w, pidMode, f.list.Keys, {}, c, x);
      DisplayAllCount(w, pidMode, f, x, init, y);
      DisplayCount(w, pidMode, f, c, y);
      assert forall d :: d in cs <==> d in init || d == c;
      assert NoDup(f.list[x].children);
      forall d | d in init && d in Ancestry(w, pidMode, y) && c in Ancestry(w, pidMode, y) ensures false {
        assert d in f.list[x].children;
        assert Filed(w, pidMode, f.list.Keys, {}, d, x);
        OneChildOnChain(w, pidMode, y, c, d);
      }
    }
  }

  // ----- the order of the display

  lemma {:induction false} ChildListed(w: World, pidMode: bool, f: Forest, x: Id, c: Id)
    requires Displayable(w, pidMode, f) && x in f.list && c in f.list[x].children
    ensures c in f.list && Room(w, c) < Room(w, x)
  {
    assert Filed(w, pidMode, f.list.Keys, {}, c, x);
  }

  /** `t` is one block of `s`, with `u` before it. */
  ghost predicate BlockAfter(s: seq<Id>, u: seq<Id>, t: seq<Id>) { u + t <= s }

  lemma {:induction false} ChildBlock(w: World, pidMode: bool, f: Forest, x: Id, cs: seq<Id>, a: nat)
    returns (u: seq<Id>)
    requires Displayable(w, pidMode, f) && x in f.list && cs <= f.list[x].children && a < |cs|
    ensures cs[a] in f.list && BlockAfter(DisplayAll(w, pidMode, f, x, cs), u, Display(w, pidMode, f, cs[a]))
    ensures u == DisplayAll(w, pidMode, f, x, cs[..a])
    decreases |cs|
  {
    assert cs[a] in f.list[x].children;
    ChildListed(w, pidMode, f, x, cs[a]);
    if a == |cs| - 1 {
      u := DisplayAll(w, pidMode, f, x, cs[..a]);
    } else {
      assert cs[..|cs|-1][..a] == cs[..a];
      u := ChildBlock(w, pidMode, f, x, cs[..|cs|-1], a);
    }
  }

  /** An entry is shown before everything below it, and the subtrees of its children are
      shown as blocks, one after another in the order of its child list. */
  lemma {:induction false} DisplaySiblings(w: World, pidMode: bool, f: Forest, x: Id, a: nat, b: nat)
    returns (u: seq<Id>, v: seq<Id>, r: seq<Id>)
    requires Displayable(w, pidMode, f) && x in f.list && a < b < |f.list[x].children|
    ensures var cs := f.list[x].children;
            && cs[a] in f.list && cs[b] in f.list
            && Display(w, pidMode, f, x) ==
                 [x] + u + Display(w, pidMode, f, cs[a]) + v + Display(w, pidMode, f, cs[b]) + r
  {
    var cs := f.list[x].children;
    var all := DisplayAll(w, pidMode, f, x, cs);
    var before := ChildBlock(w, pidMode, f, x, cs, b);
    assert cs[..b][..a] == cs[..a];
    u := ChildBlock(w, pidMode, f, x, cs[..b], a);
    var first, second := Display(w, pidMode, f, cs[a]), Display(w, pidMode, f, cs[b]);
    v := before[|u + first|..];
    r := all[|before + second|..];
    assert before == u + first + v;
    assert all == before + second + r;
  }

  /** The display of any entry at or below `x` is one block of the display of `x`, and it
      begins with that entry. */
  lemma {:induction false} DisplaySubtree(w: World, pidMode: bool, f: Forest, x: Id, y: Id)
    returns (u: seq<Id>, r: seq<Id>)
    requires Displayable(w, pidMode, f) && x in f.list && y in f.list && y in w.types && x in Ancestry(w, pidMode, y)
    ensures Display(w, pidMode, f, x) == u + Display(w, pidMode, f, y) + r
    ensures Display(w, pidMode, f, y)[0] == y && (x != y ==> u != [] && u[0] == x)
    decreases Room(w, x)
  {
    if x == y {
      u, r := [], [];
    } else {
      var c := ChildOnChain(w, pidMode, f, x, y);
      ChildListed(w, pidMode, f, x, c);
      var v, t := ChildSplit(w, pidMode, f, x, c);
      var inner, after := DisplaySubtree(w, pidMode, f, c, y);
      u, r := v + inner, after + t;
      Reassociate(v, inner, Display(w, pidMode, f, y), after, t);
    }
  }

  lemma {:induction false} Reassociate(a: seq<Id>, b: seq<Id>, c: seq<Id>, d: seq<Id>, e: seq<Id>)
    ensures a + (b + c + d) + e == (a + b) + c + (d + e)
  {
  }

  lemma {:induction false} ChildSplit(w: World, pidMode: bool, f: Forest, x: Id, c: Id)
    returns (u: seq<Id>, r: seq<Id>)
    requires Displayable(w, pidMode, f) && x in f.list && c in f.list[x].children && c in f.list
    ensures Display(w, pidMode, f, x) == u + Display(w, pidMode, f, c) + r && u != [] && u[0] == x
  {
    var cs := f.list[x].children;
    var a: nat :| a < |cs| && cs[a] == c;
    var v := ChildBlock(w, pidMode, f, x, cs, a);
    u, r := CutBlock(x, DisplayAll(w, pidMode, f, x, cs), v, Display(w, pidMode, f, c));
  }

  lemma {:induction false} CutBlock(x: Id, all: seq<Id>, v: seq<Id>, block: seq<Id>) returns (u: seq<Id>, r: seq<Id>)
    requires BlockAfter(all, v, block)
    ensures [x] + all == u + block + r && u != [] && u[0] == x
  {
    u, r := [x] + v, all[|v + block|..];
    assert all == v + block + r;
  }

  /** Every chain ends in the topmost namespace or in the invisible owner. */
  lemma {:induction false} ChainEnd(w: World, pidMode: bool, f: Forest, y: Id)
    requires Displayable(w, pidMode, f) && y in f.list && y in w.types
    ensures f.root != INVIS && f.root in Ancestry(w, pidMode, y) <==> INVIS !in Ancestry(w, pidMode, y)
    ensures INVIS in Ancestry(w, pidMode, y) ==> INVIS in f.list
    decreases w.depth[y]
  {
    if y in w.up {
      assert UpOf(w, y) in f.list;
      ChainEnd(w, pidMode, f, w.up[y]);
    } else if HasUp(w, pidMode, y) {
      assert UpOf(w, y) in f.list;
    }
  }

  /** displayNamespaceHierarchies() without --subtree. */
  ghost function DisplayForest(w: World, pidMode: bool, f: Forest): seq<Id>
    requires Displayable(w, pidMode, f) && f.root in f.list
  {
    Display(w, pidMode, f, f.root) + if INVIS in f.list then Display(w, pidMode, f, INVIS) else []
  }

  lemma {:induction false} InvisCount(w: World, pidMode: bool, f: Forest, x: Id)
    requires Displayable(w, pidMode, f) && x in f.list
    ensures multiset(Display(w, pidMode, f, x))[INVIS] == if x == INVIS then 1 else 0
    decreases Room(w, x), |f.list[x].children| + 1
  {
    InvisCountAll(w, pidMode, f, x, f.list[x].children);
  }

  lemma {:induction false} InvisCountAll(w: World, pidMode: bool, f: Forest, x: Id, cs: seq<Id>)
    requires Displayable(w, pidMode, f) && x in f.list && cs <= f.list[x].children
    ensures multiset(DisplayAll(w, pidMode, f, x, cs))[INVIS] == 0
    decreases Room(w, x), |cs|
  {
    if cs != [] {
      var c := cs[|cs|-1];
      assert c in f.list[x].children;
      assert Filed(w, pidMode, f.list.Keys, {}, c, x);
      InvisCountAll(w, pidMode, f, x, cs[..|cs|-1]);
      InvisCount(w, pidMode, f, c);
    }
  }

  /** The two trees that are displayed cover the forest: once if `root` is a topmost
      namespace, twice if it still has its initial value, the invisible owner's key. */
  lemma {:induction false} DisplayVisits(w: World, pidMode: bool, f: Forest, y: Id)
    requires Displayable(w, pidMode, f) && f.root in f.list && y in f.list
    ensures multiset(DisplayForest(w, pidMode, f))[y] == if f.root == INVIS then 2 else 1
  {
    if y == INVIS {
      InvisCount(w, pidMode, f, f.root);
      InvisCount(w, pidMode, f, INVIS);
    } else {
      DisplayCount(w, pidMode, f, f.root, y);
      if INVIS in f.list {
        DisplayCount(w, pidMode, f, INVIS, y);
      }
      ChainEnd(w, pidMode, f, y);
    }
  }

  /** A nonuser namespace whose owner is not visible. */
  predicate IsOrphan(w: World, pidMode: bool, x: Id) { HasUp(w, pidMode, x) && x !in w.up }

  /** Every other namespace has a topmost one on its chain. */
  lemma {:induction false} ReachesTop(w: World, pidMode: bool, x: Id)
    requires ValidWorld(w, pidMode) && x in w.types && !IsOrphan(w, pidMode, x)
    ensures exists t :: t in Ancestry(w, pidMode, x) && IsTop(w, pidMode, t)
    decreases w.depth[x]
  {
    if x in w.up {
      ReachesTop(w, pidMode, w.up[x]);
      var t :| t in Ancestry(w, pidMode, w.up[x]) && IsTop(w, pidMode, t);
      assert t in Ancestry(w, pidMode, x);
    } else {
      assert x in Ancestry(w, pidMode, x);
    }
  }

  ghost predicate AllOrphans(w: World, pidMode: bool, scans: seq<Scan>) {
    forall i :: 0 <= i < |scans| ==> IsOrphan(w, pidMode, scans[i].ns)
  }

  /** The root of a scan: found exactly when some scanned namespace is not an orphan,
      and in any case the key of a recorded entry. */
  lemma {:induction false} RootFound(w: World, pidMode: bool, scans: seq<Scan>)
    requires ValidWorld(w, pidMode) && Visible(w, scans) && scans != []
    ensures var f := ScanAll(w, pidMode, scans);
            f.root in f.list && (f.root == INVIS <==> AllOrphans(w, pidMode, scans))
  {
    ScanResult(w, pidMode, scans);
    var f := ScanAll(w, pidMode, scans);
    forall i, t | 0 <= i < |scans| && t in Ancestry(w, pidMode, scans[i].ns) ensures t in f.list {
      assert scans[i] in scans;
      RecordedIff(w, pidMode, scans, t);
    }
    if AllOrphans(w, pidMode, scans) {
      assert INVIS in Ancestry(w, pidMode, scans[0].ns);
      OrphansHaveNoTop(w, pidMode, scans, f.root);
    } else {
      var i :| 0 <= i < |scans| && !IsOrphan(w, pidMode, scans[i].ns);
      ReachesTop(w, pidMode, scans[i].ns);
    }
  }

  lemma {:induction false} OrphansHaveNoTop(w: World, pidMode: bool, scans: seq<Scan>, t: Id)
    requires ValidWorld(w, pidMode) && AllOrphans(w, pidMode, scans) && t in Recorded(w, pidMode, scans)
    ensures !IsTop(w, pidMode, t)
  {
    RecordedIff(w, pidMode, scans, t);
    var sc :| sc in scans && t in Ancestry(w, pidMode, sc.ns);
    var i :| 0 <= i < |scans| && scans[i] == sc;
    assert IsOrphan(w, pidMode, sc.ns);
  }

  /** Display after any nonempty scan: every recorded entry is visited exactly once,
      unless every scanned namespace is an orphan, and then exactly twice. */
  lemma {:induction false} ScanDisplay(w: World, pidMode: bool, scans: seq<Scan>, y: Id)
    requires ValidWorld(w, pidMode) && Visible(w, scans) && scans != []
    requires y in ScanAll(w, pidMode, scans).list
    ensures var f := ScanAll(w, pidMode, scans);
            && Displayable(w, pidMode, f) && f.root in f.list
            && multiset(DisplayForest(w, pidMode, f))[y] == if AllOrphans(w, pidMode, scans) then 2 else 1
  {
    ScanResult(w, pidMode, scans);
    RootFound(w, pidMode, scans);
    DisplayVisits(w, pidMode, ScanAll(w, pidMode, scans), y);
  }

  /** Main result on display: a scan that reads a user namespace, as main() does for every
      process, and every nonempty scan in PID mode, shows each recorded entry once. */
  lemma {:induction false} ShownOnce(w: World, pidMode: bool, scans: seq<Scan>, y: Id)
    requires ValidWorld(w, pidMode) && Visible(w, scans) && scans != []
    requires pidMode || exists i :: 0 <= i < |scans| && w.types[scans[i].ns] == CLONE_NEWUSER
    requires y in ScanAll(w, pidMode, scans).list
    ensures var f := ScanAll(w, pidMode, scans);
            && Displayable(w, pidMode, f) && f.root in f.list
            && multiset(DisplayForest(w, pidMode, f))[y] == 1
  {
    ScanDisplay(w, pidMode, scans, y);
    var i :| 0 <= i < |scans| && (pidMode || w.types[scans[i].ns] == CLONE_NEWUSER);
    assert !IsOrphan(w, pidMode, scans[i].ns);
  }

  /** A kernel built without user namespaces: there is no `user` link to read and asking
      for an owner fails for every namespace. Any scan there is shown twice. */
  lemma {:induction false} ShownTwice(w: World, scans: seq<Scan>, y: Id)
    requires ValidWorld(w, false) && Visible(w, scans) && scans != []
    requires w.up == map[] && forall x :: x in w.types ==> w.types[x] != CLONE_NEWUSER
    requires y in ScanAll(w, false, scans).list
    ensures var f := ScanAll(w, false, scans);
            && Displayable(w, false, f) && f.root in f.list
            && multiset(DisplayForest(w, false, f))[y] == 2
  {
    ScanDisplay(w, false, scans, y);
    assert AllOrphans(w, false, scans);
  }

  /** One such scan: a process in one network namespace. */
  lemma {:induction false} ShownTwiceExample()
    ensures var x := Id(4, 1);
            var w := World(map[x := 0x4000_0000], map[], map[x := 0], 1);
            var scans := [Scan(x, 7)];
            && ValidWorld(w, false) && Visible(w, scans)
            && var f := ScanAll(w, false, scans);
               Displayable(w, false, f) && f.root in f.list && multiset(DisplayForest(w, false, f))[x] == 2
  {
    var x := Id(4, 1);
    var w := World(map[x := 0x4000_0000], map[], map[x := 0], 1);
    var scans := [Scan(x, 7)];
    ScanResult(w, false, scans);
    assert scans[0] in scans && x in Ancestry(w, false, x);
    RecordedIff(w, false, scans, x);
    ShownTwice(w, scans, x);
  }

  // ----- the Go program's own form

  class NamespaceInfo {
    var nsList: map<Id, Entry>
    var rootNS: Id

    ghost function Now(): Forest
      reads this
    {
      Forest(nsList, rootNS)
    }

    constructor ()
      ensures Now() == EMPTY_FOREST
    {
      nsList, rootNS := map[], INVIS;
    }

    method AddNamespace(w: World, pidMode: bool, nsid: Id, pid: int)
      requires ValidWorld(w, pidMode) && nsid in w.types
      modifies this
      ensures Now() == Add(w, pidMode, old(Now()), nsid, pid)
      decreases w.depth[nsid], 1
    {
      ghost var was := Now();
      if nsid !in nsList {
        AddNamespaceToList(w, pidMode, nsid);
        AddToListMembers(w, pidMode, was, nsid);
      }
      if pid > 0 {
        nsList := nsList[nsid := nsList[nsid].(pids := nsList[nsid].pids + [pid])];
      }
    }

    method AddNamespaceToList(w: World, pidMode: bool, nsid: Id)
      requires ValidWorld(w, pidMode) && nsid in w.types && nsid !in nsList
      modifies this
      ensures Now() == AddToList(w, pidMode, old(Now()), nsid)
      decreases w.depth[nsid], 0
    {
      nsList := nsList[nsid := Entry(w.types[nsid], [], [])];
      if nsid !in w.up {
        if nsList[nsid].nsType == CLONE_NEWUSER || pidMode {
          rootNS := nsid;
        } else {
          if INVIS !in nsList {
            nsList := nsList[INVIS := Entry(CLONE_NEWUSER, [], [])];
          }
          nsList := nsList[INVIS := nsList[INVIS].(children := nsList[INVIS].children + [nsid])];
        }
      } else {
        var parent := w.up[nsid];
        ghost var was := Now();
        AddNamespace(w, pidMode, parent, -1);
        AddMembers(w, pidMode, was, parent, -1);
        nsList := nsList[parent := nsList[parent].(children := nsList[parent].children + [nsid])];
      }
    }

    /** The loop over /proc. */
    method AddNamespacesForAllProcesses(w: World, pidMode: bool, scans: seq<Scan>)
      requires ValidWorld(w, pidMode) && Visible(w, scans) && Now() == EMPTY_FOREST
      modifies this
      ensures Now() == ScanAll(w, pidMode, scans)
    {
      var i := 0;
      while i < |scans|
        invariant 0 <= i <= |scans|
        invariant Now() == ScanAll(w, pidMode, scans[..i])
      {
        AddNamespace(w, pidMode, scans[i].ns, scans[i].pid);
        assert scans[..i+1][..i] == scans[..i];
        i := i + 1;
      }
      assert scans[..i] == scans;
    }
  }
}
