/** ns_capable.c: the walk from the target user namespace up to the source, and the
    accounting of the descriptors that the walk opens and closes. */
module AncestorWalk {

  /** The user namespace hierarchy as visible to the caller: `parent` lacks the topmost
      namespace, for which NS_GET_PARENT fails with EPERM. */
  datatype Hierarchy = Hierarchy(parent: map<int, int>, depth: map<int, nat>, ownerUid: map<int, int>)

  /** What the program prints about the source and the target namespace. */
  datatype Verdict = InTarget | NotAncestor | Ancestor(isOwner: bool)

  ghost predicate ValidHierarchy(h: Hierarchy) {
    && h.parent.Keys <= h.depth.Keys && h.ownerUid.Keys == h.depth.Keys
    && forall n :: n in h.parent ==> h.parent[n] in h.depth && h.depth[h.parent[n]] < h.depth[n]
  }

  /** `n` and everything above it, nearest first. */
  ghost function Chain(h: Hierarchy, n: int): seq<int>
    requires ValidHierarchy(h)
    decreases if n in h.depth then h.depth[n] else 0
  {
    [n] + if n in h.parent then Chain(h, h.parent[n]) else []
  }

  ghost predicate ProperAncestor(h: Hierarchy, a: int, n: int)
    requires ValidHierarchy(h)
  {
    a in Chain(h, n)[1..]
  }

  /** `c` is on the chain of `n` and its parent is `a`. */
  ghost predicate ChildToward(h: Hierarchy, a: int, n: int, c: int)
    requires ValidHierarchy(h)
  {
    c in Chain(h, n) && c in h.parent && h.parent[c] == a
  }

  lemma {:induction false} ChainDepth(h: Hierarchy, n: int, m: int)
    requires ValidHierarchy(h) && n in h.depth && m in Chain(h, n)
    ensures m in h.depth && (m == n || h.depth[m] < h.depth[n])
    decreases h.depth[n]
  {
    if m != n && n in h.parent {
      ChainDepth(h, h.parent[n], m);
    }
  }

  /** At most one namespace of a chain has a given parent. */
  lemma {:induction false} ChildUnique(h: Hierarchy, a: int, n: int, c: int, d: int)
    requires ValidHierarchy(h) && n in h.depth && ChildToward(h, a, n, c) && ChildToward(h, a, n, d)
    ensures c == d
    decreases h.depth[n]
  {
    if c != d {
      if c != n && d != n {
        ChildUnique(h, a, h.parent[n], c, d);
      } else {
        ChainDepth(h, h.parent[n], if c == n then d else c);
      }
    }
  }

  /** The source is a proper ancestor exactly when such a child exists. */
  lemma {:induction false} AncestorHasChild(h: Hierarchy, a: int, n: int)
    requires ValidHierarchy(h) && n in h.depth
    ensures ProperAncestor(h, a, n) <==> exists c :: ChildToward(h, a, n, c)
    decreases h.depth[n]
  {
    if n in h.parent {
      var p := h.parent[n];
      AncestorHasChild(h, a, p);
      assert Chain(h, n) == [n] + Chain(h, p);
      assert Chain(h, n)[1..] == Chain(h, p);
      assert Chain(h, p)[0] == p;
      assert a in Chain(h, p) <==> a == p || a in Chain(h, p)[1..];
      if a == p {
        assert ChildToward(h, a, n, n);
      }
      forall c | ChildToward(h, a, p, c) ensures ChildToward(h, a, n, c) {
      }
      forall c | ChildToward(h, a, n, c) && c != n ensures ChildToward(h, a, p, c) {
      }
    }
  }

  lemma {:induction false} AboveStays(h: Hierarchy, n: int, c: int)
    requires ValidHierarchy(h) && n in h.depth && c in Chain(h, n) && c in h.parent
    ensures h.parent[c] in Chain(h, n)
    decreases h.depth[n]
  {
    if c != n {
      AboveStays(h, h.parent[n], c);
    } else {
      assert Chain(h, h.parent[n])[0] == h.parent[n];
    }
  }

  /** One step of the walk: above `c` lies its parent and what is above that. */
  lemma {:induction false} OneUp(h: Hierarchy, a: int, c: int)
    requires ValidHierarchy(h) && c in h.parent
    ensures ProperAncestor(h, a, c) <==> a == h.parent[c] || ProperAncestor(h, a, h.parent[c])
  {
    var p := h.parent[c];
    assert Chain(h, c)[1..] == Chain(h, p);
    assert Chain(h, p) == [p] + Chain(h, p)[1..];
  }

  /** Beside what was open, the walk holds at most the descriptor `fd` of `n`. */
  ghost predicate Holding(was: map<int, int>, now: map<int, int>, target: int, fd: int, n: int) {
    if fd == target then now == was && fd in was && was[fd] == n
    else fd !in was && now == was[fd := n]
  }

  lemma {:induction false} PutDrop(m: map<int, int>, k: int, v: int)
    requires k !in m
    ensures m[k := v] - {k} == m
  {
  }

  lemma {:induction false} PutPutDrop(m: map<int, int>, k: int, v: int, l: int, u: int)
    requires k !in m && k != l
    ensures m[k := v][l := u] - {k} == m[l := u]
  {
  }

  /** Open descriptors of the process and the namespaces behind them. */
  class Descriptors {
    var open: map<int, int>

    constructor (initial: map<int, int>)
      ensures open == initial
    {
      open := initial;
    }

    /** The lowest unused number, as the kernel allocates; any unused one would do. */
    method Install(ns: int) returns (fd: int)
      modifies this
      ensures fd >= 0 && fd !in old(open) && open == old(open)[fd := ns]
    {
      fd := 0;
      ghost var seen: set<int> := {};
      while fd in open
        invariant fd >= 0
        invariant open == old(open) && seen <= open.Keys && fd !in seen && forall x :: x in seen ==> x < fd
        decreases open.Keys - seen
      {
        seen := seen + {fd};
        fd := fd + 1;
      }
      open := open[fd := ns];
    }

    /** close() of a descriptor that is open. */
    method Close(fd: int)
      requires fd in open
      modifies this
      ensures open == old(open) - {fd}
    {
      open := open - {fd};
    }

    /** NS_GET_PARENT: a new descriptor, or -1 with EPERM at the top. */
    method GetParent(h: Hierarchy, fd: int) returns (parent: int)
      requires fd in open
      modifies this
      ensures fd in open && open[fd] == old(open[fd])
      ensures open[fd] !in h.parent ==> parent == -1 && open == old(open)
      ensures open[fd] in h.parent ==>
        parent >= 0 && parent !in old(open) && open == old(open)[parent := h.parent[open[fd]]]
    {
      if open[fd] !in h.parent { return -1; }
      parent := Install(h.parent[open[fd]]);
    }

    /** is_ancestor_userns(): -1 exactly when the source is not a proper ancestor of the
        target; otherwise a descriptor of the namespace on the target's chain whose
        parent is the source. Every descriptor opened on the way is closed again,
        except the one returned, and the target's is never closed. */
    method IsAncestorUserns(h: Hierarchy, source: int, target: int) returns (r: int)
      requires ValidHierarchy(h) && source in open && target in open && target >= 0 && open[target] in h.depth
      modifies this
      ensures r == -1 <==> !ProperAncestor(h, old(open[source]), old(open[target]))
      ensures r == -1 || r == target ==> open == old(open)
      ensures r != -1 ==> r in open && ChildToward(h, old(open[source]), old(open[target]), open[r])
      ensures r != -1 && r != target ==> r >= 0 && r !in old(open) && open == old(open)[r := open[r]]
    {
      var child := target;
      ghost var s, t, was := open[source], open[target], open;
      ghost var c := t;
      while true
        invariant Holding(was, open, target, child, c) && child >= 0
        invariant c in Chain(h, t) && c in h.depth
        invariant ProperAncestor(h, s, t) <==> ProperAncestor(h, s, c)
        decreases h.depth[c]
      {
        var parent := GetParent(h, child);
        if parent == -1 {
          assert !ProperAncestor(h, s, c);
          if child != target {
            Close(child);
            PutDrop(was, child, c);
          }
          return -1;
        }
        ghost var p := h.parent[c];
        AboveStays(h, t, c);
        OneUp(h, s, c);
        PutDrop(if child == target then was else was[child := c], parent, p);
        if open[parent] == open[source] {
          Close(parent);
          return child;
        }
        if child != target {
          Close(child);
          PutPutDrop(was, child, c, parent, p);
        }
        child, c := parent, p;
      }
    }

    /** main(): what is decided, and that it closes each descriptor exactly once: the
        table ends without the two descriptors it was given and with nothing else. */
    method Decide(h: Hierarchy, source: int, target: int, euid: int) returns (v: Verdict)
      requires ValidHierarchy(h) && source in open && target in open && source != target && target >= 0
      requires open[target] in h.depth
      modifies this
      ensures open == old(open) - {source, target}
      ensures var s, t := old(open[source]), old(open[target]);
              match v
              case InTarget => s == t
              case NotAncestor => s != t && !ProperAncestor(h, s, t)
              case Ancestor(isOwner) =>
                && s != t && ProperAncestor(h, s, t)
                && forall c :: ChildToward(h, s, t, c) && c in h.ownerUid ==> isOwner == (euid == h.ownerUid[c])
    {
      ghost var s, t := open[source], open[target];
      if open[source] == open[target] {
        v := InTarget;
      } else {
        var child := IsAncestorUserns(h, source, target);
        if child == -1 {
          v := NotAncestor;
        } else {
          ChainDepth(h, t, open[child]);
          v := Ancestor(euid == h.ownerUid[open[child]]);
          ghost var n := open[child];
          forall c | ChildToward(h, s, t, c) ensures c == n {
            ChildUnique(h, s, t, c, n);
          }
          if child != target {
            Close(child);
          }
        }
      }
      Close(target);
      Close(source);
    }
  }
}
