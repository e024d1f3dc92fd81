/** The watched directory trees as the kernel holds them: every directory knows its
    parent and its name, and a rename changes that one pair. Rewriting the cached
    strings by textual prefix is proved to agree with such a rename. */
module DirTree {
  import opened WatchCache

  /** Inode numbers; a directory below a root has a parent and a name. */
  datatype Dir = Dir(parent: int, name: string)
  datatype Tree = Tree(roots: map<int, string>, dirs: map<int, Dir>)

  /** `c` runs from a root down to its last inode, one parent link per step. */
  ghost predicate IsChain(t: Tree, c: seq<int>) {
    && |c| > 0 && c[0] in t.roots
    && forall k :: 1 <= k < |c| ==> c[k] in t.dirs && t.dirs[c[k]].parent == c[k-1]
  }

  ghost predicate ChainTo(t: Tree, c: seq<int>, i: int) {
    IsChain(t, c) && c[|c|-1] == i
  }

  ghost predicate Exists(t: Tree, i: int) { i in t.roots || i in t.dirs }

  ghost predicate WellFormed(t: Tree) {
    && t.roots.Keys !! t.dirs.Keys
    && (forall i :: i in t.dirs ==> IsName(t.dirs[i].name))
    && (forall i, j :: i in t.dirs && j in t.dirs && i != j && t.dirs[i].parent == t.dirs[j].parent
          ==> t.dirs[i].name != t.dirs[j].name)
    && (forall r, q :: r in t.roots && q in t.roots && r != q ==> !AtOrBelow(t.roots[r], t.roots[q]))
    && (forall i :: Exists(t, i) ==> exists c :: ChainTo(t, c, i))
  }

  /** "/a/b" for the names along `c`. */
  ghost function Suffix(t: Tree, c: seq<int>): string
    requires forall k :: 0 <= k < |c| ==> c[k] in t.dirs
  {
    if c == [] then "" else Join(Suffix(t, c[..|c|-1]), t.dirs[c[|c|-1]].name)
  }

  /** The pathname of the last directory of `c`. */
  ghost function Text(t: Tree, c: seq<int>): string
    requires IsChain(t, c)
  {
    t.roots[c[0]] + Suffix(t, c[1..])
  }

  // ----- chains

  lemma {:induction false} ChainUnique(t: Tree, c: seq<int>, d: seq<int>)
    requires t.roots.Keys !! t.dirs.Keys
    requires IsChain(t, c) && IsChain(t, d) && c[|c|-1] == d[|d|-1]
    ensures c == d
  {
    if |c| > 1 && |d| > 1 {
      ChainUnique(t, c[..|c|-1], d[..|d|-1]);
      assert c == c[..|c|-1] + [c[|c|-1]];
      assert d == d[..|d|-1] + [d[|d|-1]];
    }
  }

  lemma {:induction false} SuffixConcat(t: Tree, c: seq<int>, d: seq<int>)
    requires forall k :: 0 <= k < |c| ==> c[k] in t.dirs
    requires forall k :: 0 <= k < |d| ==> d[k] in t.dirs
    ensures Suffix(t, c + d) == Suffix(t, c) + Suffix(t, d)
  {
    if d == [] {
      assert c + d == c;
    } else {
      SuffixConcat(t, c, d[..|d|-1]);
      assert (c + d)[..|c + d|-1] == c + d[..|d|-1];
    }
  }

  lemma {:induction false} SuffixShape(t: Tree, c: seq<int>)
    requires forall k :: 0 <= k < |c| ==> c[k] in t.dirs
    ensures c == [] || (|Suffix(t, c)| > 0 && Suffix(t, c)[0] == '/')
  {
    if |c| > 1 {
      SuffixShape(t, c[..|c|-1]);
    }
  }

  lemma {:induction false} TextAppend(t: Tree, d: seq<int>, rest: seq<int>)
    requires IsChain(t, d) && IsChain(t, d + rest)
    ensures forall k :: 0 <= k < |rest| ==> rest[k] in t.dirs
    ensures Text(t, d + rest) == Text(t, d) + Suffix(t, rest)
  {
    var c := d + rest;
    forall k | 0 <= k < |rest| ensures rest[k] in t.dirs {
      assert rest[k] == c[|d| + k];
    }
    assert c[1..] == d[1..] + rest;
    SuffixConcat(t, d[1..], rest);
  }

  lemma {:induction false} TextLast(t: Tree, c: seq<int>)
    requires IsChain(t, c) && |c| > 1
    ensures IsChain(t, c[..|c|-1])
    ensures Text(t, c) == Join(Text(t, c[..|c|-1]), t.dirs[c[|c|-1]].name)
  {
    var p, i := c[..|c|-1], c[|c|-1];
    assert c == p + [i];
    TextAppend(t, p, [i]);
    assert Suffix(t, [i]) == Join(Suffix(t, []), t.dirs[i].name);
  }

  // ----- textual prefix is tree ancestry

  lemma {:induction false} LastSlash(p: string, n: string)
    requires IsName(n)
    ensures Join(p, n)[|p|] == '/'
    ensures forall k :: |p| < k < |Join(p, n)| ==> Join(p, n)[k] != '/'
  {
  }

  /** The last slash splits a joined path in one way only. */
  lemma {:induction false} JoinInjective(p: string, n: string, q: string, m: string)
    requires IsName(n) && IsName(m) && Join(p, n) == Join(q, m)
    ensures p == q && n == m
  {
    var s := Join(p, n);
    LastSlash(p, n);
    LastSlash(q, m);
    assert p == s[..|p|] && q == s[..|q|];
    assert n == s[|p|+1..] && m == s[|q|+1..];
  }

  /** Below a joined path, or below its directory part, or equal to it. */
  lemma {:induction false} BelowJoin(top: string, p: string, n: string)
    requires IsName(n) && AtOrBelow(top, Join(p, n))
    ensures top == Join(p, n) || AtOrBelow(top, p)
  {
  }

  lemma {:induction false} BelowTrans(a: string, b: string, c: string)
    requires AtOrBelow(a, b) && AtOrBelow(b, c)
    ensures AtOrBelow(a, c)
  {
  }

  lemma {:induction false} RootAbove(t: Tree, c: seq<int>)
    requires IsChain(t, c)
    ensures AtOrBelow(t.roots[c[0]], Text(t, c))
    ensures |c| > 1 ==> |Text(t, c)| > |t.roots[c[0]]|
  {
    SuffixShape(t, c[1..]);
  }

  /** Two texts, one at or below the other, start at the same root. */
  lemma {:induction false} SameRoot(t: Tree, d: seq<int>, c: seq<int>)
    requires WellFormed(t) && IsChain(t, d) && IsChain(t, c)
    requires AtOrBelow(Text(t, d), Text(t, c))
    requires |c| == 1 || |d| == 1
    ensures d[0] == c[0] && |d| == 1
  {
    RootAbove(t, d);
    RootAbove(t, c);
    BelowTrans(t.roots[d[0]], Text(t, d), Text(t, c));
    var x, y, whole := t.roots[d[0]], t.roots[c[0]], Text(t, c);
    assert AtOrBelow(x, whole) && AtOrBelow(y, whole);
    // two prefixes of one string are comparable
    assert x == whole[..|x|] && y == whole[..|y|];
    assert |x| <= |y| ==> AtOrBelow(x, y) by {
      assert |x| < |y| ==> y[|x|] == whole[|x|];
    }
    assert |y| <= |x| ==> AtOrBelow(y, x) by {
      assert |y| < |x| ==> x[|y|] == whole[|y|];
    }
  }

  lemma {:induction false} PrefixIsAbove(t: Tree, d: seq<int>, c: seq<int>)
    requires IsChain(t, d) && IsChain(t, c) && d <= c
    ensures AtOrBelow(Text(t, d), Text(t, c))
  {
    var rest := c[|d|..];
    assert c == d + rest;
    TextAppend(t, d, rest);
    SuffixShape(t, rest);
  }

  lemma {:induction false} AboveIsPrefix(t: Tree, d: seq<int>, c: seq<int>)
    requires WellFormed(t) && IsChain(t, d) && IsChain(t, c)
    requires AtOrBelow(Text(t, d), Text(t, c))
    ensures d <= c
    decreases |c| + |d|
  {
    if |c| == 1 || |d| == 1 {
      SameRoot(t, d, c);
    } else {
      TextLast(t, c);
      TextLast(t, d);
      var pc, pd := c[..|c|-1], d[..|d|-1];
      var ci, di := c[|c|-1], d[|d|-1];
      assert ci in t.dirs && di in t.dirs;
      var nc, nd := t.dirs[ci].name, t.dirs[di].name;
      BelowJoin(Text(t, d), Text(t, pc), nc);
      if AtOrBelow(Text(t, d), Text(t, pc)) {
        AboveIsPrefix(t, d, pc);
      } else {
        JoinInjective(Text(t, pd), nd, Text(t, pc), nc);
        AboveIsPrefix(t, pd, pc);
        AboveIsPrefix(t, pc, pd);
        assert pc == pd;
        assert t.dirs[ci].parent == pc[|pc|-1] == t.dirs[di].parent;
        assert c == pc + [ci] && d == pd + [di];
      }
    }
  }

  /** The textual test of the C code holds exactly when one directory is an
      ancestor of the other (or the same): chains are compared, not strings. */
  lemma {:induction false} TextualPrefixIsAncestry(t: Tree, d: seq<int>, c: seq<int>)
    requires WellFormed(t) && IsChain(t, d) && IsChain(t, c)
    ensures AtOrBelow(Text(t, d), Text(t, c)) <==> d <= c
  {
    if d <= c {
      PrefixIsAbove(t, d, c);
    } else if AtOrBelow(Text(t, d), Text(t, c)) {
      AboveIsPrefix(t, d, c);
    }
  }

  // ----- rename

  /** rename(): one directory gets a new parent and a new name. */
  ghost function Rename(t: Tree, i: int, np: int, nn: string): Tree {
    t.(dirs := t.dirs[i := Dir(np, nn)])
  }

  /** What the kernel demands of a rename within the trees to a free name: the new
      parent is not the directory itself or below it. */
  ghost predicate CanRename(t: Tree, i: int, np: int, nn: string) {
    && i in t.dirs && Exists(t, np) && IsName(nn)
    && (forall c :: ChainTo(t, c, np) ==> i !in c)
    && (forall j :: j in t.dirs && t.dirs[j].parent == np ==> t.dirs[j].name != nn)
  }

  lemma {:induction false} SuffixFrame(t: Tree, u: Tree, c: seq<int>)
    requires forall k :: 0 <= k < |c| ==> c[k] in t.dirs && c[k] in u.dirs && t.dirs[c[k]] == u.dirs[c[k]]
    ensures Suffix(t, c) == Suffix(u, c)
  {
    if c != [] {
      SuffixFrame(t, u, c[..|c|-1]);
    }
  }

  lemma {:induction false} ChainFrame(t: Tree, i: int, np: int, nn: string, c: seq<int>)
    requires IsChain(t, c) && i !in c
    ensures IsChain(Rename(t, i, np, nn), c)
    ensures Text(Rename(t, i, np, nn), c) == Text(t, c)
  {
    SuffixFrame(t, Rename(t, i, np, nn), c[1..]);
  }

  /** No directory occurs twice on a chain. */
  lemma {:induction false} NoRepeat(t: Tree, c: seq<int>, k: nat, i: int)
    requires t.roots.Keys !! t.dirs.Keys && IsChain(t, c) && k < |c| && c[k] == i
    ensures i !in c[k+1..]
  {
    if i in c[k+1..] {
      var m :| k + 1 <= m < |c| && c[m] == i;
      ChainUnique(t, c[..k+1], c[..m+1]);
    }
  }

  /** The chain of a directory in the renamed tree. */
  ghost function Moved(ic: seq<int>, nc: seq<int>, c: seq<int>): seq<int>
    requires |ic| > 0
  {
    if ic <= c then nc + [ic[|ic|-1]] + c[|ic|..] else c
  }

  /** Renaming moves the chain of every directory at or below the renamed one, keeps
      every other chain, and changes each text exactly as RewritePath() does. */
  lemma {:induction false} RenameMovesText(t: Tree, i: int, np: int, nn: string, ic: seq<int>, nc: seq<int>,
                                           c: seq<int>)
    requires WellFormed(t) && CanRename(t, i, np, nn)
    requires ChainTo(t, ic, i) && ChainTo(t, nc, np) && IsChain(t, c)
    ensures ChainTo(Rename(t, i, np, nn), Moved(ic, nc, c), c[|c|-1])
    ensures Text(Rename(t, i, np, nn), Moved(ic, nc, c)) ==
            RewritePath(Text(t, c), Text(t, ic), Join(Text(t, nc), nn))
  {
    TextualPrefixIsAncestry(t, ic, c);
    if ic <= c {
      assert c == ic + c[|ic|..];
      RenameInside(t, i, np, nn, ic, nc, c[|ic|..]);
    } else {
      if i in c {
        var k :| 0 <= k < |c| && c[k] == i;
        ChainUnique(t, c[..k+1], ic);
        assert false;
      }
      ChainFrame(t, i, np, nn, c);
    }
  }

  /** At and below the renamed directory. */
  lemma {:induction false} RenameInside(t: Tree, i: int, np: int, nn: string, ic: seq<int>, nc: seq<int>,
                                        rest: seq<int>)
    requires WellFormed(t) && CanRename(t, i, np, nn)
    requires ChainTo(t, ic, i) && ChainTo(t, nc, np) && IsChain(t, ic + rest)
    ensures IsChain(Rename(t, i, np, nn), nc + [i] + rest)
    ensures forall k :: 0 <= k < |rest| ==> rest[k] in t.dirs
    ensures Text(t, ic + rest) == Text(t, ic) + Suffix(t, rest)
    ensures Text(Rename(t, i, np, nn), nc + [i] + rest) == Join(Text(t, nc), nn) + Suffix(t, rest)
  {
    var u, top := Rename(t, i, np, nn), nc + [i];
    NoRepeat(t, ic + rest, |ic|-1, i);
    assert (ic + rest)[|ic|..] == rest;
    TextAppend(t, ic, rest);
    ChainFrame(t, i, np, nn, nc);
    MovedIsChain(t, i, np, nn, ic, nc, []);
    assert top + [] == top;
    TextLast(u, top);
    assert top[..|top|-1] == nc;
    MovedIsChain(t, i, np, nn, ic, nc, rest);
    TextAppend(u, top, rest);
    SuffixFrame(t, u, rest);
  }

  lemma {:induction false} MovedIsChain(t: Tree, i: int, np: int, nn: string, ic: seq<int>, nc: seq<int>,
                                        rest: seq<int>)
    requires i in t.dirs && ChainTo(t, ic, i) && IsChain(t, ic + rest) && i !in rest
    requires ChainTo(t, nc, np) && i !in nc
    ensures IsChain(Rename(t, i, np, nn), nc + [i] + rest)
  {
    var u, c, m := Rename(t, i, np, nn), ic + rest, nc + [i] + rest;
    forall k | 1 <= k < |m| ensures m[k] in u.dirs && u.dirs[m[k]].parent == m[k-1] {
      if k < |nc| {
        assert m[k] == nc[k] && m[k-1] == nc[k-1];
      } else if k > |nc| {
        var j := k - |nc| - 1;
        assert m[k] == rest[j] == c[|ic| + j];
        assert m[k-1] == c[|ic| + j - 1];
      }
    }
  }

  lemma {:induction false} RenameKeepsWellFormed(t: Tree, i: int, np: int, nn: string)
    requires WellFormed(t) && CanRename(t, i, np, nn)
    ensures WellFormed(Rename(t, i, np, nn))
  {
    var u := Rename(t, i, np, nn);
    assert Exists(t, i);
    var ic :| ChainTo(t, ic, i);
    var nc :| ChainTo(t, nc, np);
    forall j | Exists(u, j) ensures exists c :: ChainTo(u, c, j) {
      assert Exists(t, j);
      var c :| ChainTo(t, c, j);
      RenameMovesText(t, i, np, nn, ic, nc, c);
    }
  }

  // ----- the cache against the tree

  /** Every live slot holds the pathname its watched directory has in `t`. */
  ghost predicate CacheTrue(t: Tree, watch: map<int, int>, s: seq<Slot>) {
    forall k :: 0 <= k < |s| && Live(s[k]) ==> SlotTrue(t, watch, s[k])
  }

  ghost predicate SlotTrue(t: Tree, watch: map<int, int>, x: Slot) {
    x.wd in watch && exists c :: ChainTo(t, c, watch[x.wd]) && x.path == Text(t, c)
  }

  /** After an IN_MOVED_FROM/IN_MOVED_TO pair, whose descriptors are those of the
      old and the new parent, rewriteCachedPaths() makes every live slot true of the
      renamed tree. Slots are changed exactly when their directory is the renamed one
      or below it, so a sibling that shares only leading characters is untouched. */
  lemma {:induction false} RewriteFollowsRename(t: Tree, watch: map<int, int>, s: seq<Slot>,
                                                i: int, np: int, nn: string, from: nat, to: nat)
    requires WellFormed(t) && CanRename(t, i, np, nn) && CacheTrue(t, watch, s)
    requires from < |s| && Live(s[from]) && watch[s[from].wd] == t.dirs[i].parent
    requires to < |s| && Live(s[to]) && watch[s[to].wd] == np
    ensures var u := Rename(t, i, np, nn);
            && WellFormed(u)
            && CacheTrue(u, watch, Rewrite(s, Join(s[from].path, t.dirs[i].name), Join(s[to].path, nn)))
  {
    var u := Rename(t, i, np, nn);
    RenameKeepsWellFormed(t, i, np, nn);
    var top, target := Join(s[from].path, t.dirs[i].name), Join(s[to].path, nn);
    var r := Rewrite(s, top, target);
    assert SlotTrue(t, watch, s[from]) && SlotTrue(t, watch, s[to]);
    var pc :| ChainTo(t, pc, watch[s[from].wd]) && s[from].path == Text(t, pc);
    var nc :| ChainTo(t, nc, np) && s[to].path == Text(t, nc);
    var ic := pc + [i];
    assert IsChain(t, ic);
    TextLast(t, ic);
    assert ic[..|ic|-1] == pc;
    assert top == Text(t, ic);
    forall k | 0 <= k < |r| && Live(r[k]) ensures SlotTrue(u, watch, r[k]) {
      assert SlotTrue(t, watch, s[k]);
      var c :| ChainTo(t, c, watch[s[k].wd]) && s[k].path == Text(t, c);
      RenameMovesText(t, i, np, nn, ic, nc, c);
    }
  }

  /** Which slots change: exactly those of the renamed directory and its descendants. */
  lemma {:induction false} RewriteTouchesSubtreeOnly(t: Tree, i: int, np: int, nn: string, ic: seq<int>,
                                                     nc: seq<int>, c: seq<int>)
    requires WellFormed(t) && CanRename(t, i, np, nn)
    requires ChainTo(t, ic, i) && ChainTo(t, nc, np) && IsChain(t, c)
    ensures RewritePath(Text(t, c), Text(t, ic), Join(Text(t, nc), nn)) != Text(t, c) <==> i in c
  {
    TextualPrefixIsAncestry(t, ic, c);
    if i in c {
      var k :| 0 <= k < |c| && c[k] == i;
      ChainUnique(t, c[..k+1], ic);
      assert ic <= c;
      var rest := c[|ic|..];
      assert c == ic + rest;
      TextAppend(t, ic, rest);
      var target := Join(Text(t, nc), nn);
      TextLast(t, ic);
      var pc := ic[..|ic|-1];
      if target + Suffix(t, rest) == Text(t, ic) + Suffix(t, rest) {
        assert target == (target + Suffix(t, rest))[..|target|];
        assert Text(t, ic) == (Text(t, ic) + Suffix(t, rest))[..|Text(t, ic)|];
        JoinInjective(Text(t, nc), nn, Text(t, pc), t.dirs[i].name);
        AboveIsPrefix(t, nc, pc);
        AboveIsPrefix(t, pc, nc);
        assert false;
      }
    }
  }

  // ----- moving a directory out of the trees

  /** Directory `j` is `i` or lies below it. */
  ghost predicate Inside(t: Tree, i: int, j: int) { exists c :: ChainTo(t, c, j) && i in c }

  /** The tree without `i` and everything below it. */
  ghost function Prune(t: Tree, i: int): Tree {
    Tree(t.roots, map j | j in t.dirs && !Inside(t, i, j) :: t.dirs[j])
  }

  lemma {:induction false} PruneKeepsChain(t: Tree, i: int, c: seq<int>)
    requires WellFormed(t) && IsChain(t, c) && i !in c
    ensures IsChain(Prune(t, i), c) && Text(Prune(t, i), c) == Text(t, c)
  {
    var u := Prune(t, i);
    forall k | 1 <= k < |c| ensures c[k] in u.dirs && u.dirs[c[k]].parent == c[k-1] {
      forall d | ChainTo(t, d, c[k]) ensures i !in d {
        ChainUnique(t, c[..k+1], d);
      }
    }
    SuffixFrame(t, u, c[1..]);
  }

  lemma {:induction false} PruneKeepsWellFormed(t: Tree, i: int)
    requires WellFormed(t) && i in t.dirs
    ensures WellFormed(Prune(t, i))
  {
    var u := Prune(t, i);
    forall j | Exists(u, j) ensures exists c :: ChainTo(u, c, j) {
      assert Exists(t, j);
      var c :| ChainTo(t, c, j);
      if j in t.roots {
        ChainUnique(t, c, [j]);
      }
      assert i !in c;
      PruneKeepsChain(t, i, c);
      assert ChainTo(u, c, j);
    }
  }

  /** A path is at or below the moved directory's exactly when its directory is. */
  lemma {:induction false} BelowIffInside(t: Tree, i: int, ic: seq<int>, c: seq<int>)
    requires WellFormed(t) && ChainTo(t, ic, i) && IsChain(t, c)
    ensures AtOrBelow(Text(t, ic), Text(t, c)) <==> i in c
    ensures i in c <==> Inside(t, i, c[|c|-1])
  {
    TextualPrefixIsAncestry(t, ic, c);
    assert ic <= c ==> c[|ic|-1] == i;
    if i in c {
      var k :| 0 <= k < |c| && c[k] == i;
      ChainUnique(t, c[..k+1], ic);
      assert ChainTo(t, c, c[|c|-1]);
    }
    if Inside(t, i, c[|c|-1]) {
      var d :| ChainTo(t, d, c[|c|-1]) && i in d;
      ChainUnique(t, d, c);
    }
  }

  /** When a directory has been moved out of the trees, zapping its path clears exactly
      the slots of the moved subtree, and every slot that is left holds the true
      pathname of a directory of the tree that is left. */
  lemma {:induction false} ZapFollowsMoveOut(t: Tree, watch: map<int, int>, s: seq<Slot>, i: int, from: nat)
    requires WellFormed(t) && i in t.dirs && CacheTrue(t, watch, s)
    requires from < |s| && Live(s[from]) && watch[s[from].wd] == t.dirs[i].parent
    ensures var top := Join(s[from].path, t.dirs[i].name);
            && WellFormed(Prune(t, i))
            && CacheTrue(Prune(t, i), watch, Zapped(s, top, |s|))
            && forall k :: 0 <= k < |s| && Live(s[k]) ==> (Doomed(s[k], top) <==> Inside(t, i, watch[s[k].wd]))
  {
    var top := Join(s[from].path, t.dirs[i].name);
    PruneKeepsWellFormed(t, i);
    assert SlotTrue(t, watch, s[from]);
    var pc :| ChainTo(t, pc, watch[s[from].wd]) && s[from].path == Text(t, pc);
    var ic := pc + [i];
    assert IsChain(t, ic);
    TextLast(t, ic);
    assert ic[..|ic|-1] == pc;
    forall k | 0 <= k < |s| && Live(s[k])
      ensures Doomed(s[k], top) <==> Inside(t, i, watch[s[k].wd])
      ensures !Doomed(s[k], top) ==> SlotTrue(Prune(t, i), watch, s[k])
    {
      ZapOneSlot(t, watch, s[k], i, ic);
    }
  }

  lemma {:induction false} ZapOneSlot(t: Tree, watch: map<int, int>, x: Slot, i: int, ic: seq<int>)
    requires WellFormed(t) && ChainTo(t, ic, i) && Live(x) && SlotTrue(t, watch, x)
    ensures Doomed(x, Text(t, ic)) <==> Inside(t, i, watch[x.wd])
    ensures !Doomed(x, Text(t, ic)) ==> SlotTrue(Prune(t, i), watch, x)
  {
    var c :| ChainTo(t, c, watch[x.wd]) && x.path == Text(t, c);
    BelowIffInside(t, i, ic, c);
    if i !in c {
      PruneKeepsChain(t, i, c);
    }
  }

  // ----- directories that appear

  /** The tree with the directories `more` added. */
  ghost function Graft(t: Tree, more: map<int, Dir>): Tree { t.(dirs := t.dirs + more) }

  /** A directory `i` is created or moves in, with everything in `more` below it: the
      inodes are new, its parent is in the tree, and what results is a tree again. */
  ghost predicate CanGraft(t: Tree, i: int, more: map<int, Dir>) {
    && i in more && Exists(t, more[i].parent)
    && more.Keys !! t.dirs.Keys && more.Keys !! t.roots.Keys
    && (forall j :: j in more && j != i ==> more[j].parent in more)
    && WellFormed(Graft(t, more))
  }

  lemma {:induction false} GraftKeepsChain(t: Tree, i: int, more: map<int, Dir>, c: seq<int>)
    requires CanGraft(t, i, more) && IsChain(t, c)
    ensures IsChain(Graft(t, more), c) && Text(Graft(t, more), c) == Text(t, c)
    ensures i !in c
  {
    SuffixFrame(t, Graft(t, more), c[1..]);
  }

  /** The pathname of the new directory, from its parent's. */
  lemma {:induction false} GraftedPath(t: Tree, i: int, more: map<int, Dir>, pc: seq<int>)
    requires CanGraft(t, i, more) && ChainTo(t, pc, more[i].parent)
    ensures ChainTo(Graft(t, more), pc + [i], i)
    ensures Text(Graft(t, more), pc + [i]) == Join(Text(t, pc), more[i].name)
  {
    var u := Graft(t, more);
    GraftKeepsChain(t, i, more, pc);
    assert IsChain(u, pc + [i]);
    TextLast(u, pc + [i]);
    assert (pc + [i])[..|pc|] == pc;
  }

  /** Before it appears no slot holds its pathname. */
  lemma {:induction false} GraftedPathFree(t: Tree, watch: map<int, int>, i: int, more: map<int, Dir>, pc: seq<int>,
                                           x: Slot)
    requires CanGraft(t, i, more) && ChainTo(t, pc, more[i].parent) && SlotTrue(t, watch, x)
    ensures x.path != Join(Text(t, pc), more[i].name)
  {
    var u := Graft(t, more);
    GraftedPath(t, i, more, pc);
    var c :| ChainTo(t, c, watch[x.wd]) && x.path == Text(t, c);
    GraftKeepsChain(t, i, more, c);
    if Text(u, c) == Text(u, pc + [i]) {
      AboveIsPrefix(u, pc + [i], c);
    }
  }

  lemma {:induction false} GraftKeepsSlot(t: Tree, watch: map<int, int>, i: int, more: map<int, Dir>, x: Slot)
    requires CanGraft(t, i, more) && SlotTrue(t, watch, x)
    ensures SlotTrue(Graft(t, more), watch, x)
  {
    var c :| ChainTo(t, c, watch[x.wd]) && x.path == Text(t, c);
    GraftKeepsChain(t, i, more, c);
    assert ChainTo(Graft(t, more), c, watch[x.wd]);
  }

  // ----- directories that are removed

  /** Only the directory itself lies at or below a directory without entries. */
  lemma {:induction false} LeafInside(t: Tree, i: int, c: seq<int>)
    requires i in t.dirs && IsChain(t, c) && i in c
    requires forall j :: j in t.dirs ==> t.dirs[j].parent != i
    ensures c[|c|-1] == i
  {
    forall k | 0 <= k < |c| - 1 ensures c[k] != i {
      assert c[k+1] in t.dirs && t.dirs[c[k+1]].parent == c[k];
    }
  }

  /** A directory that is not a root does not have a root's pathname. */
  lemma {:induction false} RootTextsApart(t: Tree, c: seq<int>, r: int)
    requires WellFormed(t) && IsChain(t, c) && |c| > 1 && r in t.roots
    ensures Text(t, c) != t.roots[r]
  {
    assert Text(t, [r]) == t.roots[r];
    if Text(t, c) == t.roots[r] {
      AboveIsPrefix(t, c, [r]);
    }
  }
}
