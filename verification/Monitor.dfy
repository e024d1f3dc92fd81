/** Event handling of inotify_dtree.c: the dispatch on one event or one rename pair, as a
    function of the state, and the program's own methods that compute it in place. */
module Monitor {
  import opened Counting
  import opened WatchCache
  import D = DirTree
  import S = DtreeSync

  /** An inotify event carries one of these bits, and possibly IN_ISDIR. */
  datatype Kind = Create | MovedFrom | MovedTo | DeleteSelf | MoveSelf | Ignored | QOverflow | Unmount
  datatype Event = Event(wd: int, kind: Kind, isDir: bool, cookie: nat, name: string)

  /** A command-line root, or the NULL left by zapRootDirPath(). */
  datatype Root = Gone | Root(path: string)

  datatype State = State(slots: seq<Slot>, roots: seq<Root>)

  /** What the kernel answers during one call: the directories nftw() reports below a
      path, for the current and for a new inotify instance, and the descriptors
      that inotify_rm_watch() accepts. */
  datatype Env = Env(walk: string -> seq<Report>, rewalk: string -> seq<Report>, watched: set<int>)

  datatype Verdict = Consumed(n: nat) | Discard | Retry | Quit

  /** Only the overflow event has no watch descriptor. */
  predicate KernelForm(ev: Event) { ev.wd >= -1 && (ev.wd == -1 <==> ev.kind == QOverflow) }

  predicate MovedFromDir(ev: Event) { ev.kind == MovedFrom && ev.isDir }

  predicate IsPair(a: Event, b: Event) { MovedFromDir(a) && b.kind == MovedTo && b.cookie == a.cookie }

  // ----- state transformers

  /** The cache of a new instance after the first `n` roots are walked. */
  function Rebuilt(roots: seq<Root>, env: Env, n: nat): seq<Slot>
    requires n <= |roots|
  {
    if n == 0 then []
    else if roots[n-1].Gone? then Rebuilt(roots, env, n-1)
    else Walk(Rebuilt(roots, env, n-1), env.rewalk(roots[n-1].path))
  }

  function Reinit(roots: seq<Root>, env: Env): State { State(Rebuilt(roots, env, |roots|), roots) }

  /** Index of the root with this path, or -1. */
  function FindRoot(roots: seq<Root>, path: string): (r: int)
    ensures -1 <= r < |roots|
    ensures r >= 0 ==> roots[r] == Root(path) && forall j :: 0 <= j < r ==> roots[j] != Root(path)
    ensures r == -1 ==> Root(path) !in roots
  {
    if roots == [] then -1
    else if roots[0] == Root(path) then 0
    else
      var r := FindRoot(roots[1..], path);
      assert forall j :: 1 <= j < |roots| ==> roots[j] == roots[1..][j-1];
      if r == -1 then -1 else r + 1
  }

  function ZapRoot(roots: seq<Root>, path: string): seq<Root> {
    var r := FindRoot(roots, path);
    if r == -1 then roots else roots[r := Gone]
  }

  predicate AllGone(roots: seq<Root>) { forall j :: 0 <= j < |roots| ==> roots[j] == Gone }

  lemma {:induction false} AllGoneMeans(roots: seq<Root>)
    ensures AllGone(roots) <==> forall q: string :: Root(q) !in roots
  {
    if !AllGone(roots) {
      var j :| 0 <= j < |roots| && roots[j] != Gone;
      assert Root(roots[j].path) in roots;
    }
  }

  /** Zap the subtree, or rebuild when a watch cannot be removed. */
  function ZapOrRebuild(s: seq<Slot>, roots: seq<Root>, path: string, env: Env): (State, Verdict) {
    if FirstFailure(s, path, env.watched) == |s| then (State(Zapped(s, path, |s|), roots), Consumed(1))
    else (Reinit(roots, env), Discard)
  }

  /** processNextInotifyEvent() */
  function Process(st: State, buf: seq<Event>, firstTry: bool, env: Env): (State, Verdict)
    requires buf != []
  {
    var ev := buf[0];
    var s, roots := st.slots, st.roots;
    var k := FindWatch(s, ev.wd);
    if ev.kind == QOverflow then (Reinit(roots, env), Discard)
    else if ev.kind == Ignored then (st, Consumed(1))
    else if k == -1 then (Reinit(roots, env), Discard)
    else if ev.isDir && (ev.kind == Create || ev.kind == MovedTo) then
      var full := Join(s[k].path, ev.name);
      (State(if PathInCache(s, full) then s else Walk(s, env.walk(full)), roots), Consumed(1))
    else if ev.kind == DeleteSelf then
      var left := ZapRoot(roots, s[k].path);
      if left != roots && AllGone(left) then (State(s, left), Quit)
      else (State(s[k := EMPTY], left), Consumed(1))
    else if MovedFromDir(ev) then
      if |buf| > 1 && IsPair(ev, buf[1]) then
        var to := FindWatch(s, buf[1].wd);
        if to == -1 then (Reinit(roots, env), Discard)
        else (State(Rewrite(s, Join(s[k].path, ev.name), Join(s[to].path, buf[1].name)), roots), Consumed(2))
      else if |buf| > 1 || !firstTry then
        ZapOrRebuild(s, roots, Join(s[k].path, ev.name), env)
      else (st, Retry)
    else if ev.kind == Unmount then (State(s[k := EMPTY], roots), Consumed(1))
    else if ev.kind == MoveSelf && FindRoot(roots, s[k].path) != -1 then
      var left := ZapRoot(roots, s[k].path);
      if AllGone(left) then (State(s, left), Quit)
      else ZapOrRebuild(s, left, s[k].path, env)
    else (st, Consumed(1))
  }

  // ----- walks and rebuilds

  /** Entry `k` is the first of the walk with descriptor `w`. */
  ghost predicate FirstReport(visits: seq<Report>, k: nat, w: int) {
    k < |visits| && visits[k].wd == w && forall j :: 0 <= j < k ==> visits[j].wd != w
  }

  ghost predicate Reported(visits: seq<Report>, w: int) { exists k: nat :: k < |visits| && visits[k].wd == w }

  /** `n` is `m` with the directories of a walk added: nothing in `m` changes, and a new
      descriptor gets the path of its first report. */
  ghost predicate WithWalk(m: map<int, string>, visits: seq<Report>, n: map<int, string>) {
    && (forall w :: w in n <==> w in m || Reported(visits, w))
    && (forall w :: w in m ==> n[w] == m[w])
    && (forall w, k: nat :: w !in m && FirstReport(visits, k, w) ==> n[w] == visits[k].path)
  }

  lemma {:induction false} WalkAdds(m: map<int, string>, visits: seq<Report>)
    ensures WithWalk(m, visits, TableWalk(m, visits))
  {
    if visits != [] {
      var init, v := visits[..|visits|-1], visits[|visits|-1];
      WalkAdds(m, init);
      forall w ensures Reported(visits, w) <==> Reported(init, w) || v.wd == w {
        if Reported(init, w) {
          var k: nat :| k < |init| && init[k].wd == w;
          assert visits[k].wd == w;
        }
      }
      forall w, k: nat | w !in m && FirstReport(visits, k, w)
        ensures w in TableWalk(m, visits) && TableWalk(m, visits)[w] == visits[k].path
      {
        if k < |init| {
          assert FirstReport(init, k, w);
        } else {
          assert !Reported(init, w);
        }
      }
    }
  }

  lemma {:induction false} WalkTable(s: seq<Slot>, visits: seq<Report>)
    requires Valid(s)
    ensures Valid(Walk(s, visits)) && WithWalk(Table(s), visits, Table(Walk(s, visits)))
  {
    WalkRefines(s, visits);
    WalkAdds(Table(s), visits);
  }

  /** Walking root `j` reports `w` first at entry `k`, and no root before it reports `w`. */
  ghost predicate FirstOfAll(roots: seq<Root>, env: Env, j: nat, k: nat, w: int) {
    && j < |roots| && roots[j].Root? && FirstReport(env.rewalk(roots[j].path), k, w)
    && forall i :: 0 <= i < j && roots[i].Root? ==> !Reported(env.rewalk(roots[i].path), w)
  }

  ghost predicate SomeRootReports(roots: seq<Root>, env: Env, w: int) {
    exists q :: Root(q) in roots && Reported(env.rewalk(q), w)
  }

  /** The map of a new instance: exactly the descriptors that the walks of the roots that
      are left report, each with the path of its first report. */
  ghost predicate FreshTable(roots: seq<Root>, env: Env, m: map<int, string>) {
    && (forall w :: w in m <==> SomeRootReports(roots, env, w))
    && (forall w, j: nat, k: nat :: FirstOfAll(roots, env, j, k, w) ==>
          w in m && m[w] == env.rewalk(roots[j].path)[k].path)
  }

  /** reinitialize() walks every root that is left, whatever the roots and the answers. */
  lemma {:induction false} RebuiltExact(roots: seq<Root>, env: Env)
    ensures Valid(Rebuilt(roots, env, |roots|)) && FreshTable(roots, env, Table(Rebuilt(roots, env, |roots|)))
  {
    RebuiltPrefix(roots, env, |roots|);
    assert roots[..|roots|] == roots;
  }

  lemma {:induction false} RebuiltPrefix(roots: seq<Root>, env: Env, n: nat)
    requires n <= |roots|
    ensures Valid(Rebuilt(roots, env, n)) && FreshTable(roots[..n], env, Table(Rebuilt(roots, env, n)))
  {
    if n > 0 {
      RebuiltPrefix(roots, env, n-1);
      var before, now := Rebuilt(roots, env, n-1), Rebuilt(roots, env, n);
      if roots[n-1].Root? {
        WalkTable(before, env.rewalk(roots[n-1].path));
      }
      RootAdded(roots, env, n, Table(before), Table(now));
    }
  }

  lemma {:induction false} RootAdded(roots: seq<Root>, env: Env, n: nat, m: map<int, string>, m': map<int, string>)
    requires 0 < n <= |roots| && FreshTable(roots[..n-1], env, m)
    requires if roots[n-1].Root? then WithWalk(m, env.rewalk(roots[n-1].path), m') else m' == m
    ensures FreshTable(roots[..n], env, m')
  {
    var init, all := roots[..n-1], roots[..n];
    assert all == init + [roots[n-1]];
    forall w ensures SomeRootReports(all, env, w) <==>
      SomeRootReports(init, env, w) || (roots[n-1].Root? && Reported(env.rewalk(roots[n-1].path), w))
    {
      assert forall q :: Root(q) in all <==> Root(q) in init || roots[n-1] == Root(q);
    }
    forall w, j: nat, k: nat | FirstOfAll(all, env, j, k, w)
      ensures w in m' && m'[w] == env.rewalk(all[j].path)[k].path
    {
      if j < n - 1 {
        assert FirstOfAll(init, env, j, k, w);
      } else {
        LastRootFirst(init, env, w);
      }
    }
  }

  lemma {:induction false} LastRootFirst(init: seq<Root>, env: Env, w: int)
    requires forall i :: 0 <= i < |init| && init[i].Root? ==> !Reported(env.rewalk(init[i].path), w)
    ensures !SomeRootReports(init, env, w)
  {
  }

  // ----- what every event keeps

  lemma {:induction false} ZapOrRebuildValid(s: seq<Slot>, roots: seq<Root>, path: string, env: Env)
    requires Valid(s)
    ensures Valid(ZapOrRebuild(s, roots, path, env).0.slots)
  {
    RebuiltExact(roots, env);
    TableRepresents(s);
    ZapRepresents(s, Table(s), path);
  }

  /** Whatever the event, the buffer and the kernel's answers: live descriptors stay
      distinct and free slots stay blank. */
  lemma {:induction false} ProcessKeepsValid(st: State, buf: seq<Event>, firstTry: bool, env: Env)
    requires buf != [] && KernelForm(buf[0]) && Valid(st.slots)
    ensures Valid(Process(st, buf, firstTry, env).0.slots)
  {
    var ev, s := buf[0], st.slots;
    var k := FindWatch(s, ev.wd);
    RebuiltExact(st.roots, env);
    if k >= 0 && ev.kind != QOverflow {
      if MovedFromDir(ev) {
        RenameKeepsValid(st, buf, firstTry, env);
      } else if ev.isDir && (ev.kind == Create || ev.kind == MovedTo) {
        WalkRefines(s, env.walk(Join(s[k].path, ev.name)));
      } else if ev.kind == DeleteSelf || ev.kind == Unmount {
        TableRepresents(s);
        ClearRepresents(s, Table(s), ev.wd);
      } else if ev.kind == MoveSelf {
        ZapOrRebuildValid(s, ZapRoot(st.roots, s[k].path), s[k].path, env);
      }
    }
  }

  lemma {:induction false} RenameKeepsValid(st: State, buf: seq<Event>, firstTry: bool, env: Env)
    requires buf != [] && KernelForm(buf[0]) && Valid(st.slots)
    requires MovedFromDir(buf[0]) && FindWatch(st.slots, buf[0].wd) >= 0
    ensures Valid(Process(st, buf, firstTry, env).0.slots)
  {
    var ev, s := buf[0], st.slots;
    var k := FindWatch(s, ev.wd);
    if |buf| > 1 && IsPair(ev, buf[1]) {
      var to := FindWatch(s, buf[1].wd);
      RebuiltExact(st.roots, env);
      if to >= 0 {
        RewriteKeepsValid(s, s[k].path, ev.name, Join(s[to].path, buf[1].name));
      }
    } else {
      ZapOrRebuildValid(s, st.roots, Join(s[k].path, ev.name), env);
    }
  }

  lemma {:induction false} RewriteKeepsValid(s: seq<Slot>, p: string, n: string, target: string)
    requires Valid(s)
    ensures Valid(Rewrite(s, Join(p, n), target))
  {
  }

  /** A rename pair whose parents are cached is applied as one rename, and keeps the
      cache true of the tree when the tree was renamed that way. */
  lemma {:induction false} RenamePairFollowsTree(st: State, buf: seq<Event>, firstTry: bool, env: Env,
                                                 t: D.Tree, watch: map<int, int>, i: int, np: int)
    requires |buf| > 1 && KernelForm(buf[0]) && buf[0].kind == MovedFrom && buf[0].isDir
    requires buf[1].kind == MovedTo && buf[1].cookie == buf[0].cookie
    requires Valid(st.slots) && D.WellFormed(t) && D.CacheTrue(t, watch, st.slots)
    requires D.CanRename(t, i, np, buf[1].name) && t.dirs[i].name == buf[0].name
    requires buf[0].wd in watch && watch[buf[0].wd] == t.dirs[i].parent && HasWd(st.slots, buf[0].wd)
    requires buf[1].wd in watch && watch[buf[1].wd] == np && HasWd(st.slots, buf[1].wd) && buf[1].wd >= 0
    ensures var (after, verdict) := Process(st, buf, firstTry, env);
            && verdict == Consumed(2)
            && D.CacheTrue(D.Rename(t, i, np, buf[1].name), watch, after.slots)
  {
    var from, to := FindWatch(st.slots, buf[0].wd), FindWatch(st.slots, buf[1].wd);
    D.RewriteFollowsRename(t, watch, st.slots, i, np, buf[1].name, from, to);
  }

  /** A first half that no second half with its cookie follows clears exactly the moved
      subtree and keeps the cache true of the tree that is left, if its watches can be
      removed. What follows may be a directory that moves in from elsewhere. */
  lemma {:induction false} MoveOutFollowsTree(st: State, buf: seq<Event>, firstTry: bool, env: Env,
                                              t: D.Tree, watch: map<int, int>, i: int)
    requires buf != [] && KernelForm(buf[0]) && buf[0].kind == MovedFrom && buf[0].isDir
    requires if |buf| > 1 then buf[1].kind != MovedTo || buf[1].cookie != buf[0].cookie else !firstTry
    requires Valid(st.slots) && D.WellFormed(t) && D.CacheTrue(t, watch, st.slots)
    requires i in t.dirs && t.dirs[i].name == buf[0].name
    requires buf[0].wd in watch && watch[buf[0].wd] == t.dirs[i].parent && HasWd(st.slots, buf[0].wd)
    requires forall k :: 0 <= k < |st.slots| && Live(st.slots[k]) ==> st.slots[k].wd in env.watched
    ensures var (after, verdict) := Process(st, buf, firstTry, env);
            && verdict == Consumed(1)
            && D.CacheTrue(D.Prune(t, i), watch, after.slots)
            && forall k :: 0 <= k < |st.slots| && Live(st.slots[k]) ==>
                 (Live(after.slots[k]) <==> !D.Inside(t, i, watch[st.slots[k].wd]))
  {
    D.ZapFollowsMoveOut(t, watch, st.slots, i, FindWatch(st.slots, buf[0].wd));
  }

  /** The creation step of the concurrent model is this dispatch: it looks up the same
      slot, rebuilds in the same case and starts a walk of the same directory. */
  lemma {:induction false} CreateAgreesWithSync(s: S.State, ev: Event, firstTry: bool, env: Env, roots: seq<Root>)
    requires KernelForm(ev) && ev.kind == Create && ev.isDir
    requires s.queue != [] && s.queue[0] == S.Created(ev.wd, ev.name) && !s.rebuilt
    ensures var (after, verdict) := Process(State(s.slots, roots), [ev], firstTry, env);
            var next := S.Handle(s);
            && (next.rebuilt <==> verdict == Discard)
            && (!next.rebuilt ==>
                  || next.toVisit == {}
                  || exists p :: next.toVisit == {p} && after.slots == Walk(s.slots, env.walk(p)))
            && (!next.rebuilt && next.toVisit == {} ==> after.slots == s.slots)
  {
  }

  /** The first `j` slots have been scanned and no removal failed. */
  ghost predicate Passed(s: seq<Slot>, path: string, watched: set<int>, j: nat) {
    j <= |s| && j <= FirstFailure(s, path, watched)
  }

  /** The scan of zapSubtree() at slot `j`. */
  lemma {:induction false} ZapNext(s: seq<Slot>, path: string, watched: set<int>, j: nat)
    requires j < |s| && Passed(s, path, watched, j)
    ensures CountDoomed(s[..j+1], path) == CountDoomed(s[..j], path) + if Doomed(s[j], path) then 1 else 0
    ensures Zapped(s, path, j+1) == if Doomed(s[j], path) then Zapped(s, path, j)[j := EMPTY] else Zapped(s, path, j)
    ensures if Doomed(s[j], path) && s[j].wd !in watched then FirstFailure(s, path, watched) == j
            else Passed(s, path, watched, j+1)
  {
    assert s[..j+1][..j] == s[..j];
  }

  /** How many events a call consumes, from the buffer alone. */
  predicate Shaped(buf: seq<Event>, firstTry: bool, v: Verdict)
    requires buf != []
  {
    match v
    case Consumed(n) =>
      if MovedFromDir(buf[0]) && |buf| > 1 && buf[1].kind == MovedTo && buf[1].cookie == buf[0].cookie then n == 2
      else n == 1 && (MovedFromDir(buf[0]) ==> |buf| > 1 || !firstTry)
    case Retry => MovedFromDir(buf[0]) && |buf| == 1 && firstTry
    case Quit => !MovedFromDir(buf[0])
    case Discard => true
  }

  lemma {:induction false} VerdictShape(st: State, buf: seq<Event>, firstTry: bool, env: Env)
    requires buf != []
    ensures Shaped(buf, firstTry, Process(st, buf, firstTry, env).1)
  {
  }

  /** The path argument of zapSubtree(): a string of its own, or one that lives in the
      cache and is overwritten while the scan runs. */
  datatype PathArg = Text(s: string) | InSlot(k: nat)

  predicate Fits(arg: PathArg, s: seq<Slot>) { arg.InSlot? ==> arg.k < |s| }

  function Deref(arg: PathArg, s: seq<Slot>): string
    requires Fits(arg, s)
  {
    match arg case Text(p) => p case InSlot(k) => s[k].path
  }

  class Watcher {
    var wlCache: array<Slot>
    var rootDirPaths: seq<Root>
    var ignoreRootDirs: nat

    /** The counter is the number of roots that are no longer monitored. */
    ghost predicate Counted()
      reads this
    {
      ignoreRootDirs == Count(rootDirPaths, Gone)
    }

    ghost function Now(): State
      reads this, wlCache
    {
      State(wlCache[..], rootDirPaths)
    }

    /** All roots of the command line are monitored at first. */
    constructor (roots: seq<Root>)
      requires Gone !in roots
      ensures Now() == State([], roots) && fresh(wlCache) && Counted()
    {
      wlCache := new Slot[0];
      rootDirPaths, ignoreRootDirs := roots, 0;
      new;
      CountZero(roots, Gone);
    }

    method FindSlot(wd: int) returns (slot: int)
      ensures slot == FindWatch(wlCache[..], wd)
    {
      slot := 0;
      while slot < wlCache.Length
        invariant 0 <= slot <= wlCache.Length
        invariant forall j :: 0 <= j < slot ==> wlCache[j].wd != wd
      {
        if wlCache[slot].wd == wd { return; }
        slot := slot + 1;
      }
      slot := -1;
    }

    method PathnameInCache(path: string) returns (found: bool)
      ensures found == PathInCache(wlCache[..], path)
    {
      var j := 0;
      while j < wlCache.Length
        invariant 0 <= j <= wlCache.Length
        invariant forall i :: 0 <= i < j ==> !(Live(wlCache[i]) && wlCache[i].path == path)
      {
        if wlCache[j].wd >= 0 && wlCache[j].path == path {
          assert Live(wlCache[..][j]);
          return true;
        }
        j := j + 1;
      }
      found := false;
    }

    method FindEmptyCacheSlot() returns (slot: nat)
      modifies this`wlCache
      ensures wlCache == old(wlCache) || fresh(wlCache)
      ensures wlCache[..] == Grown(old(wlCache[..]))
      ensures slot < wlCache.Length
      ensures slot == (var e := FindWatch(old(wlCache[..]), -1); if e >= 0 then e else |old(wlCache[..])|)
      ensures wlCache.Length == old(wlCache.Length) + if Full(old(wlCache[..])) then 200 else 0
      ensures wlCache[..old(wlCache.Length)] == old(wlCache[..])
      ensures wlCache[slot].wd == -1 && forall j :: 0 <= j < slot ==> wlCache[j].wd != -1
    {
      var e := FindSlot(-1);
      if e >= 0 { return e; }
      var size := wlCache.Length;
      var bigger := new Slot[size + ALLOC_INCR](_ => EMPTY);
      var j := 0;
      while j < size
        invariant 0 <= j <= size
        invariant wlCache == old(wlCache)
        invariant bigger[..j] == wlCache[..j]
        invariant forall i :: size <= i < bigger.Length ==> bigger[i] == EMPTY
      {
        bigger[j] := wlCache[j];
        j := j + 1;
      }
      assert bigger[..] == bigger[..size] + Blanks(ALLOC_INCR);
      wlCache := bigger;
      slot := size;
    }

    /** traverseTree() on a directory for which the kernel answered `wd`. */
    method TraverseTree(wd: nat, path: string)
      modifies this`wlCache, wlCache
      ensures wlCache == old(wlCache) || fresh(wlCache)
      ensures wlCache[..] == Traverse(old(wlCache[..]), wd, path)
    {
      var found := FindSlot(wd);
      if found >= 0 { return; }
      var slot := FindEmptyCacheSlot();
      wlCache[slot] := Slot(wd, path);
    }

    method WatchSubtree(visits: seq<Report>)
      modifies this`wlCache, wlCache
      ensures wlCache == old(wlCache) || fresh(wlCache)
      ensures wlCache[..] == Walk(old(wlCache[..]), visits)
    {
      var i := 0;
      while i < |visits|
        invariant 0 <= i <= |visits|
        invariant wlCache == old(wlCache) || fresh(wlCache)
        invariant wlCache[..] == Walk(old(wlCache[..]), visits[..i])
      {
        TraverseTree(visits[i].wd, visits[i].path);
        assert visits[..i+1][..i] == visits[..i];
        i := i + 1;
      }
      assert visits[..i] == visits;
    }

    method RewriteCachedPaths(oldPrefix: string, oldName: string, newPrefix: string, newName: string)
      modifies wlCache
      ensures wlCache[..] == Rewrite(old(wlCache[..]), Join(oldPrefix, oldName), Join(newPrefix, newName))
    {
      var fullPath, newPath := Join(oldPrefix, oldName), Join(newPrefix, newName);
      var j := 0;
      while j < wlCache.Length
        invariant 0 <= j <= wlCache.Length
        invariant forall i :: 0 <= i < j ==>
          wlCache[i] == Slot(old(wlCache[i].wd), RewritePath(old(wlCache[i].path), fullPath, newPath))
        invariant forall i :: j <= i < wlCache.Length ==> wlCache[i] == old(wlCache[i])
      {
        if AtOrBelow(fullPath, wlCache[j].path) {
          wlCache[j] := Slot(wlCache[j].wd, newPath + wlCache[j].path[|fullPath|..]);
        }
        j := j + 1;
      }
    }

    /** Removes exactly the entries at or below the path the argument had on entry and
        returns their number; stops with -1 at the first watch it cannot remove. */
    method ZapSubtree(arg: PathArg, watched: set<int>) returns (cnt: int)
      requires Fits(arg, wlCache[..])
      modifies wlCache
      ensures var was := old(wlCache[..]);
              var path := Deref(arg, was);
              && wlCache[..] == Zapped(was, path, FirstFailure(was, path, watched))
              && cnt == if FirstFailure(was, path, watched) == |was| then CountDoomed(was, path) else -1
    {
      var pn := if arg.InSlot? then wlCache[arg.k].path else arg.s;
      cnt := 0;
      var j := 0;
      ghost var was := wlCache[..];
      assert Zapped(was, pn, 0) == was;
      while j < wlCache.Length
        invariant 0 <= j <= wlCache.Length
        invariant Passed(was, pn, watched, j)
        invariant wlCache[..] == Zapped(was, pn, j)
        invariant cnt == CountDoomed(was[..j], pn)
      {
        assert wlCache[j] == wlCache[..][j] == was[j];
        ZapNext(was, pn, watched, j);
        if wlCache[j].wd >= 0 && AtOrBelow(pn, wlCache[j].path) {
          if wlCache[j].wd !in watched {
            return -1;
          }
          wlCache[j] := EMPTY;
          cnt := cnt + 1;
        }
        j := j + 1;
      }
      assert was[..j] == was;
    }

    method Reinitialize(env: Env)
      modifies this`wlCache
      ensures fresh(wlCache)
      ensures wlCache[..] == Rebuilt(rootDirPaths, env, |rootDirPaths|)
      ensures Valid(wlCache[..]) && FreshTable(rootDirPaths, env, Table(wlCache[..]))
    {
      wlCache := new Slot[0];
      var j := 0;
      while j < |rootDirPaths|
        invariant 0 <= j <= |rootDirPaths|
        invariant fresh(wlCache)
        invariant wlCache[..] == Rebuilt(rootDirPaths, env, j)
      {
        if rootDirPaths[j].Root? {
          WatchSubtree(env.rewalk(rootDirPaths[j].path));
        }
        j := j + 1;
      }
      RebuiltExact(rootDirPaths, env);
    }

    method FindRootDirPath(path: string) returns (p: int)
      ensures p == FindRoot(rootDirPaths, path)
    {
      p := 0;
      while p < |rootDirPaths|
        invariant 0 <= p <= |rootDirPaths|
        invariant Root(path) !in rootDirPaths[..p]
      {
        if rootDirPaths[p] != Gone && rootDirPaths[p].path == path { return; }
        p := p + 1;
      }
      p := -1;
    }

    /** The root's pointer becomes NULL and the others stay; comparing the counter with
        the number of roots says that none is left to monitor. */
    method ZapRootDirPath(path: string) returns (last: bool)
      requires Counted() && Root(path) in rootDirPaths
      modifies this`rootDirPaths, this`ignoreRootDirs
      ensures Counted() && ignoreRootDirs == old(ignoreRootDirs) + 1
      ensures rootDirPaths == ZapRoot(old(rootDirPaths), path)
      ensures last <==> forall q: string :: Root(q) !in rootDirPaths
    {
      var p := FindRootDirPath(path);
      CountUpdate(rootDirPaths, p, Gone, Gone);
      rootDirPaths := rootDirPaths[p := Gone];
      ignoreRootDirs := ignoreRootDirs + 1;
      last := ignoreRootDirs == |rootDirPaths|;
      CountAll(rootDirPaths, Gone);
      AllGoneMeans(rootDirPaths);
    }

    method ZapOrReinitialize(arg: PathArg, env: Env) returns (v: Verdict)
      requires Fits(arg, wlCache[..])
      modifies this`wlCache, wlCache
      ensures wlCache == old(wlCache) || fresh(wlCache)
      ensures (Now(), v) == ZapOrRebuild(old(wlCache[..]), rootDirPaths, Deref(arg, old(wlCache[..])), env)
    {
      var cnt := ZapSubtree(arg, env.watched);
      if cnt == -1 {
        Reinitialize(env);
        return Discard;
      }
      v := Consumed(1);
    }

    /** processNextInotifyEvent(), branch by branch. */
    method ProcessNext(buf: seq<Event>, firstTry: bool, env: Env) returns (v: Verdict)
      requires buf != [] && KernelForm(buf[0]) && Counted()
      modifies this, wlCache
      ensures wlCache == old(wlCache) || fresh(wlCache)
      ensures Counted()
      ensures (Now(), v) == Process(old(Now()), buf, firstTry, env)
    {
      var ev := buf[0];
      var slot := -1;
      v := Consumed(1);
      if ev.wd != -1 && ev.kind != Ignored {
        slot := FindSlot(ev.wd);
        if slot == -1 {
          Reinitialize(env);
          return Discard;
        }
      }
      if ev.isDir && (ev.kind == Create || ev.kind == MovedTo) {
        var fullPath := Join(wlCache[slot].path, ev.name);
        var cached := PathnameInCache(fullPath);
        if !cached {
          WatchSubtree(env.walk(fullPath));
        }
      } else if ev.kind == DeleteSelf {
        var root := FindRootDirPath(wlCache[slot].path);
        if root != -1 {
          var last := ZapRootDirPath(wlCache[slot].path);
          AllGoneMeans(rootDirPaths);
          if last { return Quit; }
        }
        wlCache[slot] := EMPTY;
      } else if MovedFromDir(ev) {
        if |buf| > 1 && buf[1].kind == MovedTo && buf[1].cookie == ev.cookie {
          var nextSlot := FindSlot(buf[1].wd);
          if nextSlot == -1 {
            Reinitialize(env);
            return Discard;
          }
          RewriteCachedPaths(wlCache[slot].path, ev.name, wlCache[nextSlot].path, buf[1].name);
          v := Consumed(2);
        } else if |buf| > 1 || !firstTry {
          v := ZapOrReinitialize(Text(Join(wlCache[slot].path, ev.name)), env);
        } else {
          v := Retry;
        }
      } else if ev.kind == QOverflow {
        Reinitialize(env);
        v := Discard;
      } else if ev.kind == Unmount {
        wlCache[slot] := EMPTY;
      } else if ev.kind == MoveSelf {
        var root := FindRootDirPath(wlCache[slot].path);
        if root != -1 {
          var last := ZapRootDirPath(wlCache[slot].path);
          AllGoneMeans(rootDirPaths);
          if last { return Quit; }
          v := ZapOrReinitialize(InSlot(slot), env);
        }
      }
    }
  }
}
