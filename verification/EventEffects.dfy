/** What one call of processNextInotifyEvent() does, told event by event: in terms of the
    fields of the event, of the map from descriptor to path that the slots stand for, and
    of the list of roots. Together the cases cover every buffer the kernel delivers. */
module EventEffects {
  import opened WatchCache
  import opened Monitor

  // ----- one event

  /** Slot lookup is lookup in the map. */
  lemma {:induction false} Cached(s: seq<Slot>, wd: int)
    requires Valid(s) && wd >= 0
    ensures wd in Table(s) <==> FindWatch(s, wd) >= 0
    ensures FindWatch(s, wd) >= 0 ==> Table(s)[wd] == s[FindWatch(s, wd)].path
  {
    TableRepresents(s);
  }

  /** The new state after a rebuild: these roots, and what walking them reports. */
  ghost predicate Restarted(roots: seq<Root>, env: Env, after: State) {
    after.roots == roots && Valid(after.slots) && FreshTable(roots, env, Table(after.slots))
  }

  /** The new state: these roots and this map. */
  ghost predicate Becomes(after: State, roots: seq<Root>, m: map<int, string>) {
    after.roots == roots && Valid(after.slots) && Table(after.slots) == m
  }

  /** A queue overflow, and an event on a descriptor that is not cached. */
  lemma {:induction false} OnLostTrack(st: State, buf: seq<Event>, firstTry: bool, env: Env)
    requires buf != [] && KernelForm(buf[0]) && Valid(st.slots)
    requires buf[0].kind == QOverflow || (buf[0].kind != Ignored && buf[0].wd !in Table(st.slots))
    ensures var (after, v) := Process(st, buf, firstTry, env);
            v == Discard && Restarted(st.roots, env, after)
  {
    RebuiltExact(st.roots, env);
    if buf[0].kind != QOverflow {
      Cached(st.slots, buf[0].wd);
    }
  }

  /** A directory is created or moves in: if its path is cached nothing happens, and
      otherwise the directories that the walk of that path reports are added. */
  lemma {:induction false} OnNewDirectory(st: State, buf: seq<Event>, firstTry: bool, env: Env)
    requires buf != [] && KernelForm(buf[0]) && Valid(st.slots) && buf[0].wd in Table(st.slots)
    requires (buf[0].kind == Create || buf[0].kind == MovedTo) && buf[0].isDir
    ensures var (after, v) := Process(st, buf, firstTry, env);
            var m := Table(st.slots);
            var path := m[buf[0].wd] + "/" + buf[0].name;
            && v == Consumed(1) && after.roots == st.roots && Valid(after.slots)
            && if path in m.Values then after == st else WithWalk(m, env.walk(path), Table(after.slots))
  {
    var s, m := st.slots, Table(st.slots);
    Cached(s, buf[0].wd);
    var path := m[buf[0].wd] + "/" + buf[0].name;
    assert path == Join(m[buf[0].wd], buf[0].name);
    PathCached(s, path);
    WalkTable(s, env.walk(path));
  }

  lemma {:induction false} PathCached(s: seq<Slot>, path: string)
    requires Valid(s)
    ensures PathInCache(s, path) <==> path in Table(s).Values
  {
    if PathInCache(s, path) {
      var i :| 0 <= i < |s| && Live(s[i]) && s[i].path == path;
      assert s[i].wd in Table(s) && Table(s)[s[i].wd] == path;
    }
    if path in Table(s).Values {
      var w :| w in Table(s) && Table(s)[w] == path;
      var i :| 0 <= i < |s| && Live(s[i]) && s[i].wd == w;
      assert s[i].path == path;
    }
  }

  lemma {:induction false} Forget(s: seq<Slot>, wd: int)
    requires Valid(s) && wd in Table(s)
    ensures FindWatch(s, wd) >= 0
    ensures var r := s[FindWatch(s, wd) := EMPTY];
            Valid(r) && Table(r) == Table(s) - {wd}
  {
    Cached(s, wd);
    TableRepresents(s);
    ClearRepresents(s, Table(s), wd);
    TableUnique(Clear(s, wd), Table(s) - {wd});
  }

  /** The file system of a watched directory was unmounted. */
  lemma {:induction false} OnUnmount(st: State, buf: seq<Event>, firstTry: bool, env: Env)
    requires buf != [] && KernelForm(buf[0]) && Valid(st.slots) && buf[0].wd in Table(st.slots)
    requires buf[0].kind == Unmount
    ensures var (after, v) := Process(st, buf, firstTry, env);
            v == Consumed(1) && Becomes(after, st.roots, Table(st.slots) - {buf[0].wd})
  {
    Forget(st.slots, buf[0].wd);
  }

  /** `left` is `roots` with the first root `p` replaced by NULL. */
  ghost predicate Dropped(roots: seq<Root>, p: string, left: seq<Root>) {
    exists i :: 0 <= i < |roots| && roots[i] == Root(p) && Root(p) !in roots[..i] && left == roots[i := Gone]
  }

  ghost predicate NoneLeft(roots: seq<Root>) { forall q: string :: Root(q) !in roots }

  lemma {:induction false} DropRoot(roots: seq<Root>, p: string)
    ensures if Root(p) in roots then FindRoot(roots, p) >= 0 && Dropped(roots, p, ZapRoot(roots, p))
            else FindRoot(roots, p) == -1 && ZapRoot(roots, p) == roots
    ensures AllGone(ZapRoot(roots, p)) <==> NoneLeft(ZapRoot(roots, p))
    ensures Root(p) in roots ==> ZapRoot(roots, p) != roots
  {
    AllGoneMeans(ZapRoot(roots, p));
    var r := FindRoot(roots, p);
    if r >= 0 {
      assert roots[r := Gone][r] == Gone;
    }
  }

  /** A watched directory was deleted. If it was a root, that root is not monitored any
      more, and the program ends when none is left. */
  lemma {:induction false} OnDelete(st: State, buf: seq<Event>, firstTry: bool, env: Env)
    requires buf != [] && KernelForm(buf[0]) && Valid(st.slots) && buf[0].wd in Table(st.slots)
    requires buf[0].kind == DeleteSelf
    ensures var (after, v) := Process(st, buf, firstTry, env);
            var m := Table(st.slots);
            var path := m[buf[0].wd];
            if Root(path) !in st.roots then v == Consumed(1) && Becomes(after, st.roots, m - {buf[0].wd})
            else
              && Dropped(st.roots, path, after.roots)
              && if NoneLeft(after.roots) then v == Quit
                 else v == Consumed(1) && Becomes(after, after.roots, m - {buf[0].wd})
  {
    Cached(st.slots, buf[0].wd);
    Forget(st.slots, buf[0].wd);
    DropRoot(st.roots, Table(st.slots)[buf[0].wd]);
  }

  lemma {:induction false} RewriteTable(s: seq<Slot>, p: string, n: string, q: string, k: string)
    requires Valid(s)
    ensures var m := Table(s);
            var r := Rewrite(s, Join(p, n), Join(q, k));
            var from, to := p + "/" + n, q + "/" + k;
            Valid(r) && Table(r) == map w | w in m :: if AtOrBelow(from, m[w]) then to + m[w][|from|..] else m[w]
  {
    var m := Table(s);
    TableRepresents(s);
    RewriteRepresents(s, m, p, n, Join(q, k));
    TableUnique(Rewrite(s, Join(p, n), Join(q, k)), map w | w in m :: RewritePath(m[w], Join(p, n), Join(q, k)));
  }

  /** Both halves of a rename inside the trees: each path at or below the old one gets the
      new prefix. If the new parent is not cached the cache is rebuilt. */
  lemma {:induction false} OnRename(st: State, buf: seq<Event>, firstTry: bool, env: Env)
    requires |buf| > 1 && KernelForm(buf[0]) && KernelForm(buf[1])
    requires Valid(st.slots) && buf[0].wd in Table(st.slots) && buf[0].kind == MovedFrom && buf[0].isDir
    requires buf[1].kind == MovedTo && buf[1].cookie == buf[0].cookie
    ensures var (after, v) := Process(st, buf, firstTry, env);
            var m := Table(st.slots);
            if buf[1].wd !in m then v == Discard && Restarted(st.roots, env, after)
            else
              var from, to := m[buf[0].wd] + "/" + buf[0].name, m[buf[1].wd] + "/" + buf[1].name;
              && v == Consumed(2)
              && Becomes(after, st.roots,
                         map w | w in m :: if AtOrBelow(from, m[w]) then to + m[w][|from|..] else m[w])
  {
    var s, m := st.slots, Table(st.slots);
    Cached(s, buf[0].wd);
    Cached(s, buf[1].wd);
    RebuiltExact(st.roots, env);
    if buf[1].wd in m {
      RewriteTable(s, m[buf[0].wd], buf[0].name, m[buf[1].wd], buf[1].name);
      assert Process(st, buf, firstTry, env) ==
        (State(Rewrite(s, Join(m[buf[0].wd], buf[0].name), Join(m[buf[1].wd], buf[1].name)), st.roots), Consumed(2));
    }
  }

  /** The subtree at `path` is forgotten, or, if a watch at or below it cannot be removed,
      everything is read anew. */
  ghost predicate Cleared(after: State, v: Verdict, roots: seq<Root>, m: map<int, string>, path: string, env: Env) {
    if Fails(m, path, env.watched) then v == Discard && Restarted(roots, env, after)
    else v == Consumed(1) && Becomes(after, roots, map w | w in m && !AtOrBelow(path, m[w]) :: m[w])
  }

  lemma {:induction false} ZapClears(s: seq<Slot>, roots: seq<Root>, path: string, env: Env)
    requires Valid(s)
    ensures var (after, v) := ZapOrRebuild(s, roots, path, env);
            Cleared(after, v, roots, Table(s), path, env)
  {
    TableRepresents(s);
    FailureSeen(s, Table(s), path, env.watched);
    if Fails(Table(s), path, env.watched) {
      RebuiltExact(roots, env);
    } else {
      ZappedTable(s, path);
    }
  }

  lemma {:induction false} ZappedTable(s: seq<Slot>, path: string)
    requires Valid(s)
    ensures var m := Table(s);
            && Valid(Zapped(s, path, |s|))
            && Table(Zapped(s, path, |s|)) == map w | w in m && !AtOrBelow(path, m[w]) :: m[w]
  {
    var m := Table(s);
    TableRepresents(s);
    ZapRepresents(s, m, path);
    TableUnique(Zapped(s, path, |s|), map w | w in m && !AtOrBelow(path, m[w]) :: m[w]);
  }

  lemma {:induction false} RootsKept(s: seq<Slot>, roots: seq<Root>, path: string, env: Env)
    ensures ZapOrRebuild(s, roots, path, env).0.roots == roots
  {
  }

  /** A first half that its second half does not follow: whatever stands in its place,
      another rename's second half included, the moved subtree is forgotten. */
  lemma {:induction false} OnMoveOut(st: State, buf: seq<Event>, firstTry: bool, env: Env)
    requires buf != [] && KernelForm(buf[0]) && Valid(st.slots) && buf[0].wd in Table(st.slots)
    requires buf[0].kind == MovedFrom && buf[0].isDir
    requires if |buf| > 1 then buf[1].kind != MovedTo || buf[1].cookie != buf[0].cookie else !firstTry
    ensures var (after, v) := Process(st, buf, firstTry, env);
            var m := Table(st.slots);
            Cleared(after, v, st.roots, m, m[buf[0].wd] + "/" + buf[0].name, env)
  {
    var path := Table(st.slots)[buf[0].wd];
    Cached(st.slots, buf[0].wd);
    MoveOutCall(st, buf, firstTry, env, path);
    ZapClears(st.slots, st.roots, path + "/" + buf[0].name, env);
  }

  lemma {:induction false} MoveOutCall(st: State, buf: seq<Event>, firstTry: bool, env: Env, path: string)
    requires buf != [] && FindWatch(st.slots, buf[0].wd) >= 0
    requires path == st.slots[FindWatch(st.slots, buf[0].wd)].path
    requires buf[0].kind == MovedFrom && buf[0].isDir
    requires if |buf| > 1 then buf[1].kind != MovedTo || buf[1].cookie != buf[0].cookie else !firstTry
    ensures Process(st, buf, firstTry, env) == ZapOrRebuild(st.slots, st.roots, path + "/" + buf[0].name, env)
  {
  }

  /** A first half at the end of the buffer changes nothing and is asked for again. */
  lemma {:induction false} OnHangingHalf(st: State, buf: seq<Event>, env: Env)
    requires |buf| == 1 && KernelForm(buf[0]) && Valid(st.slots) && buf[0].wd in Table(st.slots)
    requires buf[0].kind == MovedFrom && buf[0].isDir
    ensures Process(st, buf, true, env) == (st, Retry)
  {
    Cached(st.slots, buf[0].wd);
  }

  lemma {:induction false} RootMovedCall(st: State, buf: seq<Event>, firstTry: bool, env: Env, path: string)
    requires buf != [] && FindWatch(st.slots, buf[0].wd) >= 0 && buf[0].kind == MoveSelf
    requires path == st.slots[FindWatch(st.slots, buf[0].wd)].path && FindRoot(st.roots, path) != -1
    ensures var left := ZapRoot(st.roots, path);
            Process(st, buf, firstTry, env) ==
            if AllGone(left) then (State(st.slots, left), Quit) else ZapOrRebuild(st.slots, left, path, env)
  {
  }

  /** A root was renamed: it is not monitored any more, and its subtree is forgotten. */
  lemma {:induction false} OnRootMoved(st: State, buf: seq<Event>, firstTry: bool, env: Env)
    requires buf != [] && KernelForm(buf[0]) && Valid(st.slots) && buf[0].wd in Table(st.slots)
    requires buf[0].kind == MoveSelf && Root(Table(st.slots)[buf[0].wd]) in st.roots
    ensures var (after, v) := Process(st, buf, firstTry, env);
            var m := Table(st.slots);
            && Dropped(st.roots, m[buf[0].wd], after.roots)
            && if NoneLeft(after.roots) then v == Quit else Cleared(after, v, after.roots, m, m[buf[0].wd], env)
  {
    var s, path := st.slots, Table(st.slots)[buf[0].wd];
    Cached(s, buf[0].wd);
    DropRoot(st.roots, path);
    RootMovedCall(st, buf, firstTry, env, path);
    ZapClears(s, ZapRoot(st.roots, path), path, env);
    RootsKept(s, ZapRoot(st.roots, path), path, env);
  }

  /** Every other event is consumed and changes nothing: IN_IGNORED, events on files, and
      the move of a directory that is not a root. */
  lemma {:induction false} OnOther(st: State, buf: seq<Event>, firstTry: bool, env: Env)
    requires buf != [] && KernelForm(buf[0]) && Valid(st.slots)
    requires buf[0].kind == Ignored
      || (buf[0].wd in Table(st.slots) && !buf[0].isDir && buf[0].kind in {Create, MovedFrom, MovedTo})
      || (buf[0].wd in Table(st.slots) && buf[0].kind == MoveSelf && Root(Table(st.slots)[buf[0].wd]) !in st.roots)
    ensures Process(st, buf, firstTry, env) == (st, Consumed(1))
  {
    if buf[0].kind != Ignored {
      Cached(st.slots, buf[0].wd);
    }
  }
}
