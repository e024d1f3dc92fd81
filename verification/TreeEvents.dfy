/** The directory cache from end to end: directories of the trees are created, renamed,
    moved away, moved in and removed, the kernel announces it as a stream of events, the
    program reads the stream in pieces of any size, and at the end the cache tells the
    truth about the final trees. */
module TreeEvents {
  import opened WatchCache
  import opened Monitor
  import opened EventLoop
  import D = DirTree

  /** A rename inside the trees; a move out of them; a directory that is created or moves
      in, with what is below it; the removal of a directory without entries; or an event
      that means no change: about a file, or the one after the removal of a watch. */
  datatype Change =
    | Move(i: int, parent: int, name: string, cookie: nat)
    | Leave(i: int, cookie: nat)
    | Enter(i: int, more: map<int, D.Dir>, created: bool, cookie: nat)
    | Delete(i: int)
    | Noise(ev: Event)

  /** Watch descriptors, each with the directory it watches. */
  type Watches = map<int, int>

  ghost predicate Legal(t: D.Tree, c: Change) {
    match c
    case Move(i, np, n, _) => D.CanRename(t, i, np, n)
    case Leave(i, _) => i in t.dirs
    case Enter(i, more, _, _) => D.CanGraft(t, i, more)
    case Delete(i) => i in t.dirs && forall j :: j in t.dirs ==> t.dirs[j].parent != i
    case Noise(_) => true
  }

  ghost function Changed(t: D.Tree, c: Change): D.Tree {
    match c
    case Move(i, np, n, _) => D.Rename(t, i, np, n)
    case Leave(i, _) => D.Prune(t, i)
    case Enter(_, more, _, _) => D.Graft(t, more)
    case Delete(i) => D.Prune(t, i)
    case Noise(_) => t
  }

  ghost function Final(t: D.Tree, changes: seq<Change>): D.Tree
    decreases |changes|
  {
    if changes == [] then t else Final(Changed(t, changes[0]), changes[1..])
  }

  /** The event says that directory `i` left its parent under its old name. */
  ghost predicate SaysFrom(ev: Event, t: D.Tree, watch: Watches, i: int, cookie: nat)
    requires i in t.dirs
  {
    && ev == Event(ev.wd, MovedFrom, true, cookie, t.dirs[i].name)
    && ev.wd in watch && watch[ev.wd] == t.dirs[i].parent
  }

  ghost predicate SaysTo(ev: Event, watch: Watches, np: int, name: string, cookie: nat) {
    ev == Event(ev.wd, MovedTo, true, cookie, name) && ev.wd in watch && watch[ev.wd] == np
  }

  ghost predicate SaysNew(ev: Event, watch: Watches, dir: D.Dir, created: bool, cookie: nat) {
    && ev == Event(ev.wd, if created then Create else MovedTo, true, cookie, dir.name)
    && ev.wd in watch && watch[ev.wd] == dir.parent
  }

  ghost predicate SaysGone(ev: Event, watch: Watches, i: int) {
    && ev.kind == DeleteSelf && ev.wd in watch && watch[ev.wd] == i
    && forall w :: w in watch && watch[w] == i ==> w == ev.wd
  }

  ghost predicate SaysNothing(ev: Event, t: D.Tree, watch: Watches) {
    || ev.kind == Ignored
    || (!ev.isDir && ev.kind in {Create, MovedFrom, MovedTo} && ev.wd in watch && D.Exists(t, watch[ev.wd]))
  }

  function Size(c: Change): nat { if c.Move? then 2 else 1 }

  /** What the kernel queues for a change of the tree `t`. */
  ghost predicate Announces(evs: seq<Event>, t: D.Tree, watch: Watches, c: Change)
    requires Legal(t, c)
  {
    && |evs| == Size(c)
    && match c
       case Move(i, np, n, cookie) => SaysFrom(evs[0], t, watch, i, cookie) && SaysTo(evs[1], watch, np, n, cookie)
       case Leave(i, cookie) => SaysFrom(evs[0], t, watch, i, cookie)
       case Enter(i, more, created, cookie) => SaysNew(evs[0], watch, more[i], created, cookie)
       case Delete(i) => SaysGone(evs[0], watch, i)
       case Noise(ev) => evs[0] == ev && SaysNothing(ev, t, watch)
  }

  /** The kernel still knows the watches of the directories that the program holds. */
  ghost predicate Removable(t: D.Tree, watch: Watches, env: Env) {
    forall w :: w in watch && D.Exists(t, watch[w]) ==> w in env.watched
  }

  /** A walk that reports directories of `t` under their true pathnames. */
  ghost predicate WalkTrue(t: D.Tree, watch: Watches, visits: seq<Report>) {
    forall k :: 0 <= k < |visits| ==> D.SlotTrue(t, watch, Slot(visits[k].wd, visits[k].path))
  }

  /** The walk of a directory that has appeared finds it as it appeared: it reports true
      pathnames, and every new directory that is watched. */
  ghost predicate WalkSees(t: D.Tree, watch: Watches, c: Change, env: Env)
    requires c.Enter?
  {
    forall ic :: D.ChainTo(t, ic, c.i) ==>
      var visits := env.walk(D.Text(t, ic));
      WalkTrue(t, watch, visits) && forall w :: w in watch && watch[w] in c.more ==> Reported(visits, w)
  }

  /** What the kernel answers when the change is handled. */
  ghost predicate Answered(t: D.Tree, watch: Watches, c: Change, env: Env)
    requires Legal(t, c)
  {
    (c.Leave? ==> Removable(t, watch, env)) && (c.Enter? ==> WalkSees(Changed(t, c), watch, c, env))
  }

  /** A directory that has left is not taken for the source of a later rename: each rename
      has a cookie of its own. */
  ghost predicate OwnCookie(c: Change, stream: seq<Event>, next: nat) {
    c.Leave? && next < |stream| ==> stream[next].kind != MovedTo || stream[next].cookie != c.cookie
  }

  /** From position `p` on the stream tells of legal changes of `t`, one after another. */
  ghost predicate Tells(t: D.Tree, watch: Watches, changes: seq<Change>, stream: seq<Event>, p: nat, envs: nat -> Env)
    decreases |changes|
  {
    if changes == [] then p == |stream|
    else
      var c := changes[0];
      && p + Size(c) <= |stream| && Legal(t, c) && Announces(stream[p..p + Size(c)], t, watch, c)
      && OwnCookie(c, stream, p + Size(c)) && Answered(t, watch, c, envs(p))
      && Tells(Changed(t, c), watch, changes[1..], stream, p + Size(c), envs)
  }

  /** Every live slot holds its directory's true pathname, and every watched directory of
      the tree has its slot. */
  ghost predicate Faithful(t: D.Tree, watch: Watches, s: seq<Slot>) {
    && D.WellFormed(t) && Valid(s) && D.CacheTrue(t, watch, s)
    && forall w :: w in watch && D.Exists(t, watch[w]) ==> w >= 0 && HasWd(s, w)
  }

  /** The monitored roots are roots of the trees. */
  ghost predicate RootsOf(t: D.Tree, roots: seq<Root>) {
    forall q :: Root(q) in roots ==> exists r :: r in t.roots && t.roots[r] == q
  }

  // ----- one change

  lemma {:induction false} MoveKeepsWatches(st: State, buf: seq<Event>, env: Env, w: int)
    requires |buf| > 1 && KernelForm(buf[0]) && IsPair(buf[0], buf[1]) && HasWd(st.slots, w)
    requires HasWd(st.slots, buf[0].wd) && HasWd(st.slots, buf[1].wd)
    ensures HasWd(Process(st, buf, false, env).0.slots, w)
  {
    var i :| 0 <= i < |st.slots| && st.slots[i].wd == w;
    assert Process(st, buf, false, env).0.slots[i].wd == w;
  }

  lemma {:induction false} MoveFollowed(t: D.Tree, watch: Watches, c: Change, st: State, buf: seq<Event>, env: Env)
    requires c.Move? && Legal(t, c) && Announces(buf, t, watch, c) && Faithful(t, watch, st.slots)
    ensures var (after, v) := Process(st, buf, false, env);
            v == Consumed(2) && Faithful(Changed(t, c), watch, after.slots) && after.roots == st.roots
  {
    var after := Process(st, buf, false, env).0;
    D.RenameKeepsWellFormed(t, c.i, c.parent, c.name);
    ParentExists(t, c.i);
    RenamePairFollowsTree(st, buf, false, env, t, watch, c.i, c.parent);
    ProcessKeepsValid(st, buf, false, env);
    forall w | w in watch && D.Exists(Changed(t, c), watch[w]) ensures w >= 0 && HasWd(after.slots, w) {
      MoveKeepsWatches(st, buf, env, w);
    }
  }

  lemma {:induction false} ParentExists(t: D.Tree, i: int)
    requires D.WellFormed(t) && i in t.dirs
    ensures D.Exists(t, t.dirs[i].parent)
  {
    assert D.Exists(t, i);
    var c :| D.ChainTo(t, c, i);
    assert |c| > 1 && t.dirs[c[|c|-1]].parent == c[|c|-2];
  }

  lemma {:induction false} LeftIsOutside(t: D.Tree, i: int, j: int)
    requires D.WellFormed(t) && i in t.dirs && D.Exists(D.Prune(t, i), j)
    ensures D.Exists(t, j) && !D.Inside(t, i, j)
  {
    if j in t.roots {
      forall c | D.ChainTo(t, c, j) ensures i !in c {
        D.ChainUnique(t, c, [j]);
      }
    }
  }

  lemma {:induction false} LeaveKeepsWatches(t: D.Tree, watch: Watches, i: int, s: seq<Slot>, after: seq<Slot>, w: int)
    requires |after| == |s| && HasWd(s, w) && w >= 0 && w in watch && !D.Inside(t, i, watch[w])
    requires forall k :: 0 <= k < |s| ==> after[k] == EMPTY || after[k] == s[k]
    requires forall k :: 0 <= k < |s| && Live(s[k]) && s[k].wd in watch ==>
               D.Inside(t, i, watch[s[k].wd]) || Live(after[k])
    ensures HasWd(after, w)
  {
    var k :| 0 <= k < |s| && s[k].wd == w;
    assert Live(s[k]) && after[k].wd == w;
  }

  lemma {:induction false} LeaveShape(st: State, buf: seq<Event>, env: Env)
    requires |buf| == 1 && MovedFromDir(buf[0])
    requires Process(st, buf, false, env).1 == Consumed(1)
    ensures var s, after := st.slots, Process(st, buf, false, env).0.slots;
            |after| == |s| && forall k :: 0 <= k < |s| ==> after[k] == EMPTY || after[k] == s[k]
  {
  }

  lemma {:induction false} LeaveFollowed(t: D.Tree, watch: Watches, c: Change, st: State, buf: seq<Event>, env: Env)
    requires c.Leave? && Legal(t, c) && Announces(buf, t, watch, c) && Faithful(t, watch, st.slots)
    requires Removable(t, watch, env)
    ensures var (after, v) := Process(st, buf, false, env);
            v == Consumed(1) && Faithful(Changed(t, c), watch, after.slots) && after.roots == st.roots
  {
    var after := Process(st, buf, false, env).0;
    D.PruneKeepsWellFormed(t, c.i);
    ParentExists(t, c.i);
    LiveAreRemovable(t, watch, st.slots, env);
    MoveOutFollowsTree(st, buf, false, env, t, watch, c.i);
    ProcessKeepsValid(st, buf, false, env);
    LeaveShape(st, buf, env);
    forall w | w in watch && D.Exists(Changed(t, c), watch[w]) ensures w >= 0 && HasWd(after.slots, w) {
      LeftIsOutside(t, c.i, watch[w]);
      LeaveKeepsWatches(t, watch, c.i, st.slots, after.slots, w);
    }
  }

  lemma {:induction false} LiveAreRemovable(t: D.Tree, watch: Watches, s: seq<Slot>, env: Env)
    requires D.CacheTrue(t, watch, s) && Removable(t, watch, env)
    ensures forall k :: 0 <= k < |s| && Live(s[k]) ==> s[k].wd in env.watched
  {
    forall k | 0 <= k < |s| && Live(s[k]) ensures s[k].wd in env.watched {
      assert D.SlotTrue(t, watch, s[k]);
      var c :| D.ChainTo(t, c, watch[s[k].wd]);
      assert D.Exists(t, watch[s[k].wd]);
    }
  }

  lemma {:induction false} WalkKeepsTrue(t: D.Tree, watch: Watches, s: seq<Slot>, visits: seq<Report>)
    requires D.CacheTrue(t, watch, s) && WalkTrue(t, watch, visits)
    ensures D.CacheTrue(t, watch, Walk(s, visits))
  {
    if visits != [] {
      var init, v := visits[..|visits|-1], visits[|visits|-1];
      WalkKeepsTrue(t, watch, s, init);
      TraverseKeepsTrue(t, watch, Walk(s, init), v);
    }
  }

  lemma {:induction false} TraverseKeepsTrue(t: D.Tree, watch: Watches, s: seq<Slot>, v: Report)
    requires D.CacheTrue(t, watch, s) && D.SlotTrue(t, watch, Slot(v.wd, v.path))
    ensures D.CacheTrue(t, watch, Traverse(s, v.wd, v.path))
  {
    var r := Traverse(s, v.wd, v.path);
    forall k | 0 <= k < |r| && Live(r[k]) ensures D.SlotTrue(t, watch, r[k]) {
      assert r[k] == Slot(v.wd, v.path) || (k < |s| && r[k] == s[k]);
    }
  }

  lemma {:induction false} HasIffTable(s: seq<Slot>, w: int)
    requires Valid(s) && w >= 0
    ensures HasWd(s, w) <==> w in Table(s)
  {
    TableRepresents(s);
    if HasWd(s, w) {
      var k :| 0 <= k < |s| && s[k].wd == w;
      assert Live(s[k]);
    }
  }

  /** Handling the event is a walk of the new directory's true pathname. */
  lemma {:induction false} EnterCall(t: D.Tree, watch: Watches, c: Change, st: State, buf: seq<Event>, env: Env,
                                     ic: seq<int>)
    requires c.Enter? && Legal(t, c) && Announces(buf, t, watch, c) && Faithful(t, watch, st.slots)
    requires D.ChainTo(Changed(t, c), ic, c.i)
    ensures Process(st, buf, false, env) ==
            (State(Walk(st.slots, env.walk(D.Text(Changed(t, c), ic))), st.roots), Consumed(1))
  {
    var k := FindWatch(st.slots, buf[0].wd);
    assert D.SlotTrue(t, watch, st.slots[k]);
    var pc :| D.ChainTo(t, pc, c.more[c.i].parent) && st.slots[k].path == D.Text(t, pc);
    D.GraftedPath(t, c.i, c.more, pc);
    D.ChainUnique(Changed(t, c), ic, pc + [c.i]);
    forall x | 0 <= x < |st.slots| && Live(st.slots[x])
      ensures st.slots[x].path != Join(D.Text(t, pc), c.more[c.i].name)
    {
      assert D.SlotTrue(t, watch, st.slots[x]);
      D.GraftedPathFree(t, watch, c.i, c.more, pc, st.slots[x]);
    }
  }

  lemma {:induction false} EnterFollowed(t: D.Tree, watch: Watches, c: Change, st: State, buf: seq<Event>, env: Env)
    requires c.Enter? && Legal(t, c) && Announces(buf, t, watch, c) && Faithful(t, watch, st.slots)
    requires WalkSees(Changed(t, c), watch, c, env)
    ensures var (after, v) := Process(st, buf, false, env);
            v == Consumed(1) && Faithful(Changed(t, c), watch, after.slots) && after.roots == st.roots
  {
    var u, s := Changed(t, c), st.slots;
    assert D.Exists(u, c.i);
    var ic :| D.ChainTo(u, ic, c.i);
    EnterCall(t, watch, c, st, buf, env, ic);
    var visits := env.walk(D.Text(u, ic));
    forall k | 0 <= k < |s| && Live(s[k]) ensures D.SlotTrue(u, watch, s[k]) {
      assert D.SlotTrue(t, watch, s[k]);
      D.GraftKeepsSlot(t, watch, c.i, c.more, s[k]);
    }
    WalkKeepsTrue(u, watch, s, visits);
    WalkTable(s, visits);
    forall w | w in watch && D.Exists(u, watch[w]) ensures w >= 0 && HasWd(Walk(s, visits), w) {
      assert Reported(visits, w) || (w >= 0 && HasWd(s, w));
      if w >= 0 {
        HasIffTable(s, w);
        HasIffTable(Walk(s, visits), w);
      }
    }
  }

  lemma {:induction false} NotARoot(t: D.Tree, watch: Watches, x: Slot, roots: seq<Root>)
    requires D.WellFormed(t) && D.SlotTrue(t, watch, x) && watch[x.wd] in t.dirs && RootsOf(t, roots)
    ensures Root(x.path) !in roots
  {
    var c :| D.ChainTo(t, c, watch[x.wd]) && x.path == D.Text(t, c);
    forall r | r in t.roots ensures t.roots[r] != x.path {
      D.RootTextsApart(t, c, r);
    }
  }

  lemma {:induction false} OthersStay(t: D.Tree, watch: Watches, i: int, x: Slot)
    requires D.WellFormed(t) && i in t.dirs && (forall j :: j in t.dirs ==> t.dirs[j].parent != i)
    requires D.SlotTrue(t, watch, x) && watch[x.wd] != i
    ensures D.SlotTrue(D.Prune(t, i), watch, x)
  {
    var c :| D.ChainTo(t, c, watch[x.wd]) && x.path == D.Text(t, c);
    if i in c {
      D.LeafInside(t, i, c);
    }
    D.PruneKeepsChain(t, i, c);
    assert D.ChainTo(D.Prune(t, i), c, watch[x.wd]);
  }

  lemma {:induction false} DeleteCall(t: D.Tree, watch: Watches, c: Change, st: State, buf: seq<Event>, env: Env)
    requires c.Delete? && Legal(t, c) && Announces(buf, t, watch, c) && Faithful(t, watch, st.slots)
    requires RootsOf(t, st.roots)
    ensures FindWatch(st.slots, buf[0].wd) >= 0
    ensures Process(st, buf, false, env) ==
            (State(st.slots[FindWatch(st.slots, buf[0].wd) := EMPTY], st.roots), Consumed(1))
  {
    var k := FindWatch(st.slots, buf[0].wd);
    assert D.SlotTrue(t, watch, st.slots[k]);
    NotARoot(t, watch, st.slots[k], st.roots);
  }

  lemma {:induction false} DeleteFollowed(t: D.Tree, watch: Watches, c: Change, st: State, buf: seq<Event>, env: Env)
    requires c.Delete? && Legal(t, c) && Announces(buf, t, watch, c) && Faithful(t, watch, st.slots)
    requires RootsOf(t, st.roots)
    ensures var (after, v) := Process(st, buf, false, env);
            v == Consumed(1) && Faithful(Changed(t, c), watch, after.slots) && after.roots == st.roots
  {
    DeleteCall(t, watch, c, st, buf, env);
    D.PruneKeepsWellFormed(t, c.i);
    var s, wd := st.slots, buf[0].wd;
    Forgotten(t, watch, c.i, s, wd);
    var r := s[FindWatch(s, wd) := EMPTY];
    forall w | w in watch && D.Exists(Changed(t, c), watch[w]) ensures w >= 0 && HasWd(r, w) {
      LeftIsOutside(t, c.i, watch[w]);
      SelfInside(t, c.i);
      StillThere(s, wd, w);
    }
  }

  lemma {:induction false} StillThere(s: seq<Slot>, wd: int, w: int)
    requires FindWatch(s, wd) >= 0 && HasWd(s, w) && w != wd
    ensures HasWd(s[FindWatch(s, wd) := EMPTY], w)
  {
    var k :| 0 <= k < |s| && s[k].wd == w;
    assert s[FindWatch(s, wd) := EMPTY][k].wd == w;
  }

  /** With the slot of a removed directory cleared, the others are true of what is left. */
  lemma {:induction false} Forgotten(t: D.Tree, watch: Watches, i: int, s: seq<Slot>, wd: int)
    requires D.WellFormed(t) && Valid(s) && D.CacheTrue(t, watch, s) && wd >= 0 && FindWatch(s, wd) >= 0
    requires i in t.dirs && forall j :: j in t.dirs ==> t.dirs[j].parent != i
    requires forall w :: w in watch && watch[w] == i ==> w == wd
    ensures Valid(s[FindWatch(s, wd) := EMPTY])
    ensures D.CacheTrue(D.Prune(t, i), watch, s[FindWatch(s, wd) := EMPTY])
  {
    var f := FindWatch(s, wd);
    var r := s[f := EMPTY];
    forall k | 0 <= k < |r| && Live(r[k]) ensures D.SlotTrue(D.Prune(t, i), watch, r[k]) {
      assert r[k] == s[k] && D.SlotTrue(t, watch, s[k]);
      assert k != f && s[k].wd != s[f].wd;
      OthersStay(t, watch, i, s[k]);
    }
  }

  lemma {:induction false} SelfInside(t: D.Tree, i: int)
    requires D.WellFormed(t) && i in t.dirs
    ensures D.Inside(t, i, i)
  {
    assert D.Exists(t, i);
    var c :| D.ChainTo(t, c, i);
    assert c[|c|-1] == i;
  }

  lemma {:induction false} NoiseFollowed(t: D.Tree, watch: Watches, c: Change, st: State, buf: seq<Event>, env: Env)
    requires c.Noise? && Announces(buf, t, watch, c) && Faithful(t, watch, st.slots)
    ensures Process(st, buf, false, env) == (st, Consumed(1))
  {
  }

  /** One change, handled with the events that announce it in the buffer. */
  lemma {:induction false} ChangeFollowed(t: D.Tree, watch: Watches, c: Change, st: State, buf: seq<Event>, env: Env)
    requires Legal(t, c) && Announces(buf, t, watch, c) && Answered(t, watch, c, env)
    requires Faithful(t, watch, st.slots) && RootsOf(t, st.roots)
    ensures var (after, v) := Process(st, buf, false, env);
            v == Consumed(Size(c)) && Faithful(Changed(t, c), watch, after.slots) && after.roots == st.roots
  {
    match c
    case Move(_, _, _, _) => MoveFollowed(t, watch, c, st, buf, env);
    case Leave(_, _) => LeaveFollowed(t, watch, c, st, buf, env);
    case Enter(_, _, _, _) => EnterFollowed(t, watch, c, st, buf, env);
    case Delete(_) => DeleteFollowed(t, watch, c, st, buf, env);
    case Noise(_) => NoiseFollowed(t, watch, c, st, buf, env);
  }

  // ----- whole streams

  /** The events that announce one change are what is handled together. */
  lemma {:induction false} GroupIsChange(t: D.Tree, watch: Watches, changes: seq<Change>, stream: seq<Event>,
                                         p: nat, envs: nat -> Env)
    requires changes != [] && Tells(t, watch, changes, stream, p, envs)
    ensures p < |stream| && Group(stream, p) == stream[p..p + Size(changes[0])]
  {
    var c := changes[0];
    assert stream[p..p + Size(c)][0] == stream[p];
    if c.Move? {
      assert stream[p..p+2][1] == stream[p+1];
    }
  }

  /** The stream read in one piece. */
  lemma {:induction false} WholeFollows(t: D.Tree, watch: Watches, changes: seq<Change>, stream: seq<Event>, p: nat,
                                        envs: nat -> Env, st: State)
    requires Tells(t, watch, changes, stream, p, envs) && p <= |stream|
    requires Faithful(t, watch, st.slots) && RootsOf(t, st.roots)
    ensures var (end, v) := Whole(st, stream, p, CallsOf(envs));
            v == Consumed(0) && Faithful(Final(t, changes), watch, end.slots) && end.roots == st.roots
    decreases |changes|
  {
    if changes != [] {
      var c := changes[0];
      var after := FirstFollows(t, watch, changes, stream, p, envs, st);
      WholeFollows(Changed(t, c), watch, changes[1..], stream, p + Size(c), envs, after);
    }
  }

  /** The first change, and what is left to do after it. */
  lemma {:induction false} FirstFollows(t: D.Tree, watch: Watches, changes: seq<Change>, stream: seq<Event>, p: nat,
                                        envs: nat -> Env, st: State)
    returns (after: State)
    requires changes != [] && Tells(t, watch, changes, stream, p, envs) && p <= |stream|
    requires Faithful(t, watch, st.slots) && RootsOf(t, st.roots)
    ensures var c := changes[0];
            && p + Size(c) <= |stream| && Legal(t, c)
            && Faithful(Changed(t, c), watch, after.slots)
            && RootsOf(Changed(t, c), after.roots) && after.roots == st.roots
            && Whole(st, stream, p, CallsOf(envs)) == Whole(after, stream, p + Size(c), CallsOf(envs))
  {
    var c := changes[0];
    var buf := stream[p..p + Size(c)];
    GroupIsChange(t, watch, changes, stream, p, envs);
    ChangeFollowed(t, watch, c, st, buf, envs(p));
    NextCall(st, stream, p, envs);
    after := Process(st, buf, false, envs(p)).0;
    SameRoots(t, c);
  }

  lemma {:induction false} SameRoots(t: D.Tree, c: Change)
    requires Legal(t, c)
    ensures Changed(t, c).roots == t.roots
  {
  }

  lemma {:induction false} NextCall(st: State, stream: seq<Event>, p: nat, envs: nat -> Env)
    requires p < |stream| && Process(st, Group(stream, p), false, envs(p)).1.Consumed?
    ensures Whole(st, stream, p, CallsOf(envs)) ==
            Whole(Process(st, Group(stream, p), false, envs(p)).0, stream, p + |Group(stream, p)|, CallsOf(envs))
  {
  }

  /** Main result: from a faithful cache, every run over a stream that tells of changes of
      the trees, of any kind and in any order, whatever the sizes of the reads, handles
      every event and ends with a cache that is faithful to the final trees, as long as no
      retry read separated the halves of a rename. */
  lemma {:induction false} EveryRunFollowsTree(t: D.Tree, watch: Watches, changes: seq<Change>, stream: seq<Event>,
                                               io: Io, envs: nat -> Env, st: State, tr: Trace)
    requires Tells(t, watch, changes, stream, 0, envs) && Faithful(t, watch, st.slots) && RootsOf(t, st.roots)
    requires Ended(stream, io, CallsOf(envs), st, tr) && NoPairTimedOut(stream, tr.fetched)
    ensures NoDiscards(tr.log) && tr.pos == |stream|
    ensures var end := Replay(st, tr.log, CallsOf(envs)).0;
            Faithful(Final(t, changes), watch, end.slots) && end.roots == st.roots
  {
    WholeFollows(t, watch, changes, stream, 0, envs, st);
    ReadsRefineWhole(stream, io, st, tr, envs);
  }
}
