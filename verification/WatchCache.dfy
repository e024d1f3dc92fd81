/** The watch-list cache of inotify_dtree.c: a growable array of slots that is
    searched linearly. A slot is free when its descriptor is -1. This module holds
    the slot array as a value, the operations on it, and the proof that any
    sequence of operations refines operations on a map from descriptor to path. */
module WatchCache {

  datatype Slot = Slot(wd: int, path: string)

  const EMPTY := Slot(-1, "")
  const ALLOC_INCR: nat := 200

  /** "p/n", as every full path in the program is built. */
  function Join(p: string, n: string): string { p + "/" + n }

  /** A directory entry name: nonempty and free of slashes. */
  predicate IsName(n: string) { |n| > 0 && '/' !in n }

  /** The textual test of rewriteCachedPaths() and zapSubtree(): `top` is a prefix
      of `p` and the next character of `p` is a slash or the terminator. */
  predicate AtOrBelow(top: string, p: string) {
    top <= p && (|p| == |top| || p[|top|] == '/')
  }

  predicate Live(s: Slot) { s.wd >= 0 }

  /** Free slots are blank and live descriptors are distinct. */
  ghost predicate Valid(s: seq<Slot>) {
    && (forall i :: 0 <= i < |s| ==> Live(s[i]) || s[i] == EMPTY)
    && (forall i, j :: 0 <= i < |s| && 0 <= j < |s| && i != j && Live(s[i]) ==> s[i].wd != s[j].wd)
  }

  /** Slot of `wd`, or -1. Looking up -1 finds the first free slot. */
  function FindWatch(s: seq<Slot>, wd: int): (r: int)
    ensures -1 <= r < |s|
    ensures r >= 0 ==> s[r].wd == wd && forall j :: 0 <= j < r ==> s[j].wd != wd
    ensures r == -1 ==> forall j :: 0 <= j < |s| ==> s[j].wd != wd
  {
    if s == [] then -1
    else if s[0].wd == wd then 0
    else
      var r := FindWatch(s[1..], wd);
      assert forall j :: 1 <= j < |s| ==> s[j] == s[1..][j-1];
      if r == -1 then -1 else r + 1
  }

  predicate PathInCache(s: seq<Slot>, path: string) {
    exists i :: 0 <= i < |s| && Live(s[i]) && s[i].path == path
  }

  function Blanks(n: nat): (b: seq<Slot>)
    ensures |b| == n && forall i :: 0 <= i < n ==> b[i] == EMPTY
  {
    seq(n, _ => EMPTY)
  }

  predicate Full(s: seq<Slot>) { forall i :: 0 <= i < |s| ==> s[i].wd != -1 }

  /** The array as findEmptyCacheSlot() leaves it: with at least one free slot. */
  function Grown(s: seq<Slot>): seq<Slot> {
    if FindWatch(s, -1) >= 0 then s else s + Blanks(ALLOC_INCR)
  }

  /** addWatchToCache() */
  function Add(s: seq<Slot>, wd: int, path: string): (r: seq<Slot>)
    ensures |s| <= |r|
  {
    var e := FindWatch(s, -1);
    Grown(s)[(if e >= 0 then e else |s|) := Slot(wd, path)]
  }

  /** traverseTree(), once inotify_add_watch() has answered `wd`. */
  function Traverse(s: seq<Slot>, wd: int, path: string): seq<Slot> {
    if FindWatch(s, wd) >= 0 then s else Add(s, wd, path)
  }

  /** One traverseTree() call whose inotify_add_watch() succeeded with `wd`. */
  datatype Report = Report(wd: nat, path: string)

  /** watchDir(): the directories nftw() reports, in order. */
  function Walk(s: seq<Slot>, visits: seq<Report>): seq<Slot> {
    if visits == [] then s
    else
      var v := visits[|visits|-1];
      Traverse(Walk(s, visits[..|visits|-1]), v.wd, v.path)
  }

  /** markCacheSlotEmpty() on the slot of `wd`. */
  function Clear(s: seq<Slot>, wd: int): seq<Slot> {
    var k := FindWatch(s, wd);
    if k >= 0 then s[k := EMPTY] else s
  }

  function RewritePath(path: string, top: string, target: string): string {
    if AtOrBelow(top, path) then target + path[|top|..] else path
  }

  /** rewriteCachedPaths(): the scan does not look at the descriptors. */
  function Rewrite(s: seq<Slot>, top: string, target: string): (r: seq<Slot>)
    ensures |r| == |s|
    ensures forall i :: 0 <= i < |s| ==> r[i] == Slot(s[i].wd, RewritePath(s[i].path, top, target))
  {
    seq(|s|, i requires 0 <= i < |s| => Slot(s[i].wd, RewritePath(s[i].path, top, target)))
  }

  predicate Doomed(s: Slot, path: string) { Live(s) && AtOrBelow(path, s.path) }

  /** Index of the first slot at or below `path` whose inotify_rm_watch() fails,
      that is, whose descriptor the kernel does not know; |s| if there is none. */
  function FirstFailure(s: seq<Slot>, path: string, watched: set<int>): (f: nat)
    ensures f <= |s|
    ensures f < |s| ==> Doomed(s[f], path) && s[f].wd !in watched
    ensures forall i :: 0 <= i < f && Doomed(s[i], path) ==> s[i].wd in watched
  {
    if s == [] then 0
    else if Doomed(s[0], path) && s[0].wd !in watched then 0
    else
      assert forall j :: 1 <= j < |s| ==> s[j] == s[1..][j-1];
      1 + FirstFailure(s[1..], path, watched)
  }

  /** The slots after the scan of zapSubtree() has passed the first `n`. */
  function Zapped(s: seq<Slot>, path: string, n: nat): (r: seq<Slot>)
    ensures |r| == |s|
    ensures forall i :: 0 <= i < |s| ==> r[i] == if i < n && Doomed(s[i], path) then EMPTY else s[i]
  {
    seq(|s|, i requires 0 <= i < |s| => if i < n && Doomed(s[i], path) then EMPTY else s[i])
  }

  function CountDoomed(s: seq<Slot>, path: string): nat {
    if s == [] then 0
    else CountDoomed(s[..|s|-1], path) + if Doomed(s[|s|-1], path) then 1 else 0
  }

  ghost function DoomedWds(s: seq<Slot>, path: string): set<int> {
    set i | 0 <= i < |s| && Doomed(s[i], path) :: s[i].wd
  }

  // ----- the abstract view

  /** The map the array stands for. */
  ghost function Table(s: seq<Slot>): map<int, string>
    requires Valid(s)
  {
    map i | 0 <= i < |s| && Live(s[i]) :: s[i].wd := s[i].path
  }

  ghost predicate HasWd(s: seq<Slot>, wd: int) {
    exists i :: 0 <= i < |s| && s[i].wd == wd
  }

  /** `m` holds exactly the live slots of `s`. */
  ghost predicate Represents(s: seq<Slot>, m: map<int, string>) {
    && (forall i :: 0 <= i < |s| && Live(s[i]) ==> s[i].wd in m && m[s[i].wd] == s[i].path)
    && (forall w :: w in m ==> w >= 0 && HasWd(s, w))
  }

  lemma {:induction false} TableRepresents(s: seq<Slot>)
    requires Valid(s)
    ensures Represents(s, Table(s))
  {
  }

  lemma {:induction false} TableUnique(s: seq<Slot>, m: map<int, string>)
    requires Valid(s) && Represents(s, m)
    ensures Table(s) == m
  {
    TableRepresents(s);
    forall w | w in m ensures w in Table(s) && Table(s)[w] == m[w] {
      var i :| 0 <= i < |s| && s[i].wd == w;
      assert Live(s[i]);
    }
  }

  lemma {:induction false} TraverseValid(s: seq<Slot>, wd: int, path: string)
    requires Valid(s) && wd >= 0
    ensures Valid(Traverse(s, wd, path))
  {
  }

  lemma {:induction false} AddRepresents(s: seq<Slot>, m: map<int, string>, wd: int, path: string)
    requires Represents(s, m) && wd >= 0 && FindWatch(s, wd) < 0
    ensures Represents(Add(s, wd, path), m[wd := path])
  {
    var r := Add(s, wd, path);
    var e := FindWatch(s, -1);
    var k := if e >= 0 then e else |s|;
    assert r[k] == Slot(wd, path);
    forall w | w in m ensures HasWd(r, w) {
      var i :| 0 <= i < |s| && s[i].wd == w;
      assert r[i].wd == w;
    }
  }

  /** Adding, with or without growth, is a map update that never overwrites. */
  lemma {:induction false} TraverseRefines(s: seq<Slot>, wd: int, path: string)
    requires Valid(s) && wd >= 0
    ensures Valid(Traverse(s, wd, path))
    ensures Table(Traverse(s, wd, path)) == if wd in Table(s) then Table(s) else Table(s)[wd := path]
  {
    TraverseValid(s, wd, path);
    TableRepresents(s);
    if FindWatch(s, wd) >= 0 {
      assert Live(s[FindWatch(s, wd)]);
    } else {
      assert !HasWd(s, wd);
      AddRepresents(s, Table(s), wd, path);
      TableUnique(Traverse(s, wd, path), Table(s)[wd := path]);
    }
  }

  lemma {:induction false} ClearRepresents(s: seq<Slot>, m: map<int, string>, wd: int)
    requires Valid(s) && Represents(s, m) && wd >= 0
    ensures Valid(Clear(s, wd)) && Represents(Clear(s, wd), m - {wd})
  {
  }

  /** A path that contains a slash is never a prefix of a blank slot. */
  lemma {:induction false} RewriteRepresents(s: seq<Slot>, m: map<int, string>, p: string, n: string, target: string)
    requires Valid(s) && Represents(s, m)
    ensures Valid(Rewrite(s, Join(p, n), target))
    ensures Represents(Rewrite(s, Join(p, n), target), map w | w in m :: RewritePath(m[w], Join(p, n), target))
  {
  }

  /** Zapping keeps exactly the entries that are not at or below `path`. */
  lemma {:induction false} ZapRepresents(s: seq<Slot>, m: map<int, string>, path: string)
    requires Valid(s) && Represents(s, m)
    ensures Valid(Zapped(s, path, |s|))
    ensures Represents(Zapped(s, path, |s|), map w | w in m && !AtOrBelow(path, m[w]) :: m[w])
  {
  }

  /** The count zapSubtree() returns is the number of descriptors it removes. */
  lemma {:induction false} CountIsRemoved(s: seq<Slot>, path: string)
    requires Valid(s)
    ensures CountDoomed(s, path) == |DoomedWds(s, path)|
  {
    if s != [] {
      var t, last := s[..|s|-1], s[|s|-1];
      CountIsRemoved(t, path);
      var more := if Doomed(last, path) then {last.wd} else {};
      assert DoomedWds(s, path) == DoomedWds(t, path) + more by {
        assert forall i :: 0 <= i < |t| ==> s[i] == t[i];
      }
      assert DoomedWds(t, path) !! more;
    }
  }

  // ----- every sequence of operations

  ghost function TableTraverse(m: map<int, string>, wd: int, path: string): map<int, string> {
    if wd in m then m else m[wd := path]
  }

  ghost function TableWalk(m: map<int, string>, visits: seq<Report>): map<int, string> {
    if visits == [] then m
    else
      var v := visits[|visits|-1];
      TableTraverse(TableWalk(m, visits[..|visits|-1]), v.wd, v.path)
  }

  lemma {:induction false} WalkRefines(s: seq<Slot>, visits: seq<Report>)
    requires Valid(s)
    ensures Valid(Walk(s, visits)) && Table(Walk(s, visits)) == TableWalk(Table(s), visits)
  {
    if visits != [] {
      var init, v := visits[..|visits|-1], visits[|visits|-1];
      WalkRefines(s, init);
      TraverseRefines(Walk(s, init), v.wd, v.path);
    }
  }

  /** Some watch at or below `path` is unknown to the kernel, so its removal fails. */
  ghost predicate Fails(m: map<int, string>, path: string, watched: set<int>) {
    exists w :: w in m && AtOrBelow(path, m[w]) && w !in watched
  }

  /** The scan meets a failing removal exactly when the map holds one. */
  lemma {:induction false} FailureSeen(s: seq<Slot>, m: map<int, string>, path: string, watched: set<int>)
    requires Valid(s) && Represents(s, m)
    ensures FirstFailure(s, path, watched) < |s| <==> Fails(m, path, watched)
  {
    var f := FirstFailure(s, path, watched);
    if f < |s| {
      assert s[f].wd in m;
    }
    if Fails(m, path, watched) {
      var w :| w in m && AtOrBelow(path, m[w]) && w !in watched;
      var i :| 0 <= i < |s| && s[i].wd == w;
      assert Doomed(s[i], path);
    }
  }

  /** What the program does to the cache. A zap whose inotify_rm_watch() calls all
      succeed clears the subtree; otherwise the cache is rebuilt from the directories
      that a new walk reports. */
  datatype Op =
    | OpTraverse(wd: nat, path: string)
    | OpClear(wd: nat)
    | OpRename(oldPrefix: string, oldName: string, newPrefix: string, newName: string)
    | OpZap(path: string, watched: set<int>, rebuild: seq<Report>)
    | OpRebuild(rebuild: seq<Report>)

  function Apply(s: seq<Slot>, op: Op): seq<Slot> {
    match op
    case OpTraverse(wd, path) => Traverse(s, wd, path)
    case OpClear(wd) => Clear(s, wd)
    case OpRename(op, on, np, nn) => Rewrite(s, Join(op, on), Join(np, nn))
    case OpZap(path, watched, rebuild) =>
      if FirstFailure(s, path, watched) < |s| then Walk([], rebuild) else Zapped(s, path, |s|)
    case OpRebuild(rebuild) => Walk([], rebuild)
  }

  ghost function TableApply(m: map<int, string>, op: Op): map<int, string> {
    match op
    case OpTraverse(wd, path) => TableTraverse(m, wd, path)
    case OpClear(wd) => m - {wd}
    case OpRename(op, on, np, nn) => map w | w in m :: RewritePath(m[w], Join(op, on), Join(np, nn))
    case OpZap(path, watched, rebuild) =>
      if Fails(m, path, watched) then TableWalk(map[], rebuild)
      else map w | w in m && !AtOrBelow(path, m[w]) :: m[w]
    case OpRebuild(rebuild) => TableWalk(map[], rebuild)
  }

  lemma {:induction false} ApplyRefines(s: seq<Slot>, op: Op)
    requires Valid(s)
    ensures Valid(Apply(s, op)) && Table(Apply(s, op)) == TableApply(Table(s), op)
  {
    var m := Table(s);
    TableRepresents(s);
    match op
    case OpTraverse(wd, path) => TraverseRefines(s, wd, path);
    case OpClear(wd) => ClearRepresents(s, m, wd); TableUnique(Apply(s, op), TableApply(m, op));
    case OpRename(o, on, np, nn) =>
      RewriteRepresents(s, m, o, on, Join(np, nn));
      TableUnique(Apply(s, op), TableApply(m, op));
    case OpZap(path, watched, rebuild) => ZapOrRebuildRefines(s, path, watched, rebuild);
    case OpRebuild(rebuild) => RebuildRefines(rebuild);
  }

  lemma {:induction false} RebuildRefines(rebuild: seq<Report>)
    ensures Valid(Walk([], rebuild)) && Table(Walk([], rebuild)) == TableWalk(map[], rebuild)
  {
    assert Table([]) == map[];
    WalkRefines([], rebuild);
  }

  lemma {:induction false} ZapOrRebuildRefines(s: seq<Slot>, path: string, watched: set<int>, rebuild: seq<Report>)
    requires Valid(s)
    ensures var op := OpZap(path, watched, rebuild);
            Valid(Apply(s, op)) && Table(Apply(s, op)) == TableApply(Table(s), op)
  {
    var op := OpZap(path, watched, rebuild);
    TableRepresents(s);
    FailureSeen(s, Table(s), path, watched);
    if Fails(Table(s), path, watched) {
      RebuildRefines(rebuild);
    } else {
      ZapRepresents(s, Table(s), path);
      TableUnique(Apply(s, op), TableApply(Table(s), op));
    }
  }

  function RunSlots(s: seq<Slot>, ops: seq<Op>): seq<Slot> {
    if ops == [] then s else Apply(RunSlots(s, ops[..|ops|-1]), ops[|ops|-1])
  }

  ghost function RunTable(m: map<int, string>, ops: seq<Op>): map<int, string> {
    if ops == [] then m else TableApply(RunTable(m, ops[..|ops|-1]), ops[|ops|-1])
  }

  /** The slot array refines the map over every sequence of operations, rebuilds after
      a failed watch removal included. */
  lemma {:induction false} SlotsRefineTable(s: seq<Slot>, ops: seq<Op>)
    requires Valid(s)
    ensures Valid(RunSlots(s, ops))
    ensures Table(RunSlots(s, ops)) == RunTable(Table(s), ops)
  {
    if ops != [] {
      SlotsRefineTable(s, ops[..|ops|-1]);
      ApplyRefines(RunSlots(s, ops[..|ops|-1]), ops[|ops|-1]);
    }
  }
}
