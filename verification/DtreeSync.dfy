/** inotify_dtree.c against a tree in which directories are being created at any
    moment: between any two steps of the program's walk, and between any two events.
    There are no deletions, renames or queue overflows here. Every interleaving is
    shown to end, once the queue is empty and no walk is running, with a cache that
    holds exactly the directories of the tree, each in one slot. */
module DtreeSync {
  import opened WatchCache
  import D = DirTree

  /** IN_CREATE | IN_ISDIR on the directory watched as `wd`. */
  datatype Event = Created(wd: int, name: string)

  /** A directory whose entries nftw() is reading: those that were there at the first
      read, which are certain to be returned, and those returned so far. */
  datatype Listing = Listing(present: set<string>, returned: set<string>)

  /** The kernel side: `dirs`, `watch` (one descriptor per watched directory) and
      `queue`. The program side: `slots`, and the walk of nftw(), in which a directory
      is first visited (watch added) and then read entry by entry, with visits of
      returned entries and reads of theirs in between. `rebuilt` records that the
      missing-watch branch was taken. */
  datatype State = State(
    roots: set<string>,
    dirs: set<string>,
    watch: map<string, int>,
    nextWd: nat,
    queue: seq<Event>,
    slots: seq<Slot>,
    toVisit: set<string>,
    toOpen: set<string>,
    reading: map<string, Listing>,
    rebuilt: bool)

  ghost function Children(dirs: set<string>, p: string): set<string> {
    set q | q in dirs && exists n :: IsName(n) && q == Join(p, n)
  }

  /** Every directory that is not a root lies in another one. */
  ghost predicate IsTree(roots: set<string>, dirs: set<string>) {
    && roots <= dirs
    && forall q :: q in dirs && q !in roots ==> exists p, n :: p in dirs && IsName(n) && q == Join(p, n)
  }

  /** reinitialize() has just freed the cache and is about to walk the roots. */
  ghost predicate Init(s: State) {
    && IsTree(s.roots, s.dirs)
    && s.watch == map[] && s.queue == [] && s.slots == []
    && s.toVisit == s.roots && s.toOpen == {} && s.reading == map[] && !s.rebuilt
  }

  predicate Walking(s: State) { s.toVisit != {} || s.toOpen != {} || s.reading != map[] }

  /** Any process creates a directory. */
  function Mkdir(s: State, p: string, n: string): State {
    s.(dirs := s.dirs + {Join(p, n)},
       queue := if p in s.watch then s.queue + [Created(s.watch[p], n)] else s.queue)
  }

  /** One call of traverseTree(): a second watch on a directory has the first one's
      descriptor. */
  function Visit(s: State, p: string): State {
    var wd := if p in s.watch then s.watch[p] else s.nextWd;
    s.(watch := s.watch[p := wd],
       nextWd := if p in s.watch then s.nextWd else s.nextWd + 1,
       slots := Traverse(s.slots, wd, p),
       toVisit := s.toVisit - {p},
       toOpen := s.toOpen + {p})
  }

  /** The first read of a visited directory's entries. */
  ghost function Open(s: State, p: string): State {
    s.(toOpen := s.toOpen - {p}, reading := s.reading[p := Listing(Children(s.dirs, p), {})])
  }

  /** readdir() returns entry `q` of the directory `p`. */
  function Read(s: State, p: string, q: string): State
    requires p in s.reading
  {
    s.(reading := s.reading[p := Listing(s.reading[p].present, s.reading[p].returned + {q})],
       toVisit := s.toVisit + {q})
  }

  /** readdir() reports the end of the directory. */
  function Close(s: State, p: string): State {
    s.(reading := s.reading - {p})
  }

  /** processNextInotifyEvent() on a directory creation. */
  function Handle(s: State): State
    requires s.queue != []
  {
    var ev := s.queue[0];
    var k := FindWatch(s.slots, ev.wd);
    if k == -1 then s.(rebuilt := true)
    else
      var full := Join(s.slots[k].path, ev.name);
      s.(queue := s.queue[1..], toVisit := if PathInCache(s.slots, full) then {} else {full})
  }

  datatype Step =
    | DoMkdir(p: string, n: string)
    | DoVisit(p: string)
    | DoOpen(p: string)
    | DoRead(p: string, q: string)
    | DoClose(p: string)
    | DoHandle

  /** A step allowed in `s`. readdir() returns each entry once, and may or may not return
      those created after the first read. Events are read only when no walk is running. */
  ghost predicate Enabled(s: State, a: Step) {
    match a
    case DoMkdir(p, n) => p in s.dirs && IsName(n) && Join(p, n) !in s.dirs
    case DoVisit(p) => p in s.toVisit
    case DoOpen(p) => p in s.toOpen
    case DoRead(p, q) => p in s.reading && q in Children(s.dirs, p) && q !in s.reading[p].returned
    case DoClose(p) => p in s.reading && s.reading[p].present <= s.reading[p].returned
    case DoHandle => !Walking(s) && s.queue != []
  }

  ghost function Take(s: State, a: Step): State
    requires Enabled(s, a)
  {
    match a
    case DoMkdir(p, n) => Mkdir(s, p, n)
    case DoVisit(p) => Visit(s, p)
    case DoOpen(p) => Open(s, p)
    case DoRead(p, q) => Read(s, p, q)
    case DoClose(p) => Close(s, p)
    case DoHandle => Handle(s)
  }

  // ----- the invariant

  /** The slots and the kernel's watch list say the same. */
  ghost predicate Agree(s: State) {
    s.watch.Keys <= s.dirs && SameWatches(s.slots, s.watch, s.nextWd)
  }

  ghost predicate SameWatches(slots: seq<Slot>, watch: map<string, int>, nextWd: nat) {
    && Valid(slots)
    && (forall p :: p in watch ==> 0 <= watch[p] < nextWd && HasWd(slots, watch[p]))
    && (forall p, q :: p in watch && q in watch && p != q ==> watch[p] != watch[q])
    && (forall x :: x in slots && Live(x) ==> x.path in watch && watch[x.path] == x.wd)
  }

  /** Every queued event names a watched directory and an entry that exists. */
  ghost predicate EventsKnown(s: State) {
    forall i :: 0 <= i < |s.queue| ==> EventKnown(s.watch, s.dirs, s.queue[i])
  }

  ghost predicate EventKnown(watch: map<string, int>, dirs: set<string>, ev: Event) {
    IsName(ev.name) && exists p :: p in watch && watch[p] == ev.wd && Join(p, ev.name) in dirs
  }

  lemma {:induction false} EventKnownGrows(watch: map<string, int>, dirs: set<string>, watch': map<string, int>,
                                           dirs': set<string>, ev: Event)
    requires EventKnown(watch, dirs, ev) && dirs <= dirs'
    requires forall p :: p in watch ==> p in watch' && watch'[p] == watch[p]
    ensures EventKnown(watch', dirs', ev)
  {
  }

  ghost predicate WalkKnown(s: State) {
    && s.toVisit <= s.dirs
    && s.toOpen <= s.watch.Keys
    && s.reading.Keys <= s.watch.Keys
    && forall p :: p in s.reading ==> s.reading[p].present + s.reading[p].returned <= Children(s.dirs, p)
  }

  /** Directory `q`, named `n` in the watched directory `p`, is cached or on its way. */
  ghost predicate Covered(s: State, p: string, n: string, q: string)
    requires p in s.watch
  {
    || q in s.watch
    || q in s.toVisit
    || p in s.toOpen
    || (p in s.reading && q in s.reading[p].present - s.reading[p].returned)
    || Created(s.watch[p], n) in s.queue
  }

  ghost predicate Coverage(s: State) {
    && (forall r :: r in s.roots ==> r in s.watch || r in s.toVisit)
    && (forall p, n :: p in s.watch && IsName(n) && Join(p, n) in s.dirs ==> Covered(s, p, n, Join(p, n)))
  }

  ghost predicate Inv(s: State) {
    IsTree(s.roots, s.dirs) && Agree(s) && EventsKnown(s) && WalkKnown(s) && Coverage(s) && !s.rebuilt
  }

  // ----- preservation, one step at a time

  lemma {:induction false} MkdirKeepsInv(s: State, p: string, n: string)
    requires Inv(s) && Enabled(s, DoMkdir(p, n))
    ensures Inv(Mkdir(s, p, n))
  {
    var t := Mkdir(s, p, n);
    assert IsTree(t.roots, t.dirs) by {
      forall q | q in t.dirs && q !in t.roots
        ensures exists p, n :: p in t.dirs && IsName(n) && q == Join(p, n)
      {
        if q in s.dirs {
          var p', n' :| p' in s.dirs && IsName(n') && q == Join(p', n');
          assert p' in t.dirs;
        }
      }
    }
    assert Coverage(t) by {
      forall p', n' | p' in t.watch && IsName(n') && Join(p', n') in t.dirs
        ensures Covered(t, p', n', Join(p', n'))
      {
        if Join(p', n') in s.dirs {
          assert Covered(s, p', n', Join(p', n'));
        } else {
          D.JoinInjective(p, n, p', n');
        }
      }
    }
    assert EventsKnown(t) by {
      forall i | 0 <= i < |s.queue| ensures EventKnown(t.watch, t.dirs, s.queue[i]) {
        EventKnownGrows(s.watch, s.dirs, t.watch, t.dirs, s.queue[i]);
      }
      if p in s.watch {
        assert EventKnown(t.watch, t.dirs, Created(s.watch[p], n));
      }
    }
  }

  lemma {:induction false} AddKeepsOthers(s: seq<Slot>, wd: int, path: string)
    requires wd >= 0
    ensures var r := Add(s, wd, path);
            && HasWd(r, wd)
            && (forall w :: w >= 0 && HasWd(s, w) ==> HasWd(r, w))
            && (forall x :: x in r && Live(x) ==> x == Slot(wd, path) || x in s)
  {
    var r := Add(s, wd, path);
    var e := FindWatch(s, -1);
    var k := if e >= 0 then e else |s|;
    assert r[k] == Slot(wd, path);
    forall w | w >= 0 && HasWd(s, w) ensures HasWd(r, w) {
      var i :| 0 <= i < |s| && s[i].wd == w;
      assert r[i].wd == w;
    }
    forall i | 0 <= i < |r| && Live(r[i]) ensures r[i] == Slot(wd, path) || r[i] in s {
      if i != k && i < |s| {
        assert r[i] == s[i];
      }
    }
  }

  lemma {:induction false} RevisitKeepsAgree(s: State, p: string)
    requires Agree(s) && p in s.watch
    ensures Visit(s, p).slots == s.slots && Visit(s, p).watch == s.watch
    ensures Agree(Visit(s, p))
  {
  }

  lemma {:induction false} FirstVisitKeepsAgree(s: State, p: string)
    requires Agree(s) && p in s.dirs && p !in s.watch
    ensures Agree(Visit(s, p))
  {
    var wd := s.nextWd;
    assert FindWatch(s.slots, wd) == -1 by {
      assert forall i :: 0 <= i < |s.slots| ==> s.slots[i] in s.slots;
    }
    TraverseValid(s.slots, wd, p);
    AddKeepsOthers(s.slots, wd, p);
    WatchAdded(s.slots, Traverse(s.slots, wd, p), s.watch, wd, p);
  }

  lemma {:induction false} WatchAdded(s: seq<Slot>, r: seq<Slot>, watch: map<string, int>, wd: nat, p: string)
    requires SameWatches(s, watch, wd) && p !in watch && Valid(r) && HasWd(r, wd)
    requires forall w :: w >= 0 && HasWd(s, w) ==> HasWd(r, w)
    requires forall x :: x in r && Live(x) ==> x == Slot(wd, p) || x in s
    ensures SameWatches(r, watch[p := wd], wd + 1)
  {
  }

  lemma {:induction false} VisitKeepsInv(s: State, p: string)
    requires Inv(s) && Enabled(s, DoVisit(p))
    ensures Inv(Visit(s, p))
  {
    if p in s.watch {
      RevisitKeepsAgree(s, p);
    } else {
      FirstVisitKeepsAgree(s, p);
    }
    VisitKeepsCoverage(s, p);
    VisitKeepsEvents(s, p);
  }

  lemma {:induction false} VisitKeepsEvents(s: State, p: string)
    requires EventsKnown(s)
    ensures EventsKnown(Visit(s, p))
  {
    var t := Visit(s, p);
    forall i | 0 <= i < |s.queue| ensures EventKnown(t.watch, t.dirs, s.queue[i]) {
      EventKnownGrows(s.watch, s.dirs, t.watch, t.dirs, s.queue[i]);
    }
  }

  lemma {:induction false} VisitKeepsCoverage(s: State, p: string)
    requires Coverage(s)
    ensures Coverage(Visit(s, p))
  {
  }

  lemma {:induction false} OpenKeepsInv(s: State, p: string)
    requires Inv(s) && Enabled(s, DoOpen(p))
    ensures Inv(Open(s, p))
  {
    OpenKeepsCoverage(s, p);
  }

  lemma {:induction false} OpenKeepsCoverage(s: State, p: string)
    requires Coverage(s)
    ensures Coverage(Open(s, p))
  {
    var t := Open(s, p);
    forall p', n | p' in t.watch && IsName(n) && Join(p', n) in t.dirs
      ensures Covered(t, p', n, Join(p', n))
    {
      assert Covered(s, p', n, Join(p', n));
      assert p' == p ==> Join(p', n) in Children(s.dirs, p);
    }
  }

  lemma {:induction false} ReadKeepsInv(s: State, p: string, q: string)
    requires Inv(s) && Enabled(s, DoRead(p, q))
    ensures Inv(Read(s, p, q))
  {
    ReadKeepsCoverage(s, p, q);
  }

  lemma {:induction false} ReadKeepsCoverage(s: State, p: string, q: string)
    requires Coverage(s) && p in s.reading
    ensures Coverage(Read(s, p, q))
  {
    var t := Read(s, p, q);
    forall p', n | p' in t.watch && IsName(n) && Join(p', n) in t.dirs
      ensures Covered(t, p', n, Join(p', n))
    {
      assert Covered(s, p', n, Join(p', n));
    }
  }

  lemma {:induction false} CloseKeepsInv(s: State, p: string)
    requires Inv(s) && Enabled(s, DoClose(p))
    ensures Inv(Close(s, p))
  {
  }

  lemma {:induction false} CachedIsWatched(s: State, q: string)
    requires Agree(s)
    ensures PathInCache(s.slots, q) <==> q in s.watch
  {
  }

  lemma {:induction false} HandleKeepsInv(s: State)
    requires Inv(s) && Enabled(s, DoHandle)
    ensures Inv(Handle(s))
  {
  }

  lemma {:induction false} StepKeepsInv(s: State, a: Step)
    requires Inv(s) && Enabled(s, a)
    ensures Inv(Take(s, a))
  {
    match a
    case DoMkdir(p, n) => MkdirKeepsInv(s, p, n);
    case DoVisit(p) => VisitKeepsInv(s, p);
    case DoOpen(p) => OpenKeepsInv(s, p);
    case DoRead(p, q) => ReadKeepsInv(s, p, q);
    case DoClose(p) => CloseKeepsInv(s, p);
    case DoHandle => HandleKeepsInv(s);
  }

  // ----- whole runs

  ghost predicate Reaches(s: State, steps: seq<Step>, t: State)
    decreases |steps|
  {
    if steps == [] then s == t
    else Enabled(s, steps[0]) && Reaches(Take(s, steps[0]), steps[1..], t)
  }

  lemma {:induction false} ReachedInv(s: State, steps: seq<Step>, t: State)
    requires Inv(s) && Reaches(s, steps, t)
    ensures Inv(t)
    decreases |steps|
  {
    if steps != [] {
      StepKeepsInv(s, steps[0]);
      ReachedInv(Take(s, steps[0]), steps[1..], t);
    }
  }

  /** Nothing left to do: every directory is watched, by induction on its path. */
  lemma {:induction false} QuietAllWatched(s: State, q: string)
    requires Inv(s) && s.queue == [] && !Walking(s) && q in s.dirs
    ensures q in s.watch
    decreases |q|
  {
    if q !in s.roots {
      var p, n :| p in s.dirs && IsName(n) && q == Join(p, n);
      QuietAllWatched(s, p);
      assert Covered(s, p, n, Join(p, n));
    }
  }

  /** The live cached paths are exactly `dirs`, and no path has two slots. */
  ghost predicate CacheExact(s: seq<Slot>, dirs: set<string>) {
    && (forall i :: 0 <= i < |s| && Live(s[i]) ==> s[i].path in dirs)
    && (forall q :: q in dirs ==> PathInCache(s, q))
    && (forall i, j :: 0 <= i < |s| && 0 <= j < |s| && i != j && Live(s[i]) && Live(s[j]) ==> s[i].path != s[j].path)
  }

  lemma {:induction false} QuietExact(s: State)
    requires Inv(s) && s.queue == [] && !Walking(s)
    ensures CacheExact(s.slots, s.dirs)
  {
    forall q | q in s.dirs ensures PathInCache(s.slots, q) {
      QuietAllWatched(s, q);
      CachedIsWatched(s, q);
    }
  }

  /** Main result: in every run the rebuild is never taken, and whenever the event
      queue is empty and no walk is running the cache is exact. */
  lemma {:induction false} CacheConverges(s: State, steps: seq<Step>, t: State)
    requires Init(s) && Reaches(s, steps, t)
    ensures !t.rebuilt
    ensures t.queue == [] && !Walking(t) ==> CacheExact(t.slots, t.dirs)
  {
    ReachedInv(s, steps, t);
    if t.queue == [] && !Walking(t) {
      QuietExact(t);
    }
  }
}
