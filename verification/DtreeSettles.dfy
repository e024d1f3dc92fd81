/** inotify_dtree.c comes to rest: when no more directories are created, every schedule
    of walk steps and event handling ends after finitely many steps, and then the
    cache is exact. */
module DtreeSettles {
  import opened WatchCache
  import opened DtreeSync
  import D = DirTree

  // ----- sums over sets of directories

  ghost function Sum(s: set<string>, f: string -> nat): nat {
    if s == {} then 0 else
      var x :| x in s;
      f(x) + Sum(s - {x}, f)
  }

  lemma {:induction false} SumRemove(s: set<string>, f: string -> nat, x: string)
    requires x in s
    ensures Sum(s, f) == f(x) + Sum(s - {x}, f)
    decreases |s|
  {
    var y :| y in s && Sum(s, f) == f(y) + Sum(s - {y}, f);
    if y != x {
      SumRemove(s - {y}, f, x);
      SumRemove(s - {x}, f, y);
      assert s - {y} - {x} == s - {x} - {y};
    }
  }

  lemma {:induction false} SumAdd(s: set<string>, f: string -> nat, x: string)
    ensures Sum(s + {x}, f) <= Sum(s, f) + f(x)
  {
    if x in s {
      assert s + {x} == s;
    } else {
      SumRemove(s + {x}, f, x);
      assert s + {x} - {x} == s;
    }
  }

  // ----- the size of a subtree

  ghost function Below(dirs: set<string>, p: string): set<string> { set q | q in dirs && AtOrBelow(p, q) }

  /** Two entries of one directory have nothing below both. */
  lemma {:induction false} SiblingsApart(p: string, n: string, m: string, q: string)
    requires IsName(n) && IsName(m) && AtOrBelow(Join(p, n), q) && AtOrBelow(Join(p, m), q)
    ensures n == m
  {
    var a, b := |p| + 1 + |n|, |p| + 1 + |m|;
    assert Join(p, n) == q[..a] && Join(p, m) == q[..b];
    assert n == q[|p|+1..a] && m == q[|p|+1..b];
    assert forall k :: |p| < k < a ==> q[k] == n[k - |p| - 1] && n[k - |p| - 1] in n;
    assert forall k :: |p| < k < b ==> q[k] == m[k - |p| - 1] && m[k - |p| - 1] in m;
    assert a < |q| ==> q[a] == '/';
    assert b < |q| ==> q[b] == '/';
  }

  ghost function BelowAny(dirs: set<string>, cs: set<string>): set<string> {
    set q | q in dirs && exists c :: c in cs && AtOrBelow(c, q)
  }

  lemma {:induction false} OtherEntriesApart(dirs: set<string>, p: string, rest: set<string>, c: string)
    requires rest <= Children(dirs, p) && c in Children(dirs, p) && c !in rest
    ensures BelowAny(dirs, rest) !! Below(dirs, c)
  {
    forall q | q in BelowAny(dirs, rest) ensures q !in Below(dirs, c) {
      var d :| d in rest && AtOrBelow(d, q);
      var n :| IsName(n) && c == Join(p, n);
      var m :| IsName(m) && d == Join(p, m);
      if AtOrBelow(c, q) {
        SiblingsApart(p, n, m, q);
      }
    }
  }

  lemma {:induction false} EntriesInside(dirs: set<string>, p: string, cs: set<string>)
    requires p in dirs && cs <= Children(dirs, p)
    ensures |BelowAny(dirs, cs)| < |Below(dirs, p)|
  {
    forall q | q in BelowAny(dirs, cs) ensures q in Below(dirs, p) && q != p {
      var c :| c in cs && AtOrBelow(c, q);
      var n :| IsName(n) && c == Join(p, n);
      assert AtOrBelow(p, c) && |c| > |p|;
      D.BelowTrans(p, c, q);
    }
    SubsetSize(BelowAny(dirs, cs), Below(dirs, p) - {p});
  }

  lemma {:induction false} SubsetSize(a: set<string>, b: set<string>)
    requires a <= b
    ensures |a| <= |b|
    decreases |b|
  {
    if b != {} {
      var x :| x in b;
      SubsetSize(a - {x}, b - {x});
      assert |a| <= |a - {x}| + 1;
    }
  }

  // ----- the work of a walk

  lemma {:induction false} SumSame(s: set<string>, f: string -> nat, g: string -> nat)
    requires forall x :: x in s ==> f(x) == g(x)
    ensures Sum(s, f) == Sum(s, g)
    decreases |s|
  {
    if s != {} {
      var x :| x in s;
      SumRemove(s, f, x);
      SumRemove(s, g, x);
      SumSame(s - {x}, f, g);
    }
  }

  ghost function Minus(a: nat, b: nat): nat { if a >= b then a - b else 0 }

  /** To be returned by its parent, visited, opened and closed are four units for each
      directory of a subtree; `done` of them are behind the directory itself. */
  ghost function Size(dirs: set<string>, p: string, done: nat): nat { Minus(4 * |Below(dirs, p)|, done) }

  ghost function Weight(dirs: set<string>, done: nat): string -> nat { p => Size(dirs, p, done) }

  /** While a directory is read, the entries already returned count for themselves. */
  ghost function ReadSize(dirs: set<string>, p: string, returned: set<string>): nat {
    Minus(Size(dirs, p, 3), 4 * |BelowAny(dirs, returned)|)
  }

  ghost function ReadWeight(dirs: set<string>, reading: map<string, Listing>): string -> nat {
    p => if p in reading then ReadSize(dirs, p, reading[p].returned) else 0
  }

  ghost function WalkWork(s: State): nat {
    Sum(s.toVisit, Weight(s.dirs, 1)) + Sum(s.toOpen, Weight(s.dirs, 2))
    + Sum(s.reading.Keys, ReadWeight(s.dirs, s.reading))
  }

  lemma {:induction false} SizeOf(dirs: set<string>, p: string, done: nat)
    requires p in dirs && done <= 3
    ensures Size(dirs, p, done) == 4 * |Below(dirs, p)| - done > 0
  {
    assert p in Below(dirs, p);
  }

  lemma {:induction false} ReadSizeOf(dirs: set<string>, p: string, returned: set<string>)
    requires p in dirs && returned <= Children(dirs, p)
    ensures ReadSize(dirs, p, returned) == 4 * |Below(dirs, p)| - 3 - 4 * |BelowAny(dirs, returned)| > 0
  {
    EntriesInside(dirs, p, returned);
    SizeOf(dirs, p, 3);
  }

  /** Changing what one directory has returned changes the sum by that directory. */
  lemma {:induction false} ReadingChanges(dirs: set<string>, r: map<string, Listing>, p: string, l: Listing)
    ensures Sum(r[p := l].Keys, ReadWeight(dirs, r[p := l])) ==
            Sum(r.Keys - {p}, ReadWeight(dirs, r)) + ReadSize(dirs, p, l.returned)
  {
    var u := r[p := l];
    SumRemove(u.Keys, ReadWeight(dirs, u), p);
    assert u.Keys - {p} == r.Keys - {p};
    SumSame(r.Keys - {p}, ReadWeight(dirs, u), ReadWeight(dirs, r));
  }

  lemma {:induction false} VisitWorks(s: State, p: string)
    requires Inv(s) && Enabled(s, DoVisit(p))
    ensures WalkWork(Visit(s, p)) < WalkWork(s)
  {
    SumRemove(s.toVisit, Weight(s.dirs, 1), p);
    SumAdd(s.toOpen, Weight(s.dirs, 2), p);
    SizeOf(s.dirs, p, 1);
    SizeOf(s.dirs, p, 2);
  }

  lemma {:induction false} OpenWorks(s: State, p: string)
    requires Inv(s) && Enabled(s, DoOpen(p))
    ensures WalkWork(Open(s, p)) < WalkWork(s)
  {
    SumRemove(s.toOpen, Weight(s.dirs, 2), p);
    SizeOf(s.dirs, p, 2);
    ReadSizeOf(s.dirs, p, {});
    ReadingChanges(s.dirs, s.reading, p, Listing(Children(s.dirs, p), {}));
    SumDrop(s.reading.Keys, ReadWeight(s.dirs, s.reading), p);
  }

  lemma {:induction false} SumDrop(s: set<string>, f: string -> nat, x: string)
    ensures Sum(s - {x}, f) <= Sum(s, f)
  {
    if x in s {
      SumRemove(s, f, x);
    } else {
      assert s - {x} == s;
    }
  }

  /** A newly returned entry takes its own subtree out of what is left of the parent. */
  lemma {:induction false} ReadSizeFalls(dirs: set<string>, p: string, returned: set<string>, q: string)
    requires p in dirs && returned <= Children(dirs, p) && q in Children(dirs, p) && q !in returned
    ensures ReadSize(dirs, p, returned + {q}) + 4 * |Below(dirs, q)| == ReadSize(dirs, p, returned)
  {
    OneMoreEntry(dirs, p, returned, q);
    ReadSizeOf(dirs, p, returned);
    ReadSizeOf(dirs, p, returned + {q});
  }

  lemma {:induction false} OneMoreEntry(dirs: set<string>, p: string, returned: set<string>, q: string)
    requires returned <= Children(dirs, p) && q in Children(dirs, p) && q !in returned
    ensures |BelowAny(dirs, returned + {q})| == |BelowAny(dirs, returned)| + |Below(dirs, q)|
  {
    OtherEntriesApart(dirs, p, returned, q);
    BelowUnion(dirs, returned, q);
  }

  lemma {:induction false} BelowUnion(dirs: set<string>, cs: set<string>, q: string)
    ensures BelowAny(dirs, cs + {q}) == BelowAny(dirs, cs) + Below(dirs, q)
  {
  }

  lemma {:induction false} ReadWorks(s: State, p: string, q: string)
    requires Inv(s) && Enabled(s, DoRead(p, q))
    ensures WalkWork(Read(s, p, q)) < WalkWork(s)
  {
    var l := s.reading[p];
    SumAdd(s.toVisit, Weight(s.dirs, 1), q);
    SizeOf(s.dirs, q, 1);
    ReadSizeFalls(s.dirs, p, l.returned, q);
    SumRemove(s.reading.Keys, ReadWeight(s.dirs, s.reading), p);
    ReadingChanges(s.dirs, s.reading, p, Listing(l.present, l.returned + {q}));
  }

  lemma {:induction false} CloseWorks(s: State, p: string)
    requires Inv(s) && Enabled(s, DoClose(p))
    ensures WalkWork(Close(s, p)) < WalkWork(s)
  {
    var r := s.reading - {p};
    assert r.Keys == s.reading.Keys - {p};
    SumRemove(s.reading.Keys, ReadWeight(s.dirs, s.reading), p);
    SumSame(r.Keys, ReadWeight(s.dirs, r), ReadWeight(s.dirs, s.reading));
    ReadSizeOf(s.dirs, p, s.reading[p].returned);
  }

  /** Every step of the walk leaves the queue alone and shortens the work. */
  lemma {:induction false} WalkStepShrinks(s: State, a: Step)
    requires Inv(s) && Enabled(s, a) && !a.DoMkdir? && !a.DoHandle?
    ensures var t := Take(s, a);
            t.dirs == s.dirs && t.queue == s.queue && WalkWork(t) < WalkWork(s)
  {
    match a
    case DoVisit(p) => VisitWorks(s, p);
    case DoOpen(p) => OpenWorks(s, p);
    case DoRead(p, q) => ReadWorks(s, p, q);
    case DoClose(p) => CloseWorks(s, p);
  }

  ghost predicate Quiet(s: State) { s.queue == [] && !Walking(s) }

  /** The program is never stuck before it is quiet. */
  lemma {:induction false} NeverStuck(s: State) returns (a: Step)
    requires Inv(s) && !Quiet(s)
    ensures Enabled(s, a) && !a.DoMkdir?
  {
    if s.toVisit != {} {
      var p :| p in s.toVisit;
      a := DoVisit(p);
    } else if s.toOpen != {} {
      var p :| p in s.toOpen;
      a := DoOpen(p);
    } else if s.reading != map[] {
      var p :| p in s.reading;
      a := DoClose(p);
      if !(s.reading[p].present <= s.reading[p].returned) {
        var q :| q in s.reading[p].present && q !in s.reading[p].returned;
        a := DoRead(p, q);
      }
    } else {
      a := DoHandle;
    }
  }

  // ----- every run ends

  /** An upper bound on the steps that are left: each queued event may start a walk of
      the whole tree. */
  ghost function Budget(s: State): nat { Bound(|s.queue|, |s.dirs|, WalkWork(s)) }

  ghost function Bound(events: nat, dirs: nat, work: nat): nat { events * (4 * dirs + 1) + work }

  /** After an event is taken from the queue at most one directory waits to be walked. */
  lemma {:induction false} HandleStartsOneWalk(s: State)
    requires Inv(s) && Enabled(s, DoHandle)
    ensures var t := Handle(s);
            |t.queue| == |s.queue| - 1 && t.dirs == s.dirs && WalkWork(t) <= 4 * |s.dirs|
  {
    HandleKeepsInv(s);
    var t := Handle(s);
    assert t.reading.Keys == {} && t.toOpen == {};
    if t.toVisit != {} {
      var p :| t.toVisit == {p};
      SumRemove({p}, Weight(s.dirs, 1), p);
      SubsetSize(Below(s.dirs, p), s.dirs);
    }
  }

  lemma {:induction false} OneEventLess(events: nat, dirs: nat, before: nat, after: nat)
    requires events > 0 && after <= 4 * dirs
    ensures Bound(events - 1, dirs, after) < Bound(events, dirs, before)
  {
    assert events * (4 * dirs + 1) == (events - 1) * (4 * dirs + 1) + (4 * dirs + 1);
  }

  lemma {:induction false} HandleShrinks(s: State)
    requires Inv(s) && Enabled(s, DoHandle)
    ensures Handle(s).dirs == s.dirs && Budget(Handle(s)) < Budget(s)
  {
    HandleStartsOneWalk(s);
    OneEventLess(|s.queue|, |s.dirs|, WalkWork(s), WalkWork(Handle(s)));
  }

  /** Every step of the program, walk or event, shortens what is left to do. */
  lemma {:induction false} ProgramStepShrinks(s: State, a: Step)
    requires Inv(s) && Enabled(s, a) && !a.DoMkdir?
    ensures Take(s, a).dirs == s.dirs && Budget(Take(s, a)) < Budget(s)
  {
    if a.DoHandle? {
      HandleShrinks(s);
    } else {
      WalkStepShrinks(s, a);
      LessWork(s, Take(s, a));
    }
  }

  lemma {:induction false} LessWork(s: State, t: State)
    requires t.queue == s.queue && t.dirs == s.dirs && WalkWork(t) < WalkWork(s)
    ensures Budget(t) < Budget(s)
  {
  }

  /** Main result: from any point of any run, once creation stops, every schedule of the
      program uses up a fixed budget, never rebuilds, and can only stop in a quiet state,
      where the cache is exact. */
  lemma {:induction false} EveryScheduleSettles(s: State, steps: seq<Step>, t: State)
    requires Inv(s) && Reaches(s, steps, t) && forall i :: 0 <= i < |steps| ==> !steps[i].DoMkdir?
    ensures |steps| + Budget(t) <= Budget(s)
    ensures t.dirs == s.dirs && !t.rebuilt
    ensures (forall a :: Enabled(t, a) ==> a.DoMkdir?) ==> Quiet(t) && CacheExact(t.slots, s.dirs)
    decreases |steps|
  {
    if steps == [] {
      StopsOnlyWhenQuiet(s);
    } else {
      StepKeepsInv(s, steps[0]);
      ProgramStepShrinks(s, steps[0]);
      EveryScheduleSettles(Take(s, steps[0]), steps[1..], t);
    }
  }

  lemma {:induction false} StopsOnlyWhenQuiet(s: State)
    requires Inv(s)
    ensures (forall a :: Enabled(s, a) ==> a.DoMkdir?) ==> Quiet(s) && CacheExact(s.slots, s.dirs)
  {
    if Quiet(s) {
      QuietExact(s);
    } else {
      var a := NeverStuck(s);
    }
  }
}
