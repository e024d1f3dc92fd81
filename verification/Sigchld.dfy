/** multi_SIGCHLD.c: reaping any number of children although SIGCHLD is not queued. The
    signal is blocked except inside sigsuspend(), and also while the handler runs. */
module Sigchld {
  import opened Counting

  datatype Child = Unborn | Running | Zombie | Reaped

  /** Forking; at the loop test; in sigsuspend(); in the handler's waitpid() loop; in
      the rest of the handler; finished. */
  datatype Pc = Forking | Test | Suspended | Waiting | Returning | Finished

  datatype State = State(children: seq<Child>, live: int, pending: bool, pc: Pc, sigCnt: nat, delivered: nat)

  datatype Step =
    | Exit(c: nat)      // a child terminates
    | Fork(c: nat)
    | AllForked
    | Check             // while (numLiveChildren > 0)
    | Deliver           // sigsuspend() lets the pending signal in
    | Reap(c: nat)      // waitpid() returns a dead child
    | NoMore            // waitpid() returns 0, or -1 with ECHILD
    | Return            // the handler, and with it sigsuspend(), returns

  /** numLiveChildren is set before the first fork(). */
  ghost predicate Init(s: State) {
    && (forall c :: 0 <= c < |s.children| ==> s.children[c] == Unborn)
    && s.live == |s.children| && !s.pending && s.pc == Forking && s.sigCnt == 0 && s.delivered == 0
  }

  ghost predicate Is(s: State, c: nat, x: Child) { c < |s.children| && s.children[c] == x }

  ghost predicate Enabled(s: State, a: Step) {
    match a
    case Exit(c) => Is(s, c, Running)
    case Fork(c) => s.pc == Forking && Is(s, c, Unborn)
    case AllForked => s.pc == Forking && Unborn !in s.children
    case Check => s.pc == Test
    case Deliver => s.pc == Suspended && s.pending
    case Reap(c) => s.pc == Waiting && Is(s, c, Zombie)
    case NoMore => s.pc == Waiting && Zombie !in s.children
    case Return => s.pc == Returning
  }

  ghost function Take(s: State, a: Step): State
    requires Enabled(s, a)
  {
    match a
    case Exit(c) => s.(children := s.children[c := Zombie], pending := true)
    case Fork(c) => s.(children := s.children[c := Running])
    case AllForked => s.(pc := Test)
    case Check => s.(pc := if s.live > 0 then Suspended else Finished)
    case Deliver => s.(pc := Waiting, pending := false, delivered := s.delivered + 1)
    case Reap(c) => s.(children := s.children[c := Reaped], live := s.live - 1)
    case NoMore => s.(pc := Returning)
    case Return => s.(pc := Test, sigCnt := s.sigCnt + 1)
  }

  /** How far a child has come. */
  ghost function Rank(x: Child): nat { match x case Unborn => 0 case Running => 1 case Zombie => 2 case Reaped => 3 }

  ghost function Deaths(s: State): nat { Count(s.children, Zombie) + Count(s.children, Reaped) }

  ghost predicate Inv(s: State) {
    // the counter is exact
    && s.live == Count(s.children, Unborn) + Count(s.children, Running) + Count(s.children, Zombie)
    // a dead child that is not reaped has a signal pending or a handler at work
    && (Count(s.children, Zombie) > 0 ==> s.pending || s.pc == Waiting)
    && (s.pc != Forking ==> Count(s.children, Unborn) == 0)
    && (s.pc == Suspended ==> s.live > 0)
    && (s.pc == Finished ==> s.live == 0)
    // each delivery is paid for by a death of its own
    && s.delivered + (if s.pending then 1 else 0) <= Deaths(s)
    && s.delivered == s.sigCnt + (if s.pc == Waiting || s.pc == Returning then 1 else 0)
  }

  lemma {:induction false} CountTotal(cs: seq<Child>)
    ensures Count(cs, Unborn) + Count(cs, Running) + Count(cs, Zombie) + Count(cs, Reaped) == |cs|
  {
    if cs != [] {
      CountTotal(cs[..|cs|-1]);
      forall x: Child ensures Count(cs, x) == Count(cs[..|cs|-1], x) + if cs[|cs|-1] == x then 1 else 0 {
      }
    }
  }

  lemma {:induction false} StepKeepsInv(s: State, a: Step)
    requires Inv(s) && Enabled(s, a)
    ensures Inv(Take(s, a))
  {
    CountZero(s.children, Unborn);
    CountZero(s.children, Zombie);
    if a.Exit? || a.Fork? || a.Reap? {
      var to := if a.Exit? then Zombie else if a.Fork? then Running else Reaped;
      CountUpdate(s.children, a.c, to, Unborn);
      CountUpdate(s.children, a.c, to, Running);
      CountUpdate(s.children, a.c, to, Zombie);
      CountUpdate(s.children, a.c, to, Reaped);
    }
  }

  ghost predicate Reaches(s: State, steps: seq<Step>, t: State)
    decreases |steps|
  {
    if steps == [] then s == t
    else Enabled(s, steps[0]) && Reaches(Take(s, steps[0]), steps[1..], t)
  }

  lemma {:induction false} RunKeepsInv(s: State, steps: seq<Step>, t: State)
    requires Inv(s) && Reaches(s, steps, t)
    ensures Inv(t) && |t.children| == |s.children|
    decreases |steps|
  {
    if steps != [] {
      StepKeepsInv(s, steps[0]);
      RunKeepsInv(Take(s, steps[0]), steps[1..], t);
    }
  }

  lemma {:induction false} AllUnborn(cs: seq<Child>)
    requires forall c :: 0 <= c < |cs| ==> cs[c] == Unborn
    ensures Count(cs, Unborn) == |cs|
  {
    if cs != [] {
      AllUnborn(cs[..|cs|-1]);
    }
  }

  /** Main result, for every number of children and every timing of their deaths: at
      each sigsuspend() an unreaped dead child has its signal pending, and otherwise a
      running child is still to die, so the parent never sleeps forever; the counter
      is the number of children not yet reaped; handlers run at most once per child;
      and when the program ends every child has been reaped. */
  lemma {:induction false} EveryChildReaped(s: State, steps: seq<Step>, t: State)
    requires Init(s) && Reaches(s, steps, t)
    ensures t.pc == Suspended && Zombie in t.children ==> t.pending
    ensures t.pc == Suspended && !t.pending ==> Running in t.children
    ensures t.live == |t.children| - Count(t.children, Reaped)
    ensures t.sigCnt <= t.delivered <= |s.children|
    ensures t.pc == Finished ==> forall c :: 0 <= c < |t.children| ==> t.children[c] == Reaped
  {
    AllUnborn(s.children);
    CountTotal(s.children);
    RunKeepsInv(s, steps, t);
    CountTotal(t.children);
    CountZero(t.children, Unborn);
    CountZero(t.children, Running);
    CountZero(t.children, Zombie);
    assert forall c :: 0 <= c < |t.children| ==> t.children[c] in t.children;
  }

  /** Sum over the children of what is left of their lives. */
  ghost function Left(cs: seq<Child>): nat {
    if cs == [] then 0 else Left(cs[..|cs|-1]) + 3 - Rank(cs[|cs|-1])
  }

  lemma {:induction false} LeftUpdate(cs: seq<Child>, c: nat, to: Child)
    requires c < |cs|
    ensures Left(cs[c := to]) == Left(cs) + Rank(cs[c]) - Rank(to)
  {
    var n := |cs| - 1;
    if c < n {
      LeftUpdate(cs[..n], c, to);
      assert cs[c := to][..n] == cs[..n][c := to];
    } else {
      assert cs[c := to][..n] == cs[..n];
    }
  }

  ghost function Budget(s: State): nat {
    8 * Left(s.children) + (if s.pending then 6 else 0)
    + match s.pc
      case Forking => 7
      case Test => 6
      case Suspended => 5
      case Waiting => 9
      case Returning => 7
      case Finished => 0
  }

  /** Every step uses up some of a finite budget and moves children only forward. */
  lemma {:induction false} StepCosts(s: State, a: Step)
    requires Inv(s) && Enabled(s, a)
    ensures Budget(Take(s, a)) < Budget(s)
    ensures forall c :: 0 <= c < |s.children| ==> Rank(s.children[c]) <= Rank(Take(s, a).children[c])
  {
    match a
    case Exit(c) => LeftUpdate(s.children, c, Zombie);
    case Fork(c) => LeftUpdate(s.children, c, Running);
    case Reap(c) => LeftUpdate(s.children, c, Reaped);
    case _ =>
  }

  /** Until the program has finished, some step is always possible. */
  lemma {:induction false} NeverStuck(s: State) returns (a: Step)
    requires Inv(s) && s.pc != Finished
    ensures Enabled(s, a)
  {
    match s.pc
    case Forking =>
      a := AllForked;
      if Unborn in s.children {
        var c: nat :| c < |s.children| && s.children[c] == Unborn;
        a := Fork(c);
      }
    case Test => a := Check;
    case Suspended =>
      a := Deliver;
      if !s.pending {
        CountZero(s.children, Running);
        var c: nat :| c < |s.children| && s.children[c] == Running;
        a := Exit(c);
      }
    case Waiting =>
      a := NoMore;
      if Zombie in s.children {
        var c: nat :| c < |s.children| && s.children[c] == Zombie;
        a := Reap(c);
      }
    case Returning => a := Return;
  }

  /** How often a run reaps child `c`. */
  ghost function Reaps(steps: seq<Step>, c: nat): nat
    decreases |steps|
  {
    if steps == [] then 0 else (if steps[0] == Reap(c) then 1 else 0) + Reaps(steps[1..], c)
  }

  ghost function IsReaped(s: State, c: nat): nat { if Is(s, c, Reaped) then 1 else 0 }

  /** Every run is at most as long as the budget it starts with, and reaps a child once
      if it ends up reaped and never otherwise. */
  lemma {:induction false} EveryRunEnds(s: State, steps: seq<Step>, t: State, c: nat)
    requires Inv(s) && Reaches(s, steps, t)
    ensures |steps| + Budget(t) <= Budget(s)
    ensures IsReaped(s, c) + Reaps(steps, c) == IsReaped(t, c)
    decreases |steps|
  {
    if steps != [] {
      StepKeepsInv(s, steps[0]);
      StepCosts(s, steps[0]);
      EveryRunEnds(Take(s, steps[0]), steps[1..], t, c);
    }
  }

  /** A run that cannot go on has finished with every child reaped. */
  lemma {:induction false} StuckMeansAllReaped(s: State)
    requires Inv(s) && forall a: Step :: !Enabled(s, a)
    ensures s.pc == Finished && forall c :: 0 <= c < |s.children| ==> s.children[c] == Reaped
  {
    if s.pc != Finished {
      var a := NeverStuck(s);
    }
    CountZero(s.children, Unborn);
    CountZero(s.children, Running);
    CountZero(s.children, Zombie);
    assert forall c :: 0 <= c < |s.children| ==> s.children[c] in s.children;
  }
}
