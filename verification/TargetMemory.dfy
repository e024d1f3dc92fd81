/** getTargetPathname() of seccomp_functions.c: the supervisor reads the memory of a
    process that is blocked in a notified system call, while that process may be
    interrupted or die and its PID may be reused, at any moment between two steps. */
module TargetMemory {

  /** Processes have an identity that is never reused, unlike PIDs. `blocked` maps each
      valid notification ID to the process that waits for the answer. */
  datatype Kernel = Kernel(
    pids: map<int, nat>,
    blocked: map<nat, nat>,
    nextProc: nat,
    nextId: nat,
    mem: map<nat, seq<int>>)

  /** The notification: its ID and PID, the address of the argument and the size of
      the caller's buffer. `owner` is the process that made the call. */
  datatype Request = Request(id: nat, pid: int, owner: nat, addr: nat, len: nat)

  const GTP_BAD_READ := -1
  const GTP_ID_NOT_VALID := -2
  const GTP_BAD_PATH := -3

  /** Where the function is; `proc` is the process behind /proc/PID/mem. */
  datatype Pc =
    | Opening
    | FirstCheck(proc: nat)
    | Reading(proc: nat, got: seq<int>)
    | SecondCheck(got: seq<int>)
    | Done(result: int, path: seq<int>)

  datatype State = State(k: Kernel, pc: Pc)

  datatype Step =
    // the rest of the system
    | Interrupt(id: nat)
    | Die(pid: int)
    | Spawn(pid: int, image: seq<int>)
    | NewCall(pid: int)
    | Write(proc: nat, image: seq<int>)
    // the supervisor
    | DoOpen
    | DoFirstCheck
    | ReadByte
    | ReadEnd
    | DoSecondCheck

  ghost predicate Enabled(q: Request, s: State, a: Step) {
    match a
    case Interrupt(id) => id in s.k.blocked
    case Die(pid) => pid in s.k.pids
    case Spawn(pid, _) => pid !in s.k.pids
    case NewCall(pid) => pid in s.k.pids
    case Write(proc, _) => proc in s.k.mem
    case DoOpen => s.pc.Opening?
    case DoFirstCheck => s.pc.FirstCheck?
    case ReadByte =>
      s.pc.Reading? && |s.pc.got| < q.len && s.pc.proc in s.k.mem && q.addr + |s.pc.got| < |s.k.mem[s.pc.proc]|
    case ReadEnd => s.pc.Reading?
    case DoSecondCheck => s.pc.SecondCheck?
  }

  ghost function Take(q: Request, s: State, a: Step): State
    requires Enabled(q, s, a)
  {
    var k := s.k;
    match a
    case Interrupt(id) => s.(k := k.(blocked := k.blocked - {id}))
    case Die(pid) =>
      var p := k.pids[pid];
      s.(k := k.(pids := k.pids - {pid}, mem := k.mem - {p},
                 blocked := map id | id in k.blocked && k.blocked[id] != p :: k.blocked[id]))
    case Spawn(pid, image) =>
      s.(k := k.(pids := k.pids[pid := k.nextProc], mem := k.mem[k.nextProc := image], nextProc := k.nextProc + 1))
    case NewCall(pid) => s.(k := k.(blocked := k.blocked[k.nextId := k.pids[pid]], nextId := k.nextId + 1))
    case Write(proc, image) => s.(k := k.(mem := k.mem[proc := image]))
    case DoOpen =>
      s.(pc := if q.pid in k.pids then FirstCheck(k.pids[q.pid]) else Done(GTP_BAD_READ, []))
    case DoFirstCheck =>
      s.(pc := if q.id in k.blocked then Reading(s.pc.proc, []) else Done(GTP_ID_NOT_VALID, []))
    case ReadByte =>
      s.(pc := Reading(s.pc.proc, s.pc.got + [k.mem[s.pc.proc][q.addr + |s.pc.got|]]))
    case ReadEnd =>
      s.(pc := if s.pc.got == [] then Done(GTP_BAD_READ, []) else SecondCheck(s.pc.got))
    case DoSecondCheck =>
      s.(pc := if q.id !in k.blocked then Done(GTP_ID_NOT_VALID, s.pc.got)
               else if 0 in s.pc.got then Done(0, s.pc.got)
               else Done(GTP_BAD_PATH, s.pc.got))
  }

  /** The request was received: while its ID is valid, its owner waits under its PID. */
  ghost predicate Init(q: Request, s: State) { s.pc.Opening? && Sound(q, s.k) }

  ghost predicate Sound(q: Request, k: Kernel) {
    && q.id < k.nextId
    && (forall id :: id in k.blocked ==> id < k.nextId)
    && (q.id in k.blocked ==> k.blocked[q.id] == q.owner && q.pid in k.pids && k.pids[q.pid] == q.owner)
    && (forall pid :: pid in k.pids ==> k.pids[pid] < k.nextProc)
    && (forall x, y :: x in k.pids && y in k.pids && x != y ==> k.pids[x] != k.pids[y])
  }

  /** While the ID is valid, an open memory descriptor is the owner's; a pathname that
      is returned is terminated; "not valid" is never reported of a valid ID. */
  ghost predicate Inv(q: Request, s: State) {
    && Sound(q, s.k)
    && (s.pc.FirstCheck? || s.pc.Reading? ==> q.id in s.k.blocked ==> s.pc.proc == q.owner)
    && (s.pc.Done? && s.pc.result == 0 ==> 0 in s.pc.path)
    && (s.pc.Done? && s.pc.result == GTP_ID_NOT_VALID ==> q.id !in s.k.blocked)
  }

  lemma {:induction false} StepKeepsInv(q: Request, s: State, a: Step)
    requires Inv(q, s) && Enabled(q, s, a)
    ensures Inv(q, Take(q, s, a))
    ensures q.id in Take(q, s, a).k.blocked ==> q.id in s.k.blocked
  {
  }

  // ----- runs

  /** `run` is a sequence of states, each reached from the one before by `steps`. */
  ghost predicate IsRun(q: Request, run: seq<State>, steps: seq<Step>) {
    && |run| == |steps| + 1 && Init(q, run[0])
    && forall i :: 0 <= i < |steps| ==> Enabled(q, run[i], steps[i]) && run[i+1] == Take(q, run[i], steps[i])
  }

  lemma {:induction false} RunInv(q: Request, run: seq<State>, steps: seq<Step>, i: nat)
    requires IsRun(q, run, steps) && i < |run|
    ensures Inv(q, run[i])
  {
    if i > 0 {
      RunInv(q, run, steps, i-1);
      StepKeepsInv(q, run[i-1], steps[i-1]);
    }
  }

  /** A notification ID that has become invalid never becomes valid again. */
  lemma {:induction false} ValidNowValidBefore(q: Request, run: seq<State>, steps: seq<Step>, i: nat, j: nat)
    requires IsRun(q, run, steps) && i <= j < |run| && q.id in run[j].k.blocked
    ensures q.id in run[i].k.blocked
    decreases j
  {
    if i < j {
      BlockedBefore(q, run, steps, j-1);
      ValidNowValidBefore(q, run, steps, i, j-1);
    }
  }

  lemma {:induction false} BlockedBefore(q: Request, run: seq<State>, steps: seq<Step>, j: nat)
    requires IsRun(q, run, steps) && j + 1 < |run| && q.id in run[j+1].k.blocked
    ensures q.id in run[j].k.blocked
  {
    RunInv(q, run, steps, j);
    StepKeepsInv(q, run[j], steps[j]);
  }

  /** The program never goes back: once past a point it stays past it. */
  ghost function Stage(pc: Pc): nat {
    match pc
    case Opening => 0
    case FirstCheck(_) => 1
    case Reading(_, _) => 2
    case SecondCheck(_) => 3
    case Done(_, _) => 4
  }

  lemma {:induction false} StageGrows(q: Request, run: seq<State>, steps: seq<Step>, i: nat, j: nat)
    requires IsRun(q, run, steps) && i <= j < |run|
    ensures Stage(run[i].pc) <= Stage(run[j].pc)
    ensures Stage(run[i].pc) == 4 ==> run[i].pc == run[j].pc
    decreases j
  {
    if i < j {
      StageGrows(q, run, steps, i, j-1);
      assert run[j] == Take(q, run[j-1], steps[j-1]);
    }
  }

  /** Success comes from a second check that found the ID valid. */
  lemma {:induction false} SuccessMoment(q: Request, run: seq<State>, steps: seq<Step>, n: nat) returns (m: nat)
    requires IsRun(q, run, steps) && n < |run| && run[n].pc.Done? && run[n].pc.result == 0
    ensures m < n && run[m].pc.SecondCheck? && run[m].pc.got == run[n].pc.path && q.id in run[m].k.blocked
  {
    m := n - 1;
    assert run[n] == Take(q, run[n-1], steps[n-1]);
    if run[n-1].pc.Done? {
      m := SuccessMoment(q, run, steps, n-1);
    }
  }

  /** Main result. If the function has returned 0, then the bytes it returns contain a
      terminator, and at every moment of the read, from the first check to the last
      byte, the descriptor was that of the notified process and that process was
      still blocked in the notified call. */
  lemma {:induction false} SuccessMeansBlockedOwner(q: Request, run: seq<State>, steps: seq<Step>, n: nat)
    requires IsRun(q, run, steps) && n < |run| && run[n].pc.Done? && run[n].pc.result == 0
    ensures 0 in run[n].pc.path
    ensures forall i :: 0 <= i <= n && run[i].pc.Reading? ==>
              q.id in run[i].k.blocked && run[i].k.blocked[q.id] == q.owner && run[i].pc.proc == q.owner
  {
    RunInv(q, run, steps, n);
    var m := SuccessMoment(q, run, steps, n);
    forall i | 0 <= i <= n && run[i].pc.Reading?
      ensures q.id in run[i].k.blocked && run[i].k.blocked[q.id] == q.owner && run[i].pc.proc == q.owner
    {
      if i > m {
        StageGrows(q, run, steps, m, i);
      } else {
        ValidNowValidBefore(q, run, steps, i, m);
      }
      RunInv(q, run, steps, i);
    }
  }

  /** Every byte of a returned pathname is a byte of the owner's memory at the argument
      address, read at a moment at which the owner was blocked. */
  lemma {:induction false} BytesAreOwners(q: Request, run: seq<State>, steps: seq<Step>, n: nat, b: nat)
    requires IsRun(q, run, steps) && n < |run| && run[n].pc.Done? && run[n].pc.result == 0
    requires b < |run[n].pc.path|
    ensures exists i :: 0 <= i < n && q.id in run[i].k.blocked && q.owner in run[i].k.mem
              && q.addr + b < |run[i].k.mem[q.owner]| && run[i].k.mem[q.owner][q.addr + b] == run[n].pc.path[b]
  {
    var m := SuccessMoment(q, run, steps, n);
    var i := ByteMoment(q, run, steps, m, b);
    SuccessMeansBlockedOwner(q, run, steps, n);
  }

  lemma {:induction false} ByteMoment(q: Request, run: seq<State>, steps: seq<Step>, m: nat, b: nat) returns (i: nat)
    requires IsRun(q, run, steps) && m < |run| && (run[m].pc.Reading? || run[m].pc.SecondCheck?) && b < |run[m].pc.got|
    ensures i < m && run[i].pc.Reading? && run[i].pc.proc in run[i].k.mem
    ensures q.addr + b < |run[i].k.mem[run[i].pc.proc]|
    ensures run[i].k.mem[run[i].pc.proc][q.addr + b] == run[m].pc.got[b]
  {
    assert m > 0;
    assert run[m] == Take(q, run[m-1], steps[m-1]);
    var prev := run[m-1].pc;
    if (prev.Reading? || prev.SecondCheck?) && b < |prev.got| {
      i := ByteMoment(q, run, steps, m-1, b);
    } else {
      i := m - 1;
    }
  }

  // ----- every result

  /** A step of the function, not of the rest of the system. */
  predicate Ours(a: Step) { a.DoOpen? || a.DoFirstCheck? || a.ReadByte? || a.ReadEnd? || a.DoSecondCheck? }

  /** The bytes that the reads of a run have fetched by state `n`, from the notified
      address on. */
  ghost function BytesRead(q: Request, run: seq<State>, steps: seq<Step>, n: nat): (r: seq<int>)
    requires IsRun(q, run, steps) && n < |run|
    ensures run[n].pc.Opening? || run[n].pc.FirstCheck? ==> r == []
    ensures run[n].pc.Reading? ==> r == run[n].pc.got
  {
    if n == 0 then []
    else
      assert run[n] == Take(q, run[n-1], steps[n-1]);
      var got := BytesRead(q, run, steps, n-1);
      if steps[n-1] == ReadByte then got + [run[n-1].k.mem[run[n-1].pc.proc][q.addr + |got|]] else got
  }

  /** Some step of kind `a` was taken before state `n`. */
  ghost predicate Taken(run: seq<State>, steps: seq<Step>, n: nat, a: Step)
    requires |run| == |steps| + 1 && n < |run|
  {
    exists i :: 0 <= i < n && steps[i] == a
  }

  /** open() failed: at that moment no process had the PID. */
  ghost predicate OpenFailed(q: Request, run: seq<State>, steps: seq<Step>, n: nat)
    requires |run| == |steps| + 1 && n < |run|
  {
    exists i :: 0 <= i < n && steps[i] == DoOpen && q.pid !in run[i].k.pids
  }

  /** One of the two checks found the ID invalid. */
  ghost predicate CheckFailed(q: Request, run: seq<State>, steps: seq<Step>, n: nat)
    requires |run| == |steps| + 1 && n < |run|
  {
    exists i :: 0 <= i < n && (steps[i] == DoFirstCheck || steps[i] == DoSecondCheck) && q.id !in run[i].k.blocked
  }

  /** Where the program is, told by the steps that were taken. */
  ghost predicate Progress(q: Request, run: seq<State>, steps: seq<Step>, n: nat)
    requires IsRun(q, run, steps) && n < |run|
  {
    var bytes, pc := BytesRead(q, run, steps, n), run[n].pc;
    && (!pc.Done? ==> !OpenFailed(q, run, steps, n) && !CheckFailed(q, run, steps, n))
    && (!pc.Done? ==> !Taken(run, steps, n, DoSecondCheck))
    && (pc.Opening? || pc.FirstCheck? ==> bytes == [] && !Taken(run, steps, n, ReadEnd))
    && (pc.Reading? ==> pc.got == bytes && !Taken(run, steps, n, ReadEnd))
    && (pc.SecondCheck? ==> pc.got == bytes != [] && Taken(run, steps, n, ReadEnd))
    && (pc.Done? ==> Meaning(q, run, steps, n, pc.result, bytes))
  }

  /** Each result, exactly. */
  ghost predicate Meaning(q: Request, run: seq<State>, steps: seq<Step>, n: nat, result: int, bytes: seq<int>)
    requires |run| == |steps| + 1 && n < |run|
  {
    var checked := Taken(run, steps, n, DoSecondCheck) && !CheckFailed(q, run, steps, n);
    && (result == GTP_BAD_READ <==> OpenFailed(q, run, steps, n) || (Taken(run, steps, n, ReadEnd) && bytes == []))
    && (result == GTP_ID_NOT_VALID <==> CheckFailed(q, run, steps, n))
    && (result == 0 <==> checked && 0 in bytes)
    && (result == GTP_BAD_PATH <==> checked && 0 !in bytes)
  }

  lemma {:induction false} TakenNext(run: seq<State>, steps: seq<Step>, n: nat, a: Step)
    requires |run| == |steps| + 1 && n < |steps|
    ensures Taken(run, steps, n + 1, a) <==> Taken(run, steps, n, a) || steps[n] == a
  {
    assert steps[n] == a ==> Taken(run, steps, n + 1, a);
  }

  lemma {:induction false} FailedNext(q: Request, run: seq<State>, steps: seq<Step>, n: nat)
    requires |run| == |steps| + 1 && n < |steps|
    ensures OpenFailed(q, run, steps, n + 1) <==>
            OpenFailed(q, run, steps, n) || (steps[n] == DoOpen && q.pid !in run[n].k.pids)
    ensures CheckFailed(q, run, steps, n + 1) <==>
            || CheckFailed(q, run, steps, n)
            || ((steps[n] == DoFirstCheck || steps[n] == DoSecondCheck) && q.id !in run[n].k.blocked)
  {
  }

  lemma {:induction false} ProgressHolds(q: Request, run: seq<State>, steps: seq<Step>, n: nat)
    requires IsRun(q, run, steps) && n < |run|
    ensures Progress(q, run, steps, n)
  {
    if n > 0 {
      ProgressHolds(q, run, steps, n-1);
      TakenNext(run, steps, n-1, ReadEnd);
      TakenNext(run, steps, n-1, DoSecondCheck);
      FailedNext(q, run, steps, n-1);
      if !Ours(steps[n-1]) {
        OthersKeepProgress(q, run, steps, n);
      } else {
        OursKeepProgress(q, run, steps, n);
      }
    }
  }

  /** The facts about the history up to `n`, from those up to `n - 1` and the last step. */
  ghost predicate HistoryNext(q: Request, run: seq<State>, steps: seq<Step>, n: nat)
    requires IsRun(q, run, steps) && 0 < n < |run|
  {
    var a, k := steps[n-1], run[n-1].k;
    && (Taken(run, steps, n, ReadEnd) <==> Taken(run, steps, n-1, ReadEnd) || a == ReadEnd)
    && (Taken(run, steps, n, DoSecondCheck) <==> Taken(run, steps, n-1, DoSecondCheck) || a == DoSecondCheck)
    && (OpenFailed(q, run, steps, n) <==> OpenFailed(q, run, steps, n-1) || (a == DoOpen && q.pid !in k.pids))
    && (CheckFailed(q, run, steps, n) <==>
          || CheckFailed(q, run, steps, n-1)
          || ((a == DoFirstCheck || a == DoSecondCheck) && q.id !in k.blocked))
  }

  lemma {:induction false} OthersKeepProgress(q: Request, run: seq<State>, steps: seq<Step>, n: nat)
    requires IsRun(q, run, steps) && 0 < n < |run| && Progress(q, run, steps, n-1) && HistoryNext(q, run, steps, n)
    requires !Ours(steps[n-1])
    ensures Progress(q, run, steps, n)
  {
    assert run[n] == Take(q, run[n-1], steps[n-1]);
    assert run[n].pc == run[n-1].pc;
    assert BytesRead(q, run, steps, n) == BytesRead(q, run, steps, n-1);
  }

  lemma {:induction false} OursKeepProgress(q: Request, run: seq<State>, steps: seq<Step>, n: nat)
    requires IsRun(q, run, steps) && 0 < n < |run| && Progress(q, run, steps, n-1) && HistoryNext(q, run, steps, n)
    requires Ours(steps[n-1])
    ensures Progress(q, run, steps, n)
  {
    assert Enabled(q, run[n-1], steps[n-1]) && run[n] == Take(q, run[n-1], steps[n-1]);
    assert !run[n-1].pc.Done?;
  }

  /** Main result on the other side: what each of the four results means, for every run.
      The function returns 0 exactly if both checks found the ID valid and the bytes that
      were read contain a terminator, GTP_BAD_PATH exactly if both did and the bytes do
      not, GTP_ID_NOT_VALID exactly if one check did not, and GTP_BAD_READ exactly if the
      open failed or no byte was read. */
  lemma {:induction false} ResultExact(q: Request, run: seq<State>, steps: seq<Step>, n: nat)
    requires IsRun(q, run, steps) && n < |run| && run[n].pc.Done?
    ensures var bytes := BytesRead(q, run, steps, n);
            var checked := Taken(run, steps, n, DoSecondCheck) && !CheckFailed(q, run, steps, n);
            match run[n].pc.result
            case 0 => checked && 0 in bytes
            case -1 => OpenFailed(q, run, steps, n) || (Taken(run, steps, n, ReadEnd) && bytes == [])
            case -2 => CheckFailed(q, run, steps, n)
            case -3 => checked && 0 !in bytes
            case _ => false
    ensures Meaning(q, run, steps, n, run[n].pc.result, BytesRead(q, run, steps, n))
  {
    DoneHasResult(q, run, steps, n);
    ProgressHolds(q, run, steps, n);
  }

  lemma {:induction false} DoneHasResult(q: Request, run: seq<State>, steps: seq<Step>, n: nat)
    requires IsRun(q, run, steps) && n < |run| && run[n].pc.Done?
    ensures run[n].pc.result in {0, -1, -2, -3}
  {
    assert run[n] == Take(q, run[n-1], steps[n-1]);
    if run[n-1].pc.Done? {
      DoneHasResult(q, run, steps, n-1);
    }
  }

  /** If the notified process is still blocked when the function has returned, then the
      bytes it read decide: success for a terminated pathname, and only for one. */
  lemma {:induction false} BlockedTargetSucceeds(q: Request, run: seq<State>, steps: seq<Step>, n: nat)
    requires IsRun(q, run, steps) && n < |run| && run[n].pc.Done? && q.id in run[n].k.blocked
    ensures var bytes := BytesRead(q, run, steps, n);
            run[n].pc.result == if bytes == [] then GTP_BAD_READ else if 0 in bytes then 0 else GTP_BAD_PATH
  {
    ResultExact(q, run, steps, n);
    forall i | 0 <= i < n ensures q.id in run[i].k.blocked && q.pid in run[i].k.pids {
      ValidNowValidBefore(q, run, steps, i, n);
      RunInv(q, run, steps, i);
    }
    BytesBeforeCheck(q, run, steps, n);
  }

  lemma {:induction false} BytesBeforeCheck(q: Request, run: seq<State>, steps: seq<Step>, n: nat)
    requires IsRun(q, run, steps) && n < |run|
    ensures Taken(run, steps, n, DoSecondCheck) ==> BytesRead(q, run, steps, n) != []
    decreases n
  {
    if n > 0 {
      BytesBeforeCheck(q, run, steps, n-1);
      ProgressHolds(q, run, steps, n-1);
    }
  }

  // ----- the function ends

  /** Steps of the function in a run. */
  ghost function OurSteps(steps: seq<Step>): nat {
    if steps == [] then 0 else OurSteps(steps[..|steps|-1]) + if Ours(steps[|steps|-1]) then 1 else 0
  }

  /** Until it has returned the function can take a step, whatever the others do. */
  lemma {:induction false} NeverStuck(q: Request, s: State) returns (a: Step)
    requires !s.pc.Done?
    ensures Ours(a) && Enabled(q, s, a)
  {
    match s.pc
    case Opening => a := DoOpen;
    case FirstCheck(_) => a := DoFirstCheck;
    case Reading(_, _) => a := ReadEnd;
    case SecondCheck(_) => a := DoSecondCheck;
  }

  ghost function Spent(q: Request, pc: Pc): nat {
    match pc
    case Opening => 0
    case FirstCheck(_) => 1
    case Reading(_, got) => 2 + |got|
    case SecondCheck(_) => q.len + 3
    case Done(_, _) => q.len + 4
  }

  /** In every run, however it is interleaved, the function takes at most as many steps as
      the buffer has bytes, and four more. */
  lemma {:induction false} EndsAfterFewSteps(q: Request, run: seq<State>, steps: seq<Step>)
    requires IsRun(q, run, steps)
    ensures OurSteps(steps) <= Spent(q, run[|steps|].pc) <= q.len + 4
  {
    if steps != [] {
      var n := |steps| - 1;
      Shorter(q, run, steps);
      EndsAfterFewSteps(q, run[..n+1], steps[..n]);
      SpentBounded(q, run, steps, n);
      StepSpends(q, run[n], steps[n]);
      SpentBounded(q, run, steps, n + 1);
    } else {
      SpentBounded(q, run, steps, 0);
    }
  }

  lemma {:induction false} Shorter(q: Request, run: seq<State>, steps: seq<Step>)
    requires IsRun(q, run, steps) && steps != []
    ensures IsRun(q, run[..|steps|], steps[..|steps|-1])
  {
  }

  lemma {:induction false} StepSpends(q: Request, s: State, a: Step)
    requires Enabled(q, s, a) && (s.pc.Reading? ==> |s.pc.got| <= q.len)
    ensures Spent(q, Take(q, s, a).pc) >= Spent(q, s.pc) + if Ours(a) then 1 else 0
  {
  }

  lemma {:induction false} SpentBounded(q: Request, run: seq<State>, steps: seq<Step>, n: nat)
    requires IsRun(q, run, steps) && n < |run|
    ensures run[n].pc.Reading? ==> |run[n].pc.got| <= q.len
    ensures Spent(q, run[n].pc) <= q.len + 4
  {
    if n > 0 {
      SpentBounded(q, run, steps, n-1);
      assert run[n] == Take(q, run[n-1], steps[n-1]);
    }
  }

  lemma {:induction false} Extend(q: Request, run: seq<State>, steps: seq<Step>, a: Step)
    returns (run': seq<State>, steps': seq<Step>)
    requires IsRun(q, run, steps) && Enabled(q, run[|steps|], a)
    ensures run' == run + [Take(q, run[|steps|], a)] && steps' == steps + [a] && IsRun(q, run', steps')
  {
    run', steps' := run + [Take(q, run[|steps|], a)], steps + [a];
  }

  /** The function alone, after it has read `n` bytes. */
  lemma {:induction false} AloneReading(q: Request, s: State, n: nat) returns (run: seq<State>, steps: seq<Step>)
    requires Init(q, s) && q.id in s.k.blocked && q.owner in s.k.mem
    requires n <= q.len && q.addr + n <= |s.k.mem[q.owner]|
    ensures IsRun(q, run, steps) && run[0] == s && forall i :: 0 <= i < |steps| ==> Ours(steps[i])
    ensures run[|steps|] == State(s.k, Reading(q.owner, s.k.mem[q.owner][q.addr..q.addr + n]))
  {
    if n == 0 {
      run, steps := [s], [];
      run, steps := Extend(q, run, steps, DoOpen);
      run, steps := Extend(q, run, steps, DoFirstCheck);
    } else {
      run, steps := AloneReading(q, s, n-1);
      var mem := s.k.mem[q.owner];
      assert mem[q.addr..q.addr + n] == mem[q.addr..q.addr + n - 1] + [mem[q.addr + n - 1]];
      run, steps := Extend(q, run, steps, ReadByte);
    }
  }

  /** Undisturbed, the function can read any part of the owner's memory that fits the
      buffer, and returns 0 if it contains a terminator and GTP_BAD_PATH if not. */
  lemma {:induction false} UndisturbedSucceeds(q: Request, s: State, n: nat)
    returns (run: seq<State>, steps: seq<Step>)
    requires Init(q, s) && q.id in s.k.blocked && q.owner in s.k.mem
    requires 0 < n <= q.len && q.addr + n <= |s.k.mem[q.owner]|
    ensures IsRun(q, run, steps) && run[0] == s && forall i :: 0 <= i < |steps| ==> Ours(steps[i])
    ensures var bytes := s.k.mem[q.owner][q.addr..q.addr + n];
            run[|steps|].pc == Done(if 0 in bytes then 0 else GTP_BAD_PATH, bytes)
  {
    run, steps := AloneReading(q, s, n);
    run, steps := Extend(q, run, steps, ReadEnd);
    run, steps := Extend(q, run, steps, DoSecondCheck);
  }
}
