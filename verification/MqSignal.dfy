/** mq_notify_via_signal.c: notification by a signal whose handler sets a flag. The
    signal is not queued and may arrive between any two steps of the main loop. */
module MqSignal {
  import opened MessageQueue

  /** Where the loop is: at the test of the flag, about to clear it, about to register,
      in the drain, or asleep. */
  datatype Pc = Test | Clear | Register | Drain | Sleep

  datatype State<Msg> = State(q: Queue<Msg>, pending: bool, gotSig: bool, pc: Pc, collided: bool)

  /** A sender, the delivery of the signal, or the loop; `i` is the message received. */
  datatype Step<Msg> = SendOne(m: Msg) | Deliver | Main(i: nat)

  /** gotSig starts as 1; messages may have been queued before. */
  ghost predicate Init<Msg>(s: State<Msg>) {
    !s.q.registered && Conserved(s.q) && !s.pending && s.gotSig && s.pc == Test && !s.collided
  }

  ghost predicate Enabled<Msg>(s: State<Msg>, a: Step<Msg>) {
    match a
    case SendOne(_) => true
    case Deliver => s.pending
    case Main(i) => s.pc == Drain && s.q.waiting != [] ==> i < |s.q.waiting|
  }

  ghost function Take<Msg>(s: State<Msg>, a: Step<Msg>): State<Msg>
    requires Enabled(s, a)
  {
    match a
    case SendOne(m) => s.(q := Send(s.q, m), pending := s.pending || Notifies(s.q))
    case Deliver => s.(pending := false, gotSig := true)
    case Main(i) =>
      match s.pc
      case Test => s.(pc := if s.gotSig then Clear else Sleep)
      case Clear => s.(gotSig := false, pc := Register)
      case Register =>
        if s.q.registered then s.(collided := true) else s.(q := s.q.(registered := true), pc := Drain)
      case Drain => if s.q.waiting == [] then s.(pc := Sleep) else s.(q := Receive(s.q, i))
      case Sleep => s.(pc := Test)
  }

  ghost function One(b: bool): nat { if b then 1 else 0 }

  /** There is one token: the registration, the pending signal, the flag, or the loop
      between clearing the flag and registering. */
  ghost function Tokens<Msg>(s: State<Msg>): nat {
    One(s.q.registered) + One(s.pending) + One(s.gotSig) + One(s.pc == Register)
  }

  ghost predicate Inv<Msg>(s: State<Msg>) {
    && Tokens(s) == 1
    && (s.pc == Clear ==> s.gotSig)
    && (s.q.waiting != [] ==> s.gotSig || s.pending || s.pc == Register || s.pc == Drain)
    && Conserved(s.q) && !s.collided
  }

  lemma {:induction false} StepKeepsInv<Msg>(s: State<Msg>, a: Step<Msg>)
    requires Inv(s) && Enabled(s, a)
    ensures Inv(Take(s, a))
  {
    if a.Main? && s.pc == Drain && s.q.waiting != [] {
      ReceiveConserves(s.q, a.i);
    }
  }

  ghost predicate Reaches<Msg>(s: State<Msg>, steps: seq<Step<Msg>>, t: State<Msg>)
    decreases |steps|
  {
    if steps == [] then s == t
    else Enabled(s, steps[0]) && Reaches(Take(s, steps[0]), steps[1..], t)
  }

  lemma {:induction false} RunKeepsInv<Msg>(s: State<Msg>, steps: seq<Step<Msg>>, t: State<Msg>)
    requires Inv(s) && Reaches(s, steps, t)
    ensures Inv(t)
    decreases |steps|
  {
    if steps != [] {
      StepKeepsInv(s, steps[0]);
      RunKeepsInv(Take(s, steps[0]), steps[1..], t);
    }
  }

  /** Main result, for every run from the start: mq_notify() is never called while a
      registration stands; when the loop sleeps on a nonempty queue the flag is set
      or the signal is on its way; and the messages waiting and received are those
      that arrived, each once. */
  lemma {:induction false} NoWakeupLost<Msg>(s: State<Msg>, steps: seq<Step<Msg>>, t: State<Msg>)
    requires Init(s) && Reaches(s, steps, t)
    ensures !t.collided && (t.pc == Register ==> !t.q.registered)
    ensures t.pc == Sleep && t.q.waiting != [] ==> t.gotSig || t.pending
    ensures Conserved(t.q)
  {
    RunKeepsInv(s, steps, t);
  }

  // ----- progress

  /** Loop steps until the queue is empty, once the wakeup has reached the program. */
  ghost function Distance<Msg>(s: State<Msg>): nat {
    |s.q.waiting| + match s.pc case Drain => 0 case Register => 1 case Clear => 2 case Test => 3 case Sleep => 4
  }

  /** While messages wait and no signal is on its way, every loop step is progress. */
  lemma {:induction false} LoopStepProgress<Msg>(s: State<Msg>, a: Step<Msg>)
    requires Inv(s) && Enabled(s, a) && !a.SendOne? && !s.pending && s.q.waiting != []
    ensures a.Main? && Distance(Take(s, a)) == Distance(s) - 1 && !Take(s, a).pending
  {
  }

  lemma {:induction false} EmptyStaysEmpty<Msg>(s: State<Msg>, steps: seq<Step<Msg>>, t: State<Msg>)
    requires Reaches(s, steps, t) && s.q.waiting == [] && forall i :: 0 <= i < |steps| ==> !steps[i].SendOne?
    ensures t.q.waiting == []
    decreases |steps|
  {
    if steps != [] {
      EmptyStaysEmpty(Take(s, steps[0]), steps[1..], t);
    }
  }

  /** Main result on progress, for every schedule without sends, once the signal is
      delivered: each step brings the queue nearer to empty until it is, so after
      `Distance` steps nothing waits; and a loop that then sleeps is registered. */
  lemma {:induction false} EveryScheduleDrains<Msg>(s: State<Msg>, steps: seq<Step<Msg>>, t: State<Msg>)
    requires Inv(s) && !s.pending && Reaches(s, steps, t) && forall i :: 0 <= i < |steps| ==> !steps[i].SendOne?
    ensures t.q.waiting != [] ==> |steps| + Distance(t) == Distance(s)
    ensures |steps| >= Distance(s) ==> t.q.waiting == []
    ensures Inv(t) && (t.pc == Sleep && !t.gotSig && !t.pending ==> t.q.registered)
    decreases |steps|
  {
    RunKeepsInv(s, steps, t);
    if s.q.waiting == [] {
      EmptyStaysEmpty(s, steps, t);
    } else if steps != [] {
      LoopStepProgress(s, steps[0]);
      StepKeepsInv(s, steps[0]);
      EveryScheduleDrains(Take(s, steps[0]), steps[1..], t);
    }
  }

  lemma {:induction false} NothingArrives<Msg>(s: State<Msg>, a: Step<Msg>)
    requires Enabled(s, a) && !a.SendOne?
    ensures |Take(s, a).q.waiting| <= |s.q.waiting| && Distance(Take(s, a)) <= |s.q.waiting| + 4
    ensures a.Deliver? ==> !Take(s, a).pending
  {
  }

  /** The state after the first `k` steps. */
  lemma {:induction false} Halfway<Msg>(s: State<Msg>, steps: seq<Step<Msg>>, t: State<Msg>, k: nat)
    returns (u: State<Msg>)
    requires Inv(s) && Reaches(s, steps, t) && k <= |steps| && forall i :: 0 <= i < k ==> !steps[i].SendOne?
    ensures Inv(u) && Reaches(u, steps[k..], t) && |u.q.waiting| <= |s.q.waiting|
    decreases k
  {
    u := s;
    if k == 0 {
      assert steps[0..] == steps;
    } else {
      StepKeepsInv(s, steps[0]);
      NothingArrives(s, steps[0]);
      u := Halfway(Take(s, steps[0]), steps[1..], t, k - 1);
      assert steps[1..][k-1..] == steps[k..];
    }
  }

  /** The same when the signal is still on its way: however long its delivery, the k-th
      step, takes, the queue is empty a fixed number of steps after it. */
  lemma {:induction false} DrainsAfterDelivery<Msg>(s: State<Msg>, steps: seq<Step<Msg>>, t: State<Msg>, k: nat)
    requires Inv(s) && Reaches(s, steps, t) && forall i :: 0 <= i < |steps| ==> !steps[i].SendOne?
    requires k < |steps| && steps[k].Deliver?
    ensures |steps| > k + |s.q.waiting| + 4 ==> t.q.waiting == []
  {
    var u := Halfway(s, steps, t, k);
    var rest := steps[k..];
    StepKeepsInv(u, rest[0]);
    NothingArrives(u, rest[0]);
    EveryScheduleDrains(Take(u, rest[0]), rest[1..], t);
  }

  /** A pending signal is not lost: whatever else happens it stays deliverable, and its
      delivery leaves a state to which the result above applies. */
  lemma {:induction false} SignalWaits<Msg>(s: State<Msg>, steps: seq<Step<Msg>>, t: State<Msg>)
    requires Inv(s) && s.pending && Reaches(s, steps, t) && forall i :: 0 <= i < |steps| ==> !steps[i].Deliver?
    ensures Inv(t) && Enabled(t, Deliver)
    ensures Inv(Take(t, Deliver)) && !Take(t, Deliver).pending && Take(t, Deliver).gotSig
    decreases |steps|
  {
    if steps != [] {
      StepKeepsInv(s, steps[0]);
      SignalWaits(Take(s, steps[0]), steps[1..], t);
    } else {
      StepKeepsInv(t, Deliver);
    }
  }
}
