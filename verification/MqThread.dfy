/** mq_notify_via_thread.c: notification by threads. Any number of senders and of
    notification threads are interleaved. */
module MqThread {
  import opened Counting
  import opened MessageQueue

  /** Every thread, main included, registers and then drains. */
  datatype Pc = Registering | Draining | Finished

  /** `collided` records that mq_notify() failed because a registration stood. */
  datatype State<Msg> = State(q: Queue<Msg>, threads: seq<Pc>, collided: bool)

  datatype Step<Msg> = SendOne(m: Msg) | Register(t: nat) | ReceiveOne(t: nat, i: nat) | FoundEmpty(t: nat)

  /** main() is about to call notifySetup(); messages may already be queued. */
  ghost predicate Init<Msg>(s: State<Msg>) {
    !s.q.registered && Conserved(s.q) && s.threads == [Registering] && !s.collided
  }

  ghost predicate At<Msg>(s: State<Msg>, t: nat, pc: Pc) { t < |s.threads| && s.threads[t] == pc }

  ghost predicate Enabled<Msg>(s: State<Msg>, a: Step<Msg>) {
    match a
    case SendOne(_) => true
    case Register(t) => At(s, t, Registering)
    case ReceiveOne(t, i) => At(s, t, Draining) && i < |s.q.waiting|
    case FoundEmpty(t) => At(s, t, Draining) && s.q.waiting == []
  }

  ghost function Take<Msg>(s: State<Msg>, a: Step<Msg>): State<Msg>
    requires Enabled(s, a)
  {
    match a
    case SendOne(m) =>
      s.(q := Send(s.q, m), threads := if Notifies(s.q) then s.threads + [Registering] else s.threads)
    case Register(t) =>
      if s.q.registered then s.(collided := true)
      else s.(q := s.q.(registered := true), threads := s.threads[t := Draining])
    case ReceiveOne(t, i) => s.(q := Receive(s.q, i))
    case FoundEmpty(t) => s.(threads := s.threads[t := Finished])
  }

  /** Exactly one of: a registration stands; one thread is yet to register. And while
      there are messages, someone has a drain to finish. */
  ghost predicate Inv<Msg>(s: State<Msg>) {
    && Count(s.threads, Registering) == (if s.q.registered then 0 else 1)
    && (s.q.waiting != [] ==> Count(s.threads, Registering) + Count(s.threads, Draining) > 0)
    && Conserved(s.q) && !s.collided
  }

  lemma {:induction false} StepKeepsInv<Msg>(s: State<Msg>, a: Step<Msg>)
    requires Inv(s) && Enabled(s, a)
    ensures Inv(Take(s, a))
  {
    match a
    case SendOne(m) =>
      assert (s.threads + [Registering])[..|s.threads|] == s.threads;
    case Register(t) =>
      CountZero(s.threads, Registering);
      CountUpdate(s.threads, t, Draining, Registering);
      CountUpdate(s.threads, t, Draining, Draining);
    case ReceiveOne(t, i) =>
      CountZero(s.threads, Draining);
      ReceiveConserves(s.q, i);
    case FoundEmpty(t) =>
      CountUpdate(s.threads, t, Finished, Registering);
  }

  ghost predicate Reaches<Msg>(s: State<Msg>, steps: seq<Step<Msg>>, t: State<Msg>)
    decreases |steps|
  {
    if steps == [] then s == t
    else Enabled(s, steps[0]) && Reaches(Take(s, steps[0]), steps[1..], t)
  }

  lemma {:induction false} RunKeepsInv<Msg>(s: State<Msg>, steps: seq<Step<Msg>>, t: State<Msg>)
    requires Inv(s) && Reaches(s, steps, t)
    ensures Inv(t)
    decreases |steps|
  {
    if steps != [] {
      StepKeepsInv(s, steps[0]);
      RunKeepsInv(Take(s, steps[0]), steps[1..], t);
    }
  }

  /** Main result, for every run from the start: re-registration never collides, while
      messages are waiting some thread is still to register or to finish its drain,
      and the messages waiting and received are those that arrived, each once. */
  lemma {:induction false} NoMessageLost<Msg>(s: State<Msg>, steps: seq<Step<Msg>>, t: State<Msg>)
    requires Init(s) && Reaches(s, steps, t)
    ensures !t.collided && Conserved(t.q)
    ensures t.q.waiting != [] ==> exists k: nat :: At(t, k, Registering) || At(t, k, Draining)
    ensures !t.q.registered <==> exists k: nat :: At(t, k, Registering)
    ensures forall j: nat, k: nat :: At(t, j, Registering) && At(t, k, Registering) ==> j == k
  {
    assert s.threads[..0] == [];
    assert Count([], Registering) == 0;
    RunKeepsInv(s, steps, t);
    SomeoneDrains(t);
    OneHolder(t);
  }

  lemma {:induction false} SomeoneDrains<Msg>(t: State<Msg>)
    requires Inv(t)
    ensures t.q.waiting != [] ==> exists k: nat :: At(t, k, Registering) || At(t, k, Draining)
    ensures !t.q.registered ==> exists k: nat :: At(t, k, Registering)
  {
    CountZero(t.threads, Registering);
    CountZero(t.threads, Draining);
    if Registering in t.threads {
      var k: nat :| k < |t.threads| && t.threads[k] == Registering;
      assert At(t, k, Registering);
    } else if t.q.waiting != [] {
      var k: nat :| k < |t.threads| && t.threads[k] == Draining;
      assert At(t, k, Draining);
    }
  }

  lemma {:induction false} OneHolder<Msg>(t: State<Msg>)
    requires Inv(t)
    ensures forall k: nat :: At(t, k, Registering) ==> !t.q.registered
    ensures forall j: nat, k: nat :: At(t, j, Registering) && At(t, k, Registering) ==> j == k
  {
    forall k: nat | At(t, k, Registering) ensures !t.q.registered {
      CountZero(t.threads, Registering);
    }
    forall j: nat, k: nat | At(t, j, Registering) && At(t, k, Registering) ensures j == k {
      if j != k {
        CountUpdate(t.threads, j, Finished, Registering);
        assert t.threads[j := Finished][k] == Registering;
        CountZero(t.threads[j := Finished], Registering);
      }
    }
  }

  // ----- progress

  /** Work the threads still have to do. */
  ghost function Work<Msg>(s: State<Msg>): nat {
    |s.q.waiting| + 2 * Count(s.threads, Registering) + Count(s.threads, Draining)
  }

  lemma {:induction false} StepWorks<Msg>(s: State<Msg>, a: Step<Msg>)
    requires Inv(s) && Enabled(s, a) && !a.SendOne?
    ensures Work(Take(s, a)) == Work(s) - 1
  {
    if a.Register? {
      CountZero(s.threads, Registering);
      CountUpdate(s.threads, a.t, Draining, Registering);
      CountUpdate(s.threads, a.t, Draining, Draining);
    } else if a.FoundEmpty? {
      CountUpdate(s.threads, a.t, Finished, Registering);
      CountUpdate(s.threads, a.t, Finished, Draining);
    }
  }

  /** No deadlock: while a message is waiting some thread can take a step. */
  lemma {:induction false} QueueIsServed<Msg>(s: State<Msg>) returns (a: Step<Msg>)
    requires Inv(s) && s.q.waiting != []
    ensures Enabled(s, a) && !a.SendOne?
  {
    SomeoneDrains(s);
    var t: nat :| At(s, t, Registering) || At(s, t, Draining);
    a := if s.threads[t] == Registering then Register(t) else ReceiveOne(t, 0);
  }

  /** Once sending stops, every schedule of the threads empties the queue: each step uses
      up one unit of the work there was, and when no thread can move nothing waits. */
  lemma {:induction false} DrainsWhenSendingStops<Msg>(s: State<Msg>, steps: seq<Step<Msg>>, t: State<Msg>)
    requires Inv(s) && Reaches(s, steps, t) && forall i :: 0 <= i < |steps| ==> !steps[i].SendOne?
    ensures |steps| + Work(t) == Work(s)
    ensures (forall a: Step<Msg> :: !a.SendOne? ==> !Enabled(t, a)) ==> t.q.waiting == []
    decreases |steps|
  {
    if steps != [] {
      StepKeepsInv(s, steps[0]);
      StepWorks(s, steps[0]);
      DrainsWhenSendingStops(Take(s, steps[0]), steps[1..], t);
    } else if t.q.waiting != [] {
      var a := QueueIsServed(t);
    }
  }
}
