/** A POSIX message queue as mq_notify() describes it: one registration at most, and one
    notification, sent when a message arrives on an empty queue, which removes the
    registration. */
module MessageQueue {

  /** `arrived` counts every message that was ever in the queue, and `received` lists
      those that mq_receive() has taken out. */
  datatype Queue<Msg> = Queue(waiting: seq<Msg>, registered: bool, arrived: multiset<Msg>, received: seq<Msg>)

  /** Nothing is received twice, lost or made up. */
  ghost predicate Conserved<Msg>(q: Queue<Msg>) { multiset(q.waiting) + multiset(q.received) == q.arrived }

  /** A send now would notify. */
  ghost predicate Notifies<Msg>(q: Queue<Msg>) { q.waiting == [] && q.registered }

  ghost function Send<Msg>(q: Queue<Msg>, m: Msg): Queue<Msg> {
    Queue(q.waiting + [m], q.registered && !Notifies(q), q.arrived + multiset{m}, q.received)
  }

  /** mq_receive() takes a message, whichever has priority. */
  ghost function Receive<Msg>(q: Queue<Msg>, i: nat): Queue<Msg>
    requires i < |q.waiting|
  {
    q.(waiting := q.waiting[..i] + q.waiting[i+1..], received := q.received + [q.waiting[i]])
  }

  lemma {:induction false} ReceiveConserves<Msg>(q: Queue<Msg>, i: nat)
    requires i < |q.waiting| && Conserved(q)
    ensures Conserved(Receive(q, i))
  {
    assert q.waiting == q.waiting[..i] + [q.waiting[i]] + q.waiting[i+1..];
  }
}
