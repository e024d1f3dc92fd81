/** The read loop of inotify_dtree.c: events arrive in blocks, and the first half of a
    rename that ends a block waits for one more read. The stream is fixed, the sizes of
    the reads are not, and every run is tied to the reference reading of the stream. */
module EventLoop {
  import opened WatchCache
  import opened Monitor

  /** What the kernel does at each position of the stream: how many events a read() that
      starts a block there returns, and how many events a retry read made for the event
      there returns. */
  datatype Io = Io(first: nat -> nat, again: nat -> nat)

  /** What handling a buffer does to the state, given the position of its first event. */
  type Calls = (State, seq<Event>, bool, nat) -> (State, Verdict)

  /** processNextInotifyEvent() with the kernel's answers at each position. */
  function CallsOf(envs: nat -> Env): Calls {
    (st, buf, firstTry, p: nat) => if buf == [] then (st, Retry) else Process(st, buf, firstTry, envs(p))
  }

  /** A read() that starts a block at `at`, or a retry read for the event at `at`; the
      buffer then holds the stream up to `end`. */
  datatype Read = First(at: nat, end: nat) | Again(at: nat, end: nat)

  /** What became of some events. Cut is a first half treated as a move out of the trees
      because its retry read brought nothing; Discarded is the rest of a block that a
      rebuild threw away, with whether its call was the first for that event. */
  datatype Action =
    | Handled(ev: Event)
    | Renamed(from: Event, to: Event)
    | Cut(ev: Event)
    | Discarded(evs: seq<Event>, firstTry: bool)

  function Events(a: Action): seq<Event> {
    match a
    case Handled(ev) => [ev]
    case Renamed(f, t) => [f, t]
    case Cut(ev) => [ev]
    case Discarded(evs, _) => evs
  }

  /** How many events a log accounts for. */
  function Len(log: seq<Action>): nat {
    if log == [] then 0 else Len(log[..|log|-1]) + |Events(log[|log|-1])|
  }

  function Flatten(log: seq<Action>): seq<Event> {
    if log == [] then [] else Flatten(log[..|log|-1]) + Events(log[|log|-1])
  }

  predicate PairAt(stream: seq<Event>, p: nat) { p + 1 < |stream| && IsPair(stream[p], stream[p+1]) }

  // ----- reads

  function FirstEnd(stream: seq<Event>, io: Io, at: nat): (end: nat)
    requires at < |stream|
    ensures at < end <= |stream|
  {
    var n := io.first(at);
    if n == 0 then at + 1 else if at + n > |stream| then |stream| else at + n
  }

  /** A retry read may time out and return nothing. */
  function AgainEnd(stream: seq<Event>, io: Io, at: nat): (end: nat)
    requires at < |stream|
    ensures at < end <= |stream|
  {
    var n := io.again(at);
    if at + 1 + n > |stream| then |stream| else at + 1 + n
  }

  function End(fetched: seq<Read>): nat { if fetched == [] then 0 else fetched[|fetched|-1].end }

  /** The reads for positions before `q`. */
  function Before(fetched: seq<Read>, q: nat): seq<Read> {
    if fetched != [] && fetched[|fetched|-1].at >= q then Before(fetched[..|fetched|-1], q) else fetched
  }

  lemma {:induction false} BeforeIsPrefix(fetched: seq<Read>, q: nat)
    ensures var n := |Before(fetched, q)|;
            && n <= |fetched| && Before(fetched, q) == fetched[..n]
            && (n > 0 ==> fetched[n-1].at < q) && (n < |fetched| ==> fetched[n].at >= q)
  {
    if fetched != [] && fetched[|fetched|-1].at >= q {
      var init := fetched[..|fetched|-1];
      BeforeIsPrefix(init, q);
      assert init[..|Before(init, q)|] == fetched[..|Before(init, q)|];
    }
  }

  /** The last read was a retry for the event at `p`. */
  predicate Retried(fetched: seq<Read>, p: nat) {
    fetched != [] && fetched[|fetched|-1].Again? && fetched[|fetched|-1].at == p
  }

  /** The event at `p` was handled after a retry read that brought nothing. */
  predicate TimedOut(fetched: seq<Read>, p: nat) {
    var seen := Before(fetched, p + 1);
    Retried(seen, p) && End(seen) == p + 1
  }

  /** No retry read was made for `p` or a later event. */
  predicate Fresh(fetched: seq<Read>, p: nat) {
    forall k :: 0 <= k < |fetched| && fetched[k].Again? ==> fetched[k].at < p
  }

  /** Some read filled the buffer up to position `p`. */
  predicate EndsBlock(fetched: seq<Read>, p: nat) { exists k :: 0 <= k < |fetched| && fetched[k].end == p }

  predicate ReadOk(stream: seq<Event>, io: Io, fetched: seq<Read>, r: Read) {
    match r
    case First(at, end) => at == End(fetched) && at < |stream| && end == FirstEnd(stream, io, at)
    case Again(at, end) =>
      && at + 1 == End(fetched) && at < |stream| && MovedFromDir(stream[at])
      && Fresh(fetched, at) && end == AgainEnd(stream, io, at)
  }

  /** Blocks follow one another, and retries are for a first half at the end of the
      buffer, at most once for each event. */
  predicate GoodReads(stream: seq<Event>, io: Io, fetched: seq<Read>) {
    fetched == []
    || (var init := fetched[..|fetched|-1];
        GoodReads(stream, io, init) && ReadOk(stream, io, init, fetched[|fetched|-1]))
  }

  // ----- logs

  /** May the events from position `p` on be read as `a`? They lay in the buffer after the
      reads made by then, and no read was made while `a` dealt with them. A first half is
      handled alone only if something else follows it in the buffer, it is cut only if it
      is the last event even after its retry read, and a discard takes the whole buffer. */
  ghost predicate ActionOk(stream: seq<Event>, fetched: seq<Read>, p: nat, a: Action) {
    var seen, q := Before(fetched, p + 1), p + |Events(a)|;
    && q <= End(seen) <= |stream| && Events(a) == stream[p..q] && Before(fetched, q) == seen
    && match a
       case Handled(ev) => MovedFromDir(ev) ==> p + 1 < End(seen) && !PairAt(stream, p)
       case Renamed(f, t) => IsPair(f, t)
       case Cut(ev) => MovedFromDir(ev) && TimedOut(fetched, p)
       case Discarded(evs, firstTry) => evs != [] && q == End(seen) && (firstTry <==> !Retried(seen, p))
  }

  ghost predicate Lawful(stream: seq<Event>, log: seq<Action>, fetched: seq<Read>) {
    log == []
    || (Lawful(stream, log[..|log|-1], fetched) && ActionOk(stream, fetched, Len(log[..|log|-1]), log[|log|-1]))
  }

  /** The call that `a` stands for. */
  function Answer(st: State, a: Action, p: nat, calls: Calls): (State, Verdict) {
    calls(st, Events(a), a.Discarded? && a.firstTry, p)
  }

  /** The state after the calls of a log, and the verdict of the last one. */
  function Replay(st: State, log: seq<Action>, calls: Calls): (State, Verdict) {
    if log == [] then (st, Consumed(0))
    else
      var init := log[..|log|-1];
      Answer(Replay(st, init, calls).0, log[|log|-1], Len(init), calls)
  }

  predicate Answers(a: Action, v: Verdict) {
    match a
    case Handled(_) => v == Consumed(1) || v == Quit
    case Renamed(_, _) => v == Consumed(2)
    case Cut(_) => v == Consumed(1)
    case Discarded(_, _) => v == Discard
  }

  /** Every action is what the call really answered: events are discarded only where the
      call rebuilt the cache, and nothing follows a call that ended the program. */
  predicate Explained(st: State, log: seq<Action>, calls: Calls) {
    log == []
    || (var init := log[..|log|-1];
        && Explained(st, init, calls) && Replay(st, init, calls).1 != Quit
        && Answers(log[|log|-1], Replay(st, log, calls).1))
  }

  /** The retry reads that were made were asked for: the first call, with the event alone
      in the buffer, answered that it must wait. */
  ghost predicate AskedAt(stream: seq<Event>, fetched: seq<Read>, p: nat, now: State, calls: Calls) {
    Retried(Before(fetched, p + 1), p) && p < |stream| ==> calls(now, stream[p..p+1], true, p).1 == Retry
  }

  ghost predicate Asked(stream: seq<Event>, st: State, log: seq<Action>, fetched: seq<Read>, calls: Calls) {
    log == []
    || (var init := log[..|log|-1];
        && Asked(stream, st, init, fetched, calls)
        && AskedAt(stream, fetched, Len(init), Replay(st, init, calls).0, calls))
  }

  /** A run so far: `pos` events of the stream are dealt with. */
  datatype Trace = Trace(pos: nat, log: seq<Action>, fetched: seq<Read>)

  ghost predicate Good(stream: seq<Event>, io: Io, calls: Calls, st: State, tr: Trace) {
    && tr.pos == Len(tr.log) <= End(tr.fetched) <= |stream|
    && Lawful(stream, tr.log, tr.fetched) && GoodReads(stream, io, tr.fetched)
    && Explained(st, tr.log, calls) && Asked(stream, st, tr.log, tr.fetched, calls)
  }

  /** No block has been started that is not worked on. */
  predicate Begun(tr: Trace) { tr.fetched == [] || tr.fetched[|tr.fetched|-1].at < tr.pos }

  // ----- what a caller learns from a log

  /** Each event is accounted for once, in order. */
  lemma {:induction false} EachEventOnce(stream: seq<Event>, log: seq<Action>, fetched: seq<Read>)
    requires Lawful(stream, log, fetched)
    ensures Len(log) <= |stream| && Flatten(log) == stream[..Len(log)]
  {
    if log != [] {
      var init := log[..|log|-1];
      EachEventOnce(stream, init, fetched);
      NextEvents(stream, fetched, Len(init), log[|log|-1]);
    }
  }

  lemma {:induction false} NextEvents(stream: seq<Event>, fetched: seq<Read>, p: nat, a: Action)
    requires ActionOk(stream, fetched, p, a)
    ensures 0 < |Events(a)| <= |stream| - p && stream[..p] + Events(a) == stream[..p + |Events(a)|]
  {
  }

  lemma {:induction false} LogGrows(stream: seq<Event>, log: seq<Action>, fetched: seq<Read>)
    requires log != [] && Lawful(stream, log, fetched)
    ensures Lawful(stream, log[..|log|-1], fetched) && Len(log[..|log|-1]) < Len(log) <= |stream|
  {
    NextEvents(stream, fetched, Len(log[..|log|-1]), log[|log|-1]);
  }

  /** The action that accounts for position `p`, and the position where it starts. */
  function ActionAt(log: seq<Action>, p: nat): (r: (nat, Action))
    requires p < Len(log)
    ensures r.0 <= p < r.0 + |Events(r.1)|
  {
    var init := log[..|log|-1];
    if p >= Len(init) then (Len(init), log[|log|-1]) else ActionAt(init, p)
  }

  lemma {:induction false} ActionAtOk(stream: seq<Event>, log: seq<Action>, fetched: seq<Read>, p: nat)
    requires Lawful(stream, log, fetched) && p < Len(log)
    ensures ActionOk(stream, fetched, ActionAt(log, p).0, ActionAt(log, p).1)
  {
    var init := log[..|log|-1];
    if p < Len(init) {
      ActionAtOk(stream, init, fetched, p);
    }
  }

  // ----- the order of the reads

  lemma {:induction false} ReadAt(stream: seq<Event>, io: Io, fetched: seq<Read>, k: nat)
    requires GoodReads(stream, io, fetched) && k < |fetched|
    ensures GoodReads(stream, io, fetched[..k]) && ReadOk(stream, io, fetched[..k], fetched[k])
  {
    var init := fetched[..|fetched|-1];
    if k < |init| {
      ReadAt(stream, io, init, k);
      assert init[..k] == fetched[..k];
    }
  }

  lemma {:induction false} ReadsInOrder(stream: seq<Event>, io: Io, fetched: seq<Read>, i: nat, j: nat)
    requires GoodReads(stream, io, fetched) && i <= j < |fetched|
    ensures fetched[i].at <= fetched[j].at
    decreases j
  {
    if i < j {
      ReadAt(stream, io, fetched, j);
      ReadAt(stream, io, fetched, j-1);
      ReadsInOrder(stream, io, fetched, i, j-1);
    }
  }

  /** No event is deferred twice. */
  lemma {:induction false} DeferredOnce(stream: seq<Event>, io: Io, fetched: seq<Read>, i: nat, j: nat)
    requires GoodReads(stream, io, fetched) && i < j < |fetched| && fetched[i].Again? && fetched[j].Again?
    ensures fetched[i].at < fetched[j].at
  {
    ReadAt(stream, io, fetched, j);
    assert fetched[..j][i] == fetched[i];
  }

  /** After a read up to `p + 1` the next one is a retry for `p` or lies beyond `p`. */
  lemma {:induction false} NextRead(stream: seq<Event>, io: Io, fetched: seq<Read>, k: nat, p: nat)
    requires GoodReads(stream, io, fetched) && k + 1 < |fetched| && fetched[k].end == p + 1
    ensures fetched[k+1] == Again(p, fetched[k+1].end) || fetched[k+1].at > p
  {
    ReadAt(stream, io, fetched, k+1);
    assert fetched[..k+1][k] == fetched[k];
  }

  lemma {:induction false} NothingAfterRetry(stream: seq<Event>, io: Io, fetched: seq<Read>, k: nat, j: nat)
    requires GoodReads(stream, io, fetched) && k < j < |fetched| && fetched[k].Again?
    ensures fetched[j].at > fetched[k].at
  {
    ReadAt(stream, io, fetched, k);
    ReadAt(stream, io, fetched, k+1);
    assert fetched[..k+1][k] == fetched[k];
    ReadsInOrder(stream, io, fetched, k+1, j);
  }

  // ----- the fate of a rename

  /** The fate of every first half of a directory rename, one by one, from what the kernel
      did: unless a rebuild threw it away, it is cut exactly if a block ended behind it
      and the retry read then brought nothing, and otherwise it is one rename exactly if
      a second half with its cookie follows it in the stream. */
  lemma {:induction false} FateOfFirstHalf(stream: seq<Event>, io: Io, log: seq<Action>, fetched: seq<Read>, p: nat)
    requires Lawful(stream, log, fetched) && GoodReads(stream, io, fetched)
    requires p < Len(log) && p < |stream| && stream[p].kind == MovedFrom && stream[p].isDir
    ensures var (at, a) := ActionAt(log, p);
            a.Discarded? || (at == p && a == Fate(stream, io, fetched, p))
  {
    ActionAtOk(stream, log, fetched, p);
    var (at, a) := ActionAt(log, p);
    if !a.Discarded? {
      FateOfAction(stream, fetched, at, a, p);
      TimeoutFromKernel(stream, io, fetched, p, a);
    }
  }

  ghost function Fate(stream: seq<Event>, io: Io, fetched: seq<Read>, p: nat): Action
    requires p < |stream|
  {
    if EndsBlock(fetched, p + 1) && AgainEnd(stream, io, p) == p + 1 then Cut(stream[p])
    else if p + 1 < |stream| && stream[p+1].kind == MovedTo && stream[p+1].cookie == stream[p].cookie
    then Renamed(stream[p], stream[p+1])
    else Handled(stream[p])
  }

  lemma {:induction false} FateOfAction(stream: seq<Event>, fetched: seq<Read>, at: nat, a: Action, p: nat)
    requires ActionOk(stream, fetched, at, a) && !a.Discarded? && at <= p < at + |Events(a)| && MovedFromDir(stream[p])
    ensures at == p
    ensures a == if TimedOut(fetched, p) then Cut(stream[p])
                 else if PairAt(stream, p) then Renamed(stream[p], stream[p+1])
                 else Handled(stream[p])
  {
    assert Events(a)[p - at] == stream[p];
    if a.Renamed? {
      assert a.to == Events(a)[1] == stream[at+1];
    }
  }

  /** A first half at the end of a block gets its retry read before it is dealt with. */
  lemma {:induction false} RetryMade(stream: seq<Event>, io: Io, fetched: seq<Read>, p: nat, k: nat)
    requires GoodReads(stream, io, fetched) && k < |fetched| && fetched[k].end == p + 1
    requires End(Before(fetched, p + 1)) > p + 1
    ensures Retried(Before(fetched, p + 1), p)
  {
    var seen := Before(fetched, p + 1);
    BeforeIsPrefix(fetched, p + 1);
    ReadAt(stream, io, fetched, k);
    if |seen| <= k {
      ReadsInOrder(stream, io, fetched, |seen|, k);
      assert false;
    }
    assert seen[k] == fetched[k];
    NextRead(stream, io, fetched, k, p);
    assert seen[k+1] == fetched[k+1];
    ReadsInOrder(stream, io, fetched, k+1, |seen|-1);
    if k + 1 < |seen| - 1 {
      NothingAfterRetry(stream, io, fetched, k+1, |seen|-1);
    }
  }

  lemma {:induction false} TimeoutFromKernel(stream: seq<Event>, io: Io, fetched: seq<Read>, p: nat, a: Action)
    requires GoodReads(stream, io, fetched) && ActionOk(stream, fetched, p, a)
    requires !a.Discarded? && MovedFromDir(stream[p])
    ensures TimedOut(fetched, p) <==> EndsBlock(fetched, p + 1) && AgainEnd(stream, io, p) == p + 1
  {
    var seen := Before(fetched, p + 1);
    BeforeIsPrefix(fetched, p + 1);
    if Retried(seen, p) {
      TimeoutAtFirstHalf(stream, io, fetched, p);
      assert fetched[|seen|-1].end == End(seen);
    } else if EndsBlock(fetched, p + 1) {
      var k :| 0 <= k < |fetched| && fetched[k].end == p + 1;
      assert Events(a)[0] == stream[p];
      RetryMade(stream, io, fetched, p, k);
    }
  }

  lemma {:induction false} TimeoutAtFirstHalf(stream: seq<Event>, io: Io, fetched: seq<Read>, p: nat)
    requires GoodReads(stream, io, fetched) && Retried(Before(fetched, p + 1), p)
    ensures p < |stream| && MovedFromDir(stream[p]) && End(Before(fetched, p + 1)) == AgainEnd(stream, io, p)
  {
    BeforeIsPrefix(fetched, p + 1);
    ReadAt(stream, io, fetched, |Before(fetched, p + 1)| - 1);
  }

  /** An event that was not thrown away is cut if and only if its retry read timed out. */
  lemma {:induction false} CutIffTimedOut(stream: seq<Event>, io: Io, log: seq<Action>, fetched: seq<Read>, p: nat)
    requires Lawful(stream, log, fetched) && GoodReads(stream, io, fetched) && p < Len(log)
    requires !ActionAt(log, p).1.Discarded?
    ensures ActionAt(log, p).1.Cut? <==> TimedOut(fetched, p)
  {
    ActionAtOk(stream, log, fetched, p);
    var (at, a) := ActionAt(log, p);
    if TimedOut(fetched, p) {
      TimeoutAtFirstHalf(stream, io, fetched, p);
      FateOfAction(stream, fetched, at, a, p);
    }
  }

  /** Whatever the kernel answers, the slot invariant holds after every log. */
  lemma {:induction false} ReplayValid(stream: seq<Event>, st: State, log: seq<Action>, fetched: seq<Read>,
                                       envs: nat -> Env)
    requires Lawful(stream, log, fetched) && Valid(st.slots)
    requires forall x :: x in stream ==> KernelForm(x)
    ensures Valid(Replay(st, log, CallsOf(envs)).0.slots)
  {
    if log != [] {
      var init, a := log[..|log|-1], log[|log|-1];
      ReplayValid(stream, st, init, fetched, envs);
      assert Events(a) != [] && Events(a)[0] == stream[Len(init)];
      ProcessKeepsValid(Replay(st, init, CallsOf(envs)).0, Events(a), a.Discarded? && a.firstTry, envs(Len(init)));
    }
  }

  // ----- the reference reading

  /** The events handled together at `p` when the whole stream is in the buffer. */
  function Group(stream: seq<Event>, p: nat): (g: seq<Event>)
    requires p < |stream|
    ensures 0 < |g| <= |stream| - p
  {
    if PairAt(stream, p) then stream[p..p+2] else stream[p..p+1]
  }

  /** The stream from `p` on, read in one piece, up to the end or to the first call that
      ends the program or rebuilds the cache. */
  function Whole(st: State, stream: seq<Event>, p: nat, calls: Calls): (State, Verdict)
    requires p <= |stream|
    decreases |stream| - p
  {
    if p == |stream| then (st, Consumed(0))
    else
      var (after, v) := calls(st, Group(stream, p), false, p);
      if v.Consumed? then Whole(after, stream, p + |Group(stream, p)|, calls) else (after, v)
  }

  /** No rename lost its second half to a retry read that came back empty. */
  ghost predicate NoPairTimedOut(stream: seq<Event>, fetched: seq<Read>) {
    forall p: nat :: PairAt(stream, p) ==> !TimedOut(fetched, p)
  }

  /** That is so if the kernel has the second half ready when the retry read is made. */
  lemma {:induction false} RetryBringsSecondHalf(stream: seq<Event>, io: Io, fetched: seq<Read>)
    requires GoodReads(stream, io, fetched)
    requires forall p: nat :: PairAt(stream, p) ==> io.again(p) > 0
    ensures NoPairTimedOut(stream, fetched)
  {
    forall p: nat | PairAt(stream, p) && TimedOut(fetched, p) ensures false {
      TimeoutAtFirstHalf(stream, io, fetched, p);
    }
  }

  /** A buffer at `p` whose call is not the one after a pair was separated. */
  ghost predicate BufferAt(stream: seq<Event>, evs: seq<Event>, firstTry: bool, p: nat) {
    && evs != [] && p + |evs| <= |stream| && evs == stream[p..p + |evs|]
    && (|evs| == 1 && PairAt(stream, p) ==> firstTry)
  }

  /** A call that rebuilds would also rebuild with the whole stream in the buffer. */
  ghost predicate Agrees(stream: seq<Event>, calls: Calls, st: State, evs: seq<Event>, firstTry: bool, p: nat) {
    BufferAt(stream, evs, firstTry, p) ==>
      (calls(st, evs, firstTry, p).1 == Discard ==> calls(st, Group(stream, p), false, p).1 == Discard)
  }

  ghost predicate AllAgree(stream: seq<Event>, calls: Calls) {
    forall st, evs, firstTry, p: nat :: Agrees(stream, calls, st, evs, firstTry, p)
  }

  lemma {:induction false} CallsAgree(stream: seq<Event>, envs: nat -> Env)
    ensures AllAgree(stream, CallsOf(envs))
  {
    forall st, evs, firstTry, p: nat ensures Agrees(stream, CallsOf(envs), st, evs, firstTry, p) {
      if BufferAt(stream, evs, firstTry, p) {
        DiscardAgrees(stream, p, st, evs, firstTry, envs(p));
      }
    }
  }

  lemma {:induction false} DiscardAgrees(stream: seq<Event>, p: nat, st: State, evs: seq<Event>, firstTry: bool,
                                         env: Env)
    requires BufferAt(stream, evs, firstTry, p)
    ensures Process(st, evs, firstTry, env).1 == Discard ==> Process(st, Group(stream, p), false, env).1 == Discard
  {
    assert evs[0] == stream[p] == Group(stream, p)[0];
    if |evs| > 1 {
      assert evs[1] == stream[p+1];
      assert PairAt(stream, p) ==> Group(stream, p)[1] == evs[1];
    }
  }

  lemma {:induction false} GroupOfAction(stream: seq<Event>, fetched: seq<Read>, p: nat, a: Action)
    requires ActionOk(stream, fetched, p, a) && NoPairTimedOut(stream, fetched)
    ensures p < |stream| && (!a.Discarded? ==> Events(a) == Group(stream, p))
  {
    assert Events(a)[0] == stream[p];
    if a.Renamed? {
      assert stream[p+1] == Events(a)[1];
      assert PairAt(stream, p);
    } else if !a.Discarded? {
      assert !PairAt(stream, p);
    }
  }

  predicate NoDiscards(log: seq<Action>) { forall k :: 0 <= k < |log| ==> !log[k].Discarded? }

  /** The log divides the stream into the groups of the reference reading. */
  predicate Canonical(stream: seq<Event>, log: seq<Action>) {
    log == []
    || (var init := log[..|log|-1];
        && Canonical(stream, init) && Len(init) < |stream|
        && !log[|log|-1].Discarded? && Events(log[|log|-1]) == Group(stream, Len(init)))
  }

  lemma {:induction false} LawfulIsCanonical(stream: seq<Event>, log: seq<Action>, fetched: seq<Read>)
    requires Lawful(stream, log, fetched) && NoPairTimedOut(stream, fetched) && NoDiscards(log)
    ensures Canonical(stream, log)
  {
    if log != [] {
      var init := log[..|log|-1];
      LawfulIsCanonical(stream, init, fetched);
      GroupOfAction(stream, fetched, Len(init), log[|log|-1]);
    }
  }

  /** The outcome of the reference reading from `p` on, after a call that answered `r`. */
  function Rest(r: (State, Verdict), stream: seq<Event>, p: nat, calls: Calls): (State, Verdict)
    requires p <= |stream|
  {
    if r.1 == Quit then r else Whole(r.0, stream, p, calls)
  }

  /** An action that is not a discard is what the reference reading does at that point. */
  lemma {:induction false} WholeStep(stream: seq<Event>, p: nat, a: Action, before: (State, Verdict),
                                     after: (State, Verdict), calls: Calls)
    requires p < |stream| && Events(a) == Group(stream, p) && !a.Discarded?
    requires before.1 != Quit && after == Answer(before.0, a, p, calls) && Answers(a, after.1)
    ensures Rest(before, stream, p, calls) == Rest(after, stream, p + |Events(a)|, calls)
  {
  }

  lemma {:induction false} CanonicalLen(stream: seq<Event>, log: seq<Action>)
    requires Canonical(stream, log)
    ensures Len(log) <= |stream|
  {
  }

  /** What is left to do after the log is the rest of the reference reading. */
  lemma {:induction false} StaysOnTrack(stream: seq<Event>, st: State, log: seq<Action>, calls: Calls)
    requires Canonical(stream, log) && Explained(st, log, calls)
    ensures Len(log) <= |stream| && Rest(Replay(st, log, calls), stream, Len(log), calls) == Whole(st, stream, 0, calls)
  {
    CanonicalLen(stream, log);
    if log != [] {
      StaysOnTrack(stream, st, log[..|log|-1], calls);
      LastOnTrack(stream, st, log, calls);
    }
  }

  lemma {:induction false} LastOnTrack(stream: seq<Event>, st: State, log: seq<Action>, calls: Calls)
    requires log != [] && Canonical(stream, log) && Explained(st, log, calls) && Len(log) <= |stream|
    ensures var init := log[..|log|-1];
            && Len(init) <= |stream|
            && Rest(Replay(st, log, calls), stream, Len(log), calls)
               == Rest(Replay(st, init, calls), stream, Len(init), calls)
  {
    var init := log[..|log|-1];
    WholeStep(stream, Len(init), log[|log|-1], Replay(st, init, calls), Replay(st, log, calls), calls);
  }

  lemma {:induction false} StepCanonical(stream: seq<Event>, fetched: seq<Read>, p: nat, a: Action, st: State,
                                         calls: Calls)
    requires ActionOk(stream, fetched, p, a) && NoPairTimedOut(stream, fetched) && AllAgree(stream, calls)
    requires Answers(a, Answer(st, a, p, calls).1) && p <= |stream| && Whole(st, stream, p, calls).1 != Discard
    ensures p < |stream| && !a.Discarded? && Events(a) == Group(stream, p)
  {
    assert Agrees(stream, calls, st, Events(a), a.Discarded? && a.firstTry, p);
    GroupOfAction(stream, fetched, p, a);
  }

  /** If the reference reading never rebuilds, every other reading makes its calls. */
  lemma {:induction false} ReadingIsCanonical(stream: seq<Event>, st: State, log: seq<Action>, fetched: seq<Read>,
                                              calls: Calls)
    requires Lawful(stream, log, fetched) && Explained(st, log, calls) && AllAgree(stream, calls)
    requires NoPairTimedOut(stream, fetched) && Whole(st, stream, 0, calls).1 != Discard
    ensures Canonical(stream, log)
  {
    if log != [] {
      var init := log[..|log|-1];
      ReadingIsCanonical(stream, st, init, fetched, calls);
      StaysOnTrack(stream, st, init, calls);
      StepCanonical(stream, fetched, Len(init), log[|log|-1], Replay(st, init, calls).0, calls);
    }
  }

  lemma {:induction false} CanonicalNoDiscards(stream: seq<Event>, log: seq<Action>)
    requires Canonical(stream, log)
    ensures NoDiscards(log)
  {
    if log != [] {
      CanonicalNoDiscards(stream, log[..|log|-1]);
      assert log == log[..|log|-1] + [log[|log|-1]];
    }
  }

  /** The calls of the reference reading, as far as they depend on the stream only. */
  function Pairing(stream: seq<Event>, p: nat): seq<seq<Event>>
    requires p <= |stream|
    decreases |stream| - p
  {
    if p == |stream| then [] else [Group(stream, p)] + Pairing(stream, p + |Group(stream, p)|)
  }

  function Groups(log: seq<Action>): seq<seq<Event>> {
    if log == [] then [] else Groups(log[..|log|-1]) + [Events(log[|log|-1])]
  }

  lemma {:induction false} PairingOfLog(stream: seq<Event>, log: seq<Action>)
    requires Canonical(stream, log)
    ensures Len(log) <= |stream| && Pairing(stream, 0) == Groups(log) + Pairing(stream, Len(log))
  {
    if log != [] {
      var init := log[..|log|-1];
      PairingOfLog(stream, init);
      PairingNext(stream, Len(init), Groups(init));
    }
  }

  lemma {:induction false} PairingNext(stream: seq<Event>, p: nat, before: seq<seq<Event>>)
    requires p < |stream|
    ensures before + Pairing(stream, p) == before + [Group(stream, p)] + Pairing(stream, p + |Group(stream, p)|)
  {
  }

  /** The end of a run: the stream is used up, or the last root is gone. */
  ghost predicate Ended(stream: seq<Event>, io: Io, calls: Calls, st: State, tr: Trace) {
    Good(stream, io, calls, st, tr) && Begun(tr) && (tr.pos == |stream| || Replay(st, tr.log, calls).1 == Quit)
  }

  /** However the stream is split into reads: if the stream read in one piece needs no
      rebuild, then every run in which no pair was separated by a timeout ends in the
      same state, for the same reason, after the same calls. */
  lemma {:induction false} ReadsRefineWhole(stream: seq<Event>, io: Io, st: State, tr: Trace, envs: nat -> Env)
    requires Ended(stream, io, CallsOf(envs), st, tr) && NoPairTimedOut(stream, tr.fetched)
    requires Whole(st, stream, 0, CallsOf(envs)).1 != Discard
    ensures var (now, v) := Replay(st, tr.log, CallsOf(envs));
            var (end, last) := Whole(st, stream, 0, CallsOf(envs));
            && NoDiscards(tr.log) && now == end && (v == Quit <==> last == Quit)
            && Groups(tr.log) <= Pairing(stream, 0) && (v != Quit ==> Groups(tr.log) == Pairing(stream, 0))
  {
    CallsAgree(stream, envs);
    RefinesWhole(stream, io, CallsOf(envs), st, tr);
  }

  lemma {:induction false} RefinesWhole(stream: seq<Event>, io: Io, calls: Calls, st: State, tr: Trace)
    requires Ended(stream, io, calls, st, tr) && NoPairTimedOut(stream, tr.fetched)
    requires AllAgree(stream, calls) && Whole(st, stream, 0, calls).1 != Discard
    ensures var (now, v) := Replay(st, tr.log, calls);
            var (end, last) := Whole(st, stream, 0, calls);
            && NoDiscards(tr.log) && now == end && (v == Quit <==> last == Quit)
            && Groups(tr.log) <= Pairing(stream, 0) && (v != Quit ==> Groups(tr.log) == Pairing(stream, 0))
  {
    ReadingIsCanonical(stream, st, tr.log, tr.fetched, calls);
    CanonicalNoDiscards(stream, tr.log);
    StaysOnTrack(stream, st, tr.log, calls);
    PairingOfLog(stream, tr.log);
  }

  /** Two splits of one stream with the same kernel answers: if one run neither rebuilds
      nor separates a pair, then every other run that separates no pair ends with the
      same cache and the same roots. */
  lemma {:induction false} SplitDoesNotMatter(stream: seq<Event>, io: Io, io': Io, st: State, tr: Trace, tr': Trace,
                                              envs: nat -> Env)
    requires Ended(stream, io, CallsOf(envs), st, tr) && Ended(stream, io', CallsOf(envs), st, tr')
    requires NoPairTimedOut(stream, tr.fetched) && NoPairTimedOut(stream, tr'.fetched) && NoDiscards(tr.log)
    ensures NoDiscards(tr'.log) && Replay(st, tr.log, CallsOf(envs)).0 == Replay(st, tr'.log, CallsOf(envs)).0
    ensures Replay(st, tr.log, CallsOf(envs)).1 != Quit ==> Groups(tr.log) == Groups(tr'.log)
  {
    var calls := CallsOf(envs);
    CallsAgree(stream, envs);
    CleanWhole(stream, io, calls, st, tr);
    RefinesWhole(stream, io, calls, st, tr);
    RefinesWhole(stream, io', calls, st, tr');
  }

  lemma {:induction false} CleanWhole(stream: seq<Event>, io: Io, calls: Calls, st: State, tr: Trace)
    requires Ended(stream, io, calls, st, tr) && NoPairTimedOut(stream, tr.fetched) && NoDiscards(tr.log)
    ensures Whole(st, stream, 0, calls).1 != Discard
  {
    LawfulIsCanonical(stream, tr.log, tr.fetched);
    StaysOnTrack(stream, st, tr.log, calls);
  }

  // ----- the loop

  lemma {:induction false} FreshAtEnd(stream: seq<Event>, io: Io, fetched: seq<Read>)
    requires GoodReads(stream, io, fetched)
    ensures Fresh(fetched, End(fetched))
  {
    if fetched != [] {
      FreshAtEnd(stream, io, fetched[..|fetched|-1]);
    }
  }

  lemma {:induction false} BeforeKept(fetched: seq<Read>, r: Read, q: nat)
    requires q <= r.at
    ensures Before(fetched + [r], q) == Before(fetched, q)
  {
    assert (fetched + [r])[..|fetched|] == fetched;
  }

  /** A read for a position that the log has not reached changes nothing for the log. */
  lemma {:induction false} ReadKeepsLawful(stream: seq<Event>, log: seq<Action>, fetched: seq<Read>, r: Read)
    requires Lawful(stream, log, fetched) && Len(log) <= r.at
    ensures Lawful(stream, log, fetched + [r])
  {
    if log != [] {
      var init, a := log[..|log|-1], log[|log|-1];
      ReadKeepsLawful(stream, init, fetched, r);
      OkKept(stream, fetched, Len(init), a, r);
    }
  }

  lemma {:induction false} OkKept(stream: seq<Event>, fetched: seq<Read>, p: nat, a: Action, r: Read)
    requires ActionOk(stream, fetched, p, a) && p + |Events(a)| <= r.at
    ensures ActionOk(stream, fetched + [r], p, a)
  {
    BeforeKept(fetched, r, p + 1);
    BeforeKept(fetched, r, p + |Events(a)|);
  }

  lemma {:induction false} ReadKeepsAsked(stream: seq<Event>, st: State, log: seq<Action>, fetched: seq<Read>,
                                          calls: Calls, r: Read)
    requires Lawful(stream, log, fetched) && Asked(stream, st, log, fetched, calls) && Len(log) <= r.at
    ensures Asked(stream, st, log, fetched + [r], calls)
  {
    if log != [] {
      var init := log[..|log|-1];
      LogGrows(stream, log, fetched);
      ReadKeepsAsked(stream, st, init, fetched, calls, r);
      AskedKept(stream, fetched, Len(init), Replay(st, init, calls).0, calls, r);
    }
  }

  lemma {:induction false} AskedKept(stream: seq<Event>, fetched: seq<Read>, p: nat, now: State, calls: Calls, r: Read)
    requires AskedAt(stream, fetched, p, now, calls) && p < r.at
    ensures AskedAt(stream, fetched + [r], p, now, calls)
  {
    BeforeKept(fetched, r, p + 1);
  }

  lemma {:induction false} Fetch(stream: seq<Event>, io: Io, calls: Calls, st: State, tr: Trace, r: Read)
    requires Good(stream, io, calls, st, tr) && ReadOk(stream, io, tr.fetched, r) && tr.pos <= r.at
    ensures Good(stream, io, calls, st, tr.(fetched := tr.fetched + [r]))
  {
    ReadKeepsLawful(stream, tr.log, tr.fetched, r);
    ReadKeepsAsked(stream, st, tr.log, tr.fetched, calls, r);
    assert (tr.fetched + [r])[..|tr.fetched|] == tr.fetched;
  }

  lemma {:induction false} Append(stream: seq<Event>, io: Io, calls: Calls, st: State, tr: Trace, a: Action)
    requires Good(stream, io, calls, st, tr) && Replay(st, tr.log, calls).1 != Quit
    requires Events(a) != [] && ActionOk(stream, tr.fetched, tr.pos, a) && tr.pos + |Events(a)| <= End(tr.fetched)
    requires Answers(a, Answer(Replay(st, tr.log, calls).0, a, tr.pos, calls).1)
    requires AskedAt(stream, tr.fetched, tr.pos, Replay(st, tr.log, calls).0, calls)
    ensures Good(stream, io, calls, st, tr.(pos := tr.pos + |Events(a)|, log := tr.log + [a]))
    ensures Replay(st, tr.log + [a], calls) == Answer(Replay(st, tr.log, calls).0, a, tr.pos, calls)
  {
    assert (tr.log + [a])[..|tr.log|] == tr.log;
  }

  /** The loop is at `tr.pos` in the buffer. On the second try the last read was the
      retry for that event. */
  ghost predicate InBlock(stream: seq<Event>, tr: Trace, firstTry: bool) {
    && tr.fetched != [] && tr.fetched[|tr.fetched|-1].at <= tr.pos
    && if firstTry then Fresh(tr.fetched, tr.pos)
       else tr.pos < |stream| && MovedFromDir(stream[tr.pos]) && Retried(tr.fetched, tr.pos)
            && Fresh(tr.fetched[..|tr.fetched|-1], tr.pos)
  }

  /** What the loop logs for a call that was not deferred. */
  function Outcome(buf: seq<Event>, firstTry: bool, v: Verdict): Action
    requires buf != []
  {
    if v == Discard then Discarded(buf, firstTry)
    else if v == Consumed(2) && |buf| > 1 then Renamed(buf[0], buf[1])
    else if MovedFromDir(buf[0]) && |buf| == 1 then Cut(buf[0])
    else Handled(buf[0])
  }

  /** The call depends on the buffer only through the events that are logged for it. */
  lemma {:induction false} OutcomeAnswers(st: State, buf: seq<Event>, firstTry: bool, p: nat, envs: nat -> Env)
    requires buf != [] && Process(st, buf, firstTry, envs(p)).1 != Retry
    ensures var (after, v) := Process(st, buf, firstTry, envs(p));
            var a := Outcome(buf, firstTry, v);
            && 0 < |Events(a)| <= |buf| && Events(a) == buf[..|Events(a)|]
            && Answer(st, a, p, CallsOf(envs)) == (after, v) && Answers(a, v)
  {
    VerdictShape(st, buf, firstTry, envs(p));
  }

  /** In the block all reads were made by the time of the event at hand. */
  lemma {:induction false} SeenInBlock(stream: seq<Event>, tr: Trace, firstTry: bool, q: nat)
    requires InBlock(stream, tr, firstTry) && q > tr.pos
    ensures Before(tr.fetched, q) == tr.fetched && (Retried(tr.fetched, tr.pos) <==> !firstTry)
  {
  }

  lemma {:induction false} OutcomeOk(stream: seq<Event>, tr: Trace, firstTry: bool, v: Verdict)
    requires tr.pos < End(tr.fetched) <= |stream| && InBlock(stream, tr, firstTry)
    requires v != Retry && Shaped(stream[tr.pos..End(tr.fetched)], firstTry, v)
    ensures ActionOk(stream, tr.fetched, tr.pos, Outcome(stream[tr.pos..End(tr.fetched)], firstTry, v))
  {
    var buf := stream[tr.pos..End(tr.fetched)];
    var a := Outcome(buf, firstTry, v);
    SeenInBlock(stream, tr, firstTry, tr.pos + 1);
    SeenInBlock(stream, tr, firstTry, tr.pos + |Events(a)|);
    assert Events(a) == buf[..|Events(a)|] == stream[tr.pos..tr.pos + |Events(a)|];
    assert |buf| > 1 ==> buf[1] == stream[tr.pos+1];
  }

  function Next(tr: Trace, a: Action): Trace { tr.(pos := tr.pos + |Events(a)|, log := tr.log + [a]) }

  /** A call that was not deferred: the trace grows by its outcome and stays good. */
  lemma {:induction false} Turn(stream: seq<Event>, io: Io, envs: nat -> Env, st: State, tr: Trace, firstTry: bool)
    requires Good(stream, io, CallsOf(envs), st, tr) && tr.pos < End(tr.fetched) && InBlock(stream, tr, firstTry)
    requires Replay(st, tr.log, CallsOf(envs)).1 != Quit
    requires AskedAt(stream, tr.fetched, tr.pos, Replay(st, tr.log, CallsOf(envs)).0, CallsOf(envs))
    requires var buf := stream[tr.pos..End(tr.fetched)];
             Process(Replay(st, tr.log, CallsOf(envs)).0, buf, firstTry, envs(tr.pos)).1 != Retry
    ensures var buf := stream[tr.pos..End(tr.fetched)];
            var (after, v) := Process(Replay(st, tr.log, CallsOf(envs)).0, buf, firstTry, envs(tr.pos));
            var a := Outcome(buf, firstTry, v);
            && 0 < |Events(a)| <= |buf| && InBlock(stream, Next(tr, a), true) && Begun(Next(tr, a))
            && Good(stream, io, CallsOf(envs), st, Next(tr, a))
            && Replay(st, tr.log + [a], CallsOf(envs)) == (after, v)
  {
    var buf := stream[tr.pos..End(tr.fetched)];
    var now := Replay(st, tr.log, CallsOf(envs)).0;
    var v := Process(now, buf, firstTry, envs(tr.pos)).1;
    VerdictShape(now, buf, firstTry, envs(tr.pos));
    OutcomeAnswers(now, buf, firstTry, tr.pos, envs);
    OutcomeOk(stream, tr, firstTry, v);
    Append(stream, io, CallsOf(envs), st, tr, Outcome(buf, firstTry, v));
    FreshLater(stream, tr, firstTry, Outcome(buf, firstTry, v));
  }

  lemma {:induction false} FreshLater(stream: seq<Event>, tr: Trace, firstTry: bool, a: Action)
    requires InBlock(stream, tr, firstTry) && Events(a) != []
    ensures InBlock(stream, Next(tr, a), true) && Begun(Next(tr, a))
  {
    if !firstTry {
      var init := tr.fetched[..|tr.fetched|-1];
      forall k | 0 <= k < |tr.fetched| && tr.fetched[k].Again? ensures tr.fetched[k].at <= tr.pos {
        assert k < |init| ==> init[k] == tr.fetched[k];
      }
    }
  }

  /** A call that was deferred: the retry read is lawful, and the second try follows. */
  lemma {:induction false} Defer(stream: seq<Event>, io: Io, calls: Calls, st: State, tr: Trace)
    requires Good(stream, io, calls, st, tr) && InBlock(stream, tr, true)
    requires tr.pos + 1 == End(tr.fetched) && MovedFromDir(stream[tr.pos])
    ensures var r := Again(tr.pos, AgainEnd(stream, io, tr.pos));
            var next := tr.(fetched := tr.fetched + [r]);
            Good(stream, io, calls, st, next) && InBlock(stream, next, false)
  {
    Fetch(stream, io, calls, st, tr, Again(tr.pos, AgainEnd(stream, io, tr.pos)));
    assert (tr.fetched + [Again(tr.pos, AgainEnd(stream, io, tr.pos))])[..|tr.fetched|] == tr.fetched;
  }

  lemma {:induction false} StartBlock(stream: seq<Event>, io: Io, calls: Calls, st: State, tr: Trace)
    requires Good(stream, io, calls, st, tr) && tr.pos == End(tr.fetched) < |stream|
    ensures var next := tr.(fetched := tr.fetched + [First(tr.pos, FirstEnd(stream, io, tr.pos))]);
            Good(stream, io, calls, st, next) && InBlock(stream, next, true)
  {
    Fetch(stream, io, calls, st, tr, First(tr.pos, FirstEnd(stream, io, tr.pos)));
    FreshAtEnd(stream, io, tr.fetched);
  }

  /** The cache is what the log says, and the program has ended only if the last call
      said so. */
  ghost predicate InStep(now: State, stream: seq<Event>, io: Io, calls: Calls, st: State, tr: Trace, quit: bool) {
    && Good(stream, io, calls, st, tr)
    && now == Replay(st, tr.log, calls).0 && (quit <==> Replay(st, tr.log, calls).1 == Quit)
  }

  ghost predicate InLoop(now: State, stream: seq<Event>, io: Io, calls: Calls, st: State, tr: Trace, quit: bool,
                         firstTry: bool)
  {
    && InStep(now, stream, io, calls, st, tr, quit) && InBlock(stream, tr, firstTry)
    && (!firstTry ==> calls(now, stream[tr.pos..tr.pos+1], true, tr.pos).1 == Retry)
  }

  /** The trace after a call: a deferred event is followed by a retry read. */
  function After(stream: seq<Event>, io: Io, tr: Trace, firstTry: bool, v: Verdict): Trace
    requires tr.pos < End(tr.fetched) <= |stream|
  {
    if v == Retry then tr.(fetched := tr.fetched + [Again(tr.pos, AgainEnd(stream, io, tr.pos))])
    else Next(tr, Outcome(stream[tr.pos..End(tr.fetched)], firstTry, v))
  }

  /** One call, whatever it answers. */
  lemma {:induction false} LoopStep(stream: seq<Event>, io: Io, envs: nat -> Env, st: State, tr: Trace, firstTry: bool,
                                    now: State, after: State, v: Verdict)
    requires InLoop(now, stream, io, CallsOf(envs), st, tr, false, firstTry) && tr.pos < End(tr.fetched)
    requires (after, v) == Process(now, stream[tr.pos..End(tr.fetched)], firstTry, envs(tr.pos))
    ensures InLoop(after, stream, io, CallsOf(envs), st, After(stream, io, tr, firstTry, v), v == Quit, v != Retry)
    ensures if v == Retry then firstTry
            else After(stream, io, tr, firstTry, v).pos > tr.pos && Begun(After(stream, io, tr, firstTry, v))
  {
    var buf := stream[tr.pos..End(tr.fetched)];
    VerdictShape(now, buf, firstTry, envs(tr.pos));
    if v == Retry {
      RetryKeepsState(now, buf, firstTry, envs(tr.pos));
      Defer(stream, io, CallsOf(envs), st, tr);
    } else {
      SeenInBlock(stream, tr, firstTry, tr.pos + 1);
      Turn(stream, io, envs, st, tr, firstTry);
    }
  }

  lemma {:induction false} RetryKeepsState(st: State, buf: seq<Event>, firstTry: bool, env: Env)
    requires buf != [] && Process(st, buf, firstTry, env).1 == Retry
    ensures Process(st, buf, firstTry, env).0 == st
  {
  }

  /** One turn of the loop: a call for the event at `tr0.pos`, and the retry read if the
      call defers it. */
  method HandleNext(w: Watcher, stream: seq<Event>, io: Io, envs: nat -> Env, tr0: Trace, firstTry: bool,
                    ghost st: State)
    returns (tr: Trace, quit: bool, retry: bool)
    requires forall x :: x in stream ==> KernelForm(x)
    requires w.Counted() && InLoop(w.Now(), stream, io, CallsOf(envs), st, tr0, false, firstTry)
    requires tr0.pos < End(tr0.fetched)
    modifies w, w.wlCache
    ensures w.wlCache == old(w.wlCache) || fresh(w.wlCache)
    ensures w.Counted() && InLoop(w.Now(), stream, io, CallsOf(envs), st, tr, quit, !retry)
    ensures if retry then firstTry && !quit && tr.pos == tr0.pos < End(tr.fetched) else tr.pos > tr0.pos && Begun(tr)
  {
    var buf := stream[tr0.pos..End(tr0.fetched)];
    assert KernelForm(buf[0]) by { assert buf[0] == stream[tr0.pos]; }
    ghost var now := w.Now();
    var v := w.ProcessNext(buf, firstTry, envs(tr0.pos));
    LoopStep(stream, io, envs, st, tr0, firstTry, now, w.Now(), v);
    tr, quit, retry := After(stream, io, tr0, firstTry, v), v == Quit, v == Retry;
  }

  /** processInotifyEvents(): read a block of events and handle it. `st` is the state in
      which the program started. */
  method ProcessInotifyEvents(w: Watcher, stream: seq<Event>, io: Io, envs: nat -> Env, tr0: Trace, ghost st: State)
    returns (tr: Trace, quit: bool)
    requires forall x :: x in stream ==> KernelForm(x)
    requires w.Counted() && InStep(w.Now(), stream, io, CallsOf(envs), st, tr0, false)
    requires tr0.pos == End(tr0.fetched) < |stream|
    modifies w, w.wlCache
    ensures w.wlCache == old(w.wlCache) || fresh(w.wlCache)
    ensures w.Counted() && InStep(w.Now(), stream, io, CallsOf(envs), st, tr, quit)
    ensures tr.pos > tr0.pos && Begun(tr) && (!quit ==> tr.pos == End(tr.fetched))
  {
    quit := false;
    StartBlock(stream, io, CallsOf(envs), st, tr0);
    tr := tr0.(fetched := tr0.fetched + [First(tr0.pos, FirstEnd(stream, io, tr0.pos))]);
    var firstTry := true;
    while tr.pos < End(tr.fetched) && !quit
      invariant tr0.pos <= tr.pos && (tr.pos == tr0.pos || !firstTry ==> tr.pos < End(tr.fetched) && !quit)
      invariant tr.pos > tr0.pos && firstTry ==> Begun(tr)
      invariant w.wlCache == old(w.wlCache) || fresh(w.wlCache)
      invariant w.Counted() && InLoop(w.Now(), stream, io, CallsOf(envs), st, tr, quit, firstTry)
      decreases |stream| - tr.pos, firstTry
    {
      var retry;
      tr, quit, retry := HandleNext(w, stream, io, envs, tr, firstTry, st);
      firstTry := !retry;
    }
  }

  /** The program over a whole finite stream, however it is split into reads. */
  method Run(w: Watcher, stream: seq<Event>, io: Io, envs: nat -> Env) returns (tr: Trace)
    requires forall x :: x in stream ==> KernelForm(x)
    requires w.Counted()
    modifies w, w.wlCache
    ensures w.Counted() && Ended(stream, io, CallsOf(envs), old(w.Now()), tr)
    ensures w.Now() == Replay(old(w.Now()), tr.log, CallsOf(envs)).0
    ensures old(Valid(w.wlCache[..])) ==> Valid(w.wlCache[..])
  {
    tr := Trace(0, [], []);
    var quit := false;
    while tr.pos < |stream| && !quit
      invariant w.wlCache == old(w.wlCache) || fresh(w.wlCache)
      invariant w.Counted() && InStep(w.Now(), stream, io, CallsOf(envs), old(w.Now()), tr, quit)
      invariant Begun(tr) && (!quit ==> tr.pos == End(tr.fetched))
      decreases |stream| - tr.pos
    {
      tr, quit := ProcessInotifyEvents(w, stream, io, envs, tr, old(w.Now()));
    }
    if old(Valid(w.wlCache[..])) {
      ReplayValid(stream, old(w.Now()), tr.log, tr.fetched, envs);
    }
  }
}
