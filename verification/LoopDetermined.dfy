/** The contract of the read loop leaves nothing open: the stream, the sizes of the reads
    and the kernel's answers determine the reads that are made, the log and the cache. */
module LoopDetermined {
  import opened Monitor
  import opened EventLoop

  // ----- the reads

  /** A block is started when the buffer is used up. */
  function WithFirst(stream: seq<Event>, io: Io, before: seq<Read>, p: nat): seq<Read>
    requires p < |stream|
  {
    if End(before) == p then before + [First(p, FirstEnd(stream, io, p))] else before
  }

  lemma {:induction false} BeforeGrows(stream: seq<Event>, io: Io, fetched: seq<Read>, p: nat)
    requires GoodReads(stream, io, fetched)
    ensures |Before(fetched, p)| <= |Before(fetched, p + 1)| <= |fetched|
    ensures forall k :: |Before(fetched, p)| <= k < |Before(fetched, p + 1)| ==> fetched[k].at == p
  {
    var m, n := |Before(fetched, p)|, |Before(fetched, p + 1)|;
    BeforeIsPrefix(fetched, p);
    BeforeIsPrefix(fetched, p + 1);
    if n < m {
      ReadsInOrder(stream, io, fetched, n, m - 1);
    }
    forall k | m <= k < n ensures fetched[k].at == p {
      ReadsInOrder(stream, io, fetched, m, k);
      ReadsInOrder(stream, io, fetched, k, n - 1);
    }
  }

  /** Two reads for one position are a first read and a retry. */
  lemma {:induction false} TwoReads(stream: seq<Event>, io: Io, fetched: seq<Read>, k: nat)
    requires GoodReads(stream, io, fetched) && k + 1 < |fetched| && fetched[k].at == fetched[k+1].at
    ensures fetched[k].First? && fetched[k+1].Again?
  {
    ReadAt(stream, io, fetched, k);
    ReadAt(stream, io, fetched, k+1);
    assert fetched[..k+1][k] == fetched[k];
  }

  lemma {:induction false} AtMostTwo(stream: seq<Event>, io: Io, fetched: seq<Read>, p: nat)
    requires GoodReads(stream, io, fetched)
    ensures |Before(fetched, p)| <= |Before(fetched, p + 1)| <= |Before(fetched, p)| + 2
  {
    var m := |Before(fetched, p)|;
    BeforeGrows(stream, io, fetched, p);
    if |Before(fetched, p + 1)| > m + 2 {
      TwoReads(stream, io, fetched, m);
      TwoReads(stream, io, fetched, m + 1);
    }
  }

  /** Which reads are for position `p`: a first read if the buffer was used up, and after
      it perhaps a retry. */
  ghost predicate Expected(stream: seq<Event>, io: Io, before: seq<Read>, seen: seq<Read>, p: nat)
    requires p < |stream|
  {
    var first := WithFirst(stream, io, before, p);
    if Retried(seen, p) then
      seen == first + [Again(p, AgainEnd(stream, io, p))] && End(first) == p + 1 && MovedFromDir(stream[p])
    else seen == first
  }

  lemma {:induction false} ReadsFor(stream: seq<Event>, io: Io, fetched: seq<Read>, p: nat)
    requires GoodReads(stream, io, fetched) && p < |stream| && p < End(Before(fetched, p + 1))
    ensures Expected(stream, io, Before(fetched, p), Before(fetched, p + 1), p)
  {
    var m, n := |Before(fetched, p)|, |Before(fetched, p + 1)|;
    AtMostTwo(stream, io, fetched, p);
    BeforeGrows(stream, io, fetched, p);
    BeforeIsPrefix(fetched, p);
    BeforeIsPrefix(fetched, p + 1);
    ReadsBetween(stream, io, fetched, p, m, n);
  }

  lemma {:induction false} ReadsBetween(stream: seq<Event>, io: Io, fetched: seq<Read>, p: nat, m: nat, n: nat)
    requires GoodReads(stream, io, fetched) && p < |stream| && m <= n <= m + 2 && n <= |fetched|
    requires forall k :: m <= k < n ==> fetched[k].at == p
    requires m > 0 ==> fetched[m-1].at < p
    requires p < End(fetched[..n])
    ensures Expected(stream, io, fetched[..m], fetched[..n], p)
  {
    if n == m + 1 {
      ReadAt(stream, io, fetched, m);
      OneRead(stream, io, fetched[..m], fetched[m], p);
      assert fetched[..n] == fetched[..m] + [fetched[m]];
    } else if n == m + 2 {
      TwoBetween(stream, io, fetched, p, m);
    }
  }

  lemma {:induction false} TwoBetween(stream: seq<Event>, io: Io, fetched: seq<Read>, p: nat, m: nat)
    requires GoodReads(stream, io, fetched) && p < |stream| && m + 2 <= |fetched|
    requires fetched[m].at == fetched[m+1].at == p
    ensures Expected(stream, io, fetched[..m], fetched[..m+2], p)
  {
    ReadAt(stream, io, fetched, m);
    SecondRead(stream, io, fetched, m);
    BothReads(stream, io, fetched[..m], fetched[m], fetched[m+1], p);
    assert fetched[..m+2] == fetched[..m] + [fetched[m]] + [fetched[m+1]];
  }

  lemma {:induction false} SecondRead(stream: seq<Event>, io: Io, fetched: seq<Read>, k: nat)
    requires GoodReads(stream, io, fetched) && k + 1 < |fetched| && fetched[k].at == fetched[k+1].at
    ensures fetched[k].First? && fetched[k+1].Again? && ReadOk(stream, io, fetched[..k] + [fetched[k]], fetched[k+1])
  {
    TwoReads(stream, io, fetched, k);
    ReadAt(stream, io, fetched, k + 1);
    assert fetched[..k+1] == fetched[..k] + [fetched[k]];
  }

  lemma {:induction false} OneRead(stream: seq<Event>, io: Io, before: seq<Read>, r: Read, p: nat)
    requires p < |stream| && ReadOk(stream, io, before, r) && r.at == p
    ensures Expected(stream, io, before, before + [r], p)
  {
  }

  lemma {:induction false} BothReads(stream: seq<Event>, io: Io, before: seq<Read>, r: Read, r': Read, p: nat)
    requires p < |stream| && ReadOk(stream, io, before, r) && ReadOk(stream, io, before + [r], r')
    requires r.First? && r'.Again? && r.at == r'.at == p
    ensures Expected(stream, io, before, before + [r] + [r'], p)
  {
  }

  /** A retry is made exactly when the first call asks for it. */
  ghost predicate MustRetry(stream: seq<Event>, first: seq<Read>, p: nat, now: State, calls: Calls)
    requires p < |stream|
  {
    End(first) == p + 1 && MovedFromDir(stream[p]) && calls(now, stream[p..p+1], true, p).1 == Retry
  }

  lemma {:induction false} RetriedIff(stream: seq<Event>, io: Io, fetched: seq<Read>, p: nat, a: Action, now: State,
                                      calls: Calls)
    requires GoodReads(stream, io, fetched) && ActionOk(stream, fetched, p, a) && Events(a) != [] && p < |stream|
    requires Answers(a, Answer(now, a, p, calls).1) && AskedAt(stream, fetched, p, now, calls)
    ensures Retried(Before(fetched, p + 1), p) <==>
            MustRetry(stream, WithFirst(stream, io, Before(fetched, p), p), p, now, calls)
  {
    ReadsFor(stream, io, fetched, p);
    assert Events(a)[0] == stream[p];
  }

  lemma {:induction false} SameReads(stream: seq<Event>, io: Io, f: seq<Read>, f': seq<Read>, p: nat, a: Action,
                                     a': Action,
                                     now: State, calls: Calls)
    requires GoodReads(stream, io, f) && ActionOk(stream, f, p, a) && AskedAt(stream, f, p, now, calls)
    requires GoodReads(stream, io, f') && ActionOk(stream, f', p, a') && AskedAt(stream, f', p, now, calls)
    requires Answers(a, Answer(now, a, p, calls).1) && Answers(a', Answer(now, a', p, calls).1)
    requires Events(a) != [] && Events(a') != [] && p < |stream| && Before(f, p) == Before(f', p)
    ensures Before(f, p + 1) == Before(f', p + 1)
  {
    RetriedIff(stream, io, f, p, a, now, calls);
    RetriedIff(stream, io, f', p, a', now, calls);
    ReadsFor(stream, io, f, p);
    ReadsFor(stream, io, f', p);
  }

  // ----- the log

  /** A call that rebuilds would also rebuild with only the events that it could consume. */
  lemma {:induction false} DiscardAnyway(st: State, buf: seq<Event>, firstTry: bool, n: nat, env: Env)
    requires 0 < n <= |buf| && Process(st, buf, firstTry, env).1 == Discard
    requires if n == 1 then MovedFromDir(buf[0]) ==> if |buf| > 1 then !IsPair(buf[0], buf[1]) else !firstTry
             else n == 2 && IsPair(buf[0], buf[1])
    ensures Process(st, buf[..n], false, env).1 == Discard
  {
  }

  lemma {:induction false} DiscardOrNot(stream: seq<Event>, f: seq<Read>, f': seq<Read>, p: nat, d: Action, a: Action,
                                        now: State, envs: nat -> Env)
    requires ActionOk(stream, f, p, d) && ActionOk(stream, f', p, a) && Before(f, p + 1) == Before(f', p + 1)
    requires d.Discarded? && Answers(d, Answer(now, d, p, CallsOf(envs)).1)
    requires Events(a) != [] && Answers(a, Answer(now, a, p, CallsOf(envs)).1)
    ensures a.Discarded?
  {
    if !a.Discarded? {
      var evs, n := Events(d), |Events(a)|;
      assert evs[..n] == Events(a);
      assert n > 1 ==> evs[1] == Events(a)[1];
      assert |evs| > 1 ==> evs[1] == stream[p+1];
      DiscardAnyway(now, evs, d.firstTry, n, envs(p));
    }
  }

  lemma {:induction false} SameAction(stream: seq<Event>, f: seq<Read>, f': seq<Read>, p: nat, a: Action, a': Action,
                                      now: State, envs: nat -> Env)
    requires ActionOk(stream, f, p, a) && ActionOk(stream, f', p, a') && Before(f, p + 1) == Before(f', p + 1)
    requires Events(a) != [] && Events(a') != []
    requires Answers(a, Answer(now, a, p, CallsOf(envs)).1) && Answers(a', Answer(now, a', p, CallsOf(envs)).1)
    ensures a == a'
  {
    if a.Discarded? {
      DiscardOrNot(stream, f, f', p, a, a', now, envs);
    } else if a'.Discarded? {
      DiscardOrNot(stream, f', f, p, a', a, now, envs);
    } else {
      PlainActions(stream, f, f', p, a, a');
    }
  }

  lemma {:induction false} PlainActions(stream: seq<Event>, f: seq<Read>, f': seq<Read>, p: nat, a: Action, a': Action)
    requires ActionOk(stream, f, p, a) && ActionOk(stream, f', p, a') && Before(f, p + 1) == Before(f', p + 1)
    requires !a.Discarded? && !a'.Discarded?
    ensures a == a'
  {
    assert Events(a)[0] == stream[p] == Events(a')[0];
    assert a.Renamed? ==> Events(a)[1] == stream[p+1];
    assert a'.Renamed? ==> Events(a')[1] == stream[p+1];
  }

  /** One action only fits the state and the reads at a position. */
  ghost predicate Picks(stream: seq<Event>, calls: Calls, now: State, f: seq<Read>, f': seq<Read>, p: nat,
                        a: Action, a': Action)
  {
    ActionOk(stream, f, p, a) && ActionOk(stream, f', p, a') && Before(f, p + 1) == Before(f', p + 1)
    && Events(a) != [] && Events(a') != []
    && Answers(a, Answer(now, a, p, calls).1) && Answers(a', Answer(now, a', p, calls).1)
    ==> a == a'
  }

  ghost predicate Decided(stream: seq<Event>, calls: Calls) {
    forall now, f, f', p: nat, a, a' :: Picks(stream, calls, now, f, f', p, a, a')
  }

  lemma {:induction false} CallsDecide(stream: seq<Event>, envs: nat -> Env)
    ensures Decided(stream, CallsOf(envs))
  {
    forall now, f, f', p: nat, a, a' ensures Picks(stream, CallsOf(envs), now, f, f', p, a, a') {
      if ActionOk(stream, f, p, a) && ActionOk(stream, f', p, a') && Before(f, p + 1) == Before(f', p + 1)
         && Events(a) != [] && Events(a') != []
         && Answers(a, Answer(now, a, p, CallsOf(envs)).1) && Answers(a', Answer(now, a', p, CallsOf(envs)).1) {
        SameAction(stream, f, f', p, a, a', now, envs);
      }
    }
  }

  // ----- whole runs

  /** What a good trace says about an action at `p`, in state `now`. */
  ghost predicate EntryOk(stream: seq<Event>, calls: Calls, now: State, p: nat, a: Action, fetched: seq<Read>) {
    && ActionOk(stream, fetched, p, a) && AskedAt(stream, fetched, p, now, calls)
    && Answers(a, Answer(now, a, p, calls).1) && Events(a) != [] && p < |stream|
  }

  /** The n-th action of a log. */
  ghost predicate EntryAt(stream: seq<Event>, calls: Calls, st: State, log: seq<Action>, fetched: seq<Read>, n: nat)
    requires n < |log|
  {
    EntryOk(stream, calls, Replay(st, log[..n], calls).0, Len(log[..n]), log[n], fetched)
  }

  ghost predicate Entries(stream: seq<Event>, calls: Calls, st: State, log: seq<Action>, fetched: seq<Read>) {
    forall n: nat :: n < |log| ==> EntryAt(stream, calls, st, log, fetched, n)
  }

  lemma {:induction false} Entry(stream: seq<Event>, calls: Calls, st: State, log: seq<Action>, fetched: seq<Read>,
                                 n: nat)
    requires Lawful(stream, log, fetched) && Explained(st, log, calls) && Asked(stream, st, log, fetched, calls)
    requires n < |log|
    ensures EntryAt(stream, calls, st, log, fetched, n) && Replay(st, log[..n], calls).1 != Quit
  {
    if n < |log| - 1 {
      Entry(stream, calls, st, log[..|log|-1], fetched, n);
      assert log[..|log|-1][..n] == log[..n];
    } else {
      LastEntry(stream, calls, st, log, fetched);
    }
  }

  lemma {:induction false} LastEntry(stream: seq<Event>, calls: Calls, st: State, log: seq<Action>, fetched: seq<Read>)
    requires Lawful(stream, log, fetched) && Explained(st, log, calls) && Asked(stream, st, log, fetched, calls)
    requires log != []
    ensures EntryAt(stream, calls, st, log, fetched, |log|-1) && Replay(st, log[..|log|-1], calls).1 != Quit
  {
    NextEvents(stream, fetched, Len(log[..|log|-1]), log[|log|-1]);
  }

  lemma {:induction false} AllEntries(stream: seq<Event>, io: Io, calls: Calls, st: State, tr: Trace)
    requires Good(stream, io, calls, st, tr)
    ensures Entries(stream, calls, st, tr.log, tr.fetched)
  {
    forall n: nat | n < |tr.log| ensures EntryAt(stream, calls, st, tr.log, tr.fetched, n) {
      Entry(stream, calls, st, tr.log, tr.fetched, n);
    }
  }

  lemma {:induction false} NoReadInside(stream: seq<Event>, fetched: seq<Read>, p: nat, a: Action)
    requires ActionOk(stream, fetched, p, a)
    ensures Before(fetched, p + |Events(a)|) == Before(fetched, p + 1)
  {
  }

  lemma {:induction false} SameEntry(stream: seq<Event>, io: Io, calls: Calls, now: State, p: nat, a: Action,
                                     a': Action,
                                     f: seq<Read>, f': seq<Read>)
    requires GoodReads(stream, io, f) && GoodReads(stream, io, f') && Decided(stream, calls)
    requires EntryOk(stream, calls, now, p, a, f) && EntryOk(stream, calls, now, p, a', f')
    requires Before(f, p) == Before(f', p)
    ensures a == a' && Before(f, p + |Events(a)|) == Before(f', p + |Events(a)|)
  {
    SameReads(stream, io, f, f', p, a, a', now, calls);
    assert Picks(stream, calls, now, f, f', p, a, a');
    NoReadInside(stream, f, p, a);
    NoReadInside(stream, f', p, a);
  }

  lemma {:induction false} LenNext(log: seq<Action>, n: nat)
    requires n < |log|
    ensures log[..n+1] == log[..n] + [log[n]] && Len(log[..n+1]) == Len(log[..n]) + |Events(log[n])|
  {
    assert log[..n+1][..n] == log[..n];
  }

  lemma {:induction false} NothingBeforeStart(fetched: seq<Read>)
    ensures Before(fetched, 0) == []
  {
    if fetched != [] {
      NothingBeforeStart(fetched[..|fetched|-1]);
    }
  }

  /** The first `n` actions of two runs are the same, and so are the reads up to then. */
  ghost predicate SameUpTo(tr: Trace, tr': Trace, n: nat) {
    && n <= |tr.log| && n <= |tr'.log| && tr.log[..n] == tr'.log[..n]
    && Before(tr.fetched, Len(tr.log[..n])) == Before(tr'.fetched, Len(tr.log[..n]))
  }

  lemma {:induction false} SameStart(stream: seq<Event>, io: Io, calls: Calls, st: State, tr: Trace, tr': Trace, n: nat)
    requires GoodReads(stream, io, tr.fetched) && Entries(stream, calls, st, tr.log, tr.fetched)
    requires GoodReads(stream, io, tr'.fetched) && Entries(stream, calls, st, tr'.log, tr'.fetched)
    requires Decided(stream, calls) && n <= |tr.log| && n <= |tr'.log|
    ensures SameUpTo(tr, tr', n)
    decreases n
  {
    if n == 0 {
      SameAtStart(tr, tr');
    } else {
      SameStart(stream, io, calls, st, tr, tr', n-1);
      SameNext(stream, io, calls, st, tr, tr', n-1);
    }
  }

  lemma {:induction false} SameAtStart(tr: Trace, tr': Trace)
    ensures SameUpTo(tr, tr', 0)
  {
    NothingBeforeStart(tr.fetched);
    NothingBeforeStart(tr'.fetched);
  }

  lemma {:induction false} SameNext(stream: seq<Event>, io: Io, calls: Calls, st: State, tr: Trace, tr': Trace, n: nat)
    requires GoodReads(stream, io, tr.fetched) && GoodReads(stream, io, tr'.fetched) && Decided(stream, calls)
    requires n < |tr.log| && n < |tr'.log| && SameUpTo(tr, tr', n)
    requires Entries(stream, calls, st, tr.log, tr.fetched) && Entries(stream, calls, st, tr'.log, tr'.fetched)
    ensures SameUpTo(tr, tr', n + 1)
  {
    assert EntryAt(stream, calls, st, tr.log, tr.fetched, n) && EntryAt(stream, calls, st, tr'.log, tr'.fetched, n);
    SameAt(stream, io, calls, Replay(st, tr.log[..n], calls).0, tr, tr', n);
  }

  lemma {:induction false} SameAt(stream: seq<Event>, io: Io, calls: Calls, now: State, tr: Trace, tr': Trace, n: nat)
    requires GoodReads(stream, io, tr.fetched) && GoodReads(stream, io, tr'.fetched) && Decided(stream, calls)
    requires n < |tr.log| && n < |tr'.log| && SameUpTo(tr, tr', n)
    requires EntryOk(stream, calls, now, Len(tr.log[..n]), tr.log[n], tr.fetched)
    requires EntryOk(stream, calls, now, Len(tr.log[..n]), tr'.log[n], tr'.fetched)
    ensures SameUpTo(tr, tr', n + 1)
  {
    SameEntry(stream, io, calls, now, Len(tr.log[..n]), tr.log[n], tr'.log[n], tr.fetched, tr'.fetched);
    SameLonger(tr, tr', n);
  }

  lemma {:induction false} SameLonger(tr: Trace, tr': Trace, n: nat)
    requires n < |tr.log| && n < |tr'.log| && SameUpTo(tr, tr', n) && tr.log[n] == tr'.log[n]
    requires var q := Len(tr.log[..n]) + |Events(tr.log[n])|;
             Before(tr.fetched, q) == Before(tr'.fetched, q)
    ensures SameUpTo(tr, tr', n + 1)
  {
    LenNext(tr.log, n);
    LenNext(tr'.log, n);
  }

  /** Nothing can follow a finished run. */
  lemma {:induction false} NoLonger(stream: seq<Event>, io: Io, calls: Calls, st: State, tr: Trace, tr': Trace)
    requires Ended(stream, io, calls, st, tr) && Good(stream, io, calls, st, tr')
    requires tr.log <= tr'.log
    ensures tr.log == tr'.log
  {
    var n := |tr.log|;
    if n < |tr'.log| {
      assert tr'.log[..n] == tr.log;
      Entry(stream, calls, st, tr'.log, tr'.fetched, n);
    }
  }

  lemma {:induction false} NotLonger(stream: seq<Event>, io: Io, calls: Calls, st: State, tr: Trace, tr': Trace)
    requires Ended(stream, io, calls, st, tr) && Ended(stream, io, calls, st, tr') && Decided(stream, calls)
    requires |tr.log| <= |tr'.log|
    ensures tr == tr'
  {
    AllEntries(stream, io, calls, st, tr);
    AllEntries(stream, io, calls, st, tr');
    SameStart(stream, io, calls, st, tr, tr', |tr.log|);
    assert tr.log[..|tr.log|] == tr.log;
    NoLonger(stream, io, calls, st, tr, tr');
    AllBegun(tr);
    AllBegun(tr');
  }

  lemma {:induction false} AllBegun(tr: Trace)
    requires Begun(tr)
    ensures Before(tr.fetched, tr.pos) == tr.fetched
  {
  }

  /** Main result: two finished runs over one stream, with reads of the same sizes and the
      same kernel answers, made the same reads and have the same log, so they end with
      the same cache. */
  lemma {:induction false} RunDetermined(stream: seq<Event>, io: Io, envs: nat -> Env, st: State, tr: Trace, tr': Trace)
    requires Ended(stream, io, CallsOf(envs), st, tr) && Ended(stream, io, CallsOf(envs), st, tr')
    ensures tr == tr'
  {
    CallsDecide(stream, envs);
    if |tr.log| <= |tr'.log| {
      NotLonger(stream, io, CallsOf(envs), st, tr, tr');
    } else {
      NotLonger(stream, io, CallsOf(envs), st, tr', tr);
    }
  }
}
