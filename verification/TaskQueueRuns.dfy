/** Exact statements about whole runs of the queue: when counted calls leak, what the
    ticker is for, and how long a call of Enqueue takes. */
module TaskQueueRuns {
  import opened TaskQueueSystem

  lemma RunCons(s: System, m: Move, ms: seq<Move>)
    requires Enabled(s, m.thread, m.choice) && CanRun(Step(s, m.thread, m.choice), ms)
    ensures CanRun(s, [m] + ms) && Run(s, [m] + ms) == Run(Step(s, m.thread, m.choice), ms)
  {
    assert ([m] + ms)[1..] == ms;
  }

  lemma {:induction false} RunAppend(s: System, xs: seq<Move>, ys: seq<Move>)
    requires CanRun(s, xs) && CanRun(Run(s, xs), ys)
    ensures CanRun(s, xs + ys) && Run(s, xs + ys) == Run(Run(s, xs), ys)
    decreases |xs|
  {
    if xs == [] {
      assert xs + ys == ys;
    } else {
      assert (xs + ys)[1..] == xs[1..] + ys;
      RunAppend(Step(s, xs[0].thread, xs[0].choice), xs[1..], ys);
    }
  }

  lemma RunSnoc(s: System, ms: seq<Move>, m: Move)
    requires CanRun(s, ms) && Enabled(Run(s, ms), m.thread, m.choice)
    ensures CanRun(s, ms + [m]) && Run(s, ms + [m]) == Step(Run(s, ms), m.thread, m.choice)
  {
    var t := Step(Run(s, ms), m.thread, m.choice);
    assert Run(t, []) == t;
    RunCons(Run(s, ms), m, []);
    assert [m] + [] == [m];
    RunAppend(s, ms, [m]);
  }

  // ---------------------------------------------------------------- one producer

  /** The first three steps of a call on a new queue: started, not stopped, counted. */
  lemma CallIsCounted(s: System, i: nat, item: Item) returns (ms: seq<Move>)
    requires s.q == NewQueue() && i < |s.threads| && s.threads[i].PIdle?
    ensures CanRun(s, ms) && Run(s, ms).cfg == s.cfg
    ensures Run(s, ms).threads == s.threads[i := if s.cfg.overflow.Unknown? then PReturn(false) else PSend(item, 0)]
    ensures Run(s, ms).q == NewQueue().(enqueued := 1, leaked := if s.cfg.overflow.Unknown? then 1 else 0)
  {
    var m1, go := Move(i, Start(item)), Move(i, Go);
    var s1 := Step(s, i, Start(item));
    assert s1 == System(s.cfg, s.q, s.threads[i := PCheck(item)]);
    var s2 := Step(s1, i, Go);
    assert s2.threads == s.threads[i := PCount(item)] && s2.q == s.q;
    var s3 := Step(s2, i, Go);
    assert s3.threads == s.threads[i := if s.cfg.overflow.Unknown? then PReturn(false) else PSend(item, 0)];
    ms := [];
    RunSnoc(s, ms, m1);
    ms := ms + [m1];
    RunSnoc(s, ms, go);
    ms := ms + [go];
    RunSnoc(s, ms, go);
    ms := ms + [go];
  }

  /** A fourth step has the channel accept the item. */
  lemma CallIsAccepted(s: System, i: nat, item: Item) returns (ms: seq<Move>)
    requires s.q == NewQueue() && s.cfg.capacity > 0 && !s.cfg.overflow.Unknown?
    requires i < |s.threads| && s.threads[i].PIdle?
    ensures CanRun(s, ms) && Run(s, ms).cfg == s.cfg && Run(s, ms).threads == s.threads[i := PReturn(true)]
    ensures Run(s, ms).q == NewQueue().(buffer := [item], sent := [item], enqueued := 1)
  {
    ms := CallIsCounted(s, i, item);
    var t := Run(s, ms);
    var t' := Step(t, i, Go);
    assert t'.q.buffer == [item] && t'.q.sent == [item];
    assert t'.threads == s.threads[i := PReturn(true)];
    RunSnoc(s, ms, Move(i, Go));
    ms := ms + [Move(i, Go)];
  }

  /** Stop begins: its caller cancels and the number of items sent is on record. */
  lemma StopBegins(s: System, ms: seq<Move>, j: nat)
    requires CanRun(s, ms) && j < |Run(s, ms).threads| && Run(s, ms).threads[j].DIdle? && !Run(s, ms).q.done
    ensures CanRun(s, ms + [Move(j, Cancel)])
    ensures Run(s, ms + [Move(j, Cancel)])
            == Run(s, ms).(q := Run(s, ms).q.(done := true, mark := |Run(s, ms).q.sent|))
  {
    RunSnoc(s, ms, Move(j, Cancel));
    var t := Run(s, ms);
    assert t.threads[j := DIdle] == t.threads;
  }

  // ---------------------------------------------------------------- leaks

  /** The two places where a counted call returns without settling a counter. */
  predicate LeaksNow(t: Thread, c: Choice, cfg: Config) {
    (t.PSend? && c.OnDone?) || (t.PCount? && cfg.overflow.Unknown?)
  }

  lemma StepLeaksExactly(s: System, i: nat, c: Choice)
    requires Enabled(s, i, c)
    ensures Step(s, i, c).q.leaked == s.q.leaked + if LeaksNow(s.threads[i], c, s.cfg) then 1 else 0
  {
  }

  /** Under the blocking policy: a producer is counted and waits, the queue is
      stopped, the call returns false. */
  lemma BlockingRunLeaks(s: System, i: nat, j: nat, item: Item) returns (ms: seq<Move>)
    requires Fresh(s) && s.cfg.overflow.Block?
    requires i < |s.threads| && s.threads[i].PIdle? && j < |s.threads| && s.threads[j].DIdle?
    ensures CanRun(s, ms) && Run(s, ms).threads == s.threads[i := PReturn(false)]
    ensures Run(s, ms).q.leaked == 1 && Run(s, ms).q.enqueued == 1 && Run(s, ms).q.sent == []
  {
    ms := CallIsCounted(s, i, item);
    StopBegins(s, ms, j);
    ms := ms + [Move(j, Cancel)];
    var t := Run(s, ms);
    RunSnoc(s, ms, Move(i, OnDone));
    ms := ms + [Move(i, OnDone)];
    assert t.threads[i := PReturn(false)] == s.threads[i := PReturn(false)];
  }

  ghost predicate NeverLeaks(s: System) {
    forall ms :: CanRun(s, ms) ==> Run(s, ms).q.leaked == 0
  }

  /** No run of a new queue, with a producer and somebody to stop it, leaks iff the
      policy is DropOldest or Reject. */
  lemma NeverLeaksExactly(s: System, i: nat, j: nat)
    requires Fresh(s)
    requires i < |s.threads| && s.threads[i].PIdle? && j < |s.threads| && s.threads[j].DIdle?
    ensures NeverLeaks(s) <==> s.cfg.overflow.DropOldest? || s.cfg.overflow.Reject?
  {
    if s.cfg.overflow.DropOldest? || s.cfg.overflow.Reject? {
      forall ms | CanRun(s, ms) ensures Run(s, ms).q.leaked == 0 {
        QueueConserves(s, ms);
      }
    } else if s.cfg.overflow.Block? {
      var ms := BlockingRunLeaks(s, i, j, 0);
      assert CanRun(s, ms) && Run(s, ms).q.leaked != 0;
    } else {
      var ms := CallIsCounted(s, i, 0);
      assert CanRun(s, ms) && Run(s, ms).q.leaked != 0;
    }
  }

  /** enqueued <= drained + dropped + rejected. */
  predicate CommentHolds(q: Queue) { q.enqueued <= q.drained + q.dropped + q.rejected }

  /** In a reached state that holds iff nothing is buffered, nothing has leaked and
      nobody is inside a call or holds an uncounted item. */
  lemma CommentHoldsExactly(s: System, ms: seq<Move>)
    requires Fresh(s) && CanRun(s, ms)
    ensures var t := Run(s, ms); CommentHolds(t.q) <==> |t.q.buffer| + t.q.leaked + AllOwed(t.threads) == 0
  {
    QueueConserves(s, ms);
  }

  /** Any accepted item that nobody has taken yet violates it. */
  lemma CommentFails(s: System, i: nat, item: Item) returns (ms: seq<Move>)
    requires Fresh(s) && !s.cfg.overflow.Unknown? && i < |s.threads| && s.threads[i].PIdle?
    ensures CanRun(s, ms) && Run(s, ms).threads == s.threads[i := PReturn(true)] && !CommentHolds(Run(s, ms).q)
  {
    ms := CallIsAccepted(s, i, item);
  }

  // ---------------------------------------------------------------- shutdown

  predicate Resting(t: Thread) { t.WWait? || (t.WCollect? && t.batch == []) }

  /** A stopped pool whose workers hold nothing can leave without looking at the
      channel again. */
  lemma {:induction false} WorkersLeave(s: System, k: nat) returns (ms: seq<Move>)
    requires s.q.done && k <= |s.threads|
    requires forall t :: 0 <= t < k && Working(s.threads[t]) ==> s.threads[t].WExit?
    requires forall t :: k <= t < |s.threads| && Working(s.threads[t]) ==> Resting(s.threads[t])
    ensures CanRun(s, ms) && Run(s, ms).q == s.q && |Run(s, ms).threads| == |s.threads|
    ensures forall t :: 0 <= t < |s.threads| ==>
              Run(s, ms).threads[t] == if Working(s.threads[t]) then WExit else s.threads[t]
    decreases |s.threads| - k
  {
    if k == |s.threads| {
      ms := [];
    } else if !Working(s.threads[k]) {
      ms := WorkersLeave(s, k + 1);
    } else {
      var head := WorkerLeaves(s, k);
      var tail := WorkersLeave(Run(s, head), k + 1);
      RunAppend(s, head, tail);
      ms := head + tail;
    }
  }

  lemma WorkerLeaves(s: System, k: nat) returns (ms: seq<Move>)
    requires s.q.done && k < |s.threads| && Resting(s.threads[k])
    ensures CanRun(s, ms) && Run(s, ms) == s.(threads := s.threads[k := WExit])
  {
    ms := [];
    assert Run(s, ms) == s;
    if s.threads[k].WCollect? {
      RunSnoc(s, ms, Move(k, OnDone));
      ms := ms + [Move(k, OnDone)];
      var t := Run(s, ms);
      assert t.threads[k] == WFlush([], true);
      RunSnoc(s, ms, Move(k, Go));
      ms := ms + [Move(k, Go)];
      assert t.threads[k := WExit] == s.threads[k := WExit];
    } else {
      RunSnoc(s, ms, Move(k, OnDone));
      ms := ms + [Move(k, OnDone)];
    }
  }

  lemma {:induction false} NobodyHolds(ts: seq<Thread>)
    requires forall t :: 0 <= t < |ts| ==> !ts[t].DDrain? && !ts[t].DTook?
    ensures CallersHold(ts) == multiset{}
  {
    if ts != [] { NobodyHolds(ts[1..]); }
  }

  ghost predicate HasTicker(s: System) {
    exists t :: 0 <= t < |s.threads| && Ticking(s.threads[t])
  }

  /** Without a ticker, whatever the pool, the batch size and the policy: a run in
      which Enqueue returns true, Stop begins and returns afterwards, and the item is
      still in the channel, where nobody will look for it. */
  lemma WithoutTickerItemsAreLost(s: System, i: nat, j: nat, item: Item) returns (ms: seq<Move>)
    requires Fresh(s) && !HasTicker(s) && !s.cfg.overflow.Unknown?
    requires i < |s.threads| && s.threads[i].PIdle? && j < |s.threads| && s.threads[j].DIdle?
    ensures CanRun(s, ms) && Stopped(Run(s, ms)) && !Kept(Run(s, ms))
    ensures i < |Run(s, ms).threads| && Run(s, ms).threads[i] == PReturn(true)
    ensures Run(s, ms).q.mark == 1 && Run(s, ms).q.buffer == [item]
  {
    var head := AcceptedThenStopped(s, i, j, item);
    var t := Run(s, head);
    PoolRests(s, i, t.threads);
    var tail := WorkersLeave(t, 0);
    RunAppend(s, head, tail);
    ms := head + tail;
    var u := Run(s, ms);
    assert forall k :: 0 <= k < |u.threads| ==> !Ticking(u.threads[k]) && !u.threads[k].DDrain? && !u.threads[k].DTook?;
    ItemIsLost(u, item);
  }

  lemma AcceptedThenStopped(s: System, i: nat, j: nat, item: Item) returns (ms: seq<Move>)
    requires Fresh(s) && !s.cfg.overflow.Unknown?
    requires i < |s.threads| && s.threads[i].PIdle? && j < |s.threads| && s.threads[j].DIdle?
    ensures CanRun(s, ms) && Run(s, ms).threads == s.threads[i := PReturn(true)]
    ensures Run(s, ms).q == NewQueue().(buffer := [item], sent := [item], enqueued := 1, done := true, mark := 1)
  {
    ms := CallIsAccepted(s, i, item);
    StopBegins(s, ms, j);
    ms := ms + [Move(j, Cancel)];
  }

  /** The other goroutines while the producer has made its call. */
  lemma PoolRests(s: System, i: nat, ts: seq<Thread>)
    requires Fresh(s) && !HasTicker(s) && i < |s.threads| && ts == s.threads[i := PReturn(true)]
    ensures forall k :: 0 <= k < |ts| ==> !Ticking(ts[k]) && !ts[k].DDrain? && !ts[k].DTook?
    ensures forall k :: 0 <= k < |ts| && Working(ts[k]) ==> Resting(ts[k])
  {
    assert forall k :: 0 <= k < |ts| ==> !Ticking(s.threads[k]);
  }

  lemma ItemIsLost(u: System, item: Item)
    requires forall k :: 0 <= k < |u.threads| ==> !u.threads[k].DDrain? && !u.threads[k].DTook?
    requires u.q.sent == [item] && u.q.mark == 1 && u.q.delivered == multiset{} && u.q.overwritten == multiset{}
    ensures !Kept(u)
  {
    NobodyHolds(u.threads);
    assert u.q.sent[..1] == [item];
    assert multiset([item])[item] == 1;
  }

  lemma {:induction false} TickersRemain(s: System, ms: seq<Move>, t: nat)
    requires CanRun(s, ms) && t < |s.threads| && Ticking(s.threads[t])
    ensures t < |Run(s, ms).threads| && Ticking(Run(s, ms).threads[t])
    decreases |ms|
  {
    if ms != [] { TickersRemain(Step(s, ms[0].thread, ms[0].choice), ms[1..], t); }
  }

  /** An unknown policy sends nothing. */
  ghost predicate NothingSent(s: System) {
    s.q.sent == [] && forall t :: 0 <= t < |s.threads| ==> !s.threads[t].PSend? && !s.threads[t].PEvict? && !s.threads[t].PTally?
  }

  lemma {:induction false} UnknownSendsNothing(s: System, ms: seq<Move>)
    requires s.cfg.overflow.Unknown? && NothingSent(s) && CanRun(s, ms)
    ensures NothingSent(Run(s, ms))
    decreases |ms|
  {
    if ms != [] {
      var s' := Step(s, ms[0].thread, ms[0].choice);
      assert forall t :: 0 <= t < |s'.threads| && t != ms[0].thread ==> s'.threads[t] == s.threads[t];
      UnknownSendsNothing(s', ms[1..]);
    }
  }

  /** Nothing accepted is lost by any run that stops, iff there is a ticker (or a
      policy that accepts nothing). */
  lemma StopLosesNothingExactly(s: System, i: nat, j: nat)
    requires Fresh(s)
    requires i < |s.threads| && s.threads[i].PIdle? && j < |s.threads| && s.threads[j].DIdle?
    ensures (forall ms :: CanRun(s, ms) && Stopped(Run(s, ms)) ==> Kept(Run(s, ms)))
            <==> HasTicker(s) || s.cfg.overflow.Unknown?
  {
    if HasTicker(s) {
      var t :| 0 <= t < |s.threads| && Ticking(s.threads[t]);
      forall ms | CanRun(s, ms) && Stopped(Run(s, ms)) ensures Kept(Run(s, ms)) {
        TickersRemain(s, ms, t);
        ShutdownLosesNothing(s, ms, t);
      }
    } else if s.cfg.overflow.Unknown? {
      forall ms | CanRun(s, ms) ensures Kept(Run(s, ms)) {
        UnknownSendsNothing(s, ms);
        FreshIsOk(s);
        RunKeepsOk(s, ms);
      }
    } else {
      var ms := WithoutTickerItemsAreLost(s, i, j, 0);
      assert CanRun(s, ms) && Stopped(Run(s, ms)) && !Kept(Run(s, ms));
    }
  }

  // ---------------------------------------------------------------- bounded calls

  predicate Inside(t: Thread) { Producing(t) && !t.PIdle? && !t.PReturn? }

  /** Steps a producer can still take before Enqueue returns. */
  function Remaining(t: Thread): nat {
    match t
    case PCheck(_) => 3 * MAX_RETRIES + 6
    case PCount(_) => 3 * MAX_RETRIES + 5
    case PSend(_, tries) => if tries > MAX_RETRIES then 4 else 3 * (MAX_RETRIES - tries) + 4
    case PEvict(_, tries) => if tries > MAX_RETRIES then 3 else 3 * (MAX_RETRIES - tries) + 3
    case PTally(_, tries) => if tries > MAX_RETRIES then 2 else 3 * (MAX_RETRIES - tries) + 2
    case PGiveUp | PRefuse => 1
    case _ => 0
  }

  /** A producer never waits, and each step brings it nearer to its return. */
  lemma StepNearsReturn(s: System, i: nat, c: Choice)
    requires i < |s.threads| && Inside(s.threads[i]) && (s.cfg.overflow.DropOldest? || s.cfg.overflow.Reject?)
    ensures Enabled(s, i, Go)
    ensures Enabled(s, i, c) ==> Remaining(Step(s, i, c).threads[i]) < Remaining(s.threads[i]) <= 198
  {
  }

  /** The moves of one goroutine. */
  function Own(ms: seq<Move>, i: nat): nat {
    if ms == [] then 0 else (if ms[0].thread == i then 1 else 0) + Own(ms[1..], i)
  }

  /** Goroutine i is inside one call of Enqueue all along the run. */
  ghost predicate StaysInside(s: System, ms: seq<Move>, i: nat)
    requires CanRun(s, ms)
    decreases |ms|
  {
    && i < |s.threads| && Inside(s.threads[i])
    && (ms == [] || StaysInside(Step(s, ms[0].thread, ms[0].choice), ms[1..], i))
  }

  /** Under DropOldest and Reject: at any point of a call its producer can move, and
      it has made at most 198 steps, however many the other goroutines took. */
  lemma {:induction false} EnqueueIsBounded(s: System, ms: seq<Move>, i: nat)
    requires CanRun(s, ms) && StaysInside(s, ms, i) && (s.cfg.overflow.DropOldest? || s.cfg.overflow.Reject?)
    ensures i < |s.threads| && i < |Run(s, ms).threads|
    ensures Own(ms, i) + Remaining(Run(s, ms).threads[i]) <= Remaining(s.threads[i]) <= 198
    ensures Enabled(Run(s, ms), i, Go)
    decreases |ms|
  {
    if ms == [] {
      StepNearsReturn(s, i, Go);
    } else {
      StepNearsReturn(s, i, ms[0].choice);
      EnqueueIsBounded(Step(s, ms[0].thread, ms[0].choice), ms[1..], i);
    }
  }
}
