/** The bounded notification queue and the job that sends what is in it. Email and
    Telegram are two instances of the same code. */
module Notifications {
  datatype Request = Request(to: string, body: int)

  /** The notifier's answer: sent, not implemented (dropped on purpose), failed. */
  datatype Outcome = Sent | NotImplemented | Failed

  const DEFAULT_CAPACITY: nat := 1000

  // ---------------------------------------------------------------- the queue as a list

  /** A full queue loses its head, wherever the new item goes. */
  function MakeRoom(q: seq<Request>, cap: nat): seq<Request> {
    if |q| >= cap && q != [] then q[1..] else q
  }

  function Evicted(q: seq<Request>, cap: nat): multiset<Request> {
    if |q| >= cap && q != [] then multiset{q[0]} else multiset{}
  }

  function Append(q: seq<Request>, cap: nat, r: Request): seq<Request> {
    if r.to == "" then q else MakeRoom(q, cap) + [r]
  }

  function PutBack(q: seq<Request>, cap: nat, r: Request): seq<Request> {
    if r.to == "" then q else [r] + MakeRoom(q, cap)
  }

  function PutAllBack(q: seq<Request>, cap: nat, rs: seq<Request>): seq<Request>
    decreases |rs|
  {
    if rs == [] then q else PutAllBack(PutBack(q, cap, rs[0]), cap, rs[1..])
  }

  function Reverse(rs: seq<Request>): (r: seq<Request>)
    ensures |r| == |rs|
  {
    if rs == [] then [] else Reverse(rs[1..]) + [rs[0]]
  }

  lemma {:induction false} ReverseBag(rs: seq<Request>)
    ensures multiset(Reverse(rs)) == multiset(rs)
  {
    if rs != [] {
      ReverseBag(rs[1..]);
      assert rs == [rs[0]] + rs[1..];
    }
  }

  ghost predicate Addressed(rs: seq<Request>) {
    forall r :: r in rs ==> r.to != ""
  }

  /** Putting items back while there is room reverses them in front of the queue. */
  lemma {:induction false} PutBackWithRoom(q: seq<Request>, cap: nat, rs: seq<Request>)
    requires Addressed(rs) && |q| + |rs| <= cap
    ensures PutAllBack(q, cap, rs) == Reverse(rs) + q
    decreases |rs|
  {
    if rs != [] {
      assert rs[0] in rs && (forall r :: r in rs[1..] ==> r in rs);
      assert PutBack(q, cap, rs[0]) == [rs[0]] + q;
      PutBackWithRoom([rs[0]] + q, cap, rs[1..]);
      assert Reverse(rs[1..]) + ([rs[0]] + q) == (Reverse(rs[1..]) + [rs[0]]) + q;
    }
  }

  lemma {:induction false} PutBackWhenFull(q: seq<Request>, cap: nat, rs: seq<Request>)
    requires Addressed(rs) && rs != [] && 0 < cap && |q| == cap
    ensures PutAllBack(q, cap, rs) == [rs[|rs| - 1]] + q[1..]
    decreases |rs|
  {
    var q' := [rs[0]] + q[1..];
    assert PutBack(q, cap, rs[0]) == q' && q'[1..] == q[1..];
    if |rs| > 1 {
      PutBackWhenFull(q', cap, rs[1..]);
    } else {
      assert rs[1..] == [];
    }
  }

  lemma {:induction false} PutBackInTwo(q: seq<Request>, cap: nat, xs: seq<Request>, ys: seq<Request>)
    ensures PutAllBack(q, cap, xs + ys) == PutAllBack(PutAllBack(q, cap, xs), cap, ys)
    decreases |xs|
  {
    if xs == [] {
      assert xs + ys == ys;
    } else {
      assert (xs + ys)[1..] == xs[1..] + ys;
      PutBackInTwo(PutBack(q, cap, xs[0]), cap, xs[1..], ys);
    }
  }

  /** Beyond that each further item replaces the one put back before it: of all those
      only the last survives, and with no room at all the old head goes too. */
  lemma PutBackBeyondRoom(q: seq<Request>, cap: nat, rs: seq<Request>)
    requires Addressed(rs) && 0 < cap && |q| <= cap < |q| + |rs|
    ensures PutAllBack(q, cap, rs) == [rs[|rs| - 1]] + (Reverse(rs[..cap - |q|]) + q)[1..]
  {
    var room := cap - |q|;
    var xs, ys := rs[..room], rs[room..];
    assert rs == xs + ys && Addressed(xs) && Addressed(ys);
    PutBackInTwo(q, cap, xs, ys);
    PutBackWithRoom(q, cap, xs);
    assert ys[|ys| - 1] == rs[|rs| - 1] && |Reverse(xs) + q| == cap;
    PutBackWhenFull(Reverse(xs) + q, cap, ys);
  }

  /** Requeueing loses nothing exactly when everything fits. */
  lemma RequeueLosesNothingExactly(q: seq<Request>, cap: nat, rs: seq<Request>)
    requires Addressed(rs) && 0 < cap && |q| <= cap
    ensures multiset(PutAllBack(q, cap, rs)) == multiset(q) + multiset(rs) <==> |q| + |rs| <= cap
    ensures |PutAllBack(q, cap, rs)| == if |q| + |rs| <= cap then |q| + |rs| else cap
  {
    if |q| + |rs| <= cap {
      PutBackWithRoom(q, cap, rs);
      ReverseBag(rs);
    } else {
      PutBackBeyondRoom(q, cap, rs);
      var r := PutAllBack(q, cap, rs);
      assert |multiset(r)| == |r| && |multiset(q) + multiset(rs)| == |q| + |rs|;
    }
  }

  // ---------------------------------------------------------------- objects

  class NotificationQueue {
    var items: seq<Request>
    const cap: nat

    ghost predicate Valid() reads this {
      0 < cap && |items| <= cap && Addressed(items)
    }

    constructor ()
      ensures Valid() && items == [] && cap == DEFAULT_CAPACITY
    {
      items, cap := [], DEFAULT_CAPACITY;
    }

    method Enqueue(r: Request)
      requires Valid()
      modifies this
      ensures Valid() && items == Append(old(items), cap, r)
    {
      if r.to == "" { return; }
      if |items| >= cap { items := items[1..]; }
      items := items + [r];
    }

    method Drain() returns (drained: seq<Request>)
      requires Valid()
      modifies this
      ensures Valid() && drained == old(items) && items == []
    {
      drained := items;
      items := [];
    }

    method Requeue(r: Request)
      requires Valid()
      modifies this
      ensures Valid() && items == PutBack(old(items), cap, r)
    {
      if r.to == "" { return; }
      if |items| >= cap { items := items[1..]; }
      items := [r] + items;
    }
  }

  class SendJob {
    const queue: NotificationQueue
    var sent: seq<Request>

    constructor (queue: NotificationQueue)
      ensures this.queue == queue && sent == []
    {
      this.queue := queue;
      sent := [];
    }

    /** Puts the failed item and all after it back. */
    method RequeueFrom(emails: seq<Request>, i: nat)
      requires queue.Valid() && queue.items == [] && i < |emails| <= queue.cap && Addressed(emails)
      modifies queue
      ensures queue.Valid() && queue.items == Reverse(emails[i..])
    {
      assert emails[i] in emails && Reverse(emails[i..i + 1]) == [emails[i]];
      queue.Requeue(emails[i]);
      var j := i + 1;
      while j < |emails|
        invariant i < j <= |emails| && queue.Valid()
        invariant queue.items == Reverse(emails[i..j])
      {
        assert emails[j] in emails;
        ReverseAppend(emails[i..j], emails[j]);
        assert emails[i..j + 1] == emails[i..j] + [emails[j]];
        queue.Requeue(emails[j]);
        j := j + 1;
      }
      assert emails[i..j] == emails[i..];
    }

    /** outcomes[i] is the notifier's answer for the i-th drained item. Items go out
        in order up to the first failure; the failed one and the rest are queued
        again, reversed, and nothing else is. */
    method Run(outcomes: seq<Outcome>) returns (ok: bool)
      requires queue.Valid() && |outcomes| >= |queue.items|
      modifies this, queue
      ensures queue.Valid()
      ensures var k := FirstFailure(outcomes[..|old(queue.items)|]);
              && ok == (k == |old(queue.items)|)
              && sent == old(sent) + Delivered(old(queue.items)[..k], outcomes[..k])
              && queue.items == Reverse(old(queue.items)[k..])
    {
      var emails := queue.Drain();
      var i := 0;
      while i < |emails|
        invariant 0 <= i <= |emails| == |old(queue.items)| && emails == old(queue.items)
        invariant queue.Valid() && queue.items == []
        invariant sent == old(sent) + Delivered(emails[..i], outcomes[..i])
        invariant FirstFailure(outcomes[..|emails|]) >= i
      {
        FirstFailureAt(outcomes[..|emails|], i);
        if outcomes[i].Failed? {
          RequeueFrom(emails, i);
          return false;
        }
        DeliveredOne(emails, outcomes, i);
        if outcomes[i].Sent? { sent := sent + [emails[i]]; }
        i := i + 1;
      }
      ok := true;
    }
  }

  lemma {:induction false} ReverseAppend(rs: seq<Request>, r: Request)
    ensures Reverse(rs + [r]) == [r] + Reverse(rs)
  {
    if rs == [] {
      assert rs + [r] == [r] && [r][1..] == [];
    } else {
      ReverseAppend(rs[1..], r);
      assert (rs + [r])[1..] == rs[1..] + [r];
    }
  }

  /** The position of the first failure, or the length when there is none. */
  function FirstFailure(os: seq<Outcome>): (k: nat)
    ensures k <= |os| && (forall j :: 0 <= j < k ==> !os[j].Failed?) && (k < |os| ==> os[k].Failed?)
  {
    if os == [] || os[0].Failed? then 0 else 1 + FirstFailure(os[1..])
  }

  lemma FirstFailureAt(os: seq<Outcome>, i: nat)
    requires i < |os| && FirstFailure(os) >= i
    ensures FirstFailure(os) == i <==> os[i].Failed?
  {
  }

  function Delivered(rs: seq<Request>, os: seq<Outcome>): seq<Request>
    requires |rs| == |os|
  {
    if rs == [] then []
    else
      var n := |rs| - 1;
      Delivered(rs[..n], os[..n]) + if os[n].Sent? then [rs[n]] else []
  }

  lemma DeliveredOne(rs: seq<Request>, os: seq<Outcome>, i: nat)
    requires i < |rs| <= |os|
    ensures Delivered(rs[..i + 1], os[..i + 1]) == Delivered(rs[..i], os[..i]) + if os[i].Sent? then [rs[i]] else []
  {
    assert rs[..i + 1][..i] == rs[..i] && os[..i + 1][..i] == os[..i];
  }

  // ---------------------------------------------------------------- interleaved runs

  datatype Job = Idle | Sending(rest: seq<Request>) | Requeueing(rest: seq<Request>)

  /** enqueued, settled (sent or not implemented) and evicted collect every item that
      has come, gone out, or been pushed out of a full queue. */
  datatype State = State(cap: nat, queue: seq<Request>, job: Job,
                         enqueued: multiset<Request>, settled: multiset<Request>, evicted: multiset<Request>)

  datatype Event = Enqueue(r: Request) | Start | Send(o: Outcome) | Requeue

  predicate CanStep(s: State, e: Event) {
    match e
    case Enqueue(_) => true
    case Start => s.job.Idle?
    case Send(_) => s.job.Sending? && s.job.rest != []
    case Requeue => s.job.Requeueing? && s.job.rest != []
  }

  function Next(rest: seq<Request>, requeue: bool): Job {
    if rest == [] then Idle else if requeue then Requeueing(rest) else Sending(rest)
  }

  function Step(s: State, e: Event): State
    requires CanStep(s, e)
  {
    match e
    case Enqueue(r) =>
      if r.to == "" then s
      else s.(queue := Append(s.queue, s.cap, r), enqueued := s.enqueued + multiset{r},
              evicted := s.evicted + Evicted(s.queue, s.cap))
    case Start => s.(queue := [], job := Next(s.queue, false))
    case Send(o) =>
      if o.Failed? then s.(job := Requeueing(s.job.rest))
      else s.(job := Next(s.job.rest[1..], false), settled := s.settled + multiset{s.job.rest[0]})
    case Requeue =>
      s.(queue := PutBack(s.queue, s.cap, s.job.rest[0]), job := Next(s.job.rest[1..], true),
         evicted := s.evicted + Evicted(s.queue, s.cap))
  }

  function Local(j: Job): seq<Request> { if j.Idle? then [] else j.rest }

  ghost predicate Conserved(s: State) {
    && 0 < s.cap && |s.queue| <= s.cap && Addressed(s.queue) && Addressed(Local(s.job))
    && s.enqueued == s.settled + multiset(Local(s.job)) + multiset(s.queue) + s.evicted
  }

  lemma RoomBag(q: seq<Request>, cap: nat, r: Request)
    requires r.to != ""
    ensures multiset(Append(q, cap, r)) + Evicted(q, cap) == multiset(q) + multiset{r}
    ensures multiset(PutBack(q, cap, r)) + Evicted(q, cap) == multiset(q) + multiset{r}
  {
    if q != [] { assert q == [q[0]] + q[1..]; }
    var m := MakeRoom(q, cap);
    assert multiset(m) + Evicted(q, cap) == multiset(q);
    assert multiset(m + [r]) == multiset(m) + multiset{r} && multiset([r] + m) == multiset{r} + multiset(m);
  }

  lemma TailBag(rest: seq<Request>)
    requires rest != []
    ensures multiset(rest) == multiset{rest[0]} + multiset(rest[1..])
    ensures Addressed(rest) ==> Addressed(rest[1..]) && rest[0].to != ""
  {
    assert rest == [rest[0]] + rest[1..];
  }

  /** Each item enqueued is settled, in the job's hands, queued, or evicted; never
      two of these. */
  lemma StepConserves(s: State, e: Event)
    requires Conserved(s) && CanStep(s, e)
    ensures Conserved(Step(s, e)) && Step(s, e).cap == s.cap
  {
    match e
    case Enqueue(r) => if r.to != "" { EnqueueConserves(s, r); }
    case Start =>
    case Send(o) => TailBag(s.job.rest);
    case Requeue => RequeueConserves(s);
  }

  lemma EnqueueConserves(s: State, r: Request)
    requires Conserved(s) && r.to != ""
    ensures Conserved(Step(s, Enqueue(r)))
  {
    RoomBag(s.queue, s.cap, r);
    var l, q, q', ev := multiset(Local(s.job)), multiset(s.queue), multiset(Append(s.queue, s.cap, r)), Evicted(s.queue, s.cap);
    assert s.settled + l + q' + (s.evicted + ev) == s.settled + l + (q' + ev) + s.evicted == s.settled + l + (q + multiset{r}) + s.evicted;
  }

  lemma RequeueConserves(s: State)
    requires Conserved(s) && CanStep(s, Requeue)
    ensures Conserved(Step(s, Requeue))
  {
    var r, rest := s.job.rest[0], s.job.rest[1..];
    TailBag(s.job.rest);
    RoomBag(s.queue, s.cap, r);
    var l, q, q', ev := multiset(rest), multiset(s.queue), multiset(PutBack(s.queue, s.cap, r)), Evicted(s.queue, s.cap);
    assert s.settled + l + q' + (s.evicted + ev) == s.settled + l + (q' + ev) + s.evicted == s.settled + l + (q + multiset{r}) + s.evicted
        == s.settled + (multiset{r} + l) + q + s.evicted;
  }

  ghost predicate CanRun(s: State, es: seq<Event>)
    decreases |es|
  {
    es == [] || (CanStep(s, es[0]) && CanRun(Step(s, es[0]), es[1..]))
  }

  ghost function Run(s: State, es: seq<Event>): State
    requires CanRun(s, es)
    decreases |es|
  {
    if es == [] then s else Run(Step(s, es[0]), es[1..])
  }

  /** The step finds the queue full and adds to it. */
  predicate Overflows(s: State, e: Event) {
    |s.queue| >= s.cap && (e.Requeue? || (e.Enqueue? && e.r.to != ""))
  }

  ghost predicate NeverFull(s: State, es: seq<Event>)
    requires CanRun(s, es)
    decreases |es|
  {
    es == [] || (!Overflows(s, es[0]) && NeverFull(Step(s, es[0]), es[1..]))
  }

  lemma {:induction false} RunConserves(s: State, es: seq<Event>)
    requires Conserved(s) && CanRun(s, es)
    ensures Conserved(Run(s, es)) && Run(s, es).cap == s.cap
    decreases |es|
  {
    if es != [] {
      StepConserves(s, es[0]);
      RunConserves(Step(s, es[0]), es[1..]);
    }
  }

  lemma StepEvicts(s: State, e: Event)
    requires Conserved(s) && CanStep(s, e)
    ensures |Step(s, e).evicted| == |s.evicted| + if Overflows(s, e) then 1 else 0
  {
  }

  lemma {:induction false} EvictedOnlyGrows(s: State, es: seq<Event>)
    requires Conserved(s) && CanRun(s, es)
    ensures |Run(s, es).evicted| >= |s.evicted|
    ensures |Run(s, es).evicted| == |s.evicted| <==> NeverFull(s, es)
    decreases |es|
  {
    if es != [] {
      StepConserves(s, es[0]);
      StepEvicts(s, es[0]);
      EvictedOnlyGrows(Step(s, es[0]), es[1..]);
    }
  }

  /** Retry conserves notifications, over any interleaving of enqueues with the job:
      what was enqueued is settled, held or queued exactly when the run never adds to
      a full queue. The queue never exceeds its capacity. */
  lemma RetryConservesExactly(s: State, es: seq<Event>)
    requires Conserved(s) && s.evicted == multiset{} && CanRun(s, es)
    ensures var t := Run(s, es);
            && |t.queue| <= s.cap
            && (t.enqueued == t.settled + multiset(Local(t.job)) + multiset(t.queue) <==> NeverFull(s, es))
  {
    RunConserves(s, es);
    EvictedOnlyGrows(s, es);
    var t := Run(s, es);
    var kept := t.settled + multiset(Local(t.job)) + multiset(t.queue);
    assert t.enqueued == kept + t.evicted;
    assert |kept + t.evicted| == |kept| + |t.evicted|;
    assert |t.evicted| == 0 ==> t.evicted == multiset{};
  }

  function Arrivals(es: seq<Event>): seq<Request> {
    if es == [] then []
    else (if es[0].Enqueue? && es[0].r.to != "" then [es[0].r] else []) + Arrivals(es[1..])
  }

  ghost predicate Refilling(es: seq<Event>) {
    forall e :: e in es ==> e.Requeue? || e.Enqueue?
  }

  lemma StepWithRoom(s: State, e: Event)
    requires Conserved(s) && CanStep(s, e) && !Overflows(s, e) && (e.Requeue? || e.Enqueue?)
    ensures var s' := Step(s, e);
            && Conserved(s')
            && s'.queue == (if e.Requeue? then [s.job.rest[0]] + s.queue else s.queue + Arrivals([e]))
            && s'.job == (if e.Requeue? then Next(s.job.rest[1..], true) else s.job)
  {
    StepConserves(s, e);
    assert e.Requeue? ==> s.job.rest[0] in Local(s.job);
  }

  lemma ArrivalsHead(es: seq<Event>)
    requires es != []
    ensures Arrivals(es) == Arrivals([es[0]]) + Arrivals(es[1..])
    ensures Refilling(es) ==> Refilling(es[1..]) && (es[0].Requeue? || es[0].Enqueue?)
  {
    assert Arrivals([es[0]][1..]) == [];
    assert es[0] in es;
  }

  /** The queue a requeue will end with. */
  function Refilled(j: Job, queue: seq<Request>, arrivals: seq<Request>): seq<Request> {
    Reverse(Local(j)) + queue + arrivals
  }

  lemma RequeueKeepsRefilled(rest: seq<Request>, queue: seq<Request>, arrivals: seq<Request>)
    requires rest != []
    ensures Refilled(Next(rest[1..], true), [rest[0]] + queue, arrivals) == Refilled(Requeueing(rest), queue, arrivals)
  {
    assert Local(Next(rest[1..], true)) == rest[1..];
    assert Reverse(rest[1..]) + ([rest[0]] + queue) == (Reverse(rest[1..]) + [rest[0]]) + queue;
  }

  lemma StepKeepsRefilled(s: State, es: seq<Event>)
    requires Conserved(s) && es != [] && CanStep(s, es[0]) && !Overflows(s, es[0]) && Refilling(es)
    ensures var s' := Step(s, es[0]);
            Refilled(s'.job, s'.queue, Arrivals(es[1..])) == Refilled(s.job, s.queue, Arrivals(es))
  {
    var e, s' := es[0], Step(s, es[0]);
    var a, a' := Arrivals([e]), Arrivals(es[1..]);
    ArrivalsHead(es);
    StepWithRoom(s, e);
    if e.Requeue? {
      assert a == [] && a + a' == a';
      RequeueKeepsRefilled(s.job.rest, s.queue, a');
    } else {
      ArrivalKeepsRefilled(s.job, s.queue, a, a');
    }
  }

  lemma ArrivalKeepsRefilled(j: Job, queue: seq<Request>, a: seq<Request>, a': seq<Request>)
    ensures Refilled(j, queue + a, a') == Refilled(j, queue, a + a')
  {
    var rev := Reverse(Local(j));
    assert rev + (queue + a) + a' == rev + queue + (a + a');
  }

  /** While there is room the failed item and all later ones end up in front of
      everything queued before, last one first; arrivals meanwhile go to the end. */
  lemma {:induction false} RequeueReversesInFront(s: State, es: seq<Event>)
    requires Conserved(s) && CanRun(s, es) && NeverFull(s, es) && Refilling(es)
    requires Run(s, es).job.Idle?
    ensures Run(s, es).queue == Refilled(s.job, s.queue, Arrivals(es))
    decreases |es|
  {
    if es != [] {
      StepKeepsRefilled(s, es);
      StepConserves(s, es[0]);
      ArrivalsHead(es);
      RequeueReversesInFront(Step(s, es[0]), es[1..]);
    }
  }
}
