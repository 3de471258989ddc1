/** The bounded task queue as a system of goroutines over one channel.

    A step is one channel operation, one counter update or one callback of one
    goroutine; goroutines interleave freely. Items stand for enqueued values.
  */
module TaskQueueSystem {
  import opened Text

  type Item = int

  datatype Overflow = DropOldest | Reject | Block | Unknown

  datatype Config = Config(capacity: nat, batchCap: int, overflow: Overflow)

  const MAX_RETRIES: nat := 64

  /** Where a goroutine stands: P producers inside Enqueue, W pool workers, T the
      ticker, D callers of Drain (no limit) and TryDrain (at most left more). */
  datatype Thread =
    | PIdle
    | PCheck(item: Item)
    | PCount(item: Item)
    | PSend(item: Item, tries: nat)
    | PEvict(item: Item, tries: nat)
    | PTally(item: Item, tries: nat)
    | PGiveUp
    | PRefuse
    | PReturn(ok: bool)
    | WWait
    | WTook(item: Item)
    | WFlushOne(item: Item)
    | WCollect(batch: seq<Item>)
    | WFlush(batch: seq<Item>, last: bool)
    | WDeliver(batch: seq<Item>, last: bool)
    | WExit
    | TWait
    | TDrain(items: seq<Item>, last: bool)
    | TTook(items: seq<Item>, last: bool)
    | TFlush(items: seq<Item>, last: bool)
    | TExit
    | DIdle
    | DDrain(items: seq<Item>, left: Option<nat>)
    | DTook(items: seq<Item>, left: Option<nat>)

  /** The channel and the counters. sent lists the items in the order the channel
      accepted them and taken counts those received from it; leaked counts calls
      that were counted as enqueued and returned without settling any counter;
      mark is the number of items sent when the queue was stopped. */
  datatype Queue = Queue(buffer: seq<Item>, sent: seq<Item>, taken: nat,
                         enqueued: nat, drained: nat, dropped: nat, rejected: nat, leaked: nat,
                         delivered: multiset<Item>, overwritten: multiset<Item>, done: bool, mark: nat)

  datatype System = System(cfg: Config, q: Queue, threads: seq<Thread>)

  datatype Choice = Go | OnDone | OnTick | Start(item: Item) | StartDrain(max: Option<nat>) | Cancel

  /** What one step does to the channel and the counters. */
  datatype Effect = Nothing | Enqueue | EnqueueLeaked | Leak | Send(item: Item) | Receive | Overwrite
                  | Drop | Refuse | Drain(n: nat) | Deliver(items: seq<Item>) | Stop

  function Apply(q: Queue, e: Effect): Queue
    requires e.Receive? || e.Overwrite? ==> q.buffer != []
  {
    match e
    case Nothing => q
    case Enqueue => q.(enqueued := q.enqueued + 1)
    case EnqueueLeaked => q.(enqueued := q.enqueued + 1, leaked := q.leaked + 1)
    case Leak => q.(leaked := q.leaked + 1)
    case Send(item) => q.(buffer := q.buffer + [item], sent := q.sent + [item])
    case Receive => q.(buffer := q.buffer[1..], taken := q.taken + 1)
    case Overwrite => q.(buffer := q.buffer[1..], taken := q.taken + 1, overwritten := q.overwritten + multiset{q.buffer[0]})
    case Drop => q.(dropped := q.dropped + 1)
    case Refuse => q.(rejected := q.rejected + 1)
    case Drain(n) => q.(drained := q.drained + n)
    case Deliver(items) => q.(delivered := q.delivered + multiset(items))
    case Stop => q.(done := true, mark := |q.sent|)
  }

  /** What a goroutine sees of the channel: whether it is full, its head, whether
      the queue has been stopped. */
  datatype View = View(full: bool, head: Option<Item>, done: bool)

  function See(cfg: Config, q: Queue): View {
    View(|q.buffer| >= cfg.capacity, if q.buffer == [] then None else Some(q.buffer[0]), q.done)
  }

  function NextTry(item: Item, tries: nat): Thread {
    if tries >= MAX_RETRIES then PGiveUp else PSend(item, tries + 1)
  }

  predicate Producing(t: Thread) {
    t.PIdle? || t.PCheck? || t.PCount? || t.PSend? || t.PEvict? || t.PTally? || t.PGiveUp? || t.PRefuse? || t.PReturn?
  }

  predicate Working(t: Thread) {
    t.WWait? || t.WTook? || t.WFlushOne? || t.WCollect? || t.WFlush? || t.WDeliver? || t.WExit?
  }

  predicate Ticking(t: Thread) { t.TWait? || t.TDrain? || t.TTook? || t.TFlush? || t.TExit? }

  predicate Ready(t: Thread, c: Choice, cfg: Config, v: View) {
    match t
    case PIdle | PReturn(_) => c.Start?
    case PSend(_, _) => if cfg.overflow.Block? then (c.Go? && !v.full) || (c.OnDone? && v.done) else c.Go?
    case WWait => (c.Go? && v.head.Some?) || (c.OnDone? && v.done)
    case WCollect(_) => (c.Go? && v.head.Some?) || (c.OnDone? && v.done) || c.OnTick?
    case TWait => c.OnTick? || (c.OnDone? && v.done)
    case WExit | TExit => false
    case DIdle => c.StartDrain? || (c.Cancel? && !v.done)
    case _ => c.Go?
  }

  /** The next chunk of a flush, at most batchCap items when that is positive. */
  function ChunkSize(n: nat, batchCap: int): (k: nat)
    requires n > 0
    ensures 1 <= k <= n
  {
    if 0 < batchCap < n then batchCap else n
  }

  /** One step of a goroutine: where it goes and what it does. */
  function Advance(t: Thread, c: Choice, cfg: Config, v: View): (r: (Thread, Effect))
    requires Ready(t, c, cfg, v)
    ensures r.1.Receive? || r.1.Overwrite? ==> v.head.Some?
    ensures r.1.Send? ==> !v.full
  {
    match t
    case PIdle | PReturn(_) => (PCheck(c.item), Nothing)
    case PCheck(item) => (if v.done then PReturn(false) else PCount(item), Nothing)
    case PCount(item) => if cfg.overflow.Unknown? then (PReturn(false), EnqueueLeaked) else (PSend(item, 0), Enqueue)
    case PSend(item, tries) =>
      if c.OnDone? then (PReturn(false), Leak)
      else if !v.full then (PReturn(true), Send(item))
      else if cfg.overflow.Reject? then (PRefuse, Nothing)
      else (if tries == 0 then PSend(item, 1) else PEvict(item, tries), Nothing)
    case PEvict(item, tries) => if v.head.None? then (NextTry(item, tries), Nothing) else (PTally(item, tries), Overwrite)
    case PTally(item, tries) => (NextTry(item, tries), Drop)
    case PGiveUp => (PReturn(false), Drop)
    case PRefuse => (PReturn(false), Refuse)

    case WWait => if c.OnDone? then (WExit, Nothing) else (WTook(v.head.value), Receive)
    case WTook(item) => (WFlushOne(item), Drain(1))
    case WFlushOne(item) => (WWait, Deliver([item]))
    case WCollect(batch) =>
      if c.OnDone? then (WFlush(batch, true), Nothing)
      else if c.OnTick? then (WFlush(batch, false), Nothing)
      else
        var more := batch + [v.head.value];
        (if |more| >= cfg.batchCap then WFlush(more, false) else WCollect(more), Receive)
    case WFlush(batch, last) =>
      if batch == [] then (if last then WExit else WCollect([]), Nothing) else (WDeliver(batch, last), Drain(|batch|))
    case WDeliver(batch, last) => (if last then WExit else WCollect([]), Deliver(batch))

    case TWait => (TDrain([], c.OnDone?), Nothing)
    case TDrain(items, last) =>
      if v.head.None? then (TFlush(items, last), Nothing) else (TTook(items + [v.head.value], last), Receive)
    case TTook(items, last) => (TDrain(items, last), Drain(1))
    case TFlush(items, last) =>
      if items == [] then (if last then TExit else TWait, Nothing)
      else
        var k := ChunkSize(|items|, cfg.batchCap);
        (TFlush(items[k..], last), Deliver(items[..k]))

    case DIdle => if c.Cancel? then (DIdle, Stop) else (DDrain([], c.max), Nothing)
    case DDrain(items, left) =>
      if v.head.None? || left == Some(0) then (DIdle, Deliver(items)) else (DTook(items + [v.head.value], left), Receive)
    case DTook(items, left) =>
      (DDrain(items, if left.Some? && left.value > 0 then Some(left.value - 1) else left), Drain(1))
  }

  predicate Enabled(s: System, i: nat, c: Choice) {
    i < |s.threads| && Ready(s.threads[i], c, s.cfg, See(s.cfg, s.q))
  }

  function Step(s: System, i: nat, c: Choice): System
    requires Enabled(s, i, c)
  {
    var r := Advance(s.threads[i], c, s.cfg, See(s.cfg, s.q));
    System(s.cfg, Apply(s.q, r.1), s.threads[i := r.0])
  }

  datatype Move = Move(thread: nat, choice: Choice)

  ghost predicate CanRun(s: System, ms: seq<Move>)
    decreases |ms|
  {
    ms == [] || (Enabled(s, ms[0].thread, ms[0].choice) && CanRun(Step(s, ms[0].thread, ms[0].choice), ms[1..]))
  }

  ghost function Run(s: System, ms: seq<Move>): System
    requires CanRun(s, ms)
    decreases |ms|
  {
    if ms == [] then s else Run(Step(s, ms[0].thread, ms[0].choice), ms[1..])
  }

  // ---------------------------------------------------------------- what a goroutine owes

  /** Items counted as enqueued, or received, that no counter reflects yet. */
  function Owed(t: Thread): nat {
    match t
    case PSend(_, _) | PEvict(_, _) | PGiveUp | PRefuse | WTook(_) | TTook(_, _) | DTook(_, _) => 1
    case PTally(_, _) => 2
    case WCollect(batch) => |batch|
    case WFlush(batch, _) => |batch|
    case _ => 0
  }

  /** Items received from the channel and not handed on yet, oldest first. */
  function Holding(t: Thread): seq<Item> {
    match t
    case WTook(item) => [item]
    case WFlushOne(item) => [item]
    case WCollect(batch) => batch
    case WFlush(batch, _) => batch
    case WDeliver(batch, _) => batch
    case TDrain(items, _) => items
    case TTook(items, _) => items
    case TFlush(items, _) => items
    case DDrain(items, _) => items
    case DTook(items, _) => items
    case _ => []
  }

  function Held(t: Thread): multiset<Item> { multiset(Holding(t)) }

  function AllOwed(ts: seq<Thread>): nat {
    if ts == [] then 0 else Owed(ts[0]) + AllOwed(ts[1..])
  }

  function AllHeld(ts: seq<Thread>): multiset<Item> {
    if ts == [] then multiset{} else Held(ts[0]) + AllHeld(ts[1..])
  }

  lemma {:induction false} OwedUpdate(ts: seq<Thread>, i: nat, t: Thread)
    requires i < |ts|
    ensures AllOwed(ts[i := t]) == AllOwed(ts) - Owed(ts[i]) + Owed(t)
  {
    if i > 0 {
      OwedUpdate(ts[1..], i - 1, t);
      assert ts[i := t][1..] == ts[1..][i - 1 := t];
    } else {
      assert ts[i := t][1..] == ts[1..];
    }
  }

  lemma {:induction false} HeldUpdate(ts: seq<Thread>, i: nat, t: Thread)
    requires i < |ts|
    ensures AllHeld(ts[i := t]) + Held(ts[i]) == AllHeld(ts) + Held(t)
  {
    if i > 0 {
      HeldUpdate(ts[1..], i - 1, t);
      assert ts[i := t][1..] == ts[1..][i - 1 := t];
      var a, b, h := AllHeld(ts[1..][i - 1 := t]), AllHeld(ts[1..]), Held(ts[0]);
      assert AllHeld(ts[i := t]) == h + a && AllHeld(ts) == h + b;
      assert (h + a) + Held(ts[i]) == h + (a + Held(ts[i])) == h + (b + Held(t)) == (h + b) + Held(t);
    } else {
      assert ts[i := t][1..] == ts[1..];
    }
  }

  function OwedChange(e: Effect): int {
    match e
    case Enqueue | Receive | Overwrite => 1
    case Leak | Send(_) | Drop | Refuse => -1
    case Drain(n) => 0 - n
    case _ => 0
  }

  lemma AdvanceOwes(t: Thread, c: Choice, cfg: Config, v: View)
    requires Ready(t, c, cfg, v)
    ensures Owed(Advance(t, c, cfg, v).0) == Owed(t) + OwedChange(Advance(t, c, cfg, v).1)
  {
  }

  function Given(e: Effect): seq<Item> { if e.Deliver? then e.items else [] }

  function Gained(e: Effect, v: View): seq<Item> {
    if e.Receive? && v.head.Some? then [v.head.value] else []
  }

  /** A goroutine hands items on in the order it received them. */
  lemma AdvanceHolds(t: Thread, c: Choice, cfg: Config, v: View)
    requires Ready(t, c, cfg, v)
    ensures var r := Advance(t, c, cfg, v); Given(r.1) + Holding(r.0) == Holding(t) + Gained(r.1, v)
  {
    if t.TFlush? && t.items != [] {
      var k := ChunkSize(|t.items|, cfg.batchCap);
      assert t.items == t.items[..k] + t.items[k..];
    }
  }

  lemma AdvanceHeld(t: Thread, c: Choice, cfg: Config, v: View)
    requires Ready(t, c, cfg, v)
    ensures var r := Advance(t, c, cfg, v); Held(r.0) + multiset(Given(r.1)) == Held(t) + multiset(Gained(r.1, v))
  {
    AdvanceHolds(t, c, cfg, v);
    var r := Advance(t, c, cfg, v);
    SplitBags(Given(r.1), Holding(r.0), Holding(t), Gained(r.1, v));
  }

  lemma SplitBags(a: seq<Item>, b: seq<Item>, c: seq<Item>, d: seq<Item>)
    requires a + b == c + d
    ensures multiset(b) + multiset(a) == multiset(c) + multiset(d)
  {
    assert multiset(a + b) == multiset(a) + multiset(b);
    assert multiset(c + d) == multiset(c) + multiset(d);
  }

  // ---------------------------------------------------------------- counters

  ghost predicate Balanced(q: Queue, owed: int) {
    q.enqueued == |q.buffer| + q.drained + q.dropped + q.rejected + q.leaked + owed
  }

  lemma ApplyBalances(q: Queue, e: Effect, owed: int)
    requires Balanced(q, owed) && (e.Receive? || e.Overwrite? ==> q.buffer != [])
    ensures Balanced(Apply(q, e), owed + OwedChange(e))
  {
  }

  /** At every step each counted call is in the channel, under some counter, in
      the hands of some goroutine, or leaked. */
  lemma StepKeepsBalance(s: System, i: nat, c: Choice)
    requires Balanced(s.q, AllOwed(s.threads)) && Enabled(s, i, c)
    ensures Balanced(Step(s, i, c).q, AllOwed(Step(s, i, c).threads))
  {
    var v := See(s.cfg, s.q);
    var r := Advance(s.threads[i], c, s.cfg, v);
    AdvanceOwes(s.threads[i], c, s.cfg, v);
    OwedUpdate(s.threads, i, r.0);
    ApplyBalances(s.q, r.1, AllOwed(s.threads));
  }

  /** Nothing leaks under DropOldest and Reject. */
  lemma OnlyBlockingLeaks(s: System, i: nat, c: Choice)
    requires Enabled(s, i, c) && (s.cfg.overflow.DropOldest? || s.cfg.overflow.Reject?)
    ensures Step(s, i, c).q.leaked == s.q.leaked
  {
  }

  // ---------------------------------------------------------------- contents

  ghost predicate Fifo(cfg: Config, q: Queue) {
    q.taken <= |q.sent| && q.buffer == q.sent[q.taken..] && |q.buffer| <= cfg.capacity
  }

  lemma ApplyKeepsFifo(cfg: Config, q: Queue, e: Effect)
    requires Fifo(cfg, q)
    requires (e.Receive? || e.Overwrite? ==> q.buffer != []) && (e.Send? ==> |q.buffer| < cfg.capacity)
    ensures Fifo(cfg, Apply(q, e))
    ensures q.sent <= Apply(q, e).sent && q.taken <= Apply(q, e).taken
    ensures e.Receive? || e.Overwrite? ==>
              multiset(Apply(q, e).sent[..Apply(q, e).taken]) == multiset(q.sent[..q.taken]) + multiset{q.buffer[0]}
    ensures !(e.Receive? || e.Overwrite?) ==> Apply(q, e).sent[..Apply(q, e).taken] == q.sent[..q.taken]
  {
    if e.Receive? || e.Overwrite? {
      assert q.sent[..q.taken + 1] == q.sent[..q.taken] + [q.buffer[0]];
    }
  }

  ghost predicate Accounted(q: Queue, held: multiset<Item>) {
    q.taken <= |q.sent| && multiset(q.sent[..q.taken]) == q.delivered + q.overwritten + held
  }

  lemma OverwriteAccounts(cfg: Config, q: Queue, held: multiset<Item>)
    requires Fifo(cfg, q) && Accounted(q, held) && q.buffer != []
    ensures Accounted(Apply(q, Overwrite), held)
  {
    ApplyKeepsFifo(cfg, q, Overwrite);
  }

  lemma ReceiveAccounts(cfg: Config, q: Queue, held: multiset<Item>)
    requires Fifo(cfg, q) && Accounted(q, held) && q.buffer != []
    ensures Accounted(Apply(q, Receive), held + multiset{q.buffer[0]})
  {
    ApplyKeepsFifo(cfg, q, Receive);
  }

  lemma DeliverAccounts(q: Queue, items: seq<Item>, held: multiset<Item>, held': multiset<Item>)
    requires Accounted(q, held) && held == held' + multiset(items)
    ensures Accounted(Apply(q, Deliver(items)), held')
  {
  }

  lemma ApplyAccounts(cfg: Config, q: Queue, e: Effect, held: multiset<Item>, held': multiset<Item>)
    requires Fifo(cfg, q) && Accounted(q, held)
    requires (e.Receive? || e.Overwrite? ==> q.buffer != []) && (e.Send? ==> |q.buffer| < cfg.capacity)
    requires held' + multiset(Given(e)) == held + multiset(Gained(e, See(cfg, q)))
    ensures Accounted(Apply(q, e), held')
  {
    var none: multiset<Item> := multiset([]);
    assert held' + none == held' && held + none == held;
    if e.Overwrite? {
      OverwriteAccounts(cfg, q, held);
    } else if e.Receive? {
      assert multiset([q.buffer[0]]) == multiset{q.buffer[0]};
      ReceiveAccounts(cfg, q, held);
    } else if e.Deliver? {
      DeliverAccounts(q, e.items, held, held');
    } else {
      ApplyKeepsFifo(cfg, q, e);
    }
  }

  /** Every item the channel gave out was delivered, was overwritten, or is held. */
  lemma StepKeepsAccounted(s: System, i: nat, c: Choice)
    requires Fifo(s.cfg, s.q) && Accounted(s.q, AllHeld(s.threads)) && Enabled(s, i, c)
    ensures Accounted(Step(s, i, c).q, AllHeld(Step(s, i, c).threads))
  {
    var v := See(s.cfg, s.q);
    var r := Advance(s.threads[i], c, s.cfg, v);
    AdvanceHeld(s.threads[i], c, s.cfg, v);
    HeldUpdate(s.threads, i, r.0);
    var before, after := AllHeld(s.threads), AllHeld(s.threads[i := r.0]);
    var h, h', g, d := Held(s.threads[i]), Held(r.0), multiset(Given(r.1)), multiset(Gained(r.1, v));
    assert (after + g) + h == (after + h) + g == (before + h') + g == before + (h' + g) == before + (h + d) == (before + d) + h;
    CancelRight(after + g, before + d, h);
    ApplyAccounts(s.cfg, s.q, r.1, before, after);
  }

  lemma CancelRight(a: multiset<Item>, b: multiset<Item>, h: multiset<Item>)
    requires a + h == b + h
    ensures a == b
  {
    assert (a + h) - h == a && (b + h) - h == b;
  }

  // ---------------------------------------------------------------- shutdown

  predicate Final(t: Thread) {
    (t.TFlush? && t.last) || t.TExit?
  }

  predicate Ending(t: Thread) {
    Final(t) || ((t.TDrain? || t.TTook? || t.WFlush? || t.WDeliver?) && t.last) || t.WExit?
  }

  /** Goroutines end only after the cancellation, and the ticker ends only after it
      has found empty a channel that held everything sent before it. */
  ghost predicate Orderly(s: System) {
    && s.q.mark <= |s.q.sent|
    && (forall j :: 0 <= j < |s.threads| && Ending(s.threads[j]) ==> s.q.done)
    && (forall j :: 0 <= j < |s.threads| && Final(s.threads[j]) ==> s.q.mark <= s.q.taken)
  }

  lemma AdvanceEnds(t: Thread, c: Choice, cfg: Config, v: View)
    requires Ready(t, c, cfg, v)
    ensures Ending(Advance(t, c, cfg, v).0) ==> Ending(t) || v.done
    ensures Final(Advance(t, c, cfg, v).0) ==> Final(t) || v.head.None?
    ensures Advance(t, c, cfg, v).1.Stop? ==> !v.done
    ensures Final(Advance(t, c, cfg, v).0) ==> !Advance(t, c, cfg, v).1.Stop?
  {
  }

  lemma ApplyMarks(cfg: Config, q: Queue, e: Effect)
    requires Fifo(cfg, q) && q.mark <= |q.sent|
    requires (e.Receive? || e.Overwrite? ==> q.buffer != []) && (e.Send? ==> |q.buffer| < cfg.capacity)
    ensures Apply(q, e).mark <= |Apply(q, e).sent| && q.taken <= Apply(q, e).taken && (q.done ==> Apply(q, e).done)
    ensures !e.Stop? ==> Apply(q, e).mark == q.mark && Apply(q, e).done == q.done
  {
  }

  lemma StepKeepsOrderly(s: System, i: nat, c: Choice)
    requires Fifo(s.cfg, s.q) && Orderly(s) && Enabled(s, i, c)
    ensures Orderly(Step(s, i, c))
  {
    var v := See(s.cfg, s.q);
    var r := Advance(s.threads[i], c, s.cfg, v);
    AdvanceEnds(s.threads[i], c, s.cfg, v);
    ApplyMarks(s.cfg, s.q, r.1);
    var s' := Step(s, i, c);
    forall j | 0 <= j < |s'.threads| && Ending(s'.threads[j])
      ensures s'.q.done && (Final(s'.threads[j]) ==> s'.q.mark <= s'.q.taken)
    {
      assert s'.threads[j] == if j == i then r.0 else s.threads[j];
    }
  }

  ghost predicate Ok(s: System) {
    && Balanced(s.q, AllOwed(s.threads)) && Fifo(s.cfg, s.q)
    && Accounted(s.q, AllHeld(s.threads)) && Orderly(s)
  }

  lemma StepKeepsOk(s: System, i: nat, c: Choice)
    requires Ok(s) && Enabled(s, i, c)
    ensures Ok(Step(s, i, c)) && s.q.sent <= Step(s, i, c).q.sent
  {
    StepKeepsBalance(s, i, c);
    StepKeepsAccounted(s, i, c);
    StepKeepsOrderly(s, i, c);
    ApplyKeepsFifo(s.cfg, s.q, Advance(s.threads[i], c, s.cfg, See(s.cfg, s.q)).1);
  }

  function NewQueue(): Queue { Queue([], [], 0, 0, 0, 0, 0, 0, multiset{}, multiset{}, false, 0) }

  /** A new queue: empty channel, no calls yet, a pool and perhaps a ticker. */
  predicate Fresh(s: System) {
    && s.cfg.capacity > 0
    && s.q == NewQueue()
    && forall j :: 0 <= j < |s.threads| ==>
         s.threads[j].PIdle? || s.threads[j].DIdle? || s.threads[j].TWait? ||
         s.threads[j] == if s.cfg.batchCap > 0 then WCollect([]) else WWait
  }

  lemma {:induction false} NothingOwed(ts: seq<Thread>)
    requires forall j :: 0 <= j < |ts| ==> Owed(ts[j]) == 0 && Holding(ts[j]) == []
    ensures AllOwed(ts) == 0 && AllHeld(ts) == multiset{}
  {
    if ts != [] { NothingOwed(ts[1..]); }
  }

  lemma FreshIsOk(s: System)
    requires Fresh(s)
    ensures Ok(s)
  {
    NothingOwed(s.threads);
  }

  lemma {:induction false} RunKeepsOk(s: System, ms: seq<Move>)
    requires Ok(s) && CanRun(s, ms)
    ensures Ok(Run(s, ms)) && Run(s, ms).cfg == s.cfg
    ensures (s.cfg.overflow.DropOldest? || s.cfg.overflow.Reject?) ==> Run(s, ms).q.leaked == s.q.leaked
    decreases |ms|
  {
    if ms != [] {
      var i, c := ms[0].thread, ms[0].choice;
      StepKeepsOk(s, i, c);
      if s.cfg.overflow.DropOldest? || s.cfg.overflow.Reject? { OnlyBlockingLeaks(s, i, c); }
      RunKeepsOk(Step(s, i, c), ms[1..]);
    }
  }

  /** Conservation over every interleaving of any number of producers, workers,
      drainers and a ticker, with no leak term under DropOldest and Reject; and the
      channel, within capacity, is always the last items sent, in order. */
  lemma QueueConserves(s: System, ms: seq<Move>)
    requires Fresh(s) && CanRun(s, ms)
    ensures var q, owed, held := Run(s, ms).q, AllOwed(Run(s, ms).threads), AllHeld(Run(s, ms).threads);
            && q.enqueued == |q.buffer| + q.drained + q.dropped + q.rejected + q.leaked + owed
            && (s.cfg.overflow.DropOldest? || s.cfg.overflow.Reject? ==> q.leaked == 0)
            && |q.buffer| <= s.cfg.capacity
            && q.taken <= |q.sent| && q.buffer == q.sent[q.taken..]
            && multiset(q.sent) == multiset(q.buffer) + (q.delivered + q.overwritten + held)
  {
    FreshIsOk(s);
    RunKeepsOk(s, ms);
    var q := Run(s, ms).q;
    assert q.sent == q.sent[..q.taken] + q.sent[q.taken..];
  }

  /** Callers still collecting what they will return. */
  function CallerHolds(t: Thread): multiset<Item> {
    if t.DDrain? || t.DTook? then Held(t) else multiset{}
  }

  function CallersHold(ts: seq<Thread>): multiset<Item> {
    if ts == [] then multiset{} else CallerHolds(ts[0]) + CallersHold(ts[1..])
  }

  lemma OnlyCallerHolds(t: Thread)
    requires (Working(t) ==> t.WExit?) && (Ticking(t) ==> t.TExit?)
    ensures Held(t) == CallerHolds(t)
  {
    assert !(t.DDrain? || t.DTook?) ==> Holding(t) == [];
  }

  lemma {:induction false} OnlyCallersHold(ts: seq<Thread>)
    requires forall j :: 0 <= j < |ts| && Working(ts[j]) ==> ts[j].WExit?
    requires forall j :: 0 <= j < |ts| && Ticking(ts[j]) ==> ts[j].TExit?
    ensures AllHeld(ts) == CallersHold(ts)
  {
    if ts != [] {
      OnlyCallerHolds(ts[0]);
      OnlyCallersHold(ts[1..]);
    }
  }

  /** Stop returns once the pool and the ticker have ended. */
  ghost predicate Stopped(s: System) {
    && s.q.done
    && (forall j :: 0 <= j < |s.threads| && Working(s.threads[j]) ==> s.threads[j].WExit?)
    && (forall j :: 0 <= j < |s.threads| && Ticking(s.threads[j]) ==> s.threads[j].TExit?)
  }

  /** Everything sent before Stop began was handed to the callback or to a caller of
      Drain or TryDrain, or was overwritten by overflow. */
  ghost predicate Kept(s: System) {
    && s.q.mark <= |s.q.sent|
    && multiset(s.q.sent[..s.q.mark]) <= s.q.delivered + s.q.overwritten + CallersHold(s.threads)
  }

  /** With a ticker, when Stop returns every item accepted before Stop began has
      been handed to the callback or to a caller of Drain or TryDrain, or was
      overwritten by overflow. */
  lemma ShutdownLosesNothing(s: System, ms: seq<Move>, ticker: nat)
    requires Fresh(s) && CanRun(s, ms) && Stopped(Run(s, ms))
    requires ticker < |Run(s, ms).threads| && Ticking(Run(s, ms).threads[ticker])
    ensures Kept(Run(s, ms))
  {
    FreshIsOk(s);
    RunKeepsOk(s, ms);
    assert Final(Run(s, ms).threads[ticker]);
    OnlyCallersHold(Run(s, ms).threads);
    TakenIsKept(Run(s, ms));
  }

  lemma TakenIsKept(s: System)
    requires s.q.mark <= s.q.taken && Accounted(s.q, CallersHold(s.threads))
    ensures Kept(s)
  {
    assert s.q.sent[..s.q.taken] == s.q.sent[..s.q.mark] + s.q.sent[s.q.mark..s.q.taken];
  }
}
