/** The bounded task queue as one object: what each operation does when no other
    goroutine touches the channel meanwhile. TaskQueueSystem covers interleavings;
    LoneEnqueue ties the two together. */
module TaskQueue {
  import opened TaskQueueSystem

  /** The channel and the counters. */
  datatype Tally = Tally(buffer: seq<Item>, enqueued: nat, drained: nat, dropped: nat, rejected: nat)

  /** Enqueue on an undisturbed channel. */
  function Accept(cfg: Config, t: Tally, done: bool, item: Item): (bool, Tally) {
    if done then (false, t)
    else
      var counted := t.(enqueued := t.enqueued + 1);
      if cfg.overflow.Unknown? then (false, counted)
      else if |t.buffer| < cfg.capacity then (true, counted.(buffer := t.buffer + [item]))
      else if cfg.overflow.DropOldest? && t.buffer != [] then
        (true, counted.(buffer := t.buffer[1..] + [item], dropped := t.dropped + 1))
      else if cfg.overflow.Reject? then (false, counted.(rejected := t.rejected + 1))
      else (false, counted)
  }

  /** The calls one flush makes: the chunks the ticker of TaskQueueSystem delivers. */
  function Chunks(items: seq<Item>, batchCap: int): seq<seq<Item>> {
    if items == [] then []
    else var k := ChunkSize(|items|, batchCap); [items[..k]] + Chunks(items[k..], batchCap)
  }

  lemma NextChunk(items: seq<Item>, i: nat, batchCap: nat)
    requires i < |items| && batchCap > 0
    ensures var end := if i + batchCap > |items| then |items| else i + batchCap;
            Chunks(items[i..], batchCap) == [items[i..end]] + Chunks(items[end..], batchCap)
  {
    var end := if i + batchCap > |items| then |items| else i + batchCap;
    assert items[i..][..end - i] == items[i..end] && items[i..][end - i..] == items[end..];
  }

  function Concat(parts: seq<seq<Item>>): seq<Item> {
    if parts == [] then [] else parts[0] + Concat(parts[1..])
  }

  /** The chunks are the drained list cut into non-empty calls, all but the last of
      full size; without a batch size there is one call. */
  lemma {:induction false} ChunksDivide(items: seq<Item>, batchCap: int)
    ensures var parts := Chunks(items, batchCap);
            && Concat(parts) == items
            && (forall j :: 0 <= j < |parts| ==> parts[j] != [])
            && (batchCap > 0 ==> forall j :: 0 <= j < |parts| ==> |parts[j]| <= batchCap)
            && (batchCap > 0 ==> forall j :: 0 <= j < |parts| - 1 ==> |parts[j]| == batchCap)
            && (batchCap <= 0 ==> |parts| <= 1)
    decreases |items|
  {
    if items != [] {
      var k := ChunkSize(|items|, batchCap);
      ChunksDivide(items[k..], batchCap);
      assert items == items[..k] + items[k..];
    }
  }

  class TaskQueue {
    const cfg: Config
    var buffer: seq<Item>
    var enqueued: nat
    var drained: nat
    var dropped: nat
    var rejected: nat
    var done: bool
    var calls: seq<seq<Item>>

    ghost predicate Valid() reads this {
      cfg.capacity > 0 && |buffer| <= cfg.capacity
    }

    function Stats(): Tally reads this {
      Tally(buffer, enqueued, drained, dropped, rejected)
    }

    /** Of the counters only drained has moved. */
    ghost predicate OnlyDrained(before: Tally, n: nat) reads this {
      enqueued == before.enqueued && dropped == before.dropped && rejected == before.rejected && drained == before.drained + n
    }

    constructor (capacity: int, batchSize: int, overflow: Overflow)
      ensures Valid() && Stats() == Tally([], 0, 0, 0, 0) && !done && calls == []
      ensures cfg == Config(if capacity <= 0 then 1024 else capacity, if batchSize < 0 then 0 else batchSize, overflow)
    {
      cfg := Config(if capacity <= 0 then 1024 else capacity, if batchSize < 0 then 0 else batchSize, overflow);
      buffer, calls, done := [], [], false;
      enqueued, drained, dropped, rejected := 0, 0, 0, 0;
    }

    /** The precondition leaves out the one call that does not return: blocking on
        a full channel that nobody empties. */
    method Enqueue(item: Item) returns (ok: bool)
      requires Valid() && (cfg.overflow.Block? && !done ==> |buffer| < cfg.capacity)
      modifies this
      ensures Valid() && done == old(done) && calls == old(calls)
      ensures (ok, Stats()) == Accept(cfg, old(Stats()), old(done), item)
    {
      if done { return false; }
      enqueued := enqueued + 1;
      match cfg.overflow
      case Unknown =>
        ok := false;
      case Block =>
        buffer := buffer + [item];
        ok := true;
      case Reject =>
        if |buffer| < cfg.capacity {
          buffer := buffer + [item];
          ok := true;
        } else {
          rejected := rejected + 1;
          ok := false;
        }
      case DropOldest =>
        if |buffer| < cfg.capacity {
          buffer := buffer + [item];
          return true;
        }
        var retry := 0;
        while retry < MAX_RETRIES
          invariant 0 <= retry <= MAX_RETRIES
          invariant done == old(done) && calls == old(calls)
          invariant enqueued == old(enqueued) + 1 && drained == old(drained) && rejected == old(rejected)
          invariant retry == 0 ==> buffer == old(buffer) && dropped == old(dropped)
          invariant retry > 0 ==> buffer == old(buffer)[1..] && dropped == old(dropped) + 1
          invariant retry <= 1
        {
          if |buffer| < cfg.capacity {
            buffer := buffer + [item];
            return true;
          }
          if buffer != [] {
            buffer := buffer[1..];
            dropped := dropped + 1;
          }
          retry := retry + 1;
        }
        // only other producers refilling the channel could use up the retries
        assert false;
    }

    method Drain() returns (items: seq<Item>)
      requires Valid()
      modifies this
      ensures Valid() && done == old(done) && calls == old(calls)
      ensures items == old(buffer) && buffer == []
      ensures OnlyDrained(old(Stats()), |items|)
    {
      items := [];
      while buffer != []
        invariant Valid() && done == old(done) && calls == old(calls)
        invariant items + buffer == old(buffer) && OnlyDrained(old(Stats()), |items|)
        decreases |buffer|
      {
        items, buffer := items + [buffer[0]], buffer[1..];
        drained := drained + 1;
      }
    }

    method TryDrain(max: int) returns (items: seq<Item>)
      requires Valid()
      modifies this
      ensures Valid() && done == old(done) && calls == old(calls)
      ensures items + buffer == old(buffer)
      ensures max <= 0 ==> items == []
      ensures max > 0 ==> |items| <= max && (|items| < max ==> buffer == [])
      ensures OnlyDrained(old(Stats()), |items|)
    {
      items := [];
      if max <= 0 { return; }
      var i := 0;
      while i < max
        invariant 0 <= i == |items| <= max
        invariant Valid() && done == old(done) && calls == old(calls)
        invariant items + buffer == old(buffer) && OnlyDrained(old(Stats()), |items|)
      {
        if buffer == [] { return; }
        assert items + buffer == (items + [buffer[0]]) + buffer[1..];
        items, buffer := items + [buffer[0]], buffer[1..];
        drained := drained + 1;
        i := i + 1;
      }
    }

    method FlushAll()
      requires Valid()
      modifies this
      ensures Valid() && done == old(done)
      ensures buffer == [] && OnlyDrained(old(Stats()), |old(buffer)|)
      ensures calls == old(calls) + Chunks(old(buffer), cfg.batchCap)
    {
      var items := Drain();
      if |items| == 0 { return; }
      if cfg.batchCap > 0 {
        var i := 0;
        while i < |items|
          invariant 0 <= i && done == old(done)
          invariant buffer == [] && OnlyDrained(old(Stats()), |old(buffer)|)
          invariant i < |items| ==> old(calls) + Chunks(items, cfg.batchCap) == calls + Chunks(items[i..], cfg.batchCap)
          invariant i >= |items| ==> old(calls) + Chunks(items, cfg.batchCap) == calls
          decreases |items| - i
        {
          var end := i + cfg.batchCap;
          if end > |items| { end := |items|; }
          NextChunk(items, i, cfg.batchCap);
          calls := calls + [items[i..end]];
          i := i + cfg.batchCap;
        }
      } else {
        assert items[..|items|] == items;
        calls := calls + [items];
      }
    }

    method Stop()
      requires Valid()
      modifies this
      ensures Valid() && done && Stats() == old(Stats()) && calls == old(calls)
    {
      done := true;
    }
  }

  // ---------------------------------------------------------------- the same call in the interleaved model

  function TallyOf(q: Queue): Tally {
    Tally(q.buffer, q.enqueued, q.drained, q.dropped, q.rejected)
  }

  ghost predicate Reaches(cfg: Config, q: Queue, t: Thread, q': Queue, t': Thread, n: nat)
    decreases n
  {
    if n == 0 then q' == q && t' == t
    else
      && Ready(t, Go, cfg, See(cfg, q))
      && var r := Advance(t, Go, cfg, See(cfg, q));
         Reaches(cfg, Apply(q, r.1), r.0, q', t', n - 1)
  }

  lemma Reach(cfg: Config, q: Queue, t: Thread, q1: Queue, t1: Thread, q': Queue, t': Thread, n: nat)
    requires Ready(t, Go, cfg, See(cfg, q)) && Reaches(cfg, q1, t1, q', t', n)
    requires Advance(t, Go, cfg, See(cfg, q)).0 == t1 && Apply(q, Advance(t, Go, cfg, See(cfg, q)).1) == q1
    ensures Reaches(cfg, q, t, q', t', n + 1)
  {
  }

  /** A producer whom nobody interrupts ends within eight steps, with the result and
      the counters of the sequential operation. */
  lemma LoneEnqueue(cfg: Config, q: Queue, item: Item) returns (q': Queue, n: nat)
    requires cfg.capacity > 0 && |q.buffer| <= cfg.capacity
    requires cfg.overflow.Block? && !q.done ==> |q.buffer| < cfg.capacity
    ensures n <= 8 && Reaches(cfg, q, PCheck(item), q', PReturn(Accept(cfg, TallyOf(q), q.done, item).0), n)
    ensures TallyOf(q') == Accept(cfg, TallyOf(q), q.done, item).1
  {
    if q.done {
      q', n := q, 1;
      Reach(cfg, q, PCheck(item), q, PReturn(false), q', PReturn(false), 0);
    } else {
      q', n := LoneCounted(cfg, q, item);
      Reach(cfg, q, PCheck(item), q, PCount(item), q', PReturn(Accept(cfg, TallyOf(q), false, item).0), n);
      n := n + 1;
    }
  }

  /** From the moment the queue was found running. */
  lemma LoneCounted(cfg: Config, q: Queue, item: Item) returns (q': Queue, n: nat)
    requires cfg.capacity > 0 && |q.buffer| <= cfg.capacity && (cfg.overflow.Block? ==> |q.buffer| < cfg.capacity)
    ensures n <= 7 && Reaches(cfg, q, PCount(item), q', PReturn(Accept(cfg, TallyOf(q), false, item).0), n)
    ensures TallyOf(q') == Accept(cfg, TallyOf(q), false, item).1
  {
    var t := TallyOf(q);
    if cfg.overflow.Unknown? {
      q', n := Apply(q, EnqueueLeaked), 1;
      Reach(cfg, q, PCount(item), q', PReturn(false), q', PReturn(false), 0);
      assert Accept(cfg, t, false, item) == (false, TallyOf(q'));
    } else if |q.buffer| < cfg.capacity {
      q', n := CountedSend(cfg, q, item);
      assert Accept(cfg, t, false, item) == (true, TallyOf(q'));
    } else if cfg.overflow.Reject? {
      q', n := CountedRefuse(cfg, q, item);
      assert Accept(cfg, t, false, item) == (false, TallyOf(q'));
    } else {
      q', n := CountedOverwrite(cfg, q, item);
      assert Accept(cfg, t, false, item) == (true, TallyOf(q'));
    }
  }

  lemma CountedSend(cfg: Config, q: Queue, item: Item) returns (q': Queue, n: nat)
    requires !cfg.overflow.Unknown? && |q.buffer| < cfg.capacity
    ensures n == 2 && Reaches(cfg, q, PCount(item), q', PReturn(true), n)
    ensures TallyOf(q') == TallyOf(q).(enqueued := q.enqueued + 1, buffer := q.buffer + [item])
  {
    q', n := LoneSend(cfg, Apply(q, Enqueue), item);
    CountedReach(cfg, q, item, q', true, n);
    n := n + 1;
  }

  lemma CountedRefuse(cfg: Config, q: Queue, item: Item) returns (q': Queue, n: nat)
    requires cfg.overflow.Reject? && |q.buffer| >= cfg.capacity
    ensures n == 3 && Reaches(cfg, q, PCount(item), q', PReturn(false), n)
    ensures TallyOf(q') == TallyOf(q).(enqueued := q.enqueued + 1, rejected := q.rejected + 1)
  {
    q', n := LoneRefuse(cfg, Apply(q, Enqueue), item);
    CountedReach(cfg, q, item, q', false, n);
    n := n + 1;
  }

  lemma CountedOverwrite(cfg: Config, q: Queue, item: Item) returns (q': Queue, n: nat)
    requires cfg.overflow.DropOldest? && cfg.capacity > 0 && |q.buffer| == cfg.capacity
    ensures n == 6 && Reaches(cfg, q, PCount(item), q', PReturn(true), n)
    ensures TallyOf(q')
            == TallyOf(q).(enqueued := q.enqueued + 1, buffer := q.buffer[1..] + [item], dropped := q.dropped + 1)
  {
    q', n := LoneOverwrite(cfg, Apply(q, Enqueue), item);
    CountedReach(cfg, q, item, q', true, n);
    n := n + 1;
  }

  lemma CountedReach(cfg: Config, q: Queue, item: Item, q': Queue, ok: bool, n: nat)
    requires !cfg.overflow.Unknown? && Reaches(cfg, Apply(q, Enqueue), PSend(item, 0), q', PReturn(ok), n)
    ensures Reaches(cfg, q, PCount(item), q', PReturn(ok), n + 1)
  {
    Reach(cfg, q, PCount(item), Apply(q, Enqueue), PSend(item, 0), q', PReturn(ok), n);
  }

  lemma LoneSend(cfg: Config, q: Queue, item: Item) returns (q': Queue, n: nat)
    requires |q.buffer| < cfg.capacity
    ensures n == 1 && Reaches(cfg, q, PSend(item, 0), q', PReturn(true), n)
    ensures q' == Apply(q, Send(item))
  {
    q', n := Apply(q, Send(item)), 1;
    Reach(cfg, q, PSend(item, 0), q', PReturn(true), q', PReturn(true), 0);
  }

  lemma LoneRefuse(cfg: Config, q: Queue, item: Item) returns (q': Queue, n: nat)
    requires cfg.overflow.Reject? && |q.buffer| >= cfg.capacity
    ensures n == 2 && Reaches(cfg, q, PSend(item, 0), q', PReturn(false), n)
    ensures q' == Apply(q, Refuse)
  {
    q', n := Apply(q, Refuse), 2;
    Reach(cfg, q, PRefuse, q', PReturn(false), q', PReturn(false), 0);
    Reach(cfg, q, PSend(item, 0), q, PRefuse, q', PReturn(false), 1);
  }

  lemma LoneOverwrite(cfg: Config, q: Queue, item: Item) returns (q': Queue, n: nat)
    requires cfg.overflow.DropOldest? && cfg.capacity > 0 && |q.buffer| == cfg.capacity
    ensures n == 5 && Reaches(cfg, q, PSend(item, 0), q', PReturn(true), n)
    ensures TallyOf(q') == TallyOf(q).(buffer := q.buffer[1..] + [item], dropped := q.dropped + 1)
  {
    var q1 := Apply(q, Overwrite);
    var q2 := Apply(q1, Drop);
    q', n := Apply(q2, Send(item)), 5;
    Reach(cfg, q2, PSend(item, 2), q', PReturn(true), q', PReturn(true), 0);
    Reach(cfg, q1, PTally(item, 1), q2, PSend(item, 2), q', PReturn(true), 1);
    Reach(cfg, q, PEvict(item, 1), q1, PTally(item, 1), q', PReturn(true), 2);
    Reach(cfg, q, PSend(item, 1), q, PEvict(item, 1), q', PReturn(true), 3);
    Reach(cfg, q, PSend(item, 0), q, PSend(item, 1), q', PReturn(true), 4);
  }
}
