/** A fixed-window limiter built on TTL and Increment of the expiring store. */
module RateLimiter {
  import opened Text
  import opened CacheStore

  const MINUTE: int := 60_000_000_000

  /** The clock readings of one call, in order. */
  datatype Clock = Clock(now: int, look: int, until: int, ticks: Ticks)

  predicate InOrder(c: Clock) {
    c.now <= c.look <= c.until <= c.ticks.check && Ordered(c.ticks)
  }

  datatype Outcome = Decision(allowed: bool, remaining: nat, resetAt: int) | Failure

  predicate Allowed(o: Outcome) { o.Decision? && o.allowed }

  /** The lifetime Allow asks for: what is left of a live bucket, else the window. */
  function Lifetime(e: Option<Entry>, window: int, c: Clock): int {
    var left := TimeLeft(e, c.look, c.until);
    if left.Some? && left.value > 0 then left.value else window
  }

  function Decide(count: Option<int>, limit: nat, resetAt: int): Outcome {
    if count.None? then Failure
    else Decision(count.value <= limit, if count.value < limit then limit - count.value else 0, resetAt)
  }

  /** One call on a bucket: what is left of it and the answer. */
  function Admit(e: Option<Entry>, limit: nat, window: int, c: Clock): (Option<Entry>, Outcome) {
    var ttl := Lifetime(e, window, c);
    var r := Incremented(e, 1, ttl, c.ticks);
    (r.0, Decide(r.1, limit, c.now + ttl))
  }

  class RateLimiter {
    const store: Store

    constructor (store: Store)
      ensures this.store == store
    {
      this.store := store;
    }

    method Allow(key: string, limit: int, window: int, c: Clock) returns (o: Outcome)
      requires store.Valid() && InOrder(c)
      modifies store.backend
      ensures limit <= 0 ==> o == Failure && store.backend.items == old(store.backend.items)
      ensures limit > 0 && TrimSpace(key) != "" ==>
                (store.EntryAt(key), o) == Admit(old(store.EntryAt(key)), limit, if window <= 0 then MINUTE else window, c)
      ensures limit > 0 && TrimSpace(key) == "" ==> Allowed(o) && store.backend.items == old(store.backend.items)
      ensures forall k :: k != Prefixed(store.prefix, key) ==> Slot(store.backend.items, k) == Slot(old(store.backend.items), k)
    {
      if limit <= 0 { return Failure; }
      var win := if window <= 0 then MINUTE else window;
      var ttl := win;
      var remain := store.TTL(key, c.look, c.until);
      if remain.Some? && remain.value > 0 { ttl := remain.value; }
      var current := store.Increment(key, 1, ttl, c.ticks);
      if current.None? { return Failure; }
      var remaining := limit - current.value;
      if remaining < 0 { remaining := 0; }
      o := Decision(current.value <= limit, remaining, c.now + ttl);
    }

    method Reset(key: string)
      modifies store.backend
      ensures store.backend.items == old(store.backend.items) - {Prefixed(store.prefix, key)}
    {
      store.Delete(key);
    }
  }

  // ---------------------------------------------------------------- one bucket

  /** Entries the limiter writes count from one. */
  predicate Counter(e: Option<Entry>) { e.Some? ==> e.value.value.Int64? && e.value.value.n >= 1 }

  function Count(e: Option<Entry>): int { if e.Some? && e.value.value.Int64? then e.value.value.n else 0 }

  /** A counted call: it finds a live bucket, adds one, is allowed iff the new number
      is within the limit, and does not shorten the bucket's life. */
  predicate Counts(e: Option<Entry>, r: (Option<Entry>, Outcome), limit: nat, c: Clock) {
    && Live(e, c.ticks.bump) && Counter(r.0) && r.0.Some? && Count(r.0) == Count(e) + 1
    && r.0.value.expires >= e.value.expires && (Allowed(r.1) <==> Count(e) + 1 <= limit)
  }

  /** An opening call: it finds no bucket, starts one with at least a whole window to
      live, and is allowed. */
  predicate Opens(e: Option<Entry>, r: (Option<Entry>, Outcome), window: int, c: Clock) {
    && !Live(e, c.ticks.check) && Counter(r.0) && r.0.Some? && Count(r.0) == 1
    && r.0.value.expires >= c.ticks.write + window && Allowed(r.1)
  }

  /** A failing call: the bucket lapses before it is bumped and stays as it was. */
  predicate Fails(e: Option<Entry>, r: (Option<Entry>, Outcome)) { r.0 == e && r.1.Failure? }

  predicate Regular(e: Option<Entry>, limit: nat, window: int, c: Clock) {
    var r := Admit(e, limit, window, c);
    Counts(e, r, limit, c) || Opens(e, r, window, c) || Fails(e, r)
  }

  /** The call takes over less than a window of a bucket that is gone when it counts. */
  predicate Reopens(e: Option<Entry>, window: int, c: Clock) {
    Live(e, c.look) && c.until < e.value.expires < c.until + window && !Live(e, c.ticks.check)
  }

  /** The call is over the limit, but the bucket is gone when its count is read back. */
  predicate SlipsThrough(e: Option<Entry>, limit: nat, c: Clock) {
    Live(e, c.ticks.bump) && !Live(e, c.ticks.read) && Count(e) + 1 > limit
  }

  predicate Straddles(e: Option<Entry>, limit: nat, window: int, c: Clock) {
    Reopens(e, window, c) || SlipsThrough(e, limit, c)
  }

  /** A call treats its bucket as the window promises iff no expiry falls into it in
      one of two ways: between reading the lifetime and counting, or between counting
      and reading the count of a call that is over the limit. */
  lemma RegularExactly(e: Option<Entry>, limit: nat, window: int, c: Clock)
    requires Counter(e) && InOrder(c) && limit > 0 && window > 0
    ensures Regular(e, limit, window, c) <==> !Straddles(e, limit, window, c)
  {
    if Live(e, c.ticks.bump) {
      BumpedCall(e, limit, window, c);
    } else if Live(e, c.ticks.check) {
      assert Fails(e, Admit(e, limit, window, c));
    } else {
      LapsedCall(e, limit, window, c);
    }
  }

  lemma BumpedCall(e: Option<Entry>, limit: nat, window: int, c: Clock)
    requires Counter(e) && InOrder(c) && limit > 0 && window > 0 && Live(e, c.ticks.bump)
    ensures var r := Admit(e, limit, window, c);
            && Counter(r.0) && r.0.Some? && Count(r.0) == Count(e) + 1 && r.0.value.expires >= e.value.expires
            && (Allowed(r.1) <==> Count(e) + 1 <= limit || !Live(e, c.ticks.read))
            && !r.1.Failure? && !Reopens(e, window, c)
  {
  }

  lemma LapsedCall(e: Option<Entry>, limit: nat, window: int, c: Clock)
    requires Counter(e) && InOrder(c) && limit > 0 && window > 0 && !Live(e, c.ticks.check)
    ensures var r := Admit(e, limit, window, c);
            && Counter(r.0) && r.0.Some? && Count(r.0) == 1 && Allowed(r.1)
            && (r.0.value.expires >= c.ticks.write + window <==> !Reopens(e, window, c))
  {
  }

  /** A call that finds no live bucket opens one for exactly one window and is allowed. */
  lemma OpeningCall(e: Option<Entry>, limit: nat, window: int, c: Clock)
    requires limit > 0 && InOrder(c) && !Live(e, c.look)
    ensures var r := Admit(e, limit, window, c);
            && Counter(r.0) && Count(r.0) == 1 && r.0.Some? && Allowed(r.1)
            && r.0.value.expires == c.ticks.write + window
  {
  }

  /** A call on a bucket that outlives it adds one and moves the expiry by exactly its
      own duration, or by a whole window when it falls on the bucket's last instant. */
  lemma LiveCall(e: Option<Entry>, limit: nat, window: int, c: Clock)
    requires Counter(e) && InOrder(c) && Live(e, c.ticks.read)
    ensures var r := Admit(e, limit, window, c);
            && Counter(r.0) && r.0.Some? && Count(r.0) == Count(e) + 1
            && (Allowed(r.1) <==> Count(e) + 1 <= limit)
            && r.0.value.expires == if c.until < e.value.expires then e.value.expires + (c.ticks.write - c.until)
                                    else c.ticks.write + window
  {
  }

  /** A call that takes no time keeps the expiry exactly when it comes before the
      bucket's last instant; on that instant even a denied call renews the bucket. */
  lemma InstantCallKeepsExpiry(e: Option<Entry>, limit: nat, window: int, at: int)
    requires Counter(e) && Live(e, at) && window > 0
    ensures var c := Clock(at, at, at, Ticks(at, at, at, at));
            Admit(e, limit, window, c).0.value.expires == e.value.expires <==> at < e.value.expires
  {
  }

  /** A bucket that lapses just before its count is read back lets the call through
      whatever the count was. */
  lemma LapsedReadAllows(e: Option<Entry>, limit: nat, window: int, c: Clock)
    requires Counter(e) && InOrder(c) && Live(e, c.ticks.bump) && !Live(e, c.ticks.read)
    ensures Allowed(Admit(e, limit, window, c).1)
  {
  }

  // ---------------------------------------------------------------- runs

  function After(e: Option<Entry>, limit: nat, window: int, cs: seq<Clock>): Option<Entry>
    decreases |cs|
  {
    if cs == [] then e else After(Admit(e, limit, window, cs[0]).0, limit, window, cs[1..])
  }

  ghost predicate Sequential(cs: seq<Clock>) {
    && (forall j :: 0 <= j < |cs| ==> InOrder(cs[j]))
    && (forall j :: 0 < j < |cs| ==> cs[j - 1].ticks.write <= cs[j].now)
  }

  /** Every call finds the bucket and ends within its life. */
  ghost predicate AllLive(e: Option<Entry>, limit: nat, window: int, cs: seq<Clock>)
    decreases |cs|
  {
    cs == [] || (Live(e, cs[0].ticks.read) && AllLive(Admit(e, limit, window, cs[0]).0, limit, window, cs[1..]))
  }

  /** Call number k of a bucket is allowed iff k <= limit. */
  lemma {:induction false} CallNumber(e: Option<Entry>, limit: nat, window: int, cs: seq<Clock>, next: Clock)
    requires Counter(e) && Sequential(cs + [next]) && AllLive(e, limit, window, cs + [next])
    ensures Allowed(Admit(After(e, limit, window, cs), limit, window, next).1) <==> Count(e) + |cs| + 1 <= limit
    decreases |cs|
  {
    var all := cs + [next];
    LiveCall(e, limit, window, all[0]);
    if cs != [] {
      assert all[1..] == cs[1..] + [next];
      CallNumber(Admit(e, limit, window, cs[0]).0, limit, window, cs[1..], next);
    }
  }

  /** How many calls made in [from, to] were allowed. */
  function AllowedWithin(e: Option<Entry>, limit: nat, window: int, cs: seq<Clock>, from: int, to: int): nat
    decreases |cs|
  {
    if cs == [] then 0
    else
      var r := Admit(e, limit, window, cs[0]);
      (if Allowed(r.1) && from <= cs[0].look <= to then 1 else 0) + AllowedWithin(r.0, limit, window, cs[1..], from, to)
  }

  /** Room for further calls lost to an expiry in the middle of a call: one limit for
      each such call made in [from, to]. */
  function Excess(e: Option<Entry>, limit: nat, window: int, cs: seq<Clock>, from: int, to: int): nat
    decreases |cs|
  {
    if cs == [] then 0
    else
      (if Straddles(e, limit, window, cs[0]) && from <= cs[0].look <= to then limit else 0)
      + Excess(Admit(e, limit, window, cs[0]).0, limit, window, cs[1..], from, to)
  }

  lemma SequentialTail(cs: seq<Clock>)
    requires Sequential(cs) && cs != []
    ensures Sequential(cs[1..]) && InOrder(cs[0]) && (|cs| > 1 ==> cs[0].ticks.write <= cs[1].now && InOrder(cs[1]))
  {
    assert |cs| > 1 ==> cs[1 - 1].ticks.write <= cs[1].now;
    forall j | 0 < j < |cs| - 1 ensures cs[1..][j - 1].ticks.write <= cs[1..][j].now {
      assert cs[(j + 1) - 1].ticks.write <= cs[j + 1].now;
    }
  }

  lemma {:induction false} NoneWhenLate(e: Option<Entry>, limit: nat, window: int, cs: seq<Clock>, from: int, to: int)
    requires Sequential(cs) && (cs != [] ==> cs[0].look > to)
    ensures AllowedWithin(e, limit, window, cs, from, to) == 0
    decreases |cs|
  {
    if cs != [] {
      SequentialTail(cs);
      NoneWhenLate(Admit(e, limit, window, cs[0]).0, limit, window, cs[1..], from, to);
    }
  }

  function Room(limit: nat, count: int): nat { if count <= limit && count >= 0 then limit - count else 0 }

  /** What a bucket may still admit when the interval starts; an absent one admits a
      fresh bucket in its place, which is counted separately. */
  function Spare(limit: nat, e: Option<Entry>): nat
    requires limit > 0
  {
    if e.None? then limit - 1 else Room(limit, Count(e))
  }

  /** A bucket that outlives the interval: its own room, and one call that looks while
      the bucket lives and counts after the interval. */
  lemma {:induction false} LastBucket(e: Option<Entry>, limit: nat, window: nat, cs: seq<Clock>, from: int, to: int)
    requires Counter(e) && e.Some? && e.value.expires >= to && window > 0 && limit > 0
    requires Sequential(cs) && (cs != [] ==> cs[0].look >= from)
    ensures AllowedWithin(e, limit, window, cs, from, to)
            <= Room(limit, Count(e)) + 1 + Excess(e, limit, window, cs, from, to)
    decreases |cs|
  {
    if cs != [] {
      SequentialTail(cs);
      var c, e' := cs[0], Admit(e, limit, window, cs[0]).0;
      if c.look > to {
        NoneWhenLate(e, limit, window, cs, from, to);
      } else if Live(e, c.ticks.bump) {
        BumpedCall(e, limit, window, c);
        LastBucket(e', limit, window, cs[1..], from, to);
      } else if Live(e, c.ticks.check) {
        assert Fails(e, Admit(e, limit, window, c));
        LastBucket(e, limit, window, cs[1..], from, to);
      } else {
        NoneWhenLate(e', limit, window, cs[1..], from, to);
      }
    }
  }

  /** From the start of the interval: what the present bucket may still admit, then
      one more bucket. */
  lemma {:induction false} TwoBuckets(e: Option<Entry>, limit: nat, window: nat, cs: seq<Clock>, from: int)
    requires Counter(e) && limit > 0 && window > 0
    requires Sequential(cs) && (cs != [] ==> cs[0].look >= from)
    ensures AllowedWithin(e, limit, window, cs, from, from + window)
            <= Spare(limit, e) + limit + 1 + Excess(e, limit, window, cs, from, from + window)
    decreases |cs|
  {
    if cs != [] {
      SequentialTail(cs);
      var c, e', to := cs[0], Admit(e, limit, window, cs[0]).0, from + window;
      if c.look > to {
        NoneWhenLate(e, limit, window, cs, from, to);
      } else if Live(e, c.ticks.bump) {
        BumpedCall(e, limit, window, c);
        TwoBuckets(e', limit, window, cs[1..], from);
      } else if Live(e, c.ticks.check) {
        assert Fails(e, Admit(e, limit, window, c));
        TwoBuckets(e, limit, window, cs[1..], from);
      } else {
        LapsedCall(e, limit, window, c);
        if Reopens(e, window, c) {
          TwoBuckets(e', limit, window, cs[1..], from);
        } else {
          LastBucket(e', limit, window, cs[1..], from, to);
        }
      }
    }
  }

  lemma AdmitKeepsCounter(e: Option<Entry>, limit: nat, window: int, c: Clock)
    requires Counter(e)
    ensures Counter(Admit(e, limit, window, c).0)
  {
  }

  /** The limiter's bound over every run without Reset, whenever buckets expire: any
      interval as long as the window holds at most twice the limit of allowed calls,
      and one limit more for each call made in it that an expiry splits. */
  lemma {:induction false} WindowBound(e: Option<Entry>, limit: nat, window: nat, cs: seq<Clock>, from: int)
    requires Counter(e) && limit > 0 && window > 0 && Sequential(cs)
    ensures AllowedWithin(e, limit, window, cs, from, from + window)
            <= 2 * limit + Excess(e, limit, window, cs, from, from + window)
    decreases |cs|
  {
    if cs != [] {
      SequentialTail(cs);
      if cs[0].look >= from {
        TwoBuckets(e, limit, window, cs, from);
      } else {
        AdmitKeepsCounter(e, limit, window, cs[0]);
        WindowBound(Admit(e, limit, window, cs[0]).0, limit, window, cs[1..], from);
      }
    }
  }

  ghost predicate AllRegular(e: Option<Entry>, limit: nat, window: int, cs: seq<Clock>)
    decreases |cs|
  {
    cs == [] || (Regular(e, limit, window, cs[0]) && AllRegular(Admit(e, limit, window, cs[0]).0, limit, window, cs[1..]))
  }

  lemma {:induction false} RegularHasNoExcess(e: Option<Entry>, limit: nat, window: nat, cs: seq<Clock>, from: int, to: int)
    requires Counter(e) && limit > 0 && window > 0 && Sequential(cs) && AllRegular(e, limit, window, cs)
    ensures Excess(e, limit, window, cs, from, to) == 0
    decreases |cs|
  {
    if cs != [] {
      SequentialTail(cs);
      RegularExactly(e, limit, window, cs[0]);
      AdmitKeepsCounter(e, limit, window, cs[0]);
      RegularHasNoExcess(Admit(e, limit, window, cs[0]).0, limit, window, cs[1..], from, to);
    }
  }

  /** The promise as documented: twice the limit, when every call is regular. */
  lemma TwiceTheLimit(e: Option<Entry>, limit: nat, window: nat, cs: seq<Clock>, from: int)
    requires Counter(e) && limit > 0 && window > 0 && Sequential(cs) && AllRegular(e, limit, window, cs)
    ensures AllowedWithin(e, limit, window, cs, from, from + window) <= 2 * limit
  {
    WindowBound(e, limit, window, cs, from);
    RegularHasNoExcess(e, limit, window, cs, from, from + window);
  }

  // ---------------------------------------------------------------- calls across an expiry

  /** n calls, each made one tick before a bucket expires and counted one tick after. */
  function Straddling(n: nat, expires: int): (cs: seq<Clock>)
    ensures |cs| == n
  {
    if n == 0 then []
    else
      var at, late := expires - 1, expires + 1;
      [Clock(at, at, at, Ticks(late, late, late, late))] + Straddling(n - 1, expires + 2)
  }

  lemma {:induction false} StraddlingInOrder(n: nat, expires: int)
    ensures Sequential(Straddling(n, expires))
    ensures n > 0 ==> Straddling(n, expires)[0].now == expires - 1
  {
    if n > 0 {
      StraddlingInOrder(n - 1, expires + 2);
      var cs, rest := Straddling(n, expires), Straddling(n - 1, expires + 2);
      assert forall j :: 0 < j < n ==> cs[j] == rest[j - 1];
      forall j | 0 < j < n ensures cs[j - 1].ticks.write <= cs[j].now {
        if j > 1 { assert rest[j - 1 - 1].ticks.write <= rest[j - 1].now; }
      }
    }
  }

  /** The term for split calls is needed, without it no bound holds: each of these opens
      a bucket with one tick to live, so with limit 1 all of them are allowed within one
      window. */
  lemma {:induction false} StraddlingDefeatsAnyBound(n: nat, expires: int, window: int, from: int, to: int)
    requires from < expires && expires + 2 * n <= to
    ensures Sequential(Straddling(n, expires))
    ensures AllowedWithin(Some(Entry(Int64(1), expires)), 1, window, Straddling(n, expires), from, to) == n
    decreases n
  {
    StraddlingInOrder(n, expires);
    if n > 0 {
      var e, cs := Some(Entry(Int64(1), expires)), Straddling(n, expires);
      assert Admit(e, 1, window, cs[0]).0 == Some(Entry(Int64(1), expires + 2));
      assert cs[1..] == Straddling(n - 1, expires + 2);
      StraddlingDefeatsAnyBound(n - 1, expires + 2, window, from, to);
    }
  }
}
