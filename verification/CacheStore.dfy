/** An expiring key-value store with prefixes. Every reading of the clock is a
    parameter; times are nanoseconds. */
module CacheStore {
  import opened Text

  /** int64 values, values of Go's other number types, and everything else. */
  datatype Value = Int64(n: int) | OtherNumber(n: int) | Data(bytes: string)

  datatype Entry = Entry(value: Value, expires: int)

  const FIVE_MINUTES: int := 300_000_000_000

  /** An entry is readable up to and including its expiry. */
  predicate Live(e: Option<Entry>, now: int) { e.Some? && now <= e.value.expires }

  function Slot(items: map<string, Entry>, key: string): Option<Entry> {
    if key in items then Some(items[key]) else None
  }

  function Read(e: Option<Entry>, now: int): Option<Value> {
    if Live(e, now) then Some(e.value.value) else None
  }

  /** Time left; an entry on its last instant has none but is still there. */
  function TimeLeft(e: Option<Entry>, look: int, until: int): Option<nat> {
    if Live(e, look) && until <= e.value.expires then Some(e.value.expires - until) else None
  }

  function Prefixed(prefix: string, key: string): string {
    var k := TrimSpace(key);
    if k == "" then prefix else if prefix == "" then k else prefix + ":" + k
  }

  /** Within one namespace only keys that differ by surrounding blanks share an entry. */
  lemma PrefixedIsInjective(prefix: string, a: string, b: string)
    ensures Prefixed(prefix, a) == Prefixed(prefix, b) <==> TrimSpace(a) == TrimSpace(b)
  {
    var x, y := TrimSpace(a), TrimSpace(b);
    var p := prefix + ":";
    assert (p + x)[|p|..] == x && (p + y)[|p|..] == y;
  }

  /** The clock readings of one Increment, in order. */
  datatype Ticks = Ticks(check: int, bump: int, read: int, write: int)

  predicate Ordered(t: Ticks) { t.check <= t.bump <= t.read <= t.write }

  /** What Increment leaves of an entry and what it returns; None is an error. */
  function Incremented(e: Option<Entry>, delta: int, ttl: int, t: Ticks): (Option<Entry>, Option<int>) {
    if !Live(e, t.check) then (Some(Entry(Int64(delta), t.write + ttl)), Some(delta))
    else if !Live(e, t.bump) || e.value.value.Data? then (e, None)
    else
      var v := e.value.value;
      var bumped := Entry(if v.Int64? then Int64(v.n + delta) else OtherNumber(v.n + delta), e.value.expires);
      if !Live(e, t.read) then (Some(bumped), Some(0))
      else if v.OtherNumber? then (Some(bumped), None)
      else (Some(bumped.(expires := t.write + ttl)), Some(v.n + delta))
  }

  /** The backend shared by all namespaces, with its hit and miss counters. */
  class Backend {
    var items: map<string, Entry>
    var hits: nat
    var misses: nat

    constructor ()
      ensures items == map[] && hits == 0 && misses == 0
    {
      items, hits, misses := map[], 0, 0;
    }
  }

  class Store {
    const backend: Backend
    const prefix: string
    const defaultTTL: int

    predicate Valid() { defaultTTL > 0 }

    function EntryAt(key: string): Option<Entry> reads backend {
      Slot(backend.items, Prefixed(prefix, key))
    }

    constructor (backend: Backend, prefix: string, defaultTTL: int)
      ensures Valid() && this.backend == backend && this.prefix == prefix
      ensures this.defaultTTL == if defaultTTL <= 0 then FIVE_MINUTES else defaultTTL
    {
      this.backend, this.prefix := backend, prefix;
      this.defaultTTL := if defaultTTL <= 0 then FIVE_MINUTES else defaultTTL;
    }

    function NormalizeTTL(ttl: int): (r: int)
      requires Valid()
      ensures r > 0 && (ttl > 0 ==> r == ttl) && (ttl <= 0 ==> r == defaultTTL)
    {
      if ttl <= 0 then defaultTTL else ttl
    }

    method Set(key: string, value: Value, ttl: int, now: int)
      requires Valid()
      modifies backend
      ensures backend.items == old(backend.items)[Prefixed(prefix, key) := Entry(value, now + NormalizeTTL(ttl))]
      ensures backend.hits == old(backend.hits) && backend.misses == old(backend.misses)
    {
      backend.items := backend.items[Prefixed(prefix, key) := Entry(value, now + NormalizeTTL(ttl))];
    }

    method Get(key: string, now: int) returns (value: Option<Value>)
      modifies backend
      ensures value == Read(EntryAt(key), now) && backend.items == old(backend.items)
      ensures backend.hits == old(backend.hits) + (if value.Some? then 1 else 0)
      ensures backend.misses == old(backend.misses) + (if value.None? then 1 else 0)
    {
      value := Read(Slot(backend.items, Prefixed(prefix, key)), now);
      if value.Some? {
        backend.hits := backend.hits + 1;
      } else {
        backend.misses := backend.misses + 1;
      }
    }

    method Delete(key: string)
      modifies backend
      ensures backend.items == old(backend.items) - {Prefixed(prefix, key)}
      ensures backend.hits == old(backend.hits) && backend.misses == old(backend.misses)
    {
      backend.items := backend.items - {Prefixed(prefix, key)};
    }

    method TTL(key: string, look: int, until: int) returns (left: Option<nat>)
      requires look <= until
      ensures left == TimeLeft(EntryAt(key), look, until)
    {
      var e := Slot(backend.items, Prefixed(prefix, key));
      if !Live(e, look) { return None; }
      var ttl := e.value.expires - until;
      if ttl < 0 { return None; }
      left := Some(ttl);
    }

    /** A blank key counts nothing and reports zero. */
    method Increment(key: string, delta: int, ttl: int, t: Ticks) returns (r: Option<int>)
      requires Valid() && Ordered(t)
      modifies backend
      ensures TrimSpace(key) == "" ==> r == Some(0) && backend.items == old(backend.items)
      ensures TrimSpace(key) != "" ==> (EntryAt(key), r) == Incremented(old(EntryAt(key)), delta, NormalizeTTL(ttl), t)
      ensures forall k :: k != Prefixed(prefix, key) ==> Slot(backend.items, k) == Slot(old(backend.items), k)
      ensures backend.hits == old(backend.hits) && backend.misses == old(backend.misses)
    {
      var trimmed := TrimSpace(key);
      if trimmed == "" { return Some(0); }
      TrimSpaceSound(key);
      TrimmedIsFixed(trimmed);
      var name := Prefixed(prefix, trimmed);
      var expires := t.write + NormalizeTTL(ttl);
      var e := Slot(backend.items, name);
      if !Live(e, t.check) {
        backend.items := backend.items[name := Entry(Int64(delta), expires)];
        return Some(delta);
      }
      r := Bump(name, e, delta, expires, t);
    }

    /** The part of Increment that found the entry: bump, read back, set again. */
    method Bump(name: string, found: Option<Entry>, delta: int, expires: int, t: Ticks) returns (r: Option<int>)
      requires found == Slot(backend.items, name) && Live(found, t.check)
      modifies backend
      ensures (Slot(backend.items, name), r) == Incremented(found, delta, expires - t.write, t)
      ensures forall k :: k != name ==> Slot(backend.items, k) == Slot(old(backend.items), k)
      ensures backend.hits == old(backend.hits) && backend.misses == old(backend.misses)
    {
      var e := found;
      if !Live(e, t.bump) { return None; }
      match e.value.value {
        case Data(_) => return None;
        case Int64(n) => backend.items := backend.items[name := e.value.(value := Int64(n + delta))];
        case OtherNumber(n) => backend.items := backend.items[name := e.value.(value := OtherNumber(n + delta))];
      }
      e := Slot(backend.items, name);
      if !Live(e, t.read) { return Some(0); }
      var raw := e.value.value;
      if !raw.Int64? { return None; }
      backend.items := backend.items[name := Entry(raw, expires)];
      r := Some(raw.n);
    }
  }
}
