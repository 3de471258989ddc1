/** Host metrics held in a cache until a flush writes them to the database. Two
    readings equal as records are the same Metrics value. */
module MetricsBuffer {
  type Metrics = int

  /** A decoded cache entry, or bytes that do not decode. */
  datatype Cell = Good(host: int, metrics: Metrics) | Corrupt

  datatype Answer = Latest(metrics: Metrics) | Nothing | Broken

  class Buffer {
    var cache: map<int, Cell>
    var repo: map<int, Metrics>

    ghost predicate Valid() reads this {
      forall h :: h in cache && cache[h].Good? ==> cache[h].host == h && h > 0
    }

    constructor ()
      ensures Valid() && cache == map[] && repo == map[]
    {
      cache, repo := map[], map[];
    }

    method Enqueue(host: int, metrics: Metrics) returns (ok: bool)
      requires Valid()
      modifies this
      ensures Valid() && ok == (host > 0) && repo == old(repo)
      ensures cache == if ok then old(cache)[host := Good(host, metrics)] else old(cache)
    {
      if host <= 0 { return false; }
      cache := cache[host := Good(host, metrics)];
      ok := true;
    }

    /** Undecodable bytes are removed as well as reported. */
    method Latest(host: int) returns (a: Answer)
      requires Valid()
      modifies this
      ensures Valid() && repo == old(repo)
      ensures a == if host <= 0 || host !in old(cache) then Nothing
                   else if old(cache)[host].Corrupt? then Broken else Answer.Latest(old(cache)[host].metrics)
      ensures cache == if a == Broken then old(cache) - {host} else old(cache)
    {
      if host <= 0 || host !in cache { return Nothing; }
      var c := cache[host];
      if c.Corrupt? {
        cache := cache - {host};
        return Broken;
      }
      a := if c.host != host then Nothing else Answer.Latest(c.metrics);
    }

    /** A flush nobody interferes with: what the database refused stays cached, all
        the rest is in the database and gone from the cache. */
    method Flush(refused: set<int>)
      requires Valid()
      modifies this
      ensures Valid() && cache == Kept(old(cache), {}, refused) && repo == old(repo) + Sent(old(cache), {}, refused)
    {
      var left: set<int> := cache.Keys;
      while left != {}
        invariant left <= old(cache).Keys && Valid()
        invariant cache == Kept(old(cache), left, refused)
        invariant repo == old(repo) + Sent(old(cache), left, refused)
        decreases left
      {
        assert exists h :: h in left by {
          assert (forall h :: h !in left) ==> left == {};
        }
        var key :| key in left;
        VisitOne(old(cache), left, refused, key);
        left := left - {key};
        var c := cache[key];
        if c.Corrupt? || c.host <= 0 {
          cache := cache - {key};
        } else if c.host !in refused {
          repo := repo[c.host := c.metrics];
          var current := cache[key];
          if current.metrics == c.metrics { cache := cache - {key}; }
        }
      }
    }
  }

  /** The entries a flush leaves: those not visited yet and those refused. */
  function Kept(cache: map<int, Cell>, left: set<int>, refused: set<int>): map<int, Cell> {
    map h | h in cache && (h in left || (cache[h].Good? && h in refused)) :: cache[h]
  }

  /** The readings it has written: those visited, decodable and not refused. */
  function Sent(cache: map<int, Cell>, left: set<int>, refused: set<int>): map<int, Metrics> {
    map h | h in cache && h !in left && cache[h].Good? && h !in refused :: cache[h].metrics
  }

  lemma VisitOne(cache: map<int, Cell>, left: set<int>, refused: set<int>, key: int)
    requires left <= cache.Keys && key in left
    ensures var c, rest := cache[key], left - {key};
            && key in Kept(cache, left, refused) && Kept(cache, left, refused)[key] == c
            && Kept(cache, rest, refused)
                 == (if c.Good? && key in refused then Kept(cache, left, refused) else Kept(cache, left, refused) - {key})
            && Sent(cache, rest, refused)
                 == (if c.Good? && key !in refused then Sent(cache, left, refused)[key := c.metrics] else Sent(cache, left, refused))
  {
  }

  // ---------------------------------------------------------------- a flush step by step

  /** A reading with its place among all readings ever enqueued. The code never
      compares the place. */
  datatype Entry = Entry(metrics: Metrics, stamp: nat)

  /** Where the flusher stands in its loop over the keys it listed. */
  datatype Flusher =
    | Idle
    | Loop(keys: seq<int>)
    | Absent(key: int, rest: seq<int>)
    | Loaded(key: int, entry: Entry, rest: seq<int>)
    | Saved(key: int, entry: Entry, rest: seq<int>)
    | Deleting(key: int, entry: Entry, rest: seq<int>)

  datatype State = State(cache: map<int, Entry>, repo: map<int, Entry>, newest: map<int, Entry>, next: nat, flusher: Flusher)

  /** Begin lists the keys in any order; Go is the flusher's next step, with the
      database's answer where it asks. */
  datatype Event = Enqueue(host: int, metrics: Metrics) | Begin(keys: seq<int>) | Go(saved: bool)

  ghost predicate Distinct(keys: seq<int>) {
    forall i, j :: 0 <= i < j < |keys| ==> keys[i] != keys[j]
  }

  ghost predicate CanStep(s: State, e: Event) {
    match e
    case Enqueue(host, _) => host > 0
    case Begin(keys) => s.flusher.Idle? && Distinct(keys) && (forall h :: h in keys <==> h in s.cache)
    case Go(_) => !s.flusher.Idle?
  }

  function Advance(s: State, saved: bool): State {
    match s.flusher
    case Idle => s
    case Loop(keys) =>
      if keys == [] then s.(flusher := Idle)
      else if keys[0] in s.cache then s.(flusher := Loaded(keys[0], s.cache[keys[0]], keys[1..]))
      else s.(flusher := Absent(keys[0], keys[1..]))
    case Absent(key, rest) => s.(cache := s.cache - {key}, flusher := Loop(rest))
    case Loaded(key, entry, rest) =>
      if saved then s.(repo := s.repo[key := entry], flusher := Saved(key, entry, rest)) else s.(flusher := Loop(rest))
    case Saved(key, entry, rest) =>
      if key !in s.cache || s.cache[key].metrics == entry.metrics then s.(flusher := Deleting(key, entry, rest))
      else s.(flusher := Loop(rest))
    case Deleting(key, entry, rest) => s.(cache := s.cache - {key}, flusher := Loop(rest))
  }

  function Step(s: State, e: Event): State {
    match e
    case Enqueue(host, m) =>
      var entry := Entry(m, s.next);
      s.(cache := s.cache[host := entry], newest := s.newest[host := entry], next := s.next + 1)
    case Begin(keys) => s.(flusher := Loop(keys))
    case Go(saved) => Advance(s, saved)
  }

  predicate Holds(m: map<int, Entry>, h: int, metrics: Metrics) { h in m && m[h].metrics == metrics }

  /** The newest reading of every host is in the cache or the last one written. */
  ghost predicate NewestKept(s: State) {
    forall h :: h in s.newest ==> Holds(s.cache, h, s.newest[h].metrics) || Holds(s.repo, h, s.newest[h].metrics)
  }

  /** The keys the flusher has still to visit. */
  function Ahead(f: Flusher): seq<int> {
    match f
    case Idle => []
    case Loop(keys) => keys
    case Absent(key, rest) => [key] + rest
    case Loaded(key, _, rest) => [key] + rest
    case Saved(key, _, rest) => [key] + rest
    case Deleting(key, _, rest) => [key] + rest
  }

  predicate Behind(m: map<int, Entry>, h: int, stamp: nat) { h in m ==> m[h].stamp <= stamp }

  /** What holds besides: the cache entry of a host is its newest, the keys ahead are
      cached, the flusher's copy is no newer than the cache and what it has saved is
      what the database holds, and stamps are in step. */
  ghost predicate Linked(s: State) {
    && (forall h :: h in s.cache ==> h in s.newest && s.cache[h] == s.newest[h])
    && (forall h :: h in s.repo ==> h in s.newest && s.repo[h].stamp <= s.newest[h].stamp)
    && (forall h :: h in s.newest ==> s.newest[h].stamp < s.next)
    && Distinct(Ahead(s.flusher)) && (forall h :: h in Ahead(s.flusher) ==> h in s.cache)
    && !s.flusher.Absent?
    && (s.flusher.Loaded? ==> s.flusher.entry.stamp <= s.cache[s.flusher.key].stamp)
    && (s.flusher.Loaded? ==> Behind(s.repo, s.flusher.key, s.flusher.entry.stamp))
    && (s.flusher.Saved? || s.flusher.Deleting? ==> s.flusher.key in s.repo && s.repo[s.flusher.key] == s.flusher.entry)
  }

  /** The one step that can do harm: deleting an entry that was overwritten after it
      was compared. */
  predicate Overtaken(s: State, e: Event) {
    e.Go? && s.flusher.Deleting? && s.flusher.key in s.cache && s.cache[s.flusher.key].metrics != s.flusher.entry.metrics
  }

  lemma EnqueueKeepsLinked(s: State, host: int, m: Metrics)
    requires Linked(s) && host > 0
    ensures Linked(Step(s, Enqueue(host, m)))
  {
  }

  lemma LoopKeepsLinked(s: State, saved: bool)
    requires Linked(s) && (s.flusher.Loop? || s.flusher.Loaded?)
    ensures Linked(Advance(s, saved))
  {
    var s' := Advance(s, saved);
    var keys := Ahead(s.flusher);
    assert s.flusher.Loop? && keys != [] ==> Ahead(s'.flusher) == keys && keys[0] in keys;
    assert s.flusher.Loaded? && saved ==> Ahead(s'.flusher) == keys;
    assert s.flusher.Loaded? && !saved ==> Ahead(s'.flusher) == keys[1..];
    if s.flusher.Loaded? {
      TailKeepsKeys(keys);
      assert s.flusher.key in keys;
    }
  }

  lemma DeleteKeepsLinked(s: State, saved: bool)
    requires Linked(s) && (s.flusher.Saved? || s.flusher.Deleting?)
    ensures Linked(Advance(s, saved))
  {
    var keys := Ahead(s.flusher);
    TailKeepsKeys(keys);
    assert keys[1..] == s.flusher.rest;
  }

  lemma TailKeepsKeys(keys: seq<int>)
    requires keys != [] && Distinct(keys)
    ensures Distinct(keys[1..]) && keys[0] !in keys[1..] && forall h :: h in keys[1..] ==> h in keys
  {
  }

  lemma StepKeepsLinked(s: State, e: Event)
    requires Linked(s) && CanStep(s, e)
    ensures Linked(Step(s, e))
  {
    match e
    case Enqueue(host, m) => EnqueueKeepsLinked(s, host, m);
    case Begin(_) =>
    case Go(saved) =>
      if s.flusher.Loop? || s.flusher.Loaded? {
        LoopKeepsLinked(s, saved);
      } else {
        DeleteKeepsLinked(s, saved);
      }
  }

  /** A step loses a newest reading exactly when it deletes an overtaken entry. */
  lemma StepKeepsNewestExactly(s: State, e: Event)
    requires Linked(s) && NewestKept(s) && CanStep(s, e)
    ensures NewestKept(Step(s, e)) <==> !Overtaken(s, e)
  {
    var s' := Step(s, e);
    if Overtaken(s, e) {
      var h := s.flusher.key;
      assert h in s'.newest && !Holds(s'.cache, h, s'.newest[h].metrics) && !Holds(s'.repo, h, s'.newest[h].metrics);
    } else {
      forall h | h in s'.newest ensures Holds(s'.cache, h, s'.newest[h].metrics) || Holds(s'.repo, h, s'.newest[h].metrics) {
        if h in s.newest {
          assert Holds(s.cache, h, s.newest[h].metrics) || Holds(s.repo, h, s.newest[h].metrics);
        }
      }
    }
  }

  ghost predicate CanRun(s: State, es: seq<Event>)
    decreases |es|
  {
    es == [] || (CanStep(s, es[0]) && CanRun(Step(s, es[0]), es[1..]))
  }

  ghost function Run(s: State, es: seq<Event>): State
    decreases |es|
  {
    if es == [] then s else Run(Step(s, es[0]), es[1..])
  }

  ghost predicate NeverOvertaken(s: State, es: seq<Event>)
    decreases |es|
  {
    es == [] || (!Overtaken(s, es[0]) && NeverOvertaken(Step(s, es[0]), es[1..]))
  }

  /** Readings are never lost while compare and delete happen as one, whatever the
      interleaving and whatever the database refuses; and the database never goes
      back to an older reading of a host. */
  lemma {:induction false} NewestIsNeverLost(s: State, es: seq<Event>)
    requires Linked(s) && NewestKept(s) && CanRun(s, es) && NeverOvertaken(s, es)
    ensures Linked(Run(s, es)) && NewestKept(Run(s, es))
    decreases |es|
  {
    if es != [] {
      StepKeepsLinked(s, es[0]);
      StepKeepsNewestExactly(s, es[0]);
      NewestIsNeverLost(Step(s, es[0]), es[1..]);
    }
  }

  /** While an entry waits to be deleted no other reading of its host arrives. */
  ghost predicate NeverInterrupted(s: State, es: seq<Event>)
    decreases |es|
  {
    || es == []
    || ((s.flusher.Deleting? && es[0].Enqueue? && es[0].host == s.flusher.key ==> es[0].metrics == s.flusher.entry.metrics)
        && NeverInterrupted(Step(s, es[0]), es[1..]))
  }

  predicate Settled(s: State) {
    s.flusher.Deleting? && s.flusher.key in s.cache ==> s.cache[s.flusher.key].metrics == s.flusher.entry.metrics
  }

  /** Compare and delete as one step leave no room for an overtaken entry. */
  lemma {:induction false} UninterruptedIsNeverOvertaken(s: State, es: seq<Event>)
    requires Settled(s) && CanRun(s, es) && NeverInterrupted(s, es)
    ensures NeverOvertaken(s, es)
    decreases |es|
  {
    if es != [] { UninterruptedIsNeverOvertaken(Step(s, es[0]), es[1..]); }
  }

  lemma StepMovesRepoForward(s: State, e: Event)
    requires Linked(s) && CanStep(s, e)
    ensures forall h :: h in s.repo ==> h in Step(s, e).repo && s.repo[h].stamp <= Step(s, e).repo[h].stamp
  {
  }

  lemma {:induction false} RepoNeverGoesBack(s: State, es: seq<Event>, h: int)
    requires Linked(s) && CanRun(s, es) && h in s.repo
    ensures h in Run(s, es).repo && s.repo[h].stamp <= Run(s, es).repo[h].stamp
    decreases |es|
  {
    if es != [] {
      StepKeepsLinked(s, es[0]);
      StepMovesRepoForward(s, es[0]);
      RepoNeverGoesBack(Step(s, es[0]), es[1..], h);
    }
  }

  function Start(): State { State(map[], map[], map[], 0, Idle) }

  function LosingEvent(n: nat, host: int, first: Metrics, second: Metrics): Event {
    if n == 0 then Enqueue(host, first)
    else if n == 1 then Begin([host])
    else if n == 5 then Enqueue(host, second)
    else Go(true)
  }

  function LosingState(n: nat, host: int, first: Metrics, second: Metrics): State {
    var e, f := Entry(first, 0), Entry(second, 1);
    if n == 0 then Start()
    else if n == 1 then State(map[host := e], map[], map[host := e], 1, Idle)
    else if n == 2 then State(map[host := e], map[], map[host := e], 1, Loop([host]))
    else if n == 3 then State(map[host := e], map[], map[host := e], 1, Loaded(host, e, []))
    else if n == 4 then State(map[host := e], map[host := e], map[host := e], 1, Saved(host, e, []))
    else if n == 5 then State(map[host := e], map[host := e], map[host := e], 1, Deleting(host, e, []))
    else if n == 6 then State(map[host := f], map[host := e], map[host := f], 2, Deleting(host, e, []))
    else State(map[], map[host := e], map[host := f], 2, Loop([]))
  }

  function LosingRun(n: nat, host: int, first: Metrics, second: Metrics): seq<Event>
    requires n <= 7
    decreases 7 - n
  {
    if n == 7 then [] else [LosingEvent(n, host, first, second)] + LosingRun(n + 1, host, first, second)
  }

  ghost predicate LosingStep(n: nat, host: int, first: Metrics, second: Metrics) {
    && CanStep(LosingState(n, host, first, second), LosingEvent(n, host, first, second))
    && Step(LosingState(n, host, first, second), LosingEvent(n, host, first, second)) == LosingState(n + 1, host, first, second)
  }

  lemma LosingBegins(host: int, first: Metrics, second: Metrics)
    requires host > 0
    ensures LosingStep(0, host, first, second) && LosingStep(1, host, first, second) && LosingStep(2, host, first, second)
  {
    assert [host][1..] == [] && [host][0] == host;
  }

  lemma LosingEnds(host: int, first: Metrics, second: Metrics)
    requires host > 0
    ensures LosingStep(3, host, first, second) && LosingStep(4, host, first, second)
    ensures LosingStep(5, host, first, second) && LosingStep(6, host, first, second)
  {
    var f := Entry(second, 1);
    assert map[host := f] - {host} == map[];
    assert LosingState(6, host, first, second).flusher == Deleting(host, Entry(first, 0), []);
  }

  lemma {:induction false} LosingRunGoes(n: nat, host: int, first: Metrics, second: Metrics)
    requires n <= 7 && forall i :: 0 <= i < 7 ==> LosingStep(i, host, first, second)
    ensures CanRun(LosingState(n, host, first, second), LosingRun(n, host, first, second))
    ensures Run(LosingState(n, host, first, second), LosingRun(n, host, first, second)) == LosingState(7, host, first, second)
    decreases 7 - n
  {
    if n < 7 {
      assert LosingStep(n, host, first, second);
      LosingRunGoes(n + 1, host, first, second);
      assert LosingRun(n, host, first, second)[1..] == LosingRun(n + 1, host, first, second);
    }
  }

  /** In the code compare and delete are two calls: this run has a reading arrive
      between them, and it is gone. */
  lemma ReadingBetweenCompareAndDeleteIsLost(host: int, first: Metrics, second: Metrics)
    requires host > 0 && first != second
    ensures var es := LosingRun(0, host, first, second);
            Linked(Start()) && NewestKept(Start()) && CanRun(Start(), es) && !NewestKept(Run(Start(), es))
  {
    LosingBegins(host, first, second);
    LosingEnds(host, first, second);
    forall i | 0 <= i < 7 ensures LosingStep(i, host, first, second) {
      assert i == 0 || i == 1 || i == 2 || i == 3 || i == 4 || i == 5 || i == 6;
    }
    LosingRunGoes(0, host, first, second);
    var s := LosingState(7, host, first, second);
    assert host in s.newest && !Holds(s.cache, host, second) && !Holds(s.repo, host, second);
  }
}
