/** Traffic statistics: increments broadcast to one accumulator per granularity,
    written in batches to a table of time buckets, merged back when a write fails. */
module UserStats {
  import TrafficPolicy

  datatype Key = Key(host: int, user: int)
  datatype Delta = Delta(up: int, down: int)
  datatype Call = Call(key: Key, delta: Delta)
  datatype Row = Row(key: Key, recordType: int, recordAt: int)

  type Totals = map<Key, Delta>
  type Table = map<Row, Delta>

  const ZERO := Delta(0, 0)

  function Plus(a: Delta, b: Delta): Delta { Delta(a.up + b.up, a.down + b.down) }

  function At(m: Totals, k: Key): Delta { if k in m then m[k] else ZERO }

  function RowAt(t: Table, r: Row): Delta { if r in t then t[r] else ZERO }

  // ---------------------------------------------------------------- operations as functions

  function Collected(m: Totals, c: Call): Totals {
    if c.key.user <= 0 || c.delta == ZERO then m else m[c.key := Plus(At(m, c.key), c.delta)]
  }

  function Merged(m: Totals, pending: Totals): Totals {
    map k | k in m.Keys + pending.Keys && (k in m || At(pending, k) != ZERO) :: Plus(At(m, k), At(pending, k))
  }

  lemma MergedOnce(m: Totals, pending: Totals, left: set<Key>, key: Key)
    requires left <= pending.Keys && key in left
    ensures var before := Merged(m, Without(pending, left));
            Merged(m, Without(pending, left - {key}))
              == if pending[key] == ZERO then before else before[key := Plus(At(before, key), pending[key])]
  {
  }

  function RowKeys(pending: Totals, recordType: int, recordAt: int): set<Row> {
    set k | k in pending && pending[k] != ZERO :: Row(k, recordType, recordAt)
  }

  /** The table after a batch that is committed: additive upserts. */
  function Written(t: Table, pending: Totals, recordType: int, recordAt: int): Table {
    map r | r in t.Keys + RowKeys(pending, recordType, recordAt) ::
      if r.recordType == recordType && r.recordAt == recordAt then Plus(RowAt(t, r), At(pending, r.key)) else RowAt(t, r)
  }

  // ---------------------------------------------------------------- time buckets

  function HourStart(now: int): int { now - now % 3600 }
  function DayStart(now: int): int { now - now % TrafficPolicy.DAY }
  function MonthStart(now: int): int { TrafficPolicy.MonthStart(TrafficPolicy.MonthOf(now)) }

  function BucketStart(recordType: int, now: int): int {
    if recordType == 0 then HourStart(now) else if recordType == 2 then MonthStart(now) else DayStart(now)
  }

  /** The three granularities nest: each hour lies in one day and each day in one
      month, and the start of a bucket is in the bucket it starts. */
  lemma BucketsNest(now: int)
    ensures MonthStart(now) <= DayStart(now) <= HourStart(now) <= now
    ensures now < HourStart(now) + 3600 && now < DayStart(now) + TrafficPolicy.DAY
    ensures DayStart(HourStart(now)) == DayStart(now) && MonthStart(DayStart(now)) == MonthStart(now)
  {
    var m := TrafficPolicy.MonthOf(now);
    var d := TrafficPolicy.FirstDay(m);
    assert now % 86400 >= now % 3600 && (now - now % 3600) / 86400 == now / 86400;
    assert now / 86400 >= d;
    TrafficPolicy.MonthOfIsUnique(DayStart(now), m);
  }

  // ---------------------------------------------------------------- objects

  class Accumulator {
    var totals: Totals

    constructor ()
      ensures totals == map[]
    {
      totals := map[];
    }

    method CollectWithHost(host: int, user: int, up: int, down: int)
      modifies this
      ensures totals == Collected(old(totals), Call(Key(host, user), Delta(up, down)))
    {
      if user <= 0 { return; }
      if up == 0 && down == 0 { return; }
      var key := Key(host, user);
      var delta := if key in totals then totals[key] else ZERO;
      totals := totals[key := Delta(delta.up + up, delta.down + down)];
    }

    method Flush() returns (snapshot: Totals)
      modifies this
      ensures snapshot == old(totals) && totals == map[]
    {
      snapshot := totals;
      totals := map[];
    }

    method Merge(pending: Totals)
      modifies this
      ensures totals == Merged(old(totals), pending)
    {
      if |pending| == 0 { return; }
      var left := pending.Keys;
      while left != {}
        invariant left <= pending.Keys
        invariant totals == Merged(old(totals), Without(pending, left))
        decreases left
      {
        var key :| key in left;
        MergedOnce(old(totals), pending, left, key);
        left := left - {key};
        if pending[key] != ZERO {
          var existing := if key in totals then totals[key] else ZERO;
          totals := totals[key := Delta(existing.up + pending[key].up, existing.down + pending[key].down)];
        }
      }
      assert Without(pending, left) == pending;
    }
  }

  class MultiAccumulator {
    const accumulators: seq<Accumulator>

    ghost predicate Valid() {
      forall i, j :: 0 <= i < j < |accumulators| ==> accumulators[i] != accumulators[j]
    }

    constructor (accumulators: seq<Accumulator>)
      requires forall i, j :: 0 <= i < j < |accumulators| ==> accumulators[i] != accumulators[j]
      ensures Valid() && this.accumulators == accumulators
    {
      this.accumulators := accumulators;
    }

    /** Every accumulator collects the increment exactly once. */
    method CollectWithHost(host: int, user: int, up: int, down: int)
      requires Valid()
      modifies set a | a in accumulators
      ensures forall a :: a in accumulators ==> a.totals == Collected(old(a.totals), Call(Key(host, user), Delta(up, down)))
    {
      for i := 0 to |accumulators|
        invariant forall j :: 0 <= j < i ==>
                    accumulators[j].totals == Collected(old(accumulators[j].totals), Call(Key(host, user), Delta(up, down)))
        invariant forall j :: i <= j < |accumulators| ==> accumulators[j].totals == old(accumulators[j].totals)
      {
        accumulators[i].CollectWithHost(host, user, up, down);
      }
    }
  }

  /** stat_users, written in one transaction per batch. */
  class StatUserTable {
    var rows: Table

    /** ok tells whether the transaction commits. */
    method UpsertBatch(records: seq<(Row, Delta)>, ok: bool)
      modifies this
      ensures !ok ==> rows == old(rows)
      ensures ok ==> rows == Upserted(old(rows), records)
    {
      var tx := rows;
      for i := 0 to |records|
        invariant rows == old(rows) && tx == Upserted(rows, records[..i])
      {
        assert records[..i + 1][..i] == records[..i];
        tx := tx[records[i].0 := Plus(RowAt(tx, records[i].0), records[i].1)];
      }
      assert records[..|records|] == records;
      if ok { rows := tx; }
    }
  }

  function Upserted(t: Table, records: seq<(Row, Delta)>): Table {
    if records == [] then t
    else
      var last := records[|records| - 1];
      var before := Upserted(t, records[..|records| - 1]);
      before[last.0 := Plus(RowAt(before, last.0), last.1)]
  }

  class StatUserJob {
    const accumulator: Accumulator
    const repo: StatUserTable
    const recordType: int

    constructor (accumulator: Accumulator, repo: StatUserTable, recordType: int)
      ensures this.accumulator == accumulator && this.repo == repo && this.recordType == recordType
    {
      this.accumulator, this.repo, this.recordType := accumulator, repo, recordType;
    }

    /** The rows to write: one for each key with something to add. */
    method Records(pending: Totals, recordAt: int, ghost t: Table) returns (records: seq<(Row, Delta)>)
      ensures Upserted(t, records) == Written(t, pending, recordType, recordAt)
    {
      records := [];
      var left := pending.Keys;
      while left != {}
        invariant left <= pending.Keys
        invariant Upserted(t, records) == Written(t, Without(pending, left), recordType, recordAt)
        decreases left
      {
        var key :| key in left;
        WrittenOnce(t, pending, left, key, recordType, recordAt);
        left := left - {key};
        if pending[key] != ZERO {
          var record := (Row(key, recordType, recordAt), pending[key]);
          assert (records + [record])[..|records|] == records;
          records := records + [record];
        }
      }
      assert Without(pending, left) == pending;
    }

    /** Everything pending is in the bucket of now afterwards, or, when the write
        fails, pending again. */
    method Run(now: int, commits: bool) returns (ok: bool)
      modifies accumulator, repo
      ensures ok ==> accumulator.totals == map[]
                     && repo.rows == Written(old(repo.rows), old(accumulator.totals), recordType, BucketStart(recordType, now))
      ensures !ok ==> !commits && repo.rows == old(repo.rows)
                      && accumulator.totals == Merged(map[], old(accumulator.totals))
      ensures commits ==> ok
    {
      var pending := accumulator.Flush();
      if |pending| == 0 {
        WrittenNothing(repo.rows, recordType, BucketStart(recordType, now));
        return true;
      }
      ok := Settle(pending, BucketStart(recordType, now), commits);
    }

    method Settle(pending: Totals, recordAt: int, commits: bool) returns (ok: bool)
      modifies accumulator, repo
      ensures ok ==> accumulator.totals == old(accumulator.totals)
                     && repo.rows == Written(old(repo.rows), pending, recordType, recordAt)
      ensures !ok ==> !commits && repo.rows == old(repo.rows)
                      && accumulator.totals == Merged(old(accumulator.totals), pending)
    {
      var records := Records(pending, recordAt, repo.rows);
      if |records| == 0 { return true; }
      repo.UpsertBatch(records, commits);
      if !commits { accumulator.Merge(pending); }
      ok := commits;
    }
  }

  lemma WrittenNothing(t: Table, recordType: int, recordAt: int)
    ensures Written(t, map[], recordType, recordAt) == t
  {
    assert RowKeys(map[], recordType, recordAt) == {};
  }

  function Without(pending: Totals, left: set<Key>): Totals {
    map k | k in pending && k !in left :: pending[k]
  }

  lemma WrittenOnce(t: Table, pending: Totals, left: set<Key>, key: Key, recordType: int, recordAt: int)
    requires left <= pending.Keys && key in left
    ensures var before := Written(t, Without(pending, left), recordType, recordAt);
            var r := Row(key, recordType, recordAt);
            Written(t, Without(pending, left - {key}), recordType, recordAt)
              == if pending[key] == ZERO then before else before[r := Plus(RowAt(before, r), pending[key])]
  {
    var some, more := Without(pending, left), Without(pending, left - {key});
    var r := Row(key, recordType, recordAt);
    assert At(some, key) == ZERO && At(more, key) == pending[key];
    assert forall k :: k != key ==> At(more, k) == At(some, k) && (k in more <==> k in some);
    assert RowKeys(more, recordType, recordAt)
        == RowKeys(some, recordType, recordAt) + (if pending[key] == ZERO then {} else {r}) by {
      RowKeysOnce(some, more, key, recordType, recordAt);
    }
  }

  lemma RowKeysOnce(some: Totals, more: Totals, key: Key, recordType: int, recordAt: int)
    requires key in more && key !in some && forall k :: k != key ==> At(more, k) == At(some, k) && (k in more <==> k in some)
    ensures RowKeys(more, recordType, recordAt)
            == RowKeys(some, recordType, recordAt) + if more[key] == ZERO then {} else {Row(key, recordType, recordAt)}
  {
    assert forall k :: k in some ==> k in more && more[k] == At(more, k) == At(some, k) == some[k];
    assert forall k :: k in more && k != key ==> k in some && some[k] == more[k];
  }

  // ---------------------------------------------------------------- what each flow holds

  /** One direction of one user's traffic on one host. */
  datatype Flow = Flow(key: Key, down: bool)

  function Amount(d: Delta, down: bool): int { if down then d.down else d.up }

  function Pending(m: Totals, f: Flow): int { Amount(At(m, f.key), f.down) }

  function InRow(t: Table, r: Row, f: Flow): int { if r.key == f.key then Amount(RowAt(t, r), f.down) else 0 }

  ghost function SumRows(t: Table, rs: set<Row>, f: Flow): int {
    if rs == {} then 0
    else
      var r :| r in rs;
      InRow(t, r, f) + SumRows(t, rs - {r}, f)
  }

  lemma {:induction false} SumWithout(t: Table, rs: set<Row>, f: Flow, r: Row)
    requires r in rs
    ensures SumRows(t, rs, f) == InRow(t, r, f) + SumRows(t, rs - {r}, f)
    decreases |rs|
  {
    var q :| q in rs && SumRows(t, rs, f) == InRow(t, q, f) + SumRows(t, rs - {q}, f);
    if q != r {
      SumWithout(t, rs - {q}, f, r);
      SumWithout(t, rs - {r}, f, q);
      assert rs - {q} - {r} == rs - {r} - {q};
    }
  }

  lemma {:induction false} SumAgrees(t: Table, u: Table, rs: set<Row>, f: Flow)
    requires forall r :: r in rs ==> InRow(t, r, f) == InRow(u, r, f)
    ensures SumRows(t, rs, f) == SumRows(u, rs, f)
    decreases |rs|
  {
    if rs != {} {
      var r :| r in rs;
      SumWithout(t, rs, f, r);
      SumWithout(u, rs, f, r);
      SumAgrees(t, u, rs - {r}, f);
    }
  }

  lemma {:induction false} SumIgnoresAbsent(t: Table, rs: set<Row>, more: set<Row>, f: Flow)
    requires rs <= more && forall r :: r in more && r !in rs ==> InRow(t, r, f) == 0
    ensures SumRows(t, more, f) == SumRows(t, rs, f)
    decreases |more|
  {
    if r :| r in more && r !in rs {
      SumWithout(t, more, f, r);
      SumIgnoresAbsent(t, rs, more - {r}, f);
    } else {
      assert more == rs;
    }
  }

  /** What the table holds for a flow, over all its time buckets. */
  ghost function Stored(t: Table, f: Flow): int { SumRows(t, t.Keys, f) }

  lemma WrittenRow(t: Table, pending: Totals, recordType: int, recordAt: int, f: Flow, r: Row)
    ensures InRow(Written(t, pending, recordType, recordAt), r, f)
            == InRow(t, r, f) + if r == Row(f.key, recordType, recordAt) then Pending(pending, f) else 0
  {
    var own := Row(f.key, recordType, recordAt);
    assert r == own && f.key in pending && pending[f.key] != ZERO ==> own in RowKeys(pending, recordType, recordAt);
    assert r.key == f.key && r != own ==> r !in RowKeys(pending, recordType, recordAt);
  }

  /** A committed batch adds each flow's increment to what the table holds for it. */
  lemma WrittenStores(t: Table, pending: Totals, recordType: int, recordAt: int, f: Flow)
    ensures Stored(Written(t, pending, recordType, recordAt), f) == Stored(t, f) + Pending(pending, f)
  {
    var u := Written(t, pending, recordType, recordAt);
    var own := Row(f.key, recordType, recordAt);
    var all := u.Keys + {own};
    forall r ensures InRow(u, r, f) == InRow(t, r, f) + if r == own then Pending(pending, f) else 0 {
      WrittenRow(t, pending, recordType, recordAt, f, r);
    }
    SumIgnoresAbsent(u, u.Keys, all, f);
    SumIgnoresAbsent(t, t.Keys, all, f);
    SumWithout(u, all, f, own);
    SumWithout(t, all, f, own);
    SumAgrees(t, u, all - {own}, f);
  }

  ghost function InFlight(flights: seq<Totals>, f: Flow): int {
    if flights == [] then 0 else Pending(flights[0], f) + InFlight(flights[1..], f)
  }

  lemma {:induction false} InFlightWithout(flights: seq<Totals>, i: nat, f: Flow)
    requires i < |flights|
    ensures InFlight(flights, f) == Pending(flights[i], f) + InFlight(Drop(flights, i), f)
  {
    var rest := Drop(flights, i);
    if i > 0 {
      InFlightWithout(flights[1..], i - 1, f);
      assert rest[1..] == Drop(flights[1..], i - 1);
    } else {
      assert rest == flights[1..];
    }
  }

  lemma {:induction false} InFlightTake(flights: seq<Totals>, m: Totals, f: Flow)
    ensures InFlight(flights + [m], f) == InFlight(flights, f) + Pending(m, f)
  {
    InFlightWithout(flights + [m], |flights|, f);
    assert Drop(flights + [m], |flights|) == flights;
  }

  lemma MergedAdds(m: Totals, pending: Totals, f: Flow)
    ensures Pending(Merged(m, pending), f) == Pending(m, f) + Pending(pending, f)
  {
  }

  // ---------------------------------------------------------------- interleaved runs

  /** One granularity: what is pending, the batches that job runs have taken and not
      settled yet, and the table. */
  datatype Lane = Lane(recordType: int, pending: Totals, flights: seq<Totals>, table: Table)

  /** calls[i] has reached the first reached[i] accumulators. */
  datatype System = System(lanes: seq<Lane>, calls: seq<Call>, reached: seq<nat>)

  /** Commit writes a batch to whatever time bucket its run computed. */
  datatype Event =
    | Begin(call: Call)
    | Reach(index: nat)
    | Take(lane: nat)
    | Commit(lane: nat, flight: nat, recordAt: int)
    | Abort(lane: nat, flight: nat)

  ghost predicate WellFormed(s: System) {
    |s.calls| == |s.reached| && forall i :: 0 <= i < |s.reached| ==> s.reached[i] <= |s.lanes|
  }

  predicate CanStep(s: System, e: Event) {
    match e
    case Begin(_) => true
    case Reach(i) => i < |s.reached| && i < |s.calls| && s.reached[i] < |s.lanes|
    case Take(g) => g < |s.lanes|
    case Commit(g, i, _) => g < |s.lanes| && i < |s.lanes[g].flights|
    case Abort(g, i) => g < |s.lanes| && i < |s.lanes[g].flights|
  }

  function Drop(flights: seq<Totals>, i: nat): seq<Totals>
    requires i < |flights|
  {
    flights[..i] + flights[i + 1..]
  }

  function LaneStep(l: Lane, e: Event): Lane
    requires (e.Commit? || e.Abort?) ==> e.flight < |l.flights|
  {
    match e
    case Take(_) => l.(pending := map[], flights := l.flights + [l.pending])
    case Commit(_, i, at) => l.(flights := Drop(l.flights, i), table := Written(l.table, l.flights[i], l.recordType, at))
    case Abort(_, i) => l.(flights := Drop(l.flights, i), pending := Merged(l.pending, l.flights[i]))
    case _ => l
  }

  function Gather(l: Lane, c: Call): Lane { l.(pending := Collected(l.pending, c)) }

  function Step(s: System, e: Event): System
    requires CanStep(s, e)
  {
    match e
    case Begin(c) => s.(calls := s.calls + [c], reached := s.reached + [0])
    case Reach(i) =>
      var g := s.reached[i];
      s.(lanes := s.lanes[g := Gather(s.lanes[g], s.calls[i])], reached := s.reached[i := g + 1])
    case _ => s.(lanes := s.lanes[e.lane := LaneStep(s.lanes[e.lane], e)])
  }

  ghost predicate CanRun(s: System, es: seq<Event>)
    decreases |es|
  {
    es == [] || (CanStep(s, es[0]) && CanRun(Step(s, es[0]), es[1..]))
  }

  ghost function Run(s: System, es: seq<Event>): System
    requires CanRun(s, es)
    decreases |es|
  {
    if es == [] then s else Run(Step(s, es[0]), es[1..])
  }

  /** What one granularity knows about a flow: pending, in flight and persisted. */
  ghost function Known(l: Lane, f: Flow): int {
    Pending(l.pending, f) + InFlight(l.flights, f) + Stored(l.table, f)
  }

  function Counts(c: Call, f: Flow): int {
    if c.key == f.key && f.key.user > 0 then Amount(c.delta, f.down) else 0
  }

  /** What the calls that have reached granularity g carried for a flow. */
  function Carried(calls: seq<Call>, reached: seq<nat>, g: nat, f: Flow): int
    requires |calls| == |reached|
  {
    if calls == [] then 0
    else (if reached[0] > g then Counts(calls[0], f) else 0) + Carried(calls[1..], reached[1..], g, f)
  }

  lemma {:induction false} CarriedBegin(calls: seq<Call>, reached: seq<nat>, c: Call, g: nat, f: Flow)
    requires |calls| == |reached|
    ensures Carried(calls + [c], reached + [0], g, f) == Carried(calls, reached, g, f)
  {
    if calls != [] {
      CarriedBegin(calls[1..], reached[1..], c, g, f);
      assert (calls + [c])[1..] == calls[1..] + [c] && (reached + [0])[1..] == reached[1..] + [0];
    } else {
      assert (calls + [c])[1..] == [] && (reached + [0])[1..] == [];
    }
  }

  lemma {:induction false} CarriedReach(calls: seq<Call>, reached: seq<nat>, i: nat, g: nat, f: Flow)
    requires |calls| == |reached| && i < |calls|
    ensures Carried(calls, reached[i := reached[i] + 1], g, f)
            == Carried(calls, reached, g, f) + if reached[i] == g then Counts(calls[i], f) else 0
  {
    if i > 0 {
      CarriedReach(calls[1..], reached[1..], i - 1, g, f);
      assert reached[i := reached[i] + 1][1..] == reached[1..][i - 1 := reached[i] + 1];
    } else {
      assert reached[i := reached[i] + 1][1..] == reached[1..];
    }
  }

  lemma TakeKeepsKnown(l: Lane, g: nat, f: Flow)
    ensures Known(LaneStep(l, Take(g)), f) == Known(l, f)
  {
    InFlightTake(l.flights, l.pending, f);
  }

  lemma CommitKeepsKnown(l: Lane, g: nat, i: nat, at: int, f: Flow)
    requires i < |l.flights|
    ensures Known(LaneStep(l, Commit(g, i, at)), f) == Known(l, f)
  {
    InFlightWithout(l.flights, i, f);
    WrittenStores(l.table, l.flights[i], l.recordType, at, f);
  }

  lemma AbortKeepsKnown(l: Lane, g: nat, i: nat, f: Flow)
    requires i < |l.flights|
    ensures Known(LaneStep(l, Abort(g, i)), f) == Known(l, f)
  {
    InFlightWithout(l.flights, i, f);
    MergedAdds(l.pending, l.flights[i], f);
  }

  lemma GatherAdds(l: Lane, c: Call, f: Flow)
    ensures Known(Gather(l, c), f) == Known(l, f) + Counts(c, f)
  {
  }

  /** Taking, committing and merging back change nothing a granularity knows. */
  lemma LaneStepKeepsKnown(l: Lane, e: Event, f: Flow)
    requires (e.Commit? || e.Abort?) ==> e.flight < |l.flights|
    ensures Known(LaneStep(l, e), f) == Known(l, f)
  {
    match e
    case Take(g) => TakeKeepsKnown(l, g, f);
    case Commit(g, i, at) => CommitKeepsKnown(l, g, i, at, f);
    case Abort(g, i) => AbortKeepsKnown(l, g, i, f);
    case _ =>
  }

  ghost predicate Conserved(s: System, f: Flow) {
    WellFormed(s) && forall g :: 0 <= g < |s.lanes| ==> Known(s.lanes[g], f) == Carried(s.calls, s.reached, g, f)
  }

  lemma StepConservesAt(s: System, e: Event, g: nat, f: Flow)
    requires WellFormed(s) && CanStep(s, e) && g < |s.lanes|
    requires Known(s.lanes[g], f) == Carried(s.calls, s.reached, g, f)
    ensures WellFormed(Step(s, e)) && |Step(s, e).lanes| == |s.lanes|
    ensures Known(Step(s, e).lanes[g], f) == Carried(Step(s, e).calls, Step(s, e).reached, g, f)
  {
    match e
    case Begin(c) => CarriedBegin(s.calls, s.reached, c, g, f);
    case Reach(i) =>
      CarriedReach(s.calls, s.reached, i, g, f);
      GatherAdds(s.lanes[g], s.calls[i], f);
    case _ => LaneStepKeepsKnown(s.lanes[e.lane], e, f);
  }

  lemma StepConserves(s: System, e: Event, f: Flow)
    requires Conserved(s, f) && CanStep(s, e)
    ensures Conserved(Step(s, e), f) && |Step(s, e).lanes| == |s.lanes|
  {
    forall g | 0 <= g < |s.lanes|
      ensures Known(Step(s, e).lanes[g], f) == Carried(Step(s, e).calls, Step(s, e).reached, g, f)
    {
      StepConservesAt(s, e, g, f);
    }
  }

  /** A start with nothing collected yet. */
  ghost predicate Empty(s: System) {
    && s.calls == [] && s.reached == []
    && forall g :: 0 <= g < |s.lanes| ==> s.lanes[g].pending == map[] && s.lanes[g].flights == [] && s.lanes[g].table == map[]
  }

  lemma EmptyIsConserved(s: System, f: Flow)
    requires Empty(s)
    ensures Conserved(s, f)
  {
  }

  /** Over every interleaving of broadcasts, flushes, commits and failed writes,
      each granularity's pending, in-flight and persisted amounts add up, flow by
      flow, to what the calls that reached it carried. */
  lemma {:induction false} NothingLostOrDoubled(s: System, es: seq<Event>, f: Flow)
    requires Conserved(s, f) && CanRun(s, es)
    ensures Conserved(Run(s, es), f) && |Run(s, es).lanes| == |s.lanes|
    decreases |es|
  {
    if es != [] {
      StepConserves(s, es[0], f);
      NothingLostOrDoubled(Step(s, es[0]), es[1..], f);
    }
  }

  /** Whenever no broadcast is halfway, the hourly, daily and monthly figures agree
      for every host and user. */
  lemma GranularitiesAgree(s: System, es: seq<Event>, g: nat, h: nat, f: Flow)
    requires Empty(s) && CanRun(s, es) && g < |s.lanes| && h < |s.lanes|
    requires forall n :: n in Run(s, es).reached ==> n == |s.lanes|
    ensures |Run(s, es).lanes| == |s.lanes|
    ensures Known(Run(s, es).lanes[g], f) == Known(Run(s, es).lanes[h], f)
  {
    EmptyIsConserved(s, f);
    NothingLostOrDoubled(s, es, f);
    var s' := Run(s, es);
    CarriedEqually(s'.calls, s'.reached, g, h, f);
  }

  lemma {:induction false} CarriedEqually(calls: seq<Call>, reached: seq<nat>, g: nat, h: nat, f: Flow)
    requires |calls| == |reached|
    requires forall n :: n in reached ==> (n > g <==> n > h)
    ensures Carried(calls, reached, g, f) == Carried(calls, reached, h, f)
  {
    if calls != [] {
      assert reached[0] in reached && forall n :: n in reached[1..] ==> n in reached;
      CarriedEqually(calls[1..], reached[1..], g, h, f);
    }
  }
}
