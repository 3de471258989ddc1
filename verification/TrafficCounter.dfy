/** From raw counters, which restart with the agent, to trusted totals per cycle. */
module TrafficCounter {
  import opened Text

  /** Boot ids are trimmed wherever they enter: on arrival, when stored, when read. */
  datatype Counters = Counters(bootID: string, lastUp: int, lastDown: int, seen: bool,
                               cycleUp: int, cycleDown: int, updatedAt: int)

  datatype Report = Report(bootID: string, up: Option<int>, down: Option<int>, reportedAt: int)

  datatype Verdict = MissingBootID | MissingCounter | InvalidCounter | BaselineInitialized
                   | BootChanged | NegativeDelta | ExcessiveDelta | Accepted(up: int, down: int)

  const DEFAULT_MAX_DELTA: int := 0x100_0000_0000

  function Judge(c: Option<Counters>, r: Report, maxDelta: int): Verdict {
    if r.bootID == "" then MissingBootID
    else if r.up.None? || r.down.None? then MissingCounter
    else if r.up.value < 0 || r.down.value < 0 then InvalidCounter
    else if c.None? || !c.value.seen || c.value.bootID == "" then BaselineInitialized
    else if c.value.bootID != r.bootID then BootChanged
    else
      var up, down := r.up.value - c.value.lastUp, r.down.value - c.value.lastDown;
      if up < 0 || down < 0 then NegativeDelta
      else if up > maxDelta || down > maxDelta then ExcessiveDelta
      else Accepted(up, down)
  }

  predicate Stored(v: Verdict) { !v.MissingBootID? && !v.MissingCounter? && !v.InvalidCounter? }

  function Reported(r: Report, now: int): int { if r.reportedAt == 0 then now else r.reportedAt }

  /** The row written for a report that is stored; only an accepted one adds to the cycle. */
  function NextCounters(c: Option<Counters>, r: Report, maxDelta: int, now: int): Counters
    requires Stored(Judge(c, r, maxDelta))
  {
    var v := Judge(c, r, maxDelta);
    var up := if c.None? then 0 else c.value.cycleUp;
    var down := if c.None? then 0 else c.value.cycleDown;
    Counters(r.bootID, r.up.value, r.down.value, true,
             if v.Accepted? then up + v.up else up, if v.Accepted? then down + v.down else down, Reported(r, now))
  }

  function Zeroed(c: Option<Counters>, at: int): Option<Counters> {
    if c.None? then None else Some(c.value.(cycleUp := 0, cycleDown := 0, updatedAt := at))
  }

  // ---------------------------------------------------------------- what was really carried

  /** Bytes the host has carried since some fixed moment, reboots included. */
  datatype Traffic = Traffic(up: int, down: int)

  /** A report together with the traffic really carried when it was sampled. */
  datatype Sample = Sample(report: Report, carried: Traffic)

  /** stored tells whether the write of that step succeeded. */
  datatype Event = Got(sample: Sample, now: int, stored: bool) | Reset(at: int, stored: bool)

  /** What the service holds, beside what an observer knows since the last reset:
      the sum and number of accepted deltas, the sample behind the baseline, the
      traffic carried at the baseline of the last reset, and the traffic that
      fell between two baselines without an accepted delta. */
  datatype Ledger = Ledger(counters: Option<Counters>, sum: Traffic, accepted: nat,
                           baseline: Option<Sample>, base: Traffic, gap: Traffic)

  const START: Ledger := Ledger(None, Traffic(0, 0), 0, None, Traffic(0, 0), Traffic(0, 0))

  function Plus(a: Traffic, b: Traffic): Traffic { Traffic(a.up + b.up, a.down + b.down) }

  function Minus(a: Traffic, b: Traffic): Traffic { Traffic(a.up - b.up, a.down - b.down) }

  function Delta(v: Verdict): Traffic { if v.Accepted? then Traffic(v.up, v.down) else Traffic(0, 0) }

  function Advance(l: Ledger, e: Event, maxDelta: int): Ledger {
    match e
    case Reset(at, stored) =>
      if !stored || l.counters.None? then l
      else Ledger(Zeroed(l.counters, at), Traffic(0, 0), 0, l.baseline,
                  if l.baseline.Some? then l.baseline.value.carried else l.base, Traffic(0, 0))
    case Got(s, now, stored) =>
      var v := Judge(l.counters, s.report, maxDelta);
      if !stored || !Stored(v) then l
      else
        var delta := Delta(v);
        Ledger(Some(NextCounters(l.counters, s.report, maxDelta, now)),
               Plus(l.sum, delta), if v.Accepted? then l.accepted + 1 else l.accepted, Some(s),
               if l.baseline.None? then s.carried else l.base,
               if l.baseline.None? then l.gap else Plus(l.gap, Minus(Minus(s.carried, l.baseline.value.carried), delta)))
  }

  function AdvanceAll(l: Ledger, es: seq<Event>, maxDelta: int): Ledger
    decreases |es|
  {
    if es == [] then l else AdvanceAll(Advance(l, es[0], maxDelta), es[1..], maxDelta)
  }

  predicate HasCounters(r: Report) { r.up.Some? && r.down.Some? }

  /** b was sampled after a: no traffic is uncarried, and within one boot the
      counters count what was carried. */
  predicate Follows(a: Sample, b: Sample) {
    && a.carried.up <= b.carried.up && a.carried.down <= b.carried.down
    && (HasCounters(a.report) && HasCounters(b.report) && a.report.bootID == b.report.bootID ==>
          && b.report.up.value - a.report.up.value == b.carried.up - a.carried.up
          && b.report.down.value - a.report.down.value == b.carried.down - a.carried.down)
  }

  ghost predicate InSamplingOrder(es: seq<Event>) {
    forall i, j :: 0 <= i < j < |es| && es[i].Got? && es[j].Got? ==> Follows(es[i].sample, es[j].sample)
  }

  ghost predicate Precedes(l: Ledger, es: seq<Event>) {
    forall j :: 0 <= j < |es| && es[j].Got? && l.baseline.Some? ==> Follows(l.baseline.value, es[j].sample)
  }

  function Cap(n: nat, maxDelta: int): int { if n == 0 then 0 else Cap(n - 1, maxDelta) + maxDelta }

  lemma {:induction false} CapIsProduct(n: nat, maxDelta: int)
    ensures Cap(n, maxDelta) == n * maxDelta
  {
    if n > 0 {
      CapIsProduct(n - 1, maxDelta);
      assert n * maxDelta == (n - 1) * maxDelta + maxDelta;
    }
  }

  /** The stored row is the baseline sample plus the accepted sums. */
  ghost predicate Faithful(l: Ledger, maxDelta: int) {
    && 0 <= l.sum.up <= Cap(l.accepted, maxDelta) && 0 <= l.sum.down <= Cap(l.accepted, maxDelta)
    && match (l.counters, l.baseline)
       case (Some(c), Some(b)) => Matches(c, b, l)
       case (None, None) => l.sum.up == l.sum.down == l.gap.up == l.gap.down == 0
       case _ => false
  }

  ghost predicate Matches(c: Counters, b: Sample, l: Ledger) {
    && c.seen && c.bootID == b.report.bootID && c.bootID != ""
    && HasCounters(b.report) && c.lastUp == b.report.up.value && c.lastDown == b.report.down.value
    && c.cycleUp == l.sum.up && c.cycleDown == l.sum.down
    && l.sum.up + l.gap.up == b.carried.up - l.base.up
    && l.sum.down + l.gap.down == b.carried.down - l.base.down
  }

  lemma AdvanceKeepsFaithful(l: Ledger, e: Event, maxDelta: int)
    requires Faithful(l, maxDelta) && maxDelta > 0
    ensures Faithful(Advance(l, e, maxDelta), maxDelta)
  {
    match e
    case Reset(_, _) =>
    case Got(s, now, stored) =>
      var v := Judge(l.counters, s.report, maxDelta);
      if stored && Stored(v) {
        if v.Accepted? {
          AcceptedKeepsFaithful(l, s, now, maxDelta);
        } else {
          RebasedKeepsFaithful(l, s, now, maxDelta);
        }
      }
  }

  lemma AcceptedKeepsFaithful(l: Ledger, s: Sample, now: int, maxDelta: int)
    requires Faithful(l, maxDelta) && maxDelta > 0 && Judge(l.counters, s.report, maxDelta).Accepted?
    ensures Faithful(Advance(l, Got(s, now, true), maxDelta), maxDelta)
  {
    var l' := Advance(l, Got(s, now, true), maxDelta);
    assert Matches(l.counters.value, l.baseline.value, l);
    assert Cap(l.accepted + 1, maxDelta) == Cap(l.accepted, maxDelta) + maxDelta;
    assert l'.sum.up + l'.gap.up == s.carried.up - l'.base.up && l'.sum.down + l'.gap.down == s.carried.down - l'.base.down;
    assert Matches(l'.counters.value, s, l');
  }

  /** The effect of a report that is stored without being accepted. */
  ghost predicate Rebased(l: Ledger, l': Ledger, s: Sample) {
    && l'.sum == l.sum && l'.accepted == l.accepted && l'.baseline == Some(s) && l'.counters.Some?
    && HasCounters(s.report) && s.report.bootID != ""
    && Restarts(l.counters, l'.counters.value, s.report)
    && (if l.baseline.None? then l'.gap == l.gap && l'.base == s.carried
        else l'.base == l.base && l'.gap == Plus(l.gap, Minus(s.carried, l.baseline.value.carried)))
  }

  /** New baseline, same cycle totals. */
  predicate Restarts(c: Option<Counters>, n: Counters, r: Report)
    requires HasCounters(r)
  {
    && n.seen && n.bootID == r.bootID && n.lastUp == r.up.value && n.lastDown == r.down.value
    && n.cycleUp == (if c.None? then 0 else c.value.cycleUp)
    && n.cycleDown == (if c.None? then 0 else c.value.cycleDown)
  }

  lemma UnacceptedRebases(l: Ledger, s: Sample, now: int, maxDelta: int)
    requires Stored(Judge(l.counters, s.report, maxDelta)) && !Judge(l.counters, s.report, maxDelta).Accepted?
    ensures Rebased(l, Advance(l, Got(s, now, true), maxDelta), s)
  {
    var v := Judge(l.counters, s.report, maxDelta);
    assert Delta(v) == Traffic(0, 0);
    assert Restarts(l.counters, NextCounters(l.counters, s.report, maxDelta, now), s.report);
  }

  lemma RebasedIsFaithful(l: Ledger, l': Ledger, s: Sample, maxDelta: int)
    requires Faithful(l, maxDelta) && Rebased(l, l', s)
    ensures Faithful(l', maxDelta)
  {
    if l.counters.Some? { assert Matches(l.counters.value, l.baseline.value, l); }
    assert Matches(l'.counters.value, s, l');
  }

  lemma RebasedKeepsFaithful(l: Ledger, s: Sample, now: int, maxDelta: int)
    requires Faithful(l, maxDelta)
    requires Stored(Judge(l.counters, s.report, maxDelta)) && !Judge(l.counters, s.report, maxDelta).Accepted?
    ensures Faithful(Advance(l, Got(s, now, true), maxDelta), maxDelta)
  {
    UnacceptedRebases(l, s, now, maxDelta);
    RebasedIsFaithful(l, Advance(l, Got(s, now, true), maxDelta), s, maxDelta);
  }

  /** In sampling order an accepted delta is the traffic carried since the
      baseline, and no baseline moves backwards. */
  lemma AdvanceInOrder(l: Ledger, e: Event, maxDelta: int)
    requires Faithful(l, maxDelta) && maxDelta > 0 && Precedes(l, [e])
    requires l.gap.up >= 0 && l.gap.down >= 0
    ensures var l' := Advance(l, e, maxDelta);
            && l'.gap.up >= 0 && l'.gap.down >= 0
            && (e.Got? && e.stored && Judge(l.counters, e.sample.report, maxDelta).Accepted? ==> l'.gap == l.gap)
  {
    assert [e][0] == e;
  }

  lemma {:induction false} LedgerInvariant(l: Ledger, es: seq<Event>, maxDelta: int)
    requires Faithful(l, maxDelta) && maxDelta > 0 && l.gap.up >= 0 && l.gap.down >= 0
    requires InSamplingOrder(es) && Precedes(l, es)
    ensures var l' := AdvanceAll(l, es, maxDelta);
            Faithful(l', maxDelta) && l'.gap.up >= 0 && l'.gap.down >= 0
    decreases |es|
  {
    if es != [] {
      AdvanceKeepsFaithful(l, es[0], maxDelta);
      AdvanceInOrder(l, es[0], maxDelta);
      LedgerInvariant(Advance(l, es[0], maxDelta), es[1..], maxDelta);
    }
  }

  /** Traffic is never over-counted: after any run of reports and resets, with
      reboots, repeats, skips and failed writes, the cycle is the sum of the
      deltas accepted since the last reset. Together with the gaps left by skipped
      reports it is exactly the traffic carried between the two baselines, so it
      is at most that traffic, and at most the cap per accepted report. */
  lemma NeverOverCounts(es: seq<Event>, maxDelta: int)
    requires InSamplingOrder(es) && maxDelta > 0
    ensures var l := AdvanceAll(START, es, maxDelta);
            l.counters.Some? ==>
              && l.baseline.Some?
              && l.counters.value.cycleUp == l.sum.up && l.counters.value.cycleDown == l.sum.down
              && l.sum.up + l.gap.up == l.baseline.value.carried.up - l.base.up
              && l.sum.down + l.gap.down == l.baseline.value.carried.down - l.base.down
              && 0 <= l.sum.up <= l.baseline.value.carried.up - l.base.up
              && 0 <= l.sum.down <= l.baseline.value.carried.down - l.base.down
              && l.sum.up <= l.accepted * maxDelta && l.sum.down <= l.accepted * maxDelta
  {
    LedgerInvariant(START, es, maxDelta);
    CapIsProduct(AdvanceAll(START, es, maxDelta).accepted, maxDelta);
  }

  lemma {:induction false} RunIsFaithful(l: Ledger, es: seq<Event>, maxDelta: int)
    requires Faithful(l, maxDelta) && maxDelta > 0
    ensures Faithful(AdvanceAll(l, es, maxDelta), maxDelta)
    decreases |es|
  {
    if es != [] {
      AdvanceKeepsFaithful(l, es[0], maxDelta);
      RunIsFaithful(Advance(l, es[0], maxDelta), es[1..], maxDelta);
    }
  }

  /** Whatever the order of arrival: a cycle total exceeds the traffic carried between
      the two baselines iff the gap has become negative. */
  lemma OverCountsExactly(es: seq<Event>, maxDelta: int)
    requires maxDelta > 0
    ensures var l := AdvanceAll(START, es, maxDelta);
            l.counters.Some? ==>
              && l.baseline.Some?
              && (l.counters.value.cycleUp > l.baseline.value.carried.up - l.base.up <==> l.gap.up < 0)
              && (l.counters.value.cycleDown > l.baseline.value.carried.down - l.base.down <==> l.gap.down < 0)
  {
    RunIsFaithful(START, es, maxDelta);
    var l := AdvanceAll(START, es, maxDelta);
    if l.counters.Some? { assert Matches(l.counters.value, l.baseline.value, l); }
  }

  /** Within one boot the counters count what was carried, in either order of sampling. */
  predicate CountsCarried(a: Sample, b: Sample) {
    HasCounters(a.report) && HasCounters(b.report) && a.report.bootID == b.report.bootID ==>
      && b.report.up.value - a.report.up.value == b.carried.up - a.carried.up
      && b.report.down.value - a.report.down.value == b.carried.down - a.carried.down
  }

  /** The report replaces a baseline: it is written and one was there. */
  predicate Replaces(l: Ledger, e: Event, maxDelta: int) {
    e.Got? && e.stored && Stored(Judge(l.counters, e.sample.report, maxDelta)) && l.baseline.Some?
  }

  /** The gap falls in a step iff the step puts a baseline sampled earlier in place of
      a later one, direction by direction; a reset never makes it fall below zero. */
  lemma GapFallsExactly(l: Ledger, e: Event, maxDelta: int)
    requires Faithful(l, maxDelta) && maxDelta > 0
    requires e.Got? && l.baseline.Some? ==> CountsCarried(l.baseline.value, e.sample)
    ensures var l' := Advance(l, e, maxDelta);
            && (e.Got? ==> (l'.gap.up < l.gap.up <==>
                            Replaces(l, e, maxDelta) && e.sample.carried.up < l.baseline.value.carried.up))
            && (e.Got? ==> (l'.gap.down < l.gap.down <==>
                            Replaces(l, e, maxDelta) && e.sample.carried.down < l.baseline.value.carried.down))
            && (e.Reset? ==> l'.gap == l.gap || l'.gap == Traffic(0, 0))
  {
    if e.Got? && Replaces(l, e, maxDelta) {
      ReplacedGap(l, e, maxDelta);
    }
  }

  lemma ReplacedGap(l: Ledger, e: Event, maxDelta: int)
    requires Faithful(l, maxDelta) && Replaces(l, e, maxDelta) && CountsCarried(l.baseline.value, e.sample)
    ensures var l', d := Advance(l, e, maxDelta), Minus(e.sample.carried, l.baseline.value.carried);
            if Judge(l.counters, e.sample.report, maxDelta).Accepted? then l'.gap == l.gap && d.up >= 0 && d.down >= 0
            else l'.gap == Plus(l.gap, d)
  {
    assert Matches(l.counters.value, l.baseline.value, l);
  }

  function Tick(boot: string, n: int): Event { Got(Sample(Report(boot, Some(n), Some(0), 1), Traffic(n, 0)), 1, true) }

  predicate TickState(l: Ledger, boot: string, m: int, cycle: int) {
    && l.counters.Some? && l.baseline.Some? && l.baseline.value.carried.up == m
    && var c := l.counters.value;
       c.seen && c.bootID == boot && c.lastUp == m && c.lastDown == 0 && c.cycleUp == cycle
  }

  lemma FirstTick(boot: string, m: int, maxDelta: int) returns (l: Ledger)
    requires boot != "" && m >= 0
    ensures l == Advance(START, Tick(boot, m), maxDelta)
    ensures TickState(l, boot, m, 0) && l.base.up == m
  {
    l := Advance(START, Tick(boot, m), maxDelta);
  }

  lemma TickAdvances(l: Ledger, boot: string, m: int, n: int, cycle: int, maxDelta: int)
    requires boot != "" && m >= 0 && 0 <= n <= m + maxDelta && maxDelta > 0
    requires TickState(l, boot, m, cycle)
    ensures TickState(Advance(l, Tick(boot, n), maxDelta), boot, n, cycle + if n >= m then n - m else 0)
    ensures Advance(l, Tick(boot, n), maxDelta).base == l.base
  {
  }

  /** Sampling order is needed: whenever a repeated older report arrives late, the
      bytes after it are counted twice. */
  lemma OutOfOrderOverCounts(boot: string, m: int, n: int, maxDelta: int)
    requires boot != "" && 0 <= m < n <= m + maxDelta
    ensures var l := AdvanceAll(START, [Tick(boot, m), Tick(boot, n), Tick(boot, m), Tick(boot, n)], maxDelta);
            && l.counters.Some? && l.baseline.Some?
            && l.counters.value.cycleUp == 2 * (n - m) && l.baseline.value.carried.up - l.base.up == n - m
  {
    var e1, e2 := Tick(boot, m), Tick(boot, n);
    var l1 := FirstTick(boot, m, maxDelta);
    TickAdvances(l1, boot, m, n, 0, maxDelta);
    var l2 := Advance(l1, e2, maxDelta);
    TickAdvances(l2, boot, n, m, n - m, maxDelta);
    var l3 := Advance(l2, e1, maxDelta);
    TickAdvances(l3, boot, m, n, n - m, maxDelta);
    var es := [e1, e2, e1, e2];
    assert es[1..] == [e2, e1, e2] && es[1..][1..] == [e1, e2] && es[1..][1..][1..] == [e2] && es[1..][1..][1..][1..] == [];
    assert AdvanceAll(l3, [e2], maxDelta) == Advance(l3, e2, maxDelta);
    assert AdvanceAll(l2, [e1, e2], maxDelta) == AdvanceAll(l3, [e2], maxDelta);
    assert AdvanceAll(l1, [e2, e1, e2], maxDelta) == AdvanceAll(l2, [e1, e2], maxDelta);
  }
}
