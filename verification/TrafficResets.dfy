/** Scheduled resets over whole runs: once per period, unless a manual reset takes
    the record away. */
module TrafficResets {
  import opened Text
  import opened TrafficPolicy
  import opened TrafficLifecycle
  import opened TrafficSafety
  import TrafficRuns

  /** The key recorded by a step, if it is a scheduled reset that completed. */
  function RecordedKey(h: Host, c: Cut, maxDelta: int): Option<CycleKey> {
    var ws := Writes(h, c.event, maxDelta);
    if c.event.Tick? && ws != [] && Done(h, c, maxDelta) == |ws|
    then Some(ScheduledResetDue(h.policy.value, h.row, c.event.now).key) else None
  }

  function RecordedKeys(h: Host, cs: seq<Cut>, maxDelta: int): seq<CycleKey>
    decreases |cs|
  {
    if cs == [] then []
    else
      var k := RecordedKey(h, cs[0], maxDelta);
      (if k.Some? then [k.value] else []) + RecordedKeys(Step(h, cs[0], maxDelta), cs[1..], maxDelta)
  }

  /** A manual reset carried out to the end, record included. */
  predicate Overrides(h: Host, c: Cut, maxDelta: int) {
    c.event.ManualReset? && c.event.now > 0 && Done(h, c, maxDelta) == |Writes(h, c.event, maxDelta)|
  }

  ghost predicate NoOverride(h: Host, cs: seq<Cut>, maxDelta: int)
    decreases |cs|
  {
    cs == [] || (!Overrides(h, cs[0], maxDelta) && NoOverride(Step(h, cs[0], maxDelta), cs[1..], maxDelta))
  }

  /** Reports, ticks and manual resets, on a clock that does not go back. */
  ghost predicate Scheduled(cs: seq<Cut>) {
    && (forall i :: 0 <= i < |cs| ==> !cs[i].event.EditPolicy?)
    && (forall i, j :: 0 <= i < j < |cs| && cs[i].event.Tick? && cs[j].event.Tick? ==> cs[i].event.now <= cs[j].event.now)
  }

  ghost predicate NotBefore(t: int, cs: seq<Cut>) {
    forall i :: 0 <= i < |cs| && cs[i].event.Tick? ==> t <= cs[i].event.now
  }

  ghost predicate Increasing(keys: seq<CycleKey>) {
    forall i, j :: 0 <= i < j < |keys| ==> Period(keys[i]) < Period(keys[j])
  }

  ghost predicate Rising(keys: seq<CycleKey>, floor: int) {
    (forall i :: 0 <= i < |keys| ==> floor < Period(keys[i])) && Increasing(keys)
  }

  ghost predicate Steady(h: Host) { h.policy.Some? && AnchorIsFixed(h.policy.value, h.row) }

  /** The last scheduled reset was recorded at time t. */
  ghost predicate OnRecord(h: Host, t: int) {
    Steady(h) && RecordedAt(h.policy.value, h.row, t)
  }

  lemma {:induction false} RowUnchanged(h: Host, ws: seq<Write>)
    ensures Exec(h, ws).row == h.row
    decreases |ws|
  {
    if ws != [] { RowUnchanged(Exec1(h, ws[0]), ws[1..]); }
  }

  /** A reset cut short leaves the policy alone. */
  lemma CutResetKeepsPolicy(h: Host, at: int, key: CycleKey, k: nat)
    requires h.policy.Some? && k <= |ResetWrites(h, at, key)| && (at > 0 ==> k < |ResetWrites(h, at, key)|)
    ensures Exec(h, ResetWrites(h, at, key)[..k]).policy == h.policy
    ensures Exec(h, ResetWrites(h, at, key)[..k]).row == h.row
  {
    var ws := ResetWrites(h, at, key);
    RowUnchanged(h, ws[..k]);
    if at > 0 {
      OnlyCompleteResetsRecord(h, at, key, k);
    } else {
      assert ws[..k] == [];
    }
  }

  /** Every step but a completed reset leaves the record as it is. */
  lemma StepKeepsRecord(h: Host, c: Cut, maxDelta: int)
    requires Steady(h) && !c.event.EditPolicy? && !Overrides(h, c, maxDelta) && RecordedKey(h, c, maxDelta).None?
    ensures var h' := Step(h, c, maxDelta);
            && Steady(h') && h'.row == h.row && h'.policy.value.lastKey == h.policy.value.lastKey
            && forall t :: OnRecord(h, t) ==> OnRecord(h', t)
  {
    var ws := Writes(h, c.event, maxDelta);
    var k := Done(h, c, maxDelta);
    RowUnchanged(h, ws[..k]);
    match c.event
    case Deliver(r, now) => TrafficRuns.ReportEffect(h, r, maxDelta, now, k);
    case ManualReset(now) => CutResetKeepsPolicy(h, now, Manual(now), k);
    case Tick(now) =>
      if ws == [] {
        assert ws[..k] == [];
      } else {
        var due := ScheduledResetDue(h.policy.value, h.row, now);
        CutResetKeepsPolicy(h, due.resetAt, due.key, k);
      }
  }

  /** A completed scheduled reset puts its own period on record. */
  lemma TickRecords(h: Host, c: Cut, maxDelta: int)
    requires Steady(h) && RecordedKey(h, c, maxDelta).Some?
    ensures var h' := Step(h, c, maxDelta);
            OnRecord(h', c.event.now) && h'.policy.value.lastKey == RecordedKey(h, c, maxDelta).value
  {
    var ws := Writes(h, c.event, maxDelta);
    var due := ScheduledResetDue(h.policy.value, h.row, c.event.now);
    assert ws[..|ws|] == ws;
    RowUnchanged(h, ws);
    var s := ResetStages(h, due.resetAt, due.key);
    DueIsRecorded(h.policy.value, h.row, c.event.now);
  }

  lemma ScheduledTail(cs: seq<Cut>)
    requires Scheduled(cs) && cs != []
    ensures Scheduled(cs[1..]) && !cs[0].event.EditPolicy?
    ensures cs[0].event.Tick? ==> NotBefore(cs[0].event.now, cs[1..])
  {
    forall i | 0 <= i < |cs| - 1 && cs[0].event.Tick? && cs[1..][i].event.Tick? ensures cs[0].event.now <= cs[1..][i].event.now {
      assert cs[i + 1] == cs[1..][i];
    }
  }

  lemma {:induction false} KeysRiseFromRecord(h: Host, t: int, cs: seq<Cut>, maxDelta: int)
    requires Scheduled(cs) && NoOverride(h, cs, maxDelta) && OnRecord(h, t) && NotBefore(t, cs)
    ensures Rising(RecordedKeys(h, cs, maxDelta), Period(h.policy.value.lastKey))
    decreases |cs|
  {
    if cs != [] {
      var h', key, floor := Step(h, cs[0], maxDelta), RecordedKey(h, cs[0], maxDelta), Period(h.policy.value.lastKey);
      var rest := RecordedKeys(h', cs[1..], maxDelta);
      ScheduledTail(cs);
      if key.Some? {
        DueAdvancesThePeriod(h.policy.value, h.row, t, cs[0].event.now);
        TickRecords(h, cs[0], maxDelta);
        KeysRiseFromRecord(h', cs[0].event.now, cs[1..], maxDelta);
        RisingCons(floor, key.value, rest);
      } else {
        StepKeepsRecord(h, cs[0], maxDelta);
        KeysRiseFromRecord(h', t, cs[1..], maxDelta);
        assert [] + rest == rest;
      }
    }
  }

  lemma RisingCons(floor: int, key: CycleKey, rest: seq<CycleKey>)
    requires Rising(rest, Period(key)) && floor < Period(key)
    ensures Rising([key] + rest, floor)
  {
  }

  /** At most one completed scheduled reset per period: for a clock that does not go
      back, with no policy edit and no completed manual reset in between, the periods
      reset are strictly increasing, whatever was on record before, with reports and
      cut-off resets of both kinds anywhere in the run. */
  lemma {:induction false} ScheduledPeriodsIncrease(h: Host, cs: seq<Cut>, maxDelta: int)
    requires Scheduled(cs) && NoOverride(h, cs, maxDelta) && Steady(h)
    ensures Increasing(RecordedKeys(h, cs, maxDelta))
    decreases |cs|
  {
    if cs != [] {
      var h', key := Step(h, cs[0], maxDelta), RecordedKey(h, cs[0], maxDelta);
      var rest := RecordedKeys(h', cs[1..], maxDelta);
      ScheduledTail(cs);
      if key.Some? {
        TickRecords(h, cs[0], maxDelta);
        KeysRiseFromRecord(h', cs[0].event.now, cs[1..], maxDelta);
        RisingCons(Period(key.value) - 1, key.value, rest);
      } else {
        StepKeepsRecord(h, cs[0], maxDelta);
        ScheduledPeriodsIncrease(h', cs[1..], maxDelta);
        assert [] + rest == rest;
      }
    }
  }

  // ---------------------------------------------------------------- manual resets in between

  /** Until a manual reset completes, what is on record never goes back. */
  lemma {:induction false} RecordNeverGoesBack(h: Host, t: int, cs: seq<Cut>, now: int, maxDelta: int) returns (t': int)
    requires Scheduled(cs) && NoOverride(h, cs, maxDelta) && OnRecord(h, t) && NotBefore(t, cs) && t <= now
    requires forall i :: 0 <= i < |cs| && cs[i].event.Tick? ==> cs[i].event.now <= now
    ensures var h' := Run(h, cs, maxDelta);
            OnRecord(h', t') && t' <= now && Period(h.policy.value.lastKey) <= Period(h'.policy.value.lastKey)
    decreases |cs|
  {
    t' := t;
    if cs != [] {
      ScheduledTail(cs);
      var h' := Step(h, cs[0], maxDelta);
      if RecordedKey(h, cs[0], maxDelta).Some? {
        DueAdvancesThePeriod(h.policy.value, h.row, t, cs[0].event.now);
        TickRecords(h, cs[0], maxDelta);
        t' := RecordNeverGoesBack(h', cs[0].event.now, cs[1..], now, maxDelta);
      } else {
        StepKeepsRecord(h, cs[0], maxDelta);
        t' := RecordNeverGoesBack(h', t, cs[1..], now, maxDelta);
      }
    }
  }

  /** A scheduled key is recorded a second time only if a manual reset was carried out
      to the end between the two. */
  lemma RepeatNeedsManualReset(h: Host, first: Cut, between: seq<Cut>, last: Cut, maxDelta: int)
    requires Steady(h) && Scheduled([first] + between + [last])
    requires var h1 := Step(h, first, maxDelta);
             && RecordedKey(h, first, maxDelta).Some?
             && RecordedKey(Run(h1, between, maxDelta), last, maxDelta) == RecordedKey(h, first, maxDelta)
    ensures !NoOverride(Step(h, first, maxDelta), between, maxDelta)
  {
    var h1 := Step(h, first, maxDelta);
    TickRecords(h, first, maxDelta);
    InOrder(first, between, last);
    if NoOverride(h1, between, maxDelta) {
      var t := RecordNeverGoesBack(h1, first.event.now, between, last.event.now, maxDelta);
      var h2 := Run(h1, between, maxDelta);
      DueAdvancesThePeriod(h2.policy.value, h2.row, t, last.event.now);
      assert false;
    }
  }

  lemma InOrder(first: Cut, between: seq<Cut>, last: Cut)
    requires Scheduled([first] + between + [last]) && first.event.Tick? && last.event.Tick?
    ensures Scheduled(between) && NotBefore(first.event.now, between) && first.event.now <= last.event.now
    ensures forall i :: 0 <= i < |between| && between[i].event.Tick? ==> between[i].event.now <= last.event.now
  {
    var all := [first] + between + [last];
    assert all[0] == first && all[|all| - 1] == last;
    assert forall i :: 0 <= i < |between| ==> all[i + 1] == between[i];
  }

  function Whole(h: Host, e: Event, maxDelta: int): Cut { Cut(e, |Writes(h, e, maxDelta)|) }

  /** A manual reset carried out to the end puts its own key on record and changes no
      setting. */
  lemma ManualResetOverrides(h: Host, at: int, maxDelta: int)
    requires h.policy.Some? && at > 0
    ensures var h' := Step(h, Whole(h, ManualReset(at), maxDelta), maxDelta);
            && h'.row == h.row && h'.policy.Some?
            && h'.policy.value == h.policy.value.(reached := false, lastResetAt := at, lastKey := Manual(at), updatedAt := at)
  {
    var ws := ResetWrites(h, at, Manual(at));
    assert ws[..|ws|] == ws;
    RowUnchanged(h, ws);
    var s := ResetStages(h, at, Manual(at));
  }

  lemma WholeTickRecords(h: Host, now: int, maxDelta: int)
    requires Steady(h) && now > 0 && ScheduledResetDue(h.policy.value, h.row, now).DueNow?
    ensures var c := Whole(h, Tick(now), maxDelta);
            var h' := Step(h, c, maxDelta);
            var key := ScheduledResetDue(h.policy.value, h.row, now).key;
            && RecordedKey(h, c, maxDelta) == Some(key) && h'.row == h.row && h'.policy.Some?
            && h'.policy.value == h.policy.value.(reached := false, lastResetAt := now, lastKey := key, updatedAt := now)
  {
    var ws := Writes(h, Tick(now), maxDelta);
    var due := ScheduledResetDue(h.policy.value, h.row, now);
    assert due.resetAt == now && ws[..|ws|] == ws && ws[|ws| - 1] == RecordReset(now, due.key);
    RowUnchanged(h, ws);
    var s := ResetStages(h, now, due.key);
  }

  /** The run Tick(t), ManualReset(manual), Tick(u), nothing cut short, records one key
      twice. */
  predicate Repeats(h: Host, t: int, manual: int, u: int, maxDelta: int) {
    var c1 := Whole(h, Tick(t), maxDelta);
    var h1 := Step(h, c1, maxDelta);
    var c2 := Whole(h1, ManualReset(manual), maxDelta);
    var h2 := Step(h1, c2, maxDelta);
    var c3 := Whole(h2, Tick(u), maxDelta);
    RecordedKey(h, c1, maxDelta).Some? && RecordedKey(h2, c3, maxDelta) == RecordedKey(h, c1, maxDelta)
  }

  /** And in every mode it can be: whenever a reset is due at t and u is a later time of
      the same period, a manual reset in between makes the scheduler reset the period
      again and record the same key. */
  lemma ManualResetAllowsRepeat(h: Host, t: int, manual: int, u: int, maxDelta: int)
    requires Steady(h) && 0 < t <= u && manual > 0
    requires ScheduledResetDue(h.policy.value, h.row, t).DueNow?
    requires CurrentKey(h.policy.value, h.row, u) == CurrentKey(h.policy.value, h.row, t)
    ensures Repeats(h, t, manual, u, maxDelta)
  {
    var h1 := Step(h, Whole(h, Tick(t), maxDelta), maxDelta);
    var h2 := Step(h1, Whole(h1, ManualReset(manual), maxDelta), maxDelta);
    WholeTickRecords(h, t, maxDelta);
    ManualResetOverrides(h1, manual, maxDelta);
    DueHasCurrentKey(h.policy.value, h.row, t);
    DueAgainAfterManual(h.policy.value, h2.policy.value, h.row, t, u);
    WholeTickRecords(h2, u, maxDelta);
  }

  function SampleHost(mode: ResetMode): Host {
    Host(None, Some(Policy(true, 0, Sum, 100, NotifyOnly, false, mode, 1, 1, 1, 0, Manual(1), 1)), Found(1), [], [])
  }

  /** It happens in each of the three modes. */
  lemma RepeatHappensInEveryMode(mode: ResetMode, maxDelta: int)
    requires !mode.Off?
    ensures Repeats(SampleHost(mode), 86401, 86401, 86402, maxDelta)
  {
    SampleIsDue(mode);
    ManualResetAllowsRepeat(SampleHost(mode), 86401, 86401, 86402, maxDelta);
  }

  lemma SampleIsDue(mode: ResetMode)
    requires !mode.Off?
    ensures var h := SampleHost(mode);
            && Steady(h) && ScheduledResetDue(h.policy.value, h.row, 86401).DueNow?
            && CurrentKey(h.policy.value, h.row, 86402) == CurrentKey(h.policy.value, h.row, 86401)
  {
    MonthOfIsUnique(86401, EPOCH_MONTH);
    MonthOfIsUnique(86402, EPOCH_MONTH);
  }
}
