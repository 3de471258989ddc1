/** Properties of whole runs on one host: the exact latch, one firing per cycle, and
    the totals behind them. */
module TrafficRuns {
  import opened TrafficCounter
  import opened TrafficPolicy
  import opened TrafficLifecycle
  import opened TrafficSafety

  // ---------------------------------------------------------------- reports

  lemma {:induction false} ActionLeavesPolicy(h: Host, ws: seq<Write>)
    requires forall i :: 0 <= i < |ws| ==> ws[i].SetShow? || ws[i].ReplaceReasons?
    ensures Exec(h, ws).counters == h.counters && Exec(h, ws).policy == h.policy && Exec(h, ws).row == h.row
    decreases |ws|
  {
    if ws != [] { ActionLeavesPolicy(Exec1(h, ws[0]), ws[1..]); }
  }

  /** Counters and policy after the first k writes of a report. */
  lemma ReportEffect(h: Host, r: Report, maxDelta: int, now: int, k: nat)
    requires k <= |ReportWrites(h, r, maxDelta, now)|
    ensures var ws := ReportWrites(h, r, maxDelta, now);
            var h' := Exec(h, ws[..k]);
            && h'.row == h.row
            && (k == 0 ==> h' == h)
            && (k >= 1 ==> Stored(Judge(h.counters, r, maxDelta)) && h'.counters == Exec1(h, ws[0]).counters)
            && (k == 1 ==> h'.policy == h.policy)
            && (k >= 2 ==> ws[1].Latch? && Crosses(Exec1(h, ws[0])) && h'.policy == Exec1(h, ws[1]).policy)
  {
    var ws := ReportWrites(h, r, maxDelta, now);
    if k >= 1 {
      assert ws[..k][1..] == ws[1..k];
      if k == 1 {
        assert ws[1..k] == [];
      } else {
        assert ws[1..k][1..] == ws[2..k];
        ActionLeavesPolicy(Exec1(Exec1(h, ws[0]), ws[1]), ws[2..k]);
      }
    }
  }

  // ---------------------------------------------------------------- the latch

  predicate Limited(h: Host) { h.policy.Some? && h.policy.value.enabled && h.policy.value.limitBytes > 0 }

  /** The latch says exactly whether the usage has come up to a positive threshold. */
  predicate LatchExact(h: Host) {
    Limited(h) ==> (h.policy.value.reached <==> 0 < ThresholdBytes(h.policy.value) <= Usage(h.policy.value, h.counters))
  }

  lemma DeliveryKeepsLatchExact(h: Host, r: Report, maxDelta: int, now: int)
    requires LatchExact(h) && Limited(h)
    ensures var h' := Exec(h, ReportWrites(h, r, maxDelta, now));
            LatchExact(h') && Limited(h') && (Latched(h) ==> Latched(h'))
  {
    var ws := ReportWrites(h, r, maxDelta, now);
    ReportEffect(h, r, maxDelta, now, |ws|);
    assert ws[..|ws|] == ws;
  }

  /** From a completed reset on, over any run of reports whose writes succeed. */
  function Deliveries(h: Host, rs: seq<Report>, maxDelta: int, now: int): Host
    decreases |rs|
  {
    if rs == [] then h else Deliveries(Exec(h, ReportWrites(h, rs[0], maxDelta, now)), rs[1..], maxDelta, now)
  }

  lemma {:induction false} DeliveriesKeepLatchExact(h: Host, rs: seq<Report>, maxDelta: int, now: int)
    requires LatchExact(h) && Limited(h)
    ensures LatchExact(Deliveries(h, rs, maxDelta, now)) && Limited(Deliveries(h, rs, maxDelta, now))
    decreases |rs|
  {
    if rs != [] {
      DeliveryKeepsLatchExact(h, rs[0], maxDelta, now);
      DeliveriesKeepLatchExact(Exec(h, ReportWrites(h, rs[0], maxDelta, now)), rs[1..], maxDelta, now);
    }
  }

  /** After a completed reset and any reports, whatever the state before it was:
      the threshold is marked reached iff the usage of the cycle has reached it. */
  lemma LatchIsExactSinceReset(h: Host, at: int, key: CycleKey, rs: seq<Report>, maxDelta: int, now: int)
    requires Limited(h) && at > 0
    ensures var h' := Deliveries(Exec(h, ResetWrites(h, at, key)), rs, maxDelta, now);
            h'.policy.Some? && (h'.policy.value.reached <==>
                                0 < ThresholdBytes(h'.policy.value) <= Usage(h'.policy.value, h'.counters))
  {
    var s := ResetStages(h, at, key);
    var h1 := Exec(h, ResetWrites(h, at, key));
    DeliveriesKeepLatchExact(h1, rs, maxDelta, now);
  }

  /** The step closes the latch. */
  predicate Latches(h: Host, c: Cut, maxDelta: int) {
    exists i :: 0 <= i < Done(h, c, maxDelta) && Writes(h, c.event, maxDelta)[i].Latch?
  }

  /** The step carries out the first write of the threshold action. */
  predicate Acts(h: Host, c: Cut, maxDelta: int) {
    exists i :: 0 <= i < Done(h, c, maxDelta) && Writes(h, c.event, maxDelta)[i].ReplaceReasons?
  }

  /** The step is cut right after the latch, before an action that has writes. */
  predicate Orphans(h: Host, c: Cut, maxDelta: int) {
    Latches(h, c, maxDelta) && !Acts(h, c, maxDelta) && Done(h, c, maxDelta) < |Writes(h, c.event, maxDelta)|
  }

  function Latchings(h: Host, cs: seq<Cut>, maxDelta: int): nat
    decreases |cs|
  {
    if cs == [] then 0
    else (if Latches(h, cs[0], maxDelta) then 1 else 0) + Latchings(Step(h, cs[0], maxDelta), cs[1..], maxDelta)
  }

  function Actions(h: Host, cs: seq<Cut>, maxDelta: int): nat
    decreases |cs|
  {
    if cs == [] then 0
    else (if Acts(h, cs[0], maxDelta) then 1 else 0) + Actions(Step(h, cs[0], maxDelta), cs[1..], maxDelta)
  }

  function Orphaned(h: Host, cs: seq<Cut>, maxDelta: int): nat
    decreases |cs|
  {
    if cs == [] then 0
    else (if Orphans(h, cs[0], maxDelta) then 1 else 0) + Orphaned(Step(h, cs[0], maxDelta), cs[1..], maxDelta)
  }

  /** The action keeps its reasons in the tables. */
  predicate Storing(h: Host) {
    h.policy.Some? && (h.policy.value.action.SubscriptionExclude? || h.policy.value.action.DisableServers?)
  }

  /** What one delivery, cut anywhere, does to the latch. */
  lemma DeliveryLatches(h: Host, c: Cut, maxDelta: int)
    requires c.event.Deliver?
    ensures var h', k := Step(h, c, maxDelta), Done(h, c, maxDelta);
            && (Latches(h, c, maxDelta) <==> k >= 2) && (k >= 2 ==> !Latched(h) && Latched(h'))
            && (k < 2 ==> h'.policy == h.policy)
            && (Storing(h) ==> Storing(h'))
            && (Storing(h) ==> (Acts(h, c, maxDelta) <==> k >= 3) && (Orphans(h, c, maxDelta) <==> k == 2))
            && (Latched(h) ==> h'.servers == h.servers)
  {
    var ws, k := Writes(h, c.event, maxDelta), Done(h, c, maxDelta);
    ReportEffect(h, c.event.report, maxDelta, c.event.now, k);
    DeliveryWrites(h, c.event.report, maxDelta, c.event.now);
    assert k >= 2 ==> ws[1].Latch?;
    if k >= 3 && Storing(h) { assert ws[2].ReplaceReasons?; }
    if Latched(h) {
      assert k == 0 || ws[..k] == [ws[0]];
      assert k == 1 ==> Exec(h, [ws[0]]) == Exec(Exec1(h, ws[0]), []);
    }
  }

  /** The writes of a report by position. */
  lemma DeliveryWrites(h: Host, r: Report, maxDelta: int, now: int)
    ensures var ws := ReportWrites(h, r, maxDelta, now);
            && (ws != [] ==> ws[0].PutCounters?)
            && (Latched(h) ==> |ws| <= 1)
            && (|ws| >= 2 ==> ws[1].Latch? && forall i :: 2 <= i < |ws| ==> !ws[i].Latch?)
            && (|ws| >= 2 && Storing(h) ==> |ws| >= 3 && ws[2].ReplaceReasons?)
  {
  }

  /** Between resets the latch closes once if the threshold is reached and never
      otherwise, however reports are cut short; and an action with writes is begun for
      it exactly once unless the closing report was cut right after the latch. */
  lemma {:induction false} ActsOncePerCycle(h: Host, cs: seq<Cut>, maxDelta: int)
    requires forall i :: 0 <= i < |cs| ==> cs[i].event.Deliver?
    ensures Latched(h) ==> Latched(Run(h, cs, maxDelta))
    ensures Latchings(h, cs, maxDelta) == if Latched(Run(h, cs, maxDelta)) && !Latched(h) then 1 else 0
    ensures Storing(h) ==> Actions(h, cs, maxDelta) + Orphaned(h, cs, maxDelta) == Latchings(h, cs, maxDelta)
    decreases |cs|
  {
    if cs != [] {
      DeliveryLatches(h, cs[0], maxDelta);
      ActsOncePerCycle(Step(h, cs[0], maxDelta), cs[1..], maxDelta);
    }
  }

  lemma {:induction false} LatchedKeepsServers(h: Host, cs: seq<Cut>, maxDelta: int)
    requires Latched(h) && forall i :: 0 <= i < |cs| ==> cs[i].event.Deliver?
    ensures Run(h, cs, maxDelta).servers == h.servers
    decreases |cs|
  {
    if cs != [] {
      DeliveryLatches(h, cs[0], maxDelta);
      assert Latched(Step(h, cs[0], maxDelta));
      LatchedKeepsServers(Step(h, cs[0], maxDelta), cs[1..], maxDelta);
    }
  }

  /** The action is not retried: after the report that closes the latch no server is
      visible for the rest of the cycle iff that report was carried out to the end, or
      none was visible to begin with. */
  lemma {:induction false} HiddenForTheCycleExactly(h: Host, c: Cut, cs: seq<Cut>, maxDelta: int)
    requires c.event.Deliver? && Latches(h, c, maxDelta) && h.policy.Some? && h.policy.value.action.DisableServers?
    requires DistinctServers(h.servers) && forall i :: 0 <= i < |cs| ==> cs[i].event.Deliver?
    ensures Visible(Run(Step(h, c, maxDelta), cs, maxDelta).servers) == {}
            <==> Done(h, c, maxDelta) == |Writes(h, c.event, maxDelta)| || Visible(h.servers) == {}
  {
    DeliveryLatches(h, c, maxDelta);
    LatchedKeepsServers(Step(h, c, maxDelta), cs, maxDelta);
    LatchingHides(h, c.event.report, maxDelta, c.event.now, Done(h, c, maxDelta));
  }

  lemma LatchingHides(h: Host, r: Report, maxDelta: int, now: int, k: nat)
    requires h.policy.Some? && h.policy.value.action.DisableServers? && DistinctServers(h.servers)
    requires var ws := ReportWrites(h, r, maxDelta, now); 2 <= k <= |ws|
    ensures var ws := ReportWrites(h, r, maxDelta, now);
            Visible(Exec(h, ws[..k]).servers) == {} <==> k == |ws| || Visible(h.servers) == {}
  {
    var ws := ReportWrites(h, r, maxDelta, now);
    var h1 := Exec1(h, ws[0]);
    var h2 := Exec1(h1, ws[1]);
    var hides := DisableWrites(h2);
    assert ws[2..] == hides && h2.servers == h.servers;
    assert ws[..k][1..][1..] == hides[..k - 2];
    assert Exec(h, ws[..k]) == Exec(h1, ws[..k][1..]) == Exec(h2, ws[..k][1..][1..]);
    PartlyHidden(h2, k - 2);
  }

  /** A disable cut after k writes leaves no server visible iff it is whole or had
      nothing to hide. */
  lemma PartlyHidden(h: Host, k: nat)
    requires DistinctServers(h.servers) && k <= |DisableWrites(h)|
    ensures Visible(Exec(h, DisableWrites(h)[..k]).servers) == {} <==> k == |DisableWrites(h)| || Visible(h.servers) == {}
  {
    var ws := DisableWrites(h);
    var hidden, rs := AfterDisable(h);
    if k == |ws| {
      assert ws[..k] == ws;
    } else if rs == [] {
      assert k == 0 && ws[..0] == [];
    } else {
      LastStaysVisible(h, rs, k);
    }
  }

  lemma LastStaysVisible(h: Host, rs: seq<Reason>, k: nat)
    requires rs != [] && rs == ReasonsFor(h.servers, DisabledServers) && DistinctReasons(rs) && k <= |rs|
    requires rs[|rs| - 1].serverID in Visible(h.servers)
    ensures rs[|rs| - 1].serverID in Visible(Exec(h, DisableWrites(h)[..k]).servers)
  {
    var ws, id := DisableWrites(h), rs[|rs| - 1].serverID;
    if k == 0 {
      assert ws[..0] == [];
    } else {
      var h1 := Exec1(h, ws[0]);
      assert ws[..k][1..] == HideWrites(rs)[..k - 1];
      HidesSpareOthers(h1, HideWrites(rs)[..k - 1], id);
    }
  }

  lemma {:induction false} HidesSpareOthers(h: Host, ws: seq<Write>, id: int)
    requires forall i :: 0 <= i < |ws| ==> ws[i].SetShow? && ws[i].id != id
    requires id in Visible(h.servers)
    ensures id in Visible(Exec(h, ws).servers)
    decreases |ws|
  {
    if ws != [] {
      var h1 := Exec1(h, ws[0]);
      var i :| 0 <= i < |h.servers| && h.servers[i].show && h.servers[i].id == id;
      assert h1.servers[i] == h.servers[i];
      HidesSpareOthers(h1, ws[1..], id);
    }
  }

  // ---------------------------------------------------------------- totals

  /** The counting event behind a step, given the traffic carried when it ran. */
  function Counted(h: Host, c: Cut, carried: Traffic, maxDelta: int): TrafficCounter.Event {
    var ws := Writes(h, c.event, maxDelta);
    match c.event
    case Deliver(r, now) => Got(Sample(r, carried), now, Done(h, c, maxDelta) > 0)
    case _ =>
      if ws != [] && ws[0].ZeroCycle? then Reset(ws[0].at, Done(h, c, maxDelta) > 0) else Reset(0, false)
  }

  function CountedAll(h: Host, cs: seq<Cut>, carried: seq<Traffic>, maxDelta: int): (es: seq<TrafficCounter.Event>)
    requires |carried| == |cs|
    ensures |es| == |cs|
    decreases |cs|
  {
    if cs == [] then []
    else [Counted(h, cs[0], carried[0], maxDelta)] + CountedAll(Step(h, cs[0], maxDelta), cs[1..], carried[1..], maxDelta)
  }

  lemma {:induction false} CountersUntouched(h: Host, ws: seq<Write>)
    requires forall i :: 0 <= i < |ws| ==> !ws[i].PutCounters? && !ws[i].ZeroCycle?
    ensures Exec(h, ws).counters == h.counters
    decreases |ws|
  {
    if ws != [] { CountersUntouched(Exec1(h, ws[0]), ws[1..]); }
  }

  lemma ResetCounters(h: Host, at: int, key: CycleKey, k: nat)
    requires k <= |ResetWrites(h, at, key)|
    ensures Exec(h, ResetWrites(h, at, key)[..k]).counters ==
            if at > 0 && h.counters.Some? && k > 0 then Zeroed(h.counters, at) else h.counters
  {
    var ws := ResetWrites(h, at, key);
    ShowWritesShow(h.servers, Listed(h.reasons));
    if at > 0 && h.counters.Some? && k > 0 {
      assert ws[..k][1..] == ws[1..k];
      CountersUntouched(Exec1(h, ws[0]), ws[1..k]);
    } else {
      CountersUntouched(h, ws[..k]);
    }
  }

  lemma StepCounts(h: Host, c: Cut, l: Ledger, carried: Traffic, maxDelta: int)
    requires l.counters == h.counters
    ensures Advance(l, Counted(h, c, carried, maxDelta), maxDelta).counters == Step(h, c, maxDelta).counters
  {
    var ws := Writes(h, c.event, maxDelta);
    var k := Done(h, c, maxDelta);
    match c.event
    case Deliver(r, now) =>
      ReportEffect(h, r, maxDelta, now, k);
    case ManualReset(now) => ResetCounters(h, now, Manual(now), k); ResetHead(h, now, Manual(now));
    case Tick(now) =>
      if ws == [] {
        assert ws[..k] == [];
      } else {
        var due := ScheduledResetDue(h.policy.value, h.row, now);
        ResetCounters(h, due.resetAt, due.key, k);
        ResetHead(h, due.resetAt, due.key);
      }
    case EditPolicy(_, _) => CountersUntouched(h, ws[..k]);
  }

  lemma ResetHead(h: Host, at: int, key: CycleKey)
    ensures var ws := ResetWrites(h, at, key);
            (at > 0 && h.counters.Some?) <==> (ws != [] && ws[0].ZeroCycle?)
    ensures at > 0 && h.counters.Some? ==> ResetWrites(h, at, key)[0] == ZeroCycle(at)
  {
    ShowWritesShow(h.servers, Listed(h.reasons));
  }

  lemma {:induction false} RunCounts(h: Host, cs: seq<Cut>, carried: seq<Traffic>, l: Ledger, maxDelta: int)
    requires |carried| == |cs| && l.counters == h.counters
    ensures AdvanceAll(l, CountedAll(h, cs, carried, maxDelta), maxDelta).counters == Run(h, cs, maxDelta).counters
    decreases |cs|
  {
    if cs != [] {
      var es := CountedAll(h, cs, carried, maxDelta);
      StepCounts(h, cs[0], l, carried[0], maxDelta);
      assert es[1..] == CountedAll(Step(h, cs[0], maxDelta), cs[1..], carried[1..], maxDelta);
      RunCounts(Step(h, cs[0], maxDelta), cs[1..], carried[1..], Advance(l, es[0], maxDelta), maxDelta);
    }
  }

  /** The service never over-counts: over any run of its operations on a new host,
      each cut anywhere, with reports in sampling order, the stored cycle totals
      are at most what the host carried since the baseline of the last reset. */
  lemma ServiceNeverOverCounts(h: Host, cs: seq<Cut>, carried: seq<Traffic>, maxDelta: int)
    requires |carried| == |cs| && h.counters.None? && maxDelta > 0
    requires InSamplingOrder(CountedAll(h, cs, carried, maxDelta))
    ensures var l := AdvanceAll(START, CountedAll(h, cs, carried, maxDelta), maxDelta);
            var c := Run(h, cs, maxDelta).counters;
            c.Some? ==>
              && l.baseline.Some? && 0 <= c.value.cycleUp <= l.baseline.value.carried.up - l.base.up
              && 0 <= c.value.cycleDown <= l.baseline.value.carried.down - l.base.down
              && c.value.cycleUp <= l.accepted * maxDelta && c.value.cycleDown <= l.accepted * maxDelta
  {
    RunCounts(h, cs, carried, START, maxDelta);
    NeverOverCounts(CountedAll(h, cs, carried, maxDelta), maxDelta);
  }

  /** Without an order of arrival: the service's totals exceed what was carried iff the
      gap of the counting ledger has become negative. */
  lemma ServiceOverCountsExactly(h: Host, cs: seq<Cut>, carried: seq<Traffic>, maxDelta: int)
    requires |carried| == |cs| && h.counters.None? && maxDelta > 0
    ensures var l := AdvanceAll(START, CountedAll(h, cs, carried, maxDelta), maxDelta);
            var c := Run(h, cs, maxDelta).counters;
            c.Some? ==>
              && l.baseline.Some?
              && (c.value.cycleUp > l.baseline.value.carried.up - l.base.up <==> l.gap.up < 0)
              && (c.value.cycleDown > l.baseline.value.carried.down - l.base.down <==> l.gap.down < 0)
  {
    RunCounts(h, cs, carried, START, maxDelta);
    OverCountsExactly(CountedAll(h, cs, carried, maxDelta), maxDelta);
  }
}
