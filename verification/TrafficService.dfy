/** The traffic lifecycle service over its tables: each method carries out a
    prefix of the writes of its operation, all of them when nothing fails. */
module TrafficService {
  import opened Text
  import opened TrafficCounter
  import opened TrafficPolicy
  import opened TrafficLifecycle
  import opened TrafficSafety

  const PAGE: nat := 100

  datatype ApplyResult = ApplyResult(verdict: Verdict, reached: bool, usage: int, limit: int,
                                     executed: bool, actionFailed: bool, failed: bool)

  datatype Visit = Processed | Skipped | Failed

  function EnabledIds(ids: seq<int>, hosts: map<int, Host>): seq<int>
    requires forall i :: 0 <= i < |ids| ==> ids[i] in hosts
  {
    if ids == [] then []
    else
      var p := hosts[ids[0]].policy;
      (if p.Some? && p.value.enabled then [ids[0]] else []) + EnabledIds(ids[1..], hosts)
  }

  lemma {:induction false} EnabledIdsAre(ids: seq<int>, hosts: map<int, Host>)
    requires forall i :: 0 <= i < |ids| ==> ids[i] in hosts
    ensures forall id :: id in EnabledIds(ids, hosts) <==>
              id in ids && hosts[id].policy.Some? && hosts[id].policy.value.enabled
  {
    if ids != [] {
      EnabledIdsAre(ids[1..], hosts);
      assert ids == [ids[0]] + ids[1..];
    }
  }

  ghost predicate Distinct(s: seq<int>) {
    forall i, j :: 0 <= i < j < |s| ==> s[i] != s[j]
  }

  lemma {:induction false} EnabledIdsDistinct(ids: seq<int>, hosts: map<int, Host>)
    requires forall i :: 0 <= i < |ids| ==> ids[i] in hosts
    requires Distinct(ids)
    ensures forall i :: 0 <= i < |EnabledIds(ids, hosts)| ==> EnabledIds(ids, hosts)[i] in ids
    ensures Distinct(EnabledIds(ids, hosts))
  {
    if ids != [] {
      var e, rest := EnabledIds(ids, hosts), EnabledIds(ids[1..], hosts);
      EnabledIdsDistinct(ids[1..], hosts);
      assert ids == [ids[0]] + ids[1..];
      forall j | 0 <= j < |rest| ensures rest[j] in ids && rest[j] != ids[0] {
        assert rest[j] in ids[1..];
      }
      assert e == rest || e == [ids[0]] + rest;
    }
  }

  predicate SameEnabled(a: Host, b: Host) {
    (a.policy.Some? <==> b.policy.Some?) && (a.policy.Some? ==> a.policy.value.enabled == b.policy.value.enabled)
  }

  lemma {:induction false} EnabledIdsSame(ids: seq<int>, a: map<int, Host>, b: map<int, Host>)
    requires forall i :: 0 <= i < |ids| ==> ids[i] in a && ids[i] in b && SameEnabled(a[ids[i]], b[ids[i]])
    ensures EnabledIds(ids, a) == EnabledIds(ids, b)
  {
    if ids != [] { EnabledIdsSame(ids[1..], a, b); }
  }

  lemma TickKeepsEnabled(h: Host, now: int, done: nat, maxDelta: int)
    ensures SameEnabled(h, Step(h, Cut(Tick(now), done), maxDelta))
  {
    var c := Cut(Tick(now), done);
    var ws := Writes(h, Tick(now), maxDelta);
    var k := Done(h, c, maxDelta);
    if ws == [] {
      assert ws[..k] == [];
    } else {
      var due := ScheduledResetDue(h.policy.value, h.row, now);
      if k < |ws| {
        OnlyCompleteResetsRecord(h, due.resetAt, due.key, k);
      } else {
        assert ws[..k] == ws;
        var s := ResetStages(h, due.resetAt, due.key);
      }
    }
  }

  /** A reset is the zeroing, the restore of what is then there, and the record. */
  lemma ResetSplits(h: Host, zeroed: Host, at: int, key: CycleKey)
    requires at > 0 && h.policy.Some? && zeroed.servers == h.servers && zeroed.reasons == h.reasons
    ensures ResetWrites(h, at, key)[if h.counters.Some? then 1 else 0..] == RestoreWrites(zeroed) + [RecordReset(at, key)]
  {
    assert RestoreWrites(h) == RestoreWrites(zeroed);
    var rest := RestoreWrites(h) + [RecordReset(at, key)];
    if h.counters.Some? {
      assert ResetWrites(h, at, key) == [ZeroCycle(at)] + rest;
    } else {
      assert ResetWrites(h, at, key) == [] + rest == rest;
    }
  }

  /** LIMIT and OFFSET of a query. */
  function PageOf(all: seq<int>, limit: nat, offset: nat): (page: seq<int>)
    ensures offset <= |all| ==> offset + |page| <= |all| && page == all[offset..offset + |page|]
    ensures offset <= |all| && |page| < limit ==> offset + |page| == |all|
  {
    if offset >= |all| then [] else if offset + limit <= |all| then all[offset..offset + limit] else all[offset..]
  }

  class TrafficLifecycleService {
    /** Hosts in agent_host_id order, as the policy listing reads them. */
    var ids: seq<int>
    var hosts: map<int, Host>
    const maxDelta: int

    ghost predicate Valid()
      reads this
    {
      && maxDelta > 0
      && (forall i :: 0 <= i < |ids| ==> ids[i] in hosts && ids[i] > 0)
      && (forall i, j :: 0 <= i < j < |ids| ==> ids[i] < ids[j])
    }

    constructor (configuredMaxDelta: int)
      ensures Valid() && ids == [] && hosts == map[]
      ensures maxDelta == if configuredMaxDelta <= 0 then DEFAULT_MAX_DELTA else configuredMaxDelta
    {
      ids, hosts := [], map[];
      maxDelta := if configuredMaxDelta <= 0 then DEFAULT_MAX_DELTA else configuredMaxDelta;
    }

    /** One repository write, which may fail. */
    method Save(id: int, w: Write) returns (ok: bool)
      requires id in hosts
      modifies this`hosts
      ensures hosts == if ok then old(hosts)[id := Exec1(old(hosts)[id], w)] else old(hosts)
    {
      ok := *;
      if ok {
        hosts := hosts[id := Exec1(hosts[id], w)];
      }
    }

    /** The same, as step k of the operation ws on the host as it was. */
    method SaveNext(id: int, ghost h: Host, ghost ws: seq<Write>, ghost k: nat, w: Write) returns (ok: bool)
      requires id in hosts && k < |ws| && ws[k] == w && hosts[id] == Exec(h, ws[..k])
      modifies this`hosts
      ensures id in hosts && hosts == old(hosts)[id := hosts[id]]
      ensures hosts[id] == Exec(h, ws[..if ok then k + 1 else k])
    {
      ok := Save(id, w);
      assert ws[..k + 1] == ws[..k] + [w];
      ExecSnoc(h, ws[..k], w);
    }

    method VisibleReasons(servers: seq<Server>) returns (reasons: seq<Reason>)
      ensures reasons == ReasonsFor(servers, ReasonKind.DisabledServers)
    {
      reasons := [];
      for i := 0 to |servers|
        invariant reasons + ReasonsFor(servers[i..], ReasonKind.DisabledServers) == ReasonsFor(servers, ReasonKind.DisabledServers)
      {
        assert servers[i..][1..] == servers[i + 1..];
        if !servers[i].show {
          continue;
        }
        reasons := reasons + [Reason(servers[i].id, ReasonKind.DisabledServers)];
      }
      assert servers[|servers|..] == [];
    }

    /** Hides the visible servers, their reasons written first. */
    method DisableServers(id: int) returns (ok: bool, count: nat, ghost done: nat)
      requires id in hosts
      modifies this`hosts
      ensures id in hosts && hosts == old(hosts)[id := hosts[id]]
      ensures var ws := DisableWrites(old(hosts)[id]);
              done <= |ws| && (ok <==> done == |ws|) && hosts[id] == Exec(old(hosts)[id], ws[..done])
      ensures ok ==> count == |ReasonsFor(old(hosts)[id].servers, ThresholdReached)|
    {
      ghost var h := hosts[id];
      ghost var ws := DisableWrites(h);
      var servers := hosts[id].servers;
      var reasons := VisibleReasons(servers);
      done, count := 0, 0;
      assert ws == [ReplaceReasons(reasons)] + HideWrites(reasons);
      ok := SaveNext(id, h, ws, 0, ReplaceReasons(reasons));
      if !ok {
        return;
      }
      done := 1;
      for i := 0 to |reasons|
        invariant id in hosts && hosts == old(hosts)[id := hosts[id]]
        invariant done == i + 1 && hosts[id] == Exec(h, ws[..done])
      {
        assert ws[done] == SetShow(reasons[i].serverID, false);
        ok := SaveNext(id, h, ws, done, SetShow(reasons[i].serverID, false));
        if !ok {
          return;
        }
        done := done + 1;
      }
      count := |reasons|;
      SameCount(servers);
      ok := true;
    }

    /** Latches and acts when the usage has come up to the threshold. */
    method EvaluateThreshold(id: int, at: int) returns (r: ApplyResult, ghost done: nat)
      requires id in hosts
      modifies this`hosts
      ensures id in hosts && hosts == old(hosts)[id := hosts[id]]
      ensures var h := old(hosts)[id];
              var ws := ThresholdWrites(h, at);
              && done <= |ws| && hosts[id] == Exec(h, ws[..done])
              && (r.failed <==> Crosses(h) && done == 0)
              && (r.reached <==> done > 0) && (r.reached <==> r.executed || r.actionFailed)
              && (r.executed ==> done == |ws|)
              && (r.reached ==> r.usage == Usage(h.policy.value, h.counters) && r.limit == ThresholdBytes(h.policy.value))
    {
      ghost var h := hosts[id];
      ghost var ws := ThresholdWrites(h, at);
      r, done := ApplyResult(MissingBootID, false, 0, 0, false, false, false), 0;
      var policy := hosts[id].policy;
      if policy.None? || !policy.value.enabled || policy.value.reached || policy.value.limitBytes <= 0 {
        return;
      }
      var thresholdBytes := ThresholdBytes(policy.value);
      if thresholdBytes <= 0 {
        return;
      }
      var usage := Usage(policy.value, hosts[id].counters);
      if usage < thresholdBytes {
        return;
      }
      var ok := SaveNext(id, h, ws, 0, Latch(at));
      if !ok {
        r := r.(failed := true);
        return;
      }
      done := 1;
      r := r.(reached := true, usage := usage, limit := thresholdBytes);
      assert ws[..1] == [Latch(at)] && Exec(h, [Latch(at)]) == Exec(Exec1(h, Latch(at)), [Latch(at)][1..]);
      match policy.value.action {
        case NotifyOnly => ok := true;
        case ResetLinks => ok := *;
        case SubscriptionExclude =>
          var reasons := ReasonsFor(hosts[id].servers, ReasonKind.ThresholdReached);
          ok := SaveNext(id, h, ws, 1, ReplaceReasons(reasons));
          done := if ok then 2 else 1;
        case DisableServers =>
          ghost var latched := hosts[id];
          var count;
          ghost var more;
          ok, count, more := DisableServers(id);
          assert DisableWrites(latched) == DisableWrites(h) == ws[1..];
          assert ws[..1 + more] == ws[..1] + ws[1..][..more];
          ExecConcat(h, ws[..1], ws[1..][..more]);
          done := 1 + more;
      }
      r := r.(executed := ok, actionFailed := !ok);
    }

    /** The verdict on a complete report and the cycle totals to store with it. */
    method JudgeCounters(state: Option<Counters>, report: Report) returns (verdict: Verdict, cycleUp: int, cycleDown: int)
      requires report.bootID != "" && HasCounters(report) && report.up.value >= 0 && report.down.value >= 0
      ensures verdict == Judge(state, report, maxDelta) && Stored(verdict)
      ensures forall now :: NextCounters(state, report, maxDelta, now)
                == Counters(report.bootID, report.up.value, report.down.value, true, cycleUp, cycleDown, Reported(report, now))
    {
      var up, down := report.up.value, report.down.value;
      cycleUp := if state.None? then 0 else state.value.cycleUp;
      cycleDown := if state.None? then 0 else state.value.cycleDown;
      if state.None? || !state.value.seen || state.value.bootID == "" {
        verdict := BaselineInitialized;
      } else if state.value.bootID != report.bootID {
        verdict := BootChanged;
      } else {
        var upDelta, downDelta := up - state.value.lastUp, down - state.value.lastDown;
        if upDelta < 0 || downDelta < 0 {
          verdict := NegativeDelta;
        } else if upDelta > maxDelta || downDelta > maxDelta {
          verdict := ExcessiveDelta;
        } else {
          cycleUp, cycleDown := cycleUp + upDelta, cycleDown + downDelta;
          verdict := Accepted(upDelta, downDelta);
        }
      }
    }

    /** Applies one report; boot ids are trimmed on arrival. */
    method ApplyReport(id: int, raw: Report, now: int) returns (r: ApplyResult, ghost done: nat)
      requires Valid() && id in hosts
      modifies this`hosts
      ensures Valid() && id in hosts && hosts == old(hosts)[id := hosts[id]]
      ensures var h := old(hosts)[id];
              var report := raw.(bootID := TrimSpace(raw.bootID));
              var ws := ReportWrites(h, report, maxDelta, now);
              && r.verdict == Judge(h.counters, report, maxDelta)
              && done <= |ws| && hosts[id] == Exec(h, ws[..done])
              && (!r.failed && !r.actionFailed ==> done == |ws|)
              && (r.reached <==> done > 1)
    {
      ghost var h := hosts[id];
      var report := raw.(bootID := TrimSpace(raw.bootID));
      var at := if report.reportedAt == 0 then now else report.reportedAt;
      ghost var ws := ReportWrites(h, report, maxDelta, now);
      r, done := ApplyResult(MissingBootID, false, 0, 0, false, false, false), 0;
      if report.bootID == "" {
        return;
      }
      if report.up.None? || report.down.None? {
        r := r.(verdict := MissingCounter);
        return;
      }
      var up, down := report.up.value, report.down.value;
      if up < 0 || down < 0 {
        r := r.(verdict := InvalidCounter);
        return;
      }
      var verdict, cycleUp, cycleDown := JudgeCounters(hosts[id].counters, report);
      r := r.(verdict := verdict);
      var ok := SaveNext(id, h, ws, 0, PutCounters(Counters(report.bootID, up, down, true, cycleUp, cycleDown, at)));
      if !ok {
        r := r.(failed := true);
        return;
      }
      done := 1;
      if verdict.Accepted? {
        ghost var counted := hosts[id];
        assert ws[..1] == [ws[0]] && Exec(h, [ws[0]]) == Exec(Exec1(h, ws[0]), [ws[0]][1..]);
        var e;
        ghost var more;
        e, more := EvaluateThreshold(id, at);
        assert ws[1..] == ThresholdWrites(counted, at);
        assert ws[..1 + more] == ws[..1] + ws[1..][..more];
        ExecConcat(h, ws[..1], ws[1..][..more]);
        done := 1 + more;
        r := e.(verdict := verdict);
      }
    }

    /** Shows the recorded servers again, then drops the reasons. */
    method RestoreAvailability(id: int) returns (ok: bool, restored: nat, ghost done: nat)
      requires id in hosts
      modifies this`hosts
      ensures id in hosts && hosts == old(hosts)[id := hosts[id]]
      ensures var ws := RestoreWrites(old(hosts)[id]);
              done <= |ws| && (ok <==> done == |ws|) && hosts[id] == Exec(old(hosts)[id], ws[..done])
      ensures ok ==> restored == done - 1
    {
      ghost var h := hosts[id];
      ghost var ws := RestoreWrites(h);
      var reasons := Listed(hosts[id].reasons);
      restored, done := 0, 0;
      for i := 0 to |reasons|
        invariant id in hosts && hosts == old(hosts)[id := hosts[id]]
        invariant done == restored <= |ws| && hosts[id] == Exec(h, ws[..done])
        invariant ws[done..] == ShowWrites(hosts[id].servers, reasons[i..]) + [DropReasons]
      {
        assert reasons[i..][1..] == reasons[i + 1..] && reasons[i..][0] == reasons[i];
        var serverID := reasons[i].serverID;
        if serverID <= 0 {
          continue;
        }
        if IsHidden(hosts[id].servers, serverID) {
          assert ws[done] == ws[done..][0] == SetShow(serverID, true);
          assert ws[done + 1..] == ws[done..][1..];
          ghost var shown := Exec1(hosts[id], SetShow(serverID, true));
          assert ws[..done + 1] == ws[..done] + [SetShow(serverID, true)];
          ExecSnoc(h, ws[..done], SetShow(serverID, true));
          ok := SaveNext(id, h, ws, done, SetShow(serverID, true));
          if !ok {
            return;
          }
          assert hosts[id] == shown;
          done, restored := done + 1, restored + 1;
        }
      }
      assert reasons[|reasons|..] == [];
      assert ws[done] == ws[done..][0] == DropReasons;
      ok := SaveNext(id, h, ws, done, DropReasons);
      done := if ok then done + 1 else done;
    }

    /** Zeroes the cycle, restores the servers, then records the reset. */
    method ResetTrafficCycle(id: int, at: int, key: CycleKey) returns (ok: bool, ghost done: nat)
      requires id in hosts
      modifies this`hosts
      ensures id in hosts && hosts == old(hosts)[id := hosts[id]]
      ensures var ws := ResetWrites(old(hosts)[id], at, key);
              && done <= |ws| && hosts[id] == Exec(old(hosts)[id], ws[..done])
              && (ok <==> at > 0 && done == |ws|)
    {
      ghost var h := hosts[id];
      ghost var ws := ResetWrites(h, at, key);
      done := 0;
      if at <= 0 {
        return false, 0;
      }
      if hosts[id].counters.Some? {
        ok := SaveNext(id, h, ws, 0, ZeroCycle(at));
        if !ok {
          return;
        }
        done := 1;
        assert ws[..1] == [ZeroCycle(at)] && Exec(h, [ZeroCycle(at)]) == Exec(Exec1(h, ZeroCycle(at)), [ZeroCycle(at)][1..]);
      }
      ok := true;
      if hosts[id].policy.Some? {
        ghost var zeroed := hosts[id];
        ghost var zero := done;
        ghost var more;
        ok, more := RestoreAndRecord(id, at, key);
        ResetSplits(h, zeroed, at, key);
        assert ws[..zero + more] == ws[..zero] + ws[zero..][..more];
        ExecConcat(h, ws[..zero], ws[zero..][..more]);
        done := zero + more;
      }
    }

    /** The servers first, then the record that the period is done. */
    method RestoreAndRecord(id: int, at: int, key: CycleKey) returns (ok: bool, ghost done: nat)
      requires id in hosts
      modifies this`hosts
      ensures id in hosts && hosts == old(hosts)[id := hosts[id]]
      ensures var ws := RestoreWrites(old(hosts)[id]) + [RecordReset(at, key)];
              done <= |ws| && hosts[id] == Exec(old(hosts)[id], ws[..done]) && (ok <==> done == |ws|)
    {
      ghost var h := hosts[id];
      ghost var restore := RestoreWrites(h);
      ghost var ws := restore + [RecordReset(at, key)];
      var restored;
      ok, restored, done := RestoreAvailability(id);
      assert ws[..done] == restore[..done];
      if !ok {
        return;
      }
      ok := SaveNext(id, h, ws, done, RecordReset(at, key));
      done := if ok then done + 1 else done;
    }

    method ResetCycle(id: int, now: int) returns (ok: bool, ghost done: nat)
      requires id in hosts
      modifies this`hosts
      ensures id in hosts && hosts == old(hosts)[id := hosts[id]]
      ensures hosts[id] == Step(old(hosts)[id], Cut(ManualReset(now), done), maxDelta)
      ensures ok ==> done == |Writes(old(hosts)[id], ManualReset(now), maxDelta)|
    {
      ok, done := ResetTrafficCycle(id, now, Manual(now));
    }

    /** One page of the enabled policies, in agent_host_id order; the query may fail. */
    method ListEnabled(limit: nat, offset: nat) returns (ok: bool, page: seq<int>)
      requires Valid()
      ensures ok ==> page == PageOf(EnabledIds(ids, hosts), limit, offset)
    {
      ok := *;
      page := PageOf(EnabledIds(ids, hosts), limit, offset);
    }

    /** One listed policy: reset when due, counted under one of three headings. */
    method VisitPolicy(id: int, now: int) returns (outcome: Visit, ghost done: nat)
      requires id in hosts && hosts[id].policy.Some?
      modifies this`hosts
      ensures id in hosts && hosts == old(hosts)[id := hosts[id]]
      ensures hosts[id] == Step(old(hosts)[id], Cut(Tick(now), done), maxDelta)
      ensures outcome == Failed || done >= |Writes(old(hosts)[id], Tick(now), maxDelta)|
      ensures outcome == Processed ==> ScheduledResetDue(old(hosts)[id].policy.value, old(hosts)[id].row, now).DueNow?
    {
      ghost var h := hosts[id];
      done := 0;
      assert Writes(h, Tick(now), maxDelta)[..0] == [];
      var due := ScheduledResetDue(hosts[id].policy.value, hosts[id].row, now);
      match due {
        case DueUnknown => outcome := Failed;
        case NotDue => outcome := Skipped;
        case DueNow(resetAt, key) =>
          var ok;
          ok, done := ResetTrafficCycle(id, resetAt, key);
          outcome := if ok then Processed else Failed;
      }
    }

    /** The first |cuts| of the listed hosts are each a cut of their own tick away
        from before; every other host is as before. */
    ghost predicate Progress(before: map<int, Host>, after: map<int, Host>, all: seq<int>, cuts: seq<nat>, now: int) {
      && |cuts| <= |all| && after.Keys == before.Keys
      && (forall i :: 0 <= i < |all| ==> all[i] in before)
      && (forall i :: 0 <= i < |cuts| ==> after[all[i]] == Step(before[all[i]], Cut(Tick(now), cuts[i]), maxDelta))
      && (forall id :: id in after && id !in all[..|cuts|] ==> after[id] == before[id])
    }

    /** None of them was cut short. */
    ghost predicate Complete(before: map<int, Host>, all: seq<int>, cuts: seq<nat>, now: int) {
      forall i :: 0 <= i < |cuts| && i < |all| && all[i] in before ==>
        cuts[i] >= |Writes(before[all[i]], Tick(now), maxDelta)|
    }

    lemma ProgressStep(before: map<int, Host>, mid: map<int, Host>, all: seq<int>, cuts: seq<nat>, now: int, h: Host, done: nat)
      requires Progress(before, mid, all, cuts, now) && |cuts| < |all| && Distinct(all)
      requires h == Step(before[all[|cuts|]], Cut(Tick(now), done), maxDelta)
      ensures Progress(before, mid[all[|cuts|] := h], all, cuts + [done], now)
    {
      var n, id := |cuts|, all[|cuts|];
      var after, more := mid[id := h], cuts + [done];
      assert id in before.Keys && after.Keys == before.Keys;
      forall i | 0 <= i < |more| ensures after[all[i]] == Step(before[all[i]], Cut(Tick(now), more[i]), maxDelta) {
        assert i < n ==> all[i] != id && more[i] == cuts[i];
      }
      forall x | x in after && x !in all[..|more|] ensures after[x] == before[x] {
        assert all[n] in all[..n + 1];
        assert forall y :: y in all[..n] ==> y in all[..n + 1];
      }
    }

    lemma NotYetVisited(before: map<int, Host>, mid: map<int, Host>, all: seq<int>, cuts: seq<nat>, now: int)
      requires Progress(before, mid, all, cuts, now) && |cuts| < |all| && Distinct(all)
      ensures all[|cuts|] in mid && mid[all[|cuts|]] == before[all[|cuts|]]
    {
      var id := all[|cuts|];
      assert id in before.Keys && mid.Keys == before.Keys;
      assert id !in all[..|cuts|];
    }

    ghost predicate Listing(before: map<int, Host>, all: seq<int>) {
      Distinct(all) && forall i :: 0 <= i < |all| ==> all[i] in before && before[all[i]].policy.Some?
    }

    /** The next listed host. */
    method VisitNext(id: int, now: int, ghost before: map<int, Host>, ghost all: seq<int>, ghost seen: seq<nat>)
      returns (outcome: Visit, ghost cuts: seq<nat>)
      requires Valid() && Progress(before, hosts, all, seen, now) && Listing(before, all)
      requires |seen| < |all| && id == all[|seen|]
      modifies this`hosts
      ensures Valid() && |cuts| == |seen| + 1 && Progress(before, hosts, all, cuts, now)
      ensures outcome != Failed && Complete(before, all, seen, now) ==> Complete(before, all, cuts, now)
    {
      ghost var mid := hosts;
      NotYetVisited(before, mid, all, seen, now);
      ghost var done;
      outcome, done := VisitPolicy(id, now);
      ProgressStep(before, mid, all, seen, now, hosts[id], done);
      cuts := seen + [done];
    }

    /** One page, in order; a failure on one host does not keep the others from their turn. */
    method VisitPage(page: seq<int>, now: int, ghost before: map<int, Host>, ghost all: seq<int>, ghost seen: seq<nat>)
      returns (processed: nat, skipped: nat, failed: nat, ghost cuts: seq<nat>)
      requires Valid() && Progress(before, hosts, all, seen, now) && Listing(before, all)
      requires |seen| + |page| <= |all| && page == all[|seen|..|seen| + |page|]
      modifies this`hosts
      ensures Valid() && |cuts| == |seen| + |page| && Progress(before, hosts, all, cuts, now)
      ensures processed + skipped + failed == |page|
      ensures failed == 0 && Complete(before, all, seen, now) ==> Complete(before, all, cuts, now)
    {
      processed, skipped, failed, cuts := 0, 0, 0, seen;
      for i := 0 to |page|
        invariant Valid() && |cuts| == |seen| + i
        invariant Progress(before, hosts, all, cuts, now)
        invariant processed + skipped + failed == i
        invariant failed == 0 && Complete(before, all, seen, now) ==> Complete(before, all, cuts, now)
      {
        assert page[i] == all[|cuts|];
        var outcome;
        outcome, cuts := VisitNext(page[i], now, before, all, cuts);
        match outcome {
          case Processed => processed := processed + 1;
          case Skipped => skipped := skipped + 1;
          case Failed => failed := failed + 1;
        }
      }
    }

    lemma ListingHolds()
      requires Valid()
      ensures Listing(hosts, EnabledIds(ids, hosts))
    {
      EnabledIdsAre(ids, hosts);
      EnabledIdsDistinct(ids, hosts);
      var all := EnabledIds(ids, hosts);
      forall i | 0 <= i < |all| ensures all[i] in hosts && hosts[all[i]].policy.Some? {
        assert all[i] in all && all[i] in ids;
      }
    }

    /** Visits every enabled policy exactly once, in order, and takes each due host
        through a prefix of its reset, the whole of it unless a write fails. */
    method RunScheduledResets(now: int)
      returns (listed: bool, processed: nat, skipped: nat, failed: nat, ghost cuts: seq<nat>)
      requires Valid()
      modifies this`hosts
      ensures Valid()
      ensures Progress(old(hosts), hosts, EnabledIds(ids, old(hosts)), cuts, now)
      ensures Listing(old(hosts), EnabledIds(ids, old(hosts)))
      ensures processed + skipped + failed == |cuts|
      ensures listed ==> |cuts| == |EnabledIds(ids, old(hosts))|
      ensures failed == 0 ==> Complete(old(hosts), EnabledIds(ids, old(hosts)), cuts, now)
    {
      ghost var before := hosts;
      ghost var all := EnabledIds(ids, hosts);
      ListingHolds();
      listed, processed, skipped, failed, cuts := true, 0, 0, 0, [];
      var offset := 0;
      while true
        invariant Valid() && listed && offset == |cuts|
        invariant Progress(before, hosts, all, cuts, now)
        invariant processed + skipped + failed == |cuts|
        invariant failed == 0 ==> Complete(before, all, cuts, now)
        decreases |all| - offset
      {
        var page;
        SameListing(before, all, cuts, now);
        listed, page := ListEnabled(PAGE, offset);
        if !listed {
          return;
        }
        if |page| == 0 {
          return;
        }
        var p, s, f;
        p, s, f, cuts := VisitPage(page, now, before, all, cuts);
        processed, skipped, failed := processed + p, skipped + s, failed + f;
        if |page| < PAGE {
          return;
        }
        offset := offset + |page|;
      }
    }

    /** Resets do not move the pages: no reset enables or disables a policy. */
    lemma SameListing(before: map<int, Host>, all: seq<int>, cuts: seq<nat>, now: int)
      requires Valid() && Progress(before, hosts, all, cuts, now)
      requires forall i :: 0 <= i < |ids| ==> ids[i] in before
      requires all == EnabledIds(ids, before)
      ensures EnabledIds(ids, hosts) == all
    {
      forall i | 0 <= i < |ids| ensures SameEnabled(hosts[ids[i]], before[ids[i]]) {
        if ids[i] in all[..|cuts|] {
          var j :| 0 <= j < |cuts| && all[j] == ids[i];
          TickKeepsEnabled(before[ids[i]], now, cuts[j], maxDelta);
        }
      }
      EnabledIdsSame(ids, hosts, before);
    }
  }

  lemma {:induction false} SameCount(servers: seq<Server>)
    ensures |ReasonsFor(servers, ReasonKind.DisabledServers)| == |ReasonsFor(servers, ReasonKind.ThresholdReached)|
  {
    if servers != [] { SameCount(servers[1..]); }
  }
}
