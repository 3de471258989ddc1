/** What every cut of every run of traffic operations keeps: no server stays hidden. */
module TrafficSafety {
  import opened TrafficCounter
  import opened TrafficPolicy
  import opened TrafficLifecycle

  predicate Latched(h: Host) { h.policy.Some? && h.policy.value.reached }

  /** shown is the set of servers that are visible whenever the latch is open. */
  ghost predicate Safe(h: Host, shown: set<int>) {
    && DistinctServers(h.servers)
    && Visible(h.servers) <= shown <= Ids(h.servers)
    && Recorded(h.reasons) <= shown
    && |DisabledReasons(h.reasons)| <= RESTORE_LIMIT
    && shown <= Visible(h.servers) + Recorded(h.reasons)
    && (!Latched(h) ==> Visible(h.servers) == shown)
  }

  /** The order the writes rest on: reasons before hiding, showing before dropping
      the reasons, dropping them before opening the latch. */
  ghost predicate Allowed(h: Host, w: Write, shown: set<int>) {
    match w
    case PutCounters(_) | ZeroCycle(_) | Latch(_) => true
    case PutPolicy(p) => p.reached == Latched(h)
    case ReplaceReasons(rs) =>
      && Recorded(rs) <= shown <= Visible(h.servers) + Recorded(rs)
      && |DisabledReasons(rs)| <= RESTORE_LIMIT
    case SetShow(id, show) => if show then id in shown else Latched(h) && id in Recorded(h.reasons)
    case DropReasons | RecordReset(_, _) => shown <= Visible(h.servers)
  }

  lemma ShowChanges(servers: seq<Server>, id: int, show: bool)
    requires id in Ids(servers)
    ensures Ids(WithShow(servers, id, show)) == Ids(servers)
    ensures Visible(WithShow(servers, id, show)) == if show then Visible(servers) + {id} else Visible(servers) - {id}
  {
    var out := WithShow(servers, id, show);
    forall x ensures x in Ids(out) <==> x in Ids(servers) {
      if x in Ids(out) {
        var i :| 0 <= i < |out| && out[i].id == x;
        assert servers[i].id == x;
      }
      if x in Ids(servers) {
        var i :| 0 <= i < |servers| && servers[i].id == x;
        assert out[i].id == x;
      }
    }
    forall x ensures x in Visible(out) <==> if x == id then show else x in Visible(servers) {
      if x in Visible(out) {
        var i :| 0 <= i < |out| && out[i].show && out[i].id == x;
        assert servers[i].id == x;
      }
      if x != id && x in Visible(servers) {
        var i :| 0 <= i < |servers| && servers[i].show && servers[i].id == x;
        assert out[i] == servers[i];
      }
      if x == id && show {
        var i :| 0 <= i < |servers| && servers[i].id == id;
        assert out[i] == Server(id, true);
      }
    }
  }

  lemma ShowKeepsIds(servers: seq<Server>, id: int, show: bool)
    requires DistinctServers(servers)
    ensures DistinctServers(WithShow(servers, id, show))
  {
  }

  lemma SetShowKeepsSafe(h: Host, id: int, show: bool, shown: set<int>)
    requires Safe(h, shown) && Allowed(h, SetShow(id, show), shown)
    ensures Safe(Exec1(h, SetShow(id, show)), shown)
  {
    assert id in shown;
    ShowChanges(h.servers, id, show);
    ShowKeepsIds(h.servers, id, show);
  }

  lemma DropKeepsSafe(h: Host, shown: set<int>)
    requires Safe(h, shown) && shown <= Visible(h.servers)
    ensures Safe(Exec1(h, DropReasons), shown)
  {
    assert Recorded([]) == {} && DisabledReasons([]) == [];
  }

  lemma PolicyWriteKeepsSafe(h: Host, w: Write, shown: set<int>)
    requires Safe(h, shown) && Allowed(h, w, shown) && (w.Latch? || w.RecordReset? || w.PutPolicy?)
    ensures Safe(Exec1(h, w), shown)
  {
    assert Exec1(h, w).servers == h.servers && Exec1(h, w).reasons == h.reasons;
    assert w.RecordReset? ==> Visible(h.servers) == shown;
  }

  lemma AllowedKeepsSafe(h: Host, w: Write, shown: set<int>)
    requires Safe(h, shown) && Allowed(h, w, shown)
    ensures Safe(Exec1(h, w), shown)
  {
    match w
    case SetShow(id, show) => SetShowKeepsSafe(h, id, show, shown);
    case DropReasons => DropKeepsSafe(h, shown);
    case Latch(_) => PolicyWriteKeepsSafe(h, w, shown);
    case RecordReset(_, _) => PolicyWriteKeepsSafe(h, w, shown);
    case PutPolicy(_) => PolicyWriteKeepsSafe(h, w, shown);
    case ReplaceReasons(_) =>
    case _ => assert Exec1(h, w).(counters := h.counters) == h;
  }

  ghost predicate Guarded(h: Host, ws: seq<Write>, shown: set<int>)
    decreases |ws|
  {
    ws == [] || (Allowed(h, ws[0], shown) && Guarded(Exec1(h, ws[0]), ws[1..], shown))
  }

  lemma {:induction false} GuardedPrefixIsSafe(h: Host, ws: seq<Write>, shown: set<int>, k: nat)
    requires Safe(h, shown) && Guarded(h, ws, shown) && k <= |ws|
    ensures Safe(Exec(h, ws[..k]), shown)
    decreases k
  {
    if k > 0 {
      AllowedKeepsSafe(h, ws[0], shown);
      GuardedPrefixIsSafe(Exec1(h, ws[0]), ws[1..], shown, k - 1);
      assert ws[..k][1..] == ws[1..][..k - 1];
    }
  }

  lemma VisibleCons(servers: seq<Server>)
    requires servers != []
    ensures Visible(servers) == (if servers[0].show then {servers[0].id} else {}) + Visible(servers[1..])
  {
    assert servers == [servers[0]] + servers[1..];
  }

  lemma {:induction false} ReasonsForKind(servers: seq<Server>, kind: ReasonKind)
    ensures forall r :: r in ReasonsFor(servers, kind) ==> r.kind == kind && r.serverID in Visible(servers)
  {
    if servers != [] {
      VisibleCons(servers);
      ReasonsForKind(servers[1..], kind);
    }
  }

  lemma HeadNotInTail(servers: seq<Server>)
    requires DistinctServers(servers) && servers != []
    ensures DistinctServers(servers[1..]) && servers[0].id !in Visible(servers[1..])
  {
  }

  lemma {:induction false} ReasonsForCount(servers: seq<Server>, kind: ReasonKind)
    requires DistinctServers(servers)
    ensures |ReasonsFor(servers, kind)| == |Visible(servers)|
  {
    if servers != [] {
      HeadNotInTail(servers);
      VisibleCons(servers);
      ReasonsForCount(servers[1..], kind);
    }
  }

  ghost predicate DistinctReasons(rs: seq<Reason>) {
    forall i, j :: 0 <= i < j < |rs| ==> rs[i].serverID != rs[j].serverID
  }

  lemma {:induction false} ReasonsForDistinct(servers: seq<Server>, kind: ReasonKind)
    requires DistinctServers(servers)
    ensures DistinctReasons(ReasonsFor(servers, kind))
  {
    if servers != [] {
      HeadNotInTail(servers);
      ReasonsForDistinct(servers[1..], kind);
      ReasonsForKind(servers[1..], kind);
      PrependReason(Reason(servers[0].id, kind), ReasonsFor(servers[1..], kind));
    }
  }

  lemma PrependReason(r: Reason, rs: seq<Reason>)
    requires DistinctReasons(rs)
    ensures (forall x :: x in rs ==> x.serverID != r.serverID) ==> DistinctReasons([r] + rs)
    ensures [] + rs == rs
  {
    assert forall i :: 0 <= i < |rs| ==> rs[i] in rs;
  }

  lemma ReasonsForMembers(servers: seq<Server>, kind: ReasonKind)
    requires DistinctServers(servers)
    ensures var rs := ReasonsFor(servers, kind);
            && |rs| == |Visible(servers)|
            && (forall i :: 0 <= i < |rs| ==> rs[i].kind == kind && rs[i].serverID in Visible(servers))
            && DistinctReasons(rs)
  {
    ReasonsForKind(servers, kind);
    ReasonsForCount(servers, kind);
    ReasonsForDistinct(servers, kind);
    var rs := ReasonsFor(servers, kind);
    assert forall i :: 0 <= i < |rs| ==> rs[i] in rs;
  }

  lemma RecordedCons(rs: seq<Reason>)
    requires rs != []
    ensures Recorded(rs) == (if rs[0].kind.DisabledServers? then {rs[0].serverID} else {}) + Recorded(rs[1..])
  {
    assert rs == [rs[0]] + rs[1..];
  }

  lemma {:induction false} ReasonsForRecorded(servers: seq<Server>, kind: ReasonKind)
    ensures Recorded(ReasonsFor(servers, kind)) == if kind.DisabledServers? then Visible(servers) else {}
    ensures |DisabledReasons(ReasonsFor(servers, kind))| == if kind.DisabledServers? then |ReasonsFor(servers, kind)| else 0
  {
    if servers != [] {
      VisibleCons(servers);
      ReasonsForRecorded(servers[1..], kind);
      var rs, tail := ReasonsFor(servers, kind), ReasonsFor(servers[1..], kind);
      if servers[0].show {
        assert rs[1..] == tail;
        RecordedCons(rs);
      } else {
        assert rs == tail;
      }
    }
  }

  lemma ReasonsForMeaning(servers: seq<Server>, kind: ReasonKind)
    requires DistinctServers(servers)
    ensures var rs := ReasonsFor(servers, kind);
            && |rs| == |Visible(servers)|
            && (forall i :: 0 <= i < |rs| ==> rs[i].kind == kind && rs[i].serverID in Visible(servers))
            && Recorded(rs) == (if kind.DisabledServers? then Visible(servers) else {})
            && |DisabledReasons(rs)| == (if kind.DisabledServers? then |rs| else 0)
  {
    ReasonsForMembers(servers, kind);
    ReasonsForRecorded(servers, kind);
  }

  lemma {:induction false} HidesAreGuarded(h: Host, rs: seq<Reason>, shown: set<int>)
    requires Latched(h)
    requires forall i :: 0 <= i < |rs| ==> rs[i].serverID in Recorded(h.reasons)
    ensures Guarded(h, HideWrites(rs), shown)
    decreases |rs|
  {
    if rs != [] {
      assert HideWrites(rs)[1..] == HideWrites(rs[1..]);
      HidesAreGuarded(Exec1(h, HideWrites(rs)[0]), rs[1..], shown);
    }
  }

  lemma ActionIsGuarded(h: Host, action: Action, at: int, shown: set<int>)
    requires Safe(h, shown) && !Latched(h) && h.policy.Some? && |shown| <= RESTORE_LIMIT
    ensures Guarded(h, [Latch(at)] + ActionWrites(h, action), shown)
  {
    var h1 := Exec1(h, Latch(at));
    var ws := ActionWrites(h, action);
    assert ([Latch(at)] + ws)[1..] == ws;
    if action.SubscriptionExclude? {
      ReasonsForMeaning(h.servers, ThresholdReached);
    } else if action.DisableServers? {
      var rs := ReasonsFor(h.servers, DisabledServers);
      ReasonsForMeaning(h.servers, DisabledServers);
      HidesAreGuarded(Exec1(h1, ws[0]), rs, shown);
      assert ws[1..] == HideWrites(rs);
    }
  }

  lemma ReportIsGuarded(h: Host, r: Report, maxDelta: int, now: int, shown: set<int>)
    requires Safe(h, shown) && |shown| <= RESTORE_LIMIT
    ensures Guarded(h, ReportWrites(h, r, maxDelta, now), shown)
  {
    var ws := ReportWrites(h, r, maxDelta, now);
    if ws != [] {
      var h1 := Exec1(h, ws[0]);
      if Judge(h.counters, r, maxDelta).Accepted? && Crosses(h1) {
        ActionIsGuarded(h1, h1.policy.value.action, Reported(r, now), shown);
        assert ws[1..] == ThresholdWrites(h1, Reported(r, now));
      }
    }
  }

  ghost predicate Covers(servers: seq<Server>, rs: seq<Reason>, shown: set<int>) {
    && (forall i :: 0 <= i < |rs| ==> rs[i].serverID in shown)
    && (forall id :: id in shown ==> id in Visible(servers) || exists i :: 0 <= i < |rs| && rs[i].serverID == id)
  }

  lemma CoversAfterShow(servers: seq<Server>, rs: seq<Reason>, shown: set<int>)
    requires rs != [] && shown <= Ids(servers) && Covers(servers, rs, shown)
    ensures Covers(WithShow(servers, rs[0].serverID, true), rs[1..], shown)
    ensures Ids(WithShow(servers, rs[0].serverID, true)) == Ids(servers)
  {
    ShowChanges(servers, rs[0].serverID, true);
    CoversTail(servers, rs, shown);
  }

  lemma CoversTail(servers: seq<Server>, rs: seq<Reason>, shown: set<int>)
    requires rs != [] && Covers(servers, rs, shown)
    ensures forall id :: id in shown ==>
              id in Visible(servers) || id == rs[0].serverID || exists i :: 0 <= i < |rs[1..]| && rs[1..][i].serverID == id
  {
    forall id | id in shown && id !in Visible(servers) && id != rs[0].serverID
      ensures exists i :: 0 <= i < |rs[1..]| && rs[1..][i].serverID == id
    {
      var i :| 0 <= i < |rs| && rs[i].serverID == id;
      assert rs[1..][i - 1].serverID == id;
    }
  }

  lemma CoversAfterSkip(servers: seq<Server>, rs: seq<Reason>, shown: set<int>)
    requires rs != [] && shown <= Ids(servers) && Covers(servers, rs, shown) && !IsHidden(servers, rs[0].serverID)
    ensures Covers(servers, rs[1..], shown)
  {
    CoversTail(servers, rs, shown);
    var i :| 0 <= i < |servers| && servers[i].id == rs[0].serverID;
    assert servers[i].show;
  }

  lemma PositiveIds(servers: seq<Server>, id: int)
    requires DistinctServers(servers) && id in Ids(servers)
    ensures id > 0
  {
  }

  lemma TailIsGuarded(h: Host, at: int, key: CycleKey, shown: set<int>)
    requires DistinctServers(h.servers) && shown <= Ids(h.servers) && Covers(h.servers, [], shown)
    ensures Guarded(h, [DropReasons, RecordReset(at, key)], shown)
  {
    var tail := [DropReasons, RecordReset(at, key)];
    assert tail[1..] == [RecordReset(at, key)] && tail[1..][1..] == [];
    assert Allowed(h, DropReasons, shown);
  }

  lemma {:induction false} ShowsAreGuarded(h: Host, rs: seq<Reason>, at: int, key: CycleKey, shown: set<int>)
    requires DistinctServers(h.servers) && shown <= Ids(h.servers) && Covers(h.servers, rs, shown)
    ensures Guarded(h, ShowWrites(h.servers, rs) + [DropReasons, RecordReset(at, key)], shown)
    decreases |rs|
  {
    var tail := [DropReasons, RecordReset(at, key)];
    var ws := ShowWrites(h.servers, rs) + tail;
    if rs == [] {
      assert ws == tail;
      TailIsGuarded(h, at, key, shown);
    } else {
      var id := rs[0].serverID;
      PositiveIds(h.servers, id);
      if IsHidden(h.servers, id) {
        var h1 := Exec1(h, SetShow(id, true));
        CoversAfterShow(h.servers, rs, shown);
        ShowsAreGuarded(h1, rs[1..], at, key, shown);
        assert ws[1..] == ShowWrites(h1.servers, rs[1..]) + tail;
      } else {
        CoversAfterSkip(h.servers, rs, shown);
        ShowsAreGuarded(h, rs[1..], at, key, shown);
      }
    }
  }

  lemma {:induction false} DisabledReasonsMeaning(reasons: seq<Reason>)
    ensures forall x :: x in Recorded(reasons) <==>
              exists i :: 0 <= i < |DisabledReasons(reasons)| && DisabledReasons(reasons)[i].serverID == x
  {
    if reasons != [] {
      DisabledReasonsMeaning(reasons[1..]);
      var rest, rs := DisabledReasons(reasons[1..]), DisabledReasons(reasons);
      assert reasons == [reasons[0]] + reasons[1..];
      assert Recorded(reasons) == (if reasons[0].kind.DisabledServers? then {reasons[0].serverID} else {}) + Recorded(reasons[1..]);
      forall x ensures x in Recorded(reasons) <==> exists i :: 0 <= i < |rs| && rs[i].serverID == x {
        if i :| 0 <= i < |rest| && rest[i].serverID == x { assert rs[i].serverID == x; }
        if reasons[0].kind.DisabledServers? { assert rs[|rest|] == reasons[0]; }
      }
    }
  }

  lemma ResetIsGuarded(h: Host, at: int, key: CycleKey, shown: set<int>)
    requires Safe(h, shown)
    ensures Guarded(h, ResetWrites(h, at, key), shown)
  {
    var ws := ResetWrites(h, at, key);
    if at > 0 && h.policy.Some? {
      var rs := Listed(h.reasons);
      DisabledReasonsMeaning(h.reasons);
      var h1 := if h.counters.Some? then Exec1(h, ZeroCycle(at)) else h;
      ShowsAreGuarded(h1, rs, at, key, shown);
      var rest := ShowWrites(h.servers, rs) + [DropReasons, RecordReset(at, key)];
      assert RestoreWrites(h) + [RecordReset(at, key)] == rest;
      if h.counters.Some? {
        assert ws == [ZeroCycle(at)] + rest && ws[1..] == rest;
      } else {
        assert ws == rest;
      }
    } else if at > 0 && h.counters.Some? {
      assert ws == [ZeroCycle(at)] && ws[1..] == [];
    }
  }

  lemma StepIsSafe(h: Host, c: Cut, maxDelta: int, shown: set<int>)
    requires Safe(h, shown) && |shown| <= RESTORE_LIMIT
    ensures Safe(Step(h, c, maxDelta), shown)
  {
    var ws := Writes(h, c.event, maxDelta);
    match c.event {
      case Deliver(r, now) => ReportIsGuarded(h, r, maxDelta, now, shown);
      case ManualReset(now) => ResetIsGuarded(h, now, Manual(now), shown);
      case Tick(now) =>
        if ws != [] {
          var due := ScheduledResetDue(h.policy.value, h.row, now);
          ResetIsGuarded(h, due.resetAt, due.key, shown);
        }
      case EditPolicy(_, _) => assert ws[1..] == [];
    }
    GuardedPrefixIsSafe(h, ws, shown, Done(h, c, maxDelta));
  }

  /** Over every run of reports, scheduled and manual resets and policy edits,
      each stopped after any of its writes, the visible servers are the original
      ones whenever the latch is open. */
  lemma {:induction false} RunIsSafe(h: Host, cs: seq<Cut>, maxDelta: int, shown: set<int>)
    requires Safe(h, shown) && |shown| <= RESTORE_LIMIT
    ensures Safe(Run(h, cs, maxDelta), shown)
    ensures !Latched(Run(h, cs, maxDelta)) ==> Visible(Run(h, cs, maxDelta).servers) == shown
    decreases |cs|
  {
    if cs != [] {
      StepIsSafe(h, cs[0], maxDelta, shown);
      RunIsSafe(Step(h, cs[0], maxDelta), cs[1..], maxDelta, shown);
    }
  }

  // ---------------------------------------------------------------- one complete reset

  lemma {:induction false} ExecOtherFields(h: Host, ws: seq<Write>)
    requires forall i :: 0 <= i < |ws| ==> ws[i].SetShow?
    ensures var h' := Exec(h, ws); h'.counters == h.counters && h'.policy == h.policy && h'.reasons == h.reasons
    decreases |ws|
  {
    if ws != [] { ExecOtherFields(Exec1(h, ws[0]), ws[1..]); }
  }

  lemma {:induction false} ShowWritesShow(servers: seq<Server>, rs: seq<Reason>)
    ensures forall i :: 0 <= i < |ShowWrites(servers, rs)| ==>
              var w := ShowWrites(servers, rs)[i];
              w.SetShow? && w.show && exists k :: 0 <= k < |rs| && rs[k].serverID == w.id
    decreases |rs|
  {
    if rs != [] {
      var id := rs[0].serverID;
      var hit := id > 0 && IsHidden(servers, id);
      var next := if hit then WithShow(servers, id, true) else servers;
      ShowWritesShow(next, rs[1..]);
      var ws := ShowWrites(servers, rs);
      forall i | 0 <= i < |ws| ensures ws[i].SetShow? && ws[i].show && exists k :: 0 <= k < |rs| && rs[k].serverID == ws[i].id {
        if hit && i == 0 {
          assert rs[0].serverID == ws[i].id;
        } else {
          var j := if hit then i - 1 else i;
          assert ws[i] == ShowWrites(next, rs[1..])[j];
          var k :| 0 <= k < |rs[1..]| && rs[1..][k].serverID == ws[i].id;
          assert rs[k + 1].serverID == ws[i].id;
        }
      }
    }
  }

  function ZeroWrites(h: Host, at: int): seq<Write> { if h.counters.Some? then [ZeroCycle(at)] else [] }

  lemma AfterZero(h: Host, at: int)
    ensures var h' := Exec(h, ZeroWrites(h, at));
            && h'.counters == Zeroed(h.counters, at) && h'.policy == h.policy
            && h'.servers == h.servers && h'.reasons == h.reasons
  {
    if h.counters.Some? {
      assert ZeroWrites(h, at)[1..] == [];
      assert Exec(h, ZeroWrites(h, at)) == Exec(Exec1(h, ZeroCycle(at)), []);
    }
  }

  /** The state after a whole reset, by its last three stages. */
  lemma ResetStages(h: Host, at: int, key: CycleKey) returns (shown: Host)
    requires h.policy.Some? && at > 0
    ensures Exec(h, ResetWrites(h, at, key)) == Exec1(Exec1(shown, DropReasons), RecordReset(at, key))
    ensures shown.counters == Zeroed(h.counters, at) && shown.policy == h.policy
  {
    var zero, shows := ZeroWrites(h, at), ShowWrites(h.servers, Listed(h.reasons));
    AfterZero(h, at);
    ShowWritesShow(h.servers, Listed(h.reasons));
    ExecOtherFields(Exec(h, zero), shows);
    shown := Exec(Exec(h, zero), shows);
    ExecConcat(h, zero, shows);
    ExecSnoc(h, zero + shows, DropReasons);
    ExecSnoc(h, zero + shows + [DropReasons], RecordReset(at, key));
    assert ResetWrites(h, at, key) == ((zero + shows) + [DropReasons]) + [RecordReset(at, key)];
  }

  /** A recorded cycle key means the cycle was zeroed and the servers restored:
      the record is the last write, and with it the reset is complete. */
  lemma CompleteReset(h: Host, at: int, key: CycleKey, shown: set<int>)
    requires Safe(h, shown) && h.policy.Some? && at > 0
    ensures var h' := Exec(h, ResetWrites(h, at, key));
            && Safe(h', shown) && !Latched(h') && Visible(h'.servers) == shown && h'.reasons == []
            && h'.counters == Zeroed(h.counters, at) && h'.policy.Some?
            && h'.policy.value == h.policy.value.(reached := false, lastResetAt := at, lastKey := key, updatedAt := at)
  {
    var ws := ResetWrites(h, at, key);
    ResetIsGuarded(h, at, key, shown);
    GuardedPrefixIsSafe(h, ws, shown, |ws|);
    assert ws[..|ws|] == ws;
    var s := ResetStages(h, at, key);
  }

  /** Any prefix of a reset that records the key is the whole reset. */
  lemma OnlyCompleteResetsRecord(h: Host, at: int, key: CycleKey, k: nat)
    requires h.policy.Some? && at > 0 && k < |ResetWrites(h, at, key)|
    ensures Exec(h, ResetWrites(h, at, key)[..k]).policy == h.policy
  {
    var ws := ResetWrites(h, at, key);
    ShowWritesShow(h.servers, Listed(h.reasons));
    PolicyUntouched(h, ws[..k]);
  }

  lemma {:induction false} PolicyUntouched(h: Host, ws: seq<Write>)
    requires forall i :: 0 <= i < |ws| ==> !ws[i].Latch? && !ws[i].RecordReset? && !ws[i].PutPolicy?
    ensures Exec(h, ws).policy == h.policy
    decreases |ws|
  {
    if ws != [] { PolicyUntouched(Exec1(h, ws[0]), ws[1..]); }
  }

  // ---------------------------------------------------------------- the thousand-row limit

  lemma {:induction false} AfterHides(h: Host, rs: seq<Reason>)
    requires forall i :: 0 <= i < |rs| ==> rs[i].serverID in Ids(h.servers)
    ensures var h' := Exec(h, HideWrites(rs));
            && Ids(h'.servers) == Ids(h.servers) && Visible(h'.servers) <= Visible(h.servers)
            && (forall i :: 0 <= i < |rs| ==> rs[i].serverID !in Visible(h'.servers))
    decreases |rs|
  {
    if rs != [] {
      var h1 := Exec1(h, SetShow(rs[0].serverID, false));
      ShowChanges(h.servers, rs[0].serverID, false);
      assert HideWrites(rs)[1..] == HideWrites(rs[1..]);
      AfterHides(h1, rs[1..]);
      forall i | 0 <= i < |rs| ensures rs[i].serverID !in Visible(Exec(h, HideWrites(rs)).servers) {
        if i > 0 { assert rs[i] == rs[1..][i - 1]; }
      }
    }
  }

  lemma {:induction false} ShowsOnly(h: Host, ws: seq<Write>, id: int)
    requires forall i :: 0 <= i < |ws| ==> ws[i].SetShow? && ws[i].id != id
    ensures id in Visible(Exec(h, ws).servers) ==> id in Visible(h.servers)
    decreases |ws|
  {
    if ws != [] {
      var h1 := Exec1(h, ws[0]);
      ShowsOnly(h1, ws[1..], id);
      if id in Visible(h1.servers) {
        var i :| 0 <= i < |h1.servers| && h1.servers[i].show && h1.servers[i].id == id;
        assert h.servers[i] == h1.servers[i];
      }
    }
  }

  lemma {:induction false} DisabledIsReverse(rs: seq<Reason>)
    requires forall i :: 0 <= i < |rs| ==> rs[i].kind.DisabledServers?
    ensures |DisabledReasons(rs)| == |rs|
    ensures forall i :: 0 <= i < |rs| ==> DisabledReasons(rs)[i] == rs[|rs| - 1 - i]
  {
    if rs != [] { DisabledIsReverse(rs[1..]); }
  }

  lemma {:induction false} ShowsStayWithin(h: Host, ws: seq<Write>, shown: set<int>)
    requires forall i :: 0 <= i < |ws| ==> ws[i].SetShow? && ws[i].id in shown
    requires shown <= Ids(h.servers) && Visible(h.servers) <= shown
    ensures Visible(Exec(h, ws).servers) <= shown
    decreases |ws|
  {
    if ws != [] {
      ShowChanges(h.servers, ws[0].id, ws[0].show);
      ShowsStayWithin(Exec1(h, ws[0]), ws[1..], shown);
    }
  }

  lemma {:induction false} GuardedAt(h: Host, ws: seq<Write>, k: nat, shown: set<int>)
    requires Guarded(h, ws, shown) && k < |ws|
    ensures Allowed(Exec(h, ws[..k]), ws[k], shown)
    decreases k
  {
    if k > 0 {
      GuardedAt(Exec1(h, ws[0]), ws[1..], k - 1, shown);
      assert ws[..k][1..] == ws[1..][..k - 1];
    }
  }

  lemma ReasonFacts(servers: seq<Server>) returns (rs: seq<Reason>)
    requires DistinctServers(servers)
    ensures rs == ReasonsFor(servers, DisabledServers) && |rs| == |Visible(servers)| && Recorded(rs) == Visible(servers)
    ensures |DisabledReasons(rs)| == |rs|
    ensures forall i :: 0 <= i < |rs| ==> DisabledReasons(rs)[i] == rs[|rs| - 1 - i] && rs[i].serverID in Visible(servers)
    ensures DistinctReasons(rs)
  {
    rs := ReasonsFor(servers, DisabledServers);
    ReasonsForMeaning(servers, DisabledServers);
    ReasonsForMembers(servers, DisabledServers);
    DisabledIsReverse(rs);
  }

  /** All servers hidden by a complete disable, with the reasons it wrote. */
  lemma AfterDisable(h: Host) returns (hidden: Host, rs: seq<Reason>)
    requires DistinctServers(h.servers)
    ensures hidden == Exec(h, DisableWrites(h)) && rs == ReasonsFor(h.servers, DisabledServers)
    ensures hidden.reasons == rs && |rs| == |Visible(h.servers)|
    ensures Ids(hidden.servers) == Ids(h.servers) && Visible(hidden.servers) == {}
    ensures DistinctServers(hidden.servers)
    ensures |DisabledReasons(rs)| == |rs|
    ensures forall i :: 0 <= i < |rs| ==> DisabledReasons(rs)[i] == rs[|rs| - 1 - i] && rs[i].serverID in Visible(h.servers)
    ensures DistinctReasons(rs)
    ensures Recorded(rs) == Visible(h.servers)
  {
    rs := ReasonFacts(h.servers);
    var h1 := Exec1(h, ReplaceReasons(rs));
    assert DisableWrites(h)[1..] == HideWrites(rs);
    assert forall i :: 0 <= i < |rs| ==> rs[i].serverID in Ids(h1.servers);
    AfterHides(h1, rs);
    ExecOtherFields(h1, HideWrites(rs));
    SameIds(h1, HideWrites(rs));
    hidden := Exec(h, DisableWrites(h));
    assert Visible(hidden.servers) !! Recorded(rs);
  }

  lemma {:induction false} SameIds(h: Host, ws: seq<Write>)
    requires forall i :: 0 <= i < |ws| ==> ws[i].SetShow?
    ensures var h' := Exec(h, ws); |h'.servers| == |h.servers| && forall i :: 0 <= i < |h.servers| ==> h'.servers[i].id == h.servers[i].id
    decreases |ws|
  {
    if ws != [] { SameIds(Exec1(h, ws[0]), ws[1..]); }
  }

  lemma DropKeepsServers(h: Host)
    ensures Exec(h, RestoreWrites(h)).servers == Exec(h, ShowWrites(h.servers, Listed(h.reasons))).servers
  {
    ExecSnoc(h, ShowWrites(h.servers, Listed(h.reasons)), DropReasons);
  }

  /** The limit is exact: hiding all visible servers and restoring them brings back
      the same set iff there are at most a thousand of them; beyond that the first
      one hidden is never shown again, because its reason is deleted unread. */
  lemma RestoreUndoesDisableExactly(h: Host)
    requires DistinctServers(h.servers)
    ensures var hidden := Exec(h, DisableWrites(h));
            Visible(Exec(hidden, RestoreWrites(hidden)).servers) == Visible(h.servers) <==> |Visible(h.servers)| <= RESTORE_LIMIT
  {
    var hidden, rs := AfterDisable(h);
    DropKeepsServers(hidden);
    if |rs| > RESTORE_LIMIT {
      FirstHiddenStaysHidden(hidden, rs);
      assert rs[0].serverID in Visible(h.servers);
    } else {
      AllHiddenReturn(hidden, rs, Visible(h.servers));
    }
  }

  lemma AllHiddenReturn(hidden: Host, rs: seq<Reason>, shown: set<int>)
    requires DistinctServers(hidden.servers) && Visible(hidden.servers) == {} && shown <= Ids(hidden.servers)
    requires |DisabledReasons(rs)| <= RESTORE_LIMIT && Recorded(rs) == shown
    ensures Visible(Exec(hidden, ShowWrites(hidden.servers, Listed(rs))).servers) == shown
  {
    var shows := ShowWrites(hidden.servers, Listed(rs));
    DisabledReasonsMeaning(rs);
    assert Covers(hidden.servers, Listed(rs), shown);
    ShowsAreGuarded(hidden, Listed(rs), 1, NoKey, shown);
    var ws := shows + [DropReasons, RecordReset(1, NoKey)];
    GuardedAt(hidden, ws, |shows|, shown);
    assert ws[..|shows|] == shows;
    ShowWritesShow(hidden.servers, Listed(rs));
    ShowsStayWithin(hidden, shows, shown);
  }

  lemma FirstHiddenStaysHidden(hidden: Host, rs: seq<Reason>)
    requires |rs| > RESTORE_LIMIT && rs[0].serverID !in Visible(hidden.servers)
    requires |DisabledReasons(rs)| == |rs| && forall i :: 0 <= i < |rs| ==> DisabledReasons(rs)[i] == rs[|rs| - 1 - i]
    requires forall i, j :: 0 <= i < j < |rs| ==> rs[i].serverID != rs[j].serverID
    ensures rs[0].serverID !in Visible(Exec(hidden, ShowWrites(hidden.servers, Listed(rs))).servers)
  {
    var shows := ShowWrites(hidden.servers, Listed(rs));
    ShowWritesShow(hidden.servers, Listed(rs));
    forall i | 0 <= i < |shows| ensures shows[i].id != rs[0].serverID {
      var k :| 0 <= k < |Listed(rs)| && Listed(rs)[k].serverID == shows[i].id;
      assert Listed(rs)[k] == rs[|rs| - 1 - k];
    }
    ShowsOnly(hidden, shows, rs[0].serverID);
  }

  /** What the latch is for: a second disable before the restore finds nothing
      visible, overwrites the reasons of the first, and no server ever returns. */
  lemma SecondDisableLosesAllServers(h: Host)
    requires DistinctServers(h.servers)
    ensures var once := Exec(h, DisableWrites(h));
            var twice := Exec(once, DisableWrites(once));
            Visible(Exec(twice, RestoreWrites(twice)).servers) == {}
  {
    var once, _ := AfterDisable(h);
    var twice, rs := AfterDisable(once);
    assert rs == [];
    assert RestoreWrites(twice) == [DropReasons] && [DropReasons][1..] == [];
    assert Exec(twice, [DropReasons]) == Exec(Exec1(twice, DropReasons), []);
  }
}
