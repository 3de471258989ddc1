/** Traffic lifecycle of one agent host: counting, threshold, hiding servers, reset.

    Every operation is a list of repository writes decided from the stored rows.
    A failing write ends the operation where it stands, so an operation leaves
    the rows as some prefix of its writes leaves them.
  */
module TrafficLifecycle {
  import opened Text
  import opened TrafficCounter
  import opened TrafficPolicy

  datatype Server = Server(id: int, show: bool)
  datatype ReasonKind = ThresholdReached | DisabledServers
  datatype Reason = Reason(serverID: int, kind: ReasonKind)

  /** The rows of one agent host. Reasons are those of this host's policy, oldest first. */
  datatype Host = Host(counters: Option<Counters>, policy: Option<Policy>, row: HostRow,
                       servers: seq<Server>, reasons: seq<Reason>)

  datatype Write =
    | PutCounters(counters: Counters)
    | Latch(at: int)
    | ReplaceReasons(reasons: seq<Reason>)
    | SetShow(id: int, show: bool)
    | ZeroCycle(at: int)
    | DropReasons
    | RecordReset(at: int, key: CycleKey)
    | PutPolicy(policy: Policy)

  const RESTORE_LIMIT: nat := 1000

  // ---------------------------------------------------------------- rows

  function WithShow(servers: seq<Server>, id: int, show: bool): (out: seq<Server>)
    ensures |out| == |servers|
    ensures forall i :: 0 <= i < |servers| ==>
              out[i] == if servers[i].id == id then Server(id, show) else servers[i]
  {
    seq(|servers|, i requires 0 <= i < |servers| => if servers[i].id == id then Server(id, show) else servers[i])
  }

  function Exec1(h: Host, w: Write): Host {
    match w
    case PutCounters(c) => h.(counters := Some(c))
    case Latch(at) => if h.policy.None? then h else h.(policy := Some(h.policy.value.(reached := true, updatedAt := at)))
    case ReplaceReasons(rs) => h.(reasons := rs)
    case SetShow(id, show) => h.(servers := WithShow(h.servers, id, show))
    case ZeroCycle(at) => h.(counters := Zeroed(h.counters, at))
    case DropReasons => h.(reasons := [])
    case RecordReset(at, key) =>
      if h.policy.None? then h
      else h.(policy := Some(h.policy.value.(reached := false, lastResetAt := at, lastKey := key, updatedAt := at)))
    case PutPolicy(p) => h.(policy := Some(p))
  }

  function Exec(h: Host, ws: seq<Write>): Host
    decreases |ws|
  {
    if ws == [] then h else Exec(Exec1(h, ws[0]), ws[1..])
  }

  lemma {:induction false} ExecConcat(h: Host, a: seq<Write>, b: seq<Write>)
    ensures Exec(h, a + b) == Exec(Exec(h, a), b)
    decreases |a|
  {
    if a == [] {
      assert a + b == b;
    } else {
      assert (a + b)[1..] == a[1..] + b;
      ExecConcat(Exec1(h, a[0]), a[1..], b);
    }
  }

  lemma ExecSnoc(h: Host, a: seq<Write>, w: Write)
    ensures Exec(h, a + [w]) == Exec1(Exec(h, a), w)
  {
    ExecConcat(h, a, [w]);
    assert Exec(Exec(h, a), [w]) == Exec(Exec1(Exec(h, a), w), [w][1..]);
  }

  function Visible(servers: seq<Server>): set<int> {
    set i | 0 <= i < |servers| && servers[i].show :: servers[i].id
  }

  function Ids(servers: seq<Server>): set<int> {
    set i | 0 <= i < |servers| :: servers[i].id
  }

  function Recorded(reasons: seq<Reason>): set<int> {
    set i | 0 <= i < |reasons| && reasons[i].kind.DisabledServers? :: reasons[i].serverID
  }

  ghost predicate DistinctServers(servers: seq<Server>) {
    && (forall i, j :: 0 <= i < j < |servers| ==> servers[i].id != servers[j].id)
    && (forall i :: 0 <= i < |servers| ==> servers[i].id > 0)
  }

  // ---------------------------------------------------------------- writes of each operation

  const PERCENT_MAX: int := 100

  function ThresholdBytes(p: Policy): int {
    if p.limitBytes <= 0 then 0
    else
      var percent := if p.percent <= 0 || p.percent > PERCENT_MAX then PERCENT_MAX else p.percent;
      (p.limitBytes / 100) * percent + ((p.limitBytes % 100) * percent) / 100
  }

  function Usage(p: Policy, c: Option<Counters>): int {
    if c.None? then 0
    else match p.limitType
      case Upload => c.value.cycleUp
      case Download => c.value.cycleDown
      case Sum => c.value.cycleUp + c.value.cycleDown
  }

  function ReasonsFor(servers: seq<Server>, kind: ReasonKind): seq<Reason> {
    if servers == [] then []
    else (if servers[0].show then [Reason(servers[0].id, kind)] else []) + ReasonsFor(servers[1..], kind)
  }

  function HideWrites(rs: seq<Reason>): seq<Write> {
    seq(|rs|, i requires 0 <= i < |rs| => SetShow(rs[i].serverID, false))
  }

  function DisableWrites(h: Host): seq<Write> {
    var rs := ReasonsFor(h.servers, DisabledServers);
    [ReplaceReasons(rs)] + HideWrites(rs)
  }

  function ActionWrites(h: Host, action: Action): seq<Write> {
    match action
    case NotifyOnly | ResetLinks => []
    case SubscriptionExclude => [ReplaceReasons(ReasonsFor(h.servers, ThresholdReached))]
    case DisableServers => DisableWrites(h)
  }

  /** Fires once: only while the latch is open and the usage has come up to the threshold. */
  predicate Crosses(h: Host) {
    && h.policy.Some? && h.policy.value.enabled && !h.policy.value.reached && h.policy.value.limitBytes > 0
    && 0 < ThresholdBytes(h.policy.value) <= Usage(h.policy.value, h.counters)
  }

  function ThresholdWrites(h: Host, at: int): seq<Write> {
    if Crosses(h) then [Latch(at)] + ActionWrites(h, h.policy.value.action) else []
  }

  function ReportWrites(h: Host, r: Report, maxDelta: int, now: int): seq<Write> {
    var v := Judge(h.counters, r, maxDelta);
    if !Stored(v) then []
    else
      var put := PutCounters(NextCounters(h.counters, r, maxDelta, now));
      [put] + if v.Accepted? then ThresholdWrites(Exec1(h, put), Reported(r, now)) else []
  }

  function DisabledReasons(reasons: seq<Reason>): seq<Reason> {
    if reasons == [] then []
    else DisabledReasons(reasons[1..]) + if reasons[0].kind.DisabledServers? then [reasons[0]] else []
  }

  /** The disabled-server reasons as listed: newest first, at most a thousand. */
  function Listed(reasons: seq<Reason>): seq<Reason> {
    var rs := DisabledReasons(reasons);
    if |rs| > RESTORE_LIMIT then rs[..RESTORE_LIMIT] else rs
  }

  predicate IsHidden(servers: seq<Server>, id: int) {
    exists i :: 0 <= i < |servers| && servers[i].id == id && !servers[i].show
  }

  function ShowWrites(servers: seq<Server>, rs: seq<Reason>): seq<Write>
    decreases |rs|
  {
    if rs == [] then []
    else
      var id := rs[0].serverID;
      if id > 0 && IsHidden(servers, id) then [SetShow(id, true)] + ShowWrites(WithShow(servers, id, true), rs[1..])
      else ShowWrites(servers, rs[1..])
  }

  function RestoreWrites(h: Host): seq<Write> {
    ShowWrites(h.servers, Listed(h.reasons)) + [DropReasons]
  }

  function ResetWrites(h: Host, at: int, key: CycleKey): seq<Write> {
    if at <= 0 then []
    else (if h.counters.Some? then [ZeroCycle(at)] else [])
         + if h.policy.Some? then RestoreWrites(h) + [RecordReset(at, key)] else []
  }

  /** The fields an administrator sets; the latch and the reset record are kept. */
  datatype PolicyEdit = PolicyEdit(enabled: bool, limitBytes: int, limitType: LimitType, percent: int, action: Action,
                                   mode: ResetMode, resetDay: int, intervalDays: int, anchorAt: int)

  function Edited(prior: Option<Policy>, e: PolicyEdit, now: int): Policy {
    Policy(e.enabled, e.limitBytes, e.limitType, if e.percent <= 0 || e.percent > PERCENT_MAX then PERCENT_MAX else e.percent,
           e.action, prior.Some? && prior.value.reached, e.mode,
           if e.resetDay <= 0 then 1 else if e.resetDay > 31 then 31 else e.resetDay, e.intervalDays, e.anchorAt,
           if prior.Some? then prior.value.lastResetAt else 0, if prior.Some? then prior.value.lastKey else NoKey, now)
  }

  datatype Event =
    | Deliver(report: Report, now: int)
    | ManualReset(now: int)
    | Tick(now: int)
    | EditPolicy(edit: PolicyEdit, now: int)

  function Writes(h: Host, e: Event, maxDelta: int): seq<Write> {
    match e
    case Deliver(r, now) => ReportWrites(h, r, maxDelta, now)
    case ManualReset(now) => ResetWrites(h, now, Manual(now))
    case Tick(now) =>
      if h.policy.None? then []
      else
        var due := ScheduledResetDue(h.policy.value, h.row, now);
        if due.DueNow? then ResetWrites(h, due.resetAt, due.key) else []
    case EditPolicy(edit, now) => [PutPolicy(Edited(h.policy, edit, now))]
  }

  /** An event and how many of its writes were carried out before a failure, if any. */
  datatype Cut = Cut(event: Event, done: nat)

  function Done(h: Host, c: Cut, maxDelta: int): nat {
    var n := |Writes(h, c.event, maxDelta)|;
    if c.done < n then c.done else n
  }

  function Step(h: Host, c: Cut, maxDelta: int): Host {
    Exec(h, Writes(h, c.event, maxDelta)[..Done(h, c, maxDelta)])
  }

  function Run(h: Host, cs: seq<Cut>, maxDelta: int): Host
    decreases |cs|
  {
    if cs == [] then h else Run(Step(h, cs[0], maxDelta), cs[1..], maxDelta)
  }

  // ---------------------------------------------------------------- threshold formula

  /** The split formula is floor(limit * percent / 100), and no intermediate value
      of it exceeds the limit, so it cannot overflow where the limit does not. */
  lemma ThresholdIsFloor(p: Policy)
    requires p.limitBytes > 0 && 1 <= p.percent <= PERCENT_MAX
    ensures ThresholdBytes(p) == (p.limitBytes * p.percent) / 100
    ensures 0 <= (p.limitBytes / 100) * p.percent <= p.limitBytes
    ensures 0 <= (p.limitBytes % 100) * p.percent < 10000
    ensures ThresholdBytes(p) <= p.limitBytes
  {
    var q, r, k := p.limitBytes / 100, p.limitBytes % 100, p.percent;
    assert p.limitBytes == 100 * q + r;
    assert p.limitBytes * k == 100 * (q * k) + r * k by {
      assert (100 * q + r) * k == (100 * q) * k + r * k;
      assert (100 * q) * k == 100 * (q * k);
    }
    assert 0 <= r * k <= 99 * 100 by { MulBounds(r, 99, k, 100); }
    MulBounds(q, q, k, 100);
    assert (100 * (q * k) + r * k) / 100 == q * k + (r * k) / 100;
    assert r * k <= 100 * r by { MulBounds(r, r, k, 100); }
  }

  lemma MulBounds(x: int, a: int, y: int, b: int)
    requires 0 <= x <= a && 0 <= y <= b
    ensures 0 <= x * y <= a * b
  {
    assert x * y <= a * y <= a * b;
  }
}
