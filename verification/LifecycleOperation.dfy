/** The operation protocol between the panel and its agents: create, claim,
    reclaim after a timeout, report.

    The table is kept in the order the claim query reads it (created_at, id).
    A claim is one transaction; a report is two statements, a read and a
    conditional write, between which anything else may run.
  */
module LifecycleOperation {
  import opened Text

  datatype Status = Pending | Claimed | InProgress | Success | Failed | Timeout
                  | Cancelled | UnsupportedAction | QueueFull

  datatype Row = Row(id: string, host: int, opType: string, status: Status, claimedBy: string,
                     claimedAt: Option<int>, startedAt: Option<int>, finishedAt: Option<int>,
                     payload: string, error: string, createdAt: int)

  /** payload is the sanitised result payload, absent when sanitising refused it. */
  datatype ReportRequest = ReportRequest(host: int, id: string, claimedBy: string, eventType: string,
                                         status: string, terminal: bool, payload: Option<string>,
                                         error: string, occurredAt: int)

  datatype Error = NotFound | Forbidden | Invalid
  datatype Outcome = Accepted | AlreadyDone | Refused(error: Error)

  const MAX_CLAIM: nat := 20

  function StatusName(s: Status): string {
    match s
    case Pending => "pending" case Claimed => "claimed" case InProgress => "in_progress"
    case Success => "success" case Failed => "failed" case Timeout => "timeout"
    case Cancelled => "cancelled" case UnsupportedAction => "unsupported_action"
    case QueueFull => "queue_full"
  }

  predicate Terminal(s: Status) {
    !s.Pending? && !s.Claimed? && !s.InProgress?
  }

  function Rank(s: Status): nat {
    if s.Pending? then 0 else if s.Claimed? then 1 else if s.InProgress? then 2 else 3
  }

  function TerminalNamed(name: string): Option<Status> {
    match name
    case "success" => Some(Success) case "failed" => Some(Failed) case "timeout" => Some(Timeout)
    case "cancelled" => Some(Cancelled) case "unsupported_action" => Some(UnsupportedAction)
    case "queue_full" => Some(QueueFull) case _ => None
  }

  function EffectiveName(status: string, event: string): Option<string> {
    if status == "" then
      if event == "accepted" then Some("claimed")
      else if event == "result" then None
      else Some("in_progress")
    else if status == "accepted" then Some("claimed")
    else if status == "progress" then Some("in_progress")
    else Some(status)
  }

  function ReportStatus(req: ReportRequest): Option<Status> {
    var event := TrimSpace(req.eventType);
    match EffectiveName(TrimSpace(req.status), event)
    case None => None
    case Some(name) =>
      if TerminalNamed(name).Some? then TerminalNamed(name)
      else if req.terminal || event == "result" then None
      else if name == "claimed" then Some(Claimed)
      else if name == "in_progress" then Some(InProgress)
      else None
  }

  /** A report ends an operation iff its status spells a terminal status; a report
      flagged terminal, or of event type result, never leaves it running. */
  lemma ReportStatusMeaning(req: ReportRequest)
    ensures forall s :: Terminal(s) ==> (ReportStatus(req) == Some(s) <==> TrimSpace(req.status) == StatusName(s))
    ensures ReportStatus(req) != Some(Pending)
    ensures req.terminal || TrimSpace(req.eventType) == "result" ==>
              ReportStatus(req).None? || Terminal(ReportStatus(req).value)
  {
    forall s | Terminal(s)
      ensures ReportStatus(req) == Some(s) <==> TrimSpace(req.status) == StatusName(s)
    {
      assert TerminalNamed(StatusName(s)) == Some(s);
      assert forall n :: TerminalNamed(n) == Some(s) ==> n == StatusName(s);
    }
  }

  predicate CanTransition(current: Status, next: Status) {
    match current
    case Pending | Claimed => !next.Pending?
    case InProgress => next.InProgress? || Terminal(next)
    case _ => false
  }

  // ---------------------------------------------------------------- the table

  ghost predicate UniqueIds(rows: seq<Row>) {
    forall i, j :: 0 <= i < j < |rows| ==> rows[i].id != rows[j].id
  }

  function Find(rows: seq<Row>, id: string): (k: nat)
    ensures k <= |rows|
    ensures k < |rows| ==> rows[k].id == id
    ensures k == |rows| ==> forall i :: 0 <= i < |rows| ==> rows[i].id != id
  {
    if rows == [] || rows[0].id == id then 0 else 1 + Find(rows[1..], id)
  }

  predicate RowBefore(a: Row, b: Row) {
    a.createdAt < b.createdAt || (a.createdAt == b.createdAt && Less(a.id, b.id))
  }

  function InsertRow(rows: seq<Row>, r: Row): seq<Row> {
    if rows == [] || RowBefore(r, rows[0]) then [r] + rows else [rows[0]] + InsertRow(rows[1..], r)
  }

  lemma {:induction false} InsertedAt(rows: seq<Row>, r: Row) returns (k: nat)
    ensures k <= |rows|
    ensures InsertRow(rows, r) == rows[..k] + [r] + rows[k..]
  {
    if rows == [] || RowBefore(r, rows[0]) {
      k := 0;
    } else {
      k := InsertedAt(rows[1..], r);
      assert [rows[0]] + (rows[1..][..k] + [r] + rows[1..][k..]) == rows[..k + 1] + [r] + rows[k + 1..];
      k := k + 1;
    }
  }

  datatype ClaimQuery = ClaimQuery(host: int, claimedBy: string, statuses: set<Status>,
                                   types: set<string>, now: int, reclaimBefore: int, limit: nat)

  datatype ClaimRequest = ClaimRequest(host: int, claimedBy: string, statuses: seq<string>,
                                       actions: seq<string>, limit: int)

  datatype Preparation = Query(q: ClaimQuery) | Reject(error: Error)

  /** An empty list means both claimable statuses; anything else refuses the request. */
  function ClaimStatuses(names: seq<string>): Option<set<Status>> {
    if names == [] then Some({Pending, Claimed}) else NamedStatuses(names)
  }

  function NamedStatuses(names: seq<string>): Option<set<Status>> {
    if names == [] then Some({})
    else
      var rest := NamedStatuses(names[1..]);
      var name := TrimSpace(names[0]);
      if rest.None? then None
      else if name == "pending" then Some({Pending} + rest.value)
      else if name == "claimed" then Some({Claimed} + rest.value)
      else None
  }

  function PrepareClaim(req: ClaimRequest, known: set<string>, now: int, timeout: nat): Preparation {
    var claimedBy := TrimSpace(req.claimedBy);
    if req.host <= 0 || claimedBy == "" then Reject(Invalid)
    else
      var statuses := ClaimStatuses(req.statuses);
      var types := (set a | a in req.actions :: TrimSpace(a)) * known;
      if statuses.None? then Reject(Invalid)
      else if types == {} then Reject(NotFound)
      else
        var limit := if req.limit <= 0 then 1 else if req.limit > MAX_CLAIM then MAX_CLAIM else req.limit;
        Query(ClaimQuery(req.host, claimedBy, statuses.value, types, now, now - timeout, limit))
  }

  lemma {:induction false} NamedStatusesClaimable(names: seq<string>)
    ensures NamedStatuses(names).Some? ==> NamedStatuses(names).value <= {Pending, Claimed}
  {
    if names != [] { NamedStatusesClaimable(names[1..]); }
  }

  predicate Eligible(r: Row, q: ClaimQuery) {
    && r.host == q.host && r.opType in q.types && r.status in q.statuses
    && (r.status.Claimed? ==> r.claimedAt.Some? && r.claimedAt.value <= q.reclaimBefore)
  }

  function ClaimRow(r: Row, q: ClaimQuery): Row {
    r.(status := Claimed, claimedBy := q.claimedBy, claimedAt := Some(q.now), startedAt := Some(q.now))
  }

  /** Claims the first limit eligible rows, in table order. */
  function ClaimRows(rows: seq<Row>, q: ClaimQuery, left: nat): (out: seq<Row>)
    ensures |out| == |rows|
  {
    if rows == [] then []
    else if left > 0 && Eligible(rows[0], q) then [ClaimRow(rows[0], q)] + ClaimRows(rows[1..], q, left - 1)
    else [rows[0]] + ClaimRows(rows[1..], q, left)
  }

  lemma {:induction false} ClaimRowsPointwise(rows: seq<Row>, q: ClaimQuery, left: nat)
    ensures forall i :: 0 <= i < |rows| ==>
              var r := ClaimRows(rows, q, left)[i];
              r == rows[i] || (Eligible(rows[i], q) && r == ClaimRow(rows[i], q))
    ensures left >= |rows| ==> forall i :: 0 <= i < |rows| && Eligible(rows[i], q) ==>
              ClaimRows(rows, q, left)[i] == ClaimRow(rows[i], q)
  {
    if rows != [] {
      ClaimRowsPointwise(rows[1..], q, if left > 0 && Eligible(rows[0], q) then left - 1 else left);
    }
  }

  /** The rows a claim returns, as claimed. */
  function ClaimedRows(rows: seq<Row>, q: ClaimQuery, left: nat): (out: seq<Row>)
    ensures |out| <= left
  {
    if rows == [] then []
    else if left > 0 && Eligible(rows[0], q) then [ClaimRow(rows[0], q)] + ClaimedRows(rows[1..], q, left - 1)
    else ClaimedRows(rows[1..], q, left)
  }

  /** They are in the table afterwards, claimed by the caller, and nothing else changed. */
  lemma {:induction false} ReturnedRowsAreClaimed(rows: seq<Row>, q: ClaimQuery, left: nat)
    ensures forall r :: r in ClaimedRows(rows, q, left) ==>
              r in ClaimRows(rows, q, left) && r.status.Claimed? && r.claimedBy == q.claimedBy
    ensures forall i :: 0 <= i < |rows| && ClaimRows(rows, q, left)[i] != rows[i] ==>
              ClaimRows(rows, q, left)[i] in ClaimedRows(rows, q, left)
  {
    if rows != [] {
      ReturnedRowsAreClaimed(rows[1..], q, if left > 0 && Eligible(rows[0], q) then left - 1 else left);
    }
  }

  /** Oldest first: a row is passed over only when the limit went to older rows. */
  lemma {:induction false} ClaimsOldestFirst(rows: seq<Row>, q: ClaimQuery, left: nat, i: nat, j: nat)
    requires i < j < |rows| && Eligible(rows[i], q) && Eligible(rows[j], q)
    requires ClaimRows(rows, q, left)[j] != rows[j]
    ensures ClaimRows(rows, q, left)[i] == ClaimRow(rows[i], q)
  {
    var next := if left > 0 && Eligible(rows[0], q) then left - 1 else left;
    assert ClaimRows(rows, q, left)[j] == ClaimRows(rows[1..], q, next)[j - 1];
    if i > 0 {
      ClaimsOldestFirst(rows[1..], q, next, i - 1, j - 1);
    } else if left == 0 {
      NothingClaimed(rows, q);
    }
  }

  lemma {:induction false} NothingClaimed(rows: seq<Row>, q: ClaimQuery)
    ensures ClaimRows(rows, q, 0) == rows
  {
    if rows != [] { NothingClaimed(rows[1..], q); }
  }

  // ---------------------------------------------------------------- reporting

  /** A write decided from a row that was read, still to be carried out. */
  datatype Write = Write(id: string, claimedBy: string, next: Status, payload: string, error: string,
                         startedAt: Option<int>, finishedAt: Option<int>)

  datatype Reading = Proceed(write: Write) | Done | Stop(error: Error)

  function ReadReport(rows: seq<Row>, req: ReportRequest, now: int): Reading {
    var id := TrimSpace(req.id);
    var who := TrimSpace(req.claimedBy);
    if req.host <= 0 || id == "" || who == "" then Stop(Invalid)
    else
      var k := Find(rows, id);
      if k == |rows| then Stop(NotFound)
      else if rows[k].host != req.host || TrimSpace(rows[k].claimedBy) != who then Stop(Forbidden)
      else if ReportStatus(req).None? || req.payload.None? then Stop(Invalid)
      else
        var next := ReportStatus(req).value;
        var error := TrimSpace(req.error);
        if Terminal(rows[k].status) then
          if rows[k].status == next && TrimSpace(rows[k].error) == error && rows[k].payload == req.payload.value
          then Done else Stop(Invalid)
        else if !CanTransition(rows[k].status, next) then Stop(Invalid)
        else
          var at := if req.occurredAt == 0 then now else req.occurredAt;
          var startedAt := if next.InProgress? && rows[k].startedAt.None? then Some(at) else rows[k].startedAt;
          var finishedAt := if Terminal(next) then Some(at) else rows[k].finishedAt;
          Proceed(Write(id, who, next, req.payload.value, error, startedAt, finishedAt))
  }

  /** UpdateClaimedStatus touches a row only if it is still held and not terminal. */
  predicate Lands(rows: seq<Row>, w: Write) {
    var k := Find(rows, w.id);
    k < |rows| && rows[k].claimedBy == w.claimedBy && !Terminal(rows[k].status)
  }

  function Apply(rows: seq<Row>, w: Write): seq<Row>
    requires Lands(rows, w)
  {
    var k := Find(rows, w.id);
    rows[k := rows[k].(status := w.next, payload := w.payload, error := w.error,
                       startedAt := w.startedAt, finishedAt := w.finishedAt)]
  }

  function ReportAtomically(rows: seq<Row>, req: ReportRequest, now: int): (seq<Row>, Outcome) {
    match ReadReport(rows, req, now)
    case Done => (rows, AlreadyDone)
    case Stop(e) => (rows, Refused(e))
    case Proceed(w) => if Lands(rows, w) then (Apply(rows, w), Accepted) else (rows, Refused(NotFound))
  }

  // ---------------------------------------------------------------- the service

  class LifecycleService {
    var rows: seq<Row>

    constructor ()
      ensures rows == []
    {
      rows := [];
    }

    /** Adds one pending row; idle is the answer of the operation guard. */
    method Create(id: string, host: int, opType: string, known: set<string>, destructive: set<string>,
                  idle: bool, payload: Option<string>, now: int) returns (ok: bool)
      requires Find(rows, id) == |rows|
      modifies this
      ensures ok <==> TrimSpace(opType) in known && host > 0 && payload.Some? && (TrimSpace(opType) in destructive ==> idle)
      ensures rows == if ok then InsertRow(old(rows), Row(id, host, TrimSpace(opType), Pending, "", None, None, None, "{}", "", now))
                      else old(rows)
    {
      var normalized := TrimSpace(opType);
      if normalized !in known || host <= 0 || payload.None? {
        return false;
      }
      if normalized in destructive && !idle {
        return false;
      }
      rows := InsertRow(rows, Row(id, host, normalized, Pending, "", None, None, None, "{}", "", now));
      ok := true;
    }

    /** One claim transaction over the table. */
    method ClaimNext(req: ClaimRequest, known: set<string>, now: int, timeout: nat)
      returns (claimed: seq<Row>, error: Option<Error>)
      modifies this
      ensures match PrepareClaim(req, known, now, timeout)
              case Reject(e) => rows == old(rows) && claimed == [] && error == Some(e)
              case Query(q) =>
                && rows == ClaimRows(old(rows), q, q.limit)
                && claimed == ClaimedRows(old(rows), q, q.limit)
                && error == if claimed == [] then Some(NotFound) else None
    {
      claimed := [];
      var prepared := PrepareClaim(req, known, now, timeout);
      if prepared.Reject? {
        return [], Some(prepared.error);
      }
      var q := prepared.q;
      rows, claimed := ClaimPass(rows, q);
      error := if claimed == [] then Some(NotFound) else None;
    }

    /** A report whose read and write are not interleaved with anything. */
    method Report(req: ReportRequest, now: int) returns (r: Outcome)
      modifies this
      ensures (rows, r) == ReportAtomically(old(rows), req, now)
    {
      var reading := ReadReport(rows, req, now);
      match reading
      case Stop(e) => r := Refused(e);
      case Done => r := AlreadyDone;
      case Proceed(w) =>
        if Lands(rows, w) {
          rows := Apply(rows, w);
          r := Accepted;
        } else {
          r := Refused(NotFound);
        }
    }
  }

  /** The selection and the update of one claim, oldest row first. */
  method ClaimPass(rows: seq<Row>, q: ClaimQuery) returns (out: seq<Row>, claimed: seq<Row>)
    ensures out == ClaimRows(rows, q, q.limit) && claimed == ClaimedRows(rows, q, q.limit)
  {
    out, claimed := [], [];
    var left: nat := q.limit;
    for k := 0 to |rows|
      invariant out + ClaimRows(rows[k..], q, left) == ClaimRows(rows, q, q.limit)
      invariant claimed + ClaimedRows(rows[k..], q, left) == ClaimedRows(rows, q, q.limit)
    {
      assert rows[k..][0] == rows[k] && rows[k..][1..] == rows[k + 1..];
      ghost var wereOut, wereClaimed, wasLeft := out, claimed, left;
      if left > 0 && Eligible(rows[k], q) {
        var r := ClaimRow(rows[k], q);
        out, claimed, left := out + [r], claimed + [r], left - 1;
      } else {
        out := out + [rows[k]];
      }
      assert wereOut + ClaimRows(rows[k..], q, wasLeft) == out + ClaimRows(rows[k + 1..], q, left);
      assert wereClaimed + ClaimedRows(rows[k..], q, wasLeft) == claimed + ClaimedRows(rows[k + 1..], q, left);
    }
    assert rows[|rows|..] == [];
  }

  lemma {:induction false} FindByKeys(a: seq<Row>, b: seq<Row>, id: string)
    requires |a| == |b| && forall i :: 0 <= i < |a| ==> a[i].id == b[i].id
    ensures Find(a, id) == Find(b, id)
  {
    if a != [] { FindByKeys(a[1..], b[1..], id); }
  }

  /** Redelivery: an accepted terminal report, sent again, succeeds and changes
      nothing; any other report on that operation changes nothing either. */
  lemma TerminalReportIsIdempotent(rows: seq<Row>, req: ReportRequest, now: int, later: int)
    requires ReportAtomically(rows, req, now).1.Accepted? && Terminal(ReportStatus(req).value)
    ensures var rows' := ReportAtomically(rows, req, now).0;
            && ReportAtomically(rows', req, later) == (rows', AlreadyDone)
            && forall other: ReportRequest :: TrimSpace(other.id) == TrimSpace(req.id) ==>
                 ReportAtomically(rows', other, later).0 == rows'
  {
    var w := ReadReport(rows, req, now).write;
    var rows' := Apply(rows, w);
    var k := Find(rows, w.id);
    FindByKeys(rows, rows', w.id);
    assert Terminal(rows'[k].status) && Find(rows', w.id) == k;
    forall other: ReportRequest | TrimSpace(other.id) == TrimSpace(req.id) ensures ReportAtomically(rows', other, later).0 == rows' {
      assert !ReadReport(rows', other, later).Proceed?;
    }
    SameReportIsDone(rows, req, now, later);
  }

  /** A report that finds its own outcome on record. */
  lemma SameReportIsDone(rows: seq<Row>, req: ReportRequest, now: int, later: int)
    requires ReportAtomically(rows, req, now).1.Accepted? && Terminal(ReportStatus(req).value)
    ensures ReadReport(ReportAtomically(rows, req, now).0, req, later) == Done
  {
    var w := ReadReport(rows, req, now).write;
    FindByKeys(rows, Apply(rows, w), w.id);
    TrimSpaceSound(req.error);
    TrimmedIsFixed(TrimSpace(req.error));
  }

  // ---------------------------------------------------------------- interleavings

  /** One write that touched its row. */
  datatype Entry = Entry(id: string, claimedBy: string, next: Status)

  datatype System = System(rows: seq<Row>, inFlight: seq<Write>, log: seq<Entry>)

  datatype Event =
    | New(row: Row)
    | Claim(q: ClaimQuery)
    | Read(req: ReportRequest, now: int)
    | Land(k: nat)

  predicate Enabled(s: System, e: Event) {
    match e
    case New(r) => Find(s.rows, r.id) == |s.rows| && r.status.Pending? && r.claimedBy == "" && r.finishedAt.None?
    case Claim(q) => q.claimedBy != "" && Trimmed(q.claimedBy) && q.statuses <= {Pending, Claimed} && 1 <= q.limit <= MAX_CLAIM
    case Read(_, _) => true
    case Land(k) => k < |s.inFlight|
  }

  function Step(s: System, e: Event): System
    requires Enabled(s, e)
  {
    match e
    case New(r) => s.(rows := InsertRow(s.rows, r))
    case Claim(q) => s.(rows := ClaimRows(s.rows, q, q.limit))
    case Read(req, now) =>
      var reading := ReadReport(s.rows, req, now);
      if reading.Proceed? then s.(inFlight := s.inFlight + [reading.write]) else s
    case Land(k) =>
      var w := s.inFlight[k];
      var s' := s.(inFlight := s.inFlight[..k] + s.inFlight[k + 1..]);
      if Lands(s.rows, w) then s'.(rows := Apply(s.rows, w), log := s.log + [Entry(w.id, w.claimedBy, w.next)]) else s'
  }

  /** Every query the service prepares is one the interleaving model admits. */
  lemma PreparedClaimsAreEnabled(s: System, req: ClaimRequest, known: set<string>, now: int, timeout: nat)
    requires PrepareClaim(req, known, now, timeout).Query?
    ensures Enabled(s, Claim(PrepareClaim(req, known, now, timeout).q))
  {
    TrimSpaceSound(req.claimedBy);
    NamedStatusesClaimable(req.statuses);
  }

  ghost predicate CanRun(s: System, es: seq<Event>)
    decreases |es|
  {
    es == [] || (Enabled(s, es[0]) && CanRun(Step(s, es[0]), es[1..]))
  }

  ghost function Run(s: System, es: seq<Event>): System
    requires CanRun(s, es)
    decreases |es|
  {
    if es == [] then s else Run(Step(s, es[0]), es[1..])
  }

  const EMPTY: System := System([], [], [])

  ghost predicate RowsOk(rows: seq<Row>) {
    && UniqueIds(rows)
    && (forall i :: 0 <= i < |rows| ==> RowOk(rows[i]))
  }

  predicate RowOk(r: Row) {
    && (r.finishedAt.Some? <==> Terminal(r.status))
    && (r.claimedBy == "" <==> r.status.Pending?)
  }

  ghost predicate WritesOk(ws: seq<Write>) {
    forall k :: 0 <= k < |ws| ==>
      && ws[k].claimedBy != "" && !ws[k].next.Pending?
      && (ws[k].finishedAt.Some? <==> Terminal(ws[k].next))
  }

  /** What holds over every interleaving, whatever the reports carry. */
  ghost predicate Ok(s: System) {
    RowsOk(s.rows) && WritesOk(s.inFlight)
  }

  lemma InsertKeepsRows(rows: seq<Row>, r: Row, k: nat)
    requires RowsOk(rows) && RowOk(r) && k <= |rows| && forall i :: 0 <= i < |rows| ==> rows[i].id != r.id
    ensures RowsOk(rows[..k] + [r] + rows[k..])
  {
    var out := rows[..k] + [r] + rows[k..];
    InsertKeepsUnique(rows, r, k);
    assert forall i :: 0 <= i < |out| ==> out[i] == if i < k then rows[i] else if i == k then r else rows[i - 1];
  }

  lemma InsertKeepsUnique(rows: seq<Row>, r: Row, k: nat)
    requires UniqueIds(rows) && k <= |rows| && forall i :: 0 <= i < |rows| ==> rows[i].id != r.id
    ensures UniqueIds(rows[..k] + [r] + rows[k..])
  {
    var out := rows[..k] + [r] + rows[k..];
    forall i, j | 0 <= i < j < |out| ensures out[i].id != out[j].id {
      var a, b := if i < k then i else i - 1, if j < k then j else j - 1;
      if i != k && j != k {
        assert out[i] == rows[a] && out[j] == rows[b] && a < b;
      }
    }
  }

  lemma ClaimKeepsRows(rows: seq<Row>, q: ClaimQuery, left: nat)
    requires RowsOk(rows) && q.claimedBy != "" && q.statuses <= {Pending, Claimed}
    ensures RowsOk(ClaimRows(rows, q, left))
  {
    ClaimRowsPointwise(rows, q, left);
  }

  lemma ApplyKeepsRows(rows: seq<Row>, w: Write)
    requires RowsOk(rows) && WritesOk([w]) && Lands(rows, w)
    ensures RowsOk(Apply(rows, w))
  {
    assert [w][0] == w;
  }

  lemma ReadIsOk(rows: seq<Row>, req: ReportRequest, now: int)
    requires RowsOk(rows) && ReadReport(rows, req, now).Proceed?
    ensures WritesOk([ReadReport(rows, req, now).write])
  {
    ReportStatusMeaning(req);
  }

  lemma StepKeepsOk(s: System, e: Event)
    requires Ok(s) && Enabled(s, e)
    ensures Ok(Step(s, e))
  {
    match e
    case New(r) =>
      var k := InsertedAt(s.rows, r);
      InsertKeepsRows(s.rows, r, k);
    case Claim(q) => ClaimKeepsRows(s.rows, q, q.limit);
    case Read(req, now) =>
      if ReadReport(s.rows, req, now).Proceed? {
        ReadIsOk(s.rows, req, now);
        assert [ReadReport(s.rows, req, now).write][0] == ReadReport(s.rows, req, now).write;
      }
    case Land(k) =>
      assert WritesOk([s.inFlight[k]]);
      if Lands(s.rows, s.inFlight[k]) {
        ApplyKeepsRows(s.rows, s.inFlight[k]);
      }
  }

  /** Terminal rows are frozen: no event changes them, over all interleavings. */
  lemma TerminalRowsAreFrozen(s: System, e: Event, r: Row)
    requires Ok(s) && Enabled(s, e)
    requires r in s.rows && Terminal(r.status)
    ensures r in Step(s, e).rows
  {
    var i: nat :| i < |s.rows| && s.rows[i] == r;
    match e
    case New(n) => InsertKeepsRow(s.rows, n, i);
    case Claim(q) => ClaimKeepsTerminal(s.rows, q, i);
    case Read(req, now) =>
    case Land(k) => if Lands(s.rows, s.inFlight[k]) { LandKeepsTerminal(s.rows, s.inFlight[k], i); }
  }

  lemma InsertKeepsRow(rows: seq<Row>, r: Row, i: nat)
    requires i < |rows|
    ensures rows[i] in InsertRow(rows, r)
  {
    var k := InsertedAt(rows, r);
    assert InsertRow(rows, r)[if i < k then i else i + 1] == rows[i];
  }

  lemma ClaimKeepsTerminal(rows: seq<Row>, q: ClaimQuery, i: nat)
    requires i < |rows| && Terminal(rows[i].status) && q.statuses <= {Pending, Claimed}
    ensures rows[i] in ClaimRows(rows, q, q.limit)
  {
    ClaimRowsPointwise(rows, q, q.limit);
    assert !Eligible(rows[i], q);
    assert ClaimRows(rows, q, q.limit)[i] == rows[i];
  }

  lemma LandKeepsTerminal(rows: seq<Row>, w: Write, i: nat)
    requires i < |rows| && Terminal(rows[i].status) && Lands(rows, w)
    ensures rows[i] in Apply(rows, w)
  {
    assert Apply(rows, w)[i] == rows[i];
  }

  /** A late "accepted" report about to overwrite "in_progress": the write checks
      who holds the row, not the status it was decided from. */
  predicate Demotes(s: System, e: Event) {
    && e.Land? && e.k < |s.inFlight|
    && var w := s.inFlight[e.k];
       Lands(s.rows, w) && w.next.Claimed? && s.rows[Find(s.rows, w.id)].status.InProgress?
  }

  ghost predicate NoDemotion(s: System, es: seq<Event>)
    requires CanRun(s, es)
    decreases |es|
  {
    es != [] ==> !Demotes(s, es[0]) && NoDemotion(Step(s, es[0]), es[1..])
  }

  predicate Fell(before: Row, after: Row) {
    before.id == after.id && Rank(after.status) < Rank(before.status)
  }

  ghost predicate SomeRowFell(rows: seq<Row>, rows': seq<Row>) {
    exists i, j :: 0 <= i < |rows| && 0 <= j < |rows'| && Fell(rows[i], rows'[j])
  }

  /** Row by row is enough when rows keep their places and ids. */
  lemma NoneFell(rows: seq<Row>, rows': seq<Row>)
    requires UniqueIds(rows) && |rows| == |rows'|
    requires forall i :: 0 <= i < |rows| ==> rows[i].id == rows'[i].id && !Fell(rows[i], rows'[i])
    ensures !SomeRowFell(rows, rows')
  {
    forall i, j | 0 <= i < |rows| && 0 <= j < |rows'| ensures !Fell(rows[i], rows'[j]) {
      assert i < j ==> rows[i].id != rows[j].id;
      assert j < i ==> rows[j].id != rows[i].id;
    }
  }

  lemma InsertDemotesNone(rows: seq<Row>, r: Row)
    requires UniqueIds(rows) && forall i :: 0 <= i < |rows| ==> rows[i].id != r.id
    ensures !SomeRowFell(rows, InsertRow(rows, r))
  {
    var k := InsertedAt(rows, r);
    NoneFell(rows, rows);
    var rows' := InsertRow(rows, r);
    forall i, j | 0 <= i < |rows| && 0 <= j < |rows'| ensures !Fell(rows[i], rows'[j]) {
      if j != k {
        var m := if j < k then j else j - 1;
        assert rows'[j] == rows[m];
        assert !Fell(rows[i], rows[m]);
      }
    }
  }

  lemma ClaimDemotesNone(rows: seq<Row>, q: ClaimQuery)
    requires UniqueIds(rows) && q.statuses <= {Pending, Claimed}
    ensures !SomeRowFell(rows, ClaimRows(rows, q, q.limit))
  {
    ClaimRowsPointwise(rows, q, q.limit);
    NoneFell(rows, ClaimRows(rows, q, q.limit));
  }

  lemma LandDemotes(rows: seq<Row>, w: Write)
    requires UniqueIds(rows) && WritesOk([w]) && Lands(rows, w) && RowsOk(rows)
    ensures SomeRowFell(rows, Apply(rows, w)) <==> w.next.Claimed? && rows[Find(rows, w.id)].status.InProgress?
  {
    var n, rows' := Find(rows, w.id), Apply(rows, w);
    assert [w][0] == w && RowOk(rows[n]);
    if w.next.Claimed? && rows[n].status.InProgress? {
      assert Fell(rows[n], rows'[n]);
    } else {
      assert !Fell(rows[n], rows'[n]);
      NoneFell(rows, rows');
    }
  }

  /** The rank of a row falls in a step iff the step is a demotion. */
  lemma RankFallsOnlyByDemotion(s: System, e: Event)
    requires Ok(s) && Enabled(s, e)
    ensures Demotes(s, e) <==> SomeRowFell(s.rows, Step(s, e).rows)
  {
    match e
    case New(r) => InsertDemotesNone(s.rows, r);
    case Claim(q) => ClaimDemotesNone(s.rows, q);
    case Read(_, _) => NoneFell(s.rows, s.rows);
    case Land(k) =>
      var w := s.inFlight[k];
      if Lands(s.rows, w) {
        assert WritesOk([w]);
        LandDemotes(s.rows, w);
      } else {
        NoneFell(s.rows, s.rows);
      }
  }

  predicate Holds(r: Row, e: Entry) { r.id == e.id && r.claimedBy == e.claimedBy && Rank(r.status) >= 2 }

  ghost predicate Held(rows: seq<Row>, e: Entry) {
    exists k :: 0 <= k < |rows| && Holds(rows[k], e)
  }

  /** Whoever ran an operation still holds it, and it is past claiming. */
  ghost predicate ExecutorsHold(s: System) {
    forall i :: 0 <= i < |s.log| && !s.log[i].next.Claimed? ==> Held(s.rows, s.log[i])
  }

  lemma LandKeepsHolder(rows: seq<Row>, w: Write, i: nat, x: Entry)
    requires RowsOk(rows) && WritesOk([w]) && Lands(rows, w) && i < |rows| && Holds(rows[i], x)
    requires !(w.next.Claimed? && rows[Find(rows, w.id)].status.InProgress?)
    ensures Holds(Apply(rows, w)[i], x)
  {
    assert [w][0] == w;
    assert i != Find(rows, w.id) ==> Apply(rows, w)[i] == rows[i];
  }

  lemma HeldAt(rows: seq<Row>, i: nat, x: Entry)
    requires i < |rows| && Holds(rows[i], x)
    ensures Held(rows, x)
  {
  }

  lemma InsertKeepsHeld(rows: seq<Row>, r: Row, i: nat, x: Entry)
    requires i < |rows| && Holds(rows[i], x)
    ensures Held(InsertRow(rows, r), x)
  {
    var k := InsertedAt(rows, r);
    var j := if i < k then i else i + 1;
    assert InsertRow(rows, r)[j] == rows[i];
    HeldAt(InsertRow(rows, r), j, x);
  }

  lemma ClaimKeepsHeld(rows: seq<Row>, q: ClaimQuery, i: nat, x: Entry)
    requires i < |rows| && Holds(rows[i], x) && q.statuses <= {Pending, Claimed}
    ensures Held(ClaimRows(rows, q, q.limit), x)
  {
    ClaimRowsPointwise(rows, q, q.limit);
    assert !Eligible(rows[i], q);
    HeldAt(ClaimRows(rows, q, q.limit), i, x);
  }

  lemma HeldStays(s: System, e: Event, x: Entry)
    requires Ok(s) && Enabled(s, e) && !Demotes(s, e) && Held(s.rows, x)
    ensures Held(Step(s, e).rows, x)
  {
    var i: nat :| i < |s.rows| && Holds(s.rows[i], x);
    match e
    case New(r) => InsertKeepsHeld(s.rows, r, i, x);
    case Claim(q) => ClaimKeepsHeld(s.rows, q, i, x);
    case Read(_, _) =>
    case Land(k) =>
      var w := s.inFlight[k];
      assert WritesOk([w]);
      if Lands(s.rows, w) {
        LandKeepsHolder(s.rows, w, i, x);
        HeldAt(Apply(s.rows, w), i, x);
      }
  }

  lemma StepKeepsExecutors(s: System, e: Event)
    requires Ok(s) && ExecutorsHold(s) && Enabled(s, e) && !Demotes(s, e)
    ensures ExecutorsHold(Step(s, e))
  {
    var s' := Step(s, e);
    forall i | 0 <= i < |s'.log| && !s'.log[i].next.Claimed? ensures Held(s'.rows, s'.log[i]) {
      if i < |s.log| {
        HeldStays(s, e, s.log[i]);
      } else {
        var w := s.inFlight[e.k];
        var n := Find(s.rows, w.id);
        assert Holds(s'.rows[n], s'.log[i]);
      }
    }
  }

  lemma {:induction false} RunKeepsExecutors(s: System, es: seq<Event>)
    requires Ok(s) && ExecutorsHold(s) && CanRun(s, es) && NoDemotion(s, es)
    ensures Ok(Run(s, es)) && ExecutorsHold(Run(s, es))
    decreases |es|
  {
    if es != [] {
      StepKeepsOk(s, es[0]);
      StepKeepsExecutors(s, es[0]);
      RunKeepsExecutors(Step(s, es[0]), es[1..]);
    }
  }

  /** At most one claimant ever runs an operation, over every interleaving of
      creations, claims, reclaims, report reads and report writes in which no
      late "accepted" lands on a running operation. */
  lemma SingleExecutor(es: seq<Event>, i: nat, j: nat)
    requires CanRun(EMPTY, es) && NoDemotion(EMPTY, es)
    requires var log := Run(EMPTY, es).log;
             i < |log| && j < |log| && log[i].id == log[j].id && !log[i].next.Claimed? && !log[j].next.Claimed?
    ensures Run(EMPTY, es).log[i].claimedBy == Run(EMPTY, es).log[j].claimedBy
  {
    RunKeepsExecutors(EMPTY, es);
    var s := Run(EMPTY, es);
    assert Held(s.rows, s.log[i]) && Held(s.rows, s.log[j]);
    var m :| 0 <= m < |s.rows| && Holds(s.rows[m], s.log[i]);
    var n :| 0 <= n < |s.rows| && Holds(s.rows[n], s.log[j]);
    assert m == n;
  }

  /** A report whose write follows its read at once never demotes, so a panel
      that handles reports on one operation one at a time is safe. */
  lemma ReadThenLandNeverDemotes(s: System, req: ReportRequest, now: int)
    requires Ok(s)
    ensures var s' := Step(s, Read(req, now));
            ReadReport(s.rows, req, now).Proceed? ==> Enabled(s', Land(|s.inFlight|)) && !Demotes(s', Land(|s.inFlight|))
  {
  }
}
