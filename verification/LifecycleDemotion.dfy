/** What a demotion leads to: a second agent runs an operation that another one has
    already run. */
module LifecycleDemotion {
  import opened Text
  import opened LifecycleOperation

  lemma RunCons(s: System, e: Event, es: seq<Event>)
    requires Enabled(s, e) && CanRun(Step(s, e), es)
    ensures CanRun(s, [e] + es) && Run(s, [e] + es) == Run(Step(s, e), es)
  {
    assert ([e] + es)[1..] == es;
  }

  lemma {:induction false} RunAppend(s: System, a: seq<Event>, b: seq<Event>)
    requires CanRun(s, a) && CanRun(Run(s, a), b)
    ensures CanRun(s, a + b) && Run(s, a + b) == Run(Run(s, a), b)
    decreases |a|
  {
    if a == [] {
      assert a + b == b;
    } else {
      assert (a + b)[1..] == a[1..] + b;
      RunAppend(Step(s, a[0]), a[1..], b);
    }
  }

  /** In every reachable state a row past claiming has an executor on record. */
  ghost predicate ExecutorsLogged(s: System) {
    forall i :: 0 <= i < |s.rows| && Rank(s.rows[i].status) >= 2 ==> HasRun(s.log, s.rows[i].id, s.rows[i].claimedBy)
  }

  ghost predicate HasRun(log: seq<Entry>, id: string, who: string) {
    exists n :: 0 <= n < |log| && log[n].id == id && log[n].claimedBy == who && !log[n].next.Claimed?
  }

  lemma HasRunStays(log: seq<Entry>, x: Entry, id: string, who: string)
    requires HasRun(log, id, who) || (x.id == id && x.claimedBy == who && !x.next.Claimed?)
    ensures HasRun(log + [x], id, who)
  {
    if HasRun(log, id, who) {
      var n :| 0 <= n < |log| && log[n].id == id && log[n].claimedBy == who && !log[n].next.Claimed?;
      assert (log + [x])[n] == log[n];
    } else {
      assert (log + [x])[|log|] == x;
    }
  }

  lemma StepKeepsLogged(s: System, e: Event)
    requires Ok(s) && ExecutorsLogged(s) && Enabled(s, e)
    ensures ExecutorsLogged(Step(s, e))
  {
    match e
    case New(r) => var k := InsertedAt(s.rows, r);
    case Claim(q) => ClaimRowsPointwise(s.rows, q, q.limit);
    case Read(_, _) =>
    case Land(k) =>
      var w := s.inFlight[k];
      if Lands(s.rows, w) {
        var s' := Step(s, e);
        forall i | 0 <= i < |s'.rows| && Rank(s'.rows[i].status) >= 2
          ensures HasRun(s'.log, s'.rows[i].id, s'.rows[i].claimedBy)
        {
          assert i != Find(s.rows, w.id) ==> s'.rows[i] == s.rows[i];
          HasRunStays(s.log, Entry(w.id, w.claimedBy, w.next), s'.rows[i].id, s'.rows[i].claimedBy);
        }
      }
  }

  lemma {:induction false} RunKeepsLogged(s: System, es: seq<Event>)
    requires Ok(s) && ExecutorsLogged(s) && CanRun(s, es)
    ensures Ok(Run(s, es)) && ExecutorsLogged(Run(s, es))
    decreases |es|
  {
    if es != [] {
      StepKeepsOk(s, es[0]);
      StepKeepsLogged(s, es[0]);
      RunKeepsLogged(Step(s, es[0]), es[1..]);
    }
  }

  /** How many rows a query could still claim. */
  function Waiting(rows: seq<Row>, q: ClaimQuery): nat {
    if rows == [] then 0 else (if Eligible(rows[0], q) then 1 else 0) + Waiting(rows[1..], q)
  }

  /** A claim of one row leaves one row less to claim. */
  lemma {:induction false} ClaimOne(rows: seq<Row>, q: ClaimQuery, n: nat)
    requires n < |rows| && Eligible(rows[n], q) && q.reclaimBefore < q.now
    ensures var out := ClaimRows(rows, q, 1);
            && Waiting(out, q) == Waiting(rows, q) - 1
            && (out[n] == rows[n] || out[n] == ClaimRow(rows[n], q))
            && forall i :: 0 <= i < |rows| ==> out[i].id == rows[i].id
  {
    if Eligible(rows[0], q) {
      NothingClaimed(rows[1..], q);
      assert !Eligible(ClaimRow(rows[0], q), q);
      assert ClaimRows(rows, q, 1) == [ClaimRow(rows[0], q)] + rows[1..];
    } else {
      ClaimOne(rows[1..], q, n - 1);
      assert ClaimRows(rows, q, 1) == [rows[0]] + ClaimRows(rows[1..], q, 1);
    }
  }

  /** Claiming one row at a time gets to any eligible row, however many are older. */
  lemma {:induction false} ClaimUntil(s: System, q: ClaimQuery, n: nat) returns (es: seq<Event>)
    requires Enabled(s, Claim(q)) && q.limit == 1 && q.reclaimBefore < q.now
    requires n < |s.rows| && Eligible(s.rows[n], q)
    ensures CanRun(s, es) && forall e :: e in es ==> e == Claim(q)
    ensures Run(s, es).inFlight == s.inFlight && Run(s, es).log == s.log
    ensures |Run(s, es).rows| == |s.rows| && Run(s, es).rows[n] == ClaimRow(s.rows[n], q)
    ensures forall i :: 0 <= i < |s.rows| ==> Run(s, es).rows[i].id == s.rows[i].id
    decreases Waiting(s.rows, q)
  {
    ClaimOne(s.rows, q, n);
    var s1 := Step(s, Claim(q));
    if s1.rows[n] == ClaimRow(s.rows[n], q) {
      es := [];
    } else {
      es := ClaimUntil(s1, q, n);
    }
    RunCons(s, Claim(q), es);
    es := [Claim(q)] + es;
  }

  function ProgressOf(r: Row, now: int): ReportRequest {
    ReportRequest(r.host, r.id, r.claimedBy, "progress", "", false, Some("{}"), "", now)
  }

  /** A claimant's progress report, read and written, runs the operation. */
  lemma ProgressLands(s: System, n: nat, now: int)
    requires n < |s.rows| && n == Find(s.rows, s.rows[n].id) && s.rows[n].status.Claimed?
    requires s.rows[n].host > 0 && s.rows[n].id != "" && Trimmed(s.rows[n].id)
    requires s.rows[n].claimedBy != "" && Trimmed(s.rows[n].claimedBy)
    ensures var es := [Read(ProgressOf(s.rows[n], now), now)] + ([Land(|s.inFlight|)] + []);
            CanRun(s, es) && Run(s, es).log == s.log + [Entry(s.rows[n].id, s.rows[n].claimedBy, InProgress)]
  {
    var r, req, last := s.rows[n], ProgressOf(s.rows[n], now), Land(|s.inFlight|);
    TrimmedIsFixed(r.id);
    TrimmedIsFixed(r.claimedBy);
    TrimmedIsFixed("");
    TrimmedIsFixed("progress");
    assert ReportStatus(req) == Some(InProgress);
    var s1 := Step(s, Read(req, now));
    var s2 := Step(s1, last);
    assert s2.log == s.log + [Entry(r.id, r.claimedBy, InProgress)];
    RunCons(s1, last, []);
    RunCons(s, Read(req, now), [last] + []);
  }

  // ---------------------------------------------------------------- reclaiming

  /** Another agent's claim request that covers this row. */
  function ReclaimRequest(r: Row, other: string): ClaimRequest {
    ClaimRequest(r.host, other, ["claimed"], [r.opType], 1)
  }

  function ReclaimQuery(r: Row, other: string, now: int, timeout: nat): ClaimQuery {
    ClaimQuery(r.host, other, {Claimed}, {r.opType}, now, now - timeout, 1)
  }

  /** The service could hand this row to the other agent now if it were in state claimed:
      the claim has timed out. */
  predicate ClaimIsOld(r: Row, other: string, known: set<string>, now: int, timeout: nat) {
    && r.claimedBy != other && r.claimedAt.Some? && r.claimedAt.value <= now - timeout
    && r.host > 0 && r.id != "" && Trimmed(r.id) && r.opType in known && Trimmed(r.opType)
  }

  /** The query is the one the service computes for that request. */
  lemma ReclaimIsPrepared(r: Row, other: string, known: set<string>, now: int, timeout: nat)
    requires other != "" && Trimmed(other) && r.host > 0 && r.opType in known && Trimmed(r.opType)
    ensures PrepareClaim(ReclaimRequest(r, other), known, now, timeout) == Query(ReclaimQuery(r, other, now, timeout))
  {
    TrimmedIsFixed(other);
    TrimmedIsFixed(r.opType);
    ClaimedByName();
    assert (set a | a in [r.opType] :: TrimSpace(a)) * known == {r.opType};
  }

  lemma ClaimedByName()
    ensures ClaimStatuses(["claimed"]) == Some({Claimed})
  {
    TrimmedIsFixed("claimed");
    assert ["claimed"][1..] == [] && "claimed"[0] != "pending"[0];
    assert NamedStatuses([]) == Some({});
    assert {Claimed} + {} == {Claimed};
  }

  /** Every claim of the run is one the service computes for some request. */
  ghost predicate Prepared(es: seq<Event>, known: set<string>, timeout: nat) {
    forall i :: 0 <= i < |es| && es[i].Claim? ==> IsPrepared(es[i].q, known, timeout)
  }

  ghost predicate IsPrepared(q: ClaimQuery, known: set<string>, timeout: nat) {
    exists req, now :: PrepareClaim(req, known, now, timeout) == Query(q)
  }

  /** After a demotion the other agent claims the row, whatever older rows wait, and its
      progress report makes it run the operation. */
  lemma SecondRun(s: System, e: Event, other: string, known: set<string>, now: int, timeout: nat) returns (es: seq<Event>)
    requires Ok(s) && Demotes(s, e) && other != "" && Trimmed(other) && timeout > 0
    requires ClaimIsOld(s.rows[Find(s.rows, s.inFlight[e.k].id)], other, known, now, timeout)
    ensures CanRun(s, es) && Prepared(es, known, timeout)
    ensures Run(s, es).log == s.log + [Entry(s.inFlight[e.k].id, s.inFlight[e.k].claimedBy, Claimed)]
                              + [Entry(s.inFlight[e.k].id, other, InProgress)]
  {
    var w := s.inFlight[e.k];
    var n := Find(s.rows, w.id);
    var r, s1 := s.rows[n], Step(s, e);
    FindByKeys(s.rows, s1.rows, w.id);
    var q := ReclaimQuery(r, other, now, timeout);
    ReclaimIsPrepared(r, other, known, now, timeout);
    PreparedClaimsAreEnabled(s1, ReclaimRequest(r, other), known, now, timeout);
    var claims, tail := Retake(s1, n, q);
    RunCons(s, e, claims + tail);
    es := [e] + (claims + tail);
    ClaimsArePrepared(e, claims, tail, q, known, timeout);
  }

  lemma ClaimsArePrepared(e: Event, claims: seq<Event>, tail: seq<Event>, q: ClaimQuery, known: set<string>, timeout: nat)
    requires !e.Claim? && IsPrepared(q, known, timeout) && (forall x :: x in claims ==> x == Claim(q))
    requires forall x :: x in tail ==> !x.Claim?
    ensures Prepared([e] + (claims + tail), known, timeout)
  {
    var es := [e] + (claims + tail);
    assert forall x :: x in es ==> x == e || x in claims || x in tail;
    forall i | 0 <= i < |es| && es[i].Claim? ensures IsPrepared(es[i].q, known, timeout) {
      assert es[i] in es;
    }
  }

  /** From the demoted row on: claims until the other agent holds it, then its progress. */
  lemma Retake(s: System, n: nat, q: ClaimQuery) returns (claims: seq<Event>, tail: seq<Event>)
    requires Enabled(s, Claim(q)) && q.limit == 1 && q.reclaimBefore < q.now
    requires n < |s.rows| && Eligible(s.rows[n], q) && Find(s.rows, s.rows[n].id) == n
    requires s.rows[n].host > 0 && s.rows[n].id != "" && Trimmed(s.rows[n].id)
    ensures (forall x :: x in claims ==> x == Claim(q)) && (forall x :: x in tail ==> !x.Claim?)
    ensures CanRun(s, claims + tail) && Run(s, claims + tail).log == s.log + [Entry(s.rows[n].id, q.claimedBy, InProgress)]
  {
    claims := ClaimUntil(s, q, n);
    var t := Run(s, claims);
    FindByKeys(s.rows, t.rows, s.rows[n].id);
    ProgressLands(t, n, q.now);
    tail := [Read(ProgressOf(t.rows[n], q.now), q.now)] + ([Land(|t.inFlight|)] + []);
    RunAppend(s, claims, tail);
  }

  /** The condition of SingleExecutor is needed wherever it fails: from every reachable
      state with a demotion about to land, once the claim has timed out, a run leads to
      a log in which both the holder and another agent have run the operation. */
  lemma DemotionMakesTwoExecutors(es: seq<Event>, e: Event, other: string, known: set<string>, now: int, timeout: nat)
    requires CanRun(EMPTY, es) && Demotes(Run(EMPTY, es), e) && other != "" && Trimmed(other) && timeout > 0
    requires var s := Run(EMPTY, es); ClaimIsOld(s.rows[Find(s.rows, s.inFlight[e.k].id)], other, known, now, timeout)
    ensures exists fs :: CanRun(EMPTY, es + fs) && Prepared(fs, known, timeout)
              && RunBy(Run(EMPTY, es + fs).log, Run(EMPTY, es).inFlight[e.k].id, Run(EMPTY, es).inFlight[e.k].claimedBy, other)
  {
    var fs := TwoExecutors(es, e, other, known, now, timeout);
  }

  /** Two agents have run one operation. */
  ghost predicate RunBy(log: seq<Entry>, id: string, a: string, b: string) {
    a != b && HasRun(log, id, a) && HasRun(log, id, b)
  }

  lemma TwoExecutors(es: seq<Event>, e: Event, other: string, known: set<string>, now: int, timeout: nat) returns (fs: seq<Event>)
    requires CanRun(EMPTY, es) && Demotes(Run(EMPTY, es), e) && other != "" && Trimmed(other) && timeout > 0
    requires var s := Run(EMPTY, es); ClaimIsOld(s.rows[Find(s.rows, s.inFlight[e.k].id)], other, known, now, timeout)
    ensures CanRun(EMPTY, es + fs) && Prepared(fs, known, timeout)
    ensures RunBy(Run(EMPTY, es + fs).log, Run(EMPTY, es).inFlight[e.k].id, Run(EMPTY, es).inFlight[e.k].claimedBy, other)
  {
    RunKeepsLogged(EMPTY, es);
    var s := Run(EMPTY, es);
    var w := s.inFlight[e.k];
    assert HasRun(s.log, w.id, w.claimedBy);
    fs := SecondRun(s, e, other, known, now, timeout);
    var x, y := Entry(w.id, w.claimedBy, Claimed), Entry(w.id, other, InProgress);
    HasRunStays(s.log, x, w.id, w.claimedBy);
    HasRunStays(s.log + [x], y, w.id, w.claimedBy);
    HasRunStays(s.log + [x], y, w.id, other);
    RunAppend(EMPTY, es, fs);
  }

  // ---------------------------------------------------------------- a run from the empty table

  const LATE_ROW: Row := Row("op", 1, "reset_links", Pending, "", None, None, None, "{}", "", 0)
  const LATE_QUERY: ClaimQuery := ClaimQuery(1, "a", {Pending, Claimed}, {"reset_links"}, 10, -110, 1)
  const LATE_CLAIMED: Row := Row("op", 1, "reset_links", Claimed, "a", Some(10), Some(10), None, "{}", "", 0)
  const LATE_RUNNING: Row := Row("op", 1, "reset_links", InProgress, "a", Some(10), Some(10), None, "{}", "", 0)

  function LateReport(event: string): ReportRequest {
    ReportRequest(1, "op", "a", event, "", false, Some("{}"), "", 11)
  }

  function LateWrite(next: Status): Write { Write("op", "a", next, "{}", "", Some(10), None) }

  lemma LateReportStatus()
    ensures ReportStatus(LateReport("progress")) == Some(InProgress)
    ensures ReportStatus(LateReport("accepted")) == Some(Claimed)
  {
    TrimmedIsFixed("");
    TrimmedIsFixed("progress");
    TrimmedIsFixed("accepted");
  }

  lemma LateReports()
    ensures ReadReport([LATE_CLAIMED], LateReport("progress"), 11) == Proceed(LateWrite(InProgress))
    ensures ReadReport([LATE_CLAIMED], LateReport("accepted"), 11) == Proceed(LateWrite(Claimed))
  {
    TrimmedIsFixed("op");
    TrimmedIsFixed("a");
    TrimmedIsFixed("");
    LateReportStatus();
    assert Find([LATE_CLAIMED], "op") == 0;
  }

  function LateState(n: nat): System {
    if n == 0 then EMPTY
    else if n == 1 then System([LATE_ROW], [], [])
    else if n == 2 then System([LATE_CLAIMED], [], [])
    else if n == 3 then System([LATE_CLAIMED], [LateWrite(InProgress)], [])
    else if n == 4 then System([LATE_CLAIMED], [LateWrite(InProgress), LateWrite(Claimed)], [])
    else System([LATE_RUNNING], [LateWrite(Claimed)], [Entry("op", "a", InProgress)])
  }

  function LateEvent(n: nat): Event {
    if n == 0 then New(LATE_ROW)
    else if n == 1 then Claim(LATE_QUERY)
    else if n == 2 then Read(LateReport("progress"), 11)
    else if n == 3 then Read(LateReport("accepted"), 11)
    else Land(0)
  }

  ghost predicate LateStep(n: nat) {
    Enabled(LateState(n), LateEvent(n)) && Step(LateState(n), LateEvent(n)) == LateState(n + 1)
  }

  lemma LateClaim()
    ensures LateStep(0) && LateStep(1)
  {
  }

  lemma LateReads()
    ensures LateStep(2) && LateStep(3)
  {
    LateReports();
  }

  lemma LateLands()
    ensures LateStep(4)
  {
  }

  lemma LateSteps()
    ensures forall i :: 0 <= i < 5 ==> LateStep(i)
  {
    LateClaim();
    LateReads();
    LateLands();
    forall i | 0 <= i < 5 ensures LateStep(i) {
      assert i == 0 || i == 1 || i == 2 || i == 3 || i == 4;
    }
  }

  function LateEvents(n: nat): seq<Event>
    requires n <= 5
    decreases 5 - n
  {
    if n == 5 then [] else [LateEvent(n)] + LateEvents(n + 1)
  }

  lemma LateDemotes()
    ensures Ok(LateState(5)) && Demotes(LateState(5), Land(0))
  {
  }

  lemma {:induction false} RunThrough(n: nat)
    requires n <= 5 && forall i :: 0 <= i < 5 ==> LateStep(i)
    ensures CanRun(LateState(n), LateEvents(n)) && Run(LateState(n), LateEvents(n)) == LateState(5)
    decreases 5 - n
  {
    if n < 5 {
      assert LateStep(n);
      RunThrough(n + 1);
      assert LateEvents(n)[1..] == LateEvents(n + 1);
    }
  }

  /** Agent a's "progress" and "accepted" are both read before either is written. */
  lemma LateAcceptedIsReachable() returns (es: seq<Event>)
    ensures CanRun(EMPTY, es) && forall i :: 0 <= i < |es| && es[i].Claim? ==> es[i].q == LATE_QUERY
    ensures Run(EMPTY, es) == System([LATE_RUNNING], [LateWrite(Claimed)], [Entry("op", "a", InProgress)])
    ensures Ok(Run(EMPTY, es)) && Demotes(Run(EMPTY, es), Land(0))
  {
    LateSteps();
    LateDemotes();
    es := LateEvents(0);
    RunThrough(0);
  }

  /** The claim timeout of the service, and the types it knows in this run. */
  const CLAIM_TIMEOUT: nat := 120
  const KNOWN: set<string> := {"reset_links"}

  lemma LateQueryIsPrepared()
    ensures IsPrepared(LATE_QUERY, KNOWN, CLAIM_TIMEOUT)
  {
    TrimmedIsFixed("a");
    TrimmedIsFixed("reset_links");
    var req := ClaimRequest(1, "a", [], ["reset_links"], 1);
    assert (set a | a in req.actions :: TrimSpace(a)) * KNOWN == {"reset_links"};
    assert PrepareClaim(req, KNOWN, 10, CLAIM_TIMEOUT) == Query(LATE_QUERY);
  }

  /** With the service's own claim requests and timeout: the late "accepted" lands, and
      agent b reclaims what agent a is running. */
  lemma TwoExecutorsAreReachable() returns (es: seq<Event>)
    ensures CanRun(EMPTY, es) && Prepared(es, KNOWN, CLAIM_TIMEOUT)
    ensures RunBy(Run(EMPTY, es).log, "op", "a", "b")
  {
    var head := LateAcceptedIsReachable();
    LateQueryIsPrepared();
    var s := Run(EMPTY, head);
    assert Trimmed("b") && Trimmed("op") && Trimmed("reset_links");
    assert Find(s.rows, "op") == 0;
    var tail := TwoExecutors(head, Land(0), "b", KNOWN, 200, CLAIM_TIMEOUT);
    es := head + tail;
    assert forall i :: 0 <= i < |head| && head[i].Claim? ==> head[i].q == LATE_QUERY;
  }
}
