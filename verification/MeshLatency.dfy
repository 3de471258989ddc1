/** Latency of mesh edges as their sources report it: failed probes do not replace a
    measurement, departed agents' edges are pruned. */
module MeshLatency {
  import opened Text

  /** A float64: NaN, an infinity, or a number (rounding is not modelled). */
  datatype Num = NaN | PosInf | NegInf | Fin(value: real)

  /** The edge from a source agent to a peer, named by its key or by "agent-<id>". */
  datatype Edge = Edge(src: int, peer: string)

  datatype Report = Report(latency: Num, loss: Num, probes: int, now: int)

  datatype Sample = Sample(latency: Num, loss: Num, probes: int, updatedAt: int)

  type Latencies = map<Edge, Sample>

  predicate AtMost(x: Num, bound: real) { x.NegInf? || (x.Fin? && x.value <= bound) }

  predicate Below(x: Num, bound: real) { x.NegInf? || (x.Fin? && x.value < bound) }

  /** A report is a measurement when its latency is a positive number and its loss
      lies in [0, 1). */
  function ReportValid(latency: Num, loss: Num): (r: bool)
    ensures r <==> latency.Fin? && latency.value > 0.0 && loss.Fin? && 0.0 <= loss.value < 1.0
  {
    if latency.NaN? || latency.PosInf? || latency.NegInf? then false
    else if AtMost(latency, 0.0) then false
    else if loss.NaN? || Below(loss, 0.0) || !Below(loss, 1.0) then false
    else true
  }

  predicate Valid(r: Report) { ReportValid(r.latency, r.loss) }

  function First(r: Report): Sample { Sample(r.latency, r.loss, r.probes, r.now) }

  /** What one report makes of the stored sample. */
  function Absorb(prior: Option<Sample>, r: Report): Sample {
    if prior.None? then First(r)
    else if Valid(r) then First(r)
    else prior.value.(updatedAt := r.now)
  }

  function Fold(rs: seq<Report>): (s: Option<Sample>) {
    if rs == [] then None else Some(Absorb(Fold(rs[..|rs| - 1]), rs[|rs| - 1]))
  }

  /** The report a sample is taken from: the last valid one, or the first of all. */
  function Source(rs: seq<Report>): nat {
    if |rs| <= 1 || Valid(rs[|rs| - 1]) then |rs| - (if rs == [] then 0 else 1) else Source(rs[..|rs| - 1])
  }

  lemma {:induction false} SourceIsLastValid(rs: seq<Report>)
    requires rs != []
    ensures Source(rs) < |rs|
    ensures Valid(rs[Source(rs)]) || Source(rs) == 0
    ensures forall j :: Source(rs) < j < |rs| ==> !Valid(rs[j])
  {
    if |rs| > 1 && !Valid(rs[|rs| - 1]) {
      SourceIsLastValid(rs[..|rs| - 1]);
    }
  }

  /** The stored sample is a function of the history: the measurement of the last
      valid report, or of the first report while none was valid, with the time of the
      latest report. */
  lemma {:induction false} HysteresisIsHistory(rs: seq<Report>, k: nat)
    requires k < |rs|
    requires forall j :: k < j < |rs| ==> !Valid(rs[j])
    requires Valid(rs[k]) || k == 0
    ensures Fold(rs) == Some(Sample(rs[k].latency, rs[k].loss, rs[k].probes, rs[|rs| - 1].now))
  {
    if k < |rs| - 1 {
      HysteresisIsHistory(rs[..|rs| - 1], k);
    }
  }

  // ---------------------------------------------------------------- the keys of the stored map

  function Key(e: Edge): string { Number(e.src) + ":" + e.peer }

  function Number(n: int): string { if n < 0 then "-" + Decimal(-n) else Decimal(n) }

  lemma {:induction false} DecimalIsInjective(m: nat, n: nat)
    requires Decimal(m) == Decimal(n)
    ensures m == n
  {
    var a, b := Decimal(m), Decimal(n);
    assert a[|a| - 1] == Digit(m % 10) && b[|b| - 1] == Digit(n % 10);
    if m >= 10 && n >= 10 {
      assert a[..|a| - 1] == Decimal(m / 10) && b[..|b| - 1] == Decimal(n / 10);
      DecimalIsInjective(m / 10, n / 10);
    } else {
      DecimalNotEmpty(m / 10);
      DecimalNotEmpty(n / 10);
    }
  }

  lemma DecimalNotEmpty(n: nat)
    ensures |Decimal(n)| > 0
  {
  }

  lemma {:induction false} DecimalIsDigits(n: nat)
    ensures |Decimal(n)| > 0 && forall i :: 0 <= i < |Decimal(n)| ==> '0' <= Decimal(n)[i] <= '9'
  {
    if n >= 10 { DecimalIsDigits(n / 10); }
  }

  lemma NumberIsInjective(m: int, n: int)
    requires Number(m) == Number(n)
    ensures m == n
  {
    DecimalIsDigits(if m < 0 then -m else m);
    DecimalIsDigits(if n < 0 then -n else n);
    assert (m < 0) == (n < 0) by {
      assert Number(m)[0] == Number(n)[0];
    }
    if m < 0 {
      assert Number(m)[1..] == Decimal(-m) && Number(n)[1..] == Decimal(-n);
      DecimalIsInjective(-m, -n);
    } else {
      DecimalIsInjective(m, n);
    }
  }

  lemma NumberHasNoColon(n: int)
    ensures forall i :: 0 <= i < |Number(n)| ==> Number(n)[i] != ':'
  {
    DecimalIsDigits(if n < 0 then -n else n);
  }

  /** The text keys keep edges apart, and the prefix "<id>:" by which a leaving agent's
      entries are found selects exactly the edges it is the source of. */
  lemma KeysAreFaithful(a: Edge, b: Edge)
    ensures Key(a) == Key(b) <==> a == b
    ensures Number(a.src) + ":" <= Key(b) <==> a.src == b.src
  {
    var p, q := Number(a.src) + ":", Number(b.src) + ":";
    assert Key(a) == p + a.peer && Key(b) == q + b.peer;
    if p <= Key(b) {
      NumberHasNoColon(a.src);
      NumberHasNoColon(b.src);
      var m, n := |Number(a.src)|, |Number(b.src)|;
      assert Key(b)[m] == p[m] == ':' && Key(b)[n] == q[n] == ':';
      assert forall i :: 0 <= i < m ==> Key(b)[i] == p[i] == Number(a.src)[i] != ':';
      assert forall i :: 0 <= i < n ==> Key(b)[i] == Number(b.src)[i] != ':';
      assert m == n;
      assert Number(a.src) == Key(b)[..m] == Number(b.src);
      NumberIsInjective(a.src, b.src);
    }
    if Key(a) == Key(b) {
      assert p <= Key(b);
      assert a.peer == Key(a)[|p|..] && b.peer == Key(b)[|q|..];
    }
  }

  // ---------------------------------------------------------------- the map over a run

  /** A peer of the default network: its host and its public key. */
  datatype Node = Node(host: int, key: string)

  function AgentName(host: int): string { "agent-" + Number(host) }

  predicate Names(n: Node, peer: string) { n.key == peer || AgentName(n.host) == peer }

  /** What pruning keeps: source and target are both present. */
  ghost predicate Current(nodes: seq<Node>, e: Edge) {
    && (exists n :: n in nodes && n.host == e.src)
    && (exists n :: n in nodes && Names(n, e.peer))
  }

  ghost function Pruned(m: Latencies, nodes: seq<Node>): Latencies {
    map e | e in m && Current(nodes, e) :: m[e]
  }

  function Departed(m: Latencies, host: int): Latencies {
    map e | e in m && e.src != host :: m[e]
  }

  datatype Event = Reported(e: Edge, r: Report) | Left(host: int) | Prune(nodes: seq<Node>)

  ghost function Step(m: Latencies, ev: Event): Latencies {
    match ev
    case Reported(e, r) => m[e := Absorb(if e in m then Some(m[e]) else None, r)]
    case Left(host) => Departed(m, host)
    case Prune(nodes) => Pruned(m, nodes)
  }

  ghost function Run(m: Latencies, evs: seq<Event>): Latencies {
    if evs == [] then m else Step(Run(m, evs[..|evs| - 1]), evs[|evs| - 1])
  }

  ghost predicate Removes(ev: Event, e: Edge) {
    (ev.Left? && ev.host == e.src) || (ev.Prune? && !Current(ev.nodes, e))
  }

  /** The reports of an edge since it last ceased to exist. */
  ghost function History(evs: seq<Event>, e: Edge): seq<Report> {
    if evs == [] then []
    else
      var before, last := History(evs[..|evs| - 1], e), evs[|evs| - 1];
      if Removes(last, e) then [] else if last.Reported? && last.e == e then before + [last.r] else before
  }

  /** After any run of reports, departures and prunings the map holds exactly the
      edges reported since they last ceased to exist, each with the sample its history
      determines. */
  lemma {:induction false} MapIsHistory(evs: seq<Event>, e: Edge)
    ensures var m, h := Run(map[], evs), History(evs, e);
            (if e in m then Some(m[e]) else None) == Fold(h)
  {
    if evs != [] {
      var before, last := evs[..|evs| - 1], evs[|evs| - 1];
      MapIsHistory(before, e);
      if last.Reported? && last.e == e {
        var h := History(before, e);
        assert (h + [last.r])[..|h|] == h;
      }
    }
  }

  /** For every surviving edge: last valid report if any, else the first, and the
      latest time. */
  lemma SurvivingEdge(evs: seq<Event>, e: Edge)
    requires e in Run(map[], evs)
    ensures var h, s := History(evs, e), Run(map[], evs)[e];
            && h != [] && s.updatedAt == h[|h| - 1].now
            && exists k :: 0 <= k < |h| && s == First(h[k]).(updatedAt := s.updatedAt)
                 && (Valid(h[k]) || k == 0) && forall j :: k < j < |h| ==> !Valid(h[j])
  {
    MapIsHistory(evs, e);
    var h := History(evs, e);
    assert Fold(h).Some?;
    SourceIsLastValid(h);
    HysteresisIsHistory(h, Source(h));
    var k := Source(h);
    assert Run(map[], evs)[e] == First(h[k]).(updatedAt := h[|h| - 1].now);
  }
}
