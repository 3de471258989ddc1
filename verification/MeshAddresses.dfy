/** IPv4 addresses of a mesh network: the byte arithmetic of the allocator, and the
    table of peers over any run of joins and leaves. */
module MeshAddresses {
  import opened Text

  type Byte = b: int | 0 <= b < 256

  datatype Ip = Ip(b0: Byte, b1: Byte, b2: Byte, b3: Byte)

  function Value(ip: Ip): nat { ip.b0 * 0x1000000 + ip.b1 * 0x10000 + ip.b2 * 0x100 + ip.b3 }

  function Pow2(n: nat): (r: nat)
    ensures r > 0
  {
    if n == 0 then 1 else 2 * Pow2(n - 1)
  }

  /** How many of the bits of one byte the mask keeps. */
  function KeptBits(prefix: int, position: nat): (n: nat)
    ensures n <= 8
  {
    if prefix <= 8 * position then 0 else if prefix >= 8 * position + 8 then 8 else prefix - 8 * position
  }

  /** How many bytes share the kept bits: 2 to the number of bits dropped. */
  function Span(kept: nat): (n: nat)
    requires kept <= 8
    ensures n > 0
  {
    [256, 128, 64, 32, 16, 8, 4, 2, 1][kept]
  }

  function Floor(b: Byte, span: nat): (r: int)
    requires span > 0
    ensures 0 <= r <= b
  {
    b - b % span
  }

  function MaskByte(b: Byte, kept: nat): (r: Byte)
    requires kept <= 8
  {
    Floor(b, Span(kept))
  }

  /** The network address a CIDR parses to. */
  function Masked(ip: Ip, prefix: int): Ip {
    Ip(MaskByte(ip.b0, KeptBits(prefix, 0)), MaskByte(ip.b1, KeptBits(prefix, 1)),
       MaskByte(ip.b2, KeptBits(prefix, 2)), MaskByte(ip.b3, KeptBits(prefix, 3)))
  }

  /** Without the network and the broadcast address; negative for a /32. */
  function TotalHosts(prefix: int): int
    requires 0 <= prefix <= 32
  {
    Pow2(32 - prefix) - 2
  }

  /** The address at an offset, byte by byte and without carry. */
  function Allot(base: Ip, offset: nat): Ip {
    Ip(base.b0, base.b1,
       if offset >= 256 then (base.b2 + (offset / 256) % 256) % 256 else base.b2,
       (base.b3 + offset % 256) % 256)
  }

  /** Addition of bytes is addition of addresses exactly when no byte wraps. */
  lemma AllotAddsExactly(base: Ip, offset: nat)
    ensures Value(Allot(base, offset)) == Value(base) + offset
            <==> base.b3 + offset % 256 < 256 && base.b2 + offset / 256 < 256
  {
    var hi, lo := offset / 256, offset % 256;
    assert offset == 256 * hi + lo;
    var ip := Allot(base, offset);
    if base.b3 + lo < 256 {
      assert ip.b3 == base.b3 + lo;
      if base.b2 + hi >= 256 {
        assert ip.b2 < base.b2 + hi;
      }
    } else {
      assert ip.b3 == base.b3 + lo - 256;
      assert ip.b2 <= base.b2 + hi;
    }
  }

  lemma PowersOfTwo()
    ensures Pow2(0) == 1 && Pow2(1) == 2 && Pow2(2) == 4 && Pow2(3) == 8 && Pow2(4) == 16 && Pow2(5) == 32
    ensures Pow2(6) == 64 && Pow2(7) == 128 && Pow2(8) == 256 && Pow2(9) == 512 && Pow2(10) == 1024
    ensures Pow2(11) == 2048 && Pow2(12) == 4096 && Pow2(13) == 8192 && Pow2(14) == 16384 && Pow2(15) == 32768
    ensures Pow2(16) == 65536
  {
    assert Pow2(4) == 16;
    assert Pow2(8) == 256;
    assert Pow2(12) == 4096;
  }

  lemma {:induction false} TimesGrows(m: nat, n: nat, k: nat)
    requires m < n
    ensures m * k + k <= n * k
  {
    if m + 1 < n { TimesGrows(m, n - 1, k); }
  }

  lemma QuotientIs(x: nat, q: nat, d: nat, k: nat)
    requires k > 0 && d < k && x == q * k + d
    ensures x / k == q && x % k == d
  {
    var p, r := x / k, x % k;
    assert x == p * k + r;
    if p < q {
      TimesGrows(p, q, k);
    } else if q < p {
      TimesGrows(q, p, k);
    }
  }

  lemma FloorFits(b: Byte, span: nat, count: nat, d: nat)
    requires span > 0 && count * span == 256 && d < span
    ensures Floor(b, span) + span <= 256
    ensures (Floor(b, span) + d) % span == d
  {
    var q, r := b / span, b % span;
    assert b == q * span + r;
    if q < count {
      TimesGrows(q, count, span);
    } else if count < q {
      TimesGrows(count, q, span);
    }
    QuotientIs(q * span + d, q, d, span);
  }

  /** A masked byte has room for any number below its span, and masking what is then
      there gives the masked byte back. */
  lemma MaskedByteHasRoom(b: Byte, kept: nat, d: nat)
    requires kept <= 8 && d < Span(kept)
    ensures MaskByte(b, kept) + Span(kept) <= 256
    ensures MaskByte(MaskByte(b, kept) + d, kept) == MaskByte(b, kept)
  {
    var count := [1, 2, 4, 8, 16, 32, 64, 128, 256][kept];
    FloorFits(b, Span(kept), count, d);
  }

  lemma BlockSize(prefix: int)
    requires 16 <= prefix <= 32
    ensures Pow2(32 - prefix) == if prefix >= 24 then Span(prefix - 24) else 256 * Span(prefix - 16)
  {
    PowersOfTwo();
  }

  /** In networks of prefix 16 to 30 no byte wraps: every offset is its own host
      address, strictly between the network and the broadcast address. */
  lemma HostAddresses(ip: Ip, prefix: int, offset: nat)
    requires 16 <= prefix <= 30 && 1 <= offset <= TotalHosts(prefix)
    ensures var base := Masked(ip, prefix);
            && Value(Allot(base, offset)) == Value(base) + offset
            && Value(base) < Value(Allot(base, offset)) < Value(base) + Pow2(32 - prefix) - 1
            && Masked(Allot(base, offset), prefix) == base
  {
    var base := Masked(ip, prefix);
    HostBytes(ip, prefix, offset);
    AllotAddsExactly(base, offset);
    assert TotalHosts(prefix) == Pow2(32 - prefix) - 2;
  }

  lemma AllotWithoutWrap(base: Ip, offset: nat)
    requires base.b3 + offset % 256 < 256 && base.b2 + offset / 256 < 256
    ensures Allot(base, offset) == Ip(base.b0, base.b1, base.b2 + offset / 256, base.b3 + offset % 256)
  {
    assert offset < 256 ==> offset / 256 == 0;
    assert (offset / 256) % 256 == offset / 256;
  }

  /** Byte by byte: nothing wraps, and masking gives the network address back. */
  lemma HostBytes(ip: Ip, prefix: int, offset: nat)
    requires 16 <= prefix <= 30 && 1 <= offset <= TotalHosts(prefix)
    ensures var base := Masked(ip, prefix);
            && base.b3 + offset % 256 < 256 && base.b2 + offset / 256 < 256
            && Masked(Allot(base, offset), prefix) == base
  {
    var base := Masked(ip, prefix);
    var k2, k3 := KeptBits(prefix, 2), KeptBits(prefix, 3);
    KeptHere(prefix);
    BlockSize(prefix);
    if prefix >= 24 {
      SmallNetwork(ip.b2, ip.b3, k3, offset);
    } else {
      LargeNetwork(ip.b2, ip.b3, k2, offset);
    }
    AllotWithoutWrap(base, offset);
    MaskedByteHasRoom(ip.b1, 8, 0);
    MaskedByteHasRoom(ip.b0, 8, 0);
    SameNetwork(ip, prefix, offset / 256, offset % 256);
  }

  lemma SameNetwork(ip: Ip, prefix: int, hi: nat, lo: nat)
    requires 16 <= prefix <= 30
    requires var base := Masked(ip, prefix); base.b2 + hi < 256 && base.b3 + lo < 256
    requires MaskByte(Masked(ip, prefix).b2 + hi, KeptBits(prefix, 2)) == Masked(ip, prefix).b2
    requires MaskByte(Masked(ip, prefix).b3 + lo, KeptBits(prefix, 3)) == Masked(ip, prefix).b3
    ensures var base := Masked(ip, prefix);
            Masked(Ip(base.b0, base.b1, base.b2 + hi, base.b3 + lo), prefix) == base
  {
    KeptHere(prefix);
    MaskedByteHasRoom(ip.b1, 8, 0);
    MaskedByteHasRoom(ip.b0, 8, 0);
  }

  lemma KeptHere(prefix: int)
    requires 16 <= prefix <= 30
    ensures KeptBits(prefix, 0) == 8 && KeptBits(prefix, 1) == 8
    ensures prefix >= 24 ==> KeptBits(prefix, 2) == 8 && KeptBits(prefix, 3) == prefix - 24
    ensures prefix < 24 ==> KeptBits(prefix, 2) == prefix - 16 && KeptBits(prefix, 3) == 0
  {
  }

  /** Up to 254 hosts: the last byte has room for every offset. */
  lemma SmallNetwork(b2: Byte, b3: Byte, kept: nat, offset: nat)
    requires kept <= 8 && offset < Span(kept)
    ensures MaskByte(b3, kept) + offset % 256 < 256 && MaskByte(b2, 8) + offset / 256 < 256 && offset < 256
    ensures MaskByte(MaskByte(b3, kept) + offset % 256, kept) == MaskByte(b3, kept)
    ensures MaskByte(MaskByte(b2, 8), 8) == MaskByte(b2, 8)
  {
    MaskedByteHasRoom(b3, kept, offset);
    MaskedByteHasRoom(b2, 8, 0);
  }

  /** More hosts: the last byte takes any remainder and the third any quotient. */
  lemma LargeNetwork(b2: Byte, b3: Byte, kept: nat, offset: nat)
    requires kept <= 8 && offset < 256 * Span(kept)
    ensures MaskByte(b3, 0) + offset % 256 < 256 && MaskByte(b2, kept) + offset / 256 < 256
    ensures MaskByte(MaskByte(b3, 0) + offset % 256, 0) == MaskByte(b3, 0)
    ensures MaskByte(MaskByte(b2, kept) + offset / 256, kept) == MaskByte(b2, kept)
  {
    MaskedByteHasRoom(b3, 0, offset % 256);
    MaskedByteHasRoom(b2, kept, offset / 256);
    MaskedByteHasRoom(b2, kept, 0);
  }

  /** In wider networks the offset wraps after 65536: the addresses repeat, and the
      first to do so is the network address itself. */
  lemma WideNetworksWrap(ip: Ip, prefix: int, offset: nat)
    requires 0 <= prefix < 16 && offset < 65535
    ensures var base := Masked(ip, prefix);
            && 65536 + offset <= TotalHosts(prefix)
            && Allot(base, 65536 + offset) == Allot(base, offset)
            && Allot(base, 65536) == base
  {
    WideBlock(32 - prefix);
    MaskedToZero(ip, prefix);
    WrapsWithoutCarry(Masked(ip, prefix), offset);
  }

  lemma MaskedToZero(ip: Ip, prefix: int)
    requires prefix <= 16
    ensures Masked(ip, prefix).b2 == 0 && Masked(ip, prefix).b3 == 0
  {
    assert KeptBits(prefix, 2) == 0 && KeptBits(prefix, 3) == 0 && Span(0) == 256;
  }

  lemma WrapsWithoutCarry(base: Ip, offset: nat)
    requires base.b2 == 0 && base.b3 == 0 && offset < 65535
    ensures Allot(base, 65536 + offset) == Allot(base, offset) && Allot(base, 65536) == base
  {
    var hi, lo := offset / 256, offset % 256;
    assert hi < 256 && (65536 + offset) / 256 == 256 + hi && (65536 + offset) % 256 == lo;
    assert (256 + hi) % 256 == hi;
  }

  lemma {:induction false} WideBlock(n: nat)
    requires n >= 17
    ensures Pow2(n) >= 131072
  {
    PowersOfTwo();
    if n > 17 { WideBlock(n - 1); }
  }

  // ---------------------------------------------------------------- choosing an address

  /** The smallest offset from i on whose address is not taken. */
  function FirstFree(base: Ip, total: int, used: set<Ip>, i: nat): (r: Option<nat>)
    ensures r.Some? ==> i <= r.value <= total && Allot(base, r.value) !in used
    ensures r.Some? ==> forall j :: i <= j < r.value ==> Allot(base, j) in used
    ensures r.None? ==> forall j :: i <= j <= total ==> Allot(base, j) in used
    decreases total - i
  {
    if i > total then None else if Allot(base, i) !in used then Some(i) else FirstFree(base, total, used, i + 1)
  }

  method AllocateIP(base: Ip, prefix: int, used: set<Ip>) returns (r: Option<Ip>)
    requires 0 <= prefix <= 32
    ensures var k := FirstFree(base, TotalHosts(prefix), used, 1);
            r == if k.Some? then Some(Allot(base, k.value)) else None
  {
    var totalHosts := TotalHosts(prefix);
    var i := 1;
    while i <= totalHosts
      invariant 1 <= i && (totalHosts >= 0 ==> i <= totalHosts + 1)
      invariant FirstFree(base, totalHosts, used, 1) == FirstFree(base, totalHosts, used, i)
    {
      var b2 := if i >= 256 then (base.b2 + (i / 256) % 256) % 256 else base.b2;
      var s := Ip(base.b0, base.b1, b2, (base.b3 + i % 256) % 256);
      if s !in used { return Some(s); }
      i := i + 1;
    }
    r := None;
  }

  function HostSet(base: Ip, n: int): set<Ip> {
    set i | 1 <= i <= n :: Allot(base, i)
  }

  lemma {:induction false} HostSetSize(ip: Ip, prefix: int, n: nat)
    requires 16 <= prefix <= 30 && n <= TotalHosts(prefix)
    ensures |HostSet(Masked(ip, prefix), n)| == n
  {
    var base := Masked(ip, prefix);
    if n > 0 {
      HostSetSize(ip, prefix, n - 1);
      HostAddresses(ip, prefix, n);
      if i :| 1 <= i <= n - 1 && Allot(base, i) == Allot(base, n) {
        HostAddresses(ip, prefix, i);
      }
      assert HostSet(base, n) == HostSet(base, n - 1) + {Allot(base, n)};
    } else {
      assert HostSet(base, 0) == {};
    }
  }

  /** A network whose addresses all came from the allocator is full exactly when all
      its host addresses are taken: 254 of them in a /24. */
  lemma FullExactly(ip: Ip, prefix: int, used: set<Ip>)
    requires 16 <= prefix <= 30 && used <= HostSet(Masked(ip, prefix), TotalHosts(prefix))
    ensures FirstFree(Masked(ip, prefix), TotalHosts(prefix), used, 1).None? <==> |used| == TotalHosts(prefix)
  {
    var base, n := Masked(ip, prefix), TotalHosts(prefix);
    var all := HostSet(base, n);
    HostSetSize(ip, prefix, n);
    if FirstFree(base, n, used, 1).None? {
      assert all <= used;
      assert used == all;
    } else {
      var k := FirstFree(base, n, used, 1).value;
      assert Allot(base, k) in all && used <= all - {Allot(base, k)};
      SubsetSize(used, all - {Allot(base, k)});
    }
  }

  lemma {:induction false} SubsetSize(a: set<Ip>, b: set<Ip>)
    requires a <= b
    ensures |a| <= |b|
  {
    if a != {} {
      var x :| x in a;
      SubsetSize(a - {x}, b - {x});
    }
  }

  // ---------------------------------------------------------------- the peer table

  datatype Peer = Peer(ip: Ip, key: string, network: string)

  type Peers = map<int, Peer>

  /** The addresses listed for one network. */
  function UsedIn(ps: Peers, network: string): set<Ip> {
    set h | h in ps && ps[h].network == network :: ps[h].ip
  }

  /** Writing a peer fails when another host has its address: wg_ip is unique over
      the whole table, whatever the network. */
  predicate Clashes(ps: Peers, host: int, ip: Ip) {
    exists h :: h in ps && h != host && ps[h].ip == ip
  }

  datatype Joined = Joined(ip: Ip, key: string) | Full | Refused

  /** Join: an agent that is a peer gets what it has; another gets the smallest free
      address of the network it names. */
  function Join(ps: Peers, base: Ip, prefix: int, host: int, network: string, key: string): (Peers, Joined)
    requires 0 <= prefix <= 32
  {
    if host in ps then (ps, Joined(ps[host].ip, ps[host].key))
    else
      var k := FirstFree(base, TotalHosts(prefix), UsedIn(ps, network), 1);
      if k.None? then (ps, Full)
      else
        var ip := Allot(base, k.value);
        if Clashes(ps, host, ip) then (ps, Refused)
        else (ps[host := Peer(ip, key, network)], Joined(ip, key))
  }

  function Leave(ps: Peers, host: int): Peers { ps - {host} }

  ghost predicate DistinctAddresses(ps: Peers) {
    forall h, k :: h in ps && k in ps && h != k ==> ps[h].ip != ps[k].ip
  }

  ghost predicate Hosted(ps: Peers, base: Ip, prefix: int)
    requires 0 <= prefix <= 32
  {
    forall h :: h in ps ==> ps[h].ip in HostSet(base, TotalHosts(prefix))
  }

  ghost predicate Ok(ps: Peers, base: Ip, prefix: int)
    requires 0 <= prefix <= 32
  {
    DistinctAddresses(ps) && Hosted(ps, base, prefix)
  }

  /** Reading the table and writing the new peer are two steps; others may come
      between. Look leaves a request with the choice made, Store carries it out. */
  datatype Event = Look(host: int, network: string, key: string) | Store(request: nat) | Depart(host: int)

  datatype Request = Request(host: int, peer: Peer)

  datatype State = State(peers: Peers, requests: seq<Request>)

  function Step(s: State, base: Ip, prefix: int, e: Event): State
    requires 0 <= prefix <= 32
  {
    match e
    case Look(host, network, key) =>
      var k := FirstFree(base, TotalHosts(prefix), UsedIn(s.peers, network), 1);
      if host in s.peers || k.None? then s
      else s.(requests := s.requests + [Request(host, Peer(Allot(base, k.value), key, network))])
    case Store(i) =>
      if i >= |s.requests| then s
      else
        var r := s.requests[i];
        var s' := s.(requests := s.requests[..i] + s.requests[i + 1..]);
        if Clashes(s.peers, r.host, r.peer.ip) then s' else s'.(peers := s.peers[r.host := r.peer])
    case Depart(host) => s.(peers := Leave(s.peers, host))
  }

  function Run(s: State, base: Ip, prefix: int, es: seq<Event>): State
    requires 0 <= prefix <= 32
    decreases |es|
  {
    if es == [] then s else Run(Step(s, base, prefix, es[0]), base, prefix, es[1..])
  }

  ghost predicate StateOk(s: State, base: Ip, prefix: int)
    requires 0 <= prefix <= 32
  {
    Ok(s.peers, base, prefix) && forall r :: r in s.requests ==> r.peer.ip in HostSet(base, TotalHosts(prefix))
  }

  lemma StepKeepsOk(s: State, base: Ip, prefix: int, e: Event)
    requires 0 <= prefix <= 32 && StateOk(s, base, prefix)
    ensures StateOk(Step(s, base, prefix, e), base, prefix)
  {
    if e.Store? && e.request < |s.requests| {
      var r := s.requests[e.request];
      assert r in s.requests;
      RequestsShrink(s.requests, e.request);
      assert !Clashes(s.peers, r.host, r.peer.ip) ==> forall h :: h in s.peers && h != r.host ==> s.peers[h].ip != r.peer.ip;
    }
  }

  lemma RequestsShrink(rs: seq<Request>, i: nat)
    requires i < |rs|
    ensures forall r :: r in rs[..i] + rs[i + 1..] ==> r in rs
  {
  }

  /** After any interleaving of joins and leaves no two peers share an address and
      every address is one the allocator hands out. */
  lemma {:induction false} AddressesStayDistinct(s: State, base: Ip, prefix: int, es: seq<Event>)
    requires 0 <= prefix <= 32 && StateOk(s, base, prefix)
    ensures StateOk(Run(s, base, prefix, es), base, prefix)
    decreases |es|
  {
    if es != [] {
      StepKeepsOk(s, base, prefix, es[0]);
      AddressesStayDistinct(Step(s, base, prefix, es[0]), base, prefix, es[1..]);
    }
  }

  /** In networks of prefix 16 to 30: strictly between the network and the broadcast
      address, after any such run from an empty table. */
  lemma AddressesAreHosts(ip: Ip, prefix: int, es: seq<Event>, host: int)
    requires 16 <= prefix <= 30
    ensures var base := Masked(ip, prefix);
            var ps := Run(State(map[], []), base, prefix, es).peers;
            && DistinctAddresses(ps)
            && (host in ps ==> Value(base) < Value(ps[host].ip) < Value(base) + Pow2(32 - prefix) - 1)
  {
    var base := Masked(ip, prefix);
    AddressesStayDistinct(State(map[], []), base, prefix, es);
    var ps := Run(State(map[], []), base, prefix, es).peers;
    if host in ps {
      var i :| 1 <= i <= TotalHosts(prefix) && ps[host].ip == Allot(base, i);
      HostAddresses(ip, prefix, i);
    }
  }

  // ---------------------------------------------------------------- keeping an address

  /** A request of the same agent with another address is carried out. */
  predicate Moves(s: State, e: Event, host: int)
    requires host in s.peers
  {
    && e.Store? && e.request < |s.requests|
    && var r := s.requests[e.request];
       r.host == host && r.peer.ip != s.peers[host].ip && !Clashes(s.peers, host, r.peer.ip)
  }

  /** A peer's address changes in a step iff such a request is carried out, and the peer
      disappears iff it leaves. */
  lemma AddressMovesExactly(s: State, base: Ip, prefix: int, e: Event, host: int)
    requires 0 <= prefix <= 32 && host in s.peers
    ensures var s' := Step(s, base, prefix, e);
            && (host !in s'.peers <==> e == Depart(host))
            && (host in s'.peers ==> (s'.peers[host].ip != s.peers[host].ip <==> Moves(s, e, host)))
  {
  }

  ghost predicate Stays(es: seq<Event>, host: int) { Depart(host) !in es }

  /** The agent's outstanding requests, if any, ask for the address it has. */
  ghost predicate Serial(s: State, host: int)
    requires host in s.peers
  {
    forall r :: r in s.requests && r.host == host ==> r.peer.ip == s.peers[host].ip
  }

  predicate HasAddress(s: State, host: int, ip: Ip) { host in s.peers && s.peers[host].ip == ip }

  lemma StepKeepsSerial(s: State, base: Ip, prefix: int, e: Event, host: int)
    requires 0 <= prefix <= 32 && host in s.peers && Serial(s, host) && e != Depart(host)
    ensures var s' := Step(s, base, prefix, e); HasAddress(s', host, s.peers[host].ip) && Serial(s', host)
  {
    AddressMovesExactly(s, base, prefix, e, host);
    if e.Store? && e.request < |s.requests| {
      assert s.requests[e.request] in s.requests;
      RequestsShrink(s.requests, e.request);
    }
  }

  lemma {:induction false} SerialKeepsAddress(s: State, base: Ip, prefix: int, es: seq<Event>, host: int)
    requires 0 <= prefix <= 32 && host in s.peers && Serial(s, host) && Stays(es, host)
    ensures HasAddress(Run(s, base, prefix, es), host, s.peers[host].ip) && Serial(Run(s, base, prefix, es), host)
    decreases |es|
  {
    if es != [] {
      assert es[0] in es && forall e :: e in es[1..] ==> e in es;
      StepKeepsSerial(s, base, prefix, es[0], host);
      SerialKeepsAddress(Step(s, base, prefix, es[0]), base, prefix, es[1..], host);
    }
  }

  /** An outstanding request for another address can always be carried out: at most one
      other peer is in its way, and that one may leave. */
  lemma OtherwiseItCanMove(s: State, base: Ip, prefix: int, i: nat, host: int) returns (es: seq<Event>)
    requires 0 <= prefix <= 32 && StateOk(s, base, prefix) && host in s.peers
    requires i < |s.requests| && s.requests[i].host == host && s.requests[i].peer.ip != s.peers[host].ip
    ensures Stays(es, host) && !HasAddress(Run(s, base, prefix, es), host, s.peers[host].ip)
  {
    var ip := s.requests[i].peer.ip;
    if Clashes(s.peers, host, ip) {
      var k :| k in s.peers && k != host && s.peers[k].ip == ip;
      var s1 := Step(s, base, prefix, Depart(k));
      assert !Clashes(s1.peers, host, ip);
      AddressMovesExactly(s1, base, prefix, Store(i), host);
      es := [Depart(k), Store(i)];
      RunOne(s1, base, prefix, Store(i));
      assert es[1..] == [Store(i)];
    } else {
      AddressMovesExactly(s, base, prefix, Store(i), host);
      RunOne(s, base, prefix, Store(i));
      es := [Store(i)];
    }
  }

  lemma RunOne(s: State, base: Ip, prefix: int, e: Event)
    requires 0 <= prefix <= 32
    ensures Run(s, base, prefix, [e]) == Step(s, base, prefix, e)
  {
    assert [e][1..] == [];
  }

  /** An agent keeps its address over every run in which it does not leave iff its
      calls are serial: no outstanding request of its own asks for another one. */
  lemma KeepsAddressExactly(s: State, base: Ip, prefix: int, host: int)
    requires 0 <= prefix <= 32 && StateOk(s, base, prefix) && host in s.peers
    ensures (forall es :: Stays(es, host) ==> HasAddress(Run(s, base, prefix, es), host, s.peers[host].ip))
            <==> Serial(s, host)
  {
    if Serial(s, host) {
      forall es | Stays(es, host) ensures HasAddress(Run(s, base, prefix, es), host, s.peers[host].ip) {
        SerialKeepsAddress(s, base, prefix, es, host);
      }
    } else {
      var r :| r in s.requests && r.host == host && r.peer.ip != s.peers[host].ip;
      var i :| 0 <= i < |s.requests| && s.requests[i] == r;
      var es := OtherwiseItCanMove(s, base, prefix, i, host);
      assert Stays(es, host) && !HasAddress(Run(s, base, prefix, es), host, s.peers[host].ip);
    }
  }

  ghost predicate NoRequest(s: State, host: int) {
    forall r :: r in s.requests ==> r.host != host
  }

  lemma {:induction false} PeerStays(s: State, base: Ip, prefix: int, es: seq<Event>, host: int)
    requires 0 <= prefix <= 32 && host in s.peers && NoRequest(s, host) && Stays(es, host)
    ensures host in Run(s, base, prefix, es).peers && Run(s, base, prefix, es).peers[host] == s.peers[host]
    decreases |es|
  {
    if es != [] {
      var e := es[0];
      assert e in es && forall x :: x in es[1..] ==> x in es;
      if e.Store? && e.request < |s.requests| {
        assert s.requests[e.request] in s.requests;
        RequestsShrink(s.requests, e.request);
      }
      PeerStays(Step(s, base, prefix, e), base, prefix, es[1..], host);
    }
  }

  /** Joining again returns the same address and key, after any further joins and leaves
      of others, under any network and key: from a join that was answered while no other
      call for the agent was under way. */
  lemma JoiningAgainReturnsTheSame(ps: Peers, requests: seq<Request>, base: Ip, prefix: int, host: int,
                                   network: string, key: string, es: seq<Event>, network': string, key': string)
    requires 0 <= prefix <= 32 && NoRequest(State(ps, requests), host) && Stays(es, host)
    requires Join(ps, base, prefix, host, network, key).1.Joined?
    ensures var r := Join(ps, base, prefix, host, network, key);
            var later := Run(State(r.0, requests), base, prefix, es).peers;
            Join(later, base, prefix, host, network', key') == (later, r.1)
  {
    var r := Join(ps, base, prefix, host, network, key);
    PeerStays(State(r.0, requests), base, prefix, es, host);
  }

  /** Two calls for one agent can interleave so that it is moved: the address the
      first call returned is no longer the one on record. */
  lemma RacingJoinsMoveAnAgent(base: Ip, prefix: int, other: int, host: int, network: string, key: string)
    requires 0 <= prefix <= 30 && other != host
    ensures var s := State(map[other := Peer(Allot(base, 1), key, network)], []);
            var told := Run(s, base, prefix, RacingJoins(other, host, network, key));
            var after := Step(told, base, prefix, Store(0));
            && StateOk(s, base, prefix) && host in told.peers && host in after.peers
            && told.peers[host].ip == Allot(base, 2) && after.peers[host].ip == Allot(base, 1) != Allot(base, 2)
  {
    var one, two := Peer(Allot(base, 1), key, network), Peer(Allot(base, 2), key, network);
    var s := State(map[other := one], []);
    NeighboursDiffer(base);
    FirstTwoChoices(base, prefix, other, network, key);
    var es := RacingJoins(other, host, network, key);
    var s1 := Step(s, base, prefix, es[0]);
    assert s1 == State(s.peers, [Request(host, two)]);
    var s2 := Step(s1, base, prefix, es[1]);
    assert s2 == State(map[], [Request(host, two)]);
    var s3 := Step(s2, base, prefix, es[2]);
    assert s3 == State(map[], [Request(host, two), Request(host, one)]);
    RaceEnds(s3, base, prefix, host, one, two);
    RunFour(s, base, prefix, es);
  }

  /** What the allocator chooses beside one peer, and in an empty table. */
  lemma FirstTwoChoices(base: Ip, prefix: int, other: int, network: string, key: string)
    requires 0 <= prefix <= 30
    ensures var n, one := TotalHosts(prefix), Peer(Allot(base, 1), key, network);
            && n >= 2 && Allot(base, 1) in HostSet(base, n)
            && FirstFree(base, n, UsedIn(map[other := one], network), 1) == Some(2)
            && FirstFree(base, n, UsedIn(map[], network), 1) == Some(1)
  {
    SmallestBlock(32 - prefix);
    NeighboursDiffer(base);
    var n, one := TotalHosts(prefix), Peer(Allot(base, 1), key, network);
    OneUsed(other, one);
    assert Allot(base, 1) in {one.ip} && Allot(base, 2) !in {one.ip};
    assert FirstFree(base, n, {one.ip}, 1) == FirstFree(base, n, {one.ip}, 2);
    assert UsedIn(map[], network) == {};
  }

  /** Both requests are carried out, the older one first. */
  lemma RaceEnds(s: State, base: Ip, prefix: int, host: int, one: Peer, two: Peer)
    requires 0 <= prefix <= 32 && s == State(map[], [Request(host, two), Request(host, one)])
    ensures var told := Step(s, base, prefix, Store(0));
            && told == State(map[host := two], [Request(host, one)])
            && Step(told, base, prefix, Store(0)).peers == map[host := one]
  {
    assert s.requests[..0] + s.requests[1..] == [Request(host, one)];
    var told := Step(s, base, prefix, Store(0));
    assert !Clashes(told.peers, host, one.ip);
  }

  function RacingJoins(other: int, host: int, network: string, key: string): (es: seq<Event>)
    ensures |es| == 4
  {
    [Look(host, network, key), Depart(other), Look(host, network, key), Store(0)]
  }

  lemma RunFour(s: State, base: Ip, prefix: int, es: seq<Event>)
    requires 0 <= prefix <= 32 && |es| == 4
    ensures Run(s, base, prefix, es)
            == Step(Step(Step(Step(s, base, prefix, es[0]), base, prefix, es[1]), base, prefix, es[2]), base, prefix, es[3])
  {
    var t1, t2, t3 := es[1..], es[1..][1..], es[1..][1..][1..];
    assert t1[0] == es[1] && t2[0] == es[2] && t3[0] == es[3] && t3[1..] == [];
    var s1 := Step(s, base, prefix, es[0]);
    var s2 := Step(s1, base, prefix, es[1]);
    var s3 := Step(s2, base, prefix, es[2]);
    assert Run(s, base, prefix, es) == Run(s1, base, prefix, t1);
    assert Run(s1, base, prefix, t1) == Run(s2, base, prefix, t2);
    assert Run(s2, base, prefix, t2) == Run(s3, base, prefix, t3);
    assert Run(s3, base, prefix, t3) == Run(Step(s3, base, prefix, es[3]), base, prefix, []);
  }

  lemma OneUsed(host: int, peer: Peer)
    ensures UsedIn(map[host := peer], peer.network) == {peer.ip}
  {
    var ps := map[host := peer];
    assert host in ps && ps[host].ip in UsedIn(ps, peer.network);
  }

  lemma NeighboursDiffer(base: Ip)
    ensures Allot(base, 1) != Allot(base, 2)
  {
    assert Allot(base, 1).b3 == if base.b3 == 255 then 0 else base.b3 + 1;
    assert Allot(base, 2).b3 == if base.b3 >= 254 then base.b3 - 254 else base.b3 + 2;
  }

  /** A join nobody interferes with keeps the table in order; the address it takes is
      free in its network, and joining again, under any network and key, returns it. */
  lemma JoinTwice(ps: Peers, base: Ip, prefix: int, host: int, network: string, key: string, network': string, key': string)
    requires 0 <= prefix <= 32 && Ok(ps, base, prefix)
    ensures var r := Join(ps, base, prefix, host, network, key);
            && Ok(r.0, base, prefix)
            && (r.1.Joined? ==> Join(r.0, base, prefix, host, network', key') == r)
            && (r.1.Joined? && host !in ps ==> r.1.ip !in UsedIn(ps, network) && Leave(r.0, host) == ps)
  {
    var r := Join(ps, base, prefix, host, network, key);
    if r.1.Joined? && host !in ps {
      assert forall h :: h in ps && h != host ==> ps[h].ip != r.1.ip;
    }
  }

  /** With several networks the choice looks only at its own: the join is refused
      exactly when the address it chooses is taken in another network. */
  lemma RefusedExactly(ps: Peers, base: Ip, prefix: int, host: int, network: string, key: string)
    requires 0 <= prefix <= 32 && host !in ps
    ensures var k := FirstFree(base, TotalHosts(prefix), UsedIn(ps, network), 1);
            Join(ps, base, prefix, host, network, key).1.Refused?
            <==> k.Some? && exists h :: h in ps && ps[h].network != network && ps[h].ip == Allot(base, k.value)
  {
    var k := FirstFree(base, TotalHosts(prefix), UsedIn(ps, network), 1);
    if k.Some? {
      assert forall h :: h in ps && ps[h].network == network ==> ps[h].ip in UsedIn(ps, network);
    }
  }

  /** So a second network cannot get its first peer while the first one's first
      address is in use. */
  lemma SecondNetworkCannotStart(ps: Peers, base: Ip, prefix: int, first: int, host: int, network: string, key: string)
    requires 0 <= prefix <= 30 && host !in ps && first in ps && ps[first].ip == Allot(base, 1)
    requires forall h :: h in ps ==> ps[h].network != network
    ensures Join(ps, base, prefix, host, network, key) == (ps, Refused)
  {
    assert UsedIn(ps, network) == {};
    SmallestBlock(32 - prefix);
    assert Clashes(ps, host, Allot(base, 1));
  }

  lemma {:induction false} SmallestBlock(n: nat)
    requires n >= 2
    ensures Pow2(n) >= 4
  {
    PowersOfTwo();
    if n > 2 { SmallestBlock(n - 1); }
  }
}
