/** The mesh service: peers and latencies updated in place. */
module MeshService {
  import opened MeshAddresses
  import opened MeshLatency

  const DEFAULT_NETWORK: string := "default"

  class MeshService {
    var peers: Peers
    var latencies: Latencies
    const base: Ip
    const prefix: int

    ghost predicate Valid() reads this {
      0 <= prefix <= 32 && Ok(peers, base, prefix)
    }

    /** address and prefix as in the configured CIDR. */
    constructor (address: Ip, prefix: int)
      requires 0 <= prefix <= 32
      ensures Valid() && peers == map[] && latencies == map[]
      ensures base == Masked(address, prefix) && this.prefix == prefix
    {
      base, this.prefix := Masked(address, prefix), prefix;
      peers, latencies := map[], map[];
    }

    /** key is the public key generated for a new peer. */
    method JoinNetwork(host: int, network: string, key: string) returns (r: Joined)
      requires Valid()
      modifies this
      ensures Valid() && latencies == old(latencies)
      ensures (peers, r) == Join(old(peers), base, prefix, host, network, key)
    {
      JoinTwice(peers, base, prefix, host, network, key, network, key);
      if host in peers { return Joined(peers[host].ip, peers[host].key); }
      var ip := AllocateIP(base, prefix, UsedIn(peers, network));
      if ip.None? { return Full; }
      if Clashes(peers, host, ip.value) { return Refused; }
      peers := peers[host := Peer(ip.value, key, network)];
      r := Joined(ip.value, key);
    }

    method LeaveNetwork(host: int)
      requires Valid()
      modifies this
      ensures Valid() && peers == Leave(old(peers), host) && latencies == Departed(old(latencies), host)
    {
      peers := peers - {host};
      var left := latencies.Keys;
      while left != {}
        invariant left <= old(latencies).Keys && peers == Leave(old(peers), host)
        invariant latencies == map e | e in old(latencies) && (e in left || e.src != host) :: old(latencies)[e]
        decreases left
      {
        var e :| e in left;
        left := left - {e};
        if e.src == host { latencies := latencies - {e}; }
      }
    }

    method ReportPeerLatency(e: Edge, r: Report)
      modifies this
      ensures peers == old(peers) && latencies == MeshLatency.Step(old(latencies), Reported(e, r))
    {
      var valid := ReportValid(r.latency, r.loss);
      if e in latencies {
        var existing := latencies[e].(updatedAt := r.now);
        if valid { existing := existing.(latency := r.latency, loss := r.loss, probes := r.probes); }
        latencies := latencies[e := existing];
        return;
      }
      latencies := latencies[e := Sample(r.latency, r.loss, r.probes, r.now)];
    }

    /** The pruning part of ComputeRoutingTables: nodes are the peers of the default
        network, in the order the table lists them. */
    method PruneLatencies(nodes: seq<Node>)
      requires forall h :: h in peers && peers[h].network == DEFAULT_NETWORK <==> exists n :: n in nodes && n.host == h
      requires forall n :: n in nodes ==> n.host in peers && n.key == peers[n.host].key
      modifies this
      ensures peers == old(peers) && latencies == Pruned(old(latencies), nodes)
    {
      var used := MarkUsed(nodes);
      var left := latencies.Keys;
      while left != {}
        invariant left <= old(latencies).Keys && peers == old(peers)
        invariant latencies == map e | e in old(latencies) && (e in left || e in used) :: old(latencies)[e]
        decreases left
      {
        var e :| e in left;
        left := left - {e};
        if e !in used { latencies := latencies - {e}; }
      }
    }

    method MarkUsed(nodes: seq<Node>) returns (used: set<Edge>)
      ensures forall e :: e in used <==> e in latencies && Current(nodes, e)
    {
      used := {};
      var left := latencies.Keys;
      while left != {}
        invariant left <= latencies.Keys
        invariant forall e :: e in used <==> e in latencies && e !in left && Current(nodes, e)
        decreases left
      {
        var e :| e in left;
        left := left - {e};
        var hasSource := HasHost(nodes, e.src);
        if hasSource {
          var matched := HasTarget(nodes, e.peer);
          if matched { used := used + {e}; }
        }
      }
    }
  }

  method HasHost(nodes: seq<Node>, host: int) returns (b: bool)
    ensures b <==> exists n :: n in nodes && n.host == host
  {
    b := false;
    for i := 0 to |nodes|
      invariant b <==> exists n :: n in nodes[..i] && n.host == host
    {
      assert nodes[..i + 1] == nodes[..i] + [nodes[i]];
      if nodes[i].host == host { b := true; }
    }
    assert nodes[..|nodes|] == nodes;
  }

  method HasTarget(nodes: seq<Node>, peer: string) returns (b: bool)
    ensures b <==> exists n :: n in nodes && Names(n, peer)
  {
    b := false;
    for i := 0 to |nodes|
      invariant !b && forall n :: n in nodes[..i] ==> !Names(n, peer)
    {
      assert nodes[..i + 1] == nodes[..i] + [nodes[i]];
      if Names(nodes[i], peer) { return true; }
    }
    assert nodes[..|nodes|] == nodes;
  }

  /** Pruning looks at the default network alone, so every edge of a source that
      joined another network goes. */
  lemma OtherNetworksArePruned(ps: Peers, m: Latencies, nodes: seq<Node>, e: Edge)
    requires forall n :: n in nodes ==> n.host in ps && ps[n.host].network == DEFAULT_NETWORK
    requires e.src in ps && ps[e.src].network != DEFAULT_NETWORK
    ensures e !in Pruned(m, nodes)
  {
  }
}
