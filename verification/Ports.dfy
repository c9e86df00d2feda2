/** allocateLocalPorts and the endpoint rewrite: one local tunnel port for every remote host. */
module Ports {
  import opened Seqs
  import opened Text
  import opened Model

  /** net.SplitHostPort, keeping the host; None stands for an error. */
  type HostSplitter = string -> Option<string>

  function EndpointHost(ep: string, split: HostSplitter): string {
    if ep == "" then ""
    else if ':' in ep && split(ep).Some? then split(ep).value
    else if ParseInt64(ep).Some? then ""
    else ep
  }

  function Hosts(peers: seq<Peer>, split: HostSplitter): seq<string> {
    if peers == [] then []
    else
      var host := EndpointHost(Last(peers).endpoint, split);
      Hosts(Init(peers), split) + if host == "" then [] else [host]
  }

  /** The hosts in order of first occurrence. */
  function DistinctHosts(peers: seq<Peer>, split: HostSplitter): seq<string> {
    AppendNew([], Hosts(peers, split))
  }

  /** Host `k` has port `base + k`, and nothing else has a port. */
  ghost predicate Numbers(ports: map<string, nat>, hosts: seq<string>, base: nat) {
    && NoDup(hosts)
    && ports.Keys == (set h | h in hosts)
    && forall k :: 0 <= k < |hosts| ==> ports[hosts[k]] == base + k
  }

  method AllocateLocalPorts(peers: seq<Peer>, base: nat, split: HostSplitter) returns (hostToPort: map<string, nat>)
    ensures Numbers(hostToPort, DistinctHosts(peers, split), base)
  {
    hostToPort := map[];
    var cur := base;
    for i := 0 to |peers|
      invariant Numbers(hostToPort, DistinctHosts(peers[..i], split), base)
      invariant cur == base + |DistinctHosts(peers[..i], split)|
    {
      ghost var hosts := DistinctHosts(peers[..i], split);
      assert Init(peers[..i + 1]) == peers[..i];
      var host := EndpointHost(peers[i].endpoint, split);
      if host == "" {
        assert Hosts(peers[..i + 1], split) == Hosts(peers[..i], split);
      } else {
        assert Hosts(peers[..i + 1], split) == Hosts(peers[..i], split) + [host];
        assert Init(Hosts(peers[..i + 1], split)) == Hosts(peers[..i], split);
        if host !in hostToPort {
          hostToPort := hostToPort[host := cur];
          cur := cur + 1;
        }
      }
    }
    assert peers[..|peers|] == peers;
  }

  lemma {:induction false} HostListed(peers: seq<Peer>, split: HostSplitter, i: nat)
    requires i < |peers| && EndpointHost(peers[i].endpoint, split) != ""
    ensures EndpointHost(peers[i].endpoint, split) in Hosts(peers, split)
  {
    if i < |peers| - 1 {
      HostListed(Init(peers), split, i);
    }
  }

  lemma {:induction false} ListedHost(peers: seq<Peer>, split: HostSplitter, host: string)
    requires host in Hosts(peers, split)
    ensures host != "" && exists i :: 0 <= i < |peers| && EndpointHost(peers[i].endpoint, split) == host
  {
    if host in Hosts(Init(peers), split) {
      ListedHost(Init(peers), split, host);
    } else {
      assert EndpointHost(peers[|peers| - 1].endpoint, split) == host;
    }
  }

  const LOOPBACK := "127.0.0.1:"

  function Rewritten(p: Peer, ports: map<string, nat>, split: HostSplitter): Peer {
    var host := EndpointHost(p.endpoint, split);
    if host != "" && host in ports then p.(endpoint := LOOPBACK + Dec(ports[host])) else p
  }

  method RewriteEndpoints(peers: array<Peer>, ports: map<string, nat>, split: HostSplitter)
    modifies peers
    ensures forall i :: 0 <= i < peers.Length ==> peers[i] == Rewritten(old(peers[i]), ports, split)
  {
    for i := 0 to peers.Length
      invariant forall j :: 0 <= j < i ==> peers[j] == Rewritten(old(peers[j]), ports, split)
      invariant forall j :: i <= j < peers.Length ==> peers[j] == old(peers[j])
    {
      var host := EndpointHost(peers[i].endpoint, split);
      if host != "" && host in ports {
        peers[i] := peers[i].(endpoint := LOOPBACK + Dec(ports[host]));
      }
    }
  }

  /** For k distinct hosts the assigned ports are exactly base, base + 1, ..., base + k - 1. */
  lemma PortsFillRange(ports: map<string, nat>, hosts: seq<string>, base: nat, port: int)
    requires Numbers(ports, hosts, base)
    ensures port in ports.Values <==> base <= port < base + |hosts|
  {
    if base <= port < base + |hosts| {
      assert hosts[port - base] in ports && ports[hosts[port - base]] == port;
    }
    if port in ports.Values {
      var h :| h in ports && ports[h] == port;
      var k :| 0 <= k < |hosts| && hosts[k] == h;
    }
  }

  /** A port is assigned for exactly the hosts that peers have. */
  lemma PortIffHost(peers: seq<Peer>, base: nat, split: HostSplitter, ports: map<string, nat>, host: string)
    requires Numbers(ports, DistinctHosts(peers, split), base)
    ensures host in ports <==>
              host != "" && exists i :: 0 <= i < |peers| && EndpointHost(peers[i].endpoint, split) == host
  {
    AppendNewFacts([], Hosts(peers, split));
    if host in ports {
      ListedHost(peers, split, host);
    }
    if i :| 0 <= i < |peers| && EndpointHost(peers[i].endpoint, split) == host && host != "" {
      HostListed(peers, split, i);
    }
  }

  lemma HostIndex(peers: seq<Peer>, split: HostSplitter, i: nat) returns (x: nat)
    requires i < |peers| && EndpointHost(peers[i].endpoint, split) != ""
    ensures x < |DistinctHosts(peers, split)|
    ensures DistinctHosts(peers, split)[x] == EndpointHost(peers[i].endpoint, split)
  {
    var hosts, host := DistinctHosts(peers, split), EndpointHost(peers[i].endpoint, split);
    HostListed(peers, split, i);
    AppendNewFacts([], Hosts(peers, split));
    assert host in hosts;
    x :| 0 <= x < |hosts| && hosts[x] == host;
  }

  /** A peer with a host gets the port `base` plus the host's position. */
  lemma RewrittenEndpoint(p: Peer, base: nat, split: HostSplitter, hosts: seq<string>, ports: map<string, nat>, x: nat)
    requires Numbers(ports, hosts, base)
    requires x < |hosts| && hosts[x] == EndpointHost(p.endpoint, split) != ""
    ensures Rewritten(p, ports, split).endpoint == LOOPBACK + Dec(base + x)
  {
    assert hosts[x] in ports;
  }

  lemma LoopbackInjective(a: nat, b: nat)
    requires LOOPBACK + Dec(a) == LOOPBACK + Dec(b)
    ensures a == b
  {
    assert (LOOPBACK + Dec(a))[|LOOPBACK|..] == Dec(a);
    assert (LOOPBACK + Dec(b))[|LOOPBACK|..] == Dec(b);
    DecInjective(a, b);
  }

  /** Two peers share a rewritten endpoint exactly when they share a host. */
  lemma EndpointsCoincide(peers: seq<Peer>, base: nat, split: HostSplitter, ports: map<string, nat>, i: nat, j: nat)
    requires Numbers(ports, DistinctHosts(peers, split), base)
    requires i < |peers| && j < |peers|
    requires EndpointHost(peers[i].endpoint, split) != "" && EndpointHost(peers[j].endpoint, split) != ""
    ensures Rewritten(peers[i], ports, split).endpoint == Rewritten(peers[j], ports, split).endpoint
       <==> EndpointHost(peers[i].endpoint, split) == EndpointHost(peers[j].endpoint, split)
  {
    var hosts := DistinctHosts(peers, split);
    var x := HostIndex(peers, split, i);
    var y := HostIndex(peers, split, j);
    RewrittenEndpoint(peers[i], base, split, hosts, ports, x);
    RewrittenEndpoint(peers[j], base, split, hosts, ports, y);
    if LOOPBACK + Dec(base + x) == LOOPBACK + Dec(base + y) {
      LoopbackInjective(base + x, base + y);
    }
  }

  /** The host of an endpoint: what precedes the port; nothing when there is only a port; else the endpoint itself. */
  lemma EndpointHostCases(ep: string, host: string, split: HostSplitter)
    ensures ep == "" ==> EndpointHost(ep, split) == ""
    ensures ':' in ep && split(ep) == Some(host) ==> EndpointHost(ep, split) == host
    ensures ep != "" && ':' !in ep && ParseInt64(ep).Some? ==> EndpointHost(ep, split) == ""
    ensures ep != "" && (':' in ep ==> split(ep) == None) && ParseInt64(ep) == None ==> EndpointHost(ep, split) == ep
  {
  }

  lemma {:induction false} DistinctSize(hosts: seq<string>)
    requires NoDup(hosts)
    ensures |set h | h in hosts| == |hosts|
  {
    if hosts != [] {
      DistinctSize(Init(hosts));
      assert hosts == Init(hosts) + [Last(hosts)];
      assert Last(hosts) !in Init(hosts);
      assert (set h | h in hosts) == (set h | h in Init(hosts)) + {Last(hosts)};
    }
  }

  lemma NumberedHosts(ports: map<string, nat>, hosts: seq<string>, base: nat)
    requires Numbers(ports, hosts, base)
    ensures |ports| == |hosts|
  {
    DistinctSize(hosts);
    assert |ports| == |ports.Keys|;
  }

  /** Endpoints of one host share one local port, whatever their own port numbers. */
  lemma OneHostOnePort(
    peers: seq<Peer>, base: nat, split: HostSplitter, ports: map<string, nat>, i: nat, j: nat, host: string, a: string,
    b: string)
    requires Numbers(ports, DistinctHosts(peers, split), base) && host != ""
    requires i < |peers| && peers[i].endpoint == host + ":" + a && split(host + ":" + a) == Some(host)
    requires j < |peers| && peers[j].endpoint == host + ":" + b && split(host + ":" + b) == Some(host)
    ensures host in ports && base <= ports[host] < base + |ports|
    ensures Rewritten(peers[i], ports, split) == peers[i].(endpoint := "127.0.0.1:" + Dec(ports[host]))
    ensures Rewritten(peers[j], ports, split) == peers[j].(endpoint := "127.0.0.1:" + Dec(ports[host]))
  {
    var hosts := DistinctHosts(peers, split);
    assert (host + ":" + a)[|host|] == ':' && (host + ":" + b)[|host|] == ':';
    PortIffHost(peers, base, split, ports, host);
    var k :| 0 <= k < |hosts| && hosts[k] == host;
    NumberedHosts(ports, hosts, base);
  }
}
