/**
  The agent's third back end: the routing tables and rules that applyStaticRoutes and syncPeerRoutes
  write with the `ip` command, and where the kernel then sends a prefix.
 */
module Kernel {
  import opened Seqs
  import opened Text
  import opened Model
  import opened Prefixes
  import opened Render
  import opened Forwarding

  /** Into the tunnel by the address of a peer, or just into the tunnel. */
  datatype Entry = Via(peer: string) | Tunnel

  type Table = map<string, Entry>

  function Get(table: Table, t: string): Option<Entry> {
    if t in table then Some(table[t]) else None
  }

  /** In one table an entry for the prefix itself comes before the default. */
  function Match(table: Table, t: string): Option<Entry> {
    if t in table then Some(table[t]) else Get(table, DEFAULT_PREFIX)
  }

  /** What syncPeerRoutes wants: the IPv4 prefixes the peers announce, the default aside. */
  ghost predicate Desired(peers: seq<Peer>, r: Resolver, t: string) {
    t != "" && t != DEFAULT_PREFIX && r.isV4(t) && exists p :: p in peers && t in p.allowedIPs
  }

  /** The table after these routes were replaced in turn. */
  function PutAll(table: Table, routes: seq<StaticRoute>): Table {
    if routes == [] then table else PutAll(table, Init(routes))[Last(routes).prefix := Via(Last(routes).via)]
  }

  function PrefixesOf(routes: seq<StaticRoute>): set<string> {
    set route | route in routes :: route.prefix
  }

  lemma {:induction false} PutAllConcat(table: Table, a: seq<StaticRoute>, b: seq<StaticRoute>)
    ensures PutAll(table, a + b) == PutAll(PutAll(table, a), b)
  {
    if b == [] {
      assert a + b == a;
    } else {
      PutAllConcat(table, a, Init(b));
      assert Init(a + b) == a + Init(b);
    }
  }

  lemma {:induction false} PutAllLast(table: Table, routes: seq<StaticRoute>, t: string)
    ensures Get(PutAll(table, routes), t) ==
              match LastVia(routes, t) case Some(via) => Some(Via(via)) case None => Get(table, t)
  {
    if routes != [] {
      PutAllLast(table, Init(routes), t);
    }
  }

  /** The two tables, the prefixes with a rule `to prefix lookup main`, and whether a later rule uses table 100. */
  datatype Rib = Rib(main: Table, table100: Table, preferMain: set<string>, useTable100: bool)

  /** A rule for the prefix itself applies, and one for the default prefix to everything. */
  predicate PrefersMain(rib: Rib, t: string) {
    t in rib.preferMain || DEFAULT_PREFIX in rib.preferMain
  }

  /** The rules in their order, the main table last of all. */
  function Lookup(rib: Rib, t: string): Option<Entry> {
    if PrefersMain(rib, t) && Match(rib.main, t).Some? then Match(rib.main, t)
    else if rib.useTable100 && Match(rib.table100, t).Some? then Match(rib.table100, t)
    else Match(rib.main, t)
  }

  /** The entry that stands for the hop of the walk: an address of the peer, or its claim to an announced prefix. */
  predicate Leads(entry: Option<Entry>, c: Config, r: Resolver, t: string) {
    match entry
    case None => HopFrom(c, r, t) == None
    case Some(Via(peer)) => HopFrom(c, r, t) == Some(peer)
    case Some(Tunnel) => HopFrom(c, r, t) == Owner(WireGuardPeers(c, r), t)
  }

  lemma RoutesToNext(targets: seq<string>, i: nat, via: string, nextHop: string)
    requires i < |targets|
    ensures var before, after := RoutesTo(targets[..i], via, nextHop), RoutesTo(targets[..i + 1], via, nextHop);
            && after != [] && Init(after) == before && Last(after) == StaticRoute(targets[i], via, nextHop)
            && PrefixesOf(after) == PrefixesOf(before) + {targets[i]}
  {
    var before, after := RoutesTo(targets[..i], via, nextHop), RoutesTo(targets[..i + 1], via, nextHop);
    assert after == before + [StaticRoute(targets[i], via, nextHop)];
    PrefixesConcat(before, [StaticRoute(targets[i], via, nextHop)]);
  }

  lemma PrefixesConcat(a: seq<StaticRoute>, b: seq<StaticRoute>)
    ensures PrefixesOf(a + b) == PrefixesOf(a) + PrefixesOf(b)
  {
    forall route | route in a + b ensures route in a || route in b {
    }
    assert forall route :: route in b ==> route in a + b;
  }

  lemma PrefixHasRoute(routes: seq<StaticRoute>, t: string)
    ensures t in PrefixesOf(routes) <==> LastVia(routes, t).Some?
  {
    LastViaFacts(routes, t);
  }

  /** Whatever syncPeerRoutes and the default route left behind, with the policy routes it leads as the walk does. */
  lemma AppliedLeads(c: Config, r: Resolver, synced: Table, defaults: Table, useTable100: bool, t: string)
    requires forall u :: Get(synced, u) == if Desired(c.peers, r, u) then Some(Tunnel) else None
    requires DefaultVia(c) == "" ==> defaults == map[] && !useTable100
    requires DefaultVia(c) != "" ==> defaults == map[DEFAULT_PREFIX := Via(DefaultVia(c))] && useTable100
    ensures var routes := ConfigRoutes(c, r);
            var rib := Rib(PutAll(synced, routes), PutAll(defaults, routes), PrefixesOf(routes), useTable100);
            Leads(Lookup(rib, t), c, r, t)
  {
    var routes := ConfigRoutes(c, r);
    MatchAll(synced, routes, t);
    MatchAll(defaults, routes, t);
    PrefixHasRoute(routes, t);
    PrefixHasRoute(routes, DEFAULT_PREFIX);
    assert Get(synced, DEFAULT_PREFIX) == None;
    assert Get(synced, t).Some? <==> Announced(c, r, t);
  }

  lemma MatchAll(table: Table, routes: seq<StaticRoute>, t: string)
    ensures Match(PutAll(table, routes), t) ==
              if LastVia(routes, t).Some? then Some(Via(LastVia(routes, t).value))
              else if t in table then Some(table[t])
              else if LastVia(routes, DEFAULT_PREFIX).Some? then Some(Via(LastVia(routes, DEFAULT_PREFIX).value))
              else Get(table, DEFAULT_PREFIX)
  {
    PutAllLast(table, routes, t);
    PutAllLast(table, routes, DEFAULT_PREFIX);
  }

  lemma NextRule(table: Table, rules: seq<PolicyRule>, i: nat, peers: seq<Peer>, r: Resolver)
    requires i < |rules|
    ensures var before, one := PolicyRoutes(rules[..i], peers, r), RuleRoutes(rules[i], peers, r);
            var after := PolicyRoutes(rules[..i + 1], peers, r);
            && PutAll(table, after) == PutAll(PutAll(table, before), one)
            && PrefixesOf(after) == PrefixesOf(before) + PrefixesOf(one)
  {
    assert Init(rules[..i + 1]) == rules[..i];
    PutAllConcat(table, PolicyRoutes(rules[..i], peers, r), RuleRoutes(rules[i], peers, r));
    PrefixesConcat(PolicyRoutes(rules[..i], peers, r), RuleRoutes(rules[i], peers, r));
  }

  lemma DesiredNext(peers: seq<Peer>, p: Peer, r: Resolver)
    ensures forall t :: Desired(peers + [p], r, t) <==>
              Desired(peers, r, t) || (t in p.allowedIPs && t != "" && t != DEFAULT_PREFIX && r.isV4(t))
  {
    forall t ensures (exists q :: q in peers + [p] && t in q.allowedIPs) <==>
                       (exists q :: q in peers && t in q.allowedIPs) || t in p.allowedIPs
    {
      assert (peers + [p])[|peers|] == p;
    }
  }

  method CollectDesired(peers: seq<Peer>, r: Resolver) returns (desired: set<string>)
    ensures forall t :: t in desired <==> Desired(peers, r, t)
  {
    desired := {};
    for i := 0 to |peers|
      invariant forall t :: t in desired <==> Desired(peers[..i], r, t)
    {
      var ips := peers[i].allowedIPs;
      for j := 0 to |ips|
        invariant forall t :: t in desired <==>
                    Desired(peers[..i], r, t) || (t in ips[..j] && t != "" && t != DEFAULT_PREFIX && r.isV4(t))
      {
        if ips[j] != "" && ips[j] != DEFAULT_PREFIX && r.isV4(ips[j]) {
          desired := desired + {ips[j]};
        }
        assert ips[..j + 1] == ips[..j] + [ips[j]];
      }
      assert ips[..|ips|] == ips;
      assert peers[..i + 1] == peers[..i] + [peers[i]];
      DesiredNext(peers[..i], peers[i], r);
    }
    assert peers[..|peers|] == peers;
  }

  lemma {:induction false} NoNamelessOverlay(peers: seq<Peer>)
    requires forall p :: p in peers ==> p.id != ""
    ensures OverlayForPeer("", peers) == ""
  {
    if peers != [] {
      assert peers[0] in peers;
      assert forall p :: p in peers[1..] ==> p in peers;
      NoNamelessOverlay(peers[1..]);
    }
  }

  class Tables {
    var main: Table
    var table100: Table
    /** The prefixes with a rule `to prefix lookup main`, which comes before the one for table 100. */
    var preferMain: set<string>
    var useTable100: bool

    constructor ()
      ensures main == map[] && table100 == map[] && preferMain == {} && !useTable100
    {
      main, table100, preferMain, useTable100 := map[], map[], {}, false;
    }

    function State(): Rib
      reads this
    {
      Rib(main, table100, preferMain, useTable100)
    }

    /** syncPeerRoutes. */
    method SyncPeerRoutes(peers: seq<Peer>, r: Resolver)
      modifies `main
      ensures forall t :: Get(main, t) == if Desired(peers, r, t) then Some(Tunnel) else Get(old(main), t)
    {
      var desired := CollectDesired(peers, r);
      var rest := desired;
      while rest != {}
        invariant rest <= desired
        invariant forall t :: Get(main, t) == if t in desired - rest then Some(Tunnel) else Get(old(main), t)
      {
        var t :| t in rest;
        main := main[t := Tunnel];
        rest := rest - {t};
      }
    }

    /** The inner loop over the prefixes of one rule: main and table 100 get the route, and a rule prefers main. */
    method ApplyRoutes(targets: seq<string>, via: string, nextHop: string)
      modifies `main, `table100, `preferMain
      ensures main == PutAll(old(main), RoutesTo(targets, via, nextHop))
      ensures table100 == PutAll(old(table100), RoutesTo(targets, via, nextHop))
      ensures preferMain == old(preferMain) + PrefixesOf(RoutesTo(targets, via, nextHop))
    {
      for i := 0 to |targets|
        invariant main == PutAll(old(main), RoutesTo(targets[..i], via, nextHop))
        invariant table100 == PutAll(old(table100), RoutesTo(targets[..i], via, nextHop))
        invariant preferMain == old(preferMain) + PrefixesOf(RoutesTo(targets[..i], via, nextHop))
      {
        RoutesToNext(targets, i, via, nextHop);
        main := main[targets[i] := Via(via)];
        table100 := table100[targets[i] := Via(via)];
        preferMain := preferMain + {targets[i]};
      }
      assert targets[..|targets|] == targets;
    }

    method ApplyRule(pr: PolicyRule, peers: seq<Peer>, r: Resolver)
      requires pr.viaNode !in {"local", "main"}
      modifies `main, `table100, `preferMain
      ensures main == PutAll(old(main), RuleRoutes(pr, peers, r))
      ensures table100 == PutAll(old(table100), RuleRoutes(pr, peers, r))
      ensures preferMain == old(preferMain) + PrefixesOf(RuleRoutes(pr, peers, r))
    {
      if !pr.Valid() {
        return;
      }
      var nextID := pr.viaNode;
      if |pr.path| > 0 {
        nextID := pr.path[0];
      }
      var nextHop := OverlayForPeer(nextID, peers);
      if nextHop == "" {
        return;
      }
      var targets := Expand(pr, r);
      ApplyRoutes(targets, nextID, StripMask(nextHop));
    }

    method ApplyRules(rules: seq<PolicyRule>, peers: seq<Peer>, r: Resolver)
      requires forall pr :: pr in rules ==> pr.viaNode !in {"local", "main"}
      modifies `main, `table100, `preferMain
      ensures main == PutAll(old(main), PolicyRoutes(rules, peers, r))
      ensures table100 == PutAll(old(table100), PolicyRoutes(rules, peers, r))
      ensures preferMain == old(preferMain) + PrefixesOf(PolicyRoutes(rules, peers, r))
    {
      for i := 0 to |rules|
        invariant main == PutAll(old(main), PolicyRoutes(rules[..i], peers, r))
        invariant table100 == PutAll(old(table100), PolicyRoutes(rules[..i], peers, r))
        invariant preferMain == old(preferMain) + PrefixesOf(PolicyRoutes(rules[..i], peers, r))
      {
        NextRule(old(main), rules, i, peers, r);
        NextRule(old(table100), rules, i, peers, r);
        ApplyRule(rules[i], peers, r);
      }
      assert rules[..|rules|] == rules;
    }

    method ApplyDefault(node: Node, peers: seq<Peer>)
      requires forall p :: p in peers ==> p.id != ""
      modifies `table100, `useTable100
      ensures KernelDefaultVia(node, peers) == "" ==> table100 == old(table100) && useTable100 == old(useTable100)
      ensures KernelDefaultVia(node, peers) != "" ==>
                useTable100 && table100 == old(table100)[DEFAULT_PREFIX := Via(KernelDefaultVia(node, peers))]
    {
      if node.defaultRoute {
        var target := node.defaultRouteNextHop;
        if target == "" {
          target := node.egressPeerID;
        }
        var nh := OverlayForPeer(target, peers);
        NoNamelessOverlay(peers);
        if nh != "" {
          table100 := table100[DEFAULT_PREFIX := Via(target)];
          useTable100 := true;
        }
      }
    }

    /** applyStaticRoutes on tables that hold nothing of ours yet: packets go where the walk of a path says. */
    method ApplyStaticRoutes(node: Node, peers: seq<Peer>, r: Resolver)
      requires main == map[] && table100 == map[] && preferMain == {} && !useTable100
      requires forall pr :: pr in node.policyRules ==> pr.viaNode !in {"local", "main"}
      requires forall p :: p in peers ==> p.id != ""
      modifies this
      ensures forall t :: Leads(Lookup(State(), t), Config(node, peers), r, t)
    {
      SyncPeerRoutes(peers, r);
      ghost var synced := main;
      assert forall t :: Get(main, t) == if Desired(peers, r, t) then Some(Tunnel) else None;
      ApplyDefault(node, peers);
      ghost var defaults := table100;
      ApplyRules(node.policyRules, peers, r);
      forall t ensures Leads(Lookup(State(), t), Config(node, peers), r, t) {
        AppliedLeads(Config(node, peers), r, synced, defaults, useTable100, t);
      }
    }
  }
}
