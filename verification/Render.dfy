/**
  The agent's two back ends: WireGuard AllowedIPs (augmentEgressAllowedIPs) and
  static routes (RenderBGP), with the kernel's choice of default next hop.
 */
module Render {
  import opened Seqs
  import opened Text
  import opened Model
  import opened Prefixes
  import opened Ports

  const DEFAULT_PREFIX := "0.0.0.0/0"

  /** overlayForPeer and frrOverlayForPeer: the first address of the first such peer that has one. */
  function OverlayForPeer(id: string, peers: seq<Peer>): string {
    if peers == [] then ""
    else if peers[0].id == id && peers[0].allowedIPs != [] then peers[0].allowedIPs[0]
    else OverlayForPeer(id, peers[1..])
  }

  /** Position `k` holds the peer that `OverlayForPeer` chooses. */
  ghost predicate Chosen(id: string, peers: seq<Peer>, k: nat) {
    && k < |peers| && peers[k].id == id && peers[k].allowedIPs != []
    && forall j :: 0 <= j < k ==> !(peers[j].id == id && peers[j].allowedIPs != [])
  }

  lemma {:induction false} OverlayIsChosen(id: string, peers: seq<Peer>, k: nat)
    requires Chosen(id, peers, k)
    ensures OverlayForPeer(id, peers) == peers[k].allowedIPs[0]
  {
    if k > 0 {
      assert Chosen(id, peers[1..], k - 1);
      OverlayIsChosen(id, peers[1..], k - 1);
    }
  }

  lemma {:induction false} ChooseOverlay(id: string, peers: seq<Peer>) returns (k: nat)
    requires OverlayForPeer(id, peers) != ""
    ensures Chosen(id, peers, k) && OverlayForPeer(id, peers) == peers[k].allowedIPs[0]
  {
    if peers[0].id == id && peers[0].allowedIPs != [] {
      k := 0;
    } else {
      k := ChooseOverlay(id, peers[1..]);
      k := k + 1;
    }
  }

  function NextHopID(pr: PolicyRule): string {
    if pr.path != [] then pr.path[0] else pr.viaNode
  }

  // ---- Static routes ----

  /** `ip route prefix nextHop`; `via` names the peer the next hop was taken from. */
  datatype StaticRoute = StaticRoute(prefix: string, via: string, nextHop: string)

  function RoutesTo(targets: seq<string>, via: string, nextHop: string): seq<StaticRoute> {
    seq(|targets|, i requires 0 <= i < |targets| => StaticRoute(targets[i], via, nextHop))
  }

  function RuleRoutes(pr: PolicyRule, peers: seq<Peer>, r: Resolver): seq<StaticRoute> {
    var nh := StripMask(OverlayForPeer(NextHopID(pr), peers));
    if (pr.viaNode == "" && pr.path == []) || nh == "" then [] else RoutesTo(Targets(pr, r), NextHopID(pr), nh)
  }

  function PolicyRoutes(rules: seq<PolicyRule>, peers: seq<Peer>, r: Resolver): seq<StaticRoute> {
    if rules == [] then [] else PolicyRoutes(Init(rules), peers, r) + RuleRoutes(Last(rules), peers, r)
  }

  function DefaultRoutes(egress: string, peers: seq<Peer>): seq<StaticRoute> {
    var nh := OverlayForPeer(egress, peers);
    if egress != "" && |peers| > 0 && nh != "" then [StaticRoute(DEFAULT_PREFIX, egress, StripMask(nh))] else []
  }

  method RenderRule(pr: PolicyRule, peers: seq<Peer>, r: Resolver) returns (out: seq<StaticRoute>)
    ensures out == RuleRoutes(pr, peers, r)
  {
    if pr.viaNode == "" && |pr.path| == 0 {
      return [];
    }
    var nh := StripMask(OverlayForPeer(NextHopID(pr), peers));
    if nh == "" {
      return [];
    }
    var targets := Expand(pr, r);
    out := RoutesTo(targets, NextHopID(pr), nh);
  }

  method RenderPolicyRoutes(rules: seq<PolicyRule>, peers: seq<Peer>, r: Resolver) returns (out: seq<StaticRoute>)
    ensures out == PolicyRoutes(rules, peers, r)
  {
    out := [];
    for i := 0 to |rules|
      invariant out == PolicyRoutes(rules[..i], peers, r)
    {
      assert Init(rules[..i + 1]) == rules[..i];
      var routes := RenderRule(rules[i], peers, r);
      out := out + routes;
    }
    assert rules[..|rules|] == rules;
  }

  /** The `ip route` lines of RenderBGP, in order. */
  method RenderRoutes(node: Node, peers: seq<Peer>, r: Resolver) returns (out: seq<StaticRoute>)
    ensures out == DefaultRoutes(node.egressPeerID, peers) + PolicyRoutes(node.policyRules, peers, r)
  {
    out := [];
    if node.egressPeerID != "" && |peers| > 0 {
      var nextHop := OverlayForPeer(node.egressPeerID, peers);
      if nextHop != "" {
        out := [StaticRoute(DEFAULT_PREFIX, node.egressPeerID, StripMask(nextHop))];
      }
    }
    var routes := RenderPolicyRoutes(node.policyRules, peers, r);
    out := out + routes;
  }

  /** What it means for a rule to produce a route. */
  ghost predicate RoutedBy(pr: PolicyRule, peers: seq<Peer>, r: Resolver, route: StaticRoute) {
    && route.prefix in Targets(pr, r)
    && (pr.path != [] ==> route.via == pr.path[0])
    && (pr.path == [] ==> route.via == pr.viaNode)
    && route.nextHop == StripMask(OverlayForPeer(route.via, peers))
    && route.nextHop != ""
  }

  lemma RuleRouteIff(pr: PolicyRule, peers: seq<Peer>, r: Resolver, route: StaticRoute)
    ensures route in RuleRoutes(pr, peers, r) <==> RoutedBy(pr, peers, r, route)
  {
    TargetsFacts(pr, r);
    if RoutedBy(pr, peers, r, route) {
      var i :| 0 <= i < |Targets(pr, r)| && Targets(pr, r)[i] == route.prefix;
      assert RuleRoutes(pr, peers, r)[i] == route;
    }
  }

  lemma {:induction false} RouteHasRule(
    rules: seq<PolicyRule>, peers: seq<Peer>, r: Resolver, route: StaticRoute) returns (pr: PolicyRule)
    requires route in PolicyRoutes(rules, peers, r)
    ensures pr in rules && RoutedBy(pr, peers, r, route)
  {
    if route in PolicyRoutes(Init(rules), peers, r) {
      pr := RouteHasRule(Init(rules), peers, r, route);
    } else {
      pr := Last(rules);
      RuleRouteIff(pr, peers, r, route);
    }
  }

  lemma {:induction false} RuleHasRoute(
    rules: seq<PolicyRule>, peers: seq<Peer>, r: Resolver, route: StaticRoute, pr: PolicyRule)
    requires pr in rules && RoutedBy(pr, peers, r, route)
    ensures route in PolicyRoutes(rules, peers, r)
  {
    if pr in Init(rules) {
      RuleHasRoute(Init(rules), peers, r, route, pr);
    } else {
      assert rules == Init(rules) + [Last(rules)];
      RuleRouteIff(pr, peers, r, route);
    }
  }

  /** A policy route comes from one rule, and every target of a rule with a known next hop has its route. */
  lemma PolicyRouteIff(rules: seq<PolicyRule>, peers: seq<Peer>, r: Resolver, route: StaticRoute)
    ensures route in PolicyRoutes(rules, peers, r) <==> exists pr :: pr in rules && RoutedBy(pr, peers, r, route)
  {
    if route in PolicyRoutes(rules, peers, r) {
      var pr := RouteHasRule(rules, peers, r, route);
    }
    if pr :| pr in rules && RoutedBy(pr, peers, r, route) {
      RuleHasRoute(rules, peers, r, route, pr);
    }
  }

  // ---- WireGuard AllowedIPs ----

  function RulesWanted(id: string, rules: seq<PolicyRule>, r: Resolver): seq<string> {
    if rules == [] then []
    else
      RulesWanted(id, Init(rules), r)
      + if NextHopID(Last(rules)) == id && id != "" then Targets(Last(rules), r) else []
  }

  /** What is to travel through peer `id`. The default prefix goes to the egress peer alone. */
  function Wanted(id: string, node: Node, r: Resolver): seq<string> {
    RulesWanted(id, node.policyRules, r)
    + if node.defaultRoute && node.egressPeerID != "" && node.egressPeerID == id then [DEFAULT_PREFIX] else []
  }

  function Augmented(p: Peer, node: Node, r: Resolver): Peer {
    p.(allowedIPs := AppendNew(p.allowedIPs, Wanted(p.id, node, r)))
  }

  function GetTargets(targets: map<string, seq<string>>, id: string): seq<string> {
    if id in targets then targets[id] else []
  }

  lemma RulesWantedStep(id: string, rules: seq<PolicyRule>, i: nat, r: Resolver)
    requires i < |rules|
    ensures RulesWanted(id, rules[..i + 1], r) ==
              RulesWanted(id, rules[..i], r)
              + if NextHopID(rules[i]) == id && id != "" then Targets(rules[i], r) else []
  {
    assert Init(rules[..i + 1]) == rules[..i];
  }

  method AddTarget(targets: map<string, seq<string>>, target: string, pfx: seq<string>)
    returns (targets': map<string, seq<string>>)
    ensures forall id :: GetTargets(targets', id) ==
                         GetTargets(targets, id) + if target == id && id != "" then pfx else []
  {
    targets' := targets;
    if |pfx| > 0 && target != "" {
      targets' := targets[target := GetTargets(targets, target) + pfx];
    }
  }

  method CollectTargets(node: Node, r: Resolver) returns (targets: map<string, seq<string>>)
    ensures forall id :: GetTargets(targets, id) == Wanted(id, node, r)
  {
    targets := map[];
    var rules := node.policyRules;
    for i := 0 to |rules|
      invariant forall id :: GetTargets(targets, id) == RulesWanted(id, rules[..i], r)
    {
      forall id { RulesWantedStep(id, rules, i, r); }
      var pfx := Expand(rules[i], r);
      targets := AddTarget(targets, NextHopID(rules[i]), pfx);
    }
    assert rules[..|rules|] == rules;
    if node.defaultRoute {
      targets := AddTarget(targets, node.egressPeerID, [DEFAULT_PREFIX]);
    }
  }

  method AppendMissing(ips: seq<string>, want: seq<string>) returns (out: seq<string>)
    ensures out == AppendNew(ips, want)
  {
    out := ips;
    var exist := set ip | ip in ips;
    for i := 0 to |want|
      invariant out == AppendNew(ips, want[..i])
      invariant forall ip :: ip in exist <==> ip in out
    {
      assert Init(want[..i + 1]) == want[..i];
      if want[i] !in exist {
        out := out + [want[i]];
        exist := exist + {want[i]};
      }
    }
    assert want[..|want|] == want;
  }

  method AugmentPeer(p: Peer, targets: map<string, seq<string>>, ghost node: Node, ghost r: Resolver) returns (p': Peer)
    requires GetTargets(targets, p.id) == Wanted(p.id, node, r)
    ensures p' == Augmented(p, node, r)
  {
    p' := p;
    if p.id in targets {
      var ips := AppendMissing(p.allowedIPs, targets[p.id]);
      p' := p.(allowedIPs := ips);
    }
  }

  method AugmentAt(peers: array<Peer>, i: nat, targets: map<string, seq<string>>, ghost node: Node, ghost r: Resolver)
    requires i < peers.Length && GetTargets(targets, peers[i].id) == Wanted(peers[i].id, node, r)
    modifies peers
    ensures peers[i] == Augmented(old(peers[i]), node, r)
    ensures forall j :: 0 <= j < peers.Length && j != i ==> peers[j] == old(peers[j])
  {
    var p := AugmentPeer(peers[i], targets, node, r);
    peers[i] := p;
  }

  method AugmentEgressAllowedIPs(peers: array<Peer>, node: Node, r: Resolver)
    modifies peers
    ensures forall i :: 0 <= i < peers.Length ==> peers[i] == Augmented(old(peers[i]), node, r)
  {
    var targets := CollectTargets(node, r);
    for i := 0 to peers.Length
      invariant forall j :: 0 <= j < i ==> peers[j] == Augmented(old(peers[j]), node, r)
      invariant forall j :: i <= j < peers.Length ==> peers[j] == old(peers[j])
    {
      AugmentAt(peers, i, targets, node, r);
    }
  }

  /** The node's files: the peers written to WireGuard, and the routes written to bgpd. */
  method RenderConfigs(node: Node, peers: seq<Peer>, r: Resolver, split: HostSplitter)
    returns (wgPeers: seq<Peer>, routes: seq<StaticRoute>, ports: map<string, nat>)
    ensures Numbers(ports, DistinctHosts(peers, split), 30000)
    ensures |wgPeers| == |peers|
    ensures forall i :: 0 <= i < |peers| ==> wgPeers[i] == Augmented(Rewritten(peers[i], ports, split), node, r)
    ensures routes == DefaultRoutes(node.egressPeerID, peers) + PolicyRoutes(node.policyRules, peers, r)
  {
    var copy := new Peer[|peers|](i requires 0 <= i < |peers| => peers[i]);
    ports := AllocateLocalPorts(peers, 30000, split);
    RewriteEndpoints(copy, ports, split);
    AugmentEgressAllowedIPs(copy, node, r);
    wgPeers := copy[..];
    routes := RenderRoutes(node, peers, r);
  }

  // ---- What augmentation keeps and adds ----

  lemma RulesWantedLast(id: string, rules: seq<PolicyRule>, r: Resolver, t: string)
    requires rules != []
    ensures t in RulesWanted(id, rules, r) <==>
              || t in RulesWanted(id, Init(rules), r)
              || (NextHopID(Last(rules)) == id && id != "" && t in Targets(Last(rules), r))
  {
  }

  lemma {:induction false} WantingRule(id: string, rules: seq<PolicyRule>, r: Resolver, t: string)
    returns (pr: PolicyRule)
    requires t in RulesWanted(id, rules, r)
    ensures id != "" && pr in rules && NextHopID(pr) == id && t in Targets(pr, r)
  {
    RulesWantedLast(id, rules, r, t);
    if t in RulesWanted(id, Init(rules), r) {
      pr := WantingRule(id, Init(rules), r, t);
    } else {
      pr := Last(rules);
    }
  }

  lemma {:induction false} RuleWants(id: string, rules: seq<PolicyRule>, r: Resolver, t: string, i: nat)
    requires id != "" && i < |rules| && NextHopID(rules[i]) == id && t in Targets(rules[i], r)
    ensures t in RulesWanted(id, rules, r)
  {
    RulesWantedLast(id, rules, r, t);
    if i < |rules| - 1 {
      RuleWants(id, Init(rules), r, t, i);
    }
  }

  lemma RulesWantedMembers(id: string, rules: seq<PolicyRule>, r: Resolver, t: string)
    ensures t in RulesWanted(id, rules, r) <==>
              id != "" && exists pr :: pr in rules && NextHopID(pr) == id && t in Targets(pr, r)
  {
    if t in RulesWanted(id, rules, r) {
      var pr := WantingRule(id, rules, r, t);
    }
    if pr :| id != "" && pr in rules && NextHopID(pr) == id && t in Targets(pr, r) {
      var i :| 0 <= i < |rules| && rules[i] == pr;
      RuleWants(id, rules, r, t, i);
    }
  }

  /**
    Augmentation only appends, adds no repetition, keeps the next-hop address first,
    and a second pass changes nothing.
   */
  lemma AugmentationStable(p: Peer, node: Node, r: Resolver)
    ensures p.allowedIPs <= Augmented(p, node, r).allowedIPs
    ensures NoDup(p.allowedIPs) ==> NoDup(Augmented(p, node, r).allowedIPs)
    ensures p.allowedIPs != [] ==> Augmented(p, node, r).allowedIPs[0] == p.allowedIPs[0]
    ensures Augmented(Augmented(p, node, r), node, r) == Augmented(p, node, r)
  {
    AppendNewFacts(p.allowedIPs, Wanted(p.id, node, r));
    AppendNewPresent(Augmented(p, node, r).allowedIPs, Wanted(p.id, node, r));
  }

  // ---- Agreement of the back ends ----

  /**
    Every policy route goes to the overlay address of a peer whose augmented AllowedIPs
    carry the prefix. It can fail for a peer without an ID only, which augmentation skips.
   */
  lemma RouteIsCarried(node: Node, peers: seq<Peer>, r: Resolver, route: StaticRoute) returns (k: nat)
    requires route in PolicyRoutes(node.policyRules, peers, r)
    ensures Chosen(route.via, peers, k) && StripMask(peers[k].allowedIPs[0]) == route.nextHop
    ensures route.prefix in Augmented(peers[k], node, r).allowedIPs
       <==> route.via != "" || route.prefix in peers[k].allowedIPs
  {
    PolicyRouteIff(node.policyRules, peers, r, route);
    k := ChooseOverlay(route.via, peers);
    AppendNewFacts(peers[k].allowedIPs, Wanted(peers[k].id, node, r));
    RulesWantedMembers(peers[k].id, node.policyRules, r, route.prefix);
  }

  /**
    The converse: for a peer with an ID and an overlay address, the prefixes that the rules
    add to its AllowedIPs are exactly the prefixes routed to it.
   */
  lemma CarriedIsRouted(node: Node, peers: seq<Peer>, r: Resolver, id: string, t: string)
    requires id != "" && OverlayForPeer(id, peers) != ""
    ensures t in RulesWanted(id, node.policyRules, r)
       <==> exists route :: route in PolicyRoutes(node.policyRules, peers, r) && route.via == id && route.prefix == t
  {
    RulesWantedMembers(id, node.policyRules, r, t);
    var route := StaticRoute(t, id, StripMask(OverlayForPeer(id, peers)));
    PolicyRouteIff(node.policyRules, peers, r, route);
    if route' :| route' in PolicyRoutes(node.policyRules, peers, r) && route'.via == id && route'.prefix == t {
      PolicyRouteIff(node.policyRules, peers, r, route');
    }
  }

  /** applyStaticRoutes: the peer the kernel's default route goes to; "" when none is installed. */
  function KernelDefaultVia(node: Node, peers: seq<Peer>): string {
    var target := if node.defaultRouteNextHop != "" then node.defaultRouteNextHop else node.egressPeerID;
    if node.defaultRoute && OverlayForPeer(target, peers) != "" then target else ""
  }

  /** With the flag set the default goes to the named next hop, or if none is named to the egress peer, if known. */
  lemma KernelDefaultIff(node: Node, peers: seq<Peer>)
    ensures !node.defaultRoute ==> KernelDefaultVia(node, peers) == ""
    ensures node.defaultRoute && node.defaultRouteNextHop != ""
            && OverlayForPeer(node.defaultRouteNextHop, peers) != "" ==>
              KernelDefaultVia(node, peers) == node.defaultRouteNextHop
    ensures node.defaultRoute && node.defaultRouteNextHop == "" && OverlayForPeer(node.egressPeerID, peers) != "" ==>
              KernelDefaultVia(node, peers) == node.egressPeerID
  {
  }

  /** The default prefix is in the peer's list for no other reason than the default route. */
  ghost predicate NoOtherDefault(p: Peer, node: Node, r: Resolver) {
    DEFAULT_PREFIX !in p.allowedIPs && DEFAULT_PREFIX !in RulesWanted(p.id, node.policyRules, r)
  }

  /** bgpd ignores the DefaultRoute flag, WireGuard does not: they agree exactly when the flag is set. */
  lemma BgpDefaultIsCarried(node: Node, peers: seq<Peer>, r: Resolver) returns (k: nat)
    requires DefaultRoutes(node.egressPeerID, peers) != []
    ensures Chosen(node.egressPeerID, peers, k)
    ensures DefaultRoutes(node.egressPeerID, peers) ==
              [StaticRoute(DEFAULT_PREFIX, node.egressPeerID, StripMask(peers[k].allowedIPs[0]))]
    ensures DEFAULT_PREFIX in Augmented(peers[k], node, r).allowedIPs
       <==> node.defaultRoute || !NoOtherDefault(peers[k], node, r)
  {
    k := ChooseOverlay(node.egressPeerID, peers);
    AppendNewFacts(peers[k].allowedIPs, Wanted(peers[k].id, node, r));
  }

  /**
    The kernel prefers DefaultRouteNextHop, WireGuard knows EgressPeerID only:
    they agree exactly when these name one peer.
   */
  lemma KernelDefaultIsCarried(node: Node, peers: seq<Peer>, r: Resolver) returns (k: nat)
    requires KernelDefaultVia(node, peers) != ""
    ensures Chosen(KernelDefaultVia(node, peers), peers, k)
    ensures DEFAULT_PREFIX in Augmented(peers[k], node, r).allowedIPs
       <==> node.defaultRouteNextHop in {"", node.egressPeerID} || !NoOtherDefault(peers[k], node, r)
  {
    k := ChooseOverlay(KernelDefaultVia(node, peers), peers);
    AppendNewFacts(peers[k].allowedIPs, Wanted(peers[k].id, node, r));
  }
}
