/** mergePlanIntoNode over a sequence of configurations: sticky fields keep the last value sent. */
module AgentMerge {
  import opened Seqs
  import opened Model
  import opened Render
  import opened Prefixes

  /** The parts of a NodeConfigResponse that the merge reads, and the peers the plan is for. */
  datatype NodeConfig = NodeConfig(
    configVersion: string,
    peers: seq<Peer>,
    overlayIP: string,
    listenPort: int,
    asn: int,
    routerID: string,
    routes: seq<string>,
    peerEndpoints: map<string, string>,
    egressPeerID: string,
    policyRules: seq<PolicyRule>,
    defaultRoute: bool,
    bypassCIDRs: seq<string>,
    defaultRouteNextHop: string)

  const DEFAULT_PORT := 8082

  function MergeAddresses(node: Node, cfg: NodeConfig): Node {
    node.(
      overlayIP := if cfg.overlayIP != "" then cfg.overlayIP else node.overlayIP,
      listenPort := if cfg.listenPort > 0 then cfg.listenPort
                    else if node.listenPort == 0 then DEFAULT_PORT else node.listenPort,
      asn := if cfg.asn > 0 then cfg.asn else node.asn,
      routerID := if cfg.routerID != "" then cfg.routerID else node.routerID,
      cidrs := if cfg.routes != [] then cfg.routes else node.cidrs,
      peerEndpoints := if cfg.peerEndpoints != map[] then cfg.peerEndpoints else node.peerEndpoints)
  }

  function MergePolicy(node: Node, cfg: NodeConfig): Node {
    node.(
      egressPeerID := if cfg.egressPeerID != "" then cfg.egressPeerID else node.egressPeerID,
      policyRules := if cfg.policyRules != [] then cfg.policyRules else node.policyRules,
      defaultRoute := cfg.defaultRoute,
      bypassCIDRs := if cfg.bypassCIDRs != [] then cfg.bypassCIDRs else node.bypassCIDRs,
      defaultRouteNextHop := if cfg.defaultRouteNextHop != "" then cfg.defaultRouteNextHop
                             else node.defaultRouteNextHop)
  }

  function Merge(node: Node, cfg: NodeConfig): Node {
    MergePolicy(MergeAddresses(node, cfg), cfg)
  }

  method UpdateAddresses(node: Node, cfg: NodeConfig) returns (n: Node)
    ensures n == MergeAddresses(node, cfg)
  {
    n := node;
    if cfg.overlayIP != "" {
      n := n.(overlayIP := cfg.overlayIP);
    }
    if cfg.listenPort > 0 {
      n := n.(listenPort := cfg.listenPort);
    } else if n.listenPort == 0 {
      n := n.(listenPort := DEFAULT_PORT);
    }
    if cfg.asn > 0 {
      n := n.(asn := cfg.asn);
    }
    if cfg.routerID != "" {
      n := n.(routerID := cfg.routerID);
    }
    if |cfg.routes| > 0 {
      n := n.(cidrs := cfg.routes);
    }
    if |cfg.peerEndpoints| > 0 {
      n := n.(peerEndpoints := cfg.peerEndpoints);
    }
  }

  method UpdatePolicy(node: Node, cfg: NodeConfig) returns (n: Node)
    ensures n == MergePolicy(node, cfg)
  {
    n := node;
    if cfg.egressPeerID != "" {
      n := n.(egressPeerID := cfg.egressPeerID);
    }
    if |cfg.policyRules| > 0 {
      n := n.(policyRules := cfg.policyRules);
    }
    n := n.(defaultRoute := cfg.defaultRoute);
    if |cfg.bypassCIDRs| > 0 {
      n := n.(bypassCIDRs := cfg.bypassCIDRs);
    }
    if cfg.defaultRouteNextHop != "" {
      n := n.(defaultRouteNextHop := cfg.defaultRouteNextHop);
    }
  }

  /** What savePlanWithRules pushes to a connected agent; a missing listen port is 8082. */
  function Push(n: Node, peers: seq<Peer>, rules: seq<PolicyRule>, version: string): NodeConfig {
    NodeConfig(version, peers, n.overlayIP, if n.listenPort == 0 then DEFAULT_PORT else n.listenPort, n.asn, n.routerID,
               n.cidrs, n.peerEndpoints, n.egressPeerID, rules, n.defaultRoute, n.bypassCIDRs, n.defaultRouteNextHop)
  }

  /** The agent's two globals. */
  class Agent {
    var latestCfg: NodeConfig
    var latestNode: Node

    constructor (cfg: NodeConfig, node: Node)
      ensures latestCfg == cfg && latestNode == node
    {
      latestCfg, latestNode := cfg, node;
    }

    /** mergePlanIntoNode and the update in handlePlan; a render that fails later does not undo it. */
    method HandlePlan(cfg: NodeConfig, asn: int) returns (nextASN: int)
      modifies this
      ensures latestCfg == cfg && latestNode == Merge(old(latestNode), cfg)
      ensures nextASN == if latestNode.asn > 0 then latestNode.asn else asn
    {
      var n := UpdateAddresses(latestNode, cfg);
      n := UpdatePolicy(n, cfg);
      nextASN := if n.asn > 0 then n.asn else asn;
      latestCfg, latestNode := cfg, n;
    }
  }

  function MergeAll(node: Node, cfgs: seq<NodeConfig>): Node {
    if cfgs == [] then node else Merge(MergeAll(node, Init(cfgs)), Last(cfgs))
  }

  /** The last value that was sent, where None means that nothing was. */
  function LastSent<T>(cfgs: seq<NodeConfig>, field: NodeConfig -> Option<T>, initial: T): T {
    if cfgs == [] then initial
    else
      match field(Last(cfgs))
      case Some(x) => x
      case None => LastSent(Init(cfgs), field, initial)
  }

  function Text(x: string): Option<string> { if x == "" then None else Some(x) }
  function Positive(x: int): Option<int> { if x > 0 then Some(x) else None }
  function Items<T>(x: seq<T>): Option<seq<T>> { if |x| == 0 then None else Some(x) }
  function Entries(x: map<string, string>): Option<map<string, string>> { if |x| == 0 then None else Some(x) }

  lemma {:induction false} StickyText(node: Node, cfgs: seq<NodeConfig>)
    ensures var n := MergeAll(node, cfgs);
            && n.overlayIP == LastSent(cfgs, (c: NodeConfig) => Text(c.overlayIP), node.overlayIP)
            && n.routerID == LastSent(cfgs, (c: NodeConfig) => Text(c.routerID), node.routerID)
            && n.egressPeerID == LastSent(cfgs, (c: NodeConfig) => Text(c.egressPeerID), node.egressPeerID)
            && n.defaultRouteNextHop ==
                 LastSent(cfgs, (c: NodeConfig) => Text(c.defaultRouteNextHop), node.defaultRouteNextHop)
  {
    if cfgs != [] {
      StickyText(node, Init(cfgs));
    }
  }

  lemma {:induction false} StickyLists(node: Node, cfgs: seq<NodeConfig>)
    ensures var n := MergeAll(node, cfgs);
            && n.cidrs == LastSent(cfgs, (c: NodeConfig) => Items(c.routes), node.cidrs)
            && n.policyRules == LastSent(cfgs, (c: NodeConfig) => Items(c.policyRules), node.policyRules)
            && n.bypassCIDRs == LastSent(cfgs, (c: NodeConfig) => Items(c.bypassCIDRs), node.bypassCIDRs)
            && n.peerEndpoints == LastSent(cfgs, (c: NodeConfig) => Entries(c.peerEndpoints), node.peerEndpoints)
  {
    if cfgs != [] {
      StickyLists(node, Init(cfgs));
    }
  }

  /** The port falls back to 8082 with the first configuration, unless the node started with one. */
  lemma {:induction false} StickyNumbers(node: Node, cfgs: seq<NodeConfig>)
    ensures var n := MergeAll(node, cfgs);
            && n.asn == LastSent(cfgs, (c: NodeConfig) => Positive(c.asn), node.asn)
            && n.defaultRoute == LastSent(cfgs, (c: NodeConfig) => Some(c.defaultRoute), node.defaultRoute)
            && n.listenPort == LastSent(cfgs, (c: NodeConfig) => Positive(c.listenPort),
                                        if cfgs != [] && node.listenPort == 0 then DEFAULT_PORT else node.listenPort)
  {
    if cfgs != [] {
      StickyNumbers(node, Init(cfgs));
      if Init(cfgs) == [] {
        assert MergeAll(node, Init(cfgs)) == node;
      } else {
        PortIsSet(node, Init(cfgs));
      }
    }
  }

  lemma {:induction false} PortIsSet(node: Node, cfgs: seq<NodeConfig>)
    requires cfgs != []
    ensures MergeAll(node, cfgs).listenPort != 0
  {
    if Init(cfgs) != [] {
      PortIsSet(node, Init(cfgs));
    }
  }

  /** Fields the controller never sends are the node's own for ever. */
  lemma {:induction false} MergeKeepsOwnFields(node: Node, cfgs: seq<NodeConfig>)
    ensures var n := MergeAll(node, cfgs);
            && n.id == node.id && n.publicKey == node.publicKey && n.privateKey == node.privateKey
            && n.endpoints == node.endpoints && n.provisionToken == node.provisionToken
  {
    if cfgs != [] {
      MergeKeepsOwnFields(node, Init(cfgs));
    }
  }

  lemma MergeTwice(node: Node, cfg: NodeConfig)
    ensures Merge(Merge(node, cfg), cfg) == Merge(node, cfg)
  {
  }

  /** A configuration sent twice in a row counts once. */
  lemma RepeatedConfigCountsOnce(node: Node, cfgs: seq<NodeConfig>, cfg: NodeConfig)
    ensures MergeAll(node, cfgs + [cfg] + [cfg]) == MergeAll(node, cfgs + [cfg])
  {
    assert Init(cfgs + [cfg] + [cfg]) == cfgs + [cfg];
    MergeTwice(MergeAll(node, cfgs), cfg);
    assert Init(cfgs + [cfg]) == cfgs;
  }

  /** An agent is without rules only if it was never sent any and started with none. */
  lemma {:induction false} HoldsNoRulesIff(node: Node, cfgs: seq<NodeConfig>)
    ensures MergeAll(node, cfgs).policyRules == []
       <==> node.policyRules == [] && forall c :: c in cfgs ==> c.policyRules == []
  {
    if cfgs != [] {
      HoldsNoRulesIff(node, Init(cfgs));
      assert cfgs == Init(cfgs) + [Last(cfgs)];
    }
  }

  lemma {:induction false} RulesStay(node: Node, cfgs: seq<NodeConfig>, later: seq<NodeConfig>)
    requires forall c :: c in later ==> c.policyRules == []
    ensures MergeAll(node, cfgs + later).policyRules == MergeAll(node, cfgs).policyRules
  {
    if later == [] {
      assert cfgs + later == cfgs;
    } else {
      assert Init(cfgs + later) == cfgs + Init(later);
      assert Last(cfgs + later) in later;
      assert forall c :: c in Init(later) ==> c in later;
      RulesStay(node, cfgs, Init(later));
    }
  }

  /**
    The controller cannot withdraw a node's last rules: after plans without rules the agent still writes, for the
    peers of the latest plan, exactly the routes of the rules it held before.
   */
  lemma RulesCannotBeCleared(
    node: Node, cfgs: seq<NodeConfig>, later: seq<NodeConfig>, peers: seq<Peer>, r: Resolver, route: StaticRoute)
    requires forall c :: c in later ==> c.policyRules == []
    ensures var agent := MergeAll(node, cfgs + later);
            route in PolicyRoutes(agent.policyRules, peers, r) <==>
              exists pr :: pr in MergeAll(node, cfgs).policyRules && RoutedBy(pr, peers, r, route)
  {
    RulesStay(node, cfgs, later);
    PolicyRouteIff(MergeAll(node, cfgs).policyRules, peers, r, route);
  }

  /** What an agent holds after the push of a plan saved for node `n`: what `n` has set, and else its own. */
  lemma PushedRecord(agent: Node, n: Node, peers: seq<Peer>, rules: seq<PolicyRule>, version: string)
    ensures var m := Merge(agent, Push(n, peers, rules, version));
            && m.overlayIP == (if n.overlayIP != "" then n.overlayIP else agent.overlayIP)
            && (n.listenPort > 0 ==> m.listenPort == n.listenPort) && (n.listenPort == 0 ==> m.listenPort == 8082)
            && m.asn == (if n.asn > 0 then n.asn else agent.asn)
            && m.routerID == (if n.routerID != "" then n.routerID else agent.routerID)
            && m.cidrs == (if n.cidrs != [] then n.cidrs else agent.cidrs)
            && m.peerEndpoints == (if n.peerEndpoints != map[] then n.peerEndpoints else agent.peerEndpoints)
            && m.egressPeerID == (if n.egressPeerID != "" then n.egressPeerID else agent.egressPeerID)
            && m.policyRules == (if rules != [] then rules else agent.policyRules)
            && m.defaultRoute == n.defaultRoute
            && m.bypassCIDRs == (if n.bypassCIDRs != [] then n.bypassCIDRs else agent.bypassCIDRs)
            && m.defaultRouteNextHop ==
                 (if n.defaultRouteNextHop != "" then n.defaultRouteNextHop else agent.defaultRouteNextHop)
            && m.id == agent.id && m.publicKey == agent.publicKey && m.privateKey == agent.privateKey
            && m.endpoints == agent.endpoints && m.provisionToken == agent.provisionToken
    ensures Push(n, peers, rules, version).peers == peers && Push(n, peers, rules, version).configVersion == version
  {
  }
}
