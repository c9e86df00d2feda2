/**
  From the node table to the packets: what a recomputation stores, what the agents
  make of it, and where the installed routes lead.
 */
module EndToEnd {
  import opened Seqs
  import opened Text
  import opened Model
  import opened Prefixes
  import opened PathCompiler
  import opened Render
  import opened Forwarding
  import opened Topology
  import opened ControlPlane
  import P = Plans
  import R = Registration
  import A = AgentMerge

  // ---- What a recomputation stores ----

  /** The plan repeats the node's own prefixes and routing settings. */
  ghost predicate CarriesSettings(p: Plan, n: Node) {
    && p.routes == n.cidrs && p.peerEndpoints == n.peerEndpoints
    && p.egressPeerID == n.egressPeerID && p.defaultRoute == n.defaultRoute
    && p.bypassCIDRs == n.bypassCIDRs && p.defaultRouteNextHop == n.defaultRouteNextHop
  }

  lemma {:induction false} PlanAfterSaves(
    s: P.PlanState, hash: P.Hash, order: seq<Node>, health: Health, now: string, es: seq<P.Event>, i: nat)
    requires DistinctIDs(order) && SavesInTurn(order, health, now, es) && i < |es|
    ensures var s' := P.RunFrom(s, hash, es); var id := order[i].id;
            && id in s'.plans
            && s'.plans[id].policyRules == RulesAt(Emissions(order), id)
            && IsPeerPlan(id, order, health, s'.plans[id].peers)
            && CarriesSettings(s'.plans[id], order[i])
    decreases |es|
  {
    if i < |es| - 1 {
      PlanAfterSaves(s, hash, order, health, now, Init(es), i);
      assert order[i].id != order[|es| - 1].id;
    }
  }

  function IDs(nodes: seq<Node>): set<string> {
    set n | n in nodes :: n.id
  }

  /** The routing settings of a plan, as a record. */
  function PlanRecord(p: Plan): Node {
    ZERO_NODE.(
      id := p.nodeID, cidrs := p.routes, peerEndpoints := p.peerEndpoints, egressPeerID := p.egressPeerID,
      policyRules := p.policyRules, defaultRoute := p.defaultRoute, bypassCIDRs := p.bypassCIDRs,
      defaultRouteNextHop := p.defaultRouteNextHop)
  }

  function ConfigOf(p: Plan): Config {
    Config(PlanRecord(p), p.peers)
  }

  /** What the latest plans of the listed nodes say. */
  function Published(s: P.PlanState, nodes: seq<Node>): Deployment {
    map x | x in IDs(nodes) && x in s.plans :: ConfigOf(s.plans[x])
  }

  /** Two listings of the same nodes. */
  ghost predicate SameNodes(a: seq<Node>, b: seq<Node>) {
    forall n :: n in a <==> n in b
  }

  lemma SameNodesCompileAlike(a: seq<Node>, b: seq<Node>, x: string, rule: PolicyRule)
    requires SameNodes(a, b) && rule in RulesAt(Emissions(a), x)
    ensures rule in RulesAt(Emissions(b), x)
  {
    var i, j := CompiledRuleOrigin(a, x, rule);
    var n := a[i];
    assert n in a;
    var k :| 0 <= k < |b| && b[k] == n;
    OriginIsEmitted(b, k, j, Emission(x, rule));
    RulesAtMember(Emissions(b), x, rule);
  }

  /** The configuration was made for `x` from some listing of the nodes and the given reports. */
  ghost predicate MadeFrom(nodes: seq<Node>, health: Health, x: string, c: Config) {
    exists order :: MadeFromListing(nodes, health, x, c, order)
  }

  ghost predicate MadeFromListing(nodes: seq<Node>, health: Health, x: string, c: Config, order: seq<Node>) {
    && SameNodes(order, nodes) && DistinctIDs(order)
    && c.node.policyRules == RulesAt(Emissions(order), x)
    && IsPeerPlan(x, order, health, c.peers)
  }

  lemma MadeFromRunsRules(nodes: seq<Node>, health: Health, x: string, c: Config)
    requires MadeFrom(nodes, health, x, c)
    ensures RunsRules(nodes, c, x)
  {
    var order :| MadeFromListing(nodes, health, x, c, order);
    forall rule ensures rule in c.node.policyRules <==> rule in RulesAt(Emissions(nodes), x) {
      if rule in RulesAt(Emissions(order), x) {
        SameNodesCompileAlike(order, nodes, x, rule);
      }
      if rule in RulesAt(Emissions(nodes), x) {
        SameNodesCompileAlike(nodes, order, x, rule);
      }
    }
  }

  /** Each listed node, and no other, has a configuration made from the reports that `seen` gives for it. */
  ghost predicate AllMadeFrom(nodes: seq<Node>, seen: string -> Health, d: Deployment) {
    && (forall x :: x in d <==> exists n :: n in nodes && n.id == x)
    && forall x :: x in d ==> MadeFrom(nodes, seen(x), x, d[x])
  }

  lemma AllMadeFromDeploys(nodes: seq<Node>, seen: string -> Health, d: Deployment)
    requires AllMadeFrom(nodes, seen, d)
    ensures Deployed(nodes, d)
  {
    forall x | x in d ensures RunsRules(nodes, d[x], x) {
      MadeFromRunsRules(nodes, seen(x), x, d[x]);
    }
  }

  lemma RecomputeDeploys(
    s: P.PlanState, hash: P.Hash, order: seq<Node>, health: Health, now: string, es: seq<P.Event>, n: Node)
    requires DistinctIDs(order) && IsRecompute(order, health, now, es) && n in order
    ensures var s' := P.RunFrom(s, hash, es);
            && n.id in s'.plans && CarriesSettings(s'.plans[n.id], n)
            && s'.plans[n.id].policyRules == RulesAt(Emissions(order), n.id)
            && IsPeerPlan(n.id, order, health, s'.plans[n.id].peers)
  {
    var i :| 0 <= i < |order| && order[i] == n;
    PlanAfterSaves(s, hash, order, health, now, es, i);
  }

  // ---- Plans made after the recomputation ----

  /** An event of the plan store with the listing and the reports its handler went by. */
  datatype Refresh = Refresh(event: P.Event, order: seq<Node>, health: Health)

  /**
    What health reports, plan fetches, recomputations and bumps do while the node table stays as it is: a plan for a
    listed node repeats its compiled rules and is its peer plan for the reports in question. A rollback is none.
   */
  ghost predicate IsRefresh(nodes: seq<Node>, f: Refresh) {
    && SameNodes(f.order, nodes) && DistinctIDs(f.order)
    && match f.event
       case Bump => true
       case RollbackTo(_, _) => false
       case Save(node, peers, rules, _) =>
         node.id in IDs(nodes) ==>
           rules == RulesAt(Emissions(f.order), node.id) && IsPeerPlan(node.id, f.order, f.health, peers)
  }

  function Events(later: seq<Refresh>): seq<P.Event> {
    if later == [] then [] else Events(Init(later)) + [Last(later).event]
  }

  /** The reports by which the latest plan of `x` was made. */
  function LastSeen(later: seq<Refresh>, before: Health, x: string): Health {
    if later == [] then before
    else if Last(later).event.Save? && Last(later).event.node.id == x then Last(later).health
    else LastSeen(Init(later), before, x)
  }

  lemma RefreshStep(
    s: P.PlanState, hash: P.Hash, nodes: seq<Node>, f: Refresh, health: Health, x: string)
    requires IsRefresh(nodes, f)
    requires x in IDs(nodes) && x in s.plans && MadeFrom(nodes, health, x, ConfigOf(s.plans[x]))
    ensures var s' := P.Step(s, hash, f.event);
            var seen := if f.event.Save? && f.event.node.id == x then f.health else health;
            x in s'.plans && MadeFrom(nodes, seen, x, ConfigOf(s'.plans[x]))
  {
    if f.event.Save? && f.event.node.id == x {
      assert MadeFromListing(nodes, f.health, x, ConfigOf(P.Step(s, hash, f.event).plans[x]), f.order);
    }
  }

  lemma {:induction false} RefreshesKeepPlans(
    s: P.PlanState, hash: P.Hash, nodes: seq<Node>, health: Health, later: seq<Refresh>, x: string)
    requires forall f :: f in later ==> IsRefresh(nodes, f)
    requires x in IDs(nodes) && x in s.plans && MadeFrom(nodes, health, x, ConfigOf(s.plans[x]))
    ensures var s' := P.RunFrom(s, hash, Events(later));
            x in s'.plans && MadeFrom(nodes, LastSeen(later, health, x), x, ConfigOf(s'.plans[x]))
  {
    if later != [] {
      var f := Last(later);
      assert later == Init(later) + [f];
      assert f in later && IsRefresh(nodes, f);
      RefreshesKeepPlans(s, hash, nodes, health, Init(later), x);
      assert Init(Events(later)) == Events(Init(later));
      RefreshStep(P.RunFrom(s, hash, Events(Init(later))), hash, nodes, f, LastSeen(Init(later), health, x), x);
    }
  }

  // ---- Which next hops the plans know ----

  lemma PlannedOverlay(order: seq<Node>, health: Health, x: string, plan: seq<Peer>, m: Node)
    requires DistinctIDs(order) && IsPeerPlan(x, order, health, plan)
    requires m in order && Eligible(x, m, health)
    ensures OverlayForPeer(m.id, plan) == PeerOf(m).allowedIPs[0]
  {
    PlanMembers(x, order, health, plan, PeerOf(m));
    PlannedAllowedIPs(x, m, health);
    FoundOverlay(m.id, plan, PeerOf(m));
    forall p | p in plan && p.id == m.id ensures p == PeerOf(m) {
      PlanMembers(x, order, health, plan, p);
      var n :| n in order && Eligible(x, n, health) && p == PeerOf(n);
      var i :| 0 <= i < |order| && order[i] == n;
      var j :| 0 <= j < |order| && order[j] == m;
      assert i == j;
    }
  }

  lemma {:induction false} FoundOverlay(id: string, peers: seq<Peer>, p: Peer)
    requires p in peers && p.id == id && p.allowedIPs != []
    ensures exists q :: q in peers && q.id == id && q.allowedIPs != [] && OverlayForPeer(id, peers) == q.allowedIPs[0]
  {
    if peers[0].id == id && peers[0].allowedIPs != [] {
      assert peers[0] in peers;
    } else {
      FoundOverlay(id, peers[1..], p);
      assert forall q :: q in peers[1..] ==> q in peers;
    }
  }

  /**
    Next hop `y` of `x` is a listed node with a name, a key, prefixes and no "down" report,
    and has an overlay address or else a first prefix.
   */
  ghost predicate HopPlanned(nodes: seq<Node>, health: Health, x: string, y: string) {
    && y != ""
    && exists m :: m in nodes && m.id == y && Eligible(x, m, health) && (m.overlayIP != "" || m.cidrs[0] != "")
  }

  /** A configuration knows an address for exactly the next hops that table and reports plan for its node. */
  lemma KnowsIffPlanned(nodes: seq<Node>, health: Health, x: string, c: Config, y: string)
    requires MadeFrom(nodes, health, x, c)
    ensures Knows(c, y) <==> HopPlanned(nodes, health, x, y)
  {
    var order :| MadeFromListing(nodes, health, x, c, order);
    if Knows(c, y) {
      var k := ChooseOverlay(y, c.peers);
      PlanMembers(x, order, health, c.peers, c.peers[k]);
      var m :| m in order && Eligible(x, m, health) && c.peers[k] == PeerOf(m);
      PlannedAllowedIPs(x, m, health);
    }
    if HopPlanned(nodes, health, x, y) {
      var m :| m in nodes && m.id == y && Eligible(x, m, health) && (m.overlayIP != "" || m.cidrs[0] != "");
      PlannedOverlay(order, health, x, c.peers, m);
      PlannedAllowedIPs(x, m, health);
    }
  }

  // ---- What the agents run ----

  /** The configuration pushed with a plan; `rest` gives what does not come from the plan. */
  function Pushed(rest: A.NodeConfig, c: Config): A.NodeConfig {
    rest.(
      peers := c.peers, policyRules := c.node.policyRules, routes := c.node.cidrs,
      peerEndpoints := c.node.peerEndpoints, egressPeerID := c.node.egressPeerID, defaultRoute := c.node.defaultRoute,
      bypassCIDRs := c.node.bypassCIDRs, defaultRouteNextHop := c.node.defaultRouteNextHop)
  }

  /** For the plan saved for node `n` that is what the controller pushes. */
  lemma PushedIsPush(hash: P.Hash, v: int, n: Node, peers: seq<Peer>, rules: seq<PolicyRule>, now: string)
    ensures var p := P.NewPlan(hash, v, n, peers, rules, now);
            Pushed(A.Push(n, [], [], p.configVersion), ConfigOf(p)) == A.Push(n, peers, rules, p.configVersion)
  {
  }

  /** The agents after each has merged its plan: agent `x` had the record `agents[x]`. */
  function Running(d: Deployment, agents: map<string, Node>, rest: string -> A.NodeConfig): Deployment {
    map x | x in d && x in agents :: Config(A.Merge(agents[x], Pushed(rest(x), d[x])), d[x].peers)
  }

  lemma RunningKeepsUnsent(d: Deployment, agents: map<string, Node>, rest: string -> A.NodeConfig)
    requires d.Keys <= agents.Keys
    ensures KeepsUnsent(d, Running(d, agents, rest))
  {
    assert Running(d, agents, rest).Keys == d.Keys;
  }

  /** The agents' records after all that was sent to them since they started. */
  function Records(starts: map<string, Node>, sent: string -> seq<A.NodeConfig>): map<string, Node> {
    map x | x in starts :: A.MergeAll(starts[x], sent(x))
  }

  /** The agents run the published rules. */
  ghost predicate SameRulesRun(d: Deployment, run: Deployment) {
    run.Keys == d.Keys && forall x :: x in d ==> run[x].node.policyRules == d[x].node.policyRules
  }

  /**
    Whatever was sent before: the agents run exactly the rules that were published if and only if no agent
    that is sent an empty rule list now has ever held a rule.
   */
  lemma AgentsRunPublishedIff(
    d: Deployment, starts: map<string, Node>, sent: string -> seq<A.NodeConfig>, rest: string -> A.NodeConfig)
    requires d.Keys <= starts.Keys
    ensures SameRulesRun(d, Running(d, Records(starts, sent), rest))
       <==> forall x :: x in d && d[x].node.policyRules == [] ==>
              starts[x].policyRules == [] && forall c :: c in sent(x) ==> c.policyRules == []
  {
    var run := Running(d, Records(starts, sent), rest);
    assert run.Keys == d.Keys;
    forall x | x in d
      ensures run[x].node.policyRules == d[x].node.policyRules <==> d[x].node.policyRules == [] ==>
                starts[x].policyRules == [] && forall c :: c in sent(x) ==> c.policyRules == []
    {
      A.HoldsNoRulesIff(starts[x], sent(x));
    }
  }

  // ---- The theorem ----

  /** What the listed nodes find published after a registration was accepted and plans were made again. */
  function PublishedAfter(
    hash: P.Hash, before: seq<P.Event>, order: seq<Node>, es: seq<P.Event>, later: seq<Refresh>): Deployment
  {
    Published(P.RunFrom(P.Run(hash, before + es + [P.Bump]), hash, Events(later)), order)
  }

  /** An accepted registration's recomputation, and what makes plans afterwards. */
  ghost predicate RegistrationThen(
    order: seq<Node>, health: Health, now: string, es: seq<P.Event>, later: seq<Refresh>)
  {
    && DistinctIDs(order) && IsRecompute(order, health, now, es)
    && forall f :: f in later ==> IsRefresh(order, f)
  }

  lemma RegistrationMakes(
    hash: P.Hash, before: seq<P.Event>, order: seq<Node>, health: Health, now: string, es: seq<P.Event>, n: Node)
    requires DistinctIDs(order) && IsRecompute(order, health, now, es) && n in order
    ensures var s := P.Run(hash, before + es + [P.Bump]);
            && n.id in s.plans && CarriesSettings(s.plans[n.id], n)
            && MadeFrom(order, health, n.id, ConfigOf(s.plans[n.id]))
  {
    P.RunFromConcat(P.EMPTY, hash, before, es);
    assert Init(before + es + [P.Bump]) == before + es;
    var s := P.RunFrom(P.Run(hash, before), hash, es);
    assert P.Run(hash, before + es + [P.Bump]).plans == s.plans;
    RecomputeDeploys(P.Run(hash, before), hash, order, health, now, es, n);
    assert MadeFromListing(order, health, n.id, ConfigOf(s.plans[n.id]), order);
  }

  lemma RegistrationDeploys(
    hash: P.Hash, before: seq<P.Event>, order: seq<Node>, health: Health, now: string, es: seq<P.Event>,
    later: seq<Refresh>)
    requires RegistrationThen(order, health, now, es, later)
    ensures AllMadeFrom(order, x => LastSeen(later, health, x), PublishedAfter(hash, before, order, es, later))
  {
    var s := P.Run(hash, before + es + [P.Bump]);
    var s' := P.RunFrom(s, hash, Events(later));
    forall n | n in order
      ensures n.id in s'.plans && MadeFrom(order, LastSeen(later, health, n.id), n.id, ConfigOf(s'.plans[n.id]))
    {
      RegistrationMakes(hash, before, order, health, now, es, n);
      RefreshesKeepPlans(s, hash, order, health, later, n.id);
    }
  }

  lemma ListingsAgree(a: seq<Node>, b: seq<Node>, table: map<string, Node>)
    requires R.IsListing(a, table) && R.IsListing(b, table)
    ensures SameNodes(a, b) && DistinctIDs(a)
  {
    forall n | n in a ensures n in b {
      var i :| 0 <= i < |a| && a[i] == n;
    }
    forall n | n in b ensures n in a {
      var i :| 0 <= i < |b| && b[i] == n;
    }
  }

  /** What the health handler saves in a table is a refresh, made without any reports. */
  lemma ReportIsRefresh(
    table: map<string, Node>, nodes: seq<Node>, order: seq<Node>, id: string, peers: seq<Peer>, now: string)
    requires R.IsListing(nodes, table) && R.IsListing(order, table) && IsPeerPlan(id, order, map[], peers)
    ensures var e := P.Save(ZERO_NODE.(id := id), peers, RulesAt(Emissions(order), id), now);
            IsRefresh(nodes, Refresh(e, order, map[]))
  {
    ListingsAgree(order, nodes, table);
  }

  /** What the plan handler saves is one, made from all reports; an unknown node's plan concerns no listed node. */
  lemma FetchIsRefresh(
    es: seq<R.Event>, nodes: seq<Node>, order: seq<Node>, health: Health, id: string, peers: seq<Peer>, now: string)
    requires R.IsListing(nodes, R.RunFrom(R.EMPTY, es).nodes) && R.IsListing(order, R.RunFrom(R.EMPTY, es).nodes)
    requires IsPeerPlan(id, order, health, peers)
    ensures var table := R.RunFrom(R.EMPTY, es).nodes;
            var n := if id in table && table[id].id == id then table[id] else ZERO_NODE;
            IsRefresh(nodes, Refresh(P.Save(n, peers, RulesAt(Emissions(order), id), now), order, health))
  {
    R.NoEmptyID(es);
    ListingsAgree(order, nodes, R.RunFrom(R.EMPTY, es).nodes);
  }

  /** Each hop is planned for the node before it by the reports of its plan, or is what that node falls back to. */
  ghost predicate HopsPlanned(
    nodes: seq<Node>, later: seq<Refresh>, health: Health, run: Deployment, r: Resolver, t: string)
  {
    forall x, y :: Continues(nodes, r, t, x, Some(y)) ==> HopFit(nodes, LastSeen(later, health, x), run, r, t, x, y)
  }

  ghost predicate HopFit(
    nodes: seq<Node>, health: Health, run: Deployment, r: Resolver, t: string, x: string, y: string)
  {
    x in run && (HopPlanned(nodes, health, x, y) || Fallback(run[x], r, t) == Some(y))
  }

  lemma FitIffPlanned(
    nodes: seq<Node>, seen: string -> Health, d: Deployment, run: Deployment, r: Resolver, t: string, x: string,
    y: string)
    requires AllMadeFrom(nodes, seen, d) && KeepsUnsent(d, run)
    ensures Fit(run, r, t, x, Some(y)) <==> HopFit(nodes, seen(x), run, r, t, x, y)
  {
    if x in run {
      KnowsIffPlanned(nodes, seen(x), x, d[x], y);
    }
  }

  lemma HopsServedIffPlanned(
    nodes: seq<Node>, later: seq<Refresh>, health: Health, d: Deployment, run: Deployment, r: Resolver, t: string)
    requires AllMadeFrom(nodes, x => LastSeen(later, health, x), d) && KeepsUnsent(d, run)
    ensures HopsServed(nodes, run, r, t) <==> HopsPlanned(nodes, later, health, run, r, t)
  {
    var seen := (x: string) => LastSeen(later, health, x);
    if HopsServed(nodes, run, r, t) {
      forall x, y | Continues(nodes, r, t, x, Some(y)) ensures HopFit(nodes, seen(x), run, r, t, x, y) {
        assert Fit(run, r, t, x, Some(y));
        FitIffPlanned(nodes, seen, d, run, r, t, x, y);
      }
    }
    if HopsPlanned(nodes, later, health, run, r, t) {
      forall x, y | Continues(nodes, r, t, x, Some(y)) ensures Fit(run, r, t, x, Some(y)) {
        assert HopFit(nodes, LastSeen(later, health, x), run, r, t, x, y);
        FitIffPlanned(nodes, seen, d, run, r, t, x, y);
      }
    }
  }

  /**
    After an accepted registration in any state the controller can be in, after any reports and plan fetches that
    follow, and whatever the agents hold: once they have merged their latest plans, packets for `t` retrace every
    source path if and only if the paths agree at shared nodes, every hop is planned for the node before it by the
    reports its plan was made from, and no agent at the end of a path leads on: by a rule, new or withdrawn, by its
    default route, or because a peer announces `t`.
   */
  lemma RegistrationDeploysPaths(
    hash: P.Hash, before: seq<P.Event>, order: seq<Node>, health: Health, now: string, es: seq<P.Event>,
    later: seq<Refresh>, agents: map<string, Node>, rest: string -> A.NodeConfig, r: Resolver, t: string)
    requires RegistrationThen(order, health, now, es, later)
    requires forall n :: n in order ==> n.id in agents
    ensures var run := Running(PublishedAfter(hash, before, order, es, later), agents, rest);
            AllRetrace(order, run, r, t) <==>
              PathsAgree(order, r, t) && HopsPlanned(order, later, health, run, r, t) && EndsQuiet(order, run, r, t)
  {
    var d := PublishedAfter(hash, before, order, es, later);
    RegistrationDeploys(hash, before, order, health, now, es, later);
    AllMadeFromDeploys(order, x => LastSeen(later, health, x), d);
    RunningKeepsUnsent(d, agents, rest);
    HopsServedIffPlanned(order, later, health, d, Running(d, agents, rest), r, t);
    KeptRulesPreservePathsIff(order, d, Running(d, agents, rest), r, t);
  }

  /**
    And then, at every planned hop of agreeing paths, the agent's route leads to the next hop's overlay
    address, its WireGuard configuration admits `t` for that peer, and the rules add `t` to no other peer.
   */
  lemma RegistrationCarriesHops(
    hash: P.Hash, before: seq<P.Event>, order: seq<Node>, health: Health, now: string, es: seq<P.Event>,
    later: seq<Refresh>, agents: map<string, Node>, rest: string -> A.NodeConfig, r: Resolver, t: string,
    x: string, y: string)
    returns (k: nat)
    requires RegistrationThen(order, health, now, es, later)
    requires forall m :: m in order ==> m.id in agents
    requires PathsAgree(order, r, t) && Continues(order, r, t, x, Some(y))
    requires x in IDs(order) && HopPlanned(order, LastSeen(later, health, x), x, y)
    ensures var run := Running(PublishedAfter(hash, before, order, es, later), agents, rest);
            && x in run && Chosen(y, run[x].peers, k)
            && StaticRoute(t, y, StripMask(run[x].peers[k].allowedIPs[0])) in ConfigRoutes(run[x], r)
            && t in Augmented(run[x].peers[k], run[x].node, r).allowedIPs
            && forall p: Peer :: p.id != y ==>
                 (t in Augmented(p, run[x].node, r).allowedIPs <==> Claims(p, run[x].node, t))
  {
    var d := PublishedAfter(hash, before, order, es, later);
    var run := Running(d, agents, rest);
    RegistrationDeploys(hash, before, order, health, now, es, later);
    AllMadeFromDeploys(order, z => LastSeen(later, health, z), d);
    RunningKeepsUnsent(d, agents, rest);
    assert x in run;
    KnowsIffPlanned(order, LastSeen(later, health, x), x, d[x], y);
    ForwarderRuns(order, d, run, r, t, x, y);
    k := HopIsCarried(order, run[x], r, t, x, y);
  }

  // ---- The order of the listing ----

  ghost predicate SameDefaults(a: Node, b: Node) {
    && a.defaultRoute == b.defaultRoute && a.egressPeerID == b.egressPeerID
    && a.defaultRouteNextHop == b.defaultRouteNextHop
  }

  /** Only what a peer announces leads packets for `t` on: of several such peers the last in the file gets them. */
  predicate FallsBack(c: Config, r: Resolver, t: string) {
    !HasRoute(c, r, t) && Announced(c, r, t) && (HasRoute(c, r, DEFAULT_PREFIX) || DefaultVia(c) == "")
  }

  lemma SamePeersPlanned(nodes: seq<Node>, health: Health, x: string, c: Config, c': Config, p: Peer)
    requires MadeFrom(nodes, health, x, c) && MadeFrom(nodes, health, x, c') && p in c.peers
    ensures p in c'.peers
  {
    var order :| MadeFromListing(nodes, health, x, c, order);
    var order' :| MadeFromListing(nodes, health, x, c', order');
    PlanMembers(x, order, health, c.peers, p);
    PlanMembers(x, order', health, c'.peers, p);
    var n :| n in order && Eligible(x, n, health) && p == PeerOf(n);
    assert n in nodes;
  }

  lemma SameRouteOrNone(nodes: seq<Node>, health: Health, x: string, c: Config, c': Config, r: Resolver, t: string)
    requires MadeFrom(nodes, health, x, c) && MadeFrom(nodes, health, x, c') && PathsAgree(nodes, r, t)
    ensures LastVia(ConfigRoutes(c, r), t) == LastVia(ConfigRoutes(c', r), t)
  {
    MadeFromRunsRules(nodes, health, x, c);
    MadeFromRunsRules(nodes, health, x, c');
    RoutesContinue(nodes, c, r, t, x);
    RoutesContinue(nodes, c', r, t, x);
    forall y ensures Knows(c, y) <==> Knows(c', y) {
      KnowsIffPlanned(nodes, health, x, c, y);
      KnowsIffPlanned(nodes, health, x, c', y);
    }
  }

  /** With agreeing paths, configurations made from two listings forward alike, or both by announcements. */
  lemma ConfigsForwardAlike(nodes: seq<Node>, health: Health, x: string, c: Config, c': Config, r: Resolver, t: string)
    requires MadeFrom(nodes, health, x, c) && MadeFrom(nodes, health, x, c') && SameDefaults(c.node, c'.node)
    requires PathsAgree(nodes, r, t) && PathsAgree(nodes, r, DEFAULT_PREFIX)
    ensures FallsBack(c, r, t) <==> FallsBack(c', r, t)
    ensures !FallsBack(c, r, t) ==> HopFrom(c, r, t) == HopFrom(c', r, t)
  {
    SameRouteOrNone(nodes, health, x, c, c', r, t);
    SameRouteOrNone(nodes, health, x, c, c', r, DEFAULT_PREFIX);
    var target := if c.node.defaultRouteNextHop != "" then c.node.defaultRouteNextHop else c.node.egressPeerID;
    KnowsIffPlanned(nodes, health, x, c, target);
    KnowsIffPlanned(nodes, health, x, c', target);
    assert DefaultVia(c) == DefaultVia(c');
    forall p ensures p in c.peers <==> p in c'.peers {
      if p in c.peers {
        SamePeersPlanned(nodes, health, x, c, c', p);
      }
      if p in c'.peers {
        SamePeersPlanned(nodes, health, x, c', c, p);
      }
    }
  }

  lemma MadeFromSame(nodes: seq<Node>, nodes': seq<Node>, health: Health, x: string, c: Config)
    requires SameNodes(nodes, nodes') && MadeFrom(nodes', health, x, c)
    ensures MadeFrom(nodes, health, x, c)
  {
    var order :| MadeFromListing(nodes', health, x, c, order);
    assert MadeFromListing(nodes, health, x, c, order);
  }

  /**
    Two recomputations of one node table from the same reports, whatever was saved before and in whatever orders
    they list it: with agreeing paths the plans of each node forward alike, or both by announcements only.
   */
  lemma ForwardingIgnoresNodeOrder(
    hash: P.Hash, before: seq<P.Event>, order: seq<Node>, now: string, es: seq<P.Event>,
    before': seq<P.Event>, order': seq<Node>, now': string, es': seq<P.Event>,
    health: Health, r: Resolver, t: string, n: Node)
    requires DistinctIDs(order) && DistinctIDs(order') && SameNodes(order, order') && n in order
    requires IsRecompute(order, health, now, es) && IsRecompute(order', health, now', es')
    requires PathsAgree(order, r, t) && PathsAgree(order, r, DEFAULT_PREFIX)
    ensures var d := PublishedAfter(hash, before, order, es, []);
            var d' := PublishedAfter(hash, before', order', es', []);
            && n.id in d && n.id in d'
            && (FallsBack(d[n.id], r, t) <==> FallsBack(d'[n.id], r, t))
            && (!FallsBack(d[n.id], r, t) ==> NextHop(d, r, t, n.id) == NextHop(d', r, t, n.id))
  {
    RegistrationMakes(hash, before, order, health, now, es, n);
    RegistrationMakes(hash, before', order', health, now', es', n);
    var d, d' := PublishedAfter(hash, before, order, es, []), PublishedAfter(hash, before', order', es', []);
    MadeFromSame(order, order', health, n.id, d'[n.id]);
    ConfigsForwardAlike(order, health, n.id, d[n.id], d'[n.id], r, t);
  }

  /** Two nodes without reports: the plan lists them in the order of the listing, so the order is not immaterial. */
  lemma TiedPeersKeepOrder(x: string, a: Node, b: Node, plan: seq<Peer>)
    requires Eligible(x, a, map[]) && Eligible(x, b, map[])
    requires IsPeerPlan(x, [a, b], map[], plan)
    ensures plan == [PeerOf(a), PeerOf(b)]
  {
    var p, q := Scored(PeerOf(a), UNKNOWN_LATENCY), Scored(PeerOf(b), UNKNOWN_LATENCY);
    assert [a, b] == [a] + [b] && Init([a, b]) == [a] && Init([a]) == [];
    assert Init([p, q]) == [p] && Init([p]) == [];
    assert AreCandidates(x, [a], map[], [p]);
    assert AreCandidates(x, [a, b], map[], [p, q]);
    assert IsStableSort([p, q], [p, q]);
    assert PeersOf([p, q]) == [PeerOf(a), PeerOf(b)];
    PeerPlanUnique(x, [a, b], map[], plan, [PeerOf(a), PeerOf(b)]);
  }

  /** Plans made from a table that a controller can have name all their peers. */
  lemma PlannedPeersAreNamed(
    es: seq<R.Event>, x: string, order: seq<Node>, health: Health, plan: seq<Peer>, p: Peer)
    requires R.IsListing(order, R.RunFrom(R.EMPTY, es).nodes) && IsPeerPlan(x, order, health, plan) && p in plan
    ensures p.id != ""
  {
    R.NoEmptyID(es);
    PlanMembers(x, order, health, plan, p);
    var n :| n in order && Eligible(x, n, health) && p == PeerOf(n);
    var i :| 0 <= i < |order| && order[i] == n;
  }

  // ---- The keys in the plans ----

  /**
    From the prepare of a node, through any run in which no accepted registration of it submits a key,
    to the peer lists made from the table: they carry the public key that belongs to its private key.
   */
  lemma PlansCarryPreparedKey(
    t: R.NodeTable, e: R.Event, es: seq<R.Event>, x: string, order: seq<Node>, health: Health, plan: seq<Peer>, p: Peer)
    requires R.Allocates(t, e) && R.Possible(t, e)
    requires R.LastKey(R.Step(t, e), es, e.id, e.publicKey) == e.publicKey
    requires R.IsListing(order, R.RunFrom(R.Step(t, e), es).nodes)
    requires IsPeerPlan(x, order, health, plan) && p in plan && p.id == e.id
    ensures p.publicKey == e.publicKey
    ensures var n := R.RunFrom(R.Step(t, e), es).nodes; e.id in n && n[e.id].privateKey == e.privateKey
  {
    R.PreparedOverlay(t, e);
    R.PreparedRecord(t, e);
    R.KeysAfterRun(R.Step(t, e), es, e.id);
    PlanMembers(x, order, health, plan, p);
    var n :| n in order && Eligible(x, n, health) && p == PeerOf(n);
    var i :| 0 <= i < |order| && order[i] == n;
  }

  // ---- After a health report ----

  /** The agent's record once it has merged what the health handler pushes, for a node of which only the ID is set. */
  function AfterReport(agent: Node, peers: seq<Peer>, rules: seq<PolicyRule>, version: string): Node {
    A.Merge(agent, A.Push(ZERO_NODE.(id := agent.id), peers, rules, version))
  }

  /**
    A health report switches the reporter's default route off and its port to 8082. So the push leaves the
    agent's record alone if and only if these are so already and the rules pushed are the agent's, or none.
   */
  lemma ReportKeepsRecordIff(agent: Node, peers: seq<Peer>, rules: seq<PolicyRule>, version: string)
    ensures AfterReport(agent, peers, rules, version) == agent
       <==> !agent.defaultRoute && agent.listenPort == A.DEFAULT_PORT && (rules == [] || rules == agent.policyRules)
  {
    var after := AfterReport(agent, peers, rules, version);
    assert after == agent.(defaultRoute := false, listenPort := A.DEFAULT_PORT,
                           policyRules := if rules == [] then agent.policyRules else rules);
  }

  /** Then no default route is installed in the kernel, and on its account WireGuard admits the prefix for no peer. */
  lemma ReportDropsDefaultRoute(
    agent: Node, peers: seq<Peer>, rules: seq<PolicyRule>, version: string, r: Resolver, p: Peer)
    ensures var after := AfterReport(agent, peers, rules, version);
            && KernelDefaultVia(after, peers) == ""
            && (DEFAULT_PREFIX in Augmented(p, after, r).allowedIPs <==> !NoOtherDefault(p, after, r))
  {
    AppendNewFacts(p.allowedIPs, Wanted(p.id, AfterReport(agent, peers, rules, version), r));
  }
}
