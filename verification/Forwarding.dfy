/**
  What the compiled rules do to a packet. The walk follows the kernel's routes of each node's configuration:
  first the policy routes, of which a later one for a prefix replaces an earlier one (`ip route replace`), then the
  default route, then the routes to what peers announce. The main theorem says exactly when the walks retrace every
  source path. bgpd would keep several routes for a prefix; `BgpHasOneRouteIff` says when that makes no difference.
 */
module Forwarding {
  import opened Seqs
  import opened Text
  import opened Model
  import opened Prefixes
  import opened PathCompiler
  import opened Render

  // ---- Walks ----

  /** The nodes a packet visits after `x`, for at most `fuel` hops. */
  function Walk(next: string -> Option<string>, x: string, fuel: nat): seq<string>
    decreases fuel
  {
    if fuel == 0 then []
    else
      match next(x)
      case None => []
      case Some(y) => [y] + Walk(next, y, fuel - 1)
  }

  /** However long it may run, the walk from `src` visits exactly `hops` and stops. */
  ghost predicate Retraces(next: string -> Option<string>, src: string, hops: seq<string>) {
    forall fuel: nat :: fuel >= |hops| ==> Walk(next, src, fuel) == hops
  }

  ghost predicate Chain(next: string -> Option<string>, src: string, hops: seq<string>) {
    && (forall i :: 0 <= i < |hops| ==> next(Forwarder(src, hops, i)) == Some(hops[i]))
    && next(Forwarder(src, hops, |hops|)) == None
  }

  lemma ChainTail(next: string -> Option<string>, src: string, hops: seq<string>)
    requires hops != []
    ensures Chain(next, src, hops) <==> next(src) == Some(hops[0]) && Chain(next, hops[0], hops[1..])
  {
    forall i | 0 <= i < |hops| ensures Forwarder(hops[0], hops[1..], i) == Forwarder(src, hops, i + 1) {
    }
    if next(src) == Some(hops[0]) && Chain(next, hops[0], hops[1..]) {
      forall i | 0 <= i < |hops| ensures next(Forwarder(src, hops, i)) == Some(hops[i]) {
        if i > 0 {
          assert next(Forwarder(hops[0], hops[1..], i - 1)) == Some(hops[1..][i - 1]);
        }
      }
    }
    if Chain(next, src, hops) {
      assert next(Forwarder(src, hops, 0)) == Some(hops[0]);
      forall i | 0 <= i < |hops| - 1 ensures next(Forwarder(hops[0], hops[1..], i)) == Some(hops[1..][i]) {
        assert next(Forwarder(src, hops, i + 1)) == Some(hops[i + 1]);
      }
    }
  }

  lemma {:induction false} WalkOfChain(next: string -> Option<string>, src: string, hops: seq<string>, fuel: nat)
    requires Chain(next, src, hops) && fuel >= |hops|
    ensures Walk(next, src, fuel) == hops
    decreases fuel
  {
    if hops == [] {
      assert next(Forwarder(src, hops, 0)) == None;
    } else {
      ChainTail(next, src, hops);
      WalkOfChain(next, hops[0], hops[1..], fuel - 1);
    }
  }

  lemma {:induction false} ChainOfWalk(next: string -> Option<string>, src: string, hops: seq<string>)
    requires Walk(next, src, |hops| + 1) == hops
    ensures Chain(next, src, hops)
    decreases |hops|
  {
    if hops != [] {
      var y := next(src).value;
      assert hops == [y] + Walk(next, y, |hops|);
      assert hops[1..] == Walk(next, y, |hops|);
      ChainOfWalk(next, y, hops[1..]);
      ChainTail(next, src, hops);
    } else {
      assert next(Forwarder(src, hops, 0)) == None;
    }
  }

  lemma RetracesIffChain(next: string -> Option<string>, src: string, hops: seq<string>)
    ensures Retraces(next, src, hops) <==> Chain(next, src, hops)
  {
    if Chain(next, src, hops) {
      forall fuel: nat | fuel >= |hops| ensures Walk(next, src, fuel) == hops {
        WalkOfChain(next, src, hops, fuel);
      }
    }
    if Retraces(next, src, hops) {
      assert Walk(next, src, |hops| + 1) == hops;
      ChainOfWalk(next, src, hops);
    }
  }

  // ---- Installed routes ----

  /** What one agent renders from: its record and the peers of its plan. */
  datatype Config = Config(node: Node, peers: seq<Peer>)

  type Deployment = map<string, Config>

  /** The peer the route for prefix `t` leads to; the last route replaces the ones before it. */
  function LastVia(routes: seq<StaticRoute>, t: string): Option<string> {
    if routes == [] then None
    else if Last(routes).prefix == t then Some(Last(routes).via)
    else LastVia(Init(routes), t)
  }

  lemma {:induction false} LastViaFacts(routes: seq<StaticRoute>, t: string)
    ensures LastVia(routes, t) == None <==> forall route :: route in routes ==> route.prefix != t
    ensures LastVia(routes, t).Some? ==>
              exists route :: route in routes && route.prefix == t && route.via == LastVia(routes, t).value
  {
    if routes != [] {
      LastViaFacts(Init(routes), t);
      assert routes == Init(routes) + [Last(routes)];
    }
  }

  function ConfigRoutes(c: Config, r: Resolver): seq<StaticRoute> {
    PolicyRoutes(c.node.policyRules, c.peers, r)
  }

  predicate HasRoute(c: Config, r: Resolver, t: string) {
    LastVia(ConfigRoutes(c, r), t).Some?
  }

  function DefaultVia(c: Config): string {
    KernelDefaultVia(c.node, c.peers)
  }

  /** The last peer in the WireGuard file that claims the prefix; WireGuard sends it there. */
  function Owner(peers: seq<Peer>, t: string): Option<string> {
    if peers == [] then None
    else if t in Last(peers).allowedIPs then Some(Last(peers).id)
    else Owner(Init(peers), t)
  }

  function WireGuardPeers(c: Config, r: Resolver): seq<Peer> {
    seq(|c.peers|, i requires 0 <= i < |c.peers| => Augmented(c.peers[i], c.node, r))
  }

  /** syncPeerRoutes has a route into the tunnel for the prefix because a peer announces it. */
  predicate Announced(c: Config, r: Resolver, t: string) {
    t != "" && t != DEFAULT_PREFIX && r.isV4(t) && exists p :: p in c.peers && t in p.allowedIPs
  }

  /**
    Where packets for `t` go without a policy route of their own. One for the default prefix makes everything be
    looked up in the main table, where announced prefixes are; else the default route of table 100 comes first.
   */
  function Fallback(c: Config, r: Resolver, t: string): Option<string> {
    if HasRoute(c, r, DEFAULT_PREFIX) && !Announced(c, r, t) then LastVia(ConfigRoutes(c, r), DEFAULT_PREFIX)
    else if !HasRoute(c, r, DEFAULT_PREFIX) && DefaultVia(c) != "" then Some(DefaultVia(c))
    else if Announced(c, r, t) then Owner(WireGuardPeers(c, r), t)
    else None
  }

  /** Where the node sends packets for `t`. */
  function HopFrom(c: Config, r: Resolver, t: string): Option<string> {
    if HasRoute(c, r, t) then LastVia(ConfigRoutes(c, r), t) else Fallback(c, r, t)
  }

  function NextHop(d: Deployment, r: Resolver, t: string, x: string): Option<string> {
    if x in d then HopFrom(d[x], r, t) else None
  }

  /** `NextHop` as a function of the node alone. */
  function NextHops(d: Deployment, r: Resolver, t: string): string -> Option<string> {
    (x: string) => NextHop(d, r, t, x)
  }

  /** The node runs the rules compiled for it, in whatever order. */
  ghost predicate RunsRules(nodes: seq<Node>, c: Config, x: string) {
    forall rule :: rule in c.node.policyRules <==> rule in RulesAt(Emissions(nodes), x)
  }

  /** Every listed node runs the rules compiled for it, and no other node runs any. */
  ghost predicate Deployed(nodes: seq<Node>, d: Deployment) {
    && (forall x :: x in d <==> exists n :: n in nodes && n.id == x)
    && (forall x :: x in d ==> RunsRules(nodes, d[x], x))
  }

  // ---- What the operator asked for ----

  function Hops(pr: PolicyRule): seq<string> {
    if pr.path != [] then pr.path else [pr.viaNode]
  }

  function Onward(pr: PolicyRule, i: nat): Option<string> {
    if i < |Hops(pr)| then Some(Hops(pr)[i]) else None
  }

  /** A rule of node `n` that covers `t` passes `x` as its `i`-th node, and goes on to `next` or ends there. */
  ghost predicate Passes(n: Node, pr: PolicyRule, i: nat, r: Resolver, t: string, x: string, next: Option<string>) {
    && pr in n.policyRules
    && t in Targets(pr, r)
    && i <= |Hops(pr)|
    && x == Forwarder(n.id, Hops(pr), i)
    && next == Onward(pr, i)
  }

  /** Some source path for `t` continues from `x` in this way. */
  ghost predicate Continues(nodes: seq<Node>, r: Resolver, t: string, x: string, next: Option<string>) {
    exists n, pr, i: nat :: n in nodes && Passes(n, pr, i, r, t, x, next)
  }

  /** The source paths for `t` agree, at every node, on the next hop or on ending there. */
  ghost predicate PathsAgree(nodes: seq<Node>, r: Resolver, t: string) {
    forall x, p, q :: Continues(nodes, r, t, x, p) && Continues(nodes, r, t, x, q) ==> p == q
  }

  /** The configuration has an address for its peer `y`. */
  predicate Knows(c: Config, y: string) {
    y != "" && OverlayForPeer(y, c.peers) != ""
  }

  ghost predicate AllRetrace(nodes: seq<Node>, d: Deployment, r: Resolver, t: string) {
    forall n, pr :: n in nodes && pr in n.policyRules && t in Targets(pr, r) ==>
      Retraces(NextHops(d, r, t), n.id, Hops(pr))
  }

  // ---- From routes back to source paths ----

  /** A compiled rule that routes `t` to `y` at node `x` continues some source path there. */
  lemma CompiledRuleContinues(nodes: seq<Node>, r: Resolver, t: string, x: string, rule: PolicyRule)
    requires rule in RulesAt(Emissions(nodes), x) && t in Targets(rule, r)
    ensures rule.path == [] && rule.viaNode != "" && Continues(nodes, r, t, x, Some(rule.viaNode))
  {
    var a, b := CompiledRuleOrigin(nodes, x, rule);
    var pr := nodes[a].policyRules[b];
    var i: nat := 0;
    if pr.path != [] {
      i :| 0 <= i < |pr.path| && x == Forwarder(nodes[a].id, pr.path, i) && rule.viaNode == pr.path[i];
    }
    assert Passes(nodes[a], pr, i, r, t, x, Some(rule.viaNode));
  }

  lemma InstalledRouteContinues(nodes: seq<Node>, c: Config, r: Resolver, x: string, route: StaticRoute)
    requires RunsRules(nodes, c, x) && route in ConfigRoutes(c, r)
    ensures Continues(nodes, r, route.prefix, x, Some(route.via)) && Knows(c, route.via)
  {
    var rule := RouteHasRule(c.node.policyRules, c.peers, r, route);
    CompiledRuleContinues(nodes, r, route.prefix, x, rule);
  }

  /** The one-hop rule compiled from hop `i` of a rule. */
  function HopOf(pr: PolicyRule, i: nat): PolicyRule
    requires i < |Hops(pr)|
  {
    if pr.path == [] then pr else HopRule(pr, pr.path[i])
  }

  lemma HopIsCompiled(nodes: seq<Node>, n: Node, pr: PolicyRule, i: nat)
    requires n in nodes && pr in n.policyRules && i < |Hops(pr)|
    ensures HopOf(pr, i) in RulesAt(Emissions(nodes), Forwarder(n.id, Hops(pr), i))
  {
    var e := Emission(Forwarder(n.id, Hops(pr), i), HopOf(pr, i));
    var a :| 0 <= a < |nodes| && nodes[a] == n;
    var b :| 0 <= b < |n.policyRules| && n.policyRules[b] == pr;
    assert e == EmitRule(n.id, pr)[i];
    OriginIsEmitted(nodes, a, b, e);
    RulesAtMember(Emissions(nodes), e.at, e.rule);
  }

  lemma HopTargets(pr: PolicyRule, i: nat, r: Resolver)
    requires i < |Hops(pr)| && pr.Valid()
    ensures NextHopID(HopOf(pr, i)) == Hops(pr)[i]
    ensures Hops(pr)[i] != "" ==> Targets(HopOf(pr, i), r) == Targets(pr, r)
  {
  }

  /** Where a source path goes on to `y`, a compiled rule does. */
  lemma ContinuationRule(nodes: seq<Node>, r: Resolver, t: string, x: string, y: string) returns (rule: PolicyRule)
    requires Continues(nodes, r, t, x, Some(y))
    ensures rule in RulesAt(Emissions(nodes), x) && NextHopID(rule) == y && (y != "" ==> t in Targets(rule, r))
  {
    var n, pr, i: nat :| n in nodes && Passes(n, pr, i, r, t, x, Some(y));
    HopIsCompiled(nodes, n, pr, i);
    rule := HopOf(pr, i);
    HopTargets(pr, i, r);
  }

  lemma ContinuationInstalled(nodes: seq<Node>, c: Config, r: Resolver, t: string, x: string, y: string)
    requires RunsRules(nodes, c, x)
    requires Continues(nodes, r, t, x, Some(y)) && Knows(c, y)
    ensures StaticRoute(t, y, StripMask(OverlayForPeer(y, c.peers))) in ConfigRoutes(c, r)
  {
    var rule := ContinuationRule(nodes, r, t, x, y);
    var route := StaticRoute(t, y, StripMask(OverlayForPeer(y, c.peers)));
    assert RoutedBy(rule, c.peers, r, route);
    PolicyRouteIff(c.node.policyRules, c.peers, r, route);
  }

  /** The policy routes for `t` lead where a source path goes on, and there is one for each known continuation. */
  lemma RoutesContinue(nodes: seq<Node>, c: Config, r: Resolver, t: string, x: string)
    requires RunsRules(nodes, c, x)
    ensures HasRoute(c, r, t) ==>
              var y := LastVia(ConfigRoutes(c, r), t).value; Continues(nodes, r, t, x, Some(y)) && Knows(c, y)
    ensures !HasRoute(c, r, t) ==> forall y :: Continues(nodes, r, t, x, Some(y)) ==> !Knows(c, y)
  {
    var routes := ConfigRoutes(c, r);
    LastViaFacts(routes, t);
    if HasRoute(c, r, t) {
      var route :| route in routes && route.prefix == t && route.via == LastVia(routes, t).value;
      InstalledRouteContinues(nodes, c, r, x, route);
    } else {
      forall y | Continues(nodes, r, t, x, Some(y)) ensures !Knows(c, y) {
        if Knows(c, y) {
          ContinuationInstalled(nodes, c, r, t, x, y);
        }
      }
    }
  }

  // ---- The main theorem ----

  /** Whatever a source path does next at a node, the node does. */
  ghost predicate Follows(nodes: seq<Node>, d: Deployment, r: Resolver, t: string) {
    forall x, next :: Continues(nodes, r, t, x, next) ==> NextHop(d, r, t, x) == next
  }

  lemma FollowedPathIsChain(nodes: seq<Node>, d: Deployment, r: Resolver, t: string, n: Node, pr: PolicyRule)
    requires Follows(nodes, d, r, t)
    requires n in nodes && pr in n.policyRules && t in Targets(pr, r)
    ensures Chain(NextHops(d, r, t), n.id, Hops(pr))
  {
    forall i | 0 <= i <= |Hops(pr)|
      ensures NextHop(d, r, t, Forwarder(n.id, Hops(pr), i)) == Onward(pr, i)
    {
      var x := Forwarder(n.id, Hops(pr), i);
      assert Passes(n, pr, i, r, t, x, Onward(pr, i));
      assert Continues(nodes, r, t, x, Onward(pr, i));
    }
  }

  lemma ChainAt(next: string -> Option<string>, src: string, pr: PolicyRule, i: nat)
    requires Chain(next, src, Hops(pr)) && i <= |Hops(pr)|
    ensures next(Forwarder(src, Hops(pr), i)) == Onward(pr, i)
  {
  }

  lemma RetracedContinuation(nodes: seq<Node>, d: Deployment, r: Resolver, t: string, x: string, next: Option<string>)
    requires AllRetrace(nodes, d, r, t)
    requires Continues(nodes, r, t, x, next)
    ensures NextHop(d, r, t, x) == next
  {
    var n, pr, i: nat :| n in nodes && Passes(n, pr, i, r, t, x, next);
    RetracesIffChain(NextHops(d, r, t), n.id, Hops(pr));
    ChainAt(NextHops(d, r, t), n.id, pr, i);
    assert NextHops(d, r, t)(x) == NextHop(d, r, t, x);
  }

  /** Whatever the nodes run, packets retrace all source paths exactly when every node follows them. */
  lemma AllRetraceIffFollows(nodes: seq<Node>, d: Deployment, r: Resolver, t: string)
    ensures AllRetrace(nodes, d, r, t) <==> Follows(nodes, d, r, t)
  {
    if Follows(nodes, d, r, t) {
      forall n, pr | n in nodes && pr in n.policyRules && t in Targets(pr, r)
        ensures Retraces(NextHops(d, r, t), n.id, Hops(pr))
      {
        FollowedPathIsChain(nodes, d, r, t, n, pr);
        RetracesIffChain(NextHops(d, r, t), n.id, Hops(pr));
      }
    }
    if AllRetrace(nodes, d, r, t) {
      forall x, next | Continues(nodes, r, t, x, next) ensures NextHop(d, r, t, x) == next {
        RetracedContinuation(nodes, d, r, t, x, next);
      }
    }
  }

  // ---- When nodes follow the paths ----

  /** Nothing at the node leads packets for `t` on. */
  predicate Quiet(c: Config, r: Resolver, t: string) {
    && !HasRoute(c, r, t) && !HasRoute(c, r, DEFAULT_PREFIX)
    && DefaultVia(c) == "" && !Announced(c, r, t)
  }

  lemma {:induction false} OwnerExists(peers: seq<Peer>, t: string)
    ensures Owner(peers, t).Some? <==> exists p :: p in peers && t in p.allowedIPs
  {
    if peers != [] {
      OwnerExists(Init(peers), t);
      assert peers == Init(peers) + [Last(peers)];
    }
  }

  lemma QuietIff(c: Config, r: Resolver, t: string)
    ensures HopFrom(c, r, t) == None <==> Quiet(c, r, t)
  {
    if Announced(c, r, t) {
      var p :| p in c.peers && t in p.allowedIPs;
      var i :| 0 <= i < |c.peers| && c.peers[i] == p;
      AugmentationStable(p, c.node, r);
      assert WireGuardPeers(c, r)[i] == Augmented(p, c.node, r);
      assert t in Augmented(p, c.node, r).allowedIPs;
      OwnerExists(WireGuardPeers(c, r), t);
    }
  }

  /** At a node that runs its rules and where a path goes on to `y`. */
  lemma GoesOnIff(nodes: seq<Node>, c: Config, r: Resolver, t: string, x: string, y: string)
    requires RunsRules(nodes, c, x) && Continues(nodes, r, t, x, Some(y))
    ensures HopFrom(c, r, t) == Some(y) ==> Knows(c, y) || Fallback(c, r, t) == Some(y)
    ensures PathsAgree(nodes, r, t) && (Knows(c, y) || Fallback(c, r, t) == Some(y)) ==> HopFrom(c, r, t) == Some(y)
  {
    RoutesContinue(nodes, c, r, t, x);
  }

  // ---- Agents that keep withdrawn rules ----

  /** `run` is what the agents make of `d`: those that are sent no rules may run old ones. */
  ghost predicate KeepsUnsent(d: Deployment, run: Deployment) {
    && run.Keys == d.Keys
    && forall x :: x in d ==>
         && run[x].peers == d[x].peers
         && (d[x].node.policyRules != [] ==> run[x].node.policyRules == d[x].node.policyRules)
  }

  /** The node is fit for what a path does next: it has a way to the hop `y`, or no way on where the path ends. */
  predicate Fit(run: Deployment, r: Resolver, t: string, x: string, next: Option<string>) {
    match next
    case Some(y) => x in run && (Knows(run[x], y) || Fallback(run[x], r, t) == Some(y))
    case None => x in run ==> Quiet(run[x], r, t)
  }

  ghost predicate HopsServed(nodes: seq<Node>, run: Deployment, r: Resolver, t: string) {
    forall x, y :: Continues(nodes, r, t, x, Some(y)) ==> Fit(run, r, t, x, Some(y))
  }

  /** Where a path ends, nothing leads packets for `t` on: no rule old or new, no default route, no announcement. */
  ghost predicate EndsQuiet(nodes: seq<Node>, run: Deployment, r: Resolver, t: string) {
    forall x :: Continues(nodes, r, t, x, None) ==> Fit(run, r, t, x, None)
  }

  lemma ForwarderHasRules(nodes: seq<Node>, r: Resolver, t: string, x: string, y: string)
    requires Continues(nodes, r, t, x, Some(y))
    ensures RulesAt(Emissions(nodes), x) != []
  {
    var rule := ContinuationRule(nodes, r, t, x, y);
  }

  /** A node at which some path goes on was sent its rules, so it runs them. */
  lemma ForwarderRuns(nodes: seq<Node>, d: Deployment, run: Deployment, r: Resolver, t: string, x: string, y: string)
    requires Deployed(nodes, d) && KeepsUnsent(d, run) && x in run
    requires Continues(nodes, r, t, x, Some(y))
    ensures RunsRules(nodes, run[x], x)
  {
    ForwarderHasRules(nodes, r, t, x, y);
    var rule := RulesAt(Emissions(nodes), x)[0];
    assert rule in RulesAt(Emissions(nodes), x);
    assert rule in d[x].node.policyRules;
  }

  lemma FollowsIffFit(
    nodes: seq<Node>, d: Deployment, run: Deployment, r: Resolver, t: string, x: string, next: Option<string>)
    requires Deployed(nodes, d) && KeepsUnsent(d, run) && Continues(nodes, r, t, x, next)
    ensures NextHop(run, r, t, x) == next ==> Fit(run, r, t, x, next)
    ensures PathsAgree(nodes, r, t) && Fit(run, r, t, x, next) ==> NextHop(run, r, t, x) == next
  {
    if x in run {
      match next {
        case Some(y) =>
          ForwarderRuns(nodes, d, run, r, t, x, y);
          GoesOnIff(nodes, run[x], r, t, x, y);
        case None =>
          QuietIff(run[x], r, t);
      }
    }
  }

  /**
    Whatever rules were published, and whatever agents without new rules still hold: packets for `t` retrace all
    source paths if and only if the paths agree, each hop is served, and no node at which a path ends leads on.
   */
  lemma KeptRulesPreservePathsIff(nodes: seq<Node>, d: Deployment, run: Deployment, r: Resolver, t: string)
    requires Deployed(nodes, d) && KeepsUnsent(d, run)
    ensures AllRetrace(nodes, run, r, t)
       <==> PathsAgree(nodes, r, t) && HopsServed(nodes, run, r, t) && EndsQuiet(nodes, run, r, t)
  {
    AllRetraceIffFollows(nodes, run, r, t);
    forall x, next | Continues(nodes, r, t, x, next)
      ensures NextHop(run, r, t, x) == next ==> Fit(run, r, t, x, next)
      ensures PathsAgree(nodes, r, t) && Fit(run, r, t, x, next) ==> NextHop(run, r, t, x) == next
    {
      FollowsIffFit(nodes, d, run, r, t, x, next);
    }
    if PathsAgree(nodes, r, t) && HopsServed(nodes, run, r, t) && EndsQuiet(nodes, run, r, t) {
      forall x, next | Continues(nodes, r, t, x, next) ensures NextHop(run, r, t, x) == next {
        if next.Some? {
          assert Continues(nodes, r, t, x, Some(next.value));
        }
        assert Fit(run, r, t, x, next);
      }
    }
  }

  /**
    The compiled and installed rules retrace every source path for `t` exactly when the paths agree at every shared
    node, every node on a path knows its next hop, and no node at the end of one has another way on.
   */
  lemma CompilationPreservesPaths(nodes: seq<Node>, d: Deployment, r: Resolver, t: string)
    requires Deployed(nodes, d)
    ensures AllRetrace(nodes, d, r, t)
       <==> PathsAgree(nodes, r, t) && HopsServed(nodes, d, r, t) && EndsQuiet(nodes, d, r, t)
  {
    KeptRulesPreservePathsIff(nodes, d, d, r, t);
  }

  // ---- Two paths that disagree ----

  const SHARED := "192.0.2.0/24"
  const TO_C := PolicyRule(SHARED, "c", ["b", "c"], [])
  const TO_D := PolicyRule(SHARED, "d", ["d"], [])
  const NODE_A := ZERO_NODE.(id := "a", policyRules := [TO_C])
  const NODE_B := ZERO_NODE.(id := "b", policyRules := [TO_D])

  lemma SharedIsTarget(pr: PolicyRule, r: Resolver)
    requires pr.prefix == SHARED && pr.Valid() && r.isCIDR(SHARED)
    ensures SHARED in Targets(pr, r)
  {
    var lower := ToLower(SHARED);
    assert lower[0] == '1' != 'g';
    assert SHARED[9] == '/';
    assert SHARED in PrefixCandidates(SHARED, r);
    TargetsFacts(pr, r);
  }

  /** The path of node a goes on from b to c, the one of b itself to d: no deployment can retrace both. */
  lemma DisagreeingPathsAreNotRetraced(r: Resolver, d: Deployment)
    requires r.isCIDR(SHARED) && Deployed([NODE_A, NODE_B], d)
    ensures !PathsAgree([NODE_A, NODE_B], r, SHARED) && !AllRetrace([NODE_A, NODE_B], d, r, SHARED)
  {
    var nodes := [NODE_A, NODE_B];
    SharedIsTarget(TO_C, r);
    SharedIsTarget(TO_D, r);
    assert TO_C in NODE_A.policyRules && TO_D in NODE_B.policyRules;
    assert Passes(NODE_A, TO_C, 1, r, SHARED, "b", Some("c"));
    assert Passes(NODE_B, TO_D, 0, r, SHARED, "b", Some("d"));
    assert NODE_A in nodes && NODE_B in nodes;
    assert Continues(nodes, r, SHARED, "b", Some("c")) && Continues(nodes, r, SHARED, "b", Some("d"));
    CompilationPreservesPaths(nodes, d, r, SHARED);
  }

  // ---- A node at the end of a path that leads on ----

  const TO_B := PolicyRule(SHARED, "b", ["b"], [])
  const SOURCE := ZERO_NODE.(id := "a", policyRules := [TO_B])
  const EXIT := ZERO_NODE.(id := "b")

  lemma OnePathContinues(r: Resolver, x: string, next: Option<string>)
    requires Continues([SOURCE, EXIT], r, SHARED, x, next)
    ensures (x == "a" && next == Some("b")) || (x == "b" && next == None)
  {
    var n, pr, i: nat :| n in [SOURCE, EXIT] && Passes(n, pr, i, r, SHARED, x, next);
    assert n == SOURCE && pr == TO_B && Hops(pr) == ["b"];
  }

  lemma OnePathEnds(r: Resolver)
    requires r.isCIDR(SHARED)
    ensures Continues([SOURCE, EXIT], r, SHARED, "b", None) && PathsAgree([SOURCE, EXIT], r, SHARED)
  {
    SharedIsTarget(TO_B, r);
    assert TO_B in SOURCE.policyRules && SOURCE in [SOURCE, EXIT];
    assert Passes(SOURCE, TO_B, 1, r, SHARED, "b", None);
    forall x, p, q | Continues([SOURCE, EXIT], r, SHARED, x, p) && Continues([SOURCE, EXIT], r, SHARED, x, q)
      ensures p == q
    {
      OnePathContinues(r, x, p);
      OnePathContinues(r, x, q);
    }
  }

  /** One path from a to b, agreeing with itself and served: if b has a default route, packets do not stop there. */
  lemma DefaultRouteLeadsOn(r: Resolver, d: Deployment)
    requires r.isCIDR(SHARED) && Deployed([SOURCE, EXIT], d)
    requires DefaultVia(d["b"]) != "" && Knows(d["a"], "b")
    ensures PathsAgree([SOURCE, EXIT], r, SHARED) && HopsServed([SOURCE, EXIT], d, r, SHARED)
    ensures !AllRetrace([SOURCE, EXIT], d, r, SHARED)
  {
    OnePathEnds(r);
    forall x, y | Continues([SOURCE, EXIT], r, SHARED, x, Some(y)) ensures Fit(d, r, SHARED, x, Some(y)) {
      OnePathContinues(r, x, Some(y));
      assert SOURCE in [SOURCE, EXIT];
    }
    assert !Fit(d, r, SHARED, "b", None);
    CompilationPreservesPaths([SOURCE, EXIT], d, r, SHARED);
  }

  lemma ExitHasNoRules(c: Config)
    requires RunsRules([SOURCE, EXIT], c, "b")
    ensures c.node.policyRules == []
  {
    if c.node.policyRules != [] {
      var rule := c.node.policyRules[0];
      assert rule in c.node.policyRules;
      var a, b := CompiledRuleOrigin([SOURCE, EXIT], "b", rule);
      assert false;
    }
  }

  lemma RuleGivesRoute(c: Config, r: Resolver, t: string, pr: PolicyRule)
    requires pr in c.node.policyRules && t in Targets(pr, r) && Knows(c, NextHopID(pr))
    ensures HasRoute(c, r, t)
  {
    var route := StaticRoute(t, NextHopID(pr), StripMask(OverlayForPeer(NextHopID(pr), c.peers)));
    assert RoutedBy(pr, c.peers, r, route);
    PolicyRouteIff(c.node.policyRules, c.peers, r, route);
    LastViaFacts(ConfigRoutes(c, r), t);
  }

  /** And so if b was sent no rules and its agent still holds one from before that covers the destination. */
  lemma StaleRuleLeadsOn(r: Resolver, d: Deployment, run: Deployment)
    requires r.isCIDR(SHARED) && Deployed([SOURCE, EXIT], d) && KeepsUnsent(d, run)
    requires "b" in run && run["b"].node.policyRules == [TO_D] && Knows(run["b"], "d")
    ensures d["b"].node.policyRules == [] && PathsAgree([SOURCE, EXIT], r, SHARED)
    ensures !AllRetrace([SOURCE, EXIT], run, r, SHARED)
  {
    OnePathEnds(r);
    SharedIsTarget(TO_D, r);
    RuleGivesRoute(run["b"], r, SHARED, TO_D);
    assert !Fit(run, r, SHARED, "b", None);
    KeptRulesPreservePathsIff([SOURCE, EXIT], d, run, r, SHARED);
    ExitHasNoRules(d["b"]);
  }

  // ---- Consequences ----

  lemma RevisitGoesOnAlike(nodes: seq<Node>, r: Resolver, t: string, n: Node, pr: PolicyRule, i: nat, j: nat)
    requires PathsAgree(nodes, r, t) && n in nodes && pr in n.policyRules && t in Targets(pr, r)
    requires i <= |Hops(pr)| && j <= |Hops(pr)|
    requires Forwarder(n.id, Hops(pr), i) == Forwarder(n.id, Hops(pr), j)
    ensures Onward(pr, i) == Onward(pr, j)
  {
    var x := Forwarder(n.id, Hops(pr), i);
    assert Passes(n, pr, i, r, t, x, Onward(pr, i));
    assert Passes(n, pr, j, r, t, x, Onward(pr, j));
    assert Continues(nodes, r, t, x, Onward(pr, i)) && Continues(nodes, r, t, x, Onward(pr, j));
  }

  lemma {:induction false} NoRevisit(nodes: seq<Node>, r: Resolver, t: string, n: Node, pr: PolicyRule, i: nat, j: nat)
    requires PathsAgree(nodes, r, t) && n in nodes && pr in n.policyRules && t in Targets(pr, r)
    requires i < j <= |Hops(pr)|
    ensures Forwarder(n.id, Hops(pr), i) != Forwarder(n.id, Hops(pr), j)
    decreases |Hops(pr)| - j
  {
    if Forwarder(n.id, Hops(pr), i) == Forwarder(n.id, Hops(pr), j) {
      RevisitGoesOnAlike(nodes, r, t, n, pr, i, j);
      if j < |Hops(pr)| {
        NoRevisit(nodes, r, t, n, pr, i + 1, j + 1);
      }
      assert false;
    }
  }

  /** Agreeing paths are simple and do not return to their source. */
  lemma AgreeingPathsAreSimple(nodes: seq<Node>, r: Resolver, t: string, n: Node, pr: PolicyRule)
    requires PathsAgree(nodes, r, t) && n in nodes && pr in n.policyRules && t in Targets(pr, r)
    ensures NoDup([n.id] + Hops(pr))
  {
    var trace := [n.id] + Hops(pr);
    assert forall i :: 0 <= i < |trace| ==> trace[i] == Forwarder(n.id, Hops(pr), i);
    forall i, j | 0 <= i < j < |trace| ensures trace[i] != trace[j] {
      NoRevisit(nodes, r, t, n, pr, i, j);
    }
  }

  // ---- The other back ends ----

  lemma OneRoutePerPrefix(nodes: seq<Node>, c: Config, r: Resolver, x: string, a: StaticRoute, b: StaticRoute)
    requires RunsRules(nodes, c, x) && PathsAgree(nodes, r, a.prefix) && a.prefix == b.prefix
    requires a in ConfigRoutes(c, r) && b in ConfigRoutes(c, r)
    ensures a == b
  {
    InstalledRouteContinues(nodes, c, r, x, a);
    InstalledRouteContinues(nodes, c, r, x, b);
    assert Some(a.via) == Some(b.via);
    PolicyRouteIff(c.node.policyRules, c.peers, r, a);
    PolicyRouteIff(c.node.policyRules, c.peers, r, b);
  }

  function BgpRoutes(c: Config, r: Resolver): seq<StaticRoute> {
    DefaultRoutes(c.node.egressPeerID, c.peers) + ConfigRoutes(c, r)
  }

  ghost predicate OneRoute(routes: seq<StaticRoute>, t: string) {
    forall a, b :: a in routes && b in routes && a.prefix == t && b.prefix == t ==> a == b
  }

  /**
    With agreeing paths bgpd has one route for `t` at most, so it does not matter which of several counts, unless
    a rule sends the default prefix to another peer than the egress.
   */
  lemma BgpHasOneRouteIff(nodes: seq<Node>, c: Config, r: Resolver, x: string, t: string)
    requires RunsRules(nodes, c, x) && PathsAgree(nodes, r, t)
    ensures OneRoute(BgpRoutes(c, r), t)
       <==> t != DEFAULT_PREFIX || DefaultRoutes(c.node.egressPeerID, c.peers) == []
            || !HasRoute(c, r, t) || LastVia(ConfigRoutes(c, r), t) == Some(c.node.egressPeerID)
  {
    var defaults, routes := DefaultRoutes(c.node.egressPeerID, c.peers), ConfigRoutes(c, r);
    LastViaFacts(routes, t);
    forall a, b | a in routes && b in routes && a.prefix == t && b.prefix == t ensures a == b {
      OneRoutePerPrefix(nodes, c, r, x, a, b);
    }
    forall a | a in routes ensures a.nextHop == StripMask(OverlayForPeer(a.via, c.peers)) {
      PolicyRouteIff(c.node.policyRules, c.peers, r, a);
    }
    assert forall a :: a in BgpRoutes(c, r) <==> a in defaults || a in routes;
    if HasRoute(c, r, t) && t == DEFAULT_PREFIX && defaults != [] {
      var a :| a in routes && a.prefix == t && a.via == LastVia(routes, t).value;
      assert defaults[0] in defaults && a in BgpRoutes(c, r) && defaults[0] in BgpRoutes(c, r);
    }
  }

  /** The peer carries `t` because that is the default prefix and the peer is the egress. */
  predicate CarriesDefault(p: Peer, at: Node, t: string) {
    t == DEFAULT_PREFIX && at.defaultRoute && p.id != "" && at.egressPeerID == p.id
  }

  /** No rule adds `t` to the AllowedIPs of another peer than the next hop. */
  lemma OthersDoNotCarry(nodes: seq<Node>, c: Config, r: Resolver, t: string, x: string, y: string, p: Peer)
    requires PathsAgree(nodes, r, t) && Continues(nodes, r, t, x, Some(y))
    requires RunsRules(nodes, c, x) && p.id != y
    ensures t in Augmented(p, c.node, r).allowedIPs <==> t in p.allowedIPs || CarriesDefault(p, c.node, t)
  {
    AppendNewFacts(p.allowedIPs, Wanted(p.id, c.node, r));
    RulesWantedMembers(p.id, c.node.policyRules, r, t);
    if rule :| p.id != "" && rule in c.node.policyRules && NextHopID(rule) == p.id && t in Targets(rule, r) {
      CompiledRuleContinues(nodes, r, t, x, rule);
      assert false;
    }
  }

  /**
    Each hop of a source path is carried by both back ends: the route at the forwarding node leads to
    the next hop's overlay address, WireGuard admits the prefix for that peer, and the rules add it to no
    other peer: those admit it if they announce it themselves or it is the default prefix of the egress peer.
   */
  lemma HopIsCarried(nodes: seq<Node>, c: Config, r: Resolver, t: string, x: string, y: string) returns (k: nat)
    requires PathsAgree(nodes, r, t) && Continues(nodes, r, t, x, Some(y))
    requires RunsRules(nodes, c, x) && Knows(c, y)
    ensures HopFrom(c, r, t) == Some(y)
    ensures Chosen(y, c.peers, k)
    ensures StaticRoute(t, y, StripMask(c.peers[k].allowedIPs[0])) in ConfigRoutes(c, r)
    ensures t in Augmented(c.peers[k], c.node, r).allowedIPs
    ensures forall p: Peer :: p.id != y ==>
              (t in Augmented(p, c.node, r).allowedIPs <==> t in p.allowedIPs || CarriesDefault(p, c.node, t))
  {
    GoesOnIff(nodes, c, r, t, x, y);
    ContinuationInstalled(nodes, c, r, t, x, y);
    var route := StaticRoute(t, y, StripMask(OverlayForPeer(y, c.peers)));
    k := RouteIsCarried(c.node, c.peers, r, route);
    OverlayIsChosen(y, c.peers, k);
    forall p: Peer | p.id != y
      ensures t in Augmented(p, c.node, r).allowedIPs <==> t in p.allowedIPs || CarriesDefault(p, c.node, t)
    {
      OthersDoNotCarry(nodes, c, r, t, x, y, p);
    }
  }

  lemma {:induction false} OwnerIsLast(peers: seq<Peer>, t: string) returns (l: nat)
    requires Owner(peers, t).Some?
    ensures l < |peers| && t in peers[l].allowedIPs && Owner(peers, t) == Some(peers[l].id)
    ensures forall j :: l < j < |peers| ==> t !in peers[j].allowedIPs
  {
    if t in Last(peers).allowedIPs {
      l := |peers| - 1;
    } else {
      l := OwnerIsLast(Init(peers), t);
      assert forall j :: l < j < |peers| - 1 ==> peers[j] == Init(peers)[j];
    }
  }

  lemma OwnerIff(peers: seq<Peer>, t: string, k: nat)
    requires k < |peers| && t in peers[k].allowedIPs
    requires forall j :: k < j < |peers| ==> peers[j].id != peers[k].id
    ensures Owner(peers, t) == Some(peers[k].id) <==> forall j :: k < j < |peers| ==> t !in peers[j].allowedIPs
  {
    assert peers[k] in peers;
    OwnerExists(peers, t);
    var l := OwnerIsLast(peers, t);
    assert k <= l;
  }

  lemma {:induction false} LastEntry(id: string, peers: seq<Peer>) returns (k: nat)
    requires exists p :: p in peers && p.id == id
    ensures k < |peers| && peers[k].id == id && forall j :: k < j < |peers| ==> peers[j].id != id
  {
    if Last(peers).id == id {
      k := |peers| - 1;
    } else {
      assert peers == Init(peers) + [Last(peers)];
      k := LastEntry(id, Init(peers));
      assert forall j :: k < j < |peers| - 1 ==> peers[j] == Init(peers)[j];
    }
  }

  /** The peer announces `t` itself, or is given the default prefix as the egress. */
  predicate Claims(p: Peer, at: Node, t: string) {
    t in p.allowedIPs || CarriesDefault(p, at, t)
  }

  lemma NextHopWants(nodes: seq<Node>, c: Config, r: Resolver, t: string, x: string, y: string)
    requires RunsRules(nodes, c, x) && Continues(nodes, r, t, x, Some(y)) && y != ""
    ensures t in Wanted(y, c.node, r)
  {
    var rule := ContinuationRule(nodes, r, t, x, y);
    RulesWantedMembers(y, c.node.policyRules, r, t);
  }

  /**
    WireGuard sends a prefix to the last peer in its file that claims it. At a hop of agreeing paths this
    is the next hop of the route if and only if no peer listed after it claims the prefix.
   */
  lemma WireGuardAgreesIff(nodes: seq<Node>, c: Config, r: Resolver, t: string, x: string, y: string) returns (k: nat)
    requires PathsAgree(nodes, r, t) && Continues(nodes, r, t, x, Some(y))
    requires RunsRules(nodes, c, x) && Knows(c, y)
    ensures k < |c.peers| && c.peers[k].id == y && forall j :: k < j < |c.peers| ==> c.peers[j].id != y
    ensures Owner(WireGuardPeers(c, r), t) == Some(y) <==>
              forall j :: k < j < |c.peers| ==> !Claims(c.peers[j], c.node, t)
  {
    var first := HopIsCarried(nodes, c, r, t, x, y);
    k := LastEntry(y, c.peers);
    var wg := WireGuardPeers(c, r);
    NextHopWants(nodes, c, r, t, x, y);
    AppendNewFacts(c.peers[k].allowedIPs, Wanted(y, c.node, r));
    OwnerIff(wg, t, k);
    forall j | k < j < |wg| ensures t in wg[j].allowedIPs <==> Claims(c.peers[j], c.node, t) {
      OthersDoNotCarry(nodes, c, r, t, x, y, c.peers[j]);
    }
  }
}
