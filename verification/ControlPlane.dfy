/**
  The controller's handlers over one store and the shared plan counter. The two ghost traces record the steps
  taken so far, so that what is proved of all runs holds of every state a controller can be in.
 */
module ControlPlane {
  import opened Seqs
  import opened Text
  import opened Model
  import opened Store
  import opened Topology
  import C = PathCompiler
  import H = HealthWindow
  import L = BoundedLogs
  import P = Plans
  import R = Registration

  /** `e` saves for node `n` its peer plan and the rules compiled for it, against one listing of the nodes. */
  ghost predicate SavesNode(order: seq<Node>, health: map<string, HealthReport>, now: string, n: Node, e: P.Event) {
    && e.Save? && e.node == n && e.now == now
    && e.rules == C.RulesAt(C.Emissions(order), n.id)
    && IsPeerPlan(n.id, order, health, e.peers)
  }

  ghost predicate SavesInTurn(order: seq<Node>, health: map<string, HealthReport>, now: string, es: seq<P.Event>)
    decreases |es|
  {
    es == [] || (
      && |es| <= |order|
      && SavesNode(order, health, now, order[|es| - 1], Last(es))
      && SavesInTurn(order, health, now, Init(es)))
  }

  lemma SavesInTurnNext(order: seq<Node>, health: map<string, HealthReport>, now: string, es: seq<P.Event>, e: P.Event)
    requires SavesInTurn(order, health, now, es) && |es| < |order|
    requires SavesNode(order, health, now, order[|es|], e)
    ensures SavesInTurn(order, health, now, es + [e])
  {
    assert Init(es + [e]) == es;
  }

  ghost predicate IsRecompute(order: seq<Node>, health: map<string, HealthReport>, now: string, es: seq<P.Event>) {
    |es| == |order| && SavesInTurn(order, health, now, es)
  }

  /** The policy handler's repair of a submitted rule; TrimSpace is for ASCII blanks. */
  function Normalised(pr: PolicyRule): PolicyRule {
    var p := pr.(prefix := TrimSpace(pr.prefix));
    if p.viaNode == "" && p.path != [] then p.(viaNode := Last(p.path)) else p
  }

  predicate IsBlank(c: char) {
    c == ' ' || c == '\t' || c == '\n' || c == '\U{B}' || c == '\U{C}' || c == '\r'
  }

  function TrimSpace(s: string): string {
    if s != [] && IsBlank(s[0]) then TrimSpace(s[1..])
    else if s != [] && IsBlank(Last(s)) then TrimSpace(Init(s))
    else s
  }

  const BLANKS := " \t\n\U{B}\U{C}\r"

  /** Trimming removes blanks at both ends, and all of them there. */
  lemma {:induction false} TrimSpaceFacts(s: string) returns (front: string, back: string)
    ensures s == front + TrimSpace(s) + back
    ensures (forall c :: c in front ==> c in BLANKS) && (forall c :: c in back ==> c in BLANKS)
    ensures TrimSpace(s) != "" ==> TrimSpace(s)[0] !in BLANKS && Last(TrimSpace(s)) !in BLANKS
    decreases |s|
  {
    BlanksAre();
    if s != "" && IsBlank(s[0]) {
      front, back := TrimSpaceFacts(s[1..]);
      front := [s[0]] + front;
      assert s == [s[0]] + s[1..];
    } else if s != "" && IsBlank(Last(s)) {
      front, back := TrimSpaceFacts(Init(s));
      back := back + [Last(s)];
      assert s == Init(s) + [Last(s)];
    } else {
      front, back := "", "";
    }
  }

  lemma BlanksAre()
    ensures forall c :: IsBlank(c) <==> c in BLANKS
  {
    assert BLANKS[0] == ' ' && BLANKS[1] == '\t' && BLANKS[2] == '\n';
    assert BLANKS[3] == '\U{B}' && BLANKS[4] == '\U{C}' && BLANKS[5] == '\r';
  }

  /** The repair trims the prefix and names the last hop of a path where no next hop is named; the rest stays. */
  lemma NormalisedFacts(pr: PolicyRule)
    ensures var p := Normalised(pr);
            && p.prefix == TrimSpace(pr.prefix) && p.path == pr.path && p.domains == pr.domains
            && (pr.viaNode != "" ==> p.viaNode == pr.viaNode)
            && (pr.viaNode == "" && |pr.path| > 0 ==> p.viaNode == pr.path[|pr.path| - 1])
            && (pr.viaNode == "" && |pr.path| == 0 ==> p.viaNode == "")
  {
  }

  function NormalisedAll(rules: seq<PolicyRule>): (r: seq<PolicyRule>)
    ensures |r| == |rules| && forall i :: 0 <= i < |rules| ==> r[i] == Normalised(rules[i])
  {
    seq(|rules|, i requires 0 <= i < |rules| => Normalised(rules[i]))
  }

  /** The listed node with the ID, or a node without any field set. */
  method FindNode(nodes: seq<Node>, nodeID: string, ghost table: map<string, Node>) returns (target: Node)
    requires R.IsListing(nodes, table)
    ensures target == if nodeID in table && table[nodeID].id == nodeID then table[nodeID] else ZERO_NODE
  {
    for i := 0 to |nodes|
      invariant forall j :: 0 <= j < i ==> nodes[j].id != nodeID
    {
      if nodes[i].id == nodeID {
        return nodes[i];
      }
    }
    target := ZERO_NODE;
  }

  /** The number of rules that name a destination and a next hop. */
  function ValidCount(rules: seq<PolicyRule>): (n: nat)
    ensures n == 0 <==> forall pr :: pr in rules ==> !pr.Valid()
  {
    if rules == [] then 0
    else
      assert rules == Init(rules) + [Last(rules)];
      ValidCount(Init(rules)) + if Last(rules).Valid() then 1 else 0
  }

  method CountValid(rules: seq<PolicyRule>) returns (valid: nat)
    ensures valid == ValidCount(rules)
  {
    valid := 0;
    for i := 0 to |rules|
      invariant valid == ValidCount(rules[..i])
    {
      assert Init(rules[..i + 1]) == rules[..i];
      if rules[i].Valid() {
        valid := valid + 1;
      }
    }
    assert rules[..|rules|] == rules;
  }

  class Controller {
    const store: MemoryStore
    const hash: P.Hash
    var planVersion: P.int64
    ghost var planTrace: seq<P.Event>
    ghost var tableTrace: seq<R.Event>

    function Plans(): P.PlanState
      reads this, store
    {
      store.PlanView(planVersion)
    }

    ghost predicate Valid()
      reads this, store
    {
      && Plans() == P.Run(hash, planTrace)
      && store.Table() == R.RunFrom(R.EMPTY, tableTrace)
      && R.PossibleRun(R.EMPTY, tableTrace)
      && store.LogsValid()
    }

    lemma ReachableTable()
      requires Valid()
      ensures R.TableOk(store.Table())
    {
      R.IdentityIsSticky(R.EMPTY, tableTrace);
    }

    constructor (hash: P.Hash)
      ensures Valid() && fresh(store) && this.hash == hash
      ensures planTrace == [] && tableTrace == []
    {
      this.hash := hash;
      store := new MemoryStore();
      planVersion := 0;
      planTrace, tableTrace := [], [];
    }

    ghost method RecordPlan(e: P.Event)
      requires Plans() == P.Step(P.Run(hash, planTrace), hash, e)
      modifies `planTrace
      ensures planTrace == old(planTrace) + [e] && Plans() == P.Run(hash, planTrace)
    {
      assert Init(planTrace + [e]) == planTrace;
      planTrace := planTrace + [e];
    }

    ghost method RecordTable(e: R.Event)
      requires R.PossibleRun(R.EMPTY, tableTrace + [e]) && store.Table() == R.RunFrom(R.EMPTY, tableTrace + [e])
      modifies `tableTrace
      ensures tableTrace == old(tableTrace) + [e] && R.PossibleRun(R.EMPTY, tableTrace)
      ensures store.Table() == R.RunFrom(R.EMPTY, tableTrace)
    {
      tableTrace := tableTrace + [e];
    }

    method MakePlan(version: P.int64, node: Node, peers: seq<Peer>, rules: seq<PolicyRule>, now: string)
      returns (p: Plan)
      ensures p == P.NewPlan(hash, version, node, peers, rules, now)
    {
      var cv := "dynamic-" + now;
      if version > 0 {
        var digits := Itoa(version);
        cv := DYNAMIC_V + digits;
      }
      p := Plan(node.id, version, cv, peers, node.cidrs, P.Signature(hash, node.id, peers, cv), node.egressPeerID,
                rules, node.peerEndpoints, node.defaultRoute, node.bypassCIDRs, node.defaultRouteNextHop);
    }

    method StorePlan(p: Plan, version: P.int64)
      modifies store`plans, store`history, store`globalPlanVersion
      ensures Plans() == P.SavePlan(old(Plans()), p).(global := version)
    {
      ghost var was := store.PlanView(planVersion);
      store.SavePlan(p);
      assert store.PlanView(planVersion) == P.SavePlan(was, p);
      store.SetGlobalPlanVersion(version);
    }

    method SavePlanWithRules(node: Node, peers: seq<Peer>, rules: seq<PolicyRule>, now: string)
      requires Valid()
      modifies `planVersion, `planTrace, store`plans, store`history, store`globalPlanVersion
      ensures Valid() && planTrace == old(planTrace) + [P.Save(node, peers, rules, now)]
    {
      planVersion := NextInt64(planVersion);
      var p := MakePlan(planVersion, node, peers, rules, now);
      StorePlan(p, planVersion);
      RecordPlan(P.Save(node, peers, rules, now));
    }

    method BumpPlanVersion()
      requires Valid()
      modifies `planVersion, `planTrace
      ensures Valid() && planTrace == old(planTrace) + [P.Bump]
    {
      planVersion := NextInt64(planVersion);
      RecordPlan(P.Bump);
    }

    method ListAll() returns (nodes: seq<Node>)
      requires Valid()
      ensures R.IsListing(nodes, store.nodes)
    {
      ReachableTable();
      forall id | id in store.nodes ensures store.nodes[id].id == id {
        assert R.RecordOk(store.Table(), id);
      }
      nodes := store.ListNodes();
    }

    /** The loop body of the recomputation; `es` are the saves so far, on top of the trace `before`. */
    method RecomputePlan(
      nodes: seq<Node>, i: nat, policyMap: C.Table, now: string, ghost before: seq<P.Event>, ghost es: seq<P.Event>)
      returns (ghost es': seq<P.Event>)
      requires Valid() && planTrace == before + es && |es| == i < |nodes|
      requires C.Get(policyMap, nodes[i].id) == C.RulesAt(C.Emissions(nodes), nodes[i].id)
      requires SavesInTurn(nodes, store.health, now, es)
      modifies `planVersion, `planTrace, store`plans, store`history, store`globalPlanVersion
      ensures Valid() && planTrace == before + es' && |es'| == i + 1
      ensures SavesInTurn(nodes, store.health, now, es')
    {
      var n := nodes[i];
      var peers := BuildPeerPlan(n.id, nodes, store.health);
      var rules := C.Get(policyMap, n.id);
      ghost var e := P.Save(n, peers, rules, now);
      SavesInTurnNext(nodes, store.health, now, es, e);
      SavePlanWithRules(n, peers, rules, now);
      es' := es + [e];
    }

    method RecomputeEach(nodes: seq<Node>, policyMap: C.Table, now: string) returns (ghost es: seq<P.Event>)
      requires Valid()
      requires forall i :: 0 <= i < |nodes| ==>
                 C.Get(policyMap, nodes[i].id) == C.RulesAt(C.Emissions(nodes), nodes[i].id)
      modifies `planVersion, `planTrace, store`plans, store`history, store`globalPlanVersion
      ensures Valid() && planTrace == old(planTrace) + es
      ensures IsRecompute(nodes, store.health, now, es)
    {
      es := [];
      for i := 0 to |nodes|
        invariant Valid() && planTrace == old(planTrace) + es
        invariant |es| == i && SavesInTurn(nodes, store.health, now, es)
      {
        es := RecomputePlan(nodes, i, policyMap, now, old(planTrace), es);
      }
    }

    method RecomputeAllPlans(now: string) returns (ghost order: seq<Node>, ghost es: seq<P.Event>)
      requires Valid()
      modifies `planVersion, `planTrace, store`plans, store`history, store`globalPlanVersion
      ensures Valid() && planTrace == old(planTrace) + es
      ensures R.IsListing(order, store.nodes) && IsRecompute(order, store.health, now, es)
    {
      var nodes := ListAll();
      var policyMap := C.ExpandPolicyRules(nodes);
      order := nodes;
      es := RecomputeEach(nodes, policyMap, now);
    }

    // ---- Handlers ----

    method PrepareRecord(id: string, publicKey: string, privateKey: string, clock: nat)
      returns (node: Node, ghost overlay: string)
      requires Valid() && id != ""
      modifies store`nodes, store`version
      ensures store.Table() == R.Step(old(store.Table()), R.PrepareNode(id, publicKey, privateKey, overlay, clock))
      ensures R.Possible(old(store.Table()), R.PrepareNode(id, publicKey, privateKey, overlay, clock))
      ensures R.Provisioned(store.Table(), id) && node == store.nodes[id]
    {
      if id in store.nodes && store.nodes[id].provisionToken != "" {
        node, overlay := store.nodes[id], "";
      } else {
        var list := ListAll();
        var address := R.AssignOverlay(list, store.nodes);
        overlay := address;
        node := store.UpsertNode(R.PreparedNode(id, publicKey, privateKey, address, clock));
        assert R.ProvisionToken(clock) != "";
      }
    }

    method PrepareStep(id: string, publicKey: string, privateKey: string, clock: nat)
      returns (node: Node, ghost e: R.Event)
      requires Valid() && id != ""
      modifies store`nodes, store`version
      ensures e.PrepareNode? && e == R.PrepareNode(id, publicKey, privateKey, e.overlay, clock)
      ensures R.PossibleRun(R.EMPTY, tableTrace + [e]) && store.Table() == R.RunFrom(R.EMPTY, tableTrace + [e])
      ensures R.Provisioned(store.Table(), id) && node == store.nodes[id]
    {
      ghost var overlay;
      node, overlay := PrepareRecord(id, publicKey, privateKey, clock);
      e := R.PrepareNode(id, publicKey, privateKey, overlay, clock);
      R.PossibleMore(R.EMPTY, tableTrace, e);
    }

    method PrepareNode(id: string, publicKey: string, privateKey: string, clock: nat)
      returns (node: Node, ghost overlay: string)
      requires Valid() && id != ""
      modifies `tableTrace, store`nodes, store`version
      ensures Valid()
      ensures tableTrace == old(tableTrace) + [R.PrepareNode(id, publicKey, privateKey, overlay, clock)]
      ensures R.Provisioned(store.Table(), id) && node == store.nodes[id]
    {
      ghost var e;
      node, e := PrepareStep(id, publicKey, privateKey, clock);
      overlay := e.overlay;
      RecordTable(e);
    }

    /** /nodes/prepare. The key pair and the clock are inputs. The trace entry names the allocator's address. */
    method PrepareHandler(id: string, publicKey: string, privateKey: string, clock: nat)
      returns (node: Option<Node>, ghost overlay: string)
      requires Valid()
      modifies `planVersion, `planTrace, `tableTrace, store`nodes, store`version
      ensures Valid()
      ensures id == "" ==> node == None && tableTrace == old(tableTrace) && planTrace == old(planTrace)
      ensures id != "" ==>
                && tableTrace == old(tableTrace) + [R.PrepareNode(id, publicKey, privateKey, overlay, clock)]
                && planTrace == old(planTrace) + [P.Bump]
                && R.Provisioned(store.Table(), id) && node == Some(store.nodes[id])
    {
      overlay := "";
      if id == "" {
        return None, overlay;
      }
      var saved;
      saved, overlay := PrepareNode(id, publicKey, privateKey, clock);
      node := Some(saved);
      BumpPlanVersion();
    }

    /** The merge and the upsert of the register handler. */
    method RegisterRecord(req: R.Request, authed: bool) returns (outcome: R.Outcome)
      modifies store`nodes, store`version
      ensures outcome == R.Verdict(old(store.Table()), req, authed)
      ensures store.Table() == R.Register(old(store.Table()), req, authed)
    {
      outcome := R.Verdict(store.Table(), req, authed);
      if outcome.Registered? {
        var known := req.id in store.nodes;
        var n := R.WithRouterID(if known then R.Merge(R.Submitted(req), store.nodes[req.id]) else R.Submitted(req));
        if !(known && !req.force && R.NodeEqual(store.nodes[req.id], n)) {
          var saved := store.UpsertNode(n);
        }
      }
    }

    method RegisterNode(req: R.Request, authed: bool) returns (outcome: R.Outcome)
      requires Valid()
      modifies `tableTrace, store`nodes, store`version
      ensures Valid() && tableTrace == old(tableTrace) + [R.RegisterNode(req, authed)]
      ensures outcome == R.Verdict(old(store.Table()), req, authed)
    {
      outcome := RegisterRecord(req, authed);
      R.PossibleMore(R.EMPTY, tableTrace, R.RegisterNode(req, authed));
      RecordTable(R.RegisterNode(req, authed));
    }

    /** /nodes/register. An accepted request recomputes all plans, whether or not it changed the node. */
    method RegisterHandler(req: R.Request, authed: bool, now: string)
      returns (outcome: R.Outcome, ghost order: seq<Node>, ghost es: seq<P.Event>)
      requires Valid()
      modifies `planVersion, `planTrace, `tableTrace
      modifies store`nodes, store`version, store`plans, store`history, store`globalPlanVersion
      ensures Valid() && tableTrace == old(tableTrace) + [R.RegisterNode(req, authed)]
      ensures outcome == R.Verdict(old(store.Table()), req, authed)
      ensures !outcome.Registered? ==> planTrace == old(planTrace)
      ensures outcome.Registered? ==>
                && planTrace == old(planTrace) + es + [P.Bump]
                && R.IsListing(order, store.nodes) && IsRecompute(order, store.health, now, es)
    {
      order, es := [], [];
      outcome := RegisterNode(req, authed);
      if outcome.Registered? {
        order, es := RecomputeAllPlans(now);
        BumpPlanVersion();
      }
    }

    /** POST /policy. */
    method PolicyHandler(
      id: string, egress: string, rules: seq<PolicyRule>, defaultRoute: bool, bypass: seq<string>, nextHop: string)
      returns (ok: bool)
      requires Valid()
      modifies `planVersion, `planTrace, `tableTrace, store`nodes
      ensures Valid()
      ensures ok <==> id != "" && id in old(store.nodes) && (rules == [] || ValidCount(NormalisedAll(rules)) > 0)
      ensures ok ==>
                && planTrace == old(planTrace) + [P.Bump]
                && tableTrace == old(tableTrace)
                     + [R.SetPolicy(id, egress, NormalisedAll(rules), defaultRoute, bypass, nextHop)]
      ensures !ok ==> planTrace == old(planTrace) && store.Table() == old(store.Table())
    {
      if id == "" {
        return false;
      }
      var repaired := NormalisedAll(rules);
      var valid := CountValid(repaired);
      if |rules| > 0 && valid == 0 {
        return false;
      }
      ok := store.UpdatePolicy(id, egress, repaired, defaultRoute, bypass, nextHop);
      R.PossibleMore(R.EMPTY, tableTrace, R.SetPolicy(id, egress, repaired, defaultRoute, bypass, nextHop));
      RecordTable(R.SetPolicy(id, egress, repaired, defaultRoute, bypass, nextHop));
      if ok {
        BumpPlanVersion();
      }
    }

    /** The plan saved for a report, and the bump after it: it is made from that report alone. */
    method PlanForReport(seen: HealthReport, now: string) returns (ghost order: seq<Node>, ghost peers: seq<Peer>)
      requires Valid()
      modifies `planVersion, `planTrace, store`plans, store`history, store`globalPlanVersion
      ensures Valid()
      ensures R.IsListing(order, store.nodes) && IsPeerPlan(seen.nodeID, order, map[], peers)
      ensures planTrace == old(planTrace)
                + [P.Save(ZERO_NODE.(id := seen.nodeID), peers, C.RulesAt(C.Emissions(order), seen.nodeID), now)]
                + [P.Bump]
    {
      var nodes := ListAll();
      var policyMap := C.ExpandPolicyRules(nodes);
      var plan := BuildPeerPlan(seen.nodeID, nodes, map[seen.nodeID := seen]);
      HealthHandlerPlanIgnoresHealth(nodes, seen, plan);
      order, peers := nodes, plan;
      SavePlanWithRules(ZERO_NODE.(id := seen.nodeID), plan, C.Get(policyMap, seen.nodeID), now);
      BumpPlanVersion();
    }

    method SaveReport(seen: HealthReport, clock: int)
      requires Valid()
      modifies store`health, store`healthHistory, store`healthTrace
      ensures Valid() && store.healthTrace == old(store.healthTrace) + [H.Save(seen, clock - DAY)]
      ensures store.health == old(store.health)[seen.nodeID := seen]
    {
      store.SaveHealth(seen, clock);
    }

    /** POST /health: saves a plan for a node of which only the ID is set, from the reporter's own report. */
    method HealthHandler(report: HealthReport, clock: int, now: string)
      returns (ok: bool, ghost order: seq<Node>, ghost peers: seq<Peer>)
      requires Valid()
      modifies `planVersion, `planTrace, store`health, store`healthHistory, store`healthTrace
      modifies store`plans, store`history, store`globalPlanVersion
      ensures Valid() && (ok <==> report.nodeID != "")
      ensures !ok ==> planTrace == old(planTrace) && store.healthTrace == old(store.healthTrace)
      ensures ok ==>
                var seen := report.(timestamp := clock);
                && store.health == old(store.health)[report.nodeID := seen]
                && store.healthTrace == old(store.healthTrace) + [H.Save(seen, clock - DAY)]
                && R.IsListing(order, store.nodes)
                && IsPeerPlan(report.nodeID, order, map[], peers)
                && planTrace == old(planTrace)
                     + [P.Save(ZERO_NODE.(id := report.nodeID), peers,
                               C.RulesAt(C.Emissions(order), report.nodeID), now)]
                     + [P.Bump]
    {
      order, peers, ok := [], [], false;
      if report.nodeID == "" {
        return;
      }
      ok := true;
      var seen := report.(timestamp := clock);
      SaveReport(seen, clock);
      order, peers := PlanForReport(seen, now);
    }

    /** GET /plan: saves the plan it answers with; an unknown node's plan is filed under the empty ID. */
    method PlanHandler(nodeID: string, now: string) returns (ghost order: seq<Node>, ghost peers: seq<Peer>)
      requires Valid() && nodeID != ""
      modifies `planVersion, `planTrace, store`plans, store`history, store`globalPlanVersion
      ensures Valid()
      ensures R.IsListing(order, store.nodes) && IsPeerPlan(nodeID, order, store.health, peers)
      ensures planTrace == old(planTrace)
                + [P.Save(if nodeID in store.nodes && store.nodes[nodeID].id == nodeID then store.nodes[nodeID]
                          else ZERO_NODE,
                          peers, C.RulesAt(C.Emissions(order), nodeID), now)]
    {
      var nodes := ListAll();
      var policyMap := C.ExpandPolicyRules(nodes);
      var plan := BuildPeerPlan(nodeID, nodes, store.health);
      var target := FindNode(nodes, nodeID, store.nodes);
      order, peers := nodes, plan;
      SavePlanWithRules(target, plan, C.Get(policyMap, nodeID), now);
    }

    /** GET /plan/history: the last 20 plans ever saved for the node. */
    method HistoryHandler(nodeID: string) returns (plans: Option<seq<Plan>>)
      requires Valid()
      ensures plans == if nodeID == "" then None else Some(Suffix(P.SavedPlans(hash, planTrace, nodeID), 20))
    {
      if nodeID == "" {
        return None;
      }
      var list := store.ListPlanHistory(nodeID, 20);
      P.HistoryIsLastSaved(hash, planTrace, nodeID);
      L.TailOfBounded(P.SavedPlans(hash, planTrace, nodeID), P.HISTORY, 20);
      plans := Some(list);
    }

    method RollbackAndCheck(nodeID: string, version: P.int64) returns (result: P.RollbackResult)
      modifies `planVersion, store`plans, store`globalPlanVersion
      ensures (Plans(), result) == P.Rollback(old(Plans()), hash, nodeID, version)
    {
      var found := store.RollbackPlan(nodeID, version);
      if found == None {
        return P.NotFound;
      }
      var plan := found.value;
      if plan.signature != "" && plan.signature != P.Signature(hash, plan.nodeID, plan.peers, plan.configVersion) {
        return P.SignatureMismatch;
      }
      planVersion := version;
      store.SetGlobalPlanVersion(version);
      result := P.RolledBack(plan);
    }

    /** POST /plan/rollback. In a state a controller can be in, the signature check never fails. */
    method RollbackHandler(nodeID: string, version: P.int64) returns (result: P.RollbackResult)
      requires Valid() && |planTrace| < INT64_LIMIT
      modifies `planVersion, `planTrace, store`plans, store`globalPlanVersion
      ensures Valid()
      ensures nodeID == "" ==> result == P.NotFound && planTrace == old(planTrace)
      ensures nodeID != "" ==>
                && planTrace == old(planTrace) + [P.RollbackTo(nodeID, version)]
                && result == P.Rollback(old(Plans()), hash, nodeID, version).1
                && !result.SignatureMismatch?
    {
      if nodeID == "" {
        return P.NotFound;
      }
      P.RollbackNeverMismatches(hash, planTrace, nodeID, version);
      result := RollbackAndCheck(nodeID, version);
      RecordPlan(P.RollbackTo(nodeID, version));
    }
  }
}
