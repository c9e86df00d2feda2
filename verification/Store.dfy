/** MemoryStore: the maps and logs behind the controller. */
module Store {
  import opened Seqs
  import opened Text
  import opened Model
  import Health = HealthWindow
  import Logs = BoundedLogs
  import P = Plans
  import R = Registration

  datatype InstallLog = InstallLog(nodeID: string, version: string, status: string, message: string, timestamp: int)

  datatype DiagReport = DiagReport(nodeID: string, summary: string, timestamp: int)

  const DAY := 24 * 3600 * 1_000_000_000
  const STATUS_BOUND := 50
  const DIAG_BOUND := 20

  class MemoryStore {
    var nodes: map<string, Node>
    var version: map<string, nat>
    var health: map<string, HealthReport>
    var healthHistory: Health.Histories
    var policyStatus: Logs.Logs<InstallLog>
    var policyDiag: Logs.Logs<DiagReport>
    var plans: map<string, Plan>
    var history: map<string, seq<Plan>>
    var globalPlanVersion: P.int64
    ghost var healthTrace: seq<Health.HealthOp>
    ghost var statusTrace: seq<Logs.Entry<InstallLog>>
    ghost var diagTrace: seq<Logs.Entry<DiagReport>>

    function Table(): R.NodeTable
      reads `nodes, `version
    {
      R.NodeTable(nodes, version)
    }

    function PlanView(counter: P.int64): P.PlanState
      reads `plans, `history, `globalPlanVersion
    {
      P.PlanState(counter, globalPlanVersion, plans, history)
    }

    /** The logs are what everything saved and pruned so far makes of them. */
    ghost predicate LogsValid()
      reads `healthHistory, `healthTrace, `policyStatus, `statusTrace, `policyDiag, `diagTrace
    {
      && healthHistory == Health.Run(healthTrace)
      && policyStatus == Logs.Run(statusTrace, STATUS_BOUND)
      && policyDiag == Logs.Run(diagTrace, DIAG_BOUND)
    }

    constructor ()
      ensures LogsValid() && healthTrace == [] && statusTrace == [] && diagTrace == []
      ensures Table() == R.EMPTY && PlanView(0) == P.EMPTY
      ensures health == map[] && healthHistory == map[] && policyStatus == map[] && policyDiag == map[]
    {
      nodes, version, health, healthHistory, policyStatus, policyDiag := map[], map[], map[], map[], map[], map[];
      plans, history, globalPlanVersion := map[], map[], 0;
      healthTrace, statusTrace, diagTrace := [], [], [];
    }

    // ---- Nodes ----

    method UpsertNode(n: Node) returns (saved: Node)
      modifies `nodes, `version
      ensures Table() == R.Upsert(old(Table()), n)
      ensures saved == nodes[n.id]
    {
      var next := (if n.id in version then version[n.id] else 0) + 1;
      saved := n.(version := R.VersionString(next), configVersion := R.VersionString(next));
      nodes := nodes[n.id := saved];
      version := version[n.id := next];
    }

    /** A map is read in any order. */
    method ListNodes() returns (out: seq<Node>)
      requires forall id :: id in nodes ==> nodes[id].id == id
      ensures R.IsListing(out, nodes)
    {
      out := [];
      var rest := nodes.Keys;
      while rest != {}
        invariant rest <= nodes.Keys
        invariant forall i :: 0 <= i < |out| ==> out[i].id in nodes && out[i].id !in rest && nodes[out[i].id] == out[i]
        invariant forall i, j :: 0 <= i < j < |out| ==> out[i].id != out[j].id
        invariant forall id :: id in nodes ==> id in rest || nodes[id] in out
      {
        var id :| id in rest;
        out := out + [nodes[id]];
        rest := rest - {id};
      }
    }

    method UpdatePolicy(
      id: string, egress: string, rules: seq<PolicyRule>, defaultRoute: bool, bypass: seq<string>, nextHop: string)
      returns (found: bool)
      modifies `nodes
      ensures Table() == R.UpdatePolicy(old(Table()), id, egress, rules, defaultRoute, bypass, nextHop)
      ensures found <==> id in old(nodes)
    {
      if id !in nodes {
        return false;
      }
      var n := nodes[id];
      n := n.(egressPeerID := egress, policyRules := rules, defaultRoute := defaultRoute, bypassCIDRs := bypass,
              defaultRouteNextHop := nextHop);
      nodes := nodes[id := n];
      return true;
    }

    // ---- Health ----

    method CompactHistory(hist: seq<HealthReport>, cutoff: int, strict: bool) returns (keep: seq<HealthReport>)
      ensures keep == Health.Keep(hist, cutoff, strict)
    {
      var buf := new HealthReport[|hist|](i requires 0 <= i < |hist| => hist[i]);
      assert buf[..] == hist;
      var n := Health.Compact(buf, cutoff, strict);
      keep := buf[..n];
    }

    ghost method RecordHealth(op: Health.HealthOp)
      modifies `healthTrace
      ensures healthTrace == old(healthTrace) + [op]
      ensures Health.Run(healthTrace) == Health.Step(Health.Run(old(healthTrace)), op)
    {
      assert Init(healthTrace + [op]) == healthTrace;
      healthTrace := healthTrace + [op];
    }

    method SaveHealth(h: HealthReport, now: int)
      requires LogsValid()
      modifies `health, `healthHistory, `healthTrace
      ensures LogsValid() && healthTrace == old(healthTrace) + [Health.Save(h, now - 86_400_000_000_000)]
      ensures health == old(health)[h.nodeID := h]
      ensures healthHistory == Health.Step(old(healthHistory), Health.Save(h, now - DAY))
    {
      health := health[h.nodeID := h];
      var hist := Health.Get(healthHistory, h.nodeID) + [h];
      var keep := CompactHistory(hist, now - DAY, true);
      healthHistory := healthHistory[h.nodeID := keep];
      RecordHealth(Health.Save(h, now - DAY));
    }

    /** The answer is that of the full log exactly when no cutoff so far removed a report it asks for. */
    method ListHealthHistory(nodeID: string, since: int) returns (out: seq<HealthReport>)
      requires LogsValid()
      ensures var full := Health.Keep(Health.FullLog(healthTrace, nodeID), since, false);
              if Health.Lossless(healthTrace, nodeID, since) then out == full else |out| < |full|
      ensures out == Health.Keep(Health.Get(healthHistory, nodeID), since, false)
    {
      var hist := Health.Get(healthHistory, nodeID);
      out := [];
      for i := 0 to |hist|
        invariant out == Health.Keep(hist[..i], since, false)
      {
        assert Init(hist[..i + 1]) == hist[..i];
        if hist[i].timestamp > since || hist[i].timestamp == since {
          out := out + [hist[i]];
        }
      }
      assert hist[..|hist|] == hist;
      Health.QueryIsCompleteIffLossless(healthTrace, nodeID, since);
    }

    method PruneHealthBefore(cutoff: int)
      requires LogsValid()
      modifies `healthHistory, `healthTrace
      ensures LogsValid() && healthTrace == old(healthTrace) + [Health.Prune(cutoff)]
      ensures healthHistory == Health.Step(old(healthHistory), Health.Prune(cutoff))
    {
      ghost var was := healthHistory;
      var rest := healthHistory.Keys;
      while rest != {}
        invariant healthTrace == old(healthTrace) && policyStatus == old(policyStatus) && policyDiag == old(policyDiag)
        invariant rest <= was.Keys == healthHistory.Keys
        invariant forall id :: id in was ==>
                    healthHistory[id] == if id in rest then was[id] else Health.Keep(was[id], cutoff, false)
      {
        var id :| id in rest;
        var keep := CompactHistory(healthHistory[id], cutoff, false);
        healthHistory := healthHistory[id := keep];
        rest := rest - {id};
      }
      RecordHealth(Health.Prune(cutoff));
    }

    // ---- Policy logs ----

    method SavePolicyStatus(l: InstallLog, now: int)
      requires LogsValid()
      modifies `policyStatus, `statusTrace
      ensures LogsValid()
      ensures statusTrace == old(statusTrace)
                + [Logs.Entry(l.nodeID, if l.timestamp == 0 then l.(timestamp := now) else l)]
      ensures policyStatus == Logs.AppendBounded(old(policyStatus), l.nodeID,
                                                 if l.timestamp == 0 then l.(timestamp := now) else l, STATUS_BOUND)
    {
      var entry := if l.timestamp == 0 then l.(timestamp := now) else l;
      var list := Logs.AppendCut(Logs.Get(policyStatus, l.nodeID), entry, STATUS_BOUND);
      policyStatus := policyStatus[l.nodeID := list];
      Logs.RunMore(statusTrace, Logs.Entry(l.nodeID, entry), STATUS_BOUND);
      statusTrace := statusTrace + [Logs.Entry(l.nodeID, entry)];
    }

    /** The listing is the end of everything ever reported for the node. */
    method ListPolicyStatus(nodeID: string, limit: int) returns (out: seq<InstallLog>)
      requires LogsValid()
      ensures out == Suffix(Logs.FullLog(statusTrace, nodeID), if 0 < limit < 50 then limit else 50)
    {
      Logs.BoundedRefinesFullLog(statusTrace, STATUS_BOUND, nodeID);
      Logs.TailOfBounded(Logs.FullLog(statusTrace, nodeID), STATUS_BOUND, limit);
      out := Logs.List(Logs.Get(policyStatus, nodeID), limit);
    }

    method SavePolicyDiag(d: DiagReport, now: int)
      requires LogsValid()
      modifies `policyDiag, `diagTrace
      ensures LogsValid()
      ensures diagTrace == old(diagTrace)
                + [Logs.Entry(d.nodeID, if d.timestamp == 0 then d.(timestamp := now) else d)]
      ensures policyDiag == Logs.AppendBounded(old(policyDiag), d.nodeID,
                                               if d.timestamp == 0 then d.(timestamp := now) else d, DIAG_BOUND)
    {
      var entry := if d.timestamp == 0 then d.(timestamp := now) else d;
      var list := Logs.AppendCut(Logs.Get(policyDiag, d.nodeID), entry, DIAG_BOUND);
      policyDiag := policyDiag[d.nodeID := list];
      Logs.RunMore(diagTrace, Logs.Entry(d.nodeID, entry), DIAG_BOUND);
      diagTrace := diagTrace + [Logs.Entry(d.nodeID, entry)];
    }

    /** The listing is the end of everything ever reported for the node. */
    method ListPolicyDiag(nodeID: string, limit: int) returns (out: seq<DiagReport>)
      requires LogsValid()
      ensures out == Suffix(Logs.FullLog(diagTrace, nodeID), if 0 < limit < 20 then limit else 20)
    {
      Logs.BoundedRefinesFullLog(diagTrace, DIAG_BOUND, nodeID);
      Logs.TailOfBounded(Logs.FullLog(diagTrace, nodeID), DIAG_BOUND, limit);
      out := Logs.List(Logs.Get(policyDiag, nodeID), limit);
    }

    // ---- Plans ----

    method SavePlan(p: Plan)
      modifies `plans, `history
      ensures forall c: P.int64 :: PlanView(c) == P.SavePlan(old(PlanView(c)), p)
    {
      plans := plans[p.nodeID := p];
      var h := (if p.nodeID in history then history[p.nodeID] else []) + [p];
      if |h| > P.HISTORY {
        h := h[|h| - P.HISTORY..];
      }
      history := history[p.nodeID := h];
    }

    method ListPlanHistory(nodeID: string, limit: int) returns (out: seq<Plan>)
      ensures out == Logs.Tail(P.HistoryOf(PlanView(0), nodeID), limit)
    {
      var h := if nodeID in history then history[nodeID] else [];
      var n := if limit <= 0 || limit > |h| then |h| else limit;
      out := h[|h| - n..];
    }

    method RollbackPlan(nodeID: string, version: P.int64) returns (r: Option<Plan>)
      modifies `plans, `globalPlanVersion
      ensures r == P.FirstMatch(P.HistoryOf(old(PlanView(0)), nodeID), version)
      ensures r.None? ==> plans == old(plans) && globalPlanVersion == old(globalPlanVersion)
      ensures r.Some? ==> plans == old(plans)[nodeID := r.value] && globalPlanVersion == version
    {
      var h := if nodeID in history then history[nodeID] else [];
      for i := 0 to |h|
        invariant P.FirstMatch(h, version) == P.FirstMatch(h[i..], version)
        invariant plans == old(plans) && globalPlanVersion == old(globalPlanVersion)
      {
        assert h[i..][0] == h[i] && h[i..][1..] == h[i + 1..];
        if h[i].version == version {
          plans := plans[nodeID := h[i]];
          globalPlanVersion := version;
          return Some(h[i]);
        }
      }
      assert h[|h|..] == [];
      r := None;
    }

    method SetGlobalPlanVersion(v: P.int64)
      modifies `globalPlanVersion
      ensures globalPlanVersion == v
    {
      globalPlanVersion := v;
    }
  }
}
