/**
  expandPolicyRules: compiles source-routed rules (a node and an ordered hop list)
  into next-hop rules, one for every node on the path but the last.
 */
module PathCompiler {
  import opened Seqs
  import opened Model

  /** One `append` to the output table: `rule` is added at node `at`. */
  datatype Emission = Emission(at: string, rule: PolicyRule)

  function HopRule(pr: PolicyRule, via: string): PolicyRule {
    pr.(viaNode := via, path := [])
  }

  /** The node that forwards to hop `i` of a path starting at `src`. */
  function Forwarder(src: string, path: seq<string>, i: nat): string
    requires i <= |path|
  {
    if i == 0 then src else path[i - 1]
  }

  function EmitRule(src: string, pr: PolicyRule): (es: seq<Emission>)
    ensures |es| == if pr.path == [] then 1 else |pr.path|
  {
    if pr.path == [] then [Emission(src, pr)]
    else
      seq(|pr.path|, i requires 0 <= i < |pr.path| =>
        Emission(Forwarder(src, pr.path, i), HopRule(pr, pr.path[i])))
  }

  function EmitRules(src: string, rules: seq<PolicyRule>): seq<Emission> {
    if rules == [] then [] else EmitRules(src, Init(rules)) + EmitRule(src, Last(rules))
  }

  /** All emissions, in the order the nodes are visited. */
  function Emissions(nodes: seq<Node>): seq<Emission> {
    if nodes == [] then []
    else Emissions(Init(nodes)) + EmitRules(Last(nodes).id, Last(nodes).policyRules)
  }

  /** What one node receives. */
  function RulesAt(es: seq<Emission>, id: string): seq<PolicyRule> {
    if es == [] then []
    else RulesAt(Init(es), id) + if Last(es).at == id then [Last(es).rule] else []
  }

  lemma {:induction false} RulesAtConcat(es: seq<Emission>, fs: seq<Emission>, id: string)
    ensures RulesAt(es + fs, id) == RulesAt(es, id) + RulesAt(fs, id)
  {
    if fs == [] {
      assert es + fs == es;
    } else {
      RulesAtConcat(es, Init(fs), id);
      assert Init(es + fs) == es + Init(fs);
    }
  }

  lemma {:induction false} RulesAtMember(es: seq<Emission>, id: string, rule: PolicyRule)
    ensures rule in RulesAt(es, id) <==> Emission(id, rule) in es
  {
    if es != [] {
      RulesAtMember(Init(es), id, rule);
      assert es == Init(es) + [Last(es)];
    }
  }

  // ---- The loops of expandPolicyRules ----

  type Table = map<string, seq<PolicyRule>>

  function Get(out: Table, id: string): seq<PolicyRule> {
    if id in out then out[id] else []
  }

  function Append(out: Table, e: Emission): Table {
    out[e.at := Get(out, e.at) + [e.rule]]
  }

  /** The table after a series of appends. */
  function TableOf(es: seq<Emission>): Table {
    if es == [] then map[] else Append(TableOf(Init(es)), Last(es))
  }

  lemma TableOfStep(es: seq<Emission>, e: Emission)
    ensures TableOf(es + [e]) == Append(TableOf(es), e)
  {
    assert Init(es + [e]) == es;
  }

  lemma {:induction false} TableOfRules(es: seq<Emission>, id: string)
    ensures Get(TableOf(es), id) == RulesAt(es, id)
    ensures id in TableOf(es) <==> RulesAt(es, id) != []
  {
    if es != [] {
      TableOfRules(Init(es), id);
      TableOfRules(Init(es), Last(es).at);
    }
  }

  lemma TableOfPrefix(es: seq<Emission>, more: seq<Emission>, i: nat)
    requires i < |more|
    ensures TableOf(es + more[..i + 1]) == Append(TableOf(es + more[..i]), more[i])
  {
    assert es + more[..i + 1] == es + more[..i] + [more[i]];
    TableOfStep(es + more[..i], more[i]);
  }

  method DistributeRule(out: Table, src: string, pr: PolicyRule, ghost es: seq<Emission>) returns (out': Table)
    requires out == TableOf(es)
    ensures out' == TableOf(es + EmitRule(src, pr))
  {
    if |pr.path| == 0 {
      TableOfStep(es, Emission(src, pr));
      return Append(out, Emission(src, pr));
    }
    var hops := pr.path;
    ghost var all := EmitRule(src, pr);
    TableOfPrefix(es, all, 0);
    assert es + all[..0] == es;
    out' := Append(out, Emission(src, HopRule(pr, hops[0])));
    for i := 1 to |hops|
      invariant out' == TableOf(es + all[..i])
    {
      TableOfPrefix(es, all, i);
      out' := Append(out', Emission(hops[i - 1], HopRule(pr, hops[i])));
    }
    assert all[..|hops|] == all;
  }

  lemma EmitRulesStep(es: seq<Emission>, src: string, rules: seq<PolicyRule>, b: nat)
    requires b < |rules|
    ensures es + EmitRules(src, rules[..b + 1]) == es + EmitRules(src, rules[..b]) + EmitRule(src, rules[b])
  {
    assert Init(rules[..b + 1]) == rules[..b];
  }

  method DistributeRules(out: Table, src: string, rules: seq<PolicyRule>, ghost es: seq<Emission>) returns (out': Table)
    requires out == TableOf(es)
    ensures out' == TableOf(es + EmitRules(src, rules))
  {
    out' := out;
    assert es + EmitRules(src, rules[..0]) == es;
    for b := 0 to |rules|
      invariant out' == TableOf(es + EmitRules(src, rules[..b]))
    {
      EmitRulesStep(es, src, rules, b);
      out' := DistributeRule(out', src, rules[b], es + EmitRules(src, rules[..b]));
    }
    assert rules[..|rules|] == rules;
  }

  method ExpandPolicyRules(nodes: seq<Node>) returns (out: Table)
    ensures forall id :: Get(out, id) == RulesAt(Emissions(nodes), id)
    ensures forall id :: id in out <==> RulesAt(Emissions(nodes), id) != []
  {
    out := map[];
    for a := 0 to |nodes|
      invariant out == TableOf(Emissions(nodes[..a]))
    {
      out := DistributeRules(out, nodes[a].id, nodes[a].policyRules, Emissions(nodes[..a]));
      assert Init(nodes[..a + 1]) == nodes[..a];
    }
    assert nodes[..|nodes|] == nodes;
    forall id
      ensures Get(out, id) == RulesAt(Emissions(nodes), id) && (id in out <==> RulesAt(Emissions(nodes), id) != [])
    {
      TableOfRules(Emissions(nodes), id);
    }
  }

  // ---- Conservation ----

  function Emitted(pr: PolicyRule): nat {
    if pr.path == [] then 1 else |pr.path|
  }

  function EmittedBy(rules: seq<PolicyRule>): nat {
    if rules == [] then 0 else EmittedBy(Init(rules)) + Emitted(Last(rules))
  }

  function EmittedByAll(nodes: seq<Node>): nat {
    if nodes == [] then 0 else EmittedByAll(Init(nodes)) + EmittedBy(Last(nodes).policyRules)
  }

  /** Number of rules received by the listed nodes together. */
  function Received(es: seq<Emission>, ids: seq<string>): nat {
    if ids == [] then 0 else Received(es, Init(ids)) + |RulesAt(es, Last(ids))|
  }

  lemma {:induction false} EmitRulesLength(src: string, rules: seq<PolicyRule>)
    ensures |EmitRules(src, rules)| == EmittedBy(rules)
  {
    if rules != [] {
      EmitRulesLength(src, Init(rules));
    }
  }

  lemma {:induction false} EmissionsLength(nodes: seq<Node>)
    ensures |Emissions(nodes)| == EmittedByAll(nodes)
  {
    if nodes != [] {
      EmissionsLength(Init(nodes));
      EmitRulesLength(Last(nodes).id, Last(nodes).policyRules);
    }
  }

  lemma {:induction false} ReceivedStep(es: seq<Emission>, ids: seq<string>)
    requires es != [] && NoDup(ids)
    ensures Received(es, ids) == Received(Init(es), ids) + if Last(es).at in ids then 1 else 0
  {
    if ids != [] {
      ReceivedStep(es, Init(ids));
      assert ids == Init(ids) + [Last(ids)];
    }
  }

  lemma {:induction false} ReceivedNothing(ids: seq<string>)
    ensures Received([], ids) == 0
  {
    if ids != [] {
      ReceivedNothing(Init(ids));
    }
  }

  lemma {:induction false} ReceivedAll(es: seq<Emission>, ids: seq<string>)
    requires NoDup(ids)
    requires forall e :: e in es ==> e.at in ids
    ensures Received(es, ids) == |es|
  {
    if es == [] {
      ReceivedNothing(ids);
    } else {
      assert es == Init(es) + [Last(es)];
      ReceivedAll(Init(es), ids);
      ReceivedStep(es, ids);
    }
  }

  /** No rule is lost or invented: the nodes receive max(1, path length) rules per input rule. */
  lemma RuleCountConserved(nodes: seq<Node>, ids: seq<string>)
    requires NoDup(ids)
    requires forall id :: RulesAt(Emissions(nodes), id) != [] ==> id in ids
    ensures Received(Emissions(nodes), ids) == EmittedByAll(nodes)
  {
    var es := Emissions(nodes);
    forall e | e in es ensures e.at in ids {
      RulesAtMember(es, e.at, e.rule);
    }
    ReceivedAll(es, ids);
    EmissionsLength(nodes);
  }

  // ---- Where an emitted rule comes from ----

  lemma {:induction false} EmitRulesOrigin(src: string, rules: seq<PolicyRule>, e: Emission)
    ensures e in EmitRules(src, rules) <==> exists b :: 0 <= b < |rules| && e in EmitRule(src, rules[b])
  {
    if rules != [] {
      EmitRulesOrigin(src, Init(rules), e);
      if e in EmitRule(src, Last(rules)) {
        assert e in EmitRule(src, rules[|rules| - 1]);
      }
      if e in EmitRules(src, Init(rules)) {
        var b :| 0 <= b < |Init(rules)| && e in EmitRule(src, Init(rules)[b]);
        assert e in EmitRule(src, rules[b]);
      }
      if b :| 0 <= b < |rules| && e in EmitRule(src, rules[b]) {
        if b < |rules| - 1 {
          assert e in EmitRule(src, Init(rules)[b]);
        }
      }
    }
  }

  /** `e` is emitted for rule `b` of node `a`. */
  ghost predicate EmittedFor(nodes: seq<Node>, a: nat, b: nat, e: Emission) {
    && a < |nodes|
    && b < |nodes[a].policyRules|
    && e in EmitRule(nodes[a].id, nodes[a].policyRules[b])
  }

  lemma {:induction false} EmissionHasOrigin(nodes: seq<Node>, e: Emission) returns (a: nat, b: nat)
    requires e in Emissions(nodes)
    ensures EmittedFor(nodes, a, b, e)
  {
    var last := |nodes| - 1;
    if e in Emissions(Init(nodes)) {
      a, b := EmissionHasOrigin(Init(nodes), e);
    } else {
      EmitRulesOrigin(nodes[last].id, nodes[last].policyRules, e);
      a := last;
      b :| b < |nodes[last].policyRules| && e in EmitRule(nodes[last].id, nodes[last].policyRules[b]);
    }
  }

  lemma {:induction false} OriginIsEmitted(nodes: seq<Node>, a: nat, b: nat, e: Emission)
    requires EmittedFor(nodes, a, b, e)
    ensures e in Emissions(nodes)
  {
    if a < |nodes| - 1 {
      OriginIsEmitted(Init(nodes), a, b, e);
    } else {
      EmitRulesOrigin(nodes[a].id, nodes[a].policyRules, e);
    }
  }

  /** Every rule a node receives keeps the destination of the rule it was compiled from, and is a single hop of it. */
  lemma CompiledRuleOrigin(nodes: seq<Node>, id: string, rule: PolicyRule) returns (a: nat, b: nat)
    requires rule in RulesAt(Emissions(nodes), id)
    ensures EmittedFor(nodes, a, b, Emission(id, rule))
    ensures var pr := nodes[a].policyRules[b];
            && rule.prefix == pr.prefix && rule.domains == pr.domains && rule.path == []
            && (pr.path == [] ==> id == nodes[a].id && rule == pr)
            && (pr.path != [] ==>
                  exists i :: 0 <= i < |pr.path| && id == Forwarder(nodes[a].id, pr.path, i)
                              && rule.viaNode == pr.path[i])
  {
    RulesAtMember(Emissions(nodes), id, rule);
    a, b := EmissionHasOrigin(nodes, Emission(id, rule));
    var pr := nodes[a].policyRules[b];
    if pr.path != [] {
      var es := EmitRule(nodes[a].id, pr);
      var i :| 0 <= i < |es| && es[i] == Emission(id, rule);
      assert id == Forwarder(nodes[a].id, pr.path, i) && rule.viaNode == pr.path[i];
    }
  }

  // ---- The order of the node list does not matter ----

  lemma {:induction false} EmissionsConcat(xs: seq<Node>, ys: seq<Node>)
    ensures Emissions(xs + ys) == Emissions(xs) + Emissions(ys)
  {
    if ys == [] {
      assert xs + ys == xs;
    } else {
      EmissionsConcat(xs, Init(ys));
      assert Init(xs + ys) == xs + Init(ys);
    }
  }

  /** For every order of the node list each node receives the same rules, counting repetitions. */
  lemma {:induction false} OrderIndependent(nodes: seq<Node>, nodes': seq<Node>, id: string)
    requires multiset(nodes) == multiset(nodes')
    ensures multiset(RulesAt(Emissions(nodes), id)) == multiset(RulesAt(Emissions(nodes'), id))
    decreases |nodes|
  {
    if nodes == [] {
      assert |nodes'| == |multiset(nodes')| == 0;
    } else {
      var x := Last(nodes);
      assert nodes == Init(nodes) + [x];
      assert x in multiset(nodes');
      var k := SplitAt(nodes', x);
      var front, back := nodes'[..k], nodes'[k + 1..];
      assert multiset(Init(nodes)) == multiset(front + back);
      OrderIndependent(Init(nodes), front + back, id);
      EmissionsConcat(Init(nodes), [x]);
      EmissionsConcat(front, back);
      EmissionsConcat(front + [x], back);
      EmissionsConcat(front, [x]);
      RulesAtConcat(Emissions(Init(nodes)), Emissions([x]), id);
      RulesAtConcat(Emissions(front), Emissions(back), id);
      RulesAtConcat(Emissions(front), Emissions([x]), id);
      RulesAtConcat(Emissions(front + [x]), Emissions(back), id);
    }
  }

  // ---- Compiling a compiled table again ----

  function Recompiled(nodes: seq<Node>): (r: seq<Node>)
    ensures |r| == |nodes|
  {
    seq(|nodes|, i requires 0 <= i < |nodes| => nodes[i].(policyRules := RulesAt(Emissions(nodes), nodes[i].id)))
  }

  ghost predicate DistinctIDs(nodes: seq<Node>) {
    forall i, j :: 0 <= i < j < |nodes| ==> nodes[i].id != nodes[j].id
  }

  lemma LastPathlessRule(src: string, rules: seq<PolicyRule>, id: string)
    requires rules != [] && Last(rules).path == []
    ensures RulesAt(EmitRules(src, rules), id) ==
              RulesAt(EmitRules(src, Init(rules)), id) + if src == id then [Last(rules)] else []
  {
    var e := Emission(src, Last(rules));
    assert EmitRules(src, rules) == EmitRules(src, Init(rules)) + [e];
    assert Init(EmitRules(src, rules)) == EmitRules(src, Init(rules));
  }

  lemma {:induction false} PathlessRules(src: string, rules: seq<PolicyRule>, id: string)
    requires forall r :: r in rules ==> r.path == []
    ensures RulesAt(EmitRules(src, rules), id) == if src == id then rules else []
  {
    if rules != [] {
      assert rules == Init(rules) + [Last(rules)];
      PathlessRules(src, Init(rules), id);
      LastPathlessRule(src, rules, id);
    }
  }

  ghost predicate AllPathless(nodes: seq<Node>) {
    forall n, r :: n in nodes && r in n.policyRules ==> r.path == []
  }

  lemma PathlessStep(nodes: seq<Node>, id: string)
    requires nodes != [] && AllPathless(nodes)
    ensures AllPathless(Init(nodes))
    ensures RulesAt(Emissions(nodes), id) ==
              RulesAt(Emissions(Init(nodes)), id) + if Last(nodes).id == id then Last(nodes).policyRules else []
  {
    var l := Last(nodes);
    assert nodes == Init(nodes) + [l];
    assert l in nodes;
    PathlessRules(l.id, l.policyRules, id);
    RulesAtConcat(Emissions(Init(nodes)), EmitRules(l.id, l.policyRules), id);
  }

  lemma {:induction false} PathlessElsewhere(nodes: seq<Node>, id: string)
    requires AllPathless(nodes)
    requires forall i :: 0 <= i < |nodes| ==> nodes[i].id != id
    ensures RulesAt(Emissions(nodes), id) == []
  {
    if nodes != [] {
      PathlessStep(nodes, id);
      PathlessElsewhere(Init(nodes), id);
    }
  }

  lemma {:induction false} PathlessAt(nodes: seq<Node>, i: nat)
    requires AllPathless(nodes) && DistinctIDs(nodes) && i < |nodes|
    ensures RulesAt(Emissions(nodes), nodes[i].id) == nodes[i].policyRules
  {
    var id, front := nodes[i].id, Init(nodes);
    PathlessStep(nodes, id);
    if i == |front| {
      PathlessElsewhere(front, id);
      assert [] + nodes[i].policyRules == nodes[i].policyRules;
    } else {
      assert front[i] == nodes[i] && Last(nodes).id != id;
      PathlessAt(front, i);
      assert nodes[i].policyRules + [] == nodes[i].policyRules;
    }
  }

  /**
    Expansion is a fixed point at a node exactly when the node is in the list or receives nothing:
    listed nodes keep their rules in content and order, rules sent to an unknown hop are gone.
   */
  lemma ExpansionFixedPoint(nodes: seq<Node>, id: string)
    requires DistinctIDs(nodes)
    ensures RulesAt(Emissions(Recompiled(nodes)), id) == RulesAt(Emissions(nodes), id)
       <==> (exists n :: n in nodes && n.id == id) || RulesAt(Emissions(nodes), id) == []
  {
    var again := Recompiled(nodes);
    forall n, r | n in again && r in n.policyRules ensures r.path == [] {
      var a, b := CompiledRuleOrigin(nodes, n.id, r);
    }
    if n :| n in nodes && n.id == id {
      var i :| 0 <= i < |nodes| && nodes[i] == n;
      PathlessAt(again, i);
    } else {
      forall i | 0 <= i < |again| ensures again[i].id != id {
        assert nodes[i] in nodes;
      }
      PathlessElsewhere(again, id);
    }
  }
}
