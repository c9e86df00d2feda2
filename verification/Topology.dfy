/** BuildPeerPlan: the health-scored full mesh one node is given. */
module Topology {
  import opened Seqs
  import opened Model

  const UNKNOWN_LATENCY := 100000
  const SESSION_PENALTY := 10000
  const ESTABLISHED := "Established"

  type Health = map<string, HealthReport>

  // ---- Scores ----

  /** The smallest reported latency below the default, or the default. */
  ghost predicate IsBestLatency(latency: map<string, int>, best: int) {
    && best <= UNKNOWN_LATENCY
    && (forall k :: k in latency ==> best <= latency[k])
    && (best == UNKNOWN_LATENCY || exists k :: k in latency && latency[k] == best)
  }

  function DownSessions(frr: map<string, string>): set<string> {
    set nbr | nbr in frr && frr[nbr] != ESTABLISHED
  }

  /** The score of a node: it depends on the report alone, not on the order its maps are read in. */
  ghost predicate IsScore(id: string, health: Health, score: int) {
    if id in health then
      IsBestLatency(health[id].latencyMs, score - SESSION_PENALTY * |DownSessions(health[id].frrState)|)
    else score == UNKNOWN_LATENCY
  }

  method BestLatency(latency: map<string, int>) returns (best: int)
    ensures IsBestLatency(latency, best)
  {
    best := UNKNOWN_LATENCY;
    var rest := latency.Keys;
    while rest != {}
      invariant rest <= latency.Keys
      invariant best <= UNKNOWN_LATENCY
      invariant forall k :: k in latency && k !in rest ==> best <= latency[k]
      invariant best == UNKNOWN_LATENCY || exists k :: k in latency && latency[k] == best
    {
      var nbr :| nbr in rest;
      rest := rest - {nbr};
      if latency[nbr] < best {
        best := latency[nbr];
      }
    }
  }

  method SessionPenalty(frr: map<string, string>) returns (penalty: int)
    ensures penalty == SESSION_PENALTY * |DownSessions(frr)|
  {
    penalty := 0;
    var rest := frr.Keys;
    ghost var down: set<string> := {};
    while rest != {}
      invariant rest <= frr.Keys
      invariant down == set nbr | nbr in frr && nbr !in rest && frr[nbr] != ESTABLISHED
      invariant penalty == SESSION_PENALTY * |down|
    {
      var nbr :| nbr in rest;
      rest := rest - {nbr};
      if frr[nbr] != ESTABLISHED {
        penalty := penalty + SESSION_PENALTY;
        assert nbr !in down;
        down := down + {nbr};
      }
    }
    assert down == DownSessions(frr);
  }

  method ScoreOf(id: string, health: Health) returns (score: int)
    ensures IsScore(id, health, score)
  {
    score := UNKNOWN_LATENCY;
    if id in health {
      score := BestLatency(health[id].latencyMs);
      var penalty := SessionPenalty(health[id].frrState);
      score := score + penalty;
    }
  }

  // ---- Candidates ----

  datatype Scored = Scored(peer: Peer, score: int)

  predicate Eligible(targetID: string, n: Node, health: Health) {
    && n.id != targetID
    && n.cidrs != [] && n.publicKey != ""
    && !(n.id in health && health[n.id].status == "down")
  }

  function PeerOf(n: Node): Peer {
    var own := if n.overlayIP != "" then [n.overlayIP] else [];
    Peer(n.id, n.publicKey, if n.endpoints != [] then n.endpoints[0] else "", AppendNew(own, n.cidrs), 25)
  }

  /** `out` lists the eligible nodes of `nodes`, in order, with their scores. */
  ghost predicate AreCandidates(targetID: string, nodes: seq<Node>, health: Health, out: seq<Scored>)
    decreases |nodes|
  {
    if nodes == [] then out == []
    else
      var n := Last(nodes);
      if Eligible(targetID, n, health) then
        && out != []
        && Last(out).peer == PeerOf(n) && IsScore(n.id, health, Last(out).score)
        && AreCandidates(targetID, Init(nodes), health, Init(out))
      else AreCandidates(targetID, Init(nodes), health, out)
  }

  // ---- Stable sort ----

  ghost predicate Sorted(s: seq<Scored>) {
    forall i, j :: 0 <= i < j < |s| ==> s[i].score <= s[j].score
  }

  function WithScore(s: seq<Scored>, k: int): seq<Scored> {
    if s == [] then []
    else WithScore(Init(s), k) + if Last(s).score == k then [Last(s)] else []
  }

  /** Sorted by score, and for each score the same peers in the same order. */
  ghost predicate IsStableSort(s: seq<Scored>, out: seq<Scored>) {
    && Sorted(out)
    && forall k :: WithScore(out, k) == WithScore(s, k)
  }

  function InsertSorted(s: seq<Scored>, x: Scored): seq<Scored> {
    if s == [] || Last(s).score <= x.score then s + [x] else InsertSorted(Init(s), x) + [Last(s)]
  }

  function StableSort(s: seq<Scored>): seq<Scored> {
    if s == [] then [] else InsertSorted(StableSort(Init(s)), Last(s))
  }

  lemma {:induction false} WithScoreMembers(s: seq<Scored>, k: int)
    ensures forall x :: x in WithScore(s, k) <==> x in s && x.score == k
  {
    if s != [] {
      assert s == Init(s) + [Last(s)];
      WithScoreMembers(Init(s), k);
    }
  }

  lemma SortedExtend(t: seq<Scored>, l: Scored)
    requires Sorted(t) && (t != [] ==> Last(t).score <= l.score)
    ensures Sorted(t + [l])
  {
    forall i, j | 0 <= i < j < |t + [l]| ensures (t + [l])[i].score <= (t + [l])[j].score {
      if j == |t| && i < |t| - 1 {
        assert t[i].score <= t[|t| - 1].score;
      }
    }
  }

  lemma {:induction false} InsertKeepsSorted(s: seq<Scored>, x: Scored)
    requires Sorted(s)
    ensures Sorted(InsertSorted(s, x)) && InsertSorted(s, x) != []
    ensures Last(InsertSorted(s, x)).score == if s != [] && Last(s).score > x.score then Last(s).score else x.score
  {
    if s == [] || Last(s).score <= x.score {
      SortedExtend(s, x);
    } else {
      InsertKeepsSorted(Init(s), x);
      SortedExtend(InsertSorted(Init(s), x), Last(s));
    }
  }

  lemma WithScoreSnoc(t: seq<Scored>, l: Scored, k: int)
    ensures WithScore(t + [l], k) == WithScore(t, k) + if l.score == k then [l] else []
  {
    assert Init(t + [l]) == t;
  }

  lemma {:induction false} InsertWithScore(s: seq<Scored>, x: Scored, k: int)
    ensures WithScore(InsertSorted(s, x), k) == WithScore(s, k) + if x.score == k then [x] else []
  {
    if s == [] || Last(s).score <= x.score {
      WithScoreSnoc(s, x, k);
    } else {
      InsertWithScore(Init(s), x, k);
      WithScoreSnoc(InsertSorted(Init(s), x), Last(s), k);
    }
  }

  lemma {:induction false} StableSortWithScore(s: seq<Scored>, k: int)
    ensures WithScore(StableSort(s), k) == WithScore(s, k)
  {
    if s != [] {
      StableSortWithScore(Init(s), k);
      InsertWithScore(StableSort(Init(s)), Last(s), k);
    }
  }

  lemma {:induction false} StableSortSorted(s: seq<Scored>)
    ensures Sorted(StableSort(s))
  {
    if s != [] {
      StableSortSorted(Init(s));
      InsertKeepsSorted(StableSort(Init(s)), Last(s));
    }
  }

  lemma StableSortCorrect(s: seq<Scored>)
    ensures IsStableSort(s, StableSort(s))
  {
    StableSortSorted(s);
    forall k ensures WithScore(StableSort(s), k) == WithScore(s, k) {
      StableSortWithScore(s, k);
    }
  }

  ghost predicate SameByScore(a: seq<Scored>, b: seq<Scored>) {
    forall k :: WithScore(a, k) == WithScore(b, k)
  }

  lemma TopScoreBound(a: seq<Scored>, b: seq<Scored>)
    requires Sorted(b) && SameByScore(a, b) && a != []
    ensures b != [] && Last(a).score <= Last(b).score
  {
    var k := Last(a).score;
    assert WithScore(a, k) == WithScore(b, k);
    WithScoreMembers(a, k);
    WithScoreMembers(b, k);
    assert Last(a) in a;
    var i :| 0 <= i < |b| && b[i] == Last(a);
    assert i < |b| - 1 ==> b[i].score <= b[|b| - 1].score;
  }

  lemma WithoutLast(s: seq<Scored>, k: int)
    requires s != []
    ensures Last(s).score == k ==> WithScore(s, k) == WithScore(Init(s), k) + [Last(s)]
    ensures Last(s).score != k ==> WithScore(s, k) == WithScore(Init(s), k)
  {
  }

  lemma SnocCancels(a: seq<Scored>, b: seq<Scored>, x: Scored)
    requires a + [x] == b + [x]
    ensures a == b
  {
    assert a == (a + [x])[..|a|];
    assert b == (b + [x])[..|b|];
  }

  lemma SameLast(a: seq<Scored>, b: seq<Scored>)
    requires Sorted(a) && Sorted(b) && SameByScore(a, b) && a != []
    ensures b != [] && Last(a) == Last(b) && SameByScore(Init(a), Init(b))
  {
    TopScoreBound(a, b);
    TopScoreBound(b, a);
    var top := Last(a).score;
    assert WithScore(a, top) == WithScore(b, top);
    WithoutLast(a, top);
    WithoutLast(b, top);
    assert Last(WithScore(a, top)) == Last(a) && Last(WithScore(b, top)) == Last(b);
    forall k ensures WithScore(Init(a), k) == WithScore(Init(b), k) {
      assert WithScore(a, k) == WithScore(b, k);
      WithoutLast(a, k);
      WithoutLast(b, k);
      if k == top {
        SnocCancels(WithScore(Init(a), k), WithScore(Init(b), k), Last(a));
      }
    }
  }

  lemma {:induction false} SortedSame(a: seq<Scored>, b: seq<Scored>)
    requires Sorted(a) && Sorted(b) && SameByScore(a, b)
    ensures a == b
    decreases |a|
  {
    if a != [] {
      SameLast(a, b);
      SortedSame(Init(a), Init(b));
      assert a == Init(a) + [Last(a)] && b == Init(b) + [Last(b)];
    } else if b != [] {
      TopScoreBound(b, a);
    }
  }

  /** There is one stable sort: whatever algorithm the library uses, the plan is the same. */
  lemma StableSortUnique(s: seq<Scored>, a: seq<Scored>, b: seq<Scored>)
    requires IsStableSort(s, a) && IsStableSort(s, b)
    ensures a == b
  {
    forall k ensures WithScore(a, k) == WithScore(b, k) {
      assert WithScore(a, k) == WithScore(s, k) == WithScore(b, k);
    }
    SortedSame(a, b);
  }

  // ---- The plan ----

  function PeersOf(s: seq<Scored>): seq<Peer> {
    seq(|s|, i requires 0 <= i < |s| => s[i].peer)
  }

  /** `plan` is the stable sort by score of exactly the eligible other nodes. */
  ghost predicate IsPeerPlan(targetID: string, nodes: seq<Node>, health: Health, plan: seq<Peer>) {
    exists cs, sorted ::
      AreCandidates(targetID, nodes, health, cs) && IsStableSort(cs, sorted) && plan == PeersOf(sorted)
  }

  method AllowedIPs(n: Node) returns (allowed: seq<string>)
    ensures allowed == PeerOf(n).allowedIPs
  {
    allowed := [];
    var seen: set<string> := {};
    if n.overlayIP != "" {
      allowed := [n.overlayIP];
      seen := {n.overlayIP};
    }
    ghost var own := allowed;
    for i := 0 to |n.cidrs|
      invariant allowed == AppendNew(own, n.cidrs[..i])
      invariant forall c :: c in seen <==> c in allowed
    {
      assert Init(n.cidrs[..i + 1]) == n.cidrs[..i];
      var cidr := n.cidrs[i];
      if cidr !in seen {
        allowed := allowed + [cidr];
        seen := seen + {cidr};
      }
    }
    assert n.cidrs[..|n.cidrs|] == n.cidrs;
  }

  method CollectCandidates(targetID: string, nodes: seq<Node>, health: Health) returns (peers: seq<Scored>)
    ensures AreCandidates(targetID, nodes, health, peers)
  {
    peers := [];
    for i := 0 to |nodes|
      invariant AreCandidates(targetID, nodes[..i], health, peers)
    {
      var n := nodes[i];
      assert Init(nodes[..i + 1]) == nodes[..i];
      if Eligible(targetID, n, health) {
        var score := ScoreOf(n.id, health);
        var allowed := AllowedIPs(n);
        var peer := Peer(n.id, n.publicKey, if |n.endpoints| > 0 then n.endpoints[0] else "", allowed, 25);
        assert Init(peers + [Scored(peer, score)]) == peers;
        peers := peers + [Scored(peer, score)];
      }
    }
    assert nodes[..|nodes|] == nodes;
  }

  method BuildPeerPlan(targetID: string, nodes: seq<Node>, health: Health) returns (out: seq<Peer>)
    ensures IsPeerPlan(targetID, nodes, health, out)
  {
    var peers := CollectCandidates(targetID, nodes, health);
    StableSortCorrect(peers);
    var sorted := StableSort(peers);
    out := PeersOf(sorted);
  }

  lemma {:induction false} CandidatesUnique(
    targetID: string, nodes: seq<Node>, health: Health, a: seq<Scored>, b: seq<Scored>)
    requires AreCandidates(targetID, nodes, health, a) && AreCandidates(targetID, nodes, health, b)
    ensures a == b
    decreases |nodes|
  {
    if nodes != [] {
      if Eligible(targetID, Last(nodes), health) {
        CandidatesUnique(targetID, Init(nodes), health, Init(a), Init(b));
        assert a == Init(a) + [Last(a)] && b == Init(b) + [Last(b)];
      } else {
        CandidatesUnique(targetID, Init(nodes), health, a, b);
      }
    }
  }

  /** One node list and one set of reports give one plan. */
  lemma PeerPlanUnique(targetID: string, nodes: seq<Node>, health: Health, p: seq<Peer>, q: seq<Peer>)
    requires IsPeerPlan(targetID, nodes, health, p) && IsPeerPlan(targetID, nodes, health, q)
    ensures p == q
  {
    var a, s :| AreCandidates(targetID, nodes, health, a) && IsStableSort(a, s) && p == PeersOf(s);
    var b, t :| AreCandidates(targetID, nodes, health, b) && IsStableSort(b, t) && q == PeersOf(t);
    CandidatesUnique(targetID, nodes, health, a, b);
    StableSortUnique(a, s, t);
  }

  lemma {:induction false} CandidateMembers(
    targetID: string, nodes: seq<Node>, health: Health, cs: seq<Scored>, p: Peer)
    requires AreCandidates(targetID, nodes, health, cs)
    ensures (exists x :: x in cs && x.peer == p) <==>
              exists n :: n in nodes && Eligible(targetID, n, health) && p == PeerOf(n)
    decreases |nodes|
  {
    if nodes != [] {
      assert nodes == Init(nodes) + [Last(nodes)];
      if Eligible(targetID, Last(nodes), health) {
        CandidateMembers(targetID, Init(nodes), health, Init(cs), p);
        assert cs == Init(cs) + [Last(cs)];
        assert Last(cs) in cs && Last(nodes) in nodes;
      } else {
        CandidateMembers(targetID, Init(nodes), health, cs, p);
      }
    }
  }

  lemma SortMembers(s: seq<Scored>, out: seq<Scored>, x: Scored)
    requires IsStableSort(s, out)
    ensures x in out <==> x in s
  {
    assert WithScore(out, x.score) == WithScore(s, x.score);
    WithScoreMembers(out, x.score);
    WithScoreMembers(s, x.score);
  }

  /** The peers of a plan are exactly the eligible nodes. */
  lemma PlanMembers(targetID: string, nodes: seq<Node>, health: Health, plan: seq<Peer>, p: Peer)
    requires IsPeerPlan(targetID, nodes, health, plan)
    ensures p in plan <==> exists n :: n in nodes && Eligible(targetID, n, health) && p == PeerOf(n)
  {
    var cs, sorted :| AreCandidates(targetID, nodes, health, cs) && IsStableSort(cs, sorted) && plan == PeersOf(sorted);
    CandidateMembers(targetID, nodes, health, cs, p);
    if p in plan {
      var i :| 0 <= i < |plan| && plan[i] == p;
      SortMembers(cs, sorted, sorted[i]);
    }
    if x: Scored :| x in cs && x.peer == p {
      SortMembers(cs, sorted, x);
      var i :| 0 <= i < |sorted| && sorted[i] == x;
      assert plan[i] == p;
    }
  }

  /** Nodes that are eligible for each other appear in each other's plans. */
  lemma CompleteMesh(nodes: seq<Node>, health: Health, a: Node, b: Node, planA: seq<Peer>, planB: seq<Peer>)
    requires a in nodes && b in nodes
    requires Eligible(b.id, a, health) && Eligible(a.id, b, health)
    requires IsPeerPlan(a.id, nodes, health, planA) && IsPeerPlan(b.id, nodes, health, planB)
    ensures PeerOf(b) in planA && PeerOf(a) in planB
  {
    PlanMembers(a.id, nodes, health, planA, PeerOf(b));
    PlanMembers(b.id, nodes, health, planB, PeerOf(a));
  }

  lemma {:induction false} CandidatesSameHealth(
    targetID: string, nodes: seq<Node>, health: Health, health': Health, cs: seq<Scored>)
    requires health - {targetID} == health' - {targetID}
    ensures AreCandidates(targetID, nodes, health, cs) == AreCandidates(targetID, nodes, health', cs)
    decreases |nodes|
  {
    if nodes != [] {
      var n := Last(nodes);
      assert n.id != targetID ==> (n.id in health <==> n.id in health - {targetID});
      assert n.id != targetID ==> (n.id in health' <==> n.id in health' - {targetID});
      assert n.id != targetID && n.id in health ==> health[n.id] == (health - {targetID})[n.id] == health'[n.id];
      if cs != [] {
        CandidatesSameHealth(targetID, Init(nodes), health, health', Init(cs));
      }
      CandidatesSameHealth(targetID, Init(nodes), health, health', cs);
    }
  }

  /** A node's own report has no effect on its plan. */
  lemma OwnReportIgnored(targetID: string, nodes: seq<Node>, health: Health, health': Health, plan: seq<Peer>)
    requires health - {targetID} == health' - {targetID}
    ensures IsPeerPlan(targetID, nodes, health, plan) <==> IsPeerPlan(targetID, nodes, health', plan)
  {
    forall cs ensures AreCandidates(targetID, nodes, health, cs) == AreCandidates(targetID, nodes, health', cs) {
      CandidatesSameHealth(targetID, nodes, health, health', cs);
    }
  }

  /** The plan the health handler saves is the one for no reports at all: it passes the reporter's own report only. */
  lemma HealthHandlerPlanIgnoresHealth(nodes: seq<Node>, report: HealthReport, plan: seq<Peer>)
    ensures IsPeerPlan(report.nodeID, nodes, map[report.nodeID := report], plan)
       <==> IsPeerPlan(report.nodeID, nodes, map[], plan)
  {
    var alone: Health := map[report.nodeID := report];
    assert alone - {report.nodeID} == map[] - {report.nodeID};
    OwnReportIgnored(report.nodeID, nodes, alone, map[], plan);
  }

  /**
    The AllowedIPs of a planned peer: not empty, no repetition, the overlay address
    first, and nothing but its own prefixes.
   */
  lemma PlannedAllowedIPs(targetID: string, n: Node, health: Health)
    requires Eligible(targetID, n, health)
    ensures PeerOf(n).allowedIPs != [] && NoDup(PeerOf(n).allowedIPs)
    ensures PeerOf(n).allowedIPs[0] == if n.overlayIP != "" then n.overlayIP else n.cidrs[0]
    ensures forall ip :: ip in PeerOf(n).allowedIPs <==> ip in n.cidrs || (ip == n.overlayIP && ip != "")
  {
    var own := if n.overlayIP != "" then [n.overlayIP] else [];
    AppendNewFacts(own, n.cidrs);
    AppendNewFirst(n.cidrs);
    assert n.cidrs[0] in AppendNew(own, n.cidrs);
  }

  // ---- The plan in terms of the records ----

  /**
    A listed node is planned for `x` exactly when it is another node, has a prefix and a key, and is not reported
    "down"; and what is planned is its key and its first endpoint.
   */
  lemma PlannedIff(x: string, nodes: seq<Node>, health: Health, plan: seq<Peer>, n: Node)
    requires IsPeerPlan(x, nodes, health, plan) && n in nodes
    requires forall i, j :: 0 <= i < j < |nodes| ==> nodes[i].id != nodes[j].id
    ensures (exists p :: p in plan && p.id == n.id) <==>
              && n.id != x && |n.cidrs| > 0 && n.publicKey != ""
              && (n.id in health ==> health[n.id].status != "down")
    ensures forall p :: p in plan && p.id == n.id ==>
              && p.publicKey == n.publicKey && p.keepalive == 25
              && (n.endpoints == [] ==> p.endpoint == "") && (n.endpoints != [] ==> p.endpoint == n.endpoints[0])
  {
    forall p | p in plan && p.id == n.id ensures p == PeerOf(n) && Eligible(x, n, health) {
      PlanMembers(x, nodes, health, plan, p);
      var m :| m in nodes && Eligible(x, m, health) && p == PeerOf(m);
      var i :| 0 <= i < |nodes| && nodes[i] == m;
      var j :| 0 <= j < |nodes| && nodes[j] == n;
      assert i == j;
    }
    if n.id != x && |n.cidrs| > 0 && n.publicKey != "" && (n.id in health ==> health[n.id].status != "down") {
      PlanMembers(x, nodes, health, plan, PeerOf(n));
      assert PeerOf(n) in plan && PeerOf(n).id == n.id;
    }
  }

  /** Scores in numbers: 100000 without a report, else the least latency below that, and 10000 per session not up. */
  lemma ScoreInFields(id: string, health: Health, score: int)
    requires IsScore(id, health, score)
    ensures id !in health ==> score == 100000
    ensures id in health ==>
              var latency, frr := health[id].latencyMs, health[id].frrState;
              var best := score - 10000 * |set nbr | nbr in frr && frr[nbr] != "Established"|;
              && best <= 100000 && (forall k :: k in latency ==> best <= latency[k])
              && (best < 100000 ==> exists k :: k in latency && latency[k] == best)
  {
    if id in health {
      var frr := health[id].frrState;
      assert DownSessions(frr) == set nbr | nbr in frr && frr[nbr] != "Established";
    }
  }

  lemma ScoreUnique(id: string, health: Health, a: int, b: int)
    requires IsScore(id, health, a) && IsScore(id, health, b)
    ensures a == b
  {
  }

  lemma {:induction false} CandidateScore(x: string, nodes: seq<Node>, health: Health, cs: seq<Scored>, c: Scored)
    requires AreCandidates(x, nodes, health, cs) && c in cs
    ensures IsScore(c.peer.id, health, c.score)
    decreases |nodes|
  {
    if nodes != [] {
      if Eligible(x, Last(nodes), health) {
        assert cs == Init(cs) + [Last(cs)];
        if c in Init(cs) {
          CandidateScore(x, Init(nodes), health, Init(cs), c);
        }
      } else {
        CandidateScore(x, Init(nodes), health, cs, c);
      }
    }
  }

  /** Of two planned nodes the one with the lower score comes first. */
  lemma LowerScoreFirst(x: string, nodes: seq<Node>, health: Health, plan: seq<Peer>, i: nat, j: nat, si: int, sj: int)
    requires IsPeerPlan(x, nodes, health, plan) && i < |plan| && j < |plan|
    requires IsScore(plan[i].id, health, si) && IsScore(plan[j].id, health, sj) && si < sj
    ensures i < j
  {
    var cs: seq<Scored>, sorted: seq<Scored> :|
      AreCandidates(x, nodes, health, cs) && IsStableSort(cs, sorted) && plan == PeersOf(sorted);
    forall k | 0 <= k < |sorted| ensures IsScore(plan[k].id, health, sorted[k].score) {
      SortMembers(cs, sorted, sorted[k]);
      CandidateScore(x, nodes, health, cs, sorted[k]);
    }
    ScoreUnique(plan[i].id, health, si, sorted[i].score);
    ScoreUnique(plan[j].id, health, sj, sorted[j].score);
  }
}
