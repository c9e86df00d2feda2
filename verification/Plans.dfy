/**
  The versioned plan store with atomic handlers: the shared counter, the stored global
  version, the latest plan and the bounded history of every node, signatures and rollback.
 */
module Plans {
  import opened Seqs
  import opened Text
  import opened Model

  const HISTORY := 20

  type int64 = v: int | IsInt64(v)

  datatype PlanState = PlanState(
    planVersion: int64,
    global: int64,
    plans: map<string, Plan>,
    history: map<string, seq<Plan>>)

  const EMPTY := PlanState(0, 0, map[], map[])

  function HistoryOf(s: PlanState, id: string): seq<Plan> {
    if id in s.history then s.history[id] else []
  }

  // ---- Signatures ----

  type Hash = string -> string

  function Join(xs: seq<string>, sep: string): string {
    if xs == [] then "" else if |xs| == 1 then xs[0] else xs[0] + sep + Join(xs[1..], sep)
  }

  function PeersText(peers: seq<Peer>): string {
    if peers == [] then "" else peers[0].id + Join(peers[0].allowedIPs, ",") + PeersText(peers[1..])
  }

  /** signPlan: the hash of the parts written one after the other. */
  function Signature(hash: Hash, id: string, peers: seq<Peer>, configVersion: string): string {
    hash(id + configVersion + PeersText(peers))
  }

  ghost predicate Injective(hash: Hash) {
    forall a, b :: hash(a) == hash(b) ==> a == b
  }

  /** Peer lists whose texts have the same lengths throughout. */
  ghost predicate SameShape(p: seq<Peer>, q: seq<Peer>) {
    |p| == |q| && forall i :: 0 <= i < |p| ==> |p[i].id| == |q[i].id| && SameLengths(p[i].allowedIPs, q[i].allowedIPs)
  }

  ghost predicate SameLengths(xs: seq<string>, ys: seq<string>) {
    |xs| == |ys| && forall j :: 0 <= j < |xs| ==> |xs[j]| == |ys[j]|
  }

  /** Peer lists with the same IDs and the same AllowedIPs, whatever else differs. */
  ghost predicate SignAlike(p: seq<Peer>, q: seq<Peer>) {
    |p| == |q| && forall i :: 0 <= i < |p| ==> p[i].id == q[i].id && p[i].allowedIPs == q[i].allowedIPs
  }

  lemma ConcatCancels(a: string, b: string, c: string, d: string)
    requires |a| == |c|
    ensures a + b == c + d <==> a == c && b == d
  {
    assert (a + b)[..|a|] == a && (a + b)[|a|..] == b;
    assert (c + d)[..|a|] == c && (c + d)[|a|..] == d;
  }

  lemma {:induction false} JoinOfShape(xs: seq<string>, ys: seq<string>)
    requires SameLengths(xs, ys)
    ensures |Join(xs, ",")| == |Join(ys, ",")| && (Join(xs, ",") == Join(ys, ",") <==> xs == ys)
  {
    if |xs| > 1 {
      JoinOfShape(xs[1..], ys[1..]);
      ConcatCancels(xs[0] + ",", Join(xs[1..], ","), ys[0] + ",", Join(ys[1..], ","));
      ConcatCancels(xs[0], ",", ys[0], ",");
      assert xs == [xs[0]] + xs[1..] && ys == [ys[0]] + ys[1..];
    }
  }

  lemma {:induction false} PeersTextOfShape(p: seq<Peer>, q: seq<Peer>)
    requires SameShape(p, q)
    ensures |PeersText(p)| == |PeersText(q)| && (PeersText(p) == PeersText(q) <==> SignAlike(p, q))
  {
    if p != [] {
      assert SameShape(p[1..], q[1..]);
      PeersTextOfShape(p[1..], q[1..]);
      JoinOfShape(p[0].allowedIPs, q[0].allowedIPs);
      var a, c := p[0].id + Join(p[0].allowedIPs, ","), q[0].id + Join(q[0].allowedIPs, ",");
      ConcatCancels(a, PeersText(p[1..]), c, PeersText(q[1..]));
      ConcatCancels(p[0].id, Join(p[0].allowedIPs, ","), q[0].id, Join(q[0].allowedIPs, ","));
      AlikeFromHead(p, q);
    }
  }

  lemma AlikeFromHead(p: seq<Peer>, q: seq<Peer>)
    requires p != [] && q != []
    ensures SignAlike(p, q) <==>
              p[0].id == q[0].id && p[0].allowedIPs == q[0].allowedIPs && SignAlike(p[1..], q[1..])
  {
    if p[0].id == q[0].id && p[0].allowedIPs == q[0].allowedIPs && SignAlike(p[1..], q[1..]) {
      forall i | 0 <= i < |p| ensures p[i].id == q[i].id && p[i].allowedIPs == q[i].allowedIPs {
        if i > 0 {
          assert p[i] == p[1..][i - 1] && q[i] == q[1..][i - 1];
        }
      }
    }
    if SignAlike(p, q) {
      forall i | 0 <= i < |p[1..]|
        ensures p[1..][i].id == q[1..][i].id && p[1..][i].allowedIPs == q[1..][i].allowedIPs
      {
        assert p[1..][i] == p[i + 1] && q[1..][i] == q[i + 1];
      }
    }
  }

  /**
    What a signature covers: among plans whose texts have the same lengths, and if the hash has no collisions, two
    signatures are equal exactly when node ID, configuration version, and IDs and AllowedIPs of all peers are.
   */
  lemma SignatureIff(
    hash: Hash, id: string, p: seq<Peer>, cv: string, id': string, q: seq<Peer>, cv': string)
    requires Injective(hash) && |id| == |id'| && |cv| == |cv'| && SameShape(p, q)
    ensures Signature(hash, id, p, cv) == Signature(hash, id', q, cv')
       <==> id == id' && cv == cv' && SignAlike(p, q)
  {
    PeersTextOfShape(p, q);
    ConcatCancels(id + cv, PeersText(p), id' + cv', PeersText(q));
    ConcatCancels(id, cv, id', cv');
  }

  /** For one peer with two prefixes, the text that is hashed. */
  lemma SignedText(hash: Hash, id: string, peer: Peer, cv: string, a: string, b: string)
    requires peer.allowedIPs == [a, b]
    ensures Signature(hash, id, [peer], cv) == hash(id + cv + peer.id + a + "," + b)
  {
    assert [a, b][1..] == [b];
    assert Join([a, b], ",") == a + "," + b;
    assert PeersText([peer]) == peer.id + (a + "," + b);
    assert id + cv + (peer.id + (a + "," + b)) == id + cv + peer.id + a + "," + b;
  }

  /** The parts are hashed without separators, so plans whose texts differ in length can share a signature. */
  lemma SignaturesCollide(hash: Hash, id: string, cv: string, peer: Peer)
    ensures var p := [peer.(id := "ab", allowedIPs := [])];
            var q := [peer.(id := "a", allowedIPs := ["b"])];
            !SignAlike(p, q) && Signature(hash, id, p, cv) == Signature(hash, id, q, cv)
  {
    var p := [peer.(id := "ab", allowedIPs := [])];
    var q := [peer.(id := "a", allowedIPs := ["b"])];
    assert p[0].id != q[0].id;
    assert PeersText(p) == "ab" && PeersText(q) == "ab";
  }

  // ---- Store operations ----

  function SavePlan(s: PlanState, p: Plan): PlanState {
    s.(plans := s.plans[p.nodeID := p],
       history := s.history[p.nodeID := Suffix(HistoryOf(s, p.nodeID) + [p], HISTORY)])
  }

  /** The first, and so the oldest, plan with the version. */
  function FirstMatch(h: seq<Plan>, version: int): (r: Option<Plan>)
    ensures r.Some? ==> r.value in h && r.value.version == version
    ensures r.None? ==> forall p :: p in h ==> p.version != version
  {
    if h == [] then None
    else if h[0].version == version then Some(h[0])
    else FirstMatch(h[1..], version)
  }

  // ---- Handlers ----

  function ConfigVersionOf(version: int, now: string): string {
    if version > 0 then DYNAMIC_V + Dec(version) else "dynamic-" + now
  }

  /** The agent reads from a plan's version text its number, or 0 where the text is made from the clock. */
  lemma AgentReadsVersion(version: int64, now: string)
    requires now == "" || now[0] != 'v'
    ensures ParseNumericVersion(ConfigVersionOf(version, now)) == if version > 0 then version else 0
    ensures version <= 0 ==> ConfigVersionOf(version, now) == "dynamic-" + now
  {
    if version > 0 {
      assert IsInt64(version);
      VersionTextRoundTrip(version);
    } else {
      assert "dynamic-v"[8] == 'v';
      assert now != "" ==> ("dynamic-" + now)[8] == now[0];
      OtherVersionTexts("dynamic-" + now);
    }
  }

  function NewPlan(hash: Hash, version: int, node: Node, peers: seq<Peer>, rules: seq<PolicyRule>, now: string): Plan {
    var cv := ConfigVersionOf(version, now);
    Plan(node.id, version, cv, peers, node.cidrs, Signature(hash, node.id, peers, cv), node.egressPeerID, rules,
         node.peerEndpoints, node.defaultRoute, node.bypassCIDRs, node.defaultRouteNextHop)
  }

  /** savePlanWithRules as one step: allocate a version, save the plan, publish the version. */
  function SaveWithRules(
    s: PlanState, hash: Hash, node: Node, peers: seq<Peer>, rules: seq<PolicyRule>, now: string): PlanState
  {
    var version := NextInt64(s.planVersion);
    SavePlan(s.(planVersion := version), NewPlan(hash, version, node, peers, rules, now)).(global := version)
  }

  lemma SaveAppends(
    s: PlanState, hash: Hash, node: Node, peers: seq<Peer>, rules: seq<PolicyRule>, now: string)
    requires s.planVersion < INT64_LIMIT - 1
    ensures var p := NewPlan(hash, s.planVersion + 1, node, peers, rules, now);
            var s' := SaveWithRules(s, hash, node, peers, rules, now);
            && HistoryOf(s', node.id) == Suffix(HistoryOf(s, node.id) + [p], HISTORY)
            && node.id in s'.plans && s'.plans[node.id] == p
            && s'.planVersion == s.planVersion + 1 == p.version
            && forall id :: id != node.id ==> HistoryOf(s', id) == HistoryOf(s, id)
  {
  }

  datatype RollbackResult = NotFound | SignatureMismatch | RolledBack(plan: Plan)

  /** The rollback handler. On a mismatch the store has already switched plans. */
  function Rollback(s: PlanState, hash: Hash, id: string, version: int64): (PlanState, RollbackResult) {
    match FirstMatch(HistoryOf(s, id), version)
    case None => (s, NotFound)
    case Some(p) =>
      var switched := s.(plans := s.plans[id := p], global := version);
      if p.signature != "" && p.signature != Signature(hash, p.nodeID, p.peers, p.configVersion) then
        (switched, SignatureMismatch)
      else
        (switched.(planVersion := version), RolledBack(p))
  }

  datatype Event =
    | Save(node: Node, peers: seq<Peer>, rules: seq<PolicyRule>, now: string)
    | Bump
    | RollbackTo(id: string, version: int64)

  function Step(s: PlanState, hash: Hash, e: Event): PlanState {
    match e
    case Save(node, peers, rules, now) => SaveWithRules(s, hash, node, peers, rules, now)
    case Bump => s.(planVersion := NextInt64(s.planVersion))
    case RollbackTo(id, version) => Rollback(s, hash, id, version).0
  }

  function RunFrom(s: PlanState, hash: Hash, es: seq<Event>): PlanState {
    if es == [] then s else Step(RunFrom(s, hash, Init(es)), hash, Last(es))
  }

  function Run(hash: Hash, es: seq<Event>): PlanState {
    RunFrom(EMPTY, hash, es)
  }

  lemma {:induction false} RunFromConcat(s: PlanState, hash: Hash, a: seq<Event>, b: seq<Event>)
    ensures RunFrom(s, hash, a + b) == RunFrom(RunFrom(s, hash, a), hash, b)
  {
    if b == [] {
      assert a + b == a;
    } else {
      RunFromConcat(s, hash, a, Init(b));
      assert Init(a + b) == a + Init(b);
    }
  }

  // ---- The invariant of every run ----

  /** A stored plan carries its own node, a version of the run, the version's text and its signature. */
  ghost predicate PlanIntact(hash: Hash, id: string, p: Plan, bound: int) {
    && p.nodeID == id
    && 1 <= p.version <= bound
    && p.configVersion == "dynamic-v" + Dec(p.version)
    && p.signature == Signature(hash, id, p.peers, p.configVersion)
  }

  ghost predicate Consistent(s: PlanState, hash: Hash, bound: int) {
    && 0 <= s.global <= s.planVersion <= bound
    && (forall id :: id in s.plans ==> s.plans[id] in HistoryOf(s, id))
    && (forall id, p :: p in HistoryOf(s, id) ==> PlanIntact(hash, id, p, bound))
    && (forall id :: id in s.history ==> |s.history[id]| <= HISTORY)
  }

  lemma SaveKeepsConsistent(
    s: PlanState, hash: Hash, bound: int, node: Node, peers: seq<Peer>, rules: seq<PolicyRule>, now: string)
    requires Consistent(s, hash, bound) && bound < INT64_LIMIT - 1
    ensures Consistent(SaveWithRules(s, hash, node, peers, rules, now), hash, bound + 1)
  {
    var s' := SaveWithRules(s, hash, node, peers, rules, now);
    var p := NewPlan(hash, s.planVersion + 1, node, peers, rules, now);
    var h := HistoryOf(s, node.id);
    assert Last(HistoryOf(s', node.id)) == p;
    forall id, q | q in HistoryOf(s', id) ensures PlanIntact(hash, id, q, bound + 1) {
      if id == node.id {
        assert q in h + [p];
        assert q == p || PlanIntact(hash, id, q, bound);
      } else {
        assert q in HistoryOf(s, id);
      }
    }
    forall id | id in s'.plans ensures s'.plans[id] in HistoryOf(s', id) {
      if id != node.id {
        assert id in s.plans;
      }
    }
  }

  lemma BumpKeepsConsistent(s: PlanState, hash: Hash, bound: int)
    requires Consistent(s, hash, bound) && bound < INT64_LIMIT - 1
    ensures Consistent(s.(planVersion := NextInt64(s.planVersion)), hash, bound + 1)
  {
    var s' := s.(planVersion := NextInt64(s.planVersion));
    assert forall id :: HistoryOf(s', id) == HistoryOf(s, id);
  }

  lemma RollbackKeepsConsistent(s: PlanState, hash: Hash, bound: int, id: string, version: int64)
    requires Consistent(s, hash, bound)
    ensures Consistent(Rollback(s, hash, id, version).0, hash, bound)
  {
    var m := FirstMatch(HistoryOf(s, id), version);
    if m.Some? {
      assert PlanIntact(hash, id, m.value, bound);
    }
  }

  /**
    Whatever the handlers do, rollbacks included: the published version is at most the counter,
    each latest plan is in its node's history, and every stored plan is intact.
    The bound keeps the 64-bit counter from wrapping around.
   */
  lemma {:induction false} EveryRunConsistent(hash: Hash, es: seq<Event>)
    requires |es| < INT64_LIMIT
    ensures Consistent(Run(hash, es), hash, |es|)
  {
    if es != [] {
      EveryRunConsistent(hash, Init(es));
      var s := Run(hash, Init(es));
      match Last(es) {
        case Save(node, peers, rules, now) => SaveKeepsConsistent(s, hash, |es| - 1, node, peers, rules, now);
        case Bump => BumpKeepsConsistent(s, hash, |es| - 1);
        case RollbackTo(id, version) => RollbackKeepsConsistent(s, hash, |es| - 1, id, version);
      }
    }
  }

  // ---- Rollback ----

  /** All plans ever saved for a node, in order. */
  function SavedPlans(hash: Hash, es: seq<Event>, id: string): seq<Plan> {
    if es == [] then []
    else
      var e := Last(es);
      SavedPlans(hash, Init(es), id)
      + if e.Save? && e.node.id == id then
          [NewPlan(hash, NextInt64(Run(hash, Init(es)).planVersion), e.node, e.peers, e.rules, e.now)]
        else []
  }

  /** The history is the end of the log of saved plans; rollbacks do not touch it. */
  lemma {:induction false} HistoryIsLastSaved(hash: Hash, es: seq<Event>, id: string)
    ensures HistoryOf(Run(hash, es), id) == Suffix(SavedPlans(hash, es, id), 20)
  {
    if es != [] {
      HistoryIsLastSaved(hash, Init(es), id);
      var e := Last(es);
      var all := SavedPlans(hash, Init(es), id);
      if e.Save? && e.node.id == id {
        SuffixAppend(all, HISTORY, Last(SavedPlans(hash, es, id)));
      } else {
        assert SavedPlans(hash, es, id) == all;
      }
    }
  }

  /**
    In every reachable state, rollback succeeds exactly when the version is among the last 20
    plans saved for the node. It makes the oldest match current, and never reports a mismatch.
   */
  lemma RollbackSucceedsIffSaved(hash: Hash, es: seq<Event>, id: string, version: int64)
    requires |es| < INT64_LIMIT
    ensures var s := Run(hash, es);
            var recent := Suffix(SavedPlans(hash, es, id), 20);
            var (s', result) := Rollback(s, hash, id, version);
            if exists p :: p in recent && p.version == version then
              && FirstMatch(recent, version).Some?
              && result == RolledBack(FirstMatch(recent, version).value)
              && s'.plans == s.plans[id := result.plan]
              && s'.planVersion == s'.global == version == result.plan.version
              && s'.history == s.history
            else result == NotFound && s' == s
  {
    EveryRunConsistent(hash, es);
    HistoryIsLastSaved(hash, es, id);
    var m := FirstMatch(HistoryOf(Run(hash, es), id), version);
    if m.Some? {
      assert PlanIntact(hash, id, m.value, |es|);
    }
  }

  /** In every reachable state the signature check of a rollback passes. */
  lemma RollbackNeverMismatches(hash: Hash, es: seq<Event>, id: string, version: int64)
    requires |es| < INT64_LIMIT
    ensures !Rollback(Run(hash, es), hash, id, version).1.SignatureMismatch?
  {
    RollbackSucceedsIffSaved(hash, es, id, version);
  }

  /**
    What the check is for: of a stored plan that was signed for other peers, with texts of the same lengths, a rollback
    ends in the mismatch branch exactly when an ID or AllowedIP differs. The plans are switched all the same.
   */
  lemma AlteredPlanMismatchesIff(
    s: PlanState, hash: Hash, id: string, version: int64, signed: seq<Peer>)
    requires Injective(hash) && forall text :: hash(text) != ""
    requires FirstMatch(HistoryOf(s, id), version).Some?
    requires var p := FirstMatch(HistoryOf(s, id), version).value;
             p.signature == Signature(hash, p.nodeID, signed, p.configVersion) && SameShape(signed, p.peers)
    ensures var p := FirstMatch(HistoryOf(s, id), version).value;
            var (s', result) := Rollback(s, hash, id, version);
            && (result == SignatureMismatch <==> !SignAlike(signed, p.peers))
            && s'.plans == s.plans[id := p] && s'.global == version
            && s'.planVersion == if result == SignatureMismatch then s.planVersion else version
  {
    var p := FirstMatch(HistoryOf(s, id), version).value;
    SignatureIff(hash, p.nodeID, signed, p.configVersion, p.nodeID, p.peers, p.configVersion);
  }

  // ---- Runs without rollback ----

  ghost predicate Increasing(h: seq<Plan>) {
    forall i, j :: 0 <= i < j < |h| ==> h[i].version < h[j].version
  }

  ghost predicate IncreasingTo(h: seq<Plan>, top: int) {
    && Increasing(h)
    && forall p :: p in h ==> p.version <= top
  }

  ghost predicate Ordered(s: PlanState) {
    forall id :: IncreasingTo(HistoryOf(s, id), s.planVersion)
  }

  lemma AppendKeepsIncreasing(h: seq<Plan>, top: int, p: Plan)
    requires IncreasingTo(h, top) && p.version == top + 1
    ensures IncreasingTo(Suffix(h + [p], HISTORY), top + 1)
  {
    assert Increasing(h + [p]);
  }

  lemma SaveKeepsOrdered(s: PlanState, hash: Hash, node: Node, peers: seq<Peer>, rules: seq<PolicyRule>, now: string)
    requires Ordered(s) && s.planVersion < INT64_LIMIT - 1
    ensures Ordered(SaveWithRules(s, hash, node, peers, rules, now))
  {
    var s' := SaveWithRules(s, hash, node, peers, rules, now);
    SaveAppends(s, hash, node, peers, rules, now);
    forall id ensures IncreasingTo(HistoryOf(s', id), s'.planVersion) {
      assert IncreasingTo(HistoryOf(s, id), s.planVersion);
      if id == node.id {
        AppendKeepsIncreasing(HistoryOf(s, id), s.planVersion, s'.plans[id]);
      } else {
        assert HistoryOf(s', id) == HistoryOf(s, id);
      }
    }
  }

  lemma BumpKeepsOrdered(s: PlanState)
    requires Ordered(s) && s.planVersion < INT64_LIMIT - 1
    ensures Ordered(s.(planVersion := NextInt64(s.planVersion)))
  {
    var s' := s.(planVersion := NextInt64(s.planVersion));
    forall id ensures IncreasingTo(HistoryOf(s', id), s'.planVersion) {
      assert IncreasingTo(HistoryOf(s, id), s.planVersion);
    }
  }

  lemma CounterBounded(hash: Hash, es: seq<Event>)
    requires |es| < INT64_LIMIT
    ensures 0 <= Run(hash, es).planVersion <= |es|
  {
    EveryRunConsistent(hash, es);
  }

  /** Without rollbacks each history is strictly increasing, so a version names one plan of a node. */
  lemma {:induction false} RollbackFreeHistoriesIncrease(hash: Hash, es: seq<Event>)
    requires |es| < INT64_LIMIT
    requires forall i :: 0 <= i < |es| ==> !es[i].RollbackTo?
    ensures Ordered(Run(hash, es))
  {
    if es != [] {
      var s, e := Run(hash, Init(es)), Last(es);
      RollbackFreeHistoriesIncrease(hash, Init(es));
      CounterBounded(hash, Init(es));
      match e {
        case Save(node, peers, rules, now) => SaveKeepsOrdered(s, hash, node, peers, rules, now);
        case Bump => BumpKeepsOrdered(s);
      }
    }
  }

  // ---- Runs with rollbacks ----

  ghost predicate AllIncreasing(s: PlanState) {
    forall id :: Increasing(HistoryOf(s, id))
  }

  /** All histories are strictly increasing now and were after every earlier step. */
  ghost predicate AlwaysIncreasing(hash: Hash, es: seq<Event>) {
    AllIncreasing(Run(hash, es)) && (es != [] ==> AlwaysIncreasing(hash, Init(es)))
  }

  /** The counter has not fallen behind the node's last plan. */
  predicate CaughtUp(s: PlanState, id: string) {
    HistoryOf(s, id) == [] || Last(HistoryOf(s, id)).version <= s.planVersion
  }

  predicate SavesCaughtUp(hash: Hash, es: seq<Event>) {
    es == [] || (SavesCaughtUp(hash, Init(es)) && (Last(es).Save? ==> CaughtUp(Run(hash, Init(es)), Last(es).node.id)))
  }

  lemma AppendIncreasingIff(h: seq<Plan>, p: Plan)
    requires Increasing(h)
    ensures Increasing(Suffix(h + [p], HISTORY)) <==> h == [] || Last(h).version < p.version
  {
    var h' := Suffix(h + [p], HISTORY);
    if h != [] {
      assert h'[|h'| - 2] == Last(h) && h'[|h'| - 1] == p;
      if Last(h).version < p.version {
        assert Increasing(h + [p]);
      }
    }
  }

  lemma StepIncreasingIff(s: PlanState, hash: Hash, e: Event)
    requires AllIncreasing(s) && 0 <= s.planVersion < INT64_LIMIT - 1
    ensures AllIncreasing(Step(s, hash, e)) <==> e.Save? ==> CaughtUp(s, e.node.id)
  {
    var s' := Step(s, hash, e);
    if e.Save? {
      SaveAppends(s, hash, e.node, e.peers, e.rules, e.now);
      AppendIncreasingIff(HistoryOf(s, e.node.id), s'.plans[e.node.id]);
    } else {
      assert forall id :: HistoryOf(s', id) == HistoryOf(s, id);
    }
  }

  /**
    Rollbacks included: the histories are strictly increasing throughout a run if and only if
    at every save the counter has caught up with the last plan of that node.
   */
  lemma {:induction false} HistoriesIncreaseIffCaughtUp(hash: Hash, es: seq<Event>)
    requires |es| < INT64_LIMIT
    ensures AlwaysIncreasing(hash, es) <==> SavesCaughtUp(hash, es)
  {
    if es != [] {
      HistoriesIncreaseIffCaughtUp(hash, Init(es));
      CounterBounded(hash, Init(es));
      if AlwaysIncreasing(hash, Init(es)) {
        StepIncreasingIff(Run(hash, Init(es)), hash, Last(es));
      }
    }
  }

  lemma {:induction false} FirstMatchAppend(h: seq<Plan>, p: Plan, version: int)
    ensures FirstMatch(h + [p], version) ==
              if FirstMatch(h, version).Some? then FirstMatch(h, version)
              else if p.version == version then Some(p) else None
  {
    if h == [] {
      assert FirstMatch([p][1..], version) == None;
    } else {
      assert (h + [p])[0] == h[0] && (h + [p])[1..] == h[1..] + [p];
      FirstMatchAppend(h[1..], p, version);
    }
  }

  lemma RunMore(hash: Hash, es: seq<Event>, e: Event)
    ensures Run(hash, es + [e]) == Step(Run(hash, es), hash, e)
  {
    assert Init(es + [e]) == es;
  }

  lemma RunTwoMore(hash: Hash, es: seq<Event>, a: Event, b: Event)
    ensures Run(hash, es + [a, b]) == Step(Step(Run(hash, es), hash, a), hash, b)
  {
    assert es + [a, b] == es + [a] + [b];
    RunMore(hash, es + [a], b);
    RunMore(hash, es, a);
  }

  /** What remains of a history when one more plan is saved. */
  function Kept(h: seq<Plan>): seq<Plan> {
    if |h| < HISTORY then h else h[1..]
  }

  lemma FirstMatchSaved(h: seq<Plan>, p: Plan)
    requires |h| <= HISTORY
    ensures FirstMatch(Suffix(h + [p], HISTORY), p.version) ==
              if FirstMatch(Kept(h), p.version).Some? then FirstMatch(Kept(h), p.version) else Some(p)
  {
    assert Suffix(h + [p], HISTORY) == Kept(h) + [p];
    FirstMatchAppend(Kept(h), p, p.version);
  }

  lemma RollbackReturnsMatch(hash: Hash, es: seq<Event>, id: string, version: int64)
    requires |es| < INT64_LIMIT
    requires FirstMatch(HistoryOf(Run(hash, es), id), version).Some?
    ensures 1 <= version <= |es|
    ensures var (s', result) := Rollback(Run(hash, es), hash, id, version);
            && result == RolledBack(FirstMatch(HistoryOf(Run(hash, es), id), version).value)
            && s'.planVersion == version && s'.history == Run(hash, es).history
    ensures |HistoryOf(Run(hash, es), id)| <= HISTORY
  {
    EveryRunConsistent(hash, es);
    assert PlanIntact(hash, id, FirstMatch(HistoryOf(Run(hash, es), id), version).value, |es|);
  }

  lemma TwoSaves(hash: Hash, a: Event, b: Event)
    requires a.Save? && b.Save? && a.node.id == b.node.id
    ensures var h := HistoryOf(Run(hash, [a, b]), b.node.id);
            && FirstMatch(h, 1).Some? && Kept(h) == h
            && FirstMatch(h, 2) == Some(NewPlan(hash, 2, b.node, b.peers, b.rules, b.now))
  {
    assert [] + [a, b] == [a, b];
    RunTwoMore(hash, [], a, b);
    var p := NewPlan(hash, 1, a.node, a.peers, a.rules, a.now);
    var q := NewPlan(hash, 2, b.node, b.peers, b.rules, b.now);
    SaveAppends(EMPTY, hash, a.node, a.peers, a.rules, a.now);
    SaveAppends(Step(EMPTY, hash, a), hash, b.node, b.peers, b.rules, b.now);
    assert HistoryOf(Run(hash, [a, b]), b.node.id) == [p] + [q];
    FirstMatchAppend([], p, 1);
    FirstMatchAppend([p], q, 1);
    FirstMatchAppend([p], q, 2);
  }

  lemma RollbackThenSave(
    hash: Hash, es: seq<Event>, version: int64, node: Node, peers: seq<Peer>, rules: seq<PolicyRule>, now: string)
    requires |es| < INT64_LIMIT - 1
    requires FirstMatch(HistoryOf(Run(hash, es), node.id), version).Some?
    ensures 1 <= version <= |es|
    ensures var p := NewPlan(hash, version + 1, node, peers, rules, now);
            var s' := Run(hash, es + [RollbackTo(node.id, version), Save(node, peers, rules, now)]);
            && HistoryOf(s', node.id) == Suffix(HistoryOf(Run(hash, es), node.id) + [p], HISTORY)
            && node.id in s'.plans && s'.plans[node.id] == p
  {
    RollbackReturnsMatch(hash, es, node.id, version);
    RunTwoMore(hash, es, RollbackTo(node.id, version), Save(node, peers, rules, now));
    SaveAppends(Rollback(Run(hash, es), hash, node.id, version).0, hash, node, peers, rules, now);
  }

  /**
    After a rollback the next plan of the node takes the next version again. What asking for that version brings
    back is the older plan of that version, if it is still in the history, and the new plan only if it is not.
   */
  lemma RollbackReusesVersions(
    hash: Hash, es: seq<Event>, version: int64, node: Node, peers: seq<Peer>, rules: seq<PolicyRule>, now: string)
    requires |es| < INT64_LIMIT - 2
    requires FirstMatch(HistoryOf(Run(hash, es), node.id), version).Some?
    ensures 1 <= version <= |es|
    ensures var older := FirstMatch(Kept(HistoryOf(Run(hash, es), node.id)), version + 1);
            var es' := es + [RollbackTo(node.id, version), Save(node, peers, rules, now)];
            var p := NewPlan(hash, version + 1, node, peers, rules, now);
            && node.id in Run(hash, es').plans && Run(hash, es').plans[node.id] == p
            && Rollback(Run(hash, es'), hash, node.id, version + 1).1 ==
                 RolledBack(if older.Some? then older.value else p)
  {
    RollbackReturnsMatch(hash, es, node.id, version);
    RollbackThenSave(hash, es, version, node, peers, rules, now);
    var p := NewPlan(hash, version + 1, node, peers, rules, now);
    FirstMatchSaved(HistoryOf(Run(hash, es), node.id), p);
    var es' := es + [RollbackTo(node.id, version), Save(node, peers, rules, now)];
    RollbackReturnsMatch(hash, es', node.id, version + 1);
  }

  /** Two plans, a rollback to the first, a third plan: version 2 now names two plans, and brings back the older. */
  lemma RollbackRepeatsVersion(hash: Hash, a: Event, b: Event, c: Event)
    requires a.Save? && b.Save? && c.Save? && a.node.id == b.node.id == c.node.id
    ensures var s' := Run(hash, [a, b] + [RollbackTo(c.node.id, 1), c]);
            && c.node.id in s'.plans && s'.plans[c.node.id] == NewPlan(hash, 2, c.node, c.peers, c.rules, c.now)
            && Rollback(s', hash, c.node.id, 2).1 == RolledBack(NewPlan(hash, 2, b.node, b.peers, b.rules, b.now))
  {
    TwoSaves(hash, a, b);
    RollbackReusesVersions(hash, [a, b], 1, c.node, c.peers, c.rules, c.now);
  }
}
