/**
  savePlanWithRules and the rollback handler without the atomicity: handlers running at the same time interleave
  the allocation of a version, SavePlan and SetGlobalPlanVersion, and the three writes of a rollback.
 */
module Interleaving {
  import opened Seqs
  import opened Text
  import opened Model
  import opened Plans

  /** A handler between its steps; idle handlers are not listed. */
  datatype Phase = Allocated(plan: Plan) | Stored(plan: Plan)

  type Threads = map<nat, Phase>

  /** A rollback that has switched plans, or has also reset the counter. */
  datatype Undo = Switched(version: int64) | Reset(version: int64)

  /** `issued` records every version ever allocated to a plan. */
  datatype World = World(sys: PlanState, threads: Threads, undos: map<nat, Undo>, issued: seq<int>)

  const START := World(EMPTY, map[], map[], [])

  datatype Micro =
    | Allocate(t: nat, node: Node, peers: seq<Peer>, rules: seq<PolicyRule>, now: string)
    | Store(t: nat)
    | Publish(t: nat)
    | BumpOnly
    | Switch(u: nat, id: string, version: int64)
    | ResetCounter(u: nat)
    | PublishAgain(u: nat)

  /** The store's part of a rollback and the check of the signature. */
  function SwitchPlan(w: World, hash: Hash, u: nat, id: string, version: int64): World {
    match FirstMatch(HistoryOf(w.sys, id), version)
    case None => w
    case Some(p) =>
      var w' := w.(sys := w.sys.(plans := w.sys.plans[id := p], global := version));
      if p.signature != "" && p.signature != Signature(hash, p.nodeID, p.peers, p.configVersion) then w'
      else w'.(undos := w.undos[u := Switched(version)])
  }

  /** One step; a handler that is not ready for it does nothing. */
  function MicroStep(w: World, hash: Hash, e: Micro): World {
    match e
    case Allocate(t, node, peers, rules, now) =>
      if t in w.threads then w
      else
        var v := NextInt64(w.sys.planVersion);
        w.(sys := w.sys.(planVersion := v),
           threads := w.threads[t := Allocated(NewPlan(hash, v, node, peers, rules, now))],
           issued := w.issued + [v])
    case Store(t) =>
      if t in w.threads && w.threads[t].Allocated? then
        w.(sys := SavePlan(w.sys, w.threads[t].plan), threads := w.threads[t := Stored(w.threads[t].plan)])
      else w
    case Publish(t) =>
      if t in w.threads && w.threads[t].Stored? && IsInt64(w.threads[t].plan.version) then
        w.(sys := w.sys.(global := w.threads[t].plan.version), threads := w.threads - {t})
      else w
    case BumpOnly => w.(sys := w.sys.(planVersion := NextInt64(w.sys.planVersion)))
    case Switch(u, id, version) => if u in w.undos then w else SwitchPlan(w, hash, u, id, version)
    case ResetCounter(u) =>
      if u in w.undos && w.undos[u].Switched? then
        w.(sys := w.sys.(planVersion := w.undos[u].version), undos := w.undos[u := Reset(w.undos[u].version)])
      else w
    case PublishAgain(u) =>
      if u in w.undos && w.undos[u].Reset? then
        w.(sys := w.sys.(global := w.undos[u].version), undos := w.undos - {u})
      else w
  }

  function RunMicro(hash: Hash, es: seq<Micro>): World {
    if es == [] then START else MicroStep(RunMicro(hash, Init(es)), hash, Last(es))
  }

  /** Left to itself, a handler's three steps are the atomic save. */
  lemma UninterruptedIsAtomic(
    w: World, hash: Hash, t: nat, node: Node, peers: seq<Peer>, rules: seq<PolicyRule>, now: string)
    requires t !in w.threads
    ensures var w1 := MicroStep(w, hash, Allocate(t, node, peers, rules, now));
            var w3 := MicroStep(MicroStep(w1, hash, Store(t)), hash, Publish(t));
            w3.sys == SaveWithRules(w.sys, hash, node, peers, rules, now) && w3.threads == w.threads
  {
    var w1 := MicroStep(w, hash, Allocate(t, node, peers, rules, now));
    var w3 := MicroStep(MicroStep(w1, hash, Store(t)), hash, Publish(t));
    assert w3.threads == w.threads;
  }

  /** And so are a rollback's three steps the atomic rollback. */
  lemma UninterruptedRollbackIsAtomic(w: World, hash: Hash, u: nat, id: string, version: int64)
    requires u !in w.undos
    ensures var w1 := MicroStep(w, hash, Switch(u, id, version));
            var w3 := MicroStep(MicroStep(w1, hash, ResetCounter(u)), hash, PublishAgain(u));
            w3.sys == Rollback(w.sys, hash, id, version).0 && w3.undos == w.undos
  {
    var w1 := MicroStep(w, hash, Switch(u, id, version));
    var w3 := MicroStep(MicroStep(w1, hash, ResetCounter(u)), hash, PublishAgain(u));
    assert w3.undos == w.undos;
  }

  // ---- Every interleaving, rollbacks included ----

  ghost predicate ThreadsIntact(w: World, hash: Hash, bound: int) {
    && (forall t :: t in w.threads ==> PlanIntact(hash, w.threads[t].plan.nodeID, w.threads[t].plan, bound))
    && (forall u :: u in w.undos ==> 1 <= w.undos[u].version <= bound)
  }

  ghost predicate StoreIntact(s: PlanState, hash: Hash, bound: int) {
    && 0 <= s.planVersion <= bound && 0 <= s.global <= bound
    && (forall id :: id in s.plans ==> s.plans[id] in HistoryOf(s, id))
    && (forall id, p :: p in HistoryOf(s, id) ==> PlanIntact(hash, id, p, bound))
  }

  ghost predicate Intact(w: World, hash: Hash, bound: int) {
    ThreadsIntact(w, hash, bound) && StoreIntact(w.sys, hash, bound)
  }

  lemma SameStoreIntact(s: PlanState, s': PlanState, hash: Hash, bound: int)
    requires StoreIntact(s, hash, bound) && s'.history == s.history && s'.plans == s.plans
    requires 0 <= s'.planVersion <= bound + 1 && 0 <= s'.global <= bound + 1
    ensures StoreIntact(s', hash, bound + 1)
  {
    forall id, p | p in HistoryOf(s', id) ensures PlanIntact(hash, id, p, bound + 1) {
      assert p in HistoryOf(s, id);
    }
    forall id | id in s'.plans ensures s'.plans[id] in HistoryOf(s', id) {
      assert s.plans[id] in HistoryOf(s, id);
    }
  }

  /** What the history of one node looks like after a plan was stored. */
  lemma StoredHistory(s: PlanState, p: Plan, id: string)
    ensures forall q :: q in HistoryOf(SavePlan(s, p), id) ==> q in HistoryOf(s, id) || (q == p && id == p.nodeID)
    ensures var h := HistoryOf(s, id) + if id == p.nodeID then [p] else [];
            var h' := HistoryOf(SavePlan(s, p), id);
            h' == h || (|h| > HISTORY && h' == h[|h| - HISTORY..])
  {
    var h := HistoryOf(s, id);
    if id == p.nodeID {
      assert HistoryOf(SavePlan(s, p), id) == Suffix(h + [p], HISTORY);
    } else {
      assert h + [] == h;
    }
  }

  lemma SavedStoreIntact(s: PlanState, hash: Hash, bound: int, p: Plan)
    requires StoreIntact(s, hash, bound) && PlanIntact(hash, p.nodeID, p, bound)
    ensures StoreIntact(SavePlan(s, p), hash, bound)
  {
    var s' := SavePlan(s, p);
    assert Last(HistoryOf(s', p.nodeID)) == p;
    forall id, q | q in HistoryOf(s', id) ensures PlanIntact(hash, id, q, bound) {
      StoredHistory(s, p, id);
    }
    forall id | id in s'.plans ensures s'.plans[id] in HistoryOf(s', id) {
      if id != p.nodeID {
        assert s.plans[id] in HistoryOf(s, id);
      }
    }
  }

  lemma SwitchedStoreIntact(s: PlanState, hash: Hash, bound: int, id: string, version: int64)
    requires StoreIntact(s, hash, bound) && FirstMatch(HistoryOf(s, id), version).Some?
    ensures var p := FirstMatch(HistoryOf(s, id), version).value;
            && 1 <= version <= bound && p.signature == Signature(hash, p.nodeID, p.peers, p.configVersion)
            && StoreIntact(s.(plans := s.plans[id := p], global := version), hash, bound)
  {
    var p := FirstMatch(HistoryOf(s, id), version).value;
    var s' := s.(plans := s.plans[id := p], global := version);
    assert PlanIntact(hash, id, p, bound);
    forall id', q | q in HistoryOf(s', id') ensures PlanIntact(hash, id', q, bound) {
      assert q in HistoryOf(s, id');
    }
    forall id' | id' in s'.plans ensures s'.plans[id'] in HistoryOf(s', id') {
      if id' != id {
        assert s.plans[id'] in HistoryOf(s, id');
      }
    }
  }

  lemma UndosStayIntact(w: World, hash: Hash, bound: int, e: Micro)
    requires Intact(w, hash, bound)
    ensures var w' := MicroStep(w, hash, e); forall u :: u in w'.undos ==> 1 <= w'.undos[u].version <= bound
  {
    if e.Switch? && FirstMatch(HistoryOf(w.sys, e.id), e.version).Some? {
      SwitchedStoreIntact(w.sys, hash, bound, e.id, e.version);
    }
  }

  lemma ThreadStaysIntact(w: World, hash: Hash, bound: int, e: Micro, t: nat)
    requires 0 <= w.sys.planVersion <= bound < INT64_LIMIT - 1 && t in MicroStep(w, hash, e).threads
    requires t in w.threads ==> PlanIntact(hash, w.threads[t].plan.nodeID, w.threads[t].plan, bound)
    ensures var p := MicroStep(w, hash, e).threads[t].plan; PlanIntact(hash, p.nodeID, p, bound + 1)
  {
    if t in w.threads {
      assert MicroStep(w, hash, e).threads[t].plan == w.threads[t].plan;
    }
  }

  lemma ThreadsStayIntact(w: World, hash: Hash, bound: int, e: Micro)
    requires Intact(w, hash, bound) && bound < INT64_LIMIT - 1
    ensures ThreadsIntact(MicroStep(w, hash, e), hash, bound + 1)
  {
    var w' := MicroStep(w, hash, e);
    forall t | t in w'.threads
      ensures PlanIntact(hash, w'.threads[t].plan.nodeID, w'.threads[t].plan, bound + 1)
    {
      ThreadStaysIntact(w, hash, bound, e, t);
    }
    UndosStayIntact(w, hash, bound, e);
  }

  lemma StoreStaysIntact(w: World, hash: Hash, bound: int, e: Micro)
    requires Intact(w, hash, bound) && bound < INT64_LIMIT - 1
    ensures StoreIntact(MicroStep(w, hash, e).sys, hash, bound + 1)
  {
    var s' := MicroStep(w, hash, e).sys;
    if e.Store? && e.t in w.threads && w.threads[e.t].Allocated? {
      SavedStoreIntact(w.sys, hash, bound, w.threads[e.t].plan);
      SameStoreIntact(s', s', hash, bound);
    } else if e.Switch? && e.u !in w.undos && FirstMatch(HistoryOf(w.sys, e.id), e.version).Some? {
      SwitchedStoreIntact(w.sys, hash, bound, e.id, e.version);
      SameStoreIntact(s', s', hash, bound);
    } else {
      SameStoreIntact(w.sys, s', hash, bound);
    }
  }

  /**
    In every interleaving of saves, bumps and rollbacks: each stored plan and each plan in flight has its own node,
    version text and signature, each latest plan is in its node's history, and the counters stay within the steps taken.
   */
  lemma {:induction false} EveryInterleavingIntact(hash: Hash, es: seq<Micro>)
    requires |es| < INT64_LIMIT
    ensures Intact(RunMicro(hash, es), hash, |es|)
  {
    if es != [] {
      EveryInterleavingIntact(hash, Init(es));
      ThreadsStayIntact(RunMicro(hash, Init(es)), hash, |es| - 1, Last(es));
      StoreStaysIntact(RunMicro(hash, Init(es)), hash, |es| - 1, Last(es));
    }
  }

  lemma SwitchGoesOn(w: World, hash: Hash, bound: int, u: nat, id: string, version: int64)
    requires StoreIntact(w.sys, hash, bound) && u !in w.undos
    ensures u in MicroStep(w, hash, Switch(u, id, version)).undos <==> FirstMatch(HistoryOf(w.sys, id), version).Some?
  {
    if FirstMatch(HistoryOf(w.sys, id), version).Some? {
      SwitchedStoreIntact(w.sys, hash, bound, id, version);
    }
  }

  /** So in every interleaving a rollback that finds its version passes the signature check and goes on. */
  lemma RollbackGoesOn(hash: Hash, es: seq<Micro>, u: nat, id: string, version: int64)
    requires |es| < INT64_LIMIT && u !in RunMicro(hash, es).undos
    ensures var w' := MicroStep(RunMicro(hash, es), hash, Switch(u, id, version));
            u in w'.undos <==> FirstMatch(HistoryOf(RunMicro(hash, es).sys, id), version).Some?
  {
    EveryInterleavingIntact(hash, es);
    SwitchGoesOn(RunMicro(hash, es), hash, |es|, u, id, version);
  }

  // ---- Versions stay apart without rollbacks ----

  /** The step is no part of a rollback. */
  predicate Forward(e: Micro) {
    e.Allocate? || e.Store? || e.Publish? || e.BumpOnly?
  }

  ghost predicate InRange(v: int, top: int) {
    1 <= v <= top
  }

  ghost predicate CountersOk(w: World, bound: int) {
    && 0 <= w.sys.global <= w.sys.planVersion <= bound
    && (forall i :: 0 <= i < |w.issued| ==> InRange(w.issued[i], w.sys.planVersion))
    && (forall i, j :: 0 <= i < j < |w.issued| ==> w.issued[i] < w.issued[j])
  }

  ghost predicate ThreadsOk(w: World) {
    && (forall t :: t in w.threads ==> InRange(w.threads[t].plan.version, w.sys.planVersion))
    && (forall t, u :: t in w.threads && u in w.threads && t != u ==>
          w.threads[t].plan.version != w.threads[u].plan.version)
  }

  /** A version that is allocated but not yet saved is in no history. */
  ghost predicate InFlightUnsaved(w: World) {
    forall t, id, p :: t in w.threads && w.threads[t].Allocated? && p in HistoryOf(w.sys, id) ==>
      p.version != w.threads[t].plan.version
  }

  ghost predicate HistoryVersionsInRange(w: World) {
    forall id, p :: p in HistoryOf(w.sys, id) ==> InRange(p.version, w.sys.planVersion)
  }

  /** No version is stored twice, for one node or for two. */
  ghost predicate HistoriesDistinct(w: World) {
    && (forall id, i, j :: 0 <= i < j < |HistoryOf(w.sys, id)| ==>
          HistoryOf(w.sys, id)[i].version != HistoryOf(w.sys, id)[j].version)
    && (forall id, id', p, q :: p in HistoryOf(w.sys, id) && q in HistoryOf(w.sys, id') && id != id' ==>
          p.version != q.version)
  }

  ghost predicate WorldOk(w: World, bound: int) {
    && CountersOk(w, bound)
    && ThreadsOk(w)
    && InFlightUnsaved(w)
    && HistoryVersionsInRange(w)
    && HistoriesDistinct(w)
  }

  lemma SameHistories(w: World, w': World)
    requires w'.sys.history == w.sys.history && w.sys.planVersion <= w'.sys.planVersion
    ensures forall id :: HistoryOf(w'.sys, id) == HistoryOf(w.sys, id)
    ensures HistoryVersionsInRange(w) ==> HistoryVersionsInRange(w')
    ensures HistoriesDistinct(w) ==> HistoriesDistinct(w')
  {
    forall id ensures HistoryOf(w'.sys, id) == HistoryOf(w.sys, id) {
    }
    if HistoriesDistinct(w) {
      forall id, id', p, q | p in HistoryOf(w'.sys, id) && q in HistoryOf(w'.sys, id') && id != id'
        ensures p.version != q.version
      {
        assert p in HistoryOf(w.sys, id) && q in HistoryOf(w.sys, id');
      }
    }
  }

  lemma AllocateCounters(w: World, hash: Hash, bound: int, e: Micro)
    requires CountersOk(w, bound) && bound < INT64_LIMIT - 1
    requires e.Allocate? || e.BumpOnly?
    ensures CountersOk(MicroStep(w, hash, e), bound + 1)
    ensures MicroStep(w, hash, e).sys.history == w.sys.history
    ensures MicroStep(w, hash, e).sys.planVersion >= w.sys.planVersion
  {
  }

  lemma AllocateThreads(w: World, hash: Hash, bound: int, e: Micro)
    requires CountersOk(w, bound) && bound < INT64_LIMIT - 1
    requires ThreadsOk(w) && InFlightUnsaved(w) && HistoryVersionsInRange(w)
    requires e.Allocate? || e.BumpOnly?
    ensures ThreadsOk(MicroStep(w, hash, e)) && InFlightUnsaved(MicroStep(w, hash, e))
  {
    var w' := MicroStep(w, hash, e);
    assert ThreadsOk(w');
    forall t, id, p | t in w'.threads && w'.threads[t].Allocated? && p in HistoryOf(w'.sys, id)
      ensures p.version != w'.threads[t].plan.version
    {
      assert p in HistoryOf(w.sys, id);
      assert InRange(p.version, w.sys.planVersion);
    }
  }

  lemma AllocateKeepsOk(w: World, hash: Hash, bound: int, e: Micro)
    requires WorldOk(w, bound) && bound < INT64_LIMIT - 1
    requires e.Allocate? || e.BumpOnly?
    ensures WorldOk(MicroStep(w, hash, e), bound + 1)
  {
    AllocateCounters(w, hash, bound, e);
    AllocateThreads(w, hash, bound, e);
    SameHistories(w, MicroStep(w, hash, e));
  }

  lemma StoreKeepsDistinct(w: World, w': World, p: Plan)
    requires HistoriesDistinct(w) && w'.sys == SavePlan(w.sys, p)
    requires forall id, q :: q in HistoryOf(w.sys, id) ==> q.version != p.version
    ensures HistoriesDistinct(w')
  {
    forall id, i, j | 0 <= i < j < |HistoryOf(w'.sys, id)|
      ensures HistoryOf(w'.sys, id)[i].version != HistoryOf(w'.sys, id)[j].version
    {
      StoredHistory(w.sys, p, id);
      var h := HistoryOf(w.sys, id);
      assert forall k :: 0 <= k < |h| ==> h[k] in HistoryOf(w.sys, id);
    }
    forall id, id', q, r | q in HistoryOf(w'.sys, id) && r in HistoryOf(w'.sys, id') && id != id'
      ensures q.version != r.version
    {
      StoredHistory(w.sys, p, id);
      StoredHistory(w.sys, p, id');
    }
  }

  lemma StoreKeepsInFlight(w: World, hash: Hash, t: nat)
    requires ThreadsOk(w) && InFlightUnsaved(w) && HistoryVersionsInRange(w)
    requires t in w.threads && w.threads[t].Allocated?
    ensures InFlightUnsaved(MicroStep(w, hash, Store(t))) && HistoryVersionsInRange(MicroStep(w, hash, Store(t)))
  {
    var w', plan := MicroStep(w, hash, Store(t)), w.threads[t].plan;
    forall id, p | p in HistoryOf(w'.sys, id) ensures InRange(p.version, w'.sys.planVersion) {
      StoredHistory(w.sys, plan, id);
      assert p in HistoryOf(w.sys, id) || p == plan;
    }
    forall u, id, p | u in w'.threads && w'.threads[u].Allocated? && p in HistoryOf(w'.sys, id)
      ensures p.version != w'.threads[u].plan.version
    {
      StoredHistory(w.sys, plan, id);
      assert p in HistoryOf(w.sys, id) || p == plan;
      assert u in w.threads && w'.threads[u] == w.threads[u];
    }
  }

  lemma StoreKeepsOk(w: World, hash: Hash, bound: int, t: nat)
    requires WorldOk(w, bound)
    requires t in w.threads && w.threads[t].Allocated?
    ensures WorldOk(MicroStep(w, hash, Store(t)), bound)
  {
    StoreKeepsDistinct(w, MicroStep(w, hash, Store(t)), w.threads[t].plan);
    StoreKeepsInFlight(w, hash, t);
  }

  lemma PublishKeepsOk(w: World, hash: Hash, bound: int, t: nat)
    requires WorldOk(w, bound)
    ensures WorldOk(MicroStep(w, hash, Publish(t)), bound)
  {
    SameHistories(w, MicroStep(w, hash, Publish(t)));
  }

  lemma WorldOkLater(w: World, bound: int)
    requires WorldOk(w, bound)
    ensures WorldOk(w, bound + 1)
  {
  }

  /**
    In every rollback-free interleaving all allocated versions are distinct, no version in flight
    is in a history before its own save, no version is stored twice, and all stay within the counter.
   */
  lemma {:induction false} EveryInterleavingOk(hash: Hash, es: seq<Micro>)
    requires |es| < INT64_LIMIT && forall e :: e in es ==> Forward(e)
    ensures WorldOk(RunMicro(hash, es), |es|)
  {
    if es != [] {
      assert es == Init(es) + [Last(es)];
      assert Forward(Last(es));
      EveryInterleavingOk(hash, Init(es));
      var w, bound, e := RunMicro(hash, Init(es)), |es| - 1, Last(es);
      if e.Store? {
        if e.t in w.threads && w.threads[e.t].Allocated? {
          StoreKeepsOk(w, hash, bound, e.t);
        }
        WorldOkLater(RunMicro(hash, es), bound);
      } else if e.Publish? {
        PublishKeepsOk(w, hash, bound, e.t);
        WorldOkLater(RunMicro(hash, es), bound);
      } else {
        AllocateKeepsOk(w, hash, bound, e);
      }
    }
  }

  // ---- Order of saves ----

  /** Nothing stored for its node is newer than the plan that handler `t` is about to store. */
  predicate StoresNewest(w: World, t: nat) {
    t in w.threads && w.threads[t].Allocated? ==>
      var h := HistoryOf(w.sys, w.threads[t].plan.nodeID);
      h == [] || Last(h).version < w.threads[t].plan.version
  }

  predicate StoresInOrder(hash: Hash, es: seq<Micro>) {
    es == [] ||
    (StoresInOrder(hash, Init(es)) && (Last(es).Store? ==> StoresNewest(RunMicro(hash, Init(es)), Last(es).t)))
  }

  /** All histories are strictly increasing now and were after every earlier step. */
  ghost predicate NeverInverted(hash: Hash, es: seq<Micro>) {
    AllIncreasing(RunMicro(hash, es).sys) && (es != [] ==> NeverInverted(hash, Init(es)))
  }

  lemma MicroStepIncreasingIff(w: World, hash: Hash, e: Micro)
    requires AllIncreasing(w.sys)
    ensures AllIncreasing(MicroStep(w, hash, e).sys) <==> e.Store? ==> StoresNewest(w, e.t)
  {
    var s' := MicroStep(w, hash, e).sys;
    if e.Store? && e.t in w.threads && w.threads[e.t].Allocated? {
      var p := w.threads[e.t].plan;
      AppendIncreasingIff(HistoryOf(w.sys, p.nodeID), p);
      assert HistoryOf(s', p.nodeID) == Suffix(HistoryOf(w.sys, p.nodeID) + [p], HISTORY);
      assert forall id :: id != p.nodeID ==> HistoryOf(s', id) == HistoryOf(w.sys, id);
    } else {
      assert forall id :: HistoryOf(s', id) == HistoryOf(w.sys, id);
    }
  }

  /**
    In every interleaving: the histories stay strictly increasing if and only if no handler
    stores a plan after a newer one of the same node.
   */
  lemma {:induction false} NeverInvertedIffStoredInOrder(hash: Hash, es: seq<Micro>)
    ensures NeverInverted(hash, es) <==> StoresInOrder(hash, es)
  {
    if es != [] {
      NeverInvertedIffStoredInOrder(hash, Init(es));
      if NeverInverted(hash, Init(es)) {
        MicroStepIncreasingIff(RunMicro(hash, Init(es)), hash, Last(es));
      }
    }
  }

  lemma LateStoreInverts(s: PlanState, older: Plan, newer: Plan, id: string)
    requires id == older.nodeID == newer.nodeID && older.version < newer.version
    ensures !Increasing(HistoryOf(SavePlan(SavePlan(s, newer), older), id))
  {
    var h := HistoryOf(SavePlan(s, newer), id);
    assert Last(h) == newer;
    if Increasing(h) {
      AppendIncreasingIff(h, older);
    } else {
      var i, j :| 0 <= i < j < |h| && h[i].version >= h[j].version;
      var h' := HistoryOf(SavePlan(SavePlan(s, newer), older), id);
      assert h' == Suffix(h + [older], HISTORY);
      assert h'[|h'| - 2] == newer && h'[|h'| - 1] == older;
    }
  }

  lemma TwoMicro(hash: Hash, es: seq<Micro>, a: Micro, b: Micro)
    ensures RunMicro(hash, es + [a, b]) == MicroStep(MicroStep(RunMicro(hash, es), hash, a), hash, b)
  {
    assert es + [a, b] == es + [a] + [b];
    assert Init(es + [a] + [b]) == es + [a];
    assert Init(es + [a]) == es;
  }

  lemma MicroCounterBounded(hash: Hash, es: seq<Micro>)
    requires |es| < INT64_LIMIT
    ensures 0 <= RunMicro(hash, es).sys.planVersion <= |es|
  {
    EveryInterleavingIntact(hash, es);
  }

  lemma ForgetTwo(m: Threads, t: nat, u: nat, p: Phase, q: Phase)
    requires t !in m && u !in m && t != u
    ensures m[t := p][u := q] - {u} - {t} == m
  {
  }

  lemma RaceAllocates(hash: Hash, es: seq<Micro>, a: Micro, b: Micro) returns (older: Plan, newer: Plan)
    requires a.Allocate? && b.Allocate? && a.t != b.t
    requires a.t !in RunMicro(hash, es).threads && b.t !in RunMicro(hash, es).threads
    requires 0 <= RunMicro(hash, es).sys.planVersion < INT64_LIMIT - 2
    ensures var w, w2 := RunMicro(hash, es), RunMicro(hash, es + [a, b]);
            var v := w.sys.planVersion;
            && w2.sys.planVersion == v + 2
            && w2.threads == w.threads[a.t := Allocated(older)][b.t := Allocated(newer)]
            && older == NewPlan(hash, v + 1, a.node, a.peers, a.rules, a.now)
            && older.version == v + 1 && newer.version == v + 2
            && older.nodeID == a.node.id && newer.nodeID == b.node.id
  {
    var v := RunMicro(hash, es).sys.planVersion;
    older := NewPlan(hash, v + 1, a.node, a.peers, a.rules, a.now);
    newer := NewPlan(hash, v + 2, b.node, b.peers, b.rules, b.now);
    TwoMicro(hash, es, a, b);
  }

  lemma RaceStores(hash: Hash, es: seq<Micro>, t: nat, plan: Plan)
    requires t in RunMicro(hash, es).threads && RunMicro(hash, es).threads[t] == Allocated(plan)
    requires IsInt64(plan.version)
    ensures var w := RunMicro(hash, es);
            RunMicro(hash, es + [Store(t), Publish(t)]) ==
              w.(sys := SavePlan(w.sys, plan).(global := plan.version), threads := w.threads - {t})
  {
    TwoMicro(hash, es, Store(t), Publish(t));
    var threads := RunMicro(hash, es).threads;
    assert threads[t := Stored(plan)] - {t} == threads - {t};
  }

  lemma RaceEnds(hash: Hash, es: seq<Micro>, t: nat, u: nat, older: Plan, newer: Plan)
    requires older.nodeID == newer.nodeID && older.version < newer.version
    requires IsInt64(older.version) && IsInt64(newer.version)
    requires t in RunMicro(hash, es).threads && RunMicro(hash, es).threads[t] == Allocated(older)
    requires u in RunMicro(hash, es).threads && RunMicro(hash, es).threads[u] == Allocated(newer)
    ensures var w := RunMicro(hash, es);
            var w' := RunMicro(hash, es + [Store(u), Publish(u)] + [Store(t), Publish(t)]);
            && w'.threads == w.threads - {u} - {t}
            && older.nodeID in w'.sys.plans && w'.sys.plans[older.nodeID] == older
            && w'.sys.global == older.version && w'.sys.planVersion == w.sys.planVersion
            && !Increasing(HistoryOf(w'.sys, older.nodeID))
  {
    var w := RunMicro(hash, es);
    RaceStores(hash, es, u, newer);
    RaceStores(hash, es + [Store(u), Publish(u)], t, older);
    LateStoreInverts(w.sys, older, newer, older.nodeID);
    var w' := RunMicro(hash, es + [Store(u), Publish(u)] + [Store(t), Publish(t)]);
    assert w'.sys.history == SavePlan(SavePlan(w.sys, newer), older).history;
  }

  /**
    Two handlers for one node that save in the other order, after any run and beside any other handlers:
    the older plan ends up current and published, behind the newer one in the history.
   */
  lemma RacingWritersInvert(hash: Hash, es: seq<Micro>, a: Micro, b: Micro)
    requires |es| < INT64_LIMIT - 2
    requires a.Allocate? && b.Allocate? && a.t != b.t && a.node.id == b.node.id
    requires a.t !in RunMicro(hash, es).threads && b.t !in RunMicro(hash, es).threads
    ensures var w := RunMicro(hash, es);
            var w' := RunMicro(hash, es + [a, b] + [Store(b.t), Publish(b.t)] + [Store(a.t), Publish(a.t)]);
            var older := NewPlan(hash, w.sys.planVersion + 1, a.node, a.peers, a.rules, a.now);
            && w'.threads == w.threads
            && a.node.id in w'.sys.plans && w'.sys.plans[a.node.id] == older
            && w'.sys.global == older.version < w'.sys.planVersion == w.sys.planVersion + 2
            && !Increasing(HistoryOf(w'.sys, a.node.id))
  {
    MicroCounterBounded(hash, es);
    var older, newer := RaceAllocates(hash, es, a, b);
    RaceEnds(hash, es + [a, b], a.t, b.t, older, newer);
    ForgetTwo(RunMicro(hash, es).threads, a.t, b.t, Allocated(older), Allocated(newer));
  }

  /** No two handlers hold an unsaved version for the same node. */
  ghost predicate OneWriterPerNode(w: World) {
    forall t, u :: t in w.threads && u in w.threads && t != u && w.threads[t].Allocated? && w.threads[u].Allocated? ==>
      w.threads[t].plan.nodeID != w.threads[u].plan.nodeID
  }

  /** A version in flight is newer than everything stored for its node. */
  ghost predicate InFlightNewest(w: World) {
    forall t :: t in w.threads && w.threads[t].Allocated? ==>
      IncreasingTo(HistoryOf(w.sys, w.threads[t].plan.nodeID), w.threads[t].plan.version - 1)
  }

  lemma StoreKeepsOrder(w: World, hash: Hash, t: nat)
    requires Ordered(w.sys) && InFlightNewest(w) && OneWriterPerNode(w) && ThreadsOk(w)
    requires t in w.threads && w.threads[t].Allocated?
    ensures Ordered(MicroStep(w, hash, Store(t)).sys) && InFlightNewest(MicroStep(w, hash, Store(t)))
  {
    var w', p := MicroStep(w, hash, Store(t)), w.threads[t].plan;
    assert InRange(p.version, w.sys.planVersion);
    forall id ensures IncreasingTo(HistoryOf(w'.sys, id), w'.sys.planVersion) {
      assert IncreasingTo(HistoryOf(w.sys, id), w.sys.planVersion);
      if id == p.nodeID {
        AppendKeepsIncreasing(HistoryOf(w.sys, id), p.version - 1, p);
      }
    }
    forall u | u in w'.threads && w'.threads[u].Allocated?
      ensures IncreasingTo(HistoryOf(w'.sys, w'.threads[u].plan.nodeID), w'.threads[u].plan.version - 1)
    {
      assert u != t && u in w.threads;
      assert w.threads[u].plan.nodeID != p.nodeID;
    }
  }

  lemma OtherStepsKeepOrder(w: World, hash: Hash, bound: int, e: Micro)
    requires Ordered(w.sys) && InFlightNewest(w) && CountersOk(w, bound) && bound < INT64_LIMIT - 1
    requires Forward(e) && !e.Store?
    ensures Ordered(MicroStep(w, hash, e).sys) && InFlightNewest(MicroStep(w, hash, e))
  {
    var w' := MicroStep(w, hash, e);
    forall id ensures IncreasingTo(HistoryOf(w'.sys, id), w'.sys.planVersion) {
      assert IncreasingTo(HistoryOf(w.sys, id), w.sys.planVersion);
    }
    forall u | u in w'.threads && w'.threads[u].Allocated?
      ensures IncreasingTo(HistoryOf(w'.sys, w'.threads[u].plan.nodeID), w'.threads[u].plan.version - 1)
    {
      if u !in w.threads {
        assert IncreasingTo(HistoryOf(w.sys, w'.threads[u].plan.nodeID), w.sys.planVersion);
      }
    }
  }

  /** When handlers for one node exclude each other, every interleaving keeps all histories strictly increasing. */
  lemma {:induction false} SerialisedWritersKeepOrder(hash: Hash, es: seq<Micro>)
    requires |es| < INT64_LIMIT && forall e :: e in es ==> Forward(e)
    requires forall k :: 0 <= k <= |es| ==> OneWriterPerNode(RunMicro(hash, es[..k]))
    ensures Ordered(RunMicro(hash, es).sys) && InFlightNewest(RunMicro(hash, es))
  {
    if es != [] {
      var front := Init(es);
      forall k | 0 <= k <= |front| ensures OneWriterPerNode(RunMicro(hash, front[..k])) {
        assert front[..k] == es[..k];
      }
      assert front == es[..|front|] && es == front + [Last(es)];
      assert Forward(Last(es));
      SerialisedWritersKeepOrder(hash, front);
      EveryInterleavingOk(hash, front);
      var w, e := RunMicro(hash, front), Last(es);
      if e.Store? {
        if e.t in w.threads && w.threads[e.t].Allocated? {
          StoreKeepsOrder(w, hash, e.t);
        }
      } else {
        OtherStepsKeepOrder(w, hash, |front|, e);
      }
    }
  }
}
