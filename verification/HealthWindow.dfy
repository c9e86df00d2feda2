/** The pruned health history, against the log of every report ever saved. */
module HealthWindow {
  import opened Seqs
  import opened Model

  /** Timestamp.After(cutoff), or not before it when `strict` is off. */
  predicate Survives(h: HealthReport, cutoff: int, strict: bool) {
    h.timestamp > cutoff || (!strict && h.timestamp == cutoff)
  }

  function Keep(s: seq<HealthReport>, cutoff: int, strict: bool): seq<HealthReport> {
    if s == [] then []
    else Keep(Init(s), cutoff, strict) + if Survives(Last(s), cutoff, strict) then [Last(s)] else []
  }

  lemma {:induction false} KeepConcat(a: seq<HealthReport>, b: seq<HealthReport>, cutoff: int, strict: bool)
    ensures Keep(a + b, cutoff, strict) == Keep(a, cutoff, strict) + Keep(b, cutoff, strict)
  {
    if b == [] {
      assert a + b == a;
    } else {
      KeepConcat(a, Init(b), cutoff, strict);
      assert Init(a + b) == a + Init(b);
    }
  }

  lemma {:induction false} KeepMembers(s: seq<HealthReport>, cutoff: int, strict: bool, h: HealthReport)
    ensures h in Keep(s, cutoff, strict) <==> h in s && Survives(h, cutoff, strict)
  {
    if s != [] {
      KeepMembers(Init(s), cutoff, strict, h);
      assert s == Init(s) + [Last(s)];
    }
  }

  /** The cutoff spares every report that a query since `since` asks for. */
  ghost predicate Spares(s: seq<HealthReport>, cutoff: int, strict: bool, since: int) {
    forall h :: h in s && h.timestamp >= since ==> Survives(h, cutoff, strict)
  }

  lemma SparesLast(s: seq<HealthReport>, cutoff: int, strict: bool, since: int)
    requires s != []
    ensures Spares(s, cutoff, strict, since) <==>
              && Spares(Init(s), cutoff, strict, since)
              && (Last(s).timestamp >= since ==> Survives(Last(s), cutoff, strict))
  {
    assert s == Init(s) + [Last(s)];
  }

  lemma KeepLast(front: seq<HealthReport>, h: HealthReport, cutoff: int, strict: bool)
    ensures Keep(front + [h], cutoff, strict) ==
              Keep(front, cutoff, strict) + if Survives(h, cutoff, strict) then [h] else []
  {
    assert Init(front + [h]) == front;
  }

  /** A query does not see that a cutoff was applied if the cutoff spares its reports, and is shorter otherwise. */
  lemma {:induction false} KeepAfterKeep(s: seq<HealthReport>, cutoff: int, strict: bool, since: int)
    ensures var cut, all := Keep(Keep(s, cutoff, strict), since, false), Keep(s, since, false);
            if Spares(s, cutoff, strict, since) then cut == all else |cut| < |all|
  {
    if s != [] {
      var front := Keep(Init(s), cutoff, strict);
      KeepAfterKeep(Init(s), cutoff, strict, since);
      SparesLast(s, cutoff, strict, since);
      if Survives(Last(s), cutoff, strict) {
        KeepLast(front, Last(s), since, false);
      } else {
        assert Keep(s, cutoff, strict) == front;
      }
    }
  }

  /**
    The in-place compaction `keep := hist[:0]`: reads and writes share one array. The write
    index never passes the read index, so no unread item is overwritten.
   */
  method Compact(hist: array<HealthReport>, cutoff: int, strict: bool) returns (n: nat)
    modifies hist
    ensures n <= hist.Length
    ensures hist[..n] == Keep(old(hist[..]), cutoff, strict)
  {
    n := 0;
    ghost var was := hist[..];
    for i := 0 to hist.Length
      invariant n <= i
      invariant hist[i..] == was[i..]
      invariant hist[..n] == Keep(was[..i], cutoff, strict)
    {
      var item := hist[i];
      assert item == hist[i..][0] == was[i];
      assert Init(was[..i + 1]) == was[..i];
      if Survives(item, cutoff, strict) {
        ghost var kept := hist[..n];
        hist[n] := item;
        assert hist[..n] == kept && hist[n] == item;
        assert hist[..n + 1] == kept + [item];
        n := n + 1;
      }
      assert hist[i + 1..] == was[i + 1..];
    }
    assert was[..hist.Length] == was;
  }

  // ---- Runs ----

  type Histories = map<string, seq<HealthReport>>

  function Get(h: Histories, id: string): seq<HealthReport> {
    if id in h then h[id] else []
  }

  /** A saved report with the cutoff of its save, or a pruning of all nodes. */
  datatype HealthOp = Save(report: HealthReport, cutoff: int) | Prune(cutoff: int)

  function Step(h: Histories, op: HealthOp): Histories {
    match op
    case Save(report, cutoff) => h[report.nodeID := Keep(Get(h, report.nodeID) + [report], cutoff, true)]
    case Prune(cutoff) => map id | id in h :: Keep(h[id], cutoff, false)
  }

  function Run(ops: seq<HealthOp>): Histories {
    if ops == [] then map[] else Step(Run(Init(ops)), Last(ops))
  }

  function FullLog(ops: seq<HealthOp>, id: string): seq<HealthReport> {
    if ops == [] then []
    else
      FullLog(Init(ops), id)
      + if Last(ops).Save? && Last(ops).report.nodeID == id then [Last(ops).report] else []
  }

  /** If the operation's cutoff applies to the node, it spares every logged report that the query asks for. */
  ghost predicate SparesAll(op: HealthOp, log: seq<HealthReport>, id: string, since: int) {
    match op
    case Save(report, cutoff) => report.nodeID == id ==> Spares(log, cutoff, true, since)
    case Prune(cutoff) => Spares(log, cutoff, false, since)
  }

  /** No cutoff of the run removed a report that a query since `since` asks for. */
  ghost predicate Lossless(ops: seq<HealthOp>, id: string, since: int) {
    ops == [] || (Lossless(Init(ops), id, since) && SparesAll(Last(ops), FullLog(ops, id), id, since))
  }

  /** Cutting two logs of which a query shows the same, or cutting the one of which it shows less. */
  lemma CutBoth(kept: seq<HealthReport>, full: seq<HealthReport>, cutoff: int, strict: bool, since: int)
    ensures var cut, all := Keep(Keep(kept, cutoff, strict), since, false), Keep(full, since, false);
            var before := Keep(kept, since, false);
            && (before == all && Spares(full, cutoff, strict, since) ==> cut == all)
            && (|before| < |all| || (before == all && !Spares(full, cutoff, strict, since)) ==> |cut| < |all|)
  {
    KeepAfterKeep(kept, cutoff, strict, since);
    if Keep(kept, since, false) == Keep(full, since, false) {
      forall h ensures h in kept && h.timestamp >= since <==> h in full && h.timestamp >= since {
        KeepMembers(kept, since, false, h);
        KeepMembers(full, since, false, h);
      }
    }
  }

  /**
    Whatever was saved and pruned: a query answers like the full log exactly when no cutoff
    removed a report it asks for. Otherwise its answer is shorter.
   */
  lemma {:induction false} QueryIsCompleteIffLossless(ops: seq<HealthOp>, id: string, since: int)
    ensures var answer, full := Keep(Get(Run(ops), id), since, false), Keep(FullLog(ops, id), since, false);
            if Lossless(ops, id, since) then answer == full else |answer| < |full|
  {
    if ops != [] {
      var kept, full, op := Get(Run(Init(ops)), id), FullLog(Init(ops), id), Last(ops);
      QueryIsCompleteIffLossless(Init(ops), id, since);
      if op.Save? && op.report.nodeID == id {
        KeepConcat(kept, [op.report], since, false);
        KeepConcat(full, [op.report], since, false);
        CutBoth(kept + [op.report], full + [op.report], op.cutoff, true, since);
      } else {
        assert FullLog(ops, id) == full;
        if op.Prune? {
          CutBoth(kept, full, op.cutoff, false, since);
        }
      }
    }
  }

  /** The query reaches back no further than any cutoff applied to the node. */
  ghost predicate WithinWindow(op: HealthOp, id: string, since: int) {
    match op
    case Save(report, cutoff) => report.nodeID == id ==> cutoff < since
    case Prune(cutoff) => cutoff <= since
  }

  lemma {:induction false} WindowIsLossless(ops: seq<HealthOp>, id: string, since: int)
    requires forall op :: op in ops ==> WithinWindow(op, id, since)
    ensures Lossless(ops, id, since)
  {
    if ops != [] {
      assert ops == Init(ops) + [Last(ops)];
      assert WithinWindow(Last(ops), id, since);
      WindowIsLossless(Init(ops), id, since);
    }
  }

  /** Inside the window, the pruned history answers queries like the full log, whatever the reports. */
  lemma WindowRefinesFullLog(ops: seq<HealthOp>, id: string, since: int)
    requires forall op :: op in ops ==> WithinWindow(op, id, since)
    ensures Keep(Get(Run(ops), id), since, false) == Keep(FullLog(ops, id), since, false)
  {
    WindowIsLossless(ops, id, since);
    QueryIsCompleteIffLossless(ops, id, since);
  }

  /** Outside the window: a save loses every report up to its cutoff to all later queries. */
  lemma SaveLosesOlderReports(ops: seq<HealthOp>, report: HealthReport, cutoff: int, lost: HealthReport, since: int)
    requires lost in FullLog(ops, report.nodeID) && since <= lost.timestamp <= cutoff
    ensures var ops' := ops + [Save(report, cutoff)];
            && lost in Keep(FullLog(ops', report.nodeID), since, false)
            && lost !in Keep(Get(Run(ops'), report.nodeID), since, false)
  {
    var id, ops' := report.nodeID, ops + [Save(report, cutoff)];
    assert Init(ops') == ops;
    KeepMembers(FullLog(ops', id), since, false, lost);
    KeepMembers(Get(Run(ops), id) + [report], cutoff, true, lost);
    KeepMembers(Get(Run(ops'), id), since, false, lost);
  }
}
