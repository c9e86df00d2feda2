/** Per-node logs cut to a fixed length after every append. */
module BoundedLogs {
  import opened Seqs

  type Logs<T> = map<string, seq<T>>

  function Get<T>(logs: Logs<T>, id: string): seq<T> {
    if id in logs then logs[id] else []
  }

  function AppendBounded<T>(logs: Logs<T>, id: string, x: T, bound: nat): Logs<T> {
    logs[id := Suffix(Get(logs, id) + [x], bound)]
  }

  /** The append and the cut of SavePolicyStatus and SavePolicyDiag. */
  method AppendCut<T>(log: seq<T>, x: T, bound: nat) returns (list: seq<T>)
    ensures list == Suffix(log + [x], bound)
  {
    list := log + [x];
    if |list| > bound {
      list := list[|list| - bound..];
    }
  }

  /** One append: the node and the entry. */
  datatype Entry<T> = Entry(id: string, item: T)

  function Run<T>(es: seq<Entry<T>>, bound: nat): Logs<T> {
    if es == [] then map[] else AppendBounded(Run(Init(es), bound), Last(es).id, Last(es).item, bound)
  }

  lemma RunMore<T>(es: seq<Entry<T>>, e: Entry<T>, bound: nat)
    ensures Run(es + [e], bound) == AppendBounded(Run(es, bound), e.id, e.item, bound)
  {
    assert Init(es + [e]) == es;
  }

  function FullLog<T>(es: seq<Entry<T>>, id: string): seq<T> {
    if es == [] then []
    else FullLog(Init(es), id) + if Last(es).id == id then [Last(es).item] else []
  }

  /** A bounded log is always the end of the full log. */
  lemma {:induction false} BoundedRefinesFullLog<T>(es: seq<Entry<T>>, bound: nat, id: string)
    requires bound > 0
    ensures Get(Run(es, bound), id) == Suffix(FullLog(es, id), bound)
  {
    if es != [] {
      BoundedRefinesFullLog(Init(es), bound, id);
      SuffixAppend(FullLog(Init(es), id), bound, Last(es).item);
      assert Last(es).id != id ==> FullLog(es, id) == FullLog(Init(es), id);
    }
  }

  /** What a listing with a limit returns; 0 or less means everything. */
  function Tail<T>(s: seq<T>, limit: int): seq<T> {
    if limit <= 0 || limit > |s| then s else Suffix(s, limit)
  }

  lemma SuffixOfSuffix<T>(s: seq<T>, m: nat, n: nat)
    requires n <= m
    ensures Suffix(Suffix(s, m), n) == Suffix(s, n)
  {
    if |s| > m {
      assert s[|s| - m..][m - n..] == s[|s| - n..];
      assert n == m ==> s[|s| - m..][0..] == s[|s| - m..];
    }
  }

  /** Listing a bounded log shows the end of the full log. */
  lemma TailOfBounded<T>(full: seq<T>, bound: nat, limit: int)
    ensures Tail(Suffix(full, bound), limit) == Suffix(full, if 0 < limit < bound then limit else bound)
  {
    if 0 < limit < bound {
      SuffixOfSuffix(full, bound, limit);
    } else if limit == bound {
      SuffixOfSuffix(full, bound, bound);
    }
  }

  method List<T>(list: seq<T>, limit: int) returns (out: seq<T>)
    ensures out == Tail(list, limit)
  {
    var n := if limit <= 0 || limit > |list| then |list| else limit;
    out := [];
    var start := |list| - n;
    for i := start to |list|
      invariant out == list[start..i]
    {
      out := out + [list[i]];
    }
    assert list[0..] == list;
  }
}
