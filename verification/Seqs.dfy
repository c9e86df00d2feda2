/** Sequence vocabulary shared by the other modules. */
module Seqs {
  datatype Option<+T> = None | Some(value: T)

  ghost predicate NoDup<T>(s: seq<T>) {
    forall i, j :: 0 <= i < j < |s| ==> s[i] != s[j]
  }

  function Init<T>(s: seq<T>): (r: seq<T>)
    requires s != []
    ensures |r| == |s| - 1
  {
    s[..|s| - 1]
  }

  function Last<T>(s: seq<T>): T
    requires s != []
  {
    s[|s| - 1]
  }

  /** The last `n` items of `s`, or all of them when there are fewer. */
  function Suffix<T>(s: seq<T>, n: nat): (r: seq<T>)
    ensures |r| == if |s| <= n then |s| else n
  {
    if |s| <= n then s else s[|s| - n..]
  }

  /** Cutting after every append is the same as cutting the full log once. */
  lemma SuffixAppend<T>(s: seq<T>, n: nat, x: T)
    requires n > 0
    ensures Suffix(Suffix(s, n) + [x], n) == Suffix(s + [x], n)
  {
    if |s| > n {
      assert (s[|s| - n..] + [x])[1..] == (s + [x])[|s| + 1 - n..];
    } else if |s| == n {
      assert Suffix(s, n) == s;
    }
  }

  /** `base` followed by those items of `xs` that are not yet in the list, first occurrences only. */
  function AppendNew<T(==)>(base: seq<T>, xs: seq<T>): seq<T> {
    if xs == [] then base
    else
      var b := AppendNew(base, Init(xs));
      if Last(xs) in b then b else b + [Last(xs)]
  }

  lemma {:induction false} AppendNewFacts<T>(base: seq<T>, xs: seq<T>)
    ensures base <= AppendNew(base, xs)
    ensures forall x :: x in AppendNew(base, xs) <==> x in base || x in xs
    ensures NoDup(base) ==> NoDup(AppendNew(base, xs))
  {
    if xs != [] {
      AppendNewFacts(base, Init(xs));
      assert xs == Init(xs) + [Last(xs)];
    }
  }

  lemma {:induction false} AppendNewFirst<T>(xs: seq<T>)
    requires xs != []
    ensures AppendNew([], xs) != [] && AppendNew([], xs)[0] == xs[0]
  {
    if |xs| == 1 {
      assert AppendNew([], Init(xs)) == [];
    } else {
      AppendNewFirst(Init(xs));
    }
  }

  /** Appending items that are all present already changes nothing. */
  lemma {:induction false} AppendNewPresent<T>(base: seq<T>, xs: seq<T>)
    requires forall x :: x in xs ==> x in base
    ensures AppendNew(base, xs) == base
  {
    if xs != [] {
      AppendNewPresent(base, Init(xs));
      assert Last(xs) in xs;
    }
  }

  lemma {:induction false} AppendNewConcat<T>(base: seq<T>, xs: seq<T>, ys: seq<T>)
    ensures AppendNew(base, xs + ys) == AppendNew(AppendNew(base, xs), ys)
  {
    if ys == [] {
      assert xs + ys == xs;
    } else {
      AppendNewConcat(base, xs, Init(ys));
      assert Init(xs + ys) == xs + Init(ys);
    }
  }

  /** A value occurs where a sequence with the same multiset has it. */
  lemma SplitAt<T>(s: seq<T>, x: T) returns (k: nat)
    requires x in s
    ensures k < |s| && s == s[..k] + [x] + s[k + 1..]
    ensures multiset(s[..k] + s[k + 1..]) == multiset(s) - multiset{x}
  {
    k :| 0 <= k < |s| && s[k] == x;
    assert s == s[..k] + [x] + s[k + 1..];
    assert multiset(s) == multiset(s[..k]) + multiset{x} + multiset(s[k + 1..]);
  }
}
