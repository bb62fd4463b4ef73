/** `Array.prototype.filter` over immutable sequences, with the facts every
    filtering operation of the stores relies on: it keeps exactly the
    elements that pass, in their original order, and nothing more. */
module Seqs {
  import opened Wrappers

  /** `sub` can be obtained from `s` by deleting elements. */
  predicate IsSubsequence<T(==)>(sub: seq<T>, s: seq<T>)
    decreases |s|
  {
    if |sub| == 0 then true
    else if |s| == 0 then false
    else if sub[0] == s[0] then IsSubsequence(sub[1..], s[1..])
    else IsSubsequence(sub, s[1..])
  }

  /** How many elements of `s` pass `keep`. */
  function CountWhere<T>(s: seq<T>, keep: T -> bool): (n: nat)
    ensures n <= |s|
    decreases |s|
  {
    if |s| == 0 then 0 else (if keep(s[0]) then 1 else 0) + CountWhere(s[1..], keep)
  }

  /** Counting a test and its negation splits the sequence. */
  lemma {:induction false} CountComplement<T>(s: seq<T>, p: T -> bool, q: T -> bool)
    requires forall t :: q(t) == !p(t)
    ensures CountWhere(s, p) + CountWhere(s, q) == |s|
    decreases |s|
  {
    if |s| > 0 {
      CountComplement(s[1..], p, q);
    }
  }

  function Filter<T(==)>(s: seq<T>, keep: T -> bool): (r: seq<T>)
    ensures forall i :: 0 <= i < |r| ==> r[i] in s && keep(r[i])
    ensures forall i :: 0 <= i < |s| && keep(s[i]) ==> s[i] in r
    ensures IsSubsequence(r, s)
    ensures |r| == CountWhere(s, keep)
    ensures (forall i :: 0 <= i < |s| ==> keep(s[i])) ==> r == s
    decreases |s|
  {
    if |s| == 0 then []
    else
      var rest := Filter(s[1..], keep);
      assert forall i :: 1 <= i < |s| ==> s[i] == s[1..][i - 1];
      if keep(s[0]) then [s[0]] + rest else rest
  }

  /** Filtering twice with the same test is filtering once. */
  lemma FilterIdempotent<T>(s: seq<T>, keep: T -> bool)
    ensures Filter(Filter(s, keep), keep) == Filter(s, keep)
  {
    var r := Filter(s, keep);
    assert forall i :: 0 <= i < |r| ==> r[i] in r;
  }

  /** The last position of `s` whose element passes `p`, if any. */
  function LastIndex<T>(s: seq<T>, p: T -> bool): (r: Option<nat>)
    ensures r.Some? ==> (r.value < |s| && p(s[r.value]) && (forall j :: r.value < j < |s| ==> !p(s[j])))
    ensures r.None? ==> forall j :: 0 <= j < |s| ==> !p(s[j])
    decreases |s|
  {
    if |s| == 0 then None
    else
      var n := |s| - 1;
      if p(s[n]) then Some(n)
      else
        var front := s[..n];
        assert forall j :: 0 <= j < n ==> front[j] == s[j];
        LastIndex(front, p)
  }

  /** The last position of `s` whose element is filed under `k`. */
  function LastKeyed<T, K(==)>(s: seq<T>, key: T -> Option<K>, k: K): (r: Option<nat>)
    ensures r.Some? ==> (r.value < |s| && key(s[r.value]) == Some(k)
                         && (forall j :: r.value < j < |s| ==> key(s[j]) != Some(k)))
    ensures r.None? ==> forall j :: 0 <= j < |s| ==> key(s[j]) != Some(k)
  {
    LastIndex(s, (x: T) => key(x) == Some(k))
  }

  /** Dropping the last element only matters for its own key. */
  lemma LastKeyedStep<T, K>(s: seq<T>, key: T -> Option<K>)
    requires |s| > 0
    ensures var n := |s| - 1;
      forall k :: LastKeyed(s, key, k) == if key(s[n]) == Some(k) then Some(n) else LastKeyed(s[..n], key, k)
  {
  }

  /** An object filled by `obj[key(x)] = val(x)` for each `x` of `s` that
      has a key, in order: each key holds the value of its last writer. */
  function LastWins<T, K(==,!new), V>(s: seq<T>, key: T -> Option<K>, val: T -> V): (r: map<K, V>)
    ensures forall k :: k in r <==> LastKeyed(s, key, k).Some?
    ensures forall k :: k in r ==> r[k] == val(s[LastKeyed(s, key, k).value])
    decreases |s|
  {
    if |s| == 0 then map[]
    else
      var n := |s| - 1;
      var m := LastWins(s[..n], key, val);
      LastKeyedStep(s, key);
      assert forall i :: 0 <= i < n ==> s[..n][i] == s[i];
      match key(s[n])
      case None => m
      case Some(k) => m[k := val(s[n])]
  }

  // ---------------------------------------------------------------------
  // Array.prototype.sort with a comparator that orders by a numeric rank.
  // The runtime's sort is stable, so elements of equal rank keep their
  // relative order.
  // ---------------------------------------------------------------------

  predicate SortedBy<T>(s: seq<T>, rank: T -> int) {
    forall i, j :: 0 <= i < j < |s| ==> rank(s[i]) <= rank(s[j])
  }

  /** The elements of `s` whose rank is `k`, in their order in `s`. */
  function WithRank<T>(s: seq<T>, rank: T -> int, k: int): seq<T>
    decreases |s|
  {
    if |s| == 0 then [] else (if rank(s[0]) == k then [s[0]] else []) + WithRank(s[1..], rank, k)
  }

  /** Puts `x` in front of the first element of `s` that does not rank
      below it. */
  function Insert<T(==)>(x: T, s: seq<T>, rank: T -> int): (r: seq<T>)
    ensures |r| == |s| + 1
    ensures multiset(r) == multiset(s) + multiset{x}
    ensures |s| > 0 ==> r[0] == x || r[0] == s[0]
    decreases |s|
  {
    if |s| == 0 || rank(x) <= rank(s[0]) then [x] + s
    else
      assert s == [s[0]] + s[1..];
      [s[0]] + Insert(x, s[1..], rank)
  }

  lemma SortedCons<T>(y: T, s: seq<T>, rank: T -> int)
    requires SortedBy(s, rank)
    requires |s| > 0 ==> rank(y) <= rank(s[0])
    ensures SortedBy([y] + s, rank)
  {
    var r := [y] + s;
    forall i, j | 0 <= i < j < |r|
      ensures rank(r[i]) <= rank(r[j])
    {
      if i == 0 {
        assert r[j] == s[j - 1];
      } else {
        assert r[i] == s[i - 1] && r[j] == s[j - 1];
      }
    }
  }

  /** Inserting into a sorted sequence keeps it sorted. */
  lemma {:induction false} InsertSorted<T>(x: T, s: seq<T>, rank: T -> int)
    requires SortedBy(s, rank)
    ensures SortedBy(Insert(x, s, rank), rank)
    decreases |s|
  {
    if |s| == 0 || rank(x) <= rank(s[0]) {
      SortedCons(x, s, rank);
    } else {
      var rest := Insert(x, s[1..], rank);
      assert SortedBy(s[1..], rank);
      InsertSorted(x, s[1..], rank);
      assert |s| > 1 ==> rank(s[0]) <= rank(s[1]);
      SortedCons(s[0], rest, rank);
    }
  }

  /** `s.sort(cmp)` where `cmp(a, b)` has the sign of `rank(a) - rank(b)`. */
  function SortBy<T(==)>(s: seq<T>, rank: T -> int): (r: seq<T>)
    ensures |r| == |s|
    ensures multiset(r) == multiset(s)
    ensures SortedBy(r, rank)
    decreases |s|
  {
    if |s| == 0 then []
    else
      assert s == [s[0]] + s[1..];
      InsertSorted(s[0], SortBy(s[1..], rank), rank);
      Insert(s[0], SortBy(s[1..], rank), rank)
  }

  /** The rank class of a sequence with a known head. */
  lemma WithRankCons<T>(y: T, s: seq<T>, rank: T -> int, k: int)
    ensures WithRank([y] + s, rank, k) == (if rank(y) == k then [y] else []) + WithRank(s, rank, k)
  {
    assert ([y] + s)[1..] == s;
  }

  /** One step of `InsertWithRank`: an element ranked below `x` in front
      of both sides does not disturb the equation. */
  lemma WithRankPast<T>(x: T, y: T, rest: seq<T>, tail: seq<T>, rank: T -> int, k: int)
    requires rank(y) < rank(x)
    requires WithRank(rest, rank, k) == (if rank(x) == k then [x] else []) + WithRank(tail, rank, k)
    ensures WithRank([y] + rest, rank, k) == (if rank(x) == k then [x] else []) + WithRank([y] + tail, rank, k)
  {
    WithRankCons(y, rest, rank, k);
    WithRankCons(y, tail, rank, k);
  }

  /** Inserting `x` into a sorted sequence adds it in front of the elements
      of its own rank and leaves every other rank class as it was. */
  lemma {:induction false} InsertWithRank<T>(x: T, s: seq<T>, rank: T -> int, k: int)
    requires SortedBy(s, rank)
    ensures WithRank(Insert(x, s, rank), rank, k) == (if rank(x) == k then [x] else []) + WithRank(s, rank, k)
    decreases |s|
  {
    if |s| == 0 || rank(x) <= rank(s[0]) {
      WithRankCons(x, s, rank, k);
    } else {
      assert SortedBy(s[1..], rank);
      InsertWithRank(x, s[1..], rank, k);
      WithRankPast(x, s[0], Insert(x, s[1..], rank), s[1..], rank, k);
      assert s == [s[0]] + s[1..];
    }
  }

  /** Stability: within each rank, the sort keeps the input order. */
  lemma {:induction false} SortByStable<T>(s: seq<T>, rank: T -> int, k: int)
    ensures WithRank(SortBy(s, rank), rank, k) == WithRank(s, rank, k)
    decreases |s|
  {
    if |s| > 0 {
      SortByStable(s[1..], rank, k);
      InsertWithRank(s[0], SortBy(s[1..], rank), rank, k);
    }
  }

  /** A sequence already in rank order is left as it is. */
  lemma {:induction false} SortBySorted<T>(s: seq<T>, rank: T -> int)
    requires SortedBy(s, rank)
    ensures SortBy(s, rank) == s
    decreases |s|
  {
    if |s| > 0 {
      assert SortedBy(s[1..], rank);
      SortBySorted(s[1..], rank);
      assert s == [s[0]] + s[1..];
    }
  }

  /** Sorting twice is sorting once. */
  lemma SortByIdempotent<T>(s: seq<T>, rank: T -> int)
    ensures SortBy(SortBy(s, rank), rank) == SortBy(s, rank)
  {
    SortBySorted(SortBy(s, rank), rank);
  }
}
