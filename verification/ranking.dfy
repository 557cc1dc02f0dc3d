/** Top-N selection by count, as `Counter.most_common(n)`,
    `heapq.nlargest(n, items, key=count)` and pandas `nlargest(n)` (keep
    'first') compute it: a STABLE sort by count, descending, cut after `n`
    entries. Entries with equal counts keep the order they had in the input. */
module Ranking {
  import opened Counters

  /** Counts never increase along the list. */
  predicate NonIncreasing<K>(r: seq<(K, nat)>) {
    forall i, j :: 0 <= i < j < |r| ==> r[i].1 >= r[j].1
  }

  /** Entries of `r` with equal counts appear in `s` in the same relative order. */
  ghost predicate KeepsTieOrder<K>(s: seq<(K, nat)>, r: seq<(K, nat)>) {
    forall i, j :: 0 <= i < j < |r| && r[i].1 == r[j].1 ==>
      exists a, b :: 0 <= a < b < |s| && s[a] == r[i] && s[b] == r[j]
  }

  /** The number of leading entries of `t` whose count is strictly above `c`. */
  function Above<K>(c: nat, t: seq<(K, nat)>): (p: nat)
    ensures p <= |t|
    ensures forall i :: 0 <= i < p ==> t[i].1 > c
    ensures p < |t| ==> t[p].1 <= c
  {
    if t == [] || t[0].1 <= c then 0 else 1 + Above(c, t[1..])
  }

  /** Stable insertion of `x` in front of `t`'s entries that do not beat it. */
  function Insert<K>(x: (K, nat), t: seq<(K, nat)>): seq<(K, nat)> {
    var p := Above(x.1, t);
    t[..p] + [x] + t[p..]
  }

  lemma InsertAt<K>(x: (K, nat), t: seq<(K, nat)>)
    ensures var p := Above(x.1, t); var r := Insert(x, t);
      |r| == |t| + 1 && r[p] == x &&
      (forall i :: 0 <= i < p ==> r[i] == t[i]) &&
      (forall i :: p < i < |r| ==> r[i] == t[i - 1])
  {
  }

  lemma InsertMultiset<K>(x: (K, nat), t: seq<(K, nat)>)
    ensures multiset(Insert(x, t)) == multiset(t) + multiset{x}
  {
    var p := Above(x.1, t);
    assert t[..p] + t[p..] == t;
  }

  lemma InsertSorted<K>(x: (K, nat), t: seq<(K, nat)>)
    requires NonIncreasing(t)
    ensures NonIncreasing(Insert(x, t))
  {
    var p := Above(x.1, t);
    var r := Insert(x, t);
    InsertAt(x, t);
    forall i, j | 0 <= i < j < |r| ensures r[i].1 >= r[j].1 {
      if i == p && j > p {
        assert t[p].1 >= t[j - 1].1;
      }
    }
  }

  /** `sorted(s, key=count, reverse=True)`: a stable insertion sort. */
  function SortByCount<K>(s: seq<(K, nat)>): (r: seq<(K, nat)>)
    ensures |r| == |s|
  {
    if s == [] then []
    else
      var t := SortByCount(s[1..]);
      InsertAt(s[0], t);
      Insert(s[0], t)
  }

  /** The sort is a permutation whose counts never increase. */
  lemma {:induction false} SortFacts<K>(s: seq<(K, nat)>)
    ensures multiset(SortByCount(s)) == multiset(s)
    ensures NonIncreasing(SortByCount(s))
  {
    if s != [] {
      var t := SortByCount(s[1..]);
      SortFacts(s[1..]);
      InsertMultiset(s[0], t);
      InsertSorted(s[0], t);
      assert s == [s[0]] + s[1..];
    }
  }

  lemma LiftTiePair<K>(s: seq<(K, nat)>, t: seq<(K, nat)>, u: nat, v: nat)
    requires s != [] && KeepsTieOrder(s[1..], t)
    requires u < v < |t| && t[u].1 == t[v].1
    ensures exists a, b :: 0 <= a < b < |s| && s[a] == t[u] && s[b] == t[v]
  {
    var a, b :| 0 <= a < b < |s[1..]| && s[1..][a] == t[u] && s[1..][b] == t[v];
    assert s[a + 1] == t[u] && s[b + 1] == t[v];
  }

  lemma LiftFirst<K>(s: seq<(K, nat)>, t: seq<(K, nat)>, v: nat)
    requires s != [] && multiset(t) == multiset(s[1..]) && v < |t|
    ensures exists a, b :: 0 <= a < b < |s| && s[a] == s[0] && s[b] == t[v]
  {
    assert t[v] in multiset(s[1..]);
    var b :| 0 <= b < |s[1..]| && s[1..][b] == t[v];
    assert s[b + 1] == t[v];
  }

  lemma TiePairAfterInsert<K>(s: seq<(K, nat)>, t: seq<(K, nat)>, i: nat, j: nat)
    requires s != [] && KeepsTieOrder(s[1..], t) && multiset(t) == multiset(s[1..])
    requires i < j < |Insert(s[0], t)| && Insert(s[0], t)[i].1 == Insert(s[0], t)[j].1
    ensures exists a, b :: 0 <= a < b < |s| && s[a] == Insert(s[0], t)[i] && s[b] == Insert(s[0], t)[j]
  {
    var x := s[0];
    var p := Above(x.1, t);
    InsertAt(x, t);
    if j == p {
      assert false;
    } else if i == p {
      LiftFirst(s, t, j - 1);
    } else {
      var u := if i < p then i else i - 1;
      var v := if j < p then j else j - 1;
      assert Insert(x, t)[i] == t[u] && Insert(x, t)[j] == t[v];
      LiftTiePair(s, t, u, v);
    }
  }

  /** Tied entries keep their input order through the sort. */
  lemma {:induction false} SortKeepsTieOrder<K>(s: seq<(K, nat)>)
    ensures KeepsTieOrder(s, SortByCount(s))
  {
    if s != [] {
      var t := SortByCount(s[1..]);
      SortKeepsTieOrder(s[1..]);
      SortFacts(s[1..]);
      var r := SortByCount(s);
      assert r == Insert(s[0], t);
      forall i, j | 0 <= i < j < |r| && r[i].1 == r[j].1
        ensures exists a, b :: 0 <= a < b < |s| && s[a] == r[i] && s[b] == r[j]
      {
        TiePairAfterInsert(s, t, i, j);
      }
    }
  }

  /** Sorting keeps the key set, the distinctness of keys and the total. */
  lemma {:induction false} SortKeepsKeys<K>(s: seq<(K, nat)>)
    ensures Keys(SortByCount(s)) == Keys(s)
    ensures Total(SortByCount(s)) == Total(s)
    ensures DistinctKeys(s) ==> DistinctKeys(SortByCount(s))
  {
    if s != [] {
      SortKeepsKeys(s[1..]);
      var t := SortByCount(s[1..]);
      var x := s[0];
      var p := Above(x.1, t);
      assert t[..p] + t[p..] == t;
      KeysAppend(t[..p], t[p..]);
      KeysAppend(t[..p] + [x], t[p..]);
      KeysAppend(t[..p], [x]);
      TotalAppend(t[..p], t[p..]);
      TotalAppend(t[..p] + [x], t[p..]);
      TotalAppend(t[..p], [x]);
      assert Keys([x]) == {x.0};
      if DistinctKeys(s) {
        DistinctAppend(t[..p], t[p..]);
        DistinctAppend(t[..p] + [x], t[p..]);
        DistinctAppend(t[..p], [x]);
      }
    }
  }

  /** `most_common(n)` / `nlargest(n, ...)`: the first `n` entries of the
      stable sort (none when `n <= 0`). */
  function Largest<K>(s: seq<(K, nat)>, n: int): (r: seq<(K, nat)>)
    ensures |r| == if n <= 0 then 0 else if n < |s| then n else |s|
    ensures NonIncreasing(r)
  {
    var sorted := SortByCount(s);
    SortFacts(s);
    sorted[..if n <= 0 then 0 else if n < |s| then n else |s|]
  }

  /** The first entry of the stable sort is the first entry of the input,
      at index `i`, holding the largest count. */
  lemma {:induction false} SortHead<K>(s: seq<(K, nat)>) returns (i: nat)
    requires s != []
    ensures i < |s| && s[i] == SortByCount(s)[0]
    ensures forall j :: 0 <= j < |s| ==> s[j].1 <= s[i].1
    ensures forall j :: 0 <= j < i ==> s[j].1 < s[i].1
  {
    var t := SortByCount(s[1..]);
    var p := Above(s[0].1, t);
    InsertAt(s[0], t);
    SortFacts(s[1..]);
    if p == 0 {
      forall j | 1 <= j < |s| ensures s[j].1 <= s[0].1 {
        assert s[j] == s[1..][j - 1];
        assert s[j] in multiset(t);
        var k :| 0 <= k < |t| && t[k] == s[j];
        assert t[0].1 >= t[k].1;
      }
      i := 0;
    } else {
      var i' := SortHead(s[1..]);
      i := i' + 1;
      assert s[i] == s[1..][i'];
    }
  }

  /** `most_common(1)[0]`: the first entry of the input, at index `i`,
      holding the largest count. */
  lemma FirstLargest<K>(s: seq<(K, nat)>) returns (i: nat)
    requires s != []
    ensures i < |s| && s[i] == Largest(s, 1)[0]
    ensures forall j :: 0 <= j < |s| ==> s[j].1 <= s[i].1
    ensures forall j :: 0 <= j < i ==> s[j].1 < s[i].1
  {
    i := SortHead(s);
  }

  /** The cut keeps only entries of the input, and all of them when `n`
      reaches the input's length. */
  lemma LargestFromInput<K>(s: seq<(K, nat)>, n: int)
    ensures forall x :: x in Largest(s, n) ==> x in s
    ensures n >= |s| ==> multiset(Largest(s, n)) == multiset(s)
  {
    var sorted := SortByCount(s);
    SortFacts(s);
    var r := Largest(s, n);
    assert r == sorted[..|r|];
    forall x | x in r ensures x in s {
      assert x in sorted;
      assert x in multiset(sorted);
    }
    if n >= |s| {
      assert r == sorted;
    }
  }

  /** The cut never drops an entry whose count is larger than that of an
      entry it keeps. */
  lemma LargestDropsSmaller<K>(s: seq<(K, nat)>, n: int)
    ensures forall x, y :: x in Largest(s, n) && y in s && y !in Largest(s, n) ==> y.1 <= x.1
  {
    var sorted := SortByCount(s);
    SortFacts(s);
    var r := Largest(s, n);
    var m := |r|;
    assert r == sorted[..m];
    forall x, y | x in r && y in s && y !in r ensures y.1 <= x.1 {
      assert y in multiset(sorted);
      var k :| 0 <= k < |sorted| && sorted[k] == y;
      var i :| 0 <= i < m && r[i] == x;
      forall j | 0 <= j < m ensures sorted[j] != y {
        assert r[j] == sorted[j];
      }
      assert m <= k;
      assert sorted[i] == x;
    }
  }

  /** Tied entries that survive the cut keep their input order. */
  lemma LargestKeepsTieOrder<K>(s: seq<(K, nat)>, n: int)
    ensures KeepsTieOrder(s, Largest(s, n))
  {
    var sorted := SortByCount(s);
    var r := Largest(s, n);
    SortKeepsTieOrder(s);
    forall i, j | 0 <= i < j < |r| && r[i].1 == r[j].1
      ensures exists a, b :: 0 <= a < b < |s| && s[a] == r[i] && s[b] == r[j]
    {
      assert r[i] == sorted[i] && r[j] == sorted[j];
    }
  }

  /** The cut keeps distinct keys distinct and every retained key's count,
      and its total never exceeds the input's. */
  lemma LargestKeepsCounts<K>(s: seq<(K, nat)>, n: int)
    ensures Total(Largest(s, n)) <= Total(s)
    ensures Keys(Largest(s, n)) <= Keys(s)
    ensures DistinctKeys(s) ==> DistinctKeys(Largest(s, n))
    ensures DistinctKeys(s) ==> forall k :: k in Keys(Largest(s, n)) ==> Get(Largest(s, n), k) == Get(s, k)
  {
    var sorted := SortByCount(s);
    var r := Largest(s, n);
    SortKeepsKeys(s);
    assert sorted == r + sorted[|r|..];
    KeysAppend(r, sorted[|r|..]);
    TotalAppend(r, sorted[|r|..]);
    if DistinctKeys(s) {
      DistinctAppend(r, sorted[|r|..]);
      LargestFromInput(s, n);
      forall k | k in Keys(r) ensures Get(r, k) == Get(s, k) {
        KeysMembers(r);
        var x :| x in r && x.0 == k;
        GetEntry(r, x);
        GetEntry(s, x);
      }
    }
  }

  /** `r` is a top-`n` list of the counter `e`, judged by counts alone: as
      many entries as `n` allows, distinct keys of `e` with their counts,
      counts never increasing, and no key left out has a larger count than
      a key kept. */
  ghost predicate TopOf<K>(r: seq<(K, nat)>, e: seq<(K, nat)>, n: int) {
    |r| == (if n <= 0 then 0 else if n < |Keys(e)| then n else |Keys(e)|) &&
    DistinctKeys(r) && NonIncreasing(r) &&
    (forall x :: x in r ==> x.0 in Keys(e) && x.1 == Get(e, x.0)) &&
    (forall k, x :: k in Keys(e) && k !in Keys(r) && x in r ==> Get(e, k) <= x.1)
  }

  /** `most_common(n)` of a counter is a top-`n` list of it. */
  lemma LargestIsTop<K>(e: seq<(K, nat)>, n: int)
    requires DistinctKeys(e)
    ensures TopOf(Largest(e, n), e, n)
  {
    var r := Largest(e, n);
    KeysCardinality(e);
    LargestFromInput(e, n);
    LargestDropsSmaller(e, n);
    LargestKeepsCounts(e, n);
    KeysMembers(e);
    KeysMembers(r);
    forall x | x in r ensures x.0 in Keys(e) && x.1 == Get(e, x.0) {
      GetEntry(e, x);
    }
    forall k, x | k in Keys(e) && k !in Keys(r) && x in r ensures Get(e, k) <= x.1 {
      var y :| y in e && y.0 == k;
      GetEntry(e, y);
    }
  }

  /** Being a top-`n` list depends only on the keys and counts of the
      counter, not on its insertion order. */
  lemma TopOfSameCounts<K>(r: seq<(K, nat)>, a: seq<(K, nat)>, b: seq<(K, nat)>, n: int)
    requires Keys(a) == Keys(b) && forall k :: Get(a, k) == Get(b, k)
    requires TopOf(r, a, n)
    ensures TopOf(r, b, n)
  {
    forall x | x in r ensures x.0 in Keys(b) && x.1 == Get(b, x.0) {
      assert Get(a, x.0) == Get(b, x.0);
    }
    forall k, x | k in Keys(b) && k !in Keys(r) && x in r ensures Get(b, k) <= x.1 {
      assert Get(a, k) == Get(b, k);
    }
  }

  /** The largest entries of a counter are a top list of any counter with
      the same positive counts. */
  lemma TopOfLargest<K(!new)>(e: seq<(K, nat)>, f: seq<(K, nat)>, n: int)
    requires DistinctKeys(e) && Positive(e) && Positive(f)
    requires forall k :: Get(e, k) == Get(f, k)
    ensures TopOf(Largest(e, n), f, n)
  {
    LargestIsTop(e, n);
    SameCountsSameKeys(e, f);
    TopOfSameCounts(Largest(e, n), e, f, n);
  }
}
