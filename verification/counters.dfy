/** Python's `Counter` (and the `defaultdict(int)` used the same way) as an
    insertion-ordered list of entries with distinct keys. The order matters:
    `most_common`, `nlargest` and `sorted` are stable, so ties come out in
    the order in which keys were first inserted. */
module Counters {

  /** The keys of a counter. */
  function Keys<K>(e: seq<(K, nat)>): set<K> {
    if e == [] then {} else {e[0].0} + Keys(e[1..])
  }

  /** No key occurs twice. */
  predicate DistinctKeys<K(==)>(e: seq<(K, nat)>) {
    e == [] || (e[0].0 !in Keys(e[1..]) && DistinctKeys(e[1..]))
  }

  /** The first components in order: the keys of a counter in insertion
      order, or the days of (day, username) records. */
  function Firsts<A, B>(ps: seq<(A, B)>): (fs: seq<A>)
    ensures |fs| == |ps| && forall i :: 0 <= i < |ps| ==> fs[i] == ps[i].0
  {
    if ps == [] then [] else [ps[0].0] + Firsts(ps[1..])
  }

  /** `counter[k]`: the count of `k`, 0 when it is absent. */
  function Get<K(==)>(e: seq<(K, nat)>, k: K): nat {
    if e == [] then 0 else if e[0].0 == k then e[0].1 else Get(e[1..], k)
  }

  /** `sum(counter.values())`. */
  function Total<K>(e: seq<(K, nat)>): nat {
    if e == [] then 0 else e[0].1 + Total(e[1..])
  }

  /** Number of occurrences of `x` in `s`. */
  function Occurrences<T(==)>(s: seq<T>, x: T): nat {
    if s == [] then 0 else (if s[0] == x then 1 else 0) + Occurrences(s[1..], x)
  }

  /** `counter[k] += n`: an existing key keeps its place, a new key is
      appended at the end. */
  function Add<K(==)>(e: seq<(K, nat)>, k: K, n: nat): (r: seq<(K, nat)>)
    ensures Keys(r) == Keys(e) + {k}
    ensures k !in Keys(e) ==> r == e + [(k, n)]
  {
    if e == [] then [(k, n)]
    else if e[0].0 == k then [(k, e[0].1 + n)] + e[1..]
    else
      var r := [e[0]] + Add(e[1..], k, n);
      assert r[1..] == Add(e[1..], k, n);
      r
  }

  // ---- keys and membership

  lemma {:induction false} KeysAppend<K>(a: seq<(K, nat)>, b: seq<(K, nat)>)
    ensures Keys(a + b) == Keys(a) + Keys(b)
  {
    if a != [] {
      assert (a + b)[1..] == a[1..] + b;
      KeysAppend(a[1..], b);
    } else {
      assert a + b == b;
    }
  }

  /** The keys are exactly the first components of the entries. */
  lemma {:induction false} KeysMembers<K>(e: seq<(K, nat)>)
    ensures forall x :: x in e ==> x.0 in Keys(e)
    ensures forall k :: k in Keys(e) ==> exists x :: x in e && x.0 == k
  {
    if e != [] {
      KeysMembers(e[1..]);
      assert e == [e[0]] + e[1..];
    }
  }

  /** With distinct keys, `len(counter)` is the number of entries. */
  lemma {:induction false} KeysCardinality<K>(e: seq<(K, nat)>)
    requires DistinctKeys(e)
    ensures |Keys(e)| == |e|
  {
    if e != [] {
      KeysCardinality(e[1..]);
    }
  }

  /** Only the empty counter has no keys. */
  lemma KeysEmpty<K>(e: seq<(K, nat)>)
    ensures Keys(e) == {} <==> e == []
  {
    if e != [] {
      assert e[0].0 in Keys(e);
    }
  }

  lemma {:induction false} DistinctAppend<K>(a: seq<(K, nat)>, b: seq<(K, nat)>)
    ensures DistinctKeys(a + b) <==> DistinctKeys(a) && DistinctKeys(b) && Keys(a) !! Keys(b)
  {
    if a != [] {
      assert (a + b)[1..] == a[1..] + b;
      DistinctAppend(a[1..], b);
      KeysAppend(a[1..], b);
    } else {
      assert a + b == b;
    }
  }

  /** With distinct keys, two positions holding the same key are the same position. */
  lemma {:induction false} DistinctIndices<K>(e: seq<(K, nat)>, i: nat, j: nat)
    requires DistinctKeys(e) && i < |e| && j < |e| && e[i].0 == e[j].0
    ensures i == j
  {
    if i != 0 && j != 0 {
      DistinctIndices(e[1..], i - 1, j - 1);
    } else {
      forall m | 0 < m < |e| ensures e[m].0 != e[0].0 {
        KeysMembers(e[1..]);
        assert e[1..][m - 1] in e[1..];
      }
    }
  }

  // ---- counts

  /** A key that is absent has count 0. */
  lemma {:induction false} GetAbsent<K>(e: seq<(K, nat)>, k: K)
    requires k !in Keys(e)
    ensures Get(e, k) == 0
  {
    if e != [] {
      GetAbsent(e[1..], k);
    }
  }

  /** With distinct keys, an entry's count is the counter's count of its key. */
  lemma {:induction false} GetEntry<K>(e: seq<(K, nat)>, x: (K, nat))
    requires DistinctKeys(e) && x in e
    ensures Get(e, x.0) == x.1
  {
    if e[0] != x {
      assert x in e[1..] by {
        assert e == [e[0]] + e[1..];
      }
      KeysMembers(e[1..]);
      GetEntry(e[1..], x);
    }
  }

  lemma {:induction false} GetAppend<K>(a: seq<(K, nat)>, b: seq<(K, nat)>, k: K)
    ensures Get(a + b, k) == if k in Keys(a) then Get(a, k) else Get(b, k)
  {
    if a != [] {
      assert (a + b)[1..] == a[1..] + b;
      GetAppend(a[1..], b, k);
    } else {
      assert a + b == b;
    }
  }

  /** Counts are positive for every key of a counter whose entries are positive. */
  lemma {:induction false} GetPositive<K>(e: seq<(K, nat)>, k: K)
    requires forall x :: x in e ==> x.1 > 0
    requires k in Keys(e)
    ensures Get(e, k) > 0
  {
    if e[0].0 != k {
      assert forall x :: x in e[1..] ==> x in e;
      GetPositive(e[1..], k);
    }
  }

  /** A key's count never exceeds the total. */
  lemma {:induction false} GetAtMostTotal<K>(e: seq<(K, nat)>, k: K)
    ensures Get(e, k) <= Total(e)
  {
    if e != [] {
      GetAtMostTotal(e[1..], k);
    }
  }

  lemma {:induction false} TotalAppend<K>(a: seq<(K, nat)>, b: seq<(K, nat)>)
    ensures Total(a + b) == Total(a) + Total(b)
  {
    if a != [] {
      assert (a + b)[1..] == a[1..] + b;
      TotalAppend(a[1..], b);
    } else {
      assert a + b == b;
    }
  }

  lemma {:induction false} OccurrencesAppend<T>(a: seq<T>, b: seq<T>, x: T)
    ensures Occurrences(a + b, x) == Occurrences(a, x) + Occurrences(b, x)
  {
    if a != [] {
      assert (a + b)[1..] == a[1..] + b;
      OccurrencesAppend(a[1..], b, x);
    } else {
      assert a + b == b;
    }
  }

  // ---- updates

  /** What `counter[k] += n` does: the count of `k` grows by `n`, every
      other count, the order of the old keys and their distinctness are kept,
      and the total grows by `n`. */
  lemma {:induction false} AddFacts<K>(e: seq<(K, nat)>, k: K, n: nat)
    ensures forall j :: Get(Add(e, k, n), j) == Get(e, j) + (if j == k then n else 0)
    ensures Total(Add(e, k, n)) == Total(e) + n
    ensures k in Keys(e) ==> Firsts(Add(e, k, n)) == Firsts(e)
    ensures DistinctKeys(e) ==> DistinctKeys(Add(e, k, n))
  {
    if e != [] && e[0].0 != k {
      var r := Add(e, k, n);
      assert r[1..] == Add(e[1..], k, n);
      AddFacts(e[1..], k, n);
    }
  }

  /** `counter.update(keys)` with an iterable: one increment per element,
      left to right. */
  function Update<K(==)>(e: seq<(K, nat)>, ks: seq<K>): (r: seq<(K, nat)>)
    ensures Keys(r) == Keys(e) + set x | x in ks
    decreases ks
  {
    if ks == [] then e
    else
      assert (set x | x in ks) == {ks[0]} + set x | x in ks[1..] by {
        assert ks == [ks[0]] + ks[1..];
      }
      Update(Add(e, ks[0], 1), ks[1..])
  }

  /** Each key's count grows by its number of occurrences, the total by the
      number of keys, and the keys stay distinct. */
  lemma {:induction false} UpdateFacts<K>(e: seq<(K, nat)>, ks: seq<K>)
    ensures forall j :: Get(Update(e, ks), j) == Get(e, j) + Occurrences(ks, j)
    ensures Total(Update(e, ks)) == Total(e) + |ks|
    ensures DistinctKeys(e) ==> DistinctKeys(Update(e, ks))
    decreases ks
  {
    if ks != [] {
      AddFacts(e, ks[0], 1);
      UpdateFacts(Add(e, ks[0], 1), ks[1..]);
    }
  }

  /** Updating with two key lists in turn is updating with their concatenation. */
  lemma {:induction false} UpdateAppend<K>(e: seq<(K, nat)>, a: seq<K>, b: seq<K>)
    ensures Update(Update(e, a), b) == Update(e, a + b)
    decreases a
  {
    if a == [] {
      assert a + b == b;
    } else {
      assert (a + b)[0] == a[0] && (a + b)[1..] == a[1..] + b;
      UpdateAppend(Add(e, a[0], 1), a[1..], b);
    }
  }

  /** `counter.update(other)` with a mapping: the counts of `f` are added
      key by key, in `f`'s order. */
  function UpdateFrom<K(==)>(e: seq<(K, nat)>, f: seq<(K, nat)>): (r: seq<(K, nat)>)
    ensures Keys(r) == Keys(e) + Keys(f)
    decreases f
  {
    if f == [] then e else UpdateFrom(Add(e, f[0].0, f[0].1), f[1..])
  }

  /** Merging adds the counts key by key and adds the totals. */
  lemma {:induction false} UpdateFromFacts<K>(e: seq<(K, nat)>, f: seq<(K, nat)>)
    requires DistinctKeys(f)
    ensures forall j :: Get(UpdateFrom(e, f), j) == Get(e, j) + Get(f, j)
    ensures Total(UpdateFrom(e, f)) == Total(e) + Total(f)
    ensures DistinctKeys(e) ==> DistinctKeys(UpdateFrom(e, f))
    decreases f
  {
    if f != [] {
      AddFacts(e, f[0].0, f[0].1);
      UpdateFromFacts(Add(e, f[0].0, f[0].1), f[1..]);
      GetAbsent(f[1..], f[0].0);
    }
  }

  /** A fresh counter over `ks`: `Counter(ks)`. */
  function CountOf<K(==,!new)>(ks: seq<K>): (r: seq<(K, nat)>)
    ensures forall j :: Get(r, j) == Occurrences(ks, j)
    ensures Keys(r) == set x | x in ks
    ensures Total(r) == |ks|
    ensures DistinctKeys(r) && Positive(r)
  {
    UpdateFacts([], ks);
    UpdatePositive([], ks);
    Update([], ks)
  }

  /** The counter as a map, forgetting the insertion order. */
  function AsMap<K(==)>(e: seq<(K, nat)>): (m: map<K, nat>)
    ensures m.Keys == Keys(e)
    ensures forall k :: k in m ==> m[k] == Get(e, k)
  {
    map k | k in Keys(e) :: Get(e, k)
  }

  /** Removing the entries of some keys (`del counter[k]` for each); the
      remaining entries keep their order. */
  function Remove<K(==)>(e: seq<(K, nat)>, gone: set<K>): (r: seq<(K, nat)>)
    ensures Keys(r) == Keys(e) - gone
    ensures forall x :: x in r ==> x in e
  {
    if e == [] then []
    else if e[0].0 in gone then Remove(e[1..], gone)
    else
      var r := [e[0]] + Remove(e[1..], gone);
      assert r[1..] == Remove(e[1..], gone);
      r
  }

  /** Removal keeps the keys distinct and every surviving count. */
  lemma {:induction false} RemoveFacts<K>(e: seq<(K, nat)>, gone: set<K>)
    requires DistinctKeys(e)
    ensures DistinctKeys(Remove(e, gone))
    ensures forall k :: Get(Remove(e, gone), k) == if k in gone then 0 else Get(e, k)
    ensures Total(Remove(e, gone)) <= Total(e)
  {
    if e != [] {
      RemoveFacts(e[1..], gone);
      var r := Remove(e, gone);
      if e[0].0 !in gone {
        assert r[1..] == Remove(e[1..], gone);
      } else {
        GetAbsent(r, e[0].0);
      }
    }
  }

  // ---- positive counts

  /** Every entry holds a positive count, as in a `Counter` that was only
      ever incremented. */
  ghost predicate Positive<K>(e: seq<(K, nat)>) {
    forall x :: x in e ==> x.1 > 0
  }

  /** In a counter with positive counts, the keys are exactly the keys with
      a positive count. */
  lemma KeysByCount<K>(e: seq<(K, nat)>)
    requires Positive(e)
    ensures forall k :: k in Keys(e) <==> Get(e, k) > 0
  {
    forall k ensures k in Keys(e) <==> Get(e, k) > 0 {
      if k in Keys(e) {
        GetPositive(e, k);
      } else {
        GetAbsent(e, k);
      }
    }
  }

  lemma {:induction false} AddPositive<K>(e: seq<(K, nat)>, k: K, n: nat)
    requires Positive(e) && n > 0
    ensures Positive(Add(e, k, n))
  {
    if e != [] && e[0].0 != k {
      assert forall x :: x in e[1..] ==> x in e;
      AddPositive(e[1..], k, n);
    }
  }

  lemma {:induction false} UpdatePositive<K>(e: seq<(K, nat)>, ks: seq<K>)
    requires Positive(e)
    ensures Positive(Update(e, ks))
    decreases ks
  {
    if ks != [] {
      AddPositive(e, ks[0], 1);
      UpdatePositive(Add(e, ks[0], 1), ks[1..]);
    }
  }

  lemma {:induction false} UpdateFromPositive<K>(e: seq<(K, nat)>, f: seq<(K, nat)>)
    requires Positive(e) && Positive(f)
    ensures Positive(UpdateFrom(e, f))
    decreases f
  {
    if f != [] {
      assert f[0] in f;
      assert forall x :: x in f[1..] ==> x in f;
      AddPositive(e, f[0].0, f[0].1);
      UpdateFromPositive(Add(e, f[0].0, f[0].1), f[1..]);
    }
  }

  // ---- merging several counters

  /** Taking out the item at `j` takes one copy of it out of the multiset. */
  lemma MultisetRemoveAt<T>(b: seq<T>, j: nat)
    requires j < |b|
    ensures b == b[..j] + [b[j]] + b[j + 1..]
    ensures multiset(b[..j] + b[j + 1..]) == multiset(b) - multiset{b[j]}
  {
    assert b == b[..j] + [b[j]] + b[j + 1..];
    assert multiset(b) == multiset(b[..j]) + multiset{b[j]} + multiset(b[j + 1..]);
  }

  /** Taking out the first item of two lists with the same multiset. */
  lemma MultisetMatchFirst<T>(a: seq<T>, b: seq<T>) returns (j: nat)
    requires a != [] && multiset(a) == multiset(b)
    ensures j < |b| && b[j] == a[0]
    ensures b == b[..j] + [b[j]] + b[j + 1..]
    ensures multiset(a[1..]) == multiset(b[..j] + b[j + 1..])
  {
    assert a[0] in multiset(b);
    j :| 0 <= j < |b| && b[j] == a[0];
    MultisetRemoveAt(b, j);
    assert a == [a[0]] + a[1..];
    assert multiset(a[1..]) == multiset(a) - multiset{a[0]};
  }

  /** The count of `k` summed over several counters. */
  function CountSum<K(==)>(rs: seq<seq<(K, nat)>>, k: K): nat {
    if rs == [] then 0 else Get(rs[0], k) + CountSum(rs[1..], k)
  }

  lemma {:induction false} CountSumAppend<K>(a: seq<seq<(K, nat)>>, b: seq<seq<(K, nat)>>, k: K)
    ensures CountSum(a + b, k) == CountSum(a, k) + CountSum(b, k)
  {
    if a == [] {
      assert a + b == b;
    } else {
      assert (a + b)[0] == a[0] && (a + b)[1..] == a[1..] + b;
      CountSumAppend(a[1..], b, k);
    }
  }

  /** The summed count does not depend on the order of the counters. */
  lemma {:induction false} CountSumPermutation<K>(a: seq<seq<(K, nat)>>, b: seq<seq<(K, nat)>>, k: K)
    requires multiset(a) == multiset(b)
    ensures CountSum(a, k) == CountSum(b, k)
    decreases |a|
  {
    if a == [] {
      assert |multiset(b)| == 0;
    } else {
      var j := MultisetMatchFirst(a, b);
      CountSumPermutation(a[1..], b[..j] + b[j + 1..], k);
      CountSumAppend(b[..j], b[j + 1..], k);
      CountSumAppend(b[..j] + [b[j]], b[j + 1..], k);
      CountSumAppend(b[..j], [b[j]], k);
    }
  }

  /** Merging counters one after the other, each with `counter.update(other)`. */
  function MergeAll<K(==)>(acc: seq<(K, nat)>, rs: seq<seq<(K, nat)>>): seq<(K, nat)>
    decreases rs
  {
    if rs == [] then acc else MergeAll(UpdateFrom(acc, rs[0]), rs[1..])
  }

  /** Merging adds up the counts of every key over all merged counters, keeps
      the keys distinct and the counts positive. */
  lemma {:induction false} MergeAllFacts<K>(acc: seq<(K, nat)>, rs: seq<seq<(K, nat)>>)
    requires forall r :: r in rs ==> DistinctKeys(r)
    ensures forall k :: Get(MergeAll(acc, rs), k) == Get(acc, k) + CountSum(rs, k)
    ensures DistinctKeys(acc) ==> DistinctKeys(MergeAll(acc, rs))
    ensures Positive(acc) && (forall r :: r in rs ==> Positive(r)) ==> Positive(MergeAll(acc, rs))
    decreases rs
  {
    if rs != [] {
      assert rs[0] in rs;
      assert forall r :: r in rs[1..] ==> r in rs;
      UpdateFromFacts(acc, rs[0]);
      if Positive(acc) && (forall r :: r in rs ==> Positive(r)) {
        UpdateFromPositive(acc, rs[0]);
      }
      MergeAllFacts(UpdateFrom(acc, rs[0]), rs[1..]);
    }
  }

  /** Merging one more counter is one more `update`. */
  lemma {:induction false} MergeAllAppend<K>(acc: seq<(K, nat)>, rs: seq<seq<(K, nat)>>, r: seq<(K, nat)>)
    ensures MergeAll(acc, rs + [r]) == UpdateFrom(MergeAll(acc, rs), r)
    decreases rs
  {
    if rs == [] {
      assert rs + [r] == [r];
    } else {
      assert (rs + [r])[0] == rs[0] && (rs + [r])[1..] == rs[1..] + [r];
      MergeAllAppend(UpdateFrom(acc, rs[0]), rs[1..], r);
    }
  }

  /** Counters with positive counts and the same counts have the same keys. */
  lemma SameCountsSameKeys<K(!new)>(e: seq<(K, nat)>, f: seq<(K, nat)>)
    requires Positive(e) && Positive(f)
    requires forall k :: Get(e, k) == Get(f, k)
    ensures Keys(e) == Keys(f)
  {
    KeysByCount(e);
    KeysByCount(f);
    forall k ensures k in Keys(e) <==> k in Keys(f) {
      assert Get(e, k) == Get(f, k);
      assert k in Keys(e) <==> Get(e, k) > 0;
      assert k in Keys(f) <==> Get(f, k) > 0;
    }
    assert Keys(e) == Keys(f);
  }
}
