/** Ascending order of keys, as pandas `groupby` (which sorts its group keys)
    and Python's `sorted`/`max` on dates and strings use it. A comparator is a
    function `less` that must be a strict total order on the keys. */
module KeySort {
  import opened Counters

  /** `less` is irreflexive, transitive and total on distinct keys. */
  ghost predicate StrictTotalOrder<K(!new)>(less: (K, K) -> bool) {
    (forall a :: !less(a, a)) &&
    (forall a, b, c :: less(a, b) && less(b, c) ==> less(a, c)) &&
    (forall a, b :: a != b ==> less(a, b) || less(b, a))
  }

  /** Dates are day ordinals, compared as integers. */
  predicate IntLess(a: int, b: int) {
    a < b
  }

  /** Python's `str.__lt__`: lexicographic by code point, a proper prefix first. */
  predicate StrLess(a: string, b: string) {
    if a == [] then b != []
    else if b == [] then false
    else if a[0] != b[0] then a[0] < b[0]
    else StrLess(a[1..], b[1..])
  }

  lemma IntLessOrder()
    ensures StrictTotalOrder(IntLess)
  {
  }

  lemma {:induction false} StrLessIrreflexive(a: string)
    ensures !StrLess(a, a)
  {
    if a != [] {
      StrLessIrreflexive(a[1..]);
    }
  }

  lemma {:induction false} StrLessTransitive(a: string, b: string, c: string)
    requires StrLess(a, b) && StrLess(b, c)
    ensures StrLess(a, c)
  {
    if a != [] && b != [] && c != [] && a[0] == b[0] && b[0] == c[0] {
      StrLessTransitive(a[1..], b[1..], c[1..]);
    }
  }

  lemma {:induction false} StrLessTotal(a: string, b: string)
    requires a != b
    ensures StrLess(a, b) || StrLess(b, a)
  {
    if a != [] && b != [] && a[0] == b[0] {
      assert a == [a[0]] + a[1..] && b == [b[0]] + b[1..];
      StrLessTotal(a[1..], b[1..]);
    }
  }

  /** Lexicographic string order is a strict total order. */
  lemma StrLessOrder()
    ensures StrictTotalOrder(StrLess)
  {
    forall a ensures !StrLess(a, a) {
      StrLessIrreflexive(a);
    }
    forall a, b, c | StrLess(a, b) && StrLess(b, c) ensures StrLess(a, c) {
      StrLessTransitive(a, b, c);
    }
    forall a, b | a != b ensures StrLess(a, b) || StrLess(b, a) {
      StrLessTotal(a, b);
    }
  }

  /** Keys strictly increase along the list. */
  ghost predicate Ascending<K>(s: seq<(K, nat)>, less: (K, K) -> bool) {
    forall i, j :: 0 <= i < j < |s| ==> less(s[i].0, s[j].0)
  }

  /** The number of leading entries of `t` whose key is below `k`. */
  function Below<K>(k: K, t: seq<(K, nat)>, less: (K, K) -> bool): (p: nat)
    ensures p <= |t|
    ensures forall i :: 0 <= i < p ==> less(t[i].0, k)
    ensures p < |t| ==> !less(t[p].0, k)
  {
    if t == [] || !less(t[0].0, k) then 0 else 1 + Below(k, t[1..], less)
  }

  function InsertByKey<K>(x: (K, nat), t: seq<(K, nat)>, less: (K, K) -> bool): seq<(K, nat)> {
    var p := Below(x.0, t, less);
    t[..p] + [x] + t[p..]
  }

  /** Insertion sort by key, ascending. */
  function SortByKey<K>(s: seq<(K, nat)>, less: (K, K) -> bool): (r: seq<(K, nat)>)
    ensures |r| == |s|
  {
    if s == [] then [] else InsertByKey(s[0], SortByKey(s[1..], less), less)
  }

  /** Splicing an entry in anywhere adds its key and its count. */
  lemma SpliceKeys<K>(x: (K, nat), t: seq<(K, nat)>, p: nat)
    requires p <= |t|
    ensures Keys(t[..p] + [x] + t[p..]) == Keys(t) + {x.0}
    ensures Total(t[..p] + [x] + t[p..]) == Total(t) + x.1
    ensures DistinctKeys(t) && x.0 !in Keys(t) ==> DistinctKeys(t[..p] + [x] + t[p..])
  {
    assert t[..p] + t[p..] == t;
    KeysAppend(t[..p], t[p..]);
    KeysAppend(t[..p] + [x], t[p..]);
    KeysAppend(t[..p], [x]);
    TotalAppend(t[..p], t[p..]);
    TotalAppend(t[..p] + [x], t[p..]);
    TotalAppend(t[..p], [x]);
    assert Keys([x]) == {x.0};
    if DistinctKeys(t) && x.0 !in Keys(t) {
      DistinctAppend(t[..p], t[p..]);
      DistinctAppend(t[..p] + [x], t[p..]);
      DistinctAppend(t[..p], [x]);
    }
  }

  lemma InsertByKeyAscending<K(!new)>(x: (K, nat), t: seq<(K, nat)>, less: (K, K) -> bool)
    requires StrictTotalOrder(less) && Ascending(t, less) && x.0 !in Keys(t)
    ensures Ascending(InsertByKey(x, t, less), less)
  {
    var p := Below(x.0, t, less);
    var r := InsertByKey(x, t, less);
    KeysMembers(t);
    assert forall i :: p < i < |r| ==> r[i] == t[i - 1];
    assert forall i :: 0 <= i < p ==> r[i] == t[i];
    if p < |t| {
      assert t[p] in t;
      assert less(x.0, t[p].0);
    }
  }

  /** Sorting by key keeps the keys, the total and distinct keys, and (with
      distinct keys and a strict total order) the keys come out ascending. */
  lemma {:induction false} SortByKeyFacts<K(!new)>(s: seq<(K, nat)>, less: (K, K) -> bool)
    ensures Keys(SortByKey(s, less)) == Keys(s)
    ensures Total(SortByKey(s, less)) == Total(s)
    ensures DistinctKeys(s) ==> DistinctKeys(SortByKey(s, less))
    ensures StrictTotalOrder(less) && DistinctKeys(s) ==> Ascending(SortByKey(s, less), less)
  {
    if s != [] {
      var t := SortByKey(s[1..], less);
      SortByKeyFacts(s[1..], less);
      SpliceKeys(s[0], t, Below(s[0].0, t, less));
      if StrictTotalOrder(less) && DistinctKeys(s) {
        InsertByKeyAscending(s[0], t, less);
      }
    }
  }

  /** With distinct keys, sorting by key keeps every key's count. */
  lemma {:induction false} SortByKeyCounts<K(!new)>(s: seq<(K, nat)>, less: (K, K) -> bool)
    requires DistinctKeys(s)
    ensures forall k :: Get(SortByKey(s, less), k) == Get(s, k)
  {
    var r := SortByKey(s, less);
    SortByKeyFacts(s, less);
    forall k ensures Get(r, k) == Get(s, k) {
      if k in Keys(s) {
        KeysMembers(s);
        var x :| x in s && x.0 == k;
        EntryKept(s, less, x);
        GetEntry(s, x);
        GetEntry(r, x);
      } else {
        GetAbsent(s, k);
        GetAbsent(r, k);
      }
    }
  }

  /** Every entry of the input is an entry of the sorted list. */
  lemma {:induction false} EntryKept<K>(s: seq<(K, nat)>, less: (K, K) -> bool, x: (K, nat))
    requires x in s
    ensures x in SortByKey(s, less)
  {
    var t := SortByKey(s[1..], less);
    var p := Below(s[0].0, t, less);
    assert t[..p] + t[p..] == t;
    if x != s[0] {
      assert x in s[1..] by {
        assert s == [s[0]] + s[1..];
      }
      EntryKept(s[1..], less, x);
      assert x in t[..p] || x in t[p..];
    }
  }

  /** Ascending keys are distinct keys. */
  lemma {:induction false} AscendingDistinct<K(!new)>(s: seq<(K, nat)>, less: (K, K) -> bool)
    requires StrictTotalOrder(less) && Ascending(s, less)
    ensures DistinctKeys(s)
  {
    if s != [] {
      AscendingDistinct(s[1..], less);
      forall x | x in s[1..] ensures x.0 != s[0].0 {
        var i :| 0 <= i < |s[1..]| && s[1..][i] == x;
        assert less(s[0].0, s[i + 1].0);
      }
      KeysMembers(s[1..]);
    }
  }

  /** Two non-empty lists with ascending keys over the same key set start
      with the same key. */
  lemma SameFirstKey<K(!new)>(a: seq<(K, nat)>, b: seq<(K, nat)>, less: (K, K) -> bool)
    requires StrictTotalOrder(less) && Ascending(a, less) && Ascending(b, less)
    requires a != [] && b != [] && Keys(a) == Keys(b)
    ensures a[0].0 == b[0].0
  {
    KeysMembers(a);
    KeysMembers(b);
    assert a[0] in a && b[0] in b;
    var x, y := a[0].0, b[0].0;
    var ey :| ey in a && ey.0 == y;
    var i :| 0 <= i < |a| && a[i] == ey;
    var ex :| ex in b && ex.0 == x;
    var j :| 0 <= j < |b| && b[j] == ex;
    assert i > 0 ==> less(x, y);
    assert j > 0 ==> less(y, x);
  }

  /** Two lists with ascending keys and the same counts are the same list:
      the sorted form of a counter does not depend on its insertion order. */
  lemma {:induction false} AscendingUnique<K(!new)>(a: seq<(K, nat)>, b: seq<(K, nat)>, less: (K, K) -> bool)
    requires StrictTotalOrder(less) && Ascending(a, less) && Ascending(b, less)
    requires Keys(a) == Keys(b) && forall k :: Get(a, k) == Get(b, k)
    ensures a == b
  {
    KeysEmpty(a);
    KeysEmpty(b);
    if a != [] {
      SameFirstKey(a, b, less);
      var x := a[0].0;
      assert Get(a, x) == Get(b, x);
      assert a[0] == b[0];
      AscendingDistinct(a, less);
      AscendingDistinct(b, less);
      forall k ensures Get(a[1..], k) == Get(b[1..], k) {
        assert Get(a, k) == Get(b, k);
        if k == x {
          GetAbsent(a[1..], k);
          GetAbsent(b[1..], k);
        }
      }
      assert Keys(a[1..]) == Keys(a) - {x};
      assert Keys(b[1..]) == Keys(b) - {x};
      AscendingUnique(a[1..], b[1..], less);
      assert a == [a[0]] + a[1..] && b == [b[0]] + b[1..];
    }
  }

  /** Every entry of the sorted list comes from the input. */
  lemma {:induction false} EntryFromInput<K>(s: seq<(K, nat)>, less: (K, K) -> bool, x: (K, nat))
    requires x in SortByKey(s, less)
    ensures x in s
  {
    var t := SortByKey(s[1..], less);
    var p := Below(s[0].0, t, less);
    assert t[..p] + t[p..] == t;
    if x != s[0] {
      assert x in t[..p] || x in t[p..];
      EntryFromInput(s[1..], less, x);
      assert s == [s[0]] + s[1..];
    }
  }

  /** The key-sorted form of a counter with positive counts depends only on
      its counts, not on the order in which its keys were inserted. */
  lemma SameCountsSameSort<K(!new)>(a: seq<(K, nat)>, b: seq<(K, nat)>, less: (K, K) -> bool)
    requires StrictTotalOrder(less)
    requires DistinctKeys(a) && DistinctKeys(b) && Positive(a) && Positive(b)
    requires forall k :: Get(a, k) == Get(b, k)
    ensures SortByKey(a, less) == SortByKey(b, less)
  {
    var sa, sb := SortByKey(a, less), SortByKey(b, less);
    SortByKeyFacts(a, less);
    SortByKeyFacts(b, less);
    SortByKeyCounts(a, less);
    SortByKeyCounts(b, less);
    KeysByCount(a);
    KeysByCount(b);
    AscendingUnique(sa, sb, less);
  }
}
