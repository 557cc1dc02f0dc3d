/** `np.array_split(values, n)`: cutting a column into `n` contiguous pieces
    of nearly equal size, as both chunked pipelines do before handing the
    pieces to worker processes. */
module Chunking {
  import opened Common
  import opened Counters

  /** The pieces glued back together. */
  function Concat<T>(ss: seq<seq<T>>): seq<T> {
    if ss == [] then [] else ss[0] + Concat(ss[1..])
  }

  lemma {:induction false} ConcatAppend<T>(a: seq<seq<T>>, b: seq<seq<T>>)
    ensures Concat(a + b) == Concat(a) + Concat(b)
  {
    if a == [] {
      assert a + b == b;
    } else {
      assert (a + b)[0] == a[0] && (a + b)[1..] == a[1..] + b;
      ConcatAppend(a[1..], b);
    }
  }

  function SumSizes(sizes: seq<nat>): nat {
    if sizes == [] then 0 else sizes[0] + SumSizes(sizes[1..])
  }

  /** numpy's section sizes for `divmod(len, n) == (each, extras)`: the first
      `extras` sections hold one item more than the others. */
  function SectionSizes(each: nat, extras: nat, n: nat): (sizes: seq<nat>)
    ensures |sizes| == n
    ensures forall i :: 0 <= i < n ==> sizes[i] == each + if i < extras then 1 else 0
    decreases n
  {
    if n == 0 then []
    else [each + if extras > 0 then 1 else 0] + SectionSizes(each, if extras > 0 then extras - 1 else 0, n - 1)
  }

  /** The sections hold `n * each + extras` items in all. */
  lemma {:induction false} SectionSizesSum(each: nat, extras: nat, n: nat)
    requires extras <= n
    ensures SumSizes(SectionSizes(each, extras, n)) == n * each + extras
    decreases n
  {
    if n > 0 {
      var rest := if extras > 0 then extras - 1 else 0;
      SectionSizesSum(each, rest, n - 1);
      assert SectionSizes(each, extras, n)[1..] == SectionSizes(each, rest, n - 1);
      assert (n - 1) * each + each == n * each;
    }
  }

  /** Consecutive pieces of the given sizes. */
  function Cut<T>(xs: seq<T>, sizes: seq<nat>): (pieces: seq<seq<T>>)
    requires SumSizes(sizes) == |xs|
    ensures |pieces| == |sizes|
    ensures forall i :: 0 <= i < |sizes| ==> |pieces[i]| == sizes[i]
    ensures Concat(pieces) == xs
    decreases sizes
  {
    if sizes == [] then []
    else
      var rest := Cut(xs[sizes[0]..], sizes[1..]);
      var pieces := [xs[..sizes[0]]] + rest;
      assert pieces[1..] == rest;
      assert xs == xs[..sizes[0]] + xs[sizes[0]..];
      pieces
  }

  /** `np.array_split(xs, n)`: exactly `n` pieces that glue back to `xs`, the
      first `|xs| % n` of them one item longer than `|xs| / n`; a number of
      sections below 1 raises. */
  function ArraySplit<T>(xs: seq<T>, n: int): (r: Result<seq<seq<T>>>)
    ensures r.Err? <==> n <= 0
    ensures r.Err? ==> r.failure == NoChunks
    ensures r.Ok? ==> |r.value| == n && Concat(r.value) == xs
    ensures r.Ok? ==> forall i :: 0 <= i < n ==> |r.value[i]| == |xs| / n + if i < |xs| % n then 1 else 0
  {
    if n <= 0 then Err(NoChunks)
    else
      SectionSizesSum(|xs| / n, |xs| % n, n);
      Ok(Cut(xs, SectionSizes(|xs| / n, |xs| % n, n)))
  }

  /** No two pieces differ in length by more than one. */
  lemma ArraySplitBalanced<T>(xs: seq<T>, n: int, i: nat, j: nat)
    requires n > 0 && i < n && j < n
    ensures -1 <= |ArraySplit(xs, n).value[i]| - |ArraySplit(xs, n).value[j]| <= 1
  {
  }

  /** The indices `0, 1, ..., n - 1`, in order. */
  function Range(n: nat): (r: seq<nat>)
    ensures |r| == n && forall i :: 0 <= i < n ==> r[i] == i
  {
    seq(n, i => i)
  }

  /** Every index is below `n`. */
  predicate IndicesBelow(order: seq<nat>, n: nat) {
    forall i :: 0 <= i < |order| ==> order[i] < n
  }

  /** The items of `xs` taken in the order of the indices `order`, as results
      come back from a worker pool. */
  function Arrange<T>(xs: seq<T>, order: seq<nat>): (r: seq<T>)
    requires IndicesBelow(order, |xs|)
    ensures |r| == |order| && forall i :: 0 <= i < |order| ==> r[i] == xs[order[i]]
  {
    if order == [] then [] else [xs[order[0]]] + Arrange(xs, order[1..])
  }

  lemma ArrangeAppend<T>(xs: seq<T>, p: seq<nat>, q: seq<nat>)
    requires IndicesBelow(p + q, |xs|)
    ensures IndicesBelow(p, |xs|) && IndicesBelow(q, |xs|)
    ensures Arrange(xs, p + q) == Arrange(xs, p) + Arrange(xs, q)
  {
    assert forall i :: 0 <= i < |p| ==> p[i] == (p + q)[i];
    assert forall i :: 0 <= i < |q| ==> q[i] == (p + q)[|p| + i];
  }

  /** Taking every index once, in order, gives the list back. */
  lemma ArrangeRange<T>(xs: seq<T>)
    ensures Arrange(xs, Range(|xs|)) == xs
  {
  }

  /** Two orders that take the same indices give the same items. */
  lemma {:induction false} ArrangePermutation<T>(xs: seq<T>, p: seq<nat>, q: seq<nat>)
    requires IndicesBelow(p, |xs|)
    requires multiset(p) == multiset(q)
    ensures IndicesBelow(q, |xs|)
    ensures multiset(Arrange(xs, p)) == multiset(Arrange(xs, q))
    decreases |p|
  {
    forall i | 0 <= i < |q| ensures q[i] < |xs| {
      assert q[i] in multiset(p);
    }
    if p == [] {
      assert |multiset(q)| == 0;
    } else {
      var i := MultisetMatchFirst(p, q);
      var rest := q[..i] + q[i + 1..];
      ArrangePermutation(xs, p[1..], rest);
      ArrangeAppend(xs, q[..i], q[i + 1..]);
      ArrangeAppend(xs, q[..i] + [q[i]], q[i + 1..]);
      ArrangeAppend(xs, q[..i], [q[i]]);
      assert Arrange(xs, p) == [xs[p[0]]] + Arrange(xs, p[1..]);
    }
  }

  lemma {:induction false} SumSizesAppend(a: seq<nat>, b: seq<nat>)
    ensures SumSizes(a + b) == SumSizes(a) + SumSizes(b)
  {
    if a == [] {
      assert a + b == b;
    } else {
      assert (a + b)[0] == a[0] && (a + b)[1..] == a[1..] + b;
      SumSizesAppend(a[1..], b);
    }
  }

  /** A sum of sizes does not depend on their order. */
  lemma {:induction false} SumSizesPermutation(a: seq<nat>, b: seq<nat>)
    requires multiset(a) == multiset(b)
    ensures SumSizes(a) == SumSizes(b)
    decreases |a|
  {
    if a == [] {
      assert |multiset(b)| == 0;
    } else {
      var j := MultisetMatchFirst(a, b);
      SumSizesPermutation(a[1..], b[..j] + b[j + 1..]);
      SumSizesAppend(b[..j], b[j + 1..]);
      SumSizesAppend(b[..j] + [b[j]], b[j + 1..]);
      SumSizesAppend(b[..j], [b[j]]);
    }
  }

  /** Results arriving in any order of the chunk indices are the chunk
      results, permuted. */
  lemma ArrivalIsPermutation<T>(counts: seq<T>, arrival: seq<nat>)
    requires multiset(arrival) == multiset(Range(|counts|))
    ensures IndicesBelow(arrival, |counts|)
    ensures multiset(Arrange(counts, arrival)) == multiset(counts)
  {
    assert IndicesBelow(Range(|counts|), |counts|);
    ArrangePermutation(counts, Range(|counts|), arrival);
    ArrangeRange(counts);
  }
}
