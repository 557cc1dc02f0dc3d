/** The chunked mention query: the `content` column is cut into
    `4 * cpu_count` pieces, each piece's mentions are counted by a worker,
    the per-piece counts are summed key by key (pandas sorts the keys) and
    the 10 largest are returned. */
module MentionsTime {
  import opened Common
  import opened Counters
  import opened Ranking
  import opened KeySort
  import opened MentionPattern
  import opened Chunking

  /** `process_chunk_parallel`: the chunk's mentions gathered with `extend`,
      then counted. Each mention's count is its number of occurrences, and
      the counts add up to the number of mentions extracted. */
  method ProcessChunkParallel(chunk: seq<Value>) returns (counts: seq<(string, nat)>)
    ensures DistinctKeys(counts) && Positive(counts)
    ensures forall k :: Get(counts, k) == Occurrences(AllMentions(chunk), k)
    ensures Total(counts) == |AllMentions(chunk)|
  {
    var mentions: seq<string> := [];
    for i := 0 to |chunk|
      invariant mentions == AllMentions(chunk[..i])
    {
      assert chunk[..i + 1] == chunk[..i] + [chunk[i]];
      AllMentionsAppend(chunk[..i], [chunk[i]]);
      assert AllMentions([chunk[i]]) == ExtractMentionsFast(chunk[i]) + AllMentions([]);
      mentions := mentions + ExtractMentionsFast(chunk[i]);
    }
    assert chunk[..|chunk|] == chunk;
    counts := CountOf(mentions);
  }

  /** `pd.concat(results).groupby(level=0).sum()`: every mention's counts
      summed over the chunk results, keys in ascending string order. */
  function CombineCounts(results: seq<seq<(string, nat)>>): (r: seq<(string, nat)>)
    requires forall c :: c in results ==> DistinctKeys(c)
    ensures Ascending(r, StrLess) && DistinctKeys(r)
    ensures forall k :: Get(r, k) == CountSum(results, k)
  {
    MergeAllFacts([], results);
    StrLessOrder();
    SortByKeyFacts(MergeAll([], results), StrLess);
    SortByKeyCounts(MergeAll([], results), StrLess);
    SortByKey(MergeAll([], results), StrLess)
  }

  /** `imap_unordered` may hand the chunk results back in any order; the
      combined counts, keys and their order included, are the same. */
  lemma CombineOrderFree(a: seq<seq<(string, nat)>>, b: seq<seq<(string, nat)>>)
    requires forall c :: c in a ==> DistinctKeys(c) && Positive(c)
    requires multiset(a) == multiset(b)
    ensures forall c :: c in b ==> DistinctKeys(c)
    ensures CombineCounts(a) == CombineCounts(b)
  {
    assert forall c :: c in b ==> c in multiset(a);
    MergeAllFacts([], a);
    MergeAllFacts([], b);
    forall k ensures Get(MergeAll([], a), k) == Get(MergeAll([], b), k) {
      CountSumPermutation(a, b, k);
    }
    StrLessOrder();
    SameCountsSameSort(MergeAll([], a), MergeAll([], b), StrLess);
  }

  /** Summing the counts of the pieces is counting over the whole column. */
  lemma {:induction false} ChunkSumsAddUp(chunks: seq<seq<Value>>, counts: seq<seq<(string, nat)>>, k: string)
    requires |counts| == |chunks|
    requires forall j :: 0 <= j < |chunks| ==> Get(counts[j], k) == Occurrences(AllMentions(chunks[j]), k)
    ensures CountSum(counts, k) == Occurrences(AllMentions(Concat(chunks)), k)
  {
    if chunks != [] {
      ChunkSumsAddUp(chunks[1..], counts[1..], k);
      AllMentionsAppend(chunks[0], Concat(chunks[1..]));
      OccurrencesAppend(AllMentions(chunks[0]), AllMentions(Concat(chunks[1..])), k);
    }
  }

  /** Counting the pieces and combining the counts in chunk order gives the
      key-sorted counts of the whole column. */
  lemma ChunkedEqualsWhole(column: seq<Value>, chunks: seq<seq<Value>>, counts: seq<seq<(string, nat)>>)
    requires Concat(chunks) == column && |counts| == |chunks|
    requires forall c :: c in counts ==> DistinctKeys(c) && Positive(c)
    requires forall j, k :: 0 <= j < |counts| ==> Get(counts[j], k) == Occurrences(AllMentions(chunks[j]), k)
    ensures CombineCounts(counts) == SortByKey(CountOf(AllMentions(column)), StrLess)
  {
    var whole := CountOf(AllMentions(column));
    MergeAllFacts([], counts);
    forall k ensures Get(MergeAll([], counts), k) == Get(whole, k) {
      ChunkSumsAddUp(chunks, counts, k);
    }
    StrLessOrder();
    SameCountsSameSort(MergeAll([], counts), whole, StrLess);
  }

  /** `q3_time` on the decoded column (`None` when there is no `content`
      column) with `cpuCount` processors, the workers' results arriving in
      the order `arrival` (every chunk index once). A missing column and a
      processor count below 1 raise; otherwise the answer is the 10 largest
      mention counts over the whole column, ties in ascending mention
      order, whatever the arrival order. */
  method Q3Time(content: Option<seq<Value>>, cpuCount: int, arrival: seq<nat>) returns (r: Result<seq<(string, nat)>>)
    requires cpuCount >= 1 ==> multiset(arrival) == multiset(Range(cpuCount * 4))
    ensures content.None? ==> r == Err(MissingColumns(["content"]))
    ensures content.Some? && cpuCount < 1 ==> r == Err(NoChunks)
    ensures content.Some? && cpuCount >= 1 ==>
      r == Ok(Largest(SortByKey(CountOf(AllMentions(content.value)), StrLess), 10))
    ensures r.Ok? ==> |r.value| <= 10 && NonIncreasing(r.value)
  {
    if content.None? {
      return Err(MissingColumns(["content"]));
    }
    var split := ArraySplit(content.value, cpuCount * 4);
    if split.Err? {
      return Err(split.failure);
    }
    var chunks := split.value;
    var counts := CountPieces(chunks);
    ArrivalIsPermutation(counts, arrival);
    var results := Arrange(counts, arrival);
    CombineOrderFree(counts, results);
    ChunkedEqualsWhole(content.value, chunks, counts);
    r := Ok(Largest(CombineCounts(results), 10));
  }

  /** The submissions to the pool: every chunk counted by
      `process_chunk_parallel`, in chunk order. */
  method CountPieces(chunks: seq<seq<Value>>) returns (counts: seq<seq<(string, nat)>>)
    ensures |counts| == |chunks|
    ensures forall c :: c in counts ==> DistinctKeys(c) && Positive(c)
    ensures forall j, k :: 0 <= j < |counts| ==> Get(counts[j], k) == Occurrences(AllMentions(chunks[j]), k)
  {
    counts := [];
    for i := 0 to |chunks|
      invariant |counts| == i
      invariant forall c :: c in counts ==> DistinctKeys(c) && Positive(c)
      invariant forall j, k :: 0 <= j < i ==> Get(counts[j], k) == Occurrences(AllMentions(chunks[j]), k)
    {
      var c := ProcessChunkParallel(chunks[i]);
      counts := counts + [c];
    }
  }
}
