/** The chunked emoji query: the `content` column is cut into pieces of at
    least 1000 rows, a pool of worker processes counts each piece's emojis,
    the piece counters are added into one counter as the workers finish,
    and its 10 most common emojis are returned. */
module EmojisTime {
  import opened Common
  import opened Counters
  import opened Ranking
  import opened Chunking
  import opened EmojisMemory

  /** `process_chunk`: the emojis of the string values of a piece, counted
      in first-seen order; other values are skipped. */
  method ProcessChunk(texts: seq<Value>, isEmoji: char -> bool) returns (counts: seq<(char, nat)>)
    ensures counts == Update([], AllEmojis(texts, isEmoji))
    ensures DistinctKeys(counts) && Positive(counts)
    ensures forall k :: Get(counts, k) == Occurrences(AllEmojis(texts, isEmoji), k)
  {
    counts := [];
    for i := 0 to |texts|
      invariant counts == Update([], AllEmojis(texts[..i], isEmoji))
    {
      assert texts[..i + 1] == texts[..i] + [texts[i]];
      AllEmojisAppend(texts[..i], [texts[i]], isEmoji);
      assert AllEmojis([texts[i]], isEmoji) == (if texts[i].Str? then ExtractEmojis(texts[i].s, isEmoji) else []) + AllEmojis([], isEmoji);
      if texts[i].Str? {
        var emojis := ExtractEmojis(texts[i].s, isEmoji);
        assert AllEmojis(texts[..i + 1], isEmoji) == AllEmojis(texts[..i], isEmoji) + emojis;
        UpdateAppend([], AllEmojis(texts[..i], isEmoji), emojis);
        counts := Update(counts, emojis);
      } else {
        assert AllEmojis(texts[..i + 1], isEmoji) == AllEmojis(texts[..i], isEmoji);
      }
    }
    assert texts[..|texts|] == texts;
    UpdateFacts([], AllEmojis(texts, isEmoji));
    UpdatePositive([], AllEmojis(texts, isEmoji));
  }

  /** `max(cpu_count() - 1, 1)` worker processes. */
  function Cores(cpuCount: int): (n: nat)
    ensures n >= 1 && n >= cpuCount - 1
    ensures n == 1 || n == cpuCount - 1
  {
    if cpuCount - 1 > 1 then cpuCount - 1 else 1
  }

  /** `max(total_rows // (n_cores * 2), 1000)`: about two pieces per worker,
      never fewer than 1000 rows a piece. */
  function ChunkSize(total: nat, cores: nat): (size: nat)
    requires cores >= 1
    ensures size >= 1000 && size >= total / (cores * 2)
    ensures size == 1000 || size == total / (cores * 2)
  {
    var share := total / (cores * 2);
    if share > 1000 then share else 1000
  }

  /** `(total_rows + chunk_size - 1) // chunk_size`: the least number of
      pieces of `size` rows that hold all rows. */
  function ChunkCount(total: nat, size: nat): (n: nat)
    requires size >= 1
    ensures n * size >= total
    ensures n == 0 || (n - 1) * size < total
  {
    var n := (total + size - 1) / size;
    var rem := (total + size - 1) % size;
    assert total + size - 1 == n * size + rem;
    assert (n - 1) * size == n * size - size;
    n
  }

  /** There are no pieces exactly when there are no rows. */
  lemma NoRowsNoChunks(total: nat, size: nat)
    requires size >= 1
    ensures ChunkCount(total, size) == 0 <==> total == 0
  {
  }

  /** The number of pieces `q2_time` asks `np.array_split` for. */
  function Pieces(total: nat, cpuCount: int): nat {
    ChunkCount(total, ChunkSize(total, Cores(cpuCount)))
  }

  /** `xs` with the items at the indices in `failed` replaced by `empty`. */
  function WithoutFailed<T>(xs: seq<T>, failed: set<nat>, empty: T): (r: seq<T>)
    ensures |r| == |xs|
    ensures forall i :: 0 <= i < |xs| ==> r[i] == if i in failed then empty else xs[i]
  {
    seq(|xs|, i requires 0 <= i < |xs| => if i in failed then empty else xs[i])
  }

  /** The row count of every piece. */
  function Lengths<T>(ss: seq<seq<T>>): (r: seq<nat>)
    ensures |r| == |ss| && forall i :: 0 <= i < |ss| ==> r[i] == |ss[i]|
  {
    seq(|ss|, i requires 0 <= i < |ss| => |ss[i]|)
  }

  /** The row counts add up to the rows of the pieces glued together. */
  lemma {:induction false} SumLengths<T>(ss: seq<seq<T>>)
    ensures SumSizes(Lengths(ss)) == |Concat(ss)|
  {
    if ss != [] {
      assert Lengths(ss)[1..] == Lengths(ss[1..]);
      SumLengths(ss[1..]);
    }
  }

  /** The collection loop of `q2_time`: the results in the order the workers
      finish (`completion`, chunk indices); a chunk whose future raised
      (`failed`) is logged and skipped, every other chunk's counter is added
      into the total and its rows into the processed count. */
  method CombineResults(counts: seq<seq<(char, nat)>>, chunks: seq<seq<Value>>, completion: seq<nat>, failed: set<nat>)
    returns (total: seq<(char, nat)>, processed: nat)
    requires |counts| == |chunks| && IndicesBelow(completion, |counts|)
    ensures total == MergeAll([], Arrange(WithoutFailed(counts, failed, []), completion))
    ensures processed == SumSizes(Arrange(WithoutFailed(Lengths(chunks), failed, 0), completion))
  {
    var kept := WithoutFailed(counts, failed, []);
    var rows := WithoutFailed(Lengths(chunks), failed, 0);
    total := [];
    processed := 0;
    for j := 0 to |completion|
      invariant total == MergeAll([], Arrange(kept, completion[..j]))
      invariant processed == SumSizes(Arrange(rows, completion[..j]))
    {
      var idx := completion[j];
      CollectAt(counts, chunks, completion, failed, j);
      if idx !in failed {
        total := UpdateFrom(total, counts[idx]);
        processed := processed + |chunks[idx]|;
      }
    }
    assert completion[..|completion|] == completion;
  }

  /** Collecting the result of `completion[j]` adds its counter to the
      total and its row count to the processed count, unless it failed. */
  lemma CollectAt(counts: seq<seq<(char, nat)>>, chunks: seq<seq<Value>>, completion: seq<nat>, failed: set<nat>, j: nat)
    requires |counts| == |chunks| && IndicesBelow(completion, |counts|) && j < |completion|
    ensures var kept, rows, idx := WithoutFailed(counts, failed, []), WithoutFailed(Lengths(chunks), failed, 0), completion[j];
      MergeAll([], Arrange(kept, completion[..j + 1])) ==
        (if idx in failed then MergeAll([], Arrange(kept, completion[..j]))
         else UpdateFrom(MergeAll([], Arrange(kept, completion[..j])), counts[idx])) &&
      SumSizes(Arrange(rows, completion[..j + 1])) ==
        SumSizes(Arrange(rows, completion[..j])) + (if idx in failed then 0 else |chunks[idx]|)
  {
    var kept := WithoutFailed(counts, failed, []);
    var rows := WithoutFailed(Lengths(chunks), failed, 0);
    var order, idx := completion[..j], completion[j];
    assert completion[..j + 1] == order + [idx];
    ArrangeAppend(kept, order, [idx]);
    ArrangeAppend(rows, order, [idx]);
    MergeAllAppend([], Arrange(kept, order), kept[idx]);
    SumSizesAppend(Arrange(rows, order), [rows[idx]]);
    assert SumSizes([rows[idx]]) == rows[idx] + SumSizes([]);
    assert Arrange(kept, [idx]) == [kept[idx]] && Arrange(rows, [idx]) == [rows[idx]];
    if idx in failed {
      assert UpdateFrom(MergeAll([], Arrange(kept, order)), []) == MergeAll([], Arrange(kept, order));
    }
  }

  /** The counts of every piece, each in first-seen order. */
  function ChunkCounts(chunks: seq<seq<Value>>, isEmoji: char -> bool): (r: seq<seq<(char, nat)>>)
    ensures |r| == |chunks| && forall i :: 0 <= i < |chunks| ==> r[i] == Update([], AllEmojis(chunks[i], isEmoji))
  {
    seq(|chunks|, i requires 0 <= i < |chunks| => Update([], AllEmojis(chunks[i], isEmoji)))
  }

  /** The rows of the pieces that did not fail, in column order. */
  function Survivors(chunks: seq<seq<Value>>, failed: set<nat>): seq<Value> {
    Concat(WithoutFailed(chunks, failed, []))
  }

  /** With no failed piece the survivors are the whole column. */
  lemma AllSurvive(chunks: seq<seq<Value>>, failed: set<nat>)
    requires forall i :: i in failed ==> i >= |chunks|
    ensures Survivors(chunks, failed) == Concat(chunks)
  {
    assert WithoutFailed(chunks, failed, []) == chunks;
  }

  /** Summing the piece counters counts the emojis of the pieces glued
      together. */
  lemma {:induction false} ChunkSumsAddUp(chunks: seq<seq<Value>>, counts: seq<seq<(char, nat)>>, isEmoji: char -> bool, k: char)
    requires |counts| == |chunks|
    requires forall j :: 0 <= j < |chunks| ==> Get(counts[j], k) == Occurrences(AllEmojis(chunks[j], isEmoji), k)
    ensures CountSum(counts, k) == Occurrences(AllEmojis(Concat(chunks), isEmoji), k)
  {
    if chunks != [] {
      ChunkSumsAddUp(chunks[1..], counts[1..], isEmoji, k);
      AllEmojisAppend(chunks[0], Concat(chunks[1..]), isEmoji);
      OccurrencesAppend(AllEmojis(chunks[0], isEmoji), AllEmojis(Concat(chunks[1..]), isEmoji), k);
    }
  }

  /** Every piece counter, failed pieces replaced by an empty one, has
      distinct keys and positive counts. */
  lemma KeptCountsValid(chunks: seq<seq<Value>>, failed: set<nat>, isEmoji: char -> bool)
    ensures forall c :: c in WithoutFailed(ChunkCounts(chunks, isEmoji), failed, []) ==> DistinctKeys(c) && Positive(c)
  {
    var kept := WithoutFailed(ChunkCounts(chunks, isEmoji), failed, []);
    forall c | c in kept ensures DistinctKeys(c) && Positive(c) {
      var j :| 0 <= j < |kept| && kept[j] == c;
      if j !in failed {
        UpdateFacts([], AllEmojis(chunks[j], isEmoji));
        UpdatePositive([], AllEmojis(chunks[j], isEmoji));
      }
    }
  }

  /** The piece counters of the pieces that did not fail sum to the counts
      of their rows glued together. */
  lemma KeptCountsAddUp(chunks: seq<seq<Value>>, failed: set<nat>, isEmoji: char -> bool, k: char)
    ensures CountSum(WithoutFailed(ChunkCounts(chunks, isEmoji), failed, []), k) ==
      Occurrences(AllEmojis(Survivors(chunks, failed), isEmoji), k)
  {
    var kept := WithoutFailed(ChunkCounts(chunks, isEmoji), failed, []);
    var rows := WithoutFailed(chunks, failed, []);
    forall j | 0 <= j < |chunks|
      ensures Get(kept[j], k) == Occurrences(AllEmojis(rows[j], isEmoji), k)
    {
      if j !in failed {
        UpdateFacts([], AllEmojis(chunks[j], isEmoji));
      }
    }
    ChunkSumsAddUp(rows, kept, isEmoji, k);
  }

  /** Whatever order the workers finish in, the total counts every emoji of
      the pieces that did not fail exactly, with positive counts and
      distinct keys. */
  lemma TotalCountsSurvivors(chunks: seq<seq<Value>>, completion: seq<nat>, failed: set<nat>, isEmoji: char -> bool)
    requires multiset(completion) == multiset(Range(|chunks|))
    ensures IndicesBelow(completion, |chunks|)
    ensures var total := MergeAll([], Arrange(WithoutFailed(ChunkCounts(chunks, isEmoji), failed, []), completion));
      DistinctKeys(total) && Positive(total) &&
      forall k :: Get(total, k) == Occurrences(AllEmojis(Survivors(chunks, failed), isEmoji), k)
  {
    var kept := WithoutFailed(ChunkCounts(chunks, isEmoji), failed, []);
    ArrivedValid(chunks, completion, failed, isEmoji);
    var arrived := Arrange(kept, completion);
    MergeAllFacts([], arrived);
    forall k ensures CountSum(arrived, k) == Occurrences(AllEmojis(Survivors(chunks, failed), isEmoji), k) {
      ArrivedSum(chunks, completion, failed, isEmoji, k);
    }
  }

  /** Every result as it arrives has distinct keys and positive counts. */
  lemma ArrivedValid(chunks: seq<seq<Value>>, completion: seq<nat>, failed: set<nat>, isEmoji: char -> bool)
    requires multiset(completion) == multiset(Range(|chunks|))
    ensures IndicesBelow(completion, |chunks|)
    ensures forall c :: c in Arrange(WithoutFailed(ChunkCounts(chunks, isEmoji), failed, []), completion) ==>
      DistinctKeys(c) && Positive(c)
  {
    var kept := WithoutFailed(ChunkCounts(chunks, isEmoji), failed, []);
    ArrivalIsPermutation(kept, completion);
    KeptCountsValid(chunks, failed, isEmoji);
    assert forall c :: c in Arrange(kept, completion) ==> c in multiset(kept);
  }

  /** One emoji's count summed over the results as they arrive. */
  lemma ArrivedSum(chunks: seq<seq<Value>>, completion: seq<nat>, failed: set<nat>, isEmoji: char -> bool, k: char)
    requires multiset(completion) == multiset(Range(|chunks|))
    ensures IndicesBelow(completion, |chunks|)
    ensures CountSum(Arrange(WithoutFailed(ChunkCounts(chunks, isEmoji), failed, []), completion), k) ==
      Occurrences(AllEmojis(Survivors(chunks, failed), isEmoji), k)
  {
    var kept := WithoutFailed(ChunkCounts(chunks, isEmoji), failed, []);
    ArrivalIsPermutation(kept, completion);
    CountSumPermutation(kept, Arrange(kept, completion), k);
    KeptCountsAddUp(chunks, failed, isEmoji, k);
  }

  /** The answer is a top-10 by count of the emojis of the pieces that did
      not fail. */
  lemma AnswerIsTop(chunks: seq<seq<Value>>, completion: seq<nat>, failed: set<nat>, isEmoji: char -> bool)
    requires multiset(completion) == multiset(Range(|chunks|))
    ensures IndicesBelow(completion, |chunks|)
    ensures TopOf(Largest(MergeAll([], Arrange(WithoutFailed(ChunkCounts(chunks, isEmoji), failed, []), completion)), 10),
      CountOf(AllEmojis(Survivors(chunks, failed), isEmoji)), 10)
  {
    TotalCountsSurvivors(chunks, completion, failed, isEmoji);
    var total := MergeAll([], Arrange(WithoutFailed(ChunkCounts(chunks, isEmoji), failed, []), completion));
    TopOfLargest(total, CountOf(AllEmojis(Survivors(chunks, failed), isEmoji)), 10);
  }

  /** Whatever order the workers finish in, the processed count is the
      number of rows of the pieces that did not fail. */
  lemma ProcessedRows(chunks: seq<seq<Value>>, completion: seq<nat>, failed: set<nat>)
    requires multiset(completion) == multiset(Range(|chunks|))
    ensures IndicesBelow(completion, |chunks|)
    ensures SumSizes(Arrange(WithoutFailed(Lengths(chunks), failed, 0), completion)) == |Survivors(chunks, failed)|
  {
    var rows := WithoutFailed(Lengths(chunks), failed, 0);
    ArrivalIsPermutation(rows, completion);
    SumSizesPermutation(rows, Arrange(rows, completion));
    assert rows == Lengths(WithoutFailed(chunks, failed, []));
    SumLengths(WithoutFailed(chunks, failed, []));
  }

  /** The submissions to the pool: every piece counted by `process_chunk`. */
  method CountChunks(chunks: seq<seq<Value>>, isEmoji: char -> bool) returns (counts: seq<seq<(char, nat)>>)
    ensures counts == ChunkCounts(chunks, isEmoji)
  {
    counts := [];
    for i := 0 to |chunks|
      invariant |counts| == i
      invariant forall j :: 0 <= j < i ==> counts[j] == Update([], AllEmojis(chunks[j], isEmoji))
    {
      var c := ProcessChunk(chunks[i], isEmoji);
      counts := counts + [c];
    }
  }

  /** `q2_time` on the decoded column (`None` when there is no `content`
      column) with `cpuCount` processors, `isEmoji` standing for the emoji
      table. The workers finish in the order `completion` (every piece
      once) and the pieces in `failed` raise. A missing column raises; so
      does an empty one, which makes zero pieces. Otherwise the answer is
      the 10 most common entries of the total counter, a top-10 by count of
      the emojis of the pieces that did not fail: of the whole column when
      none failed. */
  method Q2Time(content: Option<seq<Value>>, cpuCount: int, isEmoji: char -> bool, completion: seq<nat>, failed: set<nat>)
    returns (r: Result<seq<(char, nat)>>)
    requires content.Some? ==> multiset(completion) == multiset(Range(Pieces(|content.value|, cpuCount)))
    ensures content.None? ==> r == Err(MissingColumns(["content"]))
    ensures content.Some? && |content.value| == 0 ==> r == Err(NoChunks)
    ensures content.Some? && |content.value| > 0 ==> r.Ok?
    ensures r.Ok? ==> |r.value| <= 10 && NonIncreasing(r.value)
    ensures r.Ok? ==>
      var chunks := ArraySplit(content.value, Pieces(|content.value|, cpuCount)).value;
      IndicesBelow(completion, |chunks|) &&
      r.value == Largest(MergeAll([], Arrange(WithoutFailed(ChunkCounts(chunks, isEmoji), failed, []), completion)), 10) &&
      TopOf(r.value, CountOf(AllEmojis(Survivors(chunks, failed), isEmoji)), 10)
    ensures r.Ok? && (forall i :: i in failed ==> i >= Pieces(|content.value|, cpuCount)) ==>
      TopOf(r.value, CountOf(AllEmojis(content.value, isEmoji)), 10)
  {
    if content.None? {
      return Err(MissingColumns(["content"]));
    }
    var column := content.value;
    var cores := Cores(cpuCount);
    var size := ChunkSize(|column|, cores);
    var n := ChunkCount(|column|, size);
    NoRowsNoChunks(|column|, size);
    var split := ArraySplit(column, n);
    if split.Err? {
      return Err(split.failure);
    }
    var chunks := split.value;
    var counts := CountChunks(chunks, isEmoji);
    AnswerIsTop(chunks, completion, failed, isEmoji);
    var total, processed := CombineResults(counts, chunks, completion, failed);
    if forall i :: i in failed ==> i >= n {
      AllSurvive(chunks, failed);
    }
    if total == [] {
      return Ok([]);
    }
    return Ok(Largest(total, 10));
  }
}
