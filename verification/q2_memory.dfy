/** The streaming emoji query: the tweet texts are read in batches of 1000,
    every character of a text that is in the emoji table is counted, and
    whenever a batch ends on a multiple of 10000 processed tweets the counter
    is cut down to its 100 largest entries. */
module EmojisMemory {
  import opened Common
  import opened Counters
  import opened Ranking
  import opened Chunking

  /** Texts per batch, the pruning period and the entries kept by a prune. */
  const BatchSize := 1000
  const PruneEvery := 10000
  const KeepAfterPrune := 100

  /** `extract_emojis`: the characters of `text` that are in the emoji table
      (`isEmoji`), in order; each emoji occurs as often as in the text. */
  function ExtractEmojis(text: string, isEmoji: char -> bool): (r: seq<char>)
    ensures forall i :: 0 <= i < |r| ==> isEmoji(r[i])
    ensures forall c :: Occurrences(r, c) == if isEmoji(c) then Occurrences(text, c) else 0
  {
    if text == [] then []
    else
      var rest := ExtractEmojis(text[1..], isEmoji);
      var r := (if isEmoji(text[0]) then [text[0]] else []) + rest;
      assert isEmoji(text[0]) ==> r[0] == text[0] && r[1..] == rest;
      assert !isEmoji(text[0]) ==> r == rest;
      r
  }

  /** Extraction works character by character: the emojis of a concatenation
      are the emojis of the parts, one after the other. */
  lemma {:induction false} ExtractEmojisAppend(a: string, b: string, isEmoji: char -> bool)
    ensures ExtractEmojis(a + b, isEmoji) == ExtractEmojis(a, isEmoji) + ExtractEmojis(b, isEmoji)
  {
    if a == [] {
      assert a + b == b;
    } else {
      assert (a + b)[0] == a[0] && (a + b)[1..] == a[1..] + b;
      ExtractEmojisAppend(a[1..], b, isEmoji);
    }
  }

  /** The emojis of the string values, one value after the other; other
      values contribute none. */
  function AllEmojis(vs: seq<Value>, isEmoji: char -> bool): seq<char> {
    if vs == [] then []
    else (if vs[0].Str? then ExtractEmojis(vs[0].s, isEmoji) else []) + AllEmojis(vs[1..], isEmoji)
  }

  lemma {:induction false} AllEmojisAppend(a: seq<Value>, b: seq<Value>, isEmoji: char -> bool)
    ensures AllEmojis(a + b, isEmoji) == AllEmojis(a, isEmoji) + AllEmojis(b, isEmoji)
  {
    if a == [] {
      assert a + b == b;
    } else {
      assert (a + b)[0] == a[0] && (a + b)[1..] == a[1..] + b;
      AllEmojisAppend(a[1..], b, isEmoji);
    }
  }

  /** The batch capacity: a size below 1 still yields one text per batch. */
  function Capacity(batchSize: int): (cap: nat)
    ensures cap >= 1 && (batchSize >= 1 ==> cap == batchSize)
  {
    if batchSize < 1 then 1 else batchSize
  }

  /** Consecutive batches of `cap` items, the last one possibly shorter. */
  function Batched<T>(xs: seq<T>, cap: nat): (bs: seq<seq<T>>)
    requires cap > 0
    ensures Concat(bs) == xs
    ensures forall i :: 0 <= i < |bs| ==> 0 < |bs[i]| <= cap
    ensures forall i :: 0 <= i < |bs| - 1 ==> |bs[i]| == cap
    decreases |xs|
  {
    if xs == [] then []
    else if |xs| <= cap then
      assert Concat([xs]) == xs + Concat([]);
      [xs]
    else
      var rest := Batched(xs[cap..], cap);
      var bs := [xs[..cap]] + rest;
      assert bs[1..] == rest;
      assert xs == xs[..cap] + xs[cap..];
      bs
  }

  /** Non-empty batches, all full but the last, are the batching of what they
      hold: batching is determined by its contents and capacity. */
  lemma {:induction false} BatchedUnique<T>(bs: seq<seq<T>>, cap: nat)
    requires cap > 0
    requires forall i :: 0 <= i < |bs| ==> 0 < |bs[i]| <= cap
    requires forall i :: 0 <= i < |bs| - 1 ==> |bs[i]| == cap
    ensures bs == Batched(Concat(bs), cap)
  {
    if |bs| == 1 {
      assert bs[1..] == [];
      assert Concat(bs) == bs[0] + Concat(bs[1..]) == bs[0];
      assert bs == [bs[0]];
    } else if |bs| > 1 {
      var xs := Concat(bs);
      assert xs == bs[0] + Concat(bs[1..]);
      assert bs[1] == bs[1..][0];
      assert |Concat(bs[1..])| > 0 by {
        assert Concat(bs[1..]) == bs[1] + Concat(bs[2..]);
      }
      assert xs[..cap] == bs[0] && xs[cap..] == Concat(bs[1..]);
      BatchedUnique(bs[1..], cap);
      assert bs == [bs[0]] + bs[1..];
    }
  }

  /** One more line read: its text joins the stream when it is a truthy
      `content` of an object. */
  lemma ContentsStep(lines: seq<Line>, i: nat)
    requires i < |lines|
    ensures TweetContents(lines[..i + 1]) ==
      TweetContents(lines[..i]) + if lines[i].Record? && Truthy(lines[i].content) then [lines[i].content] else []
  {
    assert lines[..i + 1] == lines[..i] + [lines[i]];
    TweetContentsAppend(lines[..i], [lines[i]]);
    assert TweetContents([lines[i]]) == (if lines[i].Record? && Truthy(lines[i].content) then [lines[i].content] else []) + TweetContents([]);
  }

  /** One more batch yielded. */
  lemma ConcatPush<T>(batches: seq<seq<T>>, current: seq<T>)
    ensures Concat(batches + [current]) == Concat(batches) + current
  {
    ConcatAppend(batches, [current]);
    assert Concat([current]) == current + Concat([]);
  }

  /** One truthy text joins the current batch; a batch that reaches
      `batchSize` is yielded and a new one begun. */
  method Collect(batches: seq<seq<Value>>, current: seq<Value>, v: Value, batchSize: int)
    returns (batches': seq<seq<Value>>, current': seq<Value>)
    requires |current| < Capacity(batchSize)
    requires forall j :: 0 <= j < |batches| ==> |batches[j]| == Capacity(batchSize)
    ensures Concat(batches') + current' == Concat(batches) + current + [v]
    ensures forall j :: 0 <= j < |batches'| ==> |batches'[j]| == Capacity(batchSize)
    ensures |current'| < Capacity(batchSize)
  {
    batches', current' := batches, current + [v];
    if |current'| >= batchSize {
      ConcatPush(batches, current');
      batches', current' := batches + [current'], [];
    }
  }

  /** `batch_process_tweets` over decoded lines: the truthy texts of the
      object lines in batches of `batchSize` (at least one), the last batch
      partial; a line that decodes to something other than an object makes
      `.get` raise and the whole read fail. */
  method BatchProcessTweets(lines: seq<Line>, batchSize: int) returns (r: Result<seq<seq<Value>>>)
    ensures r.Err? <==> NonObject in lines
    ensures r.Err? ==> r.failure == MalformedLine
    ensures r.Ok? ==> r.value == Batched(TweetContents(lines), Capacity(batchSize))
  {
    var cap := Capacity(batchSize);
    var batches: seq<seq<Value>> := [];
    var current: seq<Value> := [];
    for i := 0 to |lines|
      invariant NonObject !in lines[..i]
      invariant Concat(batches) + current == TweetContents(lines[..i])
      invariant forall j :: 0 <= j < |batches| ==> |batches[j]| == cap
      invariant |current| < cap
    {
      ContentsStep(lines, i);
      match lines[i]
      case Undecodable =>
      case NonObject =>
        return Err(MalformedLine);
      case Record(v) =>
        if Truthy(v) {
          batches, current := Collect(batches, current, v, batchSize);
        }
    }
    assert lines[..|lines|] == lines;
    if current != [] {
      ConcatPush(batches, current);
      batches := batches + [current];
    }
    assert Concat(batches) == TweetContents(lines);
    BatchedUnique(batches, cap);
    return Ok(batches);
  }

  /** The running totals of `q2_memory`: the counter, the tweets processed
      and the emojis found. */
  datatype Tally = Tally(counts: seq<(char, nat)>, processed: nat, found: nat)

  /** One batch's inner loop from `t`: its texts in order until one is not a
      string (iterating it raises); the totals reached, and whether the
      whole batch went through. */
  function CountTexts(t: Tally, texts: seq<Value>, isEmoji: char -> bool): (Tally, bool)
    decreases |texts|
  {
    if texts == [] then (t, true)
    else if texts[0].Str? then CountTexts(CountText(t, texts[0].s, isEmoji), texts[1..], isEmoji)
    else (t, false)
  }

  /** The body of the inner loop for one string: its emojis added to the
      counter, one more tweet, and their number added to the emojis found. */
  function CountText(t: Tally, text: string, isEmoji: char -> bool): Tally {
    var emojis := ExtractEmojis(text, isEmoji);
    Tally(Update(t.counts, emojis), t.processed + 1, t.found + |emojis|)
  }

  /** The number of leading string values. */
  function StringPrefix(vs: seq<Value>): (p: nat)
    ensures p <= |vs|
    ensures forall i :: 0 <= i < p ==> vs[i].Str?
    ensures p < |vs| ==> !vs[p].Str?
  {
    if vs == [] || !vs[0].Str? then 0 else 1 + StringPrefix(vs[1..])
  }

  /** The totals after counting the strings `texts` from `t`. */
  function After(t: Tally, texts: seq<Value>, isEmoji: char -> bool): Tally {
    var emojis := AllEmojis(texts, isEmoji);
    Tally(Update(t.counts, emojis), t.processed + |texts|, t.found + |emojis|)
  }

  /** A batch's updates are those of its leading strings, and they stay even
      when a later text raises; the batch goes through exactly when every
      text is a string. */
  lemma {:induction false} CountTextsFacts(t: Tally, texts: seq<Value>, isEmoji: char -> bool)
    decreases |texts|
    ensures CountTexts(t, texts, isEmoji).1 <==> StringPrefix(texts) == |texts|
    ensures CountTexts(t, texts, isEmoji).0 == After(t, texts[..StringPrefix(texts)], isEmoji)
  {
    if texts == [] || !texts[0].Str? {
      assert AllEmojis(texts[..0], isEmoji) == [];
    } else {
      var e := ExtractEmojis(texts[0].s, isEmoji);
      var u := CountText(t, texts[0].s, isEmoji);
      assert CountTexts(t, texts, isEmoji) == CountTexts(u, texts[1..], isEmoji);
      CountTextsFacts(u, texts[1..], isEmoji);
      var p := StringPrefix(texts);
      assert p == 1 + StringPrefix(texts[1..]);
      var rest := AllEmojis(texts[1..][..p - 1], isEmoji);
      LeadingStringEmojis(texts, p, isEmoji);
      UpdateAppend(t.counts, e, rest);
      assert After(u, texts[1..][..p - 1], isEmoji) == After(t, texts[..p], isEmoji);
    }
  }

  /** The emojis of a prefix that starts with a string. */
  lemma LeadingStringEmojis(texts: seq<Value>, p: nat, isEmoji: char -> bool)
    requires 1 <= p <= |texts| && texts[0].Str?
    ensures AllEmojis(texts[..p], isEmoji) == ExtractEmojis(texts[0].s, isEmoji) + AllEmojis(texts[1..][..p - 1], isEmoji)
  {
    assert texts[..p][0] == texts[0] && texts[..p][1..] == texts[1..][..p - 1];
  }

  /** A batch, then the prune when it went through and the processed count
      is a multiple of the period: the counter becomes its 100 largest
      entries, in `nlargest` order. */
  function BatchStep(t: Tally, batch: seq<Value>, isEmoji: char -> bool): Tally {
    var (u, ok) := CountTexts(t, batch, isEmoji);
    if ok && u.processed % PruneEvery == 0 then u.(counts := Largest(u.counts, KeepAfterPrune)) else u
  }

  /** All batches, one after the other. */
  function RunBatches(t: Tally, batches: seq<seq<Value>>, isEmoji: char -> bool): Tally
    decreases batches
  {
    if batches == [] then t else RunBatches(BatchStep(t, batches[0], isEmoji), batches[1..], isEmoji)
  }

  /** The counter keeps distinct keys and positive counts, and never counts
      more emojis than were found. */
  ghost predicate TallyValid(t: Tally) {
    DistinctKeys(t.counts) && Positive(t.counts) && Total(t.counts) <= t.found
  }

  /** A batch, pruned or not, keeps the tally valid; a prune leaves at most
      100 entries and keeps their counts. */
  lemma BatchStepValid(t: Tally, batch: seq<Value>, isEmoji: char -> bool)
    requires TallyValid(t)
    ensures TallyValid(BatchStep(t, batch, isEmoji))
    ensures BatchStep(t, batch, isEmoji).processed == t.processed + StringPrefix(batch)
    ensures var u := CountTexts(t, batch, isEmoji).0;
      var r := BatchStep(t, batch, isEmoji);
      (r.counts == u.counts || |r.counts| <= KeepAfterPrune) &&
      forall k :: k in Keys(r.counts) ==> Get(r.counts, k) == Get(u.counts, k)
  {
    CountTextsFacts(t, batch, isEmoji);
    var p := StringPrefix(batch);
    var emojis := AllEmojis(batch[..p], isEmoji);
    var u := CountTexts(t, batch, isEmoji).0;
    UpdateFacts(t.counts, emojis);
    UpdatePositive(t.counts, emojis);
    LargestKeepsCounts(u.counts, KeepAfterPrune);
    LargestFromInput(u.counts, KeepAfterPrune);
    GetAtMostTotal(u.counts, 'a');
    var r := BatchStep(t, batch, isEmoji);
    if r.counts != u.counts {
      forall x | x in r.counts ensures x.1 > 0 {
        assert x in u.counts;
      }
    }
  }

  lemma {:induction false} RunBatchesValid(t: Tally, batches: seq<seq<Value>>, isEmoji: char -> bool)
    requires TallyValid(t)
    ensures TallyValid(RunBatches(t, batches, isEmoji))
    decreases batches
  {
    if batches != [] {
      BatchStepValid(t, batches[0], isEmoji);
      RunBatchesValid(BatchStep(t, batches[0], isEmoji), batches[1..], isEmoji);
    }
  }

  /** Below 10000 processed tweets, with every text a string, no batch ends
      on a multiple of the period, so nothing is pruned and the counter holds
      every emoji's exact count, in first-seen order. */
  lemma {:induction false} NoPruneBelow(t: Tally, batches: seq<seq<Value>>, isEmoji: char -> bool)
    requires forall i :: 0 <= i < |batches| ==> |batches[i]| > 0
    requires forall v :: v in Concat(batches) ==> v.Str?
    requires t.processed + |Concat(batches)| < PruneEvery
    ensures RunBatches(t, batches, isEmoji) == After(t, Concat(batches), isEmoji)
    decreases batches
  {
    var xs := Concat(batches);
    if batches == [] {
      assert AllEmojis(xs, isEmoji) == [];
    } else {
      var b := batches[0];
      assert xs == b + Concat(batches[1..]);
      assert forall v :: v in b ==> v in xs;
      assert forall v :: v in Concat(batches[1..]) ==> v in xs;
      CountTextsFacts(t, b, isEmoji);
      assert b[..|b|] == b;
      assert StringPrefix(b) == |b|;
      var u := CountTexts(t, b, isEmoji).0;
      NotAMultiple(u.processed, PruneEvery);
      assert BatchStep(t, b, isEmoji) == u;
      assert forall i :: 0 <= i < |batches[1..]| ==> batches[1..][i] == batches[i + 1];
      NoPruneBelow(u, batches[1..], isEmoji);
      AllEmojisAppend(b, Concat(batches[1..]), isEmoji);
      UpdateAppend(t.counts, AllEmojis(b, isEmoji), AllEmojis(Concat(batches[1..]), isEmoji));
    }
  }

  /** What `q2_memory` has counted after reading `lines`. */
  function Counted(lines: seq<Line>, isEmoji: char -> bool): Tally {
    RunBatches(Tally([], 0, 0), Batched(TweetContents(lines), BatchSize), isEmoji)
  }

  /** The `try` block of one batch: every text of the batch in order, until
      iterating one raises, which abandons the rest of the batch. */
  method ProcessBatch(t: Tally, batch: seq<Value>, isEmoji: char -> bool) returns (u: Tally, failed: bool)
    ensures (u, !failed) == CountTexts(t, batch, isEmoji)
  {
    u := t;
    failed := false;
    var j := 0;
    while j < |batch| && !failed
      invariant j <= |batch|
      invariant !failed ==> CountTexts(t, batch, isEmoji) == CountTexts(u, batch[j..], isEmoji)
      invariant failed ==> CountTexts(t, batch, isEmoji) == (u, false)
      decreases |batch| - j, !failed
    {
      CountTextsFirst(u, batch, j, isEmoji);
      if batch[j].Str? {
        u := CountText(u, batch[j].s, isEmoji);
        j := j + 1;
      } else {
        failed := true;
      }
    }
    assert !failed ==> batch[j..] == [];
  }

  /** One step of the inner loop at position `j`: the text there is
      counted, or iterating it raises. */
  lemma CountTextsFirst(u: Tally, batch: seq<Value>, j: nat, isEmoji: char -> bool)
    requires j < |batch|
    ensures batch[j].Str? ==> CountTexts(u, batch[j..], isEmoji) == CountTexts(CountText(u, batch[j].s, isEmoji), batch[j + 1..], isEmoji)
    ensures !batch[j].Str? ==> CountTexts(u, batch[j..], isEmoji) == (u, false)
  {
    var rest := batch[j..];
    assert rest[0] == batch[j] && rest[1..] == batch[j + 1..];
  }

  /** `q2_memory` on decoded lines, `isEmoji` standing for the emoji table.
      A non-object line raises. Otherwise the answer is the 10 largest
      entries of the counter (empty when nothing was counted), a top-10 of
      it by count; with fewer than 10000 texts, all of them strings, nothing
      was pruned and it is the exact top 10 of all emojis in first-seen
      order. */
  method Q2Memory(lines: seq<Line>, isEmoji: char -> bool) returns (r: Result<seq<(char, nat)>>)
    ensures r.Err? <==> NonObject in lines
    ensures r.Err? ==> r.failure == MalformedLine
    ensures r.Ok? ==> r.value == Largest(Counted(lines, isEmoji).counts, 10)
    ensures r.Ok? ==> TopOf(r.value, Counted(lines, isEmoji).counts, 10)
    ensures r.Ok? ==> (r.value == [] <==> Counted(lines, isEmoji).counts == [])
    ensures r.Ok? && |TweetContents(lines)| < PruneEvery && (forall v :: v in TweetContents(lines) ==> v.Str?) ==>
      r.value == Largest(Update([], AllEmojis(TweetContents(lines), isEmoji)), 10)
  {
    var read := BatchProcessTweets(lines, BatchSize);
    if read.Err? {
      return Err(read.failure);
    }
    var batches := read.value;
    var tally := Tally([], 0, 0);
    for bi := 0 to |batches|
      invariant RunBatches(tally, batches[bi..], isEmoji) == RunBatches(Tally([], 0, 0), batches, isEmoji)
    {
      var failed;
      tally, failed := ProcessBatch(tally, batches[bi], isEmoji);
      if !failed && tally.processed % PruneEvery == 0 {
        tally := tally.(counts := Largest(tally.counts, KeepAfterPrune));
      }
      assert batches[bi..][1..] == batches[bi + 1..];
    }
    RunBatchesValid(Tally([], 0, 0), batches, isEmoji);
    LargestIsTop(tally.counts, 10);
    if |TweetContents(lines)| < PruneEvery && (forall v :: v in TweetContents(lines) ==> v.Str?) {
      NoPruneBelow(Tally([], 0, 0), batches, isEmoji);
    }
    if tally.counts == [] {
      return Ok([]);
    }
    return Ok(Largest(tally.counts, 10));
  }
}
