/** The streaming mention query: a `MentionTracker` counts mentions tweet by
    tweet and, every `cleanupFrequency` tweets, shrinks its counter to the
    `maxMentions` most frequent mentions. */
module MentionsMemory {
  import opened Common
  import opened Counters
  import opened Ranking
  import opened MentionPattern

  /** The `stats` property. */
  datatype Stats = Stats(tweetsProcessed: nat, mentionsFound: nat, uniqueMentions: nat)

  class MentionTracker {
    var mentionCounts: seq<(string, nat)>
    const maxMentions: int
    const cleanupFrequency: int
    var tweetsProcessed: nat
    var mentionsFound: nat
    /** Whether a cleanup has ever replaced the counter. */
    ghost var cleaned: bool
    /** Every mention found so far, in order. */
    ghost var seen: seq<string>

    /** Keys are distinct and counts positive; no mention is counted more
        often than it was seen; the counts never add up to more than the
        mentions found, and to exactly that many as long as no cleanup has
        run. */
    ghost predicate Valid()
      reads this
    {
      DistinctKeys(mentionCounts) && Positive(mentionCounts) &&
      |seen| == mentionsFound &&
      (forall k :: Get(mentionCounts, k) <= Occurrences(seen, k)) &&
      Total(mentionCounts) <= mentionsFound &&
      (!cleaned ==> Total(mentionCounts) == mentionsFound)
    }

    constructor(maxMentions: int, cleanupFrequency: int)
      ensures Valid() && !cleaned && seen == []
      ensures mentionCounts == [] && tweetsProcessed == 0 && mentionsFound == 0
      ensures this.maxMentions == maxMentions && this.cleanupFrequency == cleanupFrequency
    {
      mentionCounts := [];
      this.maxMentions := maxMentions;
      this.cleanupFrequency := cleanupFrequency;
      tweetsProcessed := 0;
      mentionsFound := 0;
      cleaned := false;
      seen := [];
    }

    /** `_should_cleanup`: a multiple of the frequency has been reached and
        more mentions than allowed are tracked; `% 0` raises. */
    function ShouldCleanup(): (r: Result<bool>)
      reads this
      ensures r.Err? <==> cleanupFrequency == 0
      ensures r.Err? ==> r.failure == ZeroFrequency
      ensures r == Ok(true) ==> |mentionCounts| > maxMentions && tweetsProcessed % cleanupFrequency == 0
      ensures r == Ok(false) ==> |mentionCounts| <= maxMentions || tweetsProcessed % cleanupFrequency != 0
    {
      if cleanupFrequency == 0 then Err(ZeroFrequency)
      else Ok(tweetsProcessed % cleanupFrequency == 0 && |mentionCounts| > maxMentions)
    }

    /** `_cleanup_memory`: the counter becomes `Counter(most_common(max))`.
        At most `maxMentions` keys remain, each with its count, and no dropped
        key had a larger count than a retained one. */
    method CleanupMemory()
      requires Valid()
      modifies this
      ensures Valid() && cleaned
      ensures mentionCounts == Largest(old(mentionCounts), maxMentions)
      ensures tweetsProcessed == old(tweetsProcessed) && mentionsFound == old(mentionsFound) && seen == old(seen)
      ensures |mentionCounts| <= if maxMentions < 0 then 0 else maxMentions
      ensures forall k :: k in Keys(mentionCounts) ==> Get(mentionCounts, k) == Get(old(mentionCounts), k)
      ensures forall x, y :: x in mentionCounts && y in old(mentionCounts) && y !in mentionCounts ==> y.1 <= x.1
    {
      var before := mentionCounts;
      LargestKeepsCounts(before, maxMentions);
      LargestDropsSmaller(before, maxMentions);
      LargestFromInput(before, maxMentions);
      mentionCounts := Largest(before, maxMentions);
      cleaned := true;
      forall k ensures Get(mentionCounts, k) <= Occurrences(seen, k) {
        if k !in Keys(mentionCounts) {
          GetAbsent(mentionCounts, k);
        }
      }
    }

    /** `process_tweet`: a non-string leaves the tracker alone; a string adds
        one to `tweetsProcessed`, its number of mentions to `mentionsFound`
        and each mention's occurrences to its count, then cleans up when
        `ShouldCleanup` says so. With a zero frequency the updates stay and the
        `% 0` error is returned. */
    method ProcessTweet(text: Value) returns (error: Option<Failure>)
      requires Valid()
      modifies this
      ensures Valid()
      ensures !text.Str? ==> error == None && unchanged(this)
      ensures text.Str? ==>
        var ms := FindMentions(text.s);
        var grown := Update(old(mentionCounts), ms);
        tweetsProcessed == old(tweetsProcessed) + 1 &&
        mentionsFound == old(mentionsFound) + |ms| && seen == old(seen) + ms &&
        (forall k :: Get(grown, k) == Get(old(mentionCounts), k) + Occurrences(ms, k)) &&
        (error == None <==> cleanupFrequency != 0) &&
        (error != None ==> error == Some(ZeroFrequency) && mentionCounts == grown && cleaned == old(cleaned)) &&
        (error == None ==>
          if tweetsProcessed % cleanupFrequency == 0 && |grown| > maxMentions
          then mentionCounts == Largest(grown, maxMentions) && cleaned
          else mentionCounts == grown && cleaned == old(cleaned))
    {
      if !text.Str? {
        return None;
      }
      var mentions := FindMentions(text.s);
      UpdateFacts(mentionCounts, mentions);
      UpdatePositive(mentionCounts, mentions);
      forall k ensures Occurrences(seen + mentions, k) == Occurrences(seen, k) + Occurrences(mentions, k) {
        OccurrencesAppend(seen, mentions, k);
      }
      mentionCounts := Update(mentionCounts, mentions);
      mentionsFound := mentionsFound + |mentions|;
      seen := seen + mentions;
      tweetsProcessed := tweetsProcessed + 1;
      var should := ShouldCleanup();
      if should.Err? {
        return Some(should.failure);
      }
      if should.value {
        CleanupMemory();
      }
      return None;
    }

    /** `get_top_mentions(n)`: at most `n` pairs of the counter, counts never
        increasing; equal counts keep their first-encountered order; of a
        valid tracker it is a top-`n` list. */
    function GetTopMentions(n: int): (r: seq<(string, nat)>)
      reads this
      ensures |r| <= if n < 0 then 0 else n
      ensures |r| <= |mentionCounts|
      ensures NonIncreasing(r)
      ensures forall x :: x in r ==> x in mentionCounts
      ensures KeepsTieOrder(mentionCounts, r)
      ensures Valid() ==> TopOf(r, mentionCounts, n)
    {
      LargestFromInput(mentionCounts, n);
      LargestKeepsTieOrder(mentionCounts, n);
      assert Valid() ==> TopOf(Largest(mentionCounts, n), mentionCounts, n) by {
        if Valid() {
          LargestIsTop(mentionCounts, n);
        }
      }
      Largest(mentionCounts, n)
    }

    /** The `stats` property; with distinct keys `uniqueMentions` is the number
        of tracked mentions. */
    function GetStats(): (st: Stats)
      requires Valid()
      reads this
      ensures st.tweetsProcessed == tweetsProcessed && st.mentionsFound == mentionsFound
      ensures st.uniqueMentions == |Keys(mentionCounts)|
    {
      KeysCardinality(mentionCounts);
      Stats(tweetsProcessed, mentionsFound, |mentionCounts|)
    }
  }

  /** The number of string values. */
  function Strings(vs: seq<Value>): nat {
    if vs == [] then 0 else (if vs[0].Str? then 1 else 0) + Strings(vs[1..])
  }

  lemma {:induction false} StringsAppend(a: seq<Value>, b: seq<Value>)
    ensures Strings(a + b) == Strings(a) + Strings(b)
  {
    if a == [] {
      assert a + b == b;
    } else {
      assert (a + b)[0] == a[0] && (a + b)[1..] == a[1..] + b;
      StringsAppend(a[1..], b);
    }
  }

  /** Extending a prefix of the contents by one value. */
  lemma PrefixStep(texts: seq<Value>, i: nat)
    requires i < |texts|
    ensures Strings(texts[..i + 1]) == Strings(texts[..i]) + if texts[i].Str? then 1 else 0
    ensures AllMentions(texts[..i + 1]) == AllMentions(texts[..i]) + ExtractMentionsFast(texts[i])
    ensures Update([], AllMentions(texts[..i + 1])) == Update(Update([], AllMentions(texts[..i])), ExtractMentionsFast(texts[i]))
  {
    assert texts[..i + 1] == texts[..i] + [texts[i]];
    StringsAppend(texts[..i], [texts[i]]);
    AllMentionsAppend(texts[..i], [texts[i]]);
    assert AllMentions([texts[i]]) == ExtractMentionsFast(texts[i]) + AllMentions([]);
    UpdateAppend([], AllMentions(texts[..i]), ExtractMentionsFast(texts[i]));
  }

  /** `q3_memory` on decoded lines, with the default tracker (100 mentions,
      cleanup every 10000 tweets). The result has at most 10 pairs with
      counts never increasing; it is empty when no mention was found; and
      when fewer than 10000 string contents were seen, no cleanup can have
      run, so it is the exact top 10 of all mentions in first-seen order. */
  method Q3Memory(lines: seq<Line>) returns (r: Result<seq<(string, nat)>>)
    ensures r.Ok?
    ensures |r.value| <= 10 && NonIncreasing(r.value)
    ensures AllMentions(TweetContents(lines)) == [] ==> r.value == []
    ensures forall x :: x in r.value ==> 0 < x.1 <= Occurrences(AllMentions(TweetContents(lines)), x.0)
    ensures Strings(TweetContents(lines)) < 10000 ==>
      r.value == Largest(Update([], AllMentions(TweetContents(lines))), 10)
  {
    var tracker := new MentionTracker(100, 10000);
    var texts := TweetContents(lines);
    for i := 0 to |texts|
      invariant tracker.Valid()
      invariant tracker.maxMentions == 100 && tracker.cleanupFrequency == 10000
      invariant tracker.tweetsProcessed == Strings(texts[..i])
      invariant tracker.mentionsFound == |AllMentions(texts[..i])|
      invariant tracker.seen == AllMentions(texts[..i])
      invariant Strings(texts[..i]) < 10000 ==>
        !tracker.cleaned && tracker.mentionCounts == Update([], AllMentions(texts[..i]))
    {
      PrefixStep(texts, i);
      ghost var before := tracker.mentionCounts;
      var error := tracker.ProcessTweet(texts[i]);
      if Strings(texts[..i + 1]) < 10000 && texts[i].Str? {
        NotAMultiple(tracker.tweetsProcessed, 10000);
        assert tracker.mentionCounts == Update(before, ExtractMentionsFast(texts[i]));
      }
    }
    assert texts[..|texts|] == texts;
    if tracker.GetStats().mentionsFound == 0 {
      return Ok([]);
    }
    var top := tracker.GetTopMentions(10);
    forall x | x in top ensures 0 < x.1 <= Occurrences(AllMentions(texts), x.0) {
      GetEntry(tracker.mentionCounts, x);
    }
    return Ok(top);
  }
}
