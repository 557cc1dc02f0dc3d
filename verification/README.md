# Tweet top-10 queries, modelled in Dafny

The repository answers three questions about a file of tweets (one JSON
object per line). Each question has two implementations:

- a *memory* version that streams the lines and keeps bounded state;
- a *time* version that loads a DataFrame and works on columns or chunks in
  parallel.

| query | question | memory version | time version |
|---|---|---|---|
| q1 | the 10 days with the most tweets, each with its most active user | `date_counts`/`date_users` dictionaries; days are evicted beyond 20 | group-by (day, user), sum per day, `nlargest(10)` |
| q2 | the 10 most used emojis | batches of 1000 texts, a `Counter`, pruned to 100 entries every 10000 tweets | `np.array_split` into pieces, a process pool, counters added as workers finish |
| q3 | the 10 most mentioned users | a `MentionTracker` object that cleans up every 10000 tweets | `4 * cpu_count` pieces, `imap_unordered`, `concat`/`groupby`/`sum` |

The model takes the lines already decoded: `Common.Line` for the q2/q3
streams, `Option<Tweet>` for q1, and a column or `DatesTime.Frame` for the
DataFrame versions. On that input it proves what each query returns,
including its error cases.

## Modules

| file | module | contents |
|---|---|---|
| `common.dfy` | `Common` | Option, Result, the failure kinds, field values, truthiness, the content stream |
| `counters.dfy` | `Counters` | `Counter`/`dict` of counts as a sequence of (key, count) with distinct keys, in insertion order |
| `ranking.dfy` | `Ranking` | `most_common(n)`, `heapq.nlargest(n)` and pandas `nlargest(n)` as one stable sort by count, cut to n |
| `ordering.dfy` | `KeySort` | the sort by key that pandas `groupby` applies, over int and string keys |
| `mentions.dfy` | `MentionPattern` | `findall` with `@([a-zA-Z0-9_]+)`, proved equal to a reference definition |
| `chunking.dfy` | `Chunking` | `np.array_split` and results that come back in any order |
| `q1_memory.dfy` | `DatesMemory` | streaming q1 |
| `q1_time.dfy` | `DatesTime` | group-by q1 |
| `q2_memory.dfy` | `EmojisMemory` | batched q2 |
| `q2_time.dfy` | `EmojisTime` | pooled q2 |
| `q3_memory.dfy` | `MentionsMemory` | `MentionTracker` (a class) and streaming q3 |
| `q3_time.dfy` | `MentionsTime` | chunked q3 |
| `agreement.dfy` | `Agreement` | each memory version against its time version, where the memory version has dropped nothing |

Ties are broken as follows:

- `most_common`, `heapq.nlargest` and `nlargest(keep='first')` keep ties in
  first-seen order (`Ranking.LargestKeepsTieOrder`). For q3_time that order
  is ascending, because the `groupby` has sorted the keys.
- q1_memory's `max(..., key=(count, username))` picks the greatest username
  among the users with the largest count, despite the comment at
  `src/queries/dates/q1_memory.py:60` (`DatesMemory.BestUserIsMaximal`).
- q1_time's stable sort followed by `first()` picks the smallest username
  (`DatesTime.AnswerUsers`). It lists the chosen days in ascending date
  order, not by count (`DatesTime.AnswerDays`).

## Model

| member | source | states |
|---|---|---|
| Common.TweetContents | src/queries/mentions/q3_memory.py:90-97 | every text the stream yields is truthy; there are never more texts than lines |
| Common.TweetContentsFrom | src/queries/mentions/q3_memory.py:90-97 | every text the stream yields is the `content` of an object line, and every truthy `content` of an object line is yielded |
| Counters.Add | src/queries/dates/q1_memory.py:35-36 | `d[k] += n` on a counter: the keys become the old keys plus k; a new key goes at the end |
| Counters.AddFacts | src/queries/dates/q1_memory.py:35-36 | `d[k] += n` raises k's count by n and changes no other count; the total grows by n; an existing key keeps the key order; keys stay distinct |
| Counters.Update | src/queries/mentions/q3_memory.py:37 | `Counter.update(iterable)`: the keys become the old keys plus the items |
| Counters.UpdateFacts | src/queries/mentions/q3_memory.py:37 | `Counter.update(iterable)` raises each key's count by its number of occurrences; the total grows by the item count; keys stay distinct |
| Counters.UpdateFrom | src/queries/emojis/q2_time.py:84 | `Counter.update(counter)`: the keys are the union of both counters' keys |
| Counters.UpdateFromFacts | src/queries/emojis/q2_time.py:84 | `Counter.update(counter)` adds the counts key by key; totals add; keys stay distinct |
| Counters.CountOf | src/queries/mentions/q3_time.py:22 | `value_counts`/`Counter(iterable)`: each key's count is its number of occurrences; the keys are exactly the items; the total is the item count; the counts are positive |
| Counters.Remove | src/queries/dates/q1_memory.py:46-48 | `del d[k]` for the keys in a set: exactly those keys leave; every remaining entry was there before |
| Counters.RemoveFacts | src/queries/dates/q1_memory.py:46-48 | deletion keeps keys distinct; a removed key reads as 0; the other counts are unchanged |
| Counters.MergeAllFacts | src/queries/mentions/q3_time.py:61 | adding a list of counters gives every key the sum of its counts over the list; keys distinct and counts positive are kept |
| Ranking.Largest | src/queries/mentions/q3_memory.py:68 | `most_common(n)` has exactly min(max(n, 0), size) entries, with counts never increasing |
| Ranking.SortFacts | src/queries/emojis/q2_memory.py:137 | the sort by count is a permutation of its input, with counts never increasing |
| Ranking.SortKeepsTieOrder | src/queries/emojis/q2_memory.py:137 | the sort by count is stable: equal counts keep their input order |
| Ranking.LargestFromInput | src/queries/mentions/q3_memory.py:68 | every returned entry comes from the counter; when n is at least the counter's size, the result is a permutation of the whole counter |
| Ranking.LargestDropsSmaller | src/queries/mentions/q3_memory.py:56-58 | no entry left out has a larger count than an entry kept |
| Ranking.LargestKeepsTieOrder | src/queries/emojis/q2_time.py:96 | entries with equal counts appear in their first-seen order |
| Ranking.LargestKeepsCounts | src/queries/mentions/q3_memory.py:56-58 | `Counter(dict(most_common(n)))` keeps a subset of the keys, each with its original count |
| Ranking.LargestIsTop | src/queries/emojis/q2_memory.py:137 | the result is a top-n: the right size, non-increasing, entries from the counter, none left out larger |
| Ranking.FirstLargest | src/queries/dates/q1_time.py:62-63 | the first entry of the top-1 has the largest count, and every entry before it has a smaller count |
| KeySort.SortByKeyFacts | src/queries/mentions/q3_time.py:61 | the key sort of `groupby` keeps the keys and the total; for distinct keys and a strict total order it is ascending |
| KeySort.SortByKeyCounts | src/queries/mentions/q3_time.py:61 | the key sort keeps every key's count |
| KeySort.SameCountsSameSort | src/queries/mentions/q3_time.py:61 | two counters with the same counts give the same key-sorted series, whatever their insertion order |
| KeySort.StrLessOrder | src/queries/mentions/q3_time.py:61 | the string order used by the index sort is a strict total order |
| MentionPattern.ScanMatchesReference | src/queries/mentions/q3_memory.py:23 | the left-to-right scan of `@([a-zA-Z0-9_]+)` returns the reference reading: one mention, the longest word run after it, for every `@` followed by a word character, in text order |
| MentionPattern.MentionsAreWords | src/queries/mentions/q3_memory.py:34 | every mention found is a non-empty run of word characters |
| MentionPattern.NoMentions | src/queries/mentions/q3_memory.py:34 | a text has no mentions exactly when no position starts one |
| MentionPattern.ExtractMentionsFast | src/queries/mentions/q3_time.py:12-14 | a non-string gives no mentions; every mention is a non-empty word without `@` |
| MentionPattern.AllMentionsAppend | src/queries/mentions/q3_time.py:19-21 | the mentions of two runs of texts are the mentions of each, in order |
| Chunking.ArraySplit | src/queries/mentions/q3_time.py:47 | `np.array_split(xs, n)` raises when n < 1; otherwise it gives exactly n pieces that glue back to xs, the first `len % n` of them one longer than `len // n` |
| Chunking.ArraySplitBalanced | src/queries/emojis/q2_time.py:66 | no two pieces differ in length by more than one |
| Chunking.ArrangePermutation | src/queries/mentions/q3_time.py:53-57 | two arrival orders with the same indices deliver the same results, as a multiset |
| Chunking.SumSizesPermutation | src/queries/emojis/q2_time.py:85 | a sum of piece sizes does not depend on the order of adding |
| Chunking.ArrivalIsPermutation | src/queries/mentions/q3_time.py:51-57 | results that arrive in any order of the piece indices are a permutation of the piece results |
| MentionsMemory.MentionTracker.constructor | src/queries/mentions/q3_memory.py:17-23 | an empty counter, zero counts and the given limits |
| MentionsMemory.MentionTracker.ShouldCleanup | src/queries/mentions/q3_memory.py:45-48 | true exactly when the tweet count is a multiple of the frequency and more mentions than allowed are tracked; a zero frequency raises |
| MentionsMemory.MentionTracker.CleanupMemory | src/queries/mentions/q3_memory.py:50-58 | the counter becomes its `max_mentions` most common entries: at most that many, counts unchanged, none dropped larger than one kept; the statistics are untouched |
| MentionsMemory.MentionTracker.ProcessTweet | src/queries/mentions/q3_memory.py:25-43 | a non-string changes nothing; a string adds 1 tweet, its mention count, and each mention's occurrences, then cleans up when due; `% 0` raises after the updates; the tracker invariant (counts positive, no count above the mention's occurrences so far, total at most mentions found and equal until a cleanup) is kept |
| MentionsMemory.MentionTracker.GetTopMentions | src/queries/mentions/q3_memory.py:66-68 | at most n tracked pairs, counts never increasing, tied pairs in the counter's first-encountered order; of a valid tracker, a top-n list: distinct tracked mentions with their counts, and no tracked mention left out has a larger count than one returned |
| MentionsMemory.MentionTracker.GetStats | src/queries/mentions/q3_memory.py:70-77 | the tweet and mention counts, and the number of distinct tracked mentions |
| MentionsMemory.Q3Memory | src/queries/mentions/q3_memory.py:106-138 | never raises on decoded lines; at most 10 pairs, non-increasing; empty when no mention exists; every returned mention has a positive count no larger than its number of occurrences in the texts; below 10000 string texts, the exact top 10 of all mentions in first-seen order |
| MentionsTime.ProcessChunkParallel | src/queries/mentions/q3_time.py:16-22 | each mention's count is its number of occurrences in the piece; the counts add up to the mentions extracted |
| MentionsTime.CountPieces | src/queries/mentions/q3_time.py:53-57 | every chunk is counted by `process_chunk_parallel`: one result per chunk, with distinct keys, positive counts, and each mention counted by its occurrences in that chunk |
| MentionsTime.CombineCounts | src/queries/mentions/q3_time.py:61 | the combined series is in ascending key order, and each key's value is its sum over the piece results |
| MentionsTime.CombineOrderFree | src/queries/mentions/q3_time.py:51-61 | any arrival order of the piece results gives the same combined series |
| MentionsTime.ChunkedEqualsWhole | src/queries/mentions/q3_time.py:47-61 | counting the pieces and combining them equals counting the whole column |
| MentionsTime.Q3Time | src/queries/mentions/q3_time.py:25-71 | a missing column or a processor count below 1 raises; otherwise the 10 largest mention counts of the whole column, ties in ascending mention order, whatever the arrival order |
| EmojisMemory.ExtractEmojis | src/queries/emojis/q2_memory.py:73-78 | only emojis are returned, each as often as it occurs in the text |
| EmojisMemory.ExtractEmojisAppend | src/queries/emojis/q2_memory.py:78 | the emojis of two joined texts are the emojis of each, in order |
| EmojisMemory.Batched | src/queries/emojis/q2_memory.py:50-61 | the batches glue back to the texts; every batch is non-empty and full except the last |
| EmojisMemory.BatchedUnique | src/queries/emojis/q2_memory.py:50-61 | any batching with those properties is that batching |
| EmojisMemory.Collect | src/queries/emojis/q2_memory.py:49-54 | a text joins the current batch; every yielded batch is full, the current one stays below capacity, and nothing is lost or reordered |
| EmojisMemory.BatchProcessTweets | src/queries/emojis/q2_memory.py:25-71 | fails exactly when a line is not a JSON object; otherwise the truthy texts in batches of `batch_size` |
| EmojisMemory.CountTextsFacts | src/queries/emojis/q2_memory.py:105-125 | a batch goes through exactly when all its texts are strings; the totals are those of its string prefix |
| EmojisMemory.BatchStepValid | src/queries/emojis/q2_memory.py:105-121 | a batch keeps the counters valid and adds its string prefix to the processed count |
| EmojisMemory.RunBatchesValid | src/queries/emojis/q2_memory.py:104-125 | the counters stay valid over every batch |
| EmojisMemory.NoPruneBelow | src/queries/emojis/q2_memory.py:114-121 | below 10000 tweets and with no failing text, no prune happens: the counter holds the exact emoji counts |
| EmojisMemory.ProcessBatch | src/queries/emojis/q2_memory.py:105-125 | the loop over one batch stops at the first non-string and keeps the updates made before it |
| EmojisMemory.Q2Memory | src/queries/emojis/q2_memory.py:80-141 | raises exactly when a line is not an object; otherwise a top-10 by count of the final counter, empty exactly when the counter is; with fewer than 10000 texts, all strings, the exact top 10 of all emojis |
| EmojisTime.ProcessChunk | src/queries/emojis/q2_time.py:14-30 | the piece's emoji counts: each emoji's count is its occurrences in the string values |
| EmojisTime.Cores | src/queries/emojis/q2_time.py:59 | at least one worker, otherwise one fewer than the processors |
| EmojisTime.ChunkSize | src/queries/emojis/q2_time.py:64 | at least 1000 rows and at least `total // (2 * cores)` rows, and one of the two |
| EmojisTime.ChunkCount | src/queries/emojis/q2_time.py:65 | the least number of pieces of that size that cover all rows |
| EmojisTime.NoRowsNoChunks | src/queries/emojis/q2_time.py:65-66 | there are no pieces exactly when there are no rows |
| EmojisTime.CombineResults | src/queries/emojis/q2_time.py:69-89 | the total adds the counters of the pieces that did not fail, in completion order; the processed count adds their row counts |
| EmojisTime.CollectAt | src/queries/emojis/q2_time.py:80-89 | collecting one finished piece adds its counter to the total and its rows to the processed count, unless that piece raised |
| EmojisTime.TotalCountsSurvivors | src/queries/emojis/q2_time.py:80-89 | whatever the completion order, each emoji's total is its count over the pieces that did not fail |
| EmojisTime.AnswerIsTop | src/queries/emojis/q2_time.py:91-96 | the answer is a top-10 of the emoji counts of the pieces that did not fail |
| EmojisTime.ProcessedRows | src/queries/emojis/q2_time.py:85 | the processed count is the number of rows in the pieces that did not fail |
| EmojisTime.CountChunks | src/queries/emojis/q2_time.py:72-77 | every piece is submitted and counted |
| EmojisTime.Q2Time | src/queries/emojis/q2_time.py:47-103 | a missing column raises; an empty one raises (zero pieces); otherwise at most 10 entries, non-increasing, a top-10 of the emojis of the pieces that did not fail, and of the whole column when none failed |
| DatesMemory.ReadTweet | src/queries/dates/q1_memory.py:14-21 | a line gives a record exactly when it has a day and a user object; the username defaults to `''` |
| DatesMemory.MinCount | src/queries/dates/q1_memory.py:40 | `min(date_counts.values())` is at most every count and is one of them |
| DatesMemory.WithCount | src/queries/dates/q1_memory.py:41-43 | exactly the days whose count is the minimum |
| DatesMemory.EvictOne | src/queries/dates/q1_memory.py:39-44 | with 21 days, exactly one day is removed: it holds the minimum count and every entry before it in insertion order has a larger count |
| DatesMemory.WithCountFirst | src/queries/dates/q1_memory.py:41-44 | the first day the minimum-count list names is the day of the first entry, in insertion order, holding that count |
| DatesMemory.DeleteFacts | src/queries/dates/q1_memory.py:46-48 | deleting days from both dictionaries keeps them in step and removes exactly those days |
| DatesMemory.AddRecordSynced | src/queries/dates/q1_memory.py:35-36 | the two increments keep the dictionaries in step: the same days, each day's count the sum of its users' counts |
| DatesMemory.StepFacts | src/queries/dates/q1_memory.py:34-48 | a record keeps at most 20 days; an eviction happens only when the record brings a 21st day, and it removes the minimum-count day that no earlier entry in insertion order ties |
| DatesMemory.TrackValid | src/queries/dates/q1_memory.py:34-48 | after any number of records the dictionaries are in step and hold at most 20 days |
| DatesMemory.IncrementsCount | src/queries/dates/q1_memory.py:35-36 | without eviction, each day's count is its number of records and each (day, user) count is the number of records of that pair |
| DatesMemory.NoEviction | src/queries/dates/q1_memory.py:39 | while at most 20 distinct days are seen, nothing is evicted |
| DatesMemory.MaxEntry | src/queries/dates/q1_memory.py:58-61 | `max` by (count, username) returns a user of the day that no other user outranks |
| DatesMemory.BestUserIsMaximal | src/queries/dates/q1_memory.py:58-61 | the chosen user has the largest count; among the users with that count it has the greatest name |
| DatesMemory.TopDatesFacts | src/queries/dates/q1_memory.py:51-54 | the 10 days are a top-10 by count, ordered by count descending and then by date ascending |
| DatesMemory.RecordTweet | src/queries/dates/q1_memory.py:35-48 | one record's increments and eviction leave the state the record step describes |
| DatesMemory.Q1Memory | src/queries/dates/q1_memory.py:24-62 | at most 10 (day, user) pairs, empty when no tweet is read; the dictionaries stay in step with at most 20 days; the answer pairs the top days with their best users |
| DatesMemory.AnswerFacts | src/queries/dates/q1_memory.py:51-62 | each answer pair has a top day, tracked, and a user with a positive count that is the largest of the day, with the greatest name among ties |
| DatesMemory.FewDaysExact | src/queries/dates/q1_memory.py:30-48 | with at most 20 distinct days, every day count and every (day, user) count is exact |
| DatesTime.MissingOf | src/queries/dates/q1_time.py:34-35 | exactly the required columns that are absent, in the order given |
| DatesTime.Grouped | src/queries/dates/q1_time.py:47 | `groupby(['date', 'username']).size()`: ascending by (day, user), each pair counted by its occurrences |
| DatesTime.DateTotalsFacts | src/queries/dates/q1_time.py:51 | the per-day sums, in ascending days: each day's value is its number of tweets, and the days are exactly those with tweets |
| DatesTime.UsersOnDayFacts | src/queries/dates/q1_time.py:61 | a day's rows of the grouped counts: each user's count of that day, summing to the day's total |
| DatesTime.Q1Time | src/queries/dates/q1_time.py:26-91 | missing columns raise with their names; a bad date or a user that is not an object raises; otherwise the answer on the day and user pairs |
| DatesTime.TopTotalsFacts | src/queries/dates/q1_time.py:52 | `nlargest(10)` is a top-10 of the day totals, with min(days, 10) entries |
| DatesTime.AnswerDays | src/queries/dates/q1_time.py:54-67 | one pair per chosen day, days strictly ascending, exactly the days `nlargest` chose; no tweets give `[]` |
| DatesTime.AnswerUsers | src/queries/dates/q1_time.py:61-64 | each day's user has the largest number of tweets that day, with the smallest name among ties |
| DatesTime.BestUserFacts | src/queries/dates/q1_time.py:61-64 | the first user of the sorted group has the largest count of the day and the smallest name among ties |
| Agreement.MentionsAgree | src/queries/mentions/q3_time.py:61-64 | the streamed counter and the combined series hold the same counts, and each version's top 10 is a top-10 of the other's counts |
| Agreement.EmojisAgree | src/queries/emojis/q2_memory.py:137 | the unpruned streamed top 10 is a top-10 of the emoji counts of the whole column |
| Agreement.SameRecords | src/queries/dates/q1_memory.py:8-21 | the streamed records of a frame's rows are the frame's (day, user) pairs |
| Agreement.SameTopDays | src/queries/dates/q1_time.py:52 | with at most 20 days, the streaming version's top days are the days `nlargest` picks |
| Agreement.SameAnswerDays | src/queries/dates/q1_time.py:52-67 | with at most 20 days, both date queries report the same days, one pair per day |
| Agreement.DatesAgree | src/queries/dates/q1_time.py:60-67 | with at most 20 days, both versions choose the same days and, per day, users with the same count, the streamed name not below the frame's |

## Left out

- File access, ZIP archives, `json.loads` and `pd.read_json` are left out. Each query takes decoded lines, a column or a frame. `pd.errors.EmptyDataError`, `ParserError` and `FileNotFoundError` are not modelled.
- Process pools are left out. The completion or arrival order of the workers, and the set of pieces that raise, are parameters. The processor count is a parameter.
- Logging, `@profile` and `memory_mapped_file` (unused) are left out: they have no effect on the answers.
- `emoji.EMOJI_DATA` becomes the parameter `isEmoji`. Only the one mention pattern is modelled; the general regular-expression engine is not.
- Dates are ordinal day numbers. `datetime.fromisoformat`, `pd.to_datetime` and time zones are not modelled. A date either parses to a day or fails (`DateField`).
- `chunk_size` at `src/queries/mentions/q3_time.py:46` is computed and never used, so it is not modelled.
- Usernames that are `None` are not modelled. pandas drops null group keys; the model reads a missing username as `''`, which both versions default to.
- MentionsTime.ProcessChunkParallel: `value_counts` orders a piece's counts by count, but the model keeps first-seen order. The `groupby` that follows sorts by key, so the combined series depends only on the counts (`MentionsTime.CombineOrderFree`).
- Content values are absent, a string, or a scalar. Lists and objects as `content` are not modelled.
- In q2_memory, a line that is not an object raises inside the batch generator. The model returns the error for the whole run and does not model how far the counting got before it.
- Q2Memory: once a prune has run, the answer is stated only as a top-10 of the pruned counter, not of all emojis, because pruning drops counts for good.
- Q3Memory: after a cleanup the result is stated only as at most 10 non-increasing pairs whose counts are positive and bounded by the mentions' occurrences, not as the exact top 10. A cleanup drops counts for good, so a mention re-counted after it is undercounted.
- Q1Memory: once days have been evicted, the counts are stated only as in step with each other, not as exact, because eviction drops days for good.
- Q1Time: the frame is given, including its column set. Which malformed lines `pd.read_json` itself rejects is not modelled.
- The `tests/`, `src/repository/`, `src/interface/` and `src/main.py` files call the queries and are not part of this model.
