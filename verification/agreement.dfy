/** Each query has a streaming version and a batch version. Where the
    streaming version keeps everything (no eviction, pruning or cleanup),
    the two compute their answers from the same counts. */
module Agreement {
  import opened Common
  import opened Counters
  import opened Ranking
  import opened KeySort
  import opened MentionPattern
  import EmojisMemory
  import DatesMemory
  import DatesTime

  /** The `content` column a DataFrame holds for object lines: every
      record's value, falsy ones included. */
  function ContentColumn(lines: seq<Line>): seq<Value> {
    if lines == [] then []
    else (if lines[0].Record? then [lines[0].content] else []) + ContentColumn(lines[1..])
  }

  /** A falsy value holds no mention, so the whole column and the truthy
      contents the streaming query reads yield the same mentions. */
  lemma {:induction false} ColumnMentions(lines: seq<Line>)
    ensures AllMentions(ContentColumn(lines)) == AllMentions(TweetContents(lines))
  {
    if lines != [] {
      ColumnMentions(lines[1..]);
      var rest := ContentColumn(lines[1..]);
      if lines[0].Record? {
        var v := lines[0].content;
        assert ContentColumn(lines) == [v] + rest;
        AllMentionsAppend([v], rest);
        assert AllMentions([v]) == ExtractMentionsFast(v) + AllMentions([]);
        if Truthy(v) {
          assert TweetContents(lines) == [v] + TweetContents(lines[1..]);
          AllMentionsAppend([v], TweetContents(lines[1..]));
        } else {
          assert TweetContents(lines) == TweetContents(lines[1..]);
          if v.Str? {
            assert Scan(v.s, 0) == [];
          }
          assert ExtractMentionsFast(v) == [];
        }
      } else {
        assert ContentColumn(lines) == rest;
        assert TweetContents(lines) == TweetContents(lines[1..]);
      }
    }
  }

  /** Likewise for emojis. */
  lemma {:induction false} ColumnEmojis(lines: seq<Line>, isEmoji: char -> bool)
    ensures EmojisMemory.AllEmojis(ContentColumn(lines), isEmoji) == EmojisMemory.AllEmojis(TweetContents(lines), isEmoji)
  {
    if lines != [] {
      ColumnEmojis(lines[1..], isEmoji);
      var rest := ContentColumn(lines[1..]);
      if lines[0].Record? {
        var v := lines[0].content;
        assert ContentColumn(lines) == [v] + rest;
        assert ([v] + rest)[1..] == rest;
        if Truthy(v) {
          assert TweetContents(lines) == [v] + TweetContents(lines[1..]);
          assert ([v] + TweetContents(lines[1..]))[1..] == TweetContents(lines[1..]);
        } else {
          assert TweetContents(lines) == TweetContents(lines[1..]);
        }
      } else {
        assert ContentColumn(lines) == rest;
        assert TweetContents(lines) == TweetContents(lines[1..]);
      }
    }
  }

  /** With fewer than 10000 string contents the mention tracker never cleans
      up; its counts then agree key by key with the batch query's combined
      counts over the content column, and both answers are a top 10 of those
      counts. */
  lemma MentionsAgree(lines: seq<Line>)
    ensures var streamed := Update([], AllMentions(TweetContents(lines)));
      var combined := SortByKey(CountOf(AllMentions(ContentColumn(lines))), StrLess);
      (forall k :: Get(streamed, k) == Get(combined, k)) &&
      TopOf(Largest(streamed, 10), combined, 10) &&
      TopOf(Largest(combined, 10), streamed, 10)
  {
    ColumnMentions(lines);
    var ms := AllMentions(TweetContents(lines));
    var streamed := Update([], ms);
    var combined := SortByKey(CountOf(ms), StrLess);
    SortByKeyCounts(CountOf(ms), StrLess);
    SortByKeyFacts(CountOf(ms), StrLess);
    forall x | x in combined ensures x.1 > 0 {
      EntryFromInput(CountOf(ms), StrLess, x);
    }
    TopOfLargest(streamed, combined, 10);
    TopOfLargest(combined, streamed, 10);
  }

  /** With fewer than 10000 contents, all strings, the streaming emoji query
      never prunes; its answer is then a top 10 of the emoji counts of the
      whole content column, which is what the batch query answers when no
      chunk fails. */
  lemma EmojisAgree(lines: seq<Line>, isEmoji: char -> bool)
    ensures TopOf(Largest(Update([], EmojisMemory.AllEmojis(TweetContents(lines), isEmoji)), 10),
      CountOf(EmojisMemory.AllEmojis(ContentColumn(lines), isEmoji)), 10)
  {
    ColumnEmojis(lines, isEmoji);
    var es := EmojisMemory.AllEmojis(TweetContents(lines), isEmoji);
    UpdateFacts([], es);
    LargestIsTop(Update([], es), 10);
  }

  /** The frame's rows as decoded lines. */
  function AsLines(rows: seq<Tweet>): (lines: seq<Option<Tweet>>)
    ensures |lines| == |rows| && forall i :: 0 <= i < |rows| ==> lines[i] == Some(rows[i])
  {
    seq(|rows|, i requires 0 <= i < |rows| => Some(rows[i]))
  }

  /** Both date queries read the same (day, username) records from the same
      rows. */
  lemma {:induction false} SameRecords(rows: seq<Tweet>)
    ensures DatesMemory.ReadTweets(AsLines(rows)) == DatesTime.Pairs(rows)
  {
    if rows != [] {
      SameRecords(rows[1..]);
      assert AsLines(rows)[1..] == AsLines(rows[1..]);
    }
  }

  /** The days of the streaming answer are the days it ranks. */
  lemma StreamedDays(st: DatesMemory.DateState)
    requires DatesMemory.Synced(st)
    ensures (set x | x in DatesMemory.Answer(st) :: x.0) == Keys(DatesMemory.TopDates(st.dateCounts))
  {
    DatesMemory.TopDaysHaveUsers(st);
    DatesTime.SameDays(DatesMemory.Answer(st), DatesMemory.TopDates(st.dateCounts));
  }

  /** With at most 20 days the streaming query ranks exactly the day totals
      of the batch query: both choose the same days with the same totals,
      in the same (count, then earlier day) order. */
  lemma SameTopDays(rows: seq<Tweet>)
    requires |DaySet(DatesTime.Pairs(rows))| <= DatesMemory.MaxDates
    ensures var st := DatesMemory.Track(DatesMemory.DateState([], map[]), DatesMemory.ReadTweets(AsLines(rows)));
      DatesMemory.StateValid(st) &&
      DatesMemory.TopDates(st.dateCounts) == DatesTime.TopTotals(DatesTime.Pairs(rows))
  {
    var pairs := DatesTime.Pairs(rows);
    var lines := AsLines(rows);
    var start := DatesMemory.DateState([], map[]);
    var st := DatesMemory.Track(start, pairs);
    var g := DatesTime.Grouped(pairs);
    SameRecords(rows);
    DatesMemory.TrackValid(start, pairs);
    DatesMemory.FewDaysExact(lines);
    DatesTime.SumByDayFacts(g);
    forall d ensures Get(st.dateCounts, d) == Get(DatesTime.SumByDay(g), d) {
      DatesTime.DaySumGrouped(pairs, d);
    }
    IntLessOrder();
    SameCountsSameSort(st.dateCounts, DatesTime.SumByDay(g), IntLess);
  }

  /** With at most 20 days, and rows the batch query accepts, the two date
      queries report the same days; on each day both name a user with the
      day's largest count, the batch query the smallest such username and the
      streaming query the greatest, so they name the same user exactly when
      one user alone has that count. */
  lemma DatesAgree(rows: seq<Tweet>)
    requires |DaySet(DatesTime.Pairs(rows))| <= DatesMemory.MaxDates
    ensures var st := DatesMemory.Track(DatesMemory.DateState([], map[]), DatesMemory.ReadTweets(AsLines(rows)));
      DatesMemory.StateValid(st) &&
      var m := DatesMemory.Answer(st);
      var t := DatesTime.Answer(DatesTime.Pairs(rows));
      |m| == |t| &&
      (set x | x in m :: x.0) == (set x | x in t :: x.0) &&
      forall i, j :: 0 <= i < |m| && 0 <= j < |t| && m[i].0 == t[j].0 ==>
        Occurrences(DatesTime.Pairs(rows), m[i]) == Occurrences(DatesTime.Pairs(rows), t[j]) &&
        (m[i].1 == t[j].1 || StrLess(t[j].1, m[i].1))
  {
    var pairs := DatesTime.Pairs(rows);
    var st := DatesMemory.Track(DatesMemory.DateState([], map[]), DatesMemory.ReadTweets(AsLines(rows)));
    SameAnswerDays(rows);
    var m := DatesMemory.Answer(st);
    var t := DatesTime.Answer(pairs);
    forall i, j | 0 <= i < |m| && 0 <= j < |t| && m[i].0 == t[j].0
      ensures Occurrences(pairs, m[i]) == Occurrences(pairs, t[j]) && (m[i].1 == t[j].1 || StrLess(t[j].1, m[i].1))
    {
      SameBestCount(rows, st, i, j);
    }
  }

  /** With at most 20 days both date queries report the same days, one pair
      per day. */
  lemma SameAnswerDays(rows: seq<Tweet>)
    requires |DaySet(DatesTime.Pairs(rows))| <= DatesMemory.MaxDates
    ensures var st := DatesMemory.Track(DatesMemory.DateState([], map[]), DatesMemory.ReadTweets(AsLines(rows)));
      DatesMemory.StateValid(st) &&
      var m := DatesMemory.Answer(st);
      var t := DatesTime.Answer(DatesTime.Pairs(rows));
      |m| == |t| && (set x | x in m :: x.0) == (set x | x in t :: x.0)
  {
    var st := DatesMemory.Track(DatesMemory.DateState([], map[]), DatesMemory.ReadTweets(AsLines(rows)));
    SameTopDays(rows);
    DatesMemory.TopDaysHaveUsers(st);
    DatesTime.AnswerDays(DatesTime.Pairs(rows));
    StreamedDays(st);
  }

  /** On a day both answers report, the two named users have the same count,
      and the batch query's is not the greater username. */
  lemma SameBestCount(rows: seq<Tweet>, st: DatesMemory.DateState, i: nat, j: nat)
    requires |DaySet(DatesTime.Pairs(rows))| <= DatesMemory.MaxDates
    requires st == DatesMemory.Track(DatesMemory.DateState([], map[]), DatesMemory.ReadTweets(AsLines(rows)))
    requires DatesMemory.StateValid(st)
    requires i < |DatesMemory.Answer(st)| && j < |DatesTime.Answer(DatesTime.Pairs(rows))|
    requires DatesMemory.Answer(st)[i].0 == DatesTime.Answer(DatesTime.Pairs(rows))[j].0
    ensures var a, b := DatesMemory.Answer(st)[i], DatesTime.Answer(DatesTime.Pairs(rows))[j];
      Occurrences(DatesTime.Pairs(rows), a) == Occurrences(DatesTime.Pairs(rows), b) &&
      (a.1 == b.1 || StrLess(b.1, a.1))
  {
    var pairs := DatesTime.Pairs(rows);
    var a := DatesMemory.Answer(st)[i];
    var b := DatesTime.Answer(pairs)[j];
    var users := StreamedBest(rows, st, i);
    DatesTime.AnswerUserAt(pairs, j);
    TiedBest(users, pairs, a.0, a.1, b.1);
  }

  /** The users the streaming query holds for the day of its `i`-th answer
      pair: their counts are the day's record counts, and the named user has
      the largest, the greatest username among ties. */
  lemma StreamedBest(rows: seq<Tweet>, st: DatesMemory.DateState, i: nat) returns (users: seq<(string, nat)>)
    requires |DaySet(DatesTime.Pairs(rows))| <= DatesMemory.MaxDates
    requires st == DatesMemory.Track(DatesMemory.DateState([], map[]), DatesMemory.ReadTweets(AsLines(rows)))
    requires DatesMemory.StateValid(st)
    requires i < |DatesMemory.Answer(st)|
    ensures var (d, um) := DatesMemory.Answer(st)[i];
      DistinctKeys(users) &&
      (forall u :: Get(users, u) == Occurrences(DatesTime.Pairs(rows), (d, u))) &&
      Get(users, um) > 0 &&
      forall y :: y in users ==> y.1 <= Get(users, um) && (y.1 == Get(users, um) ==> y.0 == um || StrLess(y.0, um))
  {
    var (d, um) := DatesMemory.Answer(st)[i];
    DatesMemory.AnswerFacts(st);
    users := st.dateUsers[d];
    SameRecords(rows);
    DatesMemory.FewDaysExact(AsLines(rows));
    assert DatesMemory.UsersOn(st, d) == users;
  }

  /** A user with the largest count among a day's users, the greatest among
      those tied, and a user with the largest count among the day's records,
      the smallest among those tied, share that count; the second is not the
      greater username. */
  lemma TiedBest(users: seq<(string, nat)>, pairs: seq<(int, string)>, d: int, um: string, ut: string)
    requires DistinctKeys(users)
    requires forall u :: Get(users, u) == Occurrences(pairs, (d, u))
    requires Get(users, um) > 0
    requires forall y :: y in users ==> y.1 <= Get(users, um) && (y.1 == Get(users, um) ==> y.0 == um || StrLess(y.0, um))
    requires Occurrences(pairs, (d, ut)) > 0
    requires forall v :: (Occurrences(pairs, (d, v)) <= Occurrences(pairs, (d, ut)) &&
      (Occurrences(pairs, (d, v)) == Occurrences(pairs, (d, ut)) ==> v == ut || StrLess(ut, v)))
    ensures Occurrences(pairs, (d, um)) == Occurrences(pairs, (d, ut))
    ensures um == ut || StrLess(ut, um)
  {
    assert Get(users, ut) > 0;
    if ut !in Keys(users) {
      GetAbsent(users, ut);
    }
    KeysMembers(users);
    var y :| y in users && y.0 == ut;
    GetEntry(users, y);
  }
}
