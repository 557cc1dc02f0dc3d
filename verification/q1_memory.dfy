/** The streaming date query: one pass over the tweets counts tweets per day
    and per (day, user), evicting minimum-count days so that at most 20 days
    are tracked; then the 10 busiest days are paired with their most active
    user. */
module DatesMemory {
  import opened Common
  import opened Counters
  import opened Ranking
  import opened KeySort

  /** Days tracked at most, and days reported. */
  const MaxDates := 20
  const TopCount := 10

  /** `read_tweets` for one decoded line (`None` when it is not a JSON
      object): its day and its username, `''` when the user has none; a
      line whose date or user cannot be read raises and is skipped. */
  function ReadTweet(line: Option<Tweet>): (r: Option<(int, string)>)
    ensures r.Some? <==> line.Some? && line.value.date.Day? && line.value.user.UserObject?
    ensures r.Some? ==> r.value == (line.value.date.day, line.value.user.username.GetOr(""))
  {
    match line
    case Some(Tweet(Day(d), UserObject(name))) => Some((d, name.GetOr("")))
    case _ => None
  }

  /** The records `read_tweets` yields, in file order. */
  function ReadTweets(lines: seq<Option<Tweet>>): seq<(int, string)> {
    if lines == [] then []
    else (if ReadTweet(lines[0]).Some? then [ReadTweet(lines[0]).value] else []) + ReadTweets(lines[1..])
  }

  /** The two dictionaries of `q1_memory`: `date_counts`, in insertion
      order, and `date_users`, each day's users in insertion order. */
  datatype DateState = DateState(dateCounts: seq<(int, nat)>, dateUsers: map<int, seq<(string, nat)>>)

  /** The users counted on day `d` so far (a `defaultdict` reads as empty). */
  function UsersOn(st: DateState, d: int): seq<(string, nat)> {
    if d in st.dateUsers then st.dateUsers[d] else []
  }

  /** `min(date_counts.values())`. */
  function MinCount(e: seq<(int, nat)>): (m: nat)
    requires e != []
    ensures forall x :: x in e ==> m <= x.1
    ensures exists x :: x in e && x.1 == m
  {
    if |e| == 1 then e[0].1
    else
      var rest := MinCount(e[1..]);
      assert forall x :: x in e[1..] ==> x in e;
      assert e[0] in e;
      assert forall x :: x in e ==> x == e[0] || x in e[1..];
      if e[0].1 <= rest then e[0].1 else rest
  }

  /** `[d for d, c in date_counts.items() if c == m]`: the days holding the
      count `m`, in insertion order. */
  function WithCount(e: seq<(int, nat)>, m: nat): (ds: seq<int>)
    ensures forall d :: d in ds <==> (d, m) in e
  {
    if e == [] then []
    else
      var rest := WithCount(e[1..], m);
      assert forall x :: x in e <==> x == e[0] || x in e[1..];
      (if e[0].1 == m then [e[0].0] else []) + rest
  }

  /** The first day holding `m` is the day of the first entry with count
      `m`, at index `i`. */
  lemma {:induction false} WithCountFirst(e: seq<(int, nat)>, m: nat) returns (i: nat)
    requires WithCount(e, m) != []
    ensures i < |e| && e[i] == (WithCount(e, m)[0], m)
    ensures forall j :: 0 <= j < i ==> e[j].1 != m
  {
    if e[0].1 == m {
      i := 0;
    } else {
      assert WithCount(e, m) == WithCount(e[1..], m);
      var k := WithCountFirst(e[1..], m);
      i := k + 1;
      forall j | 0 <= j < i ensures e[j].1 != m {
        if j > 0 {
          assert e[j] == e[1..][j - 1];
        }
      }
    }
  }

  /** Python's `xs[:n]` for `n >= 0`: at most the first `n` items. */
  function Take<T>(xs: seq<T>, n: nat): (r: seq<T>)
    ensures |r| == if n < |xs| then n else |xs|
    ensures r == xs[..|r|]
  {
    if n < |xs| then xs[..n] else xs
  }

  /** `dates_to_remove`: the first `len(date_counts) - 20` minimum-count days
      in insertion order. */
  function ToRemove(e: seq<(int, nat)>): seq<int>
    requires |e| > MaxDates
  {
    Take(WithCount(e, MinCount(e)), |e| - MaxDates)
  }

  /** The deletion loop: each day in `gone` removed from both dictionaries. */
  function Delete(st: DateState, gone: seq<int>): DateState
    decreases gone
  {
    if gone == [] then st
    else Delete(DateState(Remove(st.dateCounts, {gone[0]}), st.dateUsers - {gone[0]}), gone[1..])
  }

  /** One record of the main loop: `date_counts[d] += 1`,
      `date_users[d][u] += 1`, then the eviction when more than 20 days are
      tracked. */
  function Step(st: DateState, d: int, u: string): DateState {
    var counts := Add(st.dateCounts, d, 1);
    var users := st.dateUsers[d := Add(UsersOn(st, d), u, 1)];
    if |counts| > MaxDates then Delete(DateState(counts, users), ToRemove(counts))
    else DateState(counts, users)
  }

  /** The main loop over the records. */
  function Track(st: DateState, records: seq<(int, string)>): DateState
    decreases records
  {
    if records == [] then st else Track(Step(st, records[0].0, records[0].1), records[1..])
  }

  /** The two dictionaries agree: the same days, distinct keys, positive
      counts, and each day's count is the sum of its users' counts. */
  ghost predicate Synced(st: DateState) {
    DistinctKeys(st.dateCounts) && Positive(st.dateCounts) &&
    Keys(st.dateCounts) == st.dateUsers.Keys &&
    forall d :: d in st.dateUsers ==>
      DistinctKeys(st.dateUsers[d]) && Positive(st.dateUsers[d]) &&
      Total(st.dateUsers[d]) == Get(st.dateCounts, d)
  }

  /** What holds between records: synced, and at most 20 days. */
  ghost predicate StateValid(st: DateState) {
    Synced(st) && |st.dateCounts| <= MaxDates
  }

  /** Deleting days keeps the dictionaries synced and removes exactly those
      days. */
  lemma {:induction false} DeleteFacts(st: DateState, gone: seq<int>)
    requires Synced(st)
    ensures Synced(Delete(st, gone))
    ensures Keys(Delete(st, gone).dateCounts) == Keys(st.dateCounts) - set d | d in gone
    decreases gone
  {
    if gone != [] {
      var g := gone[0];
      var next := DateState(Remove(st.dateCounts, {g}), st.dateUsers - {g});
      RemoveFacts(st.dateCounts, {g});
      assert Synced(next);
      DeleteFacts(next, gone[1..]);
      assert (set d | d in gone) == {g} + set d | d in gone[1..];
    }
  }

  /** The increments of one record keep the dictionaries synced and add
      its day. */
  lemma AddRecordSynced(st: DateState, d: int, u: string)
    requires Synced(st)
    ensures var counts := Add(st.dateCounts, d, 1);
      Synced(DateState(counts, st.dateUsers[d := Add(UsersOn(st, d), u, 1)])) &&
      Keys(counts) == Keys(st.dateCounts) + {d}
  {
    var counts := Add(st.dateCounts, d, 1);
    var users := st.dateUsers[d := Add(UsersOn(st, d), u, 1)];
    AddFacts(st.dateCounts, d, 1);
    AddPositive(st.dateCounts, d, 1);
    AddFacts(UsersOn(st, d), u, 1);
    AddPositive(UsersOn(st, d), u, 1);
    if d !in st.dateUsers {
      GetAbsent(st.dateCounts, d);
    }
    forall e | e in users
      ensures DistinctKeys(users[e]) && Positive(users[e]) && Total(users[e]) == Get(counts, e)
    {
    }
  }

  /** A record adds at most one day. */
  lemma AddOneDay(e: seq<(int, nat)>, d: int)
    requires DistinctKeys(e)
    ensures |Add(e, d, 1)| <= |e| + 1
  {
    AddFacts(e, d, 1);
    KeysCardinality(e);
    KeysCardinality(Add(e, d, 1));
  }

  /** With 21 days tracked, exactly one day is evicted: the first, in
      insertion order, of those holding the minimum count. */
  lemma EvictOne(c: seq<(int, nat)>)
    requires |c| == MaxDates + 1
    ensures WithCount(c, MinCount(c)) != []
    ensures ToRemove(c) == [WithCount(c, MinCount(c))[0]]
    ensures ToRemove(c)[0] in Keys(c)
    ensures DistinctKeys(c) ==> Get(c, ToRemove(c)[0]) == MinCount(c)
    ensures exists i :: 0 <= i < |c| && c[i] == (ToRemove(c)[0], MinCount(c)) && forall j :: 0 <= j < i ==> c[j].1 > MinCount(c)
  {
    var m := MinCount(c);
    var i := FirstMinimum(c);
    var g := WithCount(c, m)[0];
    assert ToRemove(c) == [g] by {
      assert |WithCount(c, m)| >= 1 && |c| - MaxDates == 1;
    }
    assert c[i] == (ToRemove(c)[0], m);
    assert g in Keys(c) by {
      KeysMembers(c);
      assert c[i] in c;
    }
    if DistinctKeys(c) {
      GetEntry(c, c[i]);
    }
  }

  /** The first day holding the minimum count is the day of entry `i`, and
      every earlier entry has a larger count. */
  lemma FirstMinimum(c: seq<(int, nat)>) returns (i: nat)
    requires c != []
    ensures WithCount(c, MinCount(c)) != []
    ensures i < |c| && c[i] == (WithCount(c, MinCount(c))[0], MinCount(c))
    ensures forall j :: 0 <= j < i ==> c[j].1 > MinCount(c)
  {
    var m := MinCount(c);
    var x :| x in c && x.1 == m;
    assert x.0 in WithCount(c, m);
    i := WithCountFirst(c, m);
    forall j | 0 <= j < i ensures c[j].1 > m {
      assert c[j] in c;
    }
  }

  /** Deleting one tracked day removes one entry. */
  lemma DeleteOne(st: DateState, g: int)
    requires Synced(st) && g in Keys(st.dateCounts)
    ensures Synced(Delete(st, [g]))
    ensures Delete(st, [g]).dateCounts == Remove(st.dateCounts, {g})
    ensures |Delete(st, [g]).dateCounts| == |st.dateCounts| - 1
  {
    DeleteFacts(st, [g]);
    assert Delete(st, [g]) == Delete(DateState(Remove(st.dateCounts, {g}), st.dateUsers - {g}), []);
    assert (set d | d in [g]) == {g};
    KeysCardinality(st.dateCounts);
    KeysCardinality(Delete(st, [g]).dateCounts);
  }

  /** A record keeps the state valid. An eviction happens only when the
      record brings a 21st day; it then removes exactly one day, the first
      in insertion order of those holding the minimum count. */
  lemma StepFacts(st: DateState, d: int, u: string)
    requires StateValid(st)
    ensures StateValid(Step(st, d, u))
    ensures var counts := Add(st.dateCounts, d, 1);
      if |counts| > MaxDates then
        |counts| == MaxDates + 1 && ToRemove(counts) == [WithCount(counts, MinCount(counts))[0]] &&
        (exists i :: 0 <= i < |counts| && counts[i] == (ToRemove(counts)[0], MinCount(counts)) && forall j :: 0 <= j < i ==> counts[j].1 > MinCount(counts)) &&
        Step(st, d, u).dateCounts == Remove(counts, {ToRemove(counts)[0]})
      else Step(st, d, u).dateCounts == counts
  {
    var counts := Add(st.dateCounts, d, 1);
    var users := st.dateUsers[d := Add(UsersOn(st, d), u, 1)];
    AddRecordSynced(st, d, u);
    AddOneDay(st.dateCounts, d);
    if |counts| > MaxDates {
      EvictOne(counts);
      DeleteOne(DateState(counts, users), ToRemove(counts)[0]);
    }
  }

  lemma {:induction false} TrackValid(st: DateState, records: seq<(int, string)>)
    requires StateValid(st)
    ensures StateValid(Track(st, records))
    decreases records
  {
    if records != [] {
      StepFacts(st, records[0].0, records[0].1);
      TrackValid(Step(st, records[0].0, records[0].1), records[1..]);
    }
  }

  /** A record on a tracked day, or a new day below the limit, evicts
      nothing. */
  lemma NoEvictionStep(st: DateState, d: int, u: string)
    requires StateValid(st) && |Keys(st.dateCounts) + {d}| <= MaxDates
    ensures Step(st, d, u) == DateState(Add(st.dateCounts, d, 1), st.dateUsers[d := Add(UsersOn(st, d), u, 1)])
    ensures StateValid(Step(st, d, u))
    ensures Keys(Step(st, d, u).dateCounts) == Keys(st.dateCounts) + {d}
  {
    AddRecordSynced(st, d, u);
    KeysCardinality(Add(st.dateCounts, d, 1));
    StepFacts(st, d, u);
  }

  /** The increments of the main loop alone, without eviction. */
  function Increments(st: DateState, records: seq<(int, string)>): DateState
    decreases records
  {
    if records == [] then st
    else
      var (d, u) := records[0];
      Increments(DateState(Add(st.dateCounts, d, 1), st.dateUsers[d := Add(UsersOn(st, d), u, 1)]), records[1..])
  }

  /** Without eviction, every day's count grows by its number of records
      and every (day, user) count by the number of records of that pair. */
  lemma IncrementsCount(st: DateState, records: seq<(int, string)>)
    ensures forall d :: Get(Increments(st, records).dateCounts, d) == Get(st.dateCounts, d) + Occurrences(Firsts(records), d)
    ensures forall d, u :: Get(UsersOn(Increments(st, records), d), u) == Get(UsersOn(st, d), u) + Occurrences(records, (d, u))
  {
    IncrementsDays(st, records);
    IncrementsUsers(st, records);
  }

  lemma {:induction false} IncrementsDays(st: DateState, records: seq<(int, string)>)
    ensures forall d :: Get(Increments(st, records).dateCounts, d) == Get(st.dateCounts, d) + Occurrences(Firsts(records), d)
    decreases records
  {
    if records != [] {
      var (d, u) := records[0];
      var next := DateState(Add(st.dateCounts, d, 1), st.dateUsers[d := Add(UsersOn(st, d), u, 1)]);
      assert Increments(st, records) == Increments(next, records[1..]);
      IncrementsDays(next, records[1..]);
      AddFacts(st.dateCounts, d, 1);
      assert Firsts(records) == [d] + Firsts(records[1..]);
    }
  }

  lemma {:induction false} IncrementsUsers(st: DateState, records: seq<(int, string)>)
    ensures forall d, u :: Get(UsersOn(Increments(st, records), d), u) == Get(UsersOn(st, d), u) + Occurrences(records, (d, u))
    decreases records
  {
    if records != [] {
      var (d, u) := records[0];
      var next := DateState(Add(st.dateCounts, d, 1), st.dateUsers[d := Add(UsersOn(st, d), u, 1)]);
      assert Increments(st, records) == Increments(next, records[1..]);
      IncrementsUsers(next, records[1..]);
      AddFacts(UsersOn(st, d), u, 1);
      assert forall e :: UsersOn(next, e) == if e == d then Add(UsersOn(st, d), u, 1) else UsersOn(st, e);
    }
  }

  /** While the days seen never exceed 20, nothing is evicted: the main loop
      only increments. */
  lemma {:induction false} NoEviction(st: DateState, records: seq<(int, string)>)
    requires StateValid(st)
    requires |Keys(st.dateCounts) + DaySet(records)| <= MaxDates
    ensures Track(st, records) == Increments(st, records)
    decreases records
  {
    if records != [] {
      var d, u := records[0].0, records[0].1;
      var rest := records[1..];
      FitsAfterFirst(Keys(st.dateCounts), records);
      NoEvictionStep(st, d, u);
      var next := Step(st, d, u);
      assert Track(st, records) == Track(next, rest);
      assert Increments(st, records) == Increments(next, rest);
      NoEviction(next, rest);
    }
  }

  /** The days seen after the first record, and with the rest still to come,
      are no more than all the days. */
  lemma FitsAfterFirst(seen: set<int>, records: seq<(int, string)>)
    requires records != []
    ensures |seen + {records[0].0}| <= |seen + DaySet(records)|
    ensures (seen + {records[0].0}) + DaySet(records[1..]) == seen + DaySet(records)
  {
    DaySetCons(records);
    SubsetCardinality(seen + {records[0].0}, seen + DaySet(records));
  }

  lemma DaySetCons(records: seq<(int, string)>)
    requires records != []
    ensures DaySet(records) == {records[0].0} + DaySet(records[1..])
  {
    assert records[0] in records;
    assert forall r :: r in records <==> r == records[0] || r in records[1..];
  }

  /** A subset has no more elements. */
  lemma SubsetCardinality<T>(a: set<T>, b: set<T>)
    requires a <= b
    ensures |a| <= |b|
  {
    assert b == a + (b - a);
  }

  /** `(a[1], a[0]) > (b[1], b[0])`: a higher count, or the same count and a
      greater username. */
  predicate Outranks(a: (string, nat), b: (string, nat)) {
    a.1 > b.1 || (a.1 == b.1 && StrLess(b.0, a.0))
  }

  /** Python's `max(items, key=lambda x: (x[1], x[0]))`: scanning left to
      right, an item replaces the current maximum only when it outranks it;
      no item outranks the result. */
  function MaxEntry(users: seq<(string, nat)>): (x: (string, nat))
    requires users != []
    ensures x in users
    ensures forall y :: y in users ==> !Outranks(y, x)
    decreases |users|
  {
    if |users| == 1 then
      StrLessIrreflexive(users[0].0);
      users[0]
    else
      var m := MaxEntry(users[..|users| - 1]);
      var last := users[|users| - 1];
      assert forall y :: y in users ==> y in users[..|users| - 1] || y == last by {
        assert users == users[..|users| - 1] + [last];
      }
      StrLessOrder();
      if Outranks(last, m) then last else m
  }

  /** A best user of a day: no user has a higher count, and among the users
      with that count it has the greatest username. */
  lemma BestUserIsMaximal(users: seq<(string, nat)>)
    requires users != []
    ensures var x := MaxEntry(users);
      forall y :: y in users ==> y.1 <= x.1 && (y.1 == x.1 ==> y.0 == x.0 || StrLess(y.0, x.0))
  {
    var x := MaxEntry(users);
    forall y | y in users ensures y.1 <= x.1 && (y.1 == x.1 ==> y.0 == x.0 || StrLess(y.0, x.0)) {
      if y.0 != x.0 {
        StrLessTotal(y.0, x.0);
      }
    }
  }

  /** `sorted(date_counts.items(), key=lambda x: (-x[1], x[0]))[:10]`:
      by count descending, then day ascending. */
  function TopDates(counts: seq<(int, nat)>): seq<(int, nat)> {
    Largest(SortByKey(counts, IntLess), TopCount)
  }

  /** The top days are a top 10 of the day counts, in strictly decreasing
      (count, then earlier day) order, so no day repeats. */
  lemma TopDatesFacts(counts: seq<(int, nat)>)
    requires DistinctKeys(counts)
    ensures TopOf(TopDates(counts), counts, TopCount)
    ensures var t := TopDates(counts);
      forall i, j :: 0 <= i < j < |t| ==> t[i].1 > t[j].1 || (t[i].1 == t[j].1 && t[i].0 < t[j].0)
  {
    var s := SortByKey(counts, IntLess);
    var t := TopDates(counts);
    IntLessOrder();
    SortByKeyFacts(counts, IntLess);
    SortByKeyCounts(counts, IntLess);
    LargestIsTop(s, TopCount);
    TopOfSameCounts(t, s, counts, TopCount);
    LargestKeepsTieOrder(s, TopCount);
    forall i, j | 0 <= i < j < |t| ensures t[i].1 > t[j].1 || (t[i].1 == t[j].1 && t[i].0 < t[j].0) {
      if t[i].1 == t[j].1 {
        var a, b :| 0 <= a < b < |s| && s[a] == t[i] && s[b] == t[j];
        assert IntLess(s[a].0, s[b].0);
      }
    }
  }

  /** Each top day with the best user of that day. */
  function WithBestUsers(top: seq<(int, nat)>, users: map<int, seq<(string, nat)>>): (r: seq<(int, string)>)
    requires forall x :: x in top ==> x.0 in users && users[x.0] != []
    ensures |r| == |top|
    ensures forall i :: 0 <= i < |top| ==> r[i].0 == top[i].0
    ensures forall i :: 0 <= i < |top| ==> r[i].1 == MaxEntry(users[top[i].0]).0
  {
    if top == [] then []
    else
      assert forall x :: x in top[1..] ==> x in top;
      [(top[0].0, MaxEntry(users[top[0].0]).0)] + WithBestUsers(top[1..], users)
  }

  /** A tracked day has some user. */
  lemma TopDaysHaveUsers(st: DateState)
    requires Synced(st)
    ensures forall x :: x in TopDates(st.dateCounts) ==> x.0 in st.dateUsers && st.dateUsers[x.0] != []
  {
    var s := SortByKey(st.dateCounts, IntLess);
    LargestFromInput(s, TopCount);
    forall x | x in TopDates(st.dateCounts) ensures x.0 in st.dateUsers && st.dateUsers[x.0] != [] {
      EntryFromInput(st.dateCounts, IntLess, x);
      KeysMembers(st.dateCounts);
      GetEntry(st.dateCounts, x);
      assert x.1 > 0;
    }
  }

  /** The final answer of `q1_memory` from its dictionaries. */
  function Answer(st: DateState): seq<(int, string)>
    requires Synced(st)
  {
    TopDaysHaveUsers(st);
    WithBestUsers(TopDates(st.dateCounts), st.dateUsers)
  }

  /** One readable tweet in the main loop: its day's count and its user's
      count on that day go up by one; when more than 20 days are tracked,
      the days with the smallest count (first-inserted first) are deleted
      from both dictionaries until 20 remain. */
  method RecordTweet(dateCounts: seq<(int, nat)>, dateUsers: map<int, seq<(string, nat)>>, day: int, username: string)
    returns (counts: seq<(int, nat)>, users: map<int, seq<(string, nat)>>)
    ensures DateState(counts, users) == Step(DateState(dateCounts, dateUsers), day, username)
  {
    counts := Add(dateCounts, day, 1);
    var onDay := if day in dateUsers then dateUsers[day] else [];
    users := dateUsers[day := Add(onDay, username, 1)];
    if |counts| > MaxDates {
      var gone := ToRemove(counts);
      ghost var added := DateState(counts, users);
      for j := 0 to |gone|
        invariant Delete(DateState(counts, users), gone[j..]) == Delete(added, gone)
      {
        assert gone[j..][0] == gone[j] && gone[j..][1..] == gone[j + 1..];
        counts := Remove(counts, {gone[j]});
        users := users - {gone[j]};
      }
    }
  }

  /** `q1_memory` on decoded lines (`None` for a line that is not a JSON
      object): the answer computed from the dictionaries the main loop
      leaves, which track at most 20 days. */
  method Q1Memory(lines: seq<Option<Tweet>>) returns (r: seq<(int, string)>)
    ensures StateValid(Track(DateState([], map[]), ReadTweets(lines)))
    ensures r == Answer(Track(DateState([], map[]), ReadTweets(lines)))
    ensures |r| <= TopCount
    ensures ReadTweets(lines) == [] ==> r == []
  {
    var dateCounts: seq<(int, nat)> := [];
    var dateUsers: map<int, seq<(string, nat)>> := map[];
    ghost var start := DateState([], map[]);
    for i := 0 to |lines|
      invariant Track(DateState(dateCounts, dateUsers), ReadTweets(lines[i..])) == Track(start, ReadTweets(lines))
    {
      assert lines[i..][0] == lines[i] && lines[i..][1..] == lines[i + 1..];
      var record := ReadTweet(lines[i]);
      if record.Some? {
        assert ReadTweets(lines[i..]) == [record.value] + ReadTweets(lines[i + 1..]);
        dateCounts, dateUsers := RecordTweet(dateCounts, dateUsers, record.value.0, record.value.1);
      } else {
        assert ReadTweets(lines[i..]) == ReadTweets(lines[i + 1..]);
      }
    }
    assert lines[|lines|..] == [];
    TrackValid(start, ReadTweets(lines));
    r := Answer(DateState(dateCounts, dateUsers));
  }

  /** The answer pairs each of the top days (a top 10 of the tracked day
      counts) with a user of that day whom no user of the day beats: none
      has a higher count, and those with the same count have a smaller
      username. */
  lemma AnswerFacts(st: DateState)
    requires Synced(st)
    ensures TopOf(TopDates(st.dateCounts), st.dateCounts, TopCount)
    ensures |Answer(st)| == |TopDates(st.dateCounts)|
    ensures forall i :: 0 <= i < |Answer(st)| ==>
      var (d, u) := Answer(st)[i];
      d == TopDates(st.dateCounts)[i].0 && d in st.dateUsers && Get(st.dateUsers[d], u) > 0 &&
      forall y :: y in st.dateUsers[d] ==>
        y.1 <= Get(st.dateUsers[d], u) && (y.1 == Get(st.dateUsers[d], u) ==> y.0 == u || StrLess(y.0, u))
  {
    var t := TopDates(st.dateCounts);
    TopDatesFacts(st.dateCounts);
    TopDaysHaveUsers(st);
    forall i | 0 <= i < |Answer(st)|
      ensures var (d, u) := Answer(st)[i];
        d == t[i].0 && d in st.dateUsers && Get(st.dateUsers[d], u) > 0 &&
        forall y :: y in st.dateUsers[d] ==>
          y.1 <= Get(st.dateUsers[d], u) && (y.1 == Get(st.dateUsers[d], u) ==> y.0 == u || StrLess(y.0, u))
    {
      assert t[i] in t;
      var users := st.dateUsers[t[i].0];
      var x := MaxEntry(users);
      BestUserIsMaximal(users);
      GetEntry(users, x);
    }
  }

  /** While the tweets fall on at most 20 distinct days, nothing is ever
      evicted and the dictionaries hold exact counts: every day's number of
      readable tweets and every (day, user) pair's number of tweets. */
  lemma FewDaysExact(lines: seq<Option<Tweet>>)
    requires |DaySet(ReadTweets(lines))| <= MaxDates
    ensures var st := Track(DateState([], map[]), ReadTweets(lines));
      (forall d :: Get(st.dateCounts, d) == Occurrences(Firsts(ReadTweets(lines)), d)) &&
      (forall d, u :: Get(UsersOn(st, d), u) == Occurrences(ReadTweets(lines), (d, u)))
  {
    var start := DateState([], map[]);
    var records := ReadTweets(lines);
    assert Keys(start.dateCounts) + DaySet(records) == DaySet(records);
    NoEviction(start, records);
    IncrementsCount(start, records);
  }
}
