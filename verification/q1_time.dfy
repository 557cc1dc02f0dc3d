/** The group-by date query: the frame's rows are counted per (day, user)
    pair, the pair counts are summed per day, the 10 days with the largest
    totals are chosen, and each chosen day is paired with its first user of
    largest count; the answer lists the chosen days in ascending order. */
module DatesTime {
  import opened Common
  import opened Counters
  import opened Ranking
  import opened KeySort

  /** The frame `pd.read_json` builds: its column names and, per line, the
      two fields the query reads. */
  datatype Frame = Frame(columns: set<string>, rows: seq<Tweet>)

  /** `[col for col in required if col not in columns]`, in the order of
      `required`. */
  function MissingOf(required: seq<string>, columns: set<string>): (r: seq<string>)
    ensures forall c :: c in r <==> c in required && c !in columns
    ensures |r| <= |required|
  {
    if required == [] then []
    else
      assert forall c :: c in required <==> c == required[0] || c in required[1..] by {
        assert required == [required[0]] + required[1..];
      }
      (if required[0] in columns then [] else [required[0]]) + MissingOf(required[1..], columns)
  }

  /** The `(date, username)` rows that reach the group-by: a row with no date
      (`NaT`) is dropped by it, and a user object without `username` counts
      under `''`. */
  function Pairs(rows: seq<Tweet>): (ps: seq<(int, string)>)
    ensures |ps| <= |rows|
  {
    if rows == [] then []
    else
      (match rows[0]
       case Tweet(Day(d), UserObject(name)) => [(d, name.GetOr(""))]
       case _ => []) + Pairs(rows[1..])
  }

  /** The group-by order on `(date, username)` keys: by date, then by
      username. */
  predicate PairLess(a: (int, string), b: (int, string)) {
    a.0 < b.0 || (a.0 == b.0 && StrLess(a.1, b.1))
  }

  lemma PairLessOrder()
    ensures StrictTotalOrder(PairLess)
  {
    StrLessOrder();
  }

  /** `df.groupby(['date', 'username']).size()`: every pair's number of rows,
      keys in ascending (date, username) order. */
  function Grouped(pairs: seq<(int, string)>): (g: seq<((int, string), nat)>)
    ensures Ascending(g, PairLess) && DistinctKeys(g) && Positive(g)
    ensures forall p :: Get(g, p) == Occurrences(pairs, p)
  {
    var counts := CountOf(pairs);
    PairLessOrder();
    SortByKeyFacts(counts, PairLess);
    SortByKeyCounts(counts, PairLess);
    forall x | x in SortByKey(counts, PairLess) ensures x.1 > 0 {
      EntryFromInput(counts, PairLess, x);
    }
    SortByKey(counts, PairLess)
  }

  /** The sum of the counts of the pairs on day `d`. */
  function DaySum(g: seq<((int, string), nat)>, d: int): nat {
    if g == [] then 0 else (if g[0].0.0 == d then g[0].1 else 0) + DaySum(g[1..], d)
  }

  lemma {:induction false} DaySumAppend(a: seq<((int, string), nat)>, b: seq<((int, string), nat)>, d: int)
    ensures DaySum(a + b, d) == DaySum(a, d) + DaySum(b, d)
  {
    if a == [] {
      assert a + b == b;
    } else {
      assert (a + b)[0] == a[0] && (a + b)[1..] == a[1..] + b;
      DaySumAppend(a[1..], b, d);
    }
  }

  /** Sorting the pairs does not change a day's sum. */
  lemma {:induction false} DaySumSort(s: seq<((int, string), nat)>, d: int)
    ensures DaySum(SortByKey(s, PairLess), d) == DaySum(s, d)
  {
    if s != [] {
      var t := SortByKey(s[1..], PairLess);
      var p := Below(s[0].0, t, PairLess);
      DaySumSort(s[1..], d);
      assert t == t[..p] + t[p..];
      DaySumAppend(t[..p], t[p..], d);
      DaySumAppend(t[..p] + [s[0]], t[p..], d);
      DaySumAppend(t[..p], [s[0]], d);
    }
  }

  /** Counting one more row of a pair adds to its day's sum only. */
  lemma {:induction false} DaySumAdd(e: seq<((int, string), nat)>, k: (int, string), n: nat, d: int)
    ensures DaySum(Add(e, k, n), d) == DaySum(e, d) + if k.0 == d then n else 0
  {
    if e != [] && e[0].0 != k {
      DaySumAdd(e[1..], k, n, d);
      assert Add(e, k, n)[1..] == Add(e[1..], k, n);
    }
  }

  lemma {:induction false} DaySumUpdate(e: seq<((int, string), nat)>, ks: seq<(int, string)>, d: int)
    ensures DaySum(Update(e, ks), d) == DaySum(e, d) + Occurrences(Firsts(ks), d)
    decreases ks
  {
    if ks != [] {
      DaySumAdd(e, ks[0], 1, d);
      DaySumUpdate(Add(e, ks[0], 1), ks[1..], d);
      assert Firsts(ks) == [ks[0].0] + Firsts(ks[1..]);
    }
  }

  /** A day's sum over the grouped pairs is its number of rows. */
  lemma DaySumGrouped(pairs: seq<(int, string)>, d: int)
    ensures DaySum(Grouped(pairs), d) == Occurrences(Firsts(pairs), d)
  {
    DaySumSort(CountOf(pairs), d);
    DaySumUpdate([], pairs, d);
  }

  /** `groupby('date')['count'].sum()`, before its keys are sorted. */
  function SumByDay(g: seq<((int, string), nat)>): seq<(int, nat)> {
    if g == [] then [] else Add(SumByDay(g[1..]), g[0].0.0, g[0].1)
  }

  lemma {:induction false} SumByDayFacts(g: seq<((int, string), nat)>)
    ensures DistinctKeys(SumByDay(g))
    ensures Positive(g) ==> Positive(SumByDay(g))
    ensures forall d :: Get(SumByDay(g), d) == DaySum(g, d)
  {
    if g != [] {
      SumByDayFacts(g[1..]);
      AddFacts(SumByDay(g[1..]), g[0].0.0, g[0].1);
      if Positive(g) {
        assert g[0] in g;
        assert forall x :: x in g[1..] ==> x in g;
        AddPositive(SumByDay(g[1..]), g[0].0.0, g[0].1);
      }
    }
  }

  /** The per-day totals, days ascending, as pandas returns them. */
  function DateTotals(pairs: seq<(int, string)>): seq<(int, nat)> {
    SortByKey(SumByDay(Grouped(pairs)), IntLess)
  }

  /** Every day's total is its number of rows; the days are ascending and
      are exactly the days of the rows. */
  lemma DateTotalsFacts(pairs: seq<(int, string)>)
    ensures Ascending(DateTotals(pairs), IntLess)
    ensures DistinctKeys(DateTotals(pairs)) && Positive(DateTotals(pairs))
    ensures forall d :: Get(DateTotals(pairs), d) == Occurrences(Firsts(pairs), d)
    ensures Keys(DateTotals(pairs)) == DaySet(pairs)
  {
    var sums := SumByDay(Grouped(pairs));
    var t := DateTotals(pairs);
    SumByDayFacts(Grouped(pairs));
    IntLessOrder();
    SortByKeyFacts(sums, IntLess);
    SortByKeyCounts(sums, IntLess);
    forall x | x in t ensures x.1 > 0 {
      EntryFromInput(sums, IntLess, x);
    }
    forall d ensures Get(t, d) == Occurrences(Firsts(pairs), d) {
      DaySumGrouped(pairs, d);
    }
    KeysByCount(t);
    forall d ensures d in Keys(t) <==> d in DaySet(pairs) {
      OccurrencesDays(pairs, d);
    }
  }

  /** A day occurs among the days of the records exactly when some record
      falls on it. */
  lemma {:induction false} OccurrencesDays(records: seq<(int, string)>, d: int)
    ensures Occurrences(Firsts(records), d) > 0 <==> d in DaySet(records)
  {
    if records != [] {
      OccurrencesDays(records[1..], d);
      assert Firsts(records) == [records[0].0] + Firsts(records[1..]);
      assert records == [records[0]] + records[1..];
      assert DaySet(records) == {records[0].0} + DaySet(records[1..]);
    }
  }

  /** The users of day `d` with their counts, in the grouped order. */
  function UsersOnDay(g: seq<((int, string), nat)>, d: int): seq<(string, nat)> {
    if g == [] then []
    else (if g[0].0.0 == d then [(g[0].0.1, g[0].1)] else []) + UsersOnDay(g[1..], d)
  }

  /** The users of a day are the grouped pairs of that day: their counts add
      up to the day's sum, and each user's count is its pair's count. */
  lemma {:induction false} UsersOnDayFacts(g: seq<((int, string), nat)>, d: int)
    ensures forall x :: x in UsersOnDay(g, d) ==> ((d, x.0), x.1) in g
    ensures Total(UsersOnDay(g, d)) == DaySum(g, d)
    ensures forall u :: Get(UsersOnDay(g, d), u) == Get(g, (d, u))
  {
    if g != [] {
      var rest := UsersOnDay(g[1..], d);
      UsersOnDayFacts(g[1..], d);
      assert forall x :: x in g[1..] ==> x in g;
      if g[0].0.0 == d {
        assert UsersOnDay(g, d)[1..] == rest;
      } else {
        assert UsersOnDay(g, d) == rest;
      }
    }
  }

  /** The users of a day come in ascending username order. */
  lemma {:induction false} UsersOnDayAscending(g: seq<((int, string), nat)>, d: int)
    requires Ascending(g, PairLess)
    ensures Ascending(UsersOnDay(g, d), StrLess)
  {
    if g != [] {
      UsersOnDayAscending(g[1..], d);
      var rest := UsersOnDay(g[1..], d);
      if g[0].0.0 == d {
        var us := UsersOnDay(g, d);
        UsersOnDayFacts(g[1..], d);
        assert us[1..] == rest;
        forall i, j | 0 <= i < j < |us| ensures StrLess(us[i].0, us[j].0) {
          if i == 0 {
            assert us[j] in rest;
            var k :| 0 <= k < |g[1..]| && g[1..][k] == ((d, us[j].0), us[j].1);
            assert PairLess(g[0].0, g[k + 1].0);
          } else {
            assert us[i] == rest[i - 1] && us[j] == rest[j - 1];
          }
        }
      }
    }
  }

  /** Hence no user of a day appears twice. */
  lemma UsersOnDayDistinct(g: seq<((int, string), nat)>, d: int)
    requires Ascending(g, PairLess)
    ensures Ascending(UsersOnDay(g, d), StrLess) && DistinctKeys(UsersOnDay(g, d))
  {
    UsersOnDayAscending(g, d);
    StrLessOrder();
    AscendingDistinct(UsersOnDay(g, d), StrLess);
  }

  /** `.first()` of the rows of day `d` sorted by count, descending: the
      first of its users (in username order) with the largest count. */
  function BestUser(g: seq<((int, string), nat)>, d: int): string
    requires UsersOnDay(g, d) != []
  {
    Largest(UsersOnDay(g, d), 1)[0].0
  }

  /** The chosen days, each with its best user. */
  function WithUsers(days: seq<(int, nat)>, g: seq<((int, string), nat)>): (r: seq<(int, string)>)
    requires forall i :: 0 <= i < |days| ==> UsersOnDay(g, days[i].0) != []
    ensures |r| == |days|
    ensures forall i :: 0 <= i < |days| ==> r[i].0 == days[i].0
    ensures forall i :: 0 <= i < |days| ==> r[i].1 == BestUser(g, days[i].0)
  {
    if days == [] then []
    else
      var rest := WithUsers(days[1..], g);
      [(days[0].0, BestUser(g, days[0].0))] + rest
  }

  /** `date_counts.nlargest(10)`: the 10 largest totals, ties toward the
      earlier day. */
  function TopTotals(pairs: seq<(int, string)>): seq<(int, nat)> {
    Largest(DateTotals(pairs), 10)
  }

  /** Every chosen day has a user. */
  lemma ChosenDaysHaveUsers(pairs: seq<(int, string)>)
    ensures forall i :: 0 <= i < |SortByKey(TopTotals(pairs), IntLess)| ==>
      UsersOnDay(Grouped(pairs), SortByKey(TopTotals(pairs), IntLess)[i].0) != []
  {
    var totals := DateTotals(pairs);
    DateTotalsFacts(pairs);
    LargestFromInput(totals, 10);
    var days := SortByKey(TopTotals(pairs), IntLess);
    forall i | 0 <= i < |days| ensures UsersOnDay(Grouped(pairs), days[i].0) != [] {
      var x := days[i];
      EntryFromInput(TopTotals(pairs), IntLess, x);
      assert x in totals;
      GetEntry(totals, x);
      DaySumGrouped(pairs, x.0);
      UsersOnDayFacts(Grouped(pairs), x.0);
    }
  }

  /** The answer for the rows that reach the group-by. */
  function Answer(pairs: seq<(int, string)>): seq<(int, string)> {
    var days := SortByKey(TopTotals(pairs), IntLess);
    ChosenDaysHaveUsers(pairs);
    WithUsers(days, Grouped(pairs))
  }

  /** A date column holding a value the date parser rejects. */
  predicate AnyBadDate(rows: seq<Tweet>) {
    exists t :: t in rows && t.date.BadDate?
  }

  /** A user column holding a value without `.get`. */
  predicate AnyNonObjectUser(rows: seq<Tweet>) {
    exists t :: t in rows && t.user.NotAnObject?
  }

  /** `q1_time` on the frame read from the file: a missing `date` or `user`
      column raises, naming the missing columns in that order; a date the
      parser rejects or a user without `.get` raises; otherwise the chosen
      days with their best users. */
  function Q1Time(frame: Frame): (r: Result<seq<(int, string)>>)
    ensures r.Err? <==> MissingOf(["date", "user"], frame.columns) != [] || AnyBadDate(frame.rows) || AnyNonObjectUser(frame.rows)
    ensures MissingOf(["date", "user"], frame.columns) != [] ==> r == Err(MissingColumns(MissingOf(["date", "user"], frame.columns)))
    ensures r.Err? && MissingOf(["date", "user"], frame.columns) == [] ==> r == Err(MalformedRecord)
    ensures r.Ok? ==> r.value == Answer(Pairs(frame.rows))
  {
    var missing := MissingOf(["date", "user"], frame.columns);
    if missing != [] then Err(MissingColumns(missing))
    else if AnyBadDate(frame.rows) || AnyNonObjectUser(frame.rows) then Err(MalformedRecord)
    else Ok(Answer(Pairs(frame.rows)))
  }

  /** The chosen days are a top 10 of the day totals: 10 of them, or all
      the days when there are fewer. */
  lemma TopTotalsFacts(pairs: seq<(int, string)>)
    ensures TopOf(TopTotals(pairs), DateTotals(pairs), 10)
    ensures |TopTotals(pairs)| == if |DaySet(pairs)| < 10 then |DaySet(pairs)| else 10
  {
    DateTotalsFacts(pairs);
    KeysCardinality(DateTotals(pairs));
    LargestIsTop(DateTotals(pairs), 10);
  }

  /** The chosen days, sorted, are ascending and are the chosen days. */
  lemma ChosenDaysAscending(pairs: seq<(int, string)>)
    ensures Ascending(SortByKey(TopTotals(pairs), IntLess), IntLess)
    ensures Keys(SortByKey(TopTotals(pairs), IntLess)) == Keys(TopTotals(pairs))
  {
    DateTotalsFacts(pairs);
    LargestKeepsCounts(DateTotals(pairs), 10);
    IntLessOrder();
    SortByKeyFacts(TopTotals(pairs), IntLess);
  }

  /** A list of (day, user) pairs taken index by index from a list of day
      counts holds the same days. */
  lemma SameDays(r: seq<(int, string)>, days: seq<(int, nat)>)
    requires |r| == |days| && forall i :: 0 <= i < |r| ==> r[i].0 == days[i].0
    ensures (set x | x in r :: x.0) == Keys(days)
  {
    KeysMembers(days);
    forall k | k in Keys(days) ensures k in (set x | x in r :: x.0) {
      var y :| y in days && y.0 == k;
      var i :| 0 <= i < |days| && days[i] == y;
      assert r[i] in r;
    }
    forall k | k in (set x | x in r :: x.0) ensures k in Keys(days) {
      var y :| y in r && y.0 == k;
      var i :| 0 <= i < |r| && r[i] == y;
      assert days[i] in days;
    }
  }

  /** The answer lists the chosen days once each, in ascending order, and
      no rows give an empty answer. */
  lemma AnswerDays(pairs: seq<(int, string)>)
    ensures |Answer(pairs)| == |TopTotals(pairs)|
    ensures forall i, j :: 0 <= i < j < |Answer(pairs)| ==> Answer(pairs)[i].0 < Answer(pairs)[j].0
    ensures (set x | x in Answer(pairs) :: x.0) == Keys(TopTotals(pairs))
    ensures pairs == [] ==> Answer(pairs) == []
  {
    var days := SortByKey(TopTotals(pairs), IntLess);
    ChosenDaysAscending(pairs);
    ChosenDaysHaveUsers(pairs);
    SameDays(Answer(pairs), days);
    if pairs == [] {
      TopTotalsFacts(pairs);
    }
  }

  /** Each chosen day is paired with a user of largest count on that day,
      the smallest username among the users tied at that count. */
  lemma AnswerUsers(pairs: seq<(int, string)>)
    ensures var r := Answer(pairs);
      forall i :: 0 <= i < |r| ==>
        var (d, u) := r[i];
        Occurrences(pairs, (d, u)) > 0 &&
        forall v :: Occurrences(pairs, (d, v)) <= Occurrences(pairs, (d, u)) &&
          (Occurrences(pairs, (d, v)) == Occurrences(pairs, (d, u)) ==> v == u || StrLess(u, v))
  {
    forall i | 0 <= i < |Answer(pairs)| {
      AnswerUserAt(pairs, i);
    }
  }

  /** The user of the `i`-th answer pair. */
  lemma AnswerUserAt(pairs: seq<(int, string)>, i: nat)
    requires i < |Answer(pairs)|
    ensures var (d, u) := Answer(pairs)[i];
      Occurrences(pairs, (d, u)) > 0 &&
      forall v :: Occurrences(pairs, (d, v)) <= Occurrences(pairs, (d, u)) &&
        (Occurrences(pairs, (d, v)) == Occurrences(pairs, (d, u)) ==> v == u || StrLess(u, v))
  {
    var g := Grouped(pairs);
    var days := SortByKey(TopTotals(pairs), IntLess);
    ChosenDaysHaveUsers(pairs);
    assert Answer(pairs)[i] == (days[i].0, BestUser(g, days[i].0));
    BestUserFacts(g, days[i].0);
  }

  /** The best user of a day has the largest count among its users and the
      smallest username among those tied with it. */
  lemma BestUserFacts(g: seq<((int, string), nat)>, d: int)
    requires Ascending(g, PairLess) && Positive(g)
    requires UsersOnDay(g, d) != []
    ensures var u := BestUser(g, d);
      Get(g, (d, u)) > 0 &&
      forall v :: Get(g, (d, v)) <= Get(g, (d, u)) &&
        (Get(g, (d, v)) == Get(g, (d, u)) ==> v == u || StrLess(u, v))
  {
    var us := UsersOnDay(g, d);
    var i := FirstLargest(us);
    UsersOnDayFacts(g, d);
    UsersOnDayDistinct(g, d);
    assert us[i] in us;
    assert ((d, us[i].0), us[i].1) in g;
    forall v ensures Get(us, v) <= us[i].1 && (Get(us, v) == us[i].1 ==> v == us[i].0 || StrLess(us[i].0, v)) {
      FirstLargestBeatsAll(us, i, v);
    }
    GetEntry(us, us[i]);
  }

  /** In a list ascending by username, the first entry of largest count
      (positive) has a count no other user exceeds, and every user tied with
      it comes later in username order. */
  lemma FirstLargestBeatsAll(us: seq<(string, nat)>, i: nat, v: string)
    requires Ascending(us, StrLess) && DistinctKeys(us)
    requires i < |us| && us[i].1 > 0
    requires forall j :: 0 <= j < |us| ==> us[j].1 <= us[i].1
    requires forall j :: 0 <= j < i ==> us[j].1 < us[i].1
    ensures Get(us, v) <= us[i].1
    ensures Get(us, v) == us[i].1 ==> v == us[i].0 || StrLess(us[i].0, v)
  {
    if v in Keys(us) {
      KeysMembers(us);
      var y :| y in us && y.0 == v;
      var j :| 0 <= j < |us| && us[j] == y;
      GetEntry(us, y);
      if us[j].1 == us[i].1 && j != i {
        assert i < j;
      }
    } else {
      GetAbsent(us, v);
    }
  }
}
