/** Values shared by the three queries: options, results, the JSON field
    values a query reads from a tweet, and the repository error. */
module Common {

  datatype Option<+T> = None | Some(value: T) {
    function GetOr(default: T): T {
      match this
      case Some(v) => v
      case None => default
    }
  }

  /** Why a query raised `TweetRepositoryError` (src/utils/exceptions.py:1). */
  datatype Failure =
    | MissingColumns(columns: seq<string>)  // a required DataFrame column is absent
    | MalformedLine                         // a line decoded to something that is not an object
    | MalformedRecord                       // a row the vectorised conversion cannot handle
    | NoChunks                              // np.array_split asked for zero pieces
    | ZeroFrequency                         // `% 0` in the cleanup test

  datatype Result<+T> = Ok(value: T) | Err(failure: Failure)

  /** A JSON field value as the queries see it: absent (or null), a string,
      or some other scalar (a number or a boolean), which is truthy or not. */
  datatype Value = Missing | Str(s: string) | Scalar(truthy: bool)

  /** One line of the tweet file, once `json.loads` has run on it: not JSON
      at all, JSON that is not an object (so `.get` raises), or an object
      with the value of its `content` field. */
  datatype Line = Undecodable | NonObject | Record(content: Value)

  /** Python truthiness of a field value: `if content := tweet.get('content')`. */
  predicate Truthy(v: Value) {
    match v
    case Missing => false
    case Str(s) => s != ""
    case Scalar(t) => t
  }

  /** The texts a streaming query takes from decoded lines: the truthy
      `content` values of the object lines, in file order; no other line contributes a text. */
  function TweetContents(lines: seq<Line>): (vs: seq<Value>)
    ensures |vs| <= |lines|
    ensures forall v :: v in vs ==> Truthy(v)
  {
    if lines == [] then []
    else
      var rest := TweetContents(lines[1..]);
      match lines[0]
      case Record(v) => if Truthy(v) then [v] + rest else rest
      case _ => rest
  }

  /** Every text comes from an object line, and every truthy `content` of an
      object line is among the texts. */
  lemma {:induction false} TweetContentsFrom(lines: seq<Line>)
    ensures forall v :: v in TweetContents(lines) ==> Record(v) in lines
    ensures forall l :: l in lines && l.Record? && Truthy(l.content) ==> l.content in TweetContents(lines)
  {
    if lines != [] {
      TweetContentsFrom(lines[1..]);
      assert forall l :: l in lines ==> l == lines[0] || l in lines[1..];
    }
  }

  lemma {:induction false} TweetContentsAppend(a: seq<Line>, b: seq<Line>)
    ensures TweetContents(a + b) == TweetContents(a) + TweetContents(b)
  {
    if a == [] {
      assert a + b == b;
    } else {
      assert (a + b)[0] == a[0] && (a + b)[1..] == a[1..] + b;
      TweetContentsAppend(a[1..], b);
    }
  }

  /** The `date` field of a tweet: absent or null, not a date the parser
      accepts, or a calendar day (an opaque, ordered day number). */
  datatype DateField = NoDate | BadDate | Day(day: int)

  /** The `user` field: a value without `.get` (absent, null, a string or a
      number), or an object with its `username` field, if it has one. */
  datatype UserField = NotAnObject | UserObject(username: Option<string>)

  /** The two fields of a tweet that the date queries read. */
  datatype Tweet = Tweet(date: DateField, user: UserField)

  /** A positive count below the period is not a multiple of it. */
  lemma NotAMultiple(x: int, p: int)
    requires 0 < x < p
    ensures x % p != 0
  {
  }

  /** The set of days of the records. */
  function DaySet(records: seq<(int, string)>): set<int> {
    set r | r in records :: r.0
  }
}
