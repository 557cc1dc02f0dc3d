/** The mention pattern `@([a-zA-Z0-9_]+)` shared by both mention queries,
    and what `findall` returns for it: the text after each '@' that is
    followed by at least one ASCII letter, digit or underscore, up to the
    end of that run. */
module MentionPattern {
  import opened Common

  /** The character class `[a-zA-Z0-9_]`. */
  predicate IsWordChar(c: char) {
    ('a' <= c <= 'z') || ('A' <= c <= 'Z') || ('0' <= c <= '9') || c == '_'
  }

  /** The end of the longest run of word characters starting at `i`. */
  function RunEnd(s: string, i: nat): (j: nat)
    requires i <= |s|
    ensures i <= j <= |s|
    ensures forall k :: i <= k < j ==> IsWordChar(s[k])
    ensures j < |s| ==> !IsWordChar(s[j])
    decreases |s| - i
  {
    if i < |s| && IsWordChar(s[i]) then RunEnd(s, i + 1) else i
  }

  /** A match of the pattern starts at `i`. */
  predicate MentionAt(s: string, i: nat) {
    i + 1 < |s| && s[i] == '@' && IsWordChar(s[i + 1])
  }

  /** The regular-expression scan from position `i`: try a match at the
      current position; a match consumes the '@' and the longest run after
      it (the `+` is greedy), otherwise move one character on. */
  function Scan(s: string, i: nat): seq<string>
    requires i <= |s|
    decreases |s| - i
  {
    if i == |s| then []
    else if MentionAt(s, i) then
      var j := RunEnd(s, i + 1);
      [s[i + 1..j]] + Scan(s, j)
    else Scan(s, i + 1)
  }

  /** `pattern.findall(text)`: the captured groups, left to right. */
  function FindMentions(s: string): seq<string> {
    Scan(s, 0)
  }

  /** Reference reading of the pattern: one mention for every '@' that is
      followed by a word character, in the order of those '@'s. */
  function MentionsFrom(s: string, i: nat): seq<string>
    decreases |s| - i
  {
    if i >= |s| then []
    else (if MentionAt(s, i) then [s[i + 1..RunEnd(s, i + 1)]] else []) + MentionsFrom(s, i + 1)
  }

  /** A stretch of word characters holds no '@', so no match starts in it. */
  lemma {:induction false} SkipWordRun(s: string, i: nat, j: nat)
    requires i <= j <= |s|
    requires forall k :: i <= k < j ==> IsWordChar(s[k])
    ensures MentionsFrom(s, i) == MentionsFrom(s, j)
    decreases j - i
  {
    if i < j {
      assert !MentionAt(s, i);
      SkipWordRun(s, i + 1, j);
    }
  }

  /** The scan finds exactly the matches of the reference reading: no '@'
      followed by a word character is ever swallowed by an earlier match. */
  lemma {:induction false} ScanMatchesReference(s: string, i: nat)
    requires i <= |s|
    ensures Scan(s, i) == MentionsFrom(s, i)
    decreases |s| - i
  {
    if i < |s| {
      if MentionAt(s, i) {
        var j := RunEnd(s, i + 1);
        ScanMatchesReference(s, j);
        SkipWordRun(s, i + 1, j);
      } else {
        ScanMatchesReference(s, i + 1);
      }
    }
  }

  /** Every mention the reference reading yields is a non-empty run of word
      characters without the '@'. */
  lemma {:induction false} ReferenceMentionsAreWords(s: string, i: nat)
    ensures forall m :: m in MentionsFrom(s, i) ==>
      |m| > 0 && '@' !in m && forall k :: 0 <= k < |m| ==> IsWordChar(m[k])
    decreases |s| - i
  {
    if i < |s| {
      ReferenceMentionsAreWords(s, i + 1);
      if MentionAt(s, i) {
        var m := s[i + 1..RunEnd(s, i + 1)];
        assert forall k :: 0 <= k < |m| ==> IsWordChar(m[k]) && m[k] != '@';
      }
    }
  }

  /** Every extracted mention is non-empty, holds no '@', and consists only
      of ASCII letters, digits and '_'. */
  lemma MentionsAreWords(s: string)
    ensures forall m :: m in FindMentions(s) ==>
      |m| > 0 && '@' !in m && forall k :: 0 <= k < |m| ==> IsWordChar(m[k])
  {
    ScanMatchesReference(s, 0);
    ReferenceMentionsAreWords(s, 0);
  }

  /** The reference reading yields nothing exactly when no '@' is followed by
      a word character. */
  lemma {:induction false} ReferenceEmpty(s: string, i: nat)
    ensures MentionsFrom(s, i) == [] <==> forall k :: i <= k < |s| ==> !MentionAt(s, k)
    decreases |s| - i
  {
    if i < |s| {
      ReferenceEmpty(s, i + 1);
    }
  }

  /** A text yields no mention exactly when none of its '@'s is followed by a
      word character. */
  lemma NoMentions(s: string)
    ensures FindMentions(s) == [] <==> forall k :: 0 <= k < |s| ==> !MentionAt(s, k)
  {
    ScanMatchesReference(s, 0);
    ReferenceEmpty(s, 0);
  }

  /** `extract_mentions_fast`: the pattern's matches for a string, nothing
      for any other value. */
  function ExtractMentionsFast(v: Value): (ms: seq<string>)
    ensures !v.Str? ==> ms == []
    ensures forall m :: m in ms ==> |m| > 0 && '@' !in m && forall k :: 0 <= k < |m| ==> IsWordChar(m[k])
  {
    match v
    case Str(s) =>
      MentionsAreWords(s);
      FindMentions(s)
    case _ => []
  }

  /** The mentions of several values, one value after the other. */
  function AllMentions(vs: seq<Value>): seq<string> {
    if vs == [] then [] else ExtractMentionsFast(vs[0]) + AllMentions(vs[1..])
  }

  lemma {:induction false} AllMentionsAppend(a: seq<Value>, b: seq<Value>)
    ensures AllMentions(a + b) == AllMentions(a) + AllMentions(b)
  {
    if a == [] {
      assert a + b == b;
    } else {
      assert (a + b)[0] == a[0] && (a + b)[1..] == a[1..] + b;
      AllMentionsAppend(a[1..], b);
    }
  }
}
