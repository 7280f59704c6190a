/** The text normaliser of the FAQ chatbot (`preprocess` in main.py):
    lower-case the text, delete every ASCII punctuation character, split
    on runs of whitespace, drop the stopwords and join what is left with
    single spaces. Characters are Dafny `char`s; only the ASCII behaviour
    of Python's `str.lower` and `str.split` is modelled. */
module Normalizer {

  /* ---------------------------------------------------------------- */
  /* Character classes                                                 */
  /* ---------------------------------------------------------------- */

  /** Python's `string.punctuation`: the 32 printable ASCII characters
      that are neither letters, digits nor whitespace. */
  const Punctuation: string := "!\"#$%&'()*+,-./:;<=>?@[\\]^_`{|}~"

  predicate IsUpper(c: char) {
    'A' <= c <= 'Z'
  }

  /** Membership in `Punctuation`, written as the four ASCII ranges
      that make it up (see `PunctuationRanges`). */
  predicate IsPunctuation(c: char) {
    '!' <= c <= '/' || ':' <= c <= '@' || '[' <= c <= '`' || '{' <= c <= '~'
  }

  /** The ASCII characters that Python's argument-less `str.split`
      treats as separators: space, tab, line feed, vertical tab, form
      feed, carriage return and the four information separators
      0x1C-0x1F. */
  predicate IsWhitespace(c: char) {
    c == ' ' || '\t' <= c <= '\r' || '\U{1C}' <= c <= '\U{1F}'
  }

  /** The range test agrees with the 32 characters of `Punctuation`. */
  lemma PunctuationRanges(c: char)
    ensures |Punctuation| == 32
    ensures IsPunctuation(c) <==> c in Punctuation
  {
  }

  predicate NotUpper(c: char) { !IsUpper(c) }

  predicate NotPunctuation(c: char) { !IsPunctuation(c) }

  predicate NotWhitespace(c: char) { !IsWhitespace(c) }

  /** Every character of `s` satisfies `p`. */
  predicate AllChars(s: string, p: char -> bool) {
    forall i :: 0 <= i < |s| ==> p(s[i])
  }

  /** A token as `str.split` produces it: non-empty, without whitespace. */
  predicate IsToken(w: string) {
    w != [] && AllChars(w, NotWhitespace)
  }

  predicate AllTokens(ts: seq<string>) {
    forall i :: 0 <= i < |ts| ==> IsToken(ts[i])
  }

  /** Whitespace occurs only as single spaces strictly between two
      non-whitespace characters: no leading, trailing or doubled
      separator, and no separator other than ' '. */
  predicate SingleSpaced(s: string) {
    forall i :: 0 <= i < |s| && IsWhitespace(s[i]) ==>
      s[i] == ' ' && 0 < i < |s| - 1 && !IsWhitespace(s[i - 1]) && !IsWhitespace(s[i + 1])
  }

  /** `a` is obtained from `b` by deleting elements, order kept. */
  predicate IsSubsequence<T(==)>(a: seq<T>, b: seq<T>) {
    if a == [] then true
    else if b == [] then false
    else if a[0] == b[0] then IsSubsequence(a[1..], b[1..])
    else IsSubsequence(a, b[1..])
  }

  /* ---------------------------------------------------------------- */
  /* The stages of preprocess                                          */
  /* ---------------------------------------------------------------- */

  /** ASCII `str.lower` on one character. */
  function Lower(c: char): (r: char)
    ensures !IsUpper(r)
    ensures IsUpper(c) ==> 'a' <= r <= 'z' && r as int - c as int == 32
    ensures !IsUpper(c) ==> r == c
  {
    if IsUpper(c) then (c as int + 32) as char else c
  }

  /** `text.lower()` (main.py line 26). */
  function LowerText(s: string): (r: string)
    ensures |r| == |s|
    ensures AllChars(r, NotUpper)
    ensures forall i :: 0 <= i < |s| ==> r[i] == Lower(s[i])
    ensures forall i :: 0 <= i < |s| ==> (r[i] == s[i] <==> !IsUpper(s[i]))
  {
    if s == [] then [] else [Lower(s[0])] + LowerText(s[1..])
  }

  /** `text.translate(str.maketrans("", "", string.punctuation))`
      (main.py line 27): every punctuation character deleted. */
  function StripPunctuation(s: string): (r: string)
    ensures AllChars(r, NotPunctuation)
    ensures IsSubsequence(r, s)
    ensures forall c :: !IsPunctuation(c) ==> multiset(r)[c] == multiset(s)[c]
  {
    if s == [] then []
    else
      assert s == [s[0]] + s[1..];
      if IsPunctuation(s[0]) then StripPunctuation(s[1..])
      else [s[0]] + StripPunctuation(s[1..])
  }

  /** The longest prefix of `s` that holds no whitespace. */
  function TakeWord(s: string): (w: string)
    ensures w <= s
    ensures AllChars(w, NotWhitespace)
    ensures |w| == |s| || IsWhitespace(s[|w|])
  {
    if s == [] || IsWhitespace(s[0]) then [] else [s[0]] + TakeWord(s[1..])
  }

  /** `text.split()` (main.py line 28): the maximal runs of
      non-whitespace characters, in order. */
  function Split(s: string): (ts: seq<string>)
    ensures AllTokens(ts)
    decreases |s|
  {
    if s == [] then []
    else if IsWhitespace(s[0]) then Split(s[1..])
    else
      var w := TakeWord(s);
      [w] + Split(s[|w|..])
  }

  /** `[word for word in tokens if word not in stop_words]`
      (main.py line 29). */
  function RemoveStopwords(ts: seq<string>, stop: set<string>): (r: seq<string>)
    ensures forall i :: 0 <= i < |r| ==> r[i] !in stop
    ensures IsSubsequence(r, ts)
    ensures forall t :: t !in stop ==> multiset(r)[t] == multiset(ts)[t]
  {
    if ts == [] then []
    else
      assert ts == [ts[0]] + ts[1..];
      if ts[0] in stop then RemoveStopwords(ts[1..], stop)
      else [ts[0]] + RemoveStopwords(ts[1..], stop)
  }

  /** `" ".join(tokens)` (main.py line 30). */
  function Join(ts: seq<string>): string {
    if ts == [] then ""
    else if |ts| == 1 then ts[0]
    else ts[0] + " " + Join(ts[1..])
  }

  /** The tokens of `text` before stopwords are removed (main.py lines
      26-28): well-formed, without capitals and without punctuation. */
  function Tokens(text: string): (ts: seq<string>)
    ensures AllTokens(ts)
    ensures forall k :: 0 <= k < |ts| ==> AllChars(ts[k], NotUpper) && AllChars(ts[k], NotPunctuation)
  {
    var t := StripPunctuation(LowerText(text));
    StripKeeps(LowerText(text), NotUpper);
    SplitKeeps(t, NotUpper);
    SplitKeeps(t, NotPunctuation);
    Split(t)
  }

  /** `preprocess(text)` (main.py lines 25-30), with the stopword set
      given as a parameter. */
  function Preprocess(text: string, stop: set<string>): string {
    Join(RemoveStopwords(Tokens(text), stop))
  }

  /* ---------------------------------------------------------------- */
  /* Lemmas about the stages                                           */
  /* ---------------------------------------------------------------- */

  /** Lower-casing changes nothing in text that has no capital. */
  lemma {:induction false} LowerTextFixesLowercase(s: string)
    requires AllChars(s, NotUpper)
    ensures LowerText(s) == s
  {
    if s != [] {
      assert AllChars(s[1..], NotUpper) by {
        forall i | 0 <= i < |s[1..]| ensures NotUpper(s[1..][i]) {
          assert s[1..][i] == s[i + 1];
        }
      }
      LowerTextFixesLowercase(s[1..]);
    }
  }

  /** Stripping changes nothing in text without punctuation. */
  lemma {:induction false} StripFixesClean(s: string)
    requires AllChars(s, NotPunctuation)
    ensures StripPunctuation(s) == s
  {
    if s != [] {
      assert AllChars(s[1..], NotPunctuation) by {
        forall i | 0 <= i < |s[1..]| ensures NotPunctuation(s[1..][i]) {
          assert s[1..][i] == s[i + 1];
        }
      }
      StripFixesClean(s[1..]);
    }
  }

  /** Stripping only deletes characters, so a property of every input
      character holds of every output character. */
  lemma {:induction false} StripKeeps(s: string, p: char -> bool)
    requires AllChars(s, p)
    ensures AllChars(StripPunctuation(s), p)
  {
    if s != [] {
      assert AllChars(s[1..], p) by {
        forall i | 0 <= i < |s[1..]| ensures p(s[1..][i]) {
          assert s[1..][i] == s[i + 1];
        }
      }
      StripKeeps(s[1..], p);
      var r := StripPunctuation(s[1..]);
      if !IsPunctuation(s[0]) {
        assert StripPunctuation(s) == [s[0]] + r;
        forall i | 0 <= i < |[s[0]] + r| ensures p(([s[0]] + r)[i]) {
          if i > 0 { assert ([s[0]] + r)[i] == r[i - 1]; }
        }
      }
    }
  }

  /** Every character of every token of `Split(s)` is a character of `s`
      that satisfies whatever all of `s` satisfies. */
  lemma {:induction false} SplitKeeps(s: string, p: char -> bool)
    requires AllChars(s, p)
    ensures forall k :: 0 <= k < |Split(s)| ==> AllChars(Split(s)[k], p)
    decreases |s|
  {
    if s == [] {
    } else if IsWhitespace(s[0]) {
      assert AllChars(s[1..], p) by {
        forall i | 0 <= i < |s[1..]| ensures p(s[1..][i]) {
          assert s[1..][i] == s[i + 1];
        }
      }
      SplitKeeps(s[1..], p);
    } else {
      var w := TakeWord(s);
      var rest := s[|w|..];
      assert AllChars(rest, p) by {
        forall i | 0 <= i < |rest| ensures p(rest[i]) {
          assert rest[i] == s[|w| + i];
        }
      }
      SplitKeeps(rest, p);
      assert AllChars(w, p) by {
        forall i | 0 <= i < |w| ensures p(w[i]) {
          assert w[i] == s[i];
        }
      }
      assert Split(s) == [w] + Split(rest);
    }
  }

  /** `Join` puts only token characters and spaces into its result. */
  lemma {:induction false} JoinKeeps(ts: seq<string>, p: char -> bool)
    requires p(' ')
    requires forall k :: 0 <= k < |ts| ==> AllChars(ts[k], p)
    ensures AllChars(Join(ts), p)
  {
    if |ts| > 1 {
      JoinKeeps(ts[1..], p);
      var j := Join(ts[1..]);
      var s := ts[0] + " " + j;
      forall i | 0 <= i < |s| ensures p(s[i]) {
        if i < |ts[0]| {
          assert s[i] == ts[0][i];
        } else if i > |ts[0]| {
          assert s[i] == j[i - |ts[0]| - 1];
        }
      }
    } else if |ts| == 1 {
      assert AllChars(ts[0], p);
    }
  }

  /** Removing stopwords keeps only tokens that were there. */
  lemma {:induction false} RemoveStopwordsKeeps(ts: seq<string>, stop: set<string>, p: char -> bool)
    requires forall k :: 0 <= k < |ts| ==> AllChars(ts[k], p)
    ensures forall k :: 0 <= k < |RemoveStopwords(ts, stop)| ==> AllChars(RemoveStopwords(ts, stop)[k], p)
  {
    if ts != [] {
      RemoveStopwordsKeeps(ts[1..], stop, p);
      var r := RemoveStopwords(ts[1..], stop);
      if ts[0] !in stop {
        forall k | 0 <= k < |[ts[0]] + r| ensures AllChars(([ts[0]] + r)[k], p) {
          if k > 0 { assert ([ts[0]] + r)[k] == r[k - 1]; }
        }
      }
    }
  }

  /** Filtering a list with no stopword in it changes nothing. */
  lemma {:induction false} RemoveStopwordsFixesClean(ts: seq<string>, stop: set<string>)
    requires forall k :: 0 <= k < |ts| ==> ts[k] !in stop
    ensures RemoveStopwords(ts, stop) == ts
  {
    if ts != [] {
      RemoveStopwordsFixesClean(ts[1..], stop);
    }
  }

  /** Filtering yields nothing exactly when every token is a stopword. */
  lemma {:induction false} RemoveStopwordsEmpty(ts: seq<string>, stop: set<string>)
    ensures RemoveStopwords(ts, stop) == [] <==> forall k :: 0 <= k < |ts| ==> ts[k] in stop
  {
    if ts != [] {
      RemoveStopwordsEmpty(ts[1..], stop);
      if ts[0] in stop {
        assert forall k :: 1 <= k < |ts| ==> ts[k] == ts[1..][k - 1];
      }
    }
  }

  /** `TakeWord` stops exactly at the first whitespace character. */
  lemma {:induction false} TakeWordOf(w: string, x: string)
    requires AllChars(w, NotWhitespace)
    requires x == [] || IsWhitespace(x[0])
    ensures TakeWord(w + x) == w
  {
    if w != [] {
      assert (w + x)[1..] == w[1..] + x;
      assert AllChars(w[1..], NotWhitespace) by {
        forall i | 0 <= i < |w[1..]| ensures NotWhitespace(w[1..][i]) {
          assert w[1..][i] == w[i + 1];
        }
      }
      TakeWordOf(w[1..], x);
    } else {
      assert w + x == x;
    }
  }

  /** The first character of a join of tokens is that of its first token. */
  lemma JoinStart(ts: seq<string>)
    requires ts != [] && ts[0] != []
    ensures Join(ts) != [] && Join(ts)[0] == ts[0][0]
  {
  }

  /** A join of tokens is empty exactly when there are no tokens. */
  lemma JoinEmpty(ts: seq<string>)
    requires AllTokens(ts)
    ensures Join(ts) == "" <==> ts == []
  {
    if ts != [] {
      JoinStart(ts);
    }
  }

  /** Round trip: splitting a single-space join of tokens gives the
      tokens back. */
  lemma {:induction false} SplitJoin(ts: seq<string>)
    requires AllTokens(ts)
    ensures Split(Join(ts)) == ts
  {
    if ts == [] {
    } else if |ts| == 1 {
      var w := ts[0];
      TakeWordOf(w, "");
      assert w + "" == w;
      assert w[|w|..] == "";
    } else {
      var w, j := ts[0], Join(ts[1..]);
      var s := w + " " + j;
      assert s == w + (" " + j);
      TakeWordOf(w, " " + j);
      assert s[|w|..] == " " + j;
      assert (" " + j)[1..] == j;
      SplitJoin(ts[1..]);
      assert Split(s) == [w] + Split(" " + j);
    }
  }

  /** A single-space join of tokens is single-spaced. */
  lemma {:induction false} JoinSingleSpaced(ts: seq<string>)
    requires AllTokens(ts)
    ensures SingleSpaced(Join(ts))
  {
    if |ts| == 1 {
      assert AllChars(ts[0], NotWhitespace);
    } else if |ts| > 1 {
      var w, j := ts[0], Join(ts[1..]);
      JoinSingleSpaced(ts[1..]);
      JoinStart(ts[1..]);
      var s := w + " " + j;
      forall i | 0 <= i < |s| && IsWhitespace(s[i])
        ensures s[i] == ' ' && 0 < i < |s| - 1 && !IsWhitespace(s[i - 1]) && !IsWhitespace(s[i + 1])
      {
        if i == |w| {
          assert s[i - 1] == w[|w| - 1];
          assert NotWhitespace(w[|w| - 1]);
          assert s[i + 1] == j[0];
        } else {
          var k := i - |w| - 1;
          assert s[i] == j[k];
          assert 0 < k < |j| - 1;
          assert s[i - 1] == j[k - 1];
          assert s[i + 1] == j[k + 1];
        }
      }
    }
  }

  /** Splitting a string that starts with a non-whitespace character
      gives at least one token. */
  lemma SplitNonEmpty(s: string)
    requires s != [] && !IsWhitespace(s[0])
    ensures Split(s) != []
  {
  }

  /** A suffix of a single-spaced string that does not start inside a
      separator is single-spaced. */
  lemma SingleSpacedSuffix(s: string, k: nat)
    requires SingleSpaced(s)
    requires k <= |s| && (k == |s| || !IsWhitespace(s[k]))
    ensures SingleSpaced(s[k..])
  {
    var r := s[k..];
    forall i | 0 <= i < |r| && IsWhitespace(r[i])
      ensures r[i] == ' ' && 0 < i < |r| - 1 && !IsWhitespace(r[i - 1]) && !IsWhitespace(r[i + 1])
    {
      assert r[i] == s[k + i];
      assert r[i - 1] == s[k + i - 1];
      assert r[i + 1] == s[k + i + 1];
    }
  }

  /** The first word of `s` is unaffected by what follows `s`, unless
      that word runs to the end of `s` and what follows continues it. */
  lemma {:induction false} TakeWordAppend(s: string, x: string)
    requires |TakeWord(s)| < |s| || x == [] || IsWhitespace(x[0])
    ensures TakeWord(s + x) == TakeWord(s)
  {
    if s == [] {
      assert s + x == x;
    } else {
      assert (s + x)[0] == s[0];
      if !IsWhitespace(s[0]) {
        assert (s + x)[1..] == s[1..] + x;
        TakeWordAppend(s[1..], x);
      }
    }
  }

  /** A token splits into itself. */
  lemma SplitToken(w: string)
    requires IsToken(w)
    ensures Split(w) == [w]
  {
    TakeWordOf(w, "");
    assert w + "" == w;
    assert w[|w|..] == "";
  }

  /** Splitting at a whitespace character: the tokens of `s + [c] + t`
      are those of `s` followed by those of `t`. With `SplitToken` and
      `Split("") == []` this determines `Split` on every string: leading,
      trailing and repeated whitespace give no empty tokens. */
  lemma {:induction false} SplitAt(s: string, c: char, t: string)
    requires IsWhitespace(c)
    ensures Split(s + [c] + t) == Split(s) + Split(t)
    decreases |s|
  {
    var u := s + [c] + t;
    if s == [] {
      assert u == [c] + t;
      assert u[1..] == t;
    } else if IsWhitespace(s[0]) {
      assert u[1..] == s[1..] + [c] + t;
      SplitAt(s[1..], c, t);
    } else {
      var w := TakeWord(s);
      assert u == s + ([c] + t);
      TakeWordAppend(s, [c] + t);
      assert u[|w|..] == s[|w|..] + [c] + t;
      SplitAt(s[|w|..], c, t);
      assert Split(u) == [w] + Split(u[|w|..]);
      assert Split(s) == [w] + Split(s[|w|..]);
    }
  }

  /** In a single-spaced string the first word, unless it is all of
      the string, is followed by one space and another word. */
  lemma FirstWordBoundary(s: string)
    requires SingleSpaced(s)
    requires |TakeWord(s)| < |s|
    ensures |TakeWord(s)| + 1 < |s|
    ensures s[|TakeWord(s)|] == ' ' && !IsWhitespace(s[|TakeWord(s)| + 1])
  {
  }

  /** Round trip the other way: joining the tokens of a single-spaced
      string gives the string back. */
  lemma {:induction false} JoinSplit(s: string)
    requires SingleSpaced(s)
    ensures Join(Split(s)) == s
    decreases |s|
  {
    if s != [] {
      assert !IsWhitespace(s[0]);
      var w := TakeWord(s);
      if |w| == |s| {
        assert w == s;
        assert Split(s) == [w] + Split(s[|w|..]);
        assert Split(s) == [w];
      } else {
        FirstWordBoundary(s);
        var r2 := s[|w| + 1..];
        SingleSpacedSuffix(s, |w| + 1);
        JoinSplit(r2);
        JoinSplitStep(s, w, r2);
      }
    }
  }

  /** The inductive step of `JoinSplit`, apart from its hypotheses. */
  lemma JoinSplitStep(s: string, w: string, r2: string)
    requires s != [] && !IsWhitespace(s[0])
    requires w == TakeWord(s) && |w| + 1 < |s|
    requires s[|w|] == ' ' && !IsWhitespace(s[|w| + 1])
    requires r2 == s[|w| + 1..] && Join(Split(r2)) == r2
    ensures Join(Split(s)) == s
  {
    assert s[|w|..] == [s[|w|]] + r2;
    assert Split(s) == [w] + Split(s[|w|..]);
    assert Split(s[|w|..]) == Split(r2);
    SplitNonEmpty(r2);
    var ts := [w] + Split(r2);
    assert ts[1..] == Split(r2);
    assert Join(ts) == w + " " + r2;
    assert s == w + [s[|w|]] + r2;
  }

  /* ---------------------------------------------------------------- */
  /* Properties of preprocess                                          */
  /* ---------------------------------------------------------------- */

  /** The tokens of the output are exactly the non-stopword tokens of
      the lower-cased, punctuation-free input, in their original order. */
  lemma PreprocessTokens(text: string, stop: set<string>)
    ensures Split(Preprocess(text, stop)) == RemoveStopwords(Tokens(text), stop)
    ensures IsSubsequence(Split(Preprocess(text, stop)), Tokens(text))
    ensures forall k :: 0 <= k < |Split(Preprocess(text, stop))| ==>
      IsToken(Split(Preprocess(text, stop))[k]) && Split(Preprocess(text, stop))[k] !in stop
  {
    SplitJoin(RemoveStopwords(Tokens(text), stop));
  }

  /** The output contains no ASCII capital letter. */
  lemma PreprocessNoUpper(text: string, stop: set<string>)
    ensures AllChars(Preprocess(text, stop), NotUpper)
  {
    var t := StripPunctuation(LowerText(text));
    StripKeeps(LowerText(text), NotUpper);
    SplitKeeps(t, NotUpper);
    RemoveStopwordsKeeps(Split(t), stop, NotUpper);
    JoinKeeps(RemoveStopwords(Split(t), stop), NotUpper);
  }

  /** The output contains no character of `string.punctuation`. */
  lemma PreprocessNoPunctuation(text: string, stop: set<string>)
    ensures AllChars(Preprocess(text, stop), NotPunctuation)
  {
    var t := StripPunctuation(LowerText(text));
    SplitKeeps(t, NotPunctuation);
    RemoveStopwordsKeeps(Split(t), stop, NotPunctuation);
    JoinKeeps(RemoveStopwords(Split(t), stop), NotPunctuation);
  }

  /** Tokens are separated by exactly one space, with no leading or
      trailing space; and the output is empty exactly when every token of
      the cleaned input is a stopword. */
  lemma PreprocessSpacing(text: string, stop: set<string>)
    ensures SingleSpaced(Preprocess(text, stop))
    ensures Preprocess(text, stop) == "" <==>
      forall k :: 0 <= k < |Tokens(text)| ==> Tokens(text)[k] in stop
  {
    var ts := RemoveStopwords(Tokens(text), stop);
    JoinSingleSpaced(ts);
    JoinEmpty(ts);
    RemoveStopwordsEmpty(Tokens(text), stop);
  }

  predicate IsBlankOrPunctuation(c: char) {
    IsWhitespace(c) || IsPunctuation(c)
  }

  /** Text made only of whitespace and punctuation (the empty string
      among it) normalises to the empty string, whatever the stopwords. */
  lemma PreprocessBlank(text: string, stop: set<string>)
    requires AllChars(text, IsBlankOrPunctuation)
    ensures Preprocess(text, stop) == ""
  {
    var low := LowerText(text);
    assert AllChars(low, IsBlankOrPunctuation) by {
      forall i | 0 <= i < |low| ensures IsBlankOrPunctuation(low[i]) {
        assert IsBlankOrPunctuation(text[i]);
        assert !IsUpper(text[i]);
      }
    }
    var t := StripPunctuation(low);
    StripKeeps(low, IsBlankOrPunctuation);
    assert AllChars(t, IsWhitespace) by {
      forall i | 0 <= i < |t| ensures IsWhitespace(t[i]) {
        assert IsBlankOrPunctuation(t[i]) && NotPunctuation(t[i]);
      }
    }
    SplitBlank(t);
  }

  /** A string of whitespace only has no tokens. */
  lemma {:induction false} SplitBlank(s: string)
    requires AllChars(s, IsWhitespace)
    ensures Split(s) == []
  {
    if s != [] {
      assert AllChars(s[1..], IsWhitespace) by {
        forall i | 0 <= i < |s[1..]| ensures IsWhitespace(s[1..][i]) {
          assert s[1..][i] == s[i + 1];
        }
      }
      SplitBlank(s[1..]);
    }
  }

  /** Normalising normalised text changes nothing. */
  lemma PreprocessIdempotent(text: string, stop: set<string>)
    ensures Preprocess(Preprocess(text, stop), stop) == Preprocess(text, stop)
  {
    var y := Preprocess(text, stop);
    var ts := RemoveStopwords(Tokens(text), stop);
    PreprocessNoUpper(text, stop);
    PreprocessNoPunctuation(text, stop);
    LowerTextFixesLowercase(y);
    StripFixesClean(y);
    SplitJoin(ts);
    RemoveStopwordsFixesClean(ts, stop);
  }
}
