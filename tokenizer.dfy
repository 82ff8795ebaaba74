/**
 * The tokenizer `extract_tokens` of main.py: delete every character that is
 * neither a word character nor whitespace, lower-case the rest, and split it
 * on runs of whitespace. Characters are treated as ASCII: `\w` is a letter,
 * a digit or `_`, and whitespace is what Python's `\s` and `str.split()`
 * both accept in the ASCII range.
 */
module Tokenizer {

  /** A character matched by `\w`. */
  predicate IsWord(c: char) {
    ('a' <= c <= 'z') || ('A' <= c <= 'Z') || ('0' <= c <= '9') || c == '_'
  }

  /** A character matched by `\s` and split on by `str.split()`:
      tab, line feed, vertical tab, form feed, carriage return, the
      separators 0x1c to 0x1f, and the space. */
  predicate IsSpace(c: char) {
    (9 <= c as int <= 13) || (28 <= c as int <= 32)
  }

  predicate NotSpace(c: char) {
    !IsSpace(c)
  }

  predicate IsUpper(c: char) {
    'A' <= c <= 'Z'
  }

  /** `str.lower()` on one character. */
  function Lower(c: char): char {
    if IsUpper(c) then (c as int + 32) as char else c
  }

  /** The characters the substitution `[^\w\s]` -> "" keeps. */
  predicate Kept(c: char) {
    IsWord(c) || IsSpace(c)
  }

  /** `re.sub(r"[^\w\s]", "", s)`: exactly the kept characters survive, in order. */
  function StripPunctuation(s: string): (r: string)
    ensures |r| <= |s|
    ensures forall c :: c in r <==> c in s && Kept(c)
  {
    if s == [] then []
    else if Kept(s[0]) then [s[0]] + StripPunctuation(s[1..])
    else StripPunctuation(s[1..])
  }

  /** `str.lower()` on a string. */
  function LowerCase(s: string): string {
    seq(|s|, i requires 0 <= i < |s| => Lower(s[i]))
  }

  /** The number of leading characters of `s` that satisfy `keep`. */
  function RunLength(s: string, keep: char -> bool): (n: nat)
    ensures n <= |s|
    ensures forall i :: 0 <= i < n ==> keep(s[i])
    ensures n < |s| ==> !keep(s[n])
  {
    if s == [] || !keep(s[0]) then 0 else 1 + RunLength(s[1..], keep)
  }

  /** The maximal non-empty runs of characters satisfying `keep`, left to
      right. `str.split()` is `Runs(s, NotSpace)`. */
  function Runs(s: string, keep: char -> bool): (r: seq<string>)
    ensures forall k :: 0 <= k < |r| ==> r[k] != []
    ensures forall k, i :: 0 <= k < |r| && 0 <= i < |r[k]| ==> keep(r[k][i])
    decreases |s|
  {
    if s == [] then []
    else if !keep(s[0]) then Runs(s[1..], keep)
    else
      var n := RunLength(s, keep);
      [s[..n]] + Runs(s[n..], keep)
  }

  /** `" ".join(ts)`. */
  function Join(ts: seq<string>): string {
    if |ts| == 0 then []
    else if |ts| == 1 then ts[0]
    else ts[0] + [' '] + Join(ts[1..])
  }

  /** `extract_tokens` (main.py:10-11). */
  function ExtractTokens(source: string): seq<string> {
    Runs(LowerCase(StripPunctuation(source)), NotSpace)
  }

  /** What every token of `extract_tokens` looks like: non-empty, made of
      word characters only, none of them upper-case. */
  predicate IsToken(t: string) {
    t != [] && forall i :: 0 <= i < |t| ==> IsWord(t[i]) && !IsUpper(t[i])
  }

  predicate AllTokens(ts: seq<string>) {
    forall k :: 0 <= k < |ts| ==> IsToken(ts[k])
  }

  // ---------------------------------------------------------------------
  // Lemmas about the pieces

  /** Every character of a run is a character of the text. */
  lemma {:induction false} RunsChars(s: string, keep: char -> bool)
    ensures forall k, i :: 0 <= k < |Runs(s, keep)| && 0 <= i < |Runs(s, keep)[k]| ==> Runs(s, keep)[k][i] in s
    decreases |s|
  {
    if s != [] {
      var n := if keep(s[0]) then RunLength(s, keep) else 1;
      RunsChars(s[n..], keep);
      assert forall c :: c in s[n..] ==> c in s;
      assert forall c :: c in s[..n] ==> c in s;
    }
  }

  lemma {:induction false} RunsEmptyIff(s: string, keep: char -> bool)
    ensures Runs(s, keep) == [] <==> forall i :: 0 <= i < |s| ==> !keep(s[i])
    decreases |s|
  {
    if s != [] {
      if !keep(s[0]) {
        RunsEmptyIff(s[1..], keep);
        if Runs(s, keep) != [] {
          // nothing more to show in this direction
        } else {
          forall i | 0 <= i < |s| ensures !keep(s[i]) {
            if i > 0 { assert s[i] == s[1..][i - 1]; }
          }
        }
      }
    }
  }

  /** A run that ends at a character outside `keep` has exactly the run's length. */
  lemma {:induction false} RunLengthOfPrefix(t: string, u: string, keep: char -> bool)
    requires forall i :: 0 <= i < |t| ==> keep(t[i])
    requires u == [] || !keep(u[0])
    ensures RunLength(t + u, keep) == |t|
    decreases |t|
  {
    if t != [] {
      assert (t + u)[1..] == t[1..] + u;
      RunLengthOfPrefix(t[1..], u, keep);
    } else {
      assert t + u == u;
    }
  }

  /** A run does not reach past a character outside `keep`. */
  lemma {:induction false} RunLengthOfConcat(s: string, u: string, keep: char -> bool)
    requires RunLength(s, keep) < |s| || u == [] || !keep(u[0])
    ensures RunLength(s + u, keep) == RunLength(s, keep)
    decreases |s|
  {
    if s == [] {
      assert s + u == u;
    } else {
      assert (s + u)[0] == s[0];
      if keep(s[0]) {
        assert (s + u)[1..] == s[1..] + u;
        RunLengthOfConcat(s[1..], u, keep);
      }
    }
  }

  /** A non-empty text made only of kept characters is one run. */
  lemma RunsOfRun(s: string, keep: char -> bool)
    requires s != []
    requires forall i :: 0 <= i < |s| ==> keep(s[i])
    ensures Runs(s, keep) == [s]
  {
    RunLengthOfPrefix(s, [], keep);
    assert s + [] == s;
    assert s[..|s|] == s && s[|s|..] == [];
  }

  /** A separator cuts the text in two: the pieces of the whole are the
      pieces of the part before it followed by those of the part after it.
      With `RunsOfRun` and `Runs([], keep) == []` this fixes the split of
      every text: every kept character lands in a piece, in order. */
  lemma {:induction false} RunsOfSeparated(s: string, c: char, t: string, keep: char -> bool)
    requires !keep(c)
    ensures Runs(s + [c] + t, keep) == Runs(s, keep) + Runs(t, keep)
    decreases |s|
  {
    var w := s + [c] + t;
    if s == [] {
      assert w == [c] + t;
      assert w[1..] == t;
    } else if !keep(s[0]) {
      assert w[0] == s[0];
      assert w[1..] == s[1..] + [c] + t;
      RunsOfSeparated(s[1..], c, t, keep);
    } else {
      var m := RunLength(s, keep);
      assert w == s + ([c] + t);
      RunLengthOfConcat(s, [c] + t, keep);
      assert w[..m] == s[..m];
      assert w[m..] == s[m..] + [c] + t;
      RunsOfSeparated(s[m..], c, t, keep);
    }
  }

  /** Splitting a joined list of runs gives the runs back, when the space
      that joins them is a separator. */
  lemma {:induction false} RunsOfJoin(ts: seq<string>, keep: char -> bool)
    requires !keep(' ')
    requires forall k :: 0 <= k < |ts| ==> ts[k] != []
    requires forall k, i :: 0 <= k < |ts| && 0 <= i < |ts[k]| ==> keep(ts[k][i])
    ensures Runs(Join(ts), keep) == ts
    decreases |ts|
  {
    if |ts| == 0 {
    } else if |ts| == 1 {
      var t := ts[0];
      RunLengthOfPrefix(t, [], keep);
      assert t + [] == t;
      assert t[..|t|] == t && t[|t|..] == [];
    } else {
      var t, rest := ts[0], ts[1..];
      var s := t + [' '] + Join(rest);
      assert s == t + ([' '] + Join(rest));
      RunLengthOfPrefix(t, [' '] + Join(rest), keep);
      assert s[..|t|] == t;
      assert s[|t|..] == [' '] + Join(rest);
      assert ([' '] + Join(rest))[1..] == Join(rest);
      RunsOfJoin(rest, keep);
    }
  }

  /** Every character of a joined list is a space or a character of one of its items. */
  lemma {:induction false} JoinChars(ts: seq<string>, c: char)
    requires c in Join(ts)
    ensures c == ' ' || exists k, i :: 0 <= k < |ts| && 0 <= i < |ts[k]| && ts[k][i] == c
    decreases |ts|
  {
    if |ts| == 1 {
      var i :| 0 <= i < |ts[0]| && ts[0][i] == c;
    } else if |ts| > 1 {
      if c in ts[0] {
        var i :| 0 <= i < |ts[0]| && ts[0][i] == c;
      } else if c != ' ' {
        assert c in Join(ts[1..]);
        JoinChars(ts[1..], c);
        var k, i :| 0 <= k < |ts[1..]| && 0 <= i < |ts[1..][k]| && ts[1..][k][i] == c;
        assert ts[k + 1][i] == c;
      }
    }
  }

  /** The substitution works character by character: on a concatenation it
      is the concatenation of the results. With `StripPunctuationOfChar`
      this fixes the result on every text: the kept characters, in order
      and number. */
  lemma {:induction false} StripPunctuationConcat(s: string, t: string)
    ensures StripPunctuation(s + t) == StripPunctuation(s) + StripPunctuation(t)
    decreases |s|
  {
    if s == [] {
      assert s + t == t;
    } else {
      var st := s + t;
      assert st[0] == s[0];
      assert st[1..] == s[1..] + t;
      StripPunctuationConcat(s[1..], t);
      if Kept(s[0]) {
        calc {
          StripPunctuation(st);
          [s[0]] + StripPunctuation(s[1..] + t);
          [s[0]] + (StripPunctuation(s[1..]) + StripPunctuation(t));
          ([s[0]] + StripPunctuation(s[1..])) + StripPunctuation(t);
        }
      }
    }
  }

  /** A single character survives exactly when it is kept. */
  lemma StripPunctuationOfChar(c: char)
    ensures StripPunctuation([c]) == if Kept(c) then [c] else []
  {
    assert [c][1..] == [];
  }

  lemma {:induction false} StripKeepsKept(s: string)
    requires forall i :: 0 <= i < |s| ==> Kept(s[i])
    ensures StripPunctuation(s) == s
    decreases |s|
  {
    if s != [] {
      StripKeepsKept(s[1..]);
      assert [s[0]] + s[1..] == s;
    }
  }

  // ---------------------------------------------------------------------
  // Properties of extract_tokens

  /** Every token is non-empty, contains no whitespace, and is made of
      lower-case word characters. */
  lemma TokensAreWellFormed(source: string)
    ensures AllTokens(ExtractTokens(source))
    ensures forall k, i :: 0 <= k < |ExtractTokens(source)| && 0 <= i < |ExtractTokens(source)[k]|
              ==> !IsSpace(ExtractTokens(source)[k][i])
  {
    var stripped := StripPunctuation(source);
    var lowered := LowerCase(stripped);
    var r := Runs(lowered, NotSpace);
    RunsChars(lowered, NotSpace);
    forall k, i | 0 <= k < |r| && 0 <= i < |r[k]|
      ensures IsWord(r[k][i]) && !IsUpper(r[k][i])
    {
      var c := r[k][i];
      var j :| 0 <= j < |lowered| && lowered[j] == c;
      assert stripped[j] in stripped;
    }
  }

  /** No tokens exactly when the text has no word character: the empty
      text, or text made only of punctuation and whitespace. */
  lemma NoTokensIff(source: string)
    ensures ExtractTokens(source) == [] <==> forall i :: 0 <= i < |source| ==> !IsWord(source[i])
  {
    var stripped := StripPunctuation(source);
    var lowered := LowerCase(stripped);
    RunsEmptyIff(lowered, NotSpace);
    if exists i :: 0 <= i < |source| && IsWord(source[i]) {
      var i :| 0 <= i < |source| && IsWord(source[i]);
      assert source[i] in source;
      var j :| 0 <= j < |stripped| && stripped[j] == source[i];
      assert NotSpace(lowered[j]);
    } else {
      forall j | 0 <= j < |lowered| ensures !NotSpace(lowered[j]) {
        assert stripped[j] in stripped;
      }
    }
  }

  /** Tokenizing the space-joined form of a token list gives the list back. */
  lemma TokenizeJoin(ts: seq<string>)
    requires AllTokens(ts)
    ensures ExtractTokens(Join(ts)) == ts
  {
    var s := Join(ts);
    forall i | 0 <= i < |s| ensures Kept(s[i]) && !IsUpper(s[i]) {
      JoinChars(ts, s[i]);
    }
    StripKeepsKept(s);
    assert LowerCase(s) == s;
    RunsOfJoin(ts, NotSpace);
  }

  /** Re-tokenizing the joined tokens changes nothing: the joined form is
      what the vectorizer is given. */
  lemma ExtractTokensIdempotent(source: string)
    ensures ExtractTokens(Join(ExtractTokens(source))) == ExtractTokens(source)
  {
    TokensAreWellFormed(source);
    TokenizeJoin(ExtractTokens(source));
  }
}
