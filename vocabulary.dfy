/**
 * The vocabulary model behind `CountVectorizer()` in main.py: `fit` learns
 * the distinct terms of the target documents in sorted order, and
 * `transform` turns one document into the count of every vocabulary term.
 *
 * The vectorizer's default analyser lower-cases a document and takes the
 * matches of `(?u)\b\w\w+\b`, that is the maximal runs of word characters
 * that are at least two characters long.
 */
module Vocabulary {
  import opened Wrappers
  import opened Tokenizer

  // ---------------------------------------------------------------------
  // Python's order on strings

  /** `a < b` on Python strings: lexicographic by code point, a proper
      prefix first. */
  predicate Less(a: string, b: string)
    decreases |a|
  {
    if a == [] then b != []
    else if b == [] then false
    else if a[0] != b[0] then a[0] < b[0]
    else Less(a[1..], b[1..])
  }

  lemma {:induction false} LessIrreflexive(a: string)
    ensures !Less(a, a)
    decreases |a|
  {
    if a != [] {
      LessIrreflexive(a[1..]);
    }
  }

  lemma {:induction false} LessTransitive(a: string, b: string, c: string)
    requires Less(a, b) && Less(b, c)
    ensures Less(a, c)
    decreases |a|
  {
    if a != [] && a[0] == b[0] && b[0] == c[0] {
      LessTransitive(a[1..], b[1..], c[1..]);
    }
  }

  lemma {:induction false} LessTotal(a: string, b: string)
    requires a != b
    ensures Less(a, b) || Less(b, a)
    decreases |a|
  {
    if a != [] && b != [] && a[0] == b[0] {
      assert a == [a[0]] + a[1..] && b == [b[0]] + b[1..];
      LessTotal(a[1..], b[1..]);
    }
  }

  lemma {:induction false} LessAsymmetric(a: string, b: string)
    requires Less(a, b)
    ensures !Less(b, a)
    decreases |a|
  {
    if a != [] && b != [] && a[0] == b[0] {
      LessAsymmetric(a[1..], b[1..]);
    }
  }

  predicate StrictlySorted(v: seq<string>) {
    forall i, j :: 0 <= i < j < |v| ==> Less(v[i], v[j])
  }

  /** Inserts `w` into a strictly sorted list unless it is already there. */
  function Insert(v: seq<string>, w: string): (r: seq<string>)
    requires StrictlySorted(v)
    ensures StrictlySorted(r)
    ensures forall x :: x in r <==> x in v || x == w
  {
    if v == [] then [w]
    else if w == v[0] then v
    else if Less(w, v[0]) then
      assert forall j :: 0 < j < |v| ==> Less(v[0], v[j]);
      forall j | 0 <= j < |v| ensures Less(w, v[j]) {
        if j > 0 { LessTransitive(w, v[0], v[j]); }
      }
      [w] + v
    else
      LessTotal(w, v[0]);
      var tail := Insert(v[1..], w);
      forall j | 0 <= j < |tail| ensures Less(v[0], tail[j]) {
        assert tail[j] in tail;
      }
      [v[0]] + tail
  }

  /** The distinct elements of `ts` in increasing order. */
  function SortedDistinct(ts: seq<string>): (r: seq<string>)
    ensures StrictlySorted(r)
    ensures forall x :: x in r <==> x in ts
  {
    if ts == [] then []
    else Insert(SortedDistinct(ts[..|ts| - 1]), ts[|ts| - 1])
  }

  /** A strictly sorted list is determined by its elements: the vocabulary
      is THE sorted list of the distinct terms. */
  lemma {:induction false} SortedUnique(u: seq<string>, v: seq<string>)
    requires StrictlySorted(u) && StrictlySorted(v)
    requires forall x :: x in u <==> x in v
    ensures u == v
    decreases |u|
  {
    if u != [] { assert u[0] in u; }
    if v != [] { assert v[0] in v; }
    if u != [] && v != [] {
      var i :| 0 <= i < |v| && v[i] == u[0];
      var j :| 0 <= j < |u| && u[j] == v[0];
      if i != 0 && j != 0 {
        LessAsymmetric(u[0], v[0]);
      }
      forall x ensures x in u[1..] <==> x in v[1..] {
        if x in u[1..] {
          var i :| 1 <= i < |u| && u[i] == x;
          assert x in v;
          LessAsymmetric(u[0], x);
          LessIrreflexive(x);
        }
        if x in v[1..] {
          var i :| 1 <= i < |v| && v[i] == x;
          assert x in u;
          LessAsymmetric(v[0], x);
          LessIrreflexive(x);
        }
      }
      SortedUnique(u[1..], v[1..]);
      assert u == [u[0]] + u[1..] && v == [v[0]] + v[1..];
    }
  }

  // ---------------------------------------------------------------------
  // The analyser

  /** The terms at least two characters long, in order. */
  function LongTerms(ts: seq<string>): (r: seq<string>)
    ensures forall k :: 0 <= k < |r| ==> |r[k]| >= 2
    ensures forall x :: x in r <==> x in ts && |x| >= 2
  {
    if ts == [] then []
    else if |ts[0]| >= 2 then [ts[0]] + LongTerms(ts[1..])
    else LongTerms(ts[1..])
  }

  /** The vectorizer's default analyser: lower-case, then the word runs
      matched by `\b\w\w+\b`. */
  function Analyze(doc: string): seq<string> {
    LongTerms(Runs(LowerCase(doc), IsWord))
  }

  /** The terms of all documents, one document after another. */
  function Terms(docs: seq<string>): (r: seq<string>)
    ensures forall x :: x in r <==> exists i :: 0 <= i < |docs| && x in Analyze(docs[i])
  {
    if docs == [] then []
    else
      var r := Terms(docs[..|docs| - 1]) + Analyze(docs[|docs| - 1]);
      assert forall i :: 0 <= i < |docs| - 1 ==> docs[..|docs| - 1][i] == docs[i];
      r
  }

  /** The vocabulary `fit` learns: the distinct terms of the documents,
      sorted. */
  function BuildVocabulary(docs: seq<string>): (vocab: seq<string>)
    ensures StrictlySorted(vocab)
    ensures forall x :: x in vocab <==> exists i :: 0 <= i < |docs| && x in Analyze(docs[i])
  {
    SortedDistinct(Terms(docs))
  }

  /** The count vector `transform` produces: entry `i` counts `vocab[i]`
      among the document's terms. Terms outside the vocabulary have no
      entry. */
  function Vectorize(vocab: seq<string>, doc: string): (v: seq<nat>)
    ensures |v| == |vocab|
  {
    var terms := multiset(Analyze(doc));
    seq(|vocab|, i requires 0 <= i < |vocab| => terms[vocab[i]])
  }

  // ---------------------------------------------------------------------
  // Lemmas relating the analyser to extract_tokens

  /** On text the tokenizer produced and joined, the analyser sees exactly
      the tokens that are at least two characters long. */
  lemma AnalyzeJoin(ts: seq<string>)
    requires AllTokens(ts)
    ensures Analyze(Join(ts)) == LongTerms(ts)
  {
    var s := Join(ts);
    forall i | 0 <= i < |s| ensures !IsUpper(s[i]) {
      JoinChars(ts, s[i]);
    }
    assert LowerCase(s) == s;
    RunsOfJoin(ts, IsWord);
  }

  lemma {:induction false} LongTermsCount(ts: seq<string>, w: string)
    requires |w| >= 2
    ensures multiset(LongTerms(ts))[w] == multiset(ts)[w]
    decreases |ts|
  {
    if ts != [] {
      LongTermsCount(ts[1..], w);
      assert ts == [ts[0]] + ts[1..];
    }
  }

  /** The vocabulary fitted on joined token lists is the sorted list of the
      distinct tokens of length two or more. */
  lemma VocabularyOfTokenLists(docs: seq<seq<string>>, w: string)
    requires forall i :: 0 <= i < |docs| ==> AllTokens(docs[i])
    ensures var vocab := BuildVocabulary(seq(|docs|, i requires 0 <= i < |docs| => Join(docs[i])));
            w in vocab <==> |w| >= 2 && exists i :: 0 <= i < |docs| && w in docs[i]
  {
    var joined := seq(|docs|, i requires 0 <= i < |docs| => Join(docs[i]));
    forall i | 0 <= i < |docs| ensures Analyze(joined[i]) == LongTerms(docs[i]) {
      AnalyzeJoin(docs[i]);
    }
  }

  /** Entry `i` of the count vector of a joined token list is the number of
      times `vocab[i]` occurs in the list. */
  lemma CountVectorOfTokens(vocab: seq<string>, ts: seq<string>)
    requires AllTokens(ts)
    requires forall i :: 0 <= i < |vocab| ==> |vocab[i]| >= 2
    ensures forall i :: 0 <= i < |vocab| ==> Vectorize(vocab, Join(ts))[i] == multiset(ts)[vocab[i]]
  {
    AnalyzeJoin(ts);
    forall i | 0 <= i < |vocab| ensures Vectorize(vocab, Join(ts))[i] == multiset(ts)[vocab[i]] {
      LongTermsCount(ts, vocab[i]);
    }
  }

  /** A token outside the vocabulary (a reference-only token, say) does not
      change a count vector. */
  lemma OutOfVocabularyIgnored(vocab: seq<string>, ts: seq<string>, w: string)
    requires AllTokens(ts) && IsToken(w)
    requires forall i :: 0 <= i < |vocab| ==> |vocab[i]| >= 2
    requires w !in vocab
    ensures Vectorize(vocab, Join(ts + [w])) == Vectorize(vocab, Join(ts))
  {
    CountVectorOfTokens(vocab, ts);
    CountVectorOfTokens(vocab, ts + [w]);
    assert multiset(ts + [w]) == multiset(ts) + multiset{w};
  }

  /** A token in the vocabulary adds exactly one to its own entry and
      nothing elsewhere. */
  lemma InVocabularyCounted(vocab: seq<string>, ts: seq<string>, k: nat)
    requires AllTokens(ts) && k < |vocab| && IsToken(vocab[k])
    requires forall i :: 0 <= i < |vocab| ==> |vocab[i]| >= 2
    requires StrictlySorted(vocab)
    ensures Vectorize(vocab, Join(ts + [vocab[k]]))[k] == Vectorize(vocab, Join(ts))[k] + 1
    ensures forall i :: 0 <= i < |vocab| && i != k ==>
              Vectorize(vocab, Join(ts + [vocab[k]]))[i] == Vectorize(vocab, Join(ts))[i]
  {
    CountVectorOfTokens(vocab, ts);
    CountVectorOfTokens(vocab, ts + [vocab[k]]);
    assert multiset(ts + [vocab[k]]) == multiset(ts) + multiset{vocab[k]};
    forall i | 0 <= i < |vocab| && i != k ensures vocab[i] != vocab[k] {
      if i < k { LessIrreflexive(vocab[i]); } else { LessIrreflexive(vocab[k]); }
    }
  }

  // ---------------------------------------------------------------------
  // The vectorizer object

  datatype VectorizerError =
    | NotFitted        // `transform` before `fit`
    | NoVocabulary     // `fit` found no term at all

  /** `CountVectorizer()`: unfitted until `Fit` succeeds; `Transform`
      needs a fitted vocabulary. */
  class Vectorizer {
    var fitted: bool
    var vocabulary: seq<string>

    constructor ()
      ensures !fitted && vocabulary == []
    {
      fitted := false;
      vocabulary := [];
    }

    /** `fit`: learn the vocabulary of the documents, or fail (leaving the
        object as it was) when they hold no term at all. */
    method Fit(docs: seq<string>) returns (outcome: Option<VectorizerError>)
      modifies this
      ensures outcome == (if BuildVocabulary(docs) == [] then Some(NoVocabulary) else None)
      ensures outcome == None ==> fitted && vocabulary == BuildVocabulary(docs)
      ensures outcome != None ==> fitted == old(fitted) && vocabulary == old(vocabulary)
    {
      var vocab := BuildVocabulary(docs);
      if vocab == [] {
        return Some(NoVocabulary);
      }
      fitted, vocabulary := true, vocab;
      outcome := None;
    }

    /** `transform`: the count vector of one document under the fitted
        vocabulary. */
    method Transform(doc: string) returns (r: Result<seq<nat>, VectorizerError>)
      ensures !fitted ==> r == Failure(NotFitted)
      ensures fitted ==> r == Success(Vectorize(vocabulary, doc)) && |r.value| == |vocabulary|
      ensures fitted ==> forall i :: 0 <= i < |vocabulary| ==> r.value[i] == multiset(Analyze(doc))[vocabulary[i]]
    {
      if !fitted {
        return Failure(NotFitted);
      }
      r := Success(Vectorize(vocabulary, doc));
    }
  }
}
