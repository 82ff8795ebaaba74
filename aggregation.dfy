/**
 * The scoring block of `main` in main.py: fit the vectorizer on the target
 * files only, then for every target file keep the largest score against any
 * reference file (starting from 0.0), sum those maxima, and divide by the
 * number of target files.
 */
module Aggregation {
  import opened Wrappers
  import opened Tokenizer
  import opened Vocabulary
  import opened Cosine
  import opened CorpusLoader

  datatype FileResult = FileResult(path: string, maxSimilarity: real)

  datatype RunOutcome =
    | MissingFiles   // one side has no file: nothing is fitted or averaged
    | NoVocabulary   // `fit` raised: the target files hold no term
    | Report(results: seq<FileResult>, averageSimilarity: real, totalFiles: nat)

  /** The documents given to `fit`: each target's tokens joined by spaces. */
  function JoinedDocs(files: seq<TokenizedFile>): (docs: seq<string>)
    ensures |docs| == |files|
  {
    seq(|files|, i requires 0 <= i < |files| => Join(files[i].tokens))
  }

  /** What `calculate_similarity` computes once the vectorizer is fitted. */
  function PairScore(sim: Scorer, vocab: seq<string>, tokens1: seq<string>, tokens2: seq<string>): real {
    sim(Vectorize(vocab, Join(tokens1)), Vectorize(vocab, Join(tokens2)))
  }

  /** The scores of one target file against every reference file, in order. */
  function ScoreRow(sim: Scorer, vocab: seq<string>, tokens: seq<string>, refs: seq<TokenizedFile>): (row: seq<real>)
    ensures |row| == |refs|
  {
    seq(|refs|, j requires 0 <= j < |refs| => PairScore(sim, vocab, tokens, refs[j].tokens))
  }

  /** Python's `max(a, b)` on floats: `a` unless `b` is larger. */
  function Max(a: real, b: real): (m: real)
    ensures a <= m && b <= m
    ensures m == a || m == b
  {
    if b > a then b else a
  }

  /** The running maximum of `main`, started from 0.0. */
  function MaxOf(s: seq<real>): real {
    if s == [] then 0.0 else Max(MaxOf(s[..|s| - 1]), s[|s| - 1])
  }

  function Sum(s: seq<real>): real {
    if s == [] then 0.0 else Sum(s[..|s| - 1]) + s[|s| - 1]
  }

  /** The per-file maxima of a run. */
  function Maxima(sim: Scorer, vocab: seq<string>, targets: seq<TokenizedFile>, refs: seq<TokenizedFile>): (m: seq<real>)
    ensures |m| == |targets|
  {
    seq(|targets|, i requires 0 <= i < |targets| => MaxOf(ScoreRow(sim, vocab, targets[i].tokens, refs)))
  }

  // ---------------------------------------------------------------------
  // The running maximum and the sum

  /** The maximum is at least 0 and at least every score. */
  lemma {:induction false} MaxOfIsUpperBound(s: seq<real>)
    ensures 0.0 <= MaxOf(s)
    ensures forall k :: 0 <= k < |s| ==> s[k] <= MaxOf(s)
    decreases |s|
  {
    if s != [] {
      MaxOfIsUpperBound(s[..|s| - 1]);
      assert forall k :: 0 <= k < |s| - 1 ==> s[..|s| - 1][k] == s[k];
    }
  }

  /** ... and it is the least such bound. */
  lemma {:induction false} MaxOfIsLeast(s: seq<real>, u: real)
    requires 0.0 <= u
    requires forall k :: 0 <= k < |s| ==> s[k] <= u
    ensures MaxOf(s) <= u
    decreases |s|
  {
    if s != [] {
      MaxOfIsLeast(s[..|s| - 1], u);
    }
  }

  /** The maximum is one of the scores, unless every score is negative
      (then it is the starting 0.0). */
  lemma {:induction false} MaxOfAttained(s: seq<real>)
    ensures (exists k :: 0 <= k < |s| && MaxOf(s) == s[k]) || (MaxOf(s) == 0.0 && forall k :: 0 <= k < |s| ==> s[k] < 0.0)
    decreases |s|
  {
    if s != [] {
      var init := s[..|s| - 1];
      MaxOfAttained(init);
      assert forall k :: 0 <= k < |init| ==> init[k] == s[k];
      if s[|s| - 1] <= MaxOf(init) {
        if exists k :: 0 <= k < |init| && MaxOf(init) == init[k] {
          var k :| 0 <= k < |init| && MaxOf(init) == init[k];
          assert MaxOf(s) == s[k];
        } else if s[|s| - 1] == 0.0 {
          assert MaxOf(s) == s[|s| - 1];
        }
      }
    }
  }

  lemma {:induction false} SumBounds(s: seq<real>)
    requires forall k :: 0 <= k < |s| ==> 0.0 <= s[k] <= 1.0
    ensures 0.0 <= Sum(s) <= |s| as real
    decreases |s|
  {
    if s != [] {
      SumBounds(s[..|s| - 1]);
    }
  }

  lemma MaxOfPrefix(s: seq<real>, j: nat)
    requires j < |s|
    ensures MaxOf(s[..j + 1]) == Max(MaxOf(s[..j]), s[j])
  {
    assert s[..j + 1][..j] == s[..j];
  }

  lemma SumOfPrefix(s: seq<real>, i: nat)
    requires i < |s|
    ensures Sum(s[..i + 1]) == Sum(s[..i]) + s[i]
  {
    assert s[..i + 1][..i] == s[..i];
  }

  /** The average of values in [0, 1] lies in [0, 1]. */
  lemma AverageInUnit(s: seq<real>)
    requires s != []
    requires forall k :: 0 <= k < |s| ==> 0.0 <= s[k] <= 1.0
    ensures 0.0 <= Sum(s) / |s| as real <= 1.0
  {
    SumBounds(s);
    var n := |s| as real;
    assert Sum(s) / n <= n / n;
  }

  // ---------------------------------------------------------------------
  // The run

  /** `calculate_similarity` (main.py:37-42): transform both token lists,
      joined by spaces, and score the two count vectors. */
  method CalculateSimilarity(tokens1: seq<string>, tokens2: seq<string>, vectorizer: Vectorizer, sim: Scorer)
    returns (r: Result<real, VectorizerError>)
    ensures !vectorizer.fitted ==> r == Failure(NotFitted)
    ensures vectorizer.fitted ==> r == Success(PairScore(sim, vectorizer.vocabulary, tokens1, tokens2))
  {
    var transformed1 := vectorizer.Transform(Join(tokens1));
    if transformed1.Failure? {
      return Failure(transformed1.error);
    }
    var transformed2 := vectorizer.Transform(Join(tokens2));
    r := Success(sim(transformed1.value, transformed2.value));
  }

  /** The scoring loops of `main` (main.py:71-88): for every target file the
      running maximum over the reference files, started from 0.0, and the
      sum of those maxima. `sumOfMaxima` is `main`'s accumulator
      `average_similarity` before the division. They run only after `fit`. */
  method ScoreTargets(targets: seq<TokenizedFile>, refs: seq<TokenizedFile>, vectorizer: Vectorizer, sim: Scorer)
    returns (results: seq<FileResult>, sumOfMaxima: real)
    requires vectorizer.fitted
    ensures |results| == |targets|
    ensures forall i :: 0 <= i < |targets| ==>
              results[i] == FileResult(targets[i].path, Maxima(sim, vectorizer.vocabulary, targets, refs)[i])
    ensures sumOfMaxima == Sum(Maxima(sim, vectorizer.vocabulary, targets, refs))
  {
    var vocab := vectorizer.vocabulary;
    ghost var maxima := Maxima(sim, vocab, targets, refs);
    results := [];
    sumOfMaxima := 0.0;
    for i := 0 to |targets|
      invariant |results| == i
      invariant forall k :: 0 <= k < i ==> results[k].path == targets[k].path && results[k].maxSimilarity == maxima[k]
      invariant sumOfMaxima == Sum(maxima[..i])
    {
      ghost var row := ScoreRow(sim, vocab, targets[i].tokens, refs);
      var maxSimilarity := 0.0;
      for j := 0 to |refs|
        invariant maxSimilarity == MaxOf(row[..j])
      {
        var similarityValue := CalculateSimilarity(targets[i].tokens, refs[j].tokens, vectorizer, sim);
        MaxOfPrefix(row, j);
        maxSimilarity := Max(maxSimilarity, similarityValue.value);
      }
      assert row[..|refs|] == row;
      assert maxSimilarity == maxima[i];
      SumOfPrefix(maxima, i);
      sumOfMaxima := sumOfMaxima + maxSimilarity;
      ghost var done := results;
      results := results + [FileResult(targets[i].path, maxSimilarity)];
      forall k | 0 <= k < i + 1
        ensures results[k].path == targets[k].path && results[k].maxSimilarity == maxima[k]
      {
        if k < i {
          assert results[k] == done[k];
        }
      }
    }
    assert maxima[..|targets|] == maxima;
  }

  /** The fit/score/aggregate block of `main` (main.py:64-91): nothing is
      fitted or averaged unless both sides have files; the vocabulary comes
      from the target files alone; the average divides by the number of
      target files. */
  method Run(targets: seq<TokenizedFile>, refs: seq<TokenizedFile>, sim: Scorer) returns (outcome: RunOutcome)
    ensures outcome.MissingFiles? <==> |targets| == 0 || |refs| == 0
    ensures outcome.NoVocabulary? <==> |targets| > 0 && |refs| > 0 && BuildVocabulary(JoinedDocs(targets)) == []
    ensures outcome.Report? ==>
      var maxima := Maxima(sim, BuildVocabulary(JoinedDocs(targets)), targets, refs);
      && outcome.totalFiles == |targets|
      && |outcome.results| == |targets|
      && (forall i :: 0 <= i < |targets| ==> outcome.results[i] == FileResult(targets[i].path, maxima[i]))
      && outcome.averageSimilarity == Sum(maxima) / |targets| as real
  {
    if |targets| == 0 || |refs| == 0 {
      return MissingFiles;
    }
    var vectorizer := new Vectorizer();
    var fitError := vectorizer.Fit(JoinedDocs(targets));
    if fitError.Some? {
      return RunOutcome.NoVocabulary;
    }
    var results, sumOfMaxima := ScoreTargets(targets, refs, vectorizer, sim);
    var totalFiles := |targets|;
    outcome := Report(results, sumOfMaxima / totalFiles as real, totalFiles);
  }

  // ---------------------------------------------------------------------
  // What a run promises when the scorer is the cosine similarity

  /** Every per-file maximum lies in [0, 1] and, with at least one
      reference file, is the score of one of the pairs. */
  lemma MaximumOfFile(sim: Scorer, vocab: seq<string>, tokens: seq<string>, refs: seq<TokenizedFile>)
    requires IsCosineScorer(sim)
    ensures 0.0 <= MaxOf(ScoreRow(sim, vocab, tokens, refs)) <= 1.0
    ensures |refs| > 0 ==> exists j :: 0 <= j < |refs| && MaxOf(ScoreRow(sim, vocab, tokens, refs)) == ScoreRow(sim, vocab, tokens, refs)[j]
  {
    var row := ScoreRow(sim, vocab, tokens, refs);
    forall j | 0 <= j < |row| ensures 0.0 <= row[j] <= 1.0 {
      ScorerContract(sim, Vectorize(vocab, Join(tokens)), Vectorize(vocab, Join(refs[j].tokens)));
    }
    MaxOfIsUpperBound(row);
    MaxOfIsLeast(row, 1.0);
    MaxOfAttained(row);
  }

  /** The reported average lies in [0, 1]. */
  lemma AverageOfRun(sim: Scorer, vocab: seq<string>, targets: seq<TokenizedFile>, refs: seq<TokenizedFile>)
    requires IsCosineScorer(sim) && |targets| > 0
    ensures 0.0 <= Sum(Maxima(sim, vocab, targets, refs)) / |targets| as real <= 1.0
  {
    var maxima := Maxima(sim, vocab, targets, refs);
    forall i | 0 <= i < |targets| ensures 0.0 <= maxima[i] <= 1.0 {
      MaximumOfFile(sim, vocab, targets[i].tokens, refs);
    }
    AverageInUnit(maxima);
  }

  /** Every term of a fitted vocabulary is at least two characters long. */
  lemma VocabularyTermsAreLong(docs: seq<string>)
    ensures forall k :: 0 <= k < |BuildVocabulary(docs)| ==> |BuildVocabulary(docs)[k]| >= 2
  {
    var vocab := BuildVocabulary(docs);
    forall k | 0 <= k < |vocab| ensures |vocab[k]| >= 2 {
      assert vocab[k] in vocab;
      var i :| 0 <= i < |docs| && vocab[k] in Analyze(docs[i]);
    }
  }

  /** A file compared with a copy of itself scores 1, provided one of its
      tokens is in the vocabulary. */
  lemma CopyScoresOne(sim: Scorer, vocab: seq<string>, tokens: seq<string>)
    requires IsCosineScorer(sim) && AllTokens(tokens)
    requires forall k :: 0 <= k < |vocab| ==> |vocab[k]| >= 2
    requires exists k :: 0 <= k < |vocab| && vocab[k] in tokens
    ensures PairScore(sim, vocab, tokens, tokens) == 1.0
  {
    var v := Vectorize(vocab, Join(tokens));
    var k :| 0 <= k < |vocab| && vocab[k] in tokens;
    CountVectorOfTokens(vocab, tokens);
    assert v[k] > 0;
    ZeroNormIffZero(v);
    ScorerContract(sim, v, v);
  }

  /** A reference file whose tokens are all outside the vocabulary scores 0
      against every file: its count vector is all-zero. */
  lemma UnrelatedScoresZero(sim: Scorer, vocab: seq<string>, tokens: seq<string>, other: seq<string>)
    requires IsCosineScorer(sim) && AllTokens(other)
    requires forall k :: 0 <= k < |vocab| ==> |vocab[k]| >= 2 && vocab[k] !in other
    ensures PairScore(sim, vocab, tokens, other) == 0.0
  {
    var z := Vectorize(vocab, Join(other));
    CountVectorOfTokens(vocab, other);
    assert forall k :: 0 <= k < |z| ==> z[k] == 0;
    ScorerContract(sim, Vectorize(vocab, Join(tokens)), z);
  }

  /** Every token of two or more characters of a target file is in the
      vocabulary fitted on the target files. */
  lemma TargetTokenInVocabulary(targets: seq<TokenizedFile>, i: nat, w: string)
    requires i < |targets| && w in targets[i].tokens && |w| >= 2
    requires forall k :: 0 <= k < |targets| ==> AllTokens(targets[k].tokens)
    ensures w in BuildVocabulary(JoinedDocs(targets))
  {
    var lists := seq(|targets|, k requires 0 <= k < |targets| => targets[k].tokens);
    assert JoinedDocs(targets) == seq(|lists|, k requires 0 <= k < |lists| => Join(lists[k]));
    VocabularyOfTokenLists(lists, w);
    assert w in lists[i];
  }

  /** A target file that also sits, unchanged, among the reference files has
      maximum 1 in the run, as long as it holds a token of two or more
      characters. */
  lemma CopiedTargetHasMaximumOne(sim: Scorer, targets: seq<TokenizedFile>, refs: seq<TokenizedFile>, i: nat, j: nat)
    requires IsCosineScorer(sim)
    requires i < |targets| && j < |refs|
    requires forall k :: 0 <= k < |targets| ==> AllTokens(targets[k].tokens)
    requires refs[j].tokens == targets[i].tokens
    requires exists w :: w in targets[i].tokens && |w| >= 2
    ensures Maxima(sim, BuildVocabulary(JoinedDocs(targets)), targets, refs)[i] == 1.0
  {
    var vocab := BuildVocabulary(JoinedDocs(targets));
    var tokens := targets[i].tokens;
    var w :| w in tokens && |w| >= 2;
    TargetTokenInVocabulary(targets, i, w);
    VocabularyTermsAreLong(JoinedDocs(targets));
    var k :| 0 <= k < |vocab| && vocab[k] == w;
    CopyScoresOne(sim, vocab, tokens);
    var row := ScoreRow(sim, vocab, tokens, refs);
    assert row[j] == 1.0;
    MaxOfIsUpperBound(row);
    MaximumOfFile(sim, vocab, tokens, refs);
  }
}
