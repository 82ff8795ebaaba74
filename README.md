# SourceMiner similarity core in Dafny

SourceMiner (`main.py`) measures how similar a target codebase is to a reference corpus. This project models the part of the script that makes the decisions:

- **`extract_tokens`:** a file's text becomes a list of lower-case word tokens.
- **`tokenize_directory`:** only files whose names match the extension pattern are kept, and a file that cannot be read is skipped.
- **`CountVectorizer`:** the vocabulary is fitted on the target files alone, and each token list becomes a count vector over that vocabulary.
- **`calculate_similarity`:** both token lists are joined by spaces, vectorised, and scored with the cosine similarity.
- **The scoring block of `main`:**
  - for each target file, keep the largest score against any reference file, starting from 0.0;
  - add those maxima up and divide by the number of target files;
  - do all of this only when neither side is empty.

Modules, leaves first:

| module | file | models |
|---|---|---|
| `Wrappers` | wrappers.dfy | `Option` and `Result` |
| `Tokenizer` | tokenizer.dfy | `extract_tokens` over ASCII text |
| `CorpusLoader` | corpus_loader.dfy | the file-name filter, and `tokenize_directory` over a directory listing given as a value |
| `Vocabulary` | vocabulary.dfy | Python's string order; `fit`'s sorted vocabulary; the vectorizer's default analyser; count vectors; the `Vectorizer` object |
| `Cosine` | cosine.dfy | integer dot products and squared norms, Cauchy–Schwarz, and the cosine score described by its square |
| `Aggregation` | aggregation.dfy | `calculate_similarity` and the fit/score/average block of `main` |

The loops of `main.py` and the vectorizer object are Dafny methods:
- `TokenizeDirectory` holds the loop of `tokenize_directory`;
- `Vectorizer.Fit` and `Vectorizer.Transform` work on a class whose `fitted` and `vocabulary` fields `Fit` sets;
- `ScoreTargets` holds the two nested loops of `main`, with their running maximum and running sum;
- `Run` holds the guard, the `fit` call and the division.

`calculate_similarity` is straight-line calls. It is the method `CalculateSimilarity` only because it calls the `Transform` method of the vectorizer object.

Each method is proved against a specification function: `Loaded`, `BuildVocabulary`, `Vectorize`, `PairScore`, `MaxOf`, `Sum` and `Maxima`. The properties are lemmas about those functions.

How the foreign code and the arithmetic are represented:

- **Cosine score.** `cosine_similarity` needs a square root, which Dafny lacks. The score is therefore a parameter `sim` of type `Scorer`.
  - `IsCosine(a, b, s)` describes the true cosine exactly:
    - if either vector is all-zero, `s` is `0`;
    - otherwise `s >= 0` and `s² · normSq(a) · normSq(b) = dot(a, b)²`.
  - `IsCosineScorer(sim)` says that `sim` gives that value for every pair.
  - The bounds, symmetry, the value 1 on a non-zero vector with itself, and 0 on a zero vector are then proved from `IsCosine`.
- **Default analyser.** `CountVectorizer()`'s default analyser is modelled as it behaves:
  - it lower-cases, then takes the matches of `(?u)\b\w\w+\b`;
  - that is, the maximal runs of word characters that are at least two characters long.
  - The vocabulary is the sorted list of distinct terms, and index `i` belongs to the `i`-th term.
  - `fit` raises when no term exists at all; that is `NoVocabulary`, both as the vectorizer's error and as the run's outcome.
  - `transform` on an unfitted vectorizer fails with `NotFitted`.
- **Characters.** Text is ASCII:
  - `\w` is `[A-Za-z0-9_]`;
  - whitespace is code points 9–13 and 28–32, the ASCII range of what both `\s` and `str.split()` accept;
  - `lower()` maps `A`–`Z` to `a`–`z`.
- **File-name filter.** The pattern `.*\.(c|cpp|py|java|js|html|css|php|sql|txt)$` is taken as `re.match` applies it:
  - it is anchored at the start;
  - `.` never matches a line feed;
  - `$` also matches before one final line feed.
  - It is proved equal to a simpler reference form: "the text after the last dot is one of the ten extensions".

Consequences of what `main.py` and `CountVectorizer` do:

- **Vocabulary indices.** Indices follow `CountVectorizer`'s sorted order. Tokens `foo bar foo` give the vocabulary `["bar", "foo"]` and the count vector `[1, 2]`.
- **One-character tokens.** The tokenizer keeps one-character tokens, but the vectorizer never counts them. A file made only of such tokens therefore has a zero count vector.
- **Empty sides.** `main` prints one message for either empty side and returns normally, so the model has one outcome, `MissingFiles`.
- **Empty vocabulary.** `fit` raises `ValueError` when the target files hold no term of two or more characters, and the script stops. The model reports `NoVocabulary`.

## Model

| member | source | states |
|---|---|---|
| Tokenizer.IsWord | main.py:11 | the ASCII reading of `\w`: a letter, a digit or `_` |
| Tokenizer.IsSpace | main.py:11 | the ASCII reading of `\s` and of `str.split()`'s separators: code points 9 to 13 and 28 to 32 |
| Tokenizer.Kept | main.py:11 | the characters outside `[^\w\s]`; `StripPunctuationOfChar` and `StripKeepsKept` say that exactly these survive |
| Tokenizer.Lower | main.py:11 | `lower()` on one ASCII character; `TokensAreWellFormed` shows that no upper-case letter survives it |
| Tokenizer.LowerCase | main.py:11 | `lower()` on a text, character by character; used by `TokensAreWellFormed`, `NoTokensIff` and `TokenizeJoin` |
| Tokenizer.StripPunctuation | main.py:11 | the characters that survive `re.sub(r"[^\w\s]", "", s)` are exactly the word and whitespace characters of `s`, and the text never grows |
| Tokenizer.Runs | main.py:11 | `split()` gives non-empty pieces made only of non-whitespace characters |
| Tokenizer.RunLength | main.py:11 | the length of the leading run of kept characters: every character before it is kept and the one after it is not |
| Tokenizer.RunsChars | main.py:11 | every character of a piece comes from the text being split |
| Tokenizer.RunsEmptyIff | main.py:11 | splitting gives no pieces exactly when the text has no non-separator character |
| Tokenizer.RunsOfJoin | main.py:11 | splitting the space-joined list of non-empty pieces without separators gives the list back |
| Tokenizer.StripKeepsKept | main.py:11 | the substitution leaves a text unchanged when every character is a word or whitespace character |
| Tokenizer.RunLengthOfPrefix | main.py:11 | the leading run of `t + u` is exactly `t` when `t` is all kept and `u` starts with a separator or is empty |
| Tokenizer.Join | main.py:38-39 | `" ".join(ts)`; splitting it gives `ts` back by `RunsOfJoin` and `TokenizeJoin`, and its characters are given by `JoinChars` |
| Tokenizer.JoinChars | main.py:38-39 | every character of `" ".join(ts)` is a space or a character of one of the items |
| Tokenizer.StripPunctuationConcat | main.py:11 | the substitution distributes over concatenation; with `StripPunctuationOfChar` it keeps exactly the kept characters, in order and number |
| Tokenizer.StripPunctuationOfChar | main.py:11 | one character survives exactly when it is a word or whitespace character |
| Tokenizer.RunLengthOfConcat | main.py:11 | a run of kept characters stops at the first character outside `keep` |
| Tokenizer.RunsOfRun | main.py:11 | a non-empty text without separators splits into itself alone |
| Tokenizer.RunsOfSeparated | main.py:11 | a separator cuts the split in two: the pieces of `s + [c] + t` are those of `s` followed by those of `t`; with `RunsOfRun` this fixes `split()` on every text |
| Tokenizer.ExtractTokens | main.py:10-11 | `extract_tokens` as the composition of the three steps; its properties are `TokensAreWellFormed`, `NoTokensIff`, `TokenizeJoin` and `ExtractTokensIdempotent` |
| Tokenizer.TokensAreWellFormed | main.py:10-11 | every token is non-empty, has no whitespace, and consists of lower-case word characters only |
| Tokenizer.NoTokensIff | main.py:10-11 | the token list is empty exactly when the text has no word character (empty text, or punctuation and whitespace only) |
| Tokenizer.TokenizeJoin | main.py:10-11 | tokenizing `" ".join(ts)` gives `ts` back for any list of well-formed tokens |
| Tokenizer.ExtractTokensIdempotent | main.py:10-11 | `extract_tokens(" ".join(extract_tokens(s))) == extract_tokens(s)` |
| CorpusLoader.EndsWith | main.py:52 | a name ends with a suffix |
| CorpusLoader.Body | main.py:52 | the part of a name that `$` closes: the name without one final line feed |
| CorpusLoader.AfterLastDot | main.py:52 | the text after a name's last dot, if it has one; characterised by `AfterLastDotSound` and `AfterLastDotComplete` |
| CorpusLoader.HasSourceExtension | main.py:52 | the independent last-dot form of the filter, equal to `MatchesSourcePattern` by `MatchesIffHasSourceExtension` |
| CorpusLoader.AfterLastDotSound | main.py:20 | the text after the last dot comes at the end of the name, after a dot, and holds no dot |
| CorpusLoader.AfterLastDotComplete | main.py:20 | a dot-free suffix that follows a dot at the end of a name is what follows its last dot |
| CorpusLoader.MatchesIffHasSourceExtension | main.py:52 | `re.match` of the extension pattern accepts a name exactly when the name has no line feed apart from a final one, and its text after the last dot is one of c, cpp, py, java, js, html, css, php, sql, txt |
| CorpusLoader.MatchesSourcePattern | main.py:20 | `re.match` of the pattern on a file name; proved equal to the last-dot form by `MatchesIffHasSourceExtension` |
| CorpusLoader.Selected | main.py:20-23 | an entry is loaded when its name matches the pattern and its text could be read |
| CorpusLoader.Loaded | main.py:14-28 | what `tokenize_directory` returns for a listing; its contents are given by `LoadedMembership` and `LoadedTokensAreTokens` |
| CorpusLoader.LoadedMembership | main.py:17-27 | a file is in the result exactly when a readable entry with a matching name produced it, with that entry's path and the tokens of its text; unreadable files are absent |
| CorpusLoader.LoadedTokensAreTokens | main.py:24-25 | every loaded file carries well-formed tokens |
| CorpusLoader.TokenizeDirectory | main.py:14-28 | the loop returns the matching, readable files in walk order, each with its path and its tokens (`Loaded`) |
| Vocabulary.Less | main.py:69 | Python's `<` on strings, by which the vocabulary is sorted; a strict total order by `LessIrreflexive`, `LessTransitive`, `LessTotal` and `LessAsymmetric` |
| Vocabulary.LessIrreflexive | main.py:69 | Python's string order never puts a string before itself |
| Vocabulary.LessTransitive | main.py:69 | Python's string order is transitive |
| Vocabulary.LessTotal | main.py:69 | any two distinct strings are ordered one way or the other |
| Vocabulary.LessAsymmetric | main.py:69 | two strings are never each before the other |
| Vocabulary.StrictlySorted | main.py:69 | the vocabulary's order: every word before every later one in Python's string order, hence no word twice |
| Vocabulary.Insert | main.py:69 | inserting a term keeps the list strictly sorted and adds exactly that term |
| Vocabulary.SortedDistinct | main.py:69 | the result is strictly sorted and holds exactly the input's elements |
| Vocabulary.SortedUnique | main.py:69 | two strictly sorted lists with the same elements are equal, so the vocabulary's order is determined |
| Vocabulary.LongTerms | main.py:69 | the analyser keeps exactly the terms of two or more characters |
| Vocabulary.Terms | main.py:69 | a term occurs among all documents' terms exactly when one document's analysis contains it |
| Vocabulary.BuildVocabulary | main.py:69 | `fit`'s vocabulary is strictly sorted and holds exactly the terms of the documents given to it |
| Vocabulary.Analyze | main.py:38-39 | the default analyser; on joined tokens it is given by `AnalyzeJoin` |
| Vocabulary.Vectorize | main.py:38-39 | `transform`'s count vector has one entry per vocabulary word; its entries are given by `CountVectorOfTokens`, `OutOfVocabularyIgnored` and `InVocabularyCounted` |
| Vocabulary.AnalyzeJoin | main.py:38-39 | on joined tokens the analyser sees exactly the tokens of two or more characters, in order |
| Vocabulary.LongTermsCount | main.py:38-39 | dropping short terms does not change the count of a long term |
| Vocabulary.VocabularyOfTokenLists | main.py:69 | a word is in the vocabulary fitted on joined token lists exactly when it has two or more characters and occurs in one of the lists |
| Vocabulary.CountVectorOfTokens | main.py:38-39 | entry `i` of a token list's count vector is the number of occurrences of vocabulary word `i` in the list |
| Vocabulary.OutOfVocabularyIgnored | main.py:38-39 | a token outside the vocabulary, such as a reference-only token, leaves the count vector unchanged |
| Vocabulary.InVocabularyCounted | main.py:38-39 | one more occurrence of a vocabulary word adds one to its own entry and nothing to the others |
| Vocabulary.Vectorizer.constructor | main.py:64 | a new vectorizer is unfitted and has no vocabulary |
| Vocabulary.Vectorizer.Fit | main.py:69 | `fit` fails, changing nothing, exactly when the documents hold no term; otherwise it stores `BuildVocabulary(docs)` and becomes fitted |
| Vocabulary.Vectorizer.Transform | main.py:38-39 | `transform` fails with `NotFitted` before `fit`; afterwards it returns one count per vocabulary word, each the number of times the analyser finds that word in the document |
| Cosine.Dot | main.py:41 | the dot product, the numerator of the cosine; its properties are `DotOfCounts`, `DotSymmetric`, `DotOfZero` and `CauchySchwarz` |
| Cosine.NormSq | main.py:41 | the squared Euclidean norm, whose root is a factor of the denominator; its properties are `NormSqNonNegative`, `ZeroNormIffZero` and `NormSqOfCombine` |
| Cosine.DotOfCounts | main.py:41 | the dot product of two count vectors is non-negative |
| Cosine.NormSqNonNegative | main.py:41 | a squared norm is non-negative |
| Cosine.DotSymmetric | main.py:41 | `dot(a, b) == dot(b, a)` |
| Cosine.ZeroNormIffZero | main.py:41 | a vector's norm is zero exactly when every entry is zero |
| Cosine.DotOfZero | main.py:41 | an all-zero vector has dot product 0 with every vector |
| Cosine.NormSqOfCombine | main.py:41 | expands the squared norm of `p·a − q·b` |
| Cosine.CauchySchwarz | main.py:41 | `dot(a, b)² <= normSq(a) · normSq(b)` |
| Cosine.SelfDot | main.py:41 | `dot(v, v)² == normSq(v) · normSq(v)`, which holds by the definition of the squared norm |
| Cosine.IsCosine | main.py:41 | `s` is the cosine of `a` and `b`, or 0 when either vector is all-zero; it fixes one score per pair by `CosineUnique`, and `CosineBounds`, `CosineSymmetric`, `CosineSelf` and `CosineOfZeroVector` are its properties |
| Cosine.IsCosineScorer | main.py:41 | a scorer computes `IsCosine`'s score on every pair of equally long count vectors; `ScorerContract` gives its bounds, symmetry, self-score and zero-vector score |
| Cosine.CosineBounds | main.py:41 | a cosine score of two count vectors lies in [0, 1] |
| Cosine.CosineSymmetric | main.py:41 | the cosine score is symmetric |
| Cosine.CosineSelf | main.py:41 | a non-zero vector scores exactly 1 with itself |
| Cosine.CosineOfZeroVector | main.py:41 | an all-zero vector on either side scores 0 (never NaN) |
| Cosine.CosineUnique | main.py:41 | the characterisation fixes one score per pair of vectors |
| Cosine.ScorerContract | main.py:41 | a cosine scorer is bounded in [0, 1], symmetric, 1 on equal non-zero vectors, and 0 when either vector is all-zero |
| Aggregation.JoinedDocs | main.py:69 | the documents given to `fit`: each target file's tokens joined by spaces, one per file; the vocabulary built from them is given by `VocabularyOfTokenLists` and `TargetTokenInVocabulary` |
| Aggregation.ScoreRow | main.py:73-76 | the scores of one target file against every reference file, in order; bounded by `MaximumOfFile` |
| Aggregation.PairScore | main.py:37-42 | what `calculate_similarity` returns after `fit`; `CalculateSimilarity` is proved equal to it, and `CopyScoresOne` and `UnrelatedScoresZero` are about it |
| Aggregation.Max | main.py:78 | Python's `max(a, b)`: at least both arguments, and equal to one of them |
| Aggregation.MaxOf | main.py:72-78 | the running maximum from 0.0; its properties are `MaxOfIsUpperBound`, `MaxOfIsLeast` and `MaxOfAttained` |
| Aggregation.Sum | main.py:88 | the accumulated sum; bounded by `SumBounds` |
| Aggregation.Maxima | main.py:71-88 | the per-file maxima of a run, one per target file; bounded by `MaximumOfFile` and `AverageOfRun` |
| Aggregation.MaxOfIsUpperBound | main.py:72-78 | the running maximum, started from 0.0, is at least 0 and at least every pair score |
| Aggregation.MaxOfIsLeast | main.py:72-78 | it is no larger than any non-negative bound of the scores |
| Aggregation.MaxOfAttained | main.py:72-78 | it equals one of the scores, unless every score is negative and it stays 0.0 |
| Aggregation.SumBounds | main.py:88 | a sum of values in [0, 1] lies between 0 and their number |
| Aggregation.AverageInUnit | main.py:88-91 | the average of values in [0, 1] lies in [0, 1] |
| Aggregation.CalculateSimilarity | main.py:37-42 | fails with `NotFitted` before `fit`; otherwise `sim` of the two joined token lists' count vectors |
| Aggregation.ScoreTargets | main.py:71-88 | for every target file, in order, its path and the maximum of its scores against all reference files; the accumulator ends at the sum of those maxima |
| Aggregation.Run | main.py:64-91 | `MissingFiles` exactly when a side is empty; `NoVocabulary` exactly when the target files hold no term; otherwise one result per target file with its maximum under the vocabulary fitted on the target files alone, and an average equal to the sum of maxima divided by the number of target files (not of pairs) |
| Aggregation.MaximumOfFile | main.py:72-78 | with a cosine scorer, a file's maximum lies in [0, 1] and, when there is a reference file, it is the score of one pair |
| Aggregation.AverageOfRun | main.py:88-91 | with a cosine scorer, the reported average lies in [0, 1] |
| Aggregation.VocabularyTermsAreLong | main.py:69 | every vocabulary word has at least two characters |
| Aggregation.TargetTokenInVocabulary | main.py:69 | every target token of two or more characters is in the vocabulary |
| Aggregation.CopyScoresOne | main.py:37-42 | a file scores 1 against an identical file when one of its tokens is in the vocabulary |
| Aggregation.UnrelatedScoresZero | main.py:37-42 | a file whose tokens are all outside the vocabulary scores 0 against anything |
| Aggregation.CopiedTargetHasMaximumOne | main.py:71-88 | a target file that appears unchanged among the reference files, and has a token of two or more characters, gets maximum 1 |

## Left out

- Cloning the repository (main.py:31-34, 50) is network and git I/O.
- `input()` and every `print` (main.py:15, 27, 46-48, 56, 58, 77, 81-86, 91-92) are console I/O. In particular, the percentages the script prints are not modelled; `Run` returns the average as a fraction.
- The directory walk, `open` and the lenient UTF-8 read (main.py:17-23) are filesystem I/O. A listing is a parameter instead: each entry's path, name, and its text or `None` when reading raised. The order of the walk is the order of that listing.
- The reference corpus path is a fixed configuration value (main.py:53). The reference and target listings are parameters of the model.
- Timing with `time()` and `elapsed_time` (main.py:61-62, 79, 92) is informational wall-clock data.
- `SequenceMatcher` (main.py:3) is imported but never used.
- `any(...)` over the pattern list (main.py:20) is modelled only for the single pattern that `main` passes (main.py:52).
- sklearn's `CountVectorizer` and `cosine_similarity` (main.py:6-7) are foreign code. They are modelled by what they compute, as described above, and not by their implementation: sparse matrices, the accent and Unicode handling, and the float32/float64 arithmetic are not modelled.
- Floating point: scores, maxima and the average are exact `real`s, so float rounding in the sum and the division is not modelled.
- Text beyond ASCII: Unicode `\w`, Unicode whitespace and Unicode `lower()` are not modelled.
- Aggregation.CalculateSimilarity: the score comes from the parameter `sim`, which stands for `cosine_similarity`. The cosine properties hold for any `sim` with `IsCosineScorer(sim)`; the method itself states its result only in terms of `sim`.
- Aggregation.ScoreTargets: requires a fitted vectorizer. In `main` the loops run only after `fit` has succeeded (main.py:69), and `Run` is the only caller.
