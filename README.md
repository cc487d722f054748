# Meaning ranking of a Vietnamese dictionary app, in Dafny

The app looks up a Vietnamese keyword in an online dictionary. It then ranks
the dictionary's meanings by how well each one fits a context sentence. This
project models that ranking, `modules/score_calc.py`, and proves properties of
the model. The ranking has these parts:

- **Text normaliser** (`Text`): `clean_test_dat` lower-cases, strips, and
  deletes every character that is neither Latin script nor whitespace.
  `remove_items` filters a list. The module also models the Python string
  primitives the pipeline uses: `in`, `index`, `replace`, `split` and `join`.
- **Part of speech** (`PosTag`):
  - `vn_pos_tag` is a first-match walk over an ordered translation table from
    the tagger's native tags to the dictionary's word types.
  - `predict_pos_tag` finds the keyword's tag in three tiers: an exact token,
    then a containing token, then a character-offset walk.
- **Context window** (`Window`): the keyword joined with `_`, its position
  `w_idx` in the cleaned sentence, its occurrences deleted, the sentence split
  on spaces with empty pieces dropped, and the tokens kept whose index lies
  from `w_idx - 8` up to `w_idx + 7`. `w_idx` counts the pieces before the
  keyword, so it is one past the keyword's own slot. In single-spaced text the
  window therefore holds up to seven tokens before the keyword and nine after
  it (`Window.KeywordFirstWindow`).
- **Co-occurrence scorer** (`CoOccur`): `co_occur_score_calc`.
  - For every meaning it counts the pairs of known context and meaning words,
    and adds up the symmetric matrix cells of those pairs.
  - Each meaning's score is `None`, the sentinel 10, or `cnt / sum`.
  - The scores are normalised only when every meaning has one.
- **Embedding scorer** (`Embedding`): `vector_score_calc`.
  - Per example sentence it averages, over the context tokens, each token's
    minimum word-vector distance.
  - Each meaning keeps its best example.
  - The present scores are normalised.
- **Euclidean normalisation** (`L2Norm`): both scorers divide by the norm of
  the present scores. Python truthiness decides which entries are divided.
- **Fusion and ranking** (`Ranking`):
  - a missing score counts as 1;
  - the final score is the weighted average;
  - every row whose word type differs from the prediction is flagged;
  - the rows are sorted in place by (flag, score).
- **Pipeline** (`Phraser`): `score_calc_phraser`, from the scraped records to
  the ranked table.

Collaborators the code calls but does not define are parameters of the model,
gathered in `Phraser.Env`:

- the character classes of `str.lower`, `\p{Latin}` and `\s` (`Text.Charset`);
- the underthesea tagger (`string -> seq<(token, tag)>`) and tokeniser
  (`string -> seq<string>`);
- the corpus word ids and co-occurrence matrix;
- the word2vec distance, `None` for an out-of-vocabulary word;
- the Euclidean norm, characterised by `L2Norm.IsL2Norm`: never negative, and
  its square is the sum of squares.

Python exceptions that escape the pipeline become `Wrappers.Outcome.Raise`:

- `ValueError` from `text.index` and from `split` with an empty separator;
- `IndexError` from the tier-3 walk running past the last token, and from
  `pos_res[-1]` when the keyword is at offset 0 and the tagger returns no token.

Two behaviours of the code are easy to miss:

- `score_calc_phraser` has no "not found" result: a scrape with no record gives
  an empty table (`Phraser.EmptyScrape`).
- `co_occur_score_calc` normalises only when every meaning has a score; with one
  `None` all scores stay raw (`CoOccur.CoScoresRawWhenMissing`).

Each imperative part of the source is a method:

- the nested loops of both scorers;
- the tier loops and the `while` walk of the tagger;
- the in-place sort.

Each scorer and tagger method is proved equal to a specification function,
and the properties are proved about those functions. The sort is proved to
leave the rows ranked and a permutation of its input.

## Model

| member | source | states |
|---|---|---|
| Text.CleanTestDat | modules/score_calc.py:9-18 | The result is a subsequence of the lower-cased, stripped text. Every Latin or whitespace character keeps its multiplicity in it, and every other character occurs zero times. With the usual classes, `_` never survives. |
| Text.KeepLatinOrSpace | modules/score_calc.py:17 | The regex deletion keeps a subsequence of its input. Each Latin or whitespace character keeps its multiplicity, and every other character is deleted. |
| Text.Lower | modules/score_calc.py:16 | Lower-casing character by character keeps the length. |
| Text.Strip | modules/score_calc.py:16 | `strip()` keeps one contiguous middle of the text and removes only whitespace before and after it. A non-empty result neither starts nor ends with whitespace. |
| Text.StripStart | modules/score_calc.py:16 | The result is a suffix of the input. Everything removed is whitespace, and a non-empty result does not start with whitespace. |
| Text.StripEnd | modules/score_calc.py:16 | The result is a prefix of the input. Everything removed is whitespace, and a non-empty result does not end with whitespace. |
| Text.RemoveItems | modules/score_calc.py:21-31 | The item does not occur in the result. Every other element keeps its multiplicity. The result keeps the input's order (a subsequence). |
| Text.FindFrom | modules/score_calc.py:191 | The result is the first position at or after `k` where the substring occurs, and `None` only when it occurs nowhere there. This is what `text.index` and `split(word)[0]` rely on. |
| Text.Split | modules/score_calc.py:227-229 | `split` on one character gives at least one piece, and no piece contains the separator. |
| Text.SplitCount | modules/score_calc.py:227 | `split` gives exactly one more piece than there are separators. |
| Text.JoinSplit | modules/score_calc.py:226 | Joining the pieces of a split with the same separator gives the string back. |
| Text.RemoveAllUnchangedIff | modules/score_calc.py:228 | `replace(word, "")` never lengthens the text. It leaves the text unchanged exactly when the word does not occur in it. |
| PosTag.VnPosTag | modules/score_calc.py:34-54 | A result is a word type of the table, and `None` comes exactly when no key of the table matches the tag. |
| PosTag.FirstMatch | modules/score_calc.py:52-54 | The walk returns the first table entry whose key matches, and `None` only when no entry matches. |
| PosTag.EntryMatches | modules/score_calc.py:41-53 | A tuple key matches exactly its members. A string key matches itself and the empty tag, because of the substring test. |
| PosTag.VnPosTagTable | modules/score_calc.py:34-54 | `vn_pos_tag` agrees with the flattened table `NativeCategory`. The empty tag maps to `Tính từ`. Every tag outside the table maps to `None`. |
| PosTag.NounTags | modules/score_calc.py:42 | N, Np, Nc, Ny, Nu, M and L map to `Danh từ`. |
| PosTag.AdjectiveTag | modules/score_calc.py:43 | A maps to `Tính từ`. |
| PosTag.VerbTags | modules/score_calc.py:44 | V and Vy map to `Động từ`. |
| PosTag.PronounTag | modules/score_calc.py:45 | P maps to `Đại từ`. |
| PosTag.AdverbTag | modules/score_calc.py:46 | R maps to `Phụ từ`. |
| PosTag.ParticleTag | modules/score_calc.py:47 | T maps to `Trợ từ`. |
| PosTag.InterjectionTag | modules/score_calc.py:48 | I maps to `Cảm từ`. |
| PosTag.ConjunctionTags | modules/score_calc.py:49 | E, C and CC map to `Kết từ`. |
| PosTag.UnknownTags | modules/score_calc.py:50 | Z and X map to `Không rõ`. |
| PosTag.OtherTags | modules/score_calc.py:52-54 | A non-empty tag outside the table (such as `Nb` or `CH`) gives `None`. |
| PosTag.FirstIndex | modules/score_calc.py:177-188 | Tiers 1 and 2 scan for the first token satisfying the test, and return `None` only when no token does. |
| PosTag.WalkStop | modules/score_calc.py:193-196 | The walk stops at the least index whose cumulative length (`len + 1` per token) reaches the offset. It is `None` exactly when no index up to the end does. |
| PosTag.CumLenMonotone | modules/score_calc.py:195 | The cumulative length grows strictly with every token. |
| PosTag.WalkToOffset | modules/score_calc.py:192-196 | The `while` loop stops where `WalkStop` says, and reports running past the last token as `None`. |
| PosTag.PredictSpec | modules/score_calc.py:165-199 | A prediction is always a word type of the table. An exception can only come from tier 3: it is raised only when no token of the tagged text contains the keyword. |
| PosTag.PredictTierThree | modules/score_calc.py:190-199 | When no token contains the keyword, tier 3 decides: <br>• a keyword absent from the text raises `ValueError`; <br>• offset 0 selects the last token, and raises `IndexError` when there is no token; <br>• otherwise the token whose cumulative span first reaches the offset is selected; <br>• `IndexError` is raised exactly when the tokens end first. |
| PosTag.PredictPosTag | modules/score_calc.py:165-199 | The three-tier method returns or raises exactly what `PredictSpec` does. |
| Window.UnderscoredChars | modules/score_calc.py:226 | The `_`-joined keyword is the keyword with every space replaced by `_`: <br>• it has the same length; <br>• it has no space; <br>• it holds `_` when the keyword has several words; <br>• a one-word keyword is unchanged. |
| Window.Underscored | modules/score_calc.py:226 | `'_'.join(word.split(' '))` is the keyword with every space swapped for `_`. |
| Window.JoinSplitSwap | modules/score_calc.py:226 | Splitting on one character and joining with another replaces the one by the other. |
| Window.TextBefore | modules/score_calc.py:227 | `split(word)[0]` is a prefix of the text. It is the whole text when the keyword does not occur, and otherwise ends exactly at the keyword's first occurrence. |
| Window.KeywordPosition | modules/score_calc.py:227 | `w_idx` is at least 1. |
| Window.KeywordPositionSpaces | modules/score_calc.py:227 | `w_idx` is one more than the number of spaces before the keyword, so it is at least 1. |
| Window.ContextTokens | modules/score_calc.py:228-229 | No context token is empty. |
| Window.Slice | modules/score_calc.py:230 | A Python slice with a clamped end: its length is `hi - lo` or 0, and its elements are those of the list from `lo` on. |
| Window.ContextWindow | modules/score_calc.py:225-230 | The window holds at most 16 tokens, none empty. It is a contiguous run of the context tokens starting at `max(w_idx - 8, 0)`. |
| Window.WindowAroundKeyword | modules/score_calc.py:230 | A context token is in the window, at its offset from the window start, exactly when its position lies within the window around `w_idx`. |
| Window.KeywordFirstWindow | modules/score_calc.py:227-230 | A keyword at the start of the sentence gives `w_idx == 1`. With at least nine context tokens, the window is the first nine of them, so nine tokens after the keyword are kept, not eight. |
| Window.MultiWordKeywordNeverFound | modules/score_calc.py:225-229 | A keyword of several words never occurs in the cleaned sentence: <br>• nothing is deleted; <br>• the context tokens are all the non-empty pieces; <br>• `w_idx` counts every space-separated piece. |
| CoOccur.RawScore | modules/score_calc.py:147-153 | A present raw score is positive. |
| CoOccur.PairCountProduct | modules/score_calc.py:132-141 | `cnt[i]` is the number of known context tokens times the number of known meaning tokens: every pair counted with multiplicity. |
| CoOccur.RawScoreCases | modules/score_calc.py:132-153 | The raw score is: <br>• `None` exactly when the context or the meaning has no known word; <br>• 10 when pairs exist but all their cells are zero; <br>• otherwise `cnt / sum` with `sum > 0`. |
| CoOccur.CoScores | modules/score_calc.py:147-162 | The scores have one entry per meaning, and each entry is present exactly when that meaning's raw score is. |
| CoOccur.CoScoresNormalised | modules/score_calc.py:154-159 | When every meaning has a score: <br>• each score is its raw value over the norm of the whole vector; <br>• the norm is positive; <br>• the result has unit length; <br>• the order between any two meanings is kept. |
| CoOccur.CoScoresRawWhenMissing | modules/score_calc.py:154-162 | When some score is `None`, every score is returned raw and that one stays `None`. |
| CoOccur.PairStep | modules/score_calc.py:132-143 | One more context token adds its pairs to the counts when it is known, and nothing otherwise. |
| CoOccur.AddPairs | modules/score_calc.py:137-143 | The innermost loop adds one known context token's pairs to `cnt` and `sums`. |
| CoOccur.CountPairs | modules/score_calc.py:127-145 | The nested loops leave `cnt[i]` and `sums[i]` equal to `PairCount` and `PairMass` of each meaning. |
| CoOccur.CoOccurScoreCalc | modules/score_calc.py:116-162 | The method returns exactly `CoScores`: raw scores, normalised when all are present. |
| Embedding.MinOf | modules/score_calc.py:97-103 | `min` returns a member of the list that is no larger than any member. |
| Embedding.DistancesEmpty | modules/score_calc.py:91-96 | `w_sum` is empty exactly when the context token has no in-vocabulary pairing with the sentence. |
| Embedding.ExampleCountZero | modules/score_calc.py:89-99 | `ex_cnt` is zero exactly when no context token pairs with the sentence. |
| Embedding.ExampleScoreSome | modules/score_calc.py:100-101 | A sentence has a score exactly when some context token pairs with it. |
| Embedding.ExampleScoresMembers | modules/score_calc.py:84-101 | `ex_score` holds exactly the scores of the scorable sentences. |
| Embedding.MeaningScore | modules/score_calc.py:84-103 | A present meaning score is one of the scores in `ex_score`, and no larger than any of them. |
| Embedding.MeaningScoreSpec | modules/score_calc.py:83-103 | A meaning's score is `None` exactly when none of its sentences is scorable. Otherwise it is the score of some scorable sentence and no larger than any. |
| Embedding.VecScores | modules/score_calc.py:105-113 | The scores have one entry per meaning, and each entry is present exactly when that meaning's raw score is. |
| Embedding.VecScoresNormalised | modules/score_calc.py:105-110 | With some non-zero score: <br>• `None` stays `None`; <br>• every present score is divided by the norm of the present scores only; <br>• the present scores end with unit length; <br>• order is kept. |
| Embedding.VecScoresRawWhenNoTruthy | modules/score_calc.py:105-113 | When no raw score is truthy (all `None` or zero), the scores are returned raw. |
| Embedding.CollectDistances | modules/score_calc.py:91-96 | The loop builds `w_sum` as `Distances` specifies. |
| Embedding.SentenceTotals | modules/score_calc.py:89-99 | The loop computes `(ex_sum, ex_cnt)` as `ExampleTotals` specifies. |
| Embedding.ScoreMeaning | modules/score_calc.py:84-103 | The loops compute one meaning's score as `MeaningScore` specifies. |
| Embedding.VectorScoreCalc | modules/score_calc.py:70-113 | The method returns exactly `VecScores`: the raw scores with the truthy ones divided by the norm of the present ones. |
| L2Norm.SumSq | modules/score_calc.py:106 | A sum of squares is never negative. |
| L2Norm.Present | modules/score_calc.py:106 | The mask `scores != None` keeps every present value and is no longer than the vector. |
| L2Norm.PresentCounts | modules/score_calc.py:106 | The mask keeps each present value exactly as often as it occurs, so the norm is taken over the right multiset. |
| L2Norm.NormGuard | modules/score_calc.py:105-110 | The truthiness test never lets a division by a zero norm happen. |
| L2Norm.NormPositive | modules/score_calc.py:106-109 | A present non-zero score makes the norm of the present scores positive. |
| L2Norm.NormaliseUnit | modules/score_calc.py:105-110 | Dividing by the norm gives the present scores unit length, and keeps each entry present or absent as it was. |
| L2Norm.NormaliseIdempotent | modules/score_calc.py:105-110 | Once the present scores have unit length, their norm is 1 and normalising again changes no entry. |
| L2Norm.DivideInPlace | modules/score_calc.py:107-109 | The loop divides exactly the truthy entries by the norm and leaves `None` and zero entries as they are, as `DivideTruthy` specifies. |
| L2Norm.NormalisePreservesOrder | modules/score_calc.py:107-109 | Dividing by a positive norm keeps the order of any two present scores, in both directions. |
| Ranking.Mismatch | modules/score_calc.py:250 | `word_type_check` holds exactly when the prediction is not this row's word type, so always when there is no prediction. |
| Ranking.WeightedAverageBetween | modules/score_calc.py:249 | With non-negative weights of positive sum, the weighted average lies between the two values. |
| Ranking.FinalScoreBetween | modules/score_calc.py:249 | With non-negative weights of positive sum, the final score lies between the two filled component scores. |
| Ranking.FinalScoreMissing | modules/score_calc.py:249 | With both scores missing, the final score is 1 whatever the weights. |
| Ranking.BeforeTransitive | modules/score_calc.py:251 | The stable sort order is transitive. |
| Ranking.MatchesFirst | modules/score_calc.py:251 | In a ranked table, every row whose type matches the prediction precedes every row whose type does not. |
| Ranking.RankedUnique | modules/score_calc.py:251-252 | Two ranked tables with the same rows are equal, so the ranking is determined by the rows. |
| Ranking.SortRows | modules/score_calc.py:251 | The in-place sort leaves the rows ranked by (flag, score), ties in scraped order, and a permutation of the input. |
| Ranking.SwapLeft | modules/score_calc.py:251 | A swap exchanges two neighbours, changes nothing else, and keeps the multiset. |
| Ranking.InsertLast | modules/score_calc.py:251 | One insertion step extends the ranked prefix by one row and keeps the multiset. |
| Phraser.Rows | modules/score_calc.py:218-250 | The unsorted table has one row per scraped record, in scraped order. |
| Phraser.PhraserRows | modules/score_calc.py:202-253 | When nothing is raised, the table has one row per scraped record, in scraped order. |
| Phraser.PhraserRaises | modules/score_calc.py:202-253 | The pipeline raises exactly when the prediction raises or the keyword is empty. |
| Phraser.NoPredictionAllFlagged | modules/score_calc.py:222-250 | When the tag has no Vietnamese word type, every row is flagged. |
| Phraser.PhraserRowsValue | modules/score_calc.py:222-250 | When nothing is raised, the rows are built from the prediction, the context window and the two scorers. |
| Phraser.EmptyScrape | modules/score_calc.py:216-218 | No scraped record gives an empty table, not an error. |
| Phraser.ScoreRows | modules/score_calc.py:225-250 | The scoring steps produce the rows that `Rows` specifies. |
| Phraser.RankRows | modules/score_calc.py:251-252 | The table put into an array and sorted is ranked, and a permutation of the input. |
| Phraser.ScoreCalcPhraser | modules/score_calc.py:202-253 | The pipeline: <br>• raises exactly when and what the specification raises; <br>• otherwise returns the specified rows, ranked by (flag, score) with ties in scraped order. |

## Left out

- `scrape` (modules/scrape_dict.py) is network I/O and HTML parsing. The model takes its records as the `records` argument.
- The app's pages, the user interface and the loading of the trained resources are presentation and file I/O.
- The underthesea tagger and tokeniser are trained models. They are parameters, and their output is not modelled.
- `distance` is numpy vector arithmetic with a square root. It is a parameter returning `None` for an out-of-vocabulary word.
- The Euclidean norm is a parameter known only through `IsL2Norm`. The square root is not computed.
- Floating point is modelled as exact reals: no rounding, no `inf`, no `NaN`.
- `str.lower`, `\p{Latin}` and `\s` are parameters (`Text.Charset`):
  - lowering is character by character, so case mappings that change length are not modelled;
  - `_` being neither Latin nor whitespace is assumed only where a lemma needs it (`Text.WellFormed`);
  - `strip()` and `\s` are taken to agree on what whitespace is.
- Ranking.FinalScore: requires `w0 + w1 != 0`. For a zero sum pandas would produce `inf` or `NaN`, which the reals cannot express.
- Phraser.ScoreCalcPhraser: requires `w0 + w1 != 0`, for the same reason.
- Ranking.SortRows: pandas' `sort_values` does not promise an order among equal keys. The model fixes a stable order (ties stay in scraped order) and proves the result ranked and a permutation.
- pandas mechanics are not modelled:
  - the table is a sequence of `Ranking.Row`;
  - the `cleaned_meaning` and `cleaned_examples` columns are not kept in the rows;
  - `reset_index` is modelled as each row's `index` field, its position before the sort.
- The `scores` vectors of both scorers are sequences that the methods reassign, not numpy arrays updated in place.
- CoOccur.CoMatrix: the matrix entries are natural numbers. A negative id (numpy's negative indexing) cannot occur, and ids are naturals.
