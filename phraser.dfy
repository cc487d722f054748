/**
 * `score_calc_phraser`: the whole ranking of the scraped dictionary entries
 * of a keyword against a context sentence. The part of speech is predicted,
 * the context window cut out and tokenised, every meaning scored by
 * co-occurrence and by word vectors, the two scores fused, and the rows
 * sorted so that entries of the predicted word type come first, best score
 * first.
 */
module Phraser {
  import opened Wrappers
  import opened Text
  import opened L2Norm
  import opened PosTag
  import opened Window
  import opened CoOccur
  import opened Embedding
  import opened Ranking

  /**
   * What the pipeline calls and reads besides its arguments: the character
   * classes, the tagger and the tokeniser, the corpus word ids and
   * co-occurrence matrix, the word-vector distance and the Euclidean norm.
   */
  datatype Env = Env(cs: Charset, posTag: string -> Tagged, tokenize: string -> seq<string>,
                     ids: WordIds, m: CoMatrix, dist: Distance, norm: seq<real> -> real)

  /** `cleaned_meaning`: every meaning cleaned and tokenised. */
  function Meanings(records: seq<Record>, env: Env): (r: seq<seq<string>>)
    ensures |r| == |records|
  {
    seq(|records|, k requires 0 <= k < |records| => env.tokenize(CleanTestDat(records[k].meaning, env.cs)))
  }

  /** `cleaned_examples`: every example block without the keyword, cleaned, tokenised and joined by spaces. */
  function Examples(records: seq<Record>, kw: string, env: Env): (r: seq<string>)
    requires |kw| > 0
    ensures |r| == |records|
  {
    seq(|records|, k requires 0 <= k < |records| =>
      Join(env.tokenize(CleanTestDat(ReplaceAll(records[k].examples, kw, ""), env.cs)), ' '))
  }

  /** The tokenised context window. */
  function Context(text: string, kw: string, env: Env): seq<string>
    requires |kw| > 0
  {
    env.tokenize(Join(ContextWindow(CleanTestDat(text, env.cs), kw), ' '))
  }

  /** The result table before sorting: one row per record, in scraped order. */
  function Rows(records: seq<Record>, pred: Option<string>, co: seq<Option<real>>, vec: seq<Option<real>>,
                w0: real, w1: real): (r: seq<Row>)
    requires |co| == |records| && |vec| == |records|
    requires w0 + w1 != 0.0
    ensures |r| == |records|
    ensures InInputOrder(r)
    ensures forall k :: 0 <= k < |records| ==> r[k].rec == records[k] && r[k].predType == pred
  {
    seq(|records|, k requires 0 <= k < |records| =>
      Row(k, records[k], pred, co[k], vec[k], FinalScore(co[k], vec[k], w0, w1), Mismatch(records[k].wordType, pred)))
  }

  /**
   * What `score_calc_phraser` computes, up to the order of the rows: the
   * prediction's exception, `ValueError` for an empty keyword (the
   * separator of `split`), or the unsorted rows.
   */
  function PhraserRows(word: string, text: string, records: seq<Record>, env: Env, w0: real, w1: real)
    : (r: Outcome<seq<Row>>)
    requires IsL2Norm(env.norm)
    requires w0 + w1 != 0.0
    ensures r.Ok? ==> |r.value| == |records| && InInputOrder(r.value)
  {
    match PredictSpec(text, word, env.cs, env.posTag)
    case Raise(e) => Raise(e)
    case Ok(pred) =>
      var kw := Underscored(word);
      if kw == "" then Raise(ValueError)
      else
        var ctx := Context(text, kw, env);
        var co := CoScores(ctx, Meanings(records, env), env.ids, env.m, env.norm);
        var vec := VecScores(ctx, Examples(records, kw, env), env.dist, env.norm);
        Ok(Rows(records, pred, co, vec, w0, w1))
  }

  /** The pipeline raises exactly when the prediction raises or the keyword is empty. */
  lemma PhraserRaises(word: string, text: string, records: seq<Record>, env: Env, w0: real, w1: real)
    requires IsL2Norm(env.norm)
    requires w0 + w1 != 0.0
    ensures PhraserRows(word, text, records, env, w0, w1).Raise? <==>
            PredictSpec(text, word, env.cs, env.posTag).Raise? || word == ""
  {
    UnderscoredChars(word);
  }

  /**
   * When the tagger's tag has no Vietnamese category the prediction is
   * `None`, and every row is flagged as not matching it.
   */
  lemma NoPredictionAllFlagged(word: string, text: string, records: seq<Record>, env: Env, w0: real, w1: real)
    requires IsL2Norm(env.norm)
    requires w0 + w1 != 0.0
    requires PredictSpec(text, word, env.cs, env.posTag) == Ok(None) && word != ""
    ensures PhraserRows(word, text, records, env, w0, w1).Ok?
    ensures forall k :: 0 <= k < |records| ==> PhraserRows(word, text, records, env, w0, w1).value[k].mismatch
  {
    UnderscoredChars(word);
  }

  /** When the pipeline does not raise, its rows are those of the prediction and the two scorers. */
  lemma PhraserRowsValue(word: string, text: string, records: seq<Record>, env: Env, w0: real, w1: real)
    requires IsL2Norm(env.norm)
    requires w0 + w1 != 0.0
    requires PhraserRows(word, text, records, env, w0, w1).Ok?
    ensures var kw := Underscored(word);
      && |kw| > 0
      && PredictSpec(text, word, env.cs, env.posTag).Ok?
      && var ctx := Context(text, kw, env);
         PhraserRows(word, text, records, env, w0, w1).value ==
           Rows(records, PredictSpec(text, word, env.cs, env.posTag).value,
                CoScores(ctx, Meanings(records, env), env.ids, env.m, env.norm),
                VecScores(ctx, Examples(records, kw, env), env.dist, env.norm), w0, w1)
  {
  }

  /** No scraped entry gives an empty table; there is no "not found" result. */
  lemma EmptyScrape(word: string, text: string, env: Env, w0: real, w1: real)
    requires IsL2Norm(env.norm)
    requires w0 + w1 != 0.0
    requires PredictSpec(text, word, env.cs, env.posTag).Ok? && word != ""
    ensures PhraserRows(word, text, [], env, w0, w1) == Ok([])
  {
    UnderscoredChars(word);
  }

  /** The scoring part of the pipeline: the context window, both scorers and the fused rows. */
  method ScoreRows(text: string, kw: string, records: seq<Record>, pred: Option<string>, env: Env, w0: real, w1: real)
    returns (rows: seq<Row>)
    requires |kw| > 0
    requires IsL2Norm(env.norm)
    requires w0 + w1 != 0.0
    ensures var ctx := Context(text, kw, env);
      rows == Rows(records, pred, CoScores(ctx, Meanings(records, env), env.ids, env.m, env.norm),
                   VecScores(ctx, Examples(records, kw, env), env.dist, env.norm), w0, w1)
  {
    var cleanedText := Context(text, kw, env);
    var meanings := Meanings(records, env);
    var examples := Examples(records, kw, env);
    var co := CoOccurScoreCalc(cleanedText, meanings, env.ids, env.m, env.norm);
    var vec := VectorScoreCalc(cleanedText, examples, env.dist, env.norm);
    rows := Rows(records, pred, co, vec, w0, w1);
  }

  /** The table put into an array and sorted in place. */
  method RankRows(rows: seq<Row>) returns (ranked: seq<Row>)
    requires InInputOrder(rows)
    ensures Ranked(ranked)
    ensures multiset(ranked) == multiset(rows)
  {
    var results := new Row[|rows|](k requires 0 <= k < |rows| => rows[k]);
    assert results[..] == rows;
    SortRows(results);
    ranked := results[..];
  }

  /**
   * `score_calc_phraser` on the records `scrape` produced: the prediction,
   * the context window, both scorers, the fused rows, and the in-place sort.
   * The result is the rows ranked: sorted by (flag, score), ties in scraped
   * order.
   */
  method ScoreCalcPhraser(word: string, text: string, records: seq<Record>, env: Env, w0: real, w1: real)
    returns (r: Outcome<seq<Row>>)
    requires IsL2Norm(env.norm)
    requires w0 + w1 != 0.0
    ensures r.Raise? <==> PhraserRows(word, text, records, env, w0, w1).Raise?
    ensures r.Raise? ==> r == PhraserRows(word, text, records, env, w0, w1)
    ensures r.Ok? ==> Ranked(r.value)
    ensures r.Ok? ==> multiset(r.value) == multiset(PhraserRows(word, text, records, env, w0, w1).value)
  {
    var pred := PredictPosTag(text, word, env.cs, env.posTag);
    if pred.Raise? {
      return Raise(pred.error);
    }
    var kw := Underscored(word);
    if kw == "" {
      return Raise(ValueError);
    }
    var rows := ScoreRows(text, kw, records, pred.value, env, w0, w1);
    var ranked := RankRows(rows);
    r := Ok(ranked);
  }
}
