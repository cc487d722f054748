/**
 * The embedding scorer `vector_score_calc`. Every meaning has a block of
 * example sentences; for each sentence, every context token contributes its
 * smallest word-vector distance to a sentence token, the sentence scores the
 * average of those minima, the meaning scores its best (smallest) sentence,
 * and the present scores are divided by their Euclidean norm.
 */
module Embedding {
  import opened Wrappers
  import opened Text
  import opened L2Norm

  /**
   * The word-vector distance between two words, `None` when either is out of
   * the model's vocabulary (the `KeyError` the scorer swallows).
   */
  type Distance = (string, string) -> Option<real>

  /** Python's `min` of a non-empty list of numbers. */
  function MinOf(xs: seq<real>): (r: real)
    requires |xs| > 0
    ensures r in xs
    ensures forall k :: 0 <= k < |xs| ==> r <= xs[k]
  {
    if |xs| == 1 then xs[0]
    else
      var rest := MinOf(xs[1..]);
      assert forall k :: 1 <= k < |xs| ==> xs[k] == xs[1..][k - 1];
      if xs[0] <= rest then xs[0] else rest
  }

  /** `w_sum`: the distances from `w` to the tokens of `ex` that have one, in order. */
  function Distances(w: string, ex: seq<string>, dist: Distance): seq<real>
  {
    if |ex| == 0 then []
    else
      var init := Distances(w, ex[..|ex| - 1], dist);
      match dist(w, ex[|ex| - 1])
      case None => init
      case Some(d) => init + [d]
  }

  /** `(ex_sum, ex_cnt)`: the minima added up over the context tokens that have any distance, and their number. */
  function ExampleTotals(ctx: seq<string>, ex: seq<string>, dist: Distance): (real, nat)
  {
    if |ctx| == 0 then (0.0, 0)
    else
      var (sum, cnt) := ExampleTotals(ctx[..|ctx| - 1], ex, dist);
      var ds := Distances(ctx[|ctx| - 1], ex, dist);
      if |ds| > 0 then (sum + MinOf(ds), cnt + 1) else (sum, cnt)
  }

  /** The score of one example sentence: the average minimum distance, `None` when no token pairs up. */
  function ExampleScore(ctx: seq<string>, ex: seq<string>, dist: Distance): Option<real>
  {
    var (sum, cnt) := ExampleTotals(ctx, ex, dist);
    if cnt == 0 then None else Some(sum / cnt as real)
  }

  /** `ex_score`: the scores of the sentences that have one, in order. */
  function ExampleScores(ctx: seq<string>, exs: seq<seq<string>>, dist: Distance): seq<real>
  {
    if |exs| == 0 then []
    else
      var init := ExampleScores(ctx, exs[..|exs| - 1], dist);
      match ExampleScore(ctx, exs[|exs| - 1], dist)
      case None => init
      case Some(v) => init + [v]
  }

  /** A meaning's examples as sentences of tokens: split on `"\n"`, then each line on `" "`. */
  function Sentences(examples: string): (r: seq<seq<string>>)
    ensures |r| == |Split(examples, '\n')|
  {
    var lines := Split(examples, '\n');
    seq(|lines|, k requires 0 <= k < |lines| => Split(lines[k], ' '))
  }

  /** The score of one meaning: its best sentence, `None` when no sentence scores. */
  function MeaningScore(ctx: seq<string>, examples: string, dist: Distance): (r: Option<real>)
    ensures r.Some? ==> r.value in ExampleScores(ctx, Sentences(examples), dist)
    ensures r.Some? ==> forall x :: x in ExampleScores(ctx, Sentences(examples), dist) ==> r.value <= x
  {
    var es := ExampleScores(ctx, Sentences(examples), dist);
    if |es| == 0 then None else Some(MinOf(es))
  }

  /** The score of every meaning, before normalisation. */
  function RawVecScores(ctx: seq<string>, examples: seq<string>, dist: Distance): (r: seq<Option<real>>)
    ensures |r| == |examples|
  {
    seq(|examples|, i requires 0 <= i < |examples| => MeaningScore(ctx, examples[i], dist))
  }

  /**
   * The scorer's result. `scores` is a numpy object array, so the mask
   * `scores != None` is element-wise and the norm is taken over the present
   * entries only; with no present entry nothing is divided, so the raw scores
   * come back whether or not the norm of the empty vector raises.
   */
  function VecScores(ctx: seq<string>, examples: seq<string>, dist: Distance, norm: seq<real> -> real)
    : (r: seq<Option<real>>)
    requires IsL2Norm(norm)
    ensures |r| == |examples|
    ensures forall i :: 0 <= i < |examples| ==> (r[i].Some? <==> RawVecScores(ctx, examples, dist)[i].Some?)
  {
    var raw := RawVecScores(ctx, examples, dist);
    NormGuard(raw, norm);
    DivideTruthy(raw, norm(Present(raw)))
  }

  /** `w` has a distance to some token of `ex`. */
  ghost predicate Pairs(w: string, ex: seq<string>, dist: Distance)
  {
    exists k :: 0 <= k < |ex| && dist(w, ex[k]).Some?
  }

  /** Some context token has a distance to some token of `ex`. */
  ghost predicate Scorable(ctx: seq<string>, ex: seq<string>, dist: Distance)
  {
    exists j :: 0 <= j < |ctx| && Pairs(ctx[j], ex, dist)
  }

  lemma {:induction false} DistancesEmpty(w: string, ex: seq<string>, dist: Distance)
    ensures |Distances(w, ex, dist)| == 0 <==> !Pairs(w, ex, dist)
  {
    if |ex| > 0 {
      var init := ex[..|ex| - 1];
      DistancesEmpty(w, init, dist);
      if Pairs(w, init, dist) {
        var k :| 0 <= k < |init| && dist(w, init[k]).Some?;
        assert ex[k] == init[k];
      }
      if Pairs(w, ex, dist) && dist(w, ex[|ex| - 1]).None? {
        var k :| 0 <= k < |ex| && dist(w, ex[k]).Some?;
        assert init[k] == ex[k];
      }
    }
  }

  lemma {:induction false} ExampleCountZero(ctx: seq<string>, ex: seq<string>, dist: Distance)
    ensures ExampleTotals(ctx, ex, dist).1 == 0 <==> !Scorable(ctx, ex, dist)
  {
    if |ctx| > 0 {
      var init, w := ctx[..|ctx| - 1], ctx[|ctx| - 1];
      ExampleCountZero(init, ex, dist);
      DistancesEmpty(w, ex, dist);
      if Scorable(init, ex, dist) {
        var j :| 0 <= j < |init| && Pairs(init[j], ex, dist);
        assert ctx[j] == init[j];
      }
      if Scorable(ctx, ex, dist) && !Pairs(w, ex, dist) {
        var j :| 0 <= j < |ctx| && Pairs(ctx[j], ex, dist);
        assert init[j] == ctx[j];
      }
    }
  }

  /** A sentence scores exactly when some context token has a distance to one of its tokens. */
  lemma ExampleScoreSome(ctx: seq<string>, ex: seq<string>, dist: Distance)
    ensures ExampleScore(ctx, ex, dist).Some? <==> Scorable(ctx, ex, dist)
  {
    ExampleCountZero(ctx, ex, dist);
  }

  /** `ex_score` holds exactly the scores of the sentences that have one. */
  lemma {:induction false} ExampleScoresMembers(ctx: seq<string>, exs: seq<seq<string>>, dist: Distance, x: real)
    ensures x in ExampleScores(ctx, exs, dist) <==> exists e :: 0 <= e < |exs| && ExampleScore(ctx, exs[e], dist) == Some(x)
  {
    if |exs| > 0 {
      var init := exs[..|exs| - 1];
      ExampleScoresMembers(ctx, init, dist, x);
      if exists e :: 0 <= e < |init| && ExampleScore(ctx, init[e], dist) == Some(x) {
        var e :| 0 <= e < |init| && ExampleScore(ctx, init[e], dist) == Some(x);
        assert exs[e] == init[e];
      }
      if exists e :: 0 <= e < |exs| && ExampleScore(ctx, exs[e], dist) == Some(x) {
        var e :| 0 <= e < |exs| && ExampleScore(ctx, exs[e], dist) == Some(x);
        if e < |init| {
          assert init[e] == exs[e];
        }
      }
    }
  }

  /**
   * A meaning's score is `None` exactly when none of its sentences pairs with
   * the context; otherwise it is the score of one of its sentences and no
   * larger than the score of any other.
   */
  lemma MeaningScoreSpec(ctx: seq<string>, examples: string, dist: Distance)
    ensures var r, exs := MeaningScore(ctx, examples, dist), Sentences(examples);
      && (r.None? <==> forall e :: 0 <= e < |exs| ==> !Scorable(ctx, exs[e], dist))
      && (r.Some? ==> exists e :: 0 <= e < |exs| && ExampleScore(ctx, exs[e], dist) == r)
      && (r.Some? ==> forall e :: 0 <= e < |exs| && ExampleScore(ctx, exs[e], dist).Some? ==>
                        r.value <= ExampleScore(ctx, exs[e], dist).value)
  {
    var exs := Sentences(examples);
    var es := ExampleScores(ctx, exs, dist);
    forall e | 0 <= e < |exs|
      ensures ExampleScore(ctx, exs[e], dist).Some? <==> Scorable(ctx, exs[e], dist)
      ensures ExampleScore(ctx, exs[e], dist).Some? ==> ExampleScore(ctx, exs[e], dist).value in es
    {
      ExampleScoreSome(ctx, exs[e], dist);
      if ExampleScore(ctx, exs[e], dist).Some? {
        ExampleScoresMembers(ctx, exs, dist, ExampleScore(ctx, exs[e], dist).value);
      }
    }
    if |es| > 0 {
      ExampleScoresMembers(ctx, exs, dist, MinOf(es));
    }
  }

  /**
   * Normalisation keeps `None` as `None` and divides every present score by the
   * norm of the present scores; when some score is non-zero the present scores
   * end with unit length and keep their order.
   */
  lemma VecScoresNormalised(ctx: seq<string>, examples: seq<string>, dist: Distance,
                            norm: seq<real> -> real, i: nat, j: nat)
    requires IsL2Norm(norm)
    requires i < |examples| && j < |examples|
    requires Truthy(RawVecScores(ctx, examples, dist)[i])
    ensures var raw, r := RawVecScores(ctx, examples, dist), VecScores(ctx, examples, dist, norm);
      && norm(Present(raw)) > 0.0
      && (forall k :: 0 <= k < |examples| ==> (r[k].None? <==> raw[k].None?))
      && (forall k :: 0 <= k < |examples| && raw[k].Some? ==> r[k] == Some(raw[k].value / norm(Present(raw))))
      && SumSq(Present(r)) == 1.0
      && (raw[j].Some? ==> (raw[i].value <= raw[j].value <==> r[i].value <= r[j].value))
  {
    var raw := RawVecScores(ctx, examples, dist);
    var n := norm(Present(raw));
    NormaliseUnit(raw, norm, i);
    forall k | 0 <= k < |examples| && raw[k].Some?
      ensures DivideTruthy(raw, n)[k] == Some(raw[k].value / n)
    {
      NormalisePreservesOrder(raw, n, k, k);
    }
    if raw[j].Some? {
      NormalisePreservesOrder(raw, n, i, j);
    }
  }

  /**
   * When no score is truthy (every meaning lacks a score, or scores 0) nothing
   * is divided and the raw scores come back unchanged.
   */
  lemma VecScoresRawWhenNoTruthy(ctx: seq<string>, examples: seq<string>, dist: Distance,
                                 norm: seq<real> -> real)
    requires IsL2Norm(norm)
    requires forall k :: 0 <= k < |examples| ==> !Truthy(RawVecScores(ctx, examples, dist)[k])
    ensures VecScores(ctx, examples, dist, norm) == RawVecScores(ctx, examples, dist)
  {
  }

  /** The loop over one sentence's tokens collecting `w_sum`. */
  method CollectDistances(w: string, ex: seq<string>, dist: Distance) returns (wSum: seq<real>)
    ensures wSum == Distances(w, ex, dist)
  {
    wSum := [];
    for k := 0 to |ex|
      invariant wSum == Distances(w, ex[..k], dist)
    {
      assert ex[..k + 1][..k] == ex[..k];
      var d := dist(w, ex[k]);
      if d.Some? {
        wSum := wSum + [d.value];
      }
    }
    assert ex[..|ex|] == ex;
  }

  /** The loop over the context tokens accumulating `ex_sum` and `ex_cnt` for one sentence. */
  method SentenceTotals(text: seq<string>, ex: seq<string>, dist: Distance) returns (exSum: real, exCnt: nat)
    ensures (exSum, exCnt) == ExampleTotals(text, ex, dist)
  {
    exSum, exCnt := 0.0, 0;
    for j := 0 to |text|
      invariant (exSum, exCnt) == ExampleTotals(text[..j], ex, dist)
    {
      assert text[..j + 1][..j] == text[..j];
      var wSum := CollectDistances(text[j], ex, dist);
      if wSum != [] {
        exSum := exSum + MinOf(wSum);
        exCnt := exCnt + 1;
      }
    }
    assert text[..|text|] == text;
  }

  /** The loop over one meaning's sentences building `ex_score` and taking its minimum. */
  method ScoreMeaning(text: seq<string>, examples: string, dist: Distance) returns (r: Option<real>)
    ensures r == MeaningScore(text, examples, dist)
  {
    var exI := Sentences(examples);
    var exScore: seq<real> := [];
    for e := 0 to |exI|
      invariant exScore == ExampleScores(text, exI[..e], dist)
    {
      assert exI[..e + 1][..e] == exI[..e];
      var exSum, exCnt := SentenceTotals(text, exI[e], dist);
      if exCnt != 0 {
        exScore := exScore + [exSum / exCnt as real];
      }
    }
    assert exI[..|exI|] == exI;
    r := if exScore != [] then Some(MinOf(exScore)) else None;
  }

  /**
   * `vector_score_calc`: the `scores` array filled meaning by meaning, then
   * every truthy entry divided in place by the norm of the present entries.
   */
  method VectorScoreCalc(text: seq<string>, examples: seq<string>, dist: Distance, norm: seq<real> -> real)
    returns (scores: seq<Option<real>>)
    requires IsL2Norm(norm)
    ensures scores == VecScores(text, examples, dist, norm)
  {
    var n := |examples|;
    scores := seq(n, _ => None);
    for i := 0 to n
      invariant |scores| == n
      invariant forall k :: 0 <= k < i ==> scores[k] == RawVecScores(text, examples, dist)[k]
      invariant forall k :: i <= k < n ==> scores[k].None?
    {
      var s := ScoreMeaning(text, examples[i], dist);
      if s.Some? {
        scores := scores[i := s];
      }
    }
    ghost var raw := scores;
    assert raw == RawVecScores(text, examples, dist);
    var nrm := norm(Present(scores));
    NormGuard(raw, norm);
    scores := DivideInPlace(scores, nrm);
  }
}
