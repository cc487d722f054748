/**
 * The co-occurrence scorer `co_occur_score_calc`: for every meaning, count
 * the (context token, meaning token) pairs whose words both have an id in
 * the word map, add up the symmetric matrix cells of those pairs, turn the
 * two totals into a raw score and, when every meaning has one, divide by
 * the Euclidean norm of the score vector.
 */
module CoOccur {
  import opened Wrappers
  import opened L2Norm

  /** A square matrix of non-negative co-occurrence counts (the trained numpy matrix). */
  type CoMatrix = m: seq<seq<nat>> | forall r :: r in m ==> |r| == |m| witness []

  /** The word to id map of the trained corpus. */
  type WordIds = map<string, nat>

  /**
   * A word takes part in pairs: it has an id, and the id indexes the matrix.
   * A missing word raises `KeyError` and an id past the matrix `IndexError`;
   * the scorer swallows both and skips the word.
   */
  predicate Known(w: string, ids: WordIds, m: CoMatrix)
  {
    w in ids && ids[w] < |m|
  }

  /** The number of known words in `ws`, with multiplicity. */
  function KnownCount(ws: seq<string>, ids: WordIds, m: CoMatrix): nat
  {
    if |ws| == 0 then 0
    else KnownCount(ws[..|ws| - 1], ids, m) + (if Known(ws[|ws| - 1], ids, m) then 1 else 0)
  }

  /** What one pair adds to the sum: `M[a, b] + M[b, a]`. */
  function Cell(a: nat, b: nat, m: CoMatrix): nat
    requires a < |m| && b < |m|
  {
    m[a][b] + m[b][a]
  }

  /** What the context word with id `a` adds to the sum against the meaning tokens `mn`. */
  function RowMass(a: nat, mn: seq<string>, ids: WordIds, m: CoMatrix): nat
    requires a < |m|
  {
    if |mn| == 0 then 0
    else
      var w2 := mn[|mn| - 1];
      RowMass(a, mn[..|mn| - 1], ids, m) + (if Known(w2, ids, m) then Cell(a, ids[w2], m) else 0)
  }

  /** `cnt[i]`: the number of pairs of a known context token and a known meaning token. */
  function PairCount(ctx: seq<string>, mn: seq<string>, ids: WordIds, m: CoMatrix): nat
  {
    if |ctx| == 0 then 0
    else
      var w := ctx[|ctx| - 1];
      PairCount(ctx[..|ctx| - 1], mn, ids, m) + (if Known(w, ids, m) then KnownCount(mn, ids, m) else 0)
  }

  /** `sums[i]`: the cells `M[a, b] + M[b, a]` added up over the same pairs. */
  function PairMass(ctx: seq<string>, mn: seq<string>, ids: WordIds, m: CoMatrix): nat
  {
    if |ctx| == 0 then 0
    else
      var w := ctx[|ctx| - 1];
      PairMass(ctx[..|ctx| - 1], mn, ids, m) + (if Known(w, ids, m) then RowMass(ids[w], mn, ids, m) else 0)
  }

  /** The raw score of a meaning: `None` without pairs, the sentinel 10 when every cell is zero, else `cnt / sum`. */
  function RawScore(cnt: nat, mass: nat): (r: Option<real>)
    ensures r.Some? ==> r.value > 0.0
  {
    if cnt == 0 then None
    else if mass == 0 then Some(10.0)
    else Some(cnt as real / mass as real)
  }

  /** The raw score of every meaning, before normalisation. */
  function RawScores(ctx: seq<string>, meanings: seq<seq<string>>, ids: WordIds, m: CoMatrix): (r: seq<Option<real>>)
    ensures |r| == |meanings|
  {
    seq(|meanings|, i requires 0 <= i < |meanings| =>
      RawScore(PairCount(ctx, meanings[i], ids, m), PairMass(ctx, meanings[i], ids, m)))
  }

  /**
   * The scorer's result. `scores` is a Python list, so `scores != None` is the
   * single value `True` and the norm is taken over the whole vector; with a
   * `None` in it the norm raises and the raw scores are returned unchanged.
   */
  function CoScores(ctx: seq<string>, meanings: seq<seq<string>>, ids: WordIds, m: CoMatrix,
                    norm: seq<real> -> real): (r: seq<Option<real>>)
    requires IsL2Norm(norm)
    ensures |r| == |meanings|
    ensures forall i :: 0 <= i < |meanings| ==> (r[i].Some? <==> RawScores(ctx, meanings, ids, m)[i].Some?)
  {
    var raw := RawScores(ctx, meanings, ids, m);
    if AllPresent(raw) then
      NormGuard(raw, norm);
      DivideTruthy(raw, norm(Present(raw)))
    else raw
  }

  /** The pairs are all combinations of a known context token with a known meaning token. */
  lemma {:induction false} PairCountProduct(ctx: seq<string>, mn: seq<string>, ids: WordIds, m: CoMatrix)
    ensures PairCount(ctx, mn, ids, m) == KnownCount(ctx, ids, m) * KnownCount(mn, ids, m)
  {
    if |ctx| > 0 {
      var init, w := ctx[..|ctx| - 1], ctx[|ctx| - 1];
      var b := KnownCount(mn, ids, m);
      if Known(w, ids, m) {
        calc {
          PairCount(ctx, mn, ids, m);
        ==
          PairCount(init, mn, ids, m) + b;
        ==  { PairCountProduct(init, mn, ids, m); }
          KnownCount(init, ids, m) * b + b;
        ==  { MulSucc(KnownCount(init, ids, m), b); }
          (KnownCount(init, ids, m) + 1) * b;
        ==
          KnownCount(ctx, ids, m) * b;
        }
      } else {
        PairCountProduct(init, mn, ids, m);
      }
    }
  }

  lemma MulSucc(a: nat, b: nat)
    ensures a * b + b == (a + 1) * b
  {
  }

  /** A product of naturals is zero exactly when a factor is. */
  lemma ProductZero(a: nat, b: nat)
    ensures a * b == 0 <==> a == 0 || b == 0
  {
    if a > 0 && b > 0 {
      assert a * b >= b;
    }
  }

  /** Every pair of a known context token and a known meaning token has a zero cell. */
  ghost predicate AllCellsZero(ctx: seq<string>, mn: seq<string>, ids: WordIds, m: CoMatrix)
  {
    forall j, k :: 0 <= j < |ctx| && 0 <= k < |mn| && Known(ctx[j], ids, m) && Known(mn[k], ids, m) ==>
      Cell(ids[ctx[j]], ids[mn[k]], m) == 0
  }

  lemma {:induction false} RowMassZero(a: nat, mn: seq<string>, ids: WordIds, m: CoMatrix)
    requires a < |m|
    ensures RowMass(a, mn, ids, m) == 0 <==>
      forall k :: 0 <= k < |mn| && Known(mn[k], ids, m) ==> Cell(a, ids[mn[k]], m) == 0
  {
    if |mn| > 0 {
      var init := mn[..|mn| - 1];
      RowMassZero(a, init, ids, m);
      assert forall k :: 0 <= k < |init| ==> init[k] == mn[k];
    }
  }

  /** The sum is zero exactly when every cell of every counted pair is zero. */
  lemma {:induction false} PairMassZero(ctx: seq<string>, mn: seq<string>, ids: WordIds, m: CoMatrix)
    ensures PairMass(ctx, mn, ids, m) == 0 <==> AllCellsZero(ctx, mn, ids, m)
  {
    if |ctx| > 0 {
      var init, w := ctx[..|ctx| - 1], ctx[|ctx| - 1];
      PairMassZero(init, mn, ids, m);
      assert forall j :: 0 <= j < |init| ==> init[j] == ctx[j];
      if Known(w, ids, m) {
        RowMassZero(ids[w], mn, ids, m);
      }
    }
  }

  /**
   * The three-way case split of a raw score: no score exactly when the context
   * or the meaning has no known word, the sentinel 10 when pairs exist but
   * all their cells are zero, and `cnt / sum` otherwise (which can itself be
   * 10, so the sentinel is not recognisable from the score alone).
   */
  lemma RawScoreCases(ctx: seq<string>, meanings: seq<seq<string>>, ids: WordIds, m: CoMatrix, i: nat)
    requires i < |meanings|
    ensures var r := RawScores(ctx, meanings, ids, m)[i];
      && (r.None? <==> KnownCount(ctx, ids, m) == 0 || KnownCount(meanings[i], ids, m) == 0)
      && (r.Some? && AllCellsZero(ctx, meanings[i], ids, m) ==> r == Some(10.0))
      && (r.Some? && !AllCellsZero(ctx, meanings[i], ids, m) ==>
            PairMass(ctx, meanings[i], ids, m) > 0 &&
            r.value == PairCount(ctx, meanings[i], ids, m) as real / PairMass(ctx, meanings[i], ids, m) as real)
  {
    var mn := meanings[i];
    PairCountProduct(ctx, mn, ids, m);
    ProductZero(KnownCount(ctx, ids, m), KnownCount(mn, ids, m));
    PairMassZero(ctx, mn, ids, m);
  }

  /**
   * When every meaning has a score, the scores are divided by the norm of the
   * whole vector: each keeps its raw value over that norm, the result has
   * unit length, and the order between any two meanings is unchanged.
   */
  lemma CoScoresNormalised(ctx: seq<string>, meanings: seq<seq<string>>, ids: WordIds, m: CoMatrix,
                           norm: seq<real> -> real, i: nat, j: nat)
    requires IsL2Norm(norm)
    requires i < |meanings| && j < |meanings|
    requires forall k :: 0 <= k < |meanings| ==> KnownCount(meanings[k], ids, m) > 0
    requires KnownCount(ctx, ids, m) > 0
    ensures var raw, r := RawScores(ctx, meanings, ids, m), CoScores(ctx, meanings, ids, m, norm);
      && AllPresent(raw)
      && norm(Present(raw)) > 0.0
      && r[i] == Some(raw[i].value / norm(Present(raw)))
      && SumSq(Present(r)) == 1.0
      && (raw[i].value <= raw[j].value <==> r[i].value <= r[j].value)
  {
    var raw := RawScores(ctx, meanings, ids, m);
    forall k | 0 <= k < |meanings|
      ensures raw[k].Some?
    {
      RawScoreCases(ctx, meanings, ids, m, k);
    }
    NormaliseUnit(raw, norm, i);
    NormalisePreservesOrder(raw, norm(Present(raw)), i, j);
  }

  /**
   * When some meaning has no known word (or the context has none), its score
   * is `None`, normalisation fails, and every score is returned raw.
   */
  lemma CoScoresRawWhenMissing(ctx: seq<string>, meanings: seq<seq<string>>, ids: WordIds, m: CoMatrix,
                               norm: seq<real> -> real, i: nat)
    requires IsL2Norm(norm)
    requires i < |meanings|
    requires KnownCount(ctx, ids, m) == 0 || KnownCount(meanings[i], ids, m) == 0
    ensures CoScores(ctx, meanings, ids, m, norm) == RawScores(ctx, meanings, ids, m)
    ensures CoScores(ctx, meanings, ids, m, norm)[i].None?
  {
    RawScoreCases(ctx, meanings, ids, m, i);
  }

  /** The meaning's totals after one more context token. */
  lemma PairStep(ctx: seq<string>, j: nat, mn: seq<string>, ids: WordIds, m: CoMatrix)
    requires j < |ctx|
    ensures PairCount(ctx[..j + 1], mn, ids, m) ==
      PairCount(ctx[..j], mn, ids, m) + (if Known(ctx[j], ids, m) then KnownCount(mn, ids, m) else 0)
    ensures Known(ctx[j], ids, m) ==>
              PairMass(ctx[..j + 1], mn, ids, m) == PairMass(ctx[..j], mn, ids, m) + RowMass(ids[ctx[j]], mn, ids, m)
    ensures !Known(ctx[j], ids, m) ==> PairMass(ctx[..j + 1], mn, ids, m) == PairMass(ctx[..j], mn, ids, m)
  {
    assert ctx[..j + 1][..j] == ctx[..j];
  }

  /**
   * The innermost loop: the pairs of one context token with the tokens of one
   * meaning, added to that meaning's running `cnt` and `sums`.
   */
  method AddPairs(w: string, mn: seq<string>, ids: WordIds, m: CoMatrix, cnt0: nat, sum0: nat)
    returns (cnt: nat, sum: nat)
    requires w in ids
    ensures cnt == cnt0 + (if Known(w, ids, m) then KnownCount(mn, ids, m) else 0)
    ensures sum == sum0 + (if Known(w, ids, m) then RowMass(ids[w], mn, ids, m) else 0)
  {
    var a := ids[w];
    cnt, sum := cnt0, sum0;
    for k := 0 to |mn|
      invariant Known(w, ids, m) ==> cnt == cnt0 + KnownCount(mn[..k], ids, m)
      invariant Known(w, ids, m) ==> sum == sum0 + RowMass(a, mn[..k], ids, m)
      invariant !Known(w, ids, m) ==> cnt == cnt0 && sum == sum0
    {
      var w2 := mn[k];
      assert mn[..k + 1][..k] == mn[..k];
      if w2 in ids && a < |m| && ids[w2] < |m| {
        var b := ids[w2];
        sum := sum + (m[a][b] + m[b][a]);
        cnt := cnt + 1;
      }
    }
    assert mn[..|mn|] == mn;
  }

  /** The nested loops filling `cnt` and `sums`, one entry per meaning. */
  method CountPairs(text: seq<string>, meanings: seq<seq<string>>, ids: WordIds, m: CoMatrix)
    returns (cnt: seq<nat>, sums: seq<nat>)
    ensures |cnt| == |meanings| && |sums| == |meanings|
    ensures forall i :: 0 <= i < |meanings| ==> cnt[i] == PairCount(text, meanings[i], ids, m)
    ensures forall i :: 0 <= i < |meanings| ==> sums[i] == PairMass(text, meanings[i], ids, m)
  {
    var n := |meanings|;
    sums := seq(n, _ => 0);
    cnt := seq(n, _ => 0);
    for j := 0 to |text|
      invariant |sums| == n && |cnt| == n
      invariant forall i :: 0 <= i < n ==> cnt[i] == PairCount(text[..j], meanings[i], ids, m)
      invariant forall i :: 0 <= i < n ==> sums[i] == PairMass(text[..j], meanings[i], ids, m)
    {
      var w := text[j];
      if w in ids {
        for i := 0 to n
          invariant |sums| == n && |cnt| == n
          invariant forall i' :: 0 <= i' < i ==> cnt[i'] == PairCount(text[..j + 1], meanings[i'], ids, m)
          invariant forall i' :: 0 <= i' < i ==> sums[i'] == PairMass(text[..j + 1], meanings[i'], ids, m)
          invariant forall i' :: i <= i' < n ==> cnt[i'] == PairCount(text[..j], meanings[i'], ids, m)
          invariant forall i' :: i <= i' < n ==> sums[i'] == PairMass(text[..j], meanings[i'], ids, m)
        {
          var c, s := AddPairs(w, meanings[i], ids, m, cnt[i], sums[i]);
          PairStep(text, j, meanings[i], ids, m);
          cnt, sums := cnt[i := c], sums[i := s];
        }
      } else {
        forall i | 0 <= i < n
          ensures cnt[i] == PairCount(text[..j + 1], meanings[i], ids, m)
          ensures sums[i] == PairMass(text[..j + 1], meanings[i], ids, m)
        {
          PairStep(text, j, meanings[i], ids, m);
        }
      }
    }
    assert text[..|text|] == text;
  }

  /**
   * `co_occur_score_calc`: `cnt` and `sums` from the nested loops, the raw
   * scores appended one by one, then divided in place by the norm when that
   * succeeds.
   */
  method CoOccurScoreCalc(text: seq<string>, meanings: seq<seq<string>>, ids: WordIds, m: CoMatrix,
                          norm: seq<real> -> real) returns (scores: seq<Option<real>>)
    requires IsL2Norm(norm)
    ensures scores == CoScores(text, meanings, ids, m, norm)
  {
    var n := |meanings|;
    var cnt, sums := CountPairs(text, meanings, ids, m);
    scores := [];
    for i := 0 to n
      invariant scores == RawScores(text, meanings, ids, m)[..i]
    {
      scores := scores + [RawScore(cnt[i], sums[i])];
    }
    ghost var raw := scores;
    assert raw == RawScores(text, meanings, ids, m);
    if AllPresent(scores) {
      var nrm := norm(Present(scores));
      NormGuard(raw, norm);
      scores := DivideInPlace(scores, nrm);
    }
  }
}
