/**
 * The fusion and ranking steps of `score_calc_phraser`: a missing score
 * counts as 1, the final score is the weighted average of the two scores,
 * every row is flagged when its dictionary word type differs from the
 * predicted one, and the rows are sorted ascending by (flag, score).
 */
module Ranking {
  import opened Wrappers

  /** One scraped dictionary entry: `[word, word_type, meaning, examples]`. */
  datatype Record = Record(word: string, wordType: string, meaning: string, examples: string)

  /**
   * One row of the result table. `index` is the row's position before the
   * sort, the column `reset_index` adds; `mismatch` is `word_type_check`.
   */
  datatype Row = Row(index: nat, rec: Record, predType: Option<string>,
                     coScore: Option<real>, vecScore: Option<real>,
                     score: real, mismatch: bool)

  /** `fillna(1)`: a missing score counts as 1. */
  function Fill(o: Option<real>): real
  {
    o.GetOr(1.0)
  }

  /** The smaller of two reals. */
  function Min(a: real, b: real): real
  {
    if a <= b then a else b
  }

  /** The larger of two reals. */
  function Max(a: real, b: real): real
  {
    if a <= b then b else a
  }

  /** `(c * w0 + v * w1) / (w0 + w1)`. */
  function WeightedAverage(c: real, v: real, w0: real, w1: real): real
    requires w0 + w1 != 0.0
  {
    (c * w0 + v * w1) / (w0 + w1)
  }

  /** The final score: the weighted average of the filled co-occurrence and embedding scores. */
  function FinalScore(co: Option<real>, vec: Option<real>, w0: real, w1: real): real
    requires w0 + w1 != 0.0
  {
    WeightedAverage(Fill(co), Fill(vec), w0, w1)
  }

  /** `word_type_check`: the dictionary word type differs from the predicted one (always so when there is no prediction). */
  function Mismatch(wordType: string, predType: Option<string>): (r: bool)
    ensures r <==> predType != Some(wordType)
  {
    predType.None? || wordType != predType.value
  }

  lemma MulMono(a: real, b: real, w: real)
    requires a <= b && w >= 0.0
    ensures a * w <= b * w
  {
    assert (b - a) * w >= 0.0;
  }

  lemma DivLower(x: real, lo: real, s: real)
    requires s > 0.0 && lo * s <= x
    ensures lo <= x / s
  {
    calc {
      x / s - lo;
    ==
      (x - lo * s) / s;
    >=
      0.0;
    }
  }

  lemma DivUpper(x: real, hi: real, s: real)
    requires s > 0.0 && x <= hi * s
    ensures x / s <= hi
  {
    calc {
      hi - x / s;
    ==
      (hi * s - x) / s;
    >=
      0.0;
    }
  }

  lemma AverageLower(c: real, v: real, w0: real, w1: real, lo: real)
    requires w0 >= 0.0 && w1 >= 0.0 && w0 + w1 > 0.0
    requires lo <= c && lo <= v
    ensures lo <= (c * w0 + v * w1) / (w0 + w1)
  {
    MulMono(lo, c, w0);
    MulMono(lo, v, w1);
    assert lo * (w0 + w1) == lo * w0 + lo * w1;
    DivLower(c * w0 + v * w1, lo, w0 + w1);
  }

  lemma AverageUpper(c: real, v: real, w0: real, w1: real, hi: real)
    requires w0 >= 0.0 && w1 >= 0.0 && w0 + w1 > 0.0
    requires c <= hi && v <= hi
    ensures (c * w0 + v * w1) / (w0 + w1) <= hi
  {
    MulMono(c, hi, w0);
    MulMono(v, hi, w1);
    assert hi * (w0 + w1) == hi * w0 + hi * w1;
    DivUpper(c * w0 + v * w1, hi, w0 + w1);
  }

  /** A weighted average with non-negative weights of positive total lies between the two values. */
  lemma WeightedAverageBetween(c: real, v: real, w0: real, w1: real)
    requires w0 >= 0.0 && w1 >= 0.0 && w0 + w1 > 0.0
    ensures Min(c, v) <= WeightedAverage(c, v, w0, w1) <= Max(c, v)
  {
    calc {
      WeightedAverage(c, v, w0, w1);
    ==
      (c * w0 + v * w1) / (w0 + w1);
    }
    AverageLower(c, v, w0, w1, Min(c, v));
    AverageUpper(c, v, w0, w1, Max(c, v));
  }

  /**
   * With non-negative weights of positive total, the final score lies
   * between the two filled component scores.
   */
  lemma FinalScoreBetween(co: Option<real>, vec: Option<real>, w0: real, w1: real)
    requires w0 >= 0.0 && w1 >= 0.0 && w0 + w1 > 0.0
    ensures Min(Fill(co), Fill(vec)) <= FinalScore(co, vec, w0, w1) <= Max(Fill(co), Fill(vec))
  {
    WeightedAverageBetween(Fill(co), Fill(vec), w0, w1);
  }

  lemma DivSelf(x: real)
    requires x != 0.0
    ensures x / x == 1.0
  {
  }

  /** With both scores missing the final score is 1, whatever the weights. */
  lemma FinalScoreMissing(w0: real, w1: real)
    requires w0 + w1 != 0.0
    ensures FinalScore(None, None, w0, w1) == 1.0
  {
    calc {
      FinalScore(None, None, w0, w1);
    ==
      WeightedAverage(1.0, 1.0, w0, w1);
    ==
      (1.0 * w0 + 1.0 * w1) / (w0 + w1);
    ==
      (w0 + w1) / (w0 + w1);
    ==  { DivSelf(w0 + w1); }
      1.0;
    }
  }

  /** The sort key `(word_type_check, score)` of `x` is strictly smaller than that of `y`. */
  predicate KeyLess(x: Row, y: Row)
  {
    (!x.mismatch && y.mismatch) || (x.mismatch == y.mismatch && x.score < y.score)
  }

  /** `x` and `y` have the same sort key. */
  predicate SameKey(x: Row, y: Row)
  {
    x.mismatch == y.mismatch && x.score == y.score
  }

  /** `x` precedes `y` in a stable ascending sort: a smaller key, or the same key and an earlier position. */
  predicate Before(x: Row, y: Row)
  {
    KeyLess(x, y) || (SameKey(x, y) && x.index < y.index)
  }

  /** `Before` is transitive. */
  lemma BeforeTransitive(x: Row, y: Row, z: Row)
    requires Before(x, y) && Before(y, z)
    ensures Before(x, z)
  {
  }

  /** `Before` is a strict order: never both ways. */
  lemma BeforeAsymmetric(x: Row, y: Row)
    ensures !(Before(x, y) && Before(y, x))
  {
  }

  /** Rows in their original order, each with a distinct position. */
  predicate InInputOrder(s: seq<Row>)
  {
    forall i, j :: 0 <= i < j < |s| ==> s[i].index < s[j].index
  }

  /** Sorted ascending by (flag, score), ties in their original order. */
  predicate Ranked(s: seq<Row>)
  {
    forall i, j :: 0 <= i < j < |s| ==> Before(s[i], s[j])
  }

  /** In a ranked table every row whose type matches the prediction comes before every row whose type does not. */
  lemma MatchesFirst(s: seq<Row>, i: nat, j: nat)
    requires Ranked(s)
    requires i < |s| && j < |s| && !s[i].mismatch && s[j].mismatch
    ensures i < j
  {
  }

  /** Two ranked tables holding the same rows are equal: the ranking is determined by its rows. */
  lemma {:induction false} RankedUnique(s: seq<Row>, t: seq<Row>)
    requires Ranked(s) && Ranked(t) && multiset(s) == multiset(t)
    ensures s == t
  {
    if |s| > 0 {
      assert s[0] in multiset(t);
      assert t[0] in multiset(s);
      var i :| 0 <= i < |t| && t[i] == s[0];
      var j :| 0 <= j < |s| && s[j] == t[0];
      assert i > 0 ==> Before(t[0], t[i]);
      assert j > 0 ==> Before(s[0], s[j]);
      BeforeAsymmetric(s[0], t[0]);
      assert s[0] == t[0];
      assert s == [s[0]] + s[1..];
      assert t == [t[0]] + t[1..];
      assert multiset(s) == multiset{s[0]} + multiset(s[1..]);
      assert multiset(t) == multiset{t[0]} + multiset(t[1..]);
      calc {
        multiset(s[1..]);
      ==
        multiset(s) - multiset{s[0]};
      ==
        multiset(t) - multiset{t[0]};
      ==
        multiset(t[1..]);
      }
      assert Ranked(s[1..]) by {
        forall p, q | 0 <= p < q < |s| - 1 ensures Before(s[1..][p], s[1..][q]) {
          assert s[1..][p] == s[p + 1] && s[1..][q] == s[q + 1];
        }
      }
      assert Ranked(t[1..]) by {
        forall p, q | 0 <= p < q < |t| - 1 ensures Before(t[1..][p], t[1..][q]) {
          assert t[1..][p] == t[p + 1] && t[1..][q] == t[q + 1];
        }
      }
      RankedUnique(s[1..], t[1..]);
    }
  }

  /**
   * `sort_values(by=['word_type_check', 'score'], inplace=True)` as a stable
   * insertion sort: a row moves down past its left neighbour only while its
   * key is strictly smaller.
   */
  method SortRows(a: array<Row>)
    modifies a
    requires InInputOrder(a[..])
    ensures Ranked(a[..])
    ensures multiset(a[..]) == multiset(old(a[..]))
  {
    for i := 0 to a.Length
      invariant Ranked(a[..i])
      invariant a[i..] == old(a[..])[i..]
      invariant multiset(a[..]) == multiset(old(a[..]))
      invariant forall p, q :: 0 <= p < i <= q < a.Length ==> a[p].index < a[q].index
    {
      assert a[i..] == old(a[..])[i..];
      InsertLast(a, i);
    }
  }

  /** Exchanges `a[j]` with its left neighbour. */
  method SwapLeft(a: array<Row>, j: nat)
    modifies a
    requires 0 < j < a.Length
    ensures a[j - 1] == old(a[j]) && a[j] == old(a[j - 1])
    ensures forall p :: 0 <= p < a.Length && p != j - 1 && p != j ==> a[p] == old(a[p])
    ensures multiset(a[..]) == multiset(old(a[..]))
  {
    a[j - 1], a[j] := a[j], a[j - 1];
  }

  /**
   * The state of one insertion: `x`, the row being inserted, sits at `j`;
   * the other rows of `s[..i + 1]` are in order, everything left of `x`
   * precedes everything right of it, `x` precedes everything right of it,
   * and every other row is of earlier position than `x`.
   */
  predicate Inserting(s: seq<Row>, i: nat, j: nat, x: Row)
  {
    && j <= i < |s| && s[j] == x
    && (forall p, q :: 0 <= p < q <= i && p != j && q != j ==> Before(s[p], s[q]))
    && (forall q :: j < q <= i ==> Before(x, s[q]))
    && (forall p, q :: 0 <= p < j && j < q <= i ==> Before(s[p], s[q]))
    && (forall p :: 0 <= p <= i && p != j ==> s[p].index < x.index)
  }

  /** Swapping `x` with a left neighbour of larger key keeps the insertion state, one place further left. */
  lemma SwapKeepsInserting(s: seq<Row>, i: nat, j: nat, x: Row)
    requires Inserting(s, i, j, x) && 0 < j && KeyLess(x, s[j - 1])
    ensures Inserting(s[j - 1 := x][j := s[j - 1]], i, j - 1, x)
  {
    var t := s[j - 1 := x][j := s[j - 1]];
    forall q | j - 1 < q <= i
      ensures Before(x, t[q])
    {
      if q > j {
        assert t[q] == s[q];
      }
    }
  }

  /** When `x` stops, the whole prefix `s[..i + 1]` is ranked. */
  lemma InsertedRanked(s: seq<Row>, i: nat, j: nat, x: Row)
    requires Inserting(s, i, j, x) && (j == 0 || !KeyLess(x, s[j - 1]))
    ensures Ranked(s[..i + 1])
  {
    forall p | 0 <= p < j
      ensures Before(s[p], x)
    {
      assert s[j - 1].index < x.index;
      if p < j - 1 {
        BeforeTransitive(s[p], s[j - 1], x);
      }
    }
  }

  /** Moves `a[i]` left into place among the ranked rows `a[..i]`, all of earlier position. */
  method InsertLast(a: array<Row>, i: nat)
    modifies a
    requires i < a.Length
    requires Ranked(a[..i])
    requires forall p, q :: 0 <= p < i <= q < a.Length ==> a[p].index < a[q].index
    requires InInputOrder(a[i..])
    ensures Ranked(a[..i + 1])
    ensures a[i + 1..] == old(a[i + 1..])
    ensures multiset(a[..]) == multiset(old(a[..]))
    ensures forall p, q :: 0 <= p < i + 1 <= q < a.Length ==> a[p].index < a[q].index
  {
    ghost var x := a[i];
    var j := i;
    while j > 0 && KeyLess(a[j], a[j - 1])
      invariant Inserting(a[..], i, j, x)
      invariant a[i + 1..] == old(a[i + 1..])
      invariant multiset(a[..]) == multiset(old(a[..]))
      invariant forall p, q :: 0 <= p <= i < q < a.Length ==> a[p].index < a[q].index
    {
      ghost var before := a[..];
      SwapKeepsInserting(before, i, j, x);
      SwapLeft(a, j);
      assert a[..] == before[j - 1 := x][j := before[j - 1]];
      j := j - 1;
    }
    InsertedRanked(a[..], i, j, x);
  }
}
