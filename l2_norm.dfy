/**
 * L2 normalisation of a score vector with missing entries, the step both
 * scorers end with: `norm = np.linalg.norm(...)` followed by
 * `for i: if scores[i]: scores[i] = scores[i] / norm`.
 */
module L2Norm {
  import opened Wrappers

  /** The square of `x`. */
  function Sq(x: real): real
  {
    x * x
  }

  lemma SquareSign(x: real)
    ensures x * x >= 0.0
    ensures x != 0.0 ==> x * x > 0.0
  {
    if x < 0.0 {
      var y := -x;
      assert x * x == y * y;
    }
  }

  /** A square is never negative, and positive when `x` is not zero. */
  lemma SqSign(x: real)
    ensures Sq(x) >= 0.0
    ensures x != 0.0 ==> Sq(x) > 0.0
  {
    if x == 0.0 {
      assert Sq(x) == 0.0 * 0.0;
    } else {
      calc {
        Sq(x);
      ==
        x * x;
      >  { SquareSign(x); }
        0.0;
      }
    }
  }

  /** The sum of the squares of `v`. */
  function SumSq(v: seq<real>): (r: real)
    ensures r >= 0.0
  {
    if |v| == 0 then 0.0 else SqSign(v[0]); Sq(v[0]) + SumSq(v[1..])
  }

  /**
   * `norm` is the Euclidean norm: it is never negative and its square is the
   * sum of squares. The square root itself is not modelled.
   */
  ghost predicate IsL2Norm(norm: seq<real> -> real)
  {
    forall v :: norm(v) >= 0.0 && Sq(norm(v)) == SumSq(v)
  }

  /** The values of the present entries, in order (a numpy mask `scores != None`). */
  function Present(s: seq<Option<real>>): (r: seq<real>)
    ensures |r| <= |s|
    ensures forall i :: 0 <= i < |s| && s[i].Some? ==> s[i].value in r
  {
    if |s| == 0 then []
    else
      var rest := Present(s[1..]);
      assert forall i :: 1 <= i < |s| ==> s[i] == s[1..][i - 1];
      if s[0].Some? then [s[0].value] + rest else rest
  }

  /** The mask keeps each present value exactly as often as it occurs. */
  lemma {:induction false} PresentCounts(s: seq<Option<real>>)
    ensures forall x :: multiset(Present(s))[x] == multiset(s)[Some(x)]
  {
    if |s| > 0 {
      PresentCounts(s[1..]);
      assert s == [s[0]] + s[1..];
    }
  }

  /** Every entry is present. */
  predicate AllPresent(s: seq<Option<real>>)
  {
    forall i :: 0 <= i < |s| ==> s[i].Some?
  }

  /** Python truthiness of a score: `None` and `0.0` are false. */
  predicate Truthy(o: Option<real>)
  {
    o.Some? && o.value != 0.0
  }

  /** The loop `if scores[i]: scores[i] = scores[i] / n` over the whole vector. */
  function DivideTruthy(s: seq<Option<real>>, n: real): seq<Option<real>>
    requires n != 0.0 || forall i :: 0 <= i < |s| ==> !Truthy(s[i])
  {
    seq(|s|, i requires 0 <= i < |s| => if Truthy(s[i]) then Some(s[i].value / n) else s[i])
  }

  /** A present non-zero value makes the sum of squares, and so the norm, positive. */
  lemma {:induction false} SumSqPositive(s: seq<Option<real>>, i: nat)
    requires i < |s| && Truthy(s[i])
    ensures SumSq(Present(s)) > 0.0
  {
    var v, rest := s[0], Present(s[1..]);
    assert s == [v] + s[1..];
    if i == 0 {
      var p := [v.value] + rest;
      assert Present(s) == p;
      assert p[1..] == rest;
      SqSign(v.value);
      assert SumSq(p) == Sq(v.value) + SumSq(rest);
    } else {
      SumSqPositive(s[1..], i - 1);
      if v.Some? {
        var p := [v.value] + rest;
        assert Present(s) == p;
        assert p[1..] == rest;
        SqSign(v.value);
        assert SumSq(p) == Sq(v.value) + SumSq(rest);
      } else {
        assert Present(s) == rest;
      }
    }
  }

  lemma SqQuotient(x: real, n: real)
    requires n != 0.0
    ensures Sq(x / n) * Sq(n) == Sq(x)
  {
    var q := x / n;
    assert q * n == x;
    assert (q * q) * (n * n) == (q * n) * (q * n);
  }

  lemma UnitFactor(a: real, c: real)
    requires c > 0.0 && a * c == c
    ensures a == 1.0
  {
    assert (a - 1.0) * c == 0.0;
  }

  /** Every value divided by `n`. */
  function Scale(v: seq<real>, n: real): seq<real>
    requires n != 0.0
  {
    seq(|v|, i requires 0 <= i < |v| => v[i] / n)
  }

  lemma {:induction false} SumSqScale(v: seq<real>, n: real)
    requires n != 0.0
    ensures SumSq(Scale(v, n)) * Sq(n) == SumSq(v)
  {
    if |v| == 0 {
      assert Scale(v, n) == [];
    } else {
      SumSqScale(v[1..], n);
      var rest := Scale(v[1..], n);
      assert Scale(v, n) == [v[0] / n] + rest;
      assert SumSq(Scale(v, n)) == Sq(v[0] / n) + SumSq(rest);
      SqQuotient(v[0], n);
      assert (Sq(v[0] / n) + SumSq(rest)) * Sq(n) == Sq(v[0] / n) * Sq(n) + SumSq(rest) * Sq(n);
    }
  }

  lemma {:induction false} PresentDivide(s: seq<Option<real>>, n: real)
    requires n != 0.0
    ensures Present(DivideTruthy(s, n)) == Scale(Present(s), n)
  {
    if |s| > 0 {
      PresentDivide(s[1..], n);
      var d := DivideTruthy(s, n);
      assert d == [d[0]] + DivideTruthy(s[1..], n);
      if s[0].Some? {
        assert Present(s) == [s[0].value] + Present(s[1..]);
        assert d[0] == Some(s[0].value / n);
      }
    }
  }

  /** The loop `if scores[i]: scores[i] = scores[i] / n` over the vector, entry by entry. */
  method DivideInPlace(raw: seq<Option<real>>, n: real) returns (scores: seq<Option<real>>)
    requires n != 0.0 || forall i :: 0 <= i < |raw| ==> !Truthy(raw[i])
    ensures scores == DivideTruthy(raw, n)
  {
    scores := raw;
    for i := 0 to |raw|
      invariant |scores| == |raw|
      invariant forall k :: 0 <= k < i ==> scores[k] == DivideTruthy(raw, n)[k]
      invariant forall k :: i <= k < |raw| ==> scores[k] == raw[k]
    {
      if Truthy(scores[i]) {
        scores := scores[i := Some(scores[i].value / n)];
      }
    }
  }

  /** A present non-zero entry makes the norm of the present values positive. */
  lemma NormPositive(s: seq<Option<real>>, norm: seq<real> -> real, i: nat)
    requires IsL2Norm(norm)
    requires i < |s| && Truthy(s[i])
    ensures norm(Present(s)) > 0.0
  {
    var n := norm(Present(s));
    SumSqPositive(s, i);
    assert n >= 0.0 && Sq(n) == SumSq(Present(s));
    if n == 0.0 {
      assert false;
    }
  }

  /** Dividing the truthy entries by the norm of the present values never divides by zero. */
  lemma NormGuard(s: seq<Option<real>>, norm: seq<real> -> real)
    requires IsL2Norm(norm)
    ensures norm(Present(s)) != 0.0 || forall i :: 0 <= i < |s| ==> !Truthy(s[i])
  {
    if i :| 0 <= i < |s| && Truthy(s[i]) {
      NormPositive(s, norm, i);
    }
  }

  /**
   * Normalising by the norm of the present values gives those values unit
   * length; absent entries stay absent and present ones present.
   */
  lemma NormaliseUnit(s: seq<Option<real>>, norm: seq<real> -> real, i: nat)
    requires IsL2Norm(norm)
    requires i < |s| && Truthy(s[i])
    ensures norm(Present(s)) > 0.0
    ensures SumSq(Present(DivideTruthy(s, norm(Present(s))))) == 1.0
    ensures forall k :: 0 <= k < |s| ==> (DivideTruthy(s, norm(Present(s)))[k].Some? <==> s[k].Some?)
  {
    var p := Present(s);
    var n := norm(p);
    NormPositive(s, norm, i);
    SqSign(n);
    PresentDivide(s, n);
    calc {
      SumSq(Scale(p, n)) * Sq(n);
    ==  { SumSqScale(p, n); }
      SumSq(p);
    ==
      Sq(n);
    }
    UnitFactor(SumSq(Scale(p, n)), Sq(n));
  }

  /**
   * Normalising by a positive number keeps the relative order of the present
   * scores, in both directions.
   */
  lemma NormalisePreservesOrder(s: seq<Option<real>>, n: real, i: nat, j: nat)
    requires n > 0.0
    requires i < |s| && j < |s| && s[i].Some? && s[j].Some?
    ensures DivideTruthy(s, n)[i] == Some(s[i].value / n)
    ensures DivideTruthy(s, n)[j] == Some(s[j].value / n)
    ensures s[i].value <= s[j].value <==> DivideTruthy(s, n)[i].value <= DivideTruthy(s, n)[j].value
  {
    var a, b := s[i].value, s[j].value;
    assert (b - a) / n == b / n - a / n;
    if a <= b {
      assert (b - a) / n >= 0.0;
    } else {
      assert (a - b) / n > 0.0;
    }
  }

  lemma ZeroFactor(a: real, b: real)
    requires b != 0.0 && a * b == 0.0
    ensures a == 0.0
  {
    calc {
      a;
    ==
      (a * b) / b;
    ==
      0.0 / b;
    ==
      0.0;
    }
  }

  /** A non-negative number whose square is 1 is 1. */
  lemma UnitRoot(n: real)
    requires n >= 0.0 && Sq(n) == 1.0
    ensures n == 1.0
  {
    assert (n - 1.0) * (n + 1.0) == n * n - 1.0 == 0.0;
    ZeroFactor(n - 1.0, n + 1.0);
  }

  /**
   * Normalising is idempotent: once the present scores have unit length their
   * norm is 1, and normalising again changes no entry.
   */
  lemma NormaliseIdempotent(s: seq<Option<real>>, norm: seq<real> -> real)
    requires IsL2Norm(norm)
    requires SumSq(Present(s)) == 1.0
    ensures norm(Present(s)) == 1.0
    ensures DivideTruthy(s, norm(Present(s))) == s
  {
    UnitRoot(norm(Present(s)));
  }
}
