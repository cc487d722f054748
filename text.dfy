/**
 * Python string and list primitives used by the ranking pipeline
 * (`in`, `index`, `replace`, `split`, `join`, `strip`), the list filter
 * `remove_items` and the text normaliser `clean_test_dat`.
 */
module Text {
  import opened Wrappers

  /** `t` occurs in `s` starting at position `i`. */
  predicate OccursAt(s: string, t: string, i: nat)
  {
    i + |t| <= |s| && s[i..i + |t|] == t
  }

  /** The first position at or after `k` where `t` occurs in `s` (Python's `s.find(t, k)`). */
  function FindFrom(s: string, t: string, k: nat): (r: Option<nat>)
    ensures r.Some? ==> k <= r.value && OccursAt(s, t, r.value)
    ensures r.Some? ==> forall j :: k <= j < r.value ==> !OccursAt(s, t, j)
    ensures r.None? ==> forall j :: k <= j ==> !OccursAt(s, t, j)
    decreases |s| - k
  {
    if k + |t| > |s| then None
    else if OccursAt(s, t, k) then Some(k)
    else FindFrom(s, t, k + 1)
  }

  /** The first position of `t` in `s`; `text.index(word)` raises `ValueError` when this is `None`. */
  function Find(s: string, t: string): Option<nat>
  {
    FindFrom(s, t, 0)
  }

  /** Python's substring test `t in s`. */
  predicate Contains(s: string, t: string)
  {
    Find(s, t).Some?
  }

  /** A substring can only hold characters of the string that contains it. */
  lemma ContainsChar(s: string, t: string, c: char)
    requires Contains(s, t) && c in t
    ensures c in s
  {
    var i := Find(s, t).value;
    var k :| 0 <= k < |t| && t[k] == c;
    assert s[i + k] == c;
  }

  /** A string of length one contains exactly the empty string and itself. */
  lemma ContainsInSingleton(s: string, t: string)
    requires |s| == 1
    ensures Contains(s, t) <==> t == "" || t == s
  {
    if t == "" || t == s {
      assert OccursAt(s, t, 0);
    }
  }

  /** `s.replace(t, u)` scanning from position `k`: each leftmost non-overlapping occurrence of `t` becomes `u`. */
  function ReplaceFrom(s: string, t: string, u: string, k: nat): string
    requires |t| > 0 && k <= |s|
    decreases |s| - k
  {
    match FindFrom(s, t, k)
    case None => s[k..]
    case Some(i) => s[k..i] + u + ReplaceFrom(s, t, u, i + |t|)
  }

  /** Python's `s.replace(t, u)` for a non-empty `t`. */
  function ReplaceAll(s: string, t: string, u: string): string
    requires |t| > 0
  {
    ReplaceFrom(s, t, u, 0)
  }

  lemma {:induction false} RemoveFromShrinks(s: string, t: string, k: nat)
    requires |t| > 0 && k <= |s|
    ensures |ReplaceFrom(s, t, "", k)| <= |s| - k
    ensures |ReplaceFrom(s, t, "", k)| == |s| - k <==> FindFrom(s, t, k).None?
    decreases |s| - k
  {
    match FindFrom(s, t, k)
    case None =>
    case Some(i) =>
      RemoveFromShrinks(s, t, i + |t|);
  }

  /**
   * Deleting every occurrence of `t` (`s.replace(t, "")`) leaves the string
   * as it was exactly when `t` does not occur in it, and otherwise shortens it.
   */
  lemma RemoveAllUnchangedIff(s: string, t: string)
    requires |t| > 0
    ensures |ReplaceAll(s, t, "")| <= |s|
    ensures ReplaceAll(s, t, "") == s <==> !Contains(s, t)
  {
    RemoveFromShrinks(s, t, 0);
  }

  /** Python's `s.split(sep)` for a one-character separator. */
  function Split(s: string, sep: char): (r: seq<string>)
    ensures |r| >= 1
    ensures forall p :: p in r ==> sep !in p
    decreases |s|
  {
    if |s| == 0 then [""]
    else
      var rest := Split(s[1..], sep);
      if s[0] == sep then [""] + rest
      else [[s[0]] + rest[0]] + rest[1..]
  }

  /** Python's `sep.join(parts)` for a one-character separator. */
  function Join(parts: seq<string>, sep: char): string
  {
    if |parts| == 0 then ""
    else if |parts| == 1 then parts[0]
    else parts[0] + [sep] + Join(parts[1..], sep)
  }

  /** The number of times `c` occurs in `s`. */
  function Count(s: string, c: char): nat
  {
    multiset(s)[c]
  }

  /** Joining the pieces of a split with the same separator gives the string back. */
  lemma {:induction false} JoinSplit(s: string, sep: char)
    ensures Join(Split(s, sep), sep) == s
    decreases |s|
  {
    if |s| > 0 {
      var rest := Split(s[1..], sep);
      JoinSplit(s[1..], sep);
      if s[0] == sep {
        assert Split(s, sep) == [""] + rest;
      } else {
        var r := Split(s, sep);
        assert r == [[s[0]] + rest[0]] + rest[1..];
        if |rest| == 1 {
          assert Join(r, sep) == [s[0]] + rest[0];
        } else {
          assert r[1..] == rest[1..];
          assert Join(rest, sep) == rest[0] + [sep] + Join(rest[1..], sep);
        }
        assert s == [s[0]] + s[1..];
      }
    }
  }

  /** A split produces one more piece than there are separators. */
  lemma {:induction false} SplitCount(s: string, sep: char)
    ensures |Split(s, sep)| == Count(s, sep) + 1
    decreases |s|
  {
    if |s| > 0 {
      SplitCount(s[1..], sep);
      assert s == [s[0]] + s[1..];
      assert multiset(s) == multiset{s[0]} + multiset(s[1..]);
    }
  }

  /** `a` is a (not necessarily contiguous) subsequence of `b`: `a` keeps some of `b`'s elements in order. */
  predicate IsSubseq<T(==)>(a: seq<T>, b: seq<T>)
    decreases |b|
  {
    |a| == 0 || (|b| > 0 && ((a[0] == b[0] && IsSubseq(a[1..], b[1..])) || IsSubseq(a, b[1..])))
  }

  /**
   * `remove_items`: the list without any occurrence of `item`, every other
   * element kept as often as before and in its original order.
   */
  function RemoveItems<T(==)>(xs: seq<T>, item: T): (r: seq<T>)
    ensures item !in r
    ensures multiset(r) == multiset(xs)[item := 0]
    ensures IsSubseq(r, xs)
    decreases |xs|
  {
    if |xs| == 0 then []
    else
      var rest := RemoveItems(xs[1..], item);
      assert xs == [xs[0]] + xs[1..];
      if xs[0] != item then [xs[0]] + rest else rest
  }

  /**
   * The character classes the normaliser depends on: Python's `str.lower`
   * on one character, the Unicode property `\p{Latin}` and whitespace
   * (`\s`, also what `str.strip` removes).
   */
  datatype Charset = Charset(lower: char -> char, isLatin: char -> bool, isSpace: char -> bool)

  /** The facts about the character classes that the model relies on: space is whitespace, `_` is neither Latin nor whitespace. */
  predicate WellFormed(cs: Charset)
  {
    cs.isSpace(' ') && !cs.isLatin('_') && !cs.isSpace('_')
  }

  /** `s.lower()`, character by character. */
  function Lower(s: string, cs: Charset): (r: string)
    ensures |r| == |s|
  {
    seq(|s|, i requires 0 <= i < |s| => cs.lower(s[i]))
  }

  /** Leading whitespace removed. */
  function StripStart(s: string, cs: Charset): (r: string)
    ensures |r| <= |s| && r == s[|s| - |r|..]
    ensures forall i :: 0 <= i < |s| - |r| ==> cs.isSpace(s[i])
    ensures |r| > 0 ==> !cs.isSpace(r[0])
    decreases |s|
  {
    if |s| > 0 && cs.isSpace(s[0]) then StripStart(s[1..], cs) else s
  }

  /** Trailing whitespace removed. */
  function StripEnd(s: string, cs: Charset): (r: string)
    ensures |r| <= |s| && r == s[..|r|]
    ensures forall i :: |r| <= i < |s| ==> cs.isSpace(s[i])
    ensures |r| > 0 ==> !cs.isSpace(r[|r| - 1])
    decreases |s|
  {
    if |s| > 0 && cs.isSpace(s[|s| - 1]) then StripEnd(s[..|s| - 1], cs) else s
  }

  /** `r` is `s[a..]` cut short, with only whitespace before and after it. */
  predicate MiddleAt(s: string, r: string, a: nat, cs: Charset)
  {
    && a + |r| <= |s| && r == s[a..a + |r|]
    && (forall i :: 0 <= i < a ==> cs.isSpace(s[i]))
    && (forall i :: a + |r| <= i < |s| ==> cs.isSpace(s[i]))
  }

  /**
   * Python's `s.strip()`: a contiguous middle of `s` with only whitespace
   * removed before and after it.
   */
  function Strip(s: string, cs: Charset): (r: string)
    ensures |r| <= |s|
    ensures |r| > 0 ==> !cs.isSpace(r[0]) && !cs.isSpace(r[|r| - 1])
    ensures exists a: nat :: MiddleAt(s, r, a, cs)
  {
    var t := StripStart(s, cs);
    var r := StripEnd(t, cs);
    MiddleOfEnds(s, t, r, cs);
    r
  }

  /** A whitespace-led suffix of `s` cut to a whitespace-trailed prefix is a middle of `s`. */
  lemma MiddleOfEnds(s: string, t: string, r: string, cs: Charset)
    requires |t| <= |s| && t == s[|s| - |t|..]
    requires forall i :: 0 <= i < |s| - |t| ==> cs.isSpace(s[i])
    requires |r| <= |t| && r == t[..|r|]
    requires forall i :: |r| <= i < |t| ==> cs.isSpace(t[i])
    ensures MiddleAt(s, r, |s| - |t|, cs)
  {
    var a := |s| - |t|;
    forall i | a + |r| <= i < |s|
      ensures cs.isSpace(s[i])
    {
      assert s[i] == t[i - a];
    }
  }

  /** The characters `regex.sub(r'[^\p{Latin}\s]+', '', s)` keeps. */
  predicate Kept(c: char, cs: Charset)
  {
    cs.isLatin(c) || cs.isSpace(c)
  }

  /** `s` with every character that is neither Latin nor whitespace deleted. */
  function KeepLatinOrSpace(s: string, cs: Charset): (r: string)
    ensures IsSubseq(r, s)
    ensures forall c :: c in r <==> c in s && Kept(c, cs)
    ensures forall c :: multiset(r)[c] == if Kept(c, cs) then multiset(s)[c] else 0
    decreases |s|
  {
    if |s| == 0 then ""
    else
      var rest := KeepLatinOrSpace(s[1..], cs);
      assert s == [s[0]] + s[1..];
      if Kept(s[0], cs) then [s[0]] + rest else rest
  }

  /**
   * `clean_test_dat`: lower-case, strip, then delete every character that is
   * neither Latin script nor whitespace. Total; the result is a subsequence of
   * the lowered, stripped text, and with the usual character classes it never
   * holds `_`.
   */
  function CleanTestDat(text: string, cs: Charset): (r: string)
    ensures IsSubseq(r, Strip(Lower(text, cs), cs))
    ensures forall c :: c in r <==> c in Strip(Lower(text, cs), cs) && Kept(c, cs)
    ensures forall c :: multiset(r)[c] == if Kept(c, cs) then multiset(Strip(Lower(text, cs), cs))[c] else 0
    ensures WellFormed(cs) ==> '_' !in r
  {
    KeepLatinOrSpace(Strip(Lower(text, cs), cs), cs)
  }
}
