/**
 * The context window of `score_calc_phraser`: the keyword with its spaces
 * turned into `_`, its position counted in space-separated pieces of the
 * cleaned sentence, every occurrence of it deleted, the sentence split on
 * single spaces with the empty pieces dropped, and the tokens kept whose
 * index lies from `w_idx - 8` up to `w_idx + 7`. Since `w_idx` counts the
 * pieces before the keyword, it is one past the keyword's own slot: in
 * single-spaced text the window holds up to seven tokens before the keyword
 * and nine after it.
 */
module Window {
  import opened Wrappers
  import opened Text

  /** The keyword half-width of the window. */
  const Reach: nat := 8

  /** `s` with every `a` replaced by `b`, character by character. */
  function SwapChar(s: string, a: char, b: char): (r: string)
    ensures |r| == |s|
  {
    seq(|s|, i requires 0 <= i < |s| => if s[i] == a then b else s[i])
  }

  /** `"_".join(word.split(" "))`. */
  function Underscored(word: string): (r: string)
    ensures r == SwapChar(word, ' ', '_')
  {
    JoinSplitSwap(word, ' ', '_');
    Join(Split(word, ' '), '_')
  }

  /** Splitting on one separator and joining with another replaces the one by the other. */
  lemma {:induction false} JoinSplitSwap(s: string, sep: char, repl: char)
    ensures Join(Split(s, sep), repl) == SwapChar(s, sep, repl)
    decreases |s|
  {
    if |s| > 0 {
      var rest := Split(s[1..], sep);
      JoinSplitSwap(s[1..], sep, repl);
      var tail := SwapChar(s[1..], sep, repl);
      assert SwapChar(s, sep, repl) == [if s[0] == sep then repl else s[0]] + tail;
      if s[0] == sep {
        assert Split(s, sep) == [""] + rest;
      } else {
        var r := Split(s, sep);
        assert r == [[s[0]] + rest[0]] + rest[1..];
        if |rest| == 1 {
          assert Join(r, repl) == [s[0]] + rest[0];
        } else {
          assert r[1..] == rest[1..];
          assert Join(rest, repl) == rest[0] + [repl] + Join(rest[1..], repl);
        }
      }
    }
  }

  /**
   * The joined keyword is the keyword with every space turned into `_`: as
   * long as the keyword, empty exactly when it is, free of spaces, and
   * holding `_` whenever the keyword has more than one word.
   */
  lemma UnderscoredChars(word: string)
    ensures Underscored(word) == SwapChar(word, ' ', '_')
    ensures |Underscored(word)| == |word|
    ensures ' ' !in Underscored(word)
    ensures ' ' in word ==> '_' in Underscored(word)
    ensures ' ' !in word ==> Underscored(word) == word
  {
    JoinSplitSwap(word, ' ', '_');
    if ' ' in word {
      var k :| 0 <= k < |word| && word[k] == ' ';
      assert SwapChar(word, ' ', '_')[k] == '_';
    } else {
      assert SwapChar(word, ' ', '_') == word;
    }
  }

  /** `text.split(kw)[0]`: the text before the first occurrence of `kw`, or all of it. */
  function TextBefore(text: string, kw: string): (r: string)
    ensures |r| <= |text| && r == text[..|r|]
    ensures !Contains(text, kw) ==> r == text
    ensures Contains(text, kw) ==> OccursAt(text, kw, |r|) && forall j :: 0 <= j < |r| ==> !OccursAt(text, kw, j)
  {
    match Find(text, kw)
    case None => text
    case Some(i) => text[..i]
  }

  /** `w_idx`: the number of space-separated pieces before the keyword. */
  function KeywordPosition(cleaned: string, kw: string): (r: nat)
    ensures r >= 1
  {
    |Split(TextBefore(cleaned, kw), ' ')|
  }

  /** The keyword position is one more than the number of spaces before the keyword. */
  lemma KeywordPositionSpaces(cleaned: string, kw: string)
    ensures KeywordPosition(cleaned, kw) == Count(TextBefore(cleaned, kw), ' ') + 1
    ensures KeywordPosition(cleaned, kw) >= 1
  {
    SplitCount(TextBefore(cleaned, kw), ' ');
  }

  /** The cleaned sentence without the keyword, split on single spaces, with the empty pieces dropped. */
  function ContextTokens(cleaned: string, kw: string): (r: seq<string>)
    requires |kw| > 0
    ensures "" !in r
  {
    RemoveItems(Split(ReplaceAll(cleaned, kw, ""), ' '), "")
  }

  /** A Python slice `xs[lo:hi]` for `0 <= lo` and `hi <= len(xs)`: empty when `lo >= hi`. */
  function Slice<T>(xs: seq<T>, lo: nat, hi: nat): (r: seq<T>)
    requires hi <= |xs|
    ensures |r| == if lo < hi then hi - lo else 0
    ensures forall k :: 0 <= k < |r| ==> r[k] == xs[lo + k]
  {
    if lo < hi then xs[lo..hi] else []
  }

  /** `max(w_idx - 8, 0)`. */
  function WindowStart(p: nat): nat
  {
    if p >= Reach then p - Reach else 0
  }

  /** `min(w_idx + 8, len(tokens))`. */
  function WindowEnd(p: nat, len: nat): nat
  {
    if p + Reach <= len then p + Reach else len
  }

  /**
   * The context window: at most sixteen non-empty context tokens, a
   * contiguous run of them from the window start.
   */
  function ContextWindow(cleaned: string, kw: string): (r: seq<string>)
    requires |kw| > 0
    ensures |r| <= 2 * Reach
    ensures "" !in r
    ensures var toks, lo := ContextTokens(cleaned, kw), WindowStart(KeywordPosition(cleaned, kw));
      |r| > 0 ==> lo + |r| <= |toks| && r == toks[lo..lo + |r|]
  {
    var toks := ContextTokens(cleaned, kw);
    var p := KeywordPosition(cleaned, kw);
    var r := Slice(toks, WindowStart(p), WindowEnd(p, |toks|));
    assert |r| > 0 ==> r == toks[WindowStart(p)..WindowStart(p) + |r|];
    r
  }

  /**
   * The window holds exactly the context tokens whose index `k` satisfies
   * `w_idx - 8 <= k < w_idx + 8`, in their order.
   */
  lemma WindowAroundKeyword(cleaned: string, kw: string)
    requires |kw| > 0
    ensures var toks, p, r := ContextTokens(cleaned, kw), KeywordPosition(cleaned, kw), ContextWindow(cleaned, kw);
      && (forall k :: 0 <= k < |toks| && p <= k + Reach && k < p + Reach ==>
            k - WindowStart(p) < |r| && r[k - WindowStart(p)] == toks[k])
      && (forall k :: 0 <= k < |r| ==>
            WindowStart(p) + k < |toks| && r[k] == toks[WindowStart(p) + k] &&
            p <= WindowStart(p) + k + Reach && WindowStart(p) + k < p + Reach)
  {
  }

  /**
   * A keyword at the very start of the sentence has `w_idx == 1`, so the
   * window is the first nine context tokens: none before the keyword and
   * nine after it, not eight.
   */
  lemma KeywordFirstWindow(cleaned: string, kw: string)
    requires |kw| > 0 && Find(cleaned, kw) == Some(0)
    requires |ContextTokens(cleaned, kw)| >= 9
    ensures KeywordPosition(cleaned, kw) == 1
    ensures ContextWindow(cleaned, kw) == ContextTokens(cleaned, kw)[..9]
  {
    assert TextBefore(cleaned, kw) == "";
    assert Split("", ' ') == [""];
  }

  /**
   * A keyword of several words is never found in the cleaned sentence: its
   * `_` never survives cleaning. So nothing is deleted from the sentence and
   * the keyword position is the number of all its space-separated pieces.
   */
  lemma MultiWordKeywordNeverFound(text: string, word: string, cs: Charset)
    requires WellFormed(cs) && ' ' in word
    ensures var cleaned, kw := CleanTestDat(text, cs), Underscored(word);
      && |kw| > 0
      && !Contains(cleaned, kw)
      && ContextTokens(cleaned, kw) == RemoveItems(Split(cleaned, ' '), "")
      && KeywordPosition(cleaned, kw) == |Split(cleaned, ' ')|
      && KeywordPosition(cleaned, kw) == Count(cleaned, ' ') + 1
  {
    var cleaned, kw := CleanTestDat(text, cs), Underscored(word);
    UnderscoredChars(word);
    if Contains(cleaned, kw) {
      ContainsChar(cleaned, kw, '_');
    }
    RemoveAllUnchangedIff(cleaned, kw);
    SplitCount(cleaned, ' ');
  }
}
