/**
 * Grammatical categories: the translation table from the tagger's native
 * tags to the dictionary's word types (`vn_pos_tag`), and the keyword's
 * category in its context sentence (`predict_pos_tag`).
 */
module PosTag {
  import opened Wrappers
  import opened Text

  const Noun: string := "Danh từ"
  const Adjective: string := "Tính từ"
  const Verb: string := "Động từ"
  const Pronoun: string := "Đại từ"
  const Adverb: string := "Phụ từ"
  const Particle: string := "Trợ từ"
  const Interjection: string := "Cảm từ"
  const Conjunction: string := "Kết từ"
  const Unknown: string := "Không rõ"

  /** A key of the translation table: a tuple of native tags, or a single native tag string. */
  datatype TagKey = Alternatives(tags: seq<string>) | Single(tag: string)

  /** The translation table, in the order in which it is searched. */
  const PosTable: seq<(TagKey, string)> := [
    (Alternatives(["N", "Np", "Nc", "Ny", "Nu", "M", "L"]), Noun),
    (Single("A"), Adjective),
    (Alternatives(["V", "Vy"]), Verb),
    (Single("P"), Pronoun),
    (Single("R"), Adverb),
    (Single("T"), Particle),
    (Single("I"), Interjection),
    (Alternatives(["E", "C", "CC"]), Conjunction),
    (Alternatives(["Z", "X"]), Unknown)
  ]

  /**
   * `(tag == en_tag) or (tag in en_tag)`: a string never equals a tuple, so a
   * tuple key matches its members; a string key matches itself and, through
   * the substring test, every substring of itself.
   */
  predicate KeyMatches(tag: string, key: TagKey)
  {
    match key
    case Alternatives(tags) => tag in tags
    case Single(t) => tag == t || Contains(t, tag)
  }

  /** The first index at or after `k` of an entry of `table` whose key matches `tag`. */
  function FirstMatch(table: seq<(TagKey, string)>, tag: string, k: nat): (r: Option<nat>)
    requires k <= |table|
    ensures r.Some? ==> k <= r.value < |table| && KeyMatches(tag, table[r.value].0)
    ensures r.Some? ==> forall j :: k <= j < r.value ==> !KeyMatches(tag, table[j].0)
    ensures r.None? ==> forall j :: k <= j < |table| ==> !KeyMatches(tag, table[j].0)
    decreases |table| - k
  {
    if k == |table| then None
    else if KeyMatches(tag, table[k].0) then Some(k)
    else FirstMatch(table, tag, k + 1)
  }

  /** `vn_pos_tag`: the category of the first matching entry, `None` when no entry matches. */
  function VnPosTag(tag: string): (r: Option<string>)
    ensures r.Some? ==> exists k :: 0 <= k < |PosTable| && PosTable[k].1 == r.value
    ensures r.None? <==> forall k :: 0 <= k < |PosTable| ==> !KeyMatches(tag, PosTable[k].0)
  {
    match FirstMatch(PosTable, tag, 0)
    case Some(k) => Some(PosTable[k].1)
    case None => None
  }

  /** The translation table flattened to one entry per native tag. */
  function NativeCategory(tag: string): Option<string>
  {
    match tag
    case "N" => Some(Noun)
    case "Np" => Some(Noun)
    case "Nc" => Some(Noun)
    case "Ny" => Some(Noun)
    case "Nu" => Some(Noun)
    case "M" => Some(Noun)
    case "L" => Some(Noun)
    case "A" => Some(Adjective)
    case "V" => Some(Verb)
    case "Vy" => Some(Verb)
    case "P" => Some(Pronoun)
    case "R" => Some(Adverb)
    case "T" => Some(Particle)
    case "I" => Some(Interjection)
    case "E" => Some(Conjunction)
    case "C" => Some(Conjunction)
    case "CC" => Some(Conjunction)
    case "Z" => Some(Unknown)
    case "X" => Some(Unknown)
    case _ => None
  }

  /** Which native tags each entry of the table matches. */
  lemma EntryMatches(tag: string)
    ensures KeyMatches(tag, PosTable[0].0) <==> tag in ["N", "Np", "Nc", "Ny", "Nu", "M", "L"]
    ensures KeyMatches(tag, PosTable[1].0) <==> tag == "" || tag == "A"
    ensures KeyMatches(tag, PosTable[2].0) <==> tag in ["V", "Vy"]
    ensures KeyMatches(tag, PosTable[3].0) <==> tag == "" || tag == "P"
    ensures KeyMatches(tag, PosTable[4].0) <==> tag == "" || tag == "R"
    ensures KeyMatches(tag, PosTable[5].0) <==> tag == "" || tag == "T"
    ensures KeyMatches(tag, PosTable[6].0) <==> tag == "" || tag == "I"
    ensures KeyMatches(tag, PosTable[7].0) <==> tag in ["E", "C", "CC"]
    ensures KeyMatches(tag, PosTable[8].0) <==> tag in ["Z", "X"]
  {
    ContainsInSingleton("A", tag);
    ContainsInSingleton("P", tag);
    ContainsInSingleton("R", tag);
    ContainsInSingleton("T", tag);
    ContainsInSingleton("I", tag);
  }

  /**
   * The first-match walk agrees with the flattened table; besides the
   * native tags it maps the empty tag to `Tính từ` (the empty string is a
   * substring of the key `A`) and every other tag (`Nb`, `CH`, ...) to `None`.
   */
  lemma VnPosTagTable(tag: string)
    ensures VnPosTag(tag) == if tag == "" then Some(Adjective) else NativeCategory(tag)
  {
    if tag == "" {
      EntryMatches(tag);
      FirstEntry(tag, 1);
    } else if tag in ["N", "Np", "Nc", "Ny", "Nu", "M", "L"] {
      NounTags(tag);
    } else if tag in ["A"] {
      AdjectiveTag(tag);
    } else if tag in ["V", "Vy"] {
      VerbTags(tag);
    } else if tag in ["P"] {
      PronounTag(tag);
    } else if tag in ["R"] {
      AdverbTag(tag);
    } else if tag in ["T"] {
      ParticleTag(tag);
    } else if tag in ["I"] {
      InterjectionTag(tag);
    } else if tag in ["E", "C", "CC"] {
      ConjunctionTags(tag);
    } else if tag in ["Z", "X"] {
      UnknownTags(tag);
    } else {
      OtherTags(tag);
    }
  }

  lemma NounTags(tag: string)
    requires tag in ["N", "Np", "Nc", "Ny", "Nu", "M", "L"]
    ensures VnPosTag(tag) == Some(Noun) == NativeCategory(tag)
  {
    EntryMatches(tag);
    FirstEntry(tag, 0);
  }

  lemma AdjectiveTag(tag: string)
    requires tag in ["A"]
    ensures VnPosTag(tag) == Some(Adjective) == NativeCategory(tag)
  {
    EntryMatches(tag);
    FirstEntry(tag, 1);
  }

  lemma VerbTags(tag: string)
    requires tag in ["V", "Vy"]
    ensures VnPosTag(tag) == Some(Verb) == NativeCategory(tag)
  {
    EntryMatches(tag);
    FirstEntry(tag, 2);
  }

  lemma PronounTag(tag: string)
    requires tag in ["P"]
    ensures VnPosTag(tag) == Some(Pronoun) == NativeCategory(tag)
  {
    EntryMatches(tag);
    FirstEntry(tag, 3);
  }

  lemma AdverbTag(tag: string)
    requires tag in ["R"]
    ensures VnPosTag(tag) == Some(Adverb) == NativeCategory(tag)
  {
    EntryMatches(tag);
    FirstEntry(tag, 4);
  }

  lemma ParticleTag(tag: string)
    requires tag in ["T"]
    ensures VnPosTag(tag) == Some(Particle) == NativeCategory(tag)
  {
    EntryMatches(tag);
    FirstEntry(tag, 5);
  }

  lemma InterjectionTag(tag: string)
    requires tag in ["I"]
    ensures VnPosTag(tag) == Some(Interjection) == NativeCategory(tag)
  {
    EntryMatches(tag);
    FirstEntry(tag, 6);
  }

  lemma ConjunctionTags(tag: string)
    requires tag in ["E", "C", "CC"]
    ensures VnPosTag(tag) == Some(Conjunction) == NativeCategory(tag)
  {
    EntryMatches(tag);
    FirstEntry(tag, 7);
  }

  lemma UnknownTags(tag: string)
    requires tag in ["Z", "X"]
    ensures VnPosTag(tag) == Some(Unknown) == NativeCategory(tag)
  {
    EntryMatches(tag);
    FirstEntry(tag, 8);
  }

  lemma OtherTags(tag: string)
    requires tag != "" && NativeCategory(tag).None?
    ensures VnPosTag(tag).None?
  {
    EntryMatches(tag);
    assert FirstMatch(PosTable, tag, 0).None?;
  }

  /** The entry `k` decides the category when it is the first whose key matches. */
  lemma FirstEntry(tag: string, k: nat)
    requires k < |PosTable| && KeyMatches(tag, PosTable[k].0)
    requires forall j :: 0 <= j < k ==> !KeyMatches(tag, PosTable[j].0)
    ensures VnPosTag(tag) == Some(PosTable[k].1)
  {
    var r := FirstMatch(PosTable, tag, 0);
    assert r.Some? && r.value == k;
  }

  /** Tokens of a sentence paired with their native tags, as the tagger returns them. */
  type Tagged = seq<(string, string)>

  /** The first index at or after `k` whose token satisfies `p`. */
  function FirstIndex(toks: Tagged, p: string -> bool, k: nat): (r: Option<nat>)
    requires k <= |toks|
    ensures r.Some? ==> k <= r.value < |toks| && p(toks[r.value].0)
    ensures r.Some? ==> forall j :: k <= j < r.value ==> !p(toks[j].0)
    ensures r.None? ==> forall j :: k <= j < |toks| ==> !p(toks[j].0)
    decreases |toks| - k
  {
    if k == |toks| then None
    else if p(toks[k].0) then Some(k)
    else FirstIndex(toks, p, k + 1)
  }

  /** The first token equal to `word`. */
  function FirstEqual(toks: Tagged, word: string): Option<nat>
  {
    FirstIndex(toks, w => w == word, 0)
  }

  /** The first token that contains `word` as a substring. */
  function FirstContaining(toks: Tagged, word: string): Option<nat>
  {
    FirstIndex(toks, w => Contains(w, word), 0)
  }

  /** The characters the first `i` tokens account for, one separator counted after each. */
  function CumLen(toks: Tagged, i: nat): nat
    requires i <= |toks|
  {
    if i == 0 then 0 else CumLen(toks, i - 1) + |toks[i - 1].0| + 1
  }

  /** The least `i >= k` at which the cumulative length reaches `offset`, `None` when the tokens run out first. */
  function WalkStop(toks: Tagged, offset: nat, k: nat): (r: Option<nat>)
    requires k <= |toks|
    ensures r.Some? ==> k <= r.value <= |toks| && CumLen(toks, r.value) >= offset
    ensures r.Some? ==> forall m :: k <= m < r.value ==> CumLen(toks, m) < offset
    ensures r.None? <==> forall m :: k <= m <= |toks| ==> CumLen(toks, m) < offset
    decreases |toks| - k
  {
    if CumLen(toks, k) >= offset then Some(k)
    else if k == |toks| then None
    else WalkStop(toks, offset, k + 1)
  }

  /**
   * What `predict_pos_tag(text, word)` returns or raises. The sentence is
   * tagged in lower case. Tier 1: the first token equal to the keyword. Tier
   * 2: the first token containing it, preferring the keyword's own tag when
   * re-tagging the keyword alone yields it as a token. Tier 3: the token
   * before the first index at which the cumulative length reaches the
   * keyword's offset in the ORIGINAL-case text; offset 0 selects the last
   * token (Python's index -1).
   */
  function PredictSpec(text: string, word: string, cs: Charset, posTag: string -> Tagged): (r: Outcome<Option<string>>)
    ensures r.Ok? && r.value.Some? ==> exists k :: 0 <= k < |PosTable| && PosTable[k].1 == r.value.value
    ensures r.Raise? ==> var toks := posTag(Lower(text, cs));
      forall j :: 0 <= j < |toks| ==> !Contains(toks[j].0, word)
  {
    var toks := posTag(Lower(text, cs));
    match FirstEqual(toks, word)
    case Some(k) => Ok(VnPosTag(toks[k].1))
    case None =>
      match FirstContaining(toks, word)
      case Some(k) =>
        var retagged := posTag(word);
        (match FirstEqual(retagged, word)
         case Some(m) => Ok(VnPosTag(retagged[m].1))
         case None => Ok(VnPosTag(toks[k].1)))
      case None =>
        match Find(text, word)
        case None => Raise(ValueError)
        case Some(offset) =>
          match WalkStop(toks, offset, 0)
          case None => Raise(IndexError)
          case Some(i) =>
            if i > 0 then Ok(VnPosTag(toks[i - 1].1))
            else if |toks| > 0 then Ok(VnPosTag(toks[|toks| - 1].1))
            else Raise(IndexError)
  }

  /**
   * Tier 3 in positional terms: a keyword absent from the text raises
   * `ValueError`; at offset 0 the LAST token is chosen, and `IndexError` is
   * raised when there is none; otherwise the chosen token is the one whose
   * cumulative span first reaches the offset, and `IndexError` is raised
   * when no token does.
   */
  lemma PredictTierThree(text: string, word: string, cs: Charset, posTag: string -> Tagged)
    requires var toks := posTag(Lower(text, cs));
             forall j :: 0 <= j < |toks| ==> !Contains(toks[j].0, word)
    ensures !Contains(text, word) ==> PredictSpec(text, word, cs, posTag) == Raise(ValueError)
    ensures var toks := posTag(Lower(text, cs));
            Find(text, word) == Some(0) && |toks| > 0 ==>
              PredictSpec(text, word, cs, posTag) == Ok(VnPosTag(toks[|toks| - 1].1))
    ensures Find(text, word) == Some(0) && |posTag(Lower(text, cs))| == 0 ==>
              PredictSpec(text, word, cs, posTag) == Raise(IndexError)
    ensures var toks := posTag(Lower(text, cs));
            forall offset :: Find(text, word) == Some(offset) && offset > 0 ==>
              (PredictSpec(text, word, cs, posTag) == Raise(IndexError) <==> CumLen(toks, |toks|) < offset)
    ensures var toks := posTag(Lower(text, cs));
            forall offset, i :: Find(text, word) == Some(offset) && 1 <= i <= |toks| &&
                                CumLen(toks, i - 1) < offset <= CumLen(toks, i) ==>
              PredictSpec(text, word, cs, posTag) == Ok(VnPosTag(toks[i - 1].1))
  {
    var toks := posTag(Lower(text, cs));
    NoTokenHolds(toks, word);
    var f := Find(text, word);
    if f.Some? && f.value > 0 {
      TierThreeWalk(text, word, cs, posTag, f.value);
    }
  }

  /** Tier 3 at a positive offset: the token whose cumulative span first reaches it, or `IndexError`. */
  lemma TierThreeWalk(text: string, word: string, cs: Charset, posTag: string -> Tagged, offset: nat)
    requires var toks := posTag(Lower(text, cs));
             FirstEqual(toks, word).None? && FirstContaining(toks, word).None?
    requires Find(text, word) == Some(offset) && offset > 0
    ensures var toks := posTag(Lower(text, cs));
            PredictSpec(text, word, cs, posTag) == Raise(IndexError) <==> CumLen(toks, |toks|) < offset
    ensures var toks := posTag(Lower(text, cs));
            forall i :: 1 <= i <= |toks| && CumLen(toks, i - 1) < offset <= CumLen(toks, i) ==>
              PredictSpec(text, word, cs, posTag) == Ok(VnPosTag(toks[i - 1].1))
  {
    CumLenMonotone(posTag(Lower(text, cs)));
  }

  /** When no token contains the keyword, tiers 1 and 2 find nothing. */
  lemma NoTokenHolds(toks: Tagged, word: string)
    requires forall j :: 0 <= j < |toks| ==> !Contains(toks[j].0, word)
    ensures FirstEqual(toks, word).None? && FirstContaining(toks, word).None?
  {
    forall j | 0 <= j < |toks| ensures toks[j].0 != word {
      assert OccursAt(toks[j].0, toks[j].0, 0);
    }
  }

  /** The cumulative length grows strictly with every token. */
  lemma {:induction false} CumLenMonotone(toks: Tagged)
    ensures forall a, b :: 0 <= a < b <= |toks| ==> CumLen(toks, a) < CumLen(toks, b)
  {
    forall a, b | 0 <= a < b <= |toks| ensures CumLen(toks, a) < CumLen(toks, b) {
      CumLenStep(toks, a, b);
    }
  }

  lemma {:induction false} CumLenStep(toks: Tagged, a: nat, b: nat)
    requires a < b <= |toks|
    ensures CumLen(toks, a) < CumLen(toks, b)
    decreases b - a
  {
    if a + 1 < b {
      CumLenStep(toks, a, b - 1);
    }
  }

  /**
   * The loop of tier 3: advance over the tokens until the cumulative length
   * reaches `offset`; `None` where Python indexes past the last token.
   */
  method WalkToOffset(posRes: Tagged, offset: nat) returns (r: Option<nat>)
    ensures r == WalkStop(posRes, offset, 0)
  {
    var i, checkLen := 0, 0;
    while checkLen < offset
      invariant 0 <= i <= |posRes|
      invariant checkLen == CumLen(posRes, i)
      invariant forall m :: 0 <= m < i ==> CumLen(posRes, m) < offset
    {
      if i == |posRes| {
        return None;
      }
      checkLen := checkLen + |posRes[i].0| + 1;
      i := i + 1;
    }
    return Some(i);
  }

  /** `predict_pos_tag`, with its three loops. */
  method PredictPosTag(text: string, word: string, cs: Charset, posTag: string -> Tagged)
    returns (r: Outcome<Option<string>>)
    ensures r == PredictSpec(text, word, cs, posTag)
  {
    var posRes := posTag(Lower(text, cs));
    // Tier 1: the keyword is one token.
    for k := 0 to |posRes|
      invariant forall j :: 0 <= j < k ==> posRes[j].0 != word
    {
      if posRes[k].0 == word {
        assert FirstEqual(posRes, word) == Some(k);
        return Ok(VnPosTag(posRes[k].1));
      }
    }
    assert FirstEqual(posRes, word).None?;
    // Tier 2: the keyword lies inside a token.
    for k := 0 to |posRes|
      invariant forall j :: 0 <= j < k ==> !Contains(posRes[j].0, word)
    {
      if Contains(posRes[k].0, word) {
        assert FirstContaining(posRes, word) == Some(k);
        var posRes2 := posTag(word);
        for m := 0 to |posRes2|
          invariant forall j :: 0 <= j < m ==> posRes2[j].0 != word
        {
          if posRes2[m].0 == word {
            assert FirstEqual(posRes2, word) == Some(m);
            return Ok(VnPosTag(posRes2[m].1));
          }
        }
        assert FirstEqual(posRes2, word).None?;
        return Ok(VnPosTag(posRes[k].1));
      }
    }
    assert FirstContaining(posRes, word).None?;
    // Tier 3: the keyword spans several tokens; walk to its character offset.
    var found := Find(text, word);
    if found.None? {
      return Raise(ValueError);
    }
    var stop := WalkToOffset(posRes, found.value);
    if stop.None? {
      r := Raise(IndexError);
    } else if stop.value > 0 {
      r := Ok(VnPosTag(posRes[stop.value - 1].1));
    } else if |posRes| > 0 {
      r := Ok(VnPosTag(posRes[|posRes| - 1].1));
    } else {
      r := Raise(IndexError);
    }
  }
}
