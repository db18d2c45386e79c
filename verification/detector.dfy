/**
 The language-hint detector (`detect_language_hint`, bot.py:142-166): a
 first-match-wins classifier over code-point ranges and substring keywords.
 */
module Detector {
  import opened Options
  import opened Text

  /** The language codes the bot passes around as strings: "zh", "tl", "ur", "en". */
  datatype Lang = Zh | Tl | Ur | En

  /** CJK Unified Ideographs, U+4E00..U+9FFF. */
  const CjkLo: int := 0x4E00
  const CjkHi: int := 0x9FFF
  /** The Arabic block, U+0600..U+06FF, which the bot takes for Urdu. */
  const ArabicLo: int := 0x0600
  const ArabicHi: int := 0x06FF

  /** The eighteen Tagalog words, matched as substrings of the lower-cased text. */
  const TagalogKeywords: seq<string> := [
    "ako", "ikaw", "siya", "kami", "kayo", "sila",
    "maganda", "salamat", "paalam", "mahal", "oo", "hindi",
    "kumusta", "mabuti", "pangalan", "ano", "saan", "kailan"
  ]

  // ---------------------------------------------------------------------------
  // Reference definitions of the three tests

  ghost predicate HasCharIn(s: string, lo: int, hi: int) {
    exists i :: 0 <= i < |s| && lo <= s[i] as int <= hi
  }

  ghost predicate HasCjk(s: string) {
    HasCharIn(s, CjkLo, CjkHi)
  }

  ghost predicate HasArabic(s: string) {
    HasCharIn(s, ArabicLo, ArabicHi)
  }

  /** Some keyword is a substring of the lower-cased text. */
  ghost predicate HasTagalogKeyword(s: string) {
    exists j :: 0 <= j < |TagalogKeywords| && Occurs(TagalogKeywords[j], Lower(s))
  }

  // ---------------------------------------------------------------------------
  // The tests as computed

  /** Python's `any(lo <= c <= hi for c in s)`. */
  function AnyCharIn(s: string, lo: int, hi: int): (r: bool)
    ensures r <==> HasCharIn(s, lo, hi)
  {
    if s == [] then false
    else if lo <= s[0] as int <= hi then true
    else
      var rest := AnyCharIn(s[1..], lo, hi);
      assert HasCharIn(s, lo, hi) ==> HasCharIn(s[1..], lo, hi) by {
        if HasCharIn(s, lo, hi) {
          var i :| 0 <= i < |s| && lo <= s[i] as int <= hi;
          assert s[1..][i - 1] == s[i];
        }
      }
      assert HasCharIn(s[1..], lo, hi) ==> HasCharIn(s, lo, hi) by {
        if HasCharIn(s[1..], lo, hi) {
          var i :| 0 <= i < |s[1..]| && lo <= s[1..][i] as int <= hi;
          assert s[i + 1] == s[1..][i];
        }
      }
      rest
  }

  /** Python's `any(k in t for k in ks)`. */
  function AnyOccurs(t: string, ks: seq<string>): (r: bool)
    ensures r <==> exists j :: 0 <= j < |ks| && Occurs(ks[j], t)
  {
    if ks == [] then false
    else if Contains(t, ks[0]) then true
    else
      var rest := AnyOccurs(t, ks[1..]);
      assert forall j :: 1 <= j < |ks| ==> ks[j] == ks[1..][j - 1];
      rest
  }

  /**
   `detect_language_hint`: CJK wins over everything, then a Tagalog keyword,
   then Arabic script; otherwise no hint.
   */
  function Detect(text: string): (r: Option<Lang>)
    ensures r == Some(Zh) <==> HasCjk(text)
    ensures r == Some(Tl) <==> !HasCjk(text) && HasTagalogKeyword(text)
    ensures r == Some(Ur) <==> !HasCjk(text) && !HasTagalogKeyword(text) && HasArabic(text)
    ensures r == None <==> !HasCjk(text) && !HasTagalogKeyword(text) && !HasArabic(text)
    ensures r != Some(En)
  {
    if AnyCharIn(text, CjkLo, CjkHi) then Some(Zh)
    else if AnyOccurs(Lower(text), TagalogKeywords) then Some(Tl)
    else if AnyCharIn(text, ArabicLo, ArabicHi) then Some(Ur)
    else None
  }

  // ---------------------------------------------------------------------------
  // Consequences

  /** A single CJK ideograph anywhere decides the hint, whatever surrounds it. */
  lemma CjkDominates(a: string, c: char, b: string)
    requires CjkLo <= c as int <= CjkHi
    ensures Detect(a + [c] + b) == Some(Zh)
  {
    var s := a + [c] + b;
    assert s[|a|] == c;
  }

  /** Keywords match inside longer words: "piano" contains "ano". */
  lemma PianoIsTagalog(t: string)
    requires t == "piano"
    ensures Detect(t) == Some(Tl)
  {
    PianoSplit(t);
    KeywordInAnyCase("pi", TagalogKeywords[15], [], 15);
  }

  // The literal facts the lemma above needs, kept apart so the solver does not
  // unfold the detector on the literal text.
  lemma PianoSplit(t: string)
    requires t == "piano"
    ensures t == "pi" + TagalogKeywords[15] + [] && !HasCjk(t)
  {
  }

  /** Every keyword is spelled in lower-case ASCII letters. */
  lemma KeywordsAreLowerWords()
    ensures forall j :: 0 <= j < |TagalogKeywords| ==> IsLowerWord(TagalogKeywords[j])
  {
  }

  /**
   The keyword test ignores ASCII case: a keyword written in any mix of
   upper and lower case, anywhere in a text without CJK ideographs, gives `tl`.
   */
  lemma {:induction false} KeywordInAnyCase(a: string, k: string, b: string, j: nat)
    requires j < |TagalogKeywords| && SpelledAs(k, TagalogKeywords[j])
    requires !HasCjk(a + k + b)
    ensures Detect(a + k + b) == Some(Tl)
  {
    KeywordsAreLowerWords();
    LowerOfSpelled(k, TagalogKeywords[j]);
    LowerAppend(a + k, b);
    LowerAppend(a, k);
    var l := Lower(a + k + b);
    assert l == Lower(a) + TagalogKeywords[j] + Lower(b);
    assert l[|Lower(a)|..|Lower(a)| + |TagalogKeywords[j]|] == TagalogKeywords[j];
    assert MatchAt(l, TagalogKeywords[j], |Lower(a)|);
  }

  /** "Salamat po" with a capital S is `tl`. */
  lemma CapitalisedKeywordIsTagalog(s: string)
    requires s == "Salamat po"
    ensures Detect(s) == Some(Tl)
  {
    SalamatPoSplit(s);
    KeywordInAnyCase([], s[..7], " po", 7);
  }

  // The literal facts the lemma above needs, kept apart so the solver does not
  // unfold the detector on the literal text.
  lemma SalamatPoSplit(s: string)
    requires s == "Salamat po"
    ensures |s| == 10 && s == [] + s[..7] + " po" && !HasCjk(s) && SpelledAs(s[..7], TagalogKeywords[7])
  {
  }

  /** "KUMUSTA" in capitals is `tl`. */
  lemma UpperCaseKeywordIsTagalog(t: string)
    requires t == "KUMUSTA"
    ensures Detect(t) == Some(Tl)
  {
    KumustaSplit(t);
    KeywordInAnyCase([], t, [], 12);
  }

  // The literal facts the lemma above needs, kept apart so the solver does not
  // unfold the detector on the literal text.
  lemma KumustaSplit(t: string)
    requires t == "KUMUSTA"
    ensures t == [] + t + [] && !HasCjk(t) && SpelledAs(t, TagalogKeywords[12])
  {
  }

  /** U+212A KELVIN SIGN lowers to `k`, so "\u212Aumusta" is `tl` through "kumusta". */
  lemma KelvinSignIsTagalog(t: string)
    requires t == [0x212A as char] + TagalogKeywords[12][1..]
    ensures Detect(t) == Some(Tl)
  {
    var k := [0x212A as char];
    var rest := TagalogKeywords[12][1..];
    LowerAppend(k, rest);
    assert Lower(k) == LowerChar(k[0]) + Lower([]);
    KelvinSplit(t);
    assert Lower(t) == TagalogKeywords[12];
    assert MatchAt(Lower(t), TagalogKeywords[12], 0);
  }

  // The literal facts the lemma above needs, kept apart so the solver does not
  // unfold the detector on the literal text.
  lemma KelvinSplit(t: string)
    requires t == [0x212A as char] + TagalogKeywords[12][1..]
    ensures Lower(TagalogKeywords[12][1..]) == TagalogKeywords[12][1..]
    ensures TagalogKeywords[12] == ['k'] + TagalogKeywords[12][1..]
    ensures !HasCjk(t)
  {
    KeywordsAreLowerWords();
  }

  /** The empty string has no hint. */
  lemma EmptyHasNoHint(t: string)
    requires t == []
    ensures Detect(t) == None
  {
    assert Lower(t) == [];
    assert !HasTagalogKeyword(t) by {
      forall j | 0 <= j < |TagalogKeywords|
        ensures !Occurs(TagalogKeywords[j], Lower(t))
      {
        assert |TagalogKeywords[j]| > 0;
      }
    }
  }

  /** A keyword with a character the text lacks cannot occur in it. */
  lemma MissingCharNoOccurrence(k: string, t: string, p: nat)
    requires p < |k|
    requires forall i :: 0 <= i < |t| ==> t[i] != k[p]
    ensures !Occurs(k, t)
  {
    forall i | MatchAt(t, k, i)
      ensures false
    {
      SliceIndex(t, i, i + |k|, p);
    }
  }

  lemma SliceIndex(t: string, i: int, j: int, p: int)
    requires 0 <= i <= j <= |t| && 0 <= p < j - i
    ensures t[i..j][p] == t[i + p]
  {
  }

  /** Every keyword but "oo" has a letter that "hello there" lacks. */
  lemma HelloThereLacksLetters(t: string)
    requires t == "hello there"
    ensures forall j | 0 <= j < |TagalogKeywords| && j != 10 :: !Occurs(TagalogKeywords[j], t)
  {
    var ks := TagalogKeywords;
    // the index of a character of each keyword that "hello there" does not contain
    var pos: seq<nat> := [0, 0, 0, 0, 0, 0, 0, 0, 0, 0, 0, 1, 0, 0, 0, 0, 0, 0];
    var letters := {'h', 'e', 'l', 'o', ' ', 't', 'r'};
    assert forall i | 0 <= i < |t| :: t[i] in letters;
    assert forall j | 0 <= j < |ks| && j != 10 :: pos[j] < |ks[j]| && ks[j][pos[j]] !in letters;
    forall j | 0 <= j < |ks| && j != 10
      ensures !Occurs(ks[j], t)
    {
      MissingCharNoOccurrence(ks[j], t, pos[j]);
    }
  }

  /** "hello there" has no two adjacent o's. */
  lemma HelloThereLacksOo(t: string)
    requires t == "hello there"
    ensures !Occurs(TagalogKeywords[10], t)
  {
    assert TagalogKeywords[10] == "oo";
    if Occurs("oo", t) {
      var i :| MatchAt(t, "oo", i);
      SliceIndex(t, i, i + 2, 0);
      SliceIndex(t, i, i + 2, 1);
      assert false;
    }
  }

  lemma HelloThereNoKeyword(t: string)
    requires t == "hello there"
    ensures !HasTagalogKeyword(t)
  {
    HelloThereLacksLetters(t);
    HelloThereLacksOo(t);
    HelloThereIsLower(t);
  }

  lemma HelloThereIsLower(t: string)
    requires t == "hello there"
    ensures Lower(t) == t
  {
    assert forall i :: 0 <= i < |t| ==> t[i] as int < 128 && !IsUpperAscii(t[i]);
  }

  /** Plain English without a keyword substring gets no hint: "hello there". */
  lemma HelloThereHasNoHint()
    ensures Detect("hello there") == None
  {
    HelloThereNoKeyword("hello there");
    assert !HasCjk("hello there") && !HasArabic("hello there");
  }
}
