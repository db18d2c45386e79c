/**
 Clean-up of the raw completion in `translate_with_deepseek` (bot.py:122-129):
 strip it, then for each marker in a fixed order keep what follows the first
 occurrence of that marker, stripped again.
 */
module Cleanup {
  import opened Options
  import opened Text

  const M0: string := "翻译："
  const M1: string := "Translation:"
  const M2: string := "乌尔都语翻译："
  const M3: string := "英语翻译："

  /** The markers, in the order they are tried. The first is a substring of the last two. */
  const Markers: seq<string> := [M0, M1, M2, M3]

  /** One step: `t.split(m, 1)[1].strip()` if `m in t`, else `t` unchanged. */
  function CutAfter(t: string, m: string): (r: string)
    ensures !Occurs(m, t) ==> r == t
    ensures Occurs(m, t) ==> r == Strip(AfterFirst(t, m))
    ensures |r| <= |t|
  {
    if Contains(t, m) then Strip(AfterFirst(t, m)) else t
  }

  /**
   The markers applied in order, each to the result of the one before. On a
   stripped text every step keeps a stripped suffix, so the whole run does.
   */
  function CutAll(t: string, ms: seq<string>): (r: string)
    ensures |r| <= |t|
    ensures IsStripped(t) ==> IsStripped(r) && IsSuffix(r, t)
  {
    if ms == [] then t
    else
      var t' := CutAfter(t, ms[0]);
      assert IsStripped(t) ==> IsStripped(t') && IsSuffix(t', t) by {
        if IsStripped(t) {
          CutAfterSuffix(t, ms[0]);
        }
      }
      CutAll(t', ms[1..])
  }

  /**
   The clean-up applied to the raw completion content. It never adds
   characters: its result is a suffix of the stripped raw content, and carries
   no surrounding whitespace.
   */
  function Clean(raw: string): (r: string)
    ensures IsSuffix(r, Strip(raw))
    ensures IsStripped(r)
    ensures |r| <= |raw|
  {
    CutAll(Strip(raw), Markers)
  }

  // ---------------------------------------------------------------------------
  // Properties

  lemma CutAllFour(t: string, a: string, b: string, c: string, d: string)
    ensures CutAll(t, [a, b, c, d]) == CutAfter(CutAfter(CutAfter(CutAfter(t, a), b), c), d)
  {
    var t1 := CutAfter(t, a);
    var t2 := CutAfter(t1, b);
    var t3 := CutAfter(t2, c);
    assert [a, b, c, d][1..] == [b, c, d];
    assert [b, c, d][1..] == [c, d];
    assert [c, d][1..] == [d];
    assert CutAll(t, [a, b, c, d]) == CutAll(t1, [b, c, d]);
    assert CutAll(t1, [b, c, d]) == CutAll(t2, [c, d]);
    assert CutAll(t2, [c, d]) == CutAll(t3, [d]);
  }

  /** The clean-up as four explicit steps. */
  lemma CleanSteps(raw: string)
    ensures Clean(raw) == CutAfter(CutAfter(CutAfter(CutAfter(Strip(raw), M0), M1), M2), M3)
  {
    CutAllFour(Strip(raw), M0, M1, M2, M3);
  }

  /** One step on a stripped text gives a stripped suffix of it. */
  lemma CutAfterSuffix(t: string, m: string)
    requires IsStripped(t)
    ensures IsStripped(CutAfter(t, m)) && IsSuffix(CutAfter(t, m), t)
  {
    if Occurs(m, t) {
      StripSuffixOfStripped(AfterFirst(t, m), t);
    }
  }

  /** Both longer Chinese markers end in the first one, so they can only match where it does. */
  lemma ShadowedMarkers(u: string)
    ensures Occurs(M2, u) ==> Occurs(M0, u)
    ensures Occurs(M3, u) ==> Occurs(M0, u)
  {
    assert MatchAt(M2, M0, 4);
    assert MatchAt(M3, M0, 2);
    if Occurs(M2, u) {
      OccursTransitive(M0, M2, u, 4);
    }
    if Occurs(M3, u) {
      OccursTransitive(M0, M3, u, 2);
    }
  }

  /** A marker missing from a stripped text is missing from every later step. */
  lemma {:induction false} AbsentStaysAbsent(t: string, m: string, ms: seq<string>)
    requires IsStripped(t)
    requires !Occurs(m, t)
    ensures !Occurs(m, CutAll(t, ms))
  {
    if Occurs(m, CutAll(t, ms)) {
      OccursInSuffix(m, CutAll(t, ms), t);
    }
  }

  /**
   Without "翻译：" and "Translation:" in the stripped content, no marker
   fires and the clean-up returns the stripped content itself.
   */
  lemma CleanWithoutMarkers(raw: string)
    requires !Occurs(M0, Strip(raw))
    requires !Occurs(M1, Strip(raw))
    ensures Clean(raw) == Strip(raw)
  {
    ShadowedMarkers(Strip(raw));
    CleanSteps(raw);
  }

  /** If a marker's first occurrence is its only one, the step that cuts there removes it. */
  lemma CutRemovesSoleOccurrence(t: string, m: string)
    requires IsStripped(t)
    requires Occurs(m, t) && !Occurs(m, AfterFirst(t, m))
    ensures !Occurs(m, CutAfter(t, m))
  {
    var a := AfterFirst(t, m);
    StripSuffixOfStripped(a, t);
    TrimStartSuffix(a);
    if Occurs(m, CutAfter(t, m)) {
      OccursInSuffix(m, CutAfter(t, m), a);
    }
  }

  /**
   When the first "翻译：" in the stripped content is its only one, the two
   longer Chinese markers never fire: the clean-up is the first two steps.
   */
  lemma LongerMarkersShadowed(raw: string)
    requires var s := Strip(raw);
             Occurs(M0, s) ==> !Occurs(M0, AfterFirst(s, M0))
    ensures Clean(raw) == CutAfter(CutAfter(Strip(raw), M0), M1)
  {
    var s := Strip(raw);
    var s1 := CutAfter(s, M0);
    var s2 := CutAfter(s1, M1);
    if Occurs(M0, s) {
      CutRemovesSoleOccurrence(s, M0);
    }
    CutAfterSuffix(s1, M1);
    if Occurs(M0, s2) {
      OccursInSuffix(M0, s2, s1);
    }
    ShadowedMarkers(s2);
    CleanSteps(raw);
  }

  lemma TrimStartSuffix(a: string)
    ensures IsSuffix(TrimStart(a), a)
  {
  }

  lemma TooLongToOccur(k: string, s: string)
    requires |k| > |s|
    ensures !Occurs(k, s)
  {
  }

  /** One cut per marker: a second "翻译：" survives the clean-up ... */
  lemma CleanKeepsSecondMarker(raw: string)
    requires raw == M0 + M0 + "x"
    ensures Clean(raw) == M0 + "x"
  {
    var once := M0 + "x";
    StripOfStripped(raw);
    assert MatchAt(raw, M0, 0);
    assert raw[|M0|..] == once;
    StripOfStripped(once);
    TooLongToOccur(M1, once);
    TooLongToOccur(M2, once);
    TooLongToOccur(M3, once);
    CleanSteps(raw);
  }

  /** ... and is removed by a second clean-up, so the clean-up is not idempotent. */
  lemma CleanAgainCutsIt(raw: string)
    requires raw == M0 + "x"
    ensures Clean(raw) == "x"
  {
    StripOfStripped(raw);
    assert MatchAt(raw, M0, 0);
    assert raw[|M0|..] == "x";
    StripOfStripped("x");
    TooLongToOccur(M1, "x");
    TooLongToOccur(M2, "x");
    TooLongToOccur(M3, "x");
    CleanSteps(raw);
  }

  /** The clean-up is not idempotent: cleaning "翻译：翻译：x" twice removes one more marker. */
  lemma CleanNotIdempotent(raw: string)
    requires raw == M0 + M0 + "x"
    ensures Clean(Clean(raw)) != Clean(raw)
  {
    CleanKeepsSecondMarker(raw);
    CleanAgainCutsIt(M0 + "x");
  }
}
