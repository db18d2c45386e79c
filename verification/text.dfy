/**
 The string primitives the bot relies on: Python's `str.strip()`, the part of
 `str.lower()` that matters for ASCII keyword matching, substring containment
 (`k in s`) and the first-occurrence split (`s.split(k, 1)`).
 Strings are sequences of Unicode scalar values, as Python `str` code points.
 */
module Text {
  import opened Options

  /** Python 3's `str.isspace()`: the characters `str.strip()` removes. */
  predicate IsSpace(c: char) {
    var n := c as int;
    (0x09 <= n <= 0x0D) || (0x1C <= n <= 0x20) || n == 0x85 || n == 0xA0
    || n == 0x1680 || (0x2000 <= n <= 0x200A) || n == 0x2028 || n == 0x2029
    || n == 0x202F || n == 0x205F || n == 0x3000
  }

  /** Every character of `s` from index `lo` up to `hi` is whitespace. */
  ghost predicate SpacesBetween(s: string, lo: int, hi: int) {
    forall k :: lo <= k < hi && 0 <= k < |s| ==> IsSpace(s[k])
  }

  /** No whitespace at either end: what `strip()` leaves behind. */
  predicate IsStripped(s: string) {
    s == [] || (!IsSpace(s[0]) && !IsSpace(s[|s| - 1]))
  }

  predicate IsPrefix(p: string, s: string) {
    |p| <= |s| && s[..|p|] == p
  }

  predicate IsSuffix(t: string, s: string) {
    |t| <= |s| && s[|s| - |t|..] == t
  }

  /** `s` is `r` with only whitespace before and after it. */
  ghost predicate WithinSpaces(r: string, s: string) {
    exists i :: 0 <= i <= |s| - |r| && s[i..i + |r|] == r
      && SpacesBetween(s, 0, i) && SpacesBetween(s, i + |r|, |s|)
  }

  /** Drops leading whitespace (`lstrip()`). */
  function TrimStart(s: string): (r: string)
    ensures IsSuffix(r, s)
    ensures SpacesBetween(s, 0, |s| - |r|)
    ensures r == [] || !IsSpace(r[0])
  {
    if |s| > 0 && IsSpace(s[0]) then TrimStart(s[1..]) else s
  }

  /** Drops trailing whitespace (`rstrip()`). */
  function TrimEnd(s: string): (r: string)
    ensures IsPrefix(r, s)
    ensures SpacesBetween(s, |r|, |s|)
    ensures r == [] || !IsSpace(r[|r| - 1])
  {
    if |s| > 0 && IsSpace(s[|s| - 1]) then TrimEnd(s[..|s| - 1]) else s
  }

  /** Python `s.strip()` with no argument. */
  function Strip(s: string): (r: string)
    ensures IsStripped(r)
    ensures |r| <= |s|
    ensures WithinSpaces(r, s)
  {
    var a := TrimStart(s);
    var r := TrimEnd(a);
    var i := |s| - |a|;
    StripWitness(s, a, r, i);
    r
  }

  /** Where `Strip`'s result sits in its argument: after the leading, before the trailing spaces. */
  lemma StripWitness(s: string, a: string, r: string, i: int)
    requires a == TrimStart(s) && r == TrimEnd(a) && i == |s| - |a|
    ensures IsStripped(r) && |r| <= |s|
    ensures WithinSpaces(r, s)
  {
    assert s[i..] == a;
    forall k | 0 <= k < |r|
      ensures s[i..i + |r|][k] == r[k]
    {
      assert s[i + k] == a[k];
    }
    forall k | i + |r| <= k < |s|
      ensures IsSpace(s[k])
    {
      assert s[k] == a[k - i];
    }
    assert SpacesBetween(s, i + |r|, |s|);
    if r != [] {
      assert r[0] == a[0];
    }
  }

  /** A string that ends in a non-space character (or is empty) loses nothing to `rstrip()`. */
  lemma TrimEndOfStripped(s: string)
    requires s == [] || !IsSpace(s[|s| - 1])
    ensures TrimEnd(s) == s
  {
  }

  /** Stripping a suffix of an already stripped string yields a suffix of it. */
  lemma {:induction false} StripSuffixOfStripped(u: string, t: string)
    requires IsStripped(t)
    requires IsSuffix(u, t)
    ensures IsSuffix(Strip(u), t)
    ensures Strip(u) == TrimStart(u)
  {
    var a := TrimStart(u);
    assert IsSuffix(a, t);
    if a != [] {
      assert a[|a| - 1] == t[|t| - 1];
    }
    TrimEndOfStripped(a);
  }

  lemma StripOfStripped(s: string)
    requires IsStripped(s)
    ensures Strip(s) == s
  {
    TrimEndOfStripped(s);
  }

  /** `strip()` is idempotent. */
  lemma StripIdempotent(s: string)
    ensures Strip(Strip(s)) == Strip(s)
  {
    StripOfStripped(Strip(s));
  }

  // ---------------------------------------------------------------------------
  // Lower-casing

  /**
   The lower-case form of one character as far as an ASCII keyword test can
   observe it: `A`-`Z` map to `a`-`z`, U+212A KELVIN SIGN lowers to `k`, and
   U+0130 (capital I with dot above) lowers to `i` followed by U+0307. Every
   other character is kept; Python lowers it to non-ASCII characters, which no
   ASCII keyword can match either way.
   */
  function LowerChar(c: char): (r: string)
    ensures 1 <= |r| <= 2
    ensures c as int != 0x130 ==> r == [LowerOne(c)]
    ensures c as int == 0x130 ==> r == ['i', 0x307 as char]
  {
    if c as int == 0x130 then ['i', 0x307 as char] else [LowerOne(c)]
  }

  /** The one-character lower-casing of every character but U+0130. */
  function LowerOne(c: char): (r: char)
    ensures IsUpperAscii(c) ==> r as int == c as int + 32 && 'a' <= r <= 'z'
    ensures !IsUpperAscii(c) && c as int != 0x212A ==> r == c
    ensures c as int == 0x212A ==> r == 'k'
  {
    if IsUpperAscii(c) then (c as int + 32) as char
    else if c as int == 0x212A then 'k'
    else c
  }

  predicate IsUpperAscii(c: char) {
    'A' <= c <= 'Z'
  }

  /** Python `s.lower()`, restricted as `LowerChar` explains. */
  function Lower(s: string): (r: string)
    ensures |r| >= |s|
    ensures forall i :: 0 <= i < |r| ==> !IsUpperAscii(r[i])
    // without U+0130 lower-casing works character by character
    ensures (forall i :: 0 <= i < |s| ==> s[i] as int != 0x130) ==>
              |r| == |s| && forall i :: 0 <= i < |s| ==> r[i] == LowerOne(s[i])
    // in particular A-Z become a-z and every other ASCII character is kept
    ensures (forall i :: 0 <= i < |s| ==> s[i] as int < 128) ==>
              |r| == |s| && forall i :: 0 <= i < |s| ==>
                r[i] == (if IsUpperAscii(s[i]) then (s[i] as int + 32) as char else s[i])
    // text with nothing to lower is its own lower-case form
    ensures (forall i :: 0 <= i < |s| ==>
               !IsUpperAscii(s[i]) && s[i] as int != 0x212A && s[i] as int != 0x130) ==> r == s
  {
    if s == [] then []
    else
      var rest := Lower(s[1..]);
      assert forall i :: 1 <= i < |s| ==> s[1..][i - 1] == s[i];
      LowerChar(s[0]) + rest
  }

  /** A word of lower-case ASCII letters only. */
  predicate IsLowerWord(w: string) {
    forall i :: 0 <= i < |w| ==> 'a' <= w[i] <= 'z'
  }

  /** `k` is the word `w` with any of its letters, or none, written as capitals. */
  predicate SpelledAs(k: string, w: string) {
    |k| == |w| && forall i :: 0 <= i < |k| ==> k[i] == w[i] || k[i] as int == w[i] as int - 32
  }

  /** Lower-casing a lower-case word written with any mix of capitals gives the word back. */
  lemma {:induction false} LowerOfSpelled(k: string, w: string)
    requires IsLowerWord(w) && SpelledAs(k, w)
    ensures Lower(k) == w
  {
    if k != [] {
      assert LowerChar(k[0]) == [w[0]];
      assert w == [w[0]] + w[1..];
      LowerOfSpelled(k[1..], w[1..]);
    }
  }

  lemma {:induction false} LowerAppend(a: string, b: string)
    ensures Lower(a + b) == Lower(a) + Lower(b)
  {
    if a == [] {
      assert a + b == b;
    } else {
      assert (a + b)[1..] == a[1..] + b;
      LowerAppend(a[1..], b);
    }
  }

  /** Lower-casing twice is lower-casing once. */
  lemma {:induction false} LowerIdempotent(s: string)
    ensures Lower(Lower(s)) == Lower(s)
  {
    if s != [] {
      var h := LowerChar(s[0]);
      LowerAppend(h, Lower(s[1..]));
      assert Lower(h) == h by {
        if |h| == 1 {
          assert Lower(h) == LowerChar(h[0]) + Lower(h[1..]);
        } else {
          assert Lower(h) == LowerChar(h[0]) + Lower(h[1..]);
          assert Lower(h[1..]) == LowerChar(h[1]) + Lower(h[2..]);
        }
      }
      LowerIdempotent(s[1..]);
    }
  }

  // ---------------------------------------------------------------------------
  // Substring search

  /** `k` occurs in `s` starting at index `i`. */
  predicate MatchAt(s: string, k: string, i: int) {
    0 <= i && i + |k| <= |s| && s[i..i + |k|] == k
  }

  /** Python's `k in s`. */
  ghost predicate Occurs(k: string, s: string) {
    exists i :: MatchAt(s, k, i)
  }

  /** The first occurrence of `k` in `s` at or after index `from`. */
  function FindFrom(s: string, k: string, from: nat): (r: Option<nat>)
    ensures r.Some? ==> from <= r.value && MatchAt(s, k, r.value)
    ensures r.Some? ==> forall j :: from <= j < r.value ==> !MatchAt(s, k, j)
    ensures r.None? ==> forall j :: from <= j ==> !MatchAt(s, k, j)
    decreases |s| - from
  {
    if from + |k| > |s| then None
    else if s[from..from + |k|] == k then Some(from)
    else FindFrom(s, k, from + 1)
  }

  /** Python's `s.find(k)`, with `None` for -1. */
  function Find(s: string, k: string): (r: Option<nat>)
    ensures r.Some? ==> MatchAt(s, k, r.value)
    ensures r.Some? ==> forall j :: 0 <= j < r.value ==> !MatchAt(s, k, j)
    ensures r.None? <==> !Occurs(k, s)
  {
    FindFrom(s, k, 0)
  }

  /** Python's `k in s`, computed. */
  function Contains(s: string, k: string): (r: bool)
    ensures r <==> Occurs(k, s)
  {
    Find(s, k).Some?
  }

  /** An occurrence inside a suffix is an occurrence in the whole string. */
  lemma OccursInSuffix(k: string, u: string, t: string)
    requires IsSuffix(u, t)
    requires Occurs(k, u)
    ensures Occurs(k, t)
  {
    var i :| MatchAt(u, k, i);
    var d := |t| - |u|;
    assert t[d + i..d + i + |k|] == u[i..i + |k|];
    assert MatchAt(t, k, d + i);
  }

  /** An occurrence of `k` inside an occurrence of `big` is an occurrence of `k`. */
  lemma OccursTransitive(k: string, big: string, s: string, off: nat)
    requires MatchAt(big, k, off)
    requires Occurs(big, s)
    ensures Occurs(k, s)
  {
    var i :| MatchAt(s, big, i);
    var w := s[i + off..i + off + |k|];
    forall j | 0 <= j < |k|
      ensures w[j] == k[j]
    {
      assert w[j] == s[i + off + j] == s[i..i + |big|][off + j];
      assert k[j] == big[off..off + |k|][j] == big[off + j];
    }
    assert w == k;
    assert MatchAt(s, k, i + off);
  }

  /** Python's `s.split(k, 1)[1]` when `k in s`: everything after the first occurrence. */
  function AfterFirst(s: string, k: string): (r: string)
    requires Occurs(k, s)
    ensures IsSuffix(r, s)
    ensures |r| <= |s| - |k|
    ensures exists i :: MatchAt(s, k, i) && r == s[i + |k|..]
              && forall j :: 0 <= j < i ==> !MatchAt(s, k, j)
  {
    var i := Find(s, k).value;
    s[i + |k|..]
  }
}
