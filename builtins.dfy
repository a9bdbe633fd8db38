/**
 * The few Python built-ins the analyzer relies on: `min` on integers,
 * `str.upper` (restricted to ASCII letters) and `str.strip` (with Python's
 * own set of whitespace characters).
 */
module Builtins {

  /** `min(a, b)`: the smaller of the two. */
  function Min(a: int, b: int): (r: int)
    ensures r <= a && r <= b
    ensures r == a || r == b
  {
    if a <= b then a else b
  }

  // ---------------------------------------------------------------------
  // str.upper
  // ---------------------------------------------------------------------

  predicate IsLower(c: char) { 'a' <= c <= 'z' }

  predicate IsUpper(c: char) { 'A' <= c <= 'Z' }

  /** Upper-case of one character; every character but `a`..`z` is kept. */
  function UpperChar(c: char): char
  {
    if IsLower(c) then (c as int - 32) as char else c
  }

  /** `s.upper()` on ASCII letters. */
  function Upper(s: string): (r: string)
    ensures |r| == |s|
  {
    seq(|s|, i requires 0 <= i < |s| => UpperChar(s[i]))
  }

  /** `c` is `d` itself, or the lower-case letter of the upper-case letter `d`. */
  predicate SameLetterIgnoringCase(c: char, d: char)
  {
    c == d || (IsUpper(d) && c as int == d as int + 32)
  }

  /**
   * Comparing `s.upper()` with a word that has no lower-case letters is a
   * case-insensitive comparison: it holds exactly when `s` has the word's
   * length and every character of `s` is that letter in either case.
   */
  lemma UpperEqualsIgnoringCase(s: string, word: string)
    requires forall j :: 0 <= j < |word| ==> !IsLower(word[j])
    ensures Upper(s) == word <==>
              |s| == |word| && forall j :: 0 <= j < |s| ==> SameLetterIgnoringCase(s[j], word[j])
  {
    if |s| == |word| {
      assert forall j :: 0 <= j < |s| ==> (Upper(s)[j] == word[j] <==> SameLetterIgnoringCase(s[j], word[j]));
      if forall j :: 0 <= j < |s| ==> SameLetterIgnoringCase(s[j], word[j]) {
        assert Upper(s) == word;
      }
    }
  }

  /** Upper-casing twice is upper-casing once, and no lower-case letter survives. */
  lemma UpperIdempotent(s: string)
    ensures Upper(Upper(s)) == Upper(s)
    ensures forall j :: 0 <= j < |s| ==> !IsLower(Upper(s)[j])
  {
  }

  // ---------------------------------------------------------------------
  // str.strip
  // ---------------------------------------------------------------------

  /**
   * `c.isspace()` in Python 3: the characters of Unicode bidirectional class
   * WS, B or S, or of general category Zs.
   */
  predicate IsSpace(c: char)
  {
    ('\t' <= c <= '\r')
    || ('\U{001C}' <= c <= '\U{001F}')
    || c == ' '
    || c == '\U{0085}'
    || c == '\U{00A0}'
    || c == '\U{1680}'
    || ('\U{2000}' <= c <= '\U{200A}')
    || c == '\U{2028}'
    || c == '\U{2029}'
    || c == '\U{202F}'
    || c == '\U{205F}'
    || c == '\U{3000}'
  }

  /** `s.lstrip()` as an index: the first position at or after `i` that does not hold whitespace. */
  function SkipSpace(s: string, i: nat): (r: nat)
    requires i <= |s|
    ensures i <= r <= |s|
    ensures forall j :: i <= j < r ==> IsSpace(s[j])
    ensures r < |s| ==> !IsSpace(s[r])
    decreases |s| - i
  {
    if i < |s| && IsSpace(s[i]) then SkipSpace(s, i + 1) else i
  }

  /** `s.rstrip()` as an index: the end of `s[lo..e]` once its trailing whitespace is gone. */
  function SkipSpaceBack(s: string, lo: nat, e: nat): (r: nat)
    requires lo <= e <= |s|
    ensures lo <= r <= e
    ensures forall j :: r <= j < e ==> IsSpace(s[j])
    ensures r > lo ==> !IsSpace(s[r - 1])
  {
    if e > lo && IsSpace(s[e - 1]) then SkipSpaceBack(s, lo, e - 1) else e
  }

  /**
   * `s.strip()`: the slice of `s` between its leading and its trailing
   * whitespace. It neither starts nor ends with whitespace, and it is empty
   * exactly when `s` is all whitespace.
   */
  function Strip(s: string): (r: string)
    ensures |r| <= |s|
    ensures r == [] || (!IsSpace(r[0]) && !IsSpace(r[|r| - 1]))
    ensures r == [] <==> forall j :: 0 <= j < |s| ==> IsSpace(s[j])
  {
    var b := SkipSpace(s, 0);
    var e := SkipSpaceBack(s, b, |s|);
    s[b..e]
  }

  /**
   * What `strip` removes is whitespace and nothing else: the result sits
   * in `s` at some offset `k`, with only whitespace before and after it.
   */
  lemma StripSlice(s: string)
    ensures var k := SkipSpace(s, 0);
            k + |Strip(s)| <= |s| && Strip(s) == s[k..k + |Strip(s)|]
            && (forall j :: 0 <= j < k ==> IsSpace(s[j]))
            && (forall j :: k + |Strip(s)| <= j < |s| ==> IsSpace(s[j]))
  {
  }

  /** A string that neither starts nor ends with whitespace is its own `strip`. */
  lemma StripOfStripped(t: string)
    requires t == [] || (!IsSpace(t[0]) && !IsSpace(t[|t| - 1]))
    ensures Strip(t) == t
  {
    if t != [] {
      assert SkipSpace(t, 0) == 0;
      assert SkipSpaceBack(t, 0, |t|) == |t|;
    }
  }

  /** Stripping a stripped string changes nothing. */
  lemma StripIdempotent(s: string)
    ensures Strip(Strip(s)) == Strip(s)
  {
    StripOfStripped(Strip(s));
  }

  /** `pad` spaces in front of a stripped text are exactly what `strip` removes. */
  lemma StripLeadingPad(pad: string, t: string)
    requires forall j :: 0 <= j < |pad| ==> IsSpace(pad[j])
    requires t == [] || (!IsSpace(t[0]) && !IsSpace(t[|t| - 1]))
    ensures Strip(pad + t) == t
  {
    var s := pad + t;
    assert forall j :: 0 <= j < |pad| ==> s[j] == pad[j];
    assert |pad| < |s| ==> s[|pad|] == t[0];
    assert SkipSpaceBack(s, |pad|, |s|) == |s| by {
      if t != [] {
        assert s[|s| - 1] == t[|t| - 1];
      }
    }
    assert s[|pad|..] == t;
  }
}
