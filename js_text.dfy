/**
 * The few pieces of JavaScript's string semantics that the sticky-note code
 * relies on: the white-space class shared by `String.prototype.trim` and the
 * regular-expression escape `\s`, `trim` itself, `lastIndexOf` for a single
 * character, `\d`, and the decimal rendering of a non-negative integer in a
 * template literal.
 */
module JsText {

  function Min(a: int, b: int): int { if a <= b then a else b }

  function Max(a: int, b: int): int { if a >= b then a else b }

  /** ECMAScript WhiteSpace and LineTerminator code points outside the range U+2000..U+200A. */
  const WhiteSpaceChars: set<char> :=
    { '\t', '\n', '\U{B}', '\U{C}', '\r', ' ', '\U{A0}', '\U{1680}',
      '\U{2028}', '\U{2029}', '\U{202F}', '\U{205F}', '\U{3000}', '\U{FEFF}' }

  /** The class `\s`, which is also what `trim` removes. */
  predicate IsWhiteSpace(c: char)
  {
    c in WhiteSpaceChars || '\U{2000}' <= c <= '\U{200A}'
  }

  /** The class `\d`: ASCII digits only. */
  predicate IsDigit(c: char) { '0' <= c <= '9' }

  /** The class `[^\n]`. */
  predicate NotNewline(c: char) { c != '\n' }

  predicate AllDigits(s: string)
  {
    forall k :: 0 <= k < |s| ==> IsDigit(s[k])
  }

  /**
   * The end of the longest run of characters in `inClass` starting at `p`
   * (`RunEndIsLongest`): what a greedy `[class]*` consumes from `p`.
   */
  function RunEnd(s: string, p: nat, inClass: char -> bool): (q: nat)
    requires p <= |s|
    ensures p <= q <= |s|
    decreases |s| - p
  {
    if p < |s| && inClass(s[p]) then RunEnd(s, p + 1, inClass) else p
  }

  /**
   * `RunEnd` stops at the first character outside the class: every
   * character before it is in the class, and a run that is bounded by a
   * character outside the class is exactly the one `RunEnd` finds.
   */
  lemma {:induction false} RunEndIsLongest(s: string, p: nat, inClass: char -> bool)
    requires p <= |s|
    ensures var q := RunEnd(s, p, inClass);
      && (forall k :: p <= k < q ==> inClass(s[k]))
      && (q == |s| || !inClass(s[q]))
      && (forall q' :: p <= q' <= |s| && (forall k :: p <= k < q' ==> inClass(s[k])) && (q' == |s| || !inClass(s[q'])) ==> q' == q)
    decreases |s| - p
  {
    if p < |s| && inClass(s[p]) {
      RunEndIsLongest(s, p + 1, inClass);
    }
  }

  /** A run that is bounded by a character outside the class is the longest one. */
  lemma RunEndIs(s: string, p: nat, q: nat, inClass: char -> bool)
    requires p <= q <= |s|
    requires forall k :: p <= k < q ==> inClass(s[k])
    requires q == |s| || !inClass(s[q])
    ensures RunEnd(s, p, inClass) == q
  {
    RunEndIsLongest(s, p, inClass);
  }

  /** The start of the white space that ends `s[lo..hi]`, scanning backwards from `hi`. */
  function TrailStart(s: string, lo: nat, hi: nat): (b: nat)
    requires lo <= hi <= |s|
    ensures lo <= b <= hi
    ensures b > lo ==> !IsWhiteSpace(s[b - 1])
    ensures forall k :: b <= k < hi ==> IsWhiteSpace(s[k])
    decreases hi
  {
    if hi > lo && IsWhiteSpace(s[hi - 1]) then TrailStart(s, lo, hi - 1) else hi
  }

  /** `f` neither starts nor ends with white space. */
  predicate Trimmed(f: string)
  {
    f == [] || (!IsWhiteSpace(f[0]) && !IsWhiteSpace(f[|f| - 1]))
  }

  /**
   * `String.prototype.trim`: the part of `s` between its leading and its
   * trailing white space (`TrimRemovesOnlyWhiteSpace`).
   */
  function Trim(s: string): (r: string)
    ensures |r| <= |s| && Trimmed(r)
  {
    var a := RunEnd(s, 0, IsWhiteSpace);
    var b := TrailStart(s, a, |s|);
    assert a == |s| || !IsWhiteSpace(s[a]) by {
      RunEndIsLongest(s, 0, IsWhiteSpace);
    }
    s[a..b]
  }

  /**
   * `trim` removes white space and nothing else: with `a` the length of the
   * leading white space, the result is the slice of `s` that starts at `a`,
   * and only white space follows it.
   */
  lemma TrimRemovesOnlyWhiteSpace(s: string, a: nat)
    requires a <= |s| && forall k :: 0 <= k < a ==> IsWhiteSpace(s[k])
    requires a == |s| || !IsWhiteSpace(s[a])
    ensures var r := Trim(s);
      && a + |r| <= |s|
      && r == s[a..a + |r|]
      && forall k :: a + |r| <= k < |s| ==> IsWhiteSpace(s[k])
  {
    RunEndIs(s, 0, a, IsWhiteSpace);
  }

  /** Trimming leaves a string that has no white space at either end unchanged. */
  lemma TrimOfTrimmed(s: string)
    requires Trimmed(s)
    ensures Trim(s) == s
  {
  }

  /** Trimming twice is trimming once. */
  lemma TrimIdempotent(s: string)
    ensures Trim(Trim(s)) == Trim(s)
  {
    TrimOfTrimmed(Trim(s));
  }

  /** The greatest index `k <= from` holding `c`, or -1. */
  function LastIndexAtOrBefore(s: string, c: char, from: int): (r: int)
    requires -1 <= from < |s|
    ensures -1 <= r <= from
    ensures r >= 0 ==> s[r] == c
    ensures forall k :: r < k <= from && 0 <= k ==> s[k] != c
    decreases from + 1
  {
    if from < 0 then -1
    else if s[from] == c then from
    else LastIndexAtOrBefore(s, c, from - 1)
  }

  /**
   * `s.lastIndexOf(c, position)` for a one-character search string: the
   * position is clamped to `[0, |s| - 1]` and the search runs backwards from
   * there; -1 when there is no occurrence.
   */
  function LastIndexOf(s: string, c: char, position: int): (r: int)
    ensures -1 <= r < |s|
    ensures r >= 0 ==> s[r] == c && r <= Max(position, 0)
    ensures forall k :: r < k < |s| && k <= Max(position, 0) ==> s[k] != c
  {
    LastIndexAtOrBefore(s, c, Min(Max(position, 0), |s| - 1))
  }

  function DigitChar(d: nat): char
    requires d < 10
  {
    ['0', '1', '2', '3', '4', '5', '6', '7', '8', '9'][d]
  }

  /** The decimal text of `n`, as `${n}` produces it for a non-negative integer. */
  function NatToString(n: nat): (r: string)
    ensures r != [] && AllDigits(r)
    ensures |r| > 1 ==> r[0] != '0'
    decreases n
  {
    if n < 10 then [DigitChar(n)] else NatToString(n / 10) + [DigitChar(n % 10)]
  }

  /** The value of a string of decimal digits. */
  function DecimalValue(s: string): nat
    requires AllDigits(s)
  {
    if s == [] then 0
    else DecimalValue(s[..|s| - 1]) * 10 + ((s[|s| - 1] as int) - ('0' as int))
  }

  /** Reading back the decimal text of a number gives the number. */
  lemma {:induction false} DecimalRoundTrip(n: nat)
    ensures DecimalValue(NatToString(n)) == n
    decreases n
  {
    var r := NatToString(n);
    if n >= 10 {
      DecimalRoundTrip(n / 10);
      assert r[..|r| - 1] == NatToString(n / 10);
    }
  }
}
