/**
 * The three Python `str` operations the response segmenter relies on:
 * `str.find`, slicing with step 1, and `str.strip()` with no argument.
 * Strings are sequences of Unicode scalar values, as Python's `str` is.
 */
module PyStr {

  /** `pat` occurs in `s` starting at index `i`. */
  predicate OccursAt(s: string, pat: string, i: int)
  {
    0 <= i && i + |pat| <= |s| && s[i..i + |pat|] == pat
  }

  /** `pat` occurs somewhere in `s` (Python's `pat in s`). */
  predicate Contains(s: string, pat: string)
  {
    exists i :: 0 <= i <= |s| && OccursAt(s, pat, i)
  }

  /** `i` is the leftmost index at which `pat` occurs in `s`. */
  predicate IsFirstOccurrence(s: string, pat: string, i: int)
  {
    OccursAt(s, pat, i) && forall k :: 0 <= k < i ==> !OccursAt(s, pat, k)
  }

  /** Leftmost occurrence of `pat` in `s` at an index `from` or later, or -1. */
  function FindFrom(s: string, pat: string, from: nat): (r: int)
    requires from <= |s|
    ensures r == -1 || (from <= r && OccursAt(s, pat, r))
    ensures r == -1 ==> forall k :: from <= k ==> !OccursAt(s, pat, k)
    ensures r != -1 ==> forall k :: from <= k < r ==> !OccursAt(s, pat, k)
    decreases |s| - from
  {
    if from + |pat| > |s| then -1
    else if s[from..from + |pat|] == pat then from
    else if from == |s| then -1
    else FindFrom(s, pat, from + 1)
  }

  /** Python's `s.find(pat)`: the index of the first occurrence, or the sentinel -1. */
  function Find(s: string, pat: string): (r: int)
    ensures r == -1 <==> !Contains(s, pat)
    ensures r != -1 ==> IsFirstOccurrence(s, pat, r)
  {
    FindFrom(s, pat, 0)
  }

  /** The first occurrence is unique, so `Find` returns exactly it. */
  lemma {:induction false} FindIsFirstOccurrence(s: string, pat: string, i: int)
    requires IsFirstOccurrence(s, pat, i)
    ensures Find(s, pat) == i
  {
  }

  /** An occurrence survives dropping a prefix that ends at or before it. */
  lemma {:induction false} OccursInSuffix(s: string, pat: string, i: int, d: nat)
    requires OccursAt(s, pat, i) && d <= i
    ensures OccursAt(s[d..], pat, i - d)
  {
  }

  /** An occurrence survives dropping a suffix that starts at or after its end. */
  lemma {:induction false} OccursInPrefix(s: string, pat: string, i: int, m: nat)
    requires OccursAt(s, pat, i) && i + |pat| <= m <= |s|
    ensures OccursAt(s[..m], pat, i)
  {
  }

  /** A single differing character rules out an occurrence. */
  lemma {:induction false} MismatchAt(s: string, pat: string, k: int, d: int)
    requires 0 <= k && 0 <= d < |pat| && k + d < |s| && s[k + d] != pat[d]
    ensures !OccursAt(s, pat, k)
  {
  }

  /**
   * An occurrence is the first one when no earlier index starts with the
   * pattern's first two characters.
   */
  lemma {:induction false} FirstByLeadingPair(s: string, pat: string, i: int)
    requires OccursAt(s, pat, i) && 2 <= |pat|
    requires forall k :: 0 <= k < i ==> s[k] != pat[0] || s[k + 1] != pat[1]
    ensures IsFirstOccurrence(s, pat, i)
  {
    forall k | 0 <= k < i ensures !OccursAt(s, pat, k) {
      MismatchAt(s, pat, k, if s[k] != pat[0] then 0 else 1);
    }
  }

  /** A pattern whose first two characters never appear together is absent. */
  lemma {:induction false} AbsentByLeadingPair(s: string, pat: string)
    requires 2 <= |pat|
    requires forall k :: 0 <= k < |s| - 1 ==> s[k] != pat[0] || s[k + 1] != pat[1]
    ensures !Contains(s, pat)
  {
    forall k | 0 <= k <= |s| ensures !OccursAt(s, pat, k) {
      if k + |pat| <= |s| {
        MismatchAt(s, pat, k, if s[k] != pat[0] then 0 else 1);
      }
    }
  }

  /**
   * Two non-overlapping occurrences, the first before the second, cut `s`
   * into five consecutive pieces that concatenate back to `s`.
   */
  lemma {:induction false} SplitAroundOccurrences(s: string, a: string, i: int, b: string, j: int)
    requires OccursAt(s, a, i) && OccursAt(s, b, j) && i + |a| <= j
    ensures s == s[..i] + a + s[i + |a|..j] + b + s[j + |b|..]
  {
  }

  /** A slice bound as Python reads it: negative counts from the end, then clamp to `[0, n]`. */
  function ClampIndex(i: int, n: nat): (r: nat)
    ensures r <= n
  {
    if i < 0 then (if i + n < 0 then 0 else i + n)
    else if i > n then n
    else i
  }

  /**
   * Python's `s[a:b]` with step 1: never fails, and is empty whenever the
   * normalised start is at or past the normalised stop.
   */
  function Slice(s: string, a: int, b: int): (r: string)
    ensures |r| <= |s|
    ensures 0 <= a <= b <= |s| ==> r == s[a..b]
    ensures 0 <= b <= a ==> r == []
  {
    var lo := ClampIndex(a, |s|);
    var hi := ClampIndex(b, |s|);
    if lo < hi then s[lo..hi] else []
  }

  /**
   * How `Slice` treats out-of-range bounds: a start at or past the end, or a
   * stop at or before `-|s|`, gives the empty string; otherwise a negative
   * bound counts from the end, one below `-|s|` acts as 0, and one above
   * `|s|` acts as `|s|`.
   */
  lemma {:induction false} SliceNormalises(s: string, a: int, b: int)
    ensures |s| <= a ==> Slice(s, a, b) == []
    ensures b + |s| <= 0 ==> Slice(s, a, b) == []
    ensures -|s| <= a < 0 ==> Slice(s, a, b) == Slice(s, |s| + a, b)
    ensures a < -|s| ==> Slice(s, a, b) == Slice(s, 0, b)
    ensures -|s| <= b < 0 ==> Slice(s, a, b) == Slice(s, a, |s| + b)
    ensures |s| < b ==> Slice(s, a, b) == Slice(s, a, |s|)
  {
  }

  /** The characters Python's `str.isspace` (and so `str.strip()`) treats as whitespace. */
  predicate IsWhitespace(c: char)
  {
    || ('\t' <= c <= '\r')
    || ('\U{1C}' <= c <= '\U{1F}')
    || c == ' '
    || c == '\U{85}'
    || c == '\U{A0}'
    || c == '\U{1680}'
    || ('\U{2000}' <= c <= '\U{200A}')
    || c == '\U{2028}'
    || c == '\U{2029}'
    || c == '\U{202F}'
    || c == '\U{205F}'
    || c == '\U{3000}'
  }

  /** Every character of `s` is whitespace. */
  predicate AllWhitespace(s: string)
  {
    forall k :: 0 <= k < |s| ==> IsWhitespace(s[k])
  }

  /** How many whitespace characters `s` begins with. */
  function LeadingWhitespace(s: string): (n: nat)
    ensures n <= |s|
    ensures forall k :: 0 <= k < n ==> IsWhitespace(s[k])
    ensures n < |s| ==> !IsWhitespace(s[n])
  {
    if s != [] && IsWhitespace(s[0]) then 1 + LeadingWhitespace(s[1..]) else 0
  }

  /** The length of `s` once its trailing whitespace is dropped. */
  function ContentEnd(s: string): (m: nat)
    ensures m <= |s|
    ensures forall k :: m <= k < |s| ==> IsWhitespace(s[k])
    ensures 0 < m ==> !IsWhitespace(s[m - 1])
  {
    if s != [] && IsWhitespace(s[|s| - 1]) then ContentEnd(s[..|s| - 1]) else |s|
  }

  /** Python's `s.strip()`: drop leading and trailing whitespace. */
  function Strip(s: string): (r: string)
    ensures |r| <= |s|
    ensures r == [] <==> AllWhitespace(s)
    ensures r == [] || (!IsWhitespace(r[0]) && !IsWhitespace(r[|r| - 1]))
  {
    var i := LeadingWhitespace(s);
    var j := ContentEnd(s);
    if j <= i then [] else s[i..j]
  }

  /**
   * Independent characterisation of `Strip`: if `s[i..j]` is preceded and followed
   * only by whitespace and (when non-empty) neither begins nor ends with
   * whitespace, then it is what `Strip` returns.
   */
  lemma {:induction false} StripIsTrimmedInfix(s: string, i: nat, j: nat)
    requires i <= j <= |s|
    requires forall k :: 0 <= k < i ==> IsWhitespace(s[k])
    requires forall k :: j <= k < |s| ==> IsWhitespace(s[k])
    requires i < j ==> !IsWhitespace(s[i]) && !IsWhitespace(s[j - 1])
    ensures Strip(s) == s[i..j]
  {
  }

  /** Stripping twice is the same as stripping once. */
  lemma {:induction false} StripIdempotent(s: string)
    ensures Strip(Strip(s)) == Strip(s)
  {
  }

  /**
   * `Strip` keeps every span that begins and ends with a non-whitespace
   * character: such a span of `s` is found again in `Strip(s)`.
   */
  lemma {:induction false} StripKeepsSpan(s: string, p: nat, q: nat)
    requires p < q <= |s|
    requires !IsWhitespace(s[p]) && !IsWhitespace(s[q - 1])
    ensures Contains(Strip(s), s[p..q])
  {
    var lead := LeadingWhitespace(s);
    var end := ContentEnd(s);
    assert !IsWhitespace(s[p]);
    assert !IsWhitespace(s[q - 1]);
    assert lead <= p && q <= end;
    var r := s[lead..end];
    assert r[p - lead..q - lead] == s[p..q];
    assert OccursAt(r, s[p..q], p - lead);
  }

  /**
   * An occurrence lying wholly inside `s[lo..hi]`, of a pattern that begins
   * and ends with non-whitespace, is still there once that slice is stripped.
   */
  lemma {:induction false} StripKeepsOccurrence(s: string, pat: string, k: int, lo: int, hi: int)
    requires 0 < |pat| && !IsWhitespace(pat[0]) && !IsWhitespace(pat[|pat| - 1])
    requires OccursAt(s, pat, k) && 0 <= lo <= k && k + |pat| <= hi <= |s|
    ensures Contains(Strip(s[lo..hi]), pat)
  {
    var t := s[lo..hi];
    var p := k - lo;
    OccursInPrefix(s, pat, k, hi);
    OccursInSuffix(s[..hi], pat, k, lo);
    assert s[..hi][lo..] == t;
    assert t[p] == pat[0] && t[p + |pat| - 1] == pat[|pat| - 1];
    StripKeepsSpan(t, p, p + |pat|);
  }
}
