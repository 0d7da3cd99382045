/**
 * The Python `str` operations the expander relies on: whitespace stripping,
 * `startswith`, and `replace` with a count of one.
 */
module Text {
  import opened Wrappers

  /** The characters for which Python's `str.isspace()` holds; `strip()` and `lstrip()` remove these. */
  predicate IsWhitespace(c: char) {
    ('\t' <= c <= '\r') || ('\U{1C}' <= c <= ' ') || c == '\U{85}' || c == '\U{A0}' || c == '\U{1680}'
    || ('\U{2000}' <= c <= '\U{200A}') || c == '\U{2028}' || c == '\U{2029}' || c == '\U{202F}'
    || c == '\U{205F}' || c == '\U{3000}'
  }

  /** Every character of `s` is whitespace (the empty string is blank). */
  predicate IsBlank(s: string) {
    forall i :: 0 <= i < |s| ==> IsWhitespace(s[i])
  }

  /** The number of leading whitespace characters of `s`, `len(s) - len(s.lstrip())`. */
  function LeadingWhitespace(s: string): (n: nat)
    ensures n <= |s|
    ensures forall i :: 0 <= i < n ==> IsWhitespace(s[i])
    ensures n < |s| ==> !IsWhitespace(s[n])
  {
    if s != [] && IsWhitespace(s[0]) then 1 + LeadingWhitespace(s[1..]) else 0
  }

  /** The number of trailing whitespace characters of `s`. */
  function TrailingWhitespace(s: string): (n: nat)
    ensures n <= |s|
    ensures forall i :: |s| - n <= i < |s| ==> IsWhitespace(s[i])
    ensures n < |s| ==> !IsWhitespace(s[|s| - n - 1])
  {
    if s != [] && IsWhitespace(s[|s| - 1]) then 1 + TrailingWhitespace(s[..|s| - 1]) else 0
  }

  /** `s.lstrip()` */
  function LStrip(s: string): string {
    s[LeadingWhitespace(s)..]
  }

  /** `s.rstrip()` */
  function RStrip(s: string): string {
    s[..|s| - TrailingWhitespace(s)]
  }

  /** `s.strip()`, which CPython computes as `s.lstrip()` followed by `rstrip()` (see `StripSpec`). */
  function Strip(s: string): string {
    RStrip(LStrip(s))
  }

  /** The stripped text is the slice of `s` after its leading whitespace, followed only by whitespace. */
  lemma {:induction false} StripSlice(s: string)
    ensures LeadingWhitespace(s) + |Strip(s)| <= |s|
    ensures Strip(s) == s[LeadingWhitespace(s)..LeadingWhitespace(s) + |Strip(s)|]
    ensures IsBlank(s[LeadingWhitespace(s) + |Strip(s)|..])
  {
    var n := LeadingWhitespace(s);
    var l := s[n..];
    assert LStrip(s) == l;
    var m := TrailingWhitespace(l);
    var r := l[..|l| - m];
    assert Strip(s) == r;
    assert r == s[n..n + |r|];
    var w := s[n + |r|..];
    forall i | 0 <= i < |w| ensures IsWhitespace(w[i]) {
      assert w[i] == l[|l| - m + i];
    }
  }

  /** The stripped text is empty exactly when `s` is blank. */
  lemma {:induction false} StripEmptyIffBlank(s: string)
    ensures Strip(s) == [] <==> IsBlank(s)
  {
    StripSlice(s);
  }

  /**
   * The stripped text is the slice of `s` that starts after its leading
   * whitespace and is followed only by whitespace; it neither starts nor ends
   * with whitespace, and it is empty exactly when `s` is blank.
   */
  lemma {:induction false} StripSpec(s: string)
    ensures LeadingWhitespace(s) + |Strip(s)| <= |s|
    ensures Strip(s) == s[LeadingWhitespace(s)..LeadingWhitespace(s) + |Strip(s)|]
    ensures IsBlank(s[LeadingWhitespace(s) + |Strip(s)|..])
    ensures Strip(s) != [] ==> !IsWhitespace(Strip(s)[0]) && !IsWhitespace(Strip(s)[|Strip(s)| - 1])
    ensures Strip(s) == [] <==> IsBlank(s)
  {
    StripSlice(s);
    StripEmptyIffBlank(s);
    var n := LeadingWhitespace(s);
    var l := s[n..];
    var m := TrailingWhitespace(l);
    assert Strip(s) == l[..|l| - m];
    assert |l| > m ==> l[0] == s[n];
  }

  /** A string equal to its own stripped form. */
  predicate IsStripped(s: string) {
    Strip(s) == s
  }

  lemma {:induction false} StripOfUnpadded(s: string)
    requires s != [] ==> !IsWhitespace(s[0]) && !IsWhitespace(s[|s| - 1])
    ensures Strip(s) == s
  {
    StripSpec(s);
  }

  /** Trailing whitespace after an unpadded text is exactly what `strip()` removes. */
  lemma {:induction false} StripUnpaddedThenBlank(s: string, w: string)
    requires s != [] && !IsWhitespace(s[0]) && !IsWhitespace(s[|s| - 1])
    requires IsBlank(w)
    ensures Strip(s + w) == s
  {
    var t := s + w;
    assert t[0] == s[0];
    var n := TrailingWhitespace(t);
    assert t[|s| - 1] == s[|s| - 1];
    assert n == |w|;
    assert t[..|t| - n] == s;
  }

  /** Stripping twice is stripping once: every result of `Strip` is stripped. */
  lemma {:induction false} StripIsStripped(s: string)
    ensures IsStripped(Strip(s))
  {
    StripSpec(s);
    StripOfUnpadded(Strip(s));
  }

  /** Whitespace in front of a text adds to its leading whitespace. */
  lemma {:induction false} LeadingBlankPrefix(p: string, s: string)
    requires IsBlank(p)
    ensures LeadingWhitespace(p + s) == |p| + LeadingWhitespace(s)
    decreases |p|
  {
    if p == [] {
      assert p + s == s;
    } else {
      assert (p + s)[0] == p[0];
      assert (p + s)[1..] == p[1..] + s;
      assert IsBlank(p[1..]) by {
        forall i | 0 <= i < |p[1..]| ensures IsWhitespace(p[1..][i]) {
          assert p[1..][i] == p[i + 1];
        }
      }
      LeadingBlankPrefix(p[1..], s);
    }
  }

  /** Whitespace in front of a line changes neither its `lstrip()` nor its `strip()`. */
  lemma {:induction false} StripBlankPrefix(p: string, s: string)
    requires IsBlank(p)
    ensures LeadingWhitespace(p + s) == |p| + LeadingWhitespace(s)
    ensures LStrip(p + s) == LStrip(s)
    ensures Strip(p + s) == Strip(s)
  {
    LeadingBlankPrefix(p, s);
    assert (p + s)[|p| + LeadingWhitespace(s)..] == s[LeadingWhitespace(s)..];
  }

  /** `s.startswith(p)` */
  predicate StartsWith(s: string, p: string) {
    |p| <= |s| && s[..|p|] == p
  }

  /** `t` occurs in `s` at index `i`. */
  predicate OccursAt(s: string, t: string, i: nat) {
    i + |t| <= |s| && s[i..i + |t|] == t
  }

  /** `s.find(t, k)` as an option: the first index at or after `k` where `t` occurs. */
  function IndexOfFrom(s: string, t: string, k: nat): (r: Option<nat>)
    requires k <= |s|
    ensures r.Some? ==> k <= r.value && OccursAt(s, t, r.value)
    ensures r.Some? ==> forall i :: k <= i < r.value ==> !OccursAt(s, t, i)
    ensures r.None? ==> forall i :: k <= i <= |s| ==> !OccursAt(s, t, i)
    decreases |s| - k
  {
    if OccursAt(s, t, k) then Some(k)
    else if k == |s| then None
    else IndexOfFrom(s, t, k + 1)
  }

  /**
   * `s.replace(target, replacement, 1)`: the first occurrence of `target`
   * replaced by `replacement` (an empty `target` occurs first at index 0); `s` itself when `target` does not occur.
   */
  function ReplaceFirst(s: string, target: string, replacement: string): (r: string)
    ensures StartsWith(s, target) ==> r == replacement + s[|target|..]
    ensures (forall i :: 0 <= i <= |s| ==> !OccursAt(s, target, i)) ==> r == s
  {
    match IndexOfFrom(s, target, 0)
    case None => s
    case Some(i) => s[..i] + replacement + s[i + |target|..]
  }
}
