/** The Python `str` methods the translator applies to the completion text:
    `isspace` (as used by a bare `strip()`), `strip`, `startswith`, `endswith`
    and `replace(old, new, 1)`. Strings are sequences of Dafny `char`s, that
    is Unicode scalar values; a Python `str` may also hold lone surrogates,
    which these strings cannot. */
module PyStr {

  /** Python's `str.isspace` on one character: exactly the characters that a
      bare `str.strip()` removes. */
  predicate IsSpace(c: char) {
    var n := c as int;
    || (0x09 <= n <= 0x0D)    // tab, line feed, vertical tab, form feed, carriage return
    || (0x1C <= n <= 0x20)    // the four information separators and space
    || n == 0x85 || n == 0xA0
    || n == 0x1680
    || (0x2000 <= n <= 0x200A)
    || n == 0x2028 || n == 0x2029
    || n == 0x202F || n == 0x205F || n == 0x3000
  }

  /** The 29 whitespace code points of CPython, written out one by one as its
      ASCII whitespace table and `_PyUnicode_IsWhitespace` list them. */
  const PythonWhitespace: set<char> := {
    '\t', '\n', '\U{000B}', '\U{000C}', '\r', '\U{001C}', '\U{001D}', '\U{001E}', '\U{001F}', ' ',
    '\U{0085}', '\U{00A0}', '\U{1680}',
    '\U{2000}', '\U{2001}', '\U{2002}', '\U{2003}', '\U{2004}', '\U{2005}', '\U{2006}', '\U{2007}', '\U{2008}', '\U{2009}', '\U{200A}',
    '\U{2028}', '\U{2029}', '\U{202F}', '\U{205F}', '\U{3000}'}

  /** The ranges of `IsSpace` cover exactly the listed code points. */
  lemma IsSpaceListed(c: char)
    ensures IsSpace(c) <==> c in PythonWhitespace
  {
  }

  predicate AllSpace(s: string) {
    forall i | 0 <= i < |s| :: IsSpace(s[i])
  }

  /** No whitespace at either end: what `strip()` leaves. */
  predicate Trimmed(s: string) {
    s == [] || (!IsSpace(s[0]) && !IsSpace(s[|s| - 1]))
  }

  /** `r` is a contiguous piece of `s`. */
  ghost predicate IsSlice(r: string, s: string) {
    exists i, j | 0 <= i <= j <= |s| :: r == s[i..j]
  }

  lemma SliceOfSlice(a: string, b: string, c: string)
    requires IsSlice(a, b) && IsSlice(b, c)
    ensures IsSlice(a, c)
  {
    var i, j :| 0 <= i <= j <= |b| && a == b[i..j];
    var k, l :| 0 <= k <= l <= |c| && b == c[k..l];
    forall t | 0 <= t < j - i ensures a[t] == c[k + i..k + j][t] {
      assert a[t] == b[i + t] == c[k + i + t];
    }
    assert a == c[k + i..k + j];
  }

  /** How many whitespace characters `s` starts with. */
  function LeadingSpaces(s: string): (n: nat)
    ensures n <= |s|
    ensures forall i | 0 <= i < n :: IsSpace(s[i])
    ensures n < |s| ==> !IsSpace(s[n])
  {
    if s != [] && IsSpace(s[0]) then
      var n := LeadingSpaces(s[1..]);
      assert forall i | 1 <= i < n + 1 :: s[i] == s[1..][i - 1];
      1 + n
    else
      0
  }

  /** How many whitespace characters `s` ends with. */
  function TrailingSpaces(s: string): (n: nat)
    ensures n <= |s|
    ensures forall i | |s| - n <= i < |s| :: IsSpace(s[i])
    ensures n < |s| ==> !IsSpace(s[|s| - n - 1])
  {
    if s != [] && IsSpace(s[|s| - 1]) then
      var n := TrailingSpaces(s[..|s| - 1]);
      assert forall i | |s| - 1 - n <= i < |s| - 1 :: s[i] == s[..|s| - 1][i];
      1 + n
    else
      0
  }

  /** `str.lstrip()`: drops the longest all-whitespace prefix. */
  function LStrip(s: string): (r: string)
    ensures |r| <= |s| && (r == [] || !IsSpace(r[0]))
  {
    s[LeadingSpaces(s)..]
  }

  /** `str.rstrip()`: drops the longest all-whitespace suffix. */
  function RStrip(s: string): (r: string)
    ensures |r| <= |s| && (r == [] || !IsSpace(r[|r| - 1]))
  {
    s[..|s| - TrailingSpaces(s)]
  }

  /** `str.strip()`: the result is the piece of `s` left once whitespace is
      removed from both ends, and it has no whitespace at either end. */
  function Strip(s: string): (r: string)
    ensures exists i, j | 0 <= i <= j <= |s| :: r == s[i..j] && AllSpace(s[..i]) && AllSpace(s[j..])
    ensures Trimmed(r)
  {
    var i := LeadingSpaces(s);
    var l := s[i..];
    var j := i + |l| - TrailingSpaces(l);
    assert RStrip(l) == s[i..j];
    assert AllSpace(s[j..]) by {
      assert forall k | 0 <= k < |s| - j :: s[j..][k] == l[|l| - TrailingSpaces(l) + k];
    }
    RStrip(LStrip(s))
  }

  lemma StripOfTrimmed(s: string)
    requires Trimmed(s)
    ensures Strip(s) == s
  {
    assert LeadingSpaces(s) == 0;
    assert LStrip(s) == s;
    assert TrailingSpaces(s) == 0;
  }

  /** Stripping twice is stripping once. */
  lemma StripIdempotent(s: string)
    ensures Strip(Strip(s)) == Strip(s)
  {
    StripOfTrimmed(Strip(s));
  }

  /** Trailing whitespace is counted no further left than the first
      non-space met from the right. */
  lemma {:induction false} TrailingSpacesAppend(p: string, t: string)
    requires p == [] || !IsSpace(p[|p| - 1])
    ensures TrailingSpaces(p + t) == TrailingSpaces(t)
    decreases |t|
  {
    if t == [] {
      assert p + t == p;
    } else if IsSpace(t[|t| - 1]) {
      assert (p + t)[..|p + t| - 1] == p + t[..|t| - 1];
      TrailingSpacesAppend(p, t[..|t| - 1]);
    } else {
      assert (p + t)[|p + t| - 1] == t[|t| - 1];
    }
  }

  /** `str.rstrip()` leaves a non-space-terminated prefix alone. */
  lemma RStripAppend(p: string, t: string)
    requires p == [] || !IsSpace(p[|p| - 1])
    ensures RStrip(p + t) == p + RStrip(t)
  {
    TrailingSpacesAppend(p, t);
    assert (p + t)[..|p + t| - TrailingSpaces(t)] == p + t[..|t| - TrailingSpaces(t)];
  }

  /** A string that starts with non-whitespace keeps its start under `strip()`. */
  lemma StripKeepsPrefix(p: string, t: string)
    requires p != [] && !IsSpace(p[0]) && !IsSpace(p[|p| - 1])
    ensures Strip(p + t) == p + RStrip(t)
  {
    assert (p + t)[0] == p[0];
    RStripAppend(p, t);
  }

  predicate StartsWith(s: string, prefix: string) {
    |prefix| <= |s| && s[..|prefix|] == prefix
  }

  predicate EndsWith(s: string, suffix: string) {
    |suffix| <= |s| && s[|s| - |suffix|..] == suffix
  }

  predicate OccursAt(s: string, pat: string, i: nat) {
    i + |pat| <= |s| && s[i..i + |pat|] == pat
  }

  predicate NoOccurrence(s: string, pat: string) {
    forall i: nat | i <= |s| :: !OccursAt(s, pat, i)
  }

  /** `pat` occurs at `i` and nowhere to the left of `i`. */
  predicate FirstOccurrence(s: string, pat: string, i: nat) {
    OccursAt(s, pat, i) && forall j: nat | j < i :: !OccursAt(s, pat, j)
  }

  lemma OccursInTail(s: string, pat: string, i: nat)
    requires s != []
    ensures OccursAt(s[1..], pat, i) == OccursAt(s, pat, i + 1)
  {
    if i + 1 + |pat| <= |s| {
      assert s[1..][i..i + |pat|] == s[i + 1..i + 1 + |pat|];
    }
  }

  lemma NoOccurrenceInTail(s: string, pat: string)
    requires s != [] && NoOccurrence(s, pat)
    ensures NoOccurrence(s[1..], pat)
  {
    forall i: nat | i <= |s[1..]| ensures !OccursAt(s[1..], pat, i) {
      OccursInTail(s, pat, i);
    }
  }

  lemma NoOccurrenceFromTail(s: string, pat: string)
    requires s != [] && !OccursAt(s, pat, 0) && NoOccurrence(s[1..], pat)
    ensures NoOccurrence(s, pat)
  {
    forall i: nat | 1 <= i <= |s| ensures !OccursAt(s, pat, i) {
      OccursInTail(s, pat, i - 1);
    }
  }

  lemma FirstOccurrenceInTail(s: string, pat: string, i: nat)
    requires FirstOccurrence(s, pat, i) && i >= 1
    ensures FirstOccurrence(s[1..], pat, i - 1)
  {
    OccursInTail(s, pat, i - 1);
    forall j: nat | j < i - 1 ensures !OccursAt(s[1..], pat, j) {
      OccursInTail(s, pat, j);
    }
  }

  /** The recursive step of `ReplaceFirst`: a string that does not start with
      `pat` is its first character followed by the replacement in its tail. */
  lemma ReplaceInTail(s: string, pat: string, rep: string, tail: string)
    requires s != [] && !OccursAt(s, pat, 0)
    requires NoOccurrence(s[1..], pat) ==> tail == s[1..]
    requires forall i: nat | FirstOccurrence(s[1..], pat, i) :: tail == s[1..][..i] + rep + s[1..][i + |pat|..]
    ensures NoOccurrence(s, pat) ==> [s[0]] + tail == s
    ensures forall i: nat | FirstOccurrence(s, pat, i) :: [s[0]] + tail == s[..i] + rep + s[i + |pat|..]
  {
    if NoOccurrence(s, pat) {
      NoOccurrenceInTail(s, pat);
    }
    forall i: nat | FirstOccurrence(s, pat, i) ensures [s[0]] + tail == s[..i] + rep + s[i + |pat|..] {
      FirstOccurrenceInTail(s, pat, i);
      assert s[..i] == [s[0]] + s[1..][..i - 1];
      assert s[i + |pat|..] == s[1..][i - 1 + |pat|..];
    }
  }

  /** `s.replace(pat, rep, 1)`: the first occurrence of `pat`, if any, is
      replaced by `rep`; with no occurrence `s` comes back unchanged. */
  function ReplaceFirst(s: string, pat: string, rep: string): (r: string)
    ensures NoOccurrence(s, pat) ==> r == s
    ensures forall i: nat | FirstOccurrence(s, pat, i) :: r == s[..i] + rep + s[i + |pat|..]
    decreases |s|
  {
    if StartsWith(s, pat) then
      assert OccursAt(s, pat, 0);
      rep + s[|pat|..]
    else if s == [] then
      s
    else
      var tail := ReplaceFirst(s[1..], pat, rep);
      ReplaceInTail(s, pat, rep, tail);
      [s[0]] + tail
  }

  /** When `s` starts with `pat`, the first occurrence is the leading one. */
  lemma ReplaceFirstAtStart(s: string, pat: string, rep: string)
    requires StartsWith(s, pat)
    ensures ReplaceFirst(s, pat, rep) == rep + s[|pat|..]
  {
    assert OccursAt(s, pat, 0);
  }
}
