/** Python's `str.strip()` with no argument: remove leading and trailing
    whitespace, where whitespace is what `str.isspace()` accepts. */
module Whitespace {

  /** The code points Python's `str.isspace()` accepts: the ASCII controls
      tab to carriage return and file to unit separator, space, next line,
      no-break space, and the Unicode space separators and line/paragraph
      separators. */
  predicate IsSpace(c: char) {
    ('\t' <= c <= '\r') || ('\U{1C}' <= c <= '\U{1F}') || c == ' '
    || c == '\U{85}' || c == '\U{A0}' || c == '\U{1680}'
    || ('\U{2000}' <= c <= '\U{200A}') || c == '\U{2028}' || c == '\U{2029}'
    || c == '\U{202F}' || c == '\U{205F}' || c == '\U{3000}'
  }

  /** Every character of `s` is whitespace. */
  predicate AllSpace(s: string) {
    SpaceBetween(s, 0, |s|)
  }

  /** Every character of `s` at a position in `[lo, hi)` is whitespace. */
  predicate SpaceBetween(s: string, lo: int, hi: int)
    requires 0 <= lo <= hi <= |s|
  {
    forall k :: lo <= k < hi ==> IsSpace(s[k])
  }

  /** Neither end of `s` is whitespace (vacuous for the empty string). */
  predicate Unpadded(s: string) {
    |s| == 0 || (!IsSpace(s[0]) && !IsSpace(s[|s| - 1]))
  }

  /** `r` is `s` with a whitespace-only head and tail removed and no
      whitespace left at either end: the meaning of `s.strip()`. */
  ghost predicate TrimmedOf(s: string, r: string) {
    exists i, j :: TrimWindow(s, i, j) && r == s[i..j]
  }

  /** `s[i..j]` is what is left once whitespace-only ends are removed. */
  predicate TrimWindow(s: string, i: int, j: int) {
    0 <= i <= j <= |s| && SpaceBetween(s, 0, i) && SpaceBetween(s, j, |s|)
    && (i == j || (!IsSpace(s[i]) && !IsSpace(s[j - 1])))
  }

  /** Length of the leading run of whitespace. */
  function LeadingSpace(s: string): (n: nat)
    ensures n <= |s|
    ensures SpaceBetween(s, 0, n)
    ensures n < |s| ==> !IsSpace(s[n])
  {
    if |s| > 0 && IsSpace(s[0]) then 1 + LeadingSpace(s[1..]) else 0
  }

  /** Where the trailing run of whitespace begins. */
  function TrailingSpaceStart(s: string): (n: nat)
    ensures n <= |s|
    ensures SpaceBetween(s, n, |s|)
    ensures n > 0 ==> !IsSpace(s[n - 1])
  {
    if |s| > 0 && IsSpace(s[|s| - 1]) then TrailingSpaceStart(s[..|s| - 1]) else |s|
  }

  /** `s.strip()`: skip the leading whitespace, then cut off the trailing
      whitespace of what is left. */
  function Trim(s: string): (r: string)
    ensures TrimmedOf(s, r)
    ensures |r| <= |s|
  {
    var i := LeadingSpace(s);
    var j := i + TrailingSpaceStart(s[i..]);
    assert TrimWindow(s, i, j);
    s[i..j]
  }

  /** A trim window is empty exactly when all of `s` is whitespace, and
      otherwise runs from the first non-whitespace character to just past
      the last one. */
  lemma WindowBounds(s: string, i: int, j: int)
    requires TrimWindow(s, i, j)
    ensures i == j <==> AllSpace(s)
    ensures i < j ==> i == LeadingSpace(s) && j == TrailingSpaceStart(s)
  {
    if i < j {
      assert !IsSpace(s[i]);
    }
  }

  /** There is only one way to trim a string. */
  lemma TrimmedUnique(s: string, r1: string, r2: string)
    requires TrimmedOf(s, r1) && TrimmedOf(s, r2)
    ensures r1 == r2
  {
    var i1, j1 :| TrimWindow(s, i1, j1) && r1 == s[i1..j1];
    var i2, j2 :| TrimWindow(s, i2, j2) && r2 == s[i2..j2];
    WindowBounds(s, i1, j1);
    WindowBounds(s, i2, j2);
  }

  /** Trimming leaves nothing exactly when the text is all whitespace. */
  lemma TrimEmpty(s: string)
    ensures Trim(s) == "" <==> AllSpace(s)
  {
    var r := Trim(s);
    assert TrimmedOf(s, r);
    var i, j :| TrimWindow(s, i, j) && r == s[i..j];
    WindowBounds(s, i, j);
  }

  /** Trimming leaves no whitespace at either end. */
  lemma TrimUnpadded(s: string)
    ensures Unpadded(Trim(s))
  {
    var r := Trim(s);
    assert TrimmedOf(s, r);
    var i, j :| TrimWindow(s, i, j) && r == s[i..j];
  }

  /** A text with no whitespace at either end is its own trim. */
  lemma TrimFixesUnpadded(s: string)
    requires Unpadded(s)
    ensures Trim(s) == s
  {
    assert TrimWindow(s, 0, |s|) && s[0..|s|] == s;
    TrimmedUnique(s, s, Trim(s));
  }

  /** Trimming a trimmed text changes nothing. */
  lemma TrimIdempotent(s: string)
    ensures Trim(Trim(s)) == Trim(s)
  {
    TrimUnpadded(s);
    TrimFixesUnpadded(Trim(s));
  }

  /** A text that does not start with whitespace loses only its tail. */
  lemma TrimKeepsUnpaddedStart(s: string)
    requires |s| > 0 && !IsSpace(s[0])
    ensures |Trim(s)| > 0 && Trim(s) == s[..|Trim(s)|]
    ensures forall k :: 0 <= k < |s| && !IsSpace(s[k]) ==> k < |Trim(s)|
    ensures AllSpace(s[|Trim(s)|..])
  {
    var r := Trim(s);
    assert TrimmedOf(s, r);
    var i, j :| TrimWindow(s, i, j) && r == s[i..j];
    WindowBounds(s, i, j);
  }
}
