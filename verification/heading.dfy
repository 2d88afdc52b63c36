/** The heading stripper: drop everything before the first line that starts
    with `##` (which also matches `###` and deeper headings, since the test is
    a prefix test), keep that line and everything after it, and drop the whole
    text when no such line exists. */
module Heading {
  import opened Text
  import opened Lines

  /** The marker a kept line must start with. */
  const Marker: string := "##"

  /** `line.startswith('##')`. */
  predicate IsHeading(line: string) {
    StartsWith(line, Marker)
  }

  /** Index of the first heading line, or `|lines|` when there is none: the
      scan for the first heading line. */
  function FirstHeading(lines: seq<string>): (i: nat)
    ensures i <= |lines|
    ensures i < |lines| ==> IsHeading(lines[i])
    ensures forall j :: 0 <= j < i ==> !IsHeading(lines[j])
  {
    if |lines| == 0 then 0
    else if IsHeading(lines[0]) then 0
    else 1 + FirstHeading(lines[1..])
  }

  /** The stripper as the source writes it: an empty text is returned as it
      is; otherwise the text is split into lines, and the lines from the first
      heading on are joined again, or the empty string is returned. */
  function Strip(content: string): (r: string)
    ensures EndsWith(content, r)
    ensures r == "" || StartsWith(r, Marker)
  {
    if content == "" then content
    else
      var lines := Split(content);
      var i := FirstHeading(lines);
      if i < |lines| then
        assert EndsWith(content, Join(lines[i..])) by {
          JoinSplit(content);
          JoinSuffix(lines, i);
        }
        assert lines[i..][0] == lines[i];
        Join(lines[i..])
      else ""
  }

  // ---- A character-level description of the same result ----

  /** Position `p` of `s` begins a line. */
  predicate LineStartsAt(s: string, p: int) {
    p == 0 || (0 < p <= |s| && s[p - 1] == '\n')
  }

  /** A line starting with the marker begins at position `p` of `s`. */
  predicate HeadingAt(s: string, p: int) {
    0 <= p <= |s| && LineStartsAt(s, p) && StartsWith(s[p..], Marker)
  }

  /** `p` is the first such position. */
  ghost predicate FirstHeadingAt(s: string, p: int) {
    HeadingAt(s, p) && forall q :: 0 <= q < p ==> !HeadingAt(s, q)
  }

  /** Some line of `s` starts with the marker. */
  ghost predicate HasHeading(s: string) {
    exists p :: HeadingAt(s, p)
  }

  /** A heading position, character by character. */
  lemma HeadingAtChars(s: string, p: int)
    ensures HeadingAt(s, p) <==>
      0 <= p && p + 2 <= |s| && LineStartsAt(s, p) && s[p] == '#' && s[p + 1] == '#'
  {
    if 0 <= p && p + 2 <= |s| {
      assert s[p..][..2] == [s[p], s[p + 1]];
    }
  }

  /** In a text without newlines only position 0 can hold a heading. */
  lemma SingleLineHeading(a: string)
    requires OneLine(a)
    ensures forall p :: HeadingAt(a, p) ==> p == 0
    ensures HeadingAt(a, 0) <==> IsHeading(a)
  {
    forall p | 0 < p <= |a| ensures !LineStartsAt(a, p) {
      assert a[p - 1] != '\n';
    }
  }

  /** Headings of `a + "\n" + t`, for a first line `a`, are position 0 when
      `a` is one, and otherwise the headings of `t` shifted by `|a| + 1`. */
  lemma HeadingsAfterFirstLine(a: string, t: string)
    requires OneLine(a)
    ensures var s := a + "\n" + t;
      (HeadingAt(s, 0) <==> IsHeading(a)) &&
      (forall p :: 0 < p <= |a| ==> !HeadingAt(s, p)) &&
      (forall q :: 0 <= q <= |t| ==>
        (HeadingAt(s, q + |a| + 1) <==> HeadingAt(t, q)) && s[q + |a| + 1..] == t[q..])
  {
    var s := a + "\n" + t;
    var k := |a| + 1;
    if |a| < 2 {
      assert s[|a|] == '\n';
      assert !StartsWith(s[0..], Marker);
    } else {
      assert s[..2] == a[..2];
    }
    forall p | 0 < p <= |a| ensures !HeadingAt(s, p) {
      assert s[p - 1] == a[p - 1];
    }
    forall q | 0 <= q <= |t|
      ensures (HeadingAt(s, q + k) <==> HeadingAt(t, q)) && s[q + k..] == t[q..]
    {
      assert s[q + k..] == t[q..];
      if q > 0 {
        assert s[q + k - 1] == t[q - 1];
      } else {
        assert s[k - 1] == '\n';
      }
    }
  }

  /** The line-level scan finds the first heading of the joined text. */
  lemma {:induction false} JoinedFirstHeading(lines: seq<string>, p: int)
    requires |lines| >= 1 && NewlineFree(lines)
    requires FirstHeadingAt(Join(lines), p)
    ensures FirstHeading(lines) < |lines|
    ensures Join(lines[FirstHeading(lines)..]) == Join(lines)[p..]
  {
    var a := lines[0];
    if |lines| == 1 {
      SingleLineHeading(a);
    } else if !IsHeading(a) {
      var rest := lines[1..];
      var t := Join(rest);
      var k := |a| + 1;
      assert Join(lines) == a + "\n" + t;
      UnshiftedFirstHeading(a, t, p);
      JoinedFirstHeading(rest, p - k);
      assert FirstHeading(lines) == 1 + FirstHeading(rest);
      assert rest[FirstHeading(rest)..] == lines[FirstHeading(lines)..];
    } else {
      assert p == 0 by {
        HeadingsAfterFirstLine(a, Join(lines[1..]));
      }
    }
  }

  /** Behind a first line that is not a heading, the first heading of the
      whole text is the first heading of the rest. */
  lemma UnshiftedFirstHeading(a: string, t: string, p: int)
    requires OneLine(a) && !IsHeading(a)
    requires FirstHeadingAt(a + "\n" + t, p)
    ensures var k := |a| + 1;
      p >= k && FirstHeadingAt(t, p - k) && (a + "\n" + t)[p..] == t[p - k..]
  {
    var s := a + "\n" + t;
    var k := |a| + 1;
    HeadingsAfterFirstLine(a, t);
    forall q | 0 <= q < p - k ensures !HeadingAt(t, q) {
      assert !HeadingAt(s, q + k);
    }
  }

  /** Without a heading in the joined text the scan runs off the end. */
  lemma {:induction false} JoinedNoHeading(lines: seq<string>)
    requires |lines| >= 1 && NewlineFree(lines)
    requires forall p :: !HeadingAt(Join(lines), p)
    ensures FirstHeading(lines) == |lines|
  {
    var a := lines[0];
    if |lines| == 1 {
      SingleLineHeading(a);
      assert Join(lines) == a;
      assert !HeadingAt(a, 0);
      assert FirstHeading(lines[1..]) == 0;
    } else {
      var t := Join(lines[1..]);
      HeadingsAfterFirstLine(a, t);
      forall q ensures !HeadingAt(t, q) {
        if 0 <= q <= |t| {
          assert !HeadingAt(Join(lines), q + |a| + 1);
        }
      }
      JoinedNoHeading(lines[1..]);
    }
  }

  /** A heading position has a first heading position at or before it. */
  lemma {:induction false} FirstHeadingExists(s: string, p: int)
    requires HeadingAt(s, p)
    ensures exists q :: 0 <= q <= p && FirstHeadingAt(s, q)
    decreases p
  {
    if !FirstHeadingAt(s, p) {
      var q :| 0 <= q < p && HeadingAt(s, q);
      FirstHeadingExists(s, q);
    }
  }

  // ---- Properties of the stripper ----

  /** Empty in, empty out. */
  lemma StripEmpty()
    ensures Strip("") == ""
  {
  }

  /** When some line starts with `##`, the result is exactly the suffix of the
      input that begins with the first such line. */
  lemma StripAtFirstHeading(content: string, p: int)
    requires FirstHeadingAt(content, p)
    ensures Strip(content) == content[p..]
  {
    var lines := Split(content);
    JoinSplit(content);
    JoinedFirstHeading(lines, p);
  }

  /** When no line starts with `##`, everything is dropped. */
  lemma StripWithoutHeading(content: string)
    requires !HasHeading(content)
    ensures Strip(content) == ""
  {
    if content != "" {
      JoinSplit(content);
      JoinedNoHeading(Split(content));
    }
  }

  /** The result is empty exactly when no line starts with `##`; otherwise it
      is a suffix of the input that starts at a line boundary with `##`. */
  lemma StripIsHeadedSuffix(content: string)
    ensures Strip(content) == "" <==> !HasHeading(content)
    ensures EndsWith(content, Strip(content))
    ensures Strip(content) != "" ==> StartsWith(Strip(content), Marker)
    ensures Strip(content) != "" ==> LineStartsAt(content, |content| - |Strip(content)|)
  {
    if HasHeading(content) {
      var p :| HeadingAt(content, p);
      FirstHeadingExists(content, p);
      var q :| 0 <= q <= p && FirstHeadingAt(content, q);
      StripAtFirstHeading(content, q);
      assert |content| - |content[q..]| == q;
    } else {
      StripWithoutHeading(content);
    }
  }

  /** A text that already starts with `##` passes through unchanged. */
  lemma StripKeepsHeadedText(content: string)
    requires StartsWith(content, Marker)
    ensures Strip(content) == content
  {
    assert FirstHeadingAt(content, 0);
    StripAtFirstHeading(content, 0);
  }

  /** A first line that is not a heading is dropped, and stripping goes on
      with the rest of the text. */
  lemma StripSkipsLine(a: string, t: string)
    requires OneLine(a) && !IsHeading(a)
    ensures Strip(a + "\n" + t) == Strip(t)
  {
    if HasHeading(t) {
      var p0 :| HeadingAt(t, p0);
      FirstHeadingExists(t, p0);
      var p :| 0 <= p <= p0 && FirstHeadingAt(t, p);
      SkipLineToHeading(a, t, p);
    } else {
      SkipLineWithoutHeading(a, t);
    }
  }

  /** `StripSkipsLine` when the rest has its first heading at `p`. */
  lemma SkipLineToHeading(a: string, t: string, p: int)
    requires OneLine(a) && !IsHeading(a)
    requires FirstHeadingAt(t, p)
    ensures Strip(a + "\n" + t) == Strip(t)
  {
    var s := a + "\n" + t;
    var k := |a| + 1;
    ShiftedFirstHeading(a, t, p);
    calc {
      Strip(s);
      == { StripAtFirstHeading(s, p + k); }
      s[p + k..];
      ==
      t[p..];
      == { StripAtFirstHeading(t, p); }
      Strip(t);
    }
  }

  /** Behind a first line that is not a heading, the first heading of the
      rest is the first heading of the whole text. */
  lemma ShiftedFirstHeading(a: string, t: string, p: int)
    requires OneLine(a) && !IsHeading(a)
    requires FirstHeadingAt(t, p)
    ensures var s := a + "\n" + t;
      FirstHeadingAt(s, p + |a| + 1) && s[p + |a| + 1..] == t[p..]
  {
    var s := a + "\n" + t;
    var k := |a| + 1;
    HeadingsAfterFirstLine(a, t);
    forall q | 0 <= q < p + k ensures !HeadingAt(s, q) {
      if q >= k {
        assert !HeadingAt(t, q - k);
      }
    }
  }

  /** `StripSkipsLine` when the rest has no heading. */
  lemma SkipLineWithoutHeading(a: string, t: string)
    requires OneLine(a) && !IsHeading(a)
    requires !HasHeading(t)
    ensures Strip(a + "\n" + t) == Strip(t)
  {
    var s := a + "\n" + t;
    var k := |a| + 1;
    assert !HasHeading(s) by {
      HeadingsAfterFirstLine(a, t);
      forall q ensures !HeadingAt(s, q) {
        if q >= k && q <= |s| {
          assert !HeadingAt(t, q - k);
        }
      }
    }
    StripWithoutHeading(s);
    StripWithoutHeading(t);
  }

  /** Any number of leading lines that are not headings are dropped. */
  lemma {:induction false} StripDropsPreamble(preamble: seq<string>, rest: string)
    requires |preamble| >= 1 && NewlineFree(preamble)
    requires forall i :: 0 <= i < |preamble| ==> !IsHeading(preamble[i])
    ensures Strip(Join(preamble) + "\n" + rest) == Strip(rest)
  {
    var a := preamble[0];
    if |preamble| == 1 {
      StripSkipsLine(a, rest);
    } else {
      var tail := Join(preamble[1..]) + "\n" + rest;
      assert Join(preamble) + "\n" + rest == a + "\n" + tail;
      StripSkipsLine(a, tail);
      StripDropsPreamble(preamble[1..], rest);
    }
  }

  /** Stripping twice is stripping once. */
  lemma StripIdempotent(content: string)
    ensures Strip(Strip(content)) == Strip(content)
  {
    StripIsHeadedSuffix(content);
    if Strip(content) != "" {
      StripKeepsHeadedText(Strip(content));
    }
  }
}
