/** What one run does to the text of one existing target file: strip the
    text before its first `##` line, trim the surrounding whitespace, and
    merge the result after the template. */
module Pipeline {
  import opened Text
  import opened Lines
  import opened Heading
  import opened Whitespace
  import opened Merger

  /** The new content of a target whose current content is `content`. */
  function Insert(template: string, content: string): (r: string)
    ensures StartsWith(r, template)
    ensures |r| <= |template| + |Glue(template)| + |content|
  {
    Merge(template, Trim(Strip(content)))
  }

  /** A non-empty trimmed strip result still starts with the marker and ends
      with a character that is not whitespace. */
  lemma KeptTextShape(content: string)
    ensures var e := Trim(Strip(content));
      (e == "" <==> !HasHeading(content))
      && (e != "" ==> StartsWith(e, Marker) && !IsSpace(e[|e| - 1]))
  {
    var s := Strip(content);
    var e := Trim(s);
    assert s == "" <==> !HasHeading(content) by {
      StripIsHeadedSuffix(content);
    }
    assert Unpadded(e) by {
      TrimUnpadded(s);
    }
    if s == "" {
      assert e == "" by {
        TrimEmpty(s);
      }
    } else {
      TrimKeepsMarker(s);
    }
  }

  /** Trimming a text that starts with the marker keeps the marker. */
  lemma TrimKeepsMarker(s: string)
    requires StartsWith(s, Marker)
    ensures Trim(s) != "" && StartsWith(Trim(s), Marker)
  {
    var e := Trim(s);
    assert s[0] == '#' && s[1] == '#' by {
      assert s[..2] == Marker;
    }
    TrimKeepsUnpaddedStart(s);
    assert |e| >= 2;
    assert e[..2] == s[..2] by {
      assert e == s[..|e|];
    }
  }

  /** A text without any `##` line is discarded: the result is the template. */
  lemma InsertWithoutHeading(template: string, content: string)
    requires !HasHeading(content)
    ensures Insert(template, content) == template
  {
    KeptTextShape(content);
  }

  /** With a `##` line, the result is the template, the glue, and the text
      from the first such line on with its trailing whitespace removed. */
  lemma InsertAtFirstHeading(template: string, content: string, p: int)
    requires FirstHeadingAt(content, p)
    ensures var kept := Trim(content[p..]);
      kept != ""
      && StartsWith(content[p..], kept)
      && AllSpace(content[p + |kept|..])
      && Unmerge(template, Insert(template, content)) == Some(kept)
  {
    StripAtFirstHeading(content, p);
    var s := content[p..];
    HeadingAtChars(content, p);
    TrimKeepsUnpaddedStart(s);
    assert content[p + |Trim(s)|..] == s[|Trim(s)|..];
    UnmergeMerge(template, Trim(s));
  }

  /** A preamble of lines that are not `##` headings (a `#` title and
      introductory paragraphs, say) is replaced by the template, and a
      trimmed text that starts with `##` follows the separator. */
  lemma InsertReplacesPreamble(template: string, preamble: seq<string>, section: string)
    requires |preamble| >= 1 && NewlineFree(preamble)
    requires forall i :: 0 <= i < |preamble| ==> !IsHeading(preamble[i])
    requires StartsWith(section, Marker) && Unpadded(section)
    ensures Insert(template, Join(preamble) + "\n" + section) == Merge(template, section)
  {
    StripDropsPreamble(preamble, section);
    StripKeepsHeadedText(section);
    TrimFixesUnpadded(section);
  }

  /** A heading of the template stays a heading of anything it prefixes. */
  lemma HeadingInPrefix(t: string, m: string, q: int)
    requires StartsWith(m, t) && HeadingAt(t, q)
    ensures HeadingAt(m, q)
  {
    HeadingAtChars(t, q);
    HeadingAtChars(m, q);
    assert m[..|t|] == t;
    assert m[q] == t[q] && m[q + 1] == t[q + 1];
    assert q > 0 ==> m[q - 1] == t[q - 1];
  }

  /** In `t + g + e`, with `t` free of `##` lines, `g` free of `#` and ending
      in a newline, and `e` starting with `##`, the first heading is where
      `e` begins. */
  lemma FirstHeadingAfterGlue(t: string, g: string, e: string)
    requires !HasHeading(t)
    requires |g| > 0 && g[|g| - 1] == '\n'
    requires forall i :: 0 <= i < |g| ==> g[i] != '#'
    requires StartsWith(e, Marker)
    ensures FirstHeadingAt(t + g + e, |t| + |g|)
  {
    var m := t + g + e;
    var k := |t| + |g|;
    assert m[k - 1] == g[|g| - 1];
    assert m[k..] == e;
    HeadingAtChars(m, k);
    forall q | 0 <= q < k ensures !HeadingAt(m, q) {
      HeadingAtChars(m, q);
      HeadingAtChars(t, q);
      if q + 1 < |t| {
        assert !HeadingAt(t, q);
        assert m[q] == t[q] && m[q + 1] == t[q + 1];
        assert q > 0 ==> m[q - 1] == t[q - 1];
      } else if q < |t| {
        assert m[q + 1] == g[0];
      } else {
        assert m[q] == g[q - |t|];
      }
    }
  }

  /** With a template that has no `##` line, a merged document gives back
      the text it was merged with. */
  lemma ReinsertMerged(template: string, e: string)
    requires !HasHeading(template)
    requires StartsWith(e, Marker) && Unpadded(e)
    ensures Insert(template, Merge(template, e)) == Merge(template, e)
  {
    var g := Glue(template);
    var m := template + g + e;
    var k := |template| + |g|;
    calc {
      Insert(template, Merge(template, e));
      == { assert Merge(template, e) == m; }
      Merge(template, Trim(Strip(m)));
      == { FirstHeadingAfterGlue(template, g, e);
           StripAtFirstHeading(m, k);
           assert m[k..] == e; }
      Merge(template, Trim(e));
      == { TrimFixesUnpadded(e); }
      Merge(template, e);
    }
  }

  /** With a template that has no `##` line, running the tool a second time
      leaves the file as the first run wrote it. */
  lemma InsertIdempotent(template: string, content: string)
    requires !HasHeading(template)
    ensures Insert(template, Insert(template, content)) == Insert(template, content)
  {
    var e := Trim(Strip(content));
    KeptTextShape(content);
    if e == "" {
      InsertWithoutHeading(template, template);
    } else {
      TrimUnpadded(Strip(content));
      ReinsertMerged(template, e);
    }
  }

  /** In a text that starts with a template holding a `##` line, stripping
      keeps at least everything after the template. */
  lemma StripKeepsTemplateHeading(template: string, m: string)
    requires HasHeading(template) && StartsWith(m, template)
    ensures var s := Strip(m);
      |s| > |m| - |template| && EndsWith(m, s) && StartsWith(s, Marker)
  {
    var q :| HeadingAt(template, q);
    HeadingInPrefix(template, m, q);
    FirstHeadingExists(m, q);
    var q' :| 0 <= q' <= q && FirstHeadingAt(m, q');
    StripAtFirstHeading(m, q');
    StripIsHeadedSuffix(m);
  }

  /** With a template that has a `##` line, every second run makes the file
      longer: the template's own sections are kept as existing text. */
  lemma InsertGrowsWithHeadedTemplate(template: string, content: string)
    requires HasHeading(template)
    ensures |Insert(template, Insert(template, content))| > |Insert(template, content)|
  {
    var m := Insert(template, content);
    KeptTextGrows(template, content);
    MergeLonger(template, Trim(Strip(content)), Trim(Strip(m)));
  }

  /** The text a second run keeps is longer than the text the first run kept,
      when the template has a `##` line. */
  lemma KeptTextGrows(template: string, content: string)
    requires HasHeading(template)
    ensures |Trim(Strip(Insert(template, content)))| > |Trim(Strip(content))|
  {
    var e := Trim(Strip(content));
    var m := Insert(template, content);
    var s := Strip(m);
    assert m == Merge(template, e);
    assert |s| > |m| - |template| && EndsWith(m, s) && StartsWith(s, Marker) by {
      StripKeepsTemplateHeading(template, m);
    }
    if e == "" {
      TrimKeepsMarker(s);
    } else {
      assert EndsWith(m, e) && |m| == |template| + |Glue(template)| + |e|;
      assert !IsSpace(e[|e| - 1]) by {
        KeptTextShape(content);
      }
      SharedTailKept(m, s, e);
    }
  }

  /** A suffix that starts with the marker, of a text that ends in a
      non-whitespace character, is its own trim. */
  lemma SharedTailKept(m: string, s: string, e: string)
    requires EndsWith(m, s) && StartsWith(s, Marker)
    requires EndsWith(m, e) && e != "" && !IsSpace(e[|e| - 1])
    ensures Trim(s) == s
  {
    assert m[|m| - 1] == e[|e| - 1] by {
      assert m[|m| - |e|..][|e| - 1] == m[|m| - 1];
    }
    assert s[|s| - 1] == m[|m| - 1] by {
      assert m[|m| - |s|..][|s| - 1] == m[|m| - 1];
    }
    assert s[0] == '#' by {
      assert s[..2] == Marker;
      assert s[0] == s[..2][0];
    }
    assert !IsSpace('#');
    TrimFixesUnpadded(s);
  }

  /** A concrete template with a section heading: the second run differs. */
  lemma InsertNotIdempotentExample()
    ensures var t := "## Rules\n";
      Insert(t, "") == t && Insert(t, Insert(t, "")) != Insert(t, "")
  {
    var t := "## Rules\n";
    assert HeadingAt(t, 0);
    InsertGrowsWithHeadedTemplate(t, "");
  }
}
