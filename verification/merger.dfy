/** The content merger: the template comes first and is never altered; when
    surviving existing text remains it follows after a horizontal-rule
    separator, with one newline added first when the template does not
    already end in one. */
module Merger {
  import opened Text

  /** A value that may be absent. */
  datatype Option<T> = None | Some(value: T)

  /** The separator block: a newline, a `---` rule line, and a blank line. */
  const Separator: string := "\n---\n\n"

  /** What goes between the template and the existing text: the newline the
      template may lack, then the separator block. */
  function Glue(template: string): (g: string)
    ensures EndsWith(g, Separator)
    ensures |g| == |Separator| || (|g| == |Separator| + 1 && g[0] == '\n')
    ensures |g| == |Separator| <==> EndsWith(template, "\n")
    ensures forall i :: 0 <= i < |g| ==> g[i] == '\n' || g[i] == '-'
  {
    if EndsWith(template, "\n") then Separator else "\n" + Separator
  }

  /** The merge block: the template alone when `existing` is empty, otherwise
      the template, the glue, and `existing`. */
  function Merge(template: string, existing: string): (r: string)
    ensures existing == "" ==> r == template
    ensures StartsWith(r, template)
    ensures existing != "" ==> EndsWith(r, existing)
    ensures existing != "" ==> |r| == |template| + |Glue(template)| + |existing|
  {
    if existing == "" then template
    else
      var r := template + Glue(template) + existing;
      assert r[..|template|] == template;
      assert r[|r| - |existing|..] == existing;
      r
  }

  /** Where the separator sits in a merge with non-empty existing text:
      right after the template, or after the template and one added newline
      when the template does not end in one, so that the separator always
      starts on a fresh line; and right before the existing text. */
  lemma MergeLayout(template: string, existing: string)
    requires existing != ""
    ensures var r := Merge(template, existing);
      var n := if EndsWith(template, "\n") then |template| else |template| + 1;
      0 < n <= |r| && r[n - 1] == '\n' && r[n..] == Separator + existing
  {
    var g := Glue(template);
    var r := template + g + existing;
    assert Merge(template, existing) == r;
    if EndsWith(template, "\n") {
      assert g == Separator;
      assert r[|template| - 1] == template[|template| - 1];
      assert r[|template|..] == Separator + existing;
    } else {
      assert g == "\n" + Separator;
      assert r[|template|] == '\n';
      assert r[|template| + 1..] == Separator + existing;
    }
  }

  /** Recovers the existing text from a merged document, given the template:
      the inverse of `Merge` for a fixed template. */
  function Unmerge(template: string, merged: string): (e: Option<string>)
    ensures e.Some? ==> StartsWith(merged, template)
  {
    if merged == template then Some("")
    else
      var n := |template| + |Glue(template)|;
      if n < |merged| && merged[..n] == template + Glue(template)
      then
        assert merged[..|template|] == merged[..n][..|template|];
        Some(merged[n..])
      else None
  }

  /** Unmerging a merge returns the existing text. */
  lemma UnmergeMerge(template: string, existing: string)
    ensures Unmerge(template, Merge(template, existing)) == Some(existing)
  {
    if existing != "" {
      var r := Merge(template, existing);
      var n := |template| + |Glue(template)|;
      assert r[..n] == template + Glue(template);
      assert r[n..] == existing;
    }
  }

  /** A merged document is recognised only if it is the merge it claims. */
  lemma MergeUnmerge(template: string, merged: string)
    requires Unmerge(template, merged).Some?
    ensures Merge(template, Unmerge(template, merged).value) == merged
  {
    if merged != template {
      var n := |template| + |Glue(template)|;
      assert merged == merged[..n] + merged[n..];
    }
  }

  /** A longer existing text gives a longer merge. */
  lemma MergeLonger(template: string, e1: string, e2: string)
    requires |e1| < |e2|
    ensures |Merge(template, e1)| < |Merge(template, e2)|
  {
  }
}
