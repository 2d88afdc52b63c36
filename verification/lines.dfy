/** Python's `s.split('\n')` and `'\n'.join(lines)`, the two halves the
    heading stripper puts a document through. */
module Lines {
  import opened Text

  /** A text with no newline: one line of a split. */
  predicate OneLine(s: string) {
    forall k :: 0 <= k < |s| ==> s[k] != '\n'
  }

  /** Every line is free of the separator. */
  ghost predicate NewlineFree(lines: seq<string>) {
    forall i :: 0 <= i < |lines| ==> OneLine(lines[i])
  }

  /** Where the first line of `s` ends: the position of its first newline,
      or `|s|` when it has none. */
  function LineEnd(s: string): (i: nat)
    ensures i <= |s|
    ensures i < |s| ==> s[i] == '\n'
    ensures forall j :: 0 <= j < i ==> s[j] != '\n'
  {
    if |s| == 0 || s[0] == '\n' then 0
    else 1 + LineEnd(s[1..])
  }

  /** `s.split('\n')`: the pieces between newlines. Like Python, a text
      without newlines (the empty text included) is one line, and a trailing
      newline leaves an empty last line. */
  function Split(s: string): (lines: seq<string>)
    ensures |lines| >= 1
    ensures NewlineFree(lines)
    decreases |s|
  {
    var i := LineEnd(s);
    if i == |s| then [s]
    else [s[..i]] + Split(s[i + 1..])
  }

  /** `'\n'.join(lines)`: the lines with one newline between neighbours. */
  function Join(lines: seq<string>): (r: string)
    ensures |lines| >= 1 ==> StartsWith(r, lines[0])
    ensures |lines| >= 1 ==> EndsWith(r, lines[|lines| - 1])
  {
    if |lines| == 0 then ""
    else if |lines| == 1 then lines[0]
    else
      var rest := Join(lines[1..]);
      var r := lines[0] + "\n" + rest;
      assert r[..|lines[0]|] == lines[0];
      assert lines[1..][|lines| - 2] == lines[|lines| - 1];
      EndsWithPrepend(lines[0] + "\n", rest, lines[|lines| - 1]);
      r
  }

  /** The lines from any index on join to a suffix of the whole join. */
  lemma {:induction false} JoinSuffix(lines: seq<string>, i: nat)
    requires i <= |lines|
    ensures EndsWith(Join(lines), Join(lines[i..]))
    decreases i
  {
    if i == 0 {
      assert lines[0..] == lines;
    } else if |lines| == 1 {
      assert lines[i..] == [];
    } else {
      var rest := lines[1..];
      var tail := Join(lines[i..]);
      assert EndsWith(Join(rest), tail) by {
        JoinSuffix(rest, i - 1);
        assert rest[i - 1..] == lines[i..];
      }
      EndsWithPrepend(lines[0] + "\n", Join(rest), tail);
    }
  }

  /** A line in front of at least one line is followed by a newline. */
  lemma JoinCons(line: string, rest: seq<string>)
    requires |rest| >= 1
    ensures Join([line] + rest) == line + "\n" + Join(rest)
  {
    assert ([line] + rest)[1..] == rest;
  }

  /** The first line ends at the first newline, and only there. */
  lemma LineEndUnique(s: string, i: int)
    requires 0 <= i <= |s|
    requires i < |s| ==> s[i] == '\n'
    requires forall j :: 0 <= j < i ==> s[j] != '\n'
    ensures LineEnd(s) == i
  {
  }

  /** A text splits at a newline that has no newline before it. */
  lemma SplitAt(s: string, i: int)
    requires 0 <= i < |s| && s[i] == '\n'
    requires forall j :: 0 <= j < i ==> s[j] != '\n'
    ensures Split(s) == [s[..i]] + Split(s[i + 1..])
  {
    LineEndUnique(s, i);
  }

  /** A text without newlines is a single line. */
  lemma SplitSingleLine(s: string)
    requires OneLine(s)
    ensures Split(s) == [s]
  {
    LineEndUnique(s, |s|);
  }

  /** Joining what was split gives back the original text. */
  lemma {:induction false} JoinSplit(s: string)
    ensures Join(Split(s)) == s
    decreases |s|
  {
    var i := LineEnd(s);
    if i < |s| {
      var x, r := s[..i], s[i + 1..];
      calc {
        Join(Split(s));
        == { SplitAt(s, i); }
        Join([x] + Split(r));
        == { JoinCons(x, Split(r)); }
        x + "\n" + Join(Split(r));
        == { JoinSplit(r); }
        x + "\n" + r;
        == { assert s == x + "\n" + r; }
        s;
      }
    }
  }

  /** There is one more line than there are newlines. */
  lemma {:induction false} SplitLineCount(s: string)
    ensures |Split(s)| == Newlines(s) + 1
    decreases |s|
  {
    var i := LineEnd(s);
    if i < |s| {
      SplitLineCount(s[i + 1..]);
      assert s == s[..i] + "\n" + s[i + 1..];
      assert multiset(s) == multiset(s[..i]) + multiset("\n") + multiset(s[i + 1..]);
      assert '\n' !in s[..i];
    } else {
      assert '\n' !in s;
    }
  }

  /** Splitting at a newline splits the two sides independently. */
  lemma {:induction false} SplitAppend(a: string, b: string)
    ensures Split(a + "\n" + b) == Split(a) + Split(b)
    decreases |a|
  {
    var i := LineEnd(a);
    if i < |a| {
      SplitAppend(a[i + 1..], b);
      SplitAppendAfterLine(a, b, i);
    } else {
      SplitAppendLine(a, b);
    }
  }

  /** `SplitAppend` when `a` is a single line. */
  lemma SplitAppendLine(a: string, b: string)
    requires OneLine(a)
    ensures Split(a + "\n" + b) == [a] + Split(b)
  {
    var s := a + "\n" + b;
    assert s[..|a|] == a && s[|a|] == '\n' && s[|a| + 1..] == b;
    SplitAt(s, |a|);
    SplitSingleLine(a);
  }

  /** The inductive step of `SplitAppend`, from the rest after `a`'s first line. */
  lemma SplitAppendAfterLine(a: string, b: string, i: int)
    requires 0 <= i < |a| && a[i] == '\n'
    requires forall j :: 0 <= j < i ==> a[j] != '\n'
    requires Split(a[i + 1..] + "\n" + b) == Split(a[i + 1..]) + Split(b)
    ensures Split(a + "\n" + b) == Split(a) + Split(b)
  {
    var x, r := a[..i], a[i + 1..];
    assert Split(a + "\n" + b) == [x] + Split(r + "\n" + b) by {
      SplitAtJoined(a, b, i);
    }
    assert Split(a) == [x] + Split(r) by {
      SplitAt(a, i);
    }
    Regroup(x, Split(r), Split(b), Split(a + "\n" + b), Split(a));
  }

  /** A line in front of two runs of lines is the line in front of the first
      run, followed by the second. */
  lemma Regroup(x: string, l1: seq<string>, l2: seq<string>, whole: seq<string>, front: seq<string>)
    requires whole == [x] + (l1 + l2) && front == [x] + l1
    ensures whole == front + l2
  {
  }

  /** The first line of `a + "\n" + b` is the first line of `a` when `a` has a newline. */
  lemma SplitAtJoined(a: string, b: string, i: int)
    requires 0 <= i < |a| && a[i] == '\n'
    requires forall j :: 0 <= j < i ==> a[j] != '\n'
    ensures Split(a + "\n" + b) == [a[..i]] + Split(a[i + 1..] + "\n" + b)
  {
    var s := a + "\n" + b;
    assert s[..i] == a[..i] && s[i] == '\n';
    assert s[i + 1..] == a[i + 1..] + "\n" + b;
    SplitAt(s, i);
  }

  /** Splitting what was joined gives back the lines, provided they hold no
      newline themselves (and there is at least one: `''.split('\n')` is `['']`). */
  lemma {:induction false} SplitJoin(lines: seq<string>)
    requires |lines| >= 1
    requires NewlineFree(lines)
    ensures Split(Join(lines)) == lines
  {
    if |lines| > 1 {
      var rest := lines[1..];
      calc {
        Split(Join(lines));
        ==
        Split(lines[0] + "\n" + Join(rest));
        == { SplitAppend(lines[0], Join(rest)); }
        Split(lines[0]) + Split(Join(rest));
        == { SplitSingleLine(lines[0]); SplitJoin(rest); }
        [lines[0]] + rest;
        ==
        lines;
      }
    } else {
      SplitSingleLine(lines[0]);
    }
  }
}
