/** Small vocabulary about strings shared by the other modules.
    A `string` is a `seq<char>`; Python's `str.startswith` and
    `str.endswith` become the predicates below. */
module Text {

  /** `s.startswith(prefix)`; the same as Dafny's sequence prefix order `prefix <= s`. */
  predicate StartsWith(s: string, prefix: string) {
    |prefix| <= |s| && s[..|prefix|] == prefix
  }

  /** `s.endswith(suffix)`. */
  predicate EndsWith(s: string, suffix: string) {
    |suffix| <= |s| && s[|s| - |suffix|..] == suffix
  }

  /** The number of newlines in `s`. */
  function Newlines(s: string): nat {
    multiset(s)['\n']
  }

  /** Whatever ends `s` also ends `s` with text put in front of it. */
  lemma EndsWithPrepend(p: string, s: string, suffix: string)
    requires EndsWith(s, suffix)
    ensures EndsWith(p + s, suffix)
  {
    assert (p + s)[|p + s| - |suffix|..] == s[|s| - |suffix|..];
  }
}
