/**
 * The two regular expressions that select source images, read with
 * JavaScript semantics: `.` matches anything but a line terminator and
 * the `i` flag folds only ASCII letters here (p/P, n/N, g/G).
 */
module Patterns {

  predicate IsLineTerminator(c: char) {
    c == '\n' || c == '\r' || c == '\U{2028}' || c == '\U{2029}'
  }

  /** "png" in any letter case at index `k` of `s`. */
  predicate PngAt(s: string, k: int)
    requires 0 <= k <= |s| - 3
  {
    (s[k] == 'p' || s[k] == 'P') &&
    (s[k + 1] == 'n' || s[k + 1] == 'N') &&
    (s[k + 2] == 'g' || s[k + 2] == 'G')
  }

  /** `/.*\.png$/i`: the name ends in ".png", in any letter case. */
  predicate EndsWithPng(s: string) {
    |s| >= 4 && s[|s| - 4] == '.' && PngAt(s, |s| - 3)
  }

  /** `/.png/i`: somewhere in the name, one character (not a line terminator) followed by "png" in any case. */
  predicate ContainsPng(s: string) {
    exists k :: 1 <= k <= |s| - 3 && !IsLineTerminator(s[k - 1]) && PngAt(s, k)
  }

  /** Every name the strict pattern accepts, the loose one accepts too. */
  lemma EndsWithPngContainsPng(s: string)
    requires EndsWithPng(s)
    ensures ContainsPng(s)
  {
    assert !IsLineTerminator(s[|s| - 4]) && PngAt(s, |s| - 3);
  }
}
