/** The email check both authentication pages apply: the unanchored regular
    expression `/\S+@\S+\.\S+/`, where `\S` is any character that is not
    JavaScript whitespace. */
module EmailPattern {
  import opened Text

  /** The characters of `s` from `lo` up to (not including) `hi` are all
      non-whitespace and there is at least one of them: a match of `\S+`. */
  predicate SolidRun(s: string, lo: int, hi: int) {
    0 <= lo < hi <= |s| && forall k :: lo <= k < hi ==> !IsSpace(s[k])
  }

  /** The regular expression read literally: `s[p..at]`, `s[at+1..dot]` and
      `s[dot+1..q]` are the three `\S+` runs, `s[at]` is `@` and `s[dot]` is
      a `.`. */
  ghost predicate RegexMatchesAt(s: string, p: int, at: int, dot: int, q: int) {
    && SolidRun(s, p, at)
    && at < |s| && s[at] == '@'
    && SolidRun(s, at + 1, dot)
    && dot < |s| && s[dot] == '.'
    && SolidRun(s, dot + 1, q)
  }

  ghost predicate RegexMatches(s: string) {
    exists p, at, dot, q :: RegexMatchesAt(s, p, at, dot, q)
  }

  /** The shortest match around an `@` at `at` and a `.` at `dot`: one
      non-whitespace character before the `@`, a non-empty non-whitespace
      run up to the `.`, and one non-whitespace character after it. Since `@`
      and `.` are themselves non-whitespace, the whole window
      `s[at-1..dot+2]` is free of whitespace. */
  predicate EmailAt(s: string, at: int, dot: int) {
    && 1 <= at && at + 1 < dot && dot + 1 < |s|
    && s[at] == '@' && s[dot] == '.'
    && forall k :: at - 1 <= k <= dot + 1 ==> !IsSpace(s[k])
  }

  /** `/\S+@\S+\.\S+/.test(s)`. */
  predicate LooksLikeEmail(s: string) {
    exists at, dot | 0 <= at < |s| && 0 <= dot < |s| :: EmailAt(s, at, dot)
  }

  /** The window predicate is exactly the regular expression: every match of
      the three runs contains a shortest window, and every window is a match. */
  lemma LooksLikeEmailIffRegex(s: string)
    ensures LooksLikeEmail(s) <==> RegexMatches(s)
  {
    if LooksLikeEmail(s) {
      var at, dot :| 0 <= at < |s| && 0 <= dot < |s| && EmailAt(s, at, dot);
      assert RegexMatchesAt(s, at - 1, at, dot, dot + 2);
    }
    if RegexMatches(s) {
      var p, at, dot, q :| RegexMatchesAt(s, p, at, dot, q);
      assert EmailAt(s, at, dot) by {
        forall k | at - 1 <= k <= dot + 1 ensures !IsSpace(s[k]) {
          if k == at - 1 {
            assert SolidRun(s, p, at);      // last character of the first run
          } else if k == at {
            assert s[k] == '@';
          } else if k < dot {
            assert SolidRun(s, at + 1, dot); // inside the second run
          } else if k == dot {
            assert s[k] == '.';
          } else {
            assert SolidRun(s, dot + 1, q);  // first character of the third run
          }
        }
      }
    }
  }

  /** An address that passes the check is never blank, so its `trim()` is
      never empty. */
  lemma EmailIsNotBlank(s: string)
    ensures LooksLikeEmail(s) ==> !Blank(s)
  {
    if LooksLikeEmail(s) {
      var at, dot :| 0 <= at < |s| && 0 <= dot < |s| && EmailAt(s, at, dot);
      assert !IsSpace(s[at]);
    }
  }
}
