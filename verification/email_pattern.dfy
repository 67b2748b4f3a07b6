/**
 The email test applied to every CSV cell: the JavaScript regular expression
 `/\S+@\S+\.\S+/` (no anchors, no flags) and its `test` method.

 `ContainsEmailLike` is the form the rest of the model uses: it names the
 shortest match directly (one non-space character, '@', a non-space run,
 '.', one non-space character). `RegexTest` is the literal meaning of
 `test` for an unanchored pattern: some substring of the cell belongs to the
 pattern's language. `RegexTestIsContainsEmailLike` shows the two agree.
 */
module EmailPattern {

  /** JavaScript's `\s`: the WhiteSpace and LineTerminator characters of ECMAScript. */
  predicate IsSpace(c: char)
  {
    || c == '\t' || c == '\n' || c == '\U{000B}' || c == '\U{000C}' || c == '\r'
    || c == ' ' || c == '\U{00A0}' || c == '\U{1680}'
    || ('\U{2000}' <= c <= '\U{200A}')
    || c == '\U{2028}' || c == '\U{2029}' || c == '\U{202F}' || c == '\U{205F}'
    || c == '\U{3000}' || c == '\U{FEFF}'
  }

  /** A shortest match of `\S+@\S+\.\S+` sits at s[a-1..d+2]: '@' at a, '.' at d. */
  predicate EmailLikeAt(s: string, a: int, d: int)
  {
    && 1 <= a && a + 1 < d && d + 1 < |s|
    && s[a] == '@' && !IsSpace(s[a - 1])
    && (forall k | a < k < d :: !IsSpace(s[k]))
    && s[d] == '.' && !IsSpace(s[d + 1])
  }

  /** `/\S+@\S+\.\S+/.test(s)`. */
  predicate ContainsEmailLike(s: string)
  {
    exists a, d | 0 <= a < |s| && 0 <= d < |s| :: EmailLikeAt(s, a, d)
  }

  /** t is in the language of `\S+@\S+\.\S+`: t = u + "@" + v + "." + w with u, v, w non-empty runs of non-space. */
  ghost predicate InPatternLanguage(t: string)
  {
    && (forall k | 0 <= k < |t| :: !IsSpace(t[k]))
    && exists a, d | 0 <= a < |t| && 0 <= d < |t| ::
         1 <= a && a + 2 <= d && d + 2 <= |t| && t[a] == '@' && t[d] == '.'
  }

  /** The meaning of `test` for a pattern without anchors: a match starts and ends somewhere in s. */
  ghost predicate RegexTest(s: string)
  {
    exists i, j | 0 <= i <= j <= |s| :: InPatternLanguage(s[i..j])
  }

  /** A shortest match is itself a substring in the pattern's language. */
  lemma ShortestMatchIsRegexMatch(s: string, a: int, d: int)
    requires EmailLikeAt(s, a, d)
    ensures RegexTest(s)
  {
    var t := s[a - 1..d + 2];
    assert forall k | 0 <= k < |t| :: t[k] == s[a - 1 + k];
    assert t[1] == '@' && t[d - a + 1] == '.';
    assert InPatternLanguage(t);
  }

  /** Any substring in the pattern's language contains a shortest match. */
  lemma RegexMatchHasShortestMatch(s: string, i: int, j: int)
    requires 0 <= i <= j <= |s| && InPatternLanguage(s[i..j])
    ensures ContainsEmailLike(s)
  {
    var t := s[i..j];
    var a, d :| 0 <= a < |t| && 0 <= d < |t| && 1 <= a && a + 2 <= d && d + 2 <= |t| && t[a] == '@' && t[d] == '.';
    assert forall k | 0 <= k < |t| :: t[k] == s[i + k];
    assert EmailLikeAt(s, i + a, i + d);
  }

  /** The shortest-match predicate decides exactly the regular expression's `test`. */
  lemma RegexTestIsContainsEmailLike(s: string)
    ensures RegexTest(s) <==> ContainsEmailLike(s)
  {
    if ContainsEmailLike(s) {
      var a, d :| 0 <= a < |s| && 0 <= d < |s| && EmailLikeAt(s, a, d);
      ShortestMatchIsRegexMatch(s, a, d);
    }
    if RegexTest(s) {
      var i, j :| 0 <= i <= j <= |s| && InPatternLanguage(s[i..j]);
      RegexMatchHasShortestMatch(s, i, j);
    }
  }

  /** The pattern is unanchored: text around a matching cell does not stop it from matching. */
  lemma MatchSurvivesSurroundingText(prefix: string, s: string, suffix: string)
    requires ContainsEmailLike(s)
    ensures ContainsEmailLike(prefix + s + suffix)
  {
    var a, d :| 0 <= a < |s| && 0 <= d < |s| && EmailLikeAt(s, a, d);
    var t := prefix + s + suffix;
    assert forall k | 0 <= k < |s| :: t[|prefix| + k] == s[k];
    assert EmailLikeAt(t, |prefix| + a, |prefix| + d);
  }

  /** Any matching cell holds an '@' that is followed, later, by a '.', and is at least five characters long. */
  lemma MatchNeedsAtThenDot(s: string)
    requires ContainsEmailLike(s)
    ensures |s| >= 5
    ensures exists a, d | 0 <= a < d < |s| :: s[a] == '@' && s[d] == '.'
  {
    var a, d :| 0 <= a < |s| && 0 <= d < |s| && EmailLikeAt(s, a, d);
    assert s[a] == '@' && s[d] == '.';
  }

  /** Cells the pattern accepts although they are not email addresses, and a cell with text around an address. */
  lemma PermissiveMatches()
    ensures ContainsEmailLike("a@b.c")
    ensures ContainsEmailLike("a@..c")
    ensures ContainsEmailLike("contact: a@b.c")
  {
    assert EmailLikeAt("a@b.c", 1, 3);
    assert EmailLikeAt("a@..c", 1, 3);
    assert EmailLikeAt("contact: a@b.c", 10, 12);
  }

  /** Cells the pattern rejects: nothing before '@', nothing between '@' and '.', nothing after '.', a space inside. */
  lemma Rejections()
    ensures !ContainsEmailLike("@b.c")
    ensures !ContainsEmailLike("a@.c")
    ensures !ContainsEmailLike("a@b.")
    ensures !ContainsEmailLike("a @b.c")
  {
    forall a, d | 0 <= a < 4 && 0 <= d < 4 ensures !EmailLikeAt("@b.c", a, d) && !EmailLikeAt("a@.c", a, d) && !EmailLikeAt("a@b.", a, d) {
    }
    forall a, d | 0 <= a < 6 && 0 <= d < 6 ensures !EmailLikeAt("a @b.c", a, d) {
    }
  }
}
