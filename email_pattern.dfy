/** The email test used by the registration form: the JavaScript regular
    expression \S+@\S+\.\S+ applied with RegExp.prototype.test, which is
    unanchored, so it succeeds when SOME substring of the input matches. */
module EmailPattern {

  /** The characters JavaScript's \s class matches: the ECMAScript WhiteSpace
      and LineTerminator code points. \S is its complement. */
  predicate IsSpace(c: char) {
    || c == ' ' || c == '\t' || c == '\n' || c == '\r'
    || c == '\U{000B}' || c == '\U{000C}' || c == '\U{00A0}' || c == '\U{1680}'
    || ('\U{2000}' <= c <= '\U{200A}')
    || c == '\U{2028}' || c == '\U{2029}' || c == '\U{202F}' || c == '\U{205F}'
    || c == '\U{3000}' || c == '\U{FEFF}'
  }

  /** s[lo..hi] matches \S+: a non-empty run of non-whitespace characters. */
  predicate NonSpaceRun(s: string, lo: int, hi: int)
    requires 0 <= lo <= hi <= |s|
  {
    lo < hi && forall k | lo <= k < hi :: !IsSpace(s[k])
  }

  /** The substring s[a..e] has the form x '@' y '.' z with x == s[a..b],
      y == s[b+1..d] and z == s[d+1..e], each matching \S+. */
  ghost predicate MatchesAt(s: string, a: int, b: int, d: int, e: int) {
    && 0 <= a < b && b + 1 < d && d + 1 < e <= |s|
    && NonSpaceRun(s, a, b) && s[b] == '@'
    && NonSpaceRun(s, b + 1, d) && s[d] == '.'
    && NonSpaceRun(s, d + 1, e)
  }

  /** Reference meaning of /\S+@\S+\.\S+/.test(s): some substring matches. */
  ghost predicate MatchesEmail(s: string) {
    exists a, b, d, e :: MatchesAt(s, a, b, d, e)
  }

  /** An '@' at b and a '.' at d that can be the ends of y in a match:
      the characters just outside them are not whitespace and s[b+1..d]
      matches \S+. */
  predicate AtDotPair(s: string, b: int, d: int) {
    && 0 < b && b + 1 < d && d + 1 < |s|
    && s[b] == '@' && s[d] == '.'
    && !IsSpace(s[b - 1]) && !IsSpace(s[d + 1])
    && NonSpaceRun(s, b + 1, d)
  }

  /** The test as the form computes it. A match can always be shrunk to one
      character of x before the '@' and one character of z after the '.',
      so it suffices to look for such an '@' and '.' pair. */
  predicate EmailTest(s: string) {
    exists b, d | 0 < b < d < |s| :: AtDotPair(s, b, d)
  }

  /** A shortest witness of the computed test is a match. */
  lemma {:induction false} EmailTestSound(s: string)
    requires EmailTest(s)
    ensures MatchesEmail(s)
  {
    var b, d :| 0 < b < d < |s| && AtDotPair(s, b, d);
    assert NonSpaceRun(s, b - 1, b);
    assert NonSpaceRun(s, d + 1, d + 2);
    assert MatchesAt(s, b - 1, b, d, d + 2);
  }

  /** Every match contains a witness of the computed test. */
  lemma {:induction false} EmailTestComplete(s: string)
    requires MatchesEmail(s)
    ensures EmailTest(s)
  {
    var a, b, d, e :| MatchesAt(s, a, b, d, e);
    assert !IsSpace(s[b - 1]) && !IsSpace(s[d + 1]);
    assert AtDotPair(s, b, d);
  }

  /** The computed test agrees with the regular expression on every string. */
  lemma EmailTestIsMatch(s: string)
    ensures EmailTest(s) <==> MatchesEmail(s)
  {
    if EmailTest(s) { EmailTestSound(s); }
    if MatchesEmail(s) { EmailTestComplete(s); }
  }

  /** "a@b.c" matches. */
  lemma ExampleSimpleAddress()
    ensures MatchesEmail("a@b.c")
  {
    assert MatchesAt("a@b.c", 0, 1, 3, 5);
  }

  /** "abc" has no '@', so it does not match. */
  lemma ExampleNoAt()
    ensures !MatchesEmail("abc")
  {
  }

  /** "x a@b.c" matches, because the test is not anchored at the start. */
  lemma ExampleUnanchored()
    ensures MatchesEmail("x a@b.c")
  {
    assert MatchesAt("x a@b.c", 2, 3, 5, 7);
  }

  /** "a @b.c" does not match: the character before every '@' is a space. */
  lemma ExampleSpaceBeforeAt()
    ensures !MatchesEmail("a @b.c")
  {
    var s := "a @b.c";
    EmailTestIsMatch(s);
    forall b, d | 0 < b < d < |s| ensures !AtDotPair(s, b, d) {
      assert s[b] == '@' ==> b == 2;
    }
  }
}
