/** The registration route's email check, the regular expression
    `^[^\s@]+@[^\s@]+\.[^\s@]+$`, stated once as what the pattern matches and
    once as a decision procedure, with a lemma that the two agree. */
module EmailFormat {
  import opened Text

  /** The character class `[^\s@]`. */
  predicate IsLabelChar(c: char) {
    !IsSpace(c) && c != '@'
  }

  /** `t` matches `[^\s@]*`. */
  predicate AllLabelChars(t: string) {
    forall i :: 0 <= i < |t| ==> IsLabelChar(t[i])
  }

  /** The pattern matches `s` with its `@` at position `at` and its `\.` at
      position `dot`: three non-empty runs of `[^\s@]` around them. */
  ghost predicate MatchesAt(s: string, at: int, dot: int) {
    && 0 < at && at + 1 < dot && dot + 1 < |s|
    && s[at] == '@' && s[dot] == '.'
    && AllLabelChars(s[..at]) && AllLabelChars(s[at + 1..dot]) && AllLabelChars(s[dot + 1..])
  }

  /** `s` matches `^[^\s@]+@[^\s@]+\.[^\s@]+$`. */
  ghost predicate MatchesEmailPattern(s: string) {
    exists at, dot :: MatchesAt(s, at, dot)
  }

  /** Position of the first `c` in `s`, or `|s|` when there is none. */
  function IndexOf(s: string, c: char): (k: nat)
    ensures k <= |s|
    ensures k < |s| ==> s[k] == c
    ensures forall m :: 0 <= m < k ==> s[m] != c
  {
    if s == [] then 0
    else if s[0] == c then 0
    else 1 + IndexOf(s[1..], c)
  }

  /** The domain part has a `.` with at least one character on either side. */
  predicate HasInnerDot(d: string) {
    exists j :: 0 < j < |d| - 1 && d[j] == '.'
  }

  /** `emailRegex.test(s)`, decided by splitting at the first `@`. */
  function IsValidEmail(s: string): bool {
    var at := IndexOf(s, '@');
    && 0 < at < |s|
    && AllLabelChars(s[..at])
    && AllLabelChars(s[at + 1..])
    && HasInnerDot(s[at + 1..])
  }

  /** The decision procedure accepts exactly the strings the pattern matches. */
  lemma IsValidEmailCorrect(s: string)
    ensures IsValidEmail(s) <==> MatchesEmailPattern(s)
  {
    var at := IndexOf(s, '@');
    if IsValidEmail(s) {
      var d := s[at + 1..];
      var j :| 0 < j < |d| - 1 && d[j] == '.';
      var dot := at + 1 + j;
      assert s[at + 1..dot] == d[..j];
      assert s[dot + 1..] == d[j + 1..];
      assert MatchesAt(s, at, dot);
    }
    if MatchesEmailPattern(s) {
      var a, dot :| MatchesAt(s, a, dot);
      assert at == a by {
        assert forall m :: 0 <= m < a ==> s[m] == s[..a][m];
      }
      var d := s[at + 1..];
      assert d == s[at + 1..dot] + [s[dot]] + s[dot + 1..];
      assert d[dot - (at + 1)] == '.';
      assert AllLabelChars(d);
    }
  }

  /** An email with surrounding whitespace is rejected unless it is trimmed
      first, which is why the route normalises before testing. */
  lemma SpaceIsRejected(s: string, i: int)
    requires 0 <= i < |s| && IsSpace(s[i])
    ensures !MatchesEmailPattern(s)
  {
    IsValidEmailCorrect(s);
    var at := IndexOf(s, '@');
    if i < at {
      assert s[..at][i] == s[i];
    } else if at < i {
      assert s[at + 1..][i - at - 1] == s[i];
    }
  }
}
