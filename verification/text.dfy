/** The string operations the core relies on: `String.prototype.trim`,
    `toLowerCase`, `startsWith`, `includes`, and the email normalisation
    `email.trim().toLowerCase()` that every account path applies. */
module Text {
  import opened Outcomes

  /** ECMAScript WhiteSpace and LineTerminator code points: what `trim()`
      removes and what the regular-expression class `\s` matches. */
  predicate IsSpace(c: char) {
    || c == ' ' || c == '\t' || c == '\n' || c == '\r'
    || c == '\U{000B}' || c == '\U{000C}' || c == '\U{00A0}' || c == '\U{1680}'
    || ('\U{2000}' <= c <= '\U{200A}')
    || c == '\U{2028}' || c == '\U{2029}' || c == '\U{202F}' || c == '\U{205F}'
    || c == '\U{3000}' || c == '\U{FEFF}'
  }

  /** A missing field or the empty string: the optional strings `!value`
      rejects. */
  predicate IsFalsy(v: Option<string>) {
    v.None? || v.value == ""
  }

  /** The number of whitespace characters `s` starts with. */
  function LeadingSpaces(s: string): (k: nat)
    ensures k <= |s|
    ensures forall i :: 0 <= i < k ==> IsSpace(s[i])
    ensures k < |s| ==> !IsSpace(s[k])
  {
    if |s| == 0 || !IsSpace(s[0]) then 0 else 1 + LeadingSpaces(s[1..])
  }

  /** The number of whitespace characters `s` ends with. */
  function TrailingSpaces(s: string): (k: nat)
    ensures k <= |s|
    ensures forall i :: |s| - k <= i < |s| ==> IsSpace(s[i])
    ensures k < |s| ==> !IsSpace(s[|s| - k - 1])
  {
    if |s| == 0 || !IsSpace(s[|s| - 1]) then 0 else 1 + TrailingSpaces(s[..|s| - 1])
  }

  /** `s.trim()`: `s` without its leading and trailing whitespace. Neither end
      of the result is whitespace. */
  function Trim(s: string): (r: string)
    ensures |r| <= |s|
    ensures r == [] || (!IsSpace(r[0]) && !IsSpace(r[|r| - 1]))
  {
    var lead := LeadingSpaces(s);
    var t := s[lead..];
    t[..|t| - TrailingSpaces(t)]
  }

  /** `trim()` removes only whitespace from the ends: it returns the string
      itself when there is none, and the empty string exactly when the string
      is all whitespace. */
  lemma TrimRemovesOnlySpace(s: string)
    ensures (forall i :: 0 <= i < |s| ==> !IsSpace(s[i])) ==> Trim(s) == s
    ensures Trim(s) == [] <==> AllSpace(s)
  {
    var lead := LeadingSpaces(s);
    var t := s[lead..];
    if lead < |s| {
      // the first character kept is not whitespace, so something is kept
      assert t[0] == s[lead];
      assert TrailingSpaces(t) < |t|;
    }
  }

  /** Every character of `t` is whitespace. */
  predicate AllSpace(t: string) {
    forall i :: 0 <= i < |t| ==> IsSpace(t[i])
  }

  /** `s[a..b]` lies between a whitespace prefix and a whitespace suffix. */
  predicate SpaceAround(s: string, a: int, b: int) {
    0 <= a <= b <= |s| && AllSpace(s[..a]) && AllSpace(s[b..])
  }

  /** What `trim()` returns: the part of `s` between a whitespace prefix and a
      whitespace suffix. With the non-whitespace ends `Trim` ensures, this
      determines the result. */
  lemma TrimStripsSpace(s: string)
    ensures exists a, b :: SpaceAround(s, a, b) && Trim(s) == s[a..b]
  {
    var a := LeadingSpaces(s);
    var t := s[a..];
    var b := a + |t| - TrailingSpaces(t);
    assert Trim(s) == s[a..b];
    assert s[b..] == t[|t| - TrailingSpaces(t)..];
    assert SpaceAround(s, a, b);
  }

  /** Trimming a trimmed string changes nothing. */
  lemma TrimIdempotent(s: string)
    ensures Trim(Trim(s)) == Trim(s)
  {
    var r := Trim(s);
    assert LeadingSpaces(r) == 0;
    assert TrailingSpaces(r) == 0;
  }

  /** `toLowerCase` on one character. Only the ASCII letters are mapped. */
  function ToLowerChar(c: char): (d: char)
    ensures !('A' <= d <= 'Z')
    ensures IsSpace(d) <==> IsSpace(c)
    ensures 'A' <= c <= 'Z' ==> d as int == c as int - 'A' as int + 'a' as int
    ensures 'A' <= c <= 'Z' || d == c
  {
    if 'A' <= c <= 'Z' then (c as int - 'A' as int + 'a' as int) as char else c
  }

  /** `s.toLowerCase()`: same length, each character lower-cased. */
  function ToLower(s: string): (r: string)
    ensures |r| == |s|
    ensures forall i :: 0 <= i < |s| ==> r[i] == ToLowerChar(s[i])
  {
    if s == [] then [] else [ToLowerChar(s[0])] + ToLower(s[1..])
  }

  /** Lower-casing twice is lower-casing once. */
  lemma ToLowerIdempotent(s: string)
    ensures ToLower(ToLower(s)) == ToLower(s)
  {
  }

  /** A string normalisation leaves alone: no surrounding whitespace and no
      upper-case ASCII letter. */
  predicate IsNormalized(s: string) {
    && (s == [] || (!IsSpace(s[0]) && !IsSpace(s[|s| - 1])))
    && forall i :: 0 <= i < |s| ==> !('A' <= s[i] <= 'Z')
  }

  /** `email.trim().toLowerCase()`: the form in which every email is stored
      and looked up. It is empty exactly when the input is all whitespace. */
  function Normalize(email: string): (r: string)
    ensures |r| <= |email|
    ensures IsNormalized(r)
  {
    ToLower(Trim(email))
  }

  /** What normalisation returns: the lower-cased part of `email` between a
      whitespace prefix and a whitespace suffix, whose own ends are not
      whitespace. */
  lemma NormalizeLowerCasesCore(email: string)
    ensures exists a, b :: && SpaceAround(email, a, b)
                           && (a < b ==> !IsSpace(email[a]) && !IsSpace(email[b - 1]))
                           && Normalize(email) == ToLower(email[a..b])
  {
    TrimStripsSpace(email);
    var a, b :| SpaceAround(email, a, b) && Trim(email) == email[a..b];
    if a < b {
      assert email[a] == Trim(email)[0];
      assert email[b - 1] == Trim(email)[|Trim(email)| - 1];
    }
    assert Normalize(email) == ToLower(email[a..b]);
  }

  /** Normalisation changes nothing in a string already in normal form. */
  lemma NormalizedIsFixed(s: string)
    requires IsNormalized(s)
    ensures Normalize(s) == s
  {
    assert Trim(s) == s by {
      assert LeadingSpaces(s) == 0;
      assert TrailingSpaces(s) == 0;
    }
  }

  /** Normalising an already normalised email changes nothing, so the
      login page, which normalises before sending, and the authoriser, which
      normalises again, look up the same key. */
  lemma NormalizeIdempotent(email: string)
    ensures Normalize(Normalize(email)) == Normalize(email)
  {
    NormalizedIsFixed(Normalize(email));
  }

  /** `s.startsWith(p)`. */
  predicate StartsWith(s: string, p: string) {
    |p| <= |s| && s[..|p|] == p
  }

  /** `s.includes(sub)`: `sub` occurs somewhere in `s`. */
  predicate Contains(s: string, sub: string)
    decreases |s|
  {
    StartsWith(s, sub) || (|s| > 0 && Contains(s[1..], sub))
  }

  /** `includes` finds `sub` wherever it sits: it holds of any string built
      around an occurrence of `sub`. */
  lemma {:induction false} ContainsInfix(before: string, sub: string, after: string)
    ensures Contains(before + sub + after, sub)
  {
    var s := before + sub + after;
    if before == [] {
      assert s[..|sub|] == sub;
    } else {
      assert s[1..] == before[1..] + sub + after;
      ContainsInfix(before[1..], sub, after);
    }
  }

  /** A string lacking one of the characters of `sub` does not contain `sub`. */
  lemma {:induction false} MissingCharNotContained(s: string, sub: string, c: char)
    requires c in sub && c !in s
    ensures !Contains(s, sub)
  {
    if StartsWith(s, sub) {
      assert false;
    }
    if |s| > 0 {
      MissingCharNotContained(s[1..], sub, c);
    }
  }

  /** `sub` occurs in `s` starting at position `i`. */
  predicate OccursAt(s: string, sub: string, i: int) {
    0 <= i <= |s| - |sub| && s[i..i + |sub|] == sub
  }

  /** `includes` holds exactly when `sub` occurs at some position of `s`. */
  lemma {:induction false} ContainsIffOccurs(s: string, sub: string)
    ensures Contains(s, sub) <==> exists i :: OccursAt(s, sub, i)
  {
    if Contains(s, sub) {
      if StartsWith(s, sub) {
        assert OccursAt(s, sub, 0);
      } else {
        ContainsIffOccurs(s[1..], sub);
        var i :| OccursAt(s[1..], sub, i);
        assert s[1..][i..i + |sub|] == s[i + 1..i + 1 + |sub|];
        assert OccursAt(s, sub, i + 1);
      }
    }
    if exists i :: OccursAt(s, sub, i) {
      var i :| OccursAt(s, sub, i);
      assert s == s[..i] + sub + s[i + |sub|..];
      ContainsInfix(s[..i], sub, s[i + |sub|..]);
    }
  }

  /** The number of UTF-16 code units a character takes: two outside the
      Basic Multilingual Plane, one inside it. */
  function CodeUnits(c: char): (n: nat)
    ensures n == 1 || n == 2
  {
    if c as int >= 0x10000 then 2 else 1
  }

  /** `s.length`: the length in UTF-16 code units, which is at least the
      number of characters and at most twice it. */
  function Utf16Length(s: string): (n: nat)
    ensures |s| <= n <= 2 * |s|
  {
    if s == [] then 0 else CodeUnits(s[0]) + Utf16Length(s[1..])
  }

  /** A string of Basic Multilingual Plane characters has one code unit per
      character. */
  lemma {:induction false} Utf16LengthOfBmp(s: string)
    requires forall i :: 0 <= i < |s| ==> s[i] as int < 0x10000
    ensures Utf16Length(s) == |s|
  {
    if s != [] {
      Utf16LengthOfBmp(s[1..]);
    }
  }

  /** A string of characters outside the Basic Multilingual Plane (emoji, for
      instance) has two code units per character. */
  lemma {:induction false} Utf16LengthOfAstral(s: string)
    requires forall i :: 0 <= i < |s| ==> s[i] as int >= 0x10000
    ensures Utf16Length(s) == 2 * |s|
  {
    if s != [] {
      Utf16LengthOfAstral(s[1..]);
    }
  }
}
