/** Python's notion of whitespace, `str.strip()`, and maximal runs of characters. */
module Text {

  /** Python's `str.isspace()`: the characters `str.strip()` removes and the regular
      expression class `\s` matches in a `str` pattern (tab to carriage return,
      the four information separators, space, next line, no-break space, ogham space mark,
      the eleven spaces from en quad to hair space, the line and paragraph separators,
      narrow no-break space, medium mathematical space and ideographic space). */
  predicate IsSpace(c: char) {
    ('\t' <= c <= '\r') || ('\U{1C}' <= c <= ' ') || c == '\U{85}' || c == '\U{A0}'
    || c == '\U{1680}' || ('\U{2000}' <= c <= '\U{200A}') || c == '\U{2028}' || c == '\U{2029}'
    || c == '\U{202F}' || c == '\U{205F}' || c == '\U{3000}'
  }

  predicate AllSpace(s: string) {
    forall i | 0 <= i < |s| :: IsSpace(s[i])
  }

  /** Number of whitespace characters `s` starts with. */
  function LeadingSpaces(s: string): (k: nat)
    ensures k <= |s|
    ensures forall i | 0 <= i < k :: IsSpace(s[i])
    ensures k < |s| ==> !IsSpace(s[k])
  {
    if s == [] || !IsSpace(s[0]) then 0
    else
      var k' := LeadingSpaces(s[1..]);
      assert forall i | 1 <= i < 1 + k' :: s[i] == s[1..][i - 1];
      1 + k'
  }

  /** Number of whitespace characters `s` ends with. */
  function TrailingSpaces(s: string): (k: nat)
    ensures k <= |s|
    ensures forall i | |s| - k <= i < |s| :: IsSpace(s[i])
    ensures k < |s| ==> !IsSpace(s[|s| - 1 - k])
  {
    if s == [] || !IsSpace(s[|s| - 1]) then 0
    else
      var k' := TrailingSpaces(s[..|s| - 1]);
      assert forall i | |s| - 1 - k' <= i < |s| - 1 :: s[i] == s[..|s| - 1][i];
      1 + k'
  }

  /** `r` sits at offset `i` of `s` with only whitespace around it. */
  predicate StrippedAt(s: string, i: nat, r: string) {
    i + |r| <= |s| && s[i..i + |r|] == r && AllSpace(s[..i]) && AllSpace(s[i + |r|..])
  }

  /** Python's `str.strip()` with no argument: `s` without its leading and trailing whitespace. */
  function Strip(s: string): (r: string)
    ensures LeadingSpaces(s) + |r| <= |s|
    ensures r == s[LeadingSpaces(s)..LeadingSpaces(s) + |r|]
  {
    var l := LeadingSpaces(s);
    var t := s[l..];
    var r := t[..|t| - TrailingSpaces(t)];
    assert r == s[l..l + |r|];
    r
  }

  /** The whitespace a string starts with, as a string. */
  lemma SpacePrefix(s: string)
    ensures AllSpace(s[..LeadingSpaces(s)])
  {
    var k := LeadingSpaces(s);
    forall i | 0 <= i < k
      ensures IsSpace(s[..k][i])
    {
      assert s[..k][i] == s[i];
    }
  }

  /** The whitespace a string ends with, as a string. */
  lemma SpaceSuffix(s: string)
    ensures AllSpace(s[|s| - TrailingSpaces(s)..])
  {
    var k := TrailingSpaces(s);
    var u := s[|s| - k..];
    forall i | 0 <= i < k
      ensures IsSpace(u[i])
    {
      assert u[i] == s[|s| - k + i];
    }
  }

  /** `str.strip()` leaves nothing exactly when the string is all whitespace. */
  lemma StripEmpty(s: string)
    ensures Strip(s) == [] <==> AllSpace(s)
  {
    var l := LeadingSpaces(s);
    var t := s[l..];
    if l < |s| {
      assert t[0] == s[l];
      assert TrailingSpaces(t) < |t|;
    } else {
      assert s[..l] == s;
      SpacePrefix(s);
    }
  }

  /** What `str.strip()` leaves starts and ends with a character that is not whitespace. */
  lemma StripEnds(s: string)
    ensures Strip(s) != [] ==> !IsSpace(Strip(s)[0]) && !IsSpace(Strip(s)[|Strip(s)| - 1])
  {
    var l := LeadingSpaces(s);
    var t := s[l..];
    var k := TrailingSpaces(t);
    var r := t[..|t| - k];
    if r != [] {
      assert r[0] == t[0] == s[l];
      assert r[|r| - 1] == t[|t| - 1 - k];
    }
  }

  /** What `str.strip()` leaves is the stretch of `s` after its leading whitespace, with
      only whitespace after it. */
  lemma StripPosition(s: string)
    ensures StrippedAt(s, LeadingSpaces(s), Strip(s))
  {
    var l := LeadingSpaces(s);
    var t := s[l..];
    var k := TrailingSpaces(t);
    var r := Strip(s);
    assert |r| == |t| - k;
    assert s[l + |r|..] == t[|t| - k..];
    SpacePrefix(s);
    SpaceSuffix(t);
  }

  /** A string with no whitespace at either end is left alone by `str.strip()`. */
  lemma StripUnpadded(s: string)
    requires s == [] || (!IsSpace(s[0]) && !IsSpace(s[|s| - 1]))
    ensures LeadingSpaces(s) == 0 && TrailingSpaces(s) == 0
    ensures Strip(s) == s
  {
    var l := LeadingSpaces(s);
    assert l == 0;
    var k := TrailingSpaces(s);
    assert k == 0;
  }
}
