/** Decimal integers as Python's `int(text)` reads them and `str(n)` writes them. */
module Decimal {
  import opened Wrappers
  import opened Text

  predicate IsDigit(c: char) {
    '0' <= c <= '9'
  }

  predicate AllDigits(s: string) {
    forall i | 0 <= i < |s| :: IsDigit(s[i])
  }

  function DigitValue(c: char): (d: nat)
    requires IsDigit(c)
    ensures d < 10
  {
    (c as int) - ('0' as int)
  }

  function DigitChar(d: nat): (c: char)
    requires d < 10
    ensures IsDigit(c) && DigitValue(c) == d
  {
    ((('0' as int) + d) as char)
  }

  /** The value of a string of decimal digits, most significant first (leading zeros allowed). */
  function DigitsValue(s: string): nat
    requires AllDigits(s)
  {
    if s == [] then 0 else 10 * DigitsValue(s[..|s| - 1]) + DigitValue(s[|s| - 1])
  }

  /** The spelling `str(n)` gives a natural number: digits only, no leading zero. */
  predicate Canonical(s: string) {
    |s| >= 1 && AllDigits(s) && (|s| > 1 ==> s[0] != '0')
  }

  /** Python's `str(n)` for `n >= 0`: the canonical spelling, which reads back as `n`. */
  function NatToString(n: nat): (r: string)
    ensures Canonical(r)
    ensures DigitsValue(r) == n
  {
    if n < 10 then [DigitChar(n)]
    else
      var init := NatToString(n / 10);
      var r := init + [DigitChar(n % 10)];
      assert r[..|r| - 1] == init;
      r
  }

  /** A digit string that does not start with `0` has a positive value. */
  lemma {:induction false} LeadingNonZeroPositive(s: string)
    requires |s| >= 1 && AllDigits(s) && s[0] != '0'
    ensures DigitsValue(s) >= 1
  {
    if |s| > 1 {
      LeadingNonZeroPositive(s[..|s| - 1]);
    }
  }

  /** Splitting off the last decimal digit of `10 * a + d`. */
  lemma LastDigit(a: nat, d: nat)
    requires d < 10
    ensures (10 * a + d) / 10 == a && (10 * a + d) % 10 == d
  {
  }

  /** Appending a digit to the spelling of a positive number spells ten times it plus the
      digit. */
  lemma NatToStringSnoc(init: string, c: char)
    requires AllDigits(init) && NatToString(DigitsValue(init)) == init && DigitsValue(init) >= 1
    requires IsDigit(c)
    ensures NatToString(10 * DigitsValue(init) + DigitValue(c)) == init + [c]
  {
    var v := 10 * DigitsValue(init) + DigitValue(c);
    LastDigit(DigitsValue(init), DigitValue(c));
    assert DigitChar(DigitValue(c)) == c;
  }

  /** The other direction of the round trip: every canonical spelling is the one `str` produces. */
  lemma {:induction false} CanonicalRoundTrip(s: string)
    requires Canonical(s)
    ensures NatToString(DigitsValue(s)) == s
  {
    var last := s[|s| - 1];
    if |s| == 1 {
      assert DigitChar(DigitValue(last)) == last;
    } else {
      var init := s[..|s| - 1];
      assert init[0] == s[0];
      LeadingNonZeroPositive(init);
      CanonicalRoundTrip(init);
      assert DigitsValue(s) == 10 * DigitsValue(init) + DigitValue(last);
      NatToStringSnoc(init, last);
      assert s == init + [last];
    }
  }

  /** `str(n)` is injective: distinct sizes have distinct spellings. */
  lemma NatToStringInjective(m: nat, n: nat)
    requires NatToString(m) == NatToString(n)
    ensures m == n
  {
  }

  /** The whitespace `int()` skips around a number: the ASCII characters tab, line feed,
      vertical tab, form feed, carriage return and space, and every non-ASCII character
      `str.isspace()` accepts. The information separators U+001C to U+001F, which
      `str.isspace()` also accepts, are not skipped. */
  predicate IsIntSpace(c: char) {
    IsSpace(c) && !IsSeparator(c)
  }

  predicate AllIntSpace(s: string) {
    forall i | 0 <= i < |s| :: IsIntSpace(s[i])
  }

  predicate IsSeparator(c: char) {
    '\U{1C}' <= c <= '\U{1F}'
  }

  /** The whitespace `str.strip()` would remove around `s`, before and after. */
  function Padding(s: string): (string, string) {
    var l := LeadingSpaces(s);
    var u := s[l..];
    (s[..l], u[|u| - TrailingSpaces(u)..])
  }

  /** The padding is whitespace, and it surrounds what `str.strip()` keeps. */
  lemma PaddingAround(s: string)
    ensures s == Padding(s).0 + Strip(s) + Padding(s).1
    ensures AllSpace(Padding(s).0) && AllSpace(Padding(s).1)
  {
    var l := LeadingSpaces(s);
    var u := s[l..];
    var k := TrailingSpaces(u);
    assert Padding(s) == (s[..l], u[|u| - k..]);
    assert Strip(s) == u[..|u| - k];
    SpacePrefix(s);
    SpaceSuffix(u);
    CutTwice(s, l, u, |u| - k);
  }

  /** Cutting `s` at `i`, then cutting the rest `u` at `j`, gives three parts that make up `s`. */
  lemma CutTwice(s: string, i: nat, u: string, j: nat)
    requires i <= |s| && u == s[i..] && j <= |u|
    ensures s == s[..i] + u[..j] + u[j..]
  {
    assert s == s[..i] + u;
    assert u == u[..j] + u[j..];
  }

  /** A string with no whitespace at either end has no padding. */
  lemma NoPadding(s: string)
    requires s == [] || (!IsSpace(s[0]) && !IsSpace(s[|s| - 1]))
    ensures Padding(s) == ([], []) && Strip(s) == s
  {
    StripUnpadded(s);
    assert s[0..] == s;
    assert s[|s|..] == [];
  }

  /** An information separator at either end of `s` lies in its padding. */
  lemma {:induction false} SeparatorInPadding(s: string)
    requires s != [] && (IsSeparator(s[0]) || IsSeparator(s[|s| - 1]))
    ensures !AllIntSpace(Padding(s).0) || !AllIntSpace(Padding(s).1)
  {
    var l := LeadingSpaces(s);
    var u := s[l..];
    var k := TrailingSpaces(u);
    if IsSeparator(s[0]) {
      assert s[..l][0] == s[0];
    } else if l == |s| {
      assert s[..l][|s| - 1] == s[|s| - 1];
    } else {
      assert u[|u| - 1] == s[|s| - 1];
      var w := u[|u| - k..];
      assert w[k - 1] == u[|u| - 1];
    }
  }

  /** What `int()` accepts once the surrounding whitespace is gone: an optional sign and at
      least one ASCII digit. A bare digit string reads as its value. */
  function ReadSigned(t: string): (r: Option<int>)
    ensures t != [] && AllDigits(t) ==> r == Some(DigitsValue(t))
  {
    if |t| >= 2 && (t[0] == '+' || t[0] == '-') && AllDigits(t[1..]) then
      var magnitude: int := DigitsValue(t[1..]);
      Some(if t[0] == '-' then -magnitude else magnitude)
    else if |t| >= 1 && AllDigits(t) then
      Some(DigitsValue(t))
    else
      None
  }

  /** Python's `int(text)` for base 10: surrounding whitespace is ignored, then an optional
      sign and at least one ASCII digit; anything else raises `ValueError` (`None`). The text
      `str.strip()` would leave is read; an information separator in the whitespace around it
      makes the call raise. */
  function ParseInt(s: string): (r: Option<int>)
    ensures s != [] && AllDigits(s) ==> r == Some(DigitsValue(s))
    ensures s != [] && (IsSeparator(s[0]) || IsSeparator(s[|s| - 1])) ==> r.None?
  {
    var padding := Padding(s);
    if !AllIntSpace(padding.0) || !AllIntSpace(padding.1) then
      None
    else
      assert s != [] && AllDigits(s) ==> padding == ([], []) && Strip(s) == s by {
        if s != [] && AllDigits(s) {
          assert IsDigit(s[0]) && IsDigit(s[|s| - 1]);
          NoPadding(s);
        }
      }
      assert !(s != [] && (IsSeparator(s[0]) || IsSeparator(s[|s| - 1]))) by {
        if s != [] && (IsSeparator(s[0]) || IsSeparator(s[|s| - 1])) {
          SeparatorInPadding(s);
        }
      }
      ReadSigned(Strip(s))
  }

  /** `int('')` raises. */
  lemma ReadEmpty()
    ensures ParseInt([]) == None
  {
    ReadUnpadded([]);
  }

  /** `int()` reads a canonical spelling as its value. */
  lemma ReadCanonical(s: string)
    requires Canonical(s)
    ensures ParseInt(s) == Some(DigitsValue(s) as int)
  {
  }

  /** Python's `str(i)` (and `f'{i}'`) for an integer: the canonical spelling of its
      magnitude, after a `-` when it is negative. */
  function IntToString(i: int): (r: string)
    ensures i >= 0 ==> Canonical(r) && DigitsValue(r) == i
    ensures i < 0 ==> |r| >= 2 && r[0] == '-' && Canonical(r[1..]) && DigitsValue(r[1..]) == -i
  {
    if i < 0 then
      var r := "-" + NatToString(-i);
      assert r[1..] == NatToString(-i);
      r
    else
      NatToString(i)
  }

  /** Without whitespace at either end, `int()` reads the text as it stands. */
  lemma ReadUnpadded(s: string)
    requires s == [] || (!IsSpace(s[0]) && !IsSpace(s[|s| - 1]))
    ensures ParseInt(s) == ReadSigned(s)
  {
    NoPadding(s);
  }

  /** A minus sign followed by digits reads as the negated value of the digits, once the
      surrounding whitespace is gone. */
  lemma ReadSignedNegative(m: string) returns (s: string)
    requires m != [] && AllDigits(m)
    ensures s == "-" + m && !IsSpace(s[0]) && !IsSpace(s[|s| - 1])
    ensures ReadSigned(s) == Some(-(DigitsValue(m) as int))
  {
    s := "-" + m;
    assert s[|s| - 1] == m[|m| - 1];
    assert s[1..] == m;
  }

  /** `int()` reads a minus sign followed by digits as the negated value of the digits. */
  lemma ReadNegative(m: string)
    requires m != [] && AllDigits(m)
    ensures ParseInt("-" + m) == Some(-(DigitsValue(m) as int))
  {
    var s := ReadSignedNegative(m);
    ReadUnpadded(s);
  }

  /** `int(str(i)) == i` for every integer. */
  lemma IntRoundTrip(i: int)
    ensures ParseInt(IntToString(i)) == Some(i)
  {
    if i < 0 {
      ReadNegative(NatToString(-i));
    }
  }

  /** A well-formed integer spelling never contains the letter `p`. */
  lemma IntToStringHasNoP(i: int)
    ensures 'p' !in IntToString(i)
  {
    var s := IntToString(i);
    if i < 0 {
      assert forall k | 1 <= k < |s| :: s[k] == s[1..][k - 1];
    }
  }
}
