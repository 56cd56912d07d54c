/** The `Range` header pattern of the download view: `re.compile(r'bytes\s*=\s*(\d*)-(\d*)')`
    applied with `match`, so it must match at the start of the header and may leave a tail. */
module RangeHeader {
  import opened Wrappers
  import opened Text
  import opened Decimal

  /** Where a greedy `\s*` that starts at `i` stops: the first position at or after `i`
      that does not hold whitespace. The pattern is scanned by positions in one header, so
      the count `Text.LeadingSpaces` gives for a whole string is not enough here;
      `SkipSpacesFromStart` shows that the two agree at the start. */
  function SkipSpaces(s: string, i: nat): (j: nat)
    requires i <= |s|
    ensures i <= j <= |s|
    ensures forall q | i <= q < j :: IsSpace(s[q])
    ensures j < |s| ==> !IsSpace(s[j])
    decreases |s| - i
  {
    if i == |s| || !IsSpace(s[i]) then i else SkipSpaces(s, i + 1)
  }

  /** Skipping whitespace from the start of `s` stops after its leading whitespace. */
  lemma SkipSpacesFromStart(s: string)
    ensures SkipSpaces(s, 0) == LeadingSpaces(s)
  {
  }

  /** Where a greedy `(\d*)` that starts at `i` stops: the first position at or after `i`
      that does not hold an ASCII digit. */
  function SkipDigits(s: string, i: nat): (j: nat)
    requires i <= |s|
    ensures i <= j <= |s|
    ensures forall q | i <= q < j :: IsDigit(s[q])
    ensures j < |s| ==> !IsDigit(s[j])
    decreases |s| - i
  {
    if i == |s| || !IsDigit(s[i]) then i else SkipDigits(s, i + 1)
  }

  /** The two groups `(\d*)` captured by a successful match. */
  datatype Groups = Groups(first: string, second: string)

  /** `range_re.match(h)`: the literal `bytes`, whitespace, a mandatory `=`, whitespace, the
      first group, a mandatory `-`, the second group. Each `\s*` and `\d*` stops at a
      character the next part of the pattern cannot start with, so the greedy scan finds
      the match that the backtracking engine returns. */
  function MatchRange(h: string): (m: Option<Groups>)
    ensures m.Some? ==> AllDigits(m.value.first) && AllDigits(m.value.second)
  {
    if |h| < 5 || h[..5] != "bytes" then None
    else
      var i := SkipSpaces(h, 5);
      if i == |h| || h[i] != '=' then None
      else
        var j := SkipSpaces(h, i + 1);
        var k := SkipDigits(h, j);
        if k == |h| || h[k] != '-' then None
        else
          var l := SkipDigits(h, k + 1);
          DigitsBetween(h, j, k);
          DigitsBetween(h, k + 1, l);
          Some(Groups(h[j..k], h[k + 1..l]))
  }

  /** The characters from `i` to `j` are whitespace exactly when the slice between them is. */
  lemma SpacesBetween(s: string, i: nat, j: nat)
    requires i <= j <= |s|
    ensures AllSpace(s[i..j]) <==> forall q | i <= q < j :: IsSpace(s[q])
  {
    assert forall q | 0 <= q < j - i :: s[i..j][q] == s[i + q];
    assert forall q | i <= q < j :: s[q] == s[i..j][q - i];
  }

  /** The characters from `i` to `j` are digits exactly when the slice between them is. */
  lemma DigitsBetween(s: string, i: nat, j: nat)
    requires i <= j <= |s|
    ensures AllDigits(s[i..j]) <==> forall q | i <= q < j :: IsDigit(s[q])
  {
    assert forall q | 0 <= q < j - i :: s[i..j][q] == s[i + q];
    assert forall q | i <= q < j :: s[q] == s[i..j][q - i];
  }

  /** The match once the scan positions are known: `=` at `i`, the first group from `j`
      to `k`, and `-` at `k`. */
  lemma MatchAt(h: string, i: nat, j: nat, k: nat)
    requires |h| >= 5 && h[..5] == "bytes"
    requires i == SkipSpaces(h, 5) && i < |h| && h[i] == '='
    requires j == SkipSpaces(h, i + 1) && k == SkipDigits(h, j) && k < |h| && h[k] == '-'
    ensures MatchRange(h) == Some(Groups(h[j..k], h[k + 1..SkipDigits(h, k + 1)]))
  {
  }

  /** `h` is `bytes`, whitespace, `=`, whitespace, the digits `g1`, `-`, the digits `g2`, then `rest`:
      a way for the pattern to match a prefix of `h` with groups `g1` and `g2`. */
  predicate Parses(h: string, sp1: string, sp2: string, g1: string, g2: string, rest: string) {
    h == "bytes" + (sp1 + ("=" + (sp2 + (g1 + ("-" + (g2 + rest))))))
    && AllSpace(sp1) && AllSpace(sp2) && AllDigits(g1) && AllDigits(g2)
  }

  /** The positions the scan of a successful match stops at: `=` at `i`, whitespace before
      it and after it up to `j`, the first group from `j` to `k`, `-` at `k`, and the second
      group from `k + 1` to `l`, where no digit follows. */
  lemma MatchPositions(h: string) returns (i: nat, j: nat, k: nat, l: nat)
    requires MatchRange(h).Some?
    ensures 5 <= i < j <= k < l <= |h| && h[..5] == "bytes" && h[i] == '=' && h[k] == '-'
    ensures forall q | 5 <= q < i :: IsSpace(h[q])
    ensures forall q | i + 1 <= q < j :: IsSpace(h[q])
    ensures forall q | j <= q < k :: IsDigit(h[q])
    ensures forall q | k + 1 <= q < l :: IsDigit(h[q])
    ensures l == |h| || !IsDigit(h[l])
    ensures MatchRange(h).value == Groups(h[j..k], h[k + 1..l])
  {
    i := SkipSpaces(h, 5);
    j := SkipSpaces(h, i + 1);
    k := SkipDigits(h, j);
    l := SkipDigits(h, k + 1);
  }

  /** A header cut at the four positions the match scan stops at, around the `=` at `i` and
      the `-` at `k`. */
  lemma Pieces(h: string, i: nat, j: nat, k: nat, l: nat)
    requires 5 <= i < j <= k < l <= |h|
    ensures h == h[..5] + (h[5..i] + ([h[i]] + (h[i + 1..j] + (h[j..k] + ([h[k]] + (h[k + 1..l] + h[l..]))))))
  {
    assert h[k + 1..] == h[k + 1..l] + h[l..];
    assert h[k..] == [h[k]] + h[k + 1..];
    assert h[j..] == h[j..k] + h[k..];
    assert h[i + 1..] == h[i + 1..j] + h[j..];
    assert h[i..] == [h[i]] + h[i + 1..];
    assert h[5..] == h[5..i] + h[i..];
    assert h == h[..5] + h[5..];
  }

  /** The header cut at those positions is a parse whose rest does not start with a digit. */
  lemma PiecesParse(h: string, i: nat, j: nat, k: nat, l: nat)
    requires 5 <= i < j <= k < l <= |h| && h[..5] == "bytes" && h[i] == '=' && h[k] == '-'
    requires forall q | 5 <= q < i :: IsSpace(h[q])
    requires forall q | i + 1 <= q < j :: IsSpace(h[q])
    requires forall q | j <= q < k :: IsDigit(h[q])
    requires forall q | k + 1 <= q < l :: IsDigit(h[q])
    requires l == |h| || !IsDigit(h[l])
    ensures Parses(h, h[5..i], h[i + 1..j], h[j..k], h[k + 1..l], h[l..])
    ensures h[l..] == [] || !IsDigit(h[l..][0])
  {
    Pieces(h, i, j, k, l);
    assert [h[i]] == "=" && [h[k]] == "-";
    SpacesBetween(h, 5, i);
    SpacesBetween(h, i + 1, j);
    DigitsBetween(h, j, k);
    DigitsBetween(h, k + 1, l);
    assert h[l..] != [] ==> h[l..][0] == h[l];
  }

  /** A parse of `h` with groups `g1` and `g2` whose rest does not start with a digit. */
  lemma ParsedAs(h: string, sp1: string, sp2: string, g1: string, g2: string, rest: string)
    requires Parses(h, sp1, sp2, g1, g2, rest) && (rest == [] || !IsDigit(rest[0]))
    ensures exists sp1, sp2, rest :: Parses(h, sp1, sp2, g1, g2, rest) && (rest == [] || !IsDigit(rest[0]))
  {
  }

  /** The groups a scan finds at those positions belong to a parse whose rest does not start
      with a digit. */
  lemma ParseOfScan(h: string, i: nat, j: nat, k: nat, l: nat, g: Groups)
    requires 5 <= i < j <= k < l <= |h| && h[..5] == "bytes" && h[i] == '=' && h[k] == '-'
    requires forall q | 5 <= q < i :: IsSpace(h[q])
    requires forall q | i + 1 <= q < j :: IsSpace(h[q])
    requires forall q | j <= q < k :: IsDigit(h[q])
    requires forall q | k + 1 <= q < l :: IsDigit(h[q])
    requires l == |h| || !IsDigit(h[l])
    requires g == Groups(h[j..k], h[k + 1..l])
    ensures exists sp1, sp2, rest :: Parses(h, sp1, sp2, g.first, g.second, rest) && (rest == [] || !IsDigit(rest[0]))
  {
    PiecesParse(h, i, j, k, l);
    ParsedAs(h, h[5..i], h[i + 1..j], g.first, g.second, h[l..]);
  }

  /** A match is a parse of the header whose second group cannot be extended. */
  lemma MatchSound(h: string)
    requires MatchRange(h).Some?
    ensures exists sp1, sp2, rest ::
      Parses(h, sp1, sp2, MatchRange(h).value.first, MatchRange(h).value.second, rest)
      && (rest == [] || !IsDigit(rest[0]))
  {
    var i, j, k, l := MatchPositions(h);
    ParseOfScan(h, i, j, k, l, MatchRange(h).value);
  }

  /** A suffix of `s` that is the concatenation of `p` and `t` holds `p`, then `t`. */
  lemma Part(s: string, n: nat, p: string, t: string)
    requires n <= |s| && s[n..] == p + t
    ensures n + |p| <= |s| && s[n..n + |p|] == p && s[n + |p|..] == t
  {
    assert s[n..n + |p|] == s[n..][..|p|];
    assert s[n + |p|..] == s[n..][|p|..];
  }

  /** The front of a header `bytes`, `sp1`, `=`, `sp2`, then `c`. */
  lemma FrontAt(h: string, sp1: string, sp2: string, c: string)
    requires h == "bytes" + (sp1 + ("=" + (sp2 + c)))
    ensures h[..5] == "bytes" && h[5..5 + |sp1|] == sp1 && h[5 + |sp1|] == '='
    ensures h[5 + |sp1| + 1..5 + |sp1| + 1 + |sp2|] == sp2 && h[5 + |sp1| + 1 + |sp2|..] == c
  {
    var i := 5 + |sp1|;
    var b := sp2 + c;
    assert h[0..] == h;
    Part(h, 0, "bytes", sp1 + ("=" + b));
    Part(h, 5, sp1, "=" + b);
    Part(h, i, "=", b);
    assert h[i] == h[i..i + 1][0];
    Part(h, i + 1, sp2, c);
  }

  /** The groups part `g1`, `-`, `g2`, `rest` of a header, from position `j` on. */
  lemma GroupsAt(h: string, j: nat, g1: string, g2: string, rest: string) returns (k: nat)
    requires j <= |h| && h[j..] == g1 + ("-" + (g2 + rest))
    ensures k == j + |g1| && k + 1 + |g2| <= |h|
    ensures h[j..k] == g1 && h[k] == '-' && h[k + 1..k + 1 + |g2|] == g2
  {
    k := j + |g1|;
    Part(h, j, g1, "-" + (g2 + rest));
    Part(h, k, "-", g2 + rest);
    assert h[k] == h[k..k + 1][0];
    Part(h, k + 1, g2, rest);
  }

  /** Where the parts of `bytes`, `sp1`, `=`, `sp2`, `g1`, `-`, `g2`, `rest` sit in their
      concatenation `h`: `=` at `i`, `g1` from `j` to `k`, and `-` at `k`. */
  lemma PartsAt(h: string, sp1: string, sp2: string, g1: string, g2: string, rest: string)
      returns (i: nat, j: nat, k: nat)
    requires h == "bytes" + (sp1 + ("=" + (sp2 + (g1 + ("-" + (g2 + rest))))))
    ensures i == 5 + |sp1| && j == i + 1 + |sp2| && k == j + |g1| && k + 1 + |g2| <= |h|
    ensures h[..5] == "bytes" && h[5..i] == sp1 && h[i] == '=' && h[i + 1..j] == sp2
    ensures h[j..k] == g1 && h[k] == '-' && h[k + 1..k + 1 + |g2|] == g2
  {
    i, j := 5 + |sp1|, 5 + |sp1| + 1 + |sp2|;
    var c := g1 + ("-" + (g2 + rest));
    FrontAt(h, sp1, sp2, c);
    k := GroupsAt(h, j, g1, g2, rest);
  }

  /** Where the parts of a parse sit in the header, position by position: `=` at `i`,
      whitespace before it and after it up to `j`, where the first group starts with
      something that is not whitespace, the first group up to `k`, `-` at `k`, and the
      digits of the second group right after it. */
  lemma Located(h: string, sp1: string, sp2: string, g1: string, g2: string, rest: string)
      returns (i: nat, j: nat, k: nat)
    requires Parses(h, sp1, sp2, g1, g2, rest)
    ensures i == 5 + |sp1| && j == i + 1 + |sp2| && k == j + |g1| && k + 1 + |g2| <= |h|
    ensures h[..5] == "bytes" && h[i] == '=' && h[k] == '-'
    ensures forall q | 5 <= q < i :: IsSpace(h[q])
    ensures forall q | i + 1 <= q < j :: IsSpace(h[q])
    ensures !IsSpace(h[j])
    ensures forall q | j <= q < k :: IsDigit(h[q])
    ensures forall q | k + 1 <= q < k + 1 + |g2| :: IsDigit(h[q])
    ensures h[j..k] == g1 && h[k + 1..k + 1 + |g2|] == g2
  {
    i, j, k := PartsAt(h, sp1, sp2, g1, g2, rest);
    SpacesBetween(h, 5, i);
    SpacesBetween(h, i + 1, j);
    DigitsBetween(h, j, k);
    DigitsBetween(h, k + 1, k + 1 + |g2|);
    if j < k {
      assert h[j] == h[j..k][0] && IsDigit(h[j]);
    }
  }

  /** A run of whitespace from `i` to `j` that ends at a character that is not whitespace is
      skipped exactly. */
  lemma SkipSpacesExact(s: string, i: nat, j: nat)
    requires i <= j <= |s|
    requires forall q | i <= q < j :: IsSpace(s[q])
    requires j == |s| || !IsSpace(s[j])
    ensures SkipSpaces(s, i) == j
  {
  }

  /** A scan for digits from `i` gets at least past a run of digits that starts there. */
  lemma SkipDigitsPast(s: string, i: nat, j: nat)
    requires i <= j <= |s|
    requires forall q | i <= q < j :: IsDigit(s[q])
    ensures SkipDigits(s, i) >= j
  {
  }

  /** Where the scan of a parse stops: after the whitespace at the `=` at `i`, after the
      whitespace behind it at `j`, after the first group at the `-` at `k`, and after the
      second group no earlier than its end. */
  lemma ScanStops(h: string, sp1: string, sp2: string, g1: string, g2: string, rest: string)
      returns (i: nat, j: nat, k: nat)
    requires Parses(h, sp1, sp2, g1, g2, rest)
    ensures |h| >= 5 && h[..5] == "bytes"
    ensures i == SkipSpaces(h, 5) && i < |h| && h[i] == '='
    ensures j == SkipSpaces(h, i + 1) && k == SkipDigits(h, j) && k < |h| && h[k] == '-'
    ensures h[j..k] == g1 && k + 1 + |g2| <= SkipDigits(h, k + 1) && h[k + 1..k + 1 + |g2|] == g2
  {
    i, j, k := Located(h, sp1, sp2, g1, g2, rest);
    SkipSpacesExact(h, 5, i);
    SkipSpacesExact(h, i + 1, j);
    SkipDigitsPast(h, j, k);
    SkipDigitsPast(h, k + 1, k + 1 + |g2|);
  }

  /** A second group scanned to `l` from `n` on, past the digits `g2` found there, begins
      with `g2`. */
  lemma SecondExtends(h: string, n: nat, l: nat, g2: string)
    requires n + |g2| <= l <= |h| && h[n..n + |g2|] == g2
    ensures |g2| <= |h[n..l]| && h[n..l][..|g2|] == g2
  {
    assert h[n..l][..|g2|] == h[n..n + |g2|];
  }

  /** A scan that stops where a parse puts its parts finds that parse's first group, and a
      second group that begins with the parse's second group. */
  lemma MatchOfScan(h: string, i: nat, j: nat, k: nat, g1: string, g2: string)
    requires |h| >= 5 && h[..5] == "bytes"
    requires i == SkipSpaces(h, 5) && i < |h| && h[i] == '='
    requires j == SkipSpaces(h, i + 1) && k == SkipDigits(h, j) && k < |h| && h[k] == '-'
    requires h[j..k] == g1 && k + 1 + |g2| <= SkipDigits(h, k + 1) && h[k + 1..k + 1 + |g2|] == g2
    ensures MatchRange(h).Some?
    ensures MatchRange(h).value.first == g1
    ensures |g2| <= |MatchRange(h).value.second| && MatchRange(h).value.second[..|g2|] == g2
  {
    MatchAt(h, i, j, k);
    SecondExtends(h, k + 1, SkipDigits(h, k + 1), g2);
  }

  /** A prefix of the right shape is always found, with the same first group and a second
      group that extends the given one. */
  lemma MatchComplete(h: string, sp1: string, sp2: string, g1: string, g2: string, rest: string)
    requires Parses(h, sp1, sp2, g1, g2, rest)
    ensures MatchRange(h).Some?
    ensures MatchRange(h).value.first == g1
    ensures |g2| <= |MatchRange(h).value.second| && MatchRange(h).value.second[..|g2|] == g2
  {
    var i, j, k := ScanStops(h, sp1, sp2, g1, g2, rest);
    MatchOfScan(h, i, j, k, g1, g2);
  }

  /** The first group is digits only, so the view's `range_type == 'bytes'` never holds. */
  lemma RangeTypeNeverBytes(h: string)
    ensures MatchRange(h).None? || MatchRange(h).value.first != "bytes"
  {
    if MatchRange(h).Some? {
      var g := MatchRange(h).value.first;
      assert |g| > 0 ==> IsDigit(g[0]);
      assert !IsDigit("bytes"[0]);
    }
  }
}
