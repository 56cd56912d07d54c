/** Resolution discovery: the distinct numeric heights of the video-only streams, highest first. */
module Resolutions {
  import opened Wrappers
  import opened Decimal
  import opened Ordering

  /** A stream's `resolution` attribute: `None`, or a label such as `"720p"`. */
  type Label = Option<string>

  /** The exception `int()` raises on a label it cannot read. */
  datatype ResolutionError = ValueError(text: string)

  /** Python truthiness of the attribute: neither `None` nor the empty string. */
  predicate IsLabelled(resolution: Label) {
    resolution.Some? && resolution.value != ""
  }

  /** `resolution.replace('p', '')`: every `p` removed, the rest kept in order. */
  function RemoveP(s: string): (r: string)
    ensures 'p' !in r
    ensures multiset(r) == multiset(s)['p' := 0]
    ensures 'p' !in s ==> r == s
  {
    if s == [] then []
    else
      var init := s[..|s| - 1];
      var c := s[|s| - 1];
      assert s == init + [c];
      RemoveP(init) + (if c == 'p' then [] else [c])
  }

  /** `replace` works character by character: removing from a concatenation removes from
      each part, so the characters other than `p` keep their order. */
  lemma {:induction false} RemovePAppend(a: string, b: string)
    ensures RemoveP(a + b) == RemoveP(a) + RemoveP(b)
    decreases |b|
  {
    if b == [] {
      assert a + b == a;
    } else {
      var init := b[..|b| - 1];
      assert (a + b)[..|a + b| - 1] == a + init;
      RemovePAppend(a, init);
    }
  }

  /** A label made of `p`s alone is left empty by `replace`. */
  lemma OnlyPRemoved(s: string)
    ensures (forall i | 0 <= i < |s| :: s[i] == 'p') ==> RemoveP(s) == []
  {
    if forall i | 0 <= i < |s| :: s[i] == 'p' {
      assert multiset(s)['p' := 0] == multiset{} by {
        forall c | c != 'p' ensures c !in multiset(s) {}
      }
    }
  }

  /** `int(resolution.replace('p', ''))`, or `None` where Python raises `ValueError`. A label
      with no `p` is read as `int()` reads it, and a label that still holds no digit once the
      `p`s are gone cannot be read. */
  function ParseLabel(s: string): (r: Option<int>)
    ensures 'p' !in s ==> r == ParseInt(s)
    ensures (forall i | 0 <= i < |s| :: s[i] == 'p') ==> r.None?
  {
    var t := RemoveP(s);
    OnlyPRemoved(s);
    ReadEmpty();
    ParseInt(t)
  }

  /** How a label is read as a number. The view reads with `ParseLabel`; the lemmas
      about collecting hold for any reader. */
  type Reader = string -> Option<int>

  /** Every labelled stream's label can be read. */
  predicate AllParse(labels: seq<Label>, read: Reader) {
    forall i | 0 <= i < |labels| :: IsLabelled(labels[i]) ==> read(labels[i].value).Some?
  }

  /** The set the loop of `get_video_resolutions` builds: one value per readable labelled stream. */
  function LabelValues(labels: seq<Label>, read: Reader): (values: set<int>)
    ensures forall i | 0 <= i < |labels| && IsLabelled(labels[i]) && read(labels[i].value).Some? ::
      read(labels[i].value).value in values
  {
    if labels == [] then {}
    else
      var rest := LabelValues(labels[..|labels| - 1], read);
      var resolution := labels[|labels| - 1];
      if IsLabelled(resolution) && read(resolution.value).Some? then rest + {read(resolution.value).value}
      else rest
  }

  /** A value is collected exactly when some labelled stream's label reads as that value. */
  lemma {:induction false} LabelValuesMembers(labels: seq<Label>, read: Reader, v: int)
    ensures v in LabelValues(labels, read) <==>
      exists i | 0 <= i < |labels| :: IsLabelled(labels[i]) && read(labels[i].value) == Some(v)
  {
    if labels != [] {
      var init := labels[..|labels| - 1];
      LabelValuesMembers(init, read, v);
      assert forall i | 0 <= i < |init| :: init[i] == labels[i];
    }
  }

  /** Each stream adds at most one value, so there are never more resolutions than streams. */
  lemma {:induction false} LabelValuesSize(labels: seq<Label>, read: Reader)
    ensures |LabelValues(labels, read)| <= |labels|
  {
    if labels != [] {
      LabelValuesSize(labels[..|labels| - 1], read);
    }
  }

  /** Without labelled streams nothing is collected, and the result is the empty list. */
  lemma {:induction false} NoLabelsNoResolutions(labels: seq<Label>, read: Reader)
    requires forall i | 0 <= i < |labels| :: !IsLabelled(labels[i])
    ensures LabelValues(labels, read) == {}
    ensures SortedDesc(LabelValues(labels, read)) == []
  {
    if labels != [] {
      var init := labels[..|labels| - 1];
      assert forall i | 0 <= i < |init| :: init[i] == labels[i];
      NoLabelsNoResolutions(init, read);
    }
  }

  /** One more stream: how the collected set and the readability of a prefix grow. */
  lemma PrefixStep(labels: seq<Label>, read: Reader, i: nat)
    requires i < |labels|
    ensures LabelValues(labels[..i + 1], read) ==
      if IsLabelled(labels[i]) && read(labels[i].value).Some?
      then LabelValues(labels[..i], read) + {read(labels[i].value).value}
      else LabelValues(labels[..i], read)
    ensures AllParse(labels[..i + 1], read) <==>
      AllParse(labels[..i], read) && (IsLabelled(labels[i]) ==> read(labels[i].value).Some?)
  {
    var prefix := labels[..i + 1];
    assert prefix[..i] == labels[..i];
    assert forall k | 0 <= k <= i :: prefix[k] == labels[k];
  }

  /** Stream `i` is the first labelled stream whose label cannot be read. */
  predicate FirstUnreadable(labels: seq<Label>, read: Reader, i: int) {
    0 <= i < |labels| && AllParse(labels[..i], read) && IsLabelled(labels[i]) && read(labels[i].value).None?
  }

  /** Readability of all labels splits over a cut of the stream list. */
  lemma AllParseSplit(labels: seq<Label>, read: Reader, i: nat)
    requires i <= |labels|
    ensures AllParse(labels, read) <==> AllParse(labels[..i], read) && AllParse(labels[i..], read)
  {
    assert forall k | 0 <= k < i :: labels[..i][k] == labels[k];
    assert forall k | i <= k < |labels| :: labels[i..][k - i] == labels[k];
  }

  /** The loop and the sort of `get_video_resolutions`, for a given way of reading a label:
      collect the readable labels of labelled streams into a set, then sort it descending.
      The first labelled stream whose label cannot be read aborts the whole call. */
  method CollectResolutions(labels: seq<Label>, read: Reader) returns (r: Result<seq<int>, ResolutionError>)
    ensures r.Success? <==> AllParse(labels, read)
    ensures r.Success? ==> r.value == SortedDesc(LabelValues(labels, read))
    ensures r.Success? ==>
      StrictlyDescending(r.value) && forall v :: v in r.value <==> v in LabelValues(labels, read)
    ensures r.Failure? ==> exists i :: FirstUnreadable(labels, read, i) && r.error == ValueError(labels[i].value)
  {
    var resolutions: set<int> := {};
    var i := 0;
    while i < |labels|
      invariant 0 <= i <= |labels|
      invariant AllParse(labels[..i], read)
      invariant resolutions == LabelValues(labels[..i], read)
    {
      var resolution := labels[i];
      PrefixStep(labels, read, i);
      if IsLabelled(resolution) {
        var v := read(resolution.value);
        if v.None? {
          AllParseSplit(labels, read, i + 1);
          assert FirstUnreadable(labels, read, i);
          return Failure(ValueError(resolution.value));
        }
        resolutions := resolutions + {v.value};
      }
      i := i + 1;
    }
    assert labels[..i] == labels;
    return Success(SortedDesc(resolutions));
  }

  /** `get_video_resolutions` (the pytube query replaced by its streams' labels): every label
      is read as `int(label.replace('p', ''))`; the first one Python rejects raises `ValueError`. */
  method GetVideoResolutions(labels: seq<Label>) returns (r: Result<seq<int>, ResolutionError>)
    ensures r.Success? <==> AllParse(labels, ParseLabel)
    ensures r.Success? ==> r.value == SortedDesc(LabelValues(labels, ParseLabel))
    ensures r.Success? ==>
      StrictlyDescending(r.value) && forall v :: v in r.value <==> v in LabelValues(labels, ParseLabel)
    ensures r.Failure? ==>
      exists i :: FirstUnreadable(labels, ParseLabel, i) && r.error == ValueError(RemoveP(labels[i].value))
  {
    r := CollectResolutions(labels, ParseLabel);
    if r.Failure? {
      // Python's message quotes the argument of `int()`, the label after `replace`.
      r := Failure(ValueError(RemoveP(r.error.text)));
    }
  }

  /** The choice the form offers for resolution `r` (`f'{r}p'`): its one `p` is the last
      character. */
  function ChoiceLabel(r: int): (choice: string)
    ensures |choice| >= 2 && choice[|choice| - 1] == 'p'
    ensures 'p' !in choice[..|choice| - 1]
  {
    IntToStringHasNoP(r);
    var choice := IntToString(r) + "p";
    assert choice[..|choice| - 1] == IntToString(r);
    choice
  }

  /** Every offered choice reads back as the resolution it was made from. */
  lemma ChoiceLabelRoundTrip(r: int)
    ensures ParseLabel(ChoiceLabel(r)) == Some(r)
  {
    var s := IntToString(r);
    var t := ChoiceLabel(r);
    assert t[..|t| - 1] == s && t[|t| - 1] == 'p';
    assert RemoveP(t) == RemoveP(s);
    IntToStringHasNoP(r);
    assert RemoveP(s) == s;
    IntRoundTrip(r);
  }

  /** The choice labels of a resolution list, as stream labels. */
  function Choices(rs: seq<int>): seq<Label> {
    seq(|rs|, i requires 0 <= i < |rs| => Some(ChoiceLabel(rs[i])))
  }

  /** Labels that each read as the matching entry of a strictly descending list are collected
      and sorted back into exactly that list. */
  lemma {:induction false} CollectRoundTrip(labels: seq<Label>, read: Reader, rs: seq<int>)
    requires |labels| == |rs| && StrictlyDescending(rs)
    requires forall i | 0 <= i < |rs| :: IsLabelled(labels[i]) && read(labels[i].value) == Some(rs[i])
    ensures AllParse(labels, read)
    ensures SortedDesc(LabelValues(labels, read)) == rs
  {
    var sorted := SortedDesc(LabelValues(labels, read));
    forall v
      ensures v in sorted <==> v in rs
    {
      LabelValuesMembers(labels, read, v);
      if v in rs {
        var i :| 0 <= i < |rs| && rs[i] == v;
        assert IsLabelled(labels[i]) && read(labels[i].value) == Some(v);
      }
    }
    DescendingUnique(sorted, rs);
  }

  /** Reading the offered choices as stream labels gives back the list they were made from. */
  lemma ChoicesRoundTrip(rs: seq<int>)
    requires StrictlyDescending(rs)
    ensures AllParse(Choices(rs), ParseLabel)
    ensures SortedDesc(LabelValues(Choices(rs), ParseLabel)) == rs
  {
    var labels := Choices(rs);
    forall i | 0 <= i < |rs|
      ensures IsLabelled(labels[i]) && ParseLabel(labels[i].value) == Some(rs[i])
    {
      ChoiceLabelRoundTrip(rs[i]);
    }
    CollectRoundTrip(labels, ParseLabel, rs);
  }
}
