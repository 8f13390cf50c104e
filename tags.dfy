/** The two rules main.py applies to a row's raw `Tags` column: the tag list
    handed to Clockify and the billable flag. */
module Tags {
  import opened Text

  const TagSeparator: char := ','
  const BillableMarker: string := "billable"
  const NonBillableMarker: string := "non-billable"

  /** `filter(lambda x: x.strip() != '', pieces)`: keeps the non-blank pieces,
      unchanged and in order. */
  function KeepNonBlank(pieces: seq<string>): (kept: seq<string>)
    ensures forall t :: t in kept ==> !IsBlank(t)
    ensures |kept| <= |pieces|
  {
    if pieces == [] then []
    else if IsBlank(pieces[0]) then KeepNonBlank(pieces[1..])
    else [pieces[0]] + KeepNonBlank(pieces[1..])
  }

  /** The `tags` list of a row: `Tags.split(',')` without the blank pieces.
      The pieces are not trimmed. */
  function SplitTags(tags: string): (r: seq<string>)
    ensures forall t :: t in r ==> !IsBlank(t)
    ensures |r| <= CountOf(tags, TagSeparator) + 1
  {
    KeepNonBlank(Split(tags, TagSeparator))
  }

  /** `xs` is `ys` with some elements left out, the rest in their order. */
  predicate IsSubsequence<T(==)>(xs: seq<T>, ys: seq<T>) {
    xs == [] ||
    (ys != [] && ((xs[0] == ys[0] && IsSubsequence(xs[1..], ys[1..])) || IsSubsequence(xs, ys[1..])))
  }

  lemma {:induction false} KeepNonBlankIsSubsequence(pieces: seq<string>)
    ensures IsSubsequence(KeepNonBlank(pieces), pieces)
  {
    if pieces != [] {
      KeepNonBlankIsSubsequence(pieces[1..]);
      if !IsBlank(pieces[0]) {
        assert ([pieces[0]] + KeepNonBlank(pieces[1..]))[1..] == KeepNonBlank(pieces[1..]);
      }
    }
  }

  lemma {:induction false} KeepNonBlankMultiplicity(pieces: seq<string>, t: string)
    ensures multiset(KeepNonBlank(pieces))[t] == if IsBlank(t) then 0 else multiset(pieces)[t]
  {
    if pieces != [] {
      var head, rest := pieces[0], pieces[1..];
      KeepNonBlankMultiplicity(rest, t);
      assert pieces == [head] + rest;
      var here := if head == t then 1 else 0;
      assert multiset(pieces)[t] == here + multiset(rest)[t];
      var kept := KeepNonBlank(rest);
      if IsBlank(head) {
        assert KeepNonBlank(pieces) == kept;
        assert IsBlank(t) || here == 0;
      } else {
        assert KeepNonBlank(pieces) == [head] + kept;
        assert multiset([head] + kept)[t] == here + multiset(kept)[t];
        assert !IsBlank(t) || here == 0;
      }
    }
  }

  /** The tag list is the split pieces in their original order, some left out. */
  lemma SplitTagsInOrder(tags: string)
    ensures IsSubsequence(SplitTags(tags), Split(tags, TagSeparator))
  {
    KeepNonBlankIsSubsequence(Split(tags, TagSeparator));
  }

  /** A blank piece never appears in the tag list; every non-blank piece
      appears as often as the split produced it. */
  lemma SplitTagsKeepsNonBlankPieces(tags: string, t: string)
    ensures multiset(SplitTags(tags))[t] ==
            if IsBlank(t) then 0 else multiset(Split(tags, TagSeparator))[t]
  {
    KeepNonBlankMultiplicity(Split(tags, TagSeparator), t);
  }

  /** A `Tags` value made only of commas and whitespace (the empty string
      included) gives no tags. */
  lemma BlankTagsGiveNoTags(tags: string)
    requires forall k :: 0 <= k < |tags| ==> tags[k] == TagSeparator || IsSpace(tags[k])
    ensures SplitTags(tags) == []
  {
    var pieces := Split(tags, TagSeparator);
    forall p | p in pieces ensures IsBlank(p) {
      forall k | 0 <= k < |p| ensures IsSpace(p[k]) {
        PieceCharsFromString(tags, TagSeparator, p, p[k]);
      }
      BlankIffAllSpace(p);
    }
    AllBlankKeepsNothing(pieces);
  }

  lemma {:induction false} AllBlankKeepsNothing(pieces: seq<string>)
    requires forall p :: p in pieces ==> IsBlank(p)
    ensures KeepNonBlank(pieces) == []
  {
    if pieces != [] {
      AllBlankKeepsNothing(pieces[1..]);
    }
  }

  /** `'billable' in Tags and 'non-billable' not in Tags`: a substring test
      on the raw column, not a test on the tag list. */
  predicate IsBillable(tags: string) {
    Contains(tags, BillableMarker) && !Contains(tags, NonBillableMarker)
  }

  /** The billable rule stated with substring positions. */
  lemma IsBillableIffOccurs(tags: string)
    ensures IsBillable(tags) <==>
            (exists i :: OccursAt(tags, BillableMarker, i)) &&
            !(exists j :: OccursAt(tags, NonBillableMarker, j))
  {
    ContainsIffOccurs(tags, BillableMarker);
    ContainsIffOccurs(tags, NonBillableMarker);
  }

  /** Any text containing "non-billable" also contains "billable". */
  lemma NonBillableContainsBillable(tags: string)
    requires Contains(tags, NonBillableMarker)
    ensures Contains(tags, BillableMarker)
  {
    assert OccursAt(NonBillableMarker, BillableMarker, 4);
    ContainsIffOccurs(NonBillableMarker, BillableMarker);
    ContainsTransitive(tags, NonBillableMarker, BillableMarker);
  }

  /** A "non-billable" tag makes the row non-billable, whatever other tags it has. */
  lemma NonBillableTagWins(tags: string)
    requires NonBillableMarker in SplitTags(tags)
    ensures !IsBillable(tags)
  {
    SplitTagsKeepsNonBlankPieces(tags, NonBillableMarker);
    PieceContained(tags, TagSeparator, NonBillableMarker);
  }

  /** A "billable" tag makes the row billable unless "non-billable" occurs
      anywhere in the column. */
  lemma BillableTagMakesBillable(tags: string)
    requires BillableMarker in SplitTags(tags)
    requires !Contains(tags, NonBillableMarker)
    ensures IsBillable(tags)
  {
    SplitTagsKeepsNonBlankPieces(tags, BillableMarker);
    PieceContained(tags, TagSeparator, BillableMarker);
  }

  /** The billable marker stays in the tag list next to the other tags.
      (The text is a parameter pinned to a literal: a literal argument would
      make the verifier unfold `Split` and `Contains` on it eagerly.) */
  lemma MarkerStaysInTags(tags: string)
    requires tags == "billable,client-x"
    ensures SplitTags(tags) == ["billable", "client-x"]
  {
    assert tags[8] == TagSeparator;
    NotBlankAt(tags[..8], 0);
    NotBlankAt(tags[9..], 0);
    TwoTags(tags, 8);
    assert tags[..8] == "billable" && tags[9..] == "client-x";
  }

  /** A column with one comma between two non-blank tags gives those two tags. */
  lemma TwoTags(tags: string, k: nat)
    requires k < |tags| && tags[k] == TagSeparator
    requires TagSeparator !in tags[..k] && TagSeparator !in tags[k + 1..]
    requires !IsBlank(tags[..k]) && !IsBlank(tags[k + 1..])
    ensures SplitTags(tags) == [tags[..k], tags[k + 1..]]
  {
    CutAt(tags, k);
    KeptAsSplit(tags[..k], tags[k + 1..]);
  }

  /** A string is what comes before position `k`, the character at `k`, and the rest. */
  lemma CutAt(s: string, k: nat)
    requires k < |s|
    ensures s[..k] + [s[k]] + s[k + 1..] == s
  {
    assert s[k..] == [s[k]] + s[k + 1..];
    assert s == s[..k] + s[k..];
  }

  lemma NotBlankAt(s: string, k: nat)
    requires k < |s| && !IsSpace(s[k])
    ensures !IsBlank(s)
  {
    BlankIffAllSpace(s);
  }

  /** Two non-blank, comma-free tags joined by a comma come back as they were. */
  lemma KeptAsSplit(a: string, b: string)
    requires TagSeparator !in a && TagSeparator !in b
    requires !IsBlank(a) && !IsBlank(b)
    ensures SplitTags(a + [TagSeparator] + b) == [a, b]
  {
    SplitJoin([a, b], TagSeparator);
    assert Join([a, b], TagSeparator) == a + [TagSeparator] + b;
    assert KeepNonBlank([b]) == [b];
    assert [a, b][1..] == [b];
  }

  /** "non-billable" beats "billable" even when both markers are tags (the
      text is pinned to a literal through a parameter, as in `MarkerStaysInTags`). */
  lemma BothMarkersNotBillable(tags: string)
    requires tags == "billable,non-billable"
    ensures SplitTags(tags) == [BillableMarker, NonBillableMarker]
    ensures !IsBillable(tags)
  {
    BothMarkersAreTags(tags);
    NonBillableOccurs(tags);
  }

  /** "non-billable" occurs in the column, at position 9. */
  lemma NonBillableOccurs(tags: string)
    requires tags == "billable,non-billable"
    ensures Contains(tags, NonBillableMarker)
  {
    assert tags[9..] == NonBillableMarker;
    assert OccursAt(tags, NonBillableMarker, 9);
    ContainsIffOccurs(tags, NonBillableMarker);
  }

  /** Both markers come out of the split as tags of their own. */
  lemma BothMarkersAreTags(tags: string)
    requires tags == "billable,non-billable"
    ensures SplitTags(tags) == [BillableMarker, NonBillableMarker]
  {
    assert tags[8] == TagSeparator;
    NotBlankAt(tags[..8], 0);
    NotBlankAt(tags[9..], 0);
    TwoTags(tags, 8);
    assert tags[..8] == BillableMarker && tags[9..] == NonBillableMarker;
  }

  /** An empty `Tags` column is not billable. */
  lemma EmptyTagsNotBillable()
    ensures !IsBillable("")
  {
  }

  /** A word that merely contains "billable" counts as the marker (the text
      is pinned to a literal through a parameter, as in `MarkerStaysInTags`). */
  lemma ContainingWordIsBillable(tags: string)
    requires tags == "unbillable"
    ensures IsBillable(tags)
  {
    assert OccursAt(tags, BillableMarker, 2);
    ContainsIffOccurs(tags, BillableMarker);
    ContainsIffOccurs(tags, NonBillableMarker);
  }
}
