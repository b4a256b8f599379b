/** The other half: when one name ends with the other, some text keeps a citation of the old name. */
module RefResidue {
  import opened Wrappers
  import opened Text
  import opened Naming
  import opened Rewriting
  import opened Citations
  import opened RecordNames
  import opened RefPlan
  import opened RefApply
  import opened RefClean
  import opened Masking
  import opened Links
  import opened Unmasking
  import opened UnmaskExact

  // ----- a text masking does not touch -----

  predicate Bare(c: char) {
    c != NUL && c != '/' && c != '[' && c != '`' && c != '~' && !IsSpace(c) && !IsLineBreak(c)
  }

  predicate AllBare(s: string) {
    s != "" && forall c | c in s :: Bare(c)
  }

  lemma BareIsNotMasked(text: string)
    requires AllBare(text)
    ensures NUL !in text && Fenced(text) == Masked([], text) && FencedText(text) == text
    ensures Linked(text) == Masked([], text) && !Foreign(text) && MaskedText(text) == text
    ensures Regions(text) == [Free(text)]
  {
    BareLines(text);
    BareLinks(text);
    assert NUL !in text;
    NulFreeIsQuiet(Link, text, "");
    NulFreeIsQuiet(Fence, text, "");
    assert text + "" == text && "" + "" == "";
    PlainPartIs(text, "", "");
    BareRegions(text);
  }

  lemma BareLines(text: string)
    requires AllBare(text)
    ensures Fenced(text) == Masked([], text)
  {
    BareIsNoFence(text);
    assert forall c | c in text :: !IsLineBreak(c);
    hide *;
    SplitLast(text);
    FencedLines(text);
    FenceStep(text, [], "", "", '`');
    assert [text] + [] == [text] && "" + text == text;
    NoMoreLines(text);
  }

  lemma BareIsNoFence(text: string)
    requires AllBare(text)
    ensures text != "" && FenceMarker(text).None?
  {
    assert Bare(text[0]);
    assert LStrip(text) == text;
  }

  lemma FencedLines(text: string)
    ensures Fenced(text) == FenceCuts(SplitLines(text), "")
  {
  }

  lemma NoMoreLines(plain: string)
    ensures FenceCuts([], plain) == Masked([], plain)
  {
  }

  lemma BareLinks(text: string)
    requires AllBare(text)
    ensures LinkCuts(text, "") == Masked([], text)
  {
    hide *;
    BareFacts(text);
    if HasPin(Run(text)) {
      PinHasSlash(Run(text));
    }
    SkipInert(text, "", |text|);
    assert text[|text|..] == "" && "" + text[..|text|] == text;
    NoMoreText(text);
  }

  lemma BareFacts(text: string)
    requires AllBare(text)
    ensures '/' !in Run(text) && forall j | 0 <= j < |text| :: !IsSpace(text[j]) && text[j] != '['
  {
    assert forall c | c in Run(text) :: c in text;
    assert forall j | 0 <= j < |text| :: text[j] in text;
  }

  lemma NoMoreText(plain: string)
    ensures LinkCuts("", plain) == Masked([], plain)
  {
  }

  lemma BareRegions(text: string)
    requires Fenced(text) == Masked([], text) && Linked(text) == Masked([], text) && PlainPart(text) == text
    ensures Regions(text) == [Free(text)]
  {
    hide Linked, Fenced, PlainPart;
    RegionsOfPlain([], text);
    assert Hidden([]) == [];
  }

  // ----- stems in a text of the shape of a name -----

  /** After a character no token holds comes no digit. */
  predicate DigitsInTokens(s: string) {
    forall i | 0 < i < |s| :: IsTokenChar(s[i - 1]) || !IsDigit(s[i])
  }

  lemma {:induction false} NoStemLater(s: string, i: nat, stem: string, facetless: bool)
    requires DigitsInTokens(s) && stem != "" && IsDigit(stem[0]) && 0 < i <= |s|
    ensures !HasStem(s[i..], IsTokenChar(s[i - 1]), stem, facetless)
    decreases |s| - i
  {
    hide IsTokenChar, IsDigit, EndsStem;
    if i < |s| {
      NoStemLater(s, i + 1, stem, facetless);
      assert s[i..][1..] == s[i + 1..] && s[i..][0] == s[i];
      if stem <= s[i..] {
        assert stem[0] == s[i..][..|stem|][0] == s[i];
      }
    }
  }

  /** A stem can only be found at the start, and only where it ends at a boundary. */
  lemma StemOnlyAtStart(s: string, stem: string, facetless: bool)
    requires DigitsInTokens(s) && stem != "" && IsDigit(stem[0])
    requires stem <= s ==> |stem| < |s| && IsTokenChar(s[|stem|])
    ensures !HasStem(s, false, stem, facetless)
  {
    hide IsDigit;
    if s != "" {
      NoStemLater(s, 1, stem, facetless);
    }
  }

  lemma {:induction false} NoStemNoChange(s: string, inToken: bool, was: string, now: string, facetless: bool)
    requires was != "" && !HasStem(s, inToken, was, facetless)
    ensures SubStem(s, inToken, was, now, facetless) == s
  {
    hide EndsStem, IsTokenChar;
    if s != "" {
      NoStemNoChange(s[1..], IsTokenChar(s[0]), was, now, facetless);
      assert [s[0]] + s[1..] == s;
    }
  }

  // ----- one name inside the other -----

  /** The longer name is a run of token characters before the shorter. */
  lemma SuffixShape(long: string, short: string) returns (x: string)
    requires IsRecordName(long) && IsRecordName(short) && EndsWith(long, short) && long != short
    ensures long == x + short && x != "" && |StemOf(long)| == |x| + |StemOf(short)|
    ensures StemOf(long) == x + StemOf(short)
  {
    hide *;
    var ll := RecordIsShaped(long);
    var ls := RecordIsShaped(short);
    x := BeforeSuffix(long, short);
    DotsAlign(long, short, x, |StemOf(long)|, ll, |StemOf(short)|, ls);
    StemsAlign(x, short);
  }

  lemma BeforeSuffix(s: string, suffix: string) returns (x: string)
    requires EndsWith(s, suffix)
    ensures s == x + suffix
  {
    x := s[..|s| - |suffix|];
  }

  lemma StemsAlign(x: string, s: string)
    requires |StemOf(x + s)| == |x| + |StemOf(s)|
    ensures StemOf(x + s) == x + StemOf(s)
  {
    hide StemOf;
    assert StemOf(x + s) == (x + s)[..|x| + |StemOf(s)|];
    assert StemOf(s) == s[..|StemOf(s)|];
  }

  lemma DotsAlign(long: string, short: string, x: string, dl: nat, ll: nat, ds: nat, ls: nat)
    requires Shaped(long, dl, ll) && Shaped(short, ds, ls) && long == x + short && long != short
    ensures dl == |x| + ds && x != ""
  {
    assert long[|x|] == short[0] && long[|x| + ds] == '.';
    assert forall i | 0 <= i < ds :: long[|x| + i] == short[i];
  }

  lemma RecordTokens(name: string)
    requires IsRecordName(name)
    ensures DigitsInTokens(name) && IsDigit(name[0]) && AllBare(name)
    ensures forall i | 0 <= i < |StemOf(name)| :: IsTokenChar(name[i])
    ensures |StemOf(name)| < |name| && name[|StemOf(name)|] == '.'
  {
    hide IsRecordName, StemOf;
    var l := RecordIsShaped(name);
    ShapedIsBare(name, |StemOf(name)|, l);
  }

  lemma ShapedIsBare(name: string, d: nat, l: nat)
    requires Shaped(name, d, l)
    ensures AllBare(name)
  {
    forall c | c in name
      ensures Bare(c)
    {
      assert IsKebabChar(c) || c == '.' || 'a' <= c <= 'z';
    }
  }

  /** What stands in front of a name's stem keeps the whole text of that shape. */
  lemma PrefixedTokens(x: string, name: string)
    requires IsRecordName(name) && AllToken(x) && AllBare(x) && IsDigit(x[0])
    ensures DigitsInTokens(x + name) && AllBare(x + name)
    ensures forall i | 0 <= i < |x| + |StemOf(name)| :: IsTokenChar((x + name)[i])
  {
    RecordTokens(name);
    hide IsRecordName, IsTokenChar, IsDigit, StemOf, Bare;
  }

  lemma DotBlocks(stem: string, text: string, d: nat)
    requires d < |stem| && d < |text| && !IsTokenChar(stem[d]) && IsTokenChar(text[d])
    ensures !(stem <= text)
  {
    if stem <= text {
      PrefixAt(stem, text, d);
    }
  }

  /** No stem of the old name is found in a text whose first token is longer than the old name's stem. */
  lemma LongerTokenHasNoStem(text: string, was: string, stem: string, facetless: bool)
    requires IsRecordName(was) && DigitsInTokens(text) && |StemOf(was)| < |text|
    requires forall i | 0 <= i <= |StemOf(was)| :: IsTokenChar(text[i])
    requires stem == WholeStem(was) || stem == StemOf(was) || Some(stem) == LegacyPrefix(was)
    ensures !HasStem(text, false, stem, facetless)
  {
    var d := |StemOf(was)|;
    RecordTokens(was);
    StemsOf(was, stem);
    hide IsRecordName, HasStem, WholeStem, LegacyPrefix, StemOf, IsDigit;
    if |stem| > d {
      DotBlocks(stem, text, d);
    }
    StemOnlyAtStart(text, stem, facetless);
  }

  /** The strings a name is cited by start like it; one longer than the stem holds the dot after it. */
  lemma StemsOf(was: string, stem: string)
    requires IsRecordName(was)
    requires stem == WholeStem(was) || stem == StemOf(was) || Some(stem) == LegacyPrefix(was)
    ensures stem != "" && IsDigit(stem[0]) && stem <= was && stem != was
    ensures |stem| > |StemOf(was)| ==> !IsTokenChar(stem[|StemOf(was)|])
    ensures |stem| < |StemOf(was)| ==> Some(stem) == LegacyPrefix(was) && was[|stem|] == '-'
  {
    hide *;
    var d := |StemOf(was)|;
    var l := RecordIsShaped(was);
    WholeStemIsPrefix(was, d, l);
    StemIsCut(was);
    PrefixIsCut(was);
    CutOfShaped(was, d, l, if Some(stem) == LegacyPrefix(was) then 16 else |stem|);
  }

  lemma PrefixIsCut(name: string)
    ensures LegacyPrefix(name).Some? ==> |name| > 16 && LegacyPrefix(name).value == name[..16] && name[16] == '-'
  {
  }

  lemma CutOfShaped(name: string, d: nat, l: nat, n: nat)
    requires Shaped(name, d, l) && (n == d || n == l || (n == 16 && n < |name| && name[16] == '-'))
    ensures d <= l < |name| && n < |name|
    ensures name[..n] != "" && IsDigit(name[..n][0]) && name[..n] <= name && name[..n] != name
    ensures n > d ==> !IsTokenChar(name[..n][d])
  {
  }

  // ----- the text that keeps the citation -----

  ghost predicate LeavesNone(was: string, text: string, edits: seq<Edit>) {
    AllDated(SortByKind(edits)) && forall r | r in Edited(Regions(text), SortByKind(edits)) && r.Free? :: !Occurs(was, r.text)
  }

  lemma NotClean(was: string, text: string, edits: seq<Edit>)
    requires AllBare(text) && (AllDated(edits) ==> Occurs(was, RewriteAll(text, edits))) && SortByKind(edits) == edits
    ensures !LeavesNone(was, text, edits)
  {
    BareIsNotMasked(text);
    hide RewriteAll, Occurs, Regions, SortByKind, AllDated;
    if AllDated(edits) {
      var r := Free(RewriteAll(text, edits));
      assert [Free(text)][1..] == [];
      assert Edited(Regions(text), edits)[0] == r;
    }
  }

  lemma OccursInItself(w: string)
    ensures Occurs(w, w)
  {
    assert w[..|w|] == w;
  }

  /** Nothing but the whole stem of a name is found in a text that is the name. */
  lemma OnlyWholeStem(was: string, stem: string, facetless: bool)
    requires IsRecordName(was)
    requires (Some(stem) == LegacyPrefix(was) && !facetless) || (stem == StemOf(was) && stem != WholeStem(was) && facetless)
    ensures !HasStem(was, false, stem, facetless)
  {
    StemsOf(was, stem);
    RecordTokens(was);
    if stem == StemOf(was) && facetless {
      FacetFollowsStem(was);
      hide IsRecordName, HasStem, WholeStem, LegacyPrefix, StemOf, IsDigit;
      NoStemLater(was, 1, stem, facetless);
      StartOnly(was, stem, facetless);
    } else {
      hide IsRecordName, HasStem, WholeStem, LegacyPrefix, IsDigit;
      assert |stem| == 16;
      PrefixIsShort(was);
      StemOnlyAtStart(was, stem, facetless);
    }
  }

  lemma PrefixIsShort(was: string)
    requires IsRecordName(was) && LegacyPrefix(was).Some?
    ensures |LegacyPrefix(was).value| == 16 < |StemOf(was)|
  {
    hide IsRecordName;
    var l := RecordIsShaped(was);
    var d := |StemOf(was)|;
    assert was[13] == '-' && was[16] == '-';
    if d <= 16 {
      assert was[d] == '.';
      assert was[..8][0..] == was[..8] && was[9..13][0..] == was[9..13];
      LegacyCharacters(was, d);
    }
  }

  lemma LegacyCharacters(was: string, d: nat)
    requires LegacyPrefix(was).Some? && 8 <= d <= 16
    ensures was[d] != '.'
  {
    if 9 <= d < 13 {
      assert was[d] == was[9..13][d - 9];
    } else if 14 <= d < 16 {
      assert was[d] == was[14..16][d - 14];
    }
  }

  lemma StartOnly(s: string, stem: string, facetless: bool)
    requires s != "" && !HasStem(s[1..], IsTokenChar(s[0]), stem, facetless)
    requires stem <= s ==> !EndsStem(s[|stem|..], facetless)
    ensures !HasStem(s, false, stem, facetless)
  {
    hide EndsStem;
  }

  lemma DottedFacet(rest: string, f: string)
    requires rest == "." + f + ".md"
    ensures DottedWord(rest, f)
  {
    assert "." + f <= rest && rest[|f| + 1] == '.';
  }

  lemma FacetIsRefused(rest: string, f: string)
    requires IsArtifactFacet(f) && DottedWord(rest, f)
    ensures FacetFollows(rest)
  {
    hide DottedWord;
  }

  lemma PlainTail(was: string)
    requires was == StemOf(was) + ".md"
    ensures WholeStem(was) == StemOf(was)
  {
    assert was[|was| - 3..] == ".md";
  }

  lemma TailOfRecord(was: string) returns (facet: Option<string>)
    requires IsRecordName(was)
    ensures was == StemOf(was) + was[|StemOf(was)|..]
    ensures match facet
            case None => was[|StemOf(was)|..] == ".md"
            case Some(f) => IsArtifactFacet(f) && was[|StemOf(was)|..] == "." + f + ".md"
  {
    hide StemOf, IsArtifactFacet, HasDate, AllKebab;
    facet := ReadTail(Canonical, was[|StemOf(was)|..]).value;
  }

  lemma RefusedEnd(rest: string)
    requires FacetFollows(rest)
    ensures !EndsStem(rest, true)
  {
    hide FacetFollows;
  }

  /** A facet follows the stem of a name that has one. */
  lemma FacetFollowsStem(was: string)
    requires IsRecordName(was) && StemOf(was) != WholeStem(was)
    ensures !EndsStem(was[|StemOf(was)|..], true)
  {
    hide *;
    var rest := was[|StemOf(was)|..];
    var facet := TailOfRecord(was);
    match facet {
      case None => PlainTail(was);
      case Some(f) =>
        DottedFacet(rest, f);
        FacetIsRefused(rest, f);
        RefusedEnd(rest);
    }
  }

  // ----- the new name ends with the old -----

  /** The plan for a text that is the old name. */
  function NamePlan(was: string, now: string): seq<Edit> {
    [FullName(was, now), BareStem(WholeStem(was), WholeStem(now))]
  }

  lemma NamePlanIsSorted(was: string, now: string)
    ensures SortByKind(NamePlan(was, now)) == NamePlan(was, now)
  {
    hide OfOrder;
    var f, b := FullName(was, now), BareStem(WholeStem(was), WholeStem(now));
    PlanIsSorted([f], [b], []);
    assert [f] + [b] + [] == [f, b];
  }

  lemma OldNameHasStem(was: string)
    requires IsRecordName(was)
    ensures HasStem(was, false, WholeStem(was), false) && was == WholeStem(was) + ".md" && |WholeStem(was)| >= 10
  {
    var l := RecordIsShaped(was);
    WholeStemIsPrefix(was, |StemOf(was)|, l);
    hide *;
    ShapedEnds(was, |StemOf(was)|, l);
    StemEndsAtDot(was, WholeStem(was));
  }

  lemma ShapedEnds(name: string, d: nat, l: nat)
    requires Shaped(name, d, l)
    ensures 10 <= l < |name| && name[..l] + ".md" == name
  {
    assert name[l..] == ".md";
  }

  lemma StemEndsAtDot(s: string, stem: string)
    requires stem + ".md" == s
    ensures HasStem(s, false, stem, false)
  {
    assert s[|stem|] == '.';
    assert !IsTokenChar('.');
  }

  lemma ReplacesWhole(was: string, now: string)
    requires was != ""
    ensures ReplaceAll(was, was, now) == now
  {
    assert was[..|was|] == was && was[|was|..] == "";
    assert now + "" == now;
  }

  /** Nothing is missed of one rename when its name and stem are rewritten and its other handles are not found. */
  lemma OneRenameMissed(r: Renaming, prefixCount: map<string, nat>, index: map<string, seq<string>>, masked: string, edits: seq<Edit>)
    requires FullName(r.was, r.now) in edits
    requires HasStem(masked, false, WholeStem(r.was), false) ==> BareStem(WholeStem(r.was), WholeStem(r.now)) in edits
    requires forall k, v | HandleOf(r, prefixCount, k, v) :: !HasStem(masked, false, k, false)
    requires forall k, v | FacetlessOf(r, k, v) :: !HasStem(masked, false, k, true)
    ensures NothingMissed([r], prefixCount, index, masked, edits)
  {
    hide HasStem, Occurs, WholeStemOf, HandleOf, FacetlessOf, NoSibling, WholeStem;
    assert forall q | q in [r] :: q == r;
  }

  lemma OtherHandles(was: string, now: string, prefixCount: map<string, nat>, masked: string)
    requires IsRecordName(was)
    requires forall k | Some(k) == LegacyPrefix(was) :: !HasStem(masked, false, k, false)
    requires StemOf(was) != WholeStem(was) ==> !HasStem(masked, false, StemOf(was), true)
    ensures forall k, v | HandleOf(Renaming(was, now), prefixCount, k, v) :: !HasStem(masked, false, k, false)
    ensures forall k, v | FacetlessOf(Renaming(was, now), k, v) :: !HasStem(masked, false, k, true)
  {
    FacetlessOrNone(was);
    hide HasStem, WholeStem, IsRecordName, LegacyPrefix, ShortHandle, FacetlessStemOf, StemOf;
  }

  lemma NamePlanJustified(was: string, now: string, prefixCount: map<string, nat>, index: map<string, seq<string>>)
    requires was != now && Occurs(was, was) && HasStem(was, false, WholeStem(was), false)
    requires WholeStemOf(Renaming(was, now), WholeStem(was), WholeStem(now))
    ensures AllJustified([Renaming(was, now)], prefixCount, index, was, NamePlan(was, now))
  {
    hide HasStem, Occurs, WholeStemOf, HandleOf, FacetlessOf, NoSibling, WholeStem;
    var r := Renaming(was, now);
    assert r in [r];
    forall e | e in NamePlan(was, now)
      ensures Justified([r], prefixCount, index, was, e)
    {
      assert e == FullName(was, now) || e == BareStem(WholeStem(was), WholeStem(now));
    }
  }

  lemma NamePlanHolds(was: string, now: string)
    ensures FullName(was, now) in NamePlan(was, now) && BareStem(WholeStem(was), WholeStem(now)) in NamePlan(was, now)
  {
    hide WholeStem;
    assert NamePlan(was, now)[0] == FullName(was, now) && NamePlan(was, now)[1] == BareStem(WholeStem(was), WholeStem(now));
  }

  lemma StemsDiffer(was: string, now: string)
    requires was == WholeStem(was) + ".md" && now == WholeStem(now) + ".md" && was != now && |WholeStem(was)| >= 10
    ensures WholeStemOf(Renaming(was, now), WholeStem(was), WholeStem(now))
  {
    hide WholeStem;
  }

  lemma NamePlanFits(was: string, now: string, prefixCount: map<string, nat>, index: map<string, seq<string>>)
    requires IsRecordName(was) && IsRecordName(now) && was != now
    ensures AllJustified([Renaming(was, now)], prefixCount, index, was, NamePlan(was, now))
    ensures NothingMissed([Renaming(was, now)], prefixCount, index, was, NamePlan(was, now))
  {
    hide *;
    OldNameHasStem(was);
    OldNameHasStem(now);
    OccursInItself(was);
    StemsDiffer(was, now);
    NamePlanJustified(was, now, prefixCount, index);
    forall k | Some(k) == LegacyPrefix(was)
      ensures !HasStem(was, false, k, false)
    {
      OnlyWholeStem(was, k, false);
    }
    if StemOf(was) != WholeStem(was) {
      OnlyWholeStem(was, StemOf(was), true);
    }
    OtherHandles(was, now, prefixCount, was);
    NamePlanHolds(was, now);
    OneRenameMissed(Renaming(was, now), prefixCount, index, was, NamePlan(was, now));
  }

  lemma FacetlessOrNone(was: string)
    requires IsRecordName(was)
    ensures FacetlessStemOf(was).Some? ==> FacetlessStemOf(was).value == StemOf(was)
  {
    hide IsRecordName, FacetlessStemOf;
    if FacetlessStemOf(was).Some? {
      FacetlessIsStem(was);
    }
  }

  /** The old name becomes the new one, which the stem rewrite leaves alone, and the old name is still in it. */
  lemma NameStaysInside(was: string, now: string)
    requires IsRecordName(was) && IsRecordName(now) && was != now && EndsWith(now, was)
    ensures AllDated(NamePlan(was, now)) ==> Occurs(was, RewriteAll(was, NamePlan(was, now)))
  {
    var x := SuffixShape(now, was);
    RecordTokens(now);
    RecordTokens(was);
    OldNameHasStem(was);
    hide IsRecordName, Occurs, HasStem, StemOf, WholeStem, ReplaceAll, SubStem;
    ReplacesWhole(was, now);
    LongerTokenHasNoStem(now, was, WholeStem(was), false);
    NoStemNoChange(now, false, WholeStem(was), WholeStem(now), false);
    OccursInside(was, x, "");
    assert x + was + "" == now;
    if AllDated(NamePlan(was, now)) {
      TwoEdits(was, FullName(was, now), BareStem(WholeStem(was), WholeStem(now)));
    }
  }

  lemma TwoEdits(s: string, e: Edit, f: Edit)
    requires AllDated([e, f])
    ensures e.was != "" && f.was != "" && RewriteAll(s, [e, f]) == Rewrite(Rewrite(s, e), f)
  {
    hide Rewrite;
    assert Dated([e, f][0]) && Dated([e, f][1]);
    assert [e, f][1..] == [f] && AllDated([f]);
    OneEdit(Rewrite(s, e), f);
  }

  // ----- the old name ends with the new -----

  /** In a text where the old name only fits at the end, that is where it is replaced. */
  lemma {:induction false} ReplacesAtEnd(x: string, was: string, now: string)
    requires was != "" && forall p | 0 <= p < |x| :: !(was <= (x + was)[p..])
    ensures ReplaceAll(x + was, was, now) == x + now
    decreases |x|
  {
    var s := x + was;
    if x == "" {
      assert s == was && x + now == now;
      ReplacesWhole(was, now);
    } else {
      assert s[0..] == s;
      assert s[1..] == x[1..] + was;
      forall p | 0 <= p < |x| - 1
        ensures !(was <= (x[1..] + was)[p..])
      {
        assert (x[1..] + was)[p..] == s[p + 1..];
      }
      ReplacesAtEnd(x[1..], was, now);
      assert [x[0]] + (x[1..] + now) == x + now;
    }
  }

  lemma FitsOnlyAtEnd(x: string, was: string)
    requires IsRecordName(was) && (forall i | 0 <= i < |x| :: x[i] != '.')
    ensures forall p | 0 <= p < |x| :: !(was <= (x + was)[p..])
  {
    var l := RecordIsShaped(was);
    var d := |StemOf(was)|;
    hide IsRecordName, StemOf;
    var s := x + was;
    forall p | 0 <= p < |x|
      ensures !(was <= s[p..])
    {
      if was <= s[p..] {
        PrefixAt(was, s[p..], l);
        PrefixAt(was, s[p..], l + 1);
        DotInText(x, was, d, l, p + l);
      }
    }
  }

  lemma DotInText(x: string, was: string, d: nat, l: nat, k: nat)
    requires Shaped(was, d, l) && (forall i | 0 <= i < |x| :: x[i] != '.')
    requires k + 1 < |x + was| && (x + was)[k] == '.' && (x + was)[k + 1] == 'm'
    ensures k == |x| + l
  {
  }

  lemma LongNamePlanFits(text: string, was: string, now: string, prefixCount: map<string, nat>, index: map<string, seq<string>>)
    requires IsRecordName(was) && was != now && Occurs(was, text)
    requires forall stem, facetless | stem == WholeStem(was) || stem == StemOf(was) || Some(stem) == LegacyPrefix(was) ::
               !HasStem(text, false, stem, facetless)
    ensures AllJustified([Renaming(was, now)], prefixCount, index, text, [FullName(was, now)])
    ensures NothingMissed([Renaming(was, now)], prefixCount, index, text, [FullName(was, now)])
  {
    var r := Renaming(was, now);
    assert r in [r];
    hide HasStem, Occurs, NoSibling, WholeStem, IsRecordName, LegacyPrefix, StemOf, HandleOf, FacetlessOf, WholeStemOf, NothingMissed;
    forall e | e in [FullName(was, now)]
      ensures Justified([r], prefixCount, index, text, e)
    {
      assert e == FullName(was, now);
    }
    OtherHandles(was, now, prefixCount, text);
    assert [FullName(was, now)][0] == FullName(was, now);
    OneRenameMissed(r, prefixCount, index, text, [FullName(was, now)]);
  }

  lemma OneEditSorted(e: Edit)
    requires e.FullName?
    ensures SortByKind([e]) == [e]
  {
    hide OfOrder;
    PlanIsSorted([e], [], []);
    assert [e] + [] + [] == [e];
  }

  lemma OneEdit(s: string, e: Edit)
    requires AllDated([e])
    ensures e.was != "" && RewriteAll(s, [e]) == Rewrite(s, e)
  {
    hide Rewrite;
    assert Dated([e][0]);
    assert [e][1..] == [];
  }

  // ----- both together -----

  /** When one name ends with the other, a text and its plan leave a citation of the old name. */
  lemma SuffixLeavesCitation(was: string, now: string, prefixCount: map<string, nat>, index: map<string, seq<string>>)
      returns (text: string, edits: seq<Edit>)
    requires IsRecordName(was) && IsRecordName(now) && was != now && (EndsWith(was, now) || EndsWith(now, was))
    ensures !Foreign(text)
    ensures AllJustified([Renaming(was, now)], prefixCount, index, MaskedText(text), edits)
    ensures NothingMissed([Renaming(was, now)], prefixCount, index, MaskedText(text), edits)
    ensures !LeavesNone(was, text, edits)
  {
    hide *;
    if EndsWith(now, was) {
      text, edits := was, NamePlan(was, now);
      RecordTokens(was);
      NamePlanFits(was, now, prefixCount, index);
      NameStaysInside(was, now);
      NamePlanIsSorted(was, now);
    } else {
      var x := SuffixShape(was, now);
      text, edits := x + was, [FullName(was, now)];
      LongTextFacts(x, was, now);
      LongNamePlanFits(text, was, now, prefixCount, index);
      OneEditSorted(FullName(was, now));
    }
    BareIsNotMasked(text);
    NotClean(was, text, edits);
  }

  lemma LongTextFacts(x: string, was: string, now: string)
    requires IsRecordName(was) && IsRecordName(now) && was == x + now && x != "" && StemOf(was) == x + StemOf(now)
    ensures var text := x + was;
            && AllBare(text) && NUL !in text && Occurs(was, text)
            && (forall stem, facetless | stem == WholeStem(was) || stem == StemOf(was) || Some(stem) == LegacyPrefix(was) ::
                  !HasStem(text, false, stem, facetless))
            && (AllDated([FullName(was, now)]) ==> Occurs(was, RewriteAll(text, [FullName(was, now)])))
  {
    var text := x + was;
    RecordTokens(was);
    PrefixIsBare(x, was);
    hide IsRecordName, HasStem, Occurs, WholeStem, LegacyPrefix, StemOf, IsTokenChar, IsDigit, Bare, ReplaceAll;
    PrefixedTokens(x, was);
    OccursInside(was, x, "");
    assert x + was + "" == text;
    assert NUL !in text by {
      BareHasNoNul(text);
    }
    forall stem, facetless | stem == WholeStem(was) || stem == StemOf(was) || Some(stem) == LegacyPrefix(was)
      ensures !HasStem(text, false, stem, facetless)
    {
      LongerTokenHasNoStem(text, was, stem, facetless);
    }
    FitsOnlyAtEnd(x, was);
    ReplacesAtEnd(x, was, now);
    OccursInItself(was);
    if AllDated([FullName(was, now)]) {
      OneEdit(text, FullName(was, now));
    }
  }

  lemma BareHasNoNul(text: string)
    requires AllBare(text)
    ensures NUL !in text
  {
  }

  lemma PrefixIsBare(x: string, was: string)
    requires x <= was && x != "" && |x| <= |StemOf(was)| && IsRecordName(was)
    ensures AllToken(x) && AllBare(x) && IsDigit(x[0]) && forall i | 0 <= i < |x| :: x[i] != '.'
  {
    RecordTokens(was);
    hide IsRecordName, StemOf, Bare;
    assert forall i | 0 <= i < |x| :: x[i] == was[i] && was[i] in was;
    assert !IsTokenChar('.');
  }

  /** A clustered rename that keeps the facet is clean on every text, whatever the plan, exactly when neither name
      ends with the other. */
  lemma RenameIsCleanExactly(was: string, now: string, prefixCount: map<string, nat>, index: map<string, seq<string>>)
    requires Parse(Canonical, was).Some? && Parse(Canonical, now).Some? && was != now
    requires Parse(Canonical, was).value.facet == Parse(Canonical, now).value.facet
    ensures (forall text, edits | !Foreign(text)
               && AllJustified([Renaming(was, now)], prefixCount, index, MaskedText(text), edits)
               && NothingMissed([Renaming(was, now)], prefixCount, index, MaskedText(text), edits) :: LeavesNone(was, text, edits))
            <==> !EndsWith(was, now) && !EndsWith(now, was)
  {
    ClusteredIsRecord(was);
    ClusteredIsRecord(now);
    if EndsWith(was, now) || EndsWith(now, was) {
      hide *;
      var text, edits := SuffixLeavesCitation(was, now, prefixCount, index);
    } else {
      forall text, edits | !Foreign(text)
        && AllJustified([Renaming(was, now)], prefixCount, index, MaskedText(text), edits)
        && NothingMissed([Renaming(was, now)], prefixCount, index, MaskedText(text), edits)
        ensures LeavesNone(was, text, edits)
      {
        hide Parse, Foreign, AllJustified, NothingMissed, MaskedText, SortByKind, Occurs, Regions, EndsWith, LegacyPrefix;
        RenamedRecordLeavesNoCitation(text, was, now, prefixCount, index, edits);
      }
    }
  }
}
