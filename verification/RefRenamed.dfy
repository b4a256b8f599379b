/** What the citations of one renamed record become: the file after planning and applying is one pass over the
    old text that puts the new name, stem or handle where the old one stood. */
module RefRenamed {
  import opened Wrappers
  import opened Text
  import opened Naming
  import opened Rewriting
  import opened Citations
  import opened RecordNames
  import opened RefPlan
  import opened RefApply
  import opened RefClean
  import opened Masking
  import opened Links
  import opened Unmasking
  import opened FreeStretches
  import opened OnePass
  import opened NamePlaces
  import Residue = RefResidue

  /** A clustered rename that keeps the facet, neither name a suffix of the other. */
  predicate Plain(r: Renaming) {
    && Parse(Canonical, r.was).Some? && Parse(Canonical, r.now).Some?
    && Parse(Canonical, r.was).value.facet == Parse(Canonical, r.now).value.facet
    && !EndsWith(r.was, r.now) && !EndsWith(r.now, r.was)
  }

  /** The short handle, when only one record carries it. */
  function HandleEdits(r: Renaming, prefixCount: map<string, nat>): seq<Edit> {
    if LegacyPrefix(r.was).Some? && ShortHandle(r.now).Some?
       && (LegacyPrefix(r.was).value in prefixCount ==> prefixCount[LegacyPrefix(r.was).value] <= 1)
    then [BareStem(LegacyPrefix(r.was).value, ShortHandle(r.now).value)]
    else []
  }

  /** The stem without the facet, when no other record shares it. */
  function FacetlessEdits(r: Renaming, index: map<string, seq<string>>): seq<Edit> {
    if FacetlessStemOf(r.was).Some? && FacetlessStemOf(r.now).Some? && NoSibling([r], index, FacetlessStemOf(r.was).value)
    then [FacetlessStem(FacetlessStemOf(r.was).value, FacetlessStemOf(r.now).value)]
    else []
  }

  /** Every form the record is cited by and what each becomes, the whole name first. */
  function CitedAs(r: Renaming, prefixCount: map<string, nat>, index: map<string, seq<string>>): seq<Edit> {
    [FullName(r.was, r.now), BareStem(WholeStem(r.was), WholeStem(r.now))] + HandleEdits(r, prefixCount) + FacetlessEdits(r, index)
  }

  // ----- the forms are citations -----

  lemma LeadOfParts(stem: string, tail: string)
    requires AllKebab(stem) && (tail == "" || !IsTokenChar(tail[0]))
    ensures Lead(stem + tail) == stem
  {
    LeadIs(stem + tail, stem);
  }

  lemma NameIsCitation(name: string)
    requires IsRecordName(name)
    ensures Citation(name) && Lead(name) == StemOf(name) && |StemOf(name)| < |name|
  {
    hide IsRecordName, StemOf, Lead;
    var l := RecordIsShaped(name);
    var d := |StemOf(name)|;
    ShapedCitation(name, d, l, |name|);
    assert name[..|name|] == name && name[..d] == StemOf(name);
  }

  /** A name cut at its stem, before its extension or not at all. */
  lemma ShapedCitation(name: string, d: nat, l: nat, n: nat)
    requires Shaped(name, d, l) && (n == d || n == l || n == |name|)
    ensures Citation(name[..n]) && Lead(name[..n]) == name[..d]
  {
    ShapedParts(name, d, l);
    LastIsToken(name, d, l, n);
    hide *;
    var c := name[..n];
    CutAt(name, d, n);
    LeadOfParts(c[..d], c[d..]);
    CitationMeans(c, d);
  }

  lemma ShapedParts(name: string, d: nat, l: nat)
    requires Shaped(name, d, l)
    ensures 0 < d <= l < |name| && IsDigit(name[0]) && AllKebab(name[..d]) && !IsTokenChar(name[d])
    ensures forall i | d <= i < |name| :: !IsDigit(name[i])
  {
  }

  lemma CutAt(name: string, d: nat, n: nat)
    requires d <= n <= |name|
    ensures var c := name[..n]; c[..d] == name[..d] && c == c[..d] + c[d..] && (c[d..] == "" || c[d..][0] == name[d])
    ensures forall i | 0 <= i < n :: name[..n][i] == name[i]
  {
  }

  lemma CitationMeans(c: string, d: nat)
    requires c != "" && IsDigit(c[0]) && IsTokenChar(c[|c| - 1]) && |Lead(c)| == d && forall i | d <= i < |c| :: !IsDigit(c[i])
    ensures Citation(c)
  {
    hide IsDigit, IsTokenChar, Lead;
  }

  lemma LastIsToken(name: string, d: nat, l: nat, n: nat)
    requires Shaped(name, d, l) && (n == d || n == l || n == |name|)
    ensures IsTokenChar(name[n - 1])
  {
  }

  lemma WholeStemIsCitation(name: string)
    requires IsRecordName(name)
    ensures Citation(WholeStem(name)) && Lead(WholeStem(name)) == StemOf(name)
  {
    hide IsRecordName, StemOf, Lead, WholeStem;
    var l := RecordIsShaped(name);
    var d := |StemOf(name)|;
    WholeStemIsPrefix(name, d, l);
    ShapedCitation(name, d, l, l);
    assert name[..d] == StemOf(name);
  }

  lemma StemIsCitation(name: string)
    requires IsRecordName(name)
    ensures Citation(StemOf(name)) && Lead(StemOf(name)) == StemOf(name)
  {
    hide IsRecordName, StemOf, Lead;
    var l := RecordIsShaped(name);
    var d := |StemOf(name)|;
    ShapedCitation(name, d, l, d);
    assert name[..d] == StemOf(name);
  }

  lemma TokenIsCitation(h: string)
    requires h != "" && AllToken(h) && IsDigit(h[0])
    ensures Citation(h) && Lead(h) == h
  {
    hide IsTokenChar, IsDigit;
    LeadIs(h, h);
  }

  lemma HandleIsCitation(name: string)
    requires ShortHandle(name).Some?
    ensures Citation(ShortHandle(name).value) && Lead(ShortHandle(name).value) == ShortHandle(name).value
  {
    HandleShaped(name);
    hide ShortHandle;
    TokenIsCitation(ShortHandle(name).value);
  }

  lemma PrefixIsCitation(name: string)
    requires IsRecordName(name) && LegacyPrefix(name).Some?
    ensures var p := LegacyPrefix(name).value; Citation(p) && Lead(p) == p && |p| == 16 < |StemOf(name)|
  {
    Residue.PrefixIsShort(name);
    Residue.RecordTokens(name);
    hide IsRecordName, StemOf, Lead;
    var p := LegacyPrefix(name).value;
    assert forall i | 0 <= i < |p| :: p[i] == name[i];
    hide IsTokenChar, IsDigit;
    TokenIsCitation(p);
  }

  /** A clustered stem is longer than any short handle of the older grammar. */
  lemma StemIsLong(name: string)
    requires Parse(Canonical, name).Some?
    ensures |StemOf(name)| > 16
  {
    hide StemOf, ReadTail;
  }

  // ----- the forms do not run into one another -----

  /** The forms that hold the whole stem, and the handle. */
  ghost predicate Big(e: Edit, r: Renaming) {
    && Good(e) && Lead(e.was) == StemOf(r.was) && Lead(e.now) == StemOf(r.now)
    && (e.FullName? ==> e == FullName(r.was, r.now))
  }

  ghost predicate Small(e: Edit, r: Renaming) {
    && Good(e) && e.BareStem? && Lead(e.was) == e.was && Lead(e.now) == e.now
    && LegacyPrefix(r.was) == Some(e.was) && ShortHandle(r.now) == Some(e.now) && |e.was| == 16
  }

  lemma FullIsBig(r: Renaming)
    requires IsRecordName(r.was) && IsRecordName(r.now)
    ensures Big(FullName(r.was, r.now), r)
  {
    NameIsCitation(r.was);
    NameIsCitation(r.now);
    hide IsRecordName, Citation;
  }

  lemma WholeIsBig(r: Renaming)
    requires IsRecordName(r.was) && IsRecordName(r.now)
    ensures Big(BareStem(WholeStem(r.was), WholeStem(r.now)), r)
  {
    hide *;
    WholeStemIsCitation(r.was);
    WholeStemIsCitation(r.now);
    BigMeans(BareStem(WholeStem(r.was), WholeStem(r.now)), r);
  }

  lemma BigMeans(e: Edit, r: Renaming)
    requires Citation(e.was) && Citation(e.now) && Lead(e.was) == StemOf(r.was) && Lead(e.now) == StemOf(r.now) && !e.FullName?
    ensures Big(e, r)
  {
    hide Citation, StemOf, Lead;
  }

  lemma FacetlessIsBig(r: Renaming, e: Edit)
    requires IsRecordName(r.was) && IsRecordName(r.now)
    requires e.FacetlessStem? && FacetlessStemOf(r.was) == Some(e.was) && FacetlessStemOf(r.now) == Some(e.now)
    ensures Big(e, r)
  {
    hide *;
    FacetlessIsStem(r.was);
    FacetlessIsStem(r.now);
    StemIsCitation(r.was);
    StemIsCitation(r.now);
    BigMeans(e, r);
  }

  lemma HandleIsSmall(r: Renaming, e: Edit)
    requires IsRecordName(r.was) && e.BareStem? && LegacyPrefix(r.was) == Some(e.was) && ShortHandle(r.now) == Some(e.now)
    ensures Small(e, r)
  {
    PrefixIsCitation(r.was);
    HandleIsCitation(r.now);
    hide IsRecordName, Citation, LegacyPrefix, ShortHandle;
  }

  lemma CitedIsOneOf(r: Renaming, prefixCount: map<string, nat>, index: map<string, seq<string>>, e: Edit)
    requires e in CitedAs(r, prefixCount, index)
    ensures e == FullName(r.was, r.now) || e == BareStem(WholeStem(r.was), WholeStem(r.now))
            || (e.BareStem? && LegacyPrefix(r.was) == Some(e.was) && ShortHandle(r.now) == Some(e.now))
            || (e.FacetlessStem? && FacetlessStemOf(r.was) == Some(e.was) && FacetlessStemOf(r.now) == Some(e.now))
  {
    hide WholeStem, LegacyPrefix, ShortHandle, FacetlessStemOf, NoSibling;
  }

  lemma PlainIsRecord(r: Renaming)
    requires Plain(r)
    ensures IsRecordName(r.was) && IsRecordName(r.now) && |StemOf(r.was)| > 16 && |StemOf(r.now)| > 16
    ensures !EndsWith(StemOf(r.now), StemOf(r.was)) && !EndsWith(StemOf(r.was), StemOf(r.now))
    ensures ShortHandle(r.now).Some? ==> ShortHandle(r.now).value != StemOf(r.was)
  {
    hide Parse, EndsWith, StemOf, ShortHandle, IsRecordName;
    ClusteredIsRecord(r.was);
    ClusteredIsRecord(r.now);
    StemIsLong(r.was);
    StemIsLong(r.now);
    StemsSeparate(r.was, r.now);
    StemsSeparate(r.now, r.was);
    HandleNeverEndsWithStem(r.was, r.now);
    EndsWithItself(StemOf(r.was));
  }

  lemma EndsWithItself(s: string)
    ensures EndsWith(s, s)
  {
    assert s[0..] == s;
  }

  lemma BigOrSmall(r: Renaming, prefixCount: map<string, nat>, index: map<string, seq<string>>, e: Edit)
    requires Plain(r) && e in CitedAs(r, prefixCount, index)
    ensures Big(e, r) || Small(e, r)
  {
    hide *;
    PlainIsRecord(r);
    CitedIsOneOf(r, prefixCount, index, e);
    if e == FullName(r.was, r.now) {
      FullIsBig(r);
    } else if e == BareStem(WholeStem(r.was), WholeStem(r.now)) {
      WholeIsBig(r);
    } else if e.BareStem? {
      HandleIsSmall(r, e);
    } else {
      FacetlessIsBig(r, e);
    }
  }

  lemma NotAtEnd(long: string, short: string)
    requires |long| <= |short| || !EndsWith(long, short)
    ensures !EndsInside(long, short)
  {
  }

  lemma ClearOf(r: Renaming, e: Edit, x: Edit)
    requires Plain(r) && (Big(e, r) || Small(e, r)) && (Big(x, r) || Small(x, r)) && (x.FullName? ==> x == e)
    ensures Clear(e, x)
  {
    PlainIsRecord(r);
    EndsWithItself(StemOf(r.was));
    hide EndsWith, StemOf, LegacyPrefix, ShortHandle, Plain, IsRecordName, Good, EndsInside, Lead;
    NotAtEnd(Lead(x.was), StemOf(r.was));
    NotAtEnd(Lead(x.was), StemOf(r.now));
  }

  lemma CitedIsGood(r: Renaming, prefixCount: map<string, nat>, index: map<string, seq<string>>)
    requires Plain(r)
    ensures var all := CitedAs(r, prefixCount, index); NameFirst(all) && all[0] == FullName(r.was, r.now)
  {
    var all := CitedAs(r, prefixCount, index);
    hide *;
    FirstOfCited(r, prefixCount, index);
    forall x | x in all
      ensures Good(x) && Clear(all[0], x)
    {
      BigOrSmall(r, prefixCount, index, x);
      BigOrSmall(r, prefixCount, index, all[0]);
      BigIsOne(x, r);
      ClearOf(r, all[0], x);
    }
    NameFirstMeans(all);
  }

  lemma FirstOfCited(r: Renaming, prefixCount: map<string, nat>, index: map<string, seq<string>>)
    ensures CitedAs(r, prefixCount, index) != [] && CitedAs(r, prefixCount, index)[0] == FullName(r.was, r.now)
  {
    hide WholeStem, HandleEdits, FacetlessEdits;
  }

  lemma BigIsOne(e: Edit, r: Renaming)
    ensures Big(e, r) || Small(e, r) ==> Good(e) && (e.FullName? ==> e == FullName(r.was, r.now))
  {
    hide StemOf, Good, LegacyPrefix, ShortHandle, Lead;
  }

  lemma NameFirstMeans(edits: seq<Edit>)
    requires edits != [] && edits[0].FullName? && forall x | x in edits :: Good(x) && Clear(edits[0], x)
    ensures NameFirst(edits)
  {
    hide Good, Clear;
  }

  // ----- no two stems at one place -----

  lemma FitsOf(x: Edit, s: string, inToken: bool)
    ensures Fits(x, s, inToken) ==> x.was <= s && (x.FacetlessStem? ==> !FacetFollows(s[|x.was|..]))
    ensures Fits(x, s, inToken) && x.BareStem? ==> s == x.was || (|x.was| < |s| && !IsTokenChar(s[|x.was|]))
  {
    hide FacetFollows, IsTokenChar;
  }

  lemma FacetWords(f: string, rest: string)
    requires IsArtifactFacet(f) && DottedWord(rest, f)
    ensures FacetFollows(rest)
  {
    hide DottedWord;
  }

  lemma WholeHasFacet(was: string, stem: string) returns (f: string)
    requires IsRecordName(was) && FacetlessStemOf(was) == Some(stem)
    ensures IsArtifactFacet(f) && WholeStem(was) == stem + "." + f
  {
    hide *;
    f := FacetOf(was, FACETS);
    FacetlessIs(was);
    FacetsAreFacets();
    CutSuffix(was, stem, f);
    WholeOf(stem + "." + f);
  }

  lemma FacetlessIs(name: string)
    ensures FacetlessStemOf(name).Some? ==> FacetlessStemOf(name) == WithoutFacet(name, FACETS)
  {
    hide WithoutFacet, Parse;
  }

  lemma CutSuffix(name: string, stem: string, f: string)
    requires EndsWith(name, "." + f + ".md") && stem == name[..|name| - |"." + f + ".md"|]
    ensures name == (stem + "." + f) + ".md"
  {
    var suffix := "." + f + ".md";
    assert name == stem + suffix;
    assert stem + suffix == (stem + "." + f) + ".md";
  }

  lemma WholeOf(s: string)
    ensures WholeStem(s + ".md") == s
  {
    assert (s + ".md")[|s|..] == ".md";
  }

  lemma {:induction false} FacetOf(name: string, facets: seq<string>) returns (f: string)
    ensures WithoutFacet(name, facets).Some? ==>
              f in facets && EndsWith(name, "." + f + ".md") && WithoutFacet(name, facets).value == name[..|name| - |"." + f + ".md"|]
    decreases |facets|
  {
    f := "";
    if facets != [] {
      if EndsWith(name, "." + facets[0] + ".md") {
        f := facets[0];
      } else {
        f := FacetOf(name, facets[1..]);
      }
    }
  }

  lemma DottedAt(s: string, stem: string, f: string)
    requires stem + "." + f <= s && (s == stem + "." + f || !IsTokenChar(s[|stem + "." + f|]))
    ensures stem <= s && DottedWord(s[|stem|..], f)
  {
    var w := stem + "." + f;
    var rest := s[|stem|..];
    assert w[|stem|..] == "." + f;
    assert rest[..|f| + 1] == s[..|w|][|stem|..] == "." + f;
    assert |rest| > |f| + 1 ==> rest[|f| + 1] == s[|w|];
  }

  /** Where the stem with the facet stands, the one without it does not fit. */
  lemma WholeOrFacetless(r: Renaming, x: Edit, y: Edit, s: string, inToken: bool)
    requires IsRecordName(r.was) && x.BareStem? && x.was == WholeStem(r.was) && y.FacetlessStem? && FacetlessStemOf(r.was) == Some(y.was)
    requires Fits(x, s, inToken)
    ensures !Fits(y, s, inToken)
  {
    hide *;
    var f := WholeHasFacet(r.was, y.was);
    FitsOf(x, s, inToken);
    FitsOf(y, s, inToken);
    DottedAt(s, y.was, f);
    FacetWords(f, s[|y.was|..]);
  }

  lemma SameLead(x: Edit, y: Edit, s: string, inToken: bool)
    requires Good(x) && Good(y) && Fits(x, s, inToken) && Fits(y, s, inToken)
    ensures Lead(x.was) == Lead(y.was)
  {
    hide *;
    FitLead(x, s, inToken);
    FitLead(y, s, inToken);
  }

  lemma SameSize(r: Renaming, x: Edit, y: Edit)
    requires Plain(r) && (Big(x, r) || Small(x, r)) && (Big(y, r) || Small(y, r)) && Lead(x.was) == Lead(y.was)
    ensures Small(x, r) <==> Small(y, r)
    ensures Small(x, r) && Small(y, r) ==> x == y
  {
    PlainIsRecord(r);
    hide StemOf, Good, LegacyPrefix, ShortHandle, Lead, Plain, IsRecordName, EndsWith;
  }

  lemma OneStemFits(r: Renaming, prefixCount: map<string, nat>, index: map<string, seq<string>>)
    requires Plain(r)
    ensures Exclusive(CitedAs(r, prefixCount, index))
  {
    var all := CitedAs(r, prefixCount, index);
    hide *;
    forall x, y, s, inToken | x in all && y in all && !x.FullName? && !y.FullName? && Fits(x, s, inToken) && Fits(y, s, inToken)
      ensures x == y
    {
      StemsAtOnePlace(r, prefixCount, index, x, y, s, inToken);
    }
    ExclusiveMeans(all);
  }

  lemma ExclusiveMeans(edits: seq<Edit>)
    requires forall x, y, s, inToken | x in edits && y in edits && !x.FullName? && !y.FullName?
                                       && Fits(x, s, inToken) && Fits(y, s, inToken) :: x == y
    ensures Exclusive(edits)
  {
    hide Fits;
  }

  lemma StemsAtOnePlace(r: Renaming, prefixCount: map<string, nat>, index: map<string, seq<string>>, x: Edit, y: Edit, s: string, inToken: bool)
    requires Plain(r) && x in CitedAs(r, prefixCount, index) && y in CitedAs(r, prefixCount, index)
    requires !x.FullName? && !y.FullName? && Fits(x, s, inToken) && Fits(y, s, inToken)
    ensures x == y
  {
    hide *;
    PlainIsRecord(r);
    BigOrSmall(r, prefixCount, index, x);
    BigOrSmall(r, prefixCount, index, y);
    BigIsOne(x, r);
    BigIsOne(y, r);
    SameLead(x, y, s, inToken);
    SameSize(r, x, y);
    CitedIsOneOf(r, prefixCount, index, x);
    CitedIsOneOf(r, prefixCount, index, y);
    if !Small(x, r) {
      NotHandle(r, x);
      NotHandle(r, y);
      if x.BareStem? && y.FacetlessStem? {
        WholeOrFacetless(r, x, y, s, inToken);
      }
      if y.BareStem? && x.FacetlessStem? {
        WholeOrFacetless(r, y, x, s, inToken);
      }
    }
  }

  lemma NotHandle(r: Renaming, e: Edit)
    requires IsRecordName(r.was) && !Small(e, r)
    ensures !(e.BareStem? && LegacyPrefix(r.was) == Some(e.was) && ShortHandle(r.now) == Some(e.now))
  {
    hide *;
    if e.BareStem? && LegacyPrefix(r.was) == Some(e.was) && ShortHandle(r.now) == Some(e.now) {
      HandleIsSmall(r, e);
    }
  }

  // ----- the plan -----

  lemma JustifiedIsCited(r: Renaming, prefixCount: map<string, nat>, index: map<string, seq<string>>, masked: string, e: Edit)
    requires Justified([r], prefixCount, index, masked, e)
    ensures e in CitedAs(r, prefixCount, index)
  {
    hide Occurs, HasStem, NoSibling, WholeStem, LegacyPrefix, ShortHandle, FacetlessStemOf;
    var all := CitedAs(r, prefixCount, index);
    match e {
      case FullName(was, now) =>
        assert all[0] == e;
      case BareStem(was, now) =>
        var q :| q in [r] && (WholeStemOf(q, was, now) || HandleOf(q, prefixCount, was, now));
        assert q == r;
        if WholeStemOf(r, was, now) {
          assert all[1] == e;
        } else {
          assert HandleEdits(r, prefixCount) == [e];
          assert all[2] == e;
        }
      case FacetlessStem(was, now) =>
        var q :| q in [r] && FacetlessOf(q, was, now);
        assert q == r;
        assert FacetlessEdits(r, index) == [e];
        assert all[|all| - 1] == e;
    }
  }

  lemma {:induction false} CitedMeans(x: Edit, s: string, inToken: bool)
    requires x.was != ""
    ensures match x
            case FullName(was, _) => CitedIn(x, s, inToken) <==> Occurs(was, s)
            case BareStem(was, _) => CitedIn(x, s, inToken) <==> HasStem(s, inToken, was, false)
            case FacetlessStem(was, _) => CitedIn(x, s, inToken) <==> HasStem(s, inToken, was, true)
    decreases |s|
  {
    hide EndsStem, IsTokenChar;
    if s != "" {
      CitedMeans(x, s[1..], IsTokenChar(s[0]));
    }
  }

  lemma WholeFound(r: Renaming, prefixCount: map<string, nat>, index: map<string, seq<string>>, masked: string, edits: seq<Edit>)
    requires NothingMissed([r], prefixCount, index, masked, edits)
    requires WholeStemOf(r, WholeStem(r.was), WholeStem(r.now)) && HasStem(masked, false, WholeStem(r.was), false)
    ensures BareStem(WholeStem(r.was), WholeStem(r.now)) in edits
  {
    hide HandleOf, HasStem, Occurs, WholeStemOf, FacetlessOf, NoSibling, WholeStem;
    assert r in [r];
  }

  lemma WholeIsPlanned(r: Renaming, prefixCount: map<string, nat>, index: map<string, seq<string>>, masked: string, edits: seq<Edit>)
    requires Plain(r) && NothingMissed([r], prefixCount, index, masked, edits) && HasStem(masked, false, WholeStem(r.was), false)
    ensures BareStem(WholeStem(r.was), WholeStem(r.now)) in edits
  {
    hide *;
    PlainIsRecord(r);
    PlainChanges(r);
    Residue.OldNameHasStem(r.was);
    Residue.OldNameHasStem(r.now);
    Residue.StemsDiffer(r.was, r.now);
    assert r == Renaming(r.was, r.now);
    WholeFound(r, prefixCount, index, masked, edits);
  }

  lemma FullIsPlanned(r: Renaming, prefixCount: map<string, nat>, index: map<string, seq<string>>, masked: string, edits: seq<Edit>)
    requires Plain(r) && NothingMissed([r], prefixCount, index, masked, edits) && Occurs(r.was, masked)
    ensures FullName(r.was, r.now) in edits
  {
    PlainChanges(r);
    hide Occurs, HasStem, NoSibling, WholeStem, LegacyPrefix, ShortHandle, FacetlessStemOf, Plain, EndsWith;
    assert r in [r];
  }

  lemma HandleEditIs(r: Renaming, prefixCount: map<string, nat>, e: Edit)
    requires e in HandleEdits(r, prefixCount) && r.was != r.now
    ensures HandleOf(r, prefixCount, e.was, e.now) && LegacyPrefix(r.was) == Some(e.was) && ShortHandle(r.now) == Some(e.now)
  {
    hide LegacyPrefix, ShortHandle;
  }

  lemma HandleFound(r: Renaming, prefixCount: map<string, nat>, index: map<string, seq<string>>, masked: string, edits: seq<Edit>,
                    k: string, v: string) returns (now: string)
    requires NothingMissed([r], prefixCount, index, masked, edits)
    requires HandleOf(r, prefixCount, k, v) && HasStem(masked, false, k, false)
    ensures BareStem(k, now) in edits
  {
    hide HandleOf, HasStem, Occurs, WholeStemOf, FacetlessOf, NoSibling, WholeStem;
    assert r in [r];
    now :| BareStem(k, now) in edits;
  }

  lemma JustifiedAt(r: Renaming, prefixCount: map<string, nat>, index: map<string, seq<string>>, masked: string, edits: seq<Edit>, e: Edit)
    requires AllJustified([r], prefixCount, index, masked, edits) && e in edits
    ensures e in CitedAs(r, prefixCount, index)
  {
    hide Justified, CitedAs;
    JustifiedIsCited(r, prefixCount, index, masked, e);
  }

  lemma PlainChanges(r: Renaming)
    requires Plain(r)
    ensures r.was != r.now
  {
    hide Parse;
    EndsWithItself(r.was);
  }

  lemma HandleIsPlanned(r: Renaming, prefixCount: map<string, nat>, index: map<string, seq<string>>, masked: string, edits: seq<Edit>, e: Edit)
    requires Plain(r) && NothingMissed([r], prefixCount, index, masked, edits) && AllJustified([r], prefixCount, index, masked, edits)
    requires e.BareStem? && e in HandleEdits(r, prefixCount) && HasStem(masked, false, e.was, false)
    ensures e in edits
  {
    hide *;
    PlainIsRecord(r);
    WholeIsLong(r.was);
    PlainChanges(r);
    HandleEditIs(r, prefixCount, e);
    PrefixIsCitation(r.was);
    var now := HandleFound(r, prefixCount, index, masked, edits, e.was, e.now);
    JustifiedAt(r, prefixCount, index, masked, edits, BareStem(e.was, now));
    CitedIsOneOf(r, prefixCount, index, BareStem(e.was, now));
  }

  lemma WholeIsLong(name: string)
    requires IsRecordName(name)
    ensures |WholeStem(name)| >= |StemOf(name)|
  {
    WholeStemShaped(name);
  }

  lemma FacetlessEditIs(r: Renaming, index: map<string, seq<string>>, e: Edit)
    requires e in FacetlessEdits(r, index)
    ensures FacetlessStemOf(r.was) == Some(e.was) && FacetlessStemOf(r.now) == Some(e.now) && NoSibling([r], index, e.was)
  {
    hide FacetlessStemOf, NoSibling;
  }

  lemma FacetlessFound(r: Renaming, prefixCount: map<string, nat>, index: map<string, seq<string>>, masked: string, edits: seq<Edit>,
                       k: string, v: string) returns (now: string)
    requires NothingMissed([r], prefixCount, index, masked, edits)
    requires FacetlessOf(r, k, v) && NoSibling([r], index, k) && HasStem(masked, false, k, true)
    ensures FacetlessStem(k, now) in edits
  {
    hide HandleOf, HasStem, Occurs, WholeStemOf, FacetlessOf, NoSibling, WholeStem;
    assert r in [r];
    now :| FacetlessStem(k, now) in edits;
  }

  lemma FacetlessChanges(r: Renaming, k: string, v: string)
    requires Plain(r) && FacetlessStemOf(r.was) == Some(k) && FacetlessStemOf(r.now) == Some(v)
    ensures FacetlessOf(r, k, v)
  {
    hide *;
    PlainIsRecord(r);
    PlainChanges(r);
    FacetlessIsStem(r.was);
    FacetlessIsStem(r.now);
    EndsWithItself(StemOf(r.was));
    var f := WholeHasFacet(r.was, k);
    FacetlessOfIs(r, k, v);
  }

  lemma FacetlessOfIs(r: Renaming, k: string, v: string)
    ensures FacetlessOf(r, k, v) <==>
              r.was != r.now && FacetlessStemOf(r.was) == Some(k) && FacetlessStemOf(r.now) == Some(v) && k != v && k != WholeStem(r.was)
  {
    hide FacetlessStemOf, WholeStem;
  }

  lemma FacetlessIsPlanned(r: Renaming, prefixCount: map<string, nat>, index: map<string, seq<string>>, masked: string, edits: seq<Edit>, e: Edit)
    requires Plain(r) && NothingMissed([r], prefixCount, index, masked, edits) && AllJustified([r], prefixCount, index, masked, edits)
    requires e.FacetlessStem? && e in FacetlessEdits(r, index) && HasStem(masked, false, e.was, true)
    ensures e in edits
  {
    hide *;
    FacetlessEditIs(r, index, e);
    FacetlessChanges(r, e.was, e.now);
    var now := FacetlessFound(r, prefixCount, index, masked, edits, e.was, e.now);
    JustifiedAt(r, prefixCount, index, masked, edits, FacetlessStem(e.was, now));
    CitedIsOneOf(r, prefixCount, index, FacetlessStem(e.was, now));
  }

  /** Whatever the record is cited by in the masked text is planned. */
  lemma CitedIsPlanned(r: Renaming, prefixCount: map<string, nat>, index: map<string, seq<string>>, masked: string, edits: seq<Edit>, x: Edit)
    requires Plain(r) && NothingMissed([r], prefixCount, index, masked, edits) && AllJustified([r], prefixCount, index, masked, edits)
    requires x in CitedAs(r, prefixCount, index) && x.was != "" && CitedIn(x, masked, false)
    ensures x in edits
  {
    hide *;
    CitedMeans(x, masked, false);
    WhichOf(r, prefixCount, index, x);
    match x {
      case FullName(_, _) =>
        FullIsPlanned(r, prefixCount, index, masked, edits);
      case BareStem(_, _) =>
        if x in HandleEdits(r, prefixCount) {
          HandleIsPlanned(r, prefixCount, index, masked, edits, x);
        } else {
          WholeIsPlanned(r, prefixCount, index, masked, edits);
        }
      case FacetlessStem(_, _) =>
        FacetlessIsPlanned(r, prefixCount, index, masked, edits, x);
    }
  }

  lemma WhichOf(r: Renaming, prefixCount: map<string, nat>, index: map<string, seq<string>>, x: Edit)
    requires x in CitedAs(r, prefixCount, index)
    ensures x.FullName? ==> x == FullName(r.was, r.now)
    ensures x.BareStem? ==> x in HandleEdits(r, prefixCount) || x == BareStem(WholeStem(r.was), WholeStem(r.now))
    ensures x.FacetlessStem? ==> x in FacetlessEdits(r, index)
  {
    hide WholeStem, LegacyPrefix, ShortHandle, FacetlessStemOf, NoSibling;
  }

  // ----- the order of the plan -----

  lemma {:induction false} SortedByKind(edits: seq<Edit>, i: nat, j: nat)
    requires i < j < |SortByKind(edits)|
    ensures EditOrder(SortByKind(edits)[i]) <= EditOrder(SortByKind(edits)[j])
  {
    hide OfOrder, EditOrder;
    var a, b, c := OfOrder(0, edits), OfOrder(1, edits), OfOrder(2, edits);
    assert forall k | 0 <= k < |a| :: a[k] in a;
    assert forall k | 0 <= k < |b| :: b[k] in b;
    assert forall k | 0 <= k < |c| :: c[k] in c;
  }

  lemma FullIsFirst(e: Edit, x: Edit)
    requires EditOrder(e) <= EditOrder(x) && x.FullName?
    ensures e.FullName?
  {
  }

  lemma PlanIsPairwiseClear(r: Renaming, prefixCount: map<string, nat>, index: map<string, seq<string>>, edits: seq<Edit>)
    requires Plain(r) && forall e | e in edits :: e in CitedAs(r, prefixCount, index)
    ensures PairwiseClear(SortByKind(edits)) && AllGood(SortByKind(edits))
  {
    var plan := SortByKind(edits);
    hide *;
    KindsKeep(edits);
    forall i, j | 0 <= i < j < |plan|
      ensures Clear(plan[i], plan[j])
    {
      var e, x := plan[i], plan[j];
      assert e in plan && x in plan;
      BigOrSmall(r, prefixCount, index, e);
      BigOrSmall(r, prefixCount, index, x);
      BigIsOne(e, r);
      BigIsOne(x, r);
      SortedByKind(edits, i, j);
      if x.FullName? {
        FullIsFirst(e, x);
      }
      ClearOf(r, e, x);
    }
    forall e | e in plan
      ensures Good(e)
    {
      BigOrSmall(r, prefixCount, index, e);
      BigIsOne(e, r);
    }
    PairwiseMeans(plan);
  }

  lemma PairwiseMeans(plan: seq<Edit>)
    requires forall i, j | 0 <= i < j < |plan| :: Clear(plan[i], plan[j])
    requires forall e | e in plan :: Good(e)
    ensures PairwiseClear(plan) && AllGood(plan)
  {
    hide Clear, Good;
  }

  lemma KindsKeep(edits: seq<Edit>)
    ensures forall e :: e in SortByKind(edits) <==> e in edits
  {
  }

  // ----- free stretches -----

  lemma {:induction false} CitedBeforeNul(x: Edit, v: string, b: string, inToken: bool)
    requires NUL !in x.was && CitedIn(x, v, inToken)
    ensures CitedIn(x, v + [NUL] + b, inToken)
    decreases |v|
  {
    hide *;
    var s := v + [NUL] + b;
    CitedStep(x, v, inToken);
    CitedStep(x, s, inToken);
    if Fits(x, v, inToken) {
      FitsIs(x, v, inToken);
      FitsIs(x, s, inToken);
      PrefixStopsAtNul(v, b, x.was);
      assert s[|x.was|..] == v[|x.was|..] + [NUL] + b;
      EndsAtNul(x, v[|x.was|..], b);
    } else {
      assert s[1..] == v[1..] + [NUL] + b && s[0] == v[0];
      CitedBeforeNul(x, v[1..], b, IsTokenChar(v[0]));
    }
  }

  lemma EndsAtNul(x: Edit, rest: string, b: string)
    ensures Ends(x, rest + [NUL] + b) <==> Ends(x, rest)
  {
    hide EndsStem;
    EndsStemStopsAtNul(rest, b, false);
    EndsStemStopsAtNul(rest, b, true);
  }

  lemma CitedStep(x: Edit, s: string, inToken: bool)
    ensures CitedIn(x, s, inToken) <==> s != "" && (Fits(x, s, inToken) || CitedIn(x, s[1..], IsTokenChar(s[0])))
  {
    hide Fits, IsTokenChar;
  }

  /** What is cited in a free stretch is cited in the masked text. */
  lemma CitedWithin(x: Edit, v: string, s: string)
    requires NUL !in x.was && Within(v, s) && CitedIn(x, v, false)
    ensures CitedIn(x, s, false)
  {
    hide CitedIn, IsTokenChar;
    var a, b :| Between(v, a, b, s);
    if b != "" {
      CitedBeforeNul(x, v, b[1..], false);
      assert b == [NUL] + b[1..];
      assert v + b == v + [NUL] + b[1..];
    } else {
      assert v + b == v;
    }
    assert s == a + (v + b) && s[|a|..] == v + b;
    NulIsNoToken();
    if a != "" {
      assert s[|a| - 1] == NUL;
      CitedLater(x, s, false, |a|);
    } else {
      assert s[0..] == s;
    }
  }

  /** One free stretch after the planned rewrites is one pass over it. */
  lemma StretchIsRenamed(text: string, r: Renaming, prefixCount: map<string, nat>, index: map<string, seq<string>>, edits: seq<Edit>, v: string)
    requires Plain(r) && Within(v, MaskedText(text)) && AllDated(SortByKind(edits))
    requires AllJustified([r], prefixCount, index, MaskedText(text), edits)
    requires NothingMissed([r], prefixCount, index, MaskedText(text), edits)
    ensures NameFirst(CitedAs(r, prefixCount, index)) && NoneEmpty(CitedAs(r, prefixCount, index))
    ensures RewriteAll(v, SortByKind(edits)) == Renamed(v, false, CitedAs(r, prefixCount, index))
  {
    var masked, plan, all := MaskedText(text), SortByKind(edits), CitedAs(r, prefixCount, index);
    hide *;
    KindsKeep(edits);
    AllJustifiedIsCited(r, prefixCount, index, masked, edits);
    PlanIsPairwiseClear(r, prefixCount, index, edits);
    CitedIsGood(r, prefixCount, index);
    HasName(all);
    OneStemFits(r, prefixCount, index);
    RewritesAreOnePass(v, plan);
    forall x | x in all && CitedIn(x, v, false)
      ensures x in plan
    {
      NameFirstIs(all, x);
      GoodFacts(x);
      GoodHasNoNul(r, prefixCount, index, x);
      CitedWithin(x, v, masked);
      CitedIsPlanned(r, prefixCount, index, masked, edits, x);
    }
    SamePass(v, false, plan, all);
  }

  lemma AllJustifiedIsCited(r: Renaming, prefixCount: map<string, nat>, index: map<string, seq<string>>, masked: string, edits: seq<Edit>)
    requires AllJustified([r], prefixCount, index, masked, edits)
    ensures forall e | e in edits :: e in CitedAs(r, prefixCount, index)
  {
    hide *;
    forall e | e in edits
      ensures e in CitedAs(r, prefixCount, index)
    {
      JustifiedAt(r, prefixCount, index, masked, edits, e);
    }
  }

  lemma GoodHasNoNul(r: Renaming, prefixCount: map<string, nat>, index: map<string, seq<string>>, x: Edit)
    requires Plain(r) && x in CitedAs(r, prefixCount, index)
    ensures NUL !in x.was
  {
    hide *;
    PlainIsRecord(r);
    CitedIsOneOf(r, prefixCount, index, x);
    RecordIsHyphenated(r.was);
    NoNul(r.was);
    NoNul(WholeStem(r.was));
    if x.FacetlessStem? {
      FacetlessIsStem(r.was);
      NoNul(StemOf(r.was));
    } else if LegacyPrefix(r.was) == Some(x.was) {
      PrefixIsPrefix(r.was);
    }
  }

  lemma NoNul(s: string)
    ensures Hyphenated(s) ==> NUL !in s
  {
  }

  lemma PrefixIsPrefix(name: string)
    requires LegacyPrefix(name).Some? && NUL !in name
    ensures NUL !in LegacyPrefix(name).value
  {
    assert forall c | c in name[..16] :: c in name;
  }

  // ----- the file -----

  /** One region of the file after the rename. */
  function RegionRenamed(region: Region, all: seq<Edit>): Region
    requires NoneEmpty(all)
  {
    match region
    case Kept(_) => region
    case Free(v) => Free(Renamed(v, false, all))
  }

  lemma {:induction false} EditedAt(regions: seq<Region>, edits: seq<Edit>, i: nat)
    requires AllDated(edits) && i < |regions|
    ensures |Edited(regions, edits)| == |regions|
    ensures Edited(regions, edits)[i] == if regions[i].Free? then Free(RewriteAll(regions[i].text, edits)) else regions[i]
    decreases |regions|
  {
    hide RewriteAll, AllDated;
    if i > 0 {
      EditedAt(regions[1..], edits, i - 1);
    } else if |regions| > 1 {
      EditedAt(regions[1..], edits, 0);
    }
  }

  ghost predicate RenamedFile(text: string, all: seq<Edit>, result: Option<string>, after: seq<Region>)
    requires NoneEmpty(all)
  {
    && TextOf(Regions(text)) == text && result == Some(TextOf(after)) && |after| == |Regions(text)|
    && forall i | 0 <= i < |after| :: after[i] == RegionRenamed(Regions(text)[i], all)
  }

  /** Plan and apply one rename that keeps the facet, in any text that brings no foreign token: the file keeps
      its fenced blocks and pinned links, and each free stretch is read once from the left with the new form put
      in for every old one found there. */
  lemma RenamedTextIs(text: string, r: Renaming, prefixCount: map<string, nat>, index: map<string, seq<string>>, edits: seq<Edit>)
      returns (after: seq<Region>)
    requires !Foreign(text) && Plain(r)
    requires AllJustified([r], prefixCount, index, MaskedText(text), edits)
    requires NothingMissed([r], prefixCount, index, MaskedText(text), edits)
    ensures AllDated(SortByKind(edits)) && NameFirst(CitedAs(r, prefixCount, index)) && NoneEmpty(CitedAs(r, prefixCount, index))
    ensures RenamedFile(text, CitedAs(r, prefixCount, index), Apply(text, SortByKind(edits)), after)
  {
    var plan, all := SortByKind(edits), CitedAs(r, prefixCount, index);
    PlanDated(text, r, prefixCount, index, edits);
    hide *;
    CitedIsGood(r, prefixCount, index);
    HasName(all);
    ApplyEditsFreeRegionsOnly(text, plan);
    var regions := Regions(text);
    after := Edited(regions, plan);
    if regions != [] {
      EditedAt(regions, plan, 0);
    }
    NoRegions(plan);
    forall i | 0 <= i < |regions|
      ensures |after| == |regions| && after[i] == RegionRenamed(regions[i], all)
    {
      EditedAt(regions, plan, i);
      if regions[i].Free? {
        RegionWithin(text, regions[i]);
        StretchIsRenamed(text, r, prefixCount, index, edits, regions[i].text);
      }
      RegionRenamedIs(regions[i], all);
    }
    RenamedFileIs(text, all, Apply(text, plan), after);
  }

  lemma NoRegions(edits: seq<Edit>)
    requires AllDated(edits)
    ensures Edited([], edits) == []
  {
  }

  lemma RegionRenamedIs(region: Region, all: seq<Edit>)
    requires NoneEmpty(all)
    ensures RegionRenamed(region, all) == if region.Free? then Free(Renamed(region.text, false, all)) else region
  {
    hide Renamed;
  }

  lemma RenamedFileIs(text: string, all: seq<Edit>, result: Option<string>, after: seq<Region>)
    requires NoneEmpty(all)
    requires TextOf(Regions(text)) == text && result == Some(TextOf(after)) && |after| == |Regions(text)|
    requires forall i | 0 <= i < |after| :: after[i] == RegionRenamed(Regions(text)[i], all)
    ensures RenamedFile(text, all, result, after)
  {
    hide RegionRenamed, Regions, TextOf;
  }

  lemma PlanDated(text: string, r: Renaming, prefixCount: map<string, nat>, index: map<string, seq<string>>, edits: seq<Edit>)
    requires !Foreign(text) && Plain(r)
    requires AllJustified([r], prefixCount, index, MaskedText(text), edits)
    requires NothingMissed([r], prefixCount, index, MaskedText(text), edits)
    ensures AllDated(SortByKind(edits))
  {
    hide Parse, EndsWith, Foreign, AllJustified, NothingMissed, MaskedText, SortByKind, Regions;
    assert r == Renaming(r.was, r.now);
    RenamedRecordLeavesNoCitation(text, r.was, r.now, prefixCount, index, edits);
  }

  // ----- what a citation becomes -----

  lemma RegionIs(text: string, all: seq<Edit>, result: Option<string>, after: seq<Region>, i: nat)
    requires NoneEmpty(all) && RenamedFile(text, all, result, after) && i < |Regions(text)|
    ensures i < |after| && after[i] == if Regions(text)[i].Free? then Free(Renamed(Regions(text)[i].text, false, all)) else Regions(text)[i]
  {
    hide Renamed, Regions, TextOf;
  }

  /** Where the old name first stands in a free stretch, the applied file holds the new name once, and after it
      the rest of the stretch read on its own. What stands before is as it was when it cites the record in no
      other form, and is read on its own when it ends at a boundary. */
  lemma CitedNameBecomesNew(text: string, r: Renaming, prefixCount: map<string, nat>, index: map<string, seq<string>>, edits: seq<Edit>,
                            i: nat, a: string, b: string) returns (after: seq<Region>, head: string)
    requires !Foreign(text) && Plain(r)
    requires AllJustified([r], prefixCount, index, MaskedText(text), edits)
    requires NothingMissed([r], prefixCount, index, MaskedText(text), edits)
    requires i < |Regions(text)| && Regions(text)[i] == Free(a + r.was + b) && FirstAt(a, r.was, b)
    ensures AllDated(SortByKind(edits)) && NoneEmpty(CitedAs(r, prefixCount, index))
    ensures RenamedFile(text, CitedAs(r, prefixCount, index), Apply(text, SortByKind(edits)), after)
    ensures i < |after| && after[i] == Free(head + r.now + Renamed(b, true, CitedAs(r, prefixCount, index)))
    ensures NoOther(CitedAs(r, prefixCount, index), FullName(r.was, r.now), a) ==> head == a
    ensures AtBoundary(a) ==> head == Renamed(a, false, CitedAs(r, prefixCount, index))
  {
    hide *;
    after := RenamedTextIs(text, r, prefixCount, index, edits);
    var all := CitedAs(r, prefixCount, index);
    CitedIsGood(r, prefixCount, index);
    HasName(all);
    RegionIs(text, all, Apply(text, SortByKind(edits)), after, i);
    head := NameBecomesNew(a, b, false, all);
    HeadMeans(a, b, false, all, head);
  }

  /** One stretch before and after: cut at the leftmost places of the old name that do not overlap, the parts are
      joined by the old name before and by the new one after. A part that cites the record in no other form is
      kept, and one that ends at a boundary is read on its own. */
  ghost predicate NamesSwapped(r: Renaming, all: seq<Edit>, before: string, after: string, parts: seq<string>, turned: seq<string>)
    requires NameFirst(all)
  {
    && parts != [] && |turned| == |parts|
    && before == Join(parts, r.was) && Leftmost(parts, r.was) && after == Join(turned, r.now)
    && AllReadAs(all, parts, false, turned)
  }

  /** Every free stretch of the applied file is the old one with exactly the new name in place of each leftmost
      place of the old name, and every other region is as it was. */
  lemma EveryNameBecomesNew(text: string, r: Renaming, prefixCount: map<string, nat>, index: map<string, seq<string>>, edits: seq<Edit>)
      returns (after: seq<Region>)
    requires !Foreign(text) && Plain(r)
    requires AllJustified([r], prefixCount, index, MaskedText(text), edits)
    requires NothingMissed([r], prefixCount, index, MaskedText(text), edits)
    ensures AllDated(SortByKind(edits)) && NameFirst(CitedAs(r, prefixCount, index))
    ensures TextOf(Regions(text)) == text && Apply(text, SortByKind(edits)) == Some(TextOf(after)) && |after| == |Regions(text)|
    ensures forall i | 0 <= i < |after| && Regions(text)[i].Kept? :: after[i] == Regions(text)[i]
    ensures forall i | 0 <= i < |after| && Regions(text)[i].Free? ::
              && after[i].Free?
              && exists parts, turned :: NamesSwapped(r, CitedAs(r, prefixCount, index), Regions(text)[i].text, after[i].text, parts, turned)
  {
    hide *;
    after := RenamedTextIs(text, r, prefixCount, index, edits);
    var all, result := CitedAs(r, prefixCount, index), Apply(text, SortByKind(edits));
    CitedIsGood(r, prefixCount, index);
    HasName(all);
    RenamedFileMeans(text, all, result, after);
    forall i | 0 <= i < |after|
      ensures Regions(text)[i].Kept? ==> after[i] == Regions(text)[i]
      ensures Regions(text)[i].Free? ==>
                (after[i].Free? && exists parts, turned :: NamesSwapped(r, all, Regions(text)[i].text, after[i].text, parts, turned))
    {
      RegionIs(text, all, result, after, i);
      if Regions(text)[i].Free? {
        var v := Regions(text)[i].text;
        var parts, turned := NamesBecomeNew(v, false, all);
        SameCount(all, parts, false, turned);
        Swaps(r, all, v, after[i].text, parts, turned);
      }
    }
  }

  lemma Swaps(r: Renaming, all: seq<Edit>, before: string, after: string, parts: seq<string>, turned: seq<string>)
    requires NameFirst(all) && parts != [] && |turned| == |parts|
    requires before == Join(parts, r.was) && Leftmost(parts, r.was) && after == Join(turned, r.now) && AllReadAs(all, parts, false, turned)
    ensures NamesSwapped(r, all, before, after, parts, turned)
  {
    hide Join, Leftmost, AllReadAs, NameFirst;
  }

  lemma RenamedFileMeans(text: string, all: seq<Edit>, result: Option<string>, after: seq<Region>)
    requires NoneEmpty(all) && RenamedFile(text, all, result, after)
    ensures TextOf(Regions(text)) == text && result == Some(TextOf(after)) && |after| == |Regions(text)|
  {
    hide RegionRenamed, Regions, TextOf;
  }

  /** A stem or handle of the record between boundaries, and no whole name there, becomes its new form. */
  lemma CitedStemBecomesNew(text: string, r: Renaming, prefixCount: map<string, nat>, index: map<string, seq<string>>, edits: seq<Edit>,
                            i: nat, a: string, x: Edit, b: string) returns (after: seq<Region>)
    requires !Foreign(text) && Plain(r)
    requires AllJustified([r], prefixCount, index, MaskedText(text), edits)
    requires NothingMissed([r], prefixCount, index, MaskedText(text), edits)
    requires x in CitedAs(r, prefixCount, index) && !x.FullName?
    requires i < |Regions(text)| && Regions(text)[i] == Free(a + x.was + b)
    requires AtBoundary(a) && EndsStem(b, x.FacetlessStem?) && !(r.was <= x.was + b)
    ensures AllDated(SortByKind(edits)) && NoneEmpty(CitedAs(r, prefixCount, index))
    ensures RenamedFile(text, CitedAs(r, prefixCount, index), Apply(text, SortByKind(edits)), after)
    ensures var all := CitedAs(r, prefixCount, index);
            i < |after| && after[i] == Free(Renamed(a, false, all) + x.now + Renamed(b, true, all))
  {
    hide *;
    after := RenamedTextIs(text, r, prefixCount, index, edits);
    var all := CitedAs(r, prefixCount, index);
    CitedIsGood(r, prefixCount, index);
    OneStemFits(r, prefixCount, index);
    RegionIs(text, all, Apply(text, SortByKind(edits)), after, i);
    EndsOfStem(x, b);
    StemBecomesNew(a, x, b, false, all);
  }

  lemma EndsOfStem(x: Edit, b: string)
    requires !x.FullName?
    ensures Ends(x, b) <==> EndsStem(b, x.FacetlessStem?)
  {
    hide EndsStem;
  }
}
