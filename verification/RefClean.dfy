/** After a rename is planned and applied to a file, no citation of an old name survives outside the masked
    spans. */
module RefClean {
  import opened Wrappers
  import opened Text
  import opened Naming
  import opened Rewriting
  import opened Citations
  import opened RecordNames
  import opened RefPlan
  import opened RefApply
  import opened Masking
  import opened Links
  import opened Unmasking
  import opened FreeStretches

  predicate AllRecords(renames: seq<Renaming>) {
    forall r | r in renames :: IsRecordName(r.was) && IsRecordName(r.now)
  }

  /** No new name, stem or short handle ends with an old one, and no old name ends with a new one. */
  predicate Separate(renames: seq<Renaming>) {
    forall r, q | r in renames && q in renames :: SeparatePair(r, q.was)
  }

  predicate SeparatePair(r: Renaming, w: string) {
    && !EndsWith(w, r.now) && !EndsWith(r.now, w) && !EndsWith(StemOf(r.now), StemOf(w))
    && (LegacyPrefix(r.was).Some? && ShortHandle(r.now).Some? ==> !EndsWith(ShortHandle(r.now).value, StemOf(w)))
  }

  // ----- the strings of a record name -----

  predicate Hyphenated(s: string) {
    s != "" && '-' in s && NUL !in s
  }

  lemma RecordIsHyphenated(name: string)
    requires IsRecordName(name)
    ensures Hyphenated(name) && Hyphenated(WholeStem(name)) && Hyphenated(StemOf(name))
  {
    hide IsRecordName, StemOf, WholeStem;
    var l := RecordIsShaped(name);
    var d := |StemOf(name)|;
    WholeStemIsPrefix(name, d, l);
    ShapedHasHyphen(name, d, l);
    assert StemOf(name) == name[..d];
  }

  lemma ShapedHasHyphen(name: string, d: nat, l: nat)
    requires Shaped(name, d, l)
    ensures forall k | d <= k <= |name| :: Hyphenated(name[..k])
    ensures Hyphenated(name)
  {
    forall i | 0 <= i < |name|
      ensures name[i] != NUL
    {
      assert i < d ==> IsKebabChar(name[i]);
    }
    forall k | d <= k <= |name|
      ensures Hyphenated(name[..k])
    {
      assert name[..k][8] == '-';
    }
    assert name[..|name|] == name;
  }

  lemma WholeStemIsPrefix(name: string, d: nat, l: nat)
    requires Shaped(name, d, l)
    ensures WholeStem(name) == name[..l]
  {
    assert name[l..] == ".md";
  }

  lemma WholeStemShaped(name: string)
    requires IsRecordName(name)
    ensures var s, d := WholeStem(name), |StemOf(name)|;
            s != "" && d <= |s| && StemShaped(s, d) && s[..d] == StemOf(name) && IsTokenChar(s[|s| - 1])
  {
    hide IsRecordName, WholeStem;
    var l := RecordIsShaped(name);
    var d := |StemOf(name)|;
    WholeStemIsPrefix(name, d, l);
    var s := name[..l];
    assert forall i | 0 <= i < l :: s[i] == name[i];
    assert s[..d] == StemOf(name);
  }

  lemma StemIsShaped(name: string)
    requires IsRecordName(name)
    ensures var s := StemOf(name); StemShaped(s, |s|) && s[..|s|] == s && IsTokenChar(s[|s| - 1])
  {
    hide IsRecordName;
    var l := RecordIsShaped(name);
  }

  lemma HandleShaped(name: string)
    requires ShortHandle(name).Some?
    ensures var h := ShortHandle(name).value; StemShaped(h, |h|) && h[..|h|] == h && Hyphenated(h)
  {
    var (date, setId, nn, _) := ParsePrefix(name).value;
    var h := date + "-" + setId + "-" + nn;
    var k := FirstMiddle(name[9..], 1).value;
    assert MiddleAt(name[9..], k);
    assert IsKebabChar(name[9]);
    assert forall j | 0 <= j < k :: IsKebabChar(name[9..][j]);
    assert setId == name[9..][..k];
    assert forall i | 0 <= i < |setId| :: IsTokenChar(setId[i]);
    assert h[8] == '-' && IsDigit(h[0]);
    HandleCharacters(date, setId, nn);
  }

  lemma HandleCharacters(date: string, setId: string, nn: string)
    requires AllDigits(date) && AllDigits(nn) && forall i | 0 <= i < |setId| :: IsTokenChar(setId[i])
    ensures forall i | 0 <= i < |date + "-" + setId + "-" + nn| :: IsTokenChar((date + "-" + setId + "-" + nn)[i])
  {
  }

  lemma PrefixIsHyphenated(name: string)
    requires LegacyPrefix(name).Some? && NUL !in name
    ensures var p := LegacyPrefix(name).value; Hyphenated(p) && IsTokenChar(p[|p| - 1])
  {
    var p := name[..16];
    assert p[8] == '-';
    assert IsDigit(name[14..16][1]);
    assert p[15] == name[14..16][1];
  }

  /** Cutting off `.<facet>.md` leaves the part before the first dot. */
  lemma {:induction false} WithoutFacetIsStem(name: string, facets: seq<string>)
    requires IsRecordName(name) && forall f | f in facets :: IsArtifactFacet(f)
    ensures WithoutFacet(name, facets).None? || WithoutFacet(name, facets) == Some(StemOf(name))
    decreases |facets|
  {
    hide IsRecordName, IsArtifactFacet;
    if facets != [] {
      var suffix := "." + facets[0] + ".md";
      if EndsWith(name, suffix) {
        FacetSuffixIsTail(name, facets[0]);
      } else {
        WithoutFacetIsStem(name, facets[1..]);
      }
    }
  }

  lemma FacetSuffixIsTail(name: string, f: string)
    requires IsRecordName(name) && IsArtifactFacet(f) && EndsWith(name, "." + f + ".md")
    ensures |f| + 4 <= |name| && name[..|name| - |f| - 4] == StemOf(name)
  {
    hide *;
    var suffix := "." + f + ".md";
    var l := RecordIsShaped(name);
    FacetIsWord(f);
    Suffix(name, suffix, 0);
    DotOfFacet(name, |StemOf(name)|, l, |name| - |suffix|);
    StemIsCut(name);
  }

  lemma StemIsCut(name: string)
    ensures |StemOf(name)| <= |name| && StemOf(name) == name[..|StemOf(name)|]
  {
    hide StemOf;
  }

  /** A dot more than three characters before the end of a name is its first. */
  lemma DotOfFacet(name: string, d: nat, l: nat, k: nat)
    requires Shaped(name, d, l) && k + 3 < |name| && name[k] == '.'
    ensures k == d
  {
  }

  lemma FacetsAreFacets()
    ensures forall f | f in FACETS :: IsArtifactFacet(f)
  {
  }

  lemma FacetlessIsStem(name: string)
    requires IsRecordName(name) && FacetlessStemOf(name).Some?
    ensures FacetlessStemOf(name).value == StemOf(name)
  {
    FacetsAreFacets();
    hide IsRecordName, WithoutFacet;
    WithoutFacetIsStem(name, FACETS);
  }

  // ----- one edit of a plan -----

  /** An edit that cannot bring an old name back. */
  ghost predicate Harmless(e: Edit, w: string) {
    && Dated(e)
    && (if e.FullName? then Apart(w, e.now) else StemApart(w, e.now) && IsTokenChar(e.was[|e.was| - 1]))
  }

  lemma FullNameIsHarmless(r: Renaming, w: string)
    requires IsRecordName(r.was) && IsRecordName(r.now) && IsRecordName(w) && SeparatePair(r, w)
    ensures Harmless(FullName(r.was, r.now), w)
  {
    hide IsRecordName, Apart, EndsWith, LegacyPrefix, ShortHandle, WholeStem;
    NamesApart(w, r.now);
    RecordIsHyphenated(r.was);
    RecordIsHyphenated(r.now);
  }

  lemma WholeStemIsHarmless(r: Renaming, w: string)
    requires IsRecordName(r.was) && IsRecordName(r.now) && IsRecordName(w) && SeparatePair(r, w)
    ensures Harmless(BareStem(WholeStem(r.was), WholeStem(r.now)), w)
  {
    hide IsRecordName, StemApart, EndsWith, LegacyPrefix, ShortHandle, WholeStem, IsTokenChar, StemShaped, StemOf;
    var was, now, d := WholeStem(r.was), WholeStem(r.now), |StemOf(r.now)|;
    RecordIsHyphenated(r.was);
    RecordIsHyphenated(r.now);
    assert was != "" && IsTokenChar(was[|was| - 1]) by {
      WholeStemShaped(r.was);
    }
    assert StemShaped(now, d) && d <= |now| && now[..d] == StemOf(r.now) by {
      WholeStemShaped(r.now);
    }
    StemNamesApart(w, now, d);
  }

  lemma HandleIsHarmless(r: Renaming, w: string, was: string, now: string)
    requires IsRecordName(r.was) && IsRecordName(w) && SeparatePair(r, w)
    requires LegacyPrefix(r.was) == Some(was) && ShortHandle(r.now) == Some(now)
    ensures Harmless(BareStem(was, now), w)
  {
    hide IsRecordName, StemApart, EndsWith, LegacyPrefix, ShortHandle, WholeStem, IsTokenChar, StemShaped;
    RecordIsHyphenated(r.was);
    HandleShaped(r.now);
    PrefixIsHyphenated(r.was);
    StemNamesApart(w, now, |now|);
  }

  lemma FacetlessIsHarmless(r: Renaming, w: string, was: string, now: string)
    requires IsRecordName(r.was) && IsRecordName(r.now) && IsRecordName(w) && SeparatePair(r, w)
    requires FacetlessStemOf(r.was) == Some(was) && FacetlessStemOf(r.now) == Some(now)
    ensures Harmless(FacetlessStem(was, now), w)
  {
    hide IsRecordName, StemApart, EndsWith, LegacyPrefix, ShortHandle, WholeStem, IsTokenChar, StemShaped, FacetlessStemOf;
    RecordIsHyphenated(r.was);
    RecordIsHyphenated(r.now);
    FacetlessIsStem(r.was);
    FacetlessIsStem(r.now);
    StemIsShaped(r.was);
    StemIsShaped(r.now);
    StemNamesApart(w, now, |now|);
  }

  lemma JustifiedIsHarmless(renames: seq<Renaming>, prefixCount: map<string, nat>, index: map<string, seq<string>>, masked: string, e: Edit, w: string)
    requires AllRecords(renames) && IsRecordName(w) && forall r | r in renames :: SeparatePair(r, w)
    requires Justified(renames, prefixCount, index, masked, e)
    ensures Harmless(e, w)
  {
    hide IsRecordName, SeparatePair, Harmless, HasStem, Occurs, LegacyPrefix, ShortHandle, WholeStem, FacetlessStemOf, NoSibling;
    match e {
      case FullName(was, now) =>
        FullNameIsHarmless(Renaming(was, now), w);
      case BareStem(was, now) =>
        var r :| r in renames && (WholeStemOf(r, was, now) || HandleOf(r, prefixCount, was, now));
        if WholeStemOf(r, was, now) {
          WholeStemIsHarmless(r, w);
        } else {
          HandleIsHarmless(r, w, was, now);
        }
      case FacetlessStem(was, now) =>
        var r :| r in renames && FacetlessOf(r, was, now);
        FacetlessIsHarmless(r, w, was, now);
    }
  }

  // ----- a run of edits -----

  lemma {:induction false} RewriteAllJoins(s: string, a: seq<Edit>, b: seq<Edit>)
    requires AllDated(a) && AllDated(b)
    ensures AllDated(a + b) && RewriteAll(s, a + b) == RewriteAll(RewriteAll(s, a), b)
    decreases |a|
  {
    hide Rewrite;
    if a == [] {
      assert a + b == b;
    } else {
      assert Dated(a[0]) && (a + b)[0] == a[0] && (a + b)[1..] == a[1..] + b;
      RewriteAllJoins(Rewrite(s, a[0]), a[1..], b);
    }
  }

  lemma HarmlessRewrite(s: string, e: Edit, w: string)
    requires Harmless(e, w) && ((e.FullName? && e.was == w) || !Occurs(w, s))
    ensures e.was != "" && !Occurs(w, Rewrite(s, e))
  {
    hide Apart, StemApart, Occurs, IsTokenChar;
    match e {
      case FullName(was, now) => ReplaceKeepsOut(s, was, now, w);
      case BareStem(was, now) => SubKeepsOut(s, false, was, now, false, w);
      case FacetlessStem(was, now) => SubKeepsOut(s, false, was, now, true, w);
    }
  }

  ghost predicate AllHarmless(edits: seq<Edit>, w: string) {
    forall e | e in edits :: Harmless(e, w)
  }

  ghost predicate Removes(edits: seq<Edit>, w: string) {
    exists now :: FullName(w, now) in edits
  }

  lemma {:induction false} HarmlessRun(s: string, edits: seq<Edit>, w: string)
    requires AllHarmless(edits, w) && (Removes(edits, w) || !Occurs(w, s))
    ensures AllDated(edits) && !Occurs(w, RewriteAll(s, edits))
    decreases |edits|
  {
    hide Apart, StemApart, Occurs, IsTokenChar, Rewrite;
    assert AllDated(edits);
    if edits != [] {
      var e := edits[0];
      assert e in edits && forall x | x in edits[1..] :: x in edits;
      if (e.FullName? && e.was == w) || !Occurs(w, s) {
        HarmlessRewrite(s, e, w);
      } else {
        var now :| FullName(w, now) in edits;
        assert FullName(w, now) in edits[1..];
      }
      HarmlessRun(Rewrite(s, e), edits[1..], w);
    }
  }

  // ----- the theorem -----

  /** Rename dated records under any map whose names do not run into one another, plan the edits of one file and
      apply them: every fenced block and pinned link is as it was, and no free stretch still names an old
      record, whatever the text around the citations. */
  lemma NoCitationSurvives(text: string, renames: seq<Renaming>, prefixCount: map<string, nat>, index: map<string, seq<string>>, edits: seq<Edit>)
    requires !Foreign(text) && AllRecords(renames) && Separate(renames)
    requires AllJustified(renames, prefixCount, index, MaskedText(text), edits)
    requires NothingMissed(renames, prefixCount, index, MaskedText(text), edits)
    ensures AllDated(SortByKind(edits))
    ensures Apply(text, SortByKind(edits)) == Some(TextOf(Edited(Regions(text), SortByKind(edits))))
    ensures forall q, r | q in renames && r in Edited(Regions(text), SortByKind(edits)) && r.Free? :: !Occurs(q.was, r.text)
  {
    var sorted := SortByKind(edits);
    PlanIsDated(renames, prefixCount, index, MaskedText(text), edits);
    hide *;
    ApplyEditsFreeRegionsOnly(text, sorted);
    forall q, r | q in renames && r in Edited(Regions(text), sorted) && r.Free?
      ensures !Occurs(q.was, r.text)
    {
      var i := EditedFree(Regions(text), sorted, r);
      RegionOccurs(text, Regions(text)[i]);
      var masked := MaskedText(text);
      PlanIsHarmless(renames, prefixCount, index, masked, edits, q);
      if Occurs(q.was, Regions(text)[i].text) {
        OccursInOccurrence(q.was, Regions(text)[i].text, masked);
      }
      HarmlessRun(Regions(text)[i].text, sorted, q.was);
    }
  }

  lemma OccursInOccurrence(w: string, v: string, s: string)
    requires Occurs(w, v) && Occurs(v, s)
    ensures Occurs(w, s)
  {
    hide *;
    var a, b := OccursSplits(v, s);
    OccursThrough(w, v, a, b);
  }

  lemma {:induction false} EditedFree(regions: seq<Region>, edits: seq<Edit>, r: Region) returns (i: nat)
    requires AllDated(edits) && r in Edited(regions, edits) && r.Free?
    ensures i < |regions| && regions[i].Free? && r.text == RewriteAll(regions[i].text, edits)
    decreases |regions|
  {
    hide RewriteAll, AllDated;
    if regions[0].Free? && r == Free(RewriteAll(regions[0].text, edits)) {
      i := 0;
    } else {
      i := EditedFree(regions[1..], edits, r);
      i := i + 1;
    }
  }

  lemma RegionOccurs(text: string, r: Region)
    requires r in Regions(text) && r.Free?
    ensures Occurs(r.text, MaskedText(text))
  {
    hide *;
    RegionWithin(text, r);
    WithinOccurs(r.text, MaskedText(text));
  }

  lemma WithinOccurs(v: string, s: string)
    requires Within(v, s)
    ensures Occurs(v, s)
  {
    hide Occurs;
    var a, b :| Between(v, a, b, s);
    OccursInside(v, a, b);
  }

  lemma PlanIsHarmless(renames: seq<Renaming>, prefixCount: map<string, nat>, index: map<string, seq<string>>, masked: string, edits: seq<Edit>, q: Renaming)
    requires AllRecords(renames) && Separate(renames) && q in renames
    requires AllJustified(renames, prefixCount, index, masked, edits)
    requires NothingMissed(renames, prefixCount, index, masked, edits)
    ensures AllHarmless(SortByKind(edits), q.was)
    ensures Removes(SortByKind(edits), q.was) || !Occurs(q.was, masked)
  {
    hide Justified, Occurs, Harmless, SeparatePair, IsRecordName, HasStem, WholeStemOf, HandleOf, FacetlessOf, NoSibling;
    forall e | e in edits
      ensures Harmless(e, q.was)
    {
      JustifiedIsHarmless(renames, prefixCount, index, masked, e, q.was);
    }
    SeparateIsChange(q);
    if Occurs(q.was, masked) {
      assert FullName(q.was, q.now) in edits;
    }
  }

  lemma SeparateIsChange(q: Renaming)
    ensures SeparatePair(q, q.was) ==> q.was != q.now
  {
    assert q.was[0..] == q.was;
  }

  lemma PlanIsDated(renames: seq<Renaming>, prefixCount: map<string, nat>, index: map<string, seq<string>>, masked: string, edits: seq<Edit>)
    requires AllRecords(renames) && Separate(renames)
    requires AllJustified(renames, prefixCount, index, masked, edits)
    ensures AllDated(SortByKind(edits))
  {
    hide Occurs, SeparatePair, IsRecordName, HasStem, WholeStemOf, HandleOf, FacetlessOf, NoSibling, Apart, StemApart, IsTokenChar;
    forall e | e in edits
      ensures Dated(e)
    {
      var q := JustifiedRename(renames, prefixCount, index, masked, e);
      JustifiedIsHarmless(renames, prefixCount, index, masked, e, q.was);
    }
  }

  lemma JustifiedRename(renames: seq<Renaming>, prefixCount: map<string, nat>, index: map<string, seq<string>>, masked: string, e: Edit) returns (q: Renaming)
    requires Justified(renames, prefixCount, index, masked, e)
    ensures q in renames
  {
    hide Occurs, HasStem, WholeStemOf, HandleOf, FacetlessOf, NoSibling;
    match e {
      case FullName(was, now) => q := Renaming(was, now);
      case BareStem(was, now) => q :| q in renames && (WholeStemOf(q, was, now) || HandleOf(q, prefixCount, was, now));
      case FacetlessStem(was, now) => q :| q in renames && FacetlessOf(q, was, now);
    }
  }

  // ----- one clustered rename that keeps the facet -----

  lemma ClusteredIsRecord(name: string)
    requires Parse(Canonical, name).Some?
    ensures IsRecordName(name)
    ensures ReadTail(Canonical, name[|StemOf(name)|..]) == Some(Parse(Canonical, name).value.facet)
    ensures name == StemOf(name) + Tail(Parse(Canonical, name).value.facet)
  {
    var f := Parse(Canonical, name).value;
    ParseMatches(Canonical, name);
    var stem := StemOf(name);
    CoreIsKebab(f);
    assert name == Stem(f) + Tail(f.facet);
    StemIsKebab(f);
    StemOfJoin(Stem(f), Tail(f.facet));
    TailStartsWithDot(f.facet);
    assert name[|stem|..] == Tail(f.facet);
  }

  lemma TailStartsWithDot(facet: Option<string>)
    ensures Tail(facet) != "" && Tail(facet)[0] == '.'
  {
  }

  lemma StemIsKebab(f: Fields)
    requires WellFormed(Canonical, f) && AllKebab(Core(f))
    ensures AllKebab(Stem(f)) && NoDot(Stem(f))
  {
    hide Core;
    assert forall i | 0 <= i < 8 :: IsDigit(f.date[i]);
    assert forall i | 0 <= i < |Stem(f)| :: IsKebabChar(Stem(f)[i]);
  }

  lemma SameTailSuffix(a: string, b: string, tail: string)
    requires EndsWith(a, b)
    ensures EndsWith(a + tail, b + tail)
  {
    assert (a + tail)[|a| - |b|..] == a[|a| - |b|..] + tail;
  }

  /** For one clustered rename that keeps the facet, neither name being a suffix of the other is enough. */
  lemma RenamedRecordLeavesNoCitation(text: string, was: string, now: string, prefixCount: map<string, nat>,
                                      index: map<string, seq<string>>, edits: seq<Edit>)
    requires !Foreign(text)
    requires Parse(Canonical, was).Some? && Parse(Canonical, now).Some?
    requires Parse(Canonical, was).value.facet == Parse(Canonical, now).value.facet
    requires !EndsWith(was, now) && !EndsWith(now, was)
    requires AllJustified([Renaming(was, now)], prefixCount, index, MaskedText(text), edits)
    requires NothingMissed([Renaming(was, now)], prefixCount, index, MaskedText(text), edits)
    ensures AllDated(SortByKind(edits))
    ensures Apply(text, SortByKind(edits)) == Some(TextOf(Edited(Regions(text), SortByKind(edits))))
    ensures forall r | r in Edited(Regions(text), SortByKind(edits)) && r.Free? :: !Occurs(was, r.text)
  {
    var renames := [Renaming(was, now)];
    ClusteredIsRecord(was);
    ClusteredIsRecord(now);
    StemsSeparate(was, now);
    HandleNeverEndsWithStem(was, now);
    OneRename(was, now);
    hide *;
    NoCitationSurvives(text, renames, prefixCount, index, edits);
    assert Renaming(was, now) in renames;
  }

  lemma StemsSeparate(was: string, now: string)
    requires Parse(Canonical, was).Some? && Parse(Canonical, now).Some?
    requires Parse(Canonical, was).value.facet == Parse(Canonical, now).value.facet
    requires !EndsWith(now, was)
    ensures !EndsWith(StemOf(now), StemOf(was))
  {
    hide *;
    var facet := Parse(Canonical, was).value.facet;
    ClusteredIsRecord(was);
    ClusteredIsRecord(now);
    if EndsWith(StemOf(now), StemOf(was)) {
      SameTailSuffix(StemOf(now), StemOf(was), Tail(facet));
    }
  }

  /** A short handle stops before the first middle of its name, and a clustered stem holds one. */
  lemma HandleNeverEndsWithStem(was: string, now: string)
    requires Parse(Canonical, was).Some?
    ensures ShortHandle(now).Some? ==> !EndsWith(ShortHandle(now).value, StemOf(was))
  {
    if ShortHandle(now).Some? && EndsWith(ShortHandle(now).value, StemOf(was)) {
      var handle, stem := ShortHandle(now).value, StemOf(was);
      var k, m := FirstMiddle(now[9..], 1).value, FirstMiddle(stem[9..], 1).value;
      HandleIsPrefix(now, k);
      MiddleInSuffix(now, handle, stem, m);
    }
  }

  lemma HandleIsPrefix(now: string, k: nat)
    requires HasDate(now) && FirstMiddle(now[9..], 1) == Some(k)
    ensures ShortHandle(now).Some? && k + 12 <= |now| && ShortHandle(now).value == now[..k + 12]
  {
    var s := now[9..];
    assert s[k..k + 11][0] == s[k] == now[9 + k];
    assert now[..k + 12] == now[..8] + "-" + s[..k] + "-" + s[k + 1..k + 3];
  }

  /** A middle of a stem is a middle of every text that holds the stem. */
  lemma MiddleInSuffix(now: string, handle: string, stem: string, m: nat)
    requires 9 <= |stem| && handle <= now && EndsWith(handle, stem) && MiddleAt(stem[9..], m)
    ensures MiddleAt(now[9..], |handle| - |stem| + m)
  {
    var o := |handle| - |stem|;
    var a, b := now[9..][o + m..o + m + 11], stem[9..][m..m + 11];
    forall i | 0 <= i < 11
      ensures a[i] == b[i]
    {
      assert a[i] == now[9 + o + m + i] == handle[9 + o + m + i];
      assert b[i] == stem[9 + m + i] == handle[o..][9 + m + i];
    }
    assert a == b;
  }

  lemma OneRename(was: string, now: string)
    requires IsRecordName(was) && IsRecordName(now)
    requires ShortHandle(now).Some? ==> !EndsWith(ShortHandle(now).value, StemOf(was))
    requires !EndsWith(was, now) && !EndsWith(now, was) && !EndsWith(StemOf(now), StemOf(was))
    ensures AllRecords([Renaming(was, now)]) && Separate([Renaming(was, now)])
  {
    hide EndsWith, StemOf, IsRecordName, LegacyPrefix, ShortHandle;
  }
}
