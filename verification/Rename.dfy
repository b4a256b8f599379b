/** `artifact_rename.compute_target_name`: choosing between the grammars and printing the new name. */
module Rename {
  import opened Wrappers
  import opened Text
  import opened Kebab
  import opened Naming

  // ----- the older name shapes -----

  datatype Legacy = Legacy(date: string, hhmm: string, nn: string, slug: string, facet: Option<string>)

  /** `YYYYMMDD-HHMM-NN-<slug>[.<facet>].md` */
  function ParseLegacy(name: string): Option<Legacy> {
    var stem := StemOf(name);
    var facet := ReadTail(Permissive, name[|stem|..]);
    if facet.Some? && |stem| > 17
       && IsDate(stem[..8]) && stem[8] == '-' && AllDigits(stem[9..13]) && stem[13] == '-'
       && IsOrder(stem[14..16]) && stem[16] == '-' && IsSlug(stem[17..])
    then Some(Legacy(stem[..8], stem[9..13], stem[14..16], stem[17..], facet.value))
    else None
  }

  datatype Dated = Dated(date: string, slug: string, facet: Option<string>)

  const WALKTHROUGH := "-walkthrough.md"

  /** `YYYYMMDD-<slug>-walkthrough.md` */
  function ParseWalkthroughDated(name: string): Option<Dated> {
    if EndsWith(name, WALKTHROUGH) && |name| > 24 && IsDate(name[..8]) && name[8] == '-' && IsSlug(name[9..|name| - 15])
    then Some(Dated(name[..8], name[9..|name| - 15], None))
    else None
  }

  /** `<slug>-walkthrough.md` */
  function ParseWalkthroughBare(name: string): Option<string> {
    if EndsWith(name, WALKTHROUGH) && |name| > 15 && IsSlug(name[..|name| - 15]) then Some(name[..|name| - 15]) else None
  }

  /** `YYYYMMDD-<slug>[.<facet>].md` */
  function ParseDated(name: string): Option<Dated> {
    var stem := StemOf(name);
    var facet := ReadTail(Permissive, name[|stem|..]);
    if facet.Some? && |stem| > 9 && IsDate(stem[..8]) && stem[8] == '-' && IsSlug(stem[9..])
    then Some(Dated(stem[..8], stem[9..], facet.value))
    else None
  }

  /** `TYPE_FACET` */
  function TypeFacet(recordType: string): Option<string> {
    match recordType
    case "plans" => Some("ipd")
    case "specs" => Some("spec")
    case "prompts" => Some("prompt")
    case "backlog" => Some("backlog")
    case "walkthroughs" => Some("walkthrough")
    case "roadmaps" => Some("roadmap")
    case "releases" => Some("release")
    case "comms" => Some("comms")
    case "other" => Some("other")
    case _ => None
  }

  // ----- the rename function -----

  datatype Request = Request(
    slug: Option<string>,
    setId: Option<string>,
    order: Option<int>,
    toId6: bool,
    mint: Option<string>
  )

  datatype Refusal = NothingRequested | MintMissing | UnknownType | NoId6 | Unparseable

  datatype Target = Renamed(name: string) | Refused(why: Refusal)

  /** An option value Python treats as given: neither None nor the empty string. */
  predicate Given(o: Option<string>) {
    o.Some? && o.value != ""
  }

  function KebabOr(o: Option<string>, otherwise: string): string {
    if Given(o) then ToKebab(o.value) else otherwise
  }

  function Built(name: Option<string>): Target {
    match name
    case Some(n) => Renamed(n)
    case None => Refused(UnknownType)
  }

  /** Every reading of a name the rename function asks for. */
  datatype Shape = Shape(
    legacy: Option<Legacy>,
    clustered: Option<Fields>,
    walkthrough: Option<Dated>,
    bare: Option<string>,
    dated: Option<Dated>,
    markdown: bool
  )

  function ShapeOf(src: string): Shape {
    Shape(ParseLegacy(src), Parse(Permissive, src), ParseWalkthroughDated(src), ParseWalkthroughBare(src),
          ParseDated(src), EndsWith(src, ".md"))
  }

  /** `facet` is the `TYPE_FACET` entry of the record type being renamed. */
  function ComputeTargetName(src: string, facet: Option<string>, req: Request): Target {
    Choose(ShapeOf(src), facet, req)
  }

  function Choose(s: Shape, facet: Option<string>, req: Request): Target {
    if !req.toId6 && !Given(req.slug) && req.setId.None? && req.order.None? then Refused(NothingRequested)
    else if req.toId6 && s.legacy.Some? then
      if !Given(req.mint) then Refused(MintMissing)
      else Built(Build(s.legacy.value.date, req.mint.value, 1, req.mint.value, KebabOr(req.slug, s.legacy.value.slug), facet))
    else if s.clustered.Some? then Renamed(Print(Changed(s.clustered.value, req)))
    else if s.legacy.Some? then Renamed(PrintLegacy(s.legacy.value, req))
    else if (s.walkthrough.Some? || s.dated.Some?) && (req.toId6 || req.setId.Some? || req.order.Some?) then
      if !req.toId6 then Refused(NoId6)
      else if !Given(req.mint) then Refused(MintMissing)
      else
        var d := if s.walkthrough.Some? then s.walkthrough.value else s.dated.value;
        Built(Build(d.date, KebabOr(req.setId, req.mint.value), if req.order.Some? then req.order.value else 1,
                    req.mint.value, KebabOr(req.slug, d.slug), facet))
    else if s.walkthrough.Some? then
      Renamed(s.walkthrough.value.date + "-" + KebabOr(req.slug, s.walkthrough.value.slug) + WALKTHROUGH)
    else if s.bare.Some? then
      Renamed(KebabOr(req.slug, s.bare.value) + WALKTHROUGH)
    else if s.dated.Some? then
      Renamed(s.dated.value.date + "-" + KebabOr(req.slug, s.dated.value.slug) + Tail(s.dated.value.facet))
    else if Given(req.slug) then
      Renamed(ToKebab(req.slug.value) + if s.markdown then ".md" else "")
    else Refused(Unparseable)
  }

  /** The fields of a clustered name after a request; date, id6 and facet cannot be asked for. */
  function Changed(f: Fields, req: Request): Fields {
    f.(setId := KebabOr(req.setId, f.setId),
       nn := if req.order.Some? then TwoDigits(req.order.value) else f.nn,
       slug := KebabOr(req.slug, f.slug))
  }

  function PrintLegacy(l: Legacy, req: Request): string {
    l.date + "-" + l.hhmm + "-" + (if req.order.Some? then TwoDigits(req.order.value) else l.nn)
    + "-" + KebabOr(req.slug, l.slug) + Tail(l.facet)
  }

  // ----- renaming a clustered name -----

  lemma OrderRange(n: int)
    ensures IsOrder(TwoDigits(n)) <==> 0 <= n < 100
  {
    if 0 <= n < 100 {
      TwoDigitsRoundTrip(n);
    } else if n < 0 {
      assert TwoDigits(n)[0] == '-';
    }
  }

  /** The kebab text a request puts in place of a part is a legal part exactly when it is not empty. */
  lemma KebabOrLegal(o: Option<string>, otherwise: string)
    requires IsSlug(otherwise)
    ensures IsSlug(KebabOr(o, otherwise)) <==> KebabOr(o, otherwise) != ""
  {
    if Given(o) {
      ToKebabIsKebab(o.value);
    }
  }

  /** What a caller can check before renaming a clustered name. */
  predicate Harmless(req: Request) {
    && (req.order.Some? ==> 0 <= req.order.value < 100)
    && (Given(req.slug) ==> ToKebab(req.slug.value) != "")
    && (Given(req.setId) ==> ToKebab(req.setId.value) != "" && !HasNumberedId(Tokens(ToKebab(req.setId.value))[1..]))
  }

  lemma HarmlessMeansReadable(f: Fields, req: Request)
    requires WellFormed(Permissive, f) && !HidesMiddle(f.setId)
    ensures Harmless(req) <==> WellFormed(Permissive, Changed(f, req)) && !HidesMiddle(Changed(f, req).setId)
  {
    if req.order.Some? {
      OrderRange(req.order.value);
    }
    KebabOrLegal(req.slug, f.slug);
    KebabOrLegal(req.setId, f.setId);
    if Given(req.setId) && ToKebab(req.setId.value) != "" {
      ToKebabIsKebab(req.setId.value);
      HiddenMiddleIsNumberedId(ToKebab(req.setId.value));
    }
  }

  /** Renaming a clustered name: the new name reads back as the old fields with only the requested parts
      changed, so date, id6 and facet survive, exactly when the request is harmless. */
  lemma ClusteredRenameReadsBack(src: string, facet: Option<string>, req: Request)
    requires Parse(Permissive, src).Some?
    requires req.toId6 ==> ParseLegacy(src).None?
    requires req.toId6 || Given(req.slug) || req.setId.Some? || req.order.Some?
    ensures ComputeTargetName(src, facet, req).Renamed?
    ensures (Parse(Permissive, ComputeTargetName(src, facet, req).name)
             == Some(Changed(Parse(Permissive, src).value, req)))
            <==> Harmless(req)
  {
    var f := Parse(Permissive, src).value;
    var g := Changed(f, req);
    ParseMatches(Permissive, src);
    PrintRoundTrip(Permissive, f);
    HarmlessMeansReadable(f, req);
    if WellFormed(Permissive, g) {
      PrintRoundTrip(Permissive, g);
    } else if Parse(Permissive, Print(g)) == Some(g) {
      ParseMatches(Permissive, Print(g));
    }
  }

  /** A bare conversion leaves an already clustered name alone. */
  lemma ClusteredConversionIsIdentity(src: string, facet: Option<string>, req: Request)
    requires Parse(Permissive, src).Some? && ParseLegacy(src).None?
    requires req.toId6 && !Given(req.slug) && !Given(req.setId) && req.order.None?
    ensures ComputeTargetName(src, facet, req) == Renamed(src)
  {
    ParseMatches(Permissive, src);
  }

  // ----- the id6 conversion -----

  /** A bare `--to-id6`: no slug, set or order. */
  function Convert(mint: string): Request {
    Request(None, None, None, true, Some(mint))
  }

  /** The date and slug a bare conversion keeps; None when the name is not converted. */
  function Kept(s: Shape): Option<Dated> {
    if s.legacy.Some? then Some(Dated(s.legacy.value.date, s.legacy.value.slug, None))
    else if s.clustered.Some? then None
    else if s.walkthrough.Some? then s.walkthrough
    else s.dated
  }

  function Converted(kept: Dated, facet: Option<string>, mint: string): Fields {
    Fields(kept.date, mint, "01", mint, ToKebab(kept.slug), facet)
  }

  /** What every `TYPE_FACET` entry is. */
  predicate LegalTypeFacet(facet: Option<string>) {
    facet.Some? ==> IsArtifactFacet(facet.value)
  }

  lemma TypeFacetLegal(recordType: string)
    ensures LegalTypeFacet(TypeFacet(recordType))
  {
  }

  lemma KeptIsLegal(src: string)
    requires Kept(ShapeOf(src)).Some?
    ensures IsDate(Kept(ShapeOf(src)).value.date) && IsSlug(Kept(ShapeOf(src)).value.slug)
  {
  }

  lemma MintIsKebab(mint: string)
    requires IsId6(mint)
    ensures IsKebab(mint) && ToKebab(mint) == mint
  {
    KebabIsFixed(mint);
  }

  lemma OneIsPadded()
    ensures TwoDigits(1) == "01"
  {
  }

  lemma BuildConverted(kept: Dated, mint: string, facet: Option<string>)
    requires IsId6(mint) && LegalTypeFacet(facet)
    ensures Build(kept.date, mint, 1, mint, kept.slug, facet) == Some(Print(Converted(kept, facet, mint)))
  {
    hide ToKebab, TwoDigits, Print;
    MintIsKebab(mint);
    OneIsPadded();
    NoFacetIsEmpty(facet);
  }

  lemma NoFacetIsEmpty(facet: Option<string>)
    requires LegalTypeFacet(facet)
    ensures facet != Some("")
  {
  }

  lemma ConversionCallsBuild(s: Shape, facet: Option<string>, mint: string)
    requires Kept(s).Some? && mint != ""
    ensures Choose(s, facet, Convert(mint)) == Built(Build(Kept(s).value.date, mint, 1, mint, Kept(s).value.slug, facet))
  {
    hide Build;
  }

  /** On a legacy name a conversion gives the same name whatever set and order are asked for. */
  lemma ConversionIgnoresSetAndOrder(src: string, facet: Option<string>, req: Request, setId: Option<string>, order: Option<int>)
    requires ParseLegacy(src).Some? && req.toId6
    ensures ComputeTargetName(src, facet, req.(setId := setId, order := order)) == ComputeTargetName(src, facet, req)
  {
    hide ParseLegacy, Parse, ParseWalkthroughDated, ParseWalkthroughBare, ParseDated, Build, ToKebab;
  }

  /** The one name an older name converts to, whichever of the three shapes it has. */
  lemma ConversionBuilds(s: Shape, facet: Option<string>, mint: string)
    requires Kept(s).Some? && IsId6(mint) && LegalTypeFacet(facet)
    ensures Choose(s, facet, Convert(mint)) == Renamed(Print(Converted(Kept(s).value, facet, mint)))
  {
    hide Build;
    hide Print;
    hide Choose;
    ConversionCallsBuild(s, facet, mint);
    BuildConverted(Kept(s).value, mint, facet);
  }

  /** A converted name has six characters where a legacy name has four digits and a hyphen. */
  lemma ConvertedIsNotLegacy(f: Fields)
    requires IsDate(f.date) && IsId6(f.setId) && IsOrder(f.nn) && IsId6(f.id6) && AllKebab(f.slug)
    requires LegalFacet(Permissive, f.facet)
    ensures StemOf(Print(f)) == Stem(f) && Print(f)[|Stem(f)|..] == Tail(f.facet)
    ensures ParseLegacy(Print(f)).None?
  {
    var stem := Stem(f);
    assert stem[9..15] == f.setId;
    assert stem[13] == f.setId[4];
    assert AllKebab(Middle(f.nn, f.id6));
    StemOfJoin(stem, Tail(f.facet));
  }

  lemma FacetIsPermissive(facet: Option<string>)
    requires LegalTypeFacet(facet)
    ensures LegalFacet(Permissive, facet)
  {
  }

  /** With a slug left, the converted name is clustered and reads back. */
  lemma ConvertedReads(f: Fields)
    requires WellFormed(Permissive, f) && IsId6(f.setId)
    ensures ParseLegacy(Print(f)).None? && Parse(Permissive, Print(f)) == Some(f)
  {
    ConvertedIsNotLegacy(f);
    assert !HidesMiddle(f.setId);
    PrintRoundTrip(Permissive, f);
  }

  /** Without one it is only a dated name, whose slug is everything after the date. */
  lemma EmptySlugIsDated(f: Fields)
    requires IsDate(f.date) && IsId6(f.setId) && IsOrder(f.nn) && IsId6(f.id6) && f.slug == ""
    requires LegalFacet(Permissive, f.facet)
    ensures Parse(Permissive, Print(f)).None? && ParseLegacy(Print(f)).None?
    ensures ParseDated(Print(f)) == Some(Dated(f.date, f.setId + Middle(f.nn, f.id6), f.facet))
    ensures ParseWalkthroughDated(Print(f)).None?
  {
    ConvertedIsNotLegacy(f);
    TailReads(Permissive, f.facet);
    EmptySlugStem(f);
    hide Print, Stem, Middle, Tail, Parse, ParseLegacy, ParseWalkthroughDated, IsId6, IsOrder, AllKebab, AllDigits;
    assert f.slug == "" && Print(f) == Stem(f) + Tail(f.facet) by {
      PrintIsStemAndTail(f);
    }
    NoSlugNoMatch(Print(f), Stem(f));
    NotWalkthrough(Stem(f), f.facet);
  }

  lemma PrintIsStemAndTail(f: Fields)
    ensures Print(f) == Stem(f) + Tail(f.facet)
  {
  }

  lemma EmptySlugStem(f: Fields)
    requires IsDate(f.date) && IsId6(f.setId) && IsOrder(f.nn) && IsId6(f.id6) && f.slug == ""
    ensures var stem := Stem(f);
            && |stem| == 26 && stem[25] == '-' && (forall i | 9 <= i < 15 :: stem[i] != '-')
            && stem[8] == '-' && stem[..8] == f.date && stem[9..] == f.setId + Middle(f.nn, f.id6)
            && IsSlug(stem[9..])
  {
    var core := f.setId + Middle(f.nn, f.id6);
    var stem := Stem(f);
    assert Core(f) == core && stem == f.date + "-" + core;
    assert forall i | 9 <= i < 15 :: stem[i] == f.setId[i - 9];
    assert AllKebab(core);
  }

  lemma NoSlugNoMatch(name: string, stem: string)
    requires StemOf(name) == stem && |stem| == 26 && stem[25] == '-'
    requires forall i | 9 <= i < 15 :: stem[i] != '-'
    ensures Parse(Permissive, name).None?
  {
    var rest := stem[9..];
    if HasDate(stem) && FirstMiddle(rest, 1).Some? {
      var k := FirstMiddle(rest, 1).value;
      assert rest[k..k + 11][0] == rest[k] == stem[9 + k];
    }
  }

  lemma NotWalkthrough(stem: string, facet: Option<string>)
    requires |stem| == 26 && stem[25] == '-'
    ensures ParseWalkthroughDated(stem + Tail(facet)).None?
  {
    var name := stem + Tail(facet);
    var at := |name| - 15;
    assert name[25] == '-' && name[26] == '.';
    if 9 <= at && EndsWith(name, WALKTHROUGH) {
      assert forall i | 0 <= i < 15 :: name[at + i] == name[at..][i] == WALKTHROUGH[i];
      if at > 26 {
        assert name[9..at][17] == '.';
      }
    }
  }

  /** For every record type, `--to-id6` applied to its own output is the identity, whichever id6 is minted the
      second time, exactly when the slug it kept holds a letter or digit. */
  lemma ConversionIdempotent(src: string, recordType: string, mint: string, again: string)
    requires Kept(ShapeOf(src)).Some? && IsId6(mint) && IsId6(again)
    ensures var facet := TypeFacet(recordType);
            && ComputeTargetName(src, facet, Convert(mint)).Renamed?
            && var once := ComputeTargetName(src, facet, Convert(mint)).name;
               var slug := Kept(ShapeOf(src)).value.slug;
               (ComputeTargetName(once, facet, Convert(again)) == Renamed(once) <==> exists i | 0 <= i < |slug| :: IsBase36(slug[i]))
  {
    hide *;
    TypeFacetLegal(recordType);
    ConversionWithFacetIdempotent(src, TypeFacet(recordType), mint, again);
  }

  lemma ConversionWithFacetIdempotent(src: string, facet: Option<string>, mint: string, again: string)
    requires Kept(ShapeOf(src)).Some? && IsId6(mint) && IsId6(again) && LegalTypeFacet(facet)
    ensures ComputeTargetName(src, facet, Convert(mint)).Renamed?
    ensures var once := ComputeTargetName(src, facet, Convert(mint)).name;
            var slug := Kept(ShapeOf(src)).value.slug;
            ComputeTargetName(once, facet, Convert(again)) == Renamed(once)
            <==> exists i | 0 <= i < |slug| :: IsBase36(slug[i])
  {
    var kept := Kept(ShapeOf(src)).value;
    ConversionBuilds(ShapeOf(src), facet, mint);
    KeptIsLegal(src);
    KebabNonempty(kept.slug);
    ToKebabIsKebab(kept.slug);
    ConvertedAgain(Converted(kept, facet, mint), facet, again);
  }

  lemma ConvertedAgain(f: Fields, facet: Option<string>, again: string)
    requires IsDate(f.date) && IsId6(f.setId) && f.nn == "01" && f.id6 == f.setId && IsKebab(f.slug)
    requires f.facet == facet && LegalTypeFacet(facet) && IsId6(again)
    ensures ComputeTargetName(Print(f), facet, Convert(again)) == Renamed(Print(f)) <==> f.slug != ""
  {
    FacetIsPermissive(facet);
    if f.slug != "" {
      ConvertedReads(f);
    } else {
      EmptySlugIsDated(f);
      ConversionBuilds(ShapeOf(Print(f)), facet, again);
      KebabNonempty(f.setId + Middle(f.nn, f.id6));
      LongerConverted(f, facet, again);
    }
  }

  lemma LongerConverted(f: Fields, facet: Option<string>, again: string)
    requires |f.date| == 8 && |f.setId| == 6 && |f.nn| == 2 && |f.id6| == 6 && f.slug == "" && f.facet == facet
    requires IsId6(again)
    requires ToKebab(f.setId + Middle(f.nn, f.id6)) != ""
    ensures Print(Converted(Dated(f.date, f.setId + Middle(f.nn, f.id6), facet), facet, again)) != Print(f)
  {
    var g := Converted(Dated(f.date, f.setId + Middle(f.nn, f.id6), facet), facet, again);
    assert |Print(g)| > |Print(f)|;
  }

  // ----- renaming a legacy name -----

  function Slug(slug: string): Request {
    Request(Some(slug), None, None, false, None)
  }

  predicate HasOpenNumberedId(ts: seq<string>) {
    |ts| >= 3 && ((IsOrder(ts[0]) && IsId6(ts[1])) || HasOpenNumberedId(ts[1..]))
  }

  lemma {:induction false} OpenTokensShowMiddles(s: string)
    ensures HasMiddleFrom("-" + s, 0) <==> HasOpenNumberedId(Tokens(s))
    decreases |s|
  {
    var h := FirstToken(s);
    MiddleAtOpenStart(s);
    if |h| == |s| {
      OneTokenNoOpenMiddle(s);
    } else {
      var rest := s[|h| + 1..];
      OpenTokensShowMiddles(rest);
      assert "-" + s == ("-" + h) + ("-" + rest);
      OpenAfterFirstToken("-" + h, rest, "-" + s);
      FewTokens(rest);
    }
  }

  lemma OneTokenNoOpenMiddle(s: string)
    requires '-' !in s
    ensures !HasMiddleFrom("-" + s, 1)
  {
    var t := "-" + s;
    forall k: nat
      ensures 1 <= k ==> !MiddleAt(t, k)
    {
      if 1 <= k && k + 11 <= |t| {
        assert t[k..k + 11][0] == t[k] == s[k - 1];
      }
    }
  }

  lemma FewTokens(rest: string)
    ensures |Tokens(rest)| < 2 ==> !HasMiddleFrom("-" + rest, 0)
  {
    if |Tokens(rest)| < 2 {
      MiddleAtOpenStart(rest);
      OneTokenNoOpenMiddle(rest);
    }
  }

  lemma MiddleAtOpenStart(s: string)
    ensures MiddleAt("-" + s, 0) <==>
            |Tokens(s)| >= 3 && IsOrder(Tokens(s)[0]) && IsId6(Tokens(s)[1])
  {
    MiddleAtStart(s);
    var t, closed := "-" + s, "-" + s + "-";
    if |t| >= 11 {
      assert t[0..11] == closed[0..11];
    }
    if |Tokens(s)| >= 2 && IsOrder(Tokens(s)[0]) && IsId6(Tokens(s)[1]) {
      assert Tokens(s)[1..] == Tokens(s[3..]);
      assert |FirstToken(s[3..])| == 6;
    }
  }

  lemma OpenAfterFirstToken(head: string, rest: string, t: string)
    requires t == head + ("-" + rest) && head != ""
    requires forall i | 1 <= i < |head| :: head[i] != '-'
    ensures HasMiddleFrom(t, 1) <==> HasMiddleFrom("-" + rest, 0)
  {
    var u := "-" + rest;
    if k :| 1 <= k && MiddleAt(t, k) {
      assert t[k..k + 11][0] == t[k] == '-';
      MiddleShift(head, u, k - |head|);
    }
    if k :| 0 <= k && MiddleAt(u, k) {
      MiddleShift(head, u, k);
      assert MiddleAt(t, |head| + k);
    }
  }

  /** Renaming a legacy name that is not asked to change its grammar: the new name reads back as the old fields
      with the order and slug asked for, exactly when the order has two digits and the slug is not empty. */
  lemma LegacyRenameReadsBack(src: string, facet: Option<string>, req: Request)
    requires ParseLegacy(src).Some? && Parse(Permissive, src).None? && !req.toId6
    requires Given(req.slug) || req.setId.Some? || req.order.Some?
    ensures ComputeTargetName(src, facet, req).Renamed?
    ensures var l := ParseLegacy(src).value;
            ParseLegacy(ComputeTargetName(src, facet, req).name)
            == Some(l.(nn := if req.order.Some? then TwoDigits(req.order.value) else l.nn,
                       slug := if Given(req.slug) then ToKebab(req.slug.value) else l.slug))
            <==> (req.order.Some? ==> 0 <= req.order.value < 100) && (Given(req.slug) ==> ToKebab(req.slug.value) != "")
  {
    var l := ParseLegacy(src).value;
    var nn := if req.order.Some? then TwoDigits(req.order.value) else l.nn;
    var slug := KebabOr(req.slug, l.slug);
    var name := ComputeTargetName(src, facet, req).name;
    LegacyTargetIs(src, facet, req);
    LegacyIs(src);
    if req.order.Some? {
      OrderRange(req.order.value);
    }
    KebabOrLegal(req.slug, l.slug);
    hide *;
    KebabOrIs(req.slug, l.slug);
    if IsOrder(nn) && IsSlug(slug) {
      LegacyReads(Legacy(l.date, l.hhmm, nn, slug, l.facet));
    }
    if ParseLegacy(name).Some? {
      LegacyIs(name);
    }
  }

  lemma LegacyTargetIs(src: string, facet: Option<string>, req: Request)
    requires ParseLegacy(src).Some? && Parse(Permissive, src).None? && !req.toId6
    requires Given(req.slug) || req.setId.Some? || req.order.Some?
    ensures var l := ParseLegacy(src).value;
            ComputeTargetName(src, facet, req)
            == Renamed(LegacyName(Legacy(l.date, l.hhmm, if req.order.Some? then TwoDigits(req.order.value) else l.nn,
                                         KebabOr(req.slug, l.slug), l.facet)))
  {
    hide ParseLegacy, Parse, ParseWalkthroughDated, ParseWalkthroughBare, ParseDated, TwoDigits, KebabOr, Tail;
  }

  function LegacyName(l: Legacy): string {
    l.date + "-" + l.hhmm + "-" + l.nn + "-" + l.slug + Tail(l.facet)
  }

  predicate LegalLegacy(l: Legacy) {
    IsDate(l.date) && |l.hhmm| == 4 && AllDigits(l.hhmm) && IsOrder(l.nn) && IsSlug(l.slug) && LegalFacet(Permissive, l.facet)
  }

  lemma LegacyIs(name: string)
    ensures ParseLegacy(name).Some? ==> LegalLegacy(ParseLegacy(name).value)
  {
    hide StemOf, IsSlug;
  }

  lemma KebabOrIs(o: Option<string>, otherwise: string)
    ensures KebabOr(o, otherwise) == if Given(o) then ToKebab(o.value) else otherwise
  {
    hide ToKebab;
  }

  lemma LegacyReads(l: Legacy)
    requires LegalLegacy(l)
    ensures ParseLegacy(LegacyName(l)) == Some(l)
  {
    hide AllKebab;
    var stem := l.date + "-" + l.hhmm + "-" + l.nn + "-" + l.slug;
    LegacyStemHasNoDot(l);
    StemOfJoin(stem, Tail(l.facet));
    TailReads(Permissive, l.facet);
    assert LegacyName(l) == stem + Tail(l.facet);
    assert stem[..8] == l.date && stem[9..13] == l.hhmm && stem[14..16] == l.nn && stem[17..] == l.slug;
  }

  lemma LegacyStemHasNoDot(l: Legacy)
    requires LegalLegacy(l)
    ensures NoDot(l.date + "-" + l.hhmm + "-" + l.nn + "-" + l.slug)
  {
  }

  /** Renaming a dated record or walkthrough reads back with the old date and facet and the slug asked for, exactly
      when that slug is not empty. */
  lemma DatedRenameReadsBack(src: string, facet: Option<string>, slug: string)
    requires Parse(Permissive, src).None? && ParseLegacy(src).None? && slug != ""
    ensures ParseWalkthroughDated(src).Some? ==>
              var d, r := ParseWalkthroughDated(src).value, ComputeTargetName(src, facet, Slug(slug));
              r.Renamed? && (ParseWalkthroughDated(r.name) == Some(d.(slug := ToKebab(slug))) <==> ToKebab(slug) != "")
    ensures ParseWalkthroughDated(src).None? && ParseWalkthroughBare(src).None? && ParseDated(src).Some? ==>
              var d, r := ParseDated(src).value, ComputeTargetName(src, facet, Slug(slug));
              r.Renamed? && (ParseDated(r.name) == Some(d.(slug := ToKebab(slug))) <==> ToKebab(slug) != "")
  {
    var k := ToKebab(slug);
    ToKebabIsKebab(slug);
    DatedTargets(src, facet, slug);
    DatedIs(src);
    hide *;
    if ParseWalkthroughDated(src).Some? {
      WalkthroughReads(ParseWalkthroughDated(src).value.date, k);
    }
    if ParseDated(src).Some? {
      DatedReads(ParseDated(src).value.(slug := k));
    }
  }

  lemma DatedTargets(src: string, facet: Option<string>, slug: string)
    requires Parse(Permissive, src).None? && ParseLegacy(src).None? && slug != ""
    ensures ParseWalkthroughDated(src).Some? ==>
              ComputeTargetName(src, facet, Slug(slug))
              == Renamed(ParseWalkthroughDated(src).value.date + "-" + ToKebab(slug) + "-walkthrough.md")
    ensures ParseWalkthroughDated(src).None? && ParseWalkthroughBare(src).None? && ParseDated(src).Some? ==>
              ComputeTargetName(src, facet, Slug(slug))
              == Renamed(ParseDated(src).value.date + "-" + ToKebab(slug) + Tail(ParseDated(src).value.facet))
  {
    hide ParseLegacy, Parse, ParseWalkthroughDated, ParseWalkthroughBare, ParseDated, ToKebab, Tail;
  }

  lemma DatedIs(src: string)
    ensures ParseWalkthroughDated(src).Some? ==> IsDate(ParseWalkthroughDated(src).value.date) && ParseWalkthroughDated(src).value.facet.None?
    ensures ParseDated(src).Some? ==> IsDate(ParseDated(src).value.date) && LegalFacet(Permissive, ParseDated(src).value.facet)
  {
    hide StemOf, IsSlug;
  }

  lemma WalkthroughReads(date: string, slug: string)
    requires IsDate(date) && IsKebab(slug)
    ensures ParseWalkthroughDated(date + "-" + slug + "-walkthrough.md") == if slug == "" then None else Some(Dated(date, slug, None))
  {
    var name := date + "-" + slug + "-walkthrough.md";
    assert name == date + "-" + slug + WALKTHROUGH;
    assert name[..8] == date && name[|name| - 15..] == WALKTHROUGH && name[9..|name| - 15] == slug;
  }

  lemma DatedParsed(name: string, facet: Option<string>)
    requires ReadTail(Permissive, name[|StemOf(name)|..]) == Some(facet)
    ensures var stem := StemOf(name);
            ParseDated(name)
            == if |stem| > 9 && IsDate(stem[..8]) && stem[8] == '-' && IsSlug(stem[9..]) then Some(Dated(stem[..8], stem[9..], facet))
               else None
  {
    hide StemOf, ReadTail, IsDate, IsSlug;
  }

  lemma DatedStem(date: string, slug: string)
    requires IsDate(date) && IsKebab(slug)
    ensures var stem := date + "-" + slug;
            NoDot(stem) && stem[..8] == date && stem[8] == '-' && stem[9..] == slug && (IsSlug(slug) <==> slug != "")
  {
  }

  lemma DatedReads(d: Dated)
    requires IsDate(d.date) && IsKebab(d.slug) && LegalFacet(Permissive, d.facet)
    ensures ParseDated(d.date + "-" + d.slug + Tail(d.facet)) == if d.slug == "" then None else Some(d)
  {
    var stem := d.date + "-" + d.slug;
    assert |d.date| == 8;
    hide *;
    DatedStem(d.date, d.slug);
    JoinedTail(stem, d.facet);
    DatedParsed(stem + Tail(d.facet), d.facet);
  }

  lemma JoinedTail(stem: string, facet: Option<string>)
    requires NoDot(stem) && LegalFacet(Permissive, facet)
    ensures StemOf(stem + Tail(facet)) == stem
    ensures ReadTail(Permissive, (stem + Tail(facet))[|stem|..]) == Some(facet)
  {
    hide ReadTail, StemOf;
    StemOfJoin(stem, Tail(facet));
    TailReads(Permissive, facet);
    assert (stem + Tail(facet))[|stem|..] == Tail(facet);
  }

  /** A slug rename keeps a legacy name outside the clustered grammar exactly when the order and the tokens
      of the new slug, its last one aside, hold no order-and-id6 pair. Otherwise the new name reads as a
      clustered one, with the time of day as its set. */
  lemma LegacyRenameTurnsClustered(src: string, facet: Option<string>, slug: string)
    requires ParseLegacy(src).Some? && Parse(Permissive, src).None?
    requires slug != "" && ToKebab(slug) != ""
    ensures var l := ParseLegacy(src).value;
            var ts := Tokens(l.nn + "-" + ToKebab(slug));
            && ComputeTargetName(src, facet, Slug(slug)).Renamed?
            && (Parse(Permissive, ComputeTargetName(src, facet, Slug(slug)).name).Some?
                <==> HasOpenNumberedId(ts))
  {
    hide ToKebab;
    var l, k := ParseLegacy(src).value, ToKebab(slug);
    ToKebabIsKebab(slug);
    LegacyReading(l.date, l.hhmm, l.nn, k, l.facet);
  }

  /** Reading a name from its stem. */
  lemma LegacyStem(date: string, rest: string, facet: Option<string>)
    requires IsDate(date) && AllKebab(rest) && rest != "" && LegalFacet(Permissive, facet)
    ensures var name := date + "-" + rest + Tail(facet);
            Parse(Permissive, name).Some? <==>
            FirstMiddle(rest, 1).Some? && IsSlug(rest[FirstMiddle(rest, 1).value + 11..])
  {
    var stem := date + "-" + rest;
    StemOfJoin(stem, Tail(facet));
    TailReads(Permissive, facet);
    assert stem[9..] == rest && stem[..8] == date && stem[8] == '-' && stem[9] == rest[0];
  }

  lemma LegacyReading(date: string, hhmm: string, nn: string, slug: string, facet: Option<string>)
    requires IsDate(date) && |hhmm| == 4 && AllDigits(hhmm) && IsOrder(nn) && IsKebab(slug) && slug != ""
    requires LegalFacet(Permissive, facet)
    ensures var ts := Tokens(nn + "-" + slug);
            Parse(Permissive, date + "-" + hhmm + "-" + nn + "-" + slug + Tail(facet)).Some?
            <==> HasOpenNumberedId(ts)
  {
    hide Parse;
    hide Tokens;
    hide HasOpenNumberedId;
    hide FirstMiddle;
    hide HasMiddleFrom, MiddleAt, ToKebab, Tail;
    var rest := hhmm + ("-" + (nn + "-" + slug));
    LegacyRestIsKebab(hhmm, nn, slug);
    LegacyStem(date, rest, facet);
    RegroupedName(date, hhmm, nn, slug, Tail(facet));
    OpenAfterFirstToken(hhmm, nn + "-" + slug, rest);
    OpenTokensShowMiddles(nn + "-" + slug);
    MiddleLeavesSlug(rest);
  }

  lemma LegacyRestIsKebab(hhmm: string, nn: string, slug: string)
    requires |hhmm| == 4 && AllDigits(hhmm) && IsOrder(nn) && IsKebab(slug) && slug != ""
    ensures var rest := hhmm + ("-" + (nn + "-" + slug));
            AllKebab(rest) && rest != "" && rest[|rest| - 1] == slug[|slug| - 1] != '-'
    ensures forall i | 0 <= i < |hhmm| :: hhmm[i] != '-'
  {
  }

  lemma RegroupedName(date: string, hhmm: string, nn: string, slug: string, tail: string)
    ensures date + "-" + (hhmm + ("-" + (nn + "-" + slug))) + tail == date + "-" + hhmm + "-" + nn + "-" + slug + tail
  {
  }

  lemma MiddleLeavesSlug(rest: string)
    requires AllKebab(rest) && rest != "" && rest[|rest| - 1] != '-'
    ensures (FirstMiddle(rest, 1).Some? && IsSlug(rest[FirstMiddle(rest, 1).value + 11..])) <==> HasMiddleFrom(rest, 1)
  {
    var found := FirstMiddle(rest, 1);
    if found.Some? {
      assert rest[found.value..found.value + 11][10] == rest[found.value + 10];
    }
  }

  /** Every slug that starts with six base36 characters and another token is one of those. */
  lemma Id6SlugTurnsClustered(nn: string, id6: string, rest: string)
    requires IsOrder(nn) && IsId6(id6)
    ensures HasOpenNumberedId(Tokens(nn + "-" + (id6 + "-" + rest)))
  {
    var t := id6 + "-" + rest;
    var s := nn + "-" + t;
    FirstTokenIs(s, 2);
    FirstTokenIs(t, 6);
    assert s[..2] == nn && s[3..] == t && t[..6] == id6;
    assert Tokens(s) == [nn] + Tokens(t);
    assert Tokens(t) == [id6] + Tokens(t[7..]);
  }
}
