/** The filename grammar `YYYYMMDD-<set>-<NN>-<id6>-<slug>[.<facet>].md`: one printer and the parsers that
    must agree with it. A pattern with a lazy set group returns the match with the shortest set, which
    is what the parsers below are proved to do. */
module Naming {
  import opened Wrappers
  import opened Text
  import opened Kebab

  /** `ARTIFACT_TYPE_FACETS` */
  predicate IsArtifactFacet(s: string) {
    s in {"ipd", "prompt", "spec", "walkthrough", "roadmap", "backlog", "comms", "release", "review", "other"}
  }

  /** The canonical grammar closes the facet enum; the rename builder's accepts any `[a-z0-9.-]+`. */
  datatype Grammar = Canonical | Permissive

  datatype Fields = Fields(date: string, setId: string, nn: string, id6: string, slug: string, facet: Option<string>)

  predicate IsFacetChar(c: char) {
    IsKebabChar(c) || c == '.'
  }

  predicate AllFacet(s: string) {
    forall i | 0 <= i < |s| :: IsFacetChar(s[i])
  }

  predicate IsDate(s: string) {
    |s| == 8 && AllDigits(s)
  }

  predicate IsOrder(s: string) {
    |s| == 2 && AllDigits(s)
  }

  predicate IsId6(s: string) {
    |s| == 6 && AllBase36(s)
  }

  /** `[a-z0-9-]+` */
  predicate IsSlug(s: string) {
    s != "" && AllKebab(s)
  }

  predicate LegalFacet(g: Grammar, facet: Option<string>) {
    facet.None? || (if g.Canonical? then IsArtifactFacet(facet.value) else facet.value != "" && AllFacet(facet.value))
  }

  predicate WellFormed(g: Grammar, f: Fields) {
    IsDate(f.date) && IsSlug(f.setId) && IsOrder(f.nn) && IsId6(f.id6) && IsSlug(f.slug) && LegalFacet(g, f.facet)
  }

  // ----- printing -----

  function Tail(facet: Option<string>): string {
    match facet
    case None => ".md"
    case Some(f) => "." + f + ".md"
  }

  function Middle(nn: string, id6: string): string {
    "-" + nn + "-" + id6 + "-"
  }

  function Core(f: Fields): string {
    f.setId + Middle(f.nn, f.id6) + f.slug
  }

  function Stem(f: Fields): string {
    f.date + "-" + Core(f)
  }

  function Print(f: Fields): string {
    Stem(f) + Tail(f.facet)
  }

  /** What a caller of the builder asks for; an empty type means no facet. */
  function Requested(date: string, setId: string, order: int, id6: string, slug: string, facet: Option<string>): Fields {
    Fields(date, ToKebab(setId), TwoDigits(order), id6, ToKebab(slug), if facet == Some("") then None else facet)
  }

  /** `build_clustered_name`; None is its `ValueError` for an unknown artifact type. */
  function Build(date: string, setId: string, order: int, id6: string, slug: string, facet: Option<string>): Option<string> {
    if facet.Some? && facet.value != "" && !IsArtifactFacet(facet.value) then None
    else Some(Print(Requested(date, setId, order, id6, slug, facet)))
  }

  // ----- parsing -----

  /** `-dd-xxxxxx-` */
  predicate IsMiddle(s: string) {
    && |s| == 11 && s[0] == '-' && s[3] == '-' && s[10] == '-'
    && IsDigit(s[1]) && IsDigit(s[2])
    && forall i | 4 <= i < 10 :: IsBase36(s[i])
  }

  predicate MiddleAt(s: string, k: nat) {
    k + 11 <= |s| && IsMiddle(s[k..k + 11])
  }

  /** The first position from `k` where the middle matches, reached over set characters only. */
  function FirstMiddle(s: string, k: nat): (found: Option<nat>)
    requires k <= |s|
    ensures found.Some? ==> k <= found.value && MiddleAt(s, found.value)
    ensures found.Some? ==> forall j | k <= j < found.value :: !MiddleAt(s, j) && IsKebabChar(s[j])
    ensures found.None? ==> forall j | k <= j && MiddleAt(s, j) :: exists i | k <= i < j :: !IsKebabChar(s[i])
    decreases |s| - k
  {
    if MiddleAt(s, k) then Some(k)
    else if k < |s| && IsKebabChar(s[k]) then FirstMiddle(s, k + 1)
    else None
  }

  /** Everything before the first dot. */
  function StemOf(name: string): (stem: string)
    ensures stem <= name
    ensures NoDot(stem)
    ensures |stem| < |name| ==> name[|stem|] == '.'
  {
    if name == "" || name[0] == '.' then "" else [name[0]] + StemOf(name[1..])
  }

  predicate NoDot(s: string) {
    forall i | 0 <= i < |s| :: s[i] != '.'
  }

  /** The optional facet of a tail `[.<facet>].md`; the outer None means the tail does not match. */
  function ReadTail(g: Grammar, tail: string): (facet: Option<Option<string>>)
    ensures facet.Some? ==> LegalFacet(g, facet.value) && tail == Tail(facet.value)
  {
    if tail == ".md" then Some(None)
    else if |tail| > 4 && tail[0] == '.' && tail[|tail| - 3..] == ".md" && LegalFacet(g, Some(tail[1..|tail| - 3]))
    then Some(Some(tail[1..|tail| - 3]))
    else None
  }

  /** The fields before the slug, from a text after `YYYYMMDD-`. */
  function SplitAt(s: string, k: nat): (string, string, string)
    requires MiddleAt(s, k)
  {
    (s[..k], s[k + 1..k + 3], s[k + 4..k + 10])
  }

  predicate HasDate(name: string) {
    |name| >= 10 && AllDigits(name[..8]) && name[8] == '-' && IsKebabChar(name[9])
  }

  /** `parse_clustered` and `parse_uniform_permissive`. */
  function Parse(g: Grammar, name: string): Option<Fields> {
    var stem := StemOf(name);
    var facet := ReadTail(g, name[|stem|..]);
    if facet.None? || !HasDate(stem) then None
    else
      var rest := stem[9..];
      var k := FirstMiddle(rest, 1);
      if k.None? || !IsSlug(rest[k.value + 11..]) then None
      else
        var (setId, nn, id6) := SplitAt(rest, k.value);
        Some(Fields(name[..8], setId, nn, id6, rest[k.value + 11..], facet.value))
  }

  /** `parse_clustered_prefix`: date, set, order and id6 of a name whose tail is not constrained. */
  function ParsePrefix(name: string): Option<(string, string, string, string)> {
    if !HasDate(name) then None
    else
      var k := FirstMiddle(name[9..], 1);
      if k.None? then None
      else
        var (setId, nn, id6) := SplitAt(name[9..], k.value);
        Some((name[..8], setId, nn, id6))
  }

  // ----- the parser returns the shortest match, and a match whenever there is one -----

  ghost predicate Matches(g: Grammar, name: string, f: Fields) {
    WellFormed(g, f) && name == Print(f)
  }

  lemma MiddleIsMiddle(nn: string, id6: string)
    requires IsOrder(nn) && IsId6(id6)
    ensures IsMiddle(Middle(nn, id6))
    ensures Middle(nn, id6)[1..3] == nn && Middle(nn, id6)[4..10] == id6
  {
    var m := Middle(nn, id6);
    assert m == ("-" + nn + "-") + (id6 + "-");
    assert m[1..3] == nn;
    assert m[4..10] == id6;
  }

  lemma MiddleIsItsParts(m: string)
    requires IsMiddle(m)
    ensures IsOrder(m[1..3]) && IsId6(m[4..10]) && Middle(m[1..3], m[4..10]) == m
  {
  }

  lemma SliceOfSlice(s: string, a: nat, b: nat, c: nat, d: nat)
    requires a <= b <= |s| && c <= d <= b - a
    ensures s[a..b][c..d] == s[a + c..a + d]
  {
    var t := s[a..b];
    forall i | 0 <= i < d - c
      ensures t[c..d][i] == s[a + c..a + d][i]
    {
      assert t[c..d][i] == t[c + i];
    }
  }

  /** Splitting `setId + middle + slug` after the set gives the parts back. */
  lemma CoreSplits(setId: string, nn: string, id6: string, slug: string)
    requires IsOrder(nn) && IsId6(id6)
    ensures var s := setId + Middle(nn, id6) + slug;
            MiddleAt(s, |setId|) && SplitAt(s, |setId|) == (setId, nn, id6) && s[|setId| + 11..] == slug
  {
    var m := Middle(nn, id6);
    var s := setId + m + slug;
    MiddleIsMiddle(nn, id6);
    var k := |setId|;
    assert s[k..k + 11] == m;
    SliceOfSlice(s, k, k + 11, 1, 3);
    SliceOfSlice(s, k, k + 11, 4, 10);
    assert s[..k] == setId;
  }

  lemma CoreJoins(s: string, k: nat)
    requires MiddleAt(s, k)
    ensures var (setId, nn, id6) := SplitAt(s, k);
            IsOrder(nn) && IsId6(id6) && s == setId + Middle(nn, id6) + s[k + 11..]
  {
    var m := s[k..k + 11];
    MiddleIsItsParts(m);
    SliceOfSlice(s, k, k + 11, 1, 3);
    SliceOfSlice(s, k, k + 11, 4, 10);
    assert s == s[..k] + m + s[k + 11..];
  }

  lemma {:induction false} StemOfJoin(stem: string, tail: string)
    requires NoDot(stem) && tail != "" && tail[0] == '.'
    ensures StemOf(stem + tail) == stem && (stem + tail)[|stem|..] == tail
  {
    if stem == "" {
      assert stem + tail == tail;
    } else {
      assert (stem + tail)[1..] == stem[1..] + tail;
      StemOfJoin(stem[1..], tail);
      assert stem == [stem[0]] + stem[1..];
    }
  }

  lemma TailReads(g: Grammar, facet: Option<string>)
    requires LegalFacet(g, facet)
    ensures ReadTail(g, Tail(facet)) == Some(facet)
  {
    if facet.Some? {
      var tail := Tail(facet);
      assert tail[1..|tail| - 3] == facet.value;
      assert tail[|tail| - 3..] == ".md";
      assert facet.value != "";
    }
  }

  lemma CoreIsKebab(f: Fields)
    requires IsSlug(f.setId) && IsOrder(f.nn) && IsId6(f.id6) && IsSlug(f.slug)
    ensures AllKebab(Core(f))
  {
    assert AllKebab(Middle(f.nn, f.id6));
  }

  /** What the pieces of a printed name are. */
  lemma PrintedParts(g: Grammar, f: Fields)
    requires WellFormed(g, f)
    ensures var name := Print(f);
            && StemOf(name) == Stem(f)
            && ReadTail(g, name[|Stem(f)|..]) == Some(f.facet)
            && HasDate(Stem(f)) && name[..8] == f.date && Stem(f)[9..] == Core(f)
            && HasDate(name) && name[9..] == Core(f) + Tail(f.facet)
  {
    CoreIsKebab(f);
    StemParts(f.date, Core(f), Tail(f.facet));
    StemOfJoin(Stem(f), Tail(f.facet));
    TailReads(g, f.facet);
  }

  lemma StemParts(date: string, core: string, tail: string)
    requires IsDate(date) && core != "" && AllKebab(core)
    ensures var stem := date + "-" + core;
            && NoDot(stem)
            && HasDate(stem) && stem[9..] == core
            && HasDate(stem + tail) && (stem + tail)[..8] == date && (stem + tail)[9..] == core + tail
  {
    var stem := date + "-" + core;
    var name := stem + tail;
    assert stem[..8] == date && stem[9] == core[0];
    assert name[..8] == date && name[8] == stem[8] && name[9] == stem[9];
  }

  /** Every printed name parses, with a set no longer than the printed one. */
  lemma MatchParses(g: Grammar, name: string, f: Fields)
    requires Matches(g, name, f)
    ensures Parse(g, name).Some? && |Parse(g, name).value.setId| <= |f.setId|
    ensures |Parse(g, name).value.setId| == |f.setId| ==> Parse(g, name) == Some(f)
    ensures FirstMiddle(Core(f), 1) == Some(|Parse(g, name).value.setId|)
  {
    PrintedParts(g, f);
    CoreSplits(f.setId, f.nn, f.id6, f.slug);
    CoreIsKebab(f);
    var core := Core(f);
    assert MiddleAt(core, |f.setId|);
    var k := FirstMiddle(core, 1).value;
    assert k <= |f.setId|;
    assert |core[k + 11..]| > 0;
    assert AllKebab(core[k + 11..]);
  }

  /** Every parse is a match. */
  lemma ParseMatches(g: Grammar, name: string)
    requires Parse(g, name).Some?
    ensures Matches(g, name, Parse(g, name).value)
  {
    var f := Parse(g, name).value;
    var stem := StemOf(name);
    var rest := stem[9..];
    var k := FirstMiddle(rest, 1).value;
    CoreJoins(rest, k);
    assert rest == Core(f);
    assert IsKebabChar(rest[0]);
    assert AllKebab(rest[..k]);
    assert stem[..8] == name[..8];
    assert stem == (stem[..8] + "-") + rest;
    assert name == stem + name[|stem|..];
  }

  /** The parser succeeds exactly on the printed names, and returns the match with the shortest set. */
  lemma ParseIsLazyMatch(g: Grammar, name: string, f: Fields)
    ensures Parse(g, name) == Some(f) <==>
            Matches(g, name, f) && forall other :: Matches(g, name, other) ==> |f.setId| <= |other.setId|
    ensures Parse(g, name).None? <==> forall other :: !Matches(g, name, other)
  {
    forall other | Matches(g, name, other)
      ensures Parse(g, name).Some? && |Parse(g, name).value.setId| <= |other.setId|
    {
      MatchParses(g, name, other);
    }
    if Parse(g, name).Some? {
      ParseMatches(g, name);
    }
    if Matches(g, name, f) {
      MatchParses(g, name, f);
    }
  }

  // ----- the round trip -----

  /** The set itself holds `-dd-xxxxxx` after its first character, so a shorter set matches. */
  predicate HidesMiddle(setId: string) {
    exists k | 1 <= k < |setId| :: MiddleAt(setId + "-", k)
  }

  lemma MiddleInsideSet(setId: string, nn: string, id6: string, slug: string, k: nat)
    requires IsOrder(nn) && IsId6(id6) && k < |setId|
    ensures MiddleAt(setId + Middle(nn, id6) + slug, k) <==> MiddleAt(setId + "-", k)
  {
    var s := setId + Middle(nn, id6) + slug;
    var t := setId + "-";
    var n := |setId|;
    assert s[n] == '-' && s[n + 3] == '-';
    assert forall i | 0 <= i <= n :: s[i] == t[i];
    if k + 11 <= n + 1 {
      assert s[k..k + 11] == t[k..k + 11];
    } else {
      var m := s[k..k + 11];
      assert m[n - k] == s[n];
      assert n - k == 3 ==> m[6] == s[n + 3];
    }
  }

  /** Parsing a printed name gives its fields back exactly when the set hides no middle. */
  lemma PrintRoundTrip(g: Grammar, f: Fields)
    requires WellFormed(g, f)
    ensures Parse(g, Print(f)).Some?
    ensures Parse(g, Print(f)) == Some(f) <==> !HidesMiddle(f.setId)
  {
    MatchParses(g, Print(f), f);
    CoreSplits(f.setId, f.nn, f.id6, f.slug);
    var k := FirstMiddle(Core(f), 1).value;
    if k < |f.setId| {
      MiddleInsideSet(f.setId, f.nn, f.id6, f.slug, k);
    } else if j :| 1 <= j < |f.setId| && MiddleAt(f.setId + "-", j) {
      MiddleInsideSet(f.setId, f.nn, f.id6, f.slug, j);
    }
  }

  /** The prefix reader agrees with the full parser on every name the full parser accepts. */
  lemma PrefixAgrees(g: Grammar, name: string)
    requires Parse(g, name).Some?
    ensures var f := Parse(g, name).value;
            ParsePrefix(name) == Some((f.date, f.setId, f.nn, f.id6))
  {
    ParseMatches(g, name);
    var f := Parse(g, name).value;
    PrintedParts(g, f);
    CoreSplits(f.setId, f.nn, f.id6, f.slug);
    CoreIsKebab(f);
    MatchParses(g, name, f);
    var core := Core(f);
    SameMiddles(core, Tail(f.facet), |f.setId|, 1);
  }

  /** Text after a middle does not move it. */
  lemma {:induction false} SameMiddles(s: string, more: string, k: nat, from: nat)
    requires from <= k && MiddleAt(s, k) && FirstMiddle(s, from) == Some(k)
    ensures FirstMiddle(s + more, from) == Some(k)
    ensures SplitAt(s + more, k) == SplitAt(s, k)
    decreases k - from
  {
    assert (s + more)[from..from + 11] == s[from..from + 11];
    if from < k {
      SameMiddles(s, more, k, from + 1);
    } else {
      var t := s + more;
      assert t[..k] == s[..k];
      assert t[k + 1..k + 3] == s[k + 1..k + 3];
      assert t[k + 4..k + 10] == s[k + 4..k + 10];
    }
  }

  /** Building from any set id and slug with a nonempty kebab form always yields a canonical name. It reads
      back as the normalised inputs exactly when no two neighbouring tokens of the set, the first one
      aside, are two digits and six base36 characters. The prefix reader then agrees too. */
  lemma BuildRoundTrip(date: string, setId: string, order: nat, id6: string, slug: string, facet: Option<string>)
    requires IsDate(date) && order < 100 && IsId6(id6)
    requires ToKebab(setId) != "" && ToKebab(slug) != ""
    requires facet.None? || IsArtifactFacet(facet.value)
    ensures Build(date, setId, order, id6, slug, facet).Some?
    ensures ReadsBack(Build(date, setId, order, id6, slug, facet).value, Requested(date, setId, order, id6, slug, facet))
  {
    hide ToKebab, TwoDigits, TwoDigitValue, Print, ReadsBack, IsKebab, AllDigits;
    ToKebabIsKebab(setId);
    ToKebabIsKebab(slug);
    TwoDigitsRoundTrip(order);
    FieldsRoundTrip(date, ToKebab(setId), TwoDigits(order), id6, ToKebab(slug), facet);
  }

  /** `name` parses, the prefix reader agrees, and the fields are `f` exactly when the set is unambiguous. */
  ghost predicate ReadsBack(name: string, f: Fields) {
    var back := Parse(Canonical, name);
    && back.Some?
    && ParsePrefix(name) == Some((back.value.date, back.value.setId, back.value.nn, back.value.id6))
    && (back == Some(f) <==> !HasNumberedId(Tokens(f.setId)[1..]))
  }

  lemma FieldsRoundTrip(date: string, setId: string, nn: string, id6: string, slug: string, facet: Option<string>)
    requires IsDate(date) && IsOrder(nn) && IsId6(id6)
    requires IsKebab(setId) && setId != "" && IsKebab(slug) && slug != ""
    requires facet.None? || IsArtifactFacet(facet.value)
    ensures ReadsBack(Print(Fields(date, setId, nn, id6, slug, facet)), Fields(date, setId, nn, id6, slug, facet))
  {
    var f := Fields(date, setId, nn, id6, slug, facet);
    PrintRoundTrip(Canonical, f);
    PrefixAgrees(Canonical, Print(f));
    HiddenMiddleIsNumberedId(setId);
  }

  // ----- the ambiguity, read off the tokens of the set -----

  function FirstToken(s: string): (h: string)
    ensures h <= s && '-' !in h
    ensures |h| < |s| ==> s[|h|] == '-'
  {
    if s == "" || s[0] == '-' then "" else [s[0]] + FirstToken(s[1..])
  }

  /** `s.split("-")` */
  function Tokens(s: string): (ts: seq<string>)
    ensures ts != [] && ts[0] == FirstToken(s)
    decreases |s|
  {
    var h := FirstToken(s);
    if |h| == |s| then [h] else [h] + Tokens(s[|h| + 1..])
  }

  /** Some two neighbours are an order number and an id6. */
  predicate HasNumberedId(ts: seq<string>) {
    |ts| >= 2 && ((IsOrder(ts[0]) && IsId6(ts[1])) || HasNumberedId(ts[1..]))
  }

  ghost predicate HasMiddleFrom(s: string, from: nat) {
    exists k | from <= k :: MiddleAt(s, k)
  }

  lemma MiddleShift(head: string, s: string, k: nat)
    ensures MiddleAt(head + s, |head| + k) <==> MiddleAt(s, k)
  {
    if k + 11 <= |s| {
      assert (head + s)[|head| + k..|head| + k + 11] == s[k..k + 11];
    }
  }

  lemma {:induction false} FirstTokenIs(s: string, n: nat)
    requires n <= |s| && (forall i | 0 <= i < n :: s[i] != '-') && (n == |s| || s[n] == '-')
    ensures FirstToken(s) == s[..n]
  {
    if n > 0 {
      FirstTokenIs(s[1..], n - 1);
      assert s[..n] == [s[0]] + s[1..][..n - 1];
    }
  }

  /** Between hyphens, a middle is exactly an order token followed by an id6 token. */
  lemma MiddleAtStart(s: string)
    ensures MiddleAt("-" + s + "-", 0) <==>
            |Tokens(s)| >= 2 && IsOrder(Tokens(s)[0]) && IsId6(Tokens(s)[1])
  {
    var t := "-" + s + "-";
    assert forall i | 1 <= i <= |s| :: t[i] == s[i - 1];
    if MiddleAt(t, 0) {
      assert t[0..11] == t[..11];
      FirstTokenIs(s, 2);
      assert forall i | 0 <= i < 6 :: s[3..][i] == t[0..11][i + 4];
      FirstTokenIs(s[3..], 6);
      assert s[3..][..6] == t[4..10];
    }
    if |Tokens(s)| >= 2 && IsOrder(Tokens(s)[0]) && IsId6(Tokens(s)[1]) {
      var h2 := Tokens(s)[1];
      assert h2 == FirstToken(s[3..]);
      assert forall i | 0 <= i < 6 :: t[i + 4] == h2[i];
      assert |s| > 9 ==> s[9] == s[3..][6];
      var m := t[0..11];
    }
  }

  lemma {:induction false} TokensShowMiddles(s: string)
    ensures HasMiddleFrom("-" + s + "-", 0) <==> HasNumberedId(Tokens(s))
    decreases |s|
  {
    var h := FirstToken(s);
    var t := "-" + s + "-";
    MiddleAtStart(s);
    if |h| == |s| {
      OneTokenNoMiddle(s);
    } else {
      hide MiddleAt, IsOrder, IsId6, FirstToken;
      var rest := s[|h| + 1..];
      TokensShowMiddles(rest);
      SplitJoins(s);
      AfterFirstToken("-" + h, rest, t);
    }
  }

  lemma SplitJoins(s: string)
    requires |FirstToken(s)| < |s|
    ensures var h := FirstToken(s); "-" + s + "-" == ("-" + h) + ("-" + s[|h| + 1..] + "-")
  {
  }

  lemma OneTokenNoMiddle(s: string)
    requires '-' !in s
    ensures !HasMiddleFrom("-" + s + "-", 1)
  {
    var t := "-" + s + "-";
    forall k: nat
      ensures 1 <= k ==> !MiddleAt(t, k)
    {
      if 1 <= k && k + 11 <= |t| {
        assert t[k..k + 11][0] == t[k] == s[k - 1];
      }
    }
  }

  /** Past a head without inner hyphens, middles are those of the rest. */
  lemma AfterFirstToken(head: string, rest: string, t: string)
    requires t == head + ("-" + rest + "-")
    requires forall i | 1 <= i < |head| :: head[i] != '-'
    requires head != ""
    ensures HasMiddleFrom(t, 1) <==> HasMiddleFrom("-" + rest + "-", 0)
  {
    var u := "-" + rest + "-";
    if k :| 1 <= k && MiddleAt(t, k) {
      assert t[k..k + 11][0] == t[k] == '-';
      MiddleShift(head, u, k - |head|);
    }
    if k :| 0 <= k && MiddleAt(u, k) {
      MiddleShift(head, u, k);
      assert MiddleAt(t, |head| + k);
    }
  }

  lemma HiddenMiddleIsNumberedId(setId: string)
    requires IsKebab(setId) && setId != ""
    ensures HidesMiddle(setId) <==> HasNumberedId(Tokens(setId)[1..])
  {
    hide *;
    var h := FirstToken(setId);
    HiddenIsAfterFirst(setId);
    TokensUnfold(setId);
    FirstTokenFacts(setId);
    assert setId[0] != '-' by {
      KebabStart(setId);
    }
    if |h| == |setId| {
      OneTokenHidesNothing(setId);
    } else {
      var rest := setId[|h| + 1..];
      TokensShowMiddles(rest);
      assert setId + "-" == h + ("-" + rest + "-");
      AfterFirstToken(h, rest, setId + "-");
    }
  }

  lemma KebabStart(s: string)
    requires IsKebab(s) && s != ""
    ensures s[0] != '-'
  {
  }

  lemma HiddenIsAfterFirst(setId: string)
    ensures HidesMiddle(setId) <==> HasMiddleFrom(setId + "-", 1)
  {
    hide IsMiddle;
  }

  lemma TokensUnfold(s: string)
    ensures var h := FirstToken(s);
            if |h| == |s| then !HasNumberedId(Tokens(s)[1..]) else Tokens(s)[1..] == Tokens(s[|h| + 1..])
  {
    hide IsOrder, IsId6, FirstToken;
  }

  lemma FirstTokenFacts(s: string)
    ensures var h := FirstToken(s);
            && (s != "" && s[0] != '-' ==> h != "")
            && (|h| == |s| ==> '-' !in s)
            && (|h| < |s| ==> s == h + "-" + s[|h| + 1..])
            && forall i | 0 <= i < |h| :: h[i] != '-'
  {
    var h := FirstToken(s);
    assert |h| == |s| ==> h == s;
    assert forall i | 0 <= i < |h| :: h[i] in h;
  }

  lemma OneTokenHidesNothing(s: string)
    requires '-' !in s
    ensures !HasMiddleFrom(s + "-", 1)
  {
    var t := s + "-";
    forall k: nat
      ensures 1 <= k ==> !MiddleAt(t, k)
    {
      if 1 <= k && k + 11 <= |t| {
        assert t[k..k + 11][0] == t[k] == s[k];
      }
    }
  }
}
