/** Masking and unmasking as one operation: when they are inverse, and what an edit made in between can
    and cannot touch. */
module Unmasking {
  import opened Wrappers
  import opened Text
  import opened Rewriting
  import opened Masking
  import opened Links

  function Fenced(text: string): Masked {
    FenceCuts(SplitLines(text), "")
  }

  function FencedText(text: string): string {
    Render(Fence, Fenced(text).cuts, Fenced(text).tail, 0)
  }

  function Linked(text: string): Masked {
    LinkCuts(FencedText(text), "")
  }

  function MaskedText(text: string): string {
    Render(Link, Linked(text).cuts, Linked(text).tail, 0)
  }

  /** `restore_fenced(restore_permalinks(edited))`, with what masking `text` saved. */
  function Unmask(text: string, edited: string): Option<string> {
    match Restore(Link, Hidden(Linked(text).cuts), edited)
    case None => None
    case Some(t) => Restore(Fence, Hidden(Fenced(text).cuts), t)
  }

  /** The text brings a fence token of its own, or makes one with a token that masking puts beside it. */
  predicate ForeignFence(text: string) {
    !NoForeignToken(Fence, Fenced(text).cuts, Fenced(text).tail, 0)
  }

  /** The masked text holds a permalink token that masking did not put there. */
  predicate ForeignLink(text: string) {
    !NoForeignToken(Link, Linked(text).cuts, Linked(text).tail, 0)
  }

  predicate Foreign(text: string) {
    ForeignFence(text) || ForeignLink(text)
  }

  // ----- what masking produces -----

  lemma FencedSource(text: string)
    ensures Source(Fenced(text).cuts, Fenced(text).tail) == text
  {
    hide Source, FenceCuts, SplitLines, Concat;
    FenceSource(SplitLines(text), "");
    LinesConcat(text);
    assert "" + text == text;
  }

  lemma LinkedSource(text: string)
    ensures Source(Linked(text).cuts, Linked(text).tail) == FencedText(text)
  {
    hide Source, LinkCuts, FencedText;
    LinkSource(FencedText(text), "");
    assert "" + FencedText(text) == FencedText(text);
  }

  lemma FencedIs(text: string)
    ensures FencedText(text) == Render(Fence, Fenced(text).cuts, Fenced(text).tail, 0)
    ensures ForeignFence(text) <==> !NoForeignToken(Fence, Fenced(text).cuts, Fenced(text).tail, 0)
  {
  }

  lemma LinkedIs(text: string)
    ensures MaskedText(text) == Render(Link, Linked(text).cuts, Linked(text).tail, 0)
    ensures ForeignLink(text) <==> !NoForeignToken(Link, Linked(text).cuts, Linked(text).tail, 0)
  {
    hide Render, Linked, NoForeignToken;
  }

  /** Each layer's restore inverts its masking when the layer met no foreign token. */
  lemma LayersInvert(text: string)
    ensures !ForeignFence(text) ==> Restore(Fence, Hidden(Fenced(text).cuts), FencedText(text)) == Some(text)
    ensures !ForeignLink(text) ==> Restore(Link, Hidden(Linked(text).cuts), MaskedText(text)) == Some(FencedText(text))
  {
    hide *;
    var f, l := Fenced(text), Linked(text);
    FencedSource(text);
    LinkedSource(text);
    FencedIs(text);
    LinkedIs(text);
    assert [] + Hidden(f.cuts) == Hidden(f.cuts) && [] + Hidden(l.cuts) == Hidden(l.cuts);
    if !ForeignFence(text) {
      RestoreRender(Fence, f.cuts, f.tail, []);
    }
    if !ForeignLink(text) {
      RestoreRender(Link, l.cuts, l.tail, []);
    }
  }

  /** On every text that brings no foreign token, NULs or not, unmasking inverts masking, even where a link
      swallowed a fence token. */
  lemma UnmaskInvertsMask(text: string)
    requires !Foreign(text)
    ensures Unmask(text, MaskedText(text)) == Some(text)
  {
    hide Restore, ForeignFence, ForeignLink, Fenced, Linked, FencedText, MaskedText;
    LayersInvert(text);
  }

  lemma LinkedIsClean(text: string)
    requires !ForeignFence(text)
    ensures CleanCuts(|Fenced(text).cuts|, Linked(text).cuts, Linked(text).tail)
  {
    hide *;
    var f := Fenced(text);
    FencedIs(text);
    RenderIsClean(f.cuts, f.tail, 0, |f.cuts|);
    NothingIsClean(|f.cuts|, FencedText(text));
    LinkCutsClean(|f.cuts|, FencedText(text), "");
    LinkedIsCuts(text);
  }

  lemma LinkedIsCuts(text: string)
    ensures Linked(text) == LinkCuts(FencedText(text), "")
  {
  }

  // ----- the regions of a text -----

  /** A stretch of the text an edit may change, or one it must not. */
  datatype Region = Free(text: string) | Kept(text: string)

  function TextOf(regions: seq<Region>): string {
    if regions == [] then "" else regions[0].text + TextOf(regions[1..])
  }

  /** Every free stretch rewritten, every kept one as it was. */
  function Edited(regions: seq<Region>, edits: seq<Edit>): seq<Region>
    requires AllDated(edits)
  {
    if regions == [] then []
    else
      (if regions[0].Free? then [Free(RewriteAll(regions[0].text, edits))] else [regions[0]]) + Edited(regions[1..], edits)
  }

  /** The part of a stretch before its first whole fence token. */
  function PlainPart(s: string): (p: string)
    ensures p <= s && (|p| < |s| ==> TokenAt(Fence, s[|p|..]).Some?)
  {
    if s == "" || TokenAt(Fence, s).Some? then ""
    else
      assert s[1..][|PlainPart(s[1..])|..] == s[|PlainPart(s[1..])| + 1..];
      [s[0]] + PlainPart(s[1..])
  }

  function Block(blocks: seq<string>, i: nat): string {
    if i < |blocks| then blocks[i] else ""
  }

  /** The regions of a fence-masked stretch: each token stands for its block. */
  function FenceRegions(blocks: seq<string>, s: string): seq<Region>
    decreases |s|
  {
    var p := PlainPart(s);
    if p == s then [Free(s)]
    else
      TokenShorter(s[|p|..]);
      [Free(p), Kept(Block(blocks, TokenAt(Fence, s[|p|..]).value))] + FenceRegions(blocks, AfterToken(s[|p|..]))
  }

  /** The plain part of a clean stretch holds no token, and the rest of it is clean. */
  lemma {:induction false} PlainIsQuiet(n: nat, s: string, rest: string)
    requires Clean(n, s, rest)
    ensures var p := PlainPart(s); Quiet(Fence, p, s[|p|..] + rest) && Clean(n, s[|p|..], rest)
  {
    hide TokenAt, Clean;
    var p := PlainPart(s);
    if s == "" || TokenAt(Fence, s).Some? {
      assert s[0..] == s;
    } else {
      CleanStep(n, s, rest);
      PlainIsQuiet(n, s[1..], rest);
      assert p[1..] == PlainPart(s[1..]) && s[1..][|p| - 1..] == s[|p|..];
      assert p + (s[|p|..] + rest) == s + rest;
    }
  }

  /** Restoring a clean stretch is replacing each token by its block. */
  lemma {:induction false} RestoreClean(blocks: seq<string>, s: string, rest: string)
    requires Clean(|blocks|, s, rest)
    ensures Restore(Fence, blocks, s + rest) == Prepend(TextOf(FenceRegions(blocks, s)), Restore(Fence, blocks, rest))
    decreases |s|
  {
    hide *;
    var p := PlainPart(s);
    var t, r := s[|p|..], Restore(Fence, blocks, rest);
    PlainIsQuiet(|blocks|, s, rest);
    RestoreQuiet(Fence, blocks, p, t + rest);
    assert s + rest == p + (t + rest);
    if p == s {
      RegionsOfPlain(blocks, s);
      assert t + rest == rest;
    } else {
      RegionsStep(blocks, s);
      CleanStep(|blocks|, t, rest);
      TokenStays(Fence, t, rest);
      RestoreAtToken(Fence, blocks, t + rest);
      TokenShorter(t);
      RestoreClean(blocks, AfterToken(t), rest);
      var block := blocks[TokenAt(Fence, t).value];
      PrependTwice(block, TextOf(FenceRegions(blocks, AfterToken(t))), r);
      PrependTwice(p, block + TextOf(FenceRegions(blocks, AfterToken(t))), r);
      BlockIs(blocks, TokenAt(Fence, t).value);
    }
  }

  lemma BlockIs(blocks: seq<string>, i: nat)
    requires i < |blocks|
    ensures Block(blocks, i) == blocks[i]
  {
  }

  lemma RestoreAtToken(layer: Layer, saved: seq<string>, s: string)
    requires TokenAt(layer, s).Some? && TokenAt(layer, s).value < |saved|
    ensures s != "" && |Field(s[1..])| + 1 < |s|
    ensures Restore(layer, saved, s) == Prepend(saved[TokenAt(layer, s).value], Restore(layer, saved, AfterToken(s)))
  {
    hide IsName, Value;
  }

  lemma RegionsOfPlain(blocks: seq<string>, s: string)
    requires PlainPart(s) == s
    ensures FenceRegions(blocks, s) == [Free(s)] && TextOf(FenceRegions(blocks, s)) == s
  {
    hide TokenAt, AfterToken, Field, PlainPart;
    assert [Free(s)][1..] == [];
    assert s + "" == s;
  }

  lemma RegionsStep(blocks: seq<string>, s: string)
    requires PlainPart(s) != s
    ensures var t := s[|PlainPart(s)|..];
            && t != "" && TokenAt(Fence, t).Some? && |Field(t[1..])| + 1 < |t| && |AfterToken(t)| < |s|
            && var block, rest := Block(blocks, TokenAt(Fence, t).value), FenceRegions(blocks, AfterToken(t));
               && FenceRegions(blocks, s) == [Free(PlainPart(s)), Kept(block)] + rest
               && TextOf(FenceRegions(blocks, s)) == PlainPart(s) + (block + TextOf(rest))
  {
    hide TokenAt, AfterToken, Field, PlainPart, Block;
    var p := PlainPart(s);
    var t := s[|p|..];
    assert p + t == s;
    TokenShorter(t);
    var block, rest := Kept(Block(blocks, TokenAt(Fence, t).value)), FenceRegions(blocks, AfterToken(t));
    var all := [Free(p), block] + rest;
    assert all[1..] == [block] + rest && all[1..][1..] == rest;
  }

  lemma FieldFacts(s: string)
    ensures Field(s) <= s && NUL !in Field(s)
    ensures |Field(s)| < |s| ==> s[|Field(s)|] == NUL
  {
  }

  // ----- a rewrite keeps the tokens where they are -----

  /** A token, in the form the separation lemma wants. */
  lemma TokenShape(s: string)
    requires TokenAt(Fence, s).Some?
    ensures s != "" && |Field(s[1..])| + 1 < |s|
    ensures s == [NUL] + Field(s[1..]) + [NUL] + AfterToken(s)
    ensures '-' !in Field(s[1..]) && NUL !in Field(s[1..])
  {
    TokenBounds(Fence, s);
    var f := Field(s[1..]);
    forall j | 0 <= j < |f|
      ensures f[j] != '-'
    {
      NameCharacters(f, j);
    }
  }

  /** Rewriting past a token. */
  lemma RewriteOverToken(p: string, name: string, rest: string, edits: seq<Edit>)
    requires AllDated(edits) && '-' !in name
    ensures RewriteAll(p + ([NUL] + name + [NUL] + rest), edits)
            == RewriteAll(p, edits) + ([NUL] + name + [NUL] + RewriteAll(rest, edits))
  {
    hide *;
    RewriteAllStopsAtNul(p, name + [NUL] + rest, edits);
    RewriteAllStopsAtNul(name, rest, edits);
    RewriteAllTouchesHyphens(name, edits);
    assert p + ([NUL] + name + [NUL] + rest) == p + [NUL] + (name + [NUL] + rest);
  }

  lemma TokenFromShape(p: string, name: string, rest: string)
    requires NUL !in p && NUL !in name
    ensures var s := p + ([NUL] + name + [NUL] + rest);
            && Field(s) == p && s != p && s[|p|..] == [NUL] + name + [NUL] + rest
    ensures var t := [NUL] + name + [NUL] + rest;
            && Field(t[1..]) == name && AfterToken(t) == rest
            && forall layer :: TokenAt(layer, t) == if IsName(layer, name) then Some(Value(name[|Label(layer)|..])) else None
  {
    hide IsName, Value;
    var t := [NUL] + name + [NUL] + rest;
    FieldIs(p, t);
    assert t[1..] == name + ([NUL] + rest);
    FieldIs(name, [NUL] + rest);
    assert t[|name| + 2..] == rest;
  }

  // ----- what an edit cannot turn into a token -----

  /** `b` starts with the field that `a` starts with, unless that of `b` holds a hyphen, and no token name does. */
  predicate Similar(a: string, b: string) {
    (Field(a) == a <==> Field(b) == b) && ('-' in Field(b) || Field(a) == Field(b))
  }

  lemma NulsAreSimilar(a: string, b: string)
    requires a != "" && b != "" && a[0] == NUL && b[0] == NUL
    ensures Similar(a, b)
  {
  }

  lemma SameIsSimilar(a: string)
    ensures Similar(a, a)
  {
  }

  lemma FieldOfAppend(a: string, b: string)
    ensures Field(a + b) == if Field(a) == a then a + Field(b) else Field(a)
    ensures Field(a + b) == a + b <==> Field(a) == a && Field(b) == b
  {
    hide Field;
    var f, g := Field(a), Field(b);
    FieldFacts(a);
    FieldFacts(b);
    if f == a {
      assert a + b == (a + g) + b[|g|..];
      FieldIs(a + g, b[|g|..]);
    } else {
      assert a + b == f + (a[|f|..] + b);
      FieldIs(f, a[|f|..] + b);
    }
  }

  lemma SimilarAppend(a: string, a': string, b: string, b': string)
    requires Similar(a, a') && Similar(b, b')
    ensures Similar(a + b, a' + b')
  {
    hide Field;
    FieldOfAppend(a, b);
    FieldOfAppend(a', b');
  }

  /** An edit rewrites the first field alone. */
  lemma RewriteIsSimilar(q: string, edits: seq<Edit>)
    requires AllDated(edits)
    ensures Similar(q, RewriteAll(q, edits))
  {
    hide *;
    var f := Field(q);
    var r := RewriteAll(f, edits);
    FieldFacts(q);
    RewriteAllTouchesHyphens(f, edits);
    if f == q {
      FieldIs(r, "");
      assert r + "" == r;
      SimilarFields(q, r);
    } else {
      var u := q[|f| + 1..];
      assert q == f + [NUL] + u;
      RewriteAllStopsAtNul(f, u, edits);
      var more := [NUL] + RewriteAll(u, edits);
      assert r + [NUL] + RewriteAll(u, edits) == r + more;
      FieldIs(r, more);
      assert |r + more| > |r|;
      SimilarFields(q, r + more);
    }
  }

  lemma SimilarFields(a: string, b: string)
    requires (Field(a) == a <==> Field(b) == b) && ('-' in Field(b) || Field(a) == Field(b))
    ensures Similar(a, b)
  {
    hide Field;
  }

  lemma NameHasNoHyphen(layer: Layer, f: string)
    requires IsName(layer, f)
    ensures '-' !in f
  {
    var l := |Label(layer)|;
    forall j | 0 <= j < |f|
      ensures f[j] != '-'
    {
      if j < l {
        assert f[j] == Label(layer)[j];
      } else {
        assert f[j] == f[l..][j - l];
      }
    }
  }

  lemma TokenByField(layer: Layer, u: string)
    ensures TokenAt(layer, [NUL] + u).Some? <==> Field(u) != u && IsName(layer, Field(u))
  {
    hide Value, IsName;
    assert ([NUL] + u)[1..] == u;
  }

  lemma NoNewToken(layer: Layer, u: string, u': string)
    requires Similar(u, u') && TokenAt(layer, [NUL] + u).None?
    ensures TokenAt(layer, [NUL] + u').None?
  {
    hide Field, IsName, TokenAt;
    TokenByField(layer, u);
    TokenByField(layer, u');
    if IsName(layer, Field(u')) {
      NameHasNoHyphen(layer, Field(u'));
    }
  }

  /** An edit makes no token, of either layer, where none was. */
  lemma {:induction false} QuietEdited(layer: Layer, q: string, rest: string, rest': string, edits: seq<Edit>)
    requires AllDated(edits) && Quiet(layer, q, rest) && Similar(rest, rest')
    ensures Quiet(layer, RewriteAll(q, edits), rest')
    decreases |q|
  {
    hide *;
    var f := Field(q);
    FieldFacts(q);
    RewriteAllTouchesHyphens(f, edits);
    if f == q {
      NulFreeIsQuiet(layer, RewriteAll(q, edits), rest');
    } else {
      var u := q[|f| + 1..];
      var r, u' := RewriteAll(f, edits), RewriteAll(u, edits);
      assert q == f + [NUL] + u == f + ([NUL] + u);
      QuietSuffix(layer, f, [NUL] + u, rest);
      QuietHead(layer, [NUL] + u, rest);
      assert ([NUL] + u)[1..] == u && [NUL] + u + rest == [NUL] + (u + rest);
      QuietEdited(layer, u, rest, rest', edits);
      RewriteIsSimilar(u, edits);
      SimilarAppend(u, u', rest, rest');
      NoNewToken(layer, u + rest, u' + rest');
      QuietCons(layer, NUL, u', rest');
      NulFreeIsQuiet(layer, r, [NUL] + u' + rest');
      QuietAppend(layer, r, [NUL] + u', rest');
      RewriteAllStopsAtNul(f, u, edits);
      assert r + [NUL] + u' == r + ([NUL] + u');
    }
  }

  lemma {:induction false} QuietSuffix(layer: Layer, a: string, b: string, rest: string)
    requires Quiet(layer, a + b, rest)
    ensures Quiet(layer, b, rest)
  {
    hide TokenAt;
    if a == "" {
      assert a + b == b;
    } else {
      assert (a + b)[1..] == a[1..] + b;
      QuietSuffix(layer, a[1..], b, rest);
    }
  }

  lemma {:induction false} QuietAppend(layer: Layer, a: string, b: string, rest: string)
    requires Quiet(layer, a, b + rest) && Quiet(layer, b, rest)
    ensures Quiet(layer, a + b, rest)
  {
    hide TokenAt;
    if a == "" {
      assert a + b == b;
    } else {
      assert (a + b)[1..] == a[1..] + b;
      assert a + b + rest == a + (b + rest);
      QuietAppend(layer, a[1..], b, rest);
    }
  }

  lemma QuietHead(layer: Layer, q: string, rest: string)
    requires Quiet(layer, q, rest) && q != ""
    ensures TokenAt(layer, q + rest).None? && Quiet(layer, q[1..], rest)
  {
  }

  lemma QuietCons(layer: Layer, c: char, q: string, rest: string)
    requires TokenAt(layer, [c] + (q + rest)).None? && Quiet(layer, q, rest)
    ensures Quiet(layer, [c] + q, rest)
  {
    hide TokenAt;
    assert ([c] + q)[1..] == q && [c] + q + rest == [c] + (q + rest);
  }

  /** A quiet stretch in front of a token is its plain part. */
  lemma {:induction false} PlainPartIs(q: string, t: string, rest: string)
    requires Quiet(Fence, q, t + rest) && (t == "" || TokenAt(Fence, t).Some?)
    ensures PlainPart(q + t) == q
  {
    hide TokenAt;
    if q == "" {
      assert q + t == t;
    } else {
      assert q + (t + rest) == (q + t) + rest && (q + t)[1..] == q[1..] + t;
      if TokenAt(Fence, q + t).Some? {
        TokenStays(Fence, q + t, rest);
        assert false;
      }
      PlainPartIs(q[1..], t, rest);
    }
  }

  /** Rewriting a clean stretch rewrites its free regions and nothing else. */
  lemma {:induction false} RewriteKeepsTokens(blocks: seq<string>, s: string, rest: string, rest': string, edits: seq<Edit>)
    requires AllDated(edits) && Clean(|blocks|, s, rest) && Similar(rest, rest')
    ensures Clean(|blocks|, RewriteAll(s, edits), rest')
    ensures FenceRegions(blocks, RewriteAll(s, edits)) == Edited(FenceRegions(blocks, s), edits)
    decreases |s|
  {
    hide *;
    var n, p := |blocks|, PlainPart(s);
    var t, q := s[|p|..], RewriteAll(p, edits);
    PlainIsQuiet(n, s, rest);
    if p == s {
      assert t + rest == rest;
      QuietEdited(Fence, s, rest, rest', edits);
      QuietIsClean(n, q, rest');
      assert "" + rest' == rest' && q + "" == q;
      PlainPartIs(q, "", rest');
      RegionsOfPlain(blocks, s);
      RegionsOfPlain(blocks, q);
      EditedOne(Free(s), edits);
    } else {
      RegionsStep(blocks, s);
      CleanStep(n, t, rest);
      TokenShape(t);
      TokenStays(Fence, t, rest);
      var name, r := Field(t[1..]), AfterToken(t);
      var r' := RewriteAll(r, edits);
      var t' := [NUL] + name + [NUL] + r';
      assert s == p + ([NUL] + name + [NUL] + r);
      RewriteOverToken(p, name, r, edits);
      RewriteKeepsTokens(blocks, r, rest, rest', edits);
      SameToken(name, r, r');
      TokenStays(Fence, t', rest');
      CleanStep(n, t', rest');
      BothStartWithNul(t, t', rest, rest');
      QuietEdited(Fence, p, t + rest, t' + rest', edits);
      QuietIsClean(n, q, t' + rest');
      CleanAppend(n, q, t', rest');
      PlainPartIs(q, t', rest');
      RegionsStep(blocks, q + t');
      SuffixIs(q, t');
      EditedTwo(p, Kept(Block(blocks, TokenAt(Fence, t).value)), FenceRegions(blocks, r), edits);
    }
  }

  lemma SuffixIs(a: string, b: string)
    ensures (a + b)[|a|..] == b && (b != "" ==> a + b != a)
  {
  }

  lemma BothStartWithNul(t: string, t': string, rest: string, rest': string)
    requires t != "" && t' != "" && t[0] == NUL && t'[0] == NUL
    ensures Similar(t + rest, t' + rest')
  {
    NulsAreSimilar(t + rest, t' + rest');
  }

  lemma SameToken(name: string, r: string, r': string)
    requires NUL !in name && TokenAt(Fence, [NUL] + name + [NUL] + r).Some?
    ensures var t' := [NUL] + name + [NUL] + r';
            && TokenAt(Fence, t') == TokenAt(Fence, [NUL] + name + [NUL] + r)
            && t' != "" && t'[0] == NUL && |Field(t'[1..])| + 1 < |t'| && AfterToken(t') == r'
  {
    hide TokenAt, AfterToken;
    TokenFromShape("", name, r);
    TokenFromShape("", name, r');
  }

  lemma EditedOne(r: Region, edits: seq<Edit>)
    requires AllDated(edits)
    ensures Edited([r], edits) == if r.Free? then [Free(RewriteAll(r.text, edits))] else [r]
  {
    assert [r][1..] == [];
  }

  lemma EditedTwo(f: string, kept: Region, rest: seq<Region>, edits: seq<Edit>)
    requires AllDated(edits) && kept.Kept?
    ensures Edited([Free(f), kept] + rest, edits) == [Free(RewriteAll(f, edits)), kept] + Edited(rest, edits)
  {
    hide RewriteAll, AllDated;
    var all := [Free(f), kept] + rest;
    assert all[1..] == [kept] + rest && all[1..][1..] == rest;
    assert [Free(RewriteAll(f, edits))] + ([kept] + Edited(rest, edits)) == [Free(RewriteAll(f, edits)), kept] + Edited(rest, edits);
  }

  // ----- the two layers together -----

  /** The regions of a whole text: those of each plain stretch, and each pinned link, with the fences it
      swallowed put back, as one kept region. */
  function LinkRegions(blocks: seq<string>, cuts: seq<Cut>, tail: string): seq<Region>
    decreases |cuts|
  {
    if cuts == [] then FenceRegions(blocks, tail)
    else
      FenceRegions(blocks, cuts[0].plain) + [Kept(TextOf(FenceRegions(blocks, cuts[0].hidden)))]
      + LinkRegions(blocks, cuts[1..], tail)
  }

  function RewritePlain(cuts: seq<Cut>, edits: seq<Edit>): seq<Cut>
    requires AllDated(edits)
  {
    if cuts == [] then []
    else [Cut(RewriteAll(cuts[0].plain, edits), cuts[0].hidden)] + RewritePlain(cuts[1..], edits)
  }

  /** Editing the masked text is editing each plain stretch. */
  lemma {:induction false} RewriteRendered(cuts: seq<Cut>, tail: string, n: nat, edits: seq<Edit>)
    requires AllDated(edits)
    ensures RewriteAll(Render(Link, cuts, tail, n), edits) == Render(Link, RewritePlain(cuts, edits), RewriteAll(tail, edits), n)
    decreases |cuts|
  {
    hide RewriteAll, AllDated, Token;
    if cuts != [] {
      var rest := Render(Link, cuts[1..], tail, n + 1);
      RewriteRendered(cuts[1..], tail, n + 1, edits);
      TokenParts(Link, n, rest);
      TokenParts(Link, n, RewriteAll(rest, edits));
      RewriteOverToken(cuts[0].plain, Label(Link) + Decimal(n), rest, edits);
      var first := Cut(RewriteAll(cuts[0].plain, edits), cuts[0].hidden);
      assert ([first] + RewritePlain(cuts[1..], edits))[1..] == RewritePlain(cuts[1..], edits);
    }
  }

  lemma TokenParts(layer: Layer, n: nat, rest: string)
    ensures Token(layer, n) + rest == [NUL] + (Label(layer) + Decimal(n)) + [NUL] + rest
    ensures '-' !in Label(layer) + Decimal(n) && NUL !in Label(layer) + Decimal(n)
  {
    hide Decimal;
    NameIsName(layer, n);
  }

  lemma RewrittenCons(cuts: seq<Cut>, tail: string, edits: seq<Edit>)
    requires AllDated(edits) && cuts != []
    ensures var first, more := Cut(RewriteAll(cuts[0].plain, edits), cuts[0].hidden), RewritePlain(cuts[1..], edits);
            && RewritePlain(cuts, edits) != [] && RewritePlain(cuts, edits)[0] == first && RewritePlain(cuts, edits)[1..] == more
            && Hidden(RewritePlain(cuts, edits)) == [cuts[0].hidden] + Hidden(more)
            && Source(RewritePlain(cuts, edits), tail) == first.plain + (first.hidden + Source(more, tail))
            && Hidden(cuts) == [cuts[0].hidden] + Hidden(cuts[1..])
  {
    hide RewriteAll, AllDated;
  }

  lemma {:induction false} SimilarSources(cuts: seq<Cut>, tail: string, edits: seq<Edit>)
    requires AllDated(edits)
    ensures Similar(Source(cuts, tail), Source(RewritePlain(cuts, edits), RewriteAll(tail, edits)))
    ensures Hidden(RewritePlain(cuts, edits)) == Hidden(cuts)
    decreases |cuts|
  {
    hide RewriteAll, AllDated, Similar, Hidden;
    if cuts == [] {
      RewriteIsSimilar(tail, edits);
    } else {
      var more, tail' := RewritePlain(cuts[1..], edits), RewriteAll(tail, edits);
      RewrittenCons(cuts, tail', edits);
      SimilarSources(cuts[1..], tail, edits);
      SameIsSimilar(cuts[0].hidden);
      SimilarAppend(cuts[0].hidden, cuts[0].hidden, Source(cuts[1..], tail), Source(more, tail'));
      RewriteIsSimilar(cuts[0].plain, edits);
      SimilarAppend(cuts[0].plain, RewriteAll(cuts[0].plain, edits), cuts[0].hidden + Source(cuts[1..], tail), cuts[0].hidden + Source(more, tail'));
    }
  }

  /** What follows may change to something similar. */
  lemma CleanBefore(blocks: seq<string>, s: string, rest: string, rest': string)
    requires Clean(|blocks|, s, rest) && Similar(rest, rest')
    ensures Clean(|blocks|, s, rest')
  {
    hide *;
    NoEdits();
    RewriteKeepsTokens(blocks, s, rest, rest', []);
    NothingRewritten(s);
  }

  lemma NoEdits()
    ensures AllDated([])
  {
  }

  lemma NothingRewritten(s: string)
    requires AllDated([])
    ensures RewriteAll(s, []) == s
  {
  }

  lemma {:induction false} TextOfAppend(a: seq<Region>, b: seq<Region>)
    ensures TextOf(a + b) == TextOf(a) + TextOf(b)
  {
    if a == [] {
      assert a + b == b && TextOf(a) + TextOf(b) == TextOf(b);
    } else {
      assert (a + b)[1..] == a[1..] + b;
      TextOfAppend(a[1..], b);
      assert a[0].text + (TextOf(a[1..]) + TextOf(b)) == TextOf(a) + TextOf(b);
    }
  }

  lemma {:induction false} EditedAppend(a: seq<Region>, b: seq<Region>, edits: seq<Edit>)
    requires AllDated(edits)
    ensures Edited(a + b, edits) == Edited(a, edits) + Edited(b, edits)
  {
    hide RewriteAll, AllDated;
    if a == [] {
      assert a + b == b && Edited(a, edits) + Edited(b, edits) == Edited(b, edits);
    } else {
      assert (a + b)[1..] == a[1..] + b;
      EditedAppend(a[1..], b, edits);
      var first := if a[0].Free? then [Free(RewriteAll(a[0].text, edits))] else [a[0]];
      assert first + (Edited(a[1..], edits) + Edited(b, edits)) == first + Edited(a[1..], edits) + Edited(b, edits);
    }
  }

  /** Restoring the fences of a text put together from clean pieces. */
  lemma {:induction false} RestoreFencesInSource(blocks: seq<string>, cuts: seq<Cut>, tail: string)
    requires CleanCuts(|blocks|, cuts, tail)
    ensures Restore(Fence, blocks, Source(cuts, tail)) == Some(TextOf(LinkRegions(blocks, cuts, tail)))
    decreases |cuts|
  {
    hide Clean, Restore, FenceRegions, TextOf;
    if cuts == [] {
      RestoreWhole(blocks, tail);
    } else {
      var p, h := FenceRegions(blocks, cuts[0].plain), FenceRegions(blocks, cuts[0].hidden);
      var rest := LinkRegions(blocks, cuts[1..], tail);
      RestoreClean(blocks, cuts[0].plain, cuts[0].hidden + Source(cuts[1..], tail));
      RestoreClean(blocks, cuts[0].hidden, Source(cuts[1..], tail));
      RestoreFencesInSource(blocks, cuts[1..], tail);
      TextOfAppend(p + [Kept(TextOf(h))], rest);
      TextOfAppend(p, [Kept(TextOf(h))]);
      TextOfOne(Kept(TextOf(h)));
      assert TextOf(p) + (TextOf(h) + TextOf(rest)) == TextOf(p) + TextOf(h) + TextOf(rest);
    }
  }

  lemma TextOfOne(r: Region)
    ensures TextOf([r]) == r.text
  {
    assert [r][1..] == [];
    assert r.text + "" == r.text;
  }

  lemma RestoreWhole(blocks: seq<string>, s: string)
    requires Clean(|blocks|, s, "")
    ensures Restore(Fence, blocks, s) == Some(TextOf(FenceRegions(blocks, s)))
  {
    hide FenceRegions, TextOf, Clean;
    RestoreClean(blocks, s, "");
    assert s + "" == s;
    assert TextOf(FenceRegions(blocks, s)) + "" == TextOf(FenceRegions(blocks, s));
  }

  /** Editing the plain stretches edits the free regions, and keeps every piece clean. */
  lemma {:induction false} RegionsEdited(blocks: seq<string>, cuts: seq<Cut>, tail: string, edits: seq<Edit>)
    requires AllDated(edits) && CleanCuts(|blocks|, cuts, tail)
    ensures CleanCuts(|blocks|, RewritePlain(cuts, edits), RewriteAll(tail, edits))
    ensures LinkRegions(blocks, RewritePlain(cuts, edits), RewriteAll(tail, edits))
            == Edited(LinkRegions(blocks, cuts, tail), edits)
    decreases |cuts|
  {
    hide Clean, RewriteAll, AllDated, FenceRegions, TextOf, Edited, RewritePlain, Similar, Source;
    if cuts == [] {
      SameIsSimilar("");
      RewriteKeepsTokens(blocks, tail, "", "", edits);
      NoneRewritten(edits);
    } else {
      var tail' := RewriteAll(tail, edits);
      var rest, rest' := Source(cuts[1..], tail), Source(RewritePlain(cuts[1..], edits), tail');
      var h := cuts[0].hidden;
      RewrittenCons(cuts, tail', edits);
      SimilarSources(cuts[1..], tail, edits);
      SameIsSimilar(h);
      SimilarAppend(h, h, rest, rest');
      RewriteKeepsTokens(blocks, cuts[0].plain, h + rest, h + rest', edits);
      CleanBefore(blocks, h, rest, rest');
      RegionsEdited(blocks, cuts[1..], tail, edits);
      var p, kept := FenceRegions(blocks, cuts[0].plain), Kept(TextOf(FenceRegions(blocks, h)));
      EditedAppend(p + [kept], LinkRegions(blocks, cuts[1..], tail), edits);
      EditedAppend(p, [kept], edits);
      EditedOne(kept, edits);
    }
  }

  lemma NoneRewritten(edits: seq<Edit>)
    requires AllDated(edits)
    ensures RewritePlain([], edits) == []
  {
  }

  // ----- an edit makes no foreign token -----

  lemma {:induction false} EditsMakeNoForeignToken(cuts: seq<Cut>, tail: string, k: nat, edits: seq<Edit>)
    requires AllDated(edits) && NoForeignToken(Link, cuts, tail, k)
    ensures NoForeignToken(Link, RewritePlain(cuts, edits), RewriteAll(tail, edits), k)
    decreases |cuts|
  {
    hide RewriteAll, AllDated, Quiet, Token, Render, Similar;
    if cuts == [] {
      SameIsSimilar("");
      QuietEdited(Link, tail, "", "", edits);
    } else {
      var more := RewritePlain(cuts[1..], edits);
      RewrittenCons(cuts, tail, edits);
      var rest := Token(Link, k) + Render(Link, cuts[1..], tail, k + 1);
      var rest' := Token(Link, k) + Render(Link, more, RewriteAll(tail, edits), k + 1);
      TokenStarts(Link, k, Render(Link, cuts[1..], tail, k + 1));
      TokenStarts(Link, k, Render(Link, more, RewriteAll(tail, edits), k + 1));
      NulsAreSimilar(rest, rest');
      QuietEdited(Link, cuts[0].plain, rest, rest', edits);
      EditsMakeNoForeignToken(cuts[1..], tail, k + 1, edits);
    }
  }

  /** The regions of a text: every fenced block outside a link and every pinned link is a kept region of its own,
      and everything else is free. */
  function Regions(text: string): seq<Region> {
    LinkRegions(Hidden(Fenced(text).cuts), Linked(text).cuts, Linked(text).tail)
  }

  /** What the applier does to one file's text. */
  function Apply(text: string, edits: seq<Edit>): Option<string>
    requires AllDated(edits)
  {
    Unmask(text, RewriteAll(MaskedText(text), edits))
  }

  /** On every text that brings no foreign token, the applier keeps every fenced block and every pinned link byte
      for byte, and rewrites each free stretch on its own, exactly as if nothing else were there. */
  lemma ApplyEditsFreeRegionsOnly(text: string, edits: seq<Edit>)
    requires !Foreign(text) && AllDated(edits)
    ensures TextOf(Regions(text)) == text
    ensures Apply(text, edits) == Some(TextOf(Edited(Regions(text), edits)))
  {
    hide *;
    var blocks, m := Hidden(Fenced(text).cuts), Linked(text);
    var cuts, tail := RewritePlain(m.cuts, edits), RewriteAll(m.tail, edits);
    ForeignIs(text);
    RegionsAre(text);
    LinkedSource(text);
    LinkedIsClean(text);
    LinkedIs(text);
    RestoreFencesInSource(blocks, m.cuts, m.tail);
    LayersInvert(text);
    RewriteRendered(m.cuts, m.tail, 0, edits);
    SimilarSources(m.cuts, m.tail, edits);
    EditsMakeNoForeignToken(m.cuts, m.tail, 0, edits);
    RestoreRender(Link, cuts, tail, []);
    assert [] + Hidden(cuts) == Hidden(m.cuts);
    RegionsEdited(blocks, m.cuts, m.tail, edits);
    RestoreFencesInSource(blocks, cuts, tail);
    ApplyIs(text, edits);
  }

  lemma ForeignIs(text: string)
    ensures Foreign(text) <==> ForeignFence(text) || ForeignLink(text)
  {
    hide ForeignFence, ForeignLink;
  }

  lemma RegionsAre(text: string)
    ensures |Hidden(Fenced(text).cuts)| == |Fenced(text).cuts|
    ensures Regions(text) == LinkRegions(Hidden(Fenced(text).cuts), Linked(text).cuts, Linked(text).tail)
  {
    hide Linked, Fenced, LinkRegions;
  }

  lemma ApplyIs(text: string, edits: seq<Edit>)
    requires AllDated(edits)
    ensures Apply(text, edits)
            == match Restore(Link, Hidden(Linked(text).cuts), RewriteAll(Render(Link, Linked(text).cuts, Linked(text).tail, 0), edits))
               case None => None
               case Some(t) => Restore(Fence, Hidden(Fenced(text).cuts), t)
  {
    hide Restore, RewriteAll, Render, Linked, Fenced, AllDated;
  }
}
