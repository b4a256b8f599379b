/** Where the free stretches of a text stand in its masked form: between tokens, and so between NULs. */
module FreeStretches {
  import opened Wrappers
  import opened Text
  import opened Rewriting
  import opened Masking
  import opened Links
  import opened Unmasking

  /** `v` stands in `s`, with an end of `s` or a NUL on either side. */
  ghost predicate Within(v: string, s: string) {
    exists a, b :: Between(v, a, b, s)
  }

  ghost predicate Between(v: string, a: string, b: string, s: string) {
    s == a + v + b && (a == "" || a[|a| - 1] == NUL) && (b == "" || b[0] == NUL)
  }

  lemma WithinItself(s: string)
    ensures Within(s, s)
  {
    assert Between(s, "", "", s);
  }

  lemma WithinThrough(v: string, s: string, a: string, b: string)
    requires Within(v, s) && (a == "" || a[|a| - 1] == NUL) && (b == "" || b[0] == NUL)
    ensures Within(v, a + s + b)
  {
    var x, y :| Between(v, x, y, s);
    assert a + s + b == (a + x) + v + (y + b);
    assert Between(v, a + x, y + b, a + s + b);
  }

  ghost predicate FreeWithin(regions: seq<Region>, s: string) {
    forall r | r in regions && r.Free? :: Within(r.text, s)
  }

  lemma FreeWithinThrough(regions: seq<Region>, s: string, a: string, b: string)
    requires FreeWithin(regions, s) && (a == "" || a[|a| - 1] == NUL) && (b == "" || b[0] == NUL)
    ensures FreeWithin(regions, a + s + b)
  {
    hide Within;
    forall r | r in regions && r.Free?
      ensures Within(r.text, a + s + b)
    {
      WithinThrough(r.text, s, a, b);
    }
  }

  lemma {:induction false} FenceFreeWithin(blocks: seq<string>, s: string)
    ensures FreeWithin(FenceRegions(blocks, s), s)
    decreases |s|
  {
    hide *;
    var f := PlainPart(s);
    if f == s {
      WithinItself(s);
      RegionsOfPlain(blocks, s);
      OneFree(s);
    } else {
      RegionsStep(blocks, s);
      var t := s[|f|..];
      var after := AfterToken(t);
      TokenEnds(t);
      FenceFreeWithin(blocks, after);
      var before := s[..|s| - |after|];
      assert before[|before| - 1] == t[|t| - |after| - 1];
      FreeWithinThrough(FenceRegions(blocks, after), after, before, "");
      assert before + after + "" == s;
      PlainWithin(f, t);
      assert f + t == s;
      FreeJoin(f, Block(blocks, TokenAt(Fence, t).value), FenceRegions(blocks, after), s);
    }
  }

  lemma PlainWithin(f: string, t: string)
    requires t == "" || t[0] == NUL
    ensures Within(f, f + t)
  {
    assert "" + f + t == f + t;
    assert Between(f, "", t, f + t);
  }

  lemma OneFree(s: string)
    requires Within(s, s)
    ensures FreeWithin([Free(s)], s)
  {
    hide Within;
  }

  lemma FreeJoin(f: string, block: string, rest: seq<Region>, s: string)
    requires Within(f, s) && FreeWithin(rest, s)
    ensures FreeWithin([Free(f), Kept(block)] + rest, s)
  {
    hide Within;
  }

  /** A token starts and ends with a NUL. */
  lemma TokenEnds(t: string)
    requires TokenAt(Fence, t).Some? && t != "" && |Field(t[1..])| + 1 < |t|
    ensures t[0] == NUL && |AfterToken(t)| < |t|
    ensures AfterToken(t) == t[|t| - |AfterToken(t)|..] && t[|t| - |AfterToken(t)| - 1] == NUL
  {
    hide IsName, Value;
    var f := Field(t[1..]);
    assert t[1..][|f|] == NUL;
  }

  lemma PrintedTokenEnds(n: nat)
    ensures var t := Token(Link, n); t != "" && t[0] == NUL && t[|t| - 1] == NUL
  {
  }

  lemma {:induction false} LinkFreeWithin(blocks: seq<string>, cuts: seq<Cut>, tail: string, n: nat)
    ensures FreeWithin(LinkRegions(blocks, cuts, tail), Render(Link, cuts, tail, n))
    decreases |cuts|
  {
    hide Within, Token, FenceRegions, TextOf;
    if cuts == [] {
      FenceFreeWithin(blocks, tail);
    } else {
      assert cuts[0] in cuts;
      var plain, rest := cuts[0].plain, Render(Link, cuts[1..], tail, n + 1);
      var token := Token(Link, n);
      PrintedTokenEnds(n);
      FenceFreeWithin(blocks, plain);
      FreeWithinThrough(FenceRegions(blocks, plain), plain, "", token + rest);
      assert "" + plain + (token + rest) == plain + (token + rest);
      LinkFreeWithin(blocks, cuts[1..], tail, n + 1);
      FreeWithinThrough(LinkRegions(blocks, cuts[1..], tail), rest, plain + token, "");
      assert plain + token + rest + "" == plain + (token + rest);
    }
  }

  lemma RegionWithin(text: string, r: Region)
    requires r in Regions(text) && r.Free?
    ensures Within(r.text, MaskedText(text))
  {
    hide LinkRegions, Within, Render, Linked, Fenced;
    RegionsAre(text);
    LinkFreeWithin(Hidden(Fenced(text).cuts), Linked(text).cuts, Linked(text).tail, 0);
  }
}
