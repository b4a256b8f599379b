/** When unmasking inverts masking, exactly: on a text without NUL it does unless some pinned link follows
    a fence at once but for the text `AWPERMALINK<digits>`, which the restore then takes for a token. */
module UnmaskExact {
  import opened Wrappers
  import opened Text
  import opened Rewriting
  import opened Masking
  import opened Links
  import opened Unmasking

  // ----- balanced stretches of a text without NUL -----

  lemma {:induction false} NulFreeIsClean(layer: Layer, cuts: seq<Cut>, tail: string, n: nat)
    requires PlainsNulFree(cuts, tail)
    ensures NoForeignToken(layer, cuts, tail, n)
    decreases |cuts|
  {
    hide Quiet, Token, Render;
    if cuts == [] {
      NulFreeIsQuiet(layer, tail, "");
    } else {
      NulFreeIsQuiet(layer, cuts[0].plain, Token(layer, n) + Render(layer, cuts[1..], tail, n + 1));
      NulFreeIsClean(layer, cuts[1..], tail, n + 1);
    }
  }

  lemma FencedIsWell(text: string)
    requires NUL !in text
    ensures !ForeignFence(text)
    ensures Restore(Fence, Hidden(Fenced(text).cuts), FencedText(text)) == Some(text)
    ensures Balanced(|Fenced(text).cuts|, FencedText(text))
    ensures PlainsNulFree(Fenced(text).cuts, Fenced(text).tail)
  {
    hide *;
    var m := Fenced(text);
    FencedSource(text);
    NulFreePieces(m.cuts, m.tail);
    NulFreeIsClean(Fence, m.cuts, m.tail, 0);
    FencedIs(text);
    LayersInvert(text);
    RenderIsBalanced(m.cuts, m.tail, 0, |m.cuts|);
  }

  lemma LinkedIsWell(text: string)
    requires NUL !in text
    ensures Source(Linked(text).cuts, Linked(text).tail) == FencedText(text)
    ensures BalancedCuts(|Fenced(text).cuts|, Linked(text).cuts, Linked(text).tail)
  {
    hide *;
    FencedIsWell(text);
    LinkedSource(text);
    LinkedIsClean(text);
    CutsAreBalanced(|Fenced(text).cuts|, Linked(text).cuts, Linked(text).tail);
  }

  lemma RestoreBalanced(blocks: seq<string>, s: string, rest: string)
    requires Balanced(|blocks|, s)
    ensures Restore(Fence, blocks, s + rest) == Prepend(TextOf(FenceRegions(blocks, s)), Restore(Fence, blocks, rest))
  {
    hide *;
    BalancedIsClean(|blocks|, s, rest);
    RestoreClean(blocks, s, rest);
  }

  /** A match starts and ends outside every token. */
  lemma BalancedCut(n: nat, s: string, k: nat)
    requires Balanced(n, s) && k <= |s|
    requires k == 0 || k == |s| || IsSpace(s[k]) || s[k - 1] == ')'
    ensures Balanced(n, s[..k]) && Balanced(n, s[k..])
  {
    hide Balanced, Clean, IsSpace;
    var a, b := s[..k], s[k..];
    assert a + b == s && b + "" == b;
    BalancedIsClean(n, s, "");
    SafeCut(n, a, b, "");
    BalancedSplits(n, a, b);
  }

  lemma {:induction false} FieldEndsAtToken(n: nat, s: string)
    requires Balanced(n, s)
    ensures var f := Field(s);
            f != s ==>
              var t := s[|f|..];
              && t != "" && t[0] == NUL && TokenAt(Fence, t).Some? && TokenAt(Fence, t).value < n
              && |Field(t[1..])| + 1 < |t| && |AfterToken(t)| < |s| && Balanced(n, AfterToken(t))
  {
    hide TokenAt;
    if s != "" {
      if s[0] == NUL {
        assert s[0..] == s;
        TokenBounds(Fence, s);
      } else {
        FieldEndsAtToken(n, s[1..]);
        assert s[1..][|Field(s[1..])|..] == s[|Field(s)|..];
      }
    }
  }

  lemma BalancedToken(n: nat, p: string, name: string, rest: string, after: string)
    requires NUL !in p && NUL !in name && Balanced(n, after)
    requires TokenAt(Fence, [NUL] + name + [NUL] + rest).Some? && TokenAt(Fence, [NUL] + name + [NUL] + rest).value < n
    ensures Balanced(n, p + ([NUL] + name + [NUL] + after))
  {
    hide TokenAt, Field, AfterToken;
    TokenFromShape(p, name, rest);
    TokenFromShape(p, name, after);
    NulFreeIsBalanced(n, p);
    var t := [NUL] + name + [NUL] + after;
    assert t[0] == NUL && Balanced(n, t);
    BalancedAppend(n, p, t);
  }

  /** The field that starts `q + rest`, when `rest` is empty or starts with a NUL. */
  lemma FieldOfJoined(q: string, rest: string)
    requires rest == "" || rest[0] == NUL
    ensures Field(q + rest) == Field(q)
    ensures |Field(q)| < |q + rest| <==> |Field(q)| < |q| || rest != ""
  {
    FieldOfAppend(q, rest);
    FieldFacts(q);
  }

  /** A fence token is no link token. */
  lemma FenceNameIsNoLinkName(f: string)
    requires IsName(Fence, f)
    ensures !IsName(Link, f)
  {
    assert f[2] == Label(Fence)[2] != Label(Link)[2];
  }

  lemma TokenBetween(p: string, name: string, q: string, rest: string)
    requires NUL !in p && NUL !in name && IsName(Fence, name)
    requires Quiet(Link, q, rest) && TokenAt(Link, [NUL] + (q + rest)).None?
    ensures Quiet(Link, p + ([NUL] + name + [NUL] + q), rest)
  {
    hide *;
    var closing := [NUL] + q;
    var token := [NUL] + (name + closing);
    QuietCons(Link, NUL, q, rest);
    NulFreeIsQuiet(Link, name, closing + rest);
    QuietAppend(Link, name, closing, rest);
    FenceNameIsNoLinkName(name);
    TokenFromShape("", name, q + rest);
    TokenAssociates(name, q, rest);
    QuietCons(Link, NUL, name + closing, rest);
    NulFreeIsQuiet(Link, p, token + rest);
    QuietAppend(Link, p, token, rest);
  }

  lemma TokenAssociates(name: string, q: string, rest: string)
    ensures [NUL] + name + [NUL] + (q + rest) == [NUL] + (name + ([NUL] + q) + rest)
    ensures [NUL] + (name + ([NUL] + q)) == [NUL] + name + [NUL] + q
  {
  }

  // ----- a fence token starts a line, so nothing but a space or another token precedes it -----

  predicate SpacedTokens(ok: bool, s: string)
    decreases |s|
  {
    || s == ""
    || (s[0] != NUL && SpacedTokens(IsSpace(s[0]), s[1..]))
    || (s[0] == NUL && ok && |Field(s[1..])| + 1 < |s| && SpacedTokens(true, AfterToken(s)))
  }

  predicate EndsInSpace(s: string) {
    s == "" || IsSpace(s[|s| - 1])
  }

  predicate LinesEnd(lines: seq<string>) {
    forall i | 0 <= i < |lines| - 1 :: EndsInSpace(lines[i])
  }

  lemma {:induction false} FirstLineEnds(s: string)
    requires FirstLine(s) != s
    ensures EndsInSpace(FirstLine(s))
  {
    if s != "" && !IsLineBreak(s[0]) {
      FirstLineEnds(s[1..]);
    }
  }

  lemma {:induction false} SplitLinesEnd(s: string)
    ensures LinesEnd(SplitLines(s))
    decreases |s|
  {
    hide FirstLine, IsSpace;
    if s != "" {
      var rest := s[|FirstLine(s)|..];
      SplitLinesEnd(rest);
      if rest != "" {
        FirstLineEnds(s);
      }
    }
  }

  predicate PlainsEnd(cuts: seq<Cut>) {
    forall c | c in cuts :: EndsInSpace(c.plain)
  }

  lemma {:induction false} FencePlainsEnd(lines: seq<string>, plain: string)
    requires LinesEnd(lines) && (lines != [] ==> EndsInSpace(plain))
    ensures PlainsEnd(FenceCuts(lines, plain).cuts)
    decreases |lines|
  {
    hide FenceMarker, IsSpace;
    if lines != [] {
      match FenceMarker(lines[0]) {
        case None =>
          if |lines| > 1 && lines[0] != "" {
            assert EndsInSpace(lines[0]);
            assert (plain + lines[0])[|plain + lines[0]| - 1] == lines[0][|lines[0]| - 1];
          } else if lines[0] == "" {
            assert plain + lines[0] == plain;
          }
          FencePlainsEnd(lines[1..], plain + lines[0]);
        case Some(marker) => InFencePlainsEnd(lines[1..], plain, lines[0], marker);
      }
    }
  }

  lemma {:induction false} InFencePlainsEnd(lines: seq<string>, plain: string, block: string, marker: char)
    requires LinesEnd(lines) && EndsInSpace(plain)
    ensures PlainsEnd(InFence(lines, plain, block, marker).cuts)
    decreases |lines|
  {
    hide FenceMarker, IsSpace;
    if lines != [] {
      if FenceMarker(lines[0]) == Some(marker) {
        FencePlainsEnd(lines[1..], "");
      } else {
        InFencePlainsEnd(lines[1..], plain, block + lines[0], marker);
      }
    }
  }

  lemma {:induction false} SpacedPlain(ok: bool, p: string, rest: string)
    requires NUL !in p && SpacedTokens(if p == "" then ok else IsSpace(p[|p| - 1]), rest)
    ensures SpacedTokens(ok, p + rest)
    decreases |p|
  {
    hide IsSpace;
    if p == "" {
      assert p + rest == rest;
    } else {
      assert (p + rest)[1..] == p[1..] + rest;
      SpacedPlain(IsSpace(p[0]), p[1..], rest);
    }
  }

  lemma {:induction false} RenderIsSpaced(cuts: seq<Cut>, tail: string, n: nat)
    requires PlainsNulFree(cuts, tail) && PlainsEnd(cuts)
    ensures SpacedTokens(true, Render(Fence, cuts, tail, n))
    decreases |cuts|
  {
    hide Token, IsSpace, TokenAt, AfterToken;
    if cuts == [] {
      SpacedPlain(true, tail, "");
      assert tail + "" == tail;
    } else {
      var rest := Render(Fence, cuts[1..], tail, n + 1);
      RenderIsSpaced(cuts[1..], tail, n + 1);
      TokenReads(Fence, n, rest);
      TokenStarts(Fence, n, rest);
      assert EndsInSpace(cuts[0].plain);
      SpacedPlain(true, cuts[0].plain, Token(Fence, n) + rest);
    }
  }

  lemma FencedIsSpaced(text: string)
    requires NUL !in text
    ensures SpacedTokens(true, FencedText(text))
  {
    hide FenceCuts, SplitLines, Render, PlainsEnd, PlainsNulFree, LinesEnd;
    FencedIsWell(text);
    SplitLinesEnd(text);
    assert EndsInSpace("");
    FencePlainsEnd(SplitLines(text), "");
    RenderIsSpaced(Fenced(text).cuts, Fenced(text).tail, 0);
  }

  lemma SpacedIsMonotone(s: string)
    ensures SpacedTokens(false, s) ==> SpacedTokens(true, s)
  {
  }

  /** A balanced prefix of a balanced text that starts with a token holds the whole token. */
  lemma PrefixHoldsToken(n: nat, s: string, k: nat)
    requires Balanced(n, s) && 0 < k <= |s| && Balanced(n, s[..k]) && s[0] == NUL
    ensures var l := |Field(s[1..])| + 2;
            && |Field(s[1..])| + 1 < |s| && l <= k && |Field(s[..k][1..])| + 1 < k
            && Balanced(n, AfterToken(s)) && Balanced(n, AfterToken(s)[..k - l])
            && AfterToken(s[..k]) == AfterToken(s)[..k - l] && AfterToken(s)[k - l..] == s[k..]
  {
    hide IsName, Value;
    TokenBounds(Fence, s[..k]);
    TokenAppend(s[..k], s[k..]);
    assert s[..k] + s[k..] == s;
    var l := |Field(s[1..])| + 2;
    assert AfterToken(s)[k - l..] == s[k..];
    assert AfterToken(s)[..k - l] == AfterToken(s[..k]);
  }

  lemma {:induction false} SpacedSuffix(n: nat, s: string, k: nat)
    requires Balanced(n, s) && SpacedTokens(true, s) && k <= |s| && Balanced(n, s[..k])
    ensures SpacedTokens(true, s[k..])
    decreases |s|
  {
    hide TokenAt, IsSpace, AfterToken, Field;
    if k == 0 {
      assert s[0..] == s;
    } else if s[0] != NUL {
      SpacedIsMonotone(s[1..]);
      assert s[..k][1..] == s[1..][..k - 1];
      SpacedSuffix(n, s[1..], k - 1);
    } else {
      PrefixHoldsToken(n, s, k);
      TokenShrinks(s);
      SpacedSuffix(n, AfterToken(s), k - |Field(s[1..])| - 2);
    }
  }

  lemma TokenShrinks(s: string)
    requires s != "" && |Field(s[1..])| + 1 < |s|
    ensures |AfterToken(s)| == |s| - |Field(s[1..])| - 2
  {
  }

  // ----- so a link does not begin with digits that run into a token -----

  /** A hidden span that does not begin with a token shows something besides digits before its first. */
  predicate NoDigitsIntoToken(h: string) {
    h != "" && (h[0] == NUL || !AllDigits(Field(h)))
  }

  lemma {:induction false} RunIntoToken(n: nat, s: string)
    requires SpacedTokens(false, s) && Balanced(n, s) && (forall j | 0 <= j < |s| :: !IsSpace(s[j]))
    ensures NUL !in s
  {
    if s != "" {
      RunIntoToken(n, s[1..]);
    }
  }

  lemma {:induction false} PinHasSlash(s: string)
    requires HasPin(s)
    ensures '/' in s
  {
    if PinHere(s) {
      assert s[0] == '/';
    } else {
      PinHasSlash(s[1..]);
    }
  }

  lemma {:induction false} RunIsSpaceFree(s: string)
    ensures forall j | 0 <= j < |Run(s)| :: !IsSpace(Run(s)[j])
  {
    if s != "" && !IsSpace(s[0]) {
      RunIsSpaceFree(s[1..]);
    }
  }

  lemma {:induction false} SpacedPrefix(ok: bool, n: nat, s: string, k: nat)
    requires Balanced(n, s) && SpacedTokens(ok, s) && k <= |s| && Balanced(n, s[..k])
    ensures SpacedTokens(ok, s[..k])
    decreases |s|
  {
    hide TokenAt, IsSpace, AfterToken, Field;
    if k == 0 {
    } else if s[0] != NUL {
      assert s[..k][1..] == s[1..][..k - 1];
      SpacedPrefix(IsSpace(s[0]), n, s[1..], k - 1);
    } else {
      PrefixHoldsToken(n, s, k);
      TokenShrinks(s);
      SpacedPrefix(true, n, AfterToken(s), k - |Field(s[1..])| - 2);
    }
  }

  lemma MatchShowsMore(n: nat, s: string)
    requires Balanced(n, s) && SpacedTokens(true, s) && LinkLength(s) > 0
    ensures NoDigitsIntoToken(s[..LinkLength(s)])
  {
    var k := LinkLength(s);
    var h := s[..k];
    BalancedCut(n, s, k);
    if MarkdownLink(s) > 0 {
      MarkdownShowsBracket(s);
    } else if h[0] != NUL {
      hide TokenAt, Balanced, HasPin, MarkdownLink;
      assert h == Run(s);
      PinHasSlash(h);
      RunIsSpaceFree(s);
      SpacedPrefix(true, n, s, k);
      assert !IsSpace(h[0]);
      assert Balanced(n, h[1..]) by {
        BalancedTail(n, h);
      }
      RunIntoToken(n, h[1..]);
      NulFreeField(h);
    }
  }

  lemma MarkdownShowsBracket(s: string)
    requires MarkdownLink(s) > 0
    ensures NoDigitsIntoToken(s[..LinkLength(s)])
  {
    var h := s[..LinkLength(s)];
    assert h[0] == '[';
    assert Field(h)[0] == '[';
  }

  lemma BalancedTail(n: nat, s: string)
    requires Balanced(n, s) && s != "" && s[0] != NUL
    ensures Balanced(n, s[1..])
  {
  }

  lemma NulFreeField(h: string)
    requires h != "" && h[0] != NUL && NUL !in h[1..] && '/' in h
    ensures !AllDigits(Field(h))
  {
    assert h == [h[0]] + h[1..];
    assert NUL !in h;
    FieldIs(h, "");
    assert h + "" == h;
    var j :| 0 <= j < |h| && h[j] == '/';
  }

  predicate ShowMore(cuts: seq<Cut>) {
    forall i | 0 <= i < |cuts| :: NoDigitsIntoToken(cuts[i].hidden)
  }

  lemma ShowMoreCons(cut: Cut, cuts: seq<Cut>)
    requires NoDigitsIntoToken(cut.hidden) && ShowMore(cuts)
    ensures ShowMore([cut] + cuts)
  {
    hide NoDigitsIntoToken;
  }

  lemma {:induction false} LinkHiddenShowMore(n: nat, s: string, plain: string)
    requires Balanced(n, s) && SpacedTokens(true, s)
    ensures ShowMore(LinkCuts(s, plain).cuts)
    decreases |s|
  {
    hide NoDigitsIntoToken, Balanced, SpacedTokens, LinkLength, Field, AfterToken, TokenAt;
    if s != "" {
      LinkStep(s, plain);
      hide LinkCuts, ShowMore;
      if LinkLength(s) > 0 {
        MatchShowsMore(n, s);
        BalancedCut(n, s, LinkLength(s));
        SpacedSuffix(n, s, LinkLength(s));
        LinkHiddenShowMore(n, s[LinkLength(s)..], "");
        ShowMoreCons(Cut(plain, s[..LinkLength(s)]), LinkCuts(s[LinkLength(s)..], "").cuts);
      } else if s[0] != NUL {
        OneCharacter(n, s);
        LinkHiddenShowMore(n, s[1..], plain + [s[0]]);
      } else {
        OneToken(n, s);
        TokenShrinks(s);
        SkipToken(s, plain);
        LinkHiddenShowMore(n, AfterToken(s), plain + s[..|Field(s[1..])| + 2]);
      }
    }
  }

  lemma OneCharacter(n: nat, s: string)
    requires Balanced(n, s) && SpacedTokens(true, s) && s != "" && s[0] != NUL
    ensures Balanced(n, s[1..]) && SpacedTokens(true, s[1..])
  {
    SpacedIsMonotone(s[1..]);
  }

  lemma OneToken(n: nat, s: string)
    requires Balanced(n, s) && SpacedTokens(true, s) && s != "" && s[0] == NUL
    ensures TokenAt(Fence, s).Some? && |Field(s[1..])| + 1 < |s|
    ensures Balanced(n, AfterToken(s)) && SpacedTokens(true, AfterToken(s))
  {
  }

  // ----- the first foreign token -----

  /** Where a plain stretch that is not quiet has its first foreign token: at the closing NUL of a fence
      token, with the label right behind it. */
  lemma {:induction false} ForeignInPlain(n: nat, q: string, rest: string) returns (a: string, name: string, index: nat, more: string)
    requires Balanced(n, q) && !Quiet(Link, q, rest) && (rest == "" || rest[0] == NUL)
    ensures q == a + ([NUL] + name + [NUL] + more)
    ensures Balanced(n, a) && NUL !in name && IsName(Fence, name)
    ensures Indexed(name, index) && index < n
    ensures Quiet(Link, a + ([NUL] + name), [NUL] + more + rest)
    ensures TokenAt(Link, [NUL] + more + rest).Some?
    decreases |q|
  {
    hide *;
    var f := Field(q);
    FieldFacts(q);
    if f == q {
      NulFreeIsQuiet(Link, q, rest);
      assert false;
    }
    FieldEndsAtToken(n, q);
    var t := q[|f|..];
    var q2 := AfterToken(t);
    name := Field(t[1..]);
    TokenShape(t);
    TokenBounds(Fence, t);
    assert q == f + ([NUL] + name + [NUL] + q2);
    NulFreeIsBalanced(n, f);
    if TokenAt(Link, [NUL] + q2 + rest).Some? {
      a, index, more := f, TokenAt(Fence, t).value, q2;
      ForeignHere(f, name, q2, rest);
    } else {
      assert [NUL] + q2 + rest == [NUL] + (q2 + rest);
      if Quiet(Link, q2, rest) {
        TokenBetween(f, name, q2, rest);
        assert false;
      }
      var a', name';
      a', name', index, more := ForeignInPlain(n, q2, rest);
      a := f + ([NUL] + name + [NUL] + a');
      BalancedToken(n, f, name, q2, a');
      ForeignLater(f, name, a', name', more, rest);
      name := name';
    }
  }

  /** The fence token of that name has this index, whatever follows. */
  ghost predicate Indexed(name: string, index: nat) {
    forall after :: TokenAt(Fence, [NUL] + name + [NUL] + after) == Some(index)
  }

  lemma ForeignHere(f: string, name: string, q2: string, rest: string)
    requires NUL !in f && NUL !in name && IsName(Fence, name)
    ensures Quiet(Link, f + ([NUL] + name), [NUL] + q2 + rest)
    ensures TokenAt(Fence, [NUL] + name + [NUL] + q2).Some?
    ensures Indexed(name, TokenAt(Fence, [NUL] + name + [NUL] + q2).value)
  {
    hide Quiet, TokenAt, IsName, Value;
    TokenNameIsQuiet(name, q2 + rest);
    assert [NUL] + q2 + rest == [NUL] + (q2 + rest);
    NulFreeIsQuiet(Link, f, [NUL] + name + ([NUL] + q2 + rest));
    QuietAppend(Link, f, [NUL] + name, [NUL] + q2 + rest);
    TokenFromShape("", name, q2);
    forall after
      ensures TokenAt(Fence, [NUL] + name + [NUL] + after) == TokenAt(Fence, [NUL] + name + [NUL] + q2)
    {
      TokenFromShape("", name, after);
    }
  }

  /** The opening NUL and the name of a fence token start no link token. */
  lemma TokenNameIsQuiet(name: string, after: string)
    requires NUL !in name && IsName(Fence, name)
    ensures Quiet(Link, [NUL] + name, [NUL] + after)
  {
    hide *;
    NulFreeIsQuiet(Link, name, [NUL] + after);
    FenceNameIsNoLinkName(name);
    TokenFromShape("", name, after);
    assert [NUL] + name + [NUL] + after == [NUL] + (name + ([NUL] + after));
    QuietCons(Link, NUL, name, [NUL] + after);
  }

  lemma ForeignLater(f: string, name: string, a: string, name': string, more: string, rest: string)
    requires NUL !in f && NUL !in name && IsName(Fence, name)
    requires Quiet(Link, a + ([NUL] + name'), [NUL] + more + rest)
    requires TokenAt(Link, [NUL] + (a + ([NUL] + name' + [NUL] + more) + rest)).None?
    ensures Quiet(Link, f + ([NUL] + name + [NUL] + a) + ([NUL] + name'), [NUL] + more + rest)
    ensures f + ([NUL] + name + [NUL] + (a + ([NUL] + name' + [NUL] + more)))
            == f + ([NUL] + name + [NUL] + a) + ([NUL] + name' + [NUL] + more)
  {
    hide *;
    var q, after := a + ([NUL] + name'), [NUL] + more + rest;
    assert a + ([NUL] + name' + [NUL] + more) + rest == q + after;
    TokenBetween(f, name, q, after);
    assert f + ([NUL] + name + [NUL] + q) == f + ([NUL] + name + [NUL] + a) + ([NUL] + name');
    assert ([NUL] + name + [NUL] + (a + ([NUL] + name' + [NUL] + more)))
        == ([NUL] + name + [NUL] + a) + ([NUL] + name' + [NUL] + more);
  }

  /** The label follows that closing NUL. */
  lemma LabelFollows(more: string, rest: string)
    requires TokenAt(Link, [NUL] + more + rest).Some? && (rest == "" || rest[0] == NUL)
    ensures Label(Link) <= more
  {
    hide Value;
    assert [NUL] + more + rest == [NUL] + (more + rest);
    assert ([NUL] + (more + rest))[1..] == more + rest;
    FieldOfJoined(more, rest);
    FieldFacts(more);
  }

  /** What restoring the links does from the first foreign token on: the span of another link takes its
      place, and the closing NUL of the fence token before it is gone. */
  lemma {:induction false} FirstForeign(n: nat, cuts: seq<Cut>, tail: string, before: seq<string>)
      returns (a: string, name: string, index: nat, more: string, k: nat, y: Option<string>)
    requires BalancedCuts(n, cuts, tail) && !NoForeignToken(Link, cuts, tail, |before|)
    ensures Balanced(n, a) && NUL !in name && IsName(Fence, name) && Label(Link) <= more
    ensures Indexed(name, index) && index < n
    ensures Source(cuts, tail) == a + ([NUL] + name + [NUL] + more)
    ensures var saved := before + Hidden(cuts);
            Restore(Link, saved, Render(Link, cuts, tail, |before|))
            == if k < |saved| then Prepend(a + ([NUL] + name) + saved[k], y) else None
    decreases |cuts|
  {
    hide Quiet, Token, Render, Balanced, Restore, TokenAt, IsName, Source;
    var saved := before + Hidden(cuts);
    if cuts == [] {
      NoCutsFacts(n, cuts, tail, |before|);
      hide *;
      a, name, index, more := ForeignInPlain(n, tail, "");
      assert tail + "" == tail && [NUL] + more + "" == [NUL] + more;
      k, y := RestoreForeign(saved, a, name, more, "");
      LabelFollows(more, "");
      SourceAndRender(cuts, tail, |before|);
    } else {
      var rest := Token(Link, |before|) + Render(Link, cuts[1..], tail, |before| + 1);
      assert cuts[0] in cuts;
      assert Hidden(cuts) == [cuts[0].hidden] + Hidden(cuts[1..]);
      TokenStarts(Link, |before|, Render(Link, cuts[1..], tail, |before| + 1));
      if !Quiet(Link, cuts[0].plain, rest) {
        hide *;
        a, name, index, more := ForeignInPlain(n, cuts[0].plain, rest);
        k, y := RestoreForeign(saved, a, name, more, rest);
        LabelFollows(more, rest);
        var after := cuts[0].hidden + Source(cuts[1..], tail);
        assert a + ([NUL] + name + [NUL] + more) + after == a + ([NUL] + name + [NUL] + (more + after));
        SourceAndRender(cuts, tail, |before|);
        more := more + after;
      } else {
        hide *;
        LaterCut(n, cuts, tail, |before|);
        a, name, index, more, k, y := FirstForeign(n, cuts[1..], tail, before + [cuts[0].hidden]);
        assert before + [cuts[0].hidden] + Hidden(cuts[1..]) == saved;
        SourceAndRender(cuts, tail, |before|);
        RestoreQuiet(Link, saved, cuts[0].plain, rest);
        assert saved[|before|] == cuts[0].hidden;
        RestoreToken(Link, saved, |before|, Render(Link, cuts[1..], tail, |before| + 1));
        JoinHeads(n, cuts[0].plain, cuts[0].hidden, a, name, more, if k < |saved| then saved[k] else "", y);
        PrependTwice(cuts[0].plain, cuts[0].hidden, None);
        a := cuts[0].plain + cuts[0].hidden + a;
      }
    }
  }

  lemma LaterCut(n: nat, cuts: seq<Cut>, tail: string, k: nat)
    requires cuts != [] && BalancedCuts(n, cuts, tail) && !NoForeignToken(Link, cuts, tail, k)
    requires Quiet(Link, cuts[0].plain, Token(Link, k) + Render(Link, cuts[1..], tail, k + 1))
    ensures BalancedCuts(n, cuts[1..], tail) && !NoForeignToken(Link, cuts[1..], tail, k + 1)
    ensures Balanced(n, cuts[0].plain) && Balanced(n, cuts[0].hidden)
  {
    hide Quiet, Token, Render, Balanced;
    assert cuts[0] in cuts;
  }

  lemma JoinHeads(n: nat, plain: string, hidden: string, a: string, name: string, more: string, span: string, y: Option<string>)
    requires Balanced(n, plain) && Balanced(n, hidden) && Balanced(n, a)
    ensures Balanced(n, plain + hidden + a)
    ensures Prepend(plain, Prepend(hidden, Prepend(a + ([NUL] + name) + span, y))) == Prepend(plain + hidden + a + ([NUL] + name) + span, y)
    ensures plain + (hidden + (a + ([NUL] + name + [NUL] + more))) == plain + hidden + a + ([NUL] + name + [NUL] + more)
  {
    hide *;
    var x := a + ([NUL] + name) + span;
    PrependTwice(plain, hidden, Prepend(x, y));
    PrependTwice(plain + hidden, x, y);
    assert plain + hidden + x == plain + hidden + a + ([NUL] + name) + span;
    BalancedAppend(n, plain, hidden);
    BalancedAppend(n, plain + hidden, a);
  }

  lemma NoCutsFacts(n: nat, cuts: seq<Cut>, tail: string, k: nat)
    requires cuts == [] && BalancedCuts(n, cuts, tail)
    ensures Balanced(n, tail) && (!NoForeignToken(Link, cuts, tail, k) <==> !Quiet(Link, tail, ""))
  {
  }

  lemma SourceAndRender(cuts: seq<Cut>, tail: string, n: nat)
    ensures cuts == [] ==> Source(cuts, tail) == tail && Render(Link, cuts, tail, n) == tail
    ensures cuts != [] ==>
              && Source(cuts, tail) == cuts[0].plain + (cuts[0].hidden + Source(cuts[1..], tail))
              && Render(Link, cuts, tail, n) == cuts[0].plain + (Token(Link, n) + Render(Link, cuts[1..], tail, n + 1))
  {
  }

  lemma RestoreForeign(saved: seq<string>, a: string, name: string, more: string, rest: string) returns (k: nat, y: Option<string>)
    requires Quiet(Link, a + ([NUL] + name), [NUL] + more + rest) && TokenAt(Link, [NUL] + more + rest).Some?
    ensures Restore(Link, saved, a + ([NUL] + name + [NUL] + more) + rest)
            == if k < |saved| then Prepend(a + ([NUL] + name) + saved[k], y) else None
  {
    hide TokenAt, Field, AfterToken, Quiet;
    var s := [NUL] + more + rest;
    assert a + ([NUL] + name + [NUL] + more) + rest == a + ([NUL] + name) + s;
    RestoreQuiet(Link, saved, a + ([NUL] + name), s);
    TokenBounds(Link, s);
    k := TokenAt(Link, s).value;
    y := Restore(Link, saved, AfterToken(s));
    if k < |saved| {
      PrependTwice(a + ([NUL] + name), saved[k], y);
    }
  }

  // ----- the exact condition -----

  lemma RestorePlainHead(saved: seq<string>, p: string, rest: string)
    requires NUL !in p
    ensures Restore(Fence, saved, p + rest) == Prepend(p, Restore(Fence, saved, rest))
  {
    NulFreeIsQuiet(Fence, p, rest);
    RestoreQuiet(Fence, saved, p, rest);
  }

  lemma RestoreIndexed(saved: seq<string>, name: string, index: nat, rest: string)
    requires NUL !in name && Indexed(name, index) && index < |saved|
    ensures Restore(Fence, saved, [NUL] + name + [NUL] + rest) == Prepend(saved[index], Restore(Fence, saved, rest))
  {
    hide TokenAt, AfterToken, Field, Restore;
    var t := [NUL] + name + [NUL] + rest;
    TokenFromShape("", name, rest);
    assert TokenAt(Fence, t) == Some(index);
    RestoreAtToken(Fence, saved, t);
  }

  lemma LabelLength()
    ensures |Label(Fence)| == 12 && |Label(Link)| == 11
  {
  }

  /** A span that starts with something other than digits closes no token name. */
  lemma NoTokenFromSpan(name: string, h: string, rest: string)
    requires IsName(Fence, name) && NUL !in name && h != "" && h[0] != NUL && !AllDigits(Field(h))
    ensures TokenAt(Fence, [NUL] + (name + (h + rest))).None?
  {
    hide *;
    var f := Field(h + rest);
    FieldFacts(h + rest);
    FieldGrows(h, rest);
    var s := [NUL] + (name + (h + rest));
    var tail := (h + rest)[|f|..];
    NameThenSpan(name, h + rest, f);
    FieldIs(name + f, tail);
    DigitsOfEnd(name[12..], f, Field(h));
    NameNeedsDigits(name, f);
    FenceTokenByField(s);
  }

  lemma NameThenSpan(name: string, t: string, f: string)
    requires f <= t && NUL !in f && NUL !in name && IsName(Fence, name) && (|f| < |t| ==> t[|f|] == NUL)
    ensures ([NUL] + (name + t))[1..] == name + f + t[|f|..]
    ensures NUL !in name + f && (t[|f|..] == "" || t[|f|..][0] == NUL)
    ensures |name| > 12
    ensures ([NUL] + (name + t)) != "" && ([NUL] + (name + t))[0] == NUL
  {
    LabelLength();
    assert t == f + t[|f|..];
    assert name + t == name + f + t[|f|..];
  }

  lemma NameNeedsDigits(name: string, f: string)
    requires |name| > 12 && !AllDigits(name[12..] + f)
    ensures !IsName(Fence, name + f)
  {
    LabelLength();
    assert (name + f)[12..] == name[12..] + f;
  }

  lemma FenceTokenByField(s: string)
    requires s != "" && s[0] == NUL
    ensures TokenAt(Fence, s).Some? ==> IsName(Fence, Field(s[1..]))
  {
    hide IsName, Value;
  }

  lemma DigitsOfEnd(a: string, f: string, p: string)
    requires p <= f && !AllDigits(p)
    ensures !AllDigits(a + f)
  {
    var j :| 0 <= j < |p| && !IsDigit(p[j]);
    assert (a + f)[|a| + j] == p[j];
  }

  lemma {:induction false} FieldGrows(h: string, rest: string)
    ensures Field(h) <= Field(h + rest)
  {
    if h != "" && h[0] != NUL {
      assert (h + rest)[1..] == h[1..] + rest;
      FieldGrows(h[1..], rest);
    }
  }

  lemma TokenStartsWithLabel(n: nat, h: string)
    requires Balanced(n, h) && h != "" && h[0] == NUL
    ensures |h| > 3 && h[1..4] == "AWF" && h == [NUL] + "AWF" + h[4..]
  {
    hide *;
    BalancedHead(n, h);
    TokenBounds(Fence, h);
    var f := Field(h[1..]);
    FieldFacts(h[1..]);
    NameHead(f);
    assert h[1..4] == f[..3];
    assert h == [h[0]] + h[1..4] + h[4..];
  }

  lemma BalancedHead(n: nat, h: string)
    requires Balanced(n, h) && h != "" && h[0] == NUL
    ensures TokenAt(Fence, h).Some?
  {
    hide TokenAt;
  }

  lemma NameHead(f: string)
    requires IsName(Fence, f)
    ensures |f| > 12 && f[..3] == "AWF"
  {
    LabelLength();
    assert f[..12] == Label(Fence);
    assert f[..3] == Label(Fence)[..3];
  }

  /** The text from the damaged fence on: its block, then the label. */
  lemma TextBeforeDamage(blocks: seq<string>, a: string, name: string, index: nat, more: string) returns (after: Option<string>)
    requires Balanced(|blocks|, a) && NUL !in name && Indexed(name, index) && index < |blocks| && Label(Link) <= more
    ensures Restore(Fence, blocks, a + ([NUL] + name + [NUL] + more))
            == Prepend(TextOf(FenceRegions(blocks, a)) + (blocks[index] + "AWP"), after)
  {
    hide *;
    var start := TextOf(FenceRegions(blocks, a));
    RestoreBalanced(blocks, a, [NUL] + name + [NUL] + more);
    RestoreIndexed(blocks, name, index, more);
    LabelSplits(more);
    RestorePlainHead(blocks, "AWP", more[3..]);
    after := Restore(Fence, blocks, more[3..]);
    PrependTwice(blocks[index], "AWP", after);
    PrependTwice(start, blocks[index] + "AWP", after);
  }

  lemma DamageByToken(blocks: seq<string>, a: string, name: string, index: nat, span: string, y: string) returns (other: Option<string>)
    requires Balanced(|blocks|, a) && NUL !in name && Indexed(name, index) && index < |blocks|
    requires Balanced(|blocks|, span) && span != "" && span[0] == NUL
    ensures Restore(Fence, blocks, a + ([NUL] + name) + span + y)
            == Prepend(TextOf(FenceRegions(blocks, a)) + (blocks[index] + "AWF"), other)
  {
    hide *;
    var start := TextOf(FenceRegions(blocks, a));
    TokenStartsWithLabel(|blocks|, span);
    var rest := span[4..] + y;
    TokenSpanJoins(a, name, span, y);
    RestoreBalanced(blocks, a, [NUL] + name + [NUL] + ("AWF" + rest));
    RestoreIndexed(blocks, name, index, "AWF" + rest);
    RestorePlainHead(blocks, "AWF", rest);
    other := Restore(Fence, blocks, rest);
    PrependTwice(blocks[index], "AWF", other);
    PrependTwice(start, blocks[index] + "AWF", other);
  }

  lemma TokenSpanJoins(a: string, name: string, span: string, y: string)
    requires |span| > 3 && span == [NUL] + "AWF" + span[4..]
    ensures a + ([NUL] + name) + span + y == a + ([NUL] + name + [NUL] + ("AWF" + (span[4..] + y)))
    ensures NUL !in "AWF"
  {
    assert span + y == [NUL] + ("AWF" + (span[4..] + y));
  }

  lemma DamageByText(blocks: seq<string>, a: string, name: string, span: string, y: string) returns (other: Option<string>)
    requires Balanced(|blocks|, a) && NUL !in name && IsName(Fence, name)
    requires span != "" && span[0] != NUL && !AllDigits(Field(span))
    ensures Restore(Fence, blocks, a + ([NUL] + name) + span + y) == Prepend(TextOf(FenceRegions(blocks, a)) + [NUL], other)
  {
    hide *;
    var start := TextOf(FenceRegions(blocks, a));
    var rest := name + (span + y);
    assert a + ([NUL] + name) + span + y == a + ([NUL] + rest);
    RestoreBalanced(blocks, a, [NUL] + rest);
    NoTokenFromSpan(name, span, y);
    RestoreNul(blocks, rest);
    other := Restore(Fence, blocks, rest);
    PrependTwice(start, [NUL], other);
  }

  /** Restoring the fences after a foreign token cannot give the text back. */
  lemma ForeignDamage(blocks: seq<string>, a: string, name: string, index: nat, more: string, span: string, y: string, text: string)
    requires Balanced(|blocks|, a) && NUL !in name && IsName(Fence, name) && Indexed(name, index) && index < |blocks|
    requires Label(Link) <= more && NUL !in text
    requires Restore(Fence, blocks, a + ([NUL] + name + [NUL] + more)) == Some(text)
    requires Balanced(|blocks|, span) && NoDigitsIntoToken(span)
    ensures Restore(Fence, blocks, a + ([NUL] + name) + span + y) != Some(text)
  {
    hide Balanced, IsName, Indexed, Label, Restore, AllDigits, Field, TextOf, FenceRegions, Prepend;
    var start := TextOf(FenceRegions(blocks, a));
    if span[0] == NUL {
      var after := TextBeforeDamage(blocks, a, name, index, more);
      var other := DamageByToken(blocks, a, name, index, span, y);
      Diverge(start, blocks[index], after, other, text);
    } else {
      var other := DamageByText(blocks, a, name, span, y);
      HasNul(start, other);
    }
  }

  lemma LabelSplits(more: string)
    requires Label(Link) <= more
    ensures |more| > 3 && more == "AWP" + more[3..] && NUL !in "AWP" && NUL !in "AWF"
  {
    assert more[..11] == Label(Link);
    assert more[..3] == Label(Link)[..3] == "AWP";
  }

  lemma RestoreNul(saved: seq<string>, rest: string)
    requires TokenAt(Fence, [NUL] + rest).None?
    ensures Restore(Fence, saved, [NUL] + rest) == Prepend([NUL], Restore(Fence, saved, rest))
  {
    hide TokenAt;
    assert ([NUL] + rest)[1..] == rest;
  }

  lemma HasNul(start: string, rest: Option<string>)
    ensures forall t :: Prepend(start + [NUL], rest) == Some(t) ==> NUL in t
  {
    if rest.Some? {
      assert (start + [NUL] + rest.value)[|start|] == NUL;
    }
  }

  lemma Diverge(start: string, block: string, x: Option<string>, y: Option<string>, text: string)
    requires Prepend(start + (block + "AWP"), x) == Some(text)
    ensures Prepend(start + (block + "AWF"), y) != Some(text)
  {
    if y.Some? {
      var k := |start| + |block| + 2;
      assert (start + (block + "AWP") + x.value)[k] == 'P';
      assert (start + (block + "AWF") + y.value)[k] == 'F';
    }
  }

  lemma HiddenProperties(text: string)
    requires NUL !in text
    ensures forall i | 0 <= i < |Linked(text).cuts| ::
              Balanced(|Fenced(text).cuts|, Linked(text).cuts[i].hidden) && NoDigitsIntoToken(Linked(text).cuts[i].hidden)
  {
    hide Balanced, NoDigitsIntoToken, SpacedTokens, FencedText, Fenced, LinkCuts;
    FencedIsWell(text);
    FencedIsSpaced(text);
    LinkHiddenShowMore(|Fenced(text).cuts|, FencedText(text), "");
    LinkedIsWell(text);
    forall i | 0 <= i < |Linked(text).cuts|
      ensures Balanced(|Fenced(text).cuts|, Linked(text).cuts[i].hidden)
    {
      assert Linked(text).cuts[i] in Linked(text).cuts;
    }
  }

  /** On every text without NUL, masking followed by unmasking is the identity if and only if the masked
      text holds no permalink token masking did not put there. */
  lemma UnmaskInvertsMaskExactly(text: string)
    requires NUL !in text
    ensures Unmask(text, MaskedText(text)) == Some(text) <==> !Foreign(text)
  {
    if !Foreign(text) {
      UnmaskInvertsMask(text);
    } else {
      var blocks, m := Hidden(Fenced(text).cuts), Linked(text);
      FencedIsWell(text);
      LinkedIsWell(text);
      HiddenProperties(text);
      assert [] + Hidden(m.cuts) == Hidden(m.cuts);
      hide *;
      var a, name, index, more, k, y := FirstForeign(|Fenced(text).cuts|, m.cuts, m.tail, []);
      HiddenLength(Fenced(text).cuts);
      HiddenLength(m.cuts);
      UnmaskIs(text);
      if k < |Hidden(m.cuts)| && y.Some? {
        ForeignDamage(blocks, a, name, index, more, Hidden(m.cuts)[k], y.value, text);
        PrependSome(a + ([NUL] + name) + Hidden(m.cuts)[k], y.value);
      } else if y.None? {
        PrependNone(if k < |Hidden(m.cuts)| then a + ([NUL] + name) + Hidden(m.cuts)[k] else "");
      }
    }
  }

  lemma PrependSome(a: string, b: string)
    ensures Prepend(a, Some(b)) == Some(a + b)
  {
  }

  lemma PrependNone(a: string)
    ensures Prepend(a, None) == None
  {
  }

  lemma HiddenLength(cuts: seq<Cut>)
    ensures |Hidden(cuts)| == |cuts| && forall i | 0 <= i < |cuts| :: Hidden(cuts)[i] == cuts[i].hidden
  {
  }

  lemma UnmaskIs(text: string)
    ensures Unmask(text, MaskedText(text))
            == match Restore(Link, Hidden(Linked(text).cuts), Render(Link, Linked(text).cuts, Linked(text).tail, 0))
               case None => None
               case Some(t) => Restore(Fence, Hidden(Fenced(text).cuts), t)
    ensures FencedText(text) == Render(Fence, Fenced(text).cuts, Fenced(text).tail, 0)
    ensures ForeignLink(text) <==> !NoForeignToken(Link, Linked(text).cuts, Linked(text).tail, 0)
  {
    hide Restore, Render, Linked, Fenced, NoForeignToken;
  }
}
