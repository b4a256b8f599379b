/** Where unmasking fails: a check a caller can make before masking, and one text that fails it. */
module UnmaskLimits {
  import opened Wrappers
  import opened Text
  import opened Rewriting
  import opened Masking
  import opened Links
  import opened Unmasking
  import opened UnmaskLayers
  import opened UnmaskExact

  const LABEL: string := "AWPERMALINK"

  ghost predicate Mentions(text: string, word: string) {
    exists before, after :: text == before + word + after
  }

  /** A foreign permalink token needs a fenced block with the token's label right behind it. */
  lemma ForeignFollowsFence(text: string) returns (before: string, block: string, after: string)
    requires NUL !in text && Foreign(text)
    ensures text == before + block + LABEL + after
    ensures block in Hidden(Fenced(text).cuts)
  {
    var blocks, m := Hidden(Fenced(text).cuts), Linked(text);
    FencedIsWell(text);
    LinkedIsWell(text);
    UnmaskIs(text);
    HiddenLength(Fenced(text).cuts);
    hide *;
    var a, name, index, more, k, y := UnmaskExact.FirstForeign(|Fenced(text).cuts|, m.cuts, m.tail, []);
    before, block := TextOf(FenceRegions(blocks, a)), blocks[index];
    var rest := LabelledTail(blocks, a, name, index, more);
    after := if rest.Some? then rest.value else "";
    PrependLabel(before, block, rest, text);
  }

  lemma LabelledTail(blocks: seq<string>, a: string, name: string, index: nat, more: string) returns (rest: Option<string>)
    requires Balanced(|blocks|, a) && NUL !in name && Indexed(name, index) && index < |blocks| && Label(Link) <= more
    ensures Restore(Fence, blocks, a + ([NUL] + name + [NUL] + more))
            == Prepend(TextOf(FenceRegions(blocks, a)) + (blocks[index] + LABEL), rest)
  {
    hide *;
    var start := TextOf(FenceRegions(blocks, a));
    RestoreBalanced(blocks, a, [NUL] + name + [NUL] + more);
    RestoreIndexed(blocks, name, index, more);
    LabelThenRest(more);
    RestorePlainHead(blocks, LABEL, more[11..]);
    rest := Restore(Fence, blocks, more[11..]);
    PrependTwice(blocks[index], LABEL, rest);
    PrependTwice(start, blocks[index] + LABEL, rest);
  }

  lemma LabelThenRest(more: string)
    requires Label(Link) <= more
    ensures |more| >= 11 && more == LABEL + more[11..] && NUL !in LABEL
  {
    assert more[..11] == LABEL;
  }

  lemma PrependLabel(before: string, block: string, rest: Option<string>, text: string)
    requires Prepend(before + (block + LABEL), rest) == Some(text)
    ensures rest.Some? && text == before + block + LABEL + rest.value
  {
  }

  lemma ForeignMentionsLabel(text: string)
    requires NUL !in text && Foreign(text)
    ensures Mentions(text, LABEL)
  {
    hide Foreign, Hidden, Fenced;
    var before, block, after := ForeignFollowsFence(text);
    assert text == (before + block) + LABEL + after;
  }

  /** So a text without NUL that never mentions the label survives masking and unmasking. */
  lemma UnlabelledTextSurvives(text: string)
    requires NUL !in text && !Mentions(text, LABEL)
    ensures Unmask(text, MaskedText(text)) == Some(text)
  {
    hide *;
    if Foreign(text) {
      ForeignMentionsLabel(text);
    }
    UnmaskInvertsMaskExactly(text);
  }

  // ----- texts that may hold NULs -----

  /** The permalink label starts `z`, or follows a NUL of it. */
  ghost predicate LabelAt(z: string) {
    LABEL <= z || exists j: nat | j < |z| :: z[j] == NUL && LABEL <= z[j + 1..]
  }

  lemma MentionsIn(a: string, b: string, c: string, word: string)
    requires Mentions(b, word)
    ensures Mentions(a + b + c, word)
  {
    var before, after :| b == before + word + after;
    assert a + b + c == (a + before) + word + (after + c);
  }

  lemma PrefixMentions(z: string, i: nat)
    requires i <= |z| && LABEL <= z[i..]
    ensures Mentions(z, LABEL)
  {
    assert z == z[..i] + LABEL + z[i..][|LABEL|..];
  }

  /** The label in front of a NUL that is not its own stands whole before it. */
  lemma LabelFits(q: string, rest: string, i: nat)
    requires i <= |q| && rest != "" && rest[0] == NUL && LABEL <= (q + rest)[i..]
    ensures LABEL <= q[i..]
  {
    var z := q + rest;
    assert z[i..][..|LABEL|] == LABEL;
    assert forall j | 0 <= j < |LABEL| :: z[i + j] == LABEL[j] != NUL;
    assert z[|q|] == NUL;
  }

  /** Rendering fences puts no permalink label behind a NUL that the source did not hold. */
  lemma {:induction false} LabelInSource(cuts: seq<Cut>, tail: string, k: nat)
    requires LabelAt(Render(Fence, cuts, tail, k))
    ensures Mentions(Source(cuts, tail), LABEL)
    decreases |cuts|
  {
    hide *;
    var z := Render(Fence, cuts, tail, k);
    var i := LabelPlace(z);
    RenderIs(cuts, tail, k);
    if cuts == [] {
      PrefixMentions(tail, i);
    } else {
      var p, name, rest := cuts[0].plain, Label(Fence) + Decimal(k), Render(Fence, cuts[1..], tail, k + 1);
      TokenParts(Fence, k, rest);
      NameIsName(Fence, k);
      var more := cuts[0].hidden + Source(cuts[1..], tail);
      assert z == p + ([NUL] + name + [NUL] + rest);
      if i <= |p| {
        LabelFits(p, [NUL] + name + [NUL] + rest, i);
        PrefixMentions(p, i);
        MentionsIn("", p, more, LABEL);
        assert "" + p + more == p + more;
      } else {
        BehindTheToken(p, name, rest, i);
        LabelInSource(cuts[1..], tail, k + 1);
        MentionsIn(p + cuts[0].hidden, Source(cuts[1..], tail), "", LABEL);
        assert p + cuts[0].hidden + Source(cuts[1..], tail) + "" == p + more;
      }
    }
  }

  lemma LabelPlace(z: string) returns (i: nat)
    requires LabelAt(z)
    ensures i <= |z| && LABEL <= z[i..] && (i > 0 ==> z[i - 1] == NUL)
  {
    if LABEL <= z {
      i := 0;
      assert z[0..] == z;
    } else {
      var j: nat :| j < |z| && z[j] == NUL && LABEL <= z[j + 1..];
      i := j + 1;
    }
  }

  lemma RenderIs(cuts: seq<Cut>, tail: string, k: nat)
    ensures cuts == [] ==> Render(Fence, cuts, tail, k) == tail == Source(cuts, tail)
    ensures cuts != [] ==>
              && Render(Fence, cuts, tail, k) == cuts[0].plain + (Token(Fence, k) + Render(Fence, cuts[1..], tail, k + 1))
              && Source(cuts, tail) == cuts[0].plain + (cuts[0].hidden + Source(cuts[1..], tail))
  {
    hide Token;
  }

  lemma BehindTheToken(p: string, name: string, rest: string, i: nat)
    requires NUL !in name && IsName(Fence, name)
    requires var z := p + ([NUL] + name + [NUL] + rest); |p| < i <= |z| && LABEL <= z[i..] && z[i - 1] == NUL
    ensures LabelAt(rest)
  {
    hide *;
    var z, l := p + ([NUL] + name + [NUL] + rest), |p| + |name| + 2;
    NotAtName(name, [NUL] + rest);
    TokenPlaces(p, name, rest, i);
    LabelAtPlace(rest, i - l);
  }

  lemma TokenPlaces(p: string, name: string, rest: string, i: nat)
    requires NUL !in name
    requires var z := p + ([NUL] + name + [NUL] + rest); |p| < i <= |z| && z[i - 1] == NUL
    ensures var z, l := p + ([NUL] + name + [NUL] + rest), |p| + |name| + 2;
            if i == |p| + 1 then z[i..] == name + ([NUL] + rest)
            else i >= l && i - l <= |rest| && z[i..] == rest[i - l..] && (i > l ==> rest[i - l - 1] == NUL)
  {
    var z, l := p + ([NUL] + name + [NUL] + rest), |p| + |name| + 2;
    assert |z| == l + |rest|;
    forall j | |p| < j < l - 1
      ensures z[j] in name
    {
      assert z[j] == name[j - |p| - 1];
    }
  }

  lemma LabelAtPlace(z: string, i: nat)
    requires i <= |z| && LABEL <= z[i..] && (i > 0 ==> z[i - 1] == NUL)
    ensures LabelAt(z)
  {
    assert z[0..] == z;
    if i > 0 {
      assert z[(i - 1) + 1..] == z[i..];
    }
  }

  lemma NotAtName(name: string, rest: string)
    requires IsName(Fence, name)
    ensures !(LABEL <= name + rest)
  {
    LabelLength();
    assert name[..12] == Label(Fence);
    assert (name + rest)[2] == name[2] == Label(Fence)[2] != LABEL[2];
  }

  /** A text, NULs or not, that mentions neither label brings no foreign token, so it survives. */
  lemma LabelFreeTextSurvives(text: string)
    requires !Mentions(text, Label(Fence)) && !Mentions(text, LABEL)
    ensures !Foreign(text) && Unmask(text, MaskedText(text)) == Some(text)
  {
    hide *;
    var f, l := Fenced(text), Linked(text);
    FencedSource(text);
    LinkedSource(text);
    FencedIs(text);
    LinkedIs(text);
    LabelIs();
    if ForeignFence(text) {
      AnythingHolds(f.cuts, f.tail);
      var u, s, k, y := UnmaskLayers.FirstForeign(Fence, Anything, f.cuts, f.tail, []);
      LabelMentioned(u, s, Label(Fence));
    }
    if ForeignLink(text) {
      AnythingHolds(l.cuts, l.tail);
      var u, s, k, y := UnmaskLayers.FirstForeign(Link, Anything, l.cuts, l.tail, []);
      LabelBehindNul(u, s);
      LabelInSource(f.cuts, f.tail, 0);
    }
    ForeignIs(text);
    UnmaskInvertsMask(text);
  }

  lemma LabelIs()
    ensures LABEL == Label(Link)
  {
  }

  lemma LabelMentioned(u: string, s: string, word: string)
    requires s != "" && word <= s[1..]
    ensures Mentions(u + s, word)
  {
    assert u + s == (u + [s[0]]) + word + s[1..][|word|..];
  }

  lemma LabelBehindNul(u: string, s: string)
    requires s != "" && s[0] == NUL && LABEL <= s[1..]
    ensures LabelAt(u + s)
  {
    assert (u + s)[|u| + 1..] == s[1..] && (u + s)[|u|] == NUL;
  }

  // ----- a text that does not survive -----

  const TARGET: string := "/blob/0000000/"
  const PINNED: string := "[a b](" + TARGET + ")"
  const LOST: string := "```" + "\n" + ("```" + "\n" + ("AWPERMALINK0" + PINNED))

  /** A fence that opens and closes at once, then text without a line break. */
  lemma FenceThenText(open: string, rest: string, marker: char)
    requires FenceMarker(open + "\n") == Some(marker) && FenceMarker(rest).None? && rest != ""
    requires forall c | c in open + rest :: !IsLineBreak(c)
    ensures Fenced(open + "\n" + (open + "\n" + rest)) == Masked([Cut("", (open + "\n") + (open + "\n"))], rest)
  {
    hide *;
    var fence := open + "\n";
    assert forall c | c in open :: c in open + rest;
    assert forall c | c in rest :: c in open + rest;
    SplitCons(open, fence + rest);
    SplitCons(open, rest);
    SplitLast(rest);
    FencedByLines(open + "\n" + (open + "\n" + rest));
    FenceStep(fence, [fence, rest], "", "", marker);
    FenceStep(fence, [rest], "", fence, marker);
    FenceStep(rest, [], "", "", marker);
    NoLines(rest);
    assert [fence] + ([fence] + [rest]) == [fence] + [fence, rest] && [fence] + [rest] == [fence, rest] && [rest] + [] == [rest];
    assert "" + rest == rest && [Cut("", fence + fence)] + [] == [Cut("", fence + fence)];
  }

  lemma FencedByLines(text: string)
    ensures Fenced(text) == FenceCuts(SplitLines(text), "")
  {
  }

  lemma NoLines(plain: string)
    ensures FenceCuts([], plain) == Masked([], plain)
  {
  }

  lemma {:induction false} RunIs(r: string, rest: string)
    requires (forall c | c in r :: !IsSpace(c)) && rest != "" && IsSpace(rest[0])
    ensures Run(r + rest) == r
  {
    hide IsSpace;
    if r == "" {
      assert r + rest == rest;
    } else {
      assert (r + rest)[1..] == r[1..] + rest;
      RunIs(r[1..], rest);
      assert [r[0]] + r[1..] == r;
    }
  }

  lemma {:induction false} LabelRunIs(r: string, rest: string)
    requires ']' !in r && '\n' !in r && "]" <= rest
    ensures LabelRun(r + rest) == r
  {
    if r == "" {
      assert r + rest == rest;
    } else {
      assert (r + rest)[1..] == r[1..] + rest;
      LabelRunIs(r[1..], rest);
      assert [r[0]] + r[1..] == r;
    }
  }

  lemma {:induction false} TargetRunIs(r: string)
    requires (forall c | c in r :: !IsSpace(c)) && ')' !in r
    ensures TargetRun(r + ")") == r
  {
    hide IsSpace;
    if r != "" {
      assert (r + ")")[1..] == r[1..] + ")";
      TargetRunIs(r[1..]);
      assert [r[0]] + r[1..] == r;
    }
  }

  lemma PinnedTarget()
    ensures HasPin(TARGET)
    ensures (forall c | c in TARGET :: !IsSpace(c)) && ')' !in TARGET
  {
    var s := TARGET;
    assert s[6..] == "0000000/";
    HexRunOfZeros();
    assert "/blob/" <= s && s[13..] == "/" && "/" <= s[13..];
    assert PinWord(s, "/blob/");
  }

  lemma HexRunOfZeros()
    ensures HexRun("0000000/") == 7
  {
    assert "0000000/"[1..] == "000000/" && "000000/"[1..] == "00000/" && "00000/"[1..] == "0000/"
        && "0000/"[1..] == "000/" && "000/"[1..] == "00/" && "00/"[1..] == "0/" && "0/"[1..] == "/";
    assert HexRun("/") == 0 && HexRun("0/") == 1 && HexRun("00/") == 2 && HexRun("000/") == 3;
    assert HexRun("0000/") == 4 && HexRun("00000/") == 5 && HexRun("000000/") == 6;
  }

  lemma MarkdownLinkIs(words: string, target: string)
    requires ']' !in words && '\n' !in words && HasPin(target)
    requires (forall c | c in target :: !IsSpace(c)) && ')' !in target
    ensures LinkLength("[" + words + "](" + target + ")") == |words| + |target| + 4
  {
    var s := "[" + words + "](" + target + ")";
    var l := |words| + 1;
    MarkdownPieces(words, target);
    assert MarkdownLink(s) == l + 3 + |target| by {
      hide HasPin, LabelRun, TargetRun;
    }
    hide HasPin, MarkdownLink, Run;
  }

  lemma MarkdownPieces(words: string, target: string)
    requires ']' !in words && '\n' !in words && (forall c | c in target :: !IsSpace(c)) && ')' !in target
    ensures var s, l := "[" + words + "](" + target + ")", |words| + 1;
            && s[0] == '[' && |s| == l + 3 + |target| && LabelRun(s[1..]) == words && "](" <= s[l..]
            && TargetRun(s[l + 2..]) == target && s[l + 2 + |target|] == ')'
  {
    hide *;
    var s, l := "[" + words + "](" + target + ")", |words| + 1;
    assert s[1..] == words + ("](" + target + ")");
    LabelRunIs(words, "](" + target + ")");
    assert s[l..] == "](" + target + ")";
    assert s[l + 2..] == target + ")";
    TargetRunIs(target);
  }

  /** One pinned link at the end of a text whose head holds no space, bracket or slash. */
  lemma LinkedTail(head: string, pinned: string, target: string)
    requires pinned == "[a b](" + target + ")" && LinkLength(pinned) == |pinned|
    requires forall c | c in head :: !IsSpace(c) && c != '[' && c != '/'
    ensures LinkCuts(head + pinned, "") == Masked([Cut(head, pinned)], "")
  {
    hide *;
    var s := head + pinned;
    BeforeSpace(head, target);
    LinkedText(head, target);
    RunIs(head + "[a", " b](" + target + ")");
    if HasPin(head + "[a") {
      PinHasSlash(head + "[a");
    }
    HeadOf(head, pinned);
    SkipInert(s, "", |head|);
    LinkStep(pinned, head);
    assert pinned[..|pinned|] == pinned && pinned[|pinned|..] == "";
    NoText("");
    assert [Cut(head, pinned)] + [] == [Cut(head, pinned)];
  }

  lemma LinkedText(head: string, target: string)
    ensures head + ("[a b](" + target + ")") == head + "[a" + (" b](" + target + ")")
  {
    assert "[a b](" == "[a" + " b](";
  }

  lemma HeadOf(head: string, rest: string)
    ensures var s := head + rest;
            && (forall j | 0 <= j < |head| :: s[j] in head)
            && s[|head|..] == rest && "" + s[..|head|] == head
  {
  }

  lemma BeforeSpace(head: string, target: string)
    requires forall c | c in head :: !IsSpace(c) && c != '[' && c != '/'
    ensures forall c | c in head + "[a" :: !IsSpace(c) && c != '/'
    ensures " b](" + target + ")" != "" && IsSpace((" b](" + target + ")")[0])
  {
    assert forall c | c in head + "[a" :: c in head || c in "[a";
  }

  lemma NoText(plain: string)
    ensures LinkCuts("", plain) == Masked([], plain)
  {
  }

  /** A fence token and the label right behind it, before a permalink token, read as a permalink token. */
  lemma ForeignHead(name: string, rest: string)
    requires NUL !in name && IsName(Link, name)
    ensures !Quiet(Link, Token(Fence, 0) + name, Token(Link, 0) + rest)
  {
    hide *;
    var t := Token(Link, 0) + rest;
    TokenStarts(Link, 0, rest);
    TokenEnds();
    var f := Token(Fence, 0);
    assert f + name == f[..|f| - 1] + ([NUL] + name);
    if Quiet(Link, f + name, t) {
      QuietSuffix(Link, f[..|f| - 1], [NUL] + name, t);
      assert t == [NUL] + t[1..];
      TokenFromShape("", name, t[1..]);
      assert [NUL] + name + t == [NUL] + name + [NUL] + t[1..];
      QuietHead(Link, [NUL] + name, t);
    }
  }

  lemma TokenEnds()
    ensures |Token(Fence, 0)| > 0 && Token(Fence, 0)[|Token(Fence, 0)| - 1] == NUL
  {
  }

  lemma ForeignShape(text: string, block: string, name: string, pinned: string)
    requires Fenced(text) == Masked([Cut("", block)], name + pinned)
    requires var head := Token(Fence, 0) + name; LinkCuts(head + pinned, "") == Masked([Cut(head, pinned)], "")
    requires NUL !in name && IsName(Link, name)
    ensures Foreign(text)
  {
    hide Quiet, Token, LinkCuts, IsName, Fenced;
    var head := Token(Fence, 0) + name;
    assert FencedText(text) == head + pinned by {
      assert [Cut("", block)][1..] == [];
      assert Render(Fence, [Cut("", block)], name + pinned, 0) == "" + (Token(Fence, 0) + Render(Fence, [], name + pinned, 1));
      assert "" + (Token(Fence, 0) + (name + pinned)) == head + pinned;
    }
    ForeignHead(name, "");
    assert [Cut(head, pinned)][1..] == [];
  }

  lemma LostHead()
    ensures forall c | c in Token(Fence, 0) + "AWPERMALINK0" :: !IsSpace(c) && c != '[' && c != '/'
    ensures NUL !in "AWPERMALINK0" && IsName(Link, "AWPERMALINK0")
  {
    var name := "AWPERMALINK0";
    assert name[11..] == "0" && name[..11] == Label(Link);
    assert Token(Fence, 0) == [NUL] + "AWFENCEDCODE" + "0" + [NUL];
    assert forall c | c in Token(Fence, 0) + name :: c == NUL || c in "AWFENCEDCODE" || c == '0' || c in name;
  }

  /** The characters of the text, piece by piece. */
  lemma LostPieces()
    ensures forall c | c in "```" :: c != NUL && !IsLineBreak(c)
    ensures forall c | c in "AWPERMALINK0" :: c != NUL && !IsLineBreak(c)
    ensures forall c | c in "[a b](" :: c != NUL && !IsLineBreak(c)
    ensures forall c | c in TARGET :: c != NUL && !IsLineBreak(c)
    ensures forall c | c in ")" :: c != NUL && !IsLineBreak(c)
    ensures |TARGET| == 14 && '\n' != NUL
    ensures PINNED == "[a b](" + TARGET + ")"
    ensures LOST == "```" + "\n" + ("```" + "\n" + ("AWPERMALINK0" + PINNED))
  {
  }

  lemma JoinedCharacters(a: string, b: string)
    requires forall c | c in a :: c != NUL && !IsLineBreak(c)
    requires forall c | c in b :: c != NUL && !IsLineBreak(c)
    ensures forall c | c in a + b :: c != NUL && !IsLineBreak(c)
  {
  }

  lemma LostLines()
    ensures NUL !in LOST
    ensures forall c | c in "```" + ("AWPERMALINK0" + PINNED) :: !IsLineBreak(c)
    ensures |PINNED| == 21 && PINNED == "[a b](" + TARGET + ")"
    ensures LOST == "```" + "\n" + ("```" + "\n" + ("AWPERMALINK0" + PINNED))
  {
    LostPieces();
    hide *;
    JoinedCharacters("[a b](", TARGET);
    JoinedCharacters("[a b](" + TARGET, ")");
    JoinedCharacters("AWPERMALINK0", PINNED);
    JoinedCharacters("```", "AWPERMALINK0" + PINNED);
    assert forall c | c in LOST :: c in "```" || c == '\n' || c in "AWPERMALINK0" + PINNED;
  }

  lemma LostFences()
    ensures FenceMarker("```" + "\n") == Some('`') && FenceMarker("AWPERMALINK0" + PINNED).None?
  {
    assert LStrip("```\n") == "```\n";
    assert LStrip("AWPERMALINK0" + PINNED) == "AWPERMALINK0" + PINNED;
  }

  lemma LostLink()
    ensures LinkLength(PINNED) == |PINNED|
  {
    hide *;
    LostLines();
    PinnedTarget();
    MarkdownLinkIs("a b", TARGET);
    assert "[" + "a b" + "](" == "[a b](";
  }

  /** Three lines without NUL that masking and unmasking do not give back: an empty fence, the label with a
      number, and a pinned link whose label holds a space. */
  lemma LostText()
    ensures NUL !in LOST && Unmask(LOST, MaskedText(LOST)) != Some(LOST)
  {
    hide *;
    LostLines();
    LostFences();
    LostLink();
    LostHead();
    FenceThenText("```", "AWPERMALINK0" + PINNED, '`');
    LinkedTail(Token(Fence, 0) + "AWPERMALINK0", PINNED, TARGET);
    ForeignShape(LOST, "```" + "\n" + ("```" + "\n"), "AWPERMALINK0", PINNED);
    UnmaskInvertsMaskExactly(LOST);
  }
}
