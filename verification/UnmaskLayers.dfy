/** Each layer alone, on every text: its restore inverts its masking exactly when no foreign token was met. */
module UnmaskLayers {
  import opened Wrappers
  import opened Text
  import opened Rewriting
  import opened Masking
  import opened Links
  import opened Unmasking

  // ----- where the first foreign token stands -----

  /** Every suffix of the source that starts inside a plain stretch satisfies `p`. */
  ghost predicate PlainAll(p: string -> bool, cuts: seq<Cut>, tail: string)
    decreases |cuts|
  {
    if cuts == [] then StretchAll(p, tail, "")
    else StretchAll(p, cuts[0].plain, cuts[0].hidden + Source(cuts[1..], tail)) && PlainAll(p, cuts[1..], tail)
  }

  ghost predicate StretchAll(p: string -> bool, q: string, rest: string) {
    forall i | 0 <= i < |q| :: p(q[i..] + rest)
  }

  lemma {:induction false} FirstToken(layer: Layer, q: string, rest: string) returns (i: nat)
    requires !Quiet(layer, q, rest)
    ensures i < |q| && Quiet(layer, q[..i], q[i..] + rest) && TokenAt(layer, q[i..] + rest).Some?
  {
    hide TokenAt;
    if TokenAt(layer, q + rest).Some? {
      i := 0;
      assert q[0..] == q;
    } else {
      var j := FirstToken(layer, q[1..], rest);
      i := j + 1;
      assert q[1..][j..] == q[i..] && q[..i] == [q[0]] + q[1..][..j];
      assert [q[0]] + (q[1..][..j] + (q[i..] + rest)) == q + rest;
      QuietCons(layer, q[0], q[1..][..j], q[i..] + rest);
    }
  }

  /** What a restore does with a stretch that is not quiet: some saved text, or none, takes the token's place. */
  lemma RestoreFirstToken(layer: Layer, saved: seq<string>, q: string, rest: string) returns (i: nat, k: nat, y: Option<string>)
    requires !Quiet(layer, q, rest) && (rest == "" || rest[0] == NUL)
    ensures i < |q| && q[i] == NUL && Label(layer) <= q[i + 1..]
    ensures Restore(layer, saved, q + rest) == if k < |saved| then Prepend(q[..i] + saved[k], y) else None
  {
    hide TokenAt, Field, AfterToken, Quiet;
    i := FirstToken(layer, q, rest);
    var s := q[i..] + rest;
    RestoreQuiet(layer, saved, q[..i], s);
    assert q[..i] + s == q + rest;
    TokenBounds(layer, s);
    k := TokenAt(layer, s).value;
    y := Restore(layer, saved, AfterToken(s));
    if k < |saved| {
      PrependTwice(q[..i], saved[k], y);
    }
    assert s[1..] == q[i + 1..] + rest;
    LabelInside(layer, q[i + 1..], rest);
  }

  /** The name of a token that starts in front of a NUL, or of nothing, is complete there. */
  lemma LabelInside(layer: Layer, q: string, rest: string)
    requires IsName(layer, Field(q + rest)) && (rest == "" || rest[0] == NUL)
    ensures Label(layer) <= q
  {
    FieldOfAppend(q, rest);
    FieldFacts(q);
  }

  lemma {:induction false} FirstForeign(layer: Layer, p: string -> bool, cuts: seq<Cut>, tail: string, before: seq<string>)
      returns (u: string, s: string, k: nat, y: Option<string>)
    requires !NoForeignToken(layer, cuts, tail, |before|) && PlainAll(p, cuts, tail)
    ensures Source(cuts, tail) == u + s && s != "" && s[0] == NUL && Label(layer) <= s[1..] && p(s)
    ensures var saved := before + Hidden(cuts);
            Restore(layer, saved, Render(layer, cuts, tail, |before|)) == if k < |saved| then Prepend(u + saved[k], y) else None
    decreases |cuts|
  {
    hide *;
    var saved, n := before + Hidden(cuts), |before|;
    if cuts == [] {
      NoCuts(layer, p, tail, n);
      var i;
      i, k, y := RestoreFirstToken(layer, saved, tail, "");
      u, s := tail[..i], tail[i..] + "";
      assert tail + "" == tail && u + s == tail;
      InStretch(layer, p, tail, "", i);
    } else {
      var cut, rest, more := cuts[0], Render(layer, cuts[1..], tail, n + 1), Source(cuts[1..], tail);
      FirstCut(layer, p, cuts, tail, n);
      TokenStarts(layer, n, rest);
      if !Quiet(layer, cut.plain, Token(layer, n) + rest) {
        var i;
        i, k, y := RestoreFirstToken(layer, saved, cut.plain, Token(layer, n) + rest);
        u, s := cut.plain[..i], cut.plain[i..] + (cut.hidden + more);
        assert u + s == cut.plain + (cut.hidden + more);
        InStretch(layer, p, cut.plain, cut.hidden + more, i);
      } else {
        var u';
        u', s, k, y := FirstForeign(layer, p, cuts[1..], tail, before + [cut.hidden]);
        assert before + [cut.hidden] + Hidden(cuts[1..]) == saved;
        RestoreQuiet(layer, saved, cut.plain, Token(layer, n) + rest);
        RestoreToken(layer, saved, n, rest);
        assert saved[n] == cut.hidden;
        u := cut.plain + (cut.hidden + u');
        JoinFront(cut.plain, cut.hidden, u', s, if k < |saved| then saved[k] else "", y);
      }
    }
  }

  lemma InStretch(layer: Layer, p: string -> bool, q: string, rest: string, i: nat)
    requires StretchAll(p, q, rest) && i < |q| && Label(layer) <= q[i + 1..]
    ensures var s := q[i..] + rest; p(s) && s[0] == q[i] && Label(layer) <= s[1..]
  {
    assert (q[i..] + rest)[1..] == q[i + 1..] + rest;
  }

  lemma NoCuts(layer: Layer, p: string -> bool, tail: string, n: nat)
    ensures Render(layer, [], tail, n) == tail == Source([], tail) && Hidden([]) == []
    ensures NoForeignToken(layer, [], tail, n) <==> Quiet(layer, tail, "")
    ensures PlainAll(p, [], tail) <==> StretchAll(p, tail, "")
  {
  }

  lemma FirstCut(layer: Layer, p: string -> bool, cuts: seq<Cut>, tail: string, n: nat)
    requires cuts != []
    ensures var cut, rest, more := cuts[0], Render(layer, cuts[1..], tail, n + 1), Source(cuts[1..], tail);
            && Render(layer, cuts, tail, n) == cut.plain + (Token(layer, n) + rest)
            && Source(cuts, tail) == cut.plain + (cut.hidden + more) && Hidden(cuts) == [cut.hidden] + Hidden(cuts[1..])
            && (NoForeignToken(layer, cuts, tail, n) <==> Quiet(layer, cut.plain, Token(layer, n) + rest) && NoForeignToken(layer, cuts[1..], tail, n + 1))
            && (PlainAll(p, cuts, tail) <==> StretchAll(p, cut.plain, cut.hidden + more) && PlainAll(p, cuts[1..], tail))
  {
    hide Quiet, Token, StretchAll;
  }

  lemma JoinFront(plain: string, hidden: string, u: string, s: string, span: string, y: Option<string>)
    ensures plain + (hidden + (u + s)) == plain + (hidden + u) + s
    ensures Prepend(plain, Prepend(hidden, Prepend(u + span, y))) == Prepend(plain + (hidden + u) + span, y)
    ensures Prepend(plain, Prepend(hidden, None)) == None
  {
    PrependTwice(hidden, u + span, y);
    PrependTwice(plain, hidden + (u + span), y);
    assert plain + (hidden + (u + span)) == plain + (hidden + u) + span;
  }

  /** A foreign token is gone after the restore when no saved text could stand in its place. */
  lemma ForeignShows(layer: Layer, p: string -> bool, cuts: seq<Cut>, tail: string)
    requires !NoForeignToken(layer, cuts, tail, 0) && PlainAll(p, cuts, tail)
    requires forall c, s | c in cuts && s != "" && s[0] == NUL && p(s) :: !(c.hidden <= s)
    ensures Restore(layer, Hidden(cuts), Render(layer, cuts, tail, 0)) != Some(Source(cuts, tail))
  {
    hide Quiet, Render, NoForeignToken, PlainAll, Restore, Source;
    var u, s, k, y := FirstForeign(layer, p, cuts, tail, []);
    assert [] + Hidden(cuts) == Hidden(cuts);
    if k < |Hidden(cuts)| && y.Some? {
      var h := Hidden(cuts)[k];
      assert h == cuts[k].hidden && cuts[k] in cuts;
      SameFront(u, h, y.value, s);
    }
  }

  lemma SameFront(u: string, h: string, y: string, s: string)
    ensures u + h + y == u + s ==> h <= s
  {
    assert (u + h + y)[|u|..] == h + y && (u + s)[|u|..] == s;
  }

  // ----- the fence layer -----

  predicate StartsBlock(block: string) {
    block != "" && block[0] != NUL
  }

  ghost predicate AllStart(cuts: seq<Cut>) {
    forall c | c in cuts :: StartsBlock(c.hidden)
  }

  lemma FenceLineStarts(line: string)
    requires FenceMarker(line).Some?
    ensures StartsBlock(line)
  {
  }

  lemma {:induction false} FenceBlocksStart(lines: seq<string>, plain: string)
    ensures AllStart(FenceCuts(lines, plain).cuts)
    decreases |lines|
  {
    hide FenceMarker;
    if lines != [] {
      match FenceMarker(lines[0])
      case None => FenceBlocksStart(lines[1..], plain + lines[0]);
      case Some(marker) =>
        FenceLineStarts(lines[0]);
        InFenceBlocksStart(lines[1..], plain, lines[0], marker);
    }
  }

  lemma {:induction false} InFenceBlocksStart(lines: seq<string>, plain: string, block: string, marker: char)
    requires StartsBlock(block)
    ensures AllStart(InFence(lines, plain, block, marker).cuts)
    decreases |lines|
  {
    hide FenceMarker;
    if lines != [] {
      if FenceMarker(lines[0]) == Some(marker) {
        FenceBlocksStart(lines[1..], "");
      } else {
        InFenceBlocksStart(lines[1..], plain, block + lines[0], marker);
      }
    }
  }

  predicate Anything(s: string) {
    true
  }

  lemma {:induction false} AnythingHolds(cuts: seq<Cut>, tail: string)
    ensures PlainAll(Anything, cuts, tail)
  {
    if cuts != [] {
      AnythingHolds(cuts[1..], tail);
    }
  }

  // ----- the link layer -----

  lemma {:induction false} HexRunGrows(a: string, b: string)
    requires a <= b && HexRun(a) < |a|
    ensures HexRun(b) == HexRun(a)
  {
    if IsHex(a[0]) {
      assert a[1..] <= b[1..];
      HexRunGrows(a[1..], b[1..]);
    }
  }

  lemma PinWordGrows(a: string, b: string, word: string)
    requires a <= b && PinWord(a, word)
    ensures PinWord(b, word)
  {
    hide HexRun;
    var n := |word|;
    assert a[n..] <= b[n..];
    HexRunGrows(a[n..], b[n..]);
    var k := n + HexRun(a[n..]);
    assert a[k..] <= b[k..];
  }

  lemma {:induction false} PinGrows(a: string, b: string)
    requires a <= b && HasPin(a)
    ensures HasPin(b)
  {
    hide PinWord;
    if PinHere(a) {
      if PinWord(a, "/blob/") {
        PinWordGrows(a, b, "/blob/");
      } else if PinWord(a, "/tree/") {
        PinWordGrows(a, b, "/tree/");
      } else {
        PinWordGrows(a, b, "/raw/");
      }
    } else {
      assert a[1..] <= b[1..];
      PinGrows(a[1..], b[1..]);
    }
  }

  lemma {:induction false} RunGrows(x: string, s: string)
    requires Run(x) <= s
    ensures Run(x) <= Run(s)
  {
    if x != "" && !IsSpace(x[0]) {
      var r := Run(x);
      assert r[1..] == Run(x[1..]) && s[0] == r[0];
      assert r[1..] <= s[1..];
      RunGrows(x[1..], s[1..]);
    }
  }

  lemma {:induction false} LabelRunGrows(h: string, s: string)
    requires h <= s && |LabelRun(h)| < |h|
    ensures LabelRun(s) == LabelRun(h)
  {
    if h[0] != ']' && h[0] != '\n' {
      assert h[1..] <= s[1..];
      LabelRunGrows(h[1..], s[1..]);
    }
  }

  lemma {:induction false} TargetRunGrows(h: string, s: string)
    requires h <= s && |TargetRun(h)| < |h|
    ensures TargetRun(s) == TargetRun(h)
  {
    if !IsSpace(h[0]) && h[0] != ')' {
      assert h[1..] <= s[1..];
      TargetRunGrows(h[1..], s[1..]);
    }
  }

  lemma {:induction false} LabelRunWithin(x: string, n: nat)
    requires |LabelRun(x)| < n <= |x|
    ensures LabelRun(x[..n]) == LabelRun(x)
  {
    if x[0] != ']' && x[0] != '\n' {
      assert x[..n][1..] == x[1..][..n - 1];
      LabelRunWithin(x[1..], n - 1);
    }
  }

  lemma {:induction false} TargetRunWithin(x: string, n: nat)
    requires |TargetRun(x)| < n <= |x|
    ensures TargetRun(x[..n]) == TargetRun(x)
  {
    if !IsSpace(x[0]) && x[0] != ')' {
      assert x[..n][1..] == x[1..][..n - 1];
      TargetRunWithin(x[1..], n - 1);
    }
  }

  /** A whole Markdown link is one wherever it stands. */
  lemma MarkdownMoves(x: string, s: string)
    requires MarkdownLink(x) > 0 && x[..MarkdownLink(x)] <= s
    ensures MarkdownLink(s) > 0
  {
    hide HasPin, IsSpace, LabelRun, TargetRun;
    var n := MarkdownLink(x);
    var h := x[..n];
    var l := |LabelRun(x[1..])| + 1;
    var t := TargetRun(x[l + 2..]);
    LabelRunWithin(x[1..], n - 1);
    assert x[1..][..n - 1] == h[1..];
    assert h[1..] <= s[1..];
    LabelRunGrows(h[1..], s[1..]);
    assert s[l..][..2] == h[l..][..2] == x[l..][..2] == "](";
    TargetRunWithin(x[l + 2..], n - l - 2);
    assert x[l + 2..][..n - l - 2] == h[l + 2..];
    assert h[l + 2..] <= s[l + 2..];
    TargetRunGrows(h[l + 2..], s[l + 2..]);
    assert s[n - 1] == h[n - 1] == x[n - 1] == ')';
  }

  /** So no suffix at which no match starts begins with a span that was matched somewhere. */
  lemma SpanMoves(x: string, s: string)
    requires LinkLength(x) > 0 && x[..LinkLength(x)] <= s
    ensures LinkLength(s) > 0
  {
    hide MarkdownLink, HasPin, Run;
    if MarkdownLink(x) > 0 {
      MarkdownMoves(x, s);
    } else {
      assert x[..|Run(x)|] == Run(x);
      RunGrows(x, s);
      PinGrows(Run(x), Run(s));
      PinIsText(Run(s));
    }
  }

  lemma PinIsText(s: string)
    requires HasPin(s)
    ensures s != ""
  {
  }

  ghost predicate SomeMatch(h: string) {
    exists x :: 0 < LinkLength(x) && h == x[..LinkLength(x)]
  }

  ghost predicate AllMatched(cuts: seq<Cut>) {
    forall c | c in cuts :: SomeMatch(c.hidden)
  }

  predicate NoMatch(s: string) {
    LinkLength(s) == 0
  }

  /** No match starts inside a plain stretch; `plain` is what was gathered before. */
  lemma {:induction false} LinkPlainsNoMatch(s: string, plain: string)
    requires StretchAll(NoMatch, plain, s)
    ensures PlainAll(NoMatch, LinkCuts(s, plain).cuts, LinkCuts(s, plain).tail)
    ensures AllMatched(LinkCuts(s, plain).cuts)
    decreases |s|
  {
    hide LinkLength, Source, LinkCuts;
    if s == "" {
      NoMoreLinks(plain);
    } else {
      LinkStep(s, plain);
      var n := LinkLength(s);
      if n > 0 {
        var r := LinkCuts(s[n..], "");
        LinkPlainsNoMatch(s[n..], "");
        LinkSource(s[n..], "");
        assert ([Cut(plain, s[..n])] + r.cuts)[1..] == r.cuts;
        assert s[..n] + ("" + s[n..]) == s;
        assert SomeMatch(s[..n]);
      } else {
        StretchSnoc(plain, s);
        LinkPlainsNoMatch(s[1..], plain + [s[0]]);
      }
    }
  }

  lemma NoMoreLinks(plain: string)
    ensures LinkCuts("", plain) == Masked([], plain)
  {
  }

  lemma StretchSnoc(plain: string, s: string)
    requires s != "" && NoMatch(s) && StretchAll(NoMatch, plain, s)
    ensures StretchAll(NoMatch, plain + [s[0]], s[1..])
  {
    hide NoMatch;
    var q := plain + [s[0]];
    forall i | 0 <= i < |q|
      ensures NoMatch(q[i..] + s[1..])
    {
      if i < |plain| {
        assert q[i..] + s[1..] == plain[i..] + s;
      } else {
        assert q[i..] + s[1..] == s;
      }
    }
  }

  // ----- both -----

  /** On every text, each layer's restore gives back what its masking was given if and only if it met no foreign
      token. */
  lemma LayersInvertExactly(text: string)
    ensures Restore(Fence, Hidden(Fenced(text).cuts), FencedText(text)) == Some(text) <==> !ForeignFence(text)
    ensures Restore(Link, Hidden(Linked(text).cuts), MaskedText(text)) == Some(FencedText(text)) <==> !ForeignLink(text)
  {
    hide *;
    var f, l := Fenced(text), Linked(text);
    LayersInvert(text);
    FencedIs(text);
    LinkedIs(text);
    if ForeignFence(text) {
      FencedSource(text);
      FenceCutsStart(text);
      AnythingHolds(f.cuts, f.tail);
      BlocksReplaceNothing(f.cuts);
      ForeignShows(Fence, Anything, f.cuts, f.tail);
    }
    if ForeignLink(text) {
      LinkedSource(text);
      LinkedCutsMatch(text);
      SpansReplaceNothing(l.cuts);
      ForeignShows(Link, NoMatch, l.cuts, l.tail);
    }
  }

  lemma FenceCutsStart(text: string)
    ensures AllStart(Fenced(text).cuts)
  {
    hide FenceCuts, SplitLines, AllStart;
    FenceBlocksStart(SplitLines(text), "");
  }

  lemma LinkedCutsMatch(text: string)
    ensures PlainAll(NoMatch, Linked(text).cuts, Linked(text).tail) && AllMatched(Linked(text).cuts)
  {
    hide LinkCuts, FencedText, PlainAll, AllMatched;
    LinkPlainsNoMatch(FencedText(text), "");
  }

  lemma BlocksReplaceNothing(cuts: seq<Cut>)
    requires AllStart(cuts)
    ensures forall c, s: string | c in cuts && s != "" && s[0] == NUL :: !(c.hidden <= s)
  {
  }

  lemma SpansReplaceNothing(cuts: seq<Cut>)
    requires AllMatched(cuts)
    ensures forall c, s | c in cuts && NoMatch(s) :: !(c.hidden <= s)
  {
    hide LinkLength;
    forall c, s | c in cuts && NoMatch(s)
      ensures !(c.hidden <= s)
    {
      var x :| 0 < LinkLength(x) && c.hidden == x[..LinkLength(x)];
      if c.hidden <= s {
        SpanMoves(x, s);
      }
    }
  }

  /** With no foreign permalink token, the whole inverts exactly when there is no foreign fence token either. */
  lemma InvertsWithoutForeignLinkExactly(text: string)
    requires !ForeignLink(text)
    ensures Unmask(text, MaskedText(text)) == Some(text) <==> !ForeignFence(text)
  {
    hide Restore, ForeignFence, ForeignLink, Fenced, Linked, FencedText, MaskedText;
    LayersInvertExactly(text);
  }
}
