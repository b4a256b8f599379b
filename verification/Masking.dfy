/** Hiding spans of a text behind inert tokens and putting them back: the two nested layers the reference
    rewriter works under. */
module Masking {
  import opened Wrappers
  import opened Text
  import opened Rewriting

  datatype Layer = Fence | Link

  function Label(layer: Layer): string {
    match layer
    case Fence => "AWFENCEDCODE"
    case Link => "AWPERMALINK"
  }

  function Token(layer: Layer, n: nat): string {
    [NUL] + Label(layer) + Decimal(n) + [NUL]
  }

  // ----- finding a token -----

  /** Everything before the first NUL. */
  function Field(s: string): (f: string)
    ensures f <= s && NUL !in f
    ensures |f| < |s| ==> s[|f|] == NUL
  {
    if s == "" || s[0] == NUL then "" else [s[0]] + Field(s[1..])
  }

  /** `<label>\d+` */
  predicate IsName(layer: Layer, f: string) {
    Label(layer) <= f && |f| > |Label(layer)| && AllDigits(f[|Label(layer)|..])
  }

  /** The index of a token that starts `s`. */
  function TokenAt(layer: Layer, s: string): Option<nat> {
    if s != "" && s[0] == NUL && |Field(s[1..])| + 1 < |s| && IsName(layer, Field(s[1..]))
    then Some(Value(Field(s[1..])[|Label(layer)|..]))
    else None
  }

  function AfterToken(s: string): string
    requires s != "" && |Field(s[1..])| + 1 < |s|
  {
    s[|Field(s[1..])| + 2..]
  }

  function Prepend(a: string, b: Option<string>): Option<string> {
    match b
    case None => None
    case Some(t) => Some(a + t)
  }

  lemma PrependTwice(a: string, b: string, c: Option<string>)
    ensures Prepend(a, Prepend(b, c)) == Prepend(a + b, c)
    ensures Prepend("", c) == c
  {
    if c.Some? {
      assert a + (b + c.value) == a + b + c.value;
      assert "" + c.value == c.value;
    }
  }

  /** The restore closures: substitute every token from the left; None is the IndexError of an index that
      was never saved. */
  function Restore(layer: Layer, saved: seq<string>, s: string): Option<string>
    decreases |s|
  {
    if s == "" then Some("")
    else
      match TokenAt(layer, s)
      case None => Prepend([s[0]], Restore(layer, saved, s[1..]))
      case Some(n) => if n < |saved| then Prepend(saved[n], Restore(layer, saved, AfterToken(s))) else None
  }

  // ----- a text with some spans cut out -----

  datatype Cut = Cut(plain: string, hidden: string)

  datatype Masked = Masked(cuts: seq<Cut>, tail: string)

  function Source(cuts: seq<Cut>, tail: string): string {
    if cuts == [] then tail else cuts[0].plain + (cuts[0].hidden + Source(cuts[1..], tail))
  }

  function Render(layer: Layer, cuts: seq<Cut>, tail: string, n: nat): string {
    if cuts == [] then tail
    else cuts[0].plain + (Token(layer, n) + Render(layer, cuts[1..], tail, n + 1))
  }

  function Hidden(cuts: seq<Cut>): seq<string> {
    seq(|cuts|, i requires 0 <= i < |cuts| => cuts[i].hidden)
  }

  /** No token of the layer starts inside `q` when `rest` follows it. */
  predicate Quiet(layer: Layer, q: string, rest: string) {
    q == "" || (TokenAt(layer, q + rest).None? && Quiet(layer, q[1..], rest))
  }

  /** The rendered text holds no token the rendering did not put there. */
  predicate NoForeignToken(layer: Layer, cuts: seq<Cut>, tail: string, n: nat) {
    if cuts == [] then Quiet(layer, tail, "")
    else
      Quiet(layer, cuts[0].plain, Token(layer, n) + Render(layer, cuts[1..], tail, n + 1)) &&
      NoForeignToken(layer, cuts[1..], tail, n + 1)
  }

  // ----- reading a token back -----

  lemma {:induction false} FieldIs(f: string, rest: string)
    requires NUL !in f && (rest == "" || rest[0] == NUL)
    ensures Field(f + rest) == f
  {
    if f == "" {
      assert f + rest == rest;
    } else {
      assert (f + rest)[1..] == f[1..] + rest;
      FieldIs(f[1..], rest);
      assert f == [f[0]] + f[1..];
    }
  }

  lemma NameIsName(layer: Layer, n: nat)
    ensures IsName(layer, Label(layer) + Decimal(n)) && NUL !in Label(layer) + Decimal(n)
    ensures '-' !in Label(layer) + Decimal(n)
    ensures (Label(layer) + Decimal(n))[|Label(layer)|..] == Decimal(n)
  {
    hide Decimal;
    var d := Decimal(n);
    assert (Label(layer) + d)[|Label(layer)|..] == d;
    assert forall c | c in d :: IsDigit(c);
  }

  lemma TokenReads(layer: Layer, n: nat, rest: string)
    ensures var s := Token(layer, n) + rest;
            TokenAt(layer, s) == Some(n) && |Field(s[1..])| + 1 < |s| && AfterToken(s) == rest
  {
    var name := Label(layer) + Decimal(n);
    var s := Token(layer, n) + rest;
    assert s[1..] == name + ([NUL] + rest);
    NameIsName(layer, n);
    FieldIs(name, [NUL] + rest);
    ValueOfDecimal(n);
  }

  lemma RestoreToken(layer: Layer, saved: seq<string>, n: nat, rest: string)
    requires n < |saved|
    ensures Restore(layer, saved, Token(layer, n) + rest) == Prepend(saved[n], Restore(layer, saved, rest))
  {
    TokenReads(layer, n, rest);
  }

  lemma {:induction false} RestoreQuiet(layer: Layer, saved: seq<string>, q: string, rest: string)
    requires Quiet(layer, q, rest)
    ensures Restore(layer, saved, q + rest) == Prepend(q, Restore(layer, saved, rest))
  {
    hide TokenAt;
    if q == "" {
      assert q + rest == rest;
      PrependTwice("", "", Restore(layer, saved, rest));
    } else {
      assert (q + rest)[1..] == q[1..] + rest;
      RestoreQuiet(layer, saved, q[1..], rest);
      PrependTwice([q[0]], q[1..], Restore(layer, saved, rest));
      assert [q[0]] + q[1..] == q;
    }
  }

  lemma {:induction false} NulFreeIsQuiet(layer: Layer, q: string, rest: string)
    requires NUL !in q
    ensures Quiet(layer, q, rest)
  {
    if q != "" {
      NulFreeIsQuiet(layer, q[1..], rest);
    }
  }

  /** Without foreign tokens, restoring gives the source back. */
  lemma {:induction false} RestoreRender(layer: Layer, cuts: seq<Cut>, tail: string, before: seq<string>)
    requires NoForeignToken(layer, cuts, tail, |before|)
    ensures Restore(layer, before + Hidden(cuts), Render(layer, cuts, tail, |before|)) == Some(Source(cuts, tail))
    decreases |cuts|
  {
    hide Quiet, Token;
    var saved, n := before + Hidden(cuts), |before|;
    if cuts == [] {
      RestoreQuiet(layer, saved, tail, "");
      assert tail + "" == tail;
    } else {
      var rest := Render(layer, cuts[1..], tail, n + 1);
      RestoreQuiet(layer, saved, cuts[0].plain, Token(layer, n) + rest);
      RestoreToken(layer, saved, n, rest);
      assert before + [cuts[0].hidden] + Hidden(cuts[1..]) == saved;
      RestoreRender(layer, cuts[1..], tail, before + [cuts[0].hidden]);
    }
  }

  // ----- the fence layer -----

  function Concat(parts: seq<string>): string {
    if parts == [] then "" else parts[0] + Concat(parts[1..])
  }

  lemma {:induction false} LinesConcat(s: string)
    ensures Concat(SplitLines(s)) == s
    decreases |s|
  {
    hide FirstLine;
    if s != "" {
      LinesConcat(s[|FirstLine(s)|..]);
      assert s == s[..|FirstLine(s)|] + s[|FirstLine(s)|..];
    }
  }

  /** `^(\s*)(```|~~~)`, the marker character. */
  function FenceMarker(line: string): Option<char> {
    var t := LStrip(line);
    if "```" <= t then Some('`') else if "~~~" <= t then Some('~') else None
  }

  /** White space up to `k`, and three of the marker there. */
  predicate FenceAt(line: string, k: nat, marker: char)
    requires k <= |line|
  {
    AllSpace(line[..k]) && ((marker == '`' && "```" <= line[k..]) || (marker == '~' && "~~~" <= line[k..]))
  }

  lemma FenceAtNext(line: string, k: nat, marker: char)
    requires k < |line|
    ensures FenceAt(line, k + 1, marker) <==> IsSpace(line[0]) && FenceAt(line[1..], k, marker)
  {
    hide IsSpace;
    assert line[..k + 1] == [line[0]] + line[1..][..k];
    assert line[1..][k..] == line[k + 1..];
  }

  /** After any white space, three backticks or three tildes open or close a fence, and nothing else does. */
  lemma {:induction false} FenceMarkerExactly(line: string, marker: char)
    ensures FenceMarker(line) == Some(marker) <==> exists k: nat | k <= |line| :: FenceAt(line, k, marker)
    decreases |line|
  {
    hide FenceAt, IsSpace;
    assert line[0..] == line;
    FenceAtStart(line, marker);
    if line != "" {
      if IsSpace(line[0]) {
        FenceMarkerExactly(line[1..], marker);
      }
      forall k: nat | k < |line|
        ensures FenceAt(line, k + 1, marker) <==> IsSpace(line[0]) && FenceAt(line[1..], k, marker)
      {
        FenceAtNext(line, k, marker);
      }
      if k: nat :| k < |line| && FenceAt(line[1..], k, marker) && IsSpace(line[0]) {
        assert FenceAt(line, k + 1, marker);
      }
      if k: nat :| 0 < k <= |line| && FenceAt(line, k, marker) {
        FenceAtNext(line, k - 1, marker);
      }
    }
  }

  lemma FenceAtStart(line: string, marker: char)
    ensures line == "" || !IsSpace(line[0]) ==> (FenceAt(line, 0, marker) <==> FenceMarker(line) == Some(marker))
    ensures line != "" && IsSpace(line[0]) ==> !FenceAt(line, 0, marker) && FenceMarker(line) == FenceMarker(line[1..])
  {
    assert line[0..] == line;
  }

  /** Outside a fence, with the plain text gathered since the last one. */
  function FenceCuts(lines: seq<string>, plain: string): Masked
    decreases |lines|
  {
    if lines == [] then Masked([], plain)
    else
      match FenceMarker(lines[0])
      case None => FenceCuts(lines[1..], plain + lines[0])
      case Some(marker) => InFence(lines[1..], plain, lines[0], marker)
  }

  /** Inside one, with the block gathered so far. A fence that is never closed runs to the end. */
  function InFence(lines: seq<string>, plain: string, block: string, marker: char): Masked
    decreases |lines|
  {
    if lines == [] then Masked([Cut(plain, block)], "")
    else if FenceMarker(lines[0]) == Some(marker) then
      var rest := FenceCuts(lines[1..], "");
      Masked([Cut(plain, block + lines[0])] + rest.cuts, rest.tail)
    else InFence(lines[1..], plain, block + lines[0], marker)
  }

  /** The loop that masks fenced blocks. */
  method MaskFencedCode(text: string) returns (masked: string, saved: seq<string>)
    ensures var m := FenceCuts(SplitLines(text), "");
            masked == Render(Fence, m.cuts, m.tail, 0) && saved == Hidden(m.cuts)
  {
    var lines := SplitLines(text);
    var out, inFence, marker, block := "", false, '`', "";
    saved := [];
    ghost var done: seq<Cut> := [];
    ghost var plain := "";
    assert Render(Fence, done, plain, 0) == "";
    for n := 0 to |lines|
      invariant saved == Hidden(done) && out == Render(Fence, done, plain, 0)
      invariant FenceCuts(lines, "") == Joined(done, if inFence then InFence(lines[n..], plain, block, marker) else FenceCuts(lines[n..], plain))
      invariant inFence ==> block != ""
    {
      hide *;
      var line := lines[n];
      assert lines[n..] == [line] + lines[n + 1..];
      FenceStep(line, lines[n + 1..], plain, block, marker);
      var m := FenceMarker(line);
      if !inFence {
        if m.Some? {
          inFence, marker, block := true, m.value, line;
        } else {
          RenderTail(Fence, done, plain, line, 0);
          out := out + line;
          plain := plain + line;
        }
      } else {
        block := block + line;
        if m == Some(marker) {
          inFence := false;
          CutStep(done, plain, block, FenceCuts(lines[n + 1..], ""));
          out := out + Token(Fence, |saved|);
          done, plain := done + [Cut(plain, block)], "";
          saved := saved + [block];
          block := "";
        }
      }
    }
    assert lines[|lines|..] == [] && done + [] == done;
    hide Render, Token;
    assert inFence ==> FenceCuts(lines, "") == Masked(done + [Cut(plain, block)], "");
    if inFence && block != "" {
      CutStep(done, plain, block, Masked([], ""));
      out := out + Token(Fence, |saved|);
      saved := saved + [block];
    }
    masked := out;
  }

  /** One line, in either state. */
  lemma FenceStep(line: string, rest: seq<string>, plain: string, block: string, marker: char)
    ensures FenceCuts([line] + rest, plain) ==
            if FenceMarker(line).Some? then InFence(rest, plain, line, FenceMarker(line).value) else FenceCuts(rest, plain + line)
    ensures InFence([line] + rest, plain, block, marker) ==
            if FenceMarker(line) == Some(marker)
            then Masked([Cut(plain, block + line)] + FenceCuts(rest, "").cuts, FenceCuts(rest, "").tail)
            else InFence(rest, plain, block + line, marker)
    ensures FenceMarker(line).Some? ==> line != ""
  {
    hide FenceMarker;
    assert ([line] + rest)[1..] == rest;
    if line == "" {
      EmptyLineIsNoFence();
    }
  }

  lemma EmptyLineIsNoFence()
    ensures FenceMarker("").None?
  {
  }

  /** Closing a block. */
  lemma CutStep(done: seq<Cut>, plain: string, block: string, rest: Masked)
    ensures Render(Fence, done + [Cut(plain, block)], "", 0) == Render(Fence, done, plain, 0) + Token(Fence, |Hidden(done)|)
    ensures Hidden(done + [Cut(plain, block)]) == Hidden(done) + [block]
    ensures Joined(done, Masked([Cut(plain, block)] + rest.cuts, rest.tail)) == Joined(done + [Cut(plain, block)], rest)
  {
    hide Render, Token;
    RenderCut(Fence, done, plain, block, 0);
    JoinCut(done, Cut(plain, block), rest);
  }

  function Joined(done: seq<Cut>, rest: Masked): Masked {
    Masked(done + rest.cuts, rest.tail)
  }

  lemma JoinCut(done: seq<Cut>, cut: Cut, rest: Masked)
    ensures Joined(done, Masked([cut] + rest.cuts, rest.tail)) == Joined(done + [cut], rest)
  {
    assert done + ([cut] + rest.cuts) == done + [cut] + rest.cuts;
  }

  lemma {:induction false} RenderTail(layer: Layer, cuts: seq<Cut>, tail: string, more: string, n: nat)
    ensures Render(layer, cuts, tail + more, n) == Render(layer, cuts, tail, n) + more
    decreases |cuts|
  {
    hide Token;
    if cuts != [] {
      RenderTail(layer, cuts[1..], tail, more, n + 1);
      var r := Render(layer, cuts[1..], tail, n + 1);
      assert cuts[0].plain + (Token(layer, n) + (r + more)) == cuts[0].plain + (Token(layer, n) + r) + more;
    }
  }

  lemma {:induction false} RenderCut(layer: Layer, cuts: seq<Cut>, plain: string, hidden: string, n: nat)
    ensures Render(layer, cuts + [Cut(plain, hidden)], "", n) == Render(layer, cuts, plain, n) + Token(layer, n + |cuts|)
    decreases |cuts|
  {
    hide Token;
    if cuts == [] {
      assert cuts + [Cut(plain, hidden)] == [Cut(plain, hidden)];
      assert plain + (Token(layer, n) + "") == plain + Token(layer, n);
    } else {
      assert (cuts + [Cut(plain, hidden)])[1..] == cuts[1..] + [Cut(plain, hidden)];
      RenderCut(layer, cuts[1..], plain, hidden, n + 1);
      var r := Render(layer, cuts[1..], plain, n + 1);
      assert cuts[0].plain + (Token(layer, n) + (r + Token(layer, n + |cuts|)))
          == cuts[0].plain + (Token(layer, n) + r) + Token(layer, n + |cuts|);
    }
  }
}
