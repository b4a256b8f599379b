/** The permalink layer over the fence layer: a link pinned to a commit is hidden whole, and whatever fence
    tokens it swallowed are restored inside it. */
module Links {
  import opened Wrappers
  import opened Text
  import opened Rewriting
  import opened Masking

  // ----- matching a pinned link -----

  predicate IsHex(c: char) {
    IsDigit(c) || 'a' <= c <= 'f'
  }

  function HexRun(s: string): (n: nat)
    ensures n <= |s|
  {
    if s != "" && IsHex(s[0]) then 1 + HexRun(s[1..]) else 0
  }

  /** `/<word>/[0-9a-f]{7,40}/` at the start of `s`. */
  predicate PinWord(s: string, word: string) {
    word <= s && 7 <= HexRun(s[|word|..]) <= 40 && "/" <= s[|word| + HexRun(s[|word|..])..]
  }

  predicate PinHere(s: string) {
    PinWord(s, "/blob/") || PinWord(s, "/tree/") || PinWord(s, "/raw/")
  }

  predicate HasPin(s: string) {
    s != "" && (PinHere(s) || HasPin(s[1..]))
  }

  /** `\S*` */
  function Run(s: string): (r: string)
    ensures r <= s
    ensures |r| < |s| ==> IsSpace(s[|r|])
  {
    if s == "" || IsSpace(s[0]) then "" else [s[0]] + Run(s[1..])
  }

  /** `[^)\s]*` */
  function TargetRun(s: string): (r: string)
    ensures r <= s
  {
    if s == "" || IsSpace(s[0]) || s[0] == ')' then "" else [s[0]] + TargetRun(s[1..])
  }

  /** `[^\]\n]*` */
  function LabelRun(s: string): (r: string)
    ensures r <= s
  {
    if s == "" || s[0] == ']' || s[0] == '\n' then "" else [s[0]] + LabelRun(s[1..])
  }

  /** The length of a whole Markdown link to a pinned target at the start of `s`; 0 when there is none. */
  function MarkdownLink(s: string): (n: nat)
    ensures n <= |s|
    ensures n > 0 ==> s[n - 1] == ')'
  {
    if s == "" || s[0] != '[' then 0
    else
      var l := |LabelRun(s[1..])| + 1;
      if !("](" <= s[l..]) then 0
      else
        var t := TargetRun(s[l + 2..]);
        var close := l + 2 + |t|;
        if close < |s| && s[close] == ')' && HasPin(t) then close + 1 else 0
  }

  /** The length of the match at the start of `s`: the Markdown form first, else a bare URL token. */
  function LinkLength(s: string): (n: nat)
    ensures n <= |s|
    ensures n > 0 ==> n == |s| || IsSpace(s[n]) || s[n - 1] == ')'
  {
    if MarkdownLink(s) > 0 then MarkdownLink(s)
    else if HasPin(Run(s)) then |Run(s)|
    else 0
  }

  /** `re.sub` over the text, with the plain text gathered since the last match. */
  function LinkCuts(s: string, plain: string): Masked
    decreases |s|
  {
    if s == "" then Masked([], plain)
    else if LinkLength(s) > 0 then
      var rest := LinkCuts(s[LinkLength(s)..], "");
      Masked([Cut(plain, s[..LinkLength(s)])] + rest.cuts, rest.tail)
    else LinkCuts(s[1..], plain + [s[0]])
  }

  // ----- nothing is lost by cutting -----

  lemma LinkStep(s: string, plain: string)
    requires s != ""
    ensures LinkLength(s) == 0 ==> LinkCuts(s, plain) == LinkCuts(s[1..], plain + [s[0]])
    ensures LinkLength(s) > 0 ==>
              var rest := LinkCuts(s[LinkLength(s)..], "");
              LinkCuts(s, plain) == Masked([Cut(plain, s[..LinkLength(s)])] + rest.cuts, rest.tail)
  {
    hide LinkLength;
  }

  lemma SourceStep(cut: Cut, cuts: seq<Cut>, tail: string)
    ensures Source([cut] + cuts, tail) == cut.plain + (cut.hidden + Source(cuts, tail))
  {
    assert ([cut] + cuts)[1..] == cuts;
  }

  lemma SplitAgain(s: string, n: nat)
    requires n <= |s|
    ensures "" + s[n..] == s[n..] && s[..n] + s[n..] == s
  {
  }

  lemma MoveHead(plain: string, s: string)
    requires s != ""
    ensures plain + [s[0]] + s[1..] == plain + s
  {
  }

  lemma {:induction false} LinkSource(s: string, plain: string)
    ensures Source(LinkCuts(s, plain).cuts, LinkCuts(s, plain).tail) == plain + s
    decreases |s|
  {
    if s != "" {
      hide *;
      LinkStep(s, plain);
      var n := LinkLength(s);
      if n > 0 {
        LinkSource(s[n..], "");
        var rest := LinkCuts(s[n..], "");
        SourceStep(Cut(plain, s[..n]), rest.cuts, rest.tail);
        SplitAgain(s, n);
      } else {
        LinkSource(s[1..], plain + [s[0]]);
        MoveHead(plain, s);
      }
    }
  }

  lemma {:induction false} FenceSource(lines: seq<string>, plain: string)
    ensures var m := FenceCuts(lines, plain); Source(m.cuts, m.tail) == plain + Concat(lines)
    decreases |lines|
  {
    hide FenceMarker;
    if lines != [] {
      assert plain + lines[0] + Concat(lines[1..]) == plain + Concat(lines);
      match FenceMarker(lines[0]) {
        case None => FenceSource(lines[1..], plain + lines[0]);
        case Some(marker) =>
          InFenceSource(lines[1..], plain, lines[0], marker);
          assert plain + (lines[0] + Concat(lines[1..])) == plain + Concat(lines);
      }
    }
  }

  lemma {:induction false} InFenceSource(lines: seq<string>, plain: string, block: string, marker: char)
    ensures var m := InFence(lines, plain, block, marker); Source(m.cuts, m.tail) == plain + (block + Concat(lines))
    decreases |lines|
  {
    hide FenceMarker;
    if lines == [] {
      assert block + "" == block;
    } else {
      var rest := Concat(lines[1..]);
      assert (block + lines[0]) + rest == block + Concat(lines);
      if FenceMarker(lines[0]) == Some(marker) {
        FenceSource(lines[1..], "");
        assert "" + rest == rest;
      } else {
        InFenceSource(lines[1..], plain, block + lines[0], marker);
      }
    }
  }

  // ----- texts in which every fence token is one of `n` saved ones -----

  /** With `rest` behind it, `s` is made of whole fence tokens with saved indexes and of characters at which no
      fence token starts. */
  predicate Clean(n: nat, s: string, rest: string)
    decreases |s|
  {
    || s == ""
    || (TokenAt(Fence, s + rest).None? && Clean(n, s[1..], rest))
    || (TokenAt(Fence, s).Some? && TokenAt(Fence, s).value < n && Clean(n, AfterToken(s), rest))
  }

  lemma TokenAppend(a: string, b: string)
    requires a != "" && a[0] == NUL && |Field(a[1..])| + 1 < |a|
    ensures Field((a + b)[1..]) == Field(a[1..])
    ensures AfterToken(a + b) == AfterToken(a) + b
    ensures forall layer :: TokenAt(layer, a + b) == TokenAt(layer, a)
  {
    var f := Field(a[1..]);
    assert (a + b)[1..] == f + (a[1..][|f|..] + b);
    FieldIs(f, a[1..][|f|..] + b);
  }

  lemma TokenBounds(layer: Layer, s: string)
    requires TokenAt(layer, s).Some?
    ensures s != "" && s[0] == NUL && |Field(s[1..])| + 1 < |s| && IsName(layer, Field(s[1..]))
    ensures s[|Field(s[1..])| + 1] == NUL
  {
    assert s[1..][|Field(s[1..])|] == s[|Field(s[1..])| + 1];
  }

  /** A whole token is a token whatever follows. */
  lemma TokenStays(layer: Layer, s: string, rest: string)
    requires TokenAt(layer, s).Some?
    ensures TokenAt(layer, s + rest) == TokenAt(layer, s)
    ensures |Field(s[1..])| + 1 < |s| && |Field((s + rest)[1..])| + 1 < |s + rest| && AfterToken(s + rest) == AfterToken(s) + rest
  {
    hide TokenAt, Field, AfterToken;
    TokenBounds(layer, s);
    TokenAppend(s, rest);
    TokenBounds(layer, s + rest);
  }

  /** One step of reading a clean stretch. */
  lemma CleanStep(n: nat, s: string, rest: string)
    requires s != ""
    ensures TokenAt(Fence, s + rest).None? ==> (Clean(n, s, rest) <==> Clean(n, s[1..], rest))
    ensures TokenAt(Fence, s + rest).Some? ==>
              (Clean(n, s, rest) <==> TokenAt(Fence, s).Some? && TokenAt(Fence, s).value < n && |Field(s[1..])| + 1 < |s| && Clean(n, AfterToken(s), rest))
    ensures TokenAt(Fence, s).Some? ==> TokenAt(Fence, s + rest) == TokenAt(Fence, s)
  {
    hide TokenAt, Field, AfterToken;
    if TokenAt(Fence, s).Some? {
      TokenStays(Fence, s, rest);
    }
  }

  lemma {:induction false} CleanAppend(n: nat, a: string, b: string, rest: string)
    requires Clean(n, a, b + rest)
    ensures Clean(n, a + b, rest) <==> Clean(n, b, rest)
    decreases |a|
  {
    hide *;
    if a == "" {
      assert a + b == b;
    } else {
      assert a + (b + rest) == a + b + rest;
      CleanStep(n, a, b + rest);
      CleanStep(n, a + b, rest);
      if TokenAt(Fence, a + b + rest).None? {
        assert (a + b)[1..] == a[1..] + b;
        CleanAppend(n, a[1..], b, rest);
      } else {
        TokenStays(Fence, a, b);
        TokenShorter(a);
        CleanAppend(n, AfterToken(a), b, rest);
      }
    }
  }

  lemma TokenShorter(s: string)
    requires TokenAt(Fence, s).Some?
    ensures |Field(s[1..])| + 1 < |s| && |AfterToken(s)| < |s|
  {
  }

  lemma {:induction false} QuietIsClean(n: nat, q: string, rest: string)
    requires Quiet(Fence, q, rest)
    ensures Clean(n, q, rest)
  {
    hide TokenAt;
    if q != "" {
      QuietIsClean(n, q[1..], rest);
    }
  }

  lemma TokenIsClean(n: nat, k: nat, rest: string)
    requires k < n
    ensures Clean(n, Token(Fence, k), rest)
  {
    hide TokenAt, Token, Field, AfterToken;
    var t := Token(Fence, k);
    TokenReads(Fence, k, "");
    assert t + "" == t;
    TokenStays(Fence, t, rest);
    CleanStep(n, t, rest);
    assert t != "" by {
      TokenBounds(Fence, t);
    }
  }

  /** What masking fences renders is clean unless the text brought a token of its own. */
  lemma {:induction false} RenderIsClean(cuts: seq<Cut>, tail: string, k: nat, n: nat)
    requires NoForeignToken(Fence, cuts, tail, k) && k + |cuts| <= n
    ensures Clean(n, Render(Fence, cuts, tail, k), "")
    decreases |cuts|
  {
    hide Token, Clean, Quiet;
    if cuts == [] {
      QuietIsClean(n, tail, "");
    } else {
      var rest := Render(Fence, cuts[1..], tail, k + 1);
      RenderIsClean(cuts[1..], tail, k + 1, n);
      TokenIsClean(n, k, rest);
      assert rest + "" == rest && Token(Fence, k) + rest + "" == Token(Fence, k) + rest;
      CleanAppend(n, Token(Fence, k), rest, "");
      QuietIsClean(n, cuts[0].plain, Token(Fence, k) + rest);
      CleanAppend(n, cuts[0].plain, Token(Fence, k) + rest, "");
    }
  }

  /** A fence token holds no space, bracket or parenthesis. */
  lemma TokenCharacters(s: string, j: nat)
    requires TokenAt(Fence, s).Some? && j < |Field(s[1..])| + 2
    ensures j < |s| && !IsSpace(s[j]) && s[j] != ')' && s[j] != '['
  {
    hide TokenAt, IsName, IsSpace, Field;
    TokenBounds(Fence, s);
    var f := Field(s[1..]);
    if 1 <= j <= |f| {
      assert s[j] == f[j - 1];
      NameCharacters(f, j - 1);
    }
    InertCharacter(s[j]);
  }

  lemma InertCharacter(c: char)
    requires c == NUL || 'A' <= c <= 'Z' || IsDigit(c)
    ensures !IsSpace(c) && c != ')' && c != '['
  {
  }

  lemma NameCharacters(f: string, j: nat)
    requires IsName(Fence, f) && j < |f|
    ensures 'A' <= f[j] <= 'Z' || IsDigit(f[j])
  {
    if j < 12 {
      assert f[j] == Label(Fence)[j];
    } else {
      assert f[j] == f[12..][j - 12];
    }
  }

  /** A match starts and ends outside every fence token. */
  lemma {:induction false} SafeCut(n: nat, a: string, b: string, rest: string)
    requires Clean(n, a + b, rest)
    requires a == "" || b == "" || IsSpace(b[0]) || a[|a| - 1] == ')'
    ensures Clean(n, a, b + rest) && Clean(n, b, rest)
    decreases |a|
  {
    hide *;
    if a == "" {
      assert a + b == b;
      NothingIsClean(n, b + rest);
    } else {
      var s := a + b;
      CleanStep(n, s, rest);
      CleanStep(n, a, b + rest);
      assert a + (b + rest) == s + rest;
      if TokenAt(Fence, s + rest).None? {
        assert s[1..] == a[1..] + b;
        assert |a| > 1 ==> a[1..][|a| - 2] == a[|a| - 1];
        SafeCut(n, a[1..], b, rest);
      } else {
        var l := |Field(s[1..])| + 2;
        TokenBounds(Fence, s);
        CutIsBehind(s, a, b);
        if |a| < l {
          assert false;
        } else {
          TokenPrefix(s, |a|);
          assert s[..|a|] == a;
          TokenShorter(a);
          TokenRest(a, b);
          SafeCut(n, AfterToken(a), b, rest);
        }
      }
    }
  }

  lemma CutIsBehind(s: string, a: string, b: string)
    requires TokenAt(Fence, s).Some? && s == a + b && a != ""
    requires b == "" || IsSpace(b[0]) || a[|a| - 1] == ')'
    ensures |a| >= |Field(s[1..])| + 2
  {
    hide TokenAt, IsSpace, Field;
    TokenBounds(Fence, s);
    if |a| < |Field(s[1..])| + 2 {
      TokenCharacters(s, |a|);
      TokenCharacters(s, |a| - 1);
    }
  }

  lemma NothingIsClean(n: nat, rest: string)
    ensures Clean(n, "", rest)
  {
  }

  lemma TokenRest(a: string, b: string)
    requires TokenAt(Fence, a).Some?
    ensures |Field(a[1..])| + 1 < |a| && |Field((a + b)[1..])| + 1 < |a + b| && AfterToken(a + b) == AfterToken(a) + b
    ensures TokenAt(Fence, a + b) == TokenAt(Fence, a)
    ensures AfterToken(a) != "" ==> AfterToken(a)[|AfterToken(a)| - 1] == a[|a| - 1]
  {
    hide TokenAt, Field;
    TokenStays(Fence, a, b);
  }

  lemma TokenPrefix(s: string, k: nat)
    requires s != "" && s[0] == NUL && |Field(s[1..])| + 2 <= k <= |s|
    ensures TokenAt(Fence, s[..k]) == TokenAt(Fence, s) && Field(s[..k][1..]) == Field(s[1..])
    ensures AfterToken(s[..k]) == AfterToken(s)[..k - |Field(s[1..])| - 2]
  {
    var f := Field(s[1..]);
    assert s[..k][1..] == f + s[1..][|f|..k - 1];
    assert s[1..][|f|..k - 1][0] == s[1..][|f|] == NUL;
    FieldIs(f, s[1..][|f|..k - 1]);
  }

  // ----- the links cut a clean text into clean pieces -----

  /** Each piece is clean in front of those that follow. */
  predicate CleanCuts(n: nat, cuts: seq<Cut>, tail: string) {
    if cuts == [] then Clean(n, tail, "")
    else
      var rest := Source(cuts[1..], tail);
      && Clean(n, cuts[0].plain, cuts[0].hidden + rest) && Clean(n, cuts[0].hidden, rest) && cuts[0].hidden != ""
      && CleanCuts(n, cuts[1..], tail)
  }

  lemma InertStep(s: string)
    requires s != "" && !IsSpace(s[0]) && s[0] != '[' && !HasPin(Run(s))
    ensures LinkLength(s) == 0 && !HasPin(Run(s[1..]))
  {
    hide IsSpace, PinHere;
    assert Run(s)[1..] == Run(s[1..]);
  }

  lemma {:induction false} SkipInert(s: string, plain: string, l: nat)
    requires l <= |s| && !HasPin(Run(s))
    requires forall j | 0 <= j < l :: !IsSpace(s[j]) && s[j] != '['
    ensures LinkCuts(s, plain) == LinkCuts(s[l..], plain + s[..l])
    decreases l
  {
    hide *;
    if l == 0 {
      assert s[0..] == s && plain + s[..0] == plain;
    } else {
      InertStep(s);
      LinkStep(s, plain);
      assert forall j | 0 <= j < l - 1 :: s[1..][j] == s[j + 1];
      SkipInert(s[1..], plain + [s[0]], l - 1);
      assert s[1..][l - 1..] == s[l..];
      assert plain + [s[0]] + s[1..][..l - 1] == plain + s[..l];
    }
  }

  lemma SkipToken(s: string, plain: string)
    requires TokenAt(Fence, s).Some? && LinkLength(s) == 0
    ensures s != "" && |Field(s[1..])| + 1 < |s|
    ensures LinkCuts(s, plain) == LinkCuts(AfterToken(s), plain + s[..|Field(s[1..])| + 2])
  {
    hide TokenAt, IsSpace, LinkCuts;
    TokenBounds(Fence, s);
    var l := |Field(s[1..])| + 2;
    forall j | 0 <= j < l
      ensures !IsSpace(s[j]) && s[j] != '['
    {
      TokenCharacters(s, j);
    }
    SkipInert(s, plain, l);
  }

  lemma {:induction false} LinkCutsClean(n: nat, s: string, plain: string)
    requires Clean(n, s, "") && Clean(n, plain, s)
    ensures CleanCuts(n, LinkCuts(s, plain).cuts, LinkCuts(s, plain).tail)
    decreases |s|
  {
    hide *;
    if s == "" {
      NoLinks(n, plain);
    } else {
      LinkStep(s, plain);
      assert s + "" == s;
      CleanStep(n, s, "");
      if LinkLength(s) > 0 {
        MatchIsCut(n, s, plain);
        LinkCutsClean(n, s[LinkLength(s)..], "");
        LinkSource(s[LinkLength(s)..], "");
        CleanCutsCons(n, plain, s, LinkLength(s));
      } else if TokenAt(Fence, s).None? {
        assert s == [s[0]] + s[1..];
        OneIsClean(n, s);
        CleanAppend(n, plain, [s[0]], s[1..]);
        LinkCutsClean(n, s[1..], plain + [s[0]]);
      } else {
        SkipToken(s, plain);
        TokenShorter(s);
        var l := |Field(s[1..])| + 2;
        HeadIsClean(n, s, l);
        assert s == s[..l] + AfterToken(s) by {
          AfterIs(s);
        }
        CleanAppend(n, plain, s[..l], AfterToken(s));
        LinkCutsClean(n, AfterToken(s), plain + s[..l]);
      }
    }
  }

  lemma NoLinks(n: nat, plain: string)
    requires Clean(n, plain, "")
    ensures CleanCuts(n, LinkCuts("", plain).cuts, LinkCuts("", plain).tail)
  {
  }

  lemma OneIsClean(n: nat, s: string)
    requires s != "" && TokenAt(Fence, s).None?
    ensures Clean(n, [s[0]], s[1..])
  {
    hide TokenAt;
    assert [s[0]] + s[1..] == s && [s[0]][1..] == "";
  }

  lemma AfterIs(s: string)
    requires TokenAt(Fence, s).Some?
    ensures |Field(s[1..])| + 1 < |s| && s == s[..|Field(s[1..])| + 2] + AfterToken(s)
  {
  }

  lemma HeadIsClean(n: nat, s: string, l: nat)
    requires TokenAt(Fence, s).Some? && TokenAt(Fence, s).value < n && l == |Field(s[1..])| + 2
    ensures l <= |s| && Clean(n, s[..l], AfterToken(s))
  {
    hide TokenAt, Field, AfterToken, Clean;
    TokenBounds(Fence, s);
    TokenPrefix(s, l);
    AfterIs(s);
    assert s[..l] + AfterToken(s) == s;
    CleanStep(n, s[..l], AfterToken(s));
    NothingIsClean(n, AfterToken(s));
    assert AfterToken(s[..l]) == "";
  }

  lemma MatchIsCut(n: nat, s: string, plain: string)
    requires Clean(n, s, "") && LinkLength(s) > 0
    ensures Clean(n, s[..LinkLength(s)], s[LinkLength(s)..]) && Clean(n, s[LinkLength(s)..], "") && Clean(n, "", s[LinkLength(s)..])
  {
    hide Clean, IsSpace;
    var a, b := s[..LinkLength(s)], s[LinkLength(s)..];
    assert s == a + b && b + "" == b;
    SafeCut(n, a, b, "");
    NothingIsClean(n, b);
  }

  lemma CleanCutsCons(n: nat, plain: string, s: string, l: nat)
    requires 0 < l <= |s| && Clean(n, plain, s) && Clean(n, s[..l], s[l..])
    requires var r := LinkCuts(s[l..], ""); CleanCuts(n, r.cuts, r.tail) && Source(r.cuts, r.tail) == "" + s[l..]
    ensures var r := LinkCuts(s[l..], ""); CleanCuts(n, [Cut(plain, s[..l])] + r.cuts, r.tail)
  {
    hide Clean, LinkCuts;
    var r := LinkCuts(s[l..], "");
    assert ([Cut(plain, s[..l])] + r.cuts)[1..] == r.cuts;
    assert "" + s[l..] == s[l..] && s[..l] + s[l..] == s;
  }

  // ----- texts whose only NULs delimit fence tokens -----

  predicate Balanced(n: nat, s: string)
    decreases |s|
  {
    || s == ""
    || (s[0] != NUL && Balanced(n, s[1..]))
    || (s[0] == NUL && TokenAt(Fence, s).Some? && TokenAt(Fence, s).value < n && Balanced(n, AfterToken(s)))
  }

  lemma {:induction false} BalancedAppend(n: nat, a: string, b: string)
    requires Balanced(n, a)
    ensures Balanced(n, a + b) <==> Balanced(n, b)
    decreases |a|
  {
    hide TokenAt;
    if a == "" {
      assert a + b == b;
    } else if a[0] != NUL {
      assert (a + b)[1..] == a[1..] + b;
      BalancedAppend(n, a[1..], b);
    } else {
      TokenBounds(Fence, a);
      TokenAppend(a, b);
      BalancedAppend(n, AfterToken(a), b);
    }
  }

  lemma {:induction false} NulFreeIsBalanced(n: nat, s: string)
    requires NUL !in s
    ensures Balanced(n, s)
  {
    if s != "" {
      NulFreeIsBalanced(n, s[1..]);
    }
  }

  predicate PlainsNulFree(cuts: seq<Cut>, tail: string) {
    NUL !in tail && forall c | c in cuts :: NUL !in c.plain
  }

  lemma {:induction false} RenderIsBalanced(cuts: seq<Cut>, tail: string, k: nat, n: nat)
    requires PlainsNulFree(cuts, tail) && k + |cuts| <= n
    ensures Balanced(n, Render(Fence, cuts, tail, k))
    decreases |cuts|
  {
    hide Token, TokenAt;
    if cuts == [] {
      NulFreeIsBalanced(n, tail);
    } else {
      var rest := Render(Fence, cuts[1..], tail, k + 1);
      RenderIsBalanced(cuts[1..], tail, k + 1, n);
      TokenReads(Fence, k, rest);
      assert (Token(Fence, k) + rest)[0] == NUL by {
        TokenStarts(Fence, k, rest);
      }
      NulFreeIsBalanced(n, cuts[0].plain);
      BalancedAppend(n, cuts[0].plain, Token(Fence, k) + rest);
    }
  }

  lemma TokenStarts(layer: Layer, k: nat, rest: string)
    ensures Token(layer, k) + rest != "" && (Token(layer, k) + rest)[0] == NUL
  {
  }

  lemma {:induction false} NulFreePieces(cuts: seq<Cut>, tail: string)
    requires NUL !in Source(cuts, tail)
    ensures PlainsNulFree(cuts, tail)
    decreases |cuts|
  {
    if cuts != [] {
      var rest := Source(cuts[1..], tail);
      assert forall c | c in rest :: c in Source(cuts, tail);
      assert forall c | c in cuts[0].plain :: c in Source(cuts, tail);
      NulFreePieces(cuts[1..], tail);
      assert forall c | c in cuts :: c == cuts[0] || c in cuts[1..];
    }
  }

  /** A balanced stretch is clean whatever follows. */
  lemma {:induction false} BalancedIsClean(n: nat, s: string, rest: string)
    requires Balanced(n, s)
    ensures Clean(n, s, rest)
    decreases |s|
  {
    hide TokenAt, Field, AfterToken, Clean;
    if s == "" {
      NothingIsClean(n, rest);
    } else {
      CleanStep(n, s, rest);
      if s[0] != NUL {
        NoNulNoToken(s + rest);
        BalancedIsClean(n, s[1..], rest);
      } else {
        TokenShorter(s);
        BalancedIsClean(n, AfterToken(s), rest);
      }
    }
  }

  lemma NoNulNoToken(s: string)
    ensures s == "" || s[0] != NUL ==> forall layer :: TokenAt(layer, s).None?
  {
  }

  /** The clean pieces of a balanced text are balanced. */
  lemma {:induction false} BalancedSplits(n: nat, a: string, b: string)
    requires Balanced(n, a + b) && Clean(n, a, b)
    ensures Balanced(n, a) && Balanced(n, b)
    decreases |a|
  {
    hide TokenAt, Field, AfterToken, Clean;
    if a == "" {
      assert a + b == b;
    } else {
      CleanStep(n, a, b);
      if a[0] != NUL {
        NoNulNoToken(a + b);
        assert (a + b)[1..] == a[1..] + b;
        BalancedSplits(n, a[1..], b);
      } else {
        TokenShorter(a);
        TokenStays(Fence, a, b);
        BalancedSplits(n, AfterToken(a), b);
      }
    }
  }

  predicate BalancedCuts(n: nat, cuts: seq<Cut>, tail: string) {
    Balanced(n, tail) && forall c | c in cuts :: Balanced(n, c.plain) && Balanced(n, c.hidden) && c.hidden != ""
  }

  lemma {:induction false} CutsAreBalanced(n: nat, cuts: seq<Cut>, tail: string)
    requires CleanCuts(n, cuts, tail) && Balanced(n, Source(cuts, tail))
    ensures BalancedCuts(n, cuts, tail)
    decreases |cuts|
  {
    hide Balanced, Clean;
    if cuts != [] {
      var rest := Source(cuts[1..], tail);
      BalancedSplits(n, cuts[0].plain, cuts[0].hidden + rest);
      BalancedSplits(n, cuts[0].hidden, rest);
      CutsAreBalanced(n, cuts[1..], tail);
      assert forall c | c in cuts :: c == cuts[0] || c in cuts[1..];
    }
  }
}
