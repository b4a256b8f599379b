/** The three kinds of citation rewrite: exact filename, stem between token boundaries, and stem that is
    also not followed by a facet. */
module Rewriting {
  import opened Text

  const NUL: char := '\0'

  /** `text.replace(was, new)`: leftmost, non-overlapping. */
  function ReplaceAll(s: string, was: string, now: string): string
    requires was != ""
    decreases |s|
  {
    if s == "" then ""
    else if was <= s then now + ReplaceAll(s[|was|..], was, now)
    else [s[0]] + ReplaceAll(s[1..], was, now)
  }

  predicate IsAlnum(c: char) {
    IsTokenChar(c) && c != '-'
  }

  /** `\.<word>(?![0-9A-Za-z])` at the start of `rest`. */
  predicate DottedWord(rest: string, word: string) {
    "." + word <= rest && (|rest| == |word| + 1 || !IsAlnum(rest[|word| + 1]))
  }

  predicate FacetFollows(rest: string) {
    || DottedWord(rest, "ipd") || DottedWord(rest, "prompt") || DottedWord(rest, "spec")
    || DottedWord(rest, "walkthrough") || DottedWord(rest, "roadmap") || DottedWord(rest, "backlog")
    || DottedWord(rest, "comms") || DottedWord(rest, "release") || DottedWord(rest, "review")
    || DottedWord(rest, "other") || DottedWord(rest, "md")
  }

  /** The lookaheads of the stem patterns; `facetless` adds the second one. */
  predicate EndsStem(rest: string, facetless: bool) {
    (rest == "" || !IsTokenChar(rest[0])) && (facetless ==> !FacetFollows(rest))
  }

  /** Substitution of a stem between boundaries. `inToken` says whether the character before `s`, in the
      text being searched, is a token character. */
  function SubStem(s: string, inToken: bool, was: string, now: string, facetless: bool): string
    requires was != ""
    decreases |s|
  {
    if s == "" then ""
    else if !inToken && was <= s && EndsStem(s[|was|..], facetless)
    then now + SubStem(s[|was|..], IsTokenChar(was[|was| - 1]), was, now, facetless)
    else [s[0]] + SubStem(s[1..], IsTokenChar(s[0]), was, now, facetless)
  }

  datatype Edit = FullName(was: string, now: string) | BareStem(was: string, now: string) | FacetlessStem(was: string, now: string)

  /** What every edit between dated record names satisfies: both sides hold a hyphen and no NUL. */
  predicate Dated(e: Edit) {
    e.was != "" && '-' in e.was && '-' in e.now && NUL !in e.was && NUL !in e.now
  }

  predicate AllDated(edits: seq<Edit>) {
    forall e | e in edits :: Dated(e)
  }

  function Rewrite(s: string, e: Edit): string
    requires e.was != ""
  {
    match e
    case FullName(was, now) => ReplaceAll(s, was, now)
    case BareStem(was, now) => SubStem(s, false, was, now, false)
    case FacetlessStem(was, now) => SubStem(s, false, was, now, true)
  }

  function RewriteAll(s: string, edits: seq<Edit>): string
    requires AllDated(edits)
    decreases |edits|
  {
    if edits == [] then s
    else
      assert Dated(edits[0]);
      RewriteAll(Rewrite(s, edits[0]), edits[1..])
  }

  // ----- a NUL separates: a rewrite works on each side alone -----

  lemma PrefixStopsAtNul(a: string, b: string, w: string)
    requires NUL !in w
    ensures w <= a + [NUL] + b <==> w <= a
  {
    var s := a + [NUL] + b;
    assert s[|a|] == NUL;
    if w <= s && |w| <= |a| {
      assert w == s[..|w|] == a[..|w|];
    }
    if w <= a {
      assert s[..|w|] == a[..|w|];
    }
  }

  lemma DottedWordStopsAtNul(a: string, b: string, word: string)
    requires NUL !in word
    ensures DottedWord(a + [NUL] + b, word) <==> DottedWord(a, word)
  {
    PrefixStopsAtNul(a, b, "." + word);
  }

  lemma EndsStemStopsAtNul(a: string, b: string, facetless: bool)
    ensures EndsStem(a + [NUL] + b, facetless) <==> EndsStem(a, facetless)
  {
    hide DottedWord;
    DottedWordStopsAtNul(a, b, "ipd");
    DottedWordStopsAtNul(a, b, "prompt");
    DottedWordStopsAtNul(a, b, "spec");
    DottedWordStopsAtNul(a, b, "walkthrough");
    DottedWordStopsAtNul(a, b, "roadmap");
    DottedWordStopsAtNul(a, b, "backlog");
    DottedWordStopsAtNul(a, b, "comms");
    DottedWordStopsAtNul(a, b, "release");
    DottedWordStopsAtNul(a, b, "review");
    DottedWordStopsAtNul(a, b, "other");
    DottedWordStopsAtNul(a, b, "md");
  }

  lemma {:induction false} ReplaceStopsAtNul(a: string, b: string, was: string, now: string)
    requires was != "" && NUL !in was
    ensures ReplaceAll(a + [NUL] + b, was, now) == ReplaceAll(a, was, now) + [NUL] + ReplaceAll(b, was, now)
    decreases |a|
  {
    var s := a + [NUL] + b;
    PrefixStopsAtNul(a, b, was);
    if a == "" {
      assert s[1..] == b;
    } else if was <= a {
      assert s[|was|..] == a[|was|..] + [NUL] + b;
      ReplaceStopsAtNul(a[|was|..], b, was, now);
    } else {
      assert s[1..] == a[1..] + [NUL] + b;
      ReplaceStopsAtNul(a[1..], b, was, now);
    }
  }

  lemma NulIsNoToken()
    ensures !IsTokenChar(NUL)
  {
  }

  /** One step of a stem rewrite. */
  lemma SubStep(s: string, inToken: bool, was: string, now: string, facetless: bool)
    requires was != ""
    ensures SubStem("", inToken, was, now, facetless) == ""
    ensures s != "" ==>
            SubStem(s, inToken, was, now, facetless)
            == if !inToken && was <= s && EndsStem(s[|was|..], facetless)
               then now + SubStem(s[|was|..], IsTokenChar(was[|was| - 1]), was, now, facetless)
               else [s[0]] + SubStem(s[1..], IsTokenChar(s[0]), was, now, facetless)
  {
    hide EndsStem, IsTokenChar;
  }

  lemma Regroup(a: string, b: string, c: string, d: string)
    ensures a + (b + c + d) == (a + b) + c + d
  {
  }

  lemma {:induction false} SubStopsAtNul(a: string, b: string, inToken: bool, was: string, now: string, facetless: bool)
    requires was != "" && NUL !in was
    ensures SubStem(a + [NUL] + b, inToken, was, now, facetless)
            == SubStem(a, inToken, was, now, facetless) + [NUL] + SubStem(b, false, was, now, facetless)
    decreases |a|
  {
    hide EndsStem, IsTokenChar, SubStem;
    var s := a + [NUL] + b;
    PrefixStopsAtNul(a, b, was);
    SubStep(s, inToken, was, now, facetless);
    SubStep(a, inToken, was, now, facetless);
    var end := SubStem(b, false, was, now, facetless);
    if a == "" {
      assert s[1..] == b && s[0] == NUL;
      NulIsNoToken();
    } else {
      if was <= a {
        assert s[|was|..] == a[|was|..] + [NUL] + b;
        EndsStemStopsAtNul(a[|was|..], b, facetless);
      }
      if !inToken && was <= a && EndsStem(a[|was|..], facetless) {
        var on := IsTokenChar(was[|was| - 1]);
        SubStopsAtNul(a[|was|..], b, on, was, now, facetless);
        Regroup(now, SubStem(a[|was|..], on, was, now, facetless), [NUL], end);
      } else {
        assert s[1..] == a[1..] + [NUL] + b && s[0] == a[0];
        var on := IsTokenChar(a[0]);
        SubStopsAtNul(a[1..], b, on, was, now, facetless);
        Regroup([a[0]], SubStem(a[1..], on, was, now, facetless), [NUL], end);
      }
    }
  }

  lemma {:induction false} RewriteAllStopsAtNul(a: string, b: string, edits: seq<Edit>)
    requires AllDated(edits)
    ensures RewriteAll(a + [NUL] + b, edits) == RewriteAll(a, edits) + [NUL] + RewriteAll(b, edits)
    decreases |edits|
  {
    hide ReplaceAll, SubStem;
    if edits != [] {
      var e := edits[0];
      assert Dated(e);
      match e {
        case FullName(was, now) => ReplaceStopsAtNul(a, b, was, now);
        case BareStem(was, now) => SubStopsAtNul(a, b, false, was, now, false);
        case FacetlessStem(was, now) => SubStopsAtNul(a, b, false, was, now, true);
      }
      RewriteAllStopsAtNul(Rewrite(a, e), Rewrite(b, e), edits[1..]);
    }
  }

  // ----- text without a hyphen is left alone, and cannot be the result of a change -----

  lemma {:induction false} ReplaceTouchesHyphens(s: string, was: string, now: string)
    requires '-' in was && '-' in now
    ensures '-' !in s || '-' !in ReplaceAll(s, was, now) ==> ReplaceAll(s, was, now) == s
    ensures NUL !in s && NUL !in now ==> NUL !in ReplaceAll(s, was, now)
    decreases |s|
  {
    if s != "" {
      if was <= s {
        assert forall c | c in was :: c in s;
        ReplaceTouchesHyphens(s[|was|..], was, now);
      } else {
        ReplaceTouchesHyphens(s[1..], was, now);
        assert s == [s[0]] + s[1..];
      }
    }
  }

  lemma {:induction false} SubTouchesHyphens(s: string, inToken: bool, was: string, now: string, facetless: bool)
    requires '-' in was && '-' in now
    ensures var r := SubStem(s, inToken, was, now, facetless); '-' !in s || '-' !in r ==> r == s
    ensures NUL !in s && NUL !in now ==> NUL !in SubStem(s, inToken, was, now, facetless)
    decreases |s|
  {
    hide EndsStem;
    if s != "" {
      if !inToken && was <= s && EndsStem(s[|was|..], facetless) {
        assert forall c | c in was :: c in s;
        SubTouchesHyphens(s[|was|..], IsTokenChar(was[|was| - 1]), was, now, facetless);
      } else {
        SubTouchesHyphens(s[1..], IsTokenChar(s[0]), was, now, facetless);
        assert s == [s[0]] + s[1..];
      }
    }
  }

  lemma {:induction false} RewriteAllTouchesHyphens(s: string, edits: seq<Edit>)
    requires AllDated(edits)
    ensures '-' !in s || '-' !in RewriteAll(s, edits) ==> RewriteAll(s, edits) == s
    ensures NUL !in s ==> NUL !in RewriteAll(s, edits)
    decreases |edits|
  {
    hide ReplaceAll, SubStem;
    if edits != [] {
      var e := edits[0];
      assert Dated(e);
      match e {
        case FullName(was, now) => ReplaceTouchesHyphens(s, was, now);
        case BareStem(was, now) => SubTouchesHyphens(s, false, was, now, false);
        case FacetlessStem(was, now) => SubTouchesHyphens(s, false, was, now, true);
      }
      RewriteAllTouchesHyphens(Rewrite(s, e), edits[1..]);
    }
  }

  // ----- a stem rewrite works token by token -----

  predicate AllToken(s: string) {
    forall i | 0 <= i < |s| :: IsTokenChar(s[i])
  }

  /** Any character outside `[0-9A-Za-z-]` separates tokens: each side is rewritten alone. */
  lemma {:induction false} SubStopsAtBoundary(a: string, c: char, b: string, inToken: bool, was: string, now: string)
    requires was != "" && AllToken(was) && !IsTokenChar(c)
    ensures SubStem(a + [c] + b, inToken, was, now, false)
            == SubStem(a, inToken, was, now, false) + [c] + SubStem(b, false, was, now, false)
    decreases |a|
  {
    hide IsTokenChar, AllToken, SubStem, FacetFollows;
    var s := a + [c] + b;
    PrefixStopsAtBoundary(a, c, b, was);
    SubStep(s, inToken, was, now, false);
    SubStep(a, inToken, was, now, false);
    var end := SubStem(b, false, was, now, false);
    if a == "" {
      assert s[1..] == b && s[0] == c;
    } else {
      if was <= a {
        assert s[|was|..] == a[|was|..] + [c] + b;
      }
      if !inToken && was <= a && EndsStem(a[|was|..], false) {
        var on := IsTokenChar(was[|was| - 1]);
        SubStopsAtBoundary(a[|was|..], c, b, on, was, now);
        Regroup(now, SubStem(a[|was|..], on, was, now, false), [c], end);
      } else {
        assert s[1..] == a[1..] + [c] + b && s[0] == a[0];
        var on := IsTokenChar(a[0]);
        SubStopsAtBoundary(a[1..], c, b, on, was, now);
        Regroup([a[0]], SubStem(a[1..], on, was, now, false), [c], end);
      }
    }
  }

  lemma PrefixStopsAtBoundary(a: string, c: char, b: string, w: string)
    requires AllToken(w) && !IsTokenChar(c)
    ensures w <= a + [c] + b <==> w <= a
  {
    var s := a + [c] + b;
    assert s[|a|] == c;
    if w <= s && |w| <= |a| {
      assert w == s[..|w|] == a[..|w|];
    }
    if w <= a {
      assert s[..|w|] == a[..|w|];
    }
  }

  lemma {:induction false} InsideTokenNothingChanges(s: string, was: string, now: string)
    requires was != "" && AllToken(s)
    ensures SubStem(s, true, was, now, false) == s
    decreases |s|
  {
    if s != "" {
      InsideTokenNothingChanges(s[1..], was, now);
      assert s == [s[0]] + s[1..];
    }
  }

  /** On one whole token a stem rewrite is all or nothing: a token that is the stem becomes the new stem,
      and every other one, however it embeds the stem, stays as it is. */
  lemma SubOnToken(s: string, was: string, now: string)
    requires was != "" && AllToken(s)
    ensures SubStem(s, false, was, now, false) == if s == was then now else s
  {
    if s != "" {
      if was <= s && EndsStem(s[|was|..], false) {
        assert s[|was|..] == "";
        assert s == was;
      } else {
        assert s != was;
        InsideTokenNothingChanges(s[1..], was, now);
        assert s == [s[0]] + s[1..];
      }
    }
  }
}
