/** When a rewrite can leave or make an occurrence of a name it meant to remove. Two strings that overlap
    only wholly or not at all cannot be joined by accident. */
module Citations {
  import opened Text
  import opened Rewriting

  predicate Occurs(w: string, s: string)
    decreases |s|
  {
    w <= s || (s != "" && Occurs(w, s[1..]))
  }

  // ----- occurrences -----

  lemma {:induction false} OccursInside(w: string, a: string, b: string)
    ensures Occurs(w, a + w + b)
    decreases |a|
  {
    var s := a + w + b;
    if a == "" {
      assert s[..|w|] == w;
    } else {
      assert s[1..] == a[1..] + w + b;
      OccursInside(w, a[1..], b);
    }
  }

  lemma {:induction false} OccursSplits(w: string, s: string) returns (a: string, b: string)
    requires Occurs(w, s)
    ensures s == a + w + b
    decreases |s|
  {
    if w <= s {
      a, b := "", s[|w|..];
    } else {
      a, b := OccursSplits(w, s[1..]);
      assert s == [s[0]] + s[1..];
      a := [s[0]] + a;
    }
  }

  lemma OccursThrough(w: string, s: string, a: string, b: string)
    requires Occurs(w, s)
    ensures Occurs(w, a + s + b)
  {
    var x, y := OccursSplits(w, s);
    assert a + s + b == (a + x) + w + (y + b);
    OccursInside(w, a + x, y + b);
  }

  lemma NoOccurrenceIn(w: string, s: string, k: nat)
    requires k <= |s| && !Occurs(w, s)
    ensures !Occurs(w, s[k..])
  {
    assert s[..k] + s[k..] + "" == s;
    if Occurs(w, s[k..]) {
      OccursThrough(w, s[k..], s[..k], "");
    }
  }

  ghost predicate Straddles(w: string, n: string, r: string) {
    exists k | 0 < k < |w| :: EndsWith(n, w[..k]) && w[k..] <= r
  }

  /** An occurrence in a concatenation is in one of the two sides or lies across the joint. */
  lemma {:induction false} OccursInJoin(w: string, n: string, r: string)
    requires w != "" && Occurs(w, n + r)
    ensures Occurs(w, n) || Occurs(w, r) || Straddles(w, n, r)
    decreases |n|
  {
    if n == "" {
      assert n + r == r;
    } else if w <= n + r {
      if |w| <= |n| {
        assert w == (n + r)[..|w|] == n[..|w|];
      } else {
        assert w[..|n|] == n;
        assert w[|n|..] == (n + r)[..|w|][|n|..] == r[..|w| - |n|];
        assert EndsWith(n, w[..|n|]) && w[|n|..] <= r;
      }
    } else {
      assert (n + r)[1..] == n[1..] + r;
      OccursInJoin(w, n[1..], r);
      if Straddles(w, n[1..], r) {
        var k :| 0 < k < |w| && EndsWith(n[1..], w[..k]) && w[k..] <= r;
        assert n[|n| - k..] == n[1..][|n| - 1 - k..];
        assert EndsWith(n, w[..k]);
      }
    }
  }

  // ----- the exact filename rewrite -----

  /** `now` neither holds `w` nor shares a border with it. */
  ghost predicate Apart(w: string, now: string) {
    && w != "" && now != ""
    && (forall k | 0 < k < |w| :: !EndsWith(now, w[..k]))
    && (forall j | 0 < j < |w| :: !(w[j..] <= now) && !(now <= w[j..]))
    && !Occurs(w, now)
  }

  lemma ApartFrom(w: string, now: string, j: nat)
    requires Apart(w, now) && 0 < j < |w|
    ensures !EndsWith(now, w[..j]) && !(w[j..] <= now) && !(now <= w[j..])
  {
    hide EndsWith, Occurs;
  }

  lemma PrefixOfJoin(v: string, a: string, b: string)
    requires v <= a + b
    ensures v <= a || a <= v
  {
    if |v| <= |a| {
      assert v == (a + b)[..|v|] == a[..|v|];
    } else {
      assert a == (a + b)[..|a|] == v[..|a|];
    }
  }

  lemma {:induction false} RestOfNameWasThere(s: string, was: string, now: string, w: string, j: nat)
    requires was != "" && Apart(w, now) && 0 < j <= |w|
    ensures w[j..] <= ReplaceAll(s, was, now) ==> w[j..] <= s
    decreases |w| - j
  {
    hide Apart;
    if j < |w| {
      ApartFrom(w, now, j);
      if s != "" {
        if was <= s {
          NotIntoJoin(w[j..], now, ReplaceAll(s[|was|..], was, now));
        } else {
          RestOfNameWasThere(s[1..], was, now, w, j + 1);
          StepBack(w, j, s, ReplaceAll(s[1..], was, now));
        }
      }
    }
  }

  lemma NotIntoJoin(v: string, a: string, b: string)
    requires !(v <= a) && !(a <= v)
    ensures !(v <= a + b)
  {
    if v <= a + b {
      PrefixOfJoin(v, a, b);
    }
  }

  /** One character of `w` kept, and the rest of it there before if it is there after. */
  lemma StepBack(w: string, j: nat, s: string, r: string)
    requires j < |w| && s != ""
    requires w[j + 1..] <= r ==> w[j + 1..] <= s[1..]
    ensures w[j..] <= [s[0]] + r ==> w[j..] <= s
  {
    if w[j..] <= [s[0]] + r {
      OneStep(w, j, s[0], r);
      OneStepBack(w, j, s);
    }
  }

  lemma OneStep(w: string, j: nat, c: char, r: string)
    requires j < |w| && w[j..] <= [c] + r
    ensures w[j] == c && w[j + 1..] <= r
  {
    var v := w[j..];
    assert v == ([c] + r)[..|v|];
    assert v[1..] == r[..|v| - 1];
    assert v[0] == c && v[1..] == w[j + 1..];
  }

  lemma OneStepBack(w: string, j: nat, s: string)
    requires j < |w| && s != "" && w[j] == s[0] && w[j + 1..] <= s[1..]
    ensures w[j..] <= s
  {
    assert w[j..] == [w[j]] + w[j + 1..];
    assert s == [s[0]] + s[1..];
  }

  lemma ReplaceStep(s: string, was: string, now: string)
    requires was != ""
    ensures ReplaceAll("", was, now) == ""
    ensures s != "" ==>
            ReplaceAll(s, was, now)
            == if was <= s then now + ReplaceAll(s[|was|..], was, now) else [s[0]] + ReplaceAll(s[1..], was, now)
  {
  }

  /** Replacing a name leaves no occurrence of it, and makes none of another that was not there. */
  lemma {:induction false} ReplaceKeepsOut(s: string, was: string, now: string, w: string)
    requires was != "" && Apart(w, now) && (was == w || !Occurs(w, s))
    ensures !Occurs(w, ReplaceAll(s, was, now))
    decreases |s|
  {
    ReplaceStep(s, was, now);
    hide ReplaceAll;
    if s == "" {
    } else if was <= s {
      hide Occurs, EndsWith;
      var rest := ReplaceAll(s[|was|..], was, now);
      if was != w {
        NoOccurrenceIn(w, s, |was|);
      }
      ReplaceKeepsOut(s[|was|..], was, now, w);
      if Occurs(w, now + rest) {
        OccursInJoin(w, now, rest);
      }
    } else {
      hide *;
      var rest := ReplaceAll(s[1..], was, now);
      OccursStep(w, s);
      OccursStep(w, [s[0]] + rest);
      ReplaceKeepsOut(s[1..], was, now, w);
      assert ([s[0]] + rest)[1..] == rest;
      NonEmpty(w, now);
      assert w[0..] == w;
      RestOfNameWasThere(s[1..], was, now, w, 1);
      StepBack(w, 0, s, rest);
      PrefixIsReplaced(s, was, w);
    }
  }

  lemma OccursStep(w: string, s: string)
    requires s != ""
    ensures Occurs(w, s) <==> w <= s || Occurs(w, s[1..])
  {
  }

  lemma PrefixIsReplaced(s: string, was: string, w: string)
    requires !(was <= s) && (was == w || !Occurs(w, s))
    ensures !(w <= s)
  {
  }

  lemma NonEmpty(w: string, now: string)
    requires Apart(w, now)
    ensures w != ""
  {
  }

  // ----- the stem rewrites -----

  /** `now`, put in place of a delimited token, cannot become part of `w`. */
  ghost predicate StemApart(w: string, now: string) {
    && w != "" && now != ""
    && (forall k | 0 < k < |w| :: IsTokenChar(w[k - 1]) || w[k] != now[0])
    && (forall k | 0 < k < |w| :: IsTokenChar(w[k]) || !EndsWith(now, w[..k]))
    && !Occurs(w, now)
  }

  lemma {:induction false} RestOfStemWasThere(s: string, inToken: bool, was: string, now: string, facetless: bool, w: string, j: nat)
    requires was != "" && StemApart(w, now) && 0 < j <= |w| && inToken == IsTokenChar(w[j - 1])
    ensures w[j..] <= SubStem(s, inToken, was, now, facetless) ==> w[j..] <= s
    decreases |w| - j
  {
    if j < |w| && s != "" {
      hide SubStem, StemApart, EndsStem, IsTokenChar;
      SubStep(s, inToken, was, now, facetless);
      if !inToken && was <= s && EndsStem(s[|was|..], facetless) {
        NotInto(now, SubStem(s[|was|..], IsTokenChar(was[|was| - 1]), was, now, facetless), w, j);
      } else if w[j] == s[0] {
        RestOfStemWasThere(s[1..], IsTokenChar(s[0]), was, now, facetless, w, j + 1);
        StepBack(w, j, s, SubStem(s[1..], IsTokenChar(s[0]), was, now, facetless));
      } else {
        OtherHead(w, j, s[0], SubStem(s[1..], IsTokenChar(s[0]), was, now, facetless));
      }
    }
  }

  lemma NotInto(now: string, rest: string, w: string, j: nat)
    requires StemApart(w, now) && 0 < j < |w| && !IsTokenChar(w[j - 1])
    ensures !(w[j..] <= now + rest)
  {
    hide Occurs, EndsWith, IsTokenChar;
    assert w[j] != now[0];
    assert w[j..][0] == w[j] && (now + rest)[0] == now[0];
  }

  lemma OtherHead(w: string, j: nat, c: char, r: string)
    requires j < |w| && w[j] != c
    ensures !(w[j..] <= [c] + r)
  {
    assert w[j..][0] == w[j] && ([c] + r)[0] == c;
  }

  lemma NowIsNonEmpty(w: string, now: string)
    requires StemApart(w, now)
    ensures now != "" && w != "" && !Occurs(w, now)
  {
  }

  /** Inside a token a stem rewrite keeps the next character. */
  lemma NextCharacterStays(s: string, was: string, now: string, facetless: bool)
    requires was != ""
    ensures var r := SubStem(s, true, was, now, facetless); (s == "" <==> r == "") && (s != "" ==> r[0] == s[0])
  {
  }

  /** A stem rewrite makes no occurrence of a name that was not there. */
  lemma {:induction false} SubKeepsOut(s: string, inToken: bool, was: string, now: string, facetless: bool, w: string)
    requires was != "" && IsTokenChar(was[|was| - 1]) && StemApart(w, now) && !Occurs(w, s)
    ensures !Occurs(w, SubStem(s, inToken, was, now, facetless))
    decreases |s|
  {
    NowIsNonEmpty(w, now);
    if s == "" {
    } else {
      hide SubStem, StemApart, EndsStem, IsTokenChar, EndsWith;
      SubStep(s, inToken, was, now, facetless);
      if !inToken && was <= s && EndsStem(s[|was|..], facetless) {
        hide Occurs;
        var rest := SubStem(s[|was|..], true, was, now, facetless);
        NoOccurrenceIn(w, s, |was|);
        SubKeepsOut(s[|was|..], true, was, now, facetless, w);
        NextCharacterStays(s[|was|..], was, now, facetless);
        EndsAtBoundary(s[|was|..], facetless);
        NoStraddle(w, now, rest);
        if Occurs(w, now + rest) {
          OccursInJoin(w, now, rest);
        }
      } else {
        var rest := SubStem(s[1..], IsTokenChar(s[0]), was, now, facetless);
        assert !Occurs(w, s[1..]);
        SubKeepsOut(s[1..], IsTokenChar(s[0]), was, now, facetless, w);
        assert ([s[0]] + rest)[1..] == rest;
        assert w[0..] == w;
        if w[0] == s[0] {
          RestOfStemWasThere(s[1..], IsTokenChar(s[0]), was, now, facetless, w, 1);
          StepBack(w, 0, s, rest);
        } else {
          OtherHead(w, 0, s[0], rest);
        }
      }
    }
  }

  lemma NoStraddle(w: string, now: string, rest: string)
    requires StemApart(w, now) && (rest == "" || !IsTokenChar(rest[0]))
    ensures !Straddles(w, now, rest)
  {
    hide Occurs, EndsWith, IsTokenChar;
    forall k | 0 < k < |w| && w[k..] <= rest
      ensures !EndsWith(now, w[..k])
    {
      assert w[k..][0] == w[k] && rest[0] == w[k];
    }
  }

  lemma EndsAtBoundary(rest: string, facetless: bool)
    requires EndsStem(rest, facetless)
    ensures rest == "" || !IsTokenChar(rest[0])
  {
  }
}
