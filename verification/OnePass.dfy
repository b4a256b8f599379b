/** What a run of rewrites amounts to: one pass over the old text, from left to right, that puts the new string
    in for whichever citation starts there. */
module OnePass {
  import opened Wrappers
  import opened Text
  import opened Rewriting
  import opened Citations

  // ----- the pass -----

  /** Whether the citation `e` rewrites starts at `s`; `inToken` says what stands before `s`. */
  predicate Fits(e: Edit, s: string, inToken: bool) {
    && e.was <= s
    && match e
       case FullName(_, _) => true
       case BareStem(was, _) => !inToken && EndsStem(s[|was|..], false)
       case FacetlessStem(was, _) => !inToken && EndsStem(s[|was|..], true)
  }

  function FirstFit(edits: seq<Edit>, s: string, inToken: bool): (r: Option<Edit>)
    ensures r.Some? ==> r.value in edits && Fits(r.value, s, inToken)
    ensures r.None? ==> forall e | e in edits :: !Fits(e, s, inToken)
  {
    if edits == [] then None
    else if Fits(edits[0], s, inToken) then Some(edits[0])
    else FirstFit(edits[1..], s, inToken)
  }

  predicate NoneEmpty(edits: seq<Edit>) {
    forall e | e in edits :: e.was != ""
  }

  /** The old text with the new string in place of every citation, read from the left. */
  function Renamed(s: string, inToken: bool, edits: seq<Edit>): string
    requires NoneEmpty(edits)
    decreases |s|
  {
    if s == "" then ""
    else
      match FirstFit(edits, s, inToken)
      case None => [s[0]] + Renamed(s[1..], IsTokenChar(s[0]), edits)
      case Some(e) => e.now + Renamed(s[|e.was|..], IsTokenChar(e.was[|e.was| - 1]), edits)
  }

  // ----- the strings records are cited by -----

  /** The run of token characters `s` starts with. */
  function Lead(s: string): (t: string)
    ensures t <= s && AllToken(t) && (|t| < |s| ==> !IsTokenChar(s[|t|]))
  {
    if s == "" || !IsTokenChar(s[0]) then "" else [s[0]] + Lead(s[1..])
  }

  lemma {:induction false} LeadIs(s: string, t: string)
    requires t <= s && AllToken(t) && (|t| < |s| ==> !IsTokenChar(s[|t|]))
    ensures Lead(s) == t
  {
    var l := Lead(s);
    NoLongerRun(s, l, t);
    NoLongerRun(s, t, l);
    assert l == s[..|l|] && t == s[..|t|];
  }

  lemma NoLongerRun(s: string, l: string, t: string)
    requires l <= s && t <= s && AllToken(t) && (|l| < |s| ==> !IsTokenChar(s[|l|]))
    ensures |t| <= |l|
  {
    hide IsTokenChar;
    assert forall i | 0 <= i < |t| :: s[i] == t[i];
  }

  /** A digit first, a token character last, and no digit after the leading token. */
  ghost predicate Citation(c: string) {
    && c != "" && IsDigit(c[0]) && IsTokenChar(c[|c| - 1])
    && forall i | |Lead(c)| <= i < |c| :: !IsDigit(c[i])
  }

  ghost predicate Good(e: Edit) {
    && Citation(e.was) && Citation(e.now)
    && (e.FullName? ==> |Lead(e.was)| < |e.was| && |Lead(e.now)| < |e.now|)
  }

  lemma DigitIsToken(c: char)
    ensures IsDigit(c) ==> IsTokenChar(c)
  {
  }

  lemma EndOfStem(rest: string, facetless: bool)
    ensures EndsStem(rest, facetless) ==> rest == "" || !IsTokenChar(rest[0])
  {
  }

  /** Where a citation fits, its leading token is the whole leading token of the text. */
  lemma FitLead(e: Edit, s: string, inToken: bool)
    requires Good(e) && Fits(e, s, inToken)
    ensures Lead(s) == Lead(e.was)
    ensures !e.FullName? ==> !inToken
  {
    hide IsTokenChar, IsDigit, EndsStem;
    var t := Lead(e.was);
    if !e.FullName? {
      EndOfStem(s[|e.was|..], e.FacetlessStem?);
    }
    if |t| < |e.was| {
      assert s[|t|] == e.was[|t|];
    } else if |t| < |s| {
      assert t == e.was;
      assert s[|t|] == s[|e.was|..][0];
    }
    LeadIs(s, t);
  }

  lemma FitStarts(e: Edit, s: string, inToken: bool)
    requires Good(e) && Fits(e, s, inToken)
    ensures s != "" && s[0] == e.was[0] && IsDigit(s[0])
  {
    hide IsTokenChar, IsDigit, EndsStem;
  }

  /** What may follow a new string that was put in. */
  predicate Stops(e: Edit, rest: string) {
    e.FullName? || rest == "" || !IsTokenChar(rest[0])
  }

  lemma LeadOfEnd(now: string, rest: string, k: nat)
    requires k < |Lead(now)|
    requires |Lead(now)| < |now| || rest == "" || !IsTokenChar(rest[0])
    ensures Lead(now[k..] + rest) == Lead(now)[k..]
  {
    hide IsTokenChar;
    var s, t := now[k..] + rest, Lead(now)[k..];
    forall i | 0 <= i < |t|
      ensures s[i] == t[i] && IsTokenChar(t[i])
    {
      assert t[i] == Lead(now)[k + i] == now[k + i];
    }
    assert t == s[..|t|];
    if |t| < |s| {
      if |Lead(now)| < |now| {
        assert s[|t|] == now[|Lead(now)|];
      } else {
        assert s[|t|] == rest[0];
      }
    }
    LeadIs(s, t);
  }

  // ----- one rewrite alone -----

  function Scan(e: Edit, s: string, inToken: bool): string
    requires e.was != ""
  {
    match e
    case FullName(was, now) => ReplaceAll(s, was, now)
    case BareStem(was, now) => SubStem(s, inToken, was, now, false)
    case FacetlessStem(was, now) => SubStem(s, inToken, was, now, true)
  }

  lemma ScanStep(e: Edit, s: string, inToken: bool)
    requires e.was != ""
    ensures Scan(e, "", inToken) == ""
    ensures s != "" ==>
            Scan(e, s, inToken)
            == if Fits(e, s, inToken) then e.now + Scan(e, s[|e.was|..], IsTokenChar(e.was[|e.was| - 1]))
               else [s[0]] + Scan(e, s[1..], IsTokenChar(s[0]))
  {
    hide EndsStem, IsTokenChar, ReplaceAll, SubStem;
    match e {
      case FullName(was, now) => ReplaceStep(s, was, now);
      case BareStem(was, now) => SubStep(s, inToken, was, now, false);
      case FacetlessStem(was, now) => SubStep(s, inToken, was, now, true);
    }
  }

  lemma RewriteScans(e: Edit, s: string)
    requires e.was != ""
    ensures Rewrite(s, e) == Scan(e, s, false)
  {
    hide ReplaceAll, SubStem;
  }

  // ----- two citations do not run into one another -----

  ghost predicate EndsInside(long: string, short: string) {
    |short| < |long| && EndsWith(long, short)
  }

  /** `x`, rewritten after `e` or with it, is neither made, cut nor hidden by rewriting `e`. */
  ghost predicate Clear(e: Edit, x: Edit) {
    && (Lead(x.was) == Lead(e.now) ==> x == e && e.was == e.now)
    && (x.FullName? ==> x == e && !EndsWith(Lead(e.now), Lead(x.was)))
    && (e.FullName? ==> !EndsInside(Lead(x.was), Lead(e.was)) && !EndsInside(Lead(x.was), Lead(e.now)))
  }

  ghost predicate AllGood(edits: seq<Edit>) {
    forall e | e in edits :: Good(e)
  }

  ghost predicate AllClear(e: Edit, rest: seq<Edit>) {
    forall x | x in rest :: Clear(e, x)
  }

  lemma GoodFacts(e: Edit)
    requires Good(e)
    ensures e.was != "" && e.now != "" && IsDigit(e.was[0]) && IsDigit(e.now[0])
    ensures IsTokenChar(e.was[|e.was| - 1]) && IsTokenChar(e.now[|e.now| - 1])
    ensures forall i | |Lead(e.was)| <= i < |e.was| :: !IsDigit(e.was[i])
    ensures forall i | |Lead(e.now)| <= i < |e.now| :: !IsDigit(e.now[i])
    ensures e.FullName? ==> |Lead(e.was)| < |e.was| && |Lead(e.now)| < |e.now|
    ensures 0 < |Lead(e.was)| && 0 < |Lead(e.now)|
  {
    hide EndsWith;
    DigitIsToken(e.was[0]);
    DigitIsToken(e.now[0]);
  }

  // ----- nothing fits inside a new string -----

  lemma NothingFitsAt(e: Edit, x: Edit, rest: string, k: nat)
    requires Good(e) && Good(x) && Clear(e, x) && Stops(e, rest) && 0 < k < |e.now|
    ensures !Fits(x, e.now[k..] + rest, IsTokenChar(e.now[k - 1]))
  {
    hide *;
    GoodFacts(e);
    var s := e.now[k..] + rest;
    if Fits(x, s, IsTokenChar(e.now[k - 1])) {
      FitStarts(x, s, IsTokenChar(e.now[k - 1]));
      assert s[0] == e.now[k];
      assert k < |Lead(e.now)|;
      FitLead(x, s, IsTokenChar(e.now[k - 1]));
      StopsIs(e, rest);
      LeadOfEnd(e.now, rest, k);
      LeadIsToken(e.now, k - 1);
      ClearFull(e, x);
      LeadIsEnd(e.now, k);
    }
  }

  lemma StopsIs(e: Edit, rest: string)
    ensures Stops(e, rest) <==> e.FullName? || rest == "" || !IsTokenChar(rest[0])
  {
  }

  lemma LeadIsToken(s: string, i: nat)
    requires i < |Lead(s)|
    ensures i < |s| && s[i] == Lead(s)[i] && IsTokenChar(s[i])
  {
    hide IsTokenChar;
    assert Lead(s) == s[..|Lead(s)|];
  }

  lemma LeadIsEnd(s: string, k: nat)
    requires k <= |Lead(s)|
    ensures EndsWith(Lead(s), Lead(s)[k..])
    ensures 0 < k ==> EndsInside(Lead(s), Lead(s)[k..])
  {
  }

  lemma ClearFull(e: Edit, x: Edit)
    requires Clear(e, x)
    ensures x.FullName? ==> x == e && !EndsWith(Lead(e.now), Lead(x.was))
    ensures e.FullName? ==> !EndsInside(Lead(x.was), Lead(e.was)) && !EndsInside(Lead(x.was), Lead(e.now))
    ensures Lead(x.was) == Lead(e.now) ==> x == e && e.was == e.now
  {
    hide EndsWith, Lead;
  }

  lemma RenamedStep(s: string, inToken: bool, edits: seq<Edit>)
    requires NoneEmpty(edits)
    ensures Renamed("", inToken, edits) == ""
    ensures s != "" && FirstFit(edits, s, inToken).None? ==>
              Renamed(s, inToken, edits) == [s[0]] + Renamed(s[1..], IsTokenChar(s[0]), edits)
    ensures s != "" && FirstFit(edits, s, inToken).Some? ==>
              var e := FirstFit(edits, s, inToken).value;
              e.was != "" && e.was <= s
              && Renamed(s, inToken, edits) == e.now + Renamed(s[|e.was|..], IsTokenChar(e.was[|e.was| - 1]), edits)
  {
    hide FirstFit, EndsStem, IsTokenChar;
  }

  lemma GoodIsNoneEmpty(edits: seq<Edit>)
    requires AllGood(edits)
    ensures NoneEmpty(edits)
  {
    hide Lead;
  }

  lemma CharAt(s: string, k: nat, rest: string, end: string)
    requires k < |s|
    ensures var t := s[k..] + rest; t != "" && t[0] == s[k] && t[1..] == s[k + 1..] + rest
    ensures [s[k]] + (s[k + 1..] + end) == s[k..] + end
  {
    assert s[k..] == [s[k]] + s[k + 1..];
    assert s[k..] + rest == [s[k]] + (s[k + 1..] + rest);
    assert s[k..] + end == [s[k]] + (s[k + 1..] + end);
  }

  lemma {:induction false} PassesInside(e: Edit, edits: seq<Edit>, rest: string, k: nat)
    requires Good(e) && AllGood(edits) && AllClear(e, edits) && Stops(e, rest) && 0 < k <= |e.now|
    ensures NoneEmpty(edits)
    ensures Renamed(e.now[k..] + rest, IsTokenChar(e.now[k - 1]), edits) == e.now[k..] + Renamed(rest, true, edits)
    decreases |e.now| - k
  {
    hide Renamed, FirstFit, Fits, Good, Clear, Stops, IsTokenChar;
    GoodIsNoneEmpty(edits);
    var s := e.now[k..] + rest;
    if k == |e.now| {
      GoodFacts(e);
      assert s == rest && e.now[k..] == "";
    } else {
      forall x | x in edits
        ensures !Fits(x, s, IsTokenChar(e.now[k - 1]))
      {
        NothingFitsAt(e, x, rest, k);
      }
      RenamedStep(s, IsTokenChar(e.now[k - 1]), edits);
      CharAt(e.now, k, rest, Renamed(rest, true, edits));
      FirstFitIsIn(edits, s, IsTokenChar(e.now[k - 1]));
      PassesInside(e, edits, rest, k + 1);
    }
  }

  lemma FromStart(w: string, b: string)
    ensures (w + b)[|w|..] == b
  {
  }

  lemma PassesFromStart(e: Edit, edits: seq<Edit>, rest: string, inToken: bool)
    requires Good(e) && AllGood(edits) && AllClear(e, edits) && Stops(e, rest)
    requires FirstFit(edits, e.now + rest, inToken).None?
    ensures NoneEmpty(edits) && Renamed(e.now + rest, inToken, edits) == e.now + Renamed(rest, true, edits)
  {
    hide *;
    GoodIsNoneEmpty(edits);
    GoodFacts(e);
    RenamedStep(e.now + rest, inToken, edits);
    PassesInside(e, edits, rest, 1);
    CharAt(e.now, 0, rest, Renamed(rest, true, edits));
    assert e.now[0..] == e.now;
  }

  /** Only an edit that changes nothing can fit at its own new string. */
  lemma FitsItself(e: Edit, x: Edit, rest: string, inToken: bool)
    requires Good(e) && Good(x) && Clear(e, x) && Stops(e, rest) && Fits(x, e.now + rest, inToken)
    ensures x == e && e.was == e.now
  {
    hide *;
    GoodFacts(e);
    FitLead(x, e.now + rest, inToken);
    StopsIs(e, rest);
    assert e.now[0..] == e.now && Lead(e.now)[0..] == Lead(e.now);
    LeadOfEnd(e.now, rest, 0);
    ClearFull(e, x);
  }

  lemma PutsItself(e: Edit, edits: seq<Edit>, rest: string, inToken: bool)
    requires Good(e) && AllGood(edits) && e.was == e.now && FirstFit(edits, e.now + rest, inToken) == Some(e)
    ensures NoneEmpty(edits) && Renamed(e.now + rest, inToken, edits) == e.now + Renamed(rest, true, edits)
  {
    hide *;
    GoodIsNoneEmpty(edits);
    GoodFacts(e);
    FromStart(e.now, rest);
    RenamedStep(e.now + rest, inToken, edits);
  }

  /** The pass goes over a new string and leaves it as it is. */
  lemma PassesOver(e: Edit, edits: seq<Edit>, rest: string, inToken: bool)
    requires Good(e) && AllGood(edits) && AllClear(e, edits) && Stops(e, rest)
    ensures NoneEmpty(edits)
    ensures Renamed(e.now + rest, inToken, edits) == e.now + Renamed(rest, true, edits)
  {
    hide *;
    var s := e.now + rest;
    if FirstFit(edits, s, inToken).None? {
      PassesFromStart(e, edits, rest, inToken);
    } else {
      var x := FirstFit(edits, s, inToken).value;
      FirstFitIsIn(edits, s, inToken);
      GoodAndClear(e, edits, x);
      FitsItself(e, x, rest, inToken);
      PutsItself(e, edits, rest, inToken);
    }
  }

  lemma FirstFitIsIn(edits: seq<Edit>, s: string, inToken: bool)
    ensures FirstFit(edits, s, inToken).Some? ==>
              FirstFit(edits, s, inToken).value in edits && Fits(FirstFit(edits, s, inToken).value, s, inToken)
    ensures FirstFit(edits, s, inToken).None? ==> forall e | e in edits :: !Fits(e, s, inToken)
  {
  }

  lemma GoodAndClear(e: Edit, edits: seq<Edit>, x: Edit)
    requires AllGood(edits) && AllClear(e, edits) && x in edits
    ensures Good(x) && Clear(e, x)
  {
  }

  // ----- a rewrite changes no other citation -----

  predicate Ends(x: Edit, rest: string) {
    match x
    case FullName(_, _) => true
    case BareStem(_, _) => EndsStem(rest, false)
    case FacetlessStem(_, _) => EndsStem(rest, true)
  }

  /** The rest of `x` from its `j`-th character is there. */
  predicate RestFits(x: Edit, j: nat, s: string)
    requires j <= |x.was|
  {
    x.was[j..] <= s && Ends(x, s[|x.was| - j..])
  }

  /** A word with no digit in it, not followed by a letter or digit, is there from its `j`-th character. */
  predicate WordRest(w: string, j: nat, s: string)
    requires j <= |w|
  {
    w[j..] <= s && (|s| == |w| - j || !IsAlnum(s[|w| - j]))
  }

  lemma WordRestStep(w: string, j: nat, c: char, s: string)
    requires j <= |w|
    ensures j == |w| ==> (WordRest(w, j, [c] + s) <==> !IsAlnum(c))
    ensures j < |w| ==> (WordRest(w, j, [c] + s) <==> w[j] == c && WordRest(w, j + 1, s))
  {
    hide IsAlnum;
    if j < |w| {
      assert w[j..] == [w[j]] + w[j + 1..];
      var t := [c] + s;
      if w[j..] <= t {
        assert w[j..] == t[..|w| - j];
        assert w[j + 1..] == w[j..][1..] == s[..|w| - j - 1];
      }
    } else {
      assert w[j..] == "";
    }
  }

  lemma NoWordAtDigit(w: string, j: nat, s: string)
    requires j <= |w| && s != "" && IsDigit(s[0]) && forall i | 0 <= i < |w| :: !IsDigit(w[i])
    ensures !WordRest(w, j, s)
  {
    hide *;
    DigitIsAlnum(s[0]);
    HeadAndRest(s);
    WordRestStep(w, j, s[0], s[1..]);
  }

  lemma HeadAndRest(s: string)
    requires s != ""
    ensures s == [s[0]] + s[1..]
  {
  }

  lemma {:induction false} WordStays(e: Edit, s: string, inToken: bool, w: string, j: nat)
    requires Good(e) && j <= |w| && (forall i | 0 <= i < |w| :: !IsDigit(w[i]))
    ensures e.was != "" && (WordRest(w, j, s) <==> WordRest(w, j, Scan(e, s, inToken)))
    decreases |s|
  {
    hide *;
    GoodFacts(e);
    ScanStep(e, s, inToken);
    if s != "" {
      if Fits(e, s, inToken) {
        FitStarts(e, s, inToken);
        FirstOfScan(e, s, inToken);
        NoWordAtDigit(w, j, s);
        NoWordAtDigit(w, j, Scan(e, s, inToken));
      } else {
        HeadAndRest(s);
        WordRestStep(w, j, s[0], s[1..]);
        WordRestStep(w, j, s[0], Scan(e, s[1..], IsTokenChar(s[0])));
        if j < |w| {
          WordStays(e, s[1..], IsTokenChar(s[0]), w, j + 1);
        }
      }
    }
  }

  /** Where `e` fits, the rewritten text starts with the new string. */
  lemma FirstOfScan(e: Edit, s: string, inToken: bool)
    requires Good(e) && Fits(e, s, inToken)
    ensures e.was != "" && |e.was| <= |s|
    ensures var r := Scan(e, s, inToken);
            && r == e.now + Scan(e, s[|e.was|..], IsTokenChar(e.was[|e.was| - 1]))
            && r != "" && IsDigit(r[0]) && IsDigit(s[0])
  {
    hide *;
    GoodFacts(e);
    FitStarts(e, s, inToken);
    FitsSplits(e, s, inToken);
    ScanStep(e, s, inToken);
  }

  lemma DigitIsAlnum(c: char)
    ensures IsDigit(c) ==> IsAlnum(c)
  {
  }

  lemma DottedIsRest(rest: string, word: string)
    ensures DottedWord(rest, word) <==> WordRest("." + word, 0, rest)
  {
    hide IsAlnum;
    assert ("." + word)[0..] == "." + word;
  }

  lemma DottedStays(e: Edit, s: string, inToken: bool, word: string)
    requires Good(e) && (forall i | 0 <= i < |word| :: !IsDigit(word[i]))
    ensures e.was != "" && (DottedWord(s, word) <==> DottedWord(Scan(e, s, inToken), word))
  {
    hide *;
    GoodFacts(e);
    DottedIsRest(s, word);
    DottedIsRest(Scan(e, s, inToken), word);
    NoDigitInDotted(word);
    WordStays(e, s, inToken, "." + word, 0);
  }

  lemma NoDigitInDotted(word: string)
    requires forall i | 0 <= i < |word| :: !IsDigit(word[i])
    ensures forall i | 0 <= i < |"." + word| :: !IsDigit(("." + word)[i])
  {
  }

  lemma FacetStays(e: Edit, s: string, inToken: bool)
    requires Good(e)
    ensures e.was != "" && (FacetFollows(s) <==> FacetFollows(Scan(e, s, inToken)))
  {
    hide DottedWord, Good, Scan;
    DottedStays(e, s, inToken, "ipd");
    DottedStays(e, s, inToken, "prompt");
    DottedStays(e, s, inToken, "spec");
    DottedStays(e, s, inToken, "walkthrough");
    DottedStays(e, s, inToken, "roadmap");
    DottedStays(e, s, inToken, "backlog");
    DottedStays(e, s, inToken, "comms");
    DottedStays(e, s, inToken, "release");
    DottedStays(e, s, inToken, "review");
    DottedStays(e, s, inToken, "other");
    DottedStays(e, s, inToken, "md");
  }

  /** The lookaheads of a stem see the same before and after a rewrite of what follows. */
  lemma EndsStays(x: Edit, e: Edit, s: string, inToken: bool)
    requires Good(e)
    ensures e.was != "" && (Ends(x, s) <==> Ends(x, Scan(e, s, inToken)))
  {
    hide *;
    GoodFacts(e);
    FacetStays(e, s, inToken);
    FirstStays(e, s, inToken);
    EndsIs(x, s);
    EndsIs(x, Scan(e, s, inToken));
  }

  lemma EndsIs(x: Edit, s: string)
    ensures Ends(x, s) <==> x.FullName? || ((s == "" || !IsTokenChar(s[0])) && (x.FacetlessStem? ==> !FacetFollows(s)))
  {
    hide FacetFollows, IsTokenChar;
  }

  lemma FirstStays(e: Edit, s: string, inToken: bool)
    requires Good(e)
    ensures e.was != ""
    ensures var r := Scan(e, s, inToken); (s == "" <==> r == "") && (s != "" ==> (IsTokenChar(s[0]) <==> IsTokenChar(r[0])))
    ensures s != "" && !IsTokenChar(s[0]) ==> Scan(e, s, inToken)[0] == s[0]
  {
    hide *;
    GoodFacts(e);
    ScanStep(e, s, inToken);
    if s != "" && Fits(e, s, inToken) {
      FitStarts(e, s, inToken);
      DigitIsToken(s[0]);
      DigitIsToken(e.now[0]);
    }
  }

  lemma RestFitsStep(x: Edit, j: nat, c: char, s: string)
    requires j <= |x.was|
    ensures j == |x.was| ==> (RestFits(x, j, [c] + s) <==> Ends(x, [c] + s))
    ensures j < |x.was| ==> (RestFits(x, j, [c] + s) <==> x.was[j] == c && RestFits(x, j + 1, s))
  {
    hide Ends;
    var w, t := x.was, [c] + s;
    if j < |w| {
      assert w[j..] == [w[j]] + w[j + 1..];
      if w[j..] <= t {
        assert w[j..] == t[..|w| - j];
        assert w[j + 1..] == w[j..][1..] == s[..|w| - j - 1];
      }
      if |w| - j <= |t| {
        assert t[|w| - j..] == s[|w| - j - 1..];
      }
    } else {
      assert w[j..] == "" && t[0..] == t;
    }
  }

  lemma RestFitsAll(x: Edit, s: string, inToken: bool)
    ensures Fits(x, s, inToken) <==> RestFits(x, 0, s) && (x.FullName? || !inToken)
  {
    hide EndsStem;
    assert x.was[0..] == x.was;
  }

  /** `x` from a token character on does not fit where `e`, a whole name, or what replaces it stands. */
  lemma NoNameInside(x: Edit, j: nat, c: string, s: string)
    requires Good(x) && 0 < j < |Lead(x.was)| && RestFits(x, j, c + s)
    requires |Lead(c)| < |c| && c != "" && IsDigit(c[0])
    ensures EndsInside(Lead(x.was), Lead(c))
  {
    hide *;
    var t := c + s;
    RestLead(x, j, t);
    assert c[0..] == c && Lead(c)[0..] == Lead(c);
    LeadNonEmpty(c);
    LeadOfEnd(c, s, 0);
    LeadIsEnd(x.was, j);
  }

  lemma LeadNonEmpty(c: string)
    requires c != "" && IsDigit(c[0])
    ensures 0 < |Lead(c)|
  {
    DigitIsToken(c[0]);
  }

  lemma RestLead(x: Edit, j: nat, t: string)
    requires Good(x) && j < |Lead(x.was)| && RestFits(x, j, t)
    ensures Lead(t) == Lead(x.was)[j..]
  {
    hide *;
    GoodFacts(x);
    RestFitsIs(x, j, t);
    var w, rest := x.was, t[|x.was| - j..];
    assert t == w[j..] + rest;
    EndsIs(x, rest);
    FullIsLonger(x);
    LeadOfEnd(w, rest, j);
  }

  lemma RestFitsIs(x: Edit, j: nat, t: string)
    requires j <= |x.was|
    ensures RestFits(x, j, t) <==> x.was[j..] <= t && Ends(x, t[|x.was| - j..])
  {
    hide Ends;
  }

  lemma FullIsLonger(x: Edit)
    requires Good(x)
    ensures x.FullName? ==> |Lead(x.was)| < |x.was|
  {
  }

  /** Past its leading token `x` needs no digit. */
  lemma NoRestAtDigit(x: Edit, j: nat, s: string)
    requires Good(x) && |Lead(x.was)| <= j < |x.was| && s != "" && IsDigit(s[0])
    ensures !RestFits(x, j, s)
  {
    hide *;
    GoodFacts(x);
    HeadAndRest(s);
    RestFitsStep(x, j, s[0], s[1..]);
  }

  lemma RestIsEnd(x: Edit, s: string)
    ensures RestFits(x, |x.was|, s) <==> Ends(x, s)
  {
    hide Ends;
    assert x.was[|x.was|..] == "" && s[0..] == s;
  }

  lemma RestStaysAtFit(x: Edit, j: nat, e: Edit, s: string, inToken: bool)
    requires Good(x) && Good(e) && Clear(e, x) && 0 < j <= |x.was| && inToken == IsTokenChar(x.was[j - 1]) && Fits(e, s, inToken)
    ensures e.was != "" && (RestFits(x, j, s) <==> RestFits(x, j, Scan(e, s, inToken)))
  {
    hide *;
    GoodFacts(e);
    FirstOfScan(e, s, inToken);
    if j == |x.was| {
      RestIsEnd(x, s);
      RestIsEnd(x, Scan(e, s, inToken));
      EndsStays(x, e, s, inToken);
    } else if j < |Lead(x.was)| {
      LeadIsToken(x.was, j - 1);
      FitLead(e, s, inToken);
      ClearFull(e, x);
      FitsSplits(e, s, inToken);
      NotInside(x, j, e.was, s[|e.was|..]);
      NotInside(x, j, e.now, Scan(e, s[|e.was|..], IsTokenChar(e.was[|e.was| - 1])));
    } else {
      NoRestAtDigit(x, j, s);
      NoRestAtDigit(x, j, Scan(e, s, inToken));
    }
  }

  /** Inside `x` no rewrite of `e` makes or takes away what `x` needs. */
  lemma {:induction false} RestStays(x: Edit, j: nat, e: Edit, s: string, inToken: bool)
    requires Good(x) && Good(e) && Clear(e, x) && 0 < j <= |x.was| && inToken == IsTokenChar(x.was[j - 1])
    ensures e.was != "" && (RestFits(x, j, s) <==> RestFits(x, j, Scan(e, s, inToken)))
    decreases |s|
  {
    hide *;
    GoodFacts(e);
    ScanStep(e, s, inToken);
    if s != "" {
      if Fits(e, s, inToken) {
        RestStaysAtFit(x, j, e, s, inToken);
      } else if j == |x.was| {
        RestIsEnd(x, s);
        RestIsEnd(x, Scan(e, s, inToken));
        EndsStays(x, e, s, inToken);
      } else {
        HeadAndRest(s);
        RestFitsStep(x, j, s[0], s[1..]);
        RestFitsStep(x, j, s[0], Scan(e, s[1..], IsTokenChar(s[0])));
        if x.was[j] == s[0] {
          RestStays(x, j + 1, e, s[1..], IsTokenChar(s[0]));
        }
      }
    }
  }

  lemma FitsSplits(e: Edit, s: string, inToken: bool)
    requires Fits(e, s, inToken)
    ensures |e.was| <= |s| && s == e.was + s[|e.was|..]
  {
  }

  lemma NotInside(x: Edit, j: nat, c: string, s: string)
    requires Good(x) && 0 < j < |Lead(x.was)| && |Lead(c)| < |c| && IsDigit(c[0])
    requires !EndsInside(Lead(x.was), Lead(c))
    ensures !RestFits(x, j, c + s)
  {
    hide *;
    if RestFits(x, j, c + s) {
      NoNameInside(x, j, c, s);
    }
  }

  /** Where `e` does not start, what starts there before its rewrite and after is the same. */
  lemma SameFits(x: Edit, e: Edit, s: string, inToken: bool)
    requires Good(x) && Good(e) && Clear(e, x) && !Fits(e, s, inToken)
    ensures e.was != "" && (Fits(x, s, inToken) <==> Fits(x, Scan(e, s, inToken), inToken))
  {
    hide *;
    GoodFacts(e);
    GoodFacts(x);
    ScanStep(e, s, inToken);
    RestFitsAll(x, s, inToken);
    RestFitsAll(x, Scan(e, s, inToken), inToken);
    if s != "" {
      var r := Scan(e, s[1..], IsTokenChar(s[0]));
      assert s == [s[0]] + s[1..];
      RestFitsStep(x, 0, s[0], s[1..]);
      RestFitsStep(x, 0, s[0], r);
      if x.was[0] == s[0] {
        RestStays(x, 1, e, s[1..], IsTokenChar(s[0]));
      }
    }
  }

  lemma {:induction false} SameFirst(edits: seq<Edit>, s: string, t: string, inToken: bool)
    requires forall x | x in edits :: Fits(x, s, inToken) <==> Fits(x, t, inToken)
    ensures FirstFit(edits, s, inToken) == FirstFit(edits, t, inToken)
  {
    hide Fits;
    if edits != [] {
      assert edits[0] in edits && forall x | x in edits[1..] :: x in edits;
      SameFirst(edits[1..], s, t, inToken);
    }
  }

  // ----- a citation is not cut by another -----

  /** `e` does not start inside a citation `x` that fits. */
  lemma NotCut(x: Edit, e: Edit, s: string, inToken: bool, k: nat)
    requires Good(x) && Good(e) && Clear(e, x) && Fits(x, s, inToken) && 0 < k < |x.was|
    ensures k <= |s| && !Fits(e, s[k..], IsTokenChar(x.was[k - 1]))
  {
    hide *;
    GoodFacts(e);
    GoodFacts(x);
    FitsSplits(x, s, inToken);
    assert s[k..] == x.was[k..] + s[|x.was|..];
    assert s[k] == x.was[k];
    if Fits(e, s[k..], IsTokenChar(x.was[k - 1])) {
      FitStarts(e, s[k..], IsTokenChar(x.was[k - 1]));
      assert k < |Lead(x.was)|;
      LeadIsToken(x.was, k - 1);
      FitLead(e, s[k..], IsTokenChar(x.was[k - 1]));
      RestOfFit(x, s, inToken, k);
      RestLead(x, k, s[k..]);
      LeadIsEnd(x.was, k);
      ClearFull(e, x);
    }
  }

  lemma RestOfFit(x: Edit, s: string, inToken: bool, k: nat)
    requires Fits(x, s, inToken) && k <= |x.was|
    ensures k <= |s| && RestFits(x, k, s[k..])
  {
    hide EndsStem;
    assert x.was[k..] <= s[k..];
    assert s[k..][|x.was| - k..] == s[|x.was|..];
  }

  lemma CharOfBoth(w: string, s: string, k: nat, end: string)
    requires w <= s && k < |w|
    ensures s[k..] != "" && s[k..][0] == w[k] && s[k..][1..] == s[k + 1..]
    ensures [w[k]] + (w[k + 1..] + end) == w[k..] + end
  {
    CharAt(w, k, "", end);
    assert s[k..][1..] == s[k + 1..];
  }

  lemma {:induction false} KeptFrom(x: Edit, e: Edit, s: string, inToken: bool, k: nat)
    requires Good(x) && Good(e) && Clear(e, x) && Fits(x, s, inToken) && 0 < k <= |x.was|
    ensures e.was != "" && |x.was| <= |s|
    ensures Scan(e, s[k..], IsTokenChar(x.was[k - 1])) == x.was[k..] + Scan(e, s[|x.was|..], true)
    decreases |x.was| - k
  {
    hide *;
    GoodFacts(e);
    GoodFacts(x);
    FitsSplits(x, s, inToken);
    if k == |x.was| {
      assert x.was[k..] == "";
    } else {
      NotCut(x, e, s, inToken, k);
      ScanStep(e, s[k..], IsTokenChar(x.was[k - 1]));
      CharOfBoth(x.was, s, k, Scan(e, s[|x.was|..], true));
      KeptFrom(x, e, s, inToken, k + 1);
    }
  }

  /** A rewrite of `e` keeps a citation `x` that it does not start at. */
  lemma KeepsOther(x: Edit, e: Edit, s: string, inToken: bool)
    requires Good(x) && Good(e) && Clear(e, x) && Fits(x, s, inToken) && !Fits(e, s, inToken)
    ensures e.was != "" && |x.was| <= |s|
    ensures Scan(e, s, inToken) == x.was + Scan(e, s[|x.was|..], true)
  {
    hide *;
    GoodFacts(e);
    GoodFacts(x);
    FitsSplits(x, s, inToken);
    ScanStep(e, s, inToken);
    KeptFrom(x, e, s, inToken, 1);
    assert s[0] == x.was[0] && x.was == [x.was[0]] + x.was[1..];
  }

  // ----- a run of rewrites is one pass -----

  lemma MoreGood(e: Edit, rest: seq<Edit>)
    requires Good(e) && AllGood(rest)
    ensures AllGood([e] + rest)
  {
    hide Good;
  }

  lemma FirstOfMore(e: Edit, rest: seq<Edit>, s: string, inToken: bool)
    ensures FirstFit([e] + rest, s, inToken) == if Fits(e, s, inToken) then Some(e) else FirstFit(rest, s, inToken)
  {
    hide Fits;
    assert ([e] + rest)[1..] == rest;
  }

  lemma StopsAfter(e: Edit, s: string, inToken: bool)
    requires Good(e) && Fits(e, s, inToken)
    ensures e.was != "" && |e.was| <= |s| && Stops(e, Scan(e, s[|e.was|..], true))
  {
    hide *;
    GoodFacts(e);
    FitsSplits(e, s, inToken);
    FitsEnds(e, s, inToken);
    EndsIs(e, s[|e.was|..]);
    FirstStays(e, s[|e.was|..], true);
    StopsIs(e, Scan(e, s[|e.was|..], true));
  }

  lemma FitsEnds(e: Edit, s: string, inToken: bool)
    requires Fits(e, s, inToken)
    ensures Ends(e, s[|e.was|..])
  {
    hide EndsStem;
  }

  lemma {:induction false} OneMore(s: string, inToken: bool, e: Edit, rest: seq<Edit>)
    requires Good(e) && AllGood(rest) && AllClear(e, rest)
    ensures e.was != "" && NoneEmpty([e] + rest) && NoneEmpty(rest)
    ensures Renamed(s, inToken, [e] + rest) == Renamed(Scan(e, s, inToken), inToken, rest)
    decreases |s|
  {
    hide *;
    GoodFacts(e);
    MoreGood(e, rest);
    GoodIsNoneEmpty(rest);
    GoodIsNoneEmpty([e] + rest);
    ScanStep(e, s, inToken);
    RenamedStep(s, inToken, [e] + rest);
    var r := Scan(e, s, inToken);
    RenamedStep(r, inToken, rest);
    if s != "" {
      FirstOfMore(e, rest, s, inToken);
      if Fits(e, s, inToken) {
        FitsSplits(e, s, inToken);
        OneMore(s[|e.was|..], true, e, rest);
        StopsAfter(e, s, inToken);
        PassesOver(e, rest, Scan(e, s[|e.was|..], true), inToken);
      } else {
        forall x | x in rest
          ensures Fits(x, s, inToken) <==> Fits(x, r, inToken)
        {
          GoodAndClear(e, rest, x);
          SameFits(x, e, s, inToken);
        }
        SameFirst(rest, s, r, inToken);
        match FirstFit(rest, s, inToken) {
          case None =>
            OneMore(s[1..], IsTokenChar(s[0]), e, rest);
            FirstStays(e, s, inToken);
            assert r[1..] == Scan(e, s[1..], IsTokenChar(s[0]));
          case Some(x) =>
            FirstFitIsIn(rest, s, inToken);
            GoodAndClear(e, rest, x);
            GoodFacts(x);
            FitsSplits(x, s, inToken);
            KeepsOther(x, e, s, inToken);
            FirstStays(e, s, inToken);
            assert r[|x.was|..] == Scan(e, s[|x.was|..], true);
            OneMore(s[|x.was|..], true, e, rest);
        }
      }
    }
  }

  ghost predicate PairwiseClear(edits: seq<Edit>) {
    forall i, j | 0 <= i < j < |edits| :: Clear(edits[i], edits[j])
  }

  lemma {:induction false} NothingToRename(s: string, inToken: bool)
    ensures Renamed(s, inToken, []) == s
    decreases |s|
  {
    if s != "" {
      NothingToRename(s[1..], IsTokenChar(s[0]));
      assert s == [s[0]] + s[1..];
    }
  }

  /** Rewriting one citation after the other over the whole text is one pass that looks for all of them. */
  lemma {:induction false} RewritesAreOnePass(s: string, edits: seq<Edit>)
    requires AllDated(edits) && AllGood(edits) && PairwiseClear(edits)
    ensures NoneEmpty(edits) && RewriteAll(s, edits) == Renamed(s, false, edits)
    decreases |edits|
  {
    hide Rewrite, Renamed, Good, Clear, Scan;
    GoodIsNoneEmpty(edits);
    if edits == [] {
      NothingToRename(s, false);
    } else {
      var e, rest := edits[0], edits[1..];
      assert edits == [e] + rest && Dated(e);
      assert AllClear(e, rest) by {
        forall x | x in rest
          ensures Clear(e, x)
        {
          var j :| 0 <= j < |rest| && rest[j] == x;
          assert edits[j + 1] == x;
        }
      }
      RewriteScans(e, s);
      OneMore(s, false, e, rest);
      RewritesAreOnePass(Rewrite(s, e), rest);
    }
  }
}
