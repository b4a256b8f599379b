/** What one pass makes of a text that holds whole names, and which plans make the same pass. */
module NamePlaces {
  import opened Wrappers
  import opened Text
  import opened Rewriting
  import opened Citations
  import opened OnePass

  // ----- what a whole name becomes -----

  /** `w` fits nowhere in `a + w + b` before the place after `a`. */
  ghost predicate FirstAt(a: string, w: string, b: string) {
    forall p | 0 <= p < |a| :: !(w <= (a + w + b)[p..])
  }

  lemma FirstAtFrom(a: string, w: string, b: string, k: nat)
    requires FirstAt(a, w, b) && k <= |a|
    ensures FirstAt(a[k..], w, b) && (a + w + b)[k..] == a[k..] + w + b
  {
    var s := a + w + b;
    assert s[k..] == a[k..] + w + b;
    forall p | 0 <= p < |a[k..]|
      ensures !(w <= (a[k..] + w + b)[p..])
    {
      assert s[k..][p..] == s[k + p..];
    }
  }

  /** Nothing but `e` is cited in `a`. */
  ghost predicate NoOther(edits: seq<Edit>, e: Edit, a: string) {
    forall x | x in edits && x != e :: !Occurs(x.was, a)
  }

  lemma NoOtherFrom(edits: seq<Edit>, e: Edit, a: string, k: nat)
    requires NoOther(edits, e, a) && k <= |a|
    ensures NoOther(edits, e, a[k..])
  {
    hide Occurs;
    forall x | x in edits && x != e
      ensures !Occurs(x.was, a[k..])
    {
      NoOccurrenceIn(x.was, a, k);
    }
  }

  predicate AtBoundary(a: string) {
    a == "" || !IsTokenChar(a[|a| - 1])
  }

  lemma AtBoundaryFrom(a: string, k: nat)
    requires AtBoundary(a) && k <= |a|
    ensures AtBoundary(a[k..])
  {
    hide IsTokenChar;
  }

  lemma PrefixShort(w: string, a: string, t: string)
    requires |w| <= |a|
    ensures w <= a + t <==> w <= a
  {
    assert (a + t)[..|w|] == a[..|w|];
  }

  lemma PrefixWhole(w: string, s: string)
    requires |w| <= |s|
    ensures |w| == |s| && w <= s ==> w == s
  {
  }

  lemma AcrossMeans(w: string, a: string, t: string)
    requires w <= a + t && !(w <= a) && a != "" && t != ""
    ensures |a| < |w| && w[|a|] == t[0] && w[|a| - 1] == a[|a| - 1]
  {
    if |w| <= |a| {
      PrefixShort(w, a, t);
    }
    assert w[|a|] == (a + t)[|a|] && w[|a| - 1] == (a + t)[|a| - 1];
  }

  lemma WordAtBoundary(rest: string, t: string, word: string)
    requires rest != "" && !IsTokenChar(rest[|rest| - 1]) && t != "" && IsDigit(t[0])
    requires word != "" && forall i | 0 <= i < |word| :: IsTokenChar(word[i]) && !IsDigit(word[i])
    ensures DottedWord(rest + t, word) <==> DottedWord(rest, word)
  {
    hide IsAlnum, IsTokenChar, IsDigit;
    var w := "." + word;
    assert forall i | 0 < i < |w| :: w[i] == word[i - 1];
    if |w| <= |rest| {
      PrefixShort(w, rest, t);
      PrefixWhole(w, rest);
    } else if w <= rest + t {
      AcrossMeans(w, rest, t);
    }
  }

  lemma FacetAtBoundary(rest: string, t: string)
    requires rest != "" && !IsTokenChar(rest[|rest| - 1]) && t != "" && IsDigit(t[0])
    ensures FacetFollows(rest + t) <==> FacetFollows(rest)
  {
    hide DottedWord;
    WordAtBoundary(rest, t, "ipd");
    WordAtBoundary(rest, t, "prompt");
    WordAtBoundary(rest, t, "spec");
    WordAtBoundary(rest, t, "walkthrough");
    WordAtBoundary(rest, t, "roadmap");
    WordAtBoundary(rest, t, "backlog");
    WordAtBoundary(rest, t, "comms");
    WordAtBoundary(rest, t, "release");
    WordAtBoundary(rest, t, "review");
    WordAtBoundary(rest, t, "other");
    WordAtBoundary(rest, t, "md");
  }

  lemma EndsAtBoundaryToo(x: Edit, rest: string, t: string)
    requires rest != "" && !IsTokenChar(rest[|rest| - 1]) && t != "" && IsDigit(t[0])
    ensures Ends(x, rest + t) <==> Ends(x, rest)
  {
    hide *;
    FacetAtBoundary(rest, t);
    EndsIs(x, rest);
    EndsIs(x, rest + t);
  }

  lemma FitsIs(x: Edit, s: string, inToken: bool)
    ensures Fits(x, s, inToken) <==> x.was <= s && Ends(x, s[|x.was|..]) && (x.FullName? || !inToken)
  {
    hide EndsStem;
  }

  /** A citation never crosses a character outside tokens and goes on with a digit. */
  lemma FitsAtBoundary(x: Edit, a: string, t: string, inToken: bool)
    requires Good(x) && a != "" && AtBoundary(a) && t != "" && IsDigit(t[0])
    ensures Fits(x, a + t, inToken) <==> Fits(x, a, inToken)
  {
    hide *;
    GoodFacts(x);
    FitsIs(x, a, inToken);
    FitsIs(x, a + t, inToken);
    BoundaryIs(a);
    var w := x.was;
    if w <= a {
      NotTheWhole(w, a);
      assert (a + t)[..|w|] == a[..|w|];
      assert (a + t)[|w|..] == a[|w|..] + t;
      EndsAtBoundaryToo(x, a[|w|..], t);
    } else if w <= a + t {
      NotAcross(w, a, t);
    }
  }

  lemma BoundaryIs(a: string)
    ensures AtBoundary(a) <==> a == "" || !IsTokenChar(a[|a| - 1])
  {
    hide IsTokenChar;
  }

  lemma NotTheWhole(w: string, a: string)
    requires w <= a && w != "" && IsTokenChar(w[|w| - 1]) && a != "" && !IsTokenChar(a[|a| - 1])
    ensures |w| < |a|
  {
    hide IsTokenChar;
  }

  lemma NotAcross(w: string, a: string, t: string)
    requires a != "" && !IsTokenChar(a[|a| - 1]) && t != "" && IsDigit(t[0]) && !(w <= a)
    requires forall i | |Lead(w)| <= i < |w| :: !IsDigit(w[i])
    ensures !(w <= a + t)
  {
    hide *;
    if w <= a + t {
      AcrossMeans(w, a, t);
      LeadIsToken(w, |a| - 1);
    }
  }

  lemma FirstIsFull(edits: seq<Edit>, s: string, inToken: bool)
    requires edits != [] && Fits(edits[0], s, inToken)
    ensures FirstFit(edits, s, inToken) == Some(edits[0])
  {
    hide Fits;
  }

  lemma FullFits(e: Edit, s: string, inToken: bool)
    requires e.FullName?
    ensures Fits(e, s, inToken) <==> e.was <= s
  {
  }

  ghost predicate NameFirst(edits: seq<Edit>) {
    edits != [] && edits[0].FullName? && AllGood(edits) && AllClear(edits[0], edits)
  }

  lemma HasName(edits: seq<Edit>)
    requires NameFirst(edits)
    ensures edits != [] && edits[0].FullName? && NoneEmpty(edits) && AllGood(edits) && Good(edits[0])
  {
    hide Good;
    GoodIsNoneEmpty(edits);
  }

  lemma NameFirstIs(edits: seq<Edit>, x: Edit)
    requires NameFirst(edits) && x in edits
    ensures edits != [] && edits[0].FullName? && NoneEmpty(edits) && AllGood(edits) && Good(edits[0]) && Good(x) && Clear(edits[0], x)
    ensures x.FullName? ==> x == edits[0]
  {
    hide Good;
    ClearFull(edits[0], x);
    GoodIsNoneEmpty(edits);
  }

  /** A citation that fits before the first place of the name ends before it. */
  lemma EndsBefore(edits: seq<Edit>, x: Edit, a: string, b: string, inToken: bool)
    requires NameFirst(edits) && x in edits && a != "" && x != edits[0]
    requires Fits(x, a + edits[0].was + b, inToken)
    ensures |x.was| <= |a| && x.was <= a && Occurs(x.was, a)
  {
    hide *;
    NameFirstIs(edits, x);
    var e := edits[0];
    var s := a + e.was + b;
    FitsSplits(x, s, inToken);
    if |a| < |x.was| {
      assert s[|a|..] == e.was + b;
      FullFits(e, s[|a|..], IsTokenChar(x.was[|a| - 1]));
      NotCut(x, e, s, inToken, |a|);
    }
    assert x.was == s[..|x.was|] == a[..|x.was|];
    PrefixOccurs(x.was, a);
  }

  lemma PrefixOccurs(w: string, s: string)
    requires w <= s
    ensures Occurs(w, s)
  {
  }

  lemma NotOther(edits: seq<Edit>, e: Edit, x: Edit, a: string)
    requires NoOther(edits, e, a) && x in edits && x != e
    ensures !Occurs(x.was, a)
  {
    hide Occurs;
  }

  /** `head` stands for the text `a` before the first place of the name. */
  ghost predicate HeadIs(a: string, b: string, inToken: bool, edits: seq<Edit>, head: string)
    requires edits != [] && NoneEmpty(edits)
  {
    && Renamed(a + edits[0].was + b, inToken, edits) == head + edits[0].now + Renamed(b, true, edits)
    && (NoOther(edits, edits[0], a) ==> head == a)
    && (AtBoundary(a) ==> head == Renamed(a, inToken, edits))
  }

  lemma EmptyFront(w: string, b: string)
    ensures "" + w + b == w + b
  {
    assert "" + w == w;
  }

  lemma EmptyHead(b: string, inToken: bool, edits: seq<Edit>)
    requires NameFirst(edits)
    ensures edits != [] && NoneEmpty(edits) && HeadIs("", b, inToken, edits, "")
  {
    hide *;
    HasName(edits);
    var e := edits[0];
    GoodFacts(e);
    var s := e.was + b;
    FullFits(e, s, inToken);
    FirstIsFull(edits, s, inToken);
    RenamedStep(s, inToken, edits);
    RenamedStep("", inToken, edits);
    FromStart(e.was, b);
    EmptyFront(e.was, b);
    EmptyFront(e.now, Renamed(b, true, edits));
    HeadMeans("", b, inToken, edits, "");
  }

  lemma HeadMeans(a: string, b: string, inToken: bool, edits: seq<Edit>, head: string)
    requires edits != [] && NoneEmpty(edits)
    ensures HeadIs(a, b, inToken, edits, head) <==>
              && Renamed(a + edits[0].was + b, inToken, edits) == head + edits[0].now + Renamed(b, true, edits)
              && (NoOther(edits, edits[0], a) ==> head == a)
              && (AtBoundary(a) ==> head == Renamed(a, inToken, edits))
  {
    hide Renamed, NoOther, AtBoundary;
  }

  lemma PlainHead(a: string, b: string, inToken: bool, edits: seq<Edit>, more: string)
    requires NameFirst(edits) && a != "" && NoneEmpty(edits) && edits != []
    requires FirstFit(edits, a + edits[0].was + b, inToken).None?
    requires HeadIs(a[1..], b, IsTokenChar(a[0]), edits, more)
    ensures HeadIs(a, b, inToken, edits, [a[0]] + more)
  {
    hide *;
    var e := edits[0];
    var s := a + e.was + b;
    var tail := Renamed(b, true, edits);
    RenamedStep(s, inToken, edits);
    RenamedStep(a, inToken, edits);
    HeadMeans(a[1..], b, IsTokenChar(a[0]), edits, more);
    HeadMeans(a, b, inToken, edits, [a[0]] + more);
    KeepsFrom(edits, e, a, 1);
    if AtBoundary(a) {
      SameBefore(edits, a, b, inToken);
    }
    assert s[0] == a[0] && s[1..] == a[1..] + e.was + b && [a[0]] + a[1..] == a;
    Regroup([a[0]], more, e.now, tail);
  }

  lemma CitedHead(a: string, b: string, inToken: bool, edits: seq<Edit>, x: Edit, more: string)
    requires NameFirst(edits) && a != "" && NoneEmpty(edits) && edits != []
    requires FirstFit(edits, a + edits[0].was + b, inToken) == Some(x) && x != edits[0]
    requires |x.was| <= |a| && HeadIs(a[|x.was|..], b, true, edits, more)
    ensures HeadIs(a, b, inToken, edits, x.now + more)
  {
    hide *;
    var e := edits[0];
    var s := a + e.was + b;
    var tail := Renamed(b, true, edits);
    FirstFitIsIn(edits, s, inToken);
    EndsBefore(edits, x, a, b, inToken);
    NameFirstIs(edits, x);
    GoodFacts(x);
    RenamedStep(s, inToken, edits);
    RenamedStep(a, inToken, edits);
    HeadMeans(a[|x.was|..], b, true, edits, more);
    HeadMeans(a, b, inToken, edits, x.now + more);
    KeepsFrom(edits, e, a, |x.was|);
    if AtBoundary(a) {
      SameBefore(edits, a, b, inToken);
    }
    if NoOther(edits, e, a) {
      NotOther(edits, e, x, a);
    }
    assert s[|x.was|..] == a[|x.was|..] + e.was + b;
    Regroup(x.now, more, e.now, tail);
  }

  /** At the first place of the old name the new one stands once, and the rest of the text is read on its own.
      Text before it that holds no other citation stays, and text that ends at a boundary is read on its own. */
  lemma {:induction false} NameBecomesNew(a: string, b: string, inToken: bool, edits: seq<Edit>) returns (head: string)
    requires NameFirst(edits) && FirstAt(a, edits[0].was, b)
    ensures NoneEmpty(edits) && HeadIs(a, b, inToken, edits, head)
    decreases |a|
  {
    hide *;
    HasName(edits);
    var e := edits[0];
    var s := a + e.was + b;
    if a == "" {
      head := "";
      EmptyHead(b, inToken, edits);
    } else {
      FirstAtStart(a, e.was, b);
      FullFits(e, s, inToken);
      FirstFitIsIn(edits, s, inToken);
      match FirstFit(edits, s, inToken) {
        case None =>
          FirstAtFrom(a, e.was, b, 1);
          var more := NameBecomesNew(a[1..], b, IsTokenChar(a[0]), edits);
          PlainHead(a, b, inToken, edits, more);
          head := [a[0]] + more;
        case Some(x) =>
          EndsBefore(edits, x, a, b, inToken);
          FirstAtFrom(a, e.was, b, |x.was|);
          NameFirstIs(edits, x);
          GoodFacts(x);
          var more := NameBecomesNew(a[|x.was|..], b, true, edits);
          CitedHead(a, b, inToken, edits, x, more);
          head := x.now + more;
      }
    }
  }

  lemma KeepsFrom(edits: seq<Edit>, e: Edit, a: string, k: nat)
    requires k <= |a|
    ensures NoOther(edits, e, a) ==> NoOther(edits, e, a[k..])
    ensures AtBoundary(a) ==> AtBoundary(a[k..])
  {
    hide *;
    if NoOther(edits, e, a) {
      NoOtherFrom(edits, e, a, k);
    }
    if AtBoundary(a) {
      AtBoundaryFrom(a, k);
    }
  }

  lemma FirstAtStart(a: string, w: string, b: string)
    requires FirstAt(a, w, b) && a != ""
    ensures !(w <= a + w + b)
  {
    assert (a + w + b)[0..] == a + w + b;
  }

  lemma SameBefore(edits: seq<Edit>, a: string, b: string, inToken: bool)
    requires NameFirst(edits) && a != "" && AtBoundary(a)
    ensures FirstFit(edits, a + edits[0].was + b, inToken) == FirstFit(edits, a, inToken)
  {
    hide *;
    HasName(edits);
    var t := edits[0].was + b;
    GoodFacts(edits[0]);
    assert a + edits[0].was + b == a + t;
    SameApart(edits, a, t, inToken);
  }

  // ----- every place of a name -----

  function Join(parts: seq<string>, between: string): string
    requires parts != []
  {
    if |parts| == 1 then parts[0] else parts[0] + between + Join(parts[1..], between)
  }

  /** The places of `w` are the leftmost ones that do not overlap. */
  ghost predicate Leftmost(parts: seq<string>, w: string)
    requires parts != []
  {
    if |parts| == 1 then !Occurs(w, parts[0]) else FirstAt(parts[0], w, Join(parts[1..], w)) && Leftmost(parts[1..], w)
  }

  /** What may stand for a part of the old text between two names. */
  ghost predicate ReadAs(edits: seq<Edit>, part: string, inToken: bool, last: bool, turned: string)
    requires NameFirst(edits)
  {
    HasName(edits);
    && (NoOther(edits, edits[0], part) ==> turned == part)
    && (last || AtBoundary(part) ==> turned == Renamed(part, inToken, edits))
  }

  ghost predicate AllReadAs(edits: seq<Edit>, parts: seq<string>, inToken: bool, turned: seq<string>)
    requires NameFirst(edits)
  {
    |turned| == |parts| && forall i | 0 <= i < |parts| :: ReadAs(edits, parts[i], inToken || i > 0, i == |parts| - 1, turned[i])
  }

  lemma {:induction false} FirstPlace(w: string, s: string) returns (a: string, b: string)
    requires Occurs(w, s)
    ensures s == a + w + b && FirstAt(a, w, b)
    decreases |s|
  {
    hide FirstAt;
    if w <= s {
      a, b := "", s[|w|..];
      EmptyIsFirst(w, b);
    } else {
      a, b := FirstPlace(w, s[1..]);
      assert s == [s[0]] + s[1..];
      FirstAtMore(s[0], a, w, b);
      a := [s[0]] + a;
    }
  }

  lemma EmptyIsFirst(w: string, b: string)
    ensures FirstAt("", w, b)
  {
  }

  lemma FirstAtMore(c: char, a: string, w: string, b: string)
    requires FirstAt(a, w, b) && !(w <= [c] + (a + w + b))
    ensures FirstAt([c] + a, w, b)
  {
    var s := [c] + a + w + b;
    assert s == [c] + (a + w + b);
    forall p | 0 <= p < |[c] + a|
      ensures !(w <= s[p..])
    {
      if p > 0 {
        assert s[p..] == (a + w + b)[p - 1..];
      } else {
        assert s[0..] == s;
      }
    }
  }

  lemma {:induction false} NothingCited(s: string, inToken: bool, edits: seq<Edit>)
    requires NoneEmpty(edits) && forall x | x in edits :: !Occurs(x.was, s)
    ensures Renamed(s, inToken, edits) == s
    decreases |s|
  {
    hide *;
    RenamedStep(s, inToken, edits);
    if s != "" {
      FirstFitIsIn(edits, s, inToken);
      match FirstFit(edits, s, inToken) {
        case Some(x) =>
          FitsSplits(x, s, inToken);
          PrefixOccurs(x.was, s);
        case None =>
          forall x | x in edits
            ensures !Occurs(x.was, s[1..])
          {
            NoOccurrenceIn(x.was, s, 1);
          }
          NothingCited(s[1..], IsTokenChar(s[0]), edits);
          assert s == [s[0]] + s[1..];
      }
    }
  }

  lemma LastPart(s: string, inToken: bool, edits: seq<Edit>)
    requires NameFirst(edits) && !Occurs(edits[0].was, s)
    ensures NoneEmpty(edits) && ReadAs(edits, s, inToken, true, Renamed(s, inToken, edits))
  {
    hide Renamed, Occurs, Good, Clear, NameFirst;
    HasName(edits);
    if NoOther(edits, edits[0], s) {
      forall x | x in edits
        ensures !Occurs(x.was, s)
      {
        if x != edits[0] {
          NotOther(edits, edits[0], x, s);
        }
      }
      NothingCited(s, inToken, edits);
    }
  }

  lemma MoreParts(edits: seq<Edit>, part: string, head: string, inToken: bool, parts: seq<string>, turned: seq<string>)
    requires NameFirst(edits) && parts != [] && AllReadAs(edits, parts, true, turned) && ReadAs(edits, part, inToken, false, head)
    ensures AllReadAs(edits, [part] + parts, inToken, [head] + turned)
  {
    hide ReadAs, NameFirst;
    var all, heads := [part] + parts, [head] + turned;
    forall i | 0 <= i < |all|
      ensures ReadAs(edits, all[i], inToken || i > 0, i == |all| - 1, heads[i])
    {
      if i > 0 {
        assert all[i] == parts[i - 1] && heads[i] == turned[i - 1];
      }
    }
  }

  lemma PartIs(edits: seq<Edit>, part: string, inToken: bool, head: string)
    requires NameFirst(edits) && NoneEmpty(edits)
    requires NoOther(edits, edits[0], part) ==> head == part
    requires AtBoundary(part) ==> head == Renamed(part, inToken, edits)
    ensures ReadAs(edits, part, inToken, false, head)
  {
    hide Renamed, NoOther, AtBoundary, NameFirst;
  }

  lemma JoinMore(part: string, parts: seq<string>, between: string)
    requires parts != []
    ensures Join([part] + parts, between) == part + between + Join(parts, between)
    ensures FirstAt(part, between, Join(parts, between)) && Leftmost(parts, between) ==> Leftmost([part] + parts, between)
  {
    hide Occurs, FirstAt;
    assert ([part] + parts)[1..] == parts;
  }

  lemma JoinOne(part: string, between: string)
    ensures Join([part], between) == part && (!Occurs(between, part) ==> Leftmost([part], between))
  {
  }

  /** Cut at the leftmost places of the old name, the pass puts exactly the new name between the parts. */
  lemma {:induction false} NamesBecomeNew(s: string, inToken: bool, edits: seq<Edit>) returns (parts: seq<string>, turned: seq<string>)
    requires NameFirst(edits)
    ensures NoneEmpty(edits) && parts != [] && AllReadAs(edits, parts, inToken, turned)
    ensures s == Join(parts, edits[0].was) && Leftmost(parts, edits[0].was)
    ensures Renamed(s, inToken, edits) == Join(turned, edits[0].now)
    decreases |s|
  {
    hide *;
    HasName(edits);
    var e := edits[0];
    GoodFacts(e);
    if Occurs(e.was, s) {
      var a, b := FirstPlace(e.was, s);
      var head := NameBecomesNew(a, b, inToken, edits);
      HeadMeans(a, b, inToken, edits, head);
      PartIs(edits, a, inToken, head);
      parts, turned := NamesBecomeNew(b, true, edits);
      SameCount(edits, parts, true, turned);
      MoreParts(edits, a, head, inToken, parts, turned);
      JoinMore(a, parts, e.was);
      JoinMore(head, turned, e.now);
      parts, turned := [a] + parts, [head] + turned;
    } else {
      parts, turned := [s], [Renamed(s, inToken, edits)];
      JoinOne(s, e.was);
      JoinOne(turned[0], e.now);
      LastPart(s, inToken, edits);
      OnePart(edits, s, inToken, turned[0]);
    }
  }

  lemma SameCount(edits: seq<Edit>, parts: seq<string>, inToken: bool, turned: seq<string>)
    requires NameFirst(edits) && AllReadAs(edits, parts, inToken, turned)
    ensures |turned| == |parts|
  {
    hide ReadAs, NameFirst;
  }

  lemma OnePart(edits: seq<Edit>, s: string, inToken: bool, r: string)
    requires NameFirst(edits) && ReadAs(edits, s, inToken, true, r)
    ensures AllReadAs(edits, [s], inToken, [r])
  {
    hide ReadAs, NameFirst;
  }

  /** For any two strings, replacing puts the new one exactly at the leftmost places of the old that do not overlap. */
  lemma {:induction false} ReplacedPlaces(s: string, was: string, now: string) returns (parts: seq<string>)
    requires was != ""
    ensures parts != [] && s == Join(parts, was) && Leftmost(parts, was) && ReplaceAll(s, was, now) == Join(parts, now)
    decreases |s|
  {
    hide *;
    if Occurs(was, s) {
      var a, b := FirstPlace(was, s);
      parts := ReplacedPlaces(b, was, now);
      ReplacedAt(a, b, was, now);
      JoinMore(a, parts, was);
      JoinMore(a, parts, now);
      parts := [a] + parts;
    } else {
      parts := [s];
      JoinOne(s, was);
      JoinOne(s, now);
      NothingReplaced(s, was, now);
    }
  }

  lemma {:induction false} ReplacedAt(a: string, b: string, was: string, now: string)
    requires was != "" && FirstAt(a, was, b)
    ensures ReplaceAll(a + was + b, was, now) == a + now + ReplaceAll(b, was, now)
    decreases |a|
  {
    hide *;
    var s, end := a + was + b, ReplaceAll(b, was, now);
    ReplaceStep(s, was, now);
    if a == "" {
      assert s[|was|..] == b && "" + now + end == now + end;
    } else {
      FirstAtStart(a, was, b);
      FirstAtFrom(a, was, b, 1);
      ReplacedAt(a[1..], b, was, now);
      assert [a[0]] + (a[1..] + now + end) == a + now + end;
    }
  }

  lemma {:induction false} NothingReplaced(s: string, was: string, now: string)
    requires was != "" && !Occurs(was, s)
    ensures ReplaceAll(s, was, now) == s
    decreases |s|
  {
    hide *;
    ReplaceStep(s, was, now);
    if s != "" {
      OccursStep(was, s);
      NothingReplaced(s[1..], was, now);
      assert [s[0]] + s[1..] == s;
    }
  }

  // ----- text after a boundary -----

  /** Text that ends at a boundary and a digit after it are read apart. */
  lemma {:induction false} ReadApart(a: string, t: string, inToken: bool, edits: seq<Edit>)
    requires AllGood(edits) && AtBoundary(a) && t != "" && IsDigit(t[0])
    ensures NoneEmpty(edits)
    ensures Renamed(a + t, inToken, edits) == Renamed(a, inToken, edits) + Renamed(t, a == "" && inToken, edits)
    decreases |a|
  {
    hide *;
    GoodIsNoneEmpty(edits);
    RenamedStep(a, inToken, edits);
    if a == "" {
      assert a + t == t;
    } else {
      RenamedStep(a + t, inToken, edits);
      SameApart(edits, a, t, inToken);
      FirstFitIsIn(edits, a, inToken);
      var end := Renamed(t, false, edits);
      match FirstFit(edits, a, inToken) {
        case None =>
          assert (a + t)[0] == a[0] && (a + t)[1..] == a[1..] + t;
          AtBoundaryFrom(a, 1);
          ReadApart(a[1..], t, IsTokenChar(a[0]), edits);
          EmptyRest(a, 1);
          Appends([a[0]], Renamed(a[1..], IsTokenChar(a[0]), edits), end);
        case Some(x) =>
          GoodOf(edits, x);
          GoodFacts(x);
          FitsSplits(x, a, inToken);
          assert (a + t)[|x.was|..] == a[|x.was|..] + t;
          AtBoundaryFrom(a, |x.was|);
          BoundaryIs(a);
          NotTheWhole(x.was, a);
          ReadApart(a[|x.was|..], t, true, edits);
          Appends(x.now, Renamed(a[|x.was|..], true, edits), end);
      }
    }
  }

  lemma EmptyRest(a: string, k: nat)
    requires AtBoundary(a) && k == 1 <= |a|
    ensures a[1..] == "" ==> !IsTokenChar(a[0])
  {
    hide IsTokenChar;
  }

  lemma Appends(a: string, b: string, c: string)
    ensures a + (b + c) == a + b + c
  {
  }

  lemma GoodOf(edits: seq<Edit>, x: Edit)
    requires AllGood(edits) && x in edits
    ensures Good(x)
  {
    hide Good;
  }

  lemma SameApart(edits: seq<Edit>, a: string, t: string, inToken: bool)
    requires AllGood(edits) && a != "" && AtBoundary(a) && t != "" && IsDigit(t[0])
    ensures FirstFit(edits, a + t, inToken) == FirstFit(edits, a, inToken)
  {
    hide *;
    forall x | x in edits
      ensures Fits(x, a + t, inToken) <==> Fits(x, a, inToken)
    {
      GoodOf(edits, x);
      FitsAtBoundary(x, a, t, inToken);
    }
    SameFirst(edits, a + t, a, inToken);
  }

  /** A stem between boundaries becomes its new form, and the text on either side is read on its own. */
  lemma StemBecomesNew(a: string, x: Edit, b: string, inToken: bool, edits: seq<Edit>)
    requires NameFirst(edits) && Exclusive(edits) && x in edits && !x.FullName?
    requires AtBoundary(a) && (a == "" ==> !inToken) && Ends(x, b) && !(edits[0].was <= x.was + b)
    ensures NoneEmpty(edits)
    ensures Renamed(a + x.was + b, inToken, edits) == Renamed(a, inToken, edits) + x.now + Renamed(b, true, edits)
  {
    hide *;
    HasName(edits);
    NameFirstIs(edits, x);
    GoodFacts(x);
    var t := x.was + b;
    assert a + x.was + b == a + t;
    ReadApart(a, t, inToken, edits);
    assert t[|x.was|..] == b;
    FitsIs(x, t, false);
    FullFits(edits[0], t, false);
    FirstFitIsIn(edits, t, false);
    var y := FirstFit(edits, t, false).value;
    NameFirstIs(edits, y);
    OnlyFit(edits, x, y, t, false);
    RenamedStep(t, false, edits);
    Appends(Renamed(a, inToken, edits), x.now, Renamed(b, true, edits));
  }

  // ----- the plan may leave out what is nowhere cited -----

  predicate CitedIn(x: Edit, s: string, inToken: bool)
    decreases |s|
  {
    s != "" && (Fits(x, s, inToken) || CitedIn(x, s[1..], IsTokenChar(s[0])))
  }

  lemma {:induction false} CitedLater(x: Edit, s: string, inToken: bool, k: nat)
    requires 0 < k <= |s| && CitedIn(x, s[k..], IsTokenChar(s[k - 1]))
    ensures CitedIn(x, s, inToken)
    decreases k
  {
    hide Fits, IsTokenChar;
    if k > 1 {
      assert s[1..][k - 1..] == s[k..];
      CitedLater(x, s[1..], IsTokenChar(s[0]), k - 1);
    }
  }

  lemma CitedHere(x: Edit, s: string, inToken: bool)
    requires s != "" && Fits(x, s, inToken)
    ensures CitedIn(x, s, inToken)
  {
    hide Fits;
  }

  /** No two stems fit at one place. */
  ghost predicate Exclusive(edits: seq<Edit>) {
    forall x, y, s, inToken | x in edits && y in edits && !x.FullName? && !y.FullName? && Fits(x, s, inToken) && Fits(y, s, inToken) :: x == y
  }

  lemma OnlyFit(edits: seq<Edit>, x: Edit, y: Edit, s: string, inToken: bool)
    requires Exclusive(edits) && x in edits && y in edits && !x.FullName? && !y.FullName?
    requires Fits(x, s, inToken) && Fits(y, s, inToken)
    ensures x == y
  {
    hide Fits;
  }

  /** A whole name that fits comes before any stem. */
  lemma {:induction false} NameWins(plan: seq<Edit>, e: Edit, s: string, inToken: bool)
    requires PairwiseClear(plan) && e in plan && e.FullName? && Fits(e, s, inToken)
    ensures FirstFit(plan, s, inToken) == Some(e)
    decreases |plan|
  {
    hide Fits, Clear;
    if plan[0] != e {
      var j :| 0 <= j < |plan| && plan[j] == e;
      ClearFull(plan[0], plan[j]);
    }
  }

  lemma SameChoice(plan: seq<Edit>, all: seq<Edit>, s: string, inToken: bool)
    requires NameFirst(all) && PairwiseClear(plan) && Exclusive(all)
    requires forall x | x in plan :: x in all
    requires forall x | x in all && Fits(x, s, inToken) :: x in plan
    ensures FirstFit(plan, s, inToken) == FirstFit(all, s, inToken)
  {
    hide *;
    FirstFitIsIn(plan, s, inToken);
    FirstFitIsIn(all, s, inToken);
    HasName(all);
    var e := all[0];
    if Fits(e, s, inToken) {
      FirstIsFull(all, s, inToken);
      NameWins(plan, e, s, inToken);
    } else if FirstFit(all, s, inToken).Some? {
      var x, y := FirstFit(all, s, inToken).value, FirstFit(plan, s, inToken).value;
      NameFirstIs(all, x);
      NameFirstIs(all, y);
      OnlyFit(all, x, y, s, inToken);
    }
  }

  /** A plan that holds every citation of the text reads it like the list of all citations. */
  lemma {:induction false} SamePass(s: string, inToken: bool, plan: seq<Edit>, all: seq<Edit>)
    requires NameFirst(all) && NoneEmpty(plan) && PairwiseClear(plan) && Exclusive(all)
    requires forall x | x in plan :: x in all
    requires forall x | x in all && CitedIn(x, s, inToken) :: x in plan
    ensures NoneEmpty(all) && Renamed(s, inToken, plan) == Renamed(s, inToken, all)
    decreases |s|
  {
    hide *;
    HasName(all);
    RenamedStep(s, inToken, plan);
    RenamedStep(s, inToken, all);
    if s != "" {
      forall x | x in all && Fits(x, s, inToken)
        ensures x in plan
      {
        CitedHere(x, s, inToken);
      }
      SameChoice(plan, all, s, inToken);
      FirstFitIsIn(plan, s, inToken);
      var n := 1;
      if FirstFit(plan, s, inToken).Some? {
        var w := FirstFit(plan, s, inToken).value.was;
        n := |w|;
        assert s[n - 1] == w[n - 1];
      }
      forall x | x in all && CitedIn(x, s[n..], IsTokenChar(s[n - 1]))
        ensures x in plan
      {
        CitedLater(x, s, inToken, n);
      }
      SamePass(s[n..], IsTokenChar(s[n - 1]), plan, all);
    }
  }
}
