/** Recording the same set and order twice: when the second call changes nothing. */
module SetMetadataTwice {
  import opened Wrappers
  import opened Text
  import opened Markdown
  import opened FileLines
  import opened SetMetadata
  import opened MetadataLines
  import opened MetadataSettled
  import opened MetadataMade

  // ----- the second call -----

  lemma EditorLinesFixed(ask: Ask, line: string)
    requires Names(ask) && EditorLine(line, ask)
    ensures Fixed(line) && !IsFence(line) && !IsHeading(line)
  {
    YamlLinesAre(ask);
    BulletLinesAre(ask);
    hide IsFence, Fixed, BulletSet, BulletOrder;
    FirstCharacter(line);
  }

  /** What the first call writes can be read back. */
  lemma EditedIsWritable(text: string, ask: Ask)
    requires Names(ask) && Edited(Lines(text), ask).updated
    ensures BreakFree(Edited(Lines(text), ask).lines) && RTrim(Edited(Lines(text), ask).lines) != []
  {
    hide EditorLine, Edited, Lines, OneLine, RStrip;
    var lines, p := Lines(text), Edited(Lines(text), ask);
    EditedMakes(lines, ask);
    LinesBreakFree(text);
    forall i | 0 <= i < |p.lines|
      ensures OneLine(p.lines[i])
    {
      assert p.lines[i] in p.lines;
      if EditorLine(p.lines[i], ask) {
        EditorLinesFixed(ask, p.lines[i]);
      }
    }
    var line :| line in p.lines && EditorLine(line, ask);
    EditorLinesFixed(ask, line);
    var k :| 0 <= k < |p.lines| && p.lines[k] == line;
  }

  /** A set that was not there is always recorded in bullets. */
  lemma BulletsUpdate(lines: seq<string>, ask: Ask)
    requires Names(ask) && !IsFenced(lines)
    ensures Edited(lines, ask).updated && BulletsSettled(Edited(lines, ask).lines, ask, false)
  {
    hide IsFenced, Fenced, Bullets, Inserted, BulletsSettled;
    BulletsSettle(lines, ask, false);
    var b := Bullets(lines, ask, false);
    if !b.done {
      InsertedSettles(b.pass.lines, ask);
    }
  }

  lemma FencedUpdate(lines: seq<string>, ask: Ask)
    requires Names(ask) && IsFenced(lines)
    ensures FencedSettled(Edited(lines, ask).lines, ask, false, false)
  {
    hide IsFenced, Fenced, Bullets, Inserted, FencedSettled;
    FencedSettles(lines, ask, false, false);
  }

  lemma TidyIsStripped(lines: seq<string>, normal: bool)
    ensures Stripped(lines, Tidy(lines, normal))
    ensures normal ==> AllStripped(lines, Tidy(lines, normal))
    ensures !normal ==> LastStripped(lines, Tidy(lines, normal))
  {
    hide RStrip, AllSpace, RTrim;
    var r := RTrim(lines);
    forall i | 0 <= i < |r|
      ensures RStrip(r[i]) == RStrip(lines[i])
    {
      RStripStable(lines[i]);
    }
  }

  // ----- which branch the second call takes -----

  lemma {:induction false} FencedStart(lines: seq<string>, ask: Ask)
    requires IsFenced(lines)
    ensures var p := Fenced(lines, ask, false, false); p.lines != [] && p.lines[0] == lines[0]
  {
    var line := lines[0];
    FenceIsNoKey(line);
    hide IsFence, YamlSet, YamlOrder;
    Cons(line, Fenced(lines[1..], ask, false, true).lines);
  }

  lemma FenceIsNoKey(line: string)
    requires IsFence(line)
    ensures !YamlSet(line) && !YamlOrder(line)
  {
    if line != "" && line[0] in {'s', 'o', 'S', 'O', '\U{17f}'} {
      NotAFence(line);
    }
  }

  /** The first line is the old first line or one of the editor's. */
  lemma BulletStart(lines: seq<string>, ask: Ask)
    requires ask.setId.Some?
    ensures var p := Bullets(lines, ask, false).pass;
            p.lines != [] ==> (lines != [] && p.lines[0] == lines[0]) || EditorLine(p.lines[0], ask)
  {
    LinesAreWritten(ask);
    hide IsHeading, BulletSet, BulletOrder, EditorLine, BulletSetLine, BulletOrderLine;
    if lines != [] {
      var rest := lines[1..];
      Cons(lines[0], Bullets(rest, ask, false).pass.lines);
      Cons(BulletSetLine(ask), Bullets(rest, ask, true).pass.lines);
      if ask.order.Some? {
        Cons(BulletOrderLine(ask), Bullets(rest, ask, false).pass.lines);
      }
      assert (BulletLines(ask) + lines)[0] == BulletSetLine(ask);
    }
  }

  lemma EditedStart(lines: seq<string>, ask: Ask)
    requires Names(ask) && !IsFenced(lines)
    ensures !IsFenced(Edited(lines, ask).lines)
  {
    LinesAreWritten(ask);
    hide Bullets, AfterAnchor, EditorLine, BulletSetLine, BulletOrderLine, IsFence, Names;
    BulletStart(lines, ask);
    var b := Bullets(lines, ask, false);
    AnchorInserts(b.pass.lines, ask);
    var p := Edited(lines, ask);
    assert BulletLines(ask)[0] == BulletSetLine(ask);
    if p.lines != [] && EditorLine(p.lines[0], ask) {
      EditorLinesFixed(ask, p.lines[0]);
    }
  }

  lemma FencedUnderTidy(lines: seq<string>, normal: bool)
    requires RTrim(lines) != []
    ensures IsFenced(Tidy(lines, normal)) == IsFenced(lines)
  {
    hide IsFence, RStrip, AllSpace;
    TidyIsStripped(lines, normal);
    FenceUnderStrip(lines[0]);
  }

  // ----- spoiling before and after the edit -----

  lemma {:induction false} SpoiledAfterBullets(lines: seq<string>, ask: Ask, done: bool)
    requires Names(ask)
    ensures Spoiled(Bullets(lines, ask, done).pass.lines, ask) == Spoiled(lines, ask)
  {
    BulletLinesAre(ask);
    hide IsHeading, BulletSet, BulletOrder, BulletSetLine, BulletOrderLine, StaleAhead, RStrip, Fixed, IsFence;
    if lines != [] {
      var line, rest := lines[0], lines[1..];
      if IsHeading(line) {
        SpoiledAfterLines(lines, ask);
      } else if BulletSet(line) {
        SpoiledAfterBullets(rest, ask, true);
        Cons(BulletSetLine(ask), Bullets(rest, ask, true).pass.lines);
      } else {
        SpoiledAfterBullets(rest, ask, done);
        Cons(line, Bullets(rest, ask, done).pass.lines);
        if ask.order.Some? {
          Cons(BulletOrderLine(ask), Bullets(rest, ask, done).pass.lines);
        }
      }
    }
  }

  lemma SpoiledAfterLines(lines: seq<string>, ask: Ask)
    requires Names(ask)
    ensures Spoiled(BulletLines(ask) + lines, ask) == Spoiled(lines, ask)
  {
    BulletLinesAre(ask);
    hide IsHeading, BulletSet, BulletOrder, BulletSetLine, BulletOrderLine, StaleAhead, RStrip, Fixed, IsFence;
    if ask.order.Some? {
      Cons(BulletOrderLine(ask), lines);
      Cons(BulletSetLine(ask), [BulletOrderLine(ask)] + lines);
      assert BulletLines(ask) + lines == [BulletSetLine(ask)] + ([BulletOrderLine(ask)] + lines);
    } else {
      Cons(BulletSetLine(ask), lines);
      assert BulletLines(ask) + lines == [BulletSetLine(ask)] + lines;
    }
  }

  lemma {:induction false} PlainIsUnspoiled(lines: seq<string>, ask: Ask)
    requires ask.setId.Some? && forall line | line in lines :: !IsHeading(line)
    ensures !Spoiled(lines, ask)
  {
    hide IsHeading, StaleAhead, RStrip;
    if lines != [] {
      assert lines[0] in lines && forall l | l in lines[1..] :: l in lines;
      PlainIsUnspoiled(lines[1..], ask);
    }
  }

  lemma SpoiledAfterEdit(lines: seq<string>, ask: Ask)
    requires Names(ask) && !IsFenced(lines)
    ensures Spoiled(Edited(lines, ask).lines, ask) == Spoiled(lines, ask)
  {
    SpoiledAfterBullets(lines, ask, false);
    BulletsSettle(lines, ask, false);
    LinesAreWritten(ask);
    hide IsFenced, Fenced, Bullets, Inserted, BulletsSettled, Spoiled, IsHeading, BulletSet, Names, EditorLine, BulletLines;
    var b := Bullets(lines, ask, false);
    if !b.done {
      var r := Inserted(b.pass.lines, ask);
      InsertedMakes(b.pass.lines, ask);
      forall line | line in r
        ensures !IsHeading(line)
      {
        if line in BulletLines(ask) {
          EditorLinesFixed(ask, line);
        }
      }
      assert forall line | line in b.pass.lines :: !IsHeading(line);
      PlainIsUnspoiled(r, ask);
      PlainIsUnspoiled(b.pass.lines, ask);
    }
  }

  // ----- the theorem -----

  /** A set and an order recorded in a file whose second recording changes it. */
  predicate SecondCallEdits(text: string, ask: Ask, normal: bool)
    requires ask.setId.Some?
  {
    normal && !IsFenced(Lines(text)) && Spoiled(Lines(text), ask)
  }

  lemma Rewritten(text: string, ask: Ask, normal: bool)
    requires Names(ask) && Edited(Lines(text), ask).updated
    ensures var p, once := Edited(Lines(text), ask), Updated(text, ask, normal);
            var tidy := Tidy(p.lines, normal);
            && Lines(once) == tidy && Written(tidy, normal) == once && BreakFree(tidy) && Tidy(tidy, normal) == tidy
            && IsFenced(tidy) == IsFenced(Lines(text))
  {
    hide *;
    var lines, p := Lines(text), Edited(Lines(text), ask);
    EditedIsWritable(text, ask);
    WrittenReadsBack(p.lines, normal);
    UpdatedIs(text, ask, normal);
    FencedUnderTidy(p.lines, normal);
    EditedIs(lines, ask);
    if IsFenced(lines) {
      FencedStart(lines, ask);
      FencedByHead(lines, p.lines);
    } else {
      EditedStart(lines, ask);
    }
  }

  lemma FencedByHead(lines: seq<string>, other: seq<string>)
    requires IsFenced(lines) && other != [] && (lines != [] ==> other[0] == lines[0])
    ensures IsFenced(other)
  {
  }

  /** Settled lines are written back as they are. */
  lemma SettledTwice(once: string, ask: Ask, normal: bool)
    requires Names(ask) && Written(Lines(once), normal) == once
    requires if IsFenced(Lines(once)) then FencedSettled(Lines(once), ask, false, false) else BulletsSettled(Lines(once), ask, false)
    ensures Updated(once, ask, normal) == once
  {
    var lines := Lines(once);
    hide *;
    UpdatedIs(once, ask, normal);
    EditedIs(lines, ask);
    NamesASet(ask);
    if IsFenced(lines) {
      FencedKeeps(lines, ask, false, false);
    } else {
      BulletsKeep(lines, ask, false);
    }
  }

  lemma NamesASet(ask: Ask)
    requires Names(ask)
    ensures ask.setId.Some?
  {
  }

  predicate StrippedLine(line: string) {
    OneLine(line) && RStrip(line) == line
  }

  lemma MadeOf(lines: seq<string>, p: Pass, ask: Ask, i: nat)
    requires Made(lines, p, ask) && i < |p.lines|
    ensures p.lines[i] in lines || EditorLine(p.lines[i], ask)
    ensures i == |p.lines| - 1 && lines != [] ==> p.lines[i] == lines[|lines| - 1] || EditorLine(p.lines[i], ask)
  {
    hide EditorLine;
    assert p.lines[i] in p.lines;
  }

  /** Tidy lines stay tidy under an edit. */
  lemma EditedStaysTidy(lines: seq<string>, ask: Ask)
    requires Names(ask) && lines != [] && BreakFree(lines) && Tidy(lines, true) == lines
    ensures var p := Edited(lines, ask); p.lines != [] && BreakFree(p.lines) && Tidy(p.lines, true) == p.lines
  {
    var p := Edited(lines, ask);
    NamesASet(ask);
    EditedMakes(lines, ask);
    MadeNonEmpty(lines, p, ask);
    TidyLinesFixed(lines);
    hide Made, EditorLine, Edited, OneLine, RStrip, AllSpace, RTrim, IsFence, IsHeading, Names, Tidy;
    forall i | 0 <= i < |p.lines|
      ensures StrippedLine(p.lines[i]) && (i == |p.lines| - 1 ==> !AllSpace(p.lines[i]))
    {
      MadeOf(lines, p, ask, i);
      if EditorLine(p.lines[i], ask) {
        EditorLinesFixed(ask, p.lines[i]);
      }
    }
    StrippedAreTidy(p.lines);
  }

  lemma MadeNonEmpty(lines: seq<string>, p: Pass, ask: Ask)
    requires Made(lines, p, ask)
    ensures lines != [] ==> p.lines != []
  {
    hide EditorLine;
  }

  lemma StrippedAreTidy(lines: seq<string>)
    requires lines != [] && (forall i | 0 <= i < |lines| :: StrippedLine(lines[i])) && !AllSpace(lines[|lines| - 1])
    ensures BreakFree(lines) && Tidy(lines, true) == lines
  {
    hide OneLine, RStrip, AllSpace, RTrim;
    assert StrippedLine(lines[|lines| - 1]);
    RTrimOfTidy(lines);
    RStripTwice(lines);
  }

  lemma TidyLinesFixed(lines: seq<string>)
    requires lines != [] && Tidy(lines, true) == lines
    ensures (forall i | 0 <= i < |lines| :: RStrip(lines[i]) == lines[i]) && !AllSpace(lines[|lines| - 1])
  {
    hide RStrip, AllSpace;
    var r := RTrim(lines);
    assert |r| == |lines|;
    forall i | 0 <= i < |lines|
      ensures RStrip(lines[i]) == lines[i]
    {
      RStripStable(r[i]);
    }
  }

  lemma UnsettledTwice(once: string, ask: Ask)
    requires Names(ask) && !IsFenced(Lines(once)) && !BulletsSettled(Lines(once), ask, false) && Lines(once) != []
    requires Written(Lines(once), true) == once && BreakFree(Lines(once)) && Tidy(Lines(once), true) == Lines(once)
    ensures Updated(once, ask, true) != once
  {
    var lines := Lines(once);
    hide *;
    var p := Edited(lines, ask);
    BulletsUpdate(lines, ask);
    UpdatedIs(once, ask, true);
    EditedStaysTidy(lines, ask);
    TidyIs(lines, true);
    TidyIs(p.lines, true);
    RTrimNonEmpty(lines);
    RTrimNonEmpty(p.lines);
    TidyIsWritten(lines, p.lines, true);
  }

  lemma RTrimNonEmpty(lines: seq<string>)
    requires RStripEach(RTrim(lines)) == lines
    ensures lines != [] ==> RTrim(lines) != []
  {
    hide RTrim, RStrip;
  }

  /** Recording the same set and order a second time changes the file exactly when the writer normalises it, its front
      matter is bullets, its first `## ` line is an empty heading, and a set or order line the editor would change stands
      between it and the next heading. */
  lemma SecondCallChangesNothingExactly(text: string, ask: Ask, normal: bool)
    requires Names(ask)
    ensures var once := Updated(text, ask, normal);
            Updated(once, ask, normal) == once <==> !SecondCallEdits(text, ask, normal)
  {
    var lines, p := Lines(text), Edited(Lines(text), ask);
    var once, tidy := Updated(text, ask, normal), Tidy(p.lines, normal);
    hide *;
    NamesASet(ask);
    SecondCallEditsIs(text, ask, normal);
    UpdatedIs(text, ask, normal);
    if p.updated {
      Rewritten(text, ask, normal);
      TidyIsStripped(p.lines, normal);
      if IsFenced(lines) {
        FencedUpdate(lines, ask);
        FencedSettledStripped(p.lines, tidy, ask, false, false);
        SettledTwice(once, ask, normal);
      } else {
        BulletsUpdate(lines, ask);
        SpoiledAfterEdit(lines, ask);
        if normal {
          BulletsAllStripped(p.lines, tidy, ask, false);
        } else {
          BulletsLastStripped(p.lines, tidy, ask, false);
        }
        if BulletsSettled(tidy, ask, false) {
          SettledTwice(once, ask, normal);
        } else {
          NothingIsUnsettled(text, ask, normal);
          UnsettledTwice(once, ask);
        }
      }
    } else if !IsFenced(lines) {
      BulletsUpdate(lines, ask);
    }
  }

  lemma NothingIsUnsettled(text: string, ask: Ask, normal: bool)
    requires Names(ask) && Edited(Lines(text), ask).updated
    ensures Tidy(Edited(Lines(text), ask).lines, normal) != []
  {
    EditedIsWritable(text, ask);
    hide Edited, Lines, RTrim, RStrip, Names;
  }

  lemma SecondCallEditsIs(text: string, ask: Ask, normal: bool)
    requires ask.setId.Some?
    ensures SecondCallEdits(text, ask, normal) <==> normal && !IsFenced(Lines(text)) && Spoiled(Lines(text), ask)
  {
  }

  /** A file on which it does. */
  lemma SecondCallChangesThis(ask: Ask)
    requires Names(ask) && ask.setId.value != "b"
    ensures var text := "## \n- Set: b"; Updated(Updated(text, ask, true), ask, true) != Updated(text, ask, true)
  {
    var text := "## \n- Set: b";
    ShortLines();
    SpoiledPair(ask);
    hide *;
    NamesASet(ask);
    SecondCallEditsIs(text, ask, true);
    SecondCallChangesNothingExactly(text, ask, true);
  }

  /** Two lines, the second without a line break. */
  lemma TwoLines(a: string, b: string)
    requires OneLine(a) && OneLine(b) && b != "" && DropBreak(b) == b
    ensures Lines(a + "\n" + b) == [a, b]
  {
    hide DropBreak, SplitLines, IsLineBreak;
    assert forall c | c in a :: !IsLineBreak(c);
    assert forall c | c in b :: !IsLineBreak(c);
    SplitCons(a, b);
    SplitLast(b);
    DropOneBreak(a);
  }

  lemma ShortLines()
    ensures Lines("## \n- Set: b") == ["## ", "- Set: b"] && !IsFenced(["## ", "- Set: b"])
  {
    var a, b := "## ", "- Set: b";
    ShortParts();
    hide *;
    assert a + "\n" + b == "## \n- Set: b";
    TwoLines(a, b);
    FencedByFirst([a, b]);
  }

  lemma FencedByFirst(lines: seq<string>)
    ensures IsFenced(lines) ==> lines != [] && IsFence(lines[0])
  {
  }

  lemma ShortParts()
    ensures OneLine("## ") && OneLine("- Set: b") && DropBreak("- Set: b") == "- Set: b" && !IsFence("## ")
  {
    var a, b := "## ", "- Set: b";
    assert b[|b| - 2..][1] == 'b';
    assert LStrip(a) == a;
    assert Strip(a) != "" ==> Strip(a)[0] == '#';
  }

  lemma SpoiledPair(ask: Ask)
    requires Names(ask) && ask.setId.value != "b"
    ensures Spoiled(["## ", "- Set: b"], ask)
  {
    var a, b := "## ", "- Set: b";
    assert [a, b][1..] == [b] && [b][0] == b;
    assert a[..2] == "##" && RStrip("##") == "##" && RStrip(a) == "##";
    assert RStrip(b) == b;
    assert b[7..] == "b" && BulletSetLine(ask)[7..] == ask.setId.value;
    assert Stale(b, ask);
  }
}
