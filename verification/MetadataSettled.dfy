/** Lines a pass of the metadata editor leaves alone, and when right-stripping undoes that. */
module MetadataSettled {
  import opened Wrappers
  import opened Text
  import opened Markdown
  import opened FileLines
  import opened SetMetadata
  import opened MetadataLines

  // ----- lines a pass leaves alone -----

  predicate FencedSettled(lines: seq<string>, ask: Ask, done: bool, any: bool)
    requires ask.setId.Some?
  {
    lines == [] ||
    var line, rest := lines[0], lines[1..];
    if any && IsFence(line) then done
    else if YamlSet(line) then line == YamlSetLine(ask) && FencedSettled(rest, ask, true, true)
    else (ask.order.Some? && YamlOrder(line) ==> line == YamlOrderLine(ask)) && FencedSettled(rest, ask, done, true)
  }

  predicate BulletsSettled(lines: seq<string>, ask: Ask, done: bool)
    requires ask.setId.Some?
  {
    if lines == [] then done
    else
      var line, rest := lines[0], lines[1..];
      if IsHeading(line) then done
      else if BulletSet(line) then line == BulletSetLine(ask) && BulletsSettled(rest, ask, true)
      else (ask.order.Some? && BulletOrder(line) ==> line == BulletOrderLine(ask)) && BulletsSettled(rest, ask, done)
  }

  lemma Cons(line: string, rest: seq<string>)
    ensures ([line] + rest)[0] == line && ([line] + rest)[1..] == rest && [line] + rest != []
  {
  }

  lemma {:induction false} FencedKeeps(lines: seq<string>, ask: Ask, done: bool, any: bool)
    requires ask.setId.Some? && FencedSettled(lines, ask, done, any)
    ensures Fenced(lines, ask, done, any).lines == lines
  {
    hide IsFence, YamlSet, YamlOrder, YamlSetLine, YamlOrderLine, YamlLines;
    if lines != [] {
      var line, rest := lines[0], lines[1..];
      assert lines == [line] + rest;
      if any && IsFence(line) {
      } else if YamlSet(line) {
        FencedKeeps(rest, ask, true, true);
      } else {
        FencedKeeps(rest, ask, done, true);
      }
    }
  }

  lemma {:induction false} FencedSettles(lines: seq<string>, ask: Ask, done: bool, any: bool)
    requires Names(ask)
    ensures FencedSettled(Fenced(lines, ask, done, any).lines, ask, done, any)
  {
    YamlLinesAre(ask);
    hide IsFence, YamlSet, YamlOrder, YamlSetLine, YamlOrderLine;
    if lines != [] {
      var line, rest := lines[0], lines[1..];
      if any && IsFence(line) {
        if !done {
          SettledInsertion(line, lines, ask);
        }
      } else if YamlSet(line) {
        FencedSettles(rest, ask, true, true);
        Cons(YamlSetLine(ask), Fenced(rest, ask, true, true).lines);
      } else {
        FencedSettles(rest, ask, done, true);
        var p := Fenced(rest, ask, done, true).lines;
        Cons(line, p);
        if ask.order.Some? {
          Cons(YamlOrderLine(ask), p);
        }
      }
    }
  }

  lemma SettledInsertion(line: string, lines: seq<string>, ask: Ask)
    requires Names(ask) && lines != [] && lines[0] == line && IsFence(line)
    ensures FencedSettled(YamlLines(ask) + lines, ask, false, true)
  {
    YamlLinesAre(ask);
    hide IsFence, YamlSet, YamlOrder, YamlSetLine, YamlOrderLine;
    assert FencedSettled(lines, ask, true, true);
    if ask.order.Some? {
      Cons(YamlOrderLine(ask), lines);
      Cons(YamlSetLine(ask), [YamlOrderLine(ask)] + lines);
      assert YamlLines(ask) + lines == [YamlSetLine(ask)] + ([YamlOrderLine(ask)] + lines);
    } else {
      Cons(YamlSetLine(ask), lines);
      assert YamlLines(ask) + lines == [YamlSetLine(ask)] + lines;
    }
  }

  /** Trailing blank lines gone, and some lines right-stripped. */
  predicate Stripped(lines: seq<string>, other: seq<string>) {
    && |other| <= |lines|
    && (forall i | 0 <= i < |other| :: other[i] == lines[i] || other[i] == RStrip(lines[i]))
    && (forall i | |other| <= i < |lines| :: AllSpace(lines[i]))
  }

  lemma StrippedTail(lines: seq<string>, other: seq<string>)
    requires Stripped(lines, other) && other != []
    ensures lines != [] && Stripped(lines[1..], other[1..]) && (other[0] == lines[0] || other[0] == RStrip(lines[0]))
  {
    hide RStrip, AllSpace;
    assert forall i | 0 <= i < |other| - 1 :: other[1..][i] == other[i + 1] && lines[1..][i] == lines[i + 1];
    assert forall i | |other| - 1 <= i < |lines| - 1 :: lines[1..][i] == lines[i + 1];
  }

  lemma {:induction false} FencedSettledStripped(lines: seq<string>, other: seq<string>, ask: Ask, done: bool, any: bool)
    requires Names(ask) && FencedSettled(lines, ask, done, any) && Stripped(lines, other)
    ensures FencedSettled(other, ask, done, any)
  {
    YamlLinesAre(ask);
    hide IsFence, YamlSet, YamlOrder, YamlSetLine, YamlOrderLine, Stripped, RStrip, OneLine, AllSpace;
    if other != [] {
      StrippedTail(lines, other);
      FenceUnderStrip(lines[0]);
      YamlUnderStrip(lines[0]);
      if any && IsFence(lines[0]) {
      } else if YamlSet(lines[0]) {
        FencedSettledStripped(lines[1..], other[1..], ask, true, true);
      } else {
        FencedSettledStripped(lines[1..], other[1..], ask, done, true);
      }
    }
  }

  // ----- bullets -----

  lemma {:induction false} BulletsKeep(lines: seq<string>, ask: Ask, done: bool)
    requires ask.setId.Some? && BulletsSettled(lines, ask, done)
    ensures Bullets(lines, ask, done).pass.lines == lines && Bullets(lines, ask, done).done
  {
    hide IsHeading, BulletSet, BulletOrder, BulletSetLine, BulletOrderLine, BulletLines;
    if lines != [] {
      var line, rest := lines[0], lines[1..];
      assert lines == [line] + rest;
      if IsHeading(line) {
      } else if BulletSet(line) {
        BulletsKeep(rest, ask, true);
      } else {
        BulletsKeep(rest, ask, done);
      }
    }
  }

  /** No heading and no set line. */
  predicate Plain(lines: seq<string>) {
    forall i | 0 <= i < |lines| :: !IsHeading(lines[i]) && !BulletSet(lines[i])
  }

  lemma PlainCons(line: string, rest: seq<string>)
    requires Plain(rest) && !IsHeading(line) && !BulletSet(line)
    ensures Plain([line] + rest)
  {
    hide IsHeading, BulletSet;
  }

  lemma {:induction false} BulletsSettle(lines: seq<string>, ask: Ask, done: bool)
    requires Names(ask)
    ensures var b := Bullets(lines, ask, done);
            && BulletsSettled(b.pass.lines, ask, true)
            && (done ==> b.done)
            && (b.done ==> BulletsSettled(b.pass.lines, ask, done))
            && (!b.done ==> Plain(b.pass.lines))
            && (b.done && !done ==> b.pass.updated)
  {
    BulletLinesAre(ask);
    hide IsHeading, BulletSet, BulletOrder, BulletSetLine, BulletOrderLine, Plain, Fixed, IsFence;
    if lines == [] {
      NothingIsPlain();
    } else {
      var line, rest := lines[0], lines[1..];
      if IsHeading(line) {
        if !done {
          BulletInsertion(lines, ask);
        }
      } else if BulletSet(line) {
        BulletsSettle(rest, ask, true);
        Cons(BulletSetLine(ask), Bullets(rest, ask, true).pass.lines);
      } else {
        BulletsSettle(rest, ask, done);
        var b := Bullets(rest, ask, done);
        Cons(line, b.pass.lines);
        if !b.done {
          PlainCons(line, b.pass.lines);
        }
        if ask.order.Some? {
          Cons(BulletOrderLine(ask), b.pass.lines);
          if !b.done {
            PlainCons(BulletOrderLine(ask), b.pass.lines);
          }
        }
      }
    }
  }

  lemma NothingIsPlain()
    ensures Plain([])
  {
  }

  /** Lines settled once the set is known are settled after the inserted lines. */
  lemma BulletInsertion(lines: seq<string>, ask: Ask)
    requires Names(ask) && BulletsSettled(lines, ask, true)
    ensures BulletsSettled(BulletLines(ask) + lines, ask, false) && BulletsSettled(BulletLines(ask) + lines, ask, true)
  {
    BulletLinesAre(ask);
    hide IsHeading, BulletSet, BulletOrder, BulletSetLine, BulletOrderLine;
    if ask.order.Some? {
      Cons(BulletOrderLine(ask), lines);
      Cons(BulletSetLine(ask), [BulletOrderLine(ask)] + lines);
      assert BulletLines(ask) + lines == [BulletSetLine(ask)] + ([BulletOrderLine(ask)] + lines);
    } else {
      Cons(BulletSetLine(ask), lines);
      assert BulletLines(ask) + lines == [BulletSetLine(ask)] + lines;
    }
  }

  lemma PlainTail(lines: seq<string>)
    requires Plain(lines) && lines != []
    ensures !IsHeading(lines[0]) && !BulletSet(lines[0]) && Plain(lines[1..])
  {
    hide IsHeading, BulletSet;
    assert forall i | 0 <= i < |lines| - 1 :: lines[1..][i] == lines[i + 1];
  }

  lemma {:induction false} AnchorSettles(lines: seq<string>, ask: Ask)
    requires Names(ask) && Plain(lines) && BulletsSettled(lines, ask, true)
    ensures var r := AfterAnchor(lines, ask); r.Some? ==> BulletsSettled(r.value, ask, false)
  {
    hide IsHeading, BulletSet, BulletOrder, BulletSetLine, BulletOrderLine, Plain, IsAnchor, BulletLines;
    if lines != [] {
      var line, rest := lines[0], lines[1..];
      PlainTail(lines);
      if IsAnchor(line) {
        BulletInsertion(rest, ask);
        Cons(line, BulletLines(ask) + rest);
        assert [line] + BulletLines(ask) + rest == [line] + (BulletLines(ask) + rest);
      } else {
        AnchorSettles(rest, ask);
        var r := AfterAnchor(rest, ask);
        if r.Some? {
          Cons(line, r.value);
        }
      }
    }
  }

  lemma InsertedSettles(lines: seq<string>, ask: Ask)
    requires Names(ask) && Plain(lines) && BulletsSettled(lines, ask, true)
    ensures BulletsSettled(Inserted(lines, ask), ask, false)
  {
    hide BulletsSettled, Plain, AfterAnchor, BulletLines;
    AnchorSettles(lines, ask);
    BulletInsertion(lines, ask);
  }

  // ----- what right-stripping can spoil -----

  predicate Stale(line: string, ask: Ask)
    requires ask.setId.Some?
  {
    if BulletSet(line) then line != BulletSetLine(ask)
    else ask.order.Some? && BulletOrder(line) && line != BulletOrderLine(ask)
  }

  /** A line the editor would change comes before the next heading, all lines right-stripped. */
  predicate StaleAhead(lines: seq<string>, ask: Ask)
    requires ask.setId.Some?
  {
    lines != [] && !IsHeading(RStrip(lines[0])) && (Stale(RStrip(lines[0]), ask) || StaleAhead(lines[1..], ask))
  }

  /** The first heading is an empty one, which right-stripping turns into `##`, and a line the editor would change
      follows before the next. */
  predicate Spoiled(lines: seq<string>, ask: Ask)
    requires ask.setId.Some?
  {
    lines != [] &&
    if IsHeading(lines[0]) then RStrip(lines[0]) == "##" && StaleAhead(lines[1..], ask) else Spoiled(lines[1..], ask)
  }

  predicate AllStripped(lines: seq<string>, other: seq<string>) {
    && |other| <= |lines|
    && (forall i | 0 <= i < |other| :: other[i] == RStrip(lines[i]))
    && (forall i | |other| <= i < |lines| :: AllSpace(lines[i]))
  }

  lemma AllStrippedTail(lines: seq<string>, other: seq<string>)
    requires AllStripped(lines, other) && other != []
    ensures lines != [] && AllStripped(lines[1..], other[1..]) && other[0] == RStrip(lines[0])
  {
    hide RStrip, AllSpace;
    assert forall i | 0 <= i < |other| - 1 :: other[1..][i] == other[i + 1] && lines[1..][i] == lines[i + 1];
    assert forall i | |other| - 1 <= i < |lines| - 1 :: lines[1..][i] == lines[i + 1];
  }

  predicate Blank(lines: seq<string>) {
    forall i | 0 <= i < |lines| :: AllSpace(lines[i])
  }

  lemma BlankLine(line: string)
    requires AllSpace(line)
    ensures !IsHeading(line) && !BulletSet(line) && !BulletOrder(line) && RStrip(line) == ""
  {
    RStripDropsSpace("", line);
    assert "" + line == line;
    FirstCharacter(line);
    hide IsHeading, BulletSet, BulletOrder;
    assert line != "" ==> IsSpace(line[0]);
  }

  lemma EmptyIsBlank()
    ensures AllSpace("")
  {
  }

  lemma FirstCharacter(line: string)
    ensures IsHeading(line) ==> line != "" && line[0] == '#'
    ensures BulletSet(line) || BulletOrder(line) ==> line != "" && line[0] == '-'
  {
  }

  lemma {:induction false} BlankFacts(lines: seq<string>, ask: Ask, done: bool)
    requires ask.setId.Some? && Blank(lines)
    ensures BulletsSettled(lines, ask, done) == done && !StaleAhead(lines, ask) && !Spoiled(lines, ask)
  {
    hide IsHeading, BulletSet, BulletOrder, BulletSetLine, BulletOrderLine, AllSpace, RStrip;
    if lines != [] {
      assert Blank(lines[1..]) by {
        assert forall i | 0 <= i < |lines| - 1 :: lines[1..][i] == lines[i + 1];
      }
      BlankLine(lines[0]);
      EmptyIsBlank();
      BlankLine("");
      BlankFacts(lines[1..], ask, done);
    }
  }

  lemma {:induction false} AheadStripped(lines: seq<string>, other: seq<string>, ask: Ask)
    requires ask.setId.Some? && AllStripped(lines, other)
    ensures BulletsSettled(other, ask, true) <==> !StaleAhead(lines, ask)
  {
    if other == [] {
      BlankFacts(lines, ask, true);
    } else {
      hide IsHeading, BulletSet, BulletOrder, BulletSetLine, BulletOrderLine, AllStripped, RStrip;
      AllStrippedTail(lines, other);
      AheadStripped(lines[1..], other[1..], ask);
    }
  }

  lemma SetLineStays(line: string, ask: Ask)
    requires Names(ask)
    ensures line == BulletSetLine(ask) ==> BulletSet(RStrip(line)) && RStrip(line) == line
    ensures ask.order.Some? && line == BulletOrderLine(ask) ==> RStrip(line) == line
  {
    BulletLinesAre(ask);
  }

  /** Right-stripping settled lines leaves them settled exactly when it spoils nothing. */
  lemma {:induction false} BulletsAllStripped(lines: seq<string>, other: seq<string>, ask: Ask, done: bool)
    requires Names(ask) && BulletsSettled(lines, ask, done) && AllStripped(lines, other)
    ensures BulletsSettled(other, ask, done) <==> !Spoiled(lines, ask)
  {
    if other == [] {
      BlankFacts(lines, ask, done);
    } else {
      hide IsHeading, BulletSet, BulletOrder, BulletSetLine, BulletOrderLine, AllStripped, RStrip;
      AllStrippedTail(lines, other);
      BulletUnderStrip(lines[0]);
      SetLineStays(lines[0], ask);
      if IsHeading(lines[0]) {
        HeadingUnderStrip(lines[0]);
        AheadStripped(lines[1..], other[1..], ask);
      } else if BulletSet(lines[0]) {
        BulletsAllStripped(lines[1..], other[1..], ask, true);
      } else {
        BulletsAllStripped(lines[1..], other[1..], ask, done);
      }
    }
  }

  /** Right-stripping the last line alone spoils nothing. */
  predicate LastStripped(lines: seq<string>, other: seq<string>) {
    && |other| <= |lines|
    && (forall i | 0 <= i < |other| - 1 :: other[i] == lines[i])
    && (other != [] ==> other[|other| - 1] == RStrip(lines[|other| - 1]))
    && (forall i | |other| <= i < |lines| :: AllSpace(lines[i]))
  }

  lemma LastStrippedTail(lines: seq<string>, other: seq<string>)
    requires LastStripped(lines, other) && |other| > 1
    ensures lines != [] && LastStripped(lines[1..], other[1..]) && other[0] == lines[0]
  {
    hide RStrip, AllSpace;
    assert forall i | 0 <= i < |other| - 1 :: other[1..][i] == other[i + 1] && lines[1..][i] == lines[i + 1];
    assert forall i | |other| - 1 <= i < |lines| - 1 :: lines[1..][i] == lines[i + 1];
  }

  lemma {:induction false} BulletsLastStripped(lines: seq<string>, other: seq<string>, ask: Ask, done: bool)
    requires Names(ask) && BulletsSettled(lines, ask, done) && LastStripped(lines, other)
    ensures BulletsSettled(other, ask, done)
  {
    if other == [] {
      BlankFacts(lines, ask, done);
    } else if |other| == 1 {
      LastLine(lines, other, ask, done);
    } else {
      hide IsHeading, BulletSet, BulletOrder, BulletSetLine, BulletOrderLine, LastStripped;
      LastStrippedTail(lines, other);
      if IsHeading(lines[0]) {
      } else if BulletSet(lines[0]) {
        BulletsLastStripped(lines[1..], other[1..], ask, true);
      } else {
        BulletsLastStripped(lines[1..], other[1..], ask, done);
      }
    }
  }

  lemma LastLine(lines: seq<string>, other: seq<string>, ask: Ask, done: bool)
    requires Names(ask) && BulletsSettled(lines, ask, done) && LastStripped(lines, other) && |other| == 1
    ensures BulletsSettled(other, ask, done)
  {
    hide IsHeading, BulletSet, BulletOrder, BulletSetLine, BulletOrderLine, RStrip, AllSpace;
    var line := lines[0];
    assert other == [RStrip(line)] && other[1..] == [];
    BulletUnderStrip(line);
    SetLineStays(line, ask);
    assert Blank(lines[1..]) by {
      assert forall i | 0 <= i < |lines| - 1 :: lines[1..][i] == lines[i + 1];
    }
    BlankFacts(lines[1..], ask, done);
    if IsHeading(line) {
      HeadingUnderStrip(line);
    }
  }
}
