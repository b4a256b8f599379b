/** The metadata editor touches nothing but set and order lines. */
module MetadataKept {
  import opened Wrappers
  import opened Text
  import opened SetMetadata
  import opened MetadataLines

  /** A set or order line of either form of the front matter. */
  predicate FieldLine(line: string) {
    YamlSet(line) || YamlOrder(line) || BulletSet(line) || BulletOrder(line)
  }

  /** The other lines, in order. */
  function Others(lines: seq<string>): seq<string> {
    if lines == [] then [] else (if FieldLine(lines[0]) then [] else [lines[0]]) + Others(lines[1..])
  }

  lemma {:induction false} OthersJoin(a: seq<string>, b: seq<string>)
    ensures Others(a + b) == Others(a) + Others(b)
  {
    hide FieldLine;
    if a == [] {
      assert a + b == b;
    } else {
      assert (a + b)[0] == a[0] && (a + b)[1..] == a[1..] + b;
      OthersJoin(a[1..], b);
      var h := if FieldLine(a[0]) then [] else [a[0]];
      assert h + (Others(a[1..]) + Others(b)) == h + Others(a[1..]) + Others(b);
    }
  }

  lemma OneOther(line: string)
    ensures Others([line]) == if FieldLine(line) then [] else [line]
  {
    hide FieldLine;
    assert [line][1..] == [];
  }

  lemma {:induction false} NoOthers(lines: seq<string>)
    requires forall line | line in lines :: FieldLine(line)
    ensures Others(lines) == []
  {
    hide FieldLine;
    if lines != [] {
      assert lines[0] in lines && forall line | line in lines[1..] :: line in lines;
      NoOthers(lines[1..]);
    }
  }

  lemma OrderLineIsOrder(n: int)
    ensures BulletOrder("- Order: " + Int(n))
  {
    IntIsSolid(n);
    hide Int, IsInteger, Strip;
    var line := "- Order: " + Int(n);
    assert line[..8] == "- Order:" && line[8..] == " " + Int(n);
    StripPadded(Int(n));
  }

  lemma WrittenAreFields(ask: Ask)
    ensures ask.setId.Some? ==> FieldLine(YamlSetLine(ask)) && FieldLine(BulletSetLine(ask))
    ensures ask.order.Some? ==> FieldLine(YamlOrderLine(ask)) && FieldLine(BulletOrderLine(ask))
    ensures ask.setId.Some? ==> Others(YamlLines(ask)) == [] && Others(BulletLines(ask)) == []
  {
    hide Strip, IsInteger, Int, Others, BulletOrder;
    if ask.order.Some? {
      OrderLineIsOrder(ask.order.value);
    }
    if ask.setId.Some? {
      assert "- Set:" <= BulletSetLine(ask);
      NoOthers(YamlLines(ask));
      NoOthers(BulletLines(ask));
    }
  }

  lemma BeforeOthers(first: seq<string>, changed: bool, p: Pass, lines: seq<string>)
    requires lines != [] && Others(first) == Others([lines[0]]) && Others(p.lines) == Others(lines[1..])
    ensures Others(Before(first, changed, p).lines) == Others(lines)
  {
    hide Others;
    OthersJoin(first, p.lines);
    OthersJoin([lines[0]], lines[1..]);
    assert lines == [lines[0]] + lines[1..];
  }

  lemma HeadOthers(first: seq<string>, lines: seq<string>)
    requires Others(first) == []
    ensures Others(first + lines) == Others(lines)
  {
    hide Others;
    OthersJoin(first, lines);
    assert [] + Others(lines) == Others(lines);
  }

  lemma FieldAsField(line: string, written: string)
    requires FieldLine(line) && FieldLine(written)
    ensures Others([written]) == Others([line])
  {
    hide *;
    OneOther(line);
    OneOther(written);
  }

  lemma FieldLineIs(line: string)
    ensures YamlSet(line) || YamlOrder(line) || BulletSet(line) || BulletOrder(line) ==> FieldLine(line)
  {
    hide YamlSet, YamlOrder, BulletSet, BulletOrder;
  }

  lemma {:induction false} FencedKeeps(lines: seq<string>, ask: Ask, done: bool, any: bool)
    ensures Others(Fenced(lines, ask, done, any).lines) == Others(lines)
  {
    WrittenAreFields(ask);
    hide IsFence, YamlSet, YamlOrder, YamlSetLine, YamlOrderLine, YamlLines, BulletSetLine, BulletOrderLine, BulletLines, Others, FieldLine, Before;
    if lines != [] {
      var line, rest := lines[0], lines[1..];
      FieldLineIs(line);
      if any && IsFence(line) {
        if ask.setId.Some? {
          HeadOthers(YamlLines(ask), lines);
        }
      } else if YamlSet(line) && ask.setId.Some? {
        FencedKeeps(rest, ask, true, true);
        FieldAsField(line, YamlSetLine(ask));
        BeforeOthers([YamlSetLine(ask)], true, Fenced(rest, ask, true, true), lines);
      } else {
        var p := Fenced(rest, ask, done, true);
        FencedKeeps(rest, ask, done, true);
        BeforeOthers([line], false, p, lines);
        if !YamlSet(line) && ask.order.Some? && YamlOrder(line) {
          FieldAsField(line, YamlOrderLine(ask));
          BeforeOthers([YamlOrderLine(ask)], true, p, lines);
        }
      }
    }
  }

  lemma {:induction false} BulletsKeep(lines: seq<string>, ask: Ask, done: bool)
    ensures Others(Bullets(lines, ask, done).pass.lines) == Others(lines)
  {
    WrittenAreFields(ask);
    hide IsHeading, BulletSet, BulletOrder, YamlSetLine, YamlOrderLine, YamlLines, BulletSetLine, BulletOrderLine, BulletLines, Others, FieldLine, Before;
    if lines != [] {
      var line, rest := lines[0], lines[1..];
      FieldLineIs(line);
      if IsHeading(line) {
        if ask.setId.Some? {
          HeadOthers(BulletLines(ask), lines);
        }
      } else if BulletSet(line) && ask.setId.Some? {
        BulletsKeep(rest, ask, true);
        FieldAsField(line, BulletSetLine(ask));
        BeforeOthers([BulletSetLine(ask)], true, Bullets(rest, ask, true).pass, lines);
      } else {
        var p := Bullets(rest, ask, done).pass;
        BulletsKeep(rest, ask, done);
        BeforeOthers([line], false, p, lines);
        if !BulletSet(line) && ask.order.Some? && BulletOrder(line) {
          FieldAsField(line, BulletOrderLine(ask));
          BeforeOthers([BulletOrderLine(ask)], true, p, lines);
        }
      }
    }
  }

  lemma {:induction false} AnchorKeeps(lines: seq<string>, ask: Ask)
    requires ask.setId.Some?
    ensures AfterAnchor(lines, ask).Some? ==> Others(AfterAnchor(lines, ask).value) == Others(lines)
  {
    WrittenAreFields(ask);
    hide IsAnchor, BulletLines, Others, FieldLine;
    if lines != [] {
      var line, rest := lines[0], lines[1..];
      assert lines == [line] + rest;
      OthersJoin([line], rest);
      if IsAnchor(line) {
        OthersJoin([line] + BulletLines(ask), rest);
        OthersJoin([line], BulletLines(ask));
        assert Others([line]) + [] == Others([line]);
      } else {
        AnchorKeeps(rest, ask);
        if AfterAnchor(rest, ask).Some? {
          OthersJoin([line], AfterAnchor(rest, ask).value);
        }
      }
    }
  }

  lemma InsertedKeeps(lines: seq<string>, ask: Ask)
    requires ask.setId.Some?
    ensures Others(Inserted(lines, ask)) == Others(lines)
  {
    hide AfterAnchor, Others, BulletLines;
    AnchorKeeps(lines, ask);
    WrittenAreFields(ask);
    HeadOthers(BulletLines(ask), lines);
  }

  /** Whatever is asked for, all lines that are no set or order line stay as they are and in order. */
  lemma EditKeepsOtherLines(lines: seq<string>, ask: Ask)
    ensures Others(Edited(lines, ask).lines) == Others(lines)
  {
    hide *;
    EditedIs(lines, ask);
    if IsFenced(lines) {
      FencedKeeps(lines, ask, false, false);
    } else {
      BulletsKeep(lines, ask, false);
      if ask.setId.Some? {
        InsertedKeeps(Bullets(lines, ask, false).pass.lines, ask);
      }
    }
  }
}
