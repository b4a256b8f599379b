/** Every line the metadata editor leaves in a file is an old one or one of its own. */
module MetadataMade {
  import opened Wrappers
  import opened Text
  import opened SetMetadata
  import opened MetadataLines

  // ----- what a pass writes -----

  predicate EditorLine(line: string, ask: Ask) {
    ask.setId.Some? && (line == YamlSetLine(ask) || line == BulletSetLine(ask)
                        || (ask.order.Some? && (line == YamlOrderLine(ask) || line == BulletOrderLine(ask))))
  }

  /** Every line is one of the old ones or one the editor writes; the last is so too; an update shows. */
  predicate Made(lines: seq<string>, p: Pass, ask: Ask) {
    && (forall line | line in p.lines :: line in lines || EditorLine(line, ask))
    && (lines != [] ==> p.lines != [] && (p.lines[|p.lines| - 1] == lines[|lines| - 1] || EditorLine(p.lines[|p.lines| - 1], ask)))
    && (p.updated ==> exists line :: line in p.lines && EditorLine(line, ask))
  }

  lemma MadeCons(line: string, emit: string, changed: bool, rest: seq<string>, p: Pass, ask: Ask)
    requires Made(rest, p, ask) && (emit == line || EditorLine(emit, ask)) && (changed ==> EditorLine(emit, ask))
    requires p.lines == [] ==> rest == []
    requires rest == [] ==> p.lines == []
    ensures Made([line] + rest, Before([emit], changed, p), ask)
  {
    hide EditorLine;
    var all := [emit] + p.lines;
    assert forall l | l in all :: l == emit || l in p.lines;
    assert emit in all && forall l | l in p.lines :: l in all;
    assert forall l | l in rest :: l in [line] + rest;
    assert line in [line] + rest;
    if rest != [] {
      assert all[|all| - 1] == p.lines[|p.lines| - 1];
    }
  }

  lemma MadeHeads(heads: seq<string>, lines: seq<string>, ask: Ask)
    requires lines != [] && heads != [] && forall line | line in heads :: EditorLine(line, ask)
    ensures Made(lines, Pass(heads + lines, true), ask)
  {
    hide EditorLine;
    assert heads[0] in heads + lines;
  }

  lemma MadeSame(lines: seq<string>, ask: Ask)
    ensures Made(lines, Pass(lines, false), ask)
  {
    hide EditorLine;
  }

  lemma LinesAreWritten(ask: Ask)
    requires ask.setId.Some?
    ensures forall line | line in YamlLines(ask) :: EditorLine(line, ask)
    ensures forall line | line in BulletLines(ask) :: EditorLine(line, ask)
    ensures EditorLine(YamlSetLine(ask), ask) && EditorLine(BulletSetLine(ask), ask)
    ensures ask.order.Some? ==> EditorLine(YamlOrderLine(ask), ask) && EditorLine(BulletOrderLine(ask), ask)
    ensures YamlLines(ask) != [] && BulletLines(ask) != []
  {
    hide YamlSetLine, BulletSetLine, YamlOrderLine, BulletOrderLine;
  }

  lemma {:induction false} FencedMakes(lines: seq<string>, ask: Ask, done: bool, any: bool)
    requires ask.setId.Some?
    ensures Made(lines, Fenced(lines, ask, done, any), ask)
    ensures lines == [] <==> Fenced(lines, ask, done, any).lines == []
  {
    LinesAreWritten(ask);
    hide IsFence, YamlSet, YamlOrder, YamlSetLine, YamlOrderLine, YamlLines, BulletLines, EditorLine, Made;
    if lines == [] {
      MadeSame(lines, ask);
    } else {
      var line, rest := lines[0], lines[1..];
      assert lines == [line] + rest;
      if any && IsFence(line) {
        MadeHeads(YamlLines(ask), lines, ask);
        MadeSame(lines, ask);
      } else if YamlSet(line) {
        FencedMakes(rest, ask, true, true);
        MadeCons(line, YamlSetLine(ask), true, rest, Fenced(rest, ask, true, true), ask);
      } else {
        FencedMakes(rest, ask, done, true);
        var p := Fenced(rest, ask, done, true);
        MadeCons(line, line, false, rest, p, ask);
        if ask.order.Some? {
          MadeCons(line, YamlOrderLine(ask), true, rest, p, ask);
        }
      }
    }
  }

  lemma {:induction false} BulletsMake(lines: seq<string>, ask: Ask, done: bool)
    requires ask.setId.Some?
    ensures Made(lines, Bullets(lines, ask, done).pass, ask)
    ensures lines == [] <==> Bullets(lines, ask, done).pass.lines == []
  {
    LinesAreWritten(ask);
    hide IsHeading, BulletSet, BulletOrder, BulletSetLine, BulletOrderLine, YamlLines, BulletLines, EditorLine, Made;
    if lines == [] {
      MadeSame(lines, ask);
    } else {
      var line, rest := lines[0], lines[1..];
      assert lines == [line] + rest;
      if IsHeading(line) {
        MadeHeads(BulletLines(ask), lines, ask);
        MadeSame(lines, ask);
      } else if BulletSet(line) {
        BulletsMake(rest, ask, true);
        MadeCons(line, BulletSetLine(ask), true, rest, Bullets(rest, ask, true).pass, ask);
      } else {
        BulletsMake(rest, ask, done);
        var p := Bullets(rest, ask, done).pass;
        MadeCons(line, line, false, rest, p, ask);
        if ask.order.Some? {
          MadeCons(line, BulletOrderLine(ask), true, rest, p, ask);
        }
      }
    }
  }

  /** Inserting adds only the editor's lines, and never in front of the last. */
  predicate InsertedInto(lines: seq<string>, r: seq<string>, ask: Ask)
    requires ask.setId.Some?
  {
    && (forall line | line in r :: line in lines || line in BulletLines(ask))
    && r != [] && BulletSetLine(ask) in r
    && (r[|r| - 1] in BulletLines(ask) || (lines != [] && r[|r| - 1] == lines[|lines| - 1]))
  }

  lemma {:induction false} AnchorInserts(lines: seq<string>, ask: Ask)
    requires ask.setId.Some?
    ensures var r := AfterAnchor(lines, ask); r.Some? ==> InsertedInto(lines, r.value, ask) && r.value[0] == lines[0]
    ensures AfterAnchor(lines, ask).Some? ==> lines != []
  {
    LinesAreWritten(ask);
    assert BulletSetLine(ask) in BulletLines(ask);
    hide BulletSetLine, BulletOrderLine, IsAnchor, BulletLines;
    if lines != [] {
      var line, rest := lines[0], lines[1..];
      if IsAnchor(line) {
        AnchorHere(line, rest, BulletLines(ask));
        assert lines == [line] + rest;
      } else {
        AnchorInserts(rest, ask);
        var r := AfterAnchor(rest, ask);
        if r.Some? {
          InsertedBehind(line, rest, r.value, ask);
          assert lines == [line] + rest;
        }
      }
    }
  }

  lemma InsertedBehind(line: string, rest: seq<string>, r: seq<string>, ask: Ask)
    requires ask.setId.Some? && InsertedInto(rest, r, ask)
    ensures InsertedInto([line] + rest, [line] + r, ask)
  {
    hide BulletSetLine, BulletLines;
    var all, lines := [line] + r, [line] + rest;
    assert forall l | l in all :: l == line || l in r;
    assert forall l | l in rest :: l in lines;
    assert all[|all| - 1] == r[|r| - 1];
    assert rest != [] ==> lines[|lines| - 1] == rest[|rest| - 1];
  }

  lemma AnchorHere(line: string, rest: seq<string>, more: seq<string>)
    requires more != []
    ensures var r := [line] + more + rest;
            && (forall l | l in r :: l in [line] + rest || l in more)
            && (forall l | l in more :: l in r)
            && r[|r| - 1] == if rest == [] then more[|more| - 1] else rest[|rest| - 1]
  {
    var r := [line] + more + rest;
    forall l | l in more
      ensures l in r
    {
      var i :| 0 <= i < |more| && more[i] == l;
      assert r[i + 1] == l;
    }
  }

  lemma InsertedMakes(lines: seq<string>, ask: Ask)
    requires ask.setId.Some?
    ensures InsertedInto(lines, Inserted(lines, ask), ask)
  {
    LinesAreWritten(ask);
    assert BulletLines(ask)[0] == BulletSetLine(ask);
    hide BulletSetLine, BulletOrderLine, AfterAnchor, BulletLines;
    AnchorInserts(lines, ask);
    assert BulletLines(ask)[0] in BulletLines(ask) + lines;
  }

  lemma MadeInsertion(lines: seq<string>, p: Pass, r: seq<string>, ask: Ask)
    requires ask.setId.Some? && Made(lines, p, ask) && InsertedInto(p.lines, r, ask)
    ensures Made(lines, Pass(r, true), ask)
  {
    LinesAreWritten(ask);
    hide EditorLine, BulletLines, BulletSetLine, YamlLines;
    assert BulletSetLine(ask) in r;
  }

  lemma EditedMakes(lines: seq<string>, ask: Ask)
    requires ask.setId.Some?
    ensures Made(lines, Edited(lines, ask), ask)
  {
    hide *;
    EditedIs(lines, ask);
    FencedMakes(lines, ask, false, false);
    BulletsMake(lines, ask, false);
    var p := Bullets(lines, ask, false).pass;
    InsertedMakes(p.lines, ask);
    MadeInsertion(lines, p, Inserted(p.lines, ask), ask);
  }

  // ----- what the editor's lines say -----

  predicate SaysSet(line: string, setId: string) {
    line == "set: " + setId || line == "- Set: " + setId
  }

  /** A line that gives the order, in either form of the front matter. */
  predicate SaysOrder(line: string, order: int) {
    || ("order: " <= line && IsInteger(line[7..]) && IntValue(line[7..]) == order)
    || ("- Order: " <= line && IsInteger(line[9..]) && IntValue(line[9..]) == order)
  }

  lemma EditorLineSays(line: string, ask: Ask)
    requires EditorLine(line, ask)
    ensures ask.setId.Some? && (SaysSet(line, ask.setId.value) || (ask.order.Some? && SaysOrder(line, ask.order.value)))
  {
    if ask.order.Some? {
      IntReads(ask.order.value);
      var n := Int(ask.order.value);
      assert ("order: " + n)[7..] == n && ("- Order: " + n)[9..] == n;
    }
  }

  /** Every line of an edited file is an old line, or names exactly the set asked for, or reads as exactly the
      order asked for; and an update leaves one of the new lines in the file. */
  lemma EditedLinesSayTheAsk(lines: seq<string>, ask: Ask)
    requires ask.setId.Some?
    ensures var p := Edited(lines, ask);
            && (forall line | line in p.lines ::
                  line in lines || SaysSet(line, ask.setId.value) || (ask.order.Some? && SaysOrder(line, ask.order.value)))
            && (p.updated ==>
                  exists line | line in p.lines :: SaysSet(line, ask.setId.value) || (ask.order.Some? && SaysOrder(line, ask.order.value)))
  {
    hide Edited, EditorLine, SaysSet, SaysOrder;
    EditedMakes(lines, ask);
    forall line | EditorLine(line, ask)
      ensures SaysSet(line, ask.setId.value) || (ask.order.Some? && SaysOrder(line, ask.order.value))
    {
      EditorLineSays(line, ask);
    }
  }
}
