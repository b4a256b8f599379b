/** `artifact_rename._update_or_inject_set_metadata`: recording a set and an order in a record's front
    matter, which is either fenced YAML or a list of bullets. */
module SetMetadata {
  import opened Wrappers
  import opened Text
  import opened FileLines

  datatype Ask = Ask(setId: Option<string>, order: Option<int>)

  // ----- the lines the editor looks for -----

  predicate IsFence(line: string) {
    Strip(line) == "---"
  }

  /** `^set:\s*` ignoring case. The long s is the one character outside ASCII that folds to a letter here. */
  predicate YamlSet(line: string) {
    |line| >= 4 && line[0] in {'s', 'S', '\U{17f}'} && line[1] in {'e', 'E'} && line[2] in {'t', 'T'} && line[3] == ':'
  }

  /** `^order:\s*` ignoring case. */
  predicate YamlOrder(line: string) {
    |line| >= 6 && line[0] in {'o', 'O'} && line[1] in {'r', 'R'} && line[2] in {'d', 'D'} && line[3] in {'e', 'E'}
    && line[4] in {'r', 'R'} && line[5] == ':'
  }

  /** `^- Set:\s*(.+?)\s*$` */
  predicate BulletSet(line: string) {
    "- Set:" <= line && |line| > 6
  }

  /** `^- Order:\s*(-?\d+)\s*$` */
  predicate BulletOrder(line: string) {
    "- Order:" <= line && IsInteger(Strip(line[8..]))
  }

  predicate IsHeading(line: string) {
    "## " <= line
  }

  // ----- the lines it writes -----

  function YamlSetLine(ask: Ask): string
    requires ask.setId.Some?
  {
    "set: " + ask.setId.value
  }

  function YamlOrderLine(ask: Ask): string
    requires ask.order.Some?
  {
    "order: " + Int(ask.order.value)
  }

  function BulletSetLine(ask: Ask): string
    requires ask.setId.Some?
  {
    "- Set: " + ask.setId.value
  }

  function BulletOrderLine(ask: Ask): string
    requires ask.order.Some?
  {
    "- Order: " + Int(ask.order.value)
  }

  /** The lines put in when no set line was found. */
  function YamlLines(ask: Ask): seq<string>
    requires ask.setId.Some?
  {
    [YamlSetLine(ask)] + if ask.order.Some? then [YamlOrderLine(ask)] else []
  }

  function BulletLines(ask: Ask): seq<string>
    requires ask.setId.Some?
  {
    [BulletSetLine(ask)] + if ask.order.Some? then [BulletOrderLine(ask)] else []
  }

  // ----- what one pass does to the lines -----

  datatype Pass = Pass(lines: seq<string>, updated: bool)

  function Before(first: seq<string>, changed: bool, p: Pass): Pass {
    Pass(first + p.lines, changed || p.updated)
  }

  /** Inside the fenced front matter; `any` says whether a line was already taken over. */
  function Fenced(lines: seq<string>, ask: Ask, done: bool, any: bool): Pass {
    if lines == [] then Pass([], false)
    else
      var line, rest := lines[0], lines[1..];
      if any && IsFence(line) then
        if ask.setId.Some? && !done then Pass(YamlLines(ask) + lines, true) else Pass(lines, false)
      else if YamlSet(line) then
        if ask.setId.Some? then Before([YamlSetLine(ask)], true, Fenced(rest, ask, true, true))
        else Before([line], false, Fenced(rest, ask, done, true))
      else if ask.order.Some? && YamlOrder(line) then Before([YamlOrderLine(ask)], true, Fenced(rest, ask, done, true))
      else Before([line], false, Fenced(rest, ask, done, true))
  }

  datatype BulletPass = BulletPass(pass: Pass, done: bool)

  /** Inside the bullet front matter. */
  function Bullets(lines: seq<string>, ask: Ask, done: bool): BulletPass {
    if lines == [] then BulletPass(Pass([], false), done)
    else
      var line, rest := lines[0], lines[1..];
      if IsHeading(line) then
        if ask.setId.Some? && !done then BulletPass(Pass(BulletLines(ask) + lines, true), true)
        else BulletPass(Pass(lines, false), done)
      else if BulletSet(line) then
        if ask.setId.Some? then
          var p := Bullets(rest, ask, true);
          p.(pass := Before([BulletSetLine(ask)], true, p.pass))
        else
          var p := Bullets(rest, ask, done);
          p.(pass := Before([line], false, p.pass))
      else
        var p := Bullets(rest, ask, done);
        if ask.order.Some? && BulletOrder(line) then p.(pass := Before([BulletOrderLine(ask)], true, p.pass))
        else p.(pass := Before([line], false, p.pass))
  }

  predicate IsAnchor(line: string) {
    "# " <= line || "- Date:" <= line
  }

  /** After the first title or date line; None when there is none. */
  function AfterAnchor(lines: seq<string>, ask: Ask): Option<seq<string>>
    requires ask.setId.Some?
  {
    if lines == [] then None
    else if IsAnchor(lines[0]) then Some([lines[0]] + BulletLines(ask) + lines[1..])
    else
      match AfterAnchor(lines[1..], ask)
      case None => None
      case Some(r) => Some([lines[0]] + r)
  }

  function Inserted(lines: seq<string>, ask: Ask): seq<string>
    requires ask.setId.Some?
  {
    match AfterAnchor(lines, ask)
    case None => BulletLines(ask) + lines
    case Some(r) => r
  }

  predicate IsFenced(lines: seq<string>) {
    lines != [] && IsFence(lines[0])
  }

  /** The edited lines, and whether anything is to be written. */
  function Edited(lines: seq<string>, ask: Ask): Pass {
    if IsFenced(lines) then Fenced(lines, ask, false, false)
    else
      var b := Bullets(lines, ask, false);
      if ask.setId.Some? && !b.done then Pass(Inserted(b.pass.lines, ask), true) else b.pass
  }

  /** The file after the call. */
  function Updated(text: string, ask: Ask, normal: bool): string {
    var p := Edited(Lines(text), ask);
    if p.updated then Written(p.lines, normal) else text
  }

  // ----- the loops -----

  /** What is left to do: the pass while the front matter lasts, a copy after it. */
  function FencedLeft(lines: seq<string>, ask: Ask, done: bool, any: bool, inFrontMatter: bool): Pass {
    if inFrontMatter then Fenced(lines, ask, done, any) else Pass(lines, false)
  }

  method FencedLoop(lines: seq<string>, ask: Ask) returns (newLines: seq<string>, updated: bool)
    ensures Fenced(lines, ask, false, false) == Pass(newLines, updated)
  {
    newLines, updated := [], false;
    var setDone, inFrontMatter := false, true;
    ghost var all := Fenced(lines, ask, false, false);
    assert lines[0..] == lines;
    for n := 0 to |lines|
      invariant n > 0 <==> newLines != []
      invariant all == Before(newLines, updated, FencedLeft(lines[n..], ask, setDone, n > 0, inFrontMatter))
    {
      hide *;
      var line := lines[n];
      ghost var rest := lines[n + 1..];
      assert lines[n..] == [line] + rest;
      var emit, changed := [line], false;
      FencedStep(line, rest, ask, setDone, n > 0, inFrontMatter);
      if inFrontMatter && IsFence(line) && newLines != [] {
        inFrontMatter := false;
        if ask.setId.Some? && !setDone {
          emit, changed, setDone := YamlLines(ask) + [line], true, true;
        }
      } else if inFrontMatter && YamlSet(line) {
        if ask.setId.Some? {
          emit, changed, setDone := [YamlSetLine(ask)], true, true;
        }
      } else if inFrontMatter && ask.order.Some? && YamlOrder(line) {
        emit, changed := [YamlOrderLine(ask)], true;
      }
      BeforeTwice(newLines, emit, updated, changed, FencedLeft(rest, ask, setDone, true, inFrontMatter));
      newLines, updated := newLines + emit, updated || changed;
    }
    assert lines[|lines|..] == [] && newLines + [] == newLines;
  }

  /** One line of the fenced pass. */
  lemma FencedStep(line: string, rest: seq<string>, ask: Ask, done: bool, any: bool, inFrontMatter: bool)
    ensures FencedLeft([line] + rest, ask, done, any, inFrontMatter)
            == if inFrontMatter && IsFence(line) && any then
                 (if ask.setId.Some? && !done then Before(YamlLines(ask) + [line], true, FencedLeft(rest, ask, true, true, false))
                  else Before([line], false, FencedLeft(rest, ask, done, true, false)))
               else if inFrontMatter && YamlSet(line) then
                 (if ask.setId.Some? then Before([YamlSetLine(ask)], true, FencedLeft(rest, ask, true, true, true))
                  else Before([line], false, FencedLeft(rest, ask, done, true, true)))
               else if inFrontMatter && ask.order.Some? && YamlOrder(line) then
                 Before([YamlOrderLine(ask)], true, FencedLeft(rest, ask, done, true, true))
               else Before([line], false, FencedLeft(rest, ask, done, true, inFrontMatter))
  {
    hide IsFence, YamlSet, YamlOrder, YamlSetLine, YamlOrderLine, YamlLines;
    assert ([line] + rest)[1..] == rest;
    if ask.setId.Some? {
      assert YamlLines(ask) + [line] + rest == YamlLines(ask) + ([line] + rest);
    }
  }

  lemma BeforeTwice(before: seq<string>, more: seq<string>, was: bool, now: bool, p: Pass)
    ensures Before(before, was, Before(more, now, p)) == Before(before + more, was || now, p)
    ensures more != [] ==> before + more != []
  {
    assert before + (more + p.lines) == before + more + p.lines;
  }

  function BulletsLeft(lines: seq<string>, ask: Ask, done: bool, inFrontMatter: bool): BulletPass {
    if inFrontMatter then Bullets(lines, ask, done) else BulletPass(Pass(lines, false), done)
  }

  function BeforeBullets(first: seq<string>, changed: bool, b: BulletPass): BulletPass {
    BulletPass(Before(first, changed, b.pass), b.done)
  }

  method BulletLoop(lines: seq<string>, ask: Ask) returns (newLines: seq<string>, updated: bool, setDone: bool)
    ensures Bullets(lines, ask, false) == BulletPass(Pass(newLines, updated), setDone)
  {
    newLines, updated, setDone := [], false, false;
    var inFrontMatter := true;
    hide *;
    ghost var all := Bullets(lines, ask, false);
    assert lines[0..] == lines;
    BulletEnds(lines, ask);
    for n := 0 to |lines|
      invariant all == BeforeBullets(newLines, updated, BulletsLeft(lines[n..], ask, setDone, inFrontMatter))
    {
      var line := lines[n];
      ghost var rest := lines[n + 1..];
      assert lines[n..] == [line] + rest;
      BulletStep(line, rest, ask, setDone, inFrontMatter);
      var emit, changed := [line], false;
      if inFrontMatter && IsHeading(line) {
        inFrontMatter := false;
        if ask.setId.Some? && !setDone {
          emit, changed, setDone := BulletLines(ask) + [line], true, true;
        }
      } else if inFrontMatter && BulletSet(line) {
        if ask.setId.Some? {
          emit, changed, setDone := [BulletSetLine(ask)], true, true;
        }
      } else if inFrontMatter && ask.order.Some? && BulletOrder(line) {
        emit, changed := [BulletOrderLine(ask)], true;
      }
      BeforeBulletsTwice(newLines, emit, updated, changed, BulletsLeft(rest, ask, setDone, inFrontMatter));
      newLines, updated := newLines + emit, updated || changed;
    }
    assert lines[|lines|..] == [];
    BulletDone(newLines, updated, ask, setDone, inFrontMatter);
  }

  lemma BulletEnds(lines: seq<string>, ask: Ask)
    ensures BeforeBullets([], false, BulletsLeft(lines, ask, false, true)) == Bullets(lines, ask, false)
  {
    hide Bullets;
    assert [] + Bullets(lines, ask, false).pass.lines == Bullets(lines, ask, false).pass.lines;
  }

  lemma BulletDone(newLines: seq<string>, updated: bool, ask: Ask, done: bool, inFrontMatter: bool)
    ensures BeforeBullets(newLines, updated, BulletsLeft([], ask, done, inFrontMatter)) == BulletPass(Pass(newLines, updated), done)
  {
    assert newLines + [] == newLines;
  }

  lemma BulletStep(line: string, rest: seq<string>, ask: Ask, done: bool, inFrontMatter: bool)
    ensures BulletsLeft([line] + rest, ask, done, inFrontMatter)
            == if inFrontMatter && IsHeading(line) then
                 (if ask.setId.Some? && !done then BeforeBullets(BulletLines(ask) + [line], true, BulletsLeft(rest, ask, true, false))
                  else BeforeBullets([line], false, BulletsLeft(rest, ask, done, false)))
               else if inFrontMatter && BulletSet(line) then
                 (if ask.setId.Some? then BeforeBullets([BulletSetLine(ask)], true, BulletsLeft(rest, ask, true, true))
                  else BeforeBullets([line], false, BulletsLeft(rest, ask, done, true)))
               else if inFrontMatter && ask.order.Some? && BulletOrder(line) then
                 BeforeBullets([BulletOrderLine(ask)], true, BulletsLeft(rest, ask, done, true))
               else BeforeBullets([line], false, BulletsLeft(rest, ask, done, inFrontMatter))
  {
    hide IsHeading, BulletSet, BulletOrder, BulletSetLine, BulletOrderLine, BulletLines;
    assert ([line] + rest)[1..] == rest;
    if ask.setId.Some? {
      assert BulletLines(ask) + [line] + rest == BulletLines(ask) + ([line] + rest);
    }
  }

  lemma BeforeBulletsTwice(before: seq<string>, more: seq<string>, was: bool, now: bool, b: BulletPass)
    ensures BeforeBullets(before, was, BeforeBullets(more, now, b)) == BeforeBullets(before + more, was || now, b)
  {
    BeforeTwice(before, more, was, now, b.pass);
  }

  function Through(before: seq<string>, r: Option<seq<string>>): Option<seq<string>> {
    match r
    case None => None
    case Some(lines) => Some(before + lines)
  }

  method InsertLoop(lines: seq<string>, ask: Ask) returns (res: seq<string>)
    requires ask.setId.Some?
    ensures res == Inserted(lines, ask)
  {
    res := [];
    var inserted := false;
    ghost var all := AfterAnchor(lines, ask);
    assert lines[0..] == lines && lines[..0] == [];
    ThroughNothing(all);
    for n := 0 to |lines|
      invariant inserted ==> all == Some(res + lines[n..])
      invariant !inserted ==> res == lines[..n] && all == Through(res, AfterAnchor(lines[n..], ask))
    {
      hide *;
      var line := lines[n];
      ghost var rest := lines[n + 1..];
      assert lines[n..] == [line] + rest;
      AnchorStep(line, rest, res, ask);
      assert lines[..n + 1] == lines[..n] + [line];
      assert res + ([line] + rest) == res + [line] + rest;
      res := res + [line];
      if !inserted && IsAnchor(line) {
        res := res + BulletLines(ask);
        inserted := true;
      }
    }
    assert lines[..|lines|] == lines && lines[|lines|..] == [] && res + [] == res;
    if !inserted {
      res := BulletLines(ask) + res;
    }
  }

  lemma ThroughNothing(r: Option<seq<string>>)
    ensures Through([], r) == r
  {
    if r.Some? {
      assert [] + r.value == r.value;
    }
  }

  lemma AnchorStep(line: string, rest: seq<string>, before: seq<string>, ask: Ask)
    requires ask.setId.Some?
    ensures Through(before, AfterAnchor([line] + rest, ask))
            == if IsAnchor(line) then Some(before + [line] + BulletLines(ask) + rest) else Through(before + [line], AfterAnchor(rest, ask))
  {
    hide IsAnchor, BulletLines;
    assert ([line] + rest)[1..] == rest;
    assert before + ([line] + BulletLines(ask) + rest) == before + [line] + BulletLines(ask) + rest;
    var r := AfterAnchor(rest, ask);
    if r.Some? {
      assert before + ([line] + r.value) == before + [line] + r.value;
    }
  }

  /** The whole call, on the text of the file. */
  method UpdateSetMetadata(text: string, ask: Ask, normal: bool) returns (result: string)
    ensures result == Updated(text, ask, normal)
  {
    hide *;
    var lines := Lines(text);
    var newLines, updated;
    EditedIs(lines, ask);
    if IsFenced(lines) {
      newLines, updated := FencedLoop(lines, ask);
    } else {
      var setDone;
      newLines, updated, setDone := BulletLoop(lines, ask);
      if ask.setId.Some? && !setDone {
        newLines := InsertLoop(newLines, ask);
        updated := true;
      }
    }
    UpdatedIs(text, ask, normal);
    result := if updated then Written(newLines, normal) else text;
  }

  lemma EditedIs(lines: seq<string>, ask: Ask)
    ensures IsFenced(lines) ==> Edited(lines, ask) == Fenced(lines, ask, false, false)
    ensures !IsFenced(lines) ==>
              var b := Bullets(lines, ask, false);
              Edited(lines, ask) == if ask.setId.Some? && !b.done then Pass(Inserted(b.pass.lines, ask), true) else b.pass
  {
    hide Fenced, Bullets, Inserted, IsFenced;
  }

  lemma UpdatedIs(text: string, ask: Ask, normal: bool)
    ensures var p := Edited(Lines(text), ask); Updated(text, ask, normal) == if p.updated then Written(p.lines, normal) else text
  {
    hide Edited, Lines, Written;
  }
}
