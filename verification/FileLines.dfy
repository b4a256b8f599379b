/** Reading a file as lines and writing lines back as a file, as the metadata editor does. */
module FileLines {
  import opened Text
  import opened Markdown

  /** A line without its line break. */
  function DropBreak(line: string): (r: string)
    ensures r <= line
  {
    if EndsWith(line, "\r\n") then line[..|line| - 2]
    else if line != "" && IsLineBreak(line[|line| - 1]) then line[..|line| - 1]
    else line
  }

  /** `str.splitlines()` */
  function Lines(s: string): (lines: seq<string>)
    ensures |lines| == |SplitLines(s)| && forall i | 0 <= i < |lines| :: lines[i] == DropBreak(SplitLines(s)[i])
  {
    seq(|SplitLines(s)|, i requires 0 <= i < |SplitLines(s)| => DropBreak(SplitLines(s)[i]))
  }

  predicate OneLine(line: string) {
    forall i | 0 <= i < |line| :: !IsLineBreak(line[i])
  }

  predicate BreakFree(lines: seq<string>) {
    forall i | 0 <= i < |lines| :: OneLine(lines[i])
  }

  lemma BreakIsDropped(s: string)
    requires s != "" && IsLineBreak(s[0])
    ensures DropBreak(FirstLine(s)) == ""
  {
    if s[0] == '\r' && |s| > 1 && s[1] == '\n' {
      assert s[..2] == "\r\n";
      assert s[..2][0..] == s[..2];
    }
  }

  lemma FirstLineStep(s: string)
    requires s != "" && !IsLineBreak(s[0])
    ensures FirstLine(s) == [s[0]] + FirstLine(s[1..])
  {
  }

  lemma {:induction false} FirstLineIsOneLine(s: string)
    ensures OneLine(DropBreak(FirstLine(s)))
  {
    if s == "" {
    } else {
      hide DropBreak, FirstLine, IsLineBreak;
      if IsLineBreak(s[0]) {
        BreakIsDropped(s);
      } else {
        FirstLineStep(s);
        FirstLineIsOneLine(s[1..]);
        ConsDropsBreak(s[0], FirstLine(s[1..]));
      }
    }
  }

  lemma ConsDropsBreak(c: char, line: string)
    requires !IsLineBreak(c)
    ensures DropBreak([c] + line) == [c] + DropBreak(line)
  {
    var l := [c] + line;
    if |line| >= 2 {
      assert l[|l| - 2..] == line[|line| - 2..];
    } else if |line| == 1 {
      assert l[|l| - 2..][0] == c;
    }
  }

  lemma {:induction false} SplitLinesAreOneLine(s: string)
    ensures forall i | 0 <= i < |SplitLines(s)| :: OneLine(DropBreak(SplitLines(s)[i]))
    decreases |s|
  {
    hide FirstLine, DropBreak, OneLine;
    if s != "" {
      FirstLineIsOneLine(s);
      SplitLinesAreOneLine(s[|FirstLine(s)|..]);
    }
  }

  lemma LinesBreakFree(s: string)
    ensures BreakFree(Lines(s))
  {
    hide SplitLines, OneLine, DropBreak;
    SplitLinesAreOneLine(s);
  }

  lemma BreakFreeIsLFFree(lines: seq<string>)
    requires BreakFree(lines)
    ensures LFFree(lines)
  {
  }

  lemma DropOneBreak(line: string)
    requires OneLine(line)
    ensures DropBreak(line + "\n") == line
  {
    var l := line + "\n";
    if line != "" {
      assert l[|l| - 2..][0] == line[|line| - 1];
    }
    assert l[..|l| - 1] == line;
  }

  lemma {:induction false} SplitLinesOfJoined(lines: seq<string>)
    requires lines != [] && BreakFree(lines)
    ensures |SplitLines(JoinLF(lines) + "\n")| == |lines|
    ensures forall i | 0 <= i < |lines| :: SplitLines(JoinLF(lines) + "\n")[i] == lines[i] + "\n"
  {
    hide SplitLines;
    forall c | c in lines[0]
      ensures !IsLineBreak(c)
    {
      assert OneLine(lines[0]);
    }
    if |lines| == 1 {
      SplitCons(lines[0], "");
      assert lines[0] + "\n" + "" == lines[0] + "\n";
      SplitNone();
    } else {
      var rest := JoinLF(lines[1..]) + "\n";
      SplitLinesOfJoined(lines[1..]);
      SplitCons(lines[0], rest);
      assert lines[0] + "\n" + rest == JoinLF(lines) + "\n";
    }
  }

  lemma SplitNone()
    ensures SplitLines("") == []
  {
  }

  lemma LinesOfJoined(lines: seq<string>)
    requires lines != [] && BreakFree(lines)
    ensures Lines(JoinLF(lines) + "\n") == lines
  {
    hide SplitLines, JoinLF, DropBreak, OneLine;
    SplitLinesOfJoined(lines);
    forall i | 0 <= i < |lines|
      ensures Lines(JoinLF(lines) + "\n")[i] == lines[i]
    {
      DropOneBreak(lines[i]);
    }
  }

  // ----- writing -----

  /** Without the blank lines at the end, and the last line right-stripped. */
  function RTrim(lines: seq<string>): (r: seq<string>)
    ensures |r| <= |lines|
    ensures r != [] ==> !AllSpace(lines[|r| - 1]) && r[|r| - 1] == RStrip(lines[|r| - 1])
    ensures forall i | 0 <= i < |r| - 1 :: r[i] == lines[i]
    ensures forall i | |r| <= i < |lines| :: AllSpace(lines[i])
  {
    if lines == [] then []
    else if AllSpace(lines[|lines| - 1]) then RTrim(lines[..|lines| - 1])
    else lines[..|lines| - 1] + [RStrip(lines[|lines| - 1])]
  }

  lemma {:induction false} RStripDropsSpace(a: string, b: string)
    requires AllSpace(b)
    ensures RStrip(a + b) == RStrip(a)
    decreases |b|
  {
    if b == "" {
      assert a + b == a;
    } else {
      assert (a + b)[..|a + b| - 1] == a + b[..|b| - 1];
      RStripDropsSpace(a, b[..|b| - 1]);
    }
  }

  lemma RStripOfEnd(a: string, b: string)
    requires !AllSpace(b)
    ensures RStrip(a + b) == a + RStrip(b) && RStrip(b) != ""
  {
    var r := RStrip(b);
    assert b[0..] == b;
    assert b == r + b[|r|..];
    assert a + b == (a + r) + b[|r|..];
    RStripDropsSpace(a + r, b[|r|..]);
  }

  lemma {:induction false} RStripJoined(lines: seq<string>)
    ensures RStrip(JoinLF(lines)) == JoinLF(RTrim(lines))
    decreases |lines|
  {
    hide *;
    RStripOfNone();
    if lines != [] {
      var init, last := lines[..|lines| - 1], lines[|lines| - 1];
      assert init + [last] == lines;
      RTrimStep(init, last);
      JoinWith(init, last);
      if AllSpace(last) {
        SpaceEnd(init, last);
        RStripJoined(init);
      } else {
        JoinWith(init, RStrip(last));
        RStripOfEnd(Head(init), last);
      }
    }
  }

  lemma SpaceEnd(init: seq<string>, last: string)
    requires AllSpace(last)
    ensures RStrip(Head(init) + last) == RStrip(JoinLF(init))
  {
    hide *;
    if init == [] {
      HeadOfNone();
      RStripOfNone();
      RStripDropsSpace("", last);
    } else {
      SpaceLine(last);
      HeadIs(init);
      RStripDropsSpace(JoinLF(init), "\n" + last);
      assert JoinLF(init) + "\n" + last == JoinLF(init) + ("\n" + last);
    }
  }

  function Head(init: seq<string>): string {
    if init == [] then "" else JoinLF(init) + "\n"
  }

  lemma HeadOfNone()
    ensures Head([]) == ""
  {
  }

  lemma HeadIs(init: seq<string>)
    requires init != []
    ensures Head(init) == JoinLF(init) + "\n"
  {
  }

  lemma JoinWith(init: seq<string>, last: string)
    ensures JoinLF(init + [last]) == Head(init) + last
  {
    if init == [] {
      assert "" + last == last;
    } else {
      JoinSnoc(init, last);
    }
  }

  lemma RTrimStep(init: seq<string>, last: string)
    ensures RTrim(init + [last]) == if AllSpace(last) then RTrim(init) else init + [RStrip(last)]
    ensures RTrim([]) == []
  {
    hide RStrip, AllSpace;
    assert (init + [last])[..|init|] == init;
  }

  lemma RStripOfNone()
    ensures RStrip("") == "" && JoinLF([]) == "" && RTrim([]) == []
  {
  }

  lemma SpaceLine(line: string)
    requires AllSpace(line)
    ensures AllSpace("\n" + line)
  {
  }

  /** `"\n".join(lines).rstrip() + "\n"` through the atomic writer; `normal` says whether the writer
      normalises the file. */
  function Written(lines: seq<string>, normal: bool): string {
    var text := RStrip(JoinLF(lines)) + "\n";
    if normal then Normalize(text) else text
  }

  /** The lines a reader of the written file gets. */
  function Tidy(lines: seq<string>, normal: bool): seq<string> {
    if normal then RStripEach(RTrim(lines)) else RTrim(lines)
  }

  lemma RStripOneLine(line: string)
    requires OneLine(line)
    ensures OneLine(RStrip(line))
  {
  }

  lemma RTrimBreakFree(lines: seq<string>)
    requires BreakFree(lines)
    ensures BreakFree(RTrim(lines)) && BreakFree(RStripEach(RTrim(lines)))
  {
    hide OneLine, RStrip;
    var r := RTrim(lines);
    forall i | 0 <= i < |r|
      ensures OneLine(r[i]) && OneLine(RStrip(r[i]))
    {
      RStripOneLine(lines[i]);
      RStripOneLine(r[i]);
    }
  }

  lemma RStripTwice(lines: seq<string>)
    requires forall i | 0 <= i < |lines| :: RStrip(lines[i]) == lines[i]
    ensures RStripEach(lines) == lines
  {
  }

  /** What the normaliser leaves of trimmed lines. */
  lemma NormalizeOfTrimmed(lines: seq<string>)
    requires lines != [] && LFFree(lines) && !AllSpace(lines[|lines| - 1])
    ensures Normalize(JoinLF(lines) + "\n") == JoinLF(RStripEach(lines)) + "\n"
  {
    hide *;
    var each := RStripEach(lines);
    SplitJoined(lines);
    NormalizeKeepsLines(JoinLF(lines) + "\n");
    EachOfEnded(lines);
    LastIsNotBlank(lines[|lines| - 1]);
    TrimmedAgain(each);
    KeptIs(JoinLF(lines) + "\n");
  }

  lemma KeptIs(text: string)
    ensures KeptLines(text) == Trimmed(RStripEach(SplitLF(text)))
  {
  }

  lemma EachOfEnded(lines: seq<string>)
    ensures RStripEach(lines + [""]) == RStripEach(lines) + [""]
  {
    hide RStrip;
    EmptyRStrip();
  }

  lemma EmptyRStrip()
    ensures RStrip("") == ""
  {
  }

  lemma LastIsNotBlank(line: string)
    requires !AllSpace(line)
    ensures RStrip(line) != ""
  {
    assert line[0..] == line;
  }

  lemma RTrimOfTidy(r: seq<string>)
    requires r != [] && !AllSpace(r[|r| - 1]) && RStrip(r[|r| - 1]) == r[|r| - 1]
    ensures RTrim(r) == r
  {
    hide RStrip, AllSpace, RTrim;
    RTrimStep(r[..|r| - 1], r[|r| - 1]);
    assert r[..|r| - 1] + [r[|r| - 1]] == r;
  }

  lemma NotBlankStripped(line: string)
    requires !AllSpace(line)
    ensures !AllSpace(RStrip(line)) && RStrip(RStrip(line)) == RStrip(line)
  {
    LastIsNotBlank(line);
    var r := RStrip(line);
    assert !IsSpace(r[|r| - 1]);
  }

  lemma RTrimEnd(lines: seq<string>)
    requires RTrim(lines) != []
    ensures var r := RTrim(lines); |r| <= |lines| && r[|r| - 1] == RStrip(lines[|r| - 1]) && !AllSpace(lines[|r| - 1])
  {
    hide RStrip, AllSpace;
  }

  lemma TrimmedFacts(lines: seq<string>)
    requires BreakFree(lines) && RTrim(lines) != []
    ensures var r := RTrim(lines);
            && !AllSpace(r[|r| - 1]) && RStrip(r[|r| - 1]) == r[|r| - 1]
            && RTrim(r) == r && BreakFree(r) && LFFree(r)
  {
    hide *;
    var r := RTrim(lines);
    RTrimEnd(lines);
    NotBlankStripped(lines[|r| - 1]);
    RTrimBreakFree(lines);
    BreakFreeIsLFFree(r);
    RTrimOfTidy(r);
  }

  /** Right-stripping every line of trimmed lines. */
  lemma EachFacts(r: seq<string>)
    requires r != [] && !AllSpace(r[|r| - 1]) && RStrip(r[|r| - 1]) == r[|r| - 1] && RTrim(r) == r && BreakFree(r)
    ensures var each := RStripEach(r);
            && RTrim(each) == each && BreakFree(each) && RStripEach(each) == each
            && !AllSpace(each[|each| - 1])
  {
    RTrimBreakFree(r);
    hide *;
    var each := RStripEach(r);
    RTrimOfTidy(each);
    forall i | 0 <= i < |each|
      ensures RStrip(each[i]) == each[i]
    {
      RStripStable(r[i]);
    }
    RStripTwice(each);
  }

  /** Reading back what was written, and writing it again. */
  lemma WrittenReadsBack(lines: seq<string>, normal: bool)
    requires BreakFree(lines) && RTrim(lines) != []
    ensures var tidy := Tidy(lines, normal);
            && Lines(Written(lines, normal)) == tidy
            && Written(tidy, normal) == Written(lines, normal) == JoinLF(tidy) + "\n"
            && BreakFree(tidy) && Tidy(tidy, normal) == tidy
  {
    var r := RTrim(lines);
    var each := RStripEach(r);
    TrimmedFacts(lines);
    EachFacts(r);
    WrittenIs(lines, normal);
    TidyIs(lines, normal);
    hide *;
    RStripJoined(lines);
    var tidy := if normal then each else r;
    WrittenIs(tidy, normal);
    TidyIs(tidy, normal);
    RStripJoined(tidy);
    if normal {
      NormalizeOfTrimmed(r);
      BreakFreeIsLFFree(each);
      NormalizeOfTrimmed(each);
    }
    LinesOfJoined(tidy);
  }

  lemma WrittenIs(lines: seq<string>, normal: bool)
    ensures Written(lines, normal)
            == if normal then Normalize(RStrip(JoinLF(lines)) + "\n") else RStrip(JoinLF(lines)) + "\n"
  {
  }

  lemma TidyIs(lines: seq<string>, normal: bool)
    ensures Tidy(lines, normal) == if normal then RStripEach(RTrim(lines)) else RTrim(lines)
  {
  }

  /** Two files are the same exactly when they read back as the same lines. */
  lemma TidyIsWritten(lines: seq<string>, other: seq<string>, normal: bool)
    requires BreakFree(lines) && BreakFree(other) && RTrim(lines) != [] && RTrim(other) != []
    ensures Written(lines, normal) == Written(other, normal) <==> Tidy(lines, normal) == Tidy(other, normal)
  {
    hide *;
    WrittenReadsBack(lines, normal);
    WrittenReadsBack(other, normal);
  }
}
