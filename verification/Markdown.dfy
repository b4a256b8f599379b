/** `artifact_core.normalize_artifact_markdown`, the writer's last step for artifact markdown. */
module Markdown {
  import opened Text

  /** `str.split("\n")`: always at least one line. */
  function SplitLF(s: string): (lines: seq<string>)
    ensures |lines| >= 1
    ensures forall i | 0 <= i < |lines| :: '\n' !in lines[i]
  {
    if s == "" then [""]
    else
      var rest := SplitLF(s[1..]);
      if s[0] == '\n' then [""] + rest else [[s[0]] + rest[0]] + rest[1..]
  }

  /** `"\n".join(lines)` */
  function JoinLF(lines: seq<string>): string {
    if lines == [] then "" else if |lines| == 1 then lines[0] else lines[0] + "\n" + JoinLF(lines[1..])
  }

  function RStripEach(lines: seq<string>): (r: seq<string>)
    ensures |r| == |lines| && forall i | 0 <= i < |r| :: r[i] == RStrip(lines[i])
  {
    seq(|lines|, i requires 0 <= i < |lines| => RStrip(lines[i]))
  }

  /** `str.rstrip("\n")` */
  function RStripLF(s: string): (r: string)
    ensures r <= s
    ensures r != "" ==> r[|r| - 1] != '\n'
  {
    if s != "" && s[|s| - 1] == '\n' then RStripLF(s[..|s| - 1]) else s
  }

  function Normalize(text: string): string {
    var n := RStripLF(JoinLF(RStripEach(SplitLF(text))));
    if n == "" then "" else n + "\n"
  }

  // ----- what it means line by line -----

  /** Without the empty lines at the end. */
  function Trimmed(lines: seq<string>): (r: seq<string>)
    ensures r <= lines
    ensures r != [] ==> r[|r| - 1] != ""
    ensures forall i | |r| <= i < |lines| :: lines[i] == ""
  {
    if lines != [] && lines[|lines| - 1] == "" then Trimmed(lines[..|lines| - 1]) else lines
  }

  predicate LFFree(lines: seq<string>) {
    forall i | 0 <= i < |lines| :: '\n' !in lines[i]
  }

  lemma {:induction false} JoinSnoc(lines: seq<string>, last: string)
    requires lines != []
    ensures JoinLF(lines + [last]) == JoinLF(lines) + "\n" + last
  {
    if |lines| == 1 {
      assert (lines + [last])[1..] == [last];
    } else {
      assert (lines + [last])[1..] == lines[1..] + [last];
      JoinSnoc(lines[1..], last);
      assert lines[0] + "\n" + (JoinLF(lines[1..]) + "\n" + last) == lines[0] + "\n" + JoinLF(lines[1..]) + "\n" + last;
    }
  }

  lemma RStripLFStops(s: string)
    requires s != "" && s[|s| - 1] != '\n'
    ensures RStripLF(s) == s
  {
  }

  lemma RStripLFDrops(s: string)
    ensures RStripLF(s + "\n") == RStripLF(s)
  {
    assert (s + "\n")[..|s|] == s;
  }

  lemma JoinEnds(lines: seq<string>)
    requires lines != [] && LFFree(lines) && lines[|lines| - 1] != ""
    ensures JoinLF(lines) != "" && JoinLF(lines)[|JoinLF(lines)| - 1] != '\n'
  {
    var last := lines[|lines| - 1];
    if |lines| > 1 {
      assert lines[..|lines| - 1] + [last] == lines;
      JoinSnoc(lines[..|lines| - 1], last);
    }
    assert last[|last| - 1] in last;
  }

  /** Stripping newlines off joined lines drops the empty lines at the end. */
  lemma {:induction false} StripJoined(lines: seq<string>)
    requires LFFree(lines)
    ensures RStripLF(JoinLF(lines)) == JoinLF(Trimmed(lines))
    decreases |lines|
  {
    if lines == [] {
    } else if lines[|lines| - 1] != "" {
      JoinEnds(lines);
      RStripLFStops(JoinLF(lines));
    } else if |lines| == 1 {
      assert Trimmed(lines[..0]) == [];
    } else {
      var init := lines[..|lines| - 1];
      assert init + [""] == lines;
      JoinSnoc(init, "");
      assert JoinLF(init) + "\n" + "" == JoinLF(init) + "\n";
      RStripLFDrops(JoinLF(init));
      StripJoined(init);
    }
  }

  lemma RStripKeepsLFFree(lines: seq<string>)
    requires LFFree(lines)
    ensures LFFree(RStripEach(lines))
  {
    forall i | 0 <= i < |lines|
      ensures '\n' !in RStrip(lines[i])
    {
      assert forall c | c in RStrip(lines[i]) :: c in lines[i];
    }
  }

  function KeptLines(text: string): seq<string> {
    Trimmed(RStripEach(SplitLF(text)))
  }

  /** The result is the right-stripped lines without the blank ones at the end, each ended by one newline. */
  lemma NormalizeKeepsLines(text: string)
    ensures var kept := KeptLines(text);
            && Normalize(text) == (if kept == [] then "" else JoinLF(kept) + "\n")
            && LFFree(kept)
            && (forall i | 0 <= i < |kept| :: kept[i] == RStrip(SplitLF(text)[i]))
            && (forall i | |kept| <= i < |SplitLF(text)| :: AllSpace(SplitLF(text)[i]))
  {
    hide RStrip, JoinLF, Trimmed, SplitLF, RStripLF;
    var stripped := RStripEach(SplitLF(text));
    RStripKeepsLFFree(SplitLF(text));
    StripJoined(stripped);
    var kept := Trimmed(stripped);
    if kept == [] {
      assert JoinLF(kept) == "" by {
        JoinNone();
      }
    } else {
      JoinEnds(kept);
    }
    forall i | |kept| <= i < |SplitLF(text)|
      ensures AllSpace(SplitLF(text)[i])
    {
      assert stripped[i] == "";
      EmptyStrip(SplitLF(text)[i]);
    }
  }

  lemma JoinNone()
    ensures JoinLF([]) == ""
  {
  }

  lemma EmptyStrip(s: string)
    requires RStrip(s) == ""
    ensures AllSpace(s)
  {
    assert s[0..] == s;
  }

  // ----- reading the lines back -----

  lemma {:induction false} SplitHead(line: string, rest: string)
    requires '\n' !in line
    ensures SplitLF(line + "\n" + rest) == [line] + SplitLF(rest)
  {
    var s := line + "\n" + rest;
    if line == "" {
      assert s[1..] == rest;
    } else {
      assert s[1..] == line[1..] + "\n" + rest;
      SplitHead(line[1..], rest);
      assert [line[0]] + line[1..] == line;
      assert ([line[1..]] + SplitLF(rest))[1..] == SplitLF(rest);
    }
  }

  lemma {:induction false} SplitWhole(line: string)
    requires '\n' !in line
    ensures SplitLF(line) == [line]
  {
    if line != "" {
      SplitWhole(line[1..]);
      assert [line[0]] + line[1..] == line;
    }
  }

  lemma SplitNone()
    ensures SplitLF("") == [""]
  {
  }

  lemma {:induction false} SplitJoined(lines: seq<string>)
    requires lines != [] && LFFree(lines)
    ensures SplitLF(JoinLF(lines)) == lines
    ensures SplitLF(JoinLF(lines) + "\n") == lines + [""]
  {
    hide SplitLF;
    SplitNone();
    if |lines| == 1 {
      SplitWhole(lines[0]);
      SplitHead(lines[0], "");
      assert lines[0] + "\n" + "" == lines[0] + "\n";
    } else {
      var rest := JoinLF(lines[1..]);
      SplitJoined(lines[1..]);
      SplitHead(lines[0], rest);
      SplitHead(lines[0], rest + "\n");
      assert lines[0] + "\n" + (rest + "\n") == lines[0] + "\n" + rest + "\n";
      assert [lines[0]] + lines[1..] == lines;
      assert [lines[0]] + (lines[1..] + [""]) == lines + [""];
    }
  }

  lemma RStripStable(s: string)
    ensures RStrip(RStrip(s)) == RStrip(s)
  {
  }

  lemma TrimmedAgain(kept: seq<string>)
    requires kept != [] ==> kept[|kept| - 1] != ""
    ensures Trimmed(kept + [""]) == kept
  {
    assert (kept + [""])[..|kept|] == kept;
  }

  /** Nothing is left to do after one pass. */
  lemma NormalizeIdempotent(text: string)
    ensures Normalize(Normalize(text)) == Normalize(text)
  {
    hide *;
    var kept := KeptLines(text);
    NormalizeKeepsLines(text);
    NormalizeKeepsLines(Normalize(text));
    KeptAreStripped(text);
    if kept == [] {
      KeptOfEmpty();
    } else {
      SplitJoined(kept);
      KeptAgain(Normalize(text), kept);
    }
  }

  lemma KeptAreStripped(text: string)
    ensures var kept := KeptLines(text);
            (kept != [] ==> kept[|kept| - 1] != "") && forall i | 0 <= i < |kept| :: RStrip(kept[i]) == kept[i]
  {
    hide RStrip, SplitLF;
    forall i | 0 <= i < |KeptLines(text)|
      ensures RStrip(KeptLines(text)[i]) == KeptLines(text)[i]
    {
      RStripStable(SplitLF(text)[i]);
    }
  }

  lemma KeptOfEmpty()
    ensures KeptLines("") == []
  {
    assert RStripEach([""]) == [""];
    assert Trimmed([""][..0]) == [];
  }

  lemma KeptAgain(text: string, kept: seq<string>)
    requires SplitLF(text) == kept + [""] && (kept != [] ==> kept[|kept| - 1] != "")
    requires forall i | 0 <= i < |kept| :: RStrip(kept[i]) == kept[i]
    ensures KeptLines(text) == kept
  {
    assert RStripEach(kept + [""]) == kept + [""];
    TrimmedAgain(kept);
  }

  /** The result is empty or ends in exactly one newline, and none of its lines ends in whitespace. */
  lemma NormalizeEnds(text: string)
    ensures var r := Normalize(text);
            && (r == "" || (r[|r| - 1] == '\n' && |r| > 1 && r[|r| - 2] != '\n'))
            && forall line | line in SplitLF(r) :: line == "" || !IsSpace(line[|line| - 1])
  {
    hide RStrip, SplitLF, JoinLF, KeptLines, IsSpace, Normalize;
    var kept := KeptLines(text);
    NormalizeKeepsLines(text);
    KeptAreStripped(text);
    if kept == [] {
      SplitWhole("");
    } else {
      SplitJoined(kept);
      JoinEnds(kept);
      forall line | line in kept + [""]
        ensures line == "" || !IsSpace(line[|line| - 1])
      {
        StrippedEnds(line);
      }
    }
  }

  lemma StrippedEnds(s: string)
    ensures RStrip(s) == s && s != "" ==> !IsSpace(s[|s| - 1])
  {
  }
}
