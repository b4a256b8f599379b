/** The lines the metadata editor reads and writes, and what right-stripping does to them. */
module MetadataLines {
  import opened Wrappers
  import opened Text
  import opened Markdown
  import opened FileLines
  import opened SetMetadata

  /** The editor is called with a kebab-case set, which holds no whitespace. */
  predicate Names(ask: Ask) {
    ask.setId.Some? && ask.setId.value != "" && forall i | 0 <= i < |ask.setId.value| :: !IsSpace(ask.setId.value[i])
  }

  // ----- lines under right-stripping -----

  lemma StripKeepsIndex(line: string, k: nat)
    requires k < |line| && !IsSpace(line[k])
    ensures |RStrip(line)| > k
  {
    var r := RStrip(line);
    forall j | |r| <= j < |line|
      ensures IsSpace(line[j])
    {
      assert line[|r|..][j - |r|] == line[j];
    }
  }

  lemma {:induction false} LStripCuts(s: string) returns (k: nat)
    ensures k <= |s| && LStrip(s) == s[k..] && AllSpace(s[..k]) && (k < |s| ==> !IsSpace(s[k]))
    decreases |s|
  {
    hide IsSpace;
    if s != "" && IsSpace(s[0]) {
      k := LStripCuts(s[1..]);
      assert s[..k + 1] == [s[0]] + s[1..][..k];
      k := k + 1;
    } else {
      k := 0;
    }
  }

  lemma {:induction false} LStripOver(a: string, b: string)
    requires AllSpace(a) && (b == "" || !IsSpace(b[0]))
    ensures LStrip(a + b) == b
  {
    if a == "" {
      assert a + b == b;
    } else {
      assert (a + b)[1..] == a[1..] + b;
      LStripOver(a[1..], b);
    }
  }

  lemma {:induction false} LStripSpace(s: string)
    requires AllSpace(s)
    ensures LStrip(s) == ""
  {
    if s != "" {
      LStripSpace(s[1..]);
    }
  }

  lemma StripOfRStrip(s: string)
    ensures Strip(RStrip(s)) == Strip(s)
  {
    hide IsSpace;
    var r := RStrip(s);
    assert s == r + s[|r|..];
    var k := LStripCuts(r);
    if k == |r| {
      assert r[..k] == r;
      RStripSpace(r);
      LStripSpace(s);
    } else {
      assert s == r[..k] + (r[k..] + s[|r|..]);
      LStripOver(r[..k], r[k..] + s[|r|..]);
      RStripDropsSpace(r[k..], s[|r|..]);
    }
  }

  lemma RStripSpace(r: string)
    requires AllSpace(r) && (r == "" || !IsSpace(r[|r| - 1]))
    ensures r == ""
  {
  }

  lemma FenceUnderStrip(line: string)
    ensures IsFence(RStrip(line)) == IsFence(line)
  {
    hide Strip, RStrip;
    StripOfRStrip(line);
  }

  lemma YamlUnderStrip(line: string)
    ensures YamlSet(RStrip(line)) == YamlSet(line) && YamlOrder(RStrip(line)) == YamlOrder(line)
  {
    if YamlSet(line) {
      StripKeepsIndex(line, 3);
    }
    if YamlOrder(line) {
      StripKeepsIndex(line, 5);
    }
  }

  /** A line that is a bullet after stripping was one before. */
  lemma BulletUnderStrip(line: string)
    ensures BulletSet(RStrip(line)) ==> BulletSet(line)
    ensures BulletOrder(RStrip(line)) ==> BulletOrder(line)
    ensures IsHeading(RStrip(line)) ==> IsHeading(line)
  {
    var r := RStrip(line);
    if BulletOrder(r) {
      assert "- Order:" <= line by {
        assert r[..8] == line[..8];
      }
      TailUnderStrip(line, 8);
      StripOfRStrip(line[8..]);
    }
    if IsHeading(r) {
      assert r[..3] == line[..3];
    }
    if BulletSet(r) {
      assert r[..6] == line[..6];
    }
  }

  lemma TailUnderStrip(line: string, k: nat)
    requires k <= |RStrip(line)|
    ensures RStrip(line)[k..] == RStrip(line[k..])
  {
    var r := RStrip(line);
    assert line[k..] == r[k..] + line[|r|..];
    RStripDropsSpace(r[k..], line[|r|..]);
  }

  /** A heading that right-stripping unmakes is a bare `##`. */
  lemma HeadingUnderStrip(line: string)
    requires IsHeading(line)
    ensures IsHeading(RStrip(line)) <==> RStrip(line) != "##"
    ensures RStrip(line) == "##" ==> !BulletSet(RStrip(line)) && !BulletOrder(RStrip(line))
  {
    assert line[..3] == "## ";
    StripKeepsIndex(line, 1);
    var r := RStrip(line);
    if |r| == 2 {
      assert r == line[..2] == "##";
    } else {
      assert r[..3] == line[..3];
    }
  }

  // ----- the lines the editor writes -----

  predicate Fixed(line: string) {
    line != "" && OneLine(line) && !AllSpace(line) && RStrip(line) == line
  }

  lemma SolidIsFixed(head: string, value: string)
    requires value != "" && forall i | 0 <= i < |value| :: !IsSpace(value[i])
    requires OneLine(head)
    ensures Fixed(head + value)
  {
    var line := head + value;
    assert line[|line| - 1] == value[|value| - 1];
    forall i | 0 <= i < |line|
      ensures !IsLineBreak(line[i])
    {
      if i >= |head| {
        assert line[i] == value[i - |head|];
        BreakIsSpace(line[i]);
      } else {
        assert line[i] == head[i];
      }
    }
  }

  lemma BreakIsSpace(c: char)
    ensures IsLineBreak(c) ==> IsSpace(c)
  {
  }

  lemma IntIsSolid(n: int)
    ensures Int(n) != "" && (forall i | 0 <= i < |Int(n)| :: !IsSpace(Int(n)[i])) && IsInteger(Int(n))
  {
    if n < 0 {
      assert Int(n)[1..] == Decimal(-n);
    }
    var d := if n < 0 then Decimal(-n) else Decimal(n);
    assert forall i | 0 <= i < |d| :: IsDigit(d[i]);
    assert forall i | 0 <= i < |Int(n)| :: Int(n)[i] == '-' || IsDigit(Int(n)[i]);
  }

  lemma NotAFence(line: string)
    requires line != "" && line[0] in {'s', 'o', 'S', 'O', '\U{17f}'}
    ensures !IsFence(line)
  {
    StripKeepsIndex(line, 0);
    assert LStrip(line) == line;
    assert Strip(line)[0] == line[0];
  }

  lemma NoFenceBullet(line: string)
    requires "- " <= line && |line| > 2
    ensures !IsFence(line)
  {
    assert line[..2] == "- ";
    assert LStrip(line) == line;
    var t := Strip(line);
    assert |t| > 1 ==> t[1] == line[1];
  }

  lemma YamlLinesAre(ask: Ask)
    requires Names(ask)
    ensures Fixed(YamlSetLine(ask)) && YamlSet(YamlSetLine(ask)) && !IsFence(YamlSetLine(ask))
    ensures ask.order.Some? ==>
              Fixed(YamlOrderLine(ask)) && YamlOrder(YamlOrderLine(ask)) && !YamlSet(YamlOrderLine(ask)) && !IsFence(YamlOrderLine(ask))
  {
    hide IsSpace, IsFence, Fixed, OneLine;
    assert OneLine("set: ") && OneLine("order: ") by {
      HeadsAreOneLine();
    }
    SolidIsFixed("set: ", ask.setId.value);
    NotAFence(YamlSetLine(ask));
    if ask.order.Some? {
      IntIsSolid(ask.order.value);
      SolidIsFixed("order: ", Int(ask.order.value));
      NotAFence(YamlOrderLine(ask));
    }
  }

  lemma HeadsAreOneLine()
    ensures OneLine("set: ") && OneLine("order: ") && OneLine("- Set: ") && OneLine("- Order: ")
  {
  }

  lemma BulletLinesAre(ask: Ask)
    requires Names(ask)
    ensures Fixed(BulletSetLine(ask)) && BulletSet(BulletSetLine(ask)) && !IsHeading(BulletSetLine(ask)) && !IsFence(BulletSetLine(ask))
    ensures ask.order.Some? ==>
              var line := BulletOrderLine(ask);
              Fixed(line) && BulletOrder(line) && !BulletSet(line) && !IsHeading(line) && !IsFence(line)
  {
    hide IsSpace, IsFence, Fixed, OneLine, IsInteger, Strip;
    HeadsAreOneLine();
    SolidIsFixed("- Set: ", ask.setId.value);
    var line := BulletSetLine(ask);
    assert line[..6] == "- Set:" && line[0] == '-' && line[..2] == "- ";
    NoFenceBullet(line);
    if ask.order.Some? {
      var n := Int(ask.order.value);
      IntIsSolid(ask.order.value);
      SolidIsFixed("- Order: ", n);
      var line := BulletOrderLine(ask);
      assert line[..8] == "- Order:" && line[2] == 'O' && line[0] == '-' && line[..2] == "- ";
      NoFenceBullet(line);
      assert line[8..] == " " + n;
      StripPadded(n);
    }
  }

  lemma StripPadded(n: string)
    requires n != "" && forall i | 0 <= i < |n| :: !IsSpace(n[i])
    ensures Strip(" " + n) == n
  {
    assert (" " + n)[1..] == n;
    assert LStrip(n) == n;
  }
}
