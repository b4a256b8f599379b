/** `artifact_core.repo_relative_posix`: rendering a path inside the repository without ever leaking an absolute
    one. What resolving a path on disk gives is a parameter. */
module RepoPath {
  import opened Wrappers

  /** A POSIX path as `pathlib` holds it: how many slashes it starts with, and its parts. */
  datatype Path = Path(slashes: nat, parts: seq<string>)

  // ----- reading and writing paths -----

  function SplitSlash(s: string): (r: seq<string>)
    ensures |r| >= 1 && forall i | 0 <= i < |r| :: '/' !in r[i]
  {
    if s == "" then [""]
    else
      var rest := SplitSlash(s[1..]);
      if s[0] == '/' then [""] + rest else [[s[0]] + rest[0]] + rest[1..]
  }

  predicate IsPart(s: string) {
    s != "" && s != "." && '/' !in s
  }

  function Parts(pieces: seq<string>): (r: seq<string>)
    requires forall i | 0 <= i < |pieces| :: '/' !in pieces[i]
    ensures forall i | 0 <= i < |r| :: IsPart(r[i])
  {
    if pieces == [] then [] else (if IsPart(pieces[0]) then [pieces[0]] else []) + Parts(pieces[1..])
  }

  /** Two leading slashes mean something of their own; one, or more than two, mean the root. */
  function Slashes(s: string): nat {
    if !("/" <= s) then 0 else if "//" <= s && !("///" <= s) then 2 else 1
  }

  /** `Path(s)` */
  function Parse(s: string): Path {
    Path(Slashes(s), Parts(SplitSlash(s)))
  }

  predicate WellFormed(p: Path) {
    p.slashes <= 2 && forall i | 0 <= i < |p.parts| :: IsPart(p.parts[i])
  }

  function JoinSlash(parts: seq<string>): string {
    if parts == [] then "" else if |parts| == 1 then parts[0] else parts[0] + "/" + JoinSlash(parts[1..])
  }

  function Leading(slashes: nat): string {
    if slashes == 0 then "" else "/" + Leading(slashes - 1)
  }

  /** `p.as_posix()` */
  function Posix(p: Path): string {
    if p.slashes == 0 && p.parts == [] then "." else Leading(p.slashes) + JoinSlash(p.parts)
  }

  predicate IsAbsolute(p: Path) {
    p.slashes > 0
  }

  function Name(p: Path): string {
    if p.parts == [] then "" else p.parts[|p.parts| - 1]
  }

  /** `os.path.normpath`: `..` takes back the part before it, and is dropped at the root. */
  function Collapse(parts: seq<string>, absolute: bool): seq<string> {
    if parts == [] then []
    else
      var done, last := Collapse(parts[..|parts| - 1], absolute), parts[|parts| - 1];
      if last != ".." then done + [last]
      else if done == [] then (if absolute then [] else [last])
      else if done[|done| - 1] == ".." then done + [last]
      else done[..|done| - 1]
  }

  /** The path joined onto the root and normalised without touching the disk. */
  function Lexical(p: Path, root: Path): Path {
    var joined := if IsAbsolute(p) then p else Path(root.slashes, root.parts + p.parts);
    Path(joined.slashes, Collapse(joined.parts, IsAbsolute(joined)))
  }

  /** `p.relative_to(root)`; None is its `ValueError`. */
  function RelativeTo(p: Path, root: Path): Option<Path> {
    if p.slashes == root.slashes && root.parts <= p.parts then Some(Path(0, p.parts[|root.parts|..])) else None
  }

  /** What the disk answers: the resolved root, the resolved parent of the lexical path, the records directory, and
      those two resolved. None is a failure to resolve. */
  datatype Disk = Disk(root: Option<Path>, parent: Option<Path>, records: Option<Path>, resolvedRecords: Option<Path>, resolved: Option<Path>)

  /** The attempts made when a root is given. */
  function InRoot(p: Path, root: Path, disk: Disk): Option<Path> {
    var lexical := Lexical(p, root);
    var first := RelativeTo(lexical, root);
    if first.Some? then first
    else if disk.root.Some? && RelativeTo(lexical, disk.root.value).Some? then RelativeTo(lexical, disk.root.value)
    else
      var candidate := if disk.root.Some? && disk.parent.Some? && Name(lexical) != ""
                       then RelativeTo(Path(disk.parent.value.slashes, disk.parent.value.parts + [Name(lexical)]), disk.root.value)
                       else if disk.root.Some? && disk.parent.Some? then RelativeTo(disk.parent.value, disk.root.value)
                       else None;
      if candidate.Some? then candidate else InRecords(lexical, disk)
  }

  /** A records tree stored outside the repository is shown as `.aw/records`. */
  function InRecords(lexical: Path, disk: Disk): Option<Path> {
    if !IsAbsolute(lexical) || disk.records.None? || !IsAbsolute(disk.records.value) then None
    else
      var plain := RelativeTo(lexical, disk.records.value);
      if plain.Some? then Some(Path(0, [".aw", "records"] + plain.value.parts))
      else if disk.resolvedRecords.Some? && disk.resolved.Some? then
        match RelativeTo(disk.resolved.value, disk.resolvedRecords.value)
        case Some(rel) => Some(Path(0, [".aw", "records"] + rel.parts))
        case None => None
      else None
  }

  /** The text from the first occurrence of the segment on. */
  function From(s: string, segment: string): Option<string> {
    if segment <= s then Some(s) else if s == "" then None else From(s[1..], segment)
  }

  const RECORDS: string := ".aw/records/"
  const AGENTS: string := ".agents/"

  function Fallback(p: Path, escaped: bool): string {
    if From(Posix(p), RECORDS).Some? then From(Posix(p), RECORDS).value
    else if From(Posix(p), AGENTS).Some? then From(Posix(p), AGENTS).value
    else if IsAbsolute(p) || escaped then Name(p)
    else Posix(p)
  }

  predicate IsSentinel(s: string) {
    "<" <= s && s[|s| - 1] == '>'
  }

  /** `repo_relative_posix` of a string. */
  function Render(s: string, root: Option<Path>, disk: Disk): string {
    if s == "" || IsSentinel(s) then s
    else
      var p := Parse(s);
      if root.Some? && InRoot(p, root.value, disk).Some? then Posix(InRoot(p, root.value, disk).value)
      else Fallback(p, root.Some? && !IsAbsolute(p))
  }

  // ----- never absolute -----

  /** The text of an absolute path. */
  predicate Rooted(s: string) {
    s != "" && s[0] == '/'
  }

  lemma JoinStarts(parts: seq<string>)
    requires forall i | 0 <= i < |parts| :: IsPart(parts[i])
    ensures !Rooted(JoinSlash(parts))
  {
    if parts != [] {
      assert parts[0][0] in parts[0];
    }
  }

  lemma RelativeIsRelative(p: Path)
    requires WellFormed(p) && p.slashes == 0
    ensures !Rooted(Posix(p))
  {
    JoinStarts(p.parts);
    assert "" + JoinSlash(p.parts) == JoinSlash(p.parts);
  }

  lemma {:induction false} FromStarts(s: string, segment: string)
    ensures From(s, segment).Some? ==> segment <= From(s, segment).value
  {
    if !(segment <= s) && s != "" {
      FromStarts(s[1..], segment);
    }
  }

  lemma {:induction false} CollapseKeepsParts(parts: seq<string>, absolute: bool)
    requires forall i | 0 <= i < |parts| :: IsPart(parts[i])
    ensures forall i | 0 <= i < |Collapse(parts, absolute)| :: IsPart(Collapse(parts, absolute)[i])
  {
    hide IsPart;
    if parts != [] {
      CollapseKeepsParts(parts[..|parts| - 1], absolute);
    }
  }

  predicate DiskIsWellFormed(disk: Disk) {
    && (disk.root.Some? ==> WellFormed(disk.root.value)) && (disk.parent.Some? ==> WellFormed(disk.parent.value))
    && (disk.records.Some? ==> WellFormed(disk.records.value)) && (disk.resolved.Some? ==> WellFormed(disk.resolved.value))
    && (disk.resolvedRecords.Some? ==> WellFormed(disk.resolvedRecords.value))
  }

  lemma RelativeToFacts(p: Path, root: Path)
    requires WellFormed(p)
    ensures var r := RelativeTo(p, root); r.Some? ==> r.value.slashes == 0 && WellFormed(r.value)
    ensures var r := RelativeTo(p, root); r.Some? ==> r.value.slashes == 0 && root.parts + r.value.parts == p.parts && root.slashes == p.slashes
  {
    hide IsPart;
  }

  lemma LexicalIsWellFormed(p: Path, root: Path)
    requires WellFormed(p) && WellFormed(root)
    ensures WellFormed(Lexical(p, root))
  {
    hide IsPart, Collapse;
    var joined := if IsAbsolute(p) then p else Path(root.slashes, root.parts + p.parts);
    CollapseKeepsParts(joined.parts, IsAbsolute(joined));
  }

  lemma RecordsFacts(lexical: Path, disk: Disk)
    requires WellFormed(lexical) && DiskIsWellFormed(disk)
    ensures var r := InRecords(lexical, disk); r.Some? ==> r.value.slashes == 0 && WellFormed(r.value)
  {
    hide RelativeTo;
    if disk.records.Some? {
      RelativeToFacts(lexical, disk.records.value);
    }
    if disk.resolved.Some? && disk.resolvedRecords.Some? {
      RelativeToFacts(disk.resolved.value, disk.resolvedRecords.value);
    }
    assert IsPart(".aw") && IsPart("records");
  }

  lemma InRootFacts(p: Path, root: Path, disk: Disk)
    requires WellFormed(p) && WellFormed(root) && DiskIsWellFormed(disk)
    ensures var r := InRoot(p, root, disk); r.Some? ==> r.value.slashes == 0 && WellFormed(r.value)
  {
    hide RelativeTo, Lexical, InRecords, IsPart;
    LexicalIsWellFormed(p, root);
    var lexical := Lexical(p, root);
    RelativeToFacts(lexical, root);
    RecordsFacts(lexical, disk);
    if disk.root.Some? {
      RelativeToFacts(lexical, disk.root.value);
      if disk.parent.Some? {
        RelativeToFacts(disk.parent.value, disk.root.value);
        if Name(lexical) != "" {
          RelativeToFacts(Path(disk.parent.value.slashes, disk.parent.value.parts + [Name(lexical)]), disk.root.value);
        }
      }
    }
  }

  lemma ParseIsWellFormed(s: string)
    ensures WellFormed(Parse(s))
  {
    hide SplitSlash, Parts, IsPart;
  }

  /** Whatever the path, the root and the disk, the text rendered is never an absolute path. */
  lemma NeverAbsolute(s: string, root: Option<Path>, disk: Disk)
    requires (root.Some? ==> WellFormed(root.value)) && DiskIsWellFormed(disk)
    ensures !Rooted(Render(s, root, disk))
  {
    hide Parse, InRoot, Posix, From, Lexical;
    var p := Parse(s);
    ParseIsWellFormed(s);
    if root.Some? {
      InRootFacts(p, root.value, disk);
      if InRoot(p, root.value, disk).Some? {
        RelativeIsRelative(InRoot(p, root.value, disk).value);
      }
    }
    FromStarts(Posix(p), RECORDS);
    FromStarts(Posix(p), AGENTS);
    SegmentsAreRelative(if From(Posix(p), RECORDS).Some? then From(Posix(p), RECORDS).value else RECORDS);
    AgentsIsRelative(if From(Posix(p), AGENTS).Some? then From(Posix(p), AGENTS).value else AGENTS);
    if !IsAbsolute(p) {
      RelativeIsRelative(p);
    }
    NameIsRelative(p);
  }

  lemma SegmentsAreRelative(s: string)
    requires RECORDS <= s
    ensures !Rooted(s)
  {
    assert s[0] == RECORDS[0];
  }

  lemma AgentsIsRelative(s: string)
    requires AGENTS <= s
    ensures !Rooted(s)
  {
    assert s[0] == AGENTS[0];
  }

  lemma NameIsRelative(p: Path)
    requires WellFormed(p)
    ensures !Rooted(Name(p))
  {
    if p.parts != [] {
      assert IsPart(Name(p));
      assert Name(p)[0] in Name(p);
    }
  }

  // ----- inside the root -----

  lemma {:induction false} AbsoluteCollapses(parts: seq<string>)
    ensures ".." !in Collapse(parts, true)
  {
    if parts != [] {
      AbsoluteCollapses(parts[..|parts| - 1]);
    }
  }

  lemma {:induction false} SplitOfJoin(parts: seq<string>)
    requires parts != [] && forall i | 0 <= i < |parts| :: '/' !in parts[i]
    ensures SplitSlash(JoinSlash(parts)) == parts
  {
    if |parts| == 1 {
      SplitNone(parts[0]);
    } else {
      SplitOfJoin(parts[1..]);
      SplitHead(parts[0], JoinSlash(parts[1..]));
      assert [parts[0]] + parts[1..] == parts;
    }
  }

  lemma {:induction false} SplitNone(s: string)
    requires '/' !in s
    ensures SplitSlash(s) == [s]
  {
    if s != "" {
      SplitNone(s[1..]);
      assert [s[0]] + s[1..] == s;
    }
  }

  lemma {:induction false} SplitHead(s: string, rest: string)
    requires '/' !in s
    ensures SplitSlash(s + "/" + rest) == [s] + SplitSlash(rest)
  {
    var t := s + "/" + rest;
    if s == "" {
      assert t[1..] == rest;
    } else {
      assert t[1..] == s[1..] + "/" + rest;
      SplitHead(s[1..], rest);
      assert [s[0]] + s[1..] == s;
      assert ([s[1..]] + SplitSlash(rest))[1..] == SplitSlash(rest);
    }
  }

  lemma {:induction false} PartsOfParts(parts: seq<string>)
    requires forall i | 0 <= i < |parts| :: IsPart(parts[i]) && '/' !in parts[i]
    ensures Parts(parts) == parts
  {
    hide IsPart;
    if parts != [] {
      PartsOfParts(parts[1..]);
      assert [parts[0]] + parts[1..] == parts;
    }
  }

  lemma PartsHaveNoSlash(parts: seq<string>)
    ensures forall i | 0 <= i < |parts| :: IsPart(parts[i]) ==> '/' !in parts[i]
  {
  }

  /** A relative path reads back from its text. */
  lemma PosixReadsBack(p: Path)
    requires WellFormed(p) && p.slashes == 0
    ensures Parse(Posix(p)) == p
  {
    RelativeIsRelative(p);
    PartsHaveNoSlash(p.parts);
    if p.parts == [] {
      SplitNone(".");
      assert Parts(["."]) == [] + Parts([]);
      assert ["."][1..] == [];
    } else {
      hide IsPart;
      assert "" + JoinSlash(p.parts) == JoinSlash(p.parts);
      SplitOfJoin(p.parts);
      PartsOfParts(p.parts);
    }
  }

  /** For an absolute root and a path lexically inside it, the text has no `..` segment, and read back and joined to
      the root it is the normalised path. */
  lemma InsideRejoins(s: string, root: Path, disk: Disk)
    requires WellFormed(root) && IsAbsolute(root) && s != "" && !IsSentinel(s)
    requires RelativeTo(Lexical(Parse(s), root), root).Some?
    ensures var rel := Parse(Render(s, Some(root), disk));
            && rel.slashes == 0 && ".." !in rel.parts
            && Path(root.slashes, root.parts + rel.parts) == Lexical(Parse(s), root)
  {
    hide Parse, Posix, Collapse, IsPart;
    var lexical := Lexical(Parse(s), root);
    ParseIsWellFormed(s);
    LexicalIsWellFormed(Parse(s), root);
    RelativeToFacts(lexical, root);
    var rel := RelativeTo(lexical, root).value;
    PosixReadsBack(rel);
    AbsoluteCollapses(if IsAbsolute(Parse(s)) then Parse(s).parts else root.parts + Parse(s).parts);
    assert forall x | x in rel.parts :: x in lexical.parts;
  }

  /** `r` is the text from the first occurrence of `segment` on. */
  ghost predicate StartsAtFirst(r: string, s: string, segment: string) {
    exists i | 0 <= i <= |s| :: r == s[i..] && segment <= r && forall j | 0 <= j < i :: !(segment <= s[j..])
  }

  lemma {:induction false} FromIsFirst(s: string, segment: string)
    ensures var r := From(s, segment);
            if r.Some? then StartsAtFirst(r.value, s, segment) else forall j | 0 <= j <= |s| :: !(segment <= s[j..])
  {
    assert s[0..] == s;
    if !(segment <= s) && s != "" {
      FromIsFirst(s[1..], segment);
      forall j | 0 <= j <= |s|
        ensures j > 0 ==> s[j..] == s[1..][j - 1..]
      {
      }
      if From(s[1..], segment).Some? {
        var i :| 0 <= i <= |s[1..]| && From(s[1..], segment).value == s[1..][i..] && forall j | 0 <= j < i :: !(segment <= s[1..][j..]);
        assert From(s, segment).value == s[i + 1..];
        forall j | 0 <= j < i + 1
          ensures !(segment <= s[j..])
        {
          assert j > 0 ==> s[j..] == s[1..][j - 1..];
        }
      }
    } else if !(segment <= s) {
      assert forall j | 0 <= j <= |s| :: s[j..] == s;
    }
  }

  /** A relative path that leads out of the root, by every way of looking, shows the path from its first records
      segment on, or else from its first `.agents/` on, or else its name alone. */
  lemma EscapeShowsNameOnly(s: string, root: Path, disk: Disk)
    requires s != "" && !IsSentinel(s) && InRoot(Parse(s), root, disk).None?
    ensures var r, posix := Render(s, Some(root), disk), Posix(Parse(s));
            var records := exists j | 0 <= j <= |posix| :: RECORDS <= posix[j..];
            var agents := exists j | 0 <= j <= |posix| :: AGENTS <= posix[j..];
            if records then StartsAtFirst(r, posix, RECORDS)
            else if agents then StartsAtFirst(r, posix, AGENTS)
            else r == Name(Parse(s))
  {
    hide Parse, InRoot, Posix, From;
    FromIsFirst(Posix(Parse(s)), RECORDS);
    FromIsFirst(Posix(Parse(s)), AGENTS);
  }
}
