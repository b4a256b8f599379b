/** The signature-keyed, size-bounded cache of artifact indexes, and the id6 lookup that answers from it.

    The signature is the watched tree: directories, their modification times and entry names. An edit of a
    `- Id:` line in place is invisible to it; the lookup makes up for that by re-reading every file a cached
    answer names. */
module IndexCache {
  import opened Wrappers
  import Naming

  datatype Path = Path(text: string, name: string)

  /** The watched tree: directory path to its modification time and entry names. */
  type Tree = map<string, (int, set<string>)>

  /** How a repository enumerates the files of a record type from the names in its tree; None is an
      enumeration that raises. */
  type Walk = (map<string, set<string>>, string) -> Option<seq<Path>>

  function Names(tree: Tree): map<string, set<string>> {
    map d | d in tree :: tree[d].1
  }

  /** One repository at one moment: its watched tree, its enumeration, and the id6 each readable file declares. */
  datatype Disk = Disk(tree: Tree, walk: Walk, declared: map<Path, Option<string>>) {
    function Listing(recordType: string): seq<Path> {
      match walk(Names(tree), recordType)
      case Some(paths) => paths
      case None => []
    }
  }

  predicate Declares(disk: Disk, p: Path, id6: string) {
    p in disk.declared && disk.declared[p] == Some(id6)
  }

  // ----- building an index -----

  function Distinct(paths: seq<Path>): (r: seq<Path>)
    ensures forall p :: p in r <==> p in paths
    ensures forall i, j | 0 <= i < j < |r| :: r[i] != r[j]
  {
    if paths == [] then []
    else
      var rest := Distinct(paths[..|paths| - 1]);
      var last := paths[|paths| - 1];
      if last in rest then rest else rest + [last]
  }

  function Listed(disk: Disk, types: seq<string>): seq<Path> {
    if types == [] then []
    else disk.Listing(types[0]) + Listed(disk, types[1..])
  }

  function FilenameId(name: string): Option<string> {
    match Naming.Parse(Naming.Canonical, name)
    case None => None
    case Some(f) => Some(f.id6)
  }

  function Declaring(disk: Disk, paths: seq<Path>, id6: string): (r: seq<Path>)
    ensures forall p :: p in r <==> p in paths && Declares(disk, p, id6)
    ensures (forall i, j | 0 <= i < j < |paths| :: paths[i] != paths[j]) ==> forall i, j | 0 <= i < j < |r| :: r[i] != r[j]
  {
    if paths == [] then []
    else
      var rest := Declaring(disk, paths[..|paths| - 1], id6);
      if Declares(disk, paths[|paths| - 1], id6) then rest + [paths[|paths| - 1]] else rest
  }

  function NamedBy(paths: seq<Path>, id6: string): seq<Path> {
    if paths == [] then []
    else
      var rest := NamedBy(paths[..|paths| - 1], id6);
      if FilenameId(paths[|paths| - 1].name) == Some(id6) then rest + [paths[|paths| - 1]] else rest
  }

  /** `oid` stands for the object's identity. */
  datatype ArtifactIndex = ArtifactIndex(
    oid: nat,
    paths: seq<Path>,
    byDeclaredId: map<string, seq<Path>>,
    byFilenameId: map<string, seq<Path>>
  ) {
    function Claims(id6: string): seq<Path> {
      Get(byDeclaredId, id6)
    }

    function Named(id6: string): seq<Path> {
      Get(byFilenameId, id6)
    }
  }

  /** `i` is what a full traversal of `disk` finds. */
  ghost predicate IsIndexOf(i: ArtifactIndex, disk: Disk, types: seq<string>) {
    && i.paths == Distinct(Listed(disk, types))
    && (forall id6 :: i.Claims(id6) == Declaring(disk, i.paths, id6))
    && (forall id6 :: i.Named(id6) == NamedBy(i.paths, id6))
  }

  /** The traversal: one pass over the types, skipping paths already seen. */
  method Traverse(disk: Disk, types: seq<string>, oid: nat) returns (index: ArtifactIndex)
    ensures index.oid == oid && IsIndexOf(index, disk, types)
  {
    hide *;
    var all := CollectPaths(disk, types);
    NothingListed(disk);
    assert all[..0] == [];
    var declared: map<string, seq<Path>> := map[];
    var named: map<string, seq<Path>> := map[];
    for n := 0 to |all|
      invariant ListsDeclaring(declared, disk, all[..n])
      invariant ListsNamed(named, all[..n])
    {
      var p := all[n];
      PrefixGrows(all, n);
      DeclaringStep(declared, disk, all[..n], p);
      NamedStep(named, all[..n], p);
      var id := FilenameId(p.name);
      if id.Some? {
        named := Append(named, id.value, p);
      }
      if p in disk.declared && disk.declared[p].Some? {
        declared := Append(declared, disk.declared[p].value, p);
      }
    }
    assert all[..|all|] == all;
    index := ArtifactIndex(oid, all, declared, named);
    ListsMakeIndex(index, disk, types);
  }

  lemma NothingListed(disk: Disk)
    ensures ListsDeclaring(map[], disk, []) && ListsNamed(map[], [])
  {
  }

  lemma ListsMakeIndex(i: ArtifactIndex, disk: Disk, types: seq<string>)
    requires i.paths == Distinct(Listed(disk, types))
    requires ListsDeclaring(i.byDeclaredId, disk, i.paths) && ListsNamed(i.byFilenameId, i.paths)
    ensures IsIndexOf(i, disk, types)
  {
    hide Declaring, NamedBy, Distinct, Listed;
  }

  lemma PrefixGrows<T>(s: seq<T>, n: nat)
    requires n < |s|
    ensures s[..n + 1] == s[..n] + [s[n]]
  {
  }

  function Get(m: map<string, seq<Path>>, id6: string): seq<Path> {
    if id6 in m then m[id6] else []
  }

  /** `m.setdefault(id6, []).append(p)` */
  function Append(m: map<string, seq<Path>>, id6: string, p: Path): map<string, seq<Path>> {
    m[id6 := Get(m, id6) + [p]]
  }

  ghost predicate ListsDeclaring(m: map<string, seq<Path>>, disk: Disk, paths: seq<Path>) {
    forall id6 :: Get(m, id6) == Declaring(disk, paths, id6)
  }

  ghost predicate ListsNamed(m: map<string, seq<Path>>, paths: seq<Path>) {
    forall id6 :: Get(m, id6) == NamedBy(paths, id6)
  }

  lemma DeclaringStep(m: map<string, seq<Path>>, disk: Disk, paths: seq<Path>, p: Path)
    requires ListsDeclaring(m, disk, paths)
    ensures p in disk.declared && disk.declared[p].Some?
            ==> ListsDeclaring(Append(m, disk.declared[p].value, p), disk, paths + [p])
    ensures !(p in disk.declared && disk.declared[p].Some?) ==> ListsDeclaring(m, disk, paths + [p])
  {
    assert (paths + [p])[..|paths|] == paths;
  }

  lemma NamedStep(m: map<string, seq<Path>>, paths: seq<Path>, p: Path)
    requires ListsNamed(m, paths)
    ensures FilenameId(p.name).Some? ==> ListsNamed(Append(m, FilenameId(p.name).value, p), paths + [p])
    ensures FilenameId(p.name).None? ==> ListsNamed(m, paths + [p])
  {
    hide FilenameId;
    var longer := paths + [p];
    assert longer[..|paths|] == paths && longer[|longer| - 1] == p;
    forall id6
      ensures NamedBy(longer, id6) == Get(m, id6) + if FilenameId(p.name) == Some(id6) then [p] else []
    {
      assert NamedBy(paths, id6) == Get(m, id6);
    }
  }

  lemma DistinctStep(paths: seq<Path>, p: Path)
    ensures Distinct(paths + [p]) == if p in Distinct(paths) then Distinct(paths) else Distinct(paths) + [p]
  {
    assert (paths + [p])[..|paths|] == paths;
  }

  lemma {:induction false} ListedStep(disk: Disk, types: seq<string>, n: nat)
    requires n < |types|
    ensures Listed(disk, types[..n + 1]) == Listed(disk, types[..n]) + disk.Listing(types[n])
  {
    if n > 0 {
      ListedStep(disk, types[1..], n - 1);
      TailOfPrefix(types, n + 1);
      TailOfPrefix(types, n);
    }
  }

  lemma TailOfPrefix<T>(s: seq<T>, n: nat)
    requires 0 < n <= |s|
    ensures s[..n][1..] == s[1..][..n - 1]
  {
  }

  /** Each candidate not collected yet. */
  method AddDistinct(collected: seq<Path>, candidates: seq<Path>, ghost before: seq<Path>) returns (paths: seq<Path>)
    requires collected == Distinct(before)
    ensures paths == Distinct(before + candidates)
  {
    hide *;
    paths := collected;
    assert before + candidates[..0] == before;
    for m := 0 to |candidates|
      invariant paths == Distinct(before + candidates[..m])
    {
      var p := candidates[m];
      DistinctStep(before + candidates[..m], p);
      assert before + candidates[..m] + [p] == before + candidates[..m + 1];
      if p !in paths {
        paths := paths + [p];
      }
    }
    assert candidates[..|candidates|] == candidates;
  }

  method CollectPaths(disk: Disk, types: seq<string>) returns (paths: seq<Path>)
    ensures paths == Distinct(Listed(disk, types))
  {
    paths := [];
    for n := 0 to |types|
      invariant paths == Distinct(Listed(disk, types[..n]))
    {
      hide *;
      ListedStep(disk, types, n);
      paths := AddDistinct(paths, disk.Listing(types[n]), Listed(disk, types[..n]));
    }
    assert types[..|types|] == types;
  }

  // ----- answering from an index -----

  datatype Kind = ById | ByFilename | ByStem | Nowhere

  datatype Lookup = Lookup(path: Option<Path>, collisions: seq<Path>, kind: Kind)

  const NOTHING := Lookup(None, [], Nowhere)

  /** Code point order of strings. */
  predicate TextLeq(a: string, b: string) {
    a == "" || (b != "" && (a[0] < b[0] || (a[0] == b[0] && TextLeq(a[1..], b[1..]))))
  }

  function Insert(p: Path, paths: seq<Path>): (r: seq<Path>)
    ensures multiset(r) == multiset(paths) + multiset{p}
  {
    if paths == [] || TextLeq(p.text, paths[0].text) then [p] + paths
    else
      assert paths == [paths[0]] + paths[1..];
      [paths[0]] + Insert(p, paths[1..])
  }

  /** `sorted(paths, key=str)` */
  function Sorted(paths: seq<Path>): (r: seq<Path>)
    ensures multiset(r) == multiset(paths)
  {
    if paths == [] then []
    else
      assert paths == [paths[0]] + paths[1..];
      Insert(paths[0], Sorted(paths[1..]))
  }

  predicate Contains(text: string, part: string) {
    exists i | 0 <= i <= |text| :: part <= text[i..]
  }

  function WithStem(paths: seq<Path>, stem: string): seq<Path> {
    if paths == [] then []
    else (if Contains(paths[0].name, stem) then [paths[0]] else []) + WithStem(paths[1..], stem)
  }

  function OneOrCollision(paths: seq<Path>, kind: Kind): Lookup
    requires paths != []
  {
    if |paths| == 1 then Lookup(Some(paths[0]), [], kind) else Lookup(None, Sorted(paths), kind)
  }

  /** The three tiers, with no check against the disk. */
  function Answer(i: ArtifactIndex, id6: string, stem: string): Lookup {
    if id6 != "" && i.Claims(id6) != [] then OneOrCollision(i.Claims(id6), ById)
    else if id6 != "" && i.Named(id6) != [] then OneOrCollision(i.Named(id6), ByFilename)
    else if stem != "" && WithStem(i.paths, stem) != [] then
      var matches := WithStem(i.paths, stem);
      SortedNonempty(matches);
      Lookup(Some(Sorted(matches)[0]), [], ByStem)
    else NOTHING
  }

  lemma SortedNonempty(paths: seq<Path>)
    requires paths != []
    ensures Sorted(paths) != []
  {
    assert |multiset(Sorted(paths))| == |multiset(paths)|;
  }

  /** Every file a tier-one claim names still declares the id6 asked for. */
  predicate Verified(i: ArtifactIndex, disk: Disk, id6: string) {
    forall p | p in i.Claims(id6) :: Declares(disk, p, id6)
  }

  /** What a tier-one answer asserts about the disk: the one file named, or each of several, declares the
      id6; a collision names more than one. */
  predicate TierOneTrue(l: Lookup, disk: Disk, id6: string) {
    l.kind.ById? ==>
      && (l.path.Some? ==> l.collisions == [] && Declares(disk, l.path.value, id6))
      && (l.path.None? ==> |l.collisions| > 1 && forall p | p in l.collisions :: Declares(disk, p, id6))
  }

  lemma SortedHolds(paths: seq<Path>, p: Path)
    ensures p in Sorted(paths) <==> p in paths
    ensures |Sorted(paths)| == |paths|
  {
    assert p in multiset(Sorted(paths)) <==> p in multiset(paths);
    assert |multiset(Sorted(paths))| == |multiset(paths)|;
  }

  /** An unchecked answer is true of the disk exactly when its claims are. */
  lemma AnswerTrueExactly(i: ArtifactIndex, disk: Disk, id6: string, stem: string)
    requires id6 != ""
    ensures TierOneTrue(Answer(i, id6, stem), disk, id6) <==> Verified(i, disk, id6)
  {
    hide Sorted, Declares;
    var claims := i.Claims(id6);
    forall p {
      SortedHolds(claims, p);
    }
    if claims != [] {
      assert claims[0] in claims;
      assert |claims| == 1 ==> forall p | p in claims :: p == claims[0];
    }
  }

  // ----- what a complete answer is -----

  /** Code point order: the first difference decides, and a text precedes those it begins. */
  ghost predicate Precedes(a: string, b: string) {
    exists k: nat | k <= |a| && k <= |b| :: a[..k] == b[..k] && (k == |a| || (k < |b| && a[k] < b[k]))
  }

  lemma {:induction false} TextLeqIsOrder(a: string, b: string)
    ensures TextLeq(a, b) <==> Precedes(a, b)
  {
    if a == "" {
      assert a[..0] == b[..0];
    } else if b != "" && a[0] == b[0] {
      TextLeqIsOrder(a[1..], b[1..]);
      if k: nat :| k <= |a| && k <= |b| && a[..k] == b[..k] && (k == |a| || (k < |b| && a[k] < b[k])) {
        assert k > 0 ==> a[1..][..k - 1] == a[..k][1..] && b[1..][..k - 1] == b[..k][1..];
      }
      if k: nat :| k <= |a[1..]| && k <= |b[1..]| && a[1..][..k] == b[1..][..k] && (k == |a[1..]| || (k < |b[1..]| && a[1..][k] < b[1..][k])) {
        assert a[..k + 1] == [a[0]] + a[1..][..k] && b[..k + 1] == [b[0]] + b[1..][..k];
      }
    } else {
      forall k | 0 < k <= |a| && k <= |b|
        ensures a[..k] != b[..k]
      {
        assert a[..k][0] == a[0] && b[..k][0] == b[0];
      }
      assert a[..0] == b[..0];
    }
  }

  lemma {:induction false} OrderIsTotal(a: string, b: string)
    ensures TextLeq(a, b) || TextLeq(b, a)
  {
    if a != "" && b != "" {
      OrderIsTotal(a[1..], b[1..]);
    }
  }

  lemma {:induction false} OrderIsTransitive(a: string, b: string, c: string)
    requires TextLeq(a, b) && TextLeq(b, c)
    ensures TextLeq(a, c)
  {
    if a != "" && b != "" && c != "" && a[0] == b[0] == c[0] {
      OrderIsTransitive(a[1..], b[1..], c[1..]);
    }
  }

  ghost predicate InOrder(paths: seq<Path>) {
    forall i, j | 0 <= i < j < |paths| :: TextLeq(paths[i].text, paths[j].text)
  }

  lemma {:induction false} InsertKeepsOrder(p: Path, paths: seq<Path>)
    requires InOrder(paths)
    ensures InOrder(Insert(p, paths))
  {
    hide TextLeq;
    if paths != [] {
      var rest := paths[1..];
      assert forall i | 0 <= i < |rest| :: rest[i] == paths[i + 1];
      if TextLeq(p.text, paths[0].text) {
        forall j | 0 <= j < |paths|
          ensures TextLeq(p.text, paths[j].text)
        {
          if j > 0 {
            OrderIsTransitive(p.text, paths[0].text, paths[j].text);
          }
        }
      } else {
        OrderIsTotal(p.text, paths[0].text);
        InsertKeepsOrder(p, rest);
        var more := Insert(p, rest);
        forall q | q in more
          ensures TextLeq(paths[0].text, q.text)
        {
          assert q in multiset(more);
          assert q == p || q in rest;
        }
      }
    }
  }

  lemma {:induction false} SortedIsInOrder(paths: seq<Path>)
    ensures InOrder(Sorted(paths))
  {
    hide Insert, TextLeq;
    if paths != [] {
      SortedIsInOrder(paths[1..]);
      InsertKeepsOrder(paths[0], Sorted(paths[1..]));
    }
  }

  /** The name's own id6 field. */
  predicate NameHolds(p: Path, id6: string) {
    match Naming.Parse(Naming.Canonical, p.name)
    case None => false
    case Some(f) => f.id6 == id6
  }

  ghost predicate NameMentions(p: Path, stem: string) {
    exists before, after :: p.name == before + stem + after
  }

  /** The one file there is, or each of several, once and in the order of their path texts. */
  ghost predicate NamesAll(l: Lookup, files: set<Path>) {
    if exists p :: files == {p} then l.path.Some? && files == {l.path.value} && l.collisions == []
    else
      && l.path.None? && (forall p :: p in l.collisions <==> p in files)
      && (forall i, j | 0 <= i < j < |l.collisions| :: l.collisions[i] != l.collisions[j])
      && (forall i, j | 0 <= i < j < |l.collisions| :: Precedes(l.collisions[i].text, l.collisions[j].text))
  }

  /** The listed files that declare the id6, hold it in their name, or mention the stem there. */
  ghost function DeclaringFiles(disk: Disk, types: seq<string>, id6: string): set<Path> {
    set p | p in Listed(disk, types) && id6 != "" && Declares(disk, p, id6)
  }

  ghost function NamedFiles(disk: Disk, types: seq<string>, id6: string): set<Path> {
    set p | p in Listed(disk, types) && id6 != "" && NameHolds(p, id6)
  }

  ghost function MentioningFiles(disk: Disk, types: seq<string>, stem: string): set<Path> {
    set p | p in Listed(disk, types) && stem != "" && NameMentions(p, stem)
  }

  /** The answer a lookup owes: the files that declare the id6; if there is none, those whose name holds it; if there
      is none either, the first file whose name mentions the stem; else nothing. */
  ghost predicate Complete(l: Lookup, disk: Disk, types: seq<string>, id6: string, stem: string) {
    var declaring, named, mentioning := DeclaringFiles(disk, types, id6), NamedFiles(disk, types, id6), MentioningFiles(disk, types, stem);
    if declaring != {} then l.kind == ById && NamesAll(l, declaring)
    else if named != {} then l.kind == ByFilename && NamesAll(l, named)
    else if mentioning != {} then
      && l.kind == ByStem && l.collisions == [] && l.path.Some? && l.path.value in mentioning
      && forall p | p in mentioning :: Precedes(l.path.value.text, p.text)
    else l == NOTHING
  }

  lemma {:induction false} NamedByHolds(paths: seq<Path>, id6: string)
    ensures forall p :: p in NamedBy(paths, id6) <==> p in paths && NameHolds(p, id6)
    ensures (forall i, j | 0 <= i < j < |paths| :: paths[i] != paths[j]) ==>
              forall i, j | 0 <= i < j < |NamedBy(paths, id6)| :: NamedBy(paths, id6)[i] != NamedBy(paths, id6)[j]
  {
    if paths != [] {
      var n := |paths| - 1;
      NamedByHolds(paths[..n], id6);
      assert forall p :: p in paths <==> p in paths[..n] || p == paths[n];
      assert (forall i, j | 0 <= i < j < |paths| :: paths[i] != paths[j]) ==> paths[n] !in paths[..n];
    }
  }

  lemma {:induction false} WithStemHolds(paths: seq<Path>, stem: string)
    ensures forall p :: p in WithStem(paths, stem) <==> p in paths && NameMentions(p, stem)
  {
    hide Contains, NameMentions;
    if paths != [] {
      WithStemHolds(paths[1..], stem);
      ContainsExactly(paths[0], stem);
      assert paths == [paths[0]] + paths[1..];
    }
  }

  lemma ContainsExactly(p: Path, stem: string)
    ensures Contains(p.name, stem) <==> NameMentions(p, stem)
  {
    hide *;
    forall i: nat | i <= |p.name| && stem <= p.name[i..]
      ensures NameMentions(p, stem)
    {
      Mentioned(p, stem, i);
    }
    forall before, after | p.name == before + stem + after
      ensures Contains(p.name, stem)
    {
      Contained(p.name, stem, before, after);
    }
    WhereContained(p, stem);
  }

  lemma WhereContained(p: Path, stem: string)
    ensures Contains(p.name, stem) ==> exists i: nat :: i <= |p.name| && stem <= p.name[i..]
    ensures NameMentions(p, stem) ==> exists before, after :: p.name == before + stem + after
  {
  }

  lemma Mentioned(p: Path, stem: string, i: nat)
    requires i <= |p.name| && stem <= p.name[i..]
    ensures NameMentions(p, stem)
  {
    var before, after := p.name[..i], p.name[i + |stem|..];
    assert p.name[i..] == stem + after;
    assert p.name == before + stem + after;
  }

  lemma Contained(text: string, part: string, before: string, after: string)
    requires text == before + part + after
    ensures Contains(text, part)
  {
    assert text[|before|..] == part + after;
  }

  /** One of several files, or all of them in order. */
  lemma OneOrAll(paths: seq<Path>, kind: Kind, files: set<Path>)
    requires paths != [] && Stands(paths, files)
    requires forall i, j | 0 <= i < j < |paths| :: paths[i] != paths[j]
    ensures OneOrCollision(paths, kind).kind == kind && NamesAll(OneOrCollision(paths, kind), files)
  {
    hide Sorted, Precedes;
    assert paths[0] in files;
    if |paths| == 1 {
      assert files == {paths[0]};
    } else {
      assert paths[1] in files && paths[0] != paths[1];
      SortedListsAll(paths);
    }
  }

  lemma SortedListsAll(paths: seq<Path>)
    requires forall i, j | 0 <= i < j < |paths| :: paths[i] != paths[j]
    ensures var r := Sorted(paths);
            && (forall p :: p in r <==> p in paths)
            && (forall i, j | 0 <= i < j < |r| :: r[i] != r[j])
            && (forall i, j | 0 <= i < j < |r| :: Precedes(r[i].text, r[j].text))
  {
    hide Sorted, Precedes, TextLeq;
    var r := Sorted(paths);
    forall p {
      SortedHolds(paths, p);
    }
    SortedIsInOrder(paths);
    forall i, j | 0 <= i < j < |r|
      ensures Precedes(r[i].text, r[j].text)
    {
      TextLeqIsOrder(r[i].text, r[j].text);
    }
    OnceEach(paths);
    SameCounts(paths, r);
  }

  lemma OnceEach(paths: seq<Path>)
    requires forall i, j | 0 <= i < j < |paths| :: paths[i] != paths[j]
    ensures forall p | p in paths :: multiset(paths)[p] == 1
  {
    if paths != [] {
      OnceEach(paths[1..]);
      assert paths == [paths[0]] + paths[1..];
    }
  }

  lemma SameCounts(paths: seq<Path>, r: seq<Path>)
    requires multiset(r) == multiset(paths) && forall p | p in paths :: multiset(paths)[p] == 1
    ensures forall i, j | 0 <= i < j < |r| :: r[i] != r[j]
  {
    forall i, j | 0 <= i < j < |r|
      ensures r[i] != r[j]
    {
      assert r == r[..j] + [r[j]] + r[j + 1..];
      assert r[i] in r[..j];
      assert r[i] == r[j] ==> multiset(r)[r[i]] >= 2;
      assert r[i] in multiset(r);
    }
  }

  /** Against the disk it was built from, an index gives the complete answer, in whichever tier it falls. */
  lemma FreshAnswerIsExact(i: ArtifactIndex, disk: Disk, types: seq<string>, id6: string, stem: string)
    requires IsIndexOf(i, disk, types)
    ensures Complete(Answer(i, id6, stem), disk, types, id6, stem)
    ensures TierOneTrue(Answer(i, id6, stem), disk, id6)
  {
    hide IsIndexOf, Answer, Sorted, WithStem, OneOrCollision, DeclaringFiles, NamedFiles, MentioningFiles, NamesAll, Precedes, Complete;
    hide TierOneTrue, Verified;
    var claims, named, holding := i.Claims(id6), i.Named(id6), WithStem(i.paths, stem);
    IndexHolds(i, disk, types, id6, stem);
    AnswerTrue(i, disk, id6, stem);
    FreshIsVerified(i, disk, types, id6);
    AnswerTier(i, id6, stem);
    if id6 != "" && claims != [] {
      OneOrAll(claims, ById, DeclaringFiles(disk, types, id6));
    } else if id6 != "" && named != [] {
      OneOrAll(named, ByFilename, NamedFiles(disk, types, id6));
    } else if stem != "" && holding != [] {
      FirstOfSorted(holding);
    }
    IsComplete(Answer(i, id6, stem), disk, types, id6, stem);
  }

  lemma IsComplete(l: Lookup, disk: Disk, types: seq<string>, id6: string, stem: string)
    requires var declaring, named, mentioning := DeclaringFiles(disk, types, id6), NamedFiles(disk, types, id6), MentioningFiles(disk, types, stem);
             if declaring != {} then l.kind == ById && NamesAll(l, declaring)
             else if named != {} then l.kind == ByFilename && NamesAll(l, named)
             else if mentioning != {} then
               && l.kind == ByStem && l.collisions == [] && l.path.Some? && l.path.value in mentioning
               && forall p | p in mentioning :: Precedes(l.path.value.text, p.text)
             else l == NOTHING
    ensures Complete(l, disk, types, id6, stem)
  {
    hide DeclaringFiles, NamedFiles, MentioningFiles, NamesAll, Precedes;
  }

  /** Which tier answers. */
  lemma AnswerTier(i: ArtifactIndex, id6: string, stem: string)
    ensures var l, holding := Answer(i, id6, stem), WithStem(i.paths, stem);
            if id6 != "" && i.Claims(id6) != [] then l == OneOrCollision(i.Claims(id6), ById)
            else if id6 != "" && i.Named(id6) != [] then l == OneOrCollision(i.Named(id6), ByFilename)
            else if stem != "" && holding != [] then Sorted(holding) != [] && l == Lookup(Some(Sorted(holding)[0]), [], ByStem)
            else l == NOTHING
  {
    hide Sorted, WithStem;
    if WithStem(i.paths, stem) != [] {
      SortedNonempty(WithStem(i.paths, stem));
    }
  }

  /** What the three tiers of an index hold, and that they are empty together with the files they stand for. */
  lemma IndexHolds(i: ArtifactIndex, disk: Disk, types: seq<string>, id6: string, stem: string)
    requires IsIndexOf(i, disk, types)
    ensures id6 == "" ==> DeclaringFiles(disk, types, id6) == {} && NamedFiles(disk, types, id6) == {}
    ensures stem == "" ==> MentioningFiles(disk, types, stem) == {}
    ensures id6 != "" ==> Stands(i.Claims(id6), DeclaringFiles(disk, types, id6)) && Stands(i.Named(id6), NamedFiles(disk, types, id6))
    ensures forall a, b | 0 <= a < b < |i.Claims(id6)| :: i.Claims(id6)[a] != i.Claims(id6)[b]
    ensures forall a, b | 0 <= a < b < |i.Named(id6)| :: i.Named(id6)[a] != i.Named(id6)[b]
    ensures stem != "" ==> Stands(WithStem(i.paths, stem), MentioningFiles(disk, types, stem))
  {
    hide Listed, Declares, NameHolds, NameMentions, WithStem, NamedBy, Stands;
    assert i.Claims(id6) == Declaring(disk, i.paths, id6);
    NamedByHolds(i.paths, id6);
    WithStemHolds(i.paths, stem);
    if id6 != "" {
      StandsFor(i.Claims(id6), DeclaringFiles(disk, types, id6));
      StandsFor(i.Named(id6), NamedFiles(disk, types, id6));
    }
    if stem != "" {
      StandsFor(WithStem(i.paths, stem), MentioningFiles(disk, types, stem));
    }
  }

  ghost predicate Stands(paths: seq<Path>, files: set<Path>) {
    (forall p :: p in paths <==> p in files) && (paths == [] <==> files == {})
  }

  lemma StandsFor(paths: seq<Path>, files: set<Path>)
    requires forall p :: p in paths <==> p in files
    ensures Stands(paths, files)
  {
    if paths != [] {
      assert paths[0] in files;
    }
  }

  lemma FirstOfSorted(paths: seq<Path>)
    requires paths != []
    ensures Sorted(paths) != [] && Sorted(paths)[0] in paths
    ensures forall p | p in paths :: Precedes(Sorted(paths)[0].text, p.text)
  {
    hide Sorted, Precedes, TextLeq;
    var r := Sorted(paths);
    SortedNonempty(paths);
    SortedIsInOrder(paths);
    SortedHolds(paths, r[0]);
    forall p | p in paths
      ensures Precedes(r[0].text, p.text)
    {
      SortedHolds(paths, p);
      var j :| 0 <= j < |r| && r[j] == p;
      if j == 0 {
        OrderIsTotal(p.text, p.text);
      }
      TextLeqIsOrder(r[0].text, p.text);
    }
  }

  // ----- the cache -----

  const CACHE_MAX := 8

  datatype Key = Key(root: string, types: seq<string>)

  datatype Entry = Entry(key: Key, signature: Tree, index: ArtifactIndex)

  predicate KeysDistinct(entries: seq<Entry>) {
    forall i, j | 0 <= i < |entries| && 0 <= j < |entries| && i != j :: entries[i].key != entries[j].key
  }

  function Position(entries: seq<Entry>, key: Key): (at: Option<nat>)
    ensures at.Some? ==> at.value < |entries| && entries[at.value].key == key
    ensures at.Some? ==> forall i | 0 <= i < at.value :: entries[i].key != key
    ensures at.None? ==> forall i | 0 <= i < |entries| :: entries[i].key != key
  {
    if entries == [] then None
    else if entries[0].key == key then Some(0)
    else
      match Position(entries[1..], key)
      case None => None
      case Some(n) => Some(n + 1)
  }

  /** The cached index a build may return: same key, same signature. */
  function Cached(entries: seq<Entry>, key: Key, disk: Disk): Option<ArtifactIndex> {
    match Position(entries, key)
    case Some(at) => if entries[at].signature == disk.tree then Some(entries[at].index) else None
    case None => None
  }

  function Without(entries: seq<Entry>, at: nat): seq<Entry>
    requires at < |entries|
  {
    entries[..at] + entries[at + 1..]
  }

  /** A hit moves to the end. */
  function Promoted(entries: seq<Entry>, at: nat): seq<Entry>
    requires at < |entries|
  {
    Without(entries, at) + [entries[at]]
  }

  /** A key already present keeps its place; a new one goes to the end, and the front makes room. */
  function Stored(entries: seq<Entry>, e: Entry): seq<Entry> {
    match Position(entries, e.key)
    case Some(at) => entries[at := e]
    case None =>
      var longer := entries + [e];
      if |longer| > CACHE_MAX then longer[|longer| - CACHE_MAX..] else longer
  }

  lemma OnlyPosition(entries: seq<Entry>, at: nat)
    requires KeysDistinct(entries) && at < |entries|
    ensures Position(entries, entries[at].key) == Some(at)
  {
  }

  lemma WithoutKeeps(entries: seq<Entry>, at: nat)
    requires KeysDistinct(entries) && at < |entries|
    ensures KeysDistinct(Without(entries, at)) && Position(Without(entries, at), entries[at].key).None?
    ensures forall e :: e in Without(entries, at) <==> e in entries && e != entries[at]
  {
    var w := Without(entries, at);
    forall e
      ensures e in w <==> e in entries && e != entries[at]
    {
      if e in entries && e != entries[at] {
        var i :| 0 <= i < |entries| && entries[i] == e;
        assert w[if i < at then i else i - 1] == e;
      }
    }
  }

  lemma PromotedKeeps(entries: seq<Entry>, at: nat)
    requires KeysDistinct(entries) && at < |entries|
    ensures KeysDistinct(Promoted(entries, at)) && |Promoted(entries, at)| == |entries|
    ensures Position(Promoted(entries, at), entries[at].key) == Some(|entries| - 1)
    ensures forall e :: e in Promoted(entries, at) <==> e in entries
  {
    WithoutKeeps(entries, at);
    OnlyPosition(Promoted(entries, at), |entries| - 1);
  }

  /** The entry just built is in the cache afterwards, whichever way it got there, and never the victim. */
  lemma StoredKeeps(entries: seq<Entry>, e: Entry)
    requires KeysDistinct(entries) && |entries| <= CACHE_MAX
    ensures KeysDistinct(Stored(entries, e)) && |Stored(entries, e)| <= CACHE_MAX
    ensures Position(Stored(entries, e), e.key).Some? && Stored(entries, e)[Position(Stored(entries, e), e.key).value] == e
    ensures forall x | x in Stored(entries, e) :: x == e || x in entries
  {
    var s := Stored(entries, e);
    var at := Position(entries, e.key);
    OnlyPosition(s, if at.Some? then at.value else |s| - 1);
  }

  // ----- what a lookup answers from -----

  /** A given index, or one traversed for this lookup. */
  datatype Source = From(index: ArtifactIndex) | Fresh

  predicate Stale(i: ArtifactIndex, disk: Disk, id6: string) {
    id6 != "" && !Verified(i, disk, id6)
  }

  /** The caller's index or the cached one, unless a claim of it is stale. Then the key's entry is dropped if it
      holds that index, and whatever a build returns answers. */
  function AnswersFrom(entries: seq<Entry>, key: Key, disk: Disk, id6: string, given: Option<ArtifactIndex>): Source {
    var cached := Cached(entries, key, disk);
    if given.None? then if cached.Some? && !Stale(cached.value, disk, id6) then From(cached.value) else Fresh
    else if !Stale(given.value, disk, id6) then From(given.value)
    else if cached.Some? && cached.value.oid != given.value.oid then From(cached.value)
    else Fresh
  }

  ghost predicate IsAnswer(found: Lookup, source: Source, disk: Disk, types: seq<string>, id6: string, stem: string) {
    match source
    case From(i) => found == Answer(i, id6, stem)
    case Fresh => exists i :: IsIndexOf(i, disk, types) && found == Answer(i, id6, stem)
  }

  /** All indexes of one disk answer alike. */
  lemma FreshAnswersAgree(i: ArtifactIndex, j: ArtifactIndex, disk: Disk, types: seq<string>, id6: string, stem: string)
    requires IsIndexOf(i, disk, types) && IsIndexOf(j, disk, types)
    ensures Answer(i, id6, stem) == Answer(j, id6, stem)
  {
    hide Declaring, NamedBy, Sorted, WithStem, Listed, Distinct;
  }

  /** The second pass of a lookup with a caller's index answers, unchecked, from a third index. */
  predicate AnswersFromAnotherStaleIndex(entries: seq<Entry>, key: Key, disk: Disk, id6: string, given: ArtifactIndex) {
    && !Verified(given, disk, id6)
    && Cached(entries, key, disk).Some?
    && Cached(entries, key, disk).value.oid != given.oid
    && !Verified(Cached(entries, key, disk).value, disk, id6)
  }

  /** Within its bound, and every cached index is one of a disk that had the signature it is kept under. */
  ghost predicate Sound(entries: seq<Entry>, nextOid: nat, origins: map<nat, Disk>) {
    && |entries| <= CACHE_MAX && KeysDistinct(entries)
    && (forall n | n in origins :: n < nextOid)
    && forall e | e in entries ::
         && e.index.oid in origins && origins[e.index.oid].tree == e.signature
         && IsIndexOf(e.index, origins[e.index.oid], e.key.types)
  }

  lemma SoundPromoted(entries: seq<Entry>, nextOid: nat, origins: map<nat, Disk>, key: Key, disk: Disk)
    requires Sound(entries, nextOid, origins) && Cached(entries, key, disk).Some?
    ensures var at := Position(entries, key).value;
            && Sound(Promoted(entries, at), nextOid, origins) && Cached(Promoted(entries, at), key, disk) == Cached(entries, key, disk)
            && forall e | e in Promoted(entries, at) :: e in entries
  {
    hide IsIndexOf, Promoted, KeysDistinct;
    var at := Position(entries, key).value;
    PromotedKeeps(entries, at);
    PromotedLast(entries, at);
  }

  lemma PromotedLast(entries: seq<Entry>, at: nat)
    requires at < |entries|
    ensures |Promoted(entries, at)| == |entries| && Promoted(entries, at)[|entries| - 1] == entries[at]
  {
  }

  lemma SoundStored(entries: seq<Entry>, nextOid: nat, origins: map<nat, Disk>, key: Key, disk: Disk, index: ArtifactIndex)
    requires Sound(entries, nextOid, origins) && index.oid == nextOid && IsIndexOf(index, disk, key.types)
    ensures var longer := Stored(entries, Entry(key, disk.tree, index));
            && Sound(longer, nextOid + 1, origins[nextOid := disk]) && Cached(longer, key, disk) == Some(index)
            && forall e | e in longer :: e in entries || e == Entry(key, disk.tree, index)
  {
    hide IsIndexOf, Stored, KeysDistinct, Position;
    StoredKeeps(entries, Entry(key, disk.tree, index));
  }

  lemma SoundWithout(entries: seq<Entry>, nextOid: nat, origins: map<nat, Disk>, key: Key, disk: Disk)
    requires Sound(entries, nextOid, origins) && Position(entries, key).Some?
    ensures var shorter := Without(entries, Position(entries, key).value);
            && Sound(shorter, nextOid, origins) && Cached(shorter, key, disk).None?
            && forall e | e in shorter :: e in entries
  {
    hide IsIndexOf, Without, KeysDistinct;
    WithoutKeeps(entries, Position(entries, key).value);
    assert |Without(entries, Position(entries, key).value)| <= CACHE_MAX by {
      ShorterWithout(entries, Position(entries, key).value);
    }
  }

  lemma ShorterWithout(entries: seq<Entry>, at: nat)
    requires at < |entries|
    ensures |Without(entries, at)| == |entries| - 1
  {
  }

  /** What an index says about its own disk is true. */
  lemma FreshIsVerified(i: ArtifactIndex, disk: Disk, types: seq<string>, id6: string)
    requires IsIndexOf(i, disk, types)
    ensures Verified(i, disk, id6)
  {
    assert i.Claims(id6) == Declaring(disk, i.paths, id6);
  }

  class Cache {
    var entries: seq<Entry>
    var nextOid: nat
    /** the disk each index was traversed from */
    ghost var origins: map<nat, Disk>

    ghost predicate Valid()
      reads this
    {
      Sound(entries, nextOid, origins)
    }

    constructor ()
      ensures Valid() && entries == []
    {
      entries, nextOid, origins := [], 0, map[];
    }

    /** `build_index`: the cached index when the signature still matches, else a full traversal. Either way
        the entry used is in the cache afterwards, and the cache never exceeds its bound. */
    method BuildIndex(key: Key, disk: Disk) returns (index: ArtifactIndex)
      requires Valid()
      modifies this
      ensures Valid()
      ensures Cached(old(entries), key, disk).Some? ==>
                && index == Cached(old(entries), key, disk).value
                && entries == Promoted(old(entries), Position(old(entries), key).value)
                && nextOid == old(nextOid) && origins == old(origins)
      ensures Cached(old(entries), key, disk).None? ==>
                && IsIndexOf(index, disk, key.types) && index.oid == old(nextOid)
                && entries == Stored(old(entries), Entry(key, disk.tree, index))
                && nextOid == old(nextOid) + 1 && origins == old(origins)[index.oid := disk]
      ensures Cached(entries, key, disk) == Some(index)
      ensures forall e | e in entries :: e in old(entries) || (e.key == key && e.index.oid == old(nextOid))
    {
      hide Sound, IsIndexOf, Promoted, Stored;
      var at := Position(entries, key);
      if at.Some? && entries[at.value].signature == disk.tree {
        index := entries[at.value].index;
        SoundPromoted(entries, nextOid, origins, key, disk);
        entries := Promoted(entries, at.value);
        return;
      }
      index := Traverse(disk, key.types, nextOid);
      SoundStored(entries, nextOid, origins, key, disk, index);
      entries := Stored(entries, Entry(key, disk.tree, index));
      origins := origins[nextOid := disk];
      nextOid := nextOid + 1;
    }

    /** `find_artifact`. With no index of the caller's own, every tier-one answer is true of the disk and
        at most one traversal is spent. With one, it is true unless the caller's claims are stale, the
        cache holds another index for the same signature, and that one's claims are stale as well: the
        second pass does not look at the files again. */
    method FindArtifact(key: Key, disk: Disk, id6: string, stem: string, given: Option<ArtifactIndex>) returns (found: Lookup)
      requires Valid()
      modifies this
      ensures Valid()
      ensures old(nextOid) <= nextOid <= old(nextOid) + 1
      ensures if id6 == "" && stem == "" then found == NOTHING
              else IsAnswer(found, AnswersFrom(old(entries), key, disk, id6, given), disk, key.types, id6, stem)
      ensures AnswersFrom(old(entries), key, disk, id6, given).Fresh? ==> Complete(found, disk, key.types, id6, stem)
      ensures given.None? ==> TierOneTrue(found, disk, id6)
      ensures given.Some? && id6 != "" ==>
                (TierOneTrue(found, disk, id6) <==> !AnswersFromAnotherStaleIndex(old(entries), key, disk, id6, given.value))
      ensures origins == old(origins) || origins == old(origins)[old(nextOid) := disk]
      ensures forall e | e in entries :: e in old(entries) || (e.key == key && e.index.oid == old(nextOid))
    {
      hide Sound, IsIndexOf, Verified, Answer, Promoted, Stored, Without, TierOneTrue, Complete;
      FreshIsComplete(disk, key.types, id6, stem);
      if id6 == "" && stem == "" {
        NothingIsTrue(disk, id6);
        return NOTHING;
      }
      var index;
      if given.Some? {
        index := given.value;
      } else {
        index := BuildIndex(key, disk);
        if Cached(old(entries), key, disk).None? {
          FreshIsVerified(index, disk, key.types, id6);
        }
      }
      AnswerTrue(index, disk, id6, stem);
      if id6 != "" && index.Claims(id6) != [] && !Verified(index, disk, id6) {
        var at := Position(entries, key);
        if at.Some? && entries[at.value].index.oid == index.oid {
          SoundWithout(entries, nextOid, origins, key, disk);
          entries := Without(entries, at.value);
        }
        var rebuilt := BuildIndex(key, disk);
        if rebuilt.oid == old(nextOid) && IsIndexOf(rebuilt, disk, key.types) {
          FreshIsVerified(rebuilt, disk, key.types, id6);
        }
        AnswerTrue(rebuilt, disk, id6, stem);
        return Answer(rebuilt, id6, stem);
      }
      NoClaimIsVerified(index, disk, id6);
      return Answer(index, id6, stem);
    }
  }

  /** Whatever index of the disk answers, the answer is complete; asked for nothing, so is none. */
  lemma FreshIsComplete(disk: Disk, types: seq<string>, id6: string, stem: string)
    ensures forall found | IsAnswer(found, Fresh, disk, types, id6, stem) :: Complete(found, disk, types, id6, stem)
    ensures id6 == "" && stem == "" ==> Complete(NOTHING, disk, types, id6, stem)
  {
    hide IsIndexOf, Answer, Complete;
    forall found | IsAnswer(found, Fresh, disk, types, id6, stem)
      ensures Complete(found, disk, types, id6, stem)
    {
      var i :| IsIndexOf(i, disk, types) && found == Answer(i, id6, stem);
      FreshAnswerIsExact(i, disk, types, id6, stem);
    }
    if id6 == "" && stem == "" {
      NothingAsked(disk, types);
    }
  }

  lemma NothingAsked(disk: Disk, types: seq<string>)
    ensures Complete(NOTHING, disk, types, "", "")
  {
  }

  lemma NothingIsTrue(disk: Disk, id6: string)
    ensures TierOneTrue(NOTHING, disk, id6)
  {
  }

  lemma NoClaimIsVerified(i: ArtifactIndex, disk: Disk, id6: string)
    ensures i.Claims(id6) == [] ==> Verified(i, disk, id6)
  {
  }

  lemma AnswerTrue(i: ArtifactIndex, disk: Disk, id6: string, stem: string)
    ensures id6 != "" ==> (TierOneTrue(Answer(i, id6, stem), disk, id6) <==> Verified(i, disk, id6))
    ensures id6 == "" ==> TierOneTrue(Answer(i, id6, stem), disk, id6)
  {
    if id6 != "" {
      AnswerTrueExactly(i, disk, id6, stem);
    }
  }

  // ----- eviction order -----

  /** How many entries would be evicted after this one if only new keys came. */
  function Age(entries: seq<Entry>, key: Key): Option<nat> {
    match Position(entries, key)
    case None => None
    case Some(at) => Some(|entries| - 1 - at)
  }

  /** What one build does to the cache. */
  datatype Touch = Hit(at: nat) | Miss(e: Entry)

  predicate Applies(entries: seq<Entry>, t: Touch) {
    t.Hit? ==> t.at < |entries|
  }

  function Touched(entries: seq<Entry>, t: Touch): Key
    requires Applies(entries, t)
  {
    match t
    case Hit(at) => entries[at].key
    case Miss(e) => e.key
  }

  function After(entries: seq<Entry>, t: Touch): seq<Entry>
    requires Applies(entries, t)
  {
    match t
    case Hit(at) => Promoted(entries, at)
    case Miss(e) => Stored(entries, e)
  }

  /** A build of another key ages an entry by at most one, and evicts none younger than seven. */
  lemma OthersAgeSlowly(entries: seq<Entry>, t: Touch, key: Key)
    requires KeysDistinct(entries) && |entries| <= CACHE_MAX && Applies(entries, t) && Touched(entries, t) != key
    requires Age(entries, key).Some? && Age(entries, key).value < CACHE_MAX - 1
    ensures KeysDistinct(After(entries, t)) && |After(entries, t)| <= CACHE_MAX
    ensures Age(After(entries, t), key).Some? && Age(After(entries, t), key).value <= Age(entries, key).value + 1
  {
    match t
    case Hit(from) => HitAges(entries, from, Position(entries, key).value);
    case Miss(e) => MissAges(entries, e, Position(entries, key).value);
  }

  lemma HitAges(entries: seq<Entry>, from: nat, at: nat)
    requires KeysDistinct(entries) && from < |entries| && at < |entries| && at != from
    ensures KeysDistinct(Promoted(entries, from)) && |Promoted(entries, from)| == |entries|
    ensures Position(Promoted(entries, from), entries[at].key) == Some(if at < from then at else at - 1)
  {
    hide Position;
    var s, j := Promoted(entries, from), if at < from then at else at - 1;
    PromotedKeeps(entries, from);
    assert s[j] == entries[at];
    OnlyPosition(s, j);
  }

  lemma MissAges(entries: seq<Entry>, e: Entry, at: nat)
    requires KeysDistinct(entries) && |entries| <= CACHE_MAX && at < |entries| && entries[at].key != e.key
    requires |entries| - 1 - at < CACHE_MAX - 1
    ensures KeysDistinct(Stored(entries, e)) && |Stored(entries, e)| <= CACHE_MAX
    ensures Age(Stored(entries, e), entries[at].key).Some?
    ensures Age(Stored(entries, e), entries[at].key).value <= |entries| - at
  {
    hide Position;
    var s := Stored(entries, e);
    var j := if Position(entries, e.key).Some? then at else at + |s| - |entries| - 1;
    StoredKeeps(entries, e);
    assert s[j] == entries[at];
    OnlyPosition(s, j);
  }

  /** An index just returned from a hit, or stored under a new key, is the youngest. */
  lemma UsedIsYoungest(entries: seq<Entry>, t: Touch)
    requires KeysDistinct(entries) && |entries| <= CACHE_MAX && Applies(entries, t)
    requires t.Hit? || Position(entries, t.e.key).None?
    ensures KeysDistinct(After(entries, t)) && |After(entries, t)| <= CACHE_MAX
    ensures Age(After(entries, t), Touched(entries, t)) == Some(0)
  {
    match t
    case Hit(at) => PromotedKeeps(entries, at);
    case Miss(e) =>
      StoredKeeps(entries, e);
      OnlyPosition(Stored(entries, e), |Stored(entries, e)| - 1);
  }

  ghost predicate Run(entries: seq<Entry>, touches: seq<Touch>, key: Key)
    decreases |touches|
  {
    touches == [] ||
    (Applies(entries, touches[0]) && Touched(entries, touches[0]) != key && Run(After(entries, touches[0]), touches[1..], key))
  }

  function AfterAll(entries: seq<Entry>, touches: seq<Touch>, key: Key): seq<Entry>
    requires Run(entries, touches, key)
    decreases |touches|
  {
    if touches == [] then entries else AfterAll(After(entries, touches[0]), touches[1..], key)
  }

  /** Least recently used, as a bound: an entry of age `a` is still cached after any `7 - a` builds of
      other keys, hits and misses in any order. */
  lemma {:induction false} RecentlyUsedSurvives(entries: seq<Entry>, touches: seq<Touch>, key: Key)
    requires KeysDistinct(entries) && |entries| <= CACHE_MAX && Run(entries, touches, key)
    requires Age(entries, key).Some? && Age(entries, key).value + |touches| < CACHE_MAX
    ensures Position(AfterAll(entries, touches, key), key).Some?
    decreases |touches|
  {
    hide After, Applies, Touched, Position, KeysDistinct;
    if touches == [] {
      AgeIsPosition(entries, key);
    } else {
      OthersAgeSlowly(entries, touches[0], key);
      RecentlyUsedSurvives(After(entries, touches[0]), touches[1..], key);
    }
  }

  /** An entry just returned from a hit, or stored under a new key, survives any seven builds of other keys. */
  lemma JustUsedSurvives(entries: seq<Entry>, used: Touch, touches: seq<Touch>)
    requires KeysDistinct(entries) && |entries| <= CACHE_MAX && Applies(entries, used)
    requires used.Hit? || Position(entries, used.e.key).None?
    requires |touches| < CACHE_MAX && Run(After(entries, used), touches, Touched(entries, used))
    ensures Position(AfterAll(After(entries, used), touches, Touched(entries, used)), Touched(entries, used)).Some?
  {
    hide Run, AfterAll;
    UsedIsYoungest(entries, used);
    RecentlyUsedSurvives(After(entries, used), touches, Touched(entries, used));
  }

  lemma AgeIsPosition(entries: seq<Entry>, key: Key)
    ensures Age(entries, key).Some? <==> Position(entries, key).Some?
  {
  }

  /** The exception: rebuilding a key whose signature went stale keeps its old place, so in a full cache
      the oldest entry, though just rebuilt and returned, is evicted by the very next new key. */
  lemma RebuiltEntryKeepsItsPlace(entries: seq<Entry>, rebuilt: Entry, next: Entry)
    requires KeysDistinct(entries) && |entries| == CACHE_MAX
    requires Position(entries, rebuilt.key) == Some(0) && Position(entries, next.key).None?
    ensures Position(Stored(entries, rebuilt), rebuilt.key) == Some(0)
    ensures Position(Stored(Stored(entries, rebuilt), next), rebuilt.key).None?
  {
    var once := Stored(entries, rebuilt);
    StoredKeeps(entries, rebuilt);
    OnlyPosition(once, 0);
    assert forall i | 0 <= i < |once| :: once[i].key == entries[i].key;
    var twice := Stored(once, next);
    assert Position(once, next.key).None?;
    assert forall i | 0 <= i < |twice| - 1 :: twice[i] == once[i + 1];
  }

}
