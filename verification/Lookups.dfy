/** The lookup cache over whole sessions: edits of the tree, edits of ids in place and lookups in any order. */
module Lookups {
  import opened Wrappers
  import opened IndexCache

  // ----- a signature hit -----

  lemma {:induction false} SameListing(built: Disk, now: Disk, types: seq<string>)
    requires now.tree == built.tree && now.walk == built.walk
    ensures Listed(now, types) == Listed(built, types)
  {
    if types != [] {
      SameListing(built, now, types[1..]);
    }
  }

  lemma {:induction false} SameDeclaring(built: Disk, now: Disk, paths: seq<Path>, id6: string)
    requires forall p | p in paths :: Declares(built, p, id6) <==> Declares(now, p, id6)
    ensures Declaring(built, paths, id6) == Declaring(now, paths, id6)
  {
    hide Declares;
    if paths != [] {
      assert paths[|paths| - 1] in paths;
      SameDeclaring(built, now, paths[..|paths| - 1], id6);
    }
  }

  /** No listed file's id differs between the two moments. */
  ghost predicate SameIds(a: Disk, b: Disk, types: seq<string>) {
    forall p, id6 | p in Listed(a, types) :: Declares(a, p, id6) <==> Declares(b, p, id6)
  }

  /** An index whose signature still matches is an index of the present disk if and only if no listed file's id
      was edited in place since it was built. */
  lemma HitIsFreshUnlessEdited(i: ArtifactIndex, built: Disk, now: Disk, types: seq<string>)
    requires IsIndexOf(i, built, types) && now.tree == built.tree && now.walk == built.walk
    ensures IsIndexOf(i, now, types) <==> SameIds(built, now, types)
  {
    hide Declares, Listed, NamedBy;
    SameListing(built, now, types);
    if IsIndexOf(i, now, types) {
      forall p, id6 | p in Listed(built, types)
        ensures Declares(built, p, id6) <==> Declares(now, p, id6)
      {
        assert i.Claims(id6) == Declaring(built, i.paths, id6) == Declaring(now, i.paths, id6);
        assert p in Declaring(built, i.paths, id6) <==> p in Declaring(now, i.paths, id6);
      }
    }
    if SameIds(built, now, types) {
      forall id6
        ensures i.Claims(id6) == Declaring(now, i.paths, id6)
      {
        SameDeclaring(built, now, i.paths, id6);
      }
    }
  }

  // ----- sessions -----

  /** Between two lookups anything may happen to a repository: its tree changes, ids change in place. */
  datatype Op = Change(root: string, tree: Tree, declared: map<Path, Option<string>>) | Ask(key: Key, id6: string, stem: string)

  function Changed(world: map<string, Disk>, op: Op): map<string, Disk> {
    if op.Change? && op.root in world then world[op.root := world[op.root].(tree := op.tree, declared := op.declared)] else world
  }

  /** The repositories after the first `n` steps. */
  function WorldAt(start: map<string, Disk>, ops: seq<Op>, n: nat): map<string, Disk>
    requires n <= |ops|
  {
    if n == 0 then start else Changed(WorldAt(start, ops, n - 1), ops[n - 1])
  }

  /** A lookup of a known repository, the step it happens at, and that repository then. */
  datatype Question = Question(at: nat, key: Key, id6: string, stem: string, disk: Disk)

  /** The lookups among the first `n` steps. */
  function Questions(start: map<string, Disk>, ops: seq<Op>, n: nat): seq<Question>
    requires n <= |ops|
  {
    if n == 0 then []
    else
      var before, op, world := Questions(start, ops, n - 1), ops[n - 1], WorldAt(start, ops, n - 1);
      if op.Ask? && op.key.root in world
      then before + [Question(n - 1, op.key, op.id6, op.stem, world[op.key.root])]
      else before
  }

  lemma {:induction false} SameWalk(start: map<string, Disk>, ops: seq<Op>, n: nat, root: string)
    requires n <= |ops|
    ensures root in WorldAt(start, ops, n) <==> root in start
    ensures root in start ==> WorldAt(start, ops, n)[root].walk == start[root].walk
  {
    if n > 0 {
      SameWalk(start, ops, n - 1, root);
    }
  }

  /** What was answered, what it cost, and how many entries the cache then held. */
  datatype Answered = Answered(found: Lookup, traversals: nat, entries: nat)

  /** The root had this disk at some step up to `n`. */
  ghost predicate WasWorld(start: map<string, Disk>, ops: seq<Op>, n: nat, root: string, disk: Disk)
    requires n <= |ops|
  {
    exists m: nat | m <= n :: root in WorldAt(start, ops, m) && WorldAt(start, ops, m)[root] == disk
  }

  /** The answer of an index built when the repository had its present tree. */
  ghost predicate AnswersAs(start: map<string, Disk>, ops: seq<Op>, q: Question, found: Lookup, built: Disk, i: ArtifactIndex)
    requires q.at <= |ops|
  {
    && WasWorld(start, ops, q.at, q.key.root, built) && built.tree == q.disk.tree && IsIndexOf(i, built, q.key.types)
    && found == Answer(i, q.id6, q.stem)
  }

  ghost predicate Explained(start: map<string, Disk>, ops: seq<Op>, q: Question, a: Answered)
    requires q.at <= |ops|
  {
    && TierOneTrue(a.found, q.disk, q.id6) && a.traversals <= 1 && a.entries <= CACHE_MAX
    && if q.id6 == "" && q.stem == "" then a.found == NOTHING
       else exists built, i :: AnswersAs(start, ops, q, a.found, built, i)
  }

  /** Every cached index was built from its root as it was at some step. */
  ghost predicate FromHere(cache: Cache, start: map<string, Disk>, ops: seq<Op>, n: nat)
    reads cache
    requires n <= |ops|
  {
    && cache.Valid()
    && forall e | e in cache.entries :: e.index.oid in cache.origins && WasWorld(start, ops, n, e.key.root, cache.origins[e.index.oid])
  }

  /** Over any interleaving of changes and lookups from an empty cache, each lookup gets one answer, true of the
      disk at the moment it is given in tier one, and otherwise the answer of an index built when the repository
      had the tree it has then. No lookup costs more than one traversal and the cache stays within its bound. */
  method Session(start: map<string, Disk>, ops: seq<Op>) returns (log: seq<Answered>, world: map<string, Disk>)
    ensures world == WorldAt(start, ops, |ops|)
    ensures |log| == |Questions(start, ops, |ops|)|
    ensures forall k | 0 <= k < |log| :: Questions(start, ops, |ops|)[k].at <= |ops|
    ensures forall k | 0 <= k < |log| :: Explained(start, ops, Questions(start, ops, |ops|)[k], log[k])
  {
    hide Explained, FromHere;
    var cache := new Cache();
    log, world := [], start;
    EmptyFromHere(cache, start, ops);
    for n := 0 to |ops|
      invariant world == WorldAt(start, ops, n) && FromHere(cache, start, ops, n)
      invariant fresh(cache)
      invariant |log| == |Questions(start, ops, n)|
      invariant forall k | 0 <= k < |log| :: Questions(start, ops, n)[k].at < n
      invariant forall k | 0 <= k < |log| :: Explained(start, ops, Questions(start, ops, n)[k], log[k])
    {
      match ops[n]
      case Change(root, tree, declared) =>
        if root in world {
          world := world[root := world[root].(tree := tree, declared := declared)];
        }
        StillFromHere(cache, start, ops, n);
      case Ask(key, id6, stem) =>
        if key.root in world {
          var answer := One(cache, start, ops, n, world);
          log := log + [answer];
        } else {
          StillFromHere(cache, start, ops, n);
        }
    }
  }

  /** One lookup of a session. */
  method One(cache: Cache, ghost start: map<string, Disk>, ops: seq<Op>, n: nat, world: map<string, Disk>) returns (answer: Answered)
    requires n < |ops| && ops[n].Ask? && world == WorldAt(start, ops, n) && ops[n].key.root in world
    requires FromHere(cache, start, ops, n)
    modifies cache
    ensures FromHere(cache, start, ops, n + 1)
    ensures var q := Question(n, ops[n].key, ops[n].id6, ops[n].stem, world[ops[n].key.root]);
            Explained(start, ops, q, answer)
  {
    hide WorldAt, Sound, IsIndexOf, Answer, Stale, Verified, TierOneTrue, WasWorld;
    var key, disk := ops[n].key, world[ops[n].key.root];
    var before := cache.nextOid;
    ghost var entries, origins := cache.entries, cache.origins;
    SoundHere(cache.entries, cache.nextOid, cache.origins);
    NowIsWorld(start, ops, n, key.root);
    ExplainAnswer(cache, start, ops, n);
    var found := cache.FindArtifact(key, disk, ops[n].id6, ops[n].stem, None);
    answer := Answered(found, cache.nextOid - before, |cache.entries|);
    SoundHere(cache.entries, cache.nextOid, cache.origins);
    forall e | e in cache.entries
      ensures WasWorld(start, ops, n + 1, e.key.root, cache.origins[e.index.oid])
    {
      if e in entries {
        WasWorldLater(start, ops, n, e.key.root, origins[e.index.oid]);
      } else {
        WasWorldLater(start, ops, n, key.root, disk);
      }
    }
  }

  lemma SoundHere(entries: seq<Entry>, nextOid: nat, origins: map<nat, Disk>)
    requires Sound(entries, nextOid, origins)
    ensures |entries| <= CACHE_MAX
    ensures forall n | n in origins :: n < nextOid
    ensures forall e | e in entries :: e.index.oid in origins
  {
    hide IsIndexOf;
  }

  lemma NowIsWorld(start: map<string, Disk>, ops: seq<Op>, n: nat, root: string)
    requires n <= |ops| && root in WorldAt(start, ops, n)
    ensures WasWorld(start, ops, n, root, WorldAt(start, ops, n)[root])
  {
  }

  lemma WasWorldLater(start: map<string, Disk>, ops: seq<Op>, n: nat, root: string, disk: Disk)
    requires n < |ops| && WasWorld(start, ops, n, root, disk)
    ensures WasWorld(start, ops, n + 1, root, disk)
  {
    hide WorldAt;
  }

  /** Whatever the lookup at step `n` answers from was built when its root had the present tree. */
  lemma ExplainAnswer(cache: Cache, start: map<string, Disk>, ops: seq<Op>, n: nat)
    requires n < |ops| && ops[n].Ask? && ops[n].key.root in WorldAt(start, ops, n) && FromHere(cache, start, ops, n)
    ensures var op, disk := ops[n], WorldAt(start, ops, n)[ops[n].key.root];
            var q := Question(n, op.key, op.id6, op.stem, disk);
            forall found | IsAnswer(found, AnswersFrom(cache.entries, op.key, disk, op.id6, None), disk, op.key.types, op.id6, op.stem) ::
              exists built, i :: AnswersAs(start, ops, q, found, built, i)
  {
    hide WorldAt, IsIndexOf, Answer, Stale, WasWorld;
    var op, disk := ops[n], WorldAt(start, ops, n)[ops[n].key.root];
    var q := Question(n, op.key, op.id6, op.stem, disk);
    var source := AnswersFrom(cache.entries, op.key, disk, op.id6, None);
    NowIsWorld(start, ops, n, op.key.root);
    forall found | IsAnswer(found, source, disk, op.key.types, op.id6, op.stem)
      ensures exists built, i :: AnswersAs(start, ops, q, found, built, i)
    {
      match source
      case From(i) =>
        var e := cache.entries[Position(cache.entries, op.key).value];
        assert AnswersAs(start, ops, q, found, cache.origins[e.index.oid], i);
      case Fresh =>
        var i :| IsIndexOf(i, disk, op.key.types) && found == Answer(i, op.id6, op.stem);
        assert AnswersAs(start, ops, q, found, disk, i);
    }
  }

  lemma EmptyFromHere(cache: Cache, start: map<string, Disk>, ops: seq<Op>)
    requires cache.Valid() && cache.entries == []
    ensures FromHere(cache, start, ops, 0)
  {
  }

  lemma StillFromHere(cache: Cache, start: map<string, Disk>, ops: seq<Op>, n: nat)
    requires n < |ops| && FromHere(cache, start, ops, n)
    ensures FromHere(cache, start, ops, n + 1)
  {
    hide WasWorld, Sound;
    SoundHere(cache.entries, cache.nextOid, cache.origins);
    forall e | e in cache.entries
      ensures WasWorld(start, ops, n + 1, e.key.root, cache.origins[e.index.oid])
    {
      WasWorldLater(start, ops, n, e.key.root, cache.origins[e.index.oid]);
    }
  }

  /** Every question asks about its root as it was at that step. */
  lemma {:induction false} QuestionsAreNow(start: map<string, Disk>, ops: seq<Op>, n: nat)
    requires n <= |ops|
    ensures forall q | q in Questions(start, ops, n) ::
              q.at < n && q.key.root in WorldAt(start, ops, q.at) && q.disk == WorldAt(start, ops, q.at)[q.key.root]
  {
    hide WorldAt;
    if n > 0 {
      QuestionsAreNow(start, ops, n - 1);
    }
  }

  /** No listed file's id changed up to this question without the tree changing too. */
  ghost predicate NoHiddenEdit(start: map<string, Disk>, ops: seq<Op>, q: Question)
    requires q.at <= |ops|
  {
    forall m: nat | m <= q.at && q.key.root in WorldAt(start, ops, m) && WorldAt(start, ops, m)[q.key.root].tree == q.disk.tree ::
      SameIds(WorldAt(start, ops, m)[q.key.root], q.disk, q.key.types)
  }

  /** Where no id was edited unseen, a session's answers are the complete ones for the disk as it is, in every tier:
      the files that declare the id6, else those named by it, else the first that mentions the stem, else nothing. */
  lemma AnswersAreComplete(start: map<string, Disk>, ops: seq<Op>, q: Question, a: Answered)
    requires q in Questions(start, ops, |ops|) && q.at <= |ops|
    requires Explained(start, ops, q, a) && NoHiddenEdit(start, ops, q)
    ensures Complete(a.found, q.disk, q.key.types, q.id6, q.stem)
  {
    hide WorldAt, Questions, IsIndexOf, Answer, SameIds, Complete;
    if q.id6 == "" && q.stem == "" {
      FreshIsComplete(q.disk, q.key.types, q.id6, q.stem);
    } else {
      QuestionsAreNow(start, ops, |ops|);
      var built, i :| AnswersAs(start, ops, q, a.found, built, i);
      var m: nat :| m <= q.at && q.key.root in WorldAt(start, ops, m) && WorldAt(start, ops, m)[q.key.root] == built;
      SameWalk(start, ops, m, q.key.root);
      SameWalk(start, ops, q.at, q.key.root);
      HitIsFreshUnlessEdited(i, built, q.disk, q.key.types);
      FreshAnswerIsExact(i, q.disk, q.key.types, q.id6, q.stem);
    }
  }

  // ----- a caller's index -----

  /** From an empty cache: an index is built and kept by the caller, the tree changes and another is built and
      cached, an id is edited in place, and the caller looks it up with the older index. Both indexes are stale,
      the cached one under the right signature, and the second pass answers from it without looking. */
  method CallerIndexCanAnswerFalsely(id6: string, other: string) returns (found: Lookup, now: Disk)
    requires id6 != "" && id6 != other
    ensures found.kind == ById && found.path.Some? && !Declares(now, found.path.value, id6)
    ensures found.path.value in now.declared && now.declared[found.path.value] == Some(other)
  {
    var dir := "/repo/.aw/records/plans";
    var p := Path(dir + "/a.md", "a.md");
    var walk := (names: map<string, set<string>>, recordType: string) =>
      if recordType == "plans" && dir in names && "a.md" in names[dir] then Some([p]) else None;
    var key := Key("/repo", ["plans"]);
    var first := Disk(map[dir := (1, {"a.md"})], walk, map[p := Some(id6)]);
    var second := first.(tree := map[dir := (2, {"a.md", "notes.txt"})]);
    now := second.(declared := map[p := Some(other)]);
    OneListed(first, p, id6);
    OneListed(second, p, id6);
    assert now.declared[p] == Some(other) && now.tree == second.tree && first.tree[dir].0 != second.tree[dir].0;
    hide *;
    var cache := new Cache();
    EmptyCache(key, first);
    var given := cache.BuildIndex(key, first);
    OtherTree(key, first, given, second);
    var cached := cache.BuildIndex(key, second);
    SameSignature(cache.entries, key, second, now);
    StaleTwice(cache.entries, key, given, cached, now, p, id6, other);
    found := cache.FindArtifact(key, now, id6, "", Some(given));
  }

  lemma EmptyCache(key: Key, disk: Disk)
    ensures Cached([], key, disk).None?
  {
  }

  lemma OtherTree(key: Key, before: Disk, given: ArtifactIndex, now: Disk)
    requires before.tree != now.tree
    ensures Cached(Stored([], Entry(key, before.tree, given)), key, now).None?
  {
    var e := Entry(key, before.tree, given);
    assert Stored([], e) == [e];
  }

  lemma SameSignature(entries: seq<Entry>, key: Key, a: Disk, b: Disk)
    requires a.tree == b.tree
    ensures Cached(entries, key, a) == Cached(entries, key, b)
  {
  }

  lemma StaleTwice(entries: seq<Entry>, key: Key, given: ArtifactIndex, cached: ArtifactIndex, now: Disk, p: Path, id6: string, other: string)
    requires given.Claims(id6) == [p] && cached.Claims(id6) == [p] && cached.oid != given.oid
    requires Cached(entries, key, now) == Some(cached)
    requires id6 != "" && id6 != other && p in now.declared && now.declared[p] == Some(other)
    ensures !Declares(now, p, id6)
    ensures forall found | IsAnswer(found, AnswersFrom(entries, key, now, id6, Some(given)), now, key.types, id6, "") ::
              found == Lookup(Some(p), [], ById)
  {
    hide Cached;
    assert p in given.Claims(id6);
  }

  lemma OneListed(disk: Disk, p: Path, id6: string)
    requires disk.walk(Names(disk.tree), "plans") == Some([p]) && p in disk.declared && disk.declared[p] == Some(id6)
    ensures forall i | IsIndexOf(i, disk, ["plans"]) :: i.Claims(id6) == [p]
  {
    assert ["plans"][1..] == [] && [p][..0] == [];
    assert Listed(disk, ["plans"]) == [p] + Listed(disk, []);
    assert Distinct([p]) == [p];
    assert Declaring(disk, [p], id6) == [p];
  }
}
