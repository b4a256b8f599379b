/** Planning the citation rewrites of a rename, and what applying the plan leaves of the old names. */
module RefPlan {
  import opened Wrappers
  import opened Text
  import opened Naming
  import opened Rewriting
  import opened Citations
  import opened RecordNames
  import R = Rename

  datatype Renaming = Renaming(was: string, now: string)

  // ----- the strings a rename is cited by -----

  function WholeStem(name: string): string {
    if EndsWith(name, ".md") then name[..|name| - 3] else name
  }

  const FACETS: seq<string> := ["ipd", "prompt", "spec", "walkthrough", "roadmap", "backlog", "comms", "release", "review", "other"]

  function WithoutFacet(name: string, facets: seq<string>): Option<string> {
    if facets == [] then None
    else
      var suffix := "." + facets[0] + ".md";
      if EndsWith(name, suffix) then Some(name[..|name| - |suffix|]) else WithoutFacet(name, facets[1..])
  }

  /** The name without its facet and extension, for a dated record name that has a facet. */
  function FacetlessStemOf(name: string): Option<string> {
    if Parse(Canonical, name).None? && R.ParseLegacy(name).None? then None else WithoutFacet(name, FACETS)
  }

  /** `YYYYMMDD-HHMM-NN` of a name that starts with one. */
  function LegacyPrefix(name: string): Option<string> {
    if |name| > 16 && AllDigits(name[..8]) && name[8] == '-' && AllDigits(name[9..13]) && name[13] == '-'
       && AllDigits(name[14..16]) && name[16] == '-'
    then Some(name[..16])
    else None
  }

  /** `<date>-<set>-<nn>` of a clustered name. */
  function ShortHandle(name: string): Option<string> {
    match ParsePrefix(name)
    case None => None
    case Some((date, setId, nn, _)) => Some(date + "-" + setId + "-" + nn)
  }

  // ----- what may be planned -----

  /** A delimited occurrence of the stem. */
  predicate HasStem(s: string, inToken: bool, stem: string, facetless: bool)
    decreases |s|
  {
    && s != ""
    && ((!inToken && stem <= s && EndsStem(s[|stem|..], facetless)) || HasStem(s[1..], IsTokenChar(s[0]), stem, facetless))
  }

  predicate WholeStemOf(r: Renaming, was: string, now: string) {
    && r.was != r.now && was == WholeStem(r.was) && now == WholeStem(r.now)
    && was != r.was && |was| >= 6 && was != now
  }

  /** A short legacy handle only one record carries. */
  predicate HandleOf(r: Renaming, prefixCount: map<string, nat>, was: string, now: string) {
    && r.was != r.now && LegacyPrefix(r.was) == Some(was) && ShortHandle(r.now) == Some(now)
    && (was in prefixCount ==> prefixCount[was] <= 1)
  }

  predicate FacetlessOf(r: Renaming, was: string, now: string) {
    && r.was != r.now && FacetlessStemOf(r.was) == Some(was) && FacetlessStemOf(r.now) == Some(now)
    && was != now && was != WholeStem(r.was)
  }

  /** No record outside the rename has the same facetless stem. */
  predicate NoSibling(renames: seq<Renaming>, index: map<string, seq<string>>, stem: string) {
    stem in index ==> forall name | name in index[stem] :: name in Olds(renames)
  }

  function Olds(renames: seq<Renaming>): seq<string> {
    seq(|renames|, i requires 0 <= i < |renames| => renames[i].was)
  }

  /** Python dict assignment on a dict in insertion order. */
  function Put(d: seq<(string, string)>, k: string, v: string): seq<(string, string)> {
    if d == [] then [(k, v)]
    else if d[0].0 == k then [(k, v)] + d[1..]
    else [d[0]] + Put(d[1..], k, v)
  }

  lemma {:induction false} PutHolds(d: seq<(string, string)>, k: string, v: string)
    ensures (k, v) in Put(d, k, v)
    ensures forall p | p in Put(d, k, v) :: p == (k, v) || p in d
    ensures forall p | p in d && p.0 != k :: p in Put(d, k, v)
  {
    if d == [] {
    } else if d[0].0 == k {
      assert d == [d[0]] + d[1..];
    } else {
      assert d == [d[0]] + d[1..];
      PutHolds(d[1..], k, v);
    }
  }

  /** Every entry of a planner map comes from a rename, as the map says. */
  ghost predicate Whole(renames: seq<Renaming>, d: seq<(string, string)>) {
    forall p | p in d :: exists r | r in renames :: WholeStemOf(r, p.0, p.1)
  }

  ghost predicate Handles(renames: seq<Renaming>, prefixCount: map<string, nat>, d: seq<(string, string)>) {
    forall p | p in d :: exists r | r in renames :: HandleOf(r, prefixCount, p.0, p.1)
  }

  ghost predicate Facetless(renames: seq<Renaming>, all: seq<Renaming>, index: map<string, seq<string>>, d: seq<(string, string)>) {
    forall p | p in d :: NoSibling(all, index, p.0) && exists r | r in renames :: FacetlessOf(r, p.0, p.1)
  }

  /** Every whole stem a rename changes is in the map. */
  ghost predicate AllWhole(renames: seq<Renaming>, d: seq<(string, string)>) {
    forall r | r in renames && WholeStemOf(r, WholeStem(r.was), WholeStem(r.now)) :: (WholeStem(r.was), WholeStem(r.now)) in d
  }

  ghost predicate HasKey(d: seq<(string, string)>, k: string) {
    exists v :: (k, v) in d
  }

  /** Every short handle and every facetless stem that may be rewritten has an entry, the last and the first
      rename of that stem winning. */
  ghost predicate AllHandles(renames: seq<Renaming>, prefixCount: map<string, nat>, d: seq<(string, string)>) {
    forall r, k, v | r in renames && HandleOf(r, prefixCount, k, v) :: HasKey(d, k)
  }

  ghost predicate AllFacetless(renames: seq<Renaming>, all: seq<Renaming>, index: map<string, seq<string>>, d: seq<(string, string)>) {
    forall r, k, v | r in renames && FacetlessOf(r, k, v) && NoSibling(all, index, k) :: HasKey(d, k)
  }

  /** The renames come from a dict: no name is renamed twice. */
  predicate Distinct(renames: seq<Renaming>) {
    forall i, j | 0 <= i < j < |renames| :: renames[i].was != renames[j].was
  }

  lemma StemDetermines(a: string, b: string)
    requires WholeStem(a) != a && WholeStem(b) != b && WholeStem(a) == WholeStem(b)
    ensures a == b
  {
    assert a == a[..|a| - 3] + a[|a| - 3..];
    assert b == b[..|b| - 3] + b[|b| - 3..];
  }

  // ----- one more rename -----

  lemma NotRenamedBefore(renames: seq<Renaming>, r: Renaming, q: Renaming)
    requires Distinct(renames + [r]) && q in renames
    ensures q.was != r.was
  {
    var i :| 0 <= i < |renames| && renames[i] == q;
    assert (renames + [r])[i] == q && (renames + [r])[|renames|] == r;
  }

  lemma WholeMore(renames: seq<Renaming>, r: Renaming, d: seq<(string, string)>)
    requires Distinct(renames + [r]) && Whole(renames, d) && AllWhole(renames, d)
    ensures Whole(renames + [r], d) && (!WholeStemOf(r, WholeStem(r.was), WholeStem(r.now)) ==> AllWhole(renames + [r], d))
    ensures WholeStemOf(r, WholeStem(r.was), WholeStem(r.now)) ==>
              var e := Put(d, WholeStem(r.was), WholeStem(r.now));
              Whole(renames + [r], e) && AllWhole(renames + [r], e)
  {
    hide WholeStem, Put;
    var all, k, v := renames + [r], WholeStem(r.was), WholeStem(r.now);
    assert forall q | q in renames :: q in all;
    assert r in all && forall q | q in all :: q in renames || q == r;
    if WholeStemOf(r, k, v) {
      PutHolds(d, k, v);
      forall q | q in renames && WholeStemOf(q, WholeStem(q.was), WholeStem(q.now))
        ensures WholeStem(q.was) != k
      {
        NotRenamedBefore(renames, r, q);
        if WholeStem(q.was) == k {
          StemDetermines(q.was, r.was);
        }
      }
    }
  }

  lemma PutKeepsKeys(d: seq<(string, string)>, k: string, v: string)
    ensures HasKey(Put(d, k, v), k) && forall k' | HasKey(d, k') :: HasKey(Put(d, k, v), k')
  {
    hide Put;
    PutHolds(d, k, v);
    forall k' | HasKey(d, k') && k' != k
      ensures HasKey(Put(d, k, v), k')
    {
      var v' :| (k', v') in d;
      assert (k', v') in Put(d, k, v);
    }
  }

  lemma HandlesMore(renames: seq<Renaming>, r: Renaming, prefixCount: map<string, nat>, d: seq<(string, string)>, k: string, v: string)
    requires Handles(renames, prefixCount, d) && AllHandles(renames, prefixCount, d) && HandleOf(r, prefixCount, k, v)
    ensures Handles(renames + [r], prefixCount, Put(d, k, v)) && AllHandles(renames + [r], prefixCount, Put(d, k, v))
  {
    hide HasKey, Put;
    var all := renames + [r];
    assert r in all && (forall q | q in renames :: q in all) && forall q | q in all :: q in renames || q == r;
    PutHolds(d, k, v);
    PutKeepsKeys(d, k, v);
  }

  lemma HandlesSame(renames: seq<Renaming>, r: Renaming, prefixCount: map<string, nat>, d: seq<(string, string)>)
    requires Handles(renames, prefixCount, d) && AllHandles(renames, prefixCount, d) && forall k, v :: !HandleOf(r, prefixCount, k, v)
    ensures Handles(renames + [r], prefixCount, d) && AllHandles(renames + [r], prefixCount, d)
  {
    hide HasKey, HandleOf;
    var all := renames + [r];
    assert r in all && (forall q | q in renames :: q in all) && forall q | q in all :: q in renames || q == r;
  }

  lemma FacetlessMore(renames: seq<Renaming>, r: Renaming, all: seq<Renaming>, index: map<string, seq<string>>,
                      d: seq<(string, string)>, k: string, v: string)
    requires Facetless(renames, all, index, d) && AllFacetless(renames, all, index, d)
    requires FacetlessOf(r, k, v) && NoSibling(all, index, k)
    ensures Facetless(renames + [r], all, index, Put(d, k, v)) && AllFacetless(renames + [r], all, index, Put(d, k, v))
  {
    hide NoSibling, Put, HasKey, FacetlessStemOf, WholeStem;
    var more := renames + [r];
    assert r in more && (forall q | q in renames :: q in more) && forall q | q in more :: q in renames || q == r;
    PutHolds(d, k, v);
    PutKeepsKeys(d, k, v);
  }

  lemma FacetlessSame(renames: seq<Renaming>, r: Renaming, all: seq<Renaming>, index: map<string, seq<string>>, d: seq<(string, string)>)
    requires Facetless(renames, all, index, d) && AllFacetless(renames, all, index, d)
    requires forall k, v | FacetlessOf(r, k, v) && NoSibling(all, index, k) :: HasKey(d, k)
    ensures Facetless(renames + [r], all, index, d) && AllFacetless(renames + [r], all, index, d)
  {
    hide FacetlessOf, NoSibling, HasKey;
    var more := renames + [r];
    assert r in more && (forall q | q in renames :: q in more) && forall q | q in more :: q in renames || q == r;
  }

  method AddWhole(ghost done: seq<Renaming>, r: Renaming, d: seq<(string, string)>) returns (whole: seq<(string, string)>)
    requires Distinct(done + [r]) && Whole(done, d) && AllWhole(done, d)
    ensures Whole(done + [r], whole) && AllWhole(done + [r], whole)
  {
    hide *;
    var oldWhole, newWhole := WholeStem(r.was), WholeStem(r.now);
    WholeMore(done, r, d);
    WholeStemIs(r);
    whole := d;
    if r.was != r.now && oldWhole != r.was && |oldWhole| >= 6 && oldWhole != newWhole {
      whole := Put(whole, oldWhole, newWhole);
    }
  }

  method AddHandle(ghost done: seq<Renaming>, r: Renaming, prefixCount: map<string, nat>, d: seq<(string, string)>)
      returns (handles: seq<(string, string)>)
    requires Handles(done, prefixCount, d) && AllHandles(done, prefixCount, d)
    ensures Handles(done + [r], prefixCount, handles) && AllHandles(done + [r], prefixCount, handles)
  {
    hide *;
    var prefix, handle := LegacyPrefix(r.was), ShortHandle(r.now);
    HandleIs(r, prefixCount);
    handles := d;
    if r.was != r.now && prefix.Some? && (prefix.value in prefixCount ==> prefixCount[prefix.value] <= 1) && handle.Some? {
      HandlesMore(done, r, prefixCount, d, prefix.value, handle.value);
      handles := Put(handles, prefix.value, handle.value);
    } else {
      HandlesSame(done, r, prefixCount, d);
    }
  }

  /** `shared` remembers the stems the sibling guard refused. */
  method AddFacetless(ghost done: seq<Renaming>, r: Renaming, renames: seq<Renaming>, index: map<string, seq<string>>,
                      d: seq<(string, string)>, planned: set<string>, shared: set<string>)
      returns (facetless: seq<(string, string)>, planned': set<string>, shared': set<string>)
    requires Facetless(done, renames, index, d) && AllFacetless(done, renames, index, d)
    requires Filed(renames, index, d, planned, shared)
    ensures Facetless(done + [r], renames, index, facetless) && AllFacetless(done + [r], renames, index, facetless)
    ensures Filed(renames, index, facetless, planned', shared')
  {
    hide FacetlessStemOf, WholeStem, NoSibling, Put, HasKey, FacetlessOf, Facetless, AllFacetless;
    facetless, planned', shared' := d, planned, shared;
    var oldStem, newStem := FacetlessStemOf(r.was), FacetlessStemOf(r.now);
    FacetlessIs(r);
    if r.was != r.now && oldStem.Some? && newStem.Some? && oldStem != newStem && oldStem.value != WholeStem(r.was)
       && oldStem.value !in planned && oldStem.value !in shared {
      if NoSibling(renames, index, oldStem.value) {
        FacetlessMore(done, r, renames, index, d, oldStem.value, newStem.value);
        PutKeepsKeys(d, oldStem.value, newStem.value);
        facetless := Put(d, oldStem.value, newStem.value);
        planned' := planned + {oldStem.value};
      } else {
        shared' := shared + {oldStem.value};
        FacetlessSame(done, r, renames, index, d);
      }
    } else {
      FacetlessSame(done, r, renames, index, d);
    }
  }

  ghost predicate Filed(renames: seq<Renaming>, index: map<string, seq<string>>, d: seq<(string, string)>,
                        planned: set<string>, shared: set<string>) {
    (forall k | k in planned :: HasKey(d, k)) && (forall k | k in shared :: !NoSibling(renames, index, k))
  }

  /** The planner's loop over the rename map. */
  method StemMaps(renames: seq<Renaming>, prefixCount: map<string, nat>, index: map<string, seq<string>>)
      returns (whole: seq<(string, string)>, handles: seq<(string, string)>, facetless: seq<(string, string)>)
    requires Distinct(renames)
    ensures Whole(renames, whole) && AllWhole(renames, whole)
    ensures Handles(renames, prefixCount, handles) && AllHandles(renames, prefixCount, handles)
    ensures Facetless(renames, renames, index, facetless) && AllFacetless(renames, renames, index, facetless)
  {
    whole, handles, facetless := [], [], [];
    var planned: set<string>, shared: set<string> := {}, {};
    for n := 0 to |renames|
      invariant Whole(renames[..n], whole) && AllWhole(renames[..n], whole)
      invariant Handles(renames[..n], prefixCount, handles) && AllHandles(renames[..n], prefixCount, handles)
      invariant Facetless(renames[..n], renames, index, facetless) && AllFacetless(renames[..n], renames, index, facetless)
      invariant Filed(renames, index, facetless, planned, shared)
    {
      hide *;
      var r := renames[n];
      assert renames[..n + 1] == renames[..n] + [r];
      DistinctPrefix(renames, n + 1);
      whole := AddWhole(renames[..n], r, whole);
      handles := AddHandle(renames[..n], r, prefixCount, handles);
      facetless, planned, shared := AddFacetless(renames[..n], r, renames, index, facetless, planned, shared);
    }
    assert renames[..|renames|] == renames;
  }

  lemma DistinctPrefix(renames: seq<Renaming>, n: nat)
    requires Distinct(renames) && n <= |renames|
    ensures Distinct(renames[..n])
  {
  }

  lemma WholeStemIs(r: Renaming)
    ensures WholeStemOf(r, WholeStem(r.was), WholeStem(r.now)) <==>
            r.was != r.now && WholeStem(r.was) != r.was && |WholeStem(r.was)| >= 6 && WholeStem(r.was) != WholeStem(r.now)
  {
  }

  lemma HandleIs(r: Renaming, prefixCount: map<string, nat>)
    ensures forall k, v :: HandleOf(r, prefixCount, k, v) <==>
              r.was != r.now && LegacyPrefix(r.was) == Some(k) && ShortHandle(r.now) == Some(v)
              && (k in prefixCount ==> prefixCount[k] <= 1)
  {
  }

  lemma FacetlessIs(r: Renaming)
    ensures forall k, v :: FacetlessOf(r, k, v) <==>
              r.was != r.now && FacetlessStemOf(r.was) == Some(k) && FacetlessStemOf(r.now) == Some(v)
              && k != v && k != WholeStem(r.was)
  {
  }
}
