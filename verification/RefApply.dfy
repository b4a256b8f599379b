/** One file's plan, and what applying it leaves: no old name outside the masked spans. */
module RefApply {
  import opened Wrappers
  import opened Text
  import opened Naming
  import opened Rewriting
  import opened Citations
  import opened RecordNames
  import opened RefPlan
  import opened Masking
  import opened Links
  import opened Unmasking

  // ----- planning one file -----

  /** An edit the renames justify and the masked text calls for. */
  ghost predicate Justified(renames: seq<Renaming>, prefixCount: map<string, nat>, index: map<string, seq<string>>, masked: string, e: Edit) {
    match e
    case FullName(was, now) => was != now && Renaming(was, now) in renames && Occurs(was, masked)
    case BareStem(was, now) =>
      && HasStem(masked, false, was, false)
      && exists r | r in renames :: WholeStemOf(r, was, now) || HandleOf(r, prefixCount, was, now)
    case FacetlessStem(was, now) =>
      && HasStem(masked, false, was, true) && NoSibling(renames, index, was)
      && exists r | r in renames :: FacetlessOf(r, was, now)
  }

  ghost predicate AllJustified(renames: seq<Renaming>, prefixCount: map<string, nat>, index: map<string, seq<string>>, masked: string, edits: seq<Edit>) {
    forall e | e in edits :: Justified(renames, prefixCount, index, masked, e)
  }

  /** Every name found is rewritten, and so is every stem found between boundaries that the maps allow. */
  ghost predicate NothingMissed(renames: seq<Renaming>, prefixCount: map<string, nat>, index: map<string, seq<string>>, masked: string, edits: seq<Edit>) {
    && (forall r | r in renames && r.was != r.now && Occurs(r.was, masked) :: FullName(r.was, r.now) in edits)
    && (forall r | r in renames && WholeStemOf(r, WholeStem(r.was), WholeStem(r.now)) && HasStem(masked, false, WholeStem(r.was), false) ::
          BareStem(WholeStem(r.was), WholeStem(r.now)) in edits)
    && (forall r, k, v | r in renames && HandleOf(r, prefixCount, k, v) && HasStem(masked, false, k, false) ::
          exists now :: BareStem(k, now) in edits)
    && (forall r, k, v | r in renames && FacetlessOf(r, k, v) && NoSibling(renames, index, k) && HasStem(masked, false, k, true) ::
          exists now :: FacetlessStem(k, now) in edits)
  }

  /** The per-file part of the planner. */
  method PlanFile(renames: seq<Renaming>, prefixCount: map<string, nat>, index: map<string, seq<string>>, masked: string)
      returns (edits: seq<Edit>)
    requires Distinct(renames)
    ensures AllJustified(renames, prefixCount, index, masked, edits)
    ensures NothingMissed(renames, prefixCount, index, masked, edits)
    ensures SortByKind(edits) == edits
  {
    hide *;
    var whole, handles, facetless := StemMaps(renames, prefixCount, index);
    var fulls := FullEdits(renames, masked);
    var stems := StemEdits(whole, masked);
    var shorts := StemEdits(handles, masked);
    var bares := FacetlessEdits(facetless, masked);
    edits := fulls + (stems + shorts) + bares;
    PlanIsJustified(renames, prefixCount, index, masked, whole, handles, facetless, fulls, stems, shorts, bares);
    PlanIsSorted(fulls, stems + shorts, bares);
  }

  method FullEdits(renames: seq<Renaming>, masked: string) returns (edits: seq<Edit>)
    ensures forall e :: e in edits <==> e.FullName? && e.was != e.now && Renaming(e.was, e.now) in renames && Occurs(e.was, masked)
  {
    edits := [];
    for n := 0 to |renames|
      invariant forall e :: e in edits <==> e.FullName? && e.was != e.now && Renaming(e.was, e.now) in renames[..n] && Occurs(e.was, masked)
    {
      hide Occurs;
      var r := renames[n];
      assert renames[..n + 1] == renames[..n] + [r];
      assert r == Renaming(r.was, r.now);
      if r.was != r.now && Occurs(r.was, masked) {
        edits := edits + [FullName(r.was, r.now)];
      }
    }
    assert renames[..|renames|] == renames;
  }

  method StemEdits(d: seq<(string, string)>, masked: string) returns (edits: seq<Edit>)
    ensures forall e :: e in edits <==> e.BareStem? && (e.was, e.now) in d && HasStem(masked, false, e.was, false)
  {
    edits := [];
    for n := 0 to |d|
      invariant forall e :: e in edits <==> e.BareStem? && (e.was, e.now) in d[..n] && HasStem(masked, false, e.was, false)
    {
      hide HasStem;
      assert d[..n + 1] == d[..n] + [d[n]] && d[n] == (d[n].0, d[n].1);
      if HasStem(masked, false, d[n].0, false) {
        edits := edits + [BareStem(d[n].0, d[n].1)];
      }
    }
    assert d[..|d|] == d;
  }

  method FacetlessEdits(d: seq<(string, string)>, masked: string) returns (edits: seq<Edit>)
    ensures forall e :: e in edits <==> e.FacetlessStem? && (e.was, e.now) in d && HasStem(masked, false, e.was, true)
  {
    edits := [];
    for n := 0 to |d|
      invariant forall e :: e in edits <==> e.FacetlessStem? && (e.was, e.now) in d[..n] && HasStem(masked, false, e.was, true)
    {
      hide HasStem;
      assert d[..n + 1] == d[..n] + [d[n]] && d[n] == (d[n].0, d[n].1);
      if HasStem(masked, false, d[n].0, true) {
        edits := edits + [FacetlessStem(d[n].0, d[n].1)];
      }
    }
    assert d[..|d|] == d;
  }

  lemma PlanIsJustified(renames: seq<Renaming>, prefixCount: map<string, nat>, index: map<string, seq<string>>, masked: string,
                        whole: seq<(string, string)>, handles: seq<(string, string)>, facetless: seq<(string, string)>,
                        fulls: seq<Edit>, stems: seq<Edit>, shorts: seq<Edit>, bares: seq<Edit>)
    requires Whole(renames, whole) && AllWhole(renames, whole)
    requires Handles(renames, prefixCount, handles) && AllHandles(renames, prefixCount, handles)
    requires Facetless(renames, renames, index, facetless) && AllFacetless(renames, renames, index, facetless)
    requires forall e :: e in fulls <==> e.FullName? && e.was != e.now && Renaming(e.was, e.now) in renames && Occurs(e.was, masked)
    requires forall e :: e in stems <==> e.BareStem? && (e.was, e.now) in whole && HasStem(masked, false, e.was, false)
    requires forall e :: e in shorts <==> e.BareStem? && (e.was, e.now) in handles && HasStem(masked, false, e.was, false)
    requires forall e :: e in bares <==> e.FacetlessStem? && (e.was, e.now) in facetless && HasStem(masked, false, e.was, true)
    ensures AllJustified(renames, prefixCount, index, masked, fulls + (stems + shorts) + bares)
    ensures NothingMissed(renames, prefixCount, index, masked, fulls + (stems + shorts) + bares)
    ensures (forall e | e in fulls :: e.FullName?) && (forall e | e in stems + shorts :: e.BareStem?) && forall e | e in bares :: e.FacetlessStem?
  {
    hide HasStem, Occurs, WholeStemOf, HandleOf, FacetlessOf, NoSibling;
    var all := fulls + (stems + shorts) + bares;
    forall e | e in all
      ensures Justified(renames, prefixCount, index, masked, e)
    {
      match e {
        case FullName(was, now) =>
        case BareStem(was, now) => assert (was, now) in whole || (was, now) in handles;
        case FacetlessStem(was, now) => assert (was, now) in facetless;
      }
    }
    forall r | r in renames && r.was != r.now && Occurs(r.was, masked)
      ensures FullName(r.was, r.now) in all
    {
      assert r == Renaming(r.was, r.now);
      assert FullName(r.was, r.now) in fulls;
    }
    forall r | r in renames && WholeStemOf(r, WholeStem(r.was), WholeStem(r.now)) && HasStem(masked, false, WholeStem(r.was), false)
      ensures BareStem(WholeStem(r.was), WholeStem(r.now)) in all
    {
      assert BareStem(WholeStem(r.was), WholeStem(r.now)) in stems;
    }
    forall r, k, v | r in renames && HandleOf(r, prefixCount, k, v) && HasStem(masked, false, k, false)
      ensures exists now :: BareStem(k, now) in all
    {
      assert HasKey(handles, k);
      var now :| (k, now) in handles;
      assert BareStem(k, now) in shorts;
    }
    forall r, k, v | r in renames && FacetlessOf(r, k, v) && NoSibling(renames, index, k) && HasStem(masked, false, k, true)
      ensures exists now :: FacetlessStem(k, now) in all
    {
      assert HasKey(facetless, k);
      var now :| (k, now) in facetless;
      assert FacetlessStem(k, now) in bares;
    }
  }

  // ----- the applier's order -----

  function EditOrder(e: Edit): nat {
    match e
    case FullName(_, _) => 0
    case BareStem(_, _) => 1
    case FacetlessStem(_, _) => 2
  }

  function OfOrder(k: nat, edits: seq<Edit>): (r: seq<Edit>)
    ensures forall e :: e in r <==> e in edits && EditOrder(e) == k
  {
    if edits == [] then [] else (if EditOrder(edits[0]) == k then [edits[0]] else []) + OfOrder(k, edits[1..])
  }

  /** `sorted(edits, key=_edit_order)`, which is stable. */
  function SortByKind(edits: seq<Edit>): (r: seq<Edit>)
    ensures forall e :: e in r <==> e in edits
  {
    OfOrder(0, edits) + OfOrder(1, edits) + OfOrder(2, edits)
  }

  lemma {:induction false} OrderOfParts(k: nat, a: seq<Edit>, b: seq<Edit>)
    ensures OfOrder(k, a + b) == OfOrder(k, a) + OfOrder(k, b)
  {
    hide EditOrder;
    if a == [] {
      assert a + b == b;
    } else {
      assert (a + b)[1..] == a[1..] + b;
      OrderOfParts(k, a[1..], b);
      var h := if EditOrder(a[0]) == k then [a[0]] else [];
      assert h + (OfOrder(k, a[1..]) + OfOrder(k, b)) == h + OfOrder(k, a[1..]) + OfOrder(k, b);
    }
  }

  lemma {:induction false} OneOrder(k: nat, j: nat, a: seq<Edit>)
    requires forall e | e in a :: EditOrder(e) == j
    ensures OfOrder(k, a) == if k == j then a else []
  {
    hide EditOrder;
    if a != [] {
      OneOrder(k, j, a[1..]);
      assert a == [a[0]] + a[1..];
    }
  }

  lemma OrderOfPlan(k: nat, fulls: seq<Edit>, bares: seq<Edit>, facetless: seq<Edit>)
    requires forall e | e in fulls :: EditOrder(e) == 0
    requires forall e | e in bares :: EditOrder(e) == 1
    requires forall e | e in facetless :: EditOrder(e) == 2
    ensures OfOrder(k, fulls + bares + facetless)
            == (if k == 0 then fulls else []) + (if k == 1 then bares else []) + (if k == 2 then facetless else [])
  {
    hide *;
    OneOrder(k, 0, fulls);
    OneOrder(k, 1, bares);
    OneOrder(k, 2, facetless);
    OrderOfParts(k, fulls, bares);
    OrderOfParts(k, fulls + bares, facetless);
  }

  /** A plan is already in the order the applier sorts into. */
  lemma PlanIsSorted(fulls: seq<Edit>, bares: seq<Edit>, facetless: seq<Edit>)
    requires (forall e | e in fulls :: e.FullName?) && (forall e | e in bares :: e.BareStem?)
    requires forall e | e in facetless :: e.FacetlessStem?
    ensures SortByKind(fulls + bares + facetless) == fulls + bares + facetless
  {
    hide OfOrder;
    OrderOfPlan(0, fulls, bares, facetless);
    OrderOfPlan(1, fulls, bares, facetless);
    OrderOfPlan(2, fulls, bares, facetless);
  }

  // ----- applying to one file -----

  lemma DatedSorted(edits: seq<Edit>)
    requires AllDated(edits)
    ensures AllDated(SortByKind(edits))
  {
    hide SortByKind, Dated;
  }

  /** The applier on one file's text: mask, rewrite in kind order, unmask. None is an index that was never saved. */
  method ApplyToFile(text: string, edits: seq<Edit>) returns (restored: Option<string>)
    requires AllDated(edits)
    ensures AllDated(SortByKind(edits)) && restored == Apply(text, SortByKind(edits))
  {
    DatedSorted(edits);
    hide RewriteAll, Rewrite, MaskedText, Unmask, SortByKind, AllDated, Dated;
    var sorted := SortByKind(edits);
    var current := MaskedText(text);
    assert sorted[0..] == sorted;
    for n := 0 to |sorted|
      invariant AllDated(sorted) && AllDated(sorted[n..])
      invariant RewriteAll(MaskedText(text), sorted) == RewriteAll(current, sorted[n..])
    {
      OneMoreEdit(current, sorted, n);
      current := Rewrite(current, sorted[n]);
    }
    NoEditsLeft(current, sorted);
    restored := Unmask(text, current);
  }

  lemma OneMoreEdit(current: string, sorted: seq<Edit>, n: nat)
    requires n < |sorted| && AllDated(sorted)
    ensures sorted[n].was != "" && AllDated(sorted[n..]) && AllDated(sorted[n + 1..])
    ensures RewriteAll(current, sorted[n..]) == RewriteAll(Rewrite(current, sorted[n]), sorted[n + 1..])
  {
    hide Rewrite, Dated;
    assert sorted[n..][0] == sorted[n] && sorted[n..][1..] == sorted[n + 1..];
    DatedIsNonEmpty(sorted[n]);
  }

  lemma NoEditsLeft(current: string, sorted: seq<Edit>)
    requires AllDated(sorted)
    ensures AllDated(sorted[|sorted|..]) && RewriteAll(current, sorted[|sorted|..]) == current
  {
    hide Rewrite, Dated;
    assert sorted[|sorted|..] == [];
  }

  lemma DatedIsNonEmpty(e: Edit)
    requires Dated(e)
    ensures e.was != ""
  {
  }
}
