/** Dated record names, and when one can turn into part of another. Such a name is a run of kebab characters
    starting with a digit, then `.md` or `.<facet>.md`, and that shape alone keeps two names from overlapping. */
module RecordNames {
  import opened Wrappers
  import opened Text
  import opened Naming
  import opened Rewriting
  import opened Citations

  /** A name any dated grammar reads with the closed facet enum. */
  predicate IsRecordName(name: string) {
    var stem := StemOf(name);
    HasDate(stem) && AllKebab(stem) && ReadTail(Canonical, name[|stem|..]).Some?
  }

  /** The first dot of a name is at `d`, the last at `l`; they are the same when there is no facet. */
  ghost predicate Shaped(name: string, d: nat, l: nat) {
    && 10 <= d <= l && l + 3 == |name|
    && name[d] == '.' && name[l] == '.' && name[l + 1] == 'm' && name[l + 2] == 'd'
    && IsDigit(name[0]) && name[8] == '-'
    && (forall i | 0 <= i < d :: IsKebabChar(name[i]))
    && (forall i | d < i < l :: 'a' <= name[i] <= 'z')
    && (d < l ==> d + 1 < l && name[d + 1] != 'm')
  }

  lemma FacetIsWord(f: string)
    requires IsArtifactFacet(f)
    ensures f != "" && f[0] != 'm' && forall i | 0 <= i < |f| :: 'a' <= f[i] <= 'z'
  {
  }

  lemma RecordIsShaped(name: string) returns (l: nat)
    requires IsRecordName(name)
    ensures Shaped(name, |StemOf(name)|, l)
  {
    var stem := StemOf(name);
    RecordParts(name);
    l := TailShaped(stem, ReadTail(Canonical, name[|stem|..]).value);
  }

  lemma RecordParts(name: string)
    requires IsRecordName(name)
    ensures var stem := StemOf(name);
            var facet := ReadTail(Canonical, name[|stem|..]);
            && facet.Some? && LegalFacet(Canonical, facet.value) && name == stem + Tail(facet.value)
            && |stem| >= 10 && AllKebab(stem) && IsDigit(stem[0]) && stem[8] == '-'
  {
    hide IsArtifactFacet, StemOf;
    assert StemOf(name)[..8][0] == StemOf(name)[0];
  }

  lemma TailShaped(stem: string, facet: Option<string>) returns (l: nat)
    requires |stem| >= 10 && AllKebab(stem) && IsDigit(stem[0]) && stem[8] == '-' && LegalFacet(Canonical, facet)
    ensures Shaped(stem + Tail(facet), |stem|, l)
  {
    hide *;
    TailIs(facet);
    if facet.None? {
      l := |stem|;
      PlainShaped(stem);
    } else {
      l := |stem| + 1 + |facet.value|;
      LegalIsFacet(facet.value);
      FacetIsWord(facet.value);
      FacetShaped(stem, facet.value);
    }
  }

  lemma TailIs(facet: Option<string>)
    ensures Tail(facet) == if facet.None? then ".md" else "." + facet.value + ".md"
  {
  }

  lemma LegalIsFacet(f: string)
    requires LegalFacet(Canonical, Some(f))
    ensures IsArtifactFacet(f)
  {
    hide IsArtifactFacet;
  }

  lemma PlainShaped(stem: string)
    requires |stem| >= 10 && AllKebab(stem) && IsDigit(stem[0]) && stem[8] == '-'
    ensures Shaped(stem + ".md", |stem|, |stem|)
  {
    hide IsKebabChar, IsDigit;
    assert (stem + ".md")[|stem|..] == ".md";
  }

  lemma FacetShaped(stem: string, f: string)
    requires |stem| >= 10 && AllKebab(stem) && IsDigit(stem[0]) && stem[8] == '-'
    requires f != "" && f[0] != 'm' && forall i | 0 <= i < |f| :: 'a' <= f[i] <= 'z'
    ensures Shaped(stem + ("." + f + ".md"), |stem|, |stem| + 1 + |f|)
  {
    hide IsKebabChar, IsDigit;
    var name, d, l := stem + ("." + f + ".md"), |stem|, |stem| + 1 + |f|;
    assert name == (stem + ".") + f + ".md";
    assert forall i | d < i < l :: name[i] == f[i - d - 1];
    assert name[l] == ".md"[0];
  }

  lemma Suffix(s: string, t: string, i: nat)
    requires EndsWith(s, t) && i < |t|
    ensures |t| <= |s| && s[|s| - |t| + i] == t[i]
  {
    assert s[|s| - |t|..][i] == s[|s| - |t| + i];
  }

  lemma SuffixFrom(s: string, t: string, k: nat)
    requires |t| + k == |s| && forall i | 0 <= i < |t| :: s[k + i] == t[i]
    ensures EndsWith(s, t)
  {
    assert s[k..] == t;
  }

  lemma PrefixAt(v: string, s: string, i: nat)
    requires v <= s && i < |v|
    ensures s[i] == v[i]
  {
    assert s[..|v|][i] == s[i];
  }

  /** A dot before an `m` is the last dot. */
  lemma LastDot(name: string, d: nat, l: nat, k: nat)
    requires Shaped(name, d, l) && k + 1 < |name| && name[k] == '.' && name[k + 1] == 'm'
    ensures k == l
  {
  }

  // ----- exact names -----

  lemma EndsWithPartIsWhole(w: string, now: string, dw: nat, lw: nat, dn: nat, ln: nat, k: nat)
    requires Shaped(w, dw, lw) && Shaped(now, dn, ln) && 0 < k <= |w| && EndsWith(now, w[..k])
    ensures k == |w|
  {
    var v := w[..k];
    Suffix(now, v, 0);
    if k >= 3 {
      Suffix(now, v, k - 2);
      Suffix(now, v, k - 3);
      LastDot(w, dw, lw, k - 3);
    }
  }

  lemma EndOfNameStarts(w: string, now: string, dw: nat, lw: nat, dn: nat, ln: nat, j: nat)
    requires Shaped(w, dw, lw) && Shaped(now, dn, ln) && j < |w| && w[j..] <= now
    ensures w[j..] == now
  {
    var v := w[j..];
    PrefixAt(v, now, 0);
    if |v| >= 3 {
      assert v[|v| - 3] == w[lw] && v[|v| - 2] == w[lw + 1];
      PrefixAt(v, now, |v| - 3);
      PrefixAt(v, now, |v| - 2);
      LastDot(now, dn, ln, |v| - 3);
    }
  }

  lemma NameStartsEnd(w: string, now: string, dw: nat, lw: nat, dn: nat, ln: nat, j: nat)
    requires Shaped(w, dw, lw) && Shaped(now, dn, ln) && j < |w| && now <= w[j..]
    ensures w[j..] == now
  {
    var v := w[j..];
    PrefixAt(now, v, ln);
    PrefixAt(now, v, ln + 1);
    LastDot(w, dw, lw, j + ln);
  }

  lemma OccursAtEnd(w: string, now: string, dw: nat, lw: nat, dn: nat, ln: nat)
    requires Shaped(w, dw, lw) && Shaped(now, dn, ln) && Occurs(w, now)
    ensures EndsWith(now, w)
  {
    hide Occurs;
    var a, b := OccursSplits(w, now);
    DotAndM(a, w, b, lw);
    LastDot(now, dn, ln, |a| + lw);
    assert now[|a|..] == w;
  }

  /** Neither name a suffix of the other is all it takes for a rename to leave no trace of the old one. */
  lemma NamesApart(w: string, now: string)
    requires IsRecordName(w) && IsRecordName(now) && !EndsWith(w, now) && !EndsWith(now, w)
    ensures Apart(w, now)
  {
    hide IsRecordName, EndsWith, Occurs;
    var lw := RecordIsShaped(w);
    var ln := RecordIsShaped(now);
    var dw, dn := |StemOf(w)|, |StemOf(now)|;
    forall k | 0 < k < |w|
      ensures !EndsWith(now, w[..k])
    {
      if EndsWith(now, w[..k]) {
        EndsWithPartIsWhole(w, now, dw, lw, dn, ln, k);
      }
    }
    forall j | 0 < j < |w|
      ensures !(w[j..] <= now) && !(now <= w[j..])
    {
      if w[j..] <= now {
        EndOfNameStarts(w, now, dw, lw, dn, ln, j);
      }
      if now <= w[j..] {
        NameStartsEnd(w, now, dw, lw, dn, ln, j);
      }
      EndIsSuffix(w, j);
    }
    if Occurs(w, now) {
      OccursAtEnd(w, now, dw, lw, dn, ln);
    }
  }

  lemma EndIsSuffix(w: string, j: nat)
    requires j <= |w|
    ensures EndsWith(w, w[j..])
  {
  }

  // ----- stems -----

  /** What the stem rewrites put in: a run of token characters starting with a digit, and perhaps a facet. */
  ghost predicate StemShaped(s: string, d: nat) {
    && 0 < d <= |s| && IsDigit(s[0])
    && (forall i | 0 <= i < d :: IsTokenChar(s[i]))
    && (d < |s| ==> s[d] == '.' && d + 1 < |s| && s[d + 1] != 'm')
    && (forall i | d < i < |s| :: 'a' <= s[i] <= 'z')
  }

  lemma NoDotInEnd(now: string, dn: nat, v: string)
    requires StemShaped(now, dn) && v != "" && IsDigit(v[0]) && EndsWith(now, v)
    requires forall i | 0 <= i < |v| :: v[i] != '.'
    ensures dn == |now|
  {
    var at := |now| - |v|;
    forall i | at <= i < |now|
      ensures now[i] == v[i - at]
    {
      Suffix(now, v, i - at);
    }
  }

  lemma StemEndsWithPart(w: string, now: string, dw: nat, lw: nat, dn: nat, k: nat)
    requires Shaped(w, dw, lw) && StemShaped(now, dn) && 0 < k < |w| && !IsTokenChar(w[k]) && EndsWith(now, w[..k])
    ensures EndsWith(now[..dn], w[..dw])
  {
    var v := w[..k];
    var at := |now| - k;
    Suffix(now, v, 0);
    assert k == dw || (k == lw && dw < lw);
    if k == dw {
      NoDotInEnd(now, dn, v);
    } else {
      Suffix(now, v, dw);
    }
    assert at + dw == dn;
    forall i | 0 <= i < dw
      ensures now[..dn][at + i] == w[..dw][i]
    {
      Suffix(now, v, i);
    }
    SuffixFrom(now[..dn], w[..dw], at);
  }

  lemma DotAndM(a: string, w: string, b: string, k: nat)
    requires k + 1 < |w|
    ensures (a + w + b)[|a| + k] == w[k] && (a + w + b)[|a| + k + 1] == w[k + 1]
  {
  }

  lemma NotInsideStem(w: string, now: string, dw: nat, lw: nat, dn: nat)
    requires Shaped(w, dw, lw) && StemShaped(now, dn)
    ensures !Occurs(w, now)
  {
    if Occurs(w, now) {
      var a, b := OccursSplits(w, now);
      DotAndM(a, w, b, lw);
    }
  }

  lemma StemNamesApart(w: string, now: string, dn: nat)
    requires IsRecordName(w) && StemShaped(now, dn) && !EndsWith(now[..dn], StemOf(w))
    ensures StemApart(w, now)
  {
    hide IsRecordName, EndsWith, Occurs;
    var lw := RecordIsShaped(w);
    var dw := |StemOf(w)|;
    assert StemOf(w) == w[..dw];
    forall k | 0 < k < |w|
      ensures IsTokenChar(w[k - 1]) || w[k] != now[0]
    {
    }
    forall k | 0 < k < |w| && !IsTokenChar(w[k])
      ensures !EndsWith(now, w[..k])
    {
      if EndsWith(now, w[..k]) {
        StemEndsWithPart(w, now, dw, lw, dn, k);
      }
    }
    NotInsideStem(w, now, dw, lw, dn);
  }
}
