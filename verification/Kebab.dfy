/** `artifact_core.kebab`: the one normal form of a set id or slug. */
module Kebab {
  import opened Text

  predicate NoDoubleHyphen(s: string) {
    forall i, j | 0 <= i < |s| && 0 <= j < |s| && j == i + 1 :: s[i] != '-' || s[j] != '-'
  }

  /** Each maximal run of characters outside `[a-z0-9]` becomes one hyphen. `inRun` says whether the
      character before `s` was part of such a run. */
  function Collapse(s: string, inRun: bool): (r: string)
    ensures AllKebab(r)
    ensures NoDoubleHyphen(r)
    ensures inRun && r != "" ==> r[0] != '-'
  {
    if s == "" then ""
    else if IsBase36(s[0]) then [s[0]] + Collapse(s[1..], false)
    else if inRun then Collapse(s[1..], true)
    else "-" + Collapse(s[1..], true)
  }

  /** `str.strip("-")`, one side at a time. */
  function TrimLeft(s: string): (r: string)
    ensures |r| <= |s| && r == s[|s| - |r|..]
    ensures r != "" ==> r[0] != '-'
    ensures forall i | 0 <= i < |s| - |r| :: s[i] == '-'
  {
    if s != "" && s[0] == '-' then TrimLeft(s[1..]) else s
  }

  function TrimRight(s: string): (r: string)
    ensures r <= s
    ensures r != "" ==> r[|r| - 1] != '-'
    ensures forall i | |r| <= i < |s| :: s[i] == '-'
  {
    if s != "" && s[|s| - 1] == '-' then TrimRight(s[..|s| - 1]) else s
  }

  function Trim(s: string): string {
    TrimRight(TrimLeft(s))
  }

  function ToKebab(text: string): string {
    Trim(Collapse(Lower(Strip(text)), false))
  }

  /** Tokens of `[a-z0-9]` separated by single hyphens. */
  predicate IsKebab(s: string) {
    && AllKebab(s)
    && (s != "" ==> s[0] != '-' && s[|s| - 1] != '-')
    && NoDoubleHyphen(s)
  }

  lemma SuffixKeepsShape(s: string, from: nat)
    requires from <= |s| && AllKebab(s) && NoDoubleHyphen(s)
    ensures AllKebab(s[from..]) && NoDoubleHyphen(s[from..])
  {
  }

  lemma PrefixKeepsShape(s: string, to: nat)
    requires to <= |s| && AllKebab(s) && NoDoubleHyphen(s)
    ensures AllKebab(s[..to]) && NoDoubleHyphen(s[..to])
  {
  }

  lemma TrimIsKebab(s: string)
    requires AllKebab(s) && NoDoubleHyphen(s)
    ensures IsKebab(Trim(s))
  {
    hide AllKebab, NoDoubleHyphen, TrimLeft, TrimRight;
    var l := TrimLeft(s);
    var r := TrimRight(l);
    SuffixKeepsShape(s, |s| - |l|);
    PrefixKeepsShape(l, |r|);
    assert r == l[..|r|];
    assert r != "" ==> r[0] == l[0];
  }

  /** Whatever the text, the result is kebab. */
  lemma ToKebabIsKebab(text: string)
    ensures IsKebab(ToKebab(text))
  {
    TrimIsKebab(Collapse(Lower(Strip(text)), false));
  }

  lemma {:induction false} CollapseKeepsKebab(s: string, inRun: bool)
    requires AllKebab(s)
    requires NoDoubleHyphen(s)
    requires inRun && s != "" ==> s[0] != '-'
    ensures Collapse(s, inRun) == s
  {
    if s != "" {
      CollapseKeepsKebab(s[1..], s[0] == '-');
      assert s == [s[0]] + s[1..];
    }
  }

  lemma {:induction false} LowerKeepsKebab(s: string)
    requires AllKebab(s)
    ensures Lower(s) == s
  {
    if s != "" {
      assert IsKebabChar(s[0]);
      LowerKeepsKebab(s[1..]);
      assert s == [s[0]] + s[1..];
    }
  }

  /** A kebab string is its own kebab form. */
  lemma KebabIsFixed(s: string)
    requires IsKebab(s)
    ensures ToKebab(s) == s
  {
    StripKeepsKebabChars(s);
    LowerKeepsKebab(s);
    CollapseKeepsKebab(s, false);
    TrimKeeps(s);
  }

  lemma TrimKeeps(s: string)
    requires s != "" ==> s[0] != '-' && s[|s| - 1] != '-'
    ensures Trim(s) == s
  {
    assert TrimLeft(s) == s;
    assert TrimRight(s) == s;
  }

  /** Normalising twice is normalising once, for every text. */
  lemma ToKebabIdempotent(text: string)
    ensures ToKebab(ToKebab(text)) == ToKebab(text)
  {
    ToKebabIsKebab(text);
    KebabIsFixed(ToKebab(text));
  }

  lemma {:induction false} CollapseKeepsContent(s: string, inRun: bool, i: nat)
    requires i < |s| && IsBase36(s[i])
    ensures exists j | 0 <= j < |Collapse(s, inRun)| :: Collapse(s, inRun)[j] == s[i]
  {
    var r := Collapse(s, inRun);
    if IsBase36(s[0]) {
      if i == 0 {
        assert r[0] == s[0];
      } else {
        CollapseKeepsContent(s[1..], false, i - 1);
        var j :| 0 <= j < |Collapse(s[1..], false)| && Collapse(s[1..], false)[j] == s[i];
        assert r[j + 1] == s[i];
      }
    } else {
      CollapseKeepsContent(s[1..], true, i - 1);
      var j :| 0 <= j < |Collapse(s[1..], true)| && Collapse(s[1..], true)[j] == s[i];
      if !inRun {
        assert r[j + 1] == s[i];
      }
    }
  }

  lemma TrimKeepsContent(s: string, i: nat)
    requires i < |s| && s[i] != '-'
    ensures Trim(s) != ""
  {
    var l := TrimLeft(s);
    assert l[i - (|s| - |l|)] == s[i];
  }

  /** A slug already in `[a-z0-9-]` keeps a nonempty kebab form exactly when it holds a letter or digit. */
  lemma KebabNonempty(s: string)
    requires AllKebab(s)
    ensures ToKebab(s) != "" <==> exists i | 0 <= i < |s| :: IsBase36(s[i])
  {
    StripKeepsKebabChars(s);
    LowerKeepsKebab(s);
    if i :| 0 <= i < |s| && IsBase36(s[i]) {
      CollapseKeepsContent(s, false, i);
      var j :| 0 <= j < |Collapse(s, false)| && Collapse(s, false)[j] == s[i];
      TrimKeepsContent(Collapse(s, false), j);
    } else {
      HyphensCollapse(s, false);
    }
  }

  lemma StripKeepsKebabChars(s: string)
    requires AllKebab(s)
    ensures Strip(s) == s
  {
    if s != "" {
      assert IsKebabChar(s[0]) && IsKebabChar(s[|s| - 1]);
    }
  }

  lemma {:induction false} HyphensCollapse(s: string, inRun: bool)
    requires forall i | 0 <= i < |s| :: !IsBase36(s[i])
    ensures Collapse(s, inRun) == if s == "" || inRun then "" else "-"
  {
    if s != "" {
      HyphensCollapse(s[1..], true);
    }
  }
}
