/** A commit history as a parent map, and reachability over it.

    A commit without an entry has no known parents: a shallow clone ends there. The map comes from
    text, so nothing rules out a cycle, and nothing below assumes there is none. */
module CommitGraph {
  type Commit = string
  type Graph = map<Commit, seq<Commit>>

  function Parents(g: Graph, c: Commit): seq<Commit> {
    if c in g then g[c] else []
  }

  ghost predicate IsPath(g: Graph, p: seq<Commit>) {
    p != [] && forall i :: 0 <= i < |p| - 1 ==> p[i + 1] in Parents(g, p[i])
  }

  /** `to` is `from` itself or one of its ancestors. */
  ghost predicate Reaches(g: Graph, from: Commit, to: Commit) {
    exists p | IsPath(g, p) :: p[0] == from && p[|p| - 1] == to
  }

  /** `s` is exactly the reflexive-transitive parent closure of `c`. */
  ghost predicate IsClosure(g: Graph, c: Commit, s: set<Commit>) {
    forall x :: x in s <==> Reaches(g, c, x)
  }

  ghost predicate ClosedUnderParents(g: Graph, s: set<Commit>) {
    forall c | c in s :: forall p | p in Parents(g, c) :: p in s
  }

  /** Every commit a walk from `c` can meet; only bounds the walk. */
  function Universe(g: Graph, c: Commit): set<Commit> {
    {c} + g.Keys + set k, p | k in g && p in g[k] :: p
  }

  lemma ReachesSelf(g: Graph, c: Commit)
    ensures Reaches(g, c, c)
  {
    assert IsPath(g, [c]);
  }

  lemma ReachesParent(g: Graph, a: Commit, b: Commit, parent: Commit)
    requires Reaches(g, a, b) && parent in Parents(g, b)
    ensures Reaches(g, a, parent)
  {
    var p :| IsPath(g, p) && p[0] == a && p[|p| - 1] == b;
    assert IsPath(g, p + [parent]);
  }

  lemma ReachesTransitive(g: Graph, a: Commit, b: Commit, c: Commit)
    requires Reaches(g, a, b) && Reaches(g, b, c)
    ensures Reaches(g, a, c)
  {
    var p :| IsPath(g, p) && p[0] == a && p[|p| - 1] == b;
    var q :| IsPath(g, q) && q[0] == b && q[|q| - 1] == c;
    var pq := p + q[1..];
    forall i | 0 <= i < |pq| - 1
      ensures pq[i + 1] in Parents(g, pq[i])
    {
      if i >= |p| - 1 {
        assert pq[i] == q[i - |p| + 1] && pq[i + 1] == q[i - |p| + 2];
      }
    }
    assert IsPath(g, pq);
  }

  ghost function Ancestors(g: Graph, c: Commit): set<Commit> {
    set x | x in Universe(g, c) && Reaches(g, c, x)
  }

  lemma AncestorsAreClosed(g: Graph, c: Commit)
    ensures c in Ancestors(g, c) && ClosedUnderParents(g, Ancestors(g, c))
  {
    ReachesSelf(g, c);
    forall x, p | x in Ancestors(g, c) && p in Parents(g, x)
      ensures p in Ancestors(g, c)
    {
      ReachesParent(g, c, x, p);
    }
  }

  lemma {:induction false} PathStaysInside(g: Graph, s: set<Commit>, p: seq<Commit>)
    requires IsPath(g, p) && p[0] in s && ClosedUnderParents(g, s)
    ensures p[|p| - 1] in s
  {
    if |p| > 1 {
      assert p[0 + 1] in Parents(g, p[0]);
      forall i | 0 <= i < |p[1..]| - 1
        ensures p[1..][i + 1] in Parents(g, p[1..][i])
      {
        assert p[i + 1 + 1] in Parents(g, p[i + 1]);
      }
      PathStaysInside(g, s, p[1..]);
    }
  }

  /** A set that holds `c`, is closed under parents and holds only ancestors is the closure. */
  lemma ClosedReachableSetIsClosure(g: Graph, c: Commit, s: set<Commit>)
    requires c in s && ClosedUnderParents(g, s)
    requires forall x | x in s :: Reaches(g, c, x)
    ensures IsClosure(g, c, s)
  {
    forall x | Reaches(g, c, x)
      ensures x in s
    {
      var p :| IsPath(g, p) && p[0] == c && p[|p| - 1] == x;
      PathStaysInside(g, s, p);
    }
  }

  /** The closure of an ancestor is part of the closure. */
  lemma ClosureOfAncestorIsSmaller(g: Graph, c: Commit, s: set<Commit>, a: Commit, t: set<Commit>)
    requires IsClosure(g, c, s) && IsClosure(g, a, t) && a in s
    ensures t <= s
  {
    forall x | x in t
      ensures x in s
    {
      ReachesTransitive(g, c, a, x);
    }
  }
}
