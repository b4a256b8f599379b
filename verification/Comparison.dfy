/** `benchmark_ablations.compute_paired_comparison`: pairing the cells two architectures share. */
module Comparison {
  import opened Wrappers

  /** The factors held constant across architectures, as the code pairs on them. */
  datatype Cell = Cell(task: string, modelId: string, effort: string, host: string, trial: int)

  datatype Trial = Trial(cell: Cell, timeout: real, pending: bool, verdict: Option<string>, wallTime: Option<real>, tokens: Option<int>)

  datatype Verdict = BothPending | AWins | BWins | Tie

  datatype Pair = Pair(cell: Cell, outcomeA: string, outcomeB: string, time: real, tokens: Option<int>, verdict: Verdict)

  datatype Result = Result(pairs: seq<Pair>, aWins: nat, bWins: nat, ties: nat, bothPending: nat,
                           meanTime: real, meanTokens: Option<real>)

  type Index = map<Cell, Trial>

  /** `{cell_key(r): r for r in results}`: a later result of the same cell replaces an earlier one. */
  function Indexed(results: seq<Trial>): (index: Index)
    ensures forall k | k in index :: index[k] in results && index[k].cell == k
    ensures forall r | r in results :: r.cell in index
  {
    if results == [] then map[]
    else
      assert results == results[..|results| - 1] + [results[|results| - 1]];
      Indexed(results[..|results| - 1])[results[|results| - 1].cell := results[|results| - 1]]
  }

  // ----- one cell -----

  function Outcome(r: Trial): string {
    if r.pending then "pending" else if r.verdict.Some? then r.verdict.value else "unknown"
  }

  function Rank(outcome: string): nat {
    match outcome
    case "complete" => 4
    case "incomplete" => 2
    case "pending" => 1
    case _ => 0
  }

  function Judge(a: string, b: string): Verdict {
    if a == "pending" && b == "pending" then BothPending
    else if Rank(a) > Rank(b) then AWins
    else if Rank(b) > Rank(a) then BWins
    else Tie
  }

  function Time(r: Trial): real {
    if r.wallTime.Some? then r.wallTime.value else 0.0
  }

  function Matched(a: Trial, b: Trial): Pair {
    Pair(a.cell, Outcome(a), Outcome(b), Time(b) - Time(a),
         if a.tokens.Some? && b.tokens.Some? then Some(b.tokens.value - a.tokens.value) else None,
         Judge(Outcome(a), Outcome(b)))
  }

  function Pairs(a: Index, b: Index, keys: seq<Cell>): seq<Pair>
    requires forall k | k in keys :: k in a && k in b
  {
    seq(|keys|, i requires 0 <= i < |keys| => Matched(a[keys[i]], b[keys[i]]))
  }

  // ----- the totals -----

  function Wins(pairs: seq<Pair>, v: Verdict): nat {
    if pairs == [] then 0 else Wins(pairs[..|pairs| - 1], v) + if pairs[|pairs| - 1].verdict == v then 1 else 0
  }

  function TotalTime(pairs: seq<Pair>): real {
    if pairs == [] then 0.0 else TotalTime(pairs[..|pairs| - 1]) + pairs[|pairs| - 1].time
  }

  function TokenPairs(pairs: seq<Pair>): nat {
    if pairs == [] then 0 else TokenPairs(pairs[..|pairs| - 1]) + if pairs[|pairs| - 1].tokens.Some? then 1 else 0
  }

  function TotalTokens(pairs: seq<Pair>): int {
    if pairs == [] then 0
    else TotalTokens(pairs[..|pairs| - 1]) + if pairs[|pairs| - 1].tokens.Some? then pairs[|pairs| - 1].tokens.value else 0
  }

  function Summary(pairs: seq<Pair>): Result
    requires pairs != []
  {
    Result(pairs, Wins(pairs, AWins), Wins(pairs, BWins), Wins(pairs, Tie), Wins(pairs, BothPending),
           TotalTime(pairs) / |pairs| as real,
           if TokenPairs(pairs) == 0 then None else Some(TotalTokens(pairs) as real / TokenPairs(pairs) as real))
  }

  /** The cells both sides have. */
  function Common(a: Index, b: Index): set<Cell> {
    a.Keys * b.Keys
  }

  ghost predicate Lists(keys: seq<Cell>, cells: set<Cell>) {
    (forall k :: k in keys <==> k in cells) && forall i, j | 0 <= i < j < |keys| :: keys[i] != keys[j]
  }

  lemma TotalsStep(pairs: seq<Pair>, p: Pair)
    ensures Wins(pairs + [p], AWins) == Wins(pairs, AWins) + if p.verdict == AWins then 1 else 0
    ensures Wins(pairs + [p], BWins) == Wins(pairs, BWins) + if p.verdict == BWins then 1 else 0
    ensures Wins(pairs + [p], Tie) == Wins(pairs, Tie) + if p.verdict == Tie then 1 else 0
    ensures Wins(pairs + [p], BothPending) == Wins(pairs, BothPending) + if p.verdict == BothPending then 1 else 0
    ensures TotalTime(pairs + [p]) == TotalTime(pairs) + p.time
    ensures TokenPairs(pairs + [p]) == TokenPairs(pairs) + if p.tokens.Some? then 1 else 0
    ensures TotalTokens(pairs + [p]) == TotalTokens(pairs) + if p.tokens.Some? then p.tokens.value else 0
  {
    assert (pairs + [p])[..|pairs|] == pairs;
  }

  lemma SliceStep(pairs: seq<Pair>, n: nat)
    requires n < |pairs|
    ensures pairs[..n + 1] == pairs[..n] + [pairs[n]]
  {
  }

  lemma KeysAreCommon(keys: seq<Cell>, a: Index, b: Index)
    requires Lists(keys, Common(a, b))
    ensures forall i | 0 <= i < |keys| :: keys[i] in a && keys[i] in b
  {
    forall i | 0 <= i < |keys|
      ensures keys[i] in a && keys[i] in b
    {
      assert keys[i] in keys;
    }
  }

  lemma PairsAre(a: Index, b: Index, keys: seq<Cell>)
    requires forall k | k in keys :: k in a && k in b
    ensures |Pairs(a, b, keys)| == |keys| && forall i | 0 <= i < |keys| :: Pairs(a, b, keys)[i] == Matched(a[keys[i]], b[keys[i]])
  {
    hide Matched;
  }

  /** The loop over the common cells. */
  method Tally(a: Index, b: Index, keys: seq<Cell>)
      returns (pairs: seq<Pair>, aWins: nat, bWins: nat, ties: nat, bothPending: nat, time: real, tokens: int, withTokens: nat)
    requires forall k | k in keys :: k in a && k in b
    ensures pairs == Pairs(a, b, keys)
    ensures aWins == Wins(pairs, AWins) && bWins == Wins(pairs, BWins) && ties == Wins(pairs, Tie) && bothPending == Wins(pairs, BothPending)
    ensures time == TotalTime(pairs) && tokens == TotalTokens(pairs) && withTokens == TokenPairs(pairs)
  {
    pairs := [];
    aWins, bWins, ties, bothPending, time, tokens, withTokens := 0, 0, 0, 0, 0.0, 0, 0;
    ghost var all := Pairs(a, b, keys);
    PairsAre(a, b, keys);
    hide Pairs, Matched;
    for n := 0 to |keys|
      invariant pairs == all[..n]
      invariant aWins == Wins(pairs, AWins) && bWins == Wins(pairs, BWins)
      invariant ties == Wins(pairs, Tie) && bothPending == Wins(pairs, BothPending)
      invariant time == TotalTime(pairs) && tokens == TotalTokens(pairs) && withTokens == TokenPairs(pairs)
    {
      hide *;
      var key := keys[n];
      var pair := Matched(a[key], b[key]);
      SliceStep(all, n);
      TotalsStep(pairs, pair);
      pairs := pairs + [pair];
      time := time + pair.time;
      if pair.tokens.Some? {
        tokens, withTokens := tokens + pair.tokens.value, withTokens + 1;
      }
      if pair.verdict == BothPending {
        bothPending := bothPending + 1;
      } else if pair.verdict == AWins {
        aWins := aWins + 1;
      } else if pair.verdict == BWins {
        bWins := bWins + 1;
      } else {
        ties := ties + 1;
      }
    }
    assert all[..|keys|] == all;
  }

  /** `keys` are the common cells in sorted order; None is the refusal to compare when there are none. */
  method Compare(resultsA: seq<Trial>, resultsB: seq<Trial>, keys: seq<Cell>) returns (r: Option<Result>)
    requires Lists(keys, Common(Indexed(resultsA), Indexed(resultsB)))
    ensures keys == [] ==> r.None?
    ensures keys != [] ==> r == Some(Summary(Pairs(Indexed(resultsA), Indexed(resultsB), keys)))
  {
    hide Indexed, Matched, Wins, TotalTime, TotalTokens, TokenPairs;
    var a, b := Indexed(resultsA), Indexed(resultsB);
    if keys == [] {
      return None;
    }
    var pairs, aWins, bWins, ties, bothPending, time, tokens, withTokens := Tally(a, b, keys);
    var meanTime := time / |pairs| as real;
    var meanTokens := if withTokens == 0 then None else Some(tokens as real / withTokens as real);
    r := Some(Result(pairs, aWins, bWins, ties, bothPending, meanTime, meanTokens));
  }

  // ----- conservation -----

  lemma {:induction false} WinsAddUp(pairs: seq<Pair>)
    ensures Wins(pairs, AWins) + Wins(pairs, BWins) + Wins(pairs, Tie) + Wins(pairs, BothPending) == |pairs|
  {
    if pairs != [] {
      WinsAddUp(pairs[..|pairs| - 1]);
    }
  }

  lemma {:induction false} ListedOnce(keys: seq<Cell>, cells: set<Cell>)
    requires Lists(keys, cells)
    ensures |keys| == |cells|
  {
    if keys == [] {
      assert forall k :: k !in cells;
    } else {
      var last := keys[|keys| - 1];
      var init := keys[..|keys| - 1];
      assert keys == init + [last];
      assert last in cells;
      ListedOnce(init, cells - {last});
    }
  }

  /** Every common cell is judged once: wins, losses, ties and pending pairs add up to their number. */
  lemma ComparisonConserves(a: Index, b: Index, keys: seq<Cell>)
    requires Lists(keys, Common(a, b)) && keys != []
    ensures var r := Summary(Pairs(a, b, keys)); r.aWins + r.bWins + r.ties + r.bothPending == |Common(a, b)| == |r.pairs|
  {
    WinsAddUp(Pairs(a, b, keys));
    ListedOnce(keys, Common(a, b));
  }

  // ----- swapping the sides -----

  function Swapped(v: Verdict): Verdict {
    match v
    case AWins => BWins
    case BWins => AWins
    case _ => v
  }

  function SwapPair(p: Pair): Pair {
    Pair(p.cell, p.outcomeB, p.outcomeA, -p.time, if p.tokens.Some? then Some(-p.tokens.value) else None, Swapped(p.verdict))
  }

  function SwapPairs(pairs: seq<Pair>): seq<Pair> {
    seq(|pairs|, i requires 0 <= i < |pairs| => SwapPair(pairs[i]))
  }

  lemma {:induction false} SwapTotals(pairs: seq<Pair>, v: Verdict)
    ensures var s := SwapPairs(pairs);
            && Wins(s, Swapped(v)) == Wins(pairs, v) && TotalTime(s) == -TotalTime(pairs)
            && TotalTokens(s) == -TotalTokens(pairs) && TokenPairs(s) == TokenPairs(pairs)
  {
    if pairs != [] {
      var init := pairs[..|pairs| - 1];
      assert SwapPairs(pairs)[..|pairs| - 1] == SwapPairs(init);
      SwapTotals(init, v);
    }
  }

  /** Which side wins: complete before incomplete before pending before anything else, and two pending cells
      make no winner. */
  lemma JudgedExactly(a: string, b: string)
    ensures Judge(a, b) == AWins <==>
              || (a == "complete" && b != "complete")
              || (a == "incomplete" && b != "complete" && b != "incomplete")
              || (a == "pending" && b != "complete" && b != "incomplete" && b != "pending")
    ensures Judge(a, b) == BWins <==>
              || (b == "complete" && a != "complete")
              || (b == "incomplete" && a != "complete" && a != "incomplete")
              || (b == "pending" && a != "complete" && a != "incomplete" && a != "pending")
    ensures Judge(a, b) == BothPending <==> a == "pending" && b == "pending"
  {
  }

  lemma JudgeSwaps(a: string, b: string)
    ensures Judge(b, a) == Swapped(Judge(a, b))
  {
    hide Rank;
  }

  lemma NegatedQuotient(x: real, n: real)
    requires n != 0.0
    ensures (-x) / n == -(x / n)
  {
  }

  /** Swapping the two sides swaps the wins, keeps ties and pending pairs, and negates every delta and both means. */
  lemma ComparisonSwaps(a: Index, b: Index, keys: seq<Cell>)
    requires Lists(keys, Common(a, b)) && keys != []
    requires (forall k | k in a :: a[k].cell == k) && (forall k | k in b :: b[k].cell == k)
    ensures var r, s := Summary(Pairs(a, b, keys)), Summary(Pairs(b, a, keys));
            && s.pairs == SwapPairs(r.pairs)
            && s.aWins == r.bWins && s.bWins == r.aWins && s.ties == r.ties && s.bothPending == r.bothPending
            && s.meanTime == -r.meanTime
            && s.meanTokens == if r.meanTokens.Some? then Some(-r.meanTokens.value) else None
  {
    hide Outcome, Judge, Time, Wins, TotalTime, TotalTokens, TokenPairs;
    var pairs, other := Pairs(a, b, keys), Pairs(b, a, keys);
    forall i | 0 <= i < |keys|
      ensures other[i] == SwapPair(pairs[i])
    {
      JudgeSwaps(Outcome(a[keys[i]]), Outcome(b[keys[i]]));
    }
    assert other == SwapPairs(pairs);
    SwapTotals(pairs, AWins);
    SwapTotals(pairs, BWins);
    SwapTotals(pairs, Tie);
    SwapTotals(pairs, BothPending);
    NegatedQuotient(TotalTime(pairs), |pairs| as real);
    if TokenPairs(pairs) != 0 {
      NegatedQuotient(TotalTokens(pairs) as real, TokenPairs(pairs) as real);
    }
  }

  // ----- what the cell does not hold -----

  /** The same trials, each under a timeout of its own choosing. */
  function Retimed(results: seq<Trial>, timeouts: seq<real>): seq<Trial>
    requires |timeouts| == |results|
  {
    seq(|results|, i requires 0 <= i < |results| => results[i].(timeout := timeouts[i]))
  }

  predicate SameButTimeout(a: Trial, b: Trial) {
    b == a.(timeout := b.timeout)
  }

  lemma {:induction false} RetimedIndex(results: seq<Trial>, timeouts: seq<real>)
    requires |timeouts| == |results|
    ensures var i, j := Indexed(results), Indexed(Retimed(results, timeouts));
            i.Keys == j.Keys && forall k | k in i :: SameButTimeout(i[k], j[k])
  {
    if results != [] {
      var n := |results| - 1;
      assert Retimed(results, timeouts)[..n] == Retimed(results[..n], timeouts[..n]);
      RetimedIndex(results[..n], timeouts[..n]);
    }
  }

  /** The documentation lists the timeout among what must match; the comparison is the same whatever timeout each
      trial of either side ran under, so trials run under different timeouts are paired. */
  lemma TimeoutsArePooled(resultsA: seq<Trial>, resultsB: seq<Trial>, keys: seq<Cell>, timeoutsA: seq<real>, timeoutsB: seq<real>)
    requires |timeoutsA| == |resultsA| && |timeoutsB| == |resultsB|
    requires Lists(keys, Common(Indexed(resultsA), Indexed(resultsB)))
    ensures var a, b := Indexed(resultsA), Indexed(resultsB);
            var c, d := Indexed(Retimed(resultsA, timeoutsA)), Indexed(Retimed(resultsB, timeoutsB));
            Common(c, d) == Common(a, b) && Pairs(c, d, keys) == Pairs(a, b, keys)
  {
    hide Indexed, Matched, Retimed, SameButTimeout;
    RetimedIndex(resultsA, timeoutsA);
    RetimedIndex(resultsB, timeoutsB);
    var a, b := Indexed(resultsA), Indexed(resultsB);
    var c, d := Indexed(Retimed(resultsA, timeoutsA)), Indexed(Retimed(resultsB, timeoutsB));
    KeysAreCommon(keys, a, b);
    forall i | 0 <= i < |keys|
      ensures Matched(c[keys[i]], d[keys[i]]) == Matched(a[keys[i]], b[keys[i]])
    {
      TimeoutIsNotRead(a[keys[i]], c[keys[i]], b[keys[i]], d[keys[i]]);
    }
  }

  lemma TimeoutIsNotRead(a: Trial, c: Trial, b: Trial, d: Trial)
    requires SameButTimeout(a, c) && SameButTimeout(b, d)
    ensures Matched(c, d) == Matched(a, b)
  {
  }
}
