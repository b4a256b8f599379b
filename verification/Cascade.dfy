/** Blocking the dependents of a failed plan: the pass over the queue reaches the least queue in which no queued
    item waits on a failed prerequisite. */
module Cascade {
  import opened Wrappers
  import opened Dispatch

  /** `r` is `queue` with some of its queued items blocked. */
  ghost predicate Onward(queue: seq<Item>, r: seq<Item>) {
    && |r| == |queue|
    && forall i | 0 <= i < |queue| :: r[i] == queue[i] || (IsQueued(queue[i]) && r[i] == Blocked(queue[i]))
  }

  ghost predicate Closed(queue: seq<Item>) {
    forall i | 0 <= i < |queue| :: !Doomed(queue, queue[i])
  }

  lemma {:induction false} EntryOnward(queue: seq<Item>, r: seq<Item>, id6: string)
    requires Onward(queue, r)
    ensures var e, f := Entry(queue, id6), Entry(r, id6);
            (e.Some? <==> f.Some?) && (e.Some? ==> f.value.status == e.value.status || f.value.status == DEPENDENCY_BLOCKED)
    decreases |queue|
  {
    if queue != [] {
      var n := |queue| - 1;
      EntryOnward(queue[..n], r[..n], id6);
    }
  }

  lemma BlockedFails(executes: bool)
    ensures Fails(DEPENDENCY_BLOCKED, executes)
  {
  }

  /** Blocking more items never helps one that is doomed. */
  lemma DoomedOnward(queue: seq<Item>, r: seq<Item>, item: Item)
    requires Onward(queue, r) && Doomed(queue, item)
    ensures Doomed(r, item)
  {
    hide Onward, Entry, Fails;
    var d :| d in item.dependencies && DeadEdge(queue, d, Executes(item));
    EntryOnward(queue, r, PlanOf(d).value);
    BlockedFails(Executes(item));
    assert DeadEdge(r, d, Executes(item));
  }

  /** A doomed item is blocked in every closed queue that lies onward. */
  lemma DoomedIsBlocked(queue: seq<Item>, r: seq<Item>, i: nat)
    requires Onward(queue, r) && Closed(r) && i < |queue| && Doomed(queue, queue[i])
    ensures r[i] == Blocked(queue[i]) && Onward(queue[i := Blocked(queue[i])], r)
  {
    hide Doomed, IsQueued;
    DoomedOnward(queue, r, queue[i]);
  }

  lemma OnwardTwice(a: seq<Item>, b: seq<Item>, c: seq<Item>)
    requires Onward(a, b) && Onward(b, c)
    ensures Onward(a, c)
  {
  }

  lemma OnwardBothWays(a: seq<Item>, b: seq<Item>)
    requires Onward(a, b) && Onward(b, a)
    ensures a == b
  {
  }

  /** Blocking one doomed item. */
  lemma OneOnward(queue: seq<Item>, i: nat)
    requires i < |queue| && Doomed(queue, queue[i])
    ensures Onward(queue, queue[i := Blocked(queue[i])])
  {
  }

  lemma {:induction false} CascadeCloses(queue: seq<Item>)
    ensures Onward(queue, Cascaded(queue)) && Closed(Cascaded(queue))
    decreases |Queued(queue)|
  {
    hide Doomed, Queued, IsQueued;
    var i := FirstDoomed(queue, 0);
    if i < |queue| {
      var next := queue[i := Blocked(queue[i])];
      OneOnward(queue, i);
      DoomedIsQueued(queue, queue[i]);
      QueuedShrinks(queue, i);
      CascadeCloses(next);
      OnwardTwice(queue, next, Cascaded(next));
    }
  }

  lemma DoomedIsQueued(queue: seq<Item>, item: Item)
    requires Doomed(queue, item)
    ensures IsQueued(item)
  {
  }

  /** Every closed queue that blocks only queued items blocks all that the cascade blocks: nothing is blocked but
      for a failed plan it depends on, through however many edges. */
  lemma {:induction false} CascadeIsLeast(queue: seq<Item>, r: seq<Item>)
    requires Onward(queue, r) && Closed(r)
    ensures Onward(Cascaded(queue), r)
    decreases |Queued(queue)|
  {
    hide Doomed, Queued, IsQueued, Onward, Closed;
    var i := FirstDoomed(queue, 0);
    if i < |queue| {
      DoomedIsQueued(queue, queue[i]);
      QueuedShrinks(queue, i);
      DoomedIsBlocked(queue, r, i);
      CascadeIsLeast(queue[i := Blocked(queue[i])], r);
    }
  }

  lemma NoneDoomed(queue: seq<Item>)
    requires forall i | 0 <= i < |queue| :: !Doomed(queue, queue[i])
    ensures Closed(queue)
  {
    hide Doomed;
  }

  /** Blocking one more doomed item on the way. */
  lemma BlockingStep(start: seq<Item>, queue: seq<Item>, end: seq<Item>, n: nat)
    requires Onward(start, queue) && Onward(queue, end) && Closed(end) && n < |queue| && Doomed(queue, queue[n])
    ensures var next := queue[n := Blocked(queue[n])];
            Onward(start, next) && Onward(next, end) && |Queued(next)| < |Queued(queue)|
  {
    hide *;
    DoomedIsQueued(queue, queue[n]);
    QueuedShrinks(queue, n);
    DoomedIsBlocked(queue, end, n);
    OneOnward(queue, n);
    OnwardTwice(start, queue, queue[n := Blocked(queue[n])]);
  }

  /** In whatever order items are blocked, a closed queue reached by blocking doomed ones is the cascade. */
  lemma CascadeReached(queue: seq<Item>, r: seq<Item>)
    requires Onward(queue, r) && Onward(r, Cascaded(queue)) && Closed(r)
    ensures r == Cascaded(queue)
  {
    hide Onward, Closed, Cascaded;
    CascadeIsLeast(queue, r);
    OnwardBothWays(r, Cascaded(queue));
  }

  /** Nothing the cascade leaves queued has a failed prerequisite in the queue. */
  lemma NothingQueuedIsDoomed(queue: seq<Item>, item: Item)
    requires item in Cascaded(queue) && IsQueued(item)
    ensures forall d | d in item.dependencies :: !DeadEdge(Cascaded(queue), d, Executes(item))
  {
    hide Cascaded, DeadEdge;
    CascadeCloses(queue);
    var i :| 0 <= i < |Cascaded(queue)| && Cascaded(queue)[i] == item;
  }

  // ----- what the cascade blocks, on the statuses it leaves -----

  /** The last entry of an id6 is the one that counts. */
  ghost predicate LastOf(queue: seq<Item>, id6: string, n: nat) {
    n < |queue| && queue[n].id6 == id6 && forall m | n < m < |queue| :: queue[m].id6 != id6
  }

  /** The plan ended, not executed; to a review a plan that was itself reviewed or approved will do. */
  ghost predicate FailedPlan(queue: seq<Item>, id6: string, review: bool) {
    exists n: nat :: LastOf(queue, id6, n) && queue[n].status in TERMINAL && queue[n].status != "executed"
                     && !(review && queue[n].status in {"reviewed", "approved"})
  }

  ghost predicate PointsAt(d: Dependency, id6: string) {
    d == Executed(id6) || d == Exists("ipd", id6) || (d.InState? && d.target == "ipd" && d.id6 == id6)
  }

  ghost predicate WaitsOnFailed(queue: seq<Item>, item: Item) {
    exists d, id6 :: d in item.dependencies && PointsAt(d, id6) && FailedPlan(queue, id6, item.action == "review")
  }

  lemma {:induction false} EntryIsLast(queue: seq<Item>, id6: string)
    ensures Entry(queue, id6).Some? ==> exists n: nat :: LastOf(queue, id6, n) && queue[n] == Entry(queue, id6).value
    ensures forall n: nat :: LastOf(queue, id6, n) ==> Entry(queue, id6) == Some(queue[n])
    decreases |queue|
  {
    if queue != [] {
      var k := |queue| - 1;
      if queue[k].id6 == id6 {
        assert LastOf(queue, id6, k);
      } else {
        EntryIsLast(queue[..k], id6);
        forall n: nat
          ensures LastOf(queue, id6, n) <==> LastOf(queue[..k], id6, n)
        {
        }
      }
    }
  }

  lemma FailedPlanExactly(queue: seq<Item>, id6: string, item: Item)
    ensures FailedPlan(queue, id6, item.action == "review") <==>
              Entry(queue, id6).Some? && Fails(Entry(queue, id6).value.status, Executes(item))
  {
    hide LastOf, Entry;
    EntryIsLast(queue, id6);
  }

  lemma WaitsExactly(queue: seq<Item>, item: Item)
    ensures WaitsOnFailed(queue, item) <==> exists d | d in item.dependencies :: DeadEdge(queue, d, Executes(item))
  {
    hide FailedPlan, Entry, Fails;
    forall d | d in item.dependencies && DeadEdge(queue, d, Executes(item))
      ensures WaitsOnFailed(queue, item)
    {
      FailedPlanExactly(queue, PlanOf(d).value, item);
      assert PointsAt(d, PlanOf(d).value);
    }
    if d, id6 :| d in item.dependencies && PointsAt(d, id6) && FailedPlan(queue, id6, item.action == "review") {
      FailedPlanExactly(queue, id6, item);
      assert PlanOf(d) == Some(id6);
    }
  }

  lemma {:induction false} BlockedIsDoomed(queue: seq<Item>, j: nat)
    requires j < |queue| && Cascaded(queue)[j] != queue[j]
    ensures Doomed(Cascaded(queue), queue[j])
    decreases |Queued(queue)|
  {
    hide Doomed, Queued, IsQueued, Closed;
    var i := FirstDoomed(queue, 0);
    if i < |queue| {
      DoomedIsQueued(queue, queue[i]);
      QueuedShrinks(queue, i);
      var next := queue[i := Blocked(queue[i])];
      if i == j {
        CascadeCloses(queue);
        DoomedOnward(queue, Cascaded(queue), queue[i]);
      } else {
        BlockedIsDoomed(next, j);
      }
    }
  }

  /** After the cascade the queued items that wait on a failed plan of the queue, those it failed included, are
      blocked, and nothing else changes. */
  lemma CascadeBlocksExactly(queue: seq<Item>)
    ensures |Cascaded(queue)| == |queue|
    ensures forall i | 0 <= i < |queue| ::
              Cascaded(queue)[i]
              == if queue[i].status == "queued" && WaitsOnFailed(Cascaded(queue), queue[i]) then queue[i].(status := "fail-depend")
                 else queue[i]
  {
    var r := Cascaded(queue);
    hide Cascaded, WaitsOnFailed, DeadEdge;
    CascadeCloses(queue);
    forall i | 0 <= i < |queue|
      ensures r[i] == if queue[i].status == "queued" && WaitsOnFailed(r, queue[i]) then queue[i].(status := "fail-depend") else queue[i]
    {
      WaitsExactly(r, queue[i]);
      if r[i] != queue[i] {
        BlockedIsDoomed(queue, i);
      }
    }
  }
}
