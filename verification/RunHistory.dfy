/** What every run of the dispatch loop keeps, whatever the helpers find in each pass. */
module RunHistory {
  import opened Wrappers
  import opened Dispatch
  import opened Cascade

  // ----- the item chosen -----

  /** The satisfied item no other satisfied item comes before, the earliest in the queue among equals. */
  ghost predicate IsFirstChoice(queue: seq<Item>, t: Tick, i: nat)
    requires i < |queue|
  {
    && IsQueued(queue[i]) && Satisfied(queue[i], t)
    && (forall j | 0 <= j < |queue| && IsQueued(queue[j]) && Satisfied(queue[j], t) ::
          !Before(queue[j], queue[i]) && (j < i ==> Before(queue[i], queue[j])))
  }

  predicate Ordered(items: seq<Item>) {
    forall i, j | 0 <= i < j < |items| :: !Before(items[j], items[i])
  }

  lemma OrderedTail(items: seq<Item>)
    requires Ordered(items) && items != []
    ensures Ordered(items[1..])
    ensures forall j | 0 < j < |items| :: !Before(items[j], items[0])
  {
    hide Before;
    forall i, j | 0 <= i < j < |items| - 1
      ensures !Before(items[1..][j], items[1..][i])
    {
      assert items[1..][j] == items[j + 1] && items[1..][i] == items[i + 1];
    }
  }

  lemma OrderedCons(x: Item, items: seq<Item>)
    requires Ordered(items) && forall y | y in items :: !Before(y, x)
    ensures Ordered([x] + items)
  {
    hide Before;
    forall i, j | 0 <= i < j <= |items|
      ensures !Before(([x] + items)[j], ([x] + items)[i])
    {
      assert ([x] + items)[j] == items[j - 1];
    }
  }

  lemma {:induction false} InsertOrders(x: Item, items: seq<Item>)
    requires Ordered(items)
    ensures Ordered(Insert(x, items))
    ensures forall y :: y in Insert(x, items) <==> y == x || y in items
  {
    hide Ordered;
    if items == [] {
      OrderedOne(x);
      assert [x] + [] == [x];
    } else {
      OrderedTail(items);
      assert items == [items[0]] + items[1..];
      if Before(items[0], x) {
        InsertOrders(x, items[1..]);
        forall y | y in items[1..]
          ensures !Before(y, items[0])
        {
          var j :| 0 <= j < |items[1..]| && items[1..][j] == y;
          assert items[j + 1] == y;
        }
        OrderedCons(items[0], Insert(x, items[1..]));
      } else {
        forall y | y in items
          ensures !Before(y, x)
        {
          var j :| 0 <= j < |items| && items[j] == y;
        }
        OrderedCons(x, items);
      }
    }
  }

  lemma OrderedOne(x: Item)
    ensures Ordered([]) && Ordered([x])
  {
  }

  lemma {:induction false} SortOrders(queued: seq<Item>)
    ensures Ordered(Sorted(queued)) && forall y :: y in Sorted(queued) <==> y in queued
  {
    hide Ordered, Before, Insert;
    if queued == [] {
      assert Ordered([]) by {
        NothingOrdered();
      }
    } else {
      SortOrders(queued[1..]);
      InsertOrders(queued[0], Sorted(queued[1..]));
      assert queued == [queued[0]] + queued[1..];
    }
  }

  lemma NothingOrdered()
    ensures Ordered([])
  {
  }

  lemma {:induction false} FirstIsSatisfied(items: seq<Item>, t: Tick)
    ensures var f := FirstSatisfied(items, t);
            (f.Some? ==> f.value in items && Satisfied(f.value, t)) && (f.None? ==> forall y | y in items :: !Satisfied(y, t))
  {
    hide Satisfied;
    if items != [] {
      FirstIsSatisfied(items[1..], t);
      assert items == [items[0]] + items[1..];
    }
  }

  /** Where an insertion puts the first satisfied item. */
  lemma {:induction false} InsertFirst(x: Item, items: seq<Item>, t: Tick)
    requires Ordered(items)
    ensures var f := FirstSatisfied(items, t);
            FirstSatisfied(Insert(x, items), t)
            == if Satisfied(x, t) && (f.None? || !Before(f.value, x)) then Some(x) else f
  {
    hide Satisfied, Ordered;
    var f := FirstSatisfied(items, t);
    FirstIsSatisfied(items, t);
    if items != [] && Before(items[0], x) {
      OrderedTail(items);
      InsertFirst(x, items[1..], t);
      Cons(items[0], Insert(x, items[1..]));
    } else {
      Cons(x, items);
      if f.Some? {
        OrderedTail(items);
        var j :| 0 <= j < |items| && items[j] == f.value;
      }
    }
  }

  lemma Cons(x: Item, rest: seq<Item>)
    ensures ([x] + rest)[0] == x && ([x] + rest)[1..] == rest
  {
  }

  /** The item a pass chooses, both ways: the first in dispatch order, then in queue order, of those ready. */
  lemma {:induction false} ChosenIsFirst(queue: seq<Item>, t: Tick)
    ensures Runnable(queue, t).Some? ==> exists i: nat | i < |queue| :: queue[i] == Runnable(queue, t).value && IsFirstChoice(queue, t, i)
    ensures Runnable(queue, t).None? ==> forall x | x in queue :: !(IsQueued(x) && Satisfied(x, t))
    decreases |queue|
  {
    if queue != [] {
      hide *;
      var x, rest := queue[0], queue[1..];
      ChosenIsFirst(rest, t);
      RunnableStep(queue, t);
      var f := Runnable(rest, t);
      assert queue == [x] + rest;
      if IsQueued(x) && Satisfied(x, t) && (f.None? || !Before(f.value, x)) {
        if f.Some? {
          var i: nat :| i < |rest| && rest[i] == f.value && IsFirstChoice(rest, t, i);
          HeadFirst(queue, t, i);
        } else {
          HeadAlone(queue, t);
        }
        assert queue[0] == Runnable(queue, t).value;
      } else if f.Some? {
        var i: nat :| i < |rest| && rest[i] == f.value && IsFirstChoice(rest, t, i);
        TailFirst(queue, t, i);
        assert queue[i + 1] == Runnable(queue, t).value;
      }
    }
  }

  lemma RunnableStep(queue: seq<Item>, t: Tick)
    requires queue != []
    ensures var x, f := queue[0], Runnable(queue[1..], t);
            Runnable(queue, t) == if IsQueued(x) && Satisfied(x, t) && (f.None? || !Before(f.value, x)) then Some(x) else f
  {
    hide Satisfied, Before, Insert, Ordered;
    var rest := Queued(queue[1..]);
    SortOrders(rest);
    InsertFirst(queue[0], Sorted(rest), t);
    Cons(queue[0], rest);
    assert [] + rest == rest;
  }

  lemma HeadFirst(queue: seq<Item>, t: Tick, i: nat)
    requires queue != [] && i < |queue| - 1 && IsFirstChoice(queue[1..], t, i)
    requires IsQueued(queue[0]) && Satisfied(queue[0], t) && !Before(queue[1..][i], queue[0])
    ensures IsFirstChoice(queue, t, 0)
  {
    hide Satisfied;
    forall j | 0 < j < |queue| && IsQueued(queue[j]) && Satisfied(queue[j], t)
      ensures !Before(queue[j], queue[0])
    {
      assert queue[1..][j - 1] == queue[j];
    }
  }

  lemma HeadAlone(queue: seq<Item>, t: Tick)
    requires queue != [] && IsQueued(queue[0]) && Satisfied(queue[0], t)
    requires forall x | x in queue[1..] :: !(IsQueued(x) && Satisfied(x, t))
    ensures IsFirstChoice(queue, t, 0)
  {
    hide Satisfied;
    forall j | 0 < j < |queue|
      ensures !(IsQueued(queue[j]) && Satisfied(queue[j], t))
    {
      assert queue[1..][j - 1] in queue[1..];
    }
  }

  lemma TailFirst(queue: seq<Item>, t: Tick, i: nat)
    requires queue != [] && i < |queue| - 1 && IsFirstChoice(queue[1..], t, i)
    requires IsQueued(queue[0]) && Satisfied(queue[0], t) ==> Before(queue[1..][i], queue[0])
    ensures IsFirstChoice(queue, t, i + 1)
  {
    hide Satisfied;
    forall j | 0 <= j < |queue| && IsQueued(queue[j]) && Satisfied(queue[j], t)
      ensures !Before(queue[j], queue[i + 1]) && (j < i + 1 ==> Before(queue[i + 1], queue[j]))
    {
      if j > 0 {
        assert queue[1..][j - 1] == queue[j];
      }
    }
  }

  // ----- what a pass adds to the log -----

  /** A dispatch was queued, first of the satisfied, and inside the stop in force; unless a merge was deferred, no
      prerequisite of it in the queue had failed. */
  ghost predicate Justified(e: Event) {
    e.Dispatched? ==>
      && IsQueued(e.item) && Satisfied(e.item, e.tick)
      && e.item in Loaded(e.tick)
      && (forall x | x in Loaded(e.tick) && IsQueued(x) && Satisfied(x, e.tick) :: !Before(x, e.item))
      && (e.windDown.Some? ==> Permits(e.windDown.value, e.item.setId))
      && (!AnyDeferred(Cascaded(e.tick.reloaded)) ==>
            forall d | d in e.item.dependencies :: !DeadEdge(Loaded(e.tick), d, Executes(e.item)))
  }

  lemma ChosenFacts(queue: seq<Item>, t: Tick)
    requires Runnable(queue, t).Some?
    ensures var x := Runnable(queue, t).value;
            && x in queue && IsQueued(x) && Satisfied(x, t)
            && forall y | y in queue && IsQueued(y) && Satisfied(y, t) :: !Before(y, x)
  {
    hide Satisfied, Before, Runnable;
    ChosenIsFirst(queue, t);
  }

  lemma ChosenHasNoDeadEdge(t: Tick, item: Item)
    requires item in Loaded(t) && IsQueued(item) && !AnyDeferred(Cascaded(t.reloaded)) && !Restarts(t) && !t.runaway
    ensures forall d | d in item.dependencies :: !DeadEdge(Loaded(t), d, Executes(item))
  {
    hide Cascaded, DeadEdge, AnyDeferred;
    NothingQueuedIsDoomed(t.reloaded, item);
  }

  /** The events of one pass. */
  ghost predicate PassEvents(s: State, t: Tick, r: State, added: seq<Event>) {
    && (forall e | e in added :: Justified(e) && (e.Dispatched? ==> e.windDown == r.windDown && e.tick == t) && (e.Labelled? ==> r.windDown.None?))
    && (forall e | e in added && e.StopRecorded? :: Some(e.observed) == r.windDown)
    && Records(added) == (if r.stopRecorded && !s.stopRecorded then 1 else 0)
    && (s.stopRecorded ==> r.stopRecorded)
  }

  function Records(log: seq<Event>): nat {
    if log == [] then 0 else (if log[0].StopRecorded? then 1 else 0) + Records(log[1..])
  }

  lemma {:induction false} RecordsAppend(a: seq<Event>, b: seq<Event>)
    ensures Records(a + b) == Records(a) + Records(b)
  {
    if a == [] {
      assert a + b == b;
    } else {
      assert (a + b)[1..] == a[1..] + b;
      RecordsAppend(a[1..], b);
    }
  }

  lemma {:induction false} LabelEvents(items: seq<Item>, t: Tick, w: Option<WindDown>)
    ensures forall e | e in Label(items, t, w) :: e.LeftQueued? || (e.Labelled? && e.windDown == w)
    ensures Records(Label(items, t, w)) == 0
  {
    if items != [] {
      LabelEvents(items[1..], t, w);
      var e := if items[0].id6 in t.transient then LeftQueued(items[0].id6) else Labelled(items[0].id6, w);
      assert ([e] + Label(items[1..], t, w))[1..] == Label(items[1..], t, w);
    }
  }

  lemma NoEvent(s: State, t: Tick, r: State)
    requires r.stopRecorded == s.stopRecorded
    ensures PassEvents(s, t, r, [])
  {
  }

  lemma OneEvent(s: State, t: Tick, r: State, e: Event)
    requires Justified(e) && r.stopRecorded == s.stopRecorded
    requires e.Dispatched? && e.windDown == r.windDown && e.tick == t
    ensures PassEvents(s, t, r, [e])
  {
    hide Justified;
    OneRecord(e);
  }

  lemma OneRecord(e: Event)
    ensures Records([e]) == if e.StopRecorded? then 1 else 0
  {
    assert [e][1..] == [];
  }

  lemma StopEvents(s: State, t: Tick, q: State)
    requires q.stopRecorded == s.stopRecorded && q.log == s.log
    ensures var r := RecordStop(q);
            && s.log <= r.log && PassEvents(s, t, r, r.log[|s.log|..])
            && r.windDown == q.windDown && (q.windDown.Some? ==> r.stopRecorded)
  {
    hide Justified;
    var r := RecordStop(q);
    if q.windDown.Some? && !q.stopRecorded {
      var e := StopRecorded(q.windDown.value, Ids(Queued(q.queue)));
      assert r.log[|s.log|..] == [e];
      OneRecord(e);
      StopIsJustified(e);
    } else {
      assert r.log[|s.log|..] == [];
    }
  }

  lemma StopIsJustified(e: Event)
    requires !e.Dispatched?
    ensures Justified(e)
  {
  }

  /** One pass from any state. */
  lemma StepAdds(s: State, t: Tick)
    requires s.phase == Going
    ensures var r := Step(s, t);
            && s.log <= r.log && PassEvents(s, t, r, r.log[|s.log|..])
            && r.windDown == Observe(t.level, s.currentSet, s.windDown)
            && (r.windDown.Some? ==> r.queue == Loaded(t))
            && (r.windDown.Some? && (r.phase == AtBoundary || r.phase == Drained) ==> r.stopRecorded)
            && (r.phase == AtBoundary ==> r.windDown.Some?) && (r.phase == Stuck ==> r.windDown.None?)
  {
    hide Observe, Runnable, Queued, AnyDeferred, AsksAgain, Loaded, ResolveDeferrals, Label, Labelling, Satisfied, Before, Permits, RecordStop, PassEvents, Justified;
    var q := s.(queue := Loaded(t), windDown := Observe(t.level, s.currentSet, s.windDown));
    StopEvents(s, t, q);
    RecordKeeps(q);
    var r := Step(s, t);
    var same := s.log[|s.log|..];
    assert same == [];
    NoEvent(s, t, r.(stopRecorded := s.stopRecorded));
    if Restarts(t) || t.runaway {
      NoEvent(s, t, r);
    } else if Queued(q.queue) == [] && !AnyDeferred(q.queue) {
      PassEventsCongruent(s, t, RecordStop(q), r, r.log[|s.log|..]);
    } else if Runnable(q.queue, t).Some? {
      var item := Runnable(q.queue, t).value;
      if q.windDown.Some? && !Permits(q.windDown.value, item.setId) {
        PassEventsCongruent(s, t, RecordStop(q), r, r.log[|s.log|..]);
      } else {
        DispatchAdds(s, q, t, item);
      }
    } else if q.windDown.Some? {
      PassEventsCongruent(s, t, RecordStop(q), r, r.log[|s.log|..]);
    } else {
      StuckAdds(s, q, t);
    }
  }

  lemma RecordKeeps(q: State)
    ensures var r := RecordStop(q); r == q.(stopRecorded := r.stopRecorded, log := r.log)
  {
  }

  lemma PassEventsCongruent(s: State, t: Tick, a: State, b: State, added: seq<Event>)
    requires PassEvents(s, t, a, added) && a.windDown == b.windDown && a.stopRecorded == b.stopRecorded
    ensures PassEvents(s, t, b, added)
  {
    hide Justified;
  }

  lemma DispatchAdds(s: State, q: State, t: Tick, item: Item)
    requires q.log == s.log && q.stopRecorded == s.stopRecorded && q.queue == Loaded(t) && q.phase == Going
    requires Runnable(q.queue, t) == Some(item) && (q.windDown.Some? ==> Permits(q.windDown.value, item.setId))
    requires !Restarts(t) && !t.runaway
    ensures var r := DispatchArm(q, t, item);
            && s.log <= r.log && PassEvents(s, t, r, r.log[|s.log|..])
            && r.windDown == q.windDown && r.queue == q.queue && r.phase != AtBoundary && r.phase != Drained && r.phase != Stuck
  {
    hide Runnable, Satisfied, Before, Permits, PassEvents, Loaded, Cascaded, DeadEdge;
    ChosenFacts(q.queue, t);
    if !AnyDeferred(Cascaded(t.reloaded)) {
      ChosenHasNoDeadEdge(t, item);
    }
    var r := DispatchArm(q, t, item);
    var e := Dispatched(item, q.windDown, t);
    assert Justified(e);
    if r.log == s.log {
      assert r.log[|s.log|..] == [];
      NoEvent(s, t, r);
    } else {
      assert r.log[|s.log|..] == [e];
      OneEvent(s, t, r, e);
    }
  }

  lemma StuckAdds(s: State, q: State, t: Tick)
    requires q.log == s.log && q.stopRecorded == s.stopRecorded && q.windDown.None?
    ensures var r := StuckArm(q, t);
            && s.log <= r.log && PassEvents(s, t, r, r.log[|s.log|..])
            && r.windDown.None?
  {
    hide Queued, AnyDeferred, AsksAgain, ResolveDeferrals, Label, Labelling, Justified;
    var r := StuckArm(q, t);
    LabelEvents(Queued(q.queue), t, q.windDown);
    if r.log == s.log {
      assert r.log[|s.log|..] == [];
    } else {
      var labels := Label(Queued(q.queue), t, q.windDown);
      assert r.log[|s.log|..] == labels;
      forall e | e in labels
        ensures Justified(e)
      {
        StopIsJustified(e);
      }
    }
  }
}
