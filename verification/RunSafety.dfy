/** Safety over whole runs: readiness of every dispatch, operator stops, refused resumes, dependency order. */
module RunSafety {
  import opened Wrappers
  import opened Dispatch
  import opened Cascade
  import opened RunHistory

  lemma RunStep(s: State, ticks: seq<Tick>)
    requires ticks != [] && s.phase == Going
    ensures Run(s, ticks) == Run(Step(s, ticks[0]), ticks[1..])
  {
    hide Step;
  }

  lemma RunStops(s: State, ticks: seq<Tick>)
    requires ticks == [] || s.phase != Going
    ensures Run(s, ticks) == s
  {
  }

  // ----- every dispatch -----

  ghost predicate AllJustified(log: seq<Event>) {
    forall e | e in log :: Justified(e)
  }

  lemma JustifiedJoin(a: seq<Event>, b: seq<Event>)
    requires AllJustified(a) && a <= b && AllJustified(b[|a|..])
    ensures AllJustified(b)
  {
    hide Justified;
    assert b == a + b[|a|..];
  }

  lemma PassIsJustified(s: State, t: Tick, r: State, added: seq<Event>)
    requires PassEvents(s, t, r, added)
    ensures AllJustified(added)
  {
    hide Justified;
  }

  /** In every run each item handed to the orchestrator branch or to a turn was at that moment queued, had every
      declared edge met, came before every other ready item, and lay inside the stop in force. */
  lemma {:induction false} EveryDispatchWasReady(s: State, ticks: seq<Tick>)
    requires AllJustified(s.log)
    ensures AllJustified(Run(s, ticks).log)
    decreases |ticks|
  {
    hide *;
    if ticks == [] || s.phase != Going {
      RunStops(s, ticks);
    } else {
      RunStep(s, ticks);
      StepAdds(s, ticks[0]);
      var r := Step(s, ticks[0]);
      PassIsJustified(s, ticks[0], r, r.log[|s.log|..]);
      JustifiedJoin(s.log, r.log);
      EveryDispatchWasReady(r, ticks[1..]);
    }
  }

  /** What an edge asks, written out on the plan's directory and status field and on the statuses of what the
      edge names. */
  ghost predicate EdgeHolds(d: Dependency, executes: bool, world: World) {
    match d
    case Executed(id6) =>
      && id6 in world.plans && world.plans[id6].bucket.Some?
      && var p := world.plans[id6];
         if p.terminal then p.bucket == Some("executed") || (!executes && p.bucket in {Some("reviewed"), Some("approved")})
         else p.field == Some("executed") || (!executes && p.field in {Some("reviewed"), Some("approved")})
    case Exists(target, id6) => (target, id6) in world.owners && |world.owners[(target, id6)]| == 1
    case InState(target, id6, status) =>
      && (target, id6) in world.owners && |world.owners[(target, id6)]| == 1
      && (world.owners[(target, id6)] == [status] || (!executes && Relaxed(target, status, world.owners[(target, id6)][0])))
    case Unparseable(_) => false
  }

  /** A plan may start when every edge holds and, if it executes, no edge points at open review findings; an
      orchestrator also when it was not told to wait. */
  ghost predicate MayStart(item: Item, t: Tick) {
    && (forall d | d in item.dependencies ::
          EdgeHolds(d, item.action != "review", t.world) && (item.action != "review" && !d.Unparseable? ==> d.id6 !in t.world.findings))
    && (item.action == "orchestrate" ==> item.id6 !in t.waiting)
  }

  /** The first of those that may start goes first: answered ones before the rest, then by rank; and a stop in
      force admits only its own set. */
  ghost predicate StartedInTurn(e: Event) {
    e.Dispatched? ==>
      && e.item.status == "queued" && MayStart(e.item, e.tick)
      && (forall x | x in Loaded(e.tick) && x.status == "queued" && MayStart(x, e.tick) ::
            && (x.answered ==> e.item.answered)
            && (x.answered == e.item.answered ==> e.item.rank <= x.rank))
      && (e.windDown.Some? ==> e.windDown.value.level == 2 && e.item.setId.Some? && e.item.setId == e.windDown.value.setId)
  }

  lemma EdgeHoldsExactly(d: Dependency, executes: bool, world: World)
    ensures EdgeMet(d, executes, world) <==> EdgeHolds(d, executes, world)
  {
  }

  lemma SatisfiedExactly(item: Item, t: Tick)
    ensures Satisfied(item, t) <==> MayStart(item, t)
  {
    hide EdgeMet, EdgeHolds;
    forall d
      ensures EdgeMet(d, Executes(item), t.world) <==> EdgeHolds(d, Executes(item), t.world)
    {
      EdgeHoldsExactly(d, Executes(item), t.world);
    }
  }

  lemma JustifiedInTurn(e: Event)
    requires Justified(e)
    ensures StartedInTurn(e)
  {
    hide Satisfied, MayStart, DeadEdge, Loaded, Cascaded;
    if e.Dispatched? {
      forall x
        ensures Satisfied(x, e.tick) <==> MayStart(x, e.tick)
      {
        SatisfiedExactly(x, e.tick);
      }
    }
  }

  /** Whatever a run starts may start then, on the repository as it is then, and goes before all others that may. */
  lemma EveryDispatchStartedInTurn(s: State, ticks: seq<Tick>)
    requires s.log == []
    ensures forall e | e in Run(s, ticks).log :: StartedInTurn(e)
  {
    hide Justified, StartedInTurn, Run;
    EveryDispatchWasReady(s, ticks);
    forall e | e in Run(s, ticks).log
      ensures StartedInTurn(e)
    {
      JustifiedInTurn(e);
    }
  }

  // ----- operator stops -----

  /** The boundary is kept and the level only rises. */
  predicate Winds(a: Option<WindDown>, b: Option<WindDown>) {
    a.Some? ==> b.Some? && b.value.setId == a.value.setId && b.value.level >= a.value.level
  }

  lemma ObserveWinds(level: Option<nat>, current: Option<string>, existing: Option<WindDown>)
    ensures Winds(existing, Observe(level, current, existing))
    ensures level != Some(2) && existing.Some? ==> Observe(level, current, existing).value.level <= (if existing.value.level > 1 then existing.value.level else 1)
  {
  }

  /** What may follow in the log once a stop with this boundary is in force. */
  ghost predicate Inside(e: Event, w: WindDown) {
    && !e.Labelled?
    && (e.StopRecorded? ==> e.observed.setId == w.setId)
    && (e.Dispatched? ==> w.setId.Some? && e.item.setId == w.setId && e.windDown.Some? && e.windDown.value.level == 2)
  }

  lemma PassInside(s: State, t: Tick, r: State, added: seq<Event>, w: WindDown)
    requires PassEvents(s, t, r, added) && r.windDown.Some? && r.windDown.value.setId == w.setId
    ensures forall e | e in added :: Inside(e, w)
  {
    hide Satisfied, Before, IsQueued;
  }

  ghost predicate AllInside(log: seq<Event>, from: nat, w: WindDown) {
    from <= |log| && forall e | e in log[from..] :: Inside(e, w)
  }

  lemma InsideJoin(a: seq<Event>, b: seq<Event>, c: seq<Event>, w: WindDown)
    requires a <= b <= c && AllInside(b, |a|, w) && AllInside(c, |b|, w)
    ensures AllInside(c, |a|, w)
  {
    hide Inside;
    assert c[|a|..] == b[|a|..] + c[|b|..] by {
      assert c[..|b|] == b;
    }
  }

  lemma PrefixTwice(a: seq<Event>, b: seq<Event>, c: seq<Event>)
    requires a <= b && b <= c
    ensures a <= c
  {
  }

  /** Once a stop is in force the boundary stays, nothing outside the set in flight is started, no queued item is
      labelled, and the queue the loop leaves is the one it loaded. */
  lemma {:induction false} StopIsHonoured(s: State, ticks: seq<Tick>)
    requires s.windDown.Some?
    ensures var r := Run(s, ticks);
            && s.log <= r.log && Winds(s.windDown, r.windDown)
            && AllInside(r.log, |s.log|, s.windDown.value)
            && (r == s || exists k: nat | k < |ticks| :: r.queue == Loaded(ticks[k]))
    decreases |ticks|
  {
    if ticks == [] || s.phase != Going {
      assert s.log[|s.log|..] == [];
    } else {
      hide *;
      var w, t, r := s.windDown.value, ticks[0], Step(s, ticks[0]);
      RunStep(s, ticks);
      StepAdds(s, t);
      ObserveWinds(t.level, s.currentSet, s.windDown);
      WindsIs(s.windDown, r.windDown);
      PassInside(s, t, r, r.log[|s.log|..], w);
      InsideIs(r.log, |s.log|, w);
      StopIsHonoured(r, ticks[1..]);
      var end := Run(r, ticks[1..]);
      WindsIs(r.windDown, end.windDown);
      WindsIs(s.windDown, end.windDown);
      InsideSame(end.log, |r.log|, r.windDown.value, w);
      InsideJoin(s.log, r.log, end.log, w);
      PrefixTwice(s.log, r.log, end.log);
      if end == r {
        assert end.queue == Loaded(ticks[0]);
      } else {
        var k: nat :| k < |ticks[1..]| && end.queue == Loaded(ticks[1..][k]);
        assert end.queue == Loaded(ticks[k + 1]);
      }
    }
  }

  lemma WindsIs(a: Option<WindDown>, b: Option<WindDown>)
    ensures Winds(a, b) <==> (a.Some? ==> b.Some? && b.value.setId == a.value.setId && b.value.level >= a.value.level)
  {
  }

  lemma InsideIs(log: seq<Event>, from: nat, w: WindDown)
    requires from <= |log| && forall e | e in log[from..] :: Inside(e, w)
    ensures AllInside(log, from, w)
  {
  }

  lemma InsideSame(log: seq<Event>, from: nat, v: WindDown, w: WindDown)
    requires AllInside(log, from, v) && v.setId == w.setId
    ensures AllInside(log, from, w)
  {
  }

  /** A level-1 stop starts nothing more unless the operator raises it to level 2. */
  lemma {:induction false} LevelOneStartsNothing(s: State, ticks: seq<Tick>)
    requires s.windDown.Some? && s.windDown.value.level <= 1
    requires forall t | t in ticks :: t.level != Some(2)
    ensures var r := Run(s, ticks);
            && s.log <= r.log && (forall e | e in r.log[|s.log|..] :: !e.Dispatched?)
    decreases |ticks|
  {
    if ticks == [] || s.phase != Going {
      assert s.log[|s.log|..] == [];
    } else {
      hide *;
      var t, r := ticks[0], Step(s, ticks[0]);
      assert t in ticks;
      RunStep(s, ticks);
      StepAdds(s, t);
      ObserveWinds(t.level, s.currentSet, s.windDown);
      WindsIs(s.windDown, r.windDown);
      PassInside(s, t, r, r.log[|s.log|..], r.windDown.value);
      PassLevel(s, t, r, r.log[|s.log|..]);
      LevelOneStartsNothing(r, ticks[1..]);
      var end := Run(r, ticks[1..]);
      NoDispatchJoin(s.log, r.log, end.log);
    }
  }

  lemma PassLevel(s: State, t: Tick, r: State, added: seq<Event>)
    requires PassEvents(s, t, r, added) && r.windDown.Some? && r.windDown.value.level <= 1
    ensures forall e | e in added :: !e.Dispatched?
  {
    hide Satisfied, Before, IsQueued;
  }

  lemma NoDispatchJoin(a: seq<Event>, b: seq<Event>, c: seq<Event>)
    requires a <= b <= c && (forall e | e in b[|a|..] :: !e.Dispatched?) && (forall e | e in c[|b|..] :: !e.Dispatched?)
    ensures a <= c && forall e | e in c[|a|..] :: !e.Dispatched?
  {
    assert c[|a|..] == b[|a|..] + c[|b|..] by {
      assert c[..|b|] == b;
    }
  }

  /** The deliberate stop is recorded at most once, and always when the run ends at a boundary or drained. */
  lemma {:induction false} StopRecordedOnce(s: State, ticks: seq<Tick>)
    requires Records(s.log) == (if s.stopRecorded then 1 else 0)
    requires s.windDown.Some? && (s.phase == AtBoundary || s.phase == Drained) ==> s.stopRecorded
    ensures var r := Run(s, ticks);
            && Records(r.log) == (if r.stopRecorded then 1 else 0)
            && (r.windDown.Some? && (r.phase == AtBoundary || r.phase == Drained) ==> r.stopRecorded)
    decreases |ticks|
  {
    hide *;
    if ticks == [] || s.phase != Going {
      RunStops(s, ticks);
    } else {
      var t, r := ticks[0], Step(s, ticks[0]);
      RunStep(s, ticks);
      StepAdds(s, t);
      var added := r.log[|s.log|..];
      RecordsAppend(s.log, added);
      assert s.log + added == r.log;
      PassRecords(s, t, r, added);
      StopRecordedOnce(r, ticks[1..]);
    }
  }

  lemma PassRecords(s: State, t: Tick, r: State, added: seq<Event>)
    requires PassEvents(s, t, r, added)
    ensures Records(added) == (if r.stopRecorded && !s.stopRecorded then 1 else 0) && (s.stopRecorded ==> r.stopRecorded)
  {
    hide Justified, Records;
  }

  // ----- resuming -----

  /** The two requeue routes leave an indeterminate item's status alone, and queue exactly the rest. */
  lemma RequeuedExactly(queue: seq<Item>, retryIncomplete: bool, i: nat)
    requires i < |queue|
    ensures |Prepared(queue, retryIncomplete)| == |queue|
    ensures var was, now := queue[i], Prepared(queue, retryIncomplete)[i];
            && now.id6 == was.id6 && now.indeterminate == was.indeterminate
            && (was.indeterminate ==> now.status == was.status && now.recoveryNext == was.recoveryNext)
            && (IsQueued(now) <==>
                  IsQueued(was) || (!was.indeterminate && (was.status == INTERRUPTED || (retryIncomplete && was.action != "skip" && Retryable(was.status)))))
            && (!IsQueued(now) ==> now.status == was.status)
    ensures var was, now := queue[i], Prepared(queue, retryIncomplete)[i];
            now == if was.status == "interrupted" && was.indeterminate then was.(requiresReconciliation := true)
                   else if was.status == "interrupted" then was.(status := "queued", recoveryNext := true)
                   else if retryIncomplete && !was.indeterminate && was.action != "skip" && Retryable(was.status)
                   then was.(requeueFrom := Some(was.status), status := "queued", recoveryNext := true)
                   else was
  {
    hide Retryable;
    QueuedIsNotRetryable();
  }

  lemma QueuedIsNotRetryable()
    ensures !Retryable(QUEUED) && Retryable(INTERRUPTED)
  {
  }

  /** So a resume is refused exactly when an item of unknown outcome is in the queue, and then nothing starts. */
  lemma RefusedExactly(queue: seq<Item>, retryIncomplete: bool)
    ensures AnyIndeterminate(Prepared(queue, retryIncomplete)) <==> AnyIndeterminate(queue)
    ensures Started(Prepared(queue, retryIncomplete)).log == []
  {
    hide Retryable, IsQueued;
    var after := Prepared(queue, retryIncomplete);
    if AnyIndeterminate(queue) {
      var x :| x in queue && x.indeterminate;
      var i :| 0 <= i < |queue| && queue[i] == x;
      RequeuedExactly(queue, retryIncomplete, i);
      assert after[i] in after;
    }
    if AnyIndeterminate(after) {
      var x :| x in after && x.indeterminate;
      var i :| 0 <= i < |after| && after[i] == x;
      assert |after| == |queue|;
      RequeuedExactly(queue, retryIncomplete, i);
      assert queue[i] in queue;
    }
  }

  // ----- dependency order -----

  ghost predicate WasDispatched(log: seq<Event>, id6: string) {
    exists e | e in log :: e.Dispatched? && e.item.id6 == id6
  }

  /** Between two passes only a plan the run has started can come to satisfy an edge it did not satisfy. */
  ghost predicate Framed(log: seq<Event>, before: World, after: World) {
    forall id6, executes | Ready(after, id6, executes) && !Ready(before, id6, executes) :: WasDispatched(log, id6)
  }

  ghost predicate RunFramed(s: State, before: World, ticks: seq<Tick>)
    decreases |ticks|
  {
    ticks == [] || s.phase != Going
    || (Framed(s.log, before, ticks[0].world) && RunFramed(Step(s, ticks[0]), ticks[0].world, ticks[1..]))
  }

  /** What is satisfied now was satisfied at the start or belongs to a plan the run has started. */
  ghost predicate Accounted(log: seq<Event>, start: World, now: World) {
    forall id6, executes | Ready(now, id6, executes) && !Ready(start, id6, executes) :: WasDispatched(log, id6)
  }

  /** Every plan starts after each plan it has an `executed:` edge to, unless that edge was met at the start. */
  ghost predicate FollowsEdges(log: seq<Event>, start: World) {
    forall k: nat, p | k < |log| && log[k].Dispatched? && Executed(p) in log[k].item.dependencies ::
      Ready(start, p, Executes(log[k].item)) || WasDispatched(log[..k], p)
  }

  lemma DispatchedStays(a: seq<Event>, b: seq<Event>, id6: string)
    requires a <= b && WasDispatched(a, id6)
    ensures WasDispatched(b, id6)
  {
    var e :| e in a && e.Dispatched? && e.item.id6 == id6;
    assert e in b;
  }

  lemma AccountedNext(log: seq<Event>, later: seq<Event>, start: World, now: World, next: World)
    requires log <= later && Accounted(log, start, now) && Framed(later, now, next)
    ensures Accounted(later, start, next)
  {
    hide Ready, WasDispatched;
    forall id6, executes | Ready(next, id6, executes) && !Ready(start, id6, executes)
      ensures WasDispatched(later, id6)
    {
      if Ready(now, id6, executes) {
        DispatchedStays(log, later, id6);
      }
    }
  }

  lemma SatisfiedIsReady(item: Item, t: Tick, p: string)
    requires Satisfied(item, t) && Executed(p) in item.dependencies
    ensures Ready(t.world, p, Executes(item))
  {
    hide Ready;
    assert DependencyMet(Executed(p), Executes(item), t.world);
  }

  lemma FollowsJoin(a: seq<Event>, b: seq<Event>, t: Tick, start: World)
    requires a <= b && FollowsEdges(a, start) && Accounted(a, start, t.world)
    requires forall e | e in b[|a|..] && e.Dispatched? :: Satisfied(e.item, t)
    ensures FollowsEdges(b, start)
  {
    hide Satisfied, Ready, WasDispatched;
    forall k: nat, p | k < |b| && b[k].Dispatched? && Executed(p) in b[k].item.dependencies
      ensures Ready(start, p, Executes(b[k].item)) || WasDispatched(b[..k], p)
    {
      if k < |a| {
        assert b[..k] == a[..k] && b[k] == a[k];
      } else {
        assert b[|a|..][k - |a|] == b[k] && b[k] in b[|a|..];
        SatisfiedIsReady(b[k].item, t, p);
        if WasDispatched(a, p) {
          assert a <= b[..k];
          DispatchedStays(a, b[..k], p);
        }
      }
    }
  }

  lemma PassSatisfied(s: State, t: Tick, r: State, added: seq<Event>)
    requires PassEvents(s, t, r, added)
    ensures forall e | e in added && e.Dispatched? :: Satisfied(e.item, t)
  {
    hide Satisfied, Before, IsQueued, Permits, Loaded, Cascaded, AnyDeferred, DeadEdge;
  }

  lemma {:induction false} FollowsFrom(s: State, start: World, before: World, ticks: seq<Tick>)
    requires FollowsEdges(s.log, start) && Accounted(s.log, start, before) && RunFramed(s, before, ticks)
    ensures FollowsEdges(Run(s, ticks).log, start)
    decreases |ticks|
  {
    if ticks == [] || s.phase != Going {
    } else {
      hide FollowsEdges, Framed, Accounted, PassEvents, Satisfied, Step;
      var t, r := ticks[0], Step(s, ticks[0]);
      RunStep(s, ticks);
      StepAdds(s, t);
      PassSatisfied(s, t, r, r.log[|s.log|..]);
      AccountedNext(s.log, s.log, start, before, t.world);
      FollowsJoin(s.log, r.log, t, start);
      AccountedNext(s.log, r.log, start, t.world, t.world) by {
        FramedSame(r.log, t.world);
      }
      FollowsFrom(r, start, t.world, ticks[1..]);
    }
  }

  lemma FramedSame(log: seq<Event>, world: World)
    ensures Framed(log, world, world)
  {
  }

  /** In every run from a queue in which, pass by pass, only plans the run has started come to satisfy edges, each
      dispatch follows the dispatch of every plan it has an `executed:` edge to that was not met at the start. */
  lemma DispatchFollowsEdges(queue: seq<Item>, start: World, ticks: seq<Tick>)
    requires RunFramed(Started(queue), start, ticks)
    ensures FollowsEdges(Run(Started(queue), ticks).log, start)
  {
    hide Run, RunFramed;
    FollowsFrom(Started(queue), start, start, ticks);
  }
}
