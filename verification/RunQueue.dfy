/** `agy_runipd.run_queue`: the driver's loop over the queue, as it updates it in place. */
module RunQueue {
  import opened Wrappers
  import opened Dispatch
  import opened Cascade

  class Runner {
    var queue: seq<Item>
    var windDown: Option<WindDown>
    var currentSet: Option<string>
    var stopRecorded: bool
    var rounds: nat
    var phase: Phase
    var log: seq<Event>

    ghost function Snapshot(): State
      reads this
    {
      State(queue, windDown, currentSet, stopRecorded, rounds, phase, log)
    }

    /** The queue as loaded, after items left running were reconciled. */
    constructor (loaded: seq<Item>)
      ensures Snapshot() == Started(loaded)
    {
      queue, windDown, currentSet, stopRecorded, rounds, phase, log := loaded, None, None, false, 0, Going, [];
    }

    method RequeueInterrupted()
      modifies this`queue
      ensures queue == RequeueAll(old(queue))
    {
      for n := 0 to |queue|
        invariant |queue| == |old(queue)|
        invariant forall i | 0 <= i < n :: queue[i] == Requeue(old(queue)[i])
        invariant forall i | n <= i < |queue| :: queue[i] == old(queue)[i]
      {
        var item := queue[n];
        if item.status == INTERRUPTED {
          if item.indeterminate {
            queue := queue[n := item.(requiresReconciliation := true)];
          } else {
            queue := queue[n := item.(status := QUEUED, recoveryNext := true)];
          }
        }
      }
    }

    method RetryIncomplete()
      modifies this`queue
      ensures queue == RetryAll(old(queue))
    {
      for n := 0 to |queue|
        invariant |queue| == |old(queue)|
        invariant forall i | 0 <= i < n :: queue[i] == Retry(old(queue)[i])
        invariant forall i | n <= i < |queue| :: queue[i] == old(queue)[i]
      {
        hide Retryable;
        var item := queue[n];
        if !item.indeterminate && item.action != "skip" && Retryable(item.status) {
          queue := queue[n := item.(requeueFrom := Some(item.status), status := QUEUED, recoveryNext := true)];
        }
      }
    }

    /** The whole call: the exit code of a refused resume is 1, and the passes are those the ticks describe. */
    method Drive(retryIncomplete: bool, ticks: seq<Tick>) returns (refused: bool)
      requires Snapshot() == Started(queue)
      modifies this
      ensures refused == AnyIndeterminate(Prepared(old(queue), retryIncomplete))
      ensures refused ==> Snapshot() == Started(Prepared(old(queue), retryIncomplete))
      ensures !refused ==> Snapshot() == Run(Started(Prepared(old(queue), retryIncomplete)), ticks)
    {
      hide Retryable, Step, Permits;
      RequeueInterrupted();
      if retryIncomplete {
        RetryIncomplete();
      }
      refused := exists x | x in queue :: x.indeterminate;
      if refused {
        return;
      }
      ghost var start := Snapshot();
      var n := 0;
      assert ticks[0..] == ticks;
      while n < |ticks| && phase == Going
        invariant n <= |ticks|
        invariant Run(start, ticks) == Run(Snapshot(), ticks[n..])
      {
        assert ticks[n..][0] == ticks[n] && ticks[n..][1..] == ticks[n + 1..];
        Pass(ticks[n]);
        n := n + 1;
      }
    }

    /** One pass of the loop. */
    method Pass(t: Tick)
      requires phase == Going
      modifies this
      ensures Snapshot() == Step(old(Snapshot()), t)
    {
      hide Observe, Loaded, FirstSatisfied, Sorted, Queued, AnyDeferred, RecordStop, EmptyArm, StuckArm, DispatchArm, Permits;
      windDown := Observe(t.level, currentSet, windDown);
      queue := t.found;
      if Restarts(t) {
        phase := Restarting;
        LoadedAtOnce(t);
        return;
      }
      if t.runaway {
        phase := RanAway;
        LoadedAtOnce(t);
        return;
      }
      Load(t);
      var queued := Queued(queue);
      if queued == [] && !AnyDeferred(queue) {
        PassEmpty(t);
        return;
      }
      var runnable := Choose(queued, t);
      if windDown.Some? && runnable.Some? && !Permits(windDown.value, runnable.value.setId) {
        Record();
        phase := AtBoundary;
        return;
      }
      if runnable.None? {
        if windDown.Some? {
          Record();
          phase := AtBoundary;
        } else {
          PassStuck(t, queued);
        }
        return;
      }
      PassDispatch(t, runnable.value);
    }

    lemma LoadedAtOnce(t: Tick)
      requires Restarts(t) || t.runaway
      ensures Loaded(t) == t.found
    {
    }

    /** The queue the pass works on: answers consumed, failed prerequisites cascaded, deferred merges tried again. */
    method Load(t: Tick)
      requires !Restarts(t) && !t.runaway
      modifies this`queue
      ensures queue == Loaded(t)
    {
      hide AnyDeferred, Cascaded;
      queue := t.reloaded;
      CascadeBlocked();
      if AnyDeferred(queue) {
        queue := t.retried;
      }
    }

    /** Pass after pass over the queue, blocking doomed items where they stand, until a pass blocks none. */
    method CascadeBlocked()
      modifies this`queue
      ensures queue == Cascaded(old(queue))
    {
      ghost var start, end := queue, Cascaded(queue);
      CascadeCloses(start);
      var progressed := true;
      while progressed
        invariant Onward(start, queue) && Onward(queue, end)
        invariant !progressed ==> Closed(queue)
        decreases |Queued(queue)|, progressed
      {
        hide *;
        progressed := BlockOnce(start, end);
      }
      CascadeReached(start, queue);
    }

    /** One pass: whether an item was blocked. */
    method BlockOnce(ghost start: seq<Item>, ghost end: seq<Item>) returns (progressed: bool)
      requires Onward(start, queue) && Onward(queue, end) && Closed(end)
      modifies this`queue
      ensures Onward(start, queue) && Onward(queue, end)
      ensures if progressed then |Queued(queue)| < |Queued(old(queue))| else queue == old(queue) && Closed(queue)
    {
      hide *;
      progressed := false;
      for n := 0 to |queue|
        invariant |queue| == |old(queue)| && Onward(start, queue) && Onward(queue, end)
        invariant progressed ==> |Queued(queue)| < |Queued(old(queue))|
        invariant !progressed ==> queue == old(queue) && forall i | 0 <= i < n :: !Doomed(queue, queue[i])
      {
        if Doomed(queue, queue[n]) {
          BlockingStep(start, queue, end, n);
          queue := queue[n := Blocked(queue[n])];
          progressed := true;
        }
      }
      if !progressed {
        NoneDoomed(queue);
      }
    }

    method Record()
      modifies this`stopRecorded, this`log
      ensures Snapshot() == RecordStop(old(Snapshot()))
    {
      if windDown.Some? && !stopRecorded {
        log := log + [StopRecorded(windDown.value, Ids(Queued(queue)))];
        stopRecorded := true;
      }
    }

    method PassEmpty(t: Tick)
      modifies this
      ensures Snapshot() == EmptyArm(old(Snapshot()), t)
    {
      hide RecordStop, AsksAgain;
      Record();
      if AsksAgain(queue, rounds, t) {
        rounds := rounds + 1;
      } else {
        phase := Drained;
      }
    }

    /** The first satisfied item in dispatch order. */
    method Choose(queued: seq<Item>, t: Tick) returns (runnable: Option<Item>)
      ensures runnable == FirstSatisfied(Sorted(queued), t)
    {
      hide Satisfied, Sorted;
      var order := Sorted(queued);
      runnable := None;
      var n := 0;
      assert order[0..] == order;
      while n < |order| && runnable.None?
        invariant n <= |order|
        invariant FirstSatisfied(order, t) == if runnable.Some? then runnable else FirstSatisfied(order[n..], t)
      {
        assert order[n..][0] == order[n] && order[n..][1..] == order[n + 1..];
        if Satisfied(order[n], t) {
          runnable := Some(order[n]);
        }
        n := n + 1;
      }
    }

    method PassStuck(t: Tick, queued: seq<Item>)
      requires queued == Queued(queue) && windDown.None?
      modifies this
      ensures Snapshot() == StuckArm(old(Snapshot()), t)
    {
      hide AnyDeferred, AsksAgain, ResolveDeferrals, Labelling, Label, Queued;
      var polled := AnyDeferred(queue);
      if polled {
        queue := t.polled;
        if AnyDeferred(queue) {
          queue := ResolveDeferrals(queue);
        }
        if Queued(queue) != [] {
          return;
        }
      }
      if t.peer.Released? {
        return;
      }
      if t.peer.Stopped? {
        if t.levelAfterPeer != Some(1) && t.levelAfterPeer != Some(2) {
          phase := AtCheckpoint;
        }
        return;
      }
      if AsksAgain(queue, rounds, t) {
        rounds := rounds + 1;
        return;
      }
      LabelQueued(t, queued);
      if !polled {
        queue := Labelling(queue, t);
      }
      phase := Stuck;
    }

    /** The events of the drain arm, item by item. */
    method LabelQueued(t: Tick, queued: seq<Item>)
      modifies this`log
      ensures log == old(log) + Label(queued, t, windDown)
    {
      assert queued[0..] == queued;
      for n := 0 to |queued|
        invariant old(log) + Label(queued, t, windDown) == log + Label(queued[n..], t, windDown)
      {
        assert queued[n..][0] == queued[n] && queued[n..][1..] == queued[n + 1..];
        var item := queued[n];
        var event := if item.id6 in t.transient then LeftQueued(item.id6) else Labelled(item.id6, windDown);
        assert log + ([event] + Label(queued[n + 1..], t, windDown)) == log + [event] + Label(queued[n + 1..], t, windDown);
        log := log + [event];
      }
      assert queued[|queued|..] == [];
    }

    method PassDispatch(t: Tick, item: Item)
      modifies this
      ensures Snapshot() == DispatchArm(old(Snapshot()), t, item)
    {
      if item.action == "orchestrate" {
        log := log + [Dispatched(item, windDown, t)];
        return;
      }
      if t.landed || t.refused || t.held {
        return;
      }
      currentSet := item.setId;
      log := log + [Dispatched(item, windDown, t)];
      match t.turn {
        case StopNow => phase := AtCheckpoint;
        case StopAtCheckpoint => phase := AtCheckpoint;
        case Interrupt => phase := Raised;
        case _ =>
      }
    }
  }
}
