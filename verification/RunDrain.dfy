/** The end of a run with work left that nothing can start: when it comes, which items are labelled and which are
    left queued. */
module RunDrain {
  import opened Wrappers
  import opened Dispatch
  import opened RunHistory
  import opened RunSafety

  /** `at` lists the places of the queued items, in queue order. */
  ghost predicate QueuedPlaces(queue: seq<Item>, at: seq<nat>) {
    && (forall j, k | 0 <= j < k < |at| :: at[j] < at[k])
    && (forall n | n in at :: n < |queue|)
    && (forall n: nat | n < |queue| :: n in at <==> queue[n].status == "queued")
  }

  /** One event for each queued item, in queue order: it is left queued when its prerequisites may still be met,
      and labelled when they cannot. */
  ghost predicate Announced(queue: seq<Item>, at: seq<nat>, transient: set<string>, added: seq<Event>) {
    && |added| == |at|
    && forall j | 0 <= j < |at| && at[j] < |queue| ::
         added[j] == if queue[at[j]].id6 in transient then LeftQueued(queue[at[j]].id6) else Labelled(queue[at[j]].id6, None)
  }

  ghost predicate NoneQueued(queue: seq<Item>) {
    forall x | x in queue :: x.status != "queued"
  }

  /** No merge was waiting to be retried: exactly the queued items that wait on nothing transient are blocked. */
  ghost predicate BlockedExactly(queue: seq<Item>, transient: set<string>, end: seq<Item>) {
    && |end| == |queue|
    && forall i | 0 <= i < |queue| ::
         end[i] == if queue[i].status == "queued" && queue[i].id6 !in transient then queue[i].(status := "fail-depend") else queue[i]
  }

  /** Merges were waiting: the queue kept is the polled one, where exactly those still waiting have failed. */
  ghost predicate MergesFailed(polled: seq<Item>, end: seq<Item>) {
    && |end| == |polled| && NoneQueued(end)
    && forall i | 0 <= i < |polled| ::
         end[i] == if polled[i].status == "merge-retry" then polled[i].(status := "fail-merge") else polled[i]
  }

  /** What a pass that ends the run this way does to the queue and the log. */
  ghost predicate StuckEnd(p: State, t: Tick, at: seq<nat>, end: State) {
    && QueuedPlaces(Loaded(t), at)
    && |p.log| <= |end.log| && end.log[..|p.log|] == p.log
    && Announced(Loaded(t), at, t.transient, end.log[|p.log|..])
    && (if exists x | x in Loaded(t) :: x.status == "merge-retry" then MergesFailed(t.polled, end.queue)
        else BlockedExactly(Loaded(t), t.transient, end.queue))
  }

  // ----- the places of the queued items -----

  function Places(queue: seq<Item>): seq<nat> {
    if queue == [] then []
    else Places(queue[..|queue| - 1]) + (if IsQueued(queue[|queue| - 1]) then [|queue| - 1] else [])
  }

  lemma {:induction false} PlacesAre(queue: seq<Item>)
    ensures QueuedPlaces(queue, Places(queue))
  {
    hide QueuedPlaces, IsQueued;
    if queue == [] {
      NoPlaces();
    } else {
      var n := |queue| - 1;
      PlacesAre(queue[..n]);
      MorePlaces(queue[..n], Places(queue[..n]), queue[n]);
      assert queue == queue[..n] + [queue[n]];
      assert Places(queue[..n]) + [] == Places(queue[..n]);
    }
  }

  lemma NoPlaces()
    ensures QueuedPlaces([], [])
  {
  }

  lemma MorePlaces(queue: seq<Item>, at: seq<nat>, x: Item)
    requires QueuedPlaces(queue, at)
    ensures QueuedPlaces(queue + [x], if IsQueued(x) then at + [|queue|] else at)
  {
    var all, more := queue + [x], if IsQueued(x) then at + [|queue|] else at;
    forall j | 0 <= j < |at|
      ensures at[j] < |queue|
    {
      assert at[j] in at;
    }
    forall n: nat | n < |all|
      ensures n in more <==> all[n].status == "queued"
    {
      if n == |queue| {
        assert all[n] == x;
      } else {
        assert all[n] == queue[n];
      }
    }
  }

  lemma {:induction false} LabelJoin(a: seq<Item>, b: seq<Item>, t: Tick, w: Option<WindDown>)
    ensures Label(a + b, t, w) == Label(a, t, w) + Label(b, t, w)
  {
    if a == [] {
      assert a + b == b;
    } else {
      assert (a + b)[0] == a[0] && (a + b)[1..] == a[1..] + b;
      LabelJoin(a[1..], b, t, w);
      var h := if a[0].id6 in t.transient then LeftQueued(a[0].id6) else Labelled(a[0].id6, w);
      assert [h] + (Label(a[1..], t, w) + Label(b, t, w)) == [h] + Label(a[1..], t, w) + Label(b, t, w);
    }
  }

  lemma {:induction false} QueuedOfJoin(a: seq<Item>, b: seq<Item>)
    ensures Queued(a + b) == Queued(a) + Queued(b)
  {
    if a == [] {
      assert a + b == b;
    } else {
      assert (a + b)[0] == a[0] && (a + b)[1..] == a[1..] + b;
      QueuedOfJoin(a[1..], b);
      var h := if IsQueued(a[0]) then [a[0]] else [];
      assert h + (Queued(a[1..]) + Queued(b)) == h + Queued(a[1..]) + Queued(b);
    }
  }

  lemma OneQueued(x: Item)
    ensures Queued([x]) == if IsQueued(x) then [x] else []
  {
    assert [x][1..] == [];
  }

  lemma OneLabel(x: Item, t: Tick, w: Option<WindDown>)
    ensures Label([x], t, w) == [if x.id6 in t.transient then LeftQueued(x.id6) else Labelled(x.id6, w)]
    ensures Label([], t, w) == []
  {
    assert [x][1..] == [];
  }

  lemma {:induction false} LabelsAnnounce(queue: seq<Item>, t: Tick)
    ensures Announced(queue, Places(queue), t.transient, Label(Queued(queue), t, None))
  {
    if queue != [] {
      hide Announced, QueuedPlaces, Label, Queued;
      var n := |queue| - 1;
      var x, rest := queue[n], queue[..n];
      assert queue == rest + [x];
      LabelsAnnounce(rest, t);
      PlacesAre(rest);
      QueuedOfJoin(rest, [x]);
      OneQueued(x);
      LabelJoin(Queued(rest), Queued([x]), t, None);
      OneLabel(x, t, None);
      MoreAnnounced(rest, Places(rest), t.transient, Label(Queued(rest), t, None), x);
    } else {
      NothingAnnounced(t);
    }
  }

  lemma NothingAnnounced(t: Tick)
    ensures Queued([]) == [] && Label([], t, None) == [] && Announced([], [], t.transient, [])
  {
  }

  lemma MoreAnnounced(queue: seq<Item>, at: seq<nat>, transient: set<string>, added: seq<Event>, x: Item)
    requires QueuedPlaces(queue, at) && Announced(queue, at, transient, added)
    ensures var e := if x.id6 in transient then LeftQueued(x.id6) else Labelled(x.id6, None);
            Announced(queue + [x], at + [|queue|], transient, added + [e])
    ensures Announced(queue + [x], at, transient, added)
  {
    forall j | 0 <= j < |at|
      ensures at[j] < |queue|
    {
      assert at[j] in at;
    }
  }

  // ----- one pass -----

  /** Merges were waiting to be retried, and so were polled. */
  ghost predicate MergesPolled(t: Tick) {
    exists x | x in Loaded(t) :: x.status == "merge-retry"
  }

  /** No stop, nothing to start though something is left, no peer, and no question round to hold. */
  ghost predicate NothingCanStart(p: State, t: Tick) {
    && !Restarts(t) && !t.runaway
    && Observe(t.level, p.currentSet, p.windDown).None?
    && (MergesPolled(t) || exists x | x in Loaded(t) :: x.status == "queued")
    && (forall x | x in Loaded(t) && x.status == "queued" :: !MayStart(x, t))
    && (MergesPolled(t) ==> NoneQueued(t.polled))
    && t.peer.NoPeer?
    && (AnyParked(if MergesPolled(t) then t.polled else Loaded(t)) && t.answered ==> p.rounds >= t.questionRounds)
  }

  lemma QueuedEmpty(queue: seq<Item>)
    ensures Queued(queue) == [] <==> NoneQueued(queue)
  {
    if Queued(queue) != [] {
      assert Queued(queue)[0] in Queued(queue);
    }
  }

  lemma ResolvedAre(polled: seq<Item>)
    ensures var r := if AnyDeferred(polled) then ResolveDeferrals(polled) else polled;
            && |r| == |polled|
            && (NoneQueued(r) ==> MergesFailed(polled, r))
            && (NoneQueued(r) <==> NoneQueued(polled)) && (AnyParked(r) <==> AnyParked(polled))
  {
    var r := if AnyDeferred(polled) then ResolveDeferrals(polled) else polled;
    forall i | 0 <= i < |polled|
      ensures r[i] == if polled[i].status == "merge-retry" then polled[i].(status := "fail-merge") else polled[i]
    {
      assert polled[i] in polled;
    }
    if !NoneQueued(polled) {
      var i :| 0 <= i < |polled| && polled[i].status == "queued";
      assert r[i] in r;
    }
    if AnyParked(polled) {
      var i :| 0 <= i < |polled| && polled[i].status == AWAITING_HUMAN;
      assert r[i] in r;
    }
  }

  lemma LabellingBlocks(queue: seq<Item>, t: Tick)
    ensures BlockedExactly(queue, t.transient, Labelling(queue, t))
  {
  }

  /** The state a pass that ends stuck starts its last arm from. */
  function AtTop(p: State, t: Tick): State {
    p.(queue := Loaded(t), windDown := Observe(t.level, p.currentSet, p.windDown))
  }

  lemma ArmIs(p: State, t: Tick)
    requires p.phase == Going
    ensures Step(p, t).phase == Stuck <==>
              && !Restarts(t) && !t.runaway && (Queued(Loaded(t)) != [] || AnyDeferred(Loaded(t)))
              && Runnable(Loaded(t), t).None? && AtTop(p, t).windDown.None? && StuckArm(AtTop(p, t), t).phase == Stuck
    ensures Step(p, t).phase == Stuck ==> Step(p, t) == StuckArm(AtTop(p, t), t)
  {
    hide Queued, Loaded, Runnable, StuckArm, Observe, Ids, Permits, AsksAgain;
  }

  lemma StuckArmIs(s: State, t: Tick)
    requires s.phase == Going && s.windDown.None?
    ensures var polled := AnyDeferred(s.queue);
            var queue := if !polled then s.queue else if AnyDeferred(t.polled) then ResolveDeferrals(t.polled) else t.polled;
            && (StuckArm(s, t).phase == Stuck <==>
                  !(polled && Queued(queue) != []) && t.peer.NoPeer? && !AsksAgain(queue, s.rounds, t))
            && (StuckArm(s, t).phase == Stuck ==>
                  && StuckArm(s, t).queue == (if polled then queue else Labelling(queue, t))
                  && StuckArm(s, t).log == s.log + Label(Queued(s.queue), t, None))
  {
    hide Queued, AnyDeferred, ResolveDeferrals, Labelling, Label, AsksAgain;
  }

  lemma RunnableIs(queue: seq<Item>, t: Tick)
    ensures Runnable(queue, t).None? <==> forall x | x in queue && x.status == "queued" :: !MayStart(x, t)
  {
    hide Runnable, Satisfied, MayStart;
    ChosenIsFirst(queue, t);
    forall x
      ensures Satisfied(x, t) <==> MayStart(x, t)
    {
      SatisfiedExactly(x, t);
    }
    if Runnable(queue, t).Some? {
      ChosenIsReady(queue, t);
    }
  }

  lemma ChosenIsReady(queue: seq<Item>, t: Tick)
    requires Runnable(queue, t).Some?
    ensures exists x :: x in queue && x.status == "queued" && Satisfied(x, t)
  {
    hide Runnable, Satisfied, Before;
    ChosenIsFirst(queue, t);
    var i: nat :| i < |queue| && queue[i] == Runnable(queue, t).value && IsFirstChoice(queue, t, i);
    assert queue[i] in queue;
  }

  lemma DeferredIs(t: Tick)
    ensures AnyDeferred(Loaded(t)) <==> MergesPolled(t)
  {
    hide Loaded;
  }

  /** A pass ends the run stuck exactly when nothing can start, and then it labels exactly the queued items that
      wait on nothing transient. */
  lemma PassEndsStuckExactly(p: State, t: Tick)
    requires p.phase == Going
    ensures Step(p, t).phase == Stuck <==> NothingCanStart(p, t)
    ensures Step(p, t).phase == Stuck ==> exists at :: StuckEnd(p, t, at, Step(p, t))
  {
    hide *;
    var s, top := AtTop(p, t), Loaded(t);
    AtTopIs(p, t);
    ArmIs(p, t);
    RunnableIs(top, t);
    DeferredIs(t);
    QueuedEmpty(top);
    ResolvedAre(t.polled);
    var kept := if AnyDeferred(t.polled) then ResolveDeferrals(t.polled) else t.polled;
    QueuedEmpty(kept);
    AsksIs(if MergesPolled(t) then kept else top, p.rounds, t);
    if s.windDown.None? {
      StuckArmIs(s, t);
    }
    NothingCanStartIs(p, t);
    if Step(p, t).phase == Stuck {
      PlacesAre(top);
      LabelsAnnounce(top, t);
      LabellingBlocks(top, t);
      StuckEndIs(p, t, Places(top), Label(Queued(top), t, None), Step(p, t));
    }
  }

  lemma AtTopIs(p: State, t: Tick)
    ensures AtTop(p, t) == p.(queue := Loaded(t), windDown := Observe(t.level, p.currentSet, p.windDown))
  {
  }

  lemma AsksIs(queue: seq<Item>, rounds: nat, t: Tick)
    ensures AsksAgain(queue, rounds, t) <==> AnyParked(queue) && t.answered && rounds < t.questionRounds
  {
    hide AnyParked;
  }

  lemma NothingCanStartIs(p: State, t: Tick)
    ensures NothingCanStart(p, t) <==>
              && !Restarts(t) && !t.runaway
              && Observe(t.level, p.currentSet, p.windDown).None?
              && (MergesPolled(t) || !NoneQueued(Loaded(t)))
              && (forall x | x in Loaded(t) && x.status == "queued" :: !MayStart(x, t))
              && (MergesPolled(t) ==> NoneQueued(t.polled))
              && t.peer.NoPeer?
              && (AnyParked(if MergesPolled(t) then t.polled else Loaded(t)) && t.answered ==> p.rounds >= t.questionRounds)
  {
    hide Restarts, Observe, MergesPolled, MayStart, AnyParked, Loaded;
  }

  lemma StuckEndIs(p: State, t: Tick, at: seq<nat>, added: seq<Event>, end: State)
    requires QueuedPlaces(Loaded(t), at) && end.log == p.log + added && Announced(Loaded(t), at, t.transient, added)
    requires MergesPolled(t) ==> MergesFailed(t.polled, end.queue)
    requires !MergesPolled(t) ==> BlockedExactly(Loaded(t), t.transient, end.queue)
    ensures StuckEnd(p, t, at, end)
  {
    hide QueuedPlaces, Announced, MergesFailed, BlockedExactly, Loaded;
    assert end.log[..|p.log|] == p.log && end.log[|p.log|..] == added;
  }

  // ----- the whole run -----

  /** A run that ends stuck ends in a pass where nothing could start. Each item queued at the top of that pass is
      left queued, with an event saying so, when it waits on something transient, and otherwise is labelled; where
      no merge was waiting it ends blocked, and no other item changes. */
  lemma {:induction false} StuckRunLabelsExactly(s: State, ticks: seq<Tick>) returns (k: nat, at: seq<nat>)
    requires s.phase == Going && Run(s, ticks).phase == Stuck
    ensures k < |ticks| && Run(s, ticks[..k]).phase == Going
    ensures NothingCanStart(Run(s, ticks[..k]), ticks[k])
    ensures StuckEnd(Run(s, ticks[..k]), ticks[k], at, Run(s, ticks))
    decreases |ticks|
  {
    hide Step, NothingCanStart, StuckEnd;
    assert ticks != [];
    var r := Step(s, ticks[0]);
    RunStep(s, ticks);
    if r.phase == Going {
      k, at := StuckRunLabelsExactly(r, ticks[1..]);
      assert ticks[..k + 1][0] == ticks[0] && ticks[..k + 1][1..] == ticks[1..][..k];
      RunStep(s, ticks[..k + 1]);
      k := k + 1;
    } else {
      RunStops(r, ticks[1..]);
      PassEndsStuckExactly(s, ticks[0]);
      at :| StuckEnd(s, ticks[0], at, r);
      k := 0;
      assert ticks[..0] == [];
    }
  }
}
