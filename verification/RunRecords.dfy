/** When the deliberate stop is recorded, when it is not, and what can still start after it. */
module RunRecords {
  import opened Wrappers
  import opened Dispatch
  import opened Cascade
  import opened RunHistory
  import opened RunSafety

  // ----- what kind of pass it is, read from the state before it -----

  /** The state before pass `k`. */
  function At(s: State, ticks: seq<Tick>, k: nat): State
    requires k <= |ticks|
  {
    Run(s, ticks[..k])
  }

  /** The stop in force during a pass. */
  function Stop(p: State, t: Tick): Option<WindDown> {
    Observe(t.level, p.currentSet, p.windDown)
  }

  predicate Active(p: State, t: Tick) {
    p.phase == Going && !Restarts(t) && !t.runaway
  }

  predicate Idle(t: Tick) {
    Queued(Loaded(t)) == [] && !AnyDeferred(Loaded(t))
  }

  /** The pass chooses an item the stop permits, and none of the refusals holds it back. */
  predicate Starts(p: State, t: Tick) {
    && Active(p, t) && !Idle(t)
    && var chosen := Runnable(Loaded(t), t);
       && chosen.Some?
       && (Stop(p, t).Some? ==> Permits(Stop(p, t).value, chosen.value.setId))
       && (chosen.value.action == "orchestrate" || !(t.landed || t.refused || t.held))
  }

  /** A stop is in force, not recorded yet, and the pass has nothing left it may start. */
  predicate RecordsStop(p: State, t: Tick) {
    && Active(p, t) && Stop(p, t).Some? && !p.stopRecorded
    && (Idle(t) || Runnable(Loaded(t), t).None? || !Permits(Stop(p, t).value, Runnable(Loaded(t), t).value.setId))
  }

  /** The recording pass found the queue drained and was granted another round of questions. */
  predicate RecordsAndGoesOn(p: State, t: Tick) {
    RecordsStop(p, t) && Idle(t) && AsksAgain(Loaded(t), p.rounds, t)
  }

  // ----- the log -----

  ghost predicate HasRecord(log: seq<Event>) {
    exists e | e in log :: e.StopRecorded?
  }

  ghost predicate HasStart(log: seq<Event>) {
    exists e | e in log :: e.Dispatched?
  }

  /** Something started after the stop was recorded. */
  ghost predicate StartsAfterRecord(log: seq<Event>) {
    exists k: nat | k < |log| :: log[k].Dispatched? && HasRecord(log[..k])
  }

  lemma {:induction false} LabelsOnly(items: seq<Item>, t: Tick, w: Option<WindDown>)
    ensures !HasRecord(Label(items, t, w)) && !HasStart(Label(items, t, w))
  {
    if items != [] {
      LabelsOnly(items[1..], t, w);
    }
  }

  /** What one pass adds, by the kind of pass. */
  lemma PassKind(p: State, t: Tick)
    requires p.phase == Going
    ensures var r := Step(p, t);
            && p.log <= r.log && r.windDown == Stop(p, t)
            && var added := r.log[|p.log|..];
            && (HasRecord(added) <==> RecordsStop(p, t)) && (HasStart(added) <==> Starts(p, t))
            && !(HasRecord(added) && HasStart(added))
            && (r.stopRecorded <==> p.stopRecorded || RecordsStop(p, t))
            && (RecordsStop(p, t) ==> if RecordsAndGoesOn(p, t) then r.phase == Going else r.phase == AtBoundary || r.phase == Drained)
            && (r.phase == AtBoundary || r.phase == Drained ==> r.windDown.Some? ==> r.stopRecorded)
            && (r.phase == Stuck ==> r.windDown.None?)
            && (r.phase == Restarting ==> t.level.None?)
  {
    hide Observe, Loaded, Runnable, Queued, AnyDeferred, AsksAgain, ResolveDeferrals, Label, Labelling, Permits, HasRecord, HasStart;
    var r, s := Step(p, t), p.(queue := Loaded(t), windDown := Stop(p, t));
    NothingIn([]);
    assert p.log[|p.log|..] == [];
    if !Active(p, t) {
    } else if Idle(t) {
      RecordAdds(s);
    } else if Runnable(s.queue, t).Some? {
      RecordAdds(s);
      if s.windDown.None? || Permits(s.windDown.value, Runnable(s.queue, t).value.setId) {
        StartAdds(s, t, Runnable(s.queue, t).value);
      }
    } else if s.windDown.Some? {
      RecordAdds(s);
    } else {
      StuckAddsLabels(s, t);
    }
  }

  lemma NothingIn(log: seq<Event>)
    requires log == []
    ensures !HasRecord(log) && !HasStart(log)
  {
  }

  lemma RecordAdds(s: State)
    ensures var r := RecordStop(s);
            && s.log <= r.log && r == s.(log := r.log, stopRecorded := r.stopRecorded)
            && (HasRecord(r.log[|s.log|..]) <==> s.windDown.Some? && !s.stopRecorded) && !HasStart(r.log[|s.log|..])
            && (r.stopRecorded <==> s.stopRecorded || s.windDown.Some?)
  {
    if s.windDown.Some? && !s.stopRecorded {
      var e := StopRecorded(s.windDown.value, Ids(Queued(s.queue)));
      assert RecordStop(s).log[|s.log|..] == [e];
      assert e in [e];
    }
  }

  lemma StartAdds(s: State, t: Tick, item: Item)
    requires s.phase == Going
    ensures var r := DispatchArm(s, t, item);
            && s.log <= r.log && r.windDown == s.windDown && r.stopRecorded == s.stopRecorded
            && r.phase in {Going, AtCheckpoint, Raised} && !HasRecord(r.log[|s.log|..])
            && (HasStart(r.log[|s.log|..]) <==> item.action == "orchestrate" || !(t.landed || t.refused || t.held))
  {
    var r := DispatchArm(s, t, item);
    var e := Dispatched(item, s.windDown, t);
    if r.log != s.log {
      assert r.log[|s.log|..] == [e];
      assert e in [e];
    }
  }

  lemma StuckAddsLabels(s: State, t: Tick)
    requires s.phase == Going && s.windDown.None?
    ensures var r := StuckArm(s, t);
            && s.log <= r.log && r.windDown.None? && r.stopRecorded == s.stopRecorded
            && r.phase in {Going, AtCheckpoint, Stuck}
            && !HasRecord(r.log[|s.log|..]) && !HasStart(r.log[|s.log|..])
  {
    hide Queued, AnyDeferred, AsksAgain, ResolveDeferrals, Label, Labelling, HasRecord, HasStart;
    var r := StuckArm(s, t);
    NothingIn([]);
    LabelsOnly(Queued(s.queue), t, s.windDown);
    if r.log == s.log {
      assert r.log[|s.log|..] == [];
    } else {
      assert r.log[|s.log|..] == Label(Queued(s.queue), t, s.windDown);
    }
  }

  // ----- joining logs -----

  lemma SeenIn(a: seq<Event>, b: seq<Event>)
    ensures HasRecord(a + b) <==> HasRecord(a) || HasRecord(b)
    ensures HasStart(a + b) <==> HasStart(a) || HasStart(b)
  {
    assert forall e :: e in a + b <==> e in a || e in b;
  }

  lemma AfterInJoin(a: seq<Event>, b: seq<Event>)
    ensures StartsAfterRecord(a + b) <==> StartsAfterRecord(a) || StartsAfterRecord(b) || (HasRecord(a) && HasStart(b))
  {
    hide HasRecord;
    var c := a + b;
    if k: nat :| k < |c| && c[k].Dispatched? && HasRecord(c[..k]) {
      if k < |a| {
        assert c[..k] == a[..k];
      } else {
        assert c[..k] == a + b[..k - |a|];
        SeenIn(a, b[..k - |a|]);
      }
    }
    if k: nat :| k < |a| && a[k].Dispatched? && HasRecord(a[..k]) {
      assert c[..k] == a[..k] && c[k] == a[k];
    }
    if k: nat :| k < |b| && b[k].Dispatched? && HasRecord(b[..k]) {
      assert c[..|a| + k] == a + b[..k] && c[|a| + k] == b[k];
      SeenIn(a, b[..k]);
    }
    if HasRecord(a) && HasStart(b) {
      var e :| e in b && e.Dispatched?;
      var k :| 0 <= k < |b| && b[k] == e;
      assert c[..|a| + k] == a + b[..k] && c[|a| + k] == b[k];
      SeenIn(a, b[..k]);
    }
  }

  lemma SeenBefore(log: seq<Event>, k: nat)
    requires k < |log|
    ensures HasRecord(log[..k]) ==> HasRecord(log)
    ensures log[k].Dispatched? ==> HasStart(log)
  {
    assert log == log[..k] + log[k..];
    assert log[k] in log;
  }

  /** A dispatch after a record takes both. */
  lemma AfterNeedsBoth(log: seq<Event>)
    ensures StartsAfterRecord(log) ==> HasRecord(log) && HasStart(log)
  {
    hide HasRecord, HasStart;
    forall k: nat | k < |log|
      ensures log[k].Dispatched? && HasRecord(log[..k]) ==> HasRecord(log) && HasStart(log)
    {
      SeenBefore(log, k);
    }
  }

  // ----- passes of a run -----

  lemma AtStart(s: State, ticks: seq<Tick>)
    ensures At(s, ticks, 0) == s
  {
  }

  lemma AtNext(s: State, ticks: seq<Tick>, k: nat)
    requires s.phase == Going && k < |ticks|
    ensures At(s, ticks, k + 1) == At(Step(s, ticks[0]), ticks[1..], k)
  {
    hide Step;
    assert ticks[..k + 1][0] == ticks[0] && ticks[..k + 1][1..] == ticks[1..][..k];
  }

  lemma AtEnd(s: State, ticks: seq<Tick>, k: nat)
    requires s.phase != Going && k <= |ticks|
    ensures At(s, ticks, k) == s
  {
  }

  ghost predicate SomeStart(s: State, ticks: seq<Tick>) {
    exists n: nat | n < |ticks| :: Starts(At(s, ticks, n), ticks[n])
  }

  ghost predicate SomeGoingOn(s: State, ticks: seq<Tick>) {
    exists m: nat | m < |ticks| :: RecordsAndGoesOn(At(s, ticks, m), ticks[m])
  }

  ghost predicate StartAfterGoingOn(s: State, ticks: seq<Tick>) {
    exists m: nat, n: nat | m < n < |ticks| :: RecordsAndGoesOn(At(s, ticks, m), ticks[m]) && Starts(At(s, ticks, n), ticks[n])
  }

  lemma AtRest(s: State, ticks: seq<Tick>)
    requires ticks != [] && s.phase == Going
    ensures At(s, ticks, 0) == s
    ensures forall k: nat | 0 < k < |ticks| :: At(s, ticks, k) == At(Step(s, ticks[0]), ticks[1..], k - 1) && ticks[k] == ticks[1..][k - 1]
  {
    hide Step, At;
    AtStart(s, ticks);
    forall k: nat | 0 < k < |ticks|
      ensures At(s, ticks, k) == At(Step(s, ticks[0]), ticks[1..], k - 1)
    {
      AtNext(s, ticks, k - 1);
    }
  }

  /** Each of the three, from the first pass and the rest. */
  lemma SomeStartSplits(s: State, ticks: seq<Tick>)
    requires ticks != [] && s.phase == Going
    ensures SomeStart(s, ticks) <==> Starts(s, ticks[0]) || SomeStart(Step(s, ticks[0]), ticks[1..])
  {
    hide Step, At, Starts;
    var r, rest := Step(s, ticks[0]), ticks[1..];
    AtRest(s, ticks);
    if n: nat :| n < |rest| && Starts(At(r, rest, n), rest[n]) {
      assert Starts(At(s, ticks, n + 1), ticks[n + 1]);
    }
    if n: nat :| n < |ticks| && Starts(At(s, ticks, n), ticks[n]) {
      assert n > 0 ==> Starts(At(r, rest, n - 1), rest[n - 1]);
    }
    assert Starts(s, ticks[0]) ==> Starts(At(s, ticks, 0), ticks[0]);
  }

  lemma SomeGoingOnSplits(s: State, ticks: seq<Tick>)
    requires ticks != [] && s.phase == Going
    ensures SomeGoingOn(s, ticks) <==> RecordsAndGoesOn(s, ticks[0]) || SomeGoingOn(Step(s, ticks[0]), ticks[1..])
  {
    hide Step, At, RecordsAndGoesOn;
    var r, rest := Step(s, ticks[0]), ticks[1..];
    AtRest(s, ticks);
    if m: nat :| m < |rest| && RecordsAndGoesOn(At(r, rest, m), rest[m]) {
      assert RecordsAndGoesOn(At(s, ticks, m + 1), ticks[m + 1]);
    }
    if m: nat :| m < |ticks| && RecordsAndGoesOn(At(s, ticks, m), ticks[m]) {
      assert m > 0 ==> RecordsAndGoesOn(At(r, rest, m - 1), rest[m - 1]);
    }
    assert RecordsAndGoesOn(s, ticks[0]) ==> RecordsAndGoesOn(At(s, ticks, 0), ticks[0]);
  }

  lemma StartAfterSplits(s: State, ticks: seq<Tick>)
    requires ticks != [] && s.phase == Going
    ensures var r, rest := Step(s, ticks[0]), ticks[1..];
            StartAfterGoingOn(s, ticks) <==> (RecordsAndGoesOn(s, ticks[0]) && SomeStart(r, rest)) || StartAfterGoingOn(r, rest)
  {
    hide Step, At, Starts, RecordsAndGoesOn;
    var r, rest := Step(s, ticks[0]), ticks[1..];
    AtRest(s, ticks);
    if m: nat, n: nat :| m < n < |rest| && RecordsAndGoesOn(At(r, rest, m), rest[m]) && Starts(At(r, rest, n), rest[n]) {
      assert RecordsAndGoesOn(At(s, ticks, m + 1), ticks[m + 1]) && Starts(At(s, ticks, n + 1), ticks[n + 1]);
    }
    if RecordsAndGoesOn(s, ticks[0]) && SomeStart(r, rest) {
      var n: nat :| n < |rest| && Starts(At(r, rest, n), rest[n]);
      assert RecordsAndGoesOn(At(s, ticks, 0), ticks[0]) && Starts(At(s, ticks, n + 1), ticks[n + 1]);
    }
    if m: nat, n: nat :| m < n < |ticks| && RecordsAndGoesOn(At(s, ticks, m), ticks[m]) && Starts(At(s, ticks, n), ticks[n]) {
      assert Starts(At(r, rest, n - 1), rest[n - 1]);
      assert m > 0 ==> RecordsAndGoesOn(At(r, rest, m - 1), rest[m - 1]);
    }
  }

  lemma NoPassLeft(s: State, ticks: seq<Tick>)
    requires ticks == [] || s.phase != Going
    ensures !SomeStart(s, ticks) && !SomeGoingOn(s, ticks) && !StartAfterGoingOn(s, ticks)
  {
    hide Run;
    forall k: nat | k < |ticks|
      ensures !Starts(At(s, ticks, k), ticks[k]) && !RecordsAndGoesOn(At(s, ticks, k), ticks[k])
    {
      AtEnd(s, ticks, k);
    }
  }

  lemma {:induction false} RunLog(s: State, ticks: seq<Tick>)
    ensures s.log <= Run(s, ticks).log
    ensures HasStart(Run(s, ticks).log[|s.log|..]) <==> SomeStart(s, ticks)
    decreases |ticks|
  {
    hide *;
    var end := Run(s, ticks);
    if ticks == [] || s.phase != Going {
      RunStops(s, ticks);
      NoPassLeft(s, ticks);
      assert s.log[|s.log|..] == [];
      NothingIn([]);
    } else {
      var r := Step(s, ticks[0]);
      RunStep(s, ticks);
      PassKind(s, ticks[0]);
      SomeStartSplits(s, ticks);
      RunLog(r, ticks[1..]);
      LogPieces(s.log, r.log, end.log);
      SeenIn(r.log[|s.log|..], end.log[|r.log|..]);
    }
  }

  lemma LogPieces(a: seq<Event>, b: seq<Event>, c: seq<Event>)
    requires a <= b <= c
    ensures a <= c && c[|a|..] == b[|a|..] + c[|b|..] && b == a + b[|a|..] && c == b + c[|b|..]
  {
    assert c[..|b|] == b;
  }

  /** In every run something starts after the stop was recorded if and only if the recording pass found the queue
      drained and was granted another round, and a later pass started an item. */
  lemma {:induction false} DispatchAfterRecordExactly(s: State, ticks: seq<Tick>)
    requires !HasRecord(s.log)
    requires !s.stopRecorded
    ensures StartsAfterRecord(Run(s, ticks).log) <==> StartAfterGoingOn(s, ticks)
    decreases |ticks|
  {
    hide *;
    if ticks == [] || s.phase != Going {
      RunStops(s, ticks);
      NoPassLeft(s, ticks);
      AfterNeedsBoth(s.log);
    } else {
      var t, r, rest, end := ticks[0], Step(s, ticks[0]), ticks[1..], Run(s, ticks);
      RunStep(s, ticks);
      PassKind(s, t);
      StartAfterSplits(s, ticks);
      RunLog(r, rest);
      var added, later := r.log[|s.log|..], end.log[|r.log|..];
      LogPieces(s.log, r.log, end.log);
      SeenIn(s.log, added);
      if RecordsStop(s, t) {
        AfterNeedsBoth(s.log);
        AfterInJoin(s.log, added);
        AfterNeedsBoth(added);
        AfterInJoin(r.log, later);
        AfterNeedsBoth(later);
        GoesOnIsRecord(s, t);
        if r.phase != Going {
          NoPassLeft(r, rest);
        } else {
          RecordedOnce(r, rest);
        }
      } else {
        GoesOnIsRecord(s, t);
        DispatchAfterRecordExactly(r, rest);
      }
    }
  }

  lemma GoesOnIsRecord(p: State, t: Tick)
    ensures RecordsAndGoesOn(p, t) ==> RecordsStop(p, t)
    ensures p.stopRecorded ==> !RecordsStop(p, t)
  {
    hide Active, Idle, Stop;
  }

  lemma {:induction false} RecordedOnce(s: State, ticks: seq<Tick>)
    requires s.stopRecorded
    ensures !SomeGoingOn(s, ticks) && !StartAfterGoingOn(s, ticks) && Run(s, ticks).stopRecorded
    decreases |ticks|
  {
    hide *;
    if ticks == [] || s.phase != Going {
      RunStops(s, ticks);
      NoPassLeft(s, ticks);
    } else {
      RunStep(s, ticks);
      PassKind(s, ticks[0]);
      SomeGoingOnSplits(s, ticks);
      StartAfterSplits(s, ticks);
      GoesOnIsRecord(s, ticks[0]);
      RecordedOnce(Step(s, ticks[0]), ticks[1..]);
    }
  }

  // ----- runs that end with the stop unrecorded -----

  /** A run records the stop it observed exactly when it ends at a boundary or drained, or a pass before that
      recorded it and went on. */
  lemma {:induction false} RecordedExactly(s: State, ticks: seq<Tick>)
    requires s.phase == Going && !s.stopRecorded
    ensures var r := Run(s, ticks);
            && (r.stopRecorded <==> SomeGoingOn(s, ticks) || (r.windDown.Some? && (r.phase == AtBoundary || r.phase == Drained)))
            && (r.phase == Stuck ==> r.windDown.None?)
    decreases |ticks|
  {
    hide *;
    if ticks == [] {
      RunStops(s, ticks);
      NoPassLeft(s, ticks);
    } else {
      var t, r, rest := ticks[0], Step(s, ticks[0]), ticks[1..];
      RunStep(s, ticks);
      PassKind(s, t);
      SomeGoingOnSplits(s, ticks);
      GoesOnIsRecord(s, t);
      RecordHasStop(s, t);
      if r.phase != Going {
        RunStops(r, rest);
        NoPassLeft(r, rest);
      } else if r.stopRecorded {
        RecordedOnce(r, rest);
        EndIsNotStuck(r, rest);
      } else {
        RecordedExactly(r, rest);
      }
    }
  }

  lemma RecordHasStop(p: State, t: Tick)
    ensures RecordsStop(p, t) ==> Stop(p, t).Some?
  {
    hide Active, Idle, Stop;
  }

  lemma {:induction false} EndIsNotStuck(s: State, ticks: seq<Tick>)
    requires s.phase == Going
    ensures Run(s, ticks).phase == Stuck ==> Run(s, ticks).windDown.None?
    decreases |ticks|
  {
    hide *;
    if ticks == [] {
      RunStops(s, ticks);
    } else {
      var r := Step(s, ticks[0]);
      RunStep(s, ticks);
      PassKind(s, ticks[0]);
      if r.phase != Going {
        RunStops(r, ticks[1..]);
      } else {
        EndIsNotStuck(r, ticks[1..]);
      }
    }
  }

  /** A request, once made, is seen by every later poll. */
  ghost predicate RequestStays(ticks: seq<Tick>) {
    forall k | 0 < k < |ticks| && ticks[k - 1].level.Some? :: ticks[k].level.Some?
  }

  /** While the request stays, a restart never follows a stop. */
  lemma {:induction false} RestartMeansNoStop(s: State, ticks: seq<Tick>)
    requires s.phase == Going && RequestStays(ticks) && (s.windDown.Some? && ticks != [] ==> ticks[0].level.Some?)
    ensures Run(s, ticks).phase == Restarting ==> Run(s, ticks).windDown.None?
    decreases |ticks|
  {
    if ticks == [] {
    } else {
      hide Step, Run, RecordsStop, Starts;
      var r, rest := Step(s, ticks[0]), ticks[1..];
      RunStep(s, ticks);
      PassKind(s, ticks[0]);
      forall k | 0 < k < |rest| && rest[k - 1].level.Some?
        ensures rest[k].level.Some?
      {
        assert rest[k] == ticks[k + 1] && rest[k - 1] == ticks[k];
      }
      if rest != [] {
        assert rest[0] == ticks[1];
      }
      if r.phase != Going {
        RunStops(r, rest);
      } else {
        RestartMeansNoStop(r, rest);
      }
    }
  }

  /** A run that has ended leaves a stop it observed unrecorded if and only if it ended on a runaway, inside a turn
      or on an interrupt, and no earlier pass had recorded the stop and gone on. */
  lemma StopUnrecordedExactly(queue: seq<Item>, ticks: seq<Tick>)
    requires RequestStays(ticks) && Run(Started(queue), ticks).phase != Going
    ensures var r := Run(Started(queue), ticks);
            r.windDown.Some? && !r.stopRecorded
            <==> r.windDown.Some? && r.phase in {RanAway, AtCheckpoint, Raised} && !SomeGoingOn(Started(queue), ticks)
  {
    hide Run, SomeGoingOn;
    RecordedExactly(Started(queue), ticks);
    RestartMeansNoStop(Started(queue), ticks);
  }

  // ----- two runs -----

  /** The run's queue is fixed: what the helpers write between passes is statuses and marks. */
  ghost predicate KeepsItems(queue: seq<Item>, ticks: seq<Tick>) {
    forall t | t in ticks :: SameItems(queue, t.found) && SameItems(queue, t.reloaded)
  }

  ghost predicate SameItems(a: seq<Item>, b: seq<Item>) {
    && |a| == |b|
    && forall i | 0 <= i < |a| ::
         a[i].id6 == b[i].id6 && a[i].setId == b[i].setId && a[i].action == b[i].action && a[i].dependencies == b[i].dependencies
  }

  const PLAN := Item("k3f9zq", Some("runstop"), QUEUED, "execute", [], false, 0, false, false, None, false)

  function Quiet(level: Option<nat>, item: Item, turn: Turn, answered: bool): Tick {
    Tick(level, false, false, [item], [item], [], World(map[], map[], {}), {}, 1, answered, [], NoPeer, None, {}, false, false, false, turn)
  }

  lemma OneItem(level: Option<nat>, item: Item, turn: Turn, answered: bool)
    requires item.dependencies == []
    ensures var t := Quiet(level, item, turn, answered);
            && (item.status != DEFERRED ==> Loaded(t) == [item] && !AnyDeferred([item]))
            && (Queued([item]) == if IsQueued(item) then [item] else [])
            && (IsQueued(item) && item.action != "orchestrate" ==> Runnable([item], t) == Some(item))
  {
    var t := Quiet(level, item, turn, answered);
    assert [item][1..] == [] && Queued([]) == [] && [item] + [] == [item];
    assert !Doomed([item], item);
    assert FirstDoomed([item], 0) == 1;
    assert Cascaded([item]) == [item];
    if IsQueued(item) && item.action != "orchestrate" {
      assert Sorted([]) == [] && Insert(item, []) == [item];
      assert Sorted([item]) == [item];
      assert Satisfied(item, t);
    }
  }

  lemma RunTwo(s: State, t0: Tick, t1: Tick)
    requires s.phase == Going && Step(s, t0).phase == Going
    ensures Run(s, [t0, t1]) == Step(Step(s, t0), t1)
  {
    hide Step;
    assert [t0, t1][1..] == [t1] && [t1][1..] == [];
    RunStep(s, [t0, t1]);
    RunStep(Step(s, t0), [t1]);
    RunStops(Step(Step(s, t0), t1), []);
  }

  lemma RunThree(s: State, t0: Tick, t1: Tick, t2: Tick)
    requires s.phase == Going && Step(s, t0).phase == Going && Step(Step(s, t0), t1).phase == Going
    ensures Run(s, [t0, t1, t2]) == Step(Step(Step(s, t0), t1), t2)
  {
    hide Step;
    assert [t0, t1, t2][1..] == [t1, t2];
    RunStep(s, [t0, t1, t2]);
    RunTwo(Step(s, t0), t1, t2);
  }

  lemma KeepsThree(item: Item, t0: Tick, t1: Tick, t2: Tick)
    requires forall t | t in {t0, t1, t2} ::
               SameItems([item], t.found) && SameItems([item], t.reloaded)
    requires t1.level.Some? && t2.level.Some?
    ensures KeepsItems([item], [t0, t1, t2]) && RequestStays([t0, t1, t2])
  {
  }

  lemma ThreeEvents(a: Event, b: Event, c: Event)
    requires b.StopRecorded? && c.Dispatched?
    ensures StartsAfterRecord([a] + [b] + [c])
  {
    var log := [a] + [b] + [c];
    assert log[..2][1] == b && b in log[..2] && log[2] == c;
  }

  lemma TwoEvents(a: Event, b: Event)
    requires !a.StopRecorded? && !b.StopRecorded?
    ensures !HasRecord([a] + [b])
  {
  }

  lemma OneStarts(p: State, level: Option<nat>, item: Item, turn: Turn)
    requires p.phase == Going && IsQueued(item) && item.action == "execute" && item.dependencies == []
    requires Observe(level, p.currentSet, p.windDown).Some? ==> Permits(Observe(level, p.currentSet, p.windDown).value, item.setId)
    ensures var t, w := Quiet(level, item, turn, false), Observe(level, p.currentSet, p.windDown);
            Step(p, t)
            == p.(queue := [item], windDown := w, currentSet := item.setId, log := p.log + [Dispatched(item, w, t)],
                  phase := if turn.StopNow? || turn.StopAtCheckpoint? then AtCheckpoint else if turn.Interrupt? then Raised else Going)
  {
    hide Loaded, Runnable, Queued, AnyDeferred, Observe, Permits;
    OneItem(level, item, turn, false);
  }

  lemma OneDrains(p: State, level: Option<nat>, item: Item)
    requires p.phase == Going && p.rounds == 0 && !p.stopRecorded && item.status == AWAITING_HUMAN && item.dependencies == []
    requires Observe(level, p.currentSet, p.windDown).Some?
    ensures var t, w := Quiet(level, item, Returned, true), Observe(level, p.currentSet, p.windDown);
            Step(p, t)
            == p.(queue := [item], windDown := w, stopRecorded := true, rounds := 1,
                  log := p.log + [StopRecorded(w.value, Ids(Queued([item])))])
  {
    hide Loaded, Runnable, Queued, AnyDeferred, Observe;
    OneItem(level, item, Returned, true);
    assert item in [item];
  }

  /** A plan whose turn attempted nothing is queued again; a level-2 stop lets its second turn start, and the
      operator ends that turn by force. The run ends with the stop it observed nowhere in the log. */
  lemma ForcedTurnLeavesStopUnrecorded() returns (ticks: seq<Tick>)
    ensures KeepsItems([PLAN], ticks) && RequestStays(ticks)
    ensures var r := Run(Started([PLAN]), ticks);
            r.phase == AtCheckpoint && r.windDown == Some(WindDown(2, PLAN.setId)) && !HasRecord(r.log)
  {
    hide Step, HasRecord;
    var t0, t1 := Quiet(None, PLAN, Returned, false), Quiet(Some(2), PLAN, StopNow, false);
    ticks := [t0, t1];
    var s0, w := Started([PLAN]), Some(WindDown(2, PLAN.setId));
    OneStarts(s0, None, PLAN, Returned);
    OneStarts(Step(s0, t0), Some(2), PLAN, StopNow);
    RunTwo(s0, t0, t1);
    TwoEvents(Dispatched(PLAN, None, t0), Dispatched(PLAN, w, t1));
    Appended(Dispatched(PLAN, None, t0));
  }

  lemma Appended(e: Event)
    ensures [] + [e] == [e]
  {
  }

  /** A plan's turn parks it on a question; under a level-2 stop the queue drains, the stop is recorded, the
      question is answered, and the same plan starts again. */
  lemma AnsweredPlanStartsAfterRecord() returns (ticks: seq<Tick>)
    ensures KeepsItems([PLAN], ticks) && RequestStays(ticks)
    ensures StartsAfterRecord(Run(Started([PLAN]), ticks).log)
  {
    hide Step, StartsAfterRecord, Queued, Ids, KeepsItems, RequestStays, Run;
    var parked, again := PLAN.(status := AWAITING_HUMAN), PLAN.(answered := true);
    var t0, t1, t2 := Quiet(None, PLAN, Returned, false), Quiet(Some(2), parked, Returned, true), Quiet(Some(2), again, Returned, false);
    ticks := [t0, t1, t2];
    var s0, w := Started([PLAN]), WindDown(2, PLAN.setId);
    OneStarts(s0, None, PLAN, Returned);
    OneDrains(Step(s0, t0), Some(2), parked);
    OneStarts(Step(Step(s0, t0), t1), Some(2), again, Returned);
    RunThree(s0, t0, t1, t2);
    KeepsThree(PLAN, t0, t1, t2);
    Appended(Dispatched(PLAN, None, t0));
    ThreeEvents(Dispatched(PLAN, None, t0), StopRecorded(w, Ids(Queued([parked]))), Dispatched(again, Some(w), t2));
  }
}
