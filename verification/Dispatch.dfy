/** The dispatch loop of a run as a state machine: one step is one pass of the loop. What the shared helpers
    find or do in a pass is a `Tick`, so a run is a state and a sequence of ticks. */
module Dispatch {
  import opened Wrappers

  // ----- declared edges -----

  /** One entry of a plan's `Item-Dependencies`; `target` is the artifact type. */
  datatype Dependency =
    | Executed(id6: string)
    | Exists(target: string, id6: string)
    | InState(target: string, id6: string, status: string)
    | Unparseable(token: string)

  /** Where the one plan of an id6 lies and what its status field says. */
  datatype Plan = Plan(bucket: Option<string>, terminal: bool, field: Option<string>)

  /** The repository as the edges see it: the plan each id6 resolves to, the statuses of the artifacts a
      (type, id6) names, and the plans with unresolved review findings. */
  datatype World = World(plans: map<string, Plan>, owners: map<(string, string), seq<string>>, findings: set<string>)

  /** A terminal directory decides; elsewhere the status field does. */
  function Effective(p: Plan): Option<string> {
    if p.bucket.Some? && !p.terminal then p.field else p.bucket
  }

  /** What satisfies an `executed:` edge of an item that executes, and of one that only reviews. */
  predicate Allowed(status: string, executes: bool) {
    status == "executed" || (!executes && status in {"reviewed", "approved"})
  }

  predicate Ready(world: World, id6: string, executes: bool) {
    id6 in world.plans && Effective(world.plans[id6]).Some? && Allowed(Effective(world.plans[id6]).value, executes)
  }

  /** The status a review accepts in place of the one its edge names. */
  predicate Relaxed(target: string, wanted: string, status: string) {
    || (target == "spec" && wanted in {"approved", "reviewed"}
        && status in {"to-review", "reviewed", "approved", "implementing", "implemented"})
    || (target == "backlog" && wanted in {"graduated", "done"} && status in {"open", "graduated", "done"})
    || (target == "ipd" && wanted in {"approved", "reviewed", "executed"}
        && status in {"to-review", "reviewed", "approved", "executed"})
  }

  /** The status of the only artifact of that type and id6. */
  function SoleOwner(world: World, target: string, id6: string): Option<string> {
    if (target, id6) in world.owners && |world.owners[(target, id6)]| == 1 then Some(world.owners[(target, id6)][0]) else None
  }

  /** `edge_satisfied` */
  predicate EdgeMet(d: Dependency, executes: bool, world: World) {
    match d
    case Executed(id6) => Ready(world, id6, executes)
    case Exists(target, id6) => SoleOwner(world, target, id6).Some?
    case InState(target, id6, status) =>
      var owner := SoleOwner(world, target, id6);
      owner.Some? && (owner.value == status || (!executes && Relaxed(target, status, owner.value)))
    case Unparseable(_) => false
  }

  predicate DependencyMet(d: Dependency, executes: bool, world: World) {
    EdgeMet(d, executes, world) && (executes && !d.Unparseable? ==> d.id6 !in world.findings)
  }

  // ----- queue items -----

  datatype Item = Item(
    id6: string,
    setId: Option<string>,
    status: string,
    action: string,
    dependencies: seq<Dependency>,
    answered: bool,
    rank: nat,
    indeterminate: bool,
    recoveryNext: bool,
    requeueFrom: Option<string>,
    requiresReconciliation: bool
  )

  const QUEUED := "queued"
  const INTERRUPTED := "interrupted"
  const DEFERRED := "merge-retry"
  const INTEGRATION_BLOCKED := "fail-merge"
  const DEPENDENCY_BLOCKED := "fail-depend"
  const AWAITING_HUMAN := "awaiting-human"

  predicate IsQueued(item: Item) {
    item.status == QUEUED
  }

  function Queued(queue: seq<Item>): (r: seq<Item>)
    ensures forall x :: x in r <==> x in queue && IsQueued(x)
  {
    if queue == [] then [] else (if IsQueued(queue[0]) then [queue[0]] else []) + Queued(queue[1..])
  }

  predicate AnyDeferred(queue: seq<Item>) {
    exists x | x in queue :: x.status == DEFERRED
  }

  predicate AnyParked(queue: seq<Item>) {
    exists x | x in queue :: x.status == AWAITING_HUMAN
  }

  predicate Executes(item: Item) {
    item.action != "review"
  }

  function Ids(items: seq<Item>): seq<string> {
    seq(|items|, i requires 0 <= i < |items| => items[i].id6)
  }

  // ----- operator stops -----

  /** A stop observed between turns, with the set boundary frozen when it was first seen. */
  datatype WindDown = WindDown(level: nat, setId: Option<string>)

  /** `WindDown.permits` */
  predicate Permits(w: WindDown, setId: Option<string>) {
    w.level == 2 && w.setId.Some? && setId == w.setId
  }

  /** `_observe_between_turn_stop` */
  function Observe(level: Option<nat>, current: Option<string>, existing: Option<WindDown>): Option<WindDown> {
    if level != Some(1) && level != Some(2) then existing
    else if existing.Some? && existing.value.level >= level.value then existing
    else Some(WindDown(level.value, if existing.Some? then existing.value.setId else current))
  }

  // ----- one pass -----

  datatype Peer = NoPeer | Released | Stopped

  /** How `execute_item` ended. */
  datatype Turn = Returned | ToolMismatch | StopNow | StopAtCheckpoint | Failed | Interrupt

  datatype Tick = Tick(
    /** what the stop request says at the top of the pass */
    level: Option<nat>,
    /** whether the toolkit's code changed while work was left, so that the driver would restart or give up */
    newCode: bool,
    runaway: bool,
    /** the queue as the pass finds it */
    found: seq<Item>,
    /** the queue once answers were consumed */
    reloaded: seq<Item>,
    /** the queue after the deferred merges were tried again */
    retried: seq<Item>,
    world: World,
    /** orchestrators told to wait for a child */
    waiting: set<string>,
    /** how many rounds of questions the run allows, and whether someone answered one in this round */
    questionRounds: nat,
    answered: bool,
    /** the queue after the deferred merges were polled */
    polled: seq<Item>,
    peer: Peer,
    levelAfterPeer: Option<nat>,
    /** the items whose prerequisites may still be met later */
    transient: set<string>,
    landed: bool,
    refused: bool,
    held: bool,
    turn: Turn
  )

  /** `dependency_status` */
  predicate Satisfied(item: Item, t: Tick) {
    && (forall d | d in item.dependencies :: DependencyMet(d, Executes(item), t.world))
    && !(item.action == "orchestrate" && item.id6 in t.waiting)
  }

  datatype Event =
    | Dispatched(item: Item, windDown: Option<WindDown>, tick: Tick)
    | StopRecorded(observed: WindDown, remaining: seq<string>)
    | Labelled(id6: string, windDown: Option<WindDown>)
    | LeftQueued(id6: string)

  datatype Phase = Going | Restarting | RanAway | Drained | AtBoundary | AtCheckpoint | Stuck | Raised

  datatype State = State(
    queue: seq<Item>,
    windDown: Option<WindDown>,
    currentSet: Option<string>,
    stopRecorded: bool,
    rounds: nat,
    phase: Phase,
    log: seq<Event>
  )

  // ----- choosing what to run -----

  /** `dispatch_sort_key`: answered items first, then the queue order key. */
  predicate Before(a: Item, b: Item) {
    (a.answered && !b.answered) || (a.answered == b.answered && a.rank < b.rank)
  }

  function Insert(x: Item, sorted: seq<Item>): seq<Item> {
    if sorted == [] || !Before(sorted[0], x) then [x] + sorted else [sorted[0]] + Insert(x, sorted[1..])
  }

  /** `sorted(queued, key=...)`, which keeps equal items in queue order. */
  function Sorted(queued: seq<Item>): seq<Item> {
    if queued == [] then [] else Insert(queued[0], Sorted(queued[1..]))
  }

  function FirstSatisfied(items: seq<Item>, t: Tick): Option<Item> {
    if items == [] then None else if Satisfied(items[0], t) then Some(items[0]) else FirstSatisfied(items[1..], t)
  }

  function Runnable(queue: seq<Item>, t: Tick): Option<Item> {
    FirstSatisfied(Sorted(Queued(queue)), t)
  }

  // ----- cascading a failed prerequisite -----

  const TERMINAL: set<string> := {
    "executed", "reviewed", "approved", "interrupted", "fail-gate", "fail-begin", "fail-lane", "fail-verify",
    "fail-depend", "fail-merge", "not-run", "failed", "already-landed", "retired", "substantially-complete", "partial",
    "failed-safely", "blocked", "dependency-blocked", "integration-blocked", "merge-conflict", "merge-needs-human",
    "merge-refused", "not-attempted"
  }

  /** The queue's entry for an id6, the last one if it occurs twice. */
  function Entry(queue: seq<Item>, id6: string): (e: Option<Item>)
    ensures e.Some? ==> e.value in queue && e.value.id6 == id6
    ensures e.None? ==> forall x | x in queue :: x.id6 != id6
  {
    if queue == [] then None
    else if queue[|queue| - 1].id6 == id6 then Some(queue[|queue| - 1])
    else Entry(queue[..|queue| - 1], id6)
  }

  /** The plan an edge points at. */
  function PlanOf(d: Dependency): Option<string> {
    match d
    case Executed(id6) => Some(id6)
    case Exists(target, id6) => if target == "ipd" then Some(id6) else None
    case InState(target, id6, _) => if target == "ipd" then Some(id6) else None
    case Unparseable(_) => None
  }

  /** A status of the run that ends a plan without the success this kind of dependent needs. */
  predicate Fails(status: string, executes: bool) {
    status in TERMINAL && !Allowed(status, executes)
  }

  predicate DeadEdge(queue: seq<Item>, d: Dependency, executes: bool) {
    PlanOf(d).Some? && Entry(queue, PlanOf(d).value).Some? && Fails(Entry(queue, PlanOf(d).value).value.status, executes)
  }

  /** A queued item with a prerequisite in the queue that failed. */
  predicate Doomed(queue: seq<Item>, item: Item) {
    IsQueued(item) && exists d | d in item.dependencies :: DeadEdge(queue, d, Executes(item))
  }

  function Blocked(item: Item): Item {
    item.(status := DEPENDENCY_BLOCKED)
  }

  function FirstDoomed(queue: seq<Item>, from: nat): (i: nat)
    requires from <= |queue|
    ensures from <= i <= |queue| && (forall j | from <= j < i :: !Doomed(queue, queue[j]))
    ensures i < |queue| ==> Doomed(queue, queue[i])
    decreases |queue| - from
  {
    if from == |queue| || Doomed(queue, queue[from]) then from else FirstDoomed(queue, from + 1)
  }

  /** `cascade_dependency_blocked`: items are blocked until none is doomed. */
  function Cascaded(queue: seq<Item>): (r: seq<Item>)
    ensures |r| == |queue|
    decreases |Queued(queue)|
  {
    var i := FirstDoomed(queue, 0);
    if i == |queue| then queue
    else
      QueuedShrinks(queue, i);
      Cascaded(queue[i := Blocked(queue[i])])
  }

  lemma {:induction false} QueuedJoin(a: seq<Item>, b: seq<Item>)
    ensures |Queued(a + b)| == |Queued(a)| + |Queued(b)|
  {
    if a == [] {
      assert a + b == b;
    } else {
      assert (a + b)[1..] == a[1..] + b;
      QueuedJoin(a[1..], b);
    }
  }

  lemma QueuedShrinks(queue: seq<Item>, i: nat)
    requires i < |queue| && IsQueued(queue[i])
    ensures |Queued(queue[i := Blocked(queue[i])])| < |Queued(queue)|
  {
    var x := queue[i];
    assert queue == queue[..i] + ([x] + queue[i + 1..]);
    assert queue[i := Blocked(x)] == queue[..i] + ([Blocked(x)] + queue[i + 1..]);
    QueuedJoin(queue[..i], [x] + queue[i + 1..]);
    QueuedJoin(queue[..i], [Blocked(x)] + queue[i + 1..]);
  }

  /** `restart_decision`: never under a stop request. */
  predicate Restarts(t: Tick) {
    t.newCode && t.level.None?
  }

  /** The queue a pass works on: as found when it leaves at once, else with failed prerequisites cascaded and
      deferred merges tried again. */
  function Loaded(t: Tick): seq<Item> {
    if Restarts(t) || t.runaway then t.found
    else
      var queue := Cascaded(t.reloaded);
      if AnyDeferred(queue) then t.retried else queue
  }

  // ----- the arms of the loop -----

  /** `_record_deliberate_stop`, at most once. */
  function RecordStop(s: State): State {
    if s.windDown.Some? && !s.stopRecorded
    then s.(stopRecorded := true, log := s.log + [StopRecorded(s.windDown.value, Ids(Queued(s.queue)))])
    else s
  }

  /** `drain_parked_questions`: an item is parked, the run may still ask, and an answer came. */
  predicate AsksAgain(queue: seq<Item>, rounds: nat, t: Tick) {
    AnyParked(queue) && rounds < t.questionRounds && t.answered
  }

  /** Nothing queued and no merge deferred. */
  function EmptyArm(s: State, t: Tick): State {
    var r := RecordStop(s);
    if AsksAgain(s.queue, s.rounds, t) then r.(rounds := r.rounds + 1) else r.(phase := Drained)
  }

  /** `resolve_exhausted_deferrals` */
  function ResolveDeferrals(queue: seq<Item>): seq<Item> {
    seq(|queue|, i requires 0 <= i < |queue| =>
      if queue[i].status == DEFERRED then queue[i].(status := INTEGRATION_BLOCKED) else queue[i])
  }

  function Label(items: seq<Item>, t: Tick, w: Option<WindDown>): seq<Event> {
    if items == [] then []
    else [if items[0].id6 in t.transient then LeftQueued(items[0].id6) else Labelled(items[0].id6, w)] + Label(items[1..], t, w)
  }

  /** The queue with every queued item that is not waiting on something transient labelled. */
  function Labelling(queue: seq<Item>, t: Tick): seq<Item> {
    seq(|queue|, i requires 0 <= i < |queue| =>
      if IsQueued(queue[i]) && queue[i].id6 !in t.transient then queue[i].(status := DEPENDENCY_BLOCKED) else queue[i])
  }

  /** Nothing can start and no stop is in force. The items to label are those that were queued at the top of
      the pass; when the deferred merges were polled since, the queue that is kept is another copy. */
  function StuckArm(s: State, t: Tick): State {
    var polled := AnyDeferred(s.queue);
    var queue := if !polled then s.queue else if AnyDeferred(t.polled) then ResolveDeferrals(t.polled) else t.polled;
    var r := s.(queue := queue);
    if polled && Queued(queue) != [] then r
    else if t.peer.Released? then r
    else if t.peer.Stopped? then
      if t.levelAfterPeer == Some(1) || t.levelAfterPeer == Some(2) then r else r.(phase := AtCheckpoint)
    else if AsksAgain(queue, s.rounds, t) then r.(rounds := r.rounds + 1)
    else
      r.(queue := if polled then queue else Labelling(queue, t),
         log := r.log + Label(Queued(s.queue), t, s.windDown),
         phase := Stuck)
  }

  /** The chosen item goes to the orchestrator branch, past the three refusals, and to its turn. */
  function DispatchArm(s: State, t: Tick, item: Item): State {
    var started := s.(log := s.log + [Dispatched(item, s.windDown, t)]);
    if item.action == "orchestrate" then started
    else if t.landed || t.refused || t.held then s
    else
      var r := started.(currentSet := item.setId);
      match t.turn
      case StopNow => r.(phase := AtCheckpoint)
      case StopAtCheckpoint => r.(phase := AtCheckpoint)
      case Interrupt => r.(phase := Raised)
      case _ => r
  }

  /** One pass of the loop. */
  function Step(before: State, t: Tick): State {
    var s := before.(queue := Loaded(t), windDown := Observe(t.level, before.currentSet, before.windDown));
    if Restarts(t) then s.(phase := Restarting)
    else if t.runaway then s.(phase := RanAway)
    else if Queued(s.queue) == [] && !AnyDeferred(s.queue) then EmptyArm(s, t)
    else
      match Runnable(s.queue, t)
      case Some(item) =>
        if s.windDown.Some? && !Permits(s.windDown.value, item.setId) then RecordStop(s).(phase := AtBoundary)
        else DispatchArm(s, t, item)
      case None =>
        if s.windDown.Some? then RecordStop(s).(phase := AtBoundary) else StuckArm(s, t)
  }

  /** Any number of passes; a run that has ended stays as it is. */
  function Run(s: State, ticks: seq<Tick>): State
    decreases |ticks|
  {
    if ticks == [] || s.phase != Going then s else Run(Step(s, ticks[0]), ticks[1..])
  }

  // ----- before the loop -----

  /** `requeue_interrupted` */
  function Requeue(item: Item): Item {
    if item.status != INTERRUPTED then item
    else if item.indeterminate then item.(requiresReconciliation := true)
    else item.(status := QUEUED, recoveryNext := true)
  }

  predicate Retryable(status: string) {
    status in {
      "interrupted", "substantially-complete", "partial", "failed-safely", "blocked", "dependency-blocked",
      "fail-gate", "fail-begin", "fail-lane", "fail-verify", "fail-depend", "fail-merge", "not-run", "failed",
      "integration-blocked", "merge-conflict", "integration-deferred", "merge-needs-human", "merge-refused",
      "merge-retry", "merge-unchecked"
    }
  }

  /** The `--retry-incomplete` route. */
  function Retry(item: Item): Item {
    if item.indeterminate || item.action == "skip" || !Retryable(item.status) then item
    else item.(requeueFrom := Some(item.status), status := QUEUED, recoveryNext := true)
  }

  function RequeueAll(queue: seq<Item>): seq<Item> {
    seq(|queue|, i requires 0 <= i < |queue| => Requeue(queue[i]))
  }

  function RetryAll(queue: seq<Item>): seq<Item> {
    seq(|queue|, i requires 0 <= i < |queue| => Retry(queue[i]))
  }

  function Prepared(queue: seq<Item>, retryIncomplete: bool): seq<Item> {
    if retryIncomplete then RetryAll(RequeueAll(queue)) else RequeueAll(queue)
  }

  predicate AnyIndeterminate(queue: seq<Item>) {
    exists x | x in queue :: x.indeterminate
  }

  function Started(queue: seq<Item>): State {
    State(queue, None, None, false, 0, Going, [])
  }
}
