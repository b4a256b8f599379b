/** The verdicts of the audit written out on the declared status and the directory, type by type. */
module AuditTable {
  import opened Wrappers
  import opened CommitGraph
  import opened Evidence
  import opened Audit
  import Naming

  /** The type a file found for this step counts as. */
  predicate CountsAs(s: Step, f: Found, t: RecordType) {
    match s.queueType
    case Typed(Some(queued)) => queued == t
    case Typed(None) => t == Plans
    case Untyped => if f.detected.Some? then f.detected.value == t else t == Plans
  }

  /** A queue entry that names a type found a file of that type, or of none it could tell. */
  predicate Comparable(s: Step, f: Found) {
    s.queueType.Untyped? || f.detected.None? || f.detected == s.queueType.canonical
  }

  /** Declared status and directory are the same one of these. */
  predicate Settled(f: Found, places: set<string>) {
    f.status == Some(Disposition(f)) && Disposition(f) in places
  }

  predicate In(f: Found, statuses: set<string>, dir: string) {
    f.status.Some? && f.status.value in statuses && Disposition(f) == dir
  }

  const WAITING: set<string> := {"approved", "to-review", "draft", "reviewed", "queued", "running"}

  /** The place of a plan or prompt of that status. */
  function PlanPlace(status: string): string {
    if status == "executed" || status == "superseded" || status == "not-executed" || status == "reusable" then status else "pending"
  }

  lemma {:induction false} WithoutHolds(statuses: seq<string>, first: string)
    ensures forall x :: x in Without(statuses, first) <==> x in statuses && x != first
  {
    if statuses != [] {
      WithoutHolds(statuses[1..], first);
      assert statuses == [statuses[0]] + statuses[1..];
    }
  }

  lemma PendingHolds(statuses: seq<string>, p: (string, string))
    ensures p in Pending(statuses) <==> p.0 in statuses && p.1 == "pending"
  {
    if p.0 in statuses && p.1 == "pending" {
      var i :| 0 <= i < |statuses| && statuses[i] == p.0;
      assert Pending(statuses)[i] == p;
    }
  }

  lemma WaitingIs()
    ensures forall x :: x in PRE_TERMINAL <==> x in WAITING
  {
  }

  /** The plan lists that start with one status and go on with the waiting ones. */
  lemma WaitingList(first: (string, string), p: (string, string))
    ensures p in [first] + Pending(Without(PRE_TERMINAL, first.0)) <==>
            p == first || (p.0 in WAITING && p.0 != first.0 && p.1 == "pending")
    ensures p in Pending(PRE_TERMINAL) <==> p.0 in WAITING && p.1 == "pending"
  {
    hide Without, Pending;
    WithoutHolds(PRE_TERMINAL, first.0);
    PendingHolds(Without(PRE_TERMINAL, first.0), p);
    PendingHolds(PRE_TERMINAL, p);
    WaitingIs();
  }

  lemma UnchangedIsAllowed(s: Step, f: Found, t: RecordType, evidence: Option<History>, endingHead: Commit)
    requires CountsAs(s, f, t)
    ensures Classify(s, Some(f), evidence, endingHead) == Unchanged <==>
            Comparable(s, f) && f.status.Some?
            && (f.status.value, Disposition(f)) in AllowedPairs(t, s.action, s.runStatus, s.initialStatus, s.queueType.Typed?)
  {
    hide AllowedPairs, Classify, Disposition;
    UnchangedExactly(s, Some(f), evidence, endingHead);
  }

  // ----- steps that succeeded -----

  /** A reviewed plan waits in `pending/`; an executed one is in `executed/` or stands where its status says. */
  lemma SuccessfulPlanUnchanged(s: Step, f: Found, evidence: Option<History>, endingHead: Commit)
    requires CountsAs(s, f, Plans) && s.runStatus == "executed"
    ensures Classify(s, Some(f), evidence, endingHead) == Unchanged <==>
            Comparable(s, f)
            && if s.action == "review" then In(f, {"reviewed", "approved"}, "pending")
               else In(f, {"executed", "complete"}, "executed") || Settled(f, {"superseded", "not-executed", "reusable"})
  {
    hide Classify, Disposition;
    UnchangedIsAllowed(s, f, Plans, evidence, endingHead);
  }

  lemma SuccessfulBacklogUnchanged(s: Step, f: Found, evidence: Option<History>, endingHead: Commit)
    requires CountsAs(s, f, Backlog) && s.runStatus == "executed"
    ensures Classify(s, Some(f), evidence, endingHead) == Unchanged <==>
            Comparable(s, f) && Settled(f, if s.action == "execute" then {"done"} else {"graduated", "done"})
  {
    hide Classify, Disposition;
    UnchangedIsAllowed(s, f, Backlog, evidence, endingHead);
  }

  lemma SuccessfulSpecUnchanged(s: Step, f: Found, evidence: Option<History>, endingHead: Commit)
    requires CountsAs(s, f, Specs) && s.runStatus == "executed"
    ensures Classify(s, Some(f), evidence, endingHead) == Unchanged <==>
            Comparable(s, f)
            && Settled(f, if s.action == "review" then {"reviewed", "approved"}
                          else if s.action == "execute" then {"implemented"} else {"implementing", "implemented"})
  {
    hide Classify, Disposition;
    UnchangedIsAllowed(s, f, Specs, evidence, endingHead);
  }

  lemma SuccessfulOtherUnchanged(s: Step, f: Found, t: RecordType, evidence: Option<History>, endingHead: Commit)
    requires CountsAs(s, f, t) && !t.Plans? && !t.Backlog? && !t.Specs? && s.runStatus == "executed"
    ensures Classify(s, Some(f), evidence, endingHead) == Unchanged <==>
            Comparable(s, f) && In(f, {"executed"}, if t.Prompts? then "executed" else "pending")
  {
    hide Classify, Disposition;
    UnchangedIsAllowed(s, f, t, evidence, endingHead);
  }

  // ----- steps that did not finish -----

  lemma RetiredUnchanged(s: Step, f: Found, t: RecordType, evidence: Option<History>, endingHead: Commit)
    requires CountsAs(s, f, t) && s.runStatus == "retired"
    ensures Classify(s, Some(f), evidence, endingHead) == Unchanged <==>
            Comparable(s, f) && Settled(f, {"superseded", "not-executed"})
  {
    hide Classify, Disposition;
    UnchangedIsAllowed(s, f, t, evidence, endingHead);
  }

  predicate Unfinished(s: Step) {
    s.runStatus != "executed" && s.runStatus != "retired"
  }

  /** An unfinished step leaves the artifact as it was when the run started; a plan may also wait in `pending/`. */
  lemma UnfinishedFromStatusUnchanged(s: Step, f: Found, t: RecordType, evidence: Option<History>, endingHead: Commit)
    requires CountsAs(s, f, t) && Unfinished(s) && s.initialStatus.Some?
    ensures Classify(s, Some(f), evidence, endingHead) == Unchanged <==>
            Comparable(s, f)
            && var was := s.initialStatus.value;
               if t.Plans? then In(f, {was}, PlanPlace(was)) || In(f, WAITING, "pending")
               else if t.Prompts? then In(f, {was}, PlanPlace(was))
               else In(f, {was}, was)
  {
    hide Classify, Disposition, Pending, Without;
    UnchangedIsAllowed(s, f, t, evidence, endingHead);
    if t.Plans? && f.status.Some? {
      WaitingList((s.initialStatus.value, PlanPlace(s.initialStatus.value)), (f.status.value, Disposition(f)));
      WaitingPlace(s.initialStatus.value);
    }
  }

  lemma WaitingPlace(status: string)
    ensures status in WAITING ==> PlanPlace(status) == "pending"
  {
  }

  /** Without a recorded initial status, a typed entry falls back on the status its type starts from. */
  lemma UnfinishedTypedUnchanged(s: Step, f: Found, t: RecordType, evidence: Option<History>, endingHead: Commit)
    requires CountsAs(s, f, t) && Unfinished(s) && s.initialStatus.None? && s.queueType.Typed?
    ensures Classify(s, Some(f), evidence, endingHead) == Unchanged <==>
            Comparable(s, f)
            && match t
               case Plans => In(f, WAITING, "pending")
               case Backlog => In(f, {"open"}, "open")
               case Specs => if s.action == "plan" then In(f, {"approved"}, "approved") else In(f, {"to-review"}, "to-review")
               case Prompts => In(f, {s.runStatus}, PlanPlace(s.runStatus))
               case _ => In(f, {s.runStatus}, "pending")
  {
    hide Classify, Disposition, Pending, Without;
    UnchangedIsAllowed(s, f, t, evidence, endingHead);
    if t.Plans? && f.status.Some? {
      WaitingList((if s.action == "execute" then "approved" else "to-review", "pending"), (f.status.value, Disposition(f)));
    }
  }

  /** An untyped one without an initial status is in `pending/`, a plan with any waiting status. */
  lemma UnfinishedUntypedUnchanged(s: Step, f: Found, t: RecordType, evidence: Option<History>, endingHead: Commit)
    requires CountsAs(s, f, t) && Unfinished(s) && s.initialStatus.None? && s.queueType.Untyped?
    ensures Classify(s, Some(f), evidence, endingHead) == Unchanged <==>
            In(f, if t.Plans? then WAITING else {s.runStatus}, "pending")
  {
    hide Classify, Disposition, Pending, Without;
    UnchangedIsAllowed(s, f, t, evidence, endingHead);
    if f.status.Some? {
      WaitingList(("", ""), (f.status.value, Disposition(f)));
    }
  }

  // ----- alarms and evidence -----

  /** The file's name carries no other artifact's id6. */
  ghost predicate OwnName(s: Step, f: Found) {
    s.id6 == "" || forall g | Naming.Parse(Naming.Canonical, f.name) == Some(g) :: g.id6 == s.id6
  }

  /** The type a found file is classified as. */
  predicate ClassedAs(s: Step, f: Found, t: RecordType) {
    match s.queueType
    case Typed(Some(queued)) => queued == t
    case _ => if f.detectedNearby.Some? then f.detectedNearby.value == t else t == Plans
  }

  /** A success that went back: outside the retirement directories, under its own name, and not where a success of
      that type and action leaves it. */
  lemma RegressedExactly(s: Step, f: Found, t: RecordType, evidence: Option<History>, endingHead: Commit)
    requires ClassedAs(s, f, t)
    ensures Classify(s, Some(f), evidence, endingHead) == Regressed <==>
            && Comparable(s, f) && Classify(s, Some(f), evidence, endingHead) != Unchanged && OwnName(s, f)
            && Disposition(f) != "superseded" && Disposition(f) != "not-executed"
            && s.runStatus == "executed"
            && match t
               case Backlog => !Settled(f, {"graduated", "done"})
               case Specs =>
                 || (s.action == "plan" && !Settled(f, {"implementing", "implemented"}))
                 || (s.action == "review" && !Settled(f, {"reviewed", "approved"}))
                 || (s.action == "execute" && !Settled(f, {"implemented"}))
               case _ => Disposition(f) != "executed"
  {
    hide Pairs, Disposition, Naming.Parse, Proof;
    if Comparable(s, f) {
      DiscrepancyIsDisallowed(s, f);
    }
  }

  /** For an executed plan found under its own name, the alarm is raised for every directory but `executed/` and the
      retirement directories, unless a reviewed plan waits in `pending/` or a plan stands in `reusable/`. */
  lemma ExecutedPlanAlarm(s: Step, f: Found, evidence: Option<History>, endingHead: Commit)
    requires s.runStatus == "executed" && s.queueType == Typed(Some(Plans)) && Comparable(s, f) && OwnName(s, f)
    ensures Classify(s, Some(f), evidence, endingHead) == Regressed <==>
            && Disposition(f) != "executed" && Disposition(f) != "superseded" && Disposition(f) != "not-executed"
            && !(if s.action == "review" then In(f, {"reviewed", "approved"}, "pending") else Settled(f, {"reusable"}))
  {
    hide Classify, Disposition, OwnName, Comparable;
    SuccessfulPlanUnchanged(s, f, evidence, endingHead);
    RegressedExactly(s, f, Plans, evidence, endingHead);
  }

  /** A finalize of the artifact after the run ended, or a move of it into one of these statuses. */
  ghost predicate LaterCommit(h: History, id6: string, endingHead: Commit, into: set<string>) {
    && h.RangeProblem(endingHead).None?
    && ((exists c :: h.IsFinalize(id6, endingHead, c)) || (into != {} && exists c :: h.IsMove(id6, endingHead, Some(into), c)))
  }

  /** Forward progress of an unfinished step that a commit after the run vouches for. */
  lemma ResolvedByType(s: Step, f: Found, t: RecordType, evidence: Option<History>, endingHead: Commit)
    requires ClassedAs(s, f, t)
    ensures Classify(s, Some(f), evidence, endingHead).Resolved? <==>
            && Comparable(s, f) && Classify(s, Some(f), evidence, endingHead) != Unchanged && OwnName(s, f)
            && s.runStatus !in {"executed", "superseded", "not-executed", "reusable"} && evidence.Some?
            && match t
               case Plans => Disposition(f) == "executed" && LaterCommit(evidence.value, s.id6, endingHead, {})
               case Backlog => Settled(f, {"graduated", "done"}) && LaterCommit(evidence.value, s.id6, endingHead, {"graduated", "done"})
               case Specs =>
                 || (s.action == "plan" && Settled(f, {"implementing", "implemented"})
                     && LaterCommit(evidence.value, s.id6, endingHead, {"implementing", "implemented"}))
                 || (s.action == "review" && Settled(f, {"reviewed", "approved"})
                     && LaterCommit(evidence.value, s.id6, endingHead, {"reviewed", "approved"}))
               case _ => false
  {
    hide Pairs, Disposition, Naming.Parse, Proof;
    ResolvedExactly(s, Some(f), evidence, endingHead);
    UnchangedExactly(s, Some(f), evidence, endingHead);
    OwnNameIs(s, f);
    OpenIs(s.runStatus);
    if evidence.Some? {
      hide Classify;
      GoalMet(s, f, t, evidence.value, endingHead);
    }
  }

  lemma OwnNameIs(s: Step, f: Found)
    ensures OwnName(s, f) <==> Attributable(s, f)
  {
    hide Naming.Parse;
  }

  lemma OpenIs(runStatus: string)
    ensures Open(runStatus) <==> runStatus !in {"executed", "superseded", "not-executed", "reusable"}
  {
  }

  /** The goal of each type, met by a later commit. */
  lemma GoalMet(s: Step, f: Found, t: RecordType, h: History, endingHead: Commit)
    requires ClassedAs(s, f, t)
    ensures var goal := Reached(ClassType(s, f), s.action, f);
            (!Retirement(Disposition(f)) && goal.Some? && h.RangeProblem(endingHead).None? && exists c :: Earned(h, s.id6, endingHead, goal.value, c))
            <==> match t
                 case Plans => Disposition(f) == "executed" && LaterCommit(h, s.id6, endingHead, {})
                 case Backlog => Settled(f, {"graduated", "done"}) && LaterCommit(h, s.id6, endingHead, {"graduated", "done"})
                 case Specs =>
                   || (s.action == "plan" && Settled(f, {"implementing", "implemented"})
                       && LaterCommit(h, s.id6, endingHead, {"implementing", "implemented"}))
                   || (s.action == "review" && Settled(f, {"reviewed", "approved"})
                       && LaterCommit(h, s.id6, endingHead, {"reviewed", "approved"}))
                 case _ => false
  {
    hide Disposition, LaterCommit, Earned, Reached, ClassType;
    var goal := Reached(ClassType(s, f), s.action, f);
    GoalIs(s, f, t);
    match goal {
      case None =>
      case Some(Finalized) => EarnedIs(h, s.id6, endingHead, Finalized, {});
      case Some(MovedInto(into)) => EarnedIs(h, s.id6, endingHead, MovedInto(into), into);
    }
  }

  /** What counts as forward progress for a file of each type. */
  lemma GoalIs(s: Step, f: Found, t: RecordType)
    requires ClassedAs(s, f, t)
    ensures var goal := Reached(ClassType(s, f), s.action, f);
            && (goal.Some? ==> !Retirement(Disposition(f)) && (goal.value.MovedInto? ==> goal.value.targets != {}))
            && match t
               case Plans => if Disposition(f) == "executed" then goal == Some(Finalized) else goal.None?
               case Backlog => if Settled(f, {"graduated", "done"}) then goal == Some(MovedInto({"graduated", "done"})) else goal.None?
               case Specs =>
                 if s.action == "plan" && Settled(f, {"implementing", "implemented"}) then goal == Some(MovedInto({"implementing", "implemented"}))
                 else if s.action == "review" && Settled(f, {"reviewed", "approved"}) then goal == Some(MovedInto({"reviewed", "approved"}))
                 else goal.None?
               case _ => goal.None?
  {
    hide Disposition;
  }

  lemma EarnedIs(h: History, id6: string, endingHead: Commit, goal: Goal, into: set<string>)
    requires if into == {} then goal == Finalized else goal == MovedInto(into)
    ensures LaterCommit(h, id6, endingHead, into) <==> h.RangeProblem(endingHead).None? && exists c :: Earned(h, id6, endingHead, goal, c)
  {
    if c :| h.IsFinalize(id6, endingHead, c) {
      assert Earned(h, id6, endingHead, goal, c);
    }
    if into != {} {
      if c :| h.IsMove(id6, endingHead, Some(into), c) {
        assert Earned(h, id6, endingHead, goal, c);
      }
    }
  }
}
