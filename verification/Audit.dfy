/** The location-and-status audit of one artifact against what a run recorded, and its directional
    classification on read git evidence. */
module Audit {
  import opened Wrappers
  import opened CommitGraph
  import opened Evidence
  import Naming
  import Text

  /** The plural record types; a token that names none of them is None where a type is optional. */
  datatype RecordType = Plans | Specs | Backlog | Prompts | Releases | Research | Walkthroughs | Roadmaps | OtherType

  /** A queue entry without an artifact type, or with one; a token that is no known type is None. */
  datatype QueueType = Untyped | Typed(canonical: Option<RecordType>)

  /** One step of a run. `runStatus` is the canonical terminal status; `action` and `initialStatus` are
      already stripped and lower-cased, an empty initial status being None. */
  datatype Step = Step(
    id6: string,
    runStatus: string,
    queueType: QueueType,
    action: string,
    initialStatus: Option<string>
  )

  /** What the tree says about the file found: its name, its two enclosing directories, its declared
      `- Status:`, whether it carries a `RETIRED` banner, and the type detected from the repository root
      and from the directory three levels up. */
  datatype Found = Found(
    name: string,
    parent: string,
    grandparent: string,
    status: Option<string>,
    banner: bool,
    detected: Option<RecordType>,
    detectedNearby: Option<RecordType>
  )

  /** A monthly shard is climbed. */
  function Disposition(f: Found): string {
    if |f.parent| == 6 && Text.AllDigits(f.parent) then f.grandparent else f.parent
  }

  // ----- where a record of a type and status lives, and which pairs a step allows -----

  predicate Retirement(dir: string) {
    dir == "superseded" || dir == "not-executed"
  }

  predicate Success(runStatus: string) {
    runStatus == "executed"
  }

  /** `record_placement.target_subdir` */
  function TargetSubdir(t: RecordType, status: string): Option<string> {
    match t
    case Plans | Prompts =>
      if status in {"executed", "superseded", "not-executed", "reusable"} then Some(status) else Some("pending")
    case Backlog | Specs => Some(status)
    case _ => None
  }

  function SubdirOr(t: RecordType, status: string, otherwise: string): string {
    match TargetSubdir(t, status)
    case Some(dir) => if dir != "" then dir else otherwise
    case None => otherwise
  }

  /** `expected_dir_for_status`, which decides whether a run was still open. */
  function ExpectedDir(runStatus: string): string {
    if runStatus in {"executed", "superseded", "not-executed", "reusable"} then runStatus else "pending"
  }

  predicate Open(runStatus: string) {
    ExpectedDir(runStatus) == "pending"
  }

  const PRE_TERMINAL := ["approved", "to-review", "draft", "reviewed", "queued", "running"]

  function Pending(statuses: seq<string>): seq<(string, string)> {
    seq(|statuses|, i requires 0 <= i < |statuses| => (statuses[i], "pending"))
  }

  /** `s if s != first`, as the comprehension skips the entry already listed. */
  function Without(statuses: seq<string>, first: string): seq<string> {
    if statuses == [] then []
    else (if statuses[0] == first then [] else [statuses[0]]) + Without(statuses[1..], first)
  }

  function SameDir(t: RecordType, status: string): (string, string) {
    (status, SubdirOr(t, status, status))
  }

  /** `allowed_lifecycle_pairs` */
  function AllowedPairs(t: RecordType, act: string, runStatus: string, initial: Option<string>, explicit: bool): seq<(string, string)> {
    if Success(runStatus) then
      match t
      case Backlog => if act == "execute" then [SameDir(t, "done")] else [SameDir(t, "graduated"), SameDir(t, "done")]
      case Specs =>
        if act == "review" then [SameDir(t, "reviewed"), SameDir(t, "approved")]
        else if act == "execute" then [SameDir(t, "implemented")]
        else [SameDir(t, "implementing"), SameDir(t, "implemented")]
      case Plans =>
        if act == "review" then [("reviewed", "pending"), ("approved", "pending")]
        else [("executed", "executed"), ("complete", "executed"), ("superseded", "superseded"),
              ("not-executed", "not-executed"), ("reusable", "reusable")]
      case _ => [("executed", SubdirOr(t, "executed", "pending"))]
    else if runStatus == "retired" then [("superseded", "superseded"), ("not-executed", "not-executed")]
    else if initial.Some? then
      if t.Plans? then [(initial.value, SubdirOr(t, initial.value, "pending"))] + Pending(Without(PRE_TERMINAL, initial.value))
      else [SameDir(t, initial.value)]
    else if explicit then
      match t
      case Backlog => [SameDir(t, "open")]
      case Specs => [SameDir(t, if act == "plan" then "approved" else "to-review")]
      case Plans =>
        var fallback := if act == "execute" then "approved" else "to-review";
        [(fallback, "pending")] + Pending(Without(PRE_TERMINAL, fallback))
      case _ => [(runStatus, SubdirOr(t, runStatus, "pending"))]
    else if t.Plans? then Pending(PRE_TERMINAL)
    else [(runStatus, "pending")]
  }

  // ----- the audit -----

  predicate TypeConflict(s: Step, f: Found) {
    s.queueType.Typed? && f.detected.Some? && f.detected != s.queueType.canonical
  }

  /** The type the allowed pairs are taken for. An explicit queue type is authoritative. */
  function AuditType(s: Step, f: Found): RecordType {
    if s.queueType.Typed? then (if s.queueType.canonical.Some? then s.queueType.canonical.value else Plans)
    else if f.detected.Some? then f.detected.value
    else Plans
  }

  function Pairs(s: Step, f: Found): seq<(string, string)> {
    AllowedPairs(AuditType(s, f), s.action, s.runStatus, s.initialStatus, s.queueType.Typed?)
  }

  /** The file's declared status and disposition are one of the pairs this step allows. */
  predicate Allowed(s: Step, f: Found) {
    f.status.Some? && (f.status.value, Disposition(f)) in Pairs(s, f)
  }

  /** The two published booleans, in the order the code derives them. */
  function Mismatches(s: Step, f: Found): (bool, bool) {
    if TypeConflict(s, f) then (true, true)
    else if Allowed(s, f) then (false, false)
    else
      var pairs := Pairs(s, f);
      var dirAllowed := exists p | p in pairs :: p.1 == Disposition(f);
      var statusAllowed := f.status.Some? && exists p | p in pairs :: p.0 == f.status.value;
      if dirAllowed && statusAllowed
      then (TargetSubdir(AuditType(s, f), f.status.value) != Some(Disposition(f)), true)
      else (!dirAllowed, !statusAllowed)
  }

  predicate HasDiscrepancy(s: Step, f: Found) {
    Mismatches(s, f).0 || Mismatches(s, f).1
  }

  // ----- the classification -----

  datatype Doubt = ConflictingType | Unattributable | UnevidencedRetirement | NotClassified | NoProof(why: Why) | Standing | NoDirection

  datatype Class = Resolved(commit: Commit) | Retired | Regressed | Missing | Unchanged | Unknown(doubt: Doubt)

  /** The type the classification goes by: the queue's, else one detected again, else plans. */
  function ClassType(s: Step, f: Found): RecordType {
    if s.queueType.Typed? && s.queueType.canonical.Some? then s.queueType.canonical.value
    else if f.detectedNearby.Some? then f.detectedNearby.value
    else Plans
  }

  predicate Attributable(s: Step, f: Found) {
    var fields := Naming.Parse(Naming.Canonical, f.name);
    s.id6 == "" || fields.None? || fields.value.id6 == s.id6
  }

  function Declared(f: Found): string {
    if f.status.Some? then f.status.value else ""
  }

  /** What would count as forward progress: a plan in `executed/` needs a finalize; a backlog item or spec
      in an agreeing later state needs a transition into one of the listed states, or a finalize. */
  datatype Goal = Finalized | MovedInto(targets: set<string>)

  function Reached(t: RecordType, act: string, f: Found): Option<Goal> {
    var dir := Disposition(f);
    var agrees := Declared(f) == dir;
    match t
    case Backlog => if agrees && dir in {"graduated", "done"} then Some(MovedInto({"graduated", "done"})) else None
    case Specs =>
      if act == "plan" && agrees && dir in {"implementing", "implemented"} then Some(MovedInto({"implementing", "implemented"}))
      else if act == "review" && agrees && dir in {"reviewed", "approved"} then Some(MovedInto({"reviewed", "approved"}))
      else None
    case Plans => if dir == "executed" then Some(Finalized) else None
    case _ => None
  }

  /** The evidence search for one goal. */
  ghost function Proof(h: History, id6: string, endingHead: Commit, goal: Goal): Search {
    match goal
    case Finalized => SearchFinalize(h, id6, endingHead)
    case MovedInto(targets) =>
      var moved := SearchTransition(h, id6, endingHead, Some(targets));
      var finalized := SearchFinalize(h, id6, endingHead);
      if moved.Miss? && finalized.Hit? then finalized else moved
  }

  /** A recorded success whose artifact is not where that success leaves it. */
  predicate WentBack(t: RecordType, act: string, f: Found) {
    var dir := Disposition(f);
    var settled := (wanted: set<string>) => dir in wanted && Declared(f) == dir;
    match t
    case Backlog => !settled({"graduated", "done"})
    case Specs =>
      || (act == "plan" && !settled({"implementing", "implemented"}))
      || (act == "review" && !settled({"reviewed", "approved"}))
      || (act == "execute" && !settled({"implemented"}))
    case _ => dir != "executed" && !Retirement(dir)
  }

  /** `classify_difference` for the audit of `s` against the file found, if any. */
  ghost function Classify(s: Step, found: Option<Found>, evidence: Option<History>, endingHead: Commit): Class {
    if found.None? then Missing
    else
      var f := found.value;
      if TypeConflict(s, f) then Unknown(ConflictingType)
      else if !HasDiscrepancy(s, f) then Unchanged
      else if !Attributable(s, f) then Unknown(Unattributable)
      else if Retirement(Disposition(f)) then
        if f.banner && Declared(f) == Disposition(f) then Retired else Unknown(UnevidencedRetirement)
      else if Open(s.runStatus) && Reached(ClassType(s, f), s.action, f).Some? then
        if evidence.None? then Unknown(NotClassified)
        else
          match Proof(evidence.value, s.id6, endingHead, Reached(ClassType(s, f), s.action, f).value)
          case Hit(commit) => Resolved(commit)
          case Miss(why) => Unknown(NoProof(why))
      else if Success(s.runStatus) && WentBack(ClassType(s, f), s.action, f) then Regressed
      else if Open(s.runStatus) && Disposition(f) == "reusable" then Unknown(Standing)
      else Unknown(NoDirection)
  }

  // ----- what each verdict means -----

  /** A discrepancy is exactly a pair that is not allowed: the two booleans never cancel out. */
  lemma DiscrepancyIsDisallowed(s: Step, f: Found)
    requires !TypeConflict(s, f)
    ensures HasDiscrepancy(s, f) <==> !Allowed(s, f)
  {
    hide Pairs, Disposition;
  }

  /** `unchanged` is reported exactly for a file that was found, has no type conflict and whose status and
      disposition are an allowed pair. */
  lemma UnchangedExactly(s: Step, found: Option<Found>, evidence: Option<History>, endingHead: Commit)
    ensures Classify(s, found, evidence, endingHead) == Unchanged <==>
            found.Some? && !TypeConflict(s, found.value) && Allowed(s, found.value)
  {
    hide Allowed, HasDiscrepancy, TypeConflict;
    if found.Some? && !TypeConflict(s, found.value) {
      DiscrepancyIsDisallowed(s, found.value);
    }
  }

  /** A lifecycle commit of this artifact that meets the goal, after the head the run ended on. */
  ghost predicate Earned(h: History, id6: string, endingHead: Commit, goal: Goal, c: Commit) {
    || h.IsFinalize(id6, endingHead, c)
    || (goal.MovedInto? && h.IsMove(id6, endingHead, Some(goal.targets), c))
  }

  lemma ProofIsEarned(h: History, id6: string, endingHead: Commit, goal: Goal)
    ensures Proof(h, id6, endingHead, goal).Hit?
            <==> h.RangeProblem(endingHead).None? && exists c :: Earned(h, id6, endingHead, goal, c)
    ensures forall c :: Proof(h, id6, endingHead, goal) == Hit(c) ==> Earned(h, id6, endingHead, goal, c)
  {
    hide SearchFinalize, SearchTransition;
    FinalizeEvidence(h, id6, endingHead);
    if goal.MovedInto? {
      TransitionEvidence(h, id6, endingHead, Some(goal.targets));
      if c :| h.IsMove(id6, endingHead, Some(goal.targets), c) {
        assert Earned(h, id6, endingHead, goal, c);
      }
    }
    if c :| h.IsFinalize(id6, endingHead, c) {
      assert Earned(h, id6, endingHead, goal, c);
    }
  }

  /** The state of the tree in which evidence decides. */
  predicate AwaitsEvidence(s: Step, f: Found) {
    && !TypeConflict(s, f) && !Allowed(s, f) && Attributable(s, f) && !Retirement(Disposition(f))
    && Open(s.runStatus) && Reached(ClassType(s, f), s.action, f).Some?
  }

  /** `resolved` is never inferred from the tree: it is reported exactly when the tree shows forward
      progress and the history holds a lifecycle commit of this artifact inside `endingHead..HEAD`, and
      the commit reported is such a commit. */
  lemma ResolvedExactly(s: Step, found: Option<Found>, evidence: Option<History>, endingHead: Commit)
    ensures Classify(s, found, evidence, endingHead).Resolved? <==>
            && found.Some? && AwaitsEvidence(s, found.value)
            && evidence.Some? && evidence.value.RangeProblem(endingHead).None?
            && exists c :: Earned(evidence.value, s.id6, endingHead, Reached(ClassType(s, found.value), s.action, found.value).value, c)
    ensures forall c :: Classify(s, found, evidence, endingHead) == Resolved(c) ==>
                          Earned(evidence.value, s.id6, endingHead, Reached(ClassType(s, found.value), s.action, found.value).value, c)
  {
    hide Allowed, HasDiscrepancy, TypeConflict, Attributable, Reached, ClassType, Disposition, Open, WentBack, Proof, Earned;
    if found.Some? && !TypeConflict(s, found.value) {
      DiscrepancyIsDisallowed(s, found.value);
      if evidence.Some? && Reached(ClassType(s, found.value), s.action, found.value).Some? {
        ProofIsEarned(evidence.value, s.id6, endingHead, Reached(ClassType(s, found.value), s.action, found.value).value);
      }
    }
  }

  /** The bypass the evidence rule exists for: whatever the tree looks like, if every lifecycle commit of
      the artifact was already visible when the run ended, the verdict is not `resolved`. */
  lemma HandEditIsNotResolved(s: Step, found: Option<Found>, h: History, endingHead: Commit)
    requires forall c | c in h.FinalizedBy(s.id6) :: !h.After(endingHead, c)
    requires forall m | m in h.MovedBy(s.id6) :: !h.After(endingHead, m.0)
    ensures !Classify(s, found, Some(h), endingHead).Resolved?
  {
    hide Classify, AwaitsEvidence, Reached;
    ResolvedExactly(s, found, Some(h), endingHead);
    forall goal, c
      ensures !Earned(h, s.id6, endingHead, goal, c)
    {
    }
  }

  /** A verdict resolved against some head stays resolved against every ancestor of it. */
  lemma ResolvedSurvivesEarlierBound(s: Step, found: Option<Found>, h: History, earlier: Commit, later: Commit)
    requires h.Valid() && earlier != "" && Reaches(h.parents, later, earlier)
    ensures Classify(s, found, Some(h), later).Resolved? ==> Classify(s, found, Some(h), earlier).Resolved?
  {
    hide Classify, Reached;
    ResolvedExactly(s, found, Some(h), later);
    ResolvedExactly(s, found, Some(h), earlier);
    if Classify(s, found, Some(h), later).Resolved? {
      var goal := Reached(ClassType(s, found.value), s.action, found.value).value;
      var c :| Earned(h, s.id6, later, goal, c);
      LaterBoundShrinksRange(h, earlier, later, c);
      assert Earned(h, s.id6, earlier, goal, c);
    }
  }

  /** An artifact in a retirement directory is never reported as regressed or resolved, and it is reported
      as retired exactly when it differs from the record and its own banner and status say so. */
  lemma RetirementVerdicts(s: Step, f: Found, evidence: Option<History>, endingHead: Commit)
    requires Retirement(Disposition(f))
    ensures var c := Classify(s, Some(f), evidence, endingHead); !c.Regressed? && !c.Resolved?
    ensures Classify(s, Some(f), evidence, endingHead) == Retired <==>
            && !TypeConflict(s, f) && !Allowed(s, f) && Attributable(s, f)
            && f.banner && f.status == Some(Disposition(f))
  {
    hide Allowed, HasDiscrepancy, TypeConflict, Attributable;
    if !TypeConflict(s, f) {
      DiscrepancyIsDisallowed(s, f);
    }
  }

  /** An alarm is never raised over a run that had not finished: with an open run status the only alarming
      verdict left is a file that was not found. */
  lemma OpenRunsRaiseNoRegression(s: Step, found: Option<Found>, evidence: Option<History>, endingHead: Commit)
    requires Open(s.runStatus)
    ensures !Classify(s, found, evidence, endingHead).Regressed?
    ensures Classify(s, found, evidence, endingHead) == Missing <==> found.None?
  {
    hide HasDiscrepancy, TypeConflict, Attributable, Reached, ClassType, WentBack, Proof, Disposition;
  }
}
