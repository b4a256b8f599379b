/** The one git pass an audit reads: which commits finalized or moved an artifact, and whether one of
    them lies after the head a run ended on. */
module Evidence {
  import opened Wrappers
  import opened CommitGraph

  /** What a commit subject says. The two subject patterns start differently, so a subject is at most
      one of them. */
  datatype Subject = Finalize(id6: string) | Transition(id6: string, target: string) | Other

  datatype LogRow = LogRow(sha: Commit, parents: seq<Commit>, subject: Subject)

  /** The two git reads: the log, then HEAD. Any failure of the first leaves nothing. */
  datatype GitRead = LogFailed(detail: string) | LogRead(rows: seq<LogRow>, head: Option<Commit>)

  datatype Why = Unavailable | NoEndingHead | HeadUnreachable | NoFinalize | NoTransition

  /** A commit, or the reason there is none. */
  datatype Search = Hit(commit: Commit) | Miss(why: Why)

  /** No target list accepts every target status. */
  predicate Wanted(targets: Option<set<string>>, t: string) {
    targets.None? || t in targets.value
  }

  /** The facts of one pass, without the memo table. */
  datatype History = History(
    available: bool,
    finalized: map<string, seq<Commit>>,
    moved: map<string, seq<(Commit, string)>>,
    parents: Graph,
    headReachable: set<Commit>
  ) {
    function FinalizedBy(id6: string): seq<Commit> {
      if id6 in finalized then finalized[id6] else []
    }

    function MovedBy(id6: string): seq<(Commit, string)> {
      if id6 in moved then moved[id6] else []
    }

    /** `c` lies in the range `endingHead..HEAD`. */
    ghost predicate After(endingHead: Commit, c: Commit) {
      c in headReachable && !Reaches(parents, endingHead, c)
    }

    /** The guards both searches share, in the order they are tested. */
    function RangeProblem(endingHead: Commit): Option<Why> {
      if !available then Some(Unavailable)
      else if endingHead == "" then Some(NoEndingHead)
      else if endingHead !in headReachable then Some(HeadUnreachable)
      else None
    }

    ghost predicate IsFinalize(id6: string, endingHead: Commit, c: Commit) {
      c in FinalizedBy(id6) && After(endingHead, c)
    }

    ghost predicate IsMove(id6: string, endingHead: Commit, targets: Option<set<string>>, c: Commit) {
      After(endingHead, c) && exists t | Wanted(targets, t) :: (c, t) in MovedBy(id6)
    }

    ghost predicate Valid() {
      available ==> exists head :: IsClosure(parents, head, headReachable)
    }
  }

  ghost function FirstFinalize(h: History, endingHead: Commit, commits: seq<Commit>): Search {
    if commits == [] then Miss(NoFinalize)
    else if h.After(endingHead, commits[0]) then Hit(commits[0])
    else FirstFinalize(h, endingHead, commits[1..])
  }

  ghost function FirstMove(h: History, endingHead: Commit, targets: Option<set<string>>, moves: seq<(Commit, string)>): Search {
    if moves == [] then Miss(NoTransition)
    else if h.After(endingHead, moves[0].0) && Wanted(targets, moves[0].1) then Hit(moves[0].0)
    else FirstMove(h, endingHead, targets, moves[1..])
  }

  ghost function SearchFinalize(h: History, id6: string, endingHead: Commit): Search {
    match h.RangeProblem(endingHead)
    case Some(why) => Miss(why)
    case None => FirstFinalize(h, endingHead, h.FinalizedBy(id6))
  }

  ghost function SearchTransition(h: History, id6: string, endingHead: Commit, targets: Option<set<string>>): Search {
    match h.RangeProblem(endingHead)
    case Some(why) => Miss(why)
    case None => FirstMove(h, endingHead, targets, h.MovedBy(id6))
  }

  lemma {:induction false} FirstFinalizeFinds(h: History, endingHead: Commit, commits: seq<Commit>)
    ensures FirstFinalize(h, endingHead, commits).Hit? <==> exists c | c in commits :: h.After(endingHead, c)
    ensures forall c :: FirstFinalize(h, endingHead, commits) == Hit(c) ==> c in commits && h.After(endingHead, c)
  {
    if commits != [] {
      FirstFinalizeFinds(h, endingHead, commits[1..]);
      assert forall c :: c in commits <==> c == commits[0] || c in commits[1..];
    }
  }

  lemma {:induction false} FirstMoveFinds(h: History, endingHead: Commit, targets: Option<set<string>>, moves: seq<(Commit, string)>)
    ensures FirstMove(h, endingHead, targets, moves).Hit?
            <==> exists m | m in moves :: h.After(endingHead, m.0) && Wanted(targets, m.1)
    ensures forall c :: FirstMove(h, endingHead, targets, moves) == Hit(c) ==>
                          h.After(endingHead, c) && exists t | Wanted(targets, t) :: (c, t) in moves
  {
    if moves != [] {
      FirstMoveFinds(h, endingHead, targets, moves[1..]);
      assert forall m :: m in moves <==> m == moves[0] || m in moves[1..];
      assert moves[0] == (moves[0].0, moves[0].1);
    }
  }

  /** A finalize is reported exactly when one exists in the range, and then the commit reported is one. */
  lemma FinalizeEvidence(h: History, id6: string, endingHead: Commit)
    ensures SearchFinalize(h, id6, endingHead).Hit?
            <==> h.RangeProblem(endingHead).None? && exists c :: h.IsFinalize(id6, endingHead, c)
    ensures forall c :: SearchFinalize(h, id6, endingHead) == Hit(c) ==> h.IsFinalize(id6, endingHead, c)
  {
    FirstFinalizeFinds(h, endingHead, h.FinalizedBy(id6));
    if c :| c in h.FinalizedBy(id6) && h.After(endingHead, c) {
      assert h.IsFinalize(id6, endingHead, c);
    }
  }

  lemma TransitionEvidence(h: History, id6: string, endingHead: Commit, targets: Option<set<string>>)
    ensures SearchTransition(h, id6, endingHead, targets).Hit?
            <==> h.RangeProblem(endingHead).None? && exists c :: h.IsMove(id6, endingHead, targets, c)
    ensures forall c :: SearchTransition(h, id6, endingHead, targets) == Hit(c) ==> h.IsMove(id6, endingHead, targets, c)
  {
    FirstMoveFinds(h, endingHead, targets, h.MovedBy(id6));
    if m :| m in h.MovedBy(id6) && h.After(endingHead, m.0) && Wanted(targets, m.1) {
      assert m == (m.0, m.1);
      assert h.IsMove(id6, endingHead, targets, m.0);
    }
  }

  /** Moving the bound to a descendant shrinks the range. */
  lemma LaterBoundShrinksRange(h: History, earlier: Commit, later: Commit, c: Commit)
    requires h.Valid() && h.RangeProblem(later).None? && earlier != "" && Reaches(h.parents, later, earlier)
    ensures h.RangeProblem(earlier).None?
    ensures h.After(later, c) ==> h.After(earlier, c)
  {
    var head :| IsClosure(h.parents, head, h.headReachable);
    ReachesTransitive(h.parents, head, later, earlier);
    if Reaches(h.parents, earlier, c) {
      ReachesTransitive(h.parents, later, earlier, c);
    }
  }

  /** Evidence found against a later head is also found against any ancestor of it: moving the bound
      forward can only lose evidence. */
  lemma LaterBoundLosesEvidence(h: History, id6: string, earlier: Commit, later: Commit, targets: Option<set<string>>)
    requires h.Valid() && earlier != "" && Reaches(h.parents, later, earlier)
    ensures SearchFinalize(h, id6, later).Hit? ==> SearchFinalize(h, id6, earlier).Hit?
    ensures SearchTransition(h, id6, later, targets).Hit? ==> SearchTransition(h, id6, earlier, targets).Hit?
  {
    FinalizeEvidence(h, id6, later);
    FinalizeEvidence(h, id6, earlier);
    TransitionEvidence(h, id6, later, targets);
    TransitionEvidence(h, id6, earlier, targets);
    if h.RangeProblem(later).None? {
      forall c {
        LaterBoundShrinksRange(h, earlier, later, c);
      }
      if c :| h.IsFinalize(id6, later, c) {
        assert h.IsFinalize(id6, earlier, c);
      }
      if c :| h.IsMove(id6, later, targets, c) {
        assert h.IsMove(id6, earlier, targets, c);
      }
    }
  }

  /** A commit the run had already seen is never evidence: an old finalize authorizes nothing. */
  lemma OldFinalizeIsNoEvidence(h: History, id6: string, endingHead: Commit)
    requires forall c | c in h.FinalizedBy(id6) :: Reaches(h.parents, endingHead, c)
    ensures SearchFinalize(h, id6, endingHead).Miss?
  {
    FinalizeEvidence(h, id6, endingHead);
  }

  // ----- what one log pass records -----

  function FinalizeShas(rows: seq<LogRow>, id6: string): seq<Commit> {
    if rows == [] then []
    else
      var rest := FinalizeShas(rows[..|rows| - 1], id6);
      var last := rows[|rows| - 1];
      if last.sha != "" && last.subject == Finalize(id6) then rest + [last.sha] else rest
  }

  function MoveShas(rows: seq<LogRow>, id6: string): seq<(Commit, string)> {
    if rows == [] then []
    else
      var rest := MoveShas(rows[..|rows| - 1], id6);
      var last := rows[|rows| - 1];
      if last.sha != "" && last.subject.Transition? && last.subject.id6 == id6
      then rest + [(last.sha, last.subject.target)] else rest
  }

  /** Later rows win, as a Python dict assignment does. */
  function ParentMap(rows: seq<LogRow>): Graph {
    if rows == [] then map[]
    else
      var rest := ParentMap(rows[..|rows| - 1]);
      var last := rows[|rows| - 1];
      if last.sha != "" then rest[last.sha := last.parents] else rest
  }

  /** Every recorded finalize comes from a log row with that subject. */
  lemma {:induction false} FinalizeShaHasRow(rows: seq<LogRow>, id6: string, c: Commit)
    ensures c in FinalizeShas(rows, id6) <==>
            exists row | row in rows :: row.sha == c != "" && row.subject == Finalize(id6)
  {
    if rows != [] {
      FinalizeShaHasRow(rows[..|rows| - 1], id6, c);
      assert forall row :: row in rows <==> row in rows[..|rows| - 1] || row == rows[|rows| - 1];
    }
  }

  lemma {:induction false} MoveShaHasRow(rows: seq<LogRow>, id6: string, c: Commit, target: string)
    ensures (c, target) in MoveShas(rows, id6) <==>
            exists row | row in rows :: row.sha == c != "" && row.subject == Transition(id6, target)
  {
    if rows != [] {
      MoveShaHasRow(rows[..|rows| - 1], id6, c, target);
      assert forall row :: row in rows <==> row in rows[..|rows| - 1] || row == rows[|rows| - 1];
    }
  }

  /** Row `i` is the last one of its commit; in a log, where no commit is listed twice, every row is. */
  predicate LastRow(rows: seq<LogRow>, i: nat) {
    i < |rows| && rows[i].sha != "" && forall j | i < j < |rows| :: rows[j].sha != rows[i].sha
  }

  /** Each listed commit has exactly the parents of its row, all of them and in order, and no other commit has any. */
  ghost predicate ParentsOfRows(g: Graph, rows: seq<LogRow>) {
    && (forall i: nat | LastRow(rows, i) :: rows[i].sha in g && g[rows[i].sha] == rows[i].parents)
    && (forall c | c in g :: exists i: nat :: LastRow(rows, i) && rows[i].sha == c)
  }

  /** One more row: it is the last of its commit, and every other commit keeps its last row. */
  lemma LastRowOfMore(rows: seq<LogRow>, i: nat)
    requires rows != []
    ensures var n := |rows| - 1;
            LastRow(rows, i) <==> if i == n then rows[n].sha != "" else LastRow(rows[..n], i) && rows[n].sha != rows[i].sha
  {
    var init := rows[..|rows| - 1];
    assert forall j | 0 <= j < |init| :: init[j] == rows[j];
  }

  lemma {:induction false} ParentMapIsOfRows(rows: seq<LogRow>)
    ensures ParentsOfRows(ParentMap(rows), rows)
  {
    if rows != [] {
      var init := rows[..|rows| - 1];
      ParentMapIsOfRows(init);
      ParentsOfMore(rows, ParentMap(init));
    }
  }

  lemma ParentsOfMore(rows: seq<LogRow>, g: Graph)
    requires rows != [] && ParentsOfRows(g, rows[..|rows| - 1])
    ensures var last := rows[|rows| - 1]; ParentsOfRows(if last.sha != "" then g[last.sha := last.parents] else g, rows)
  {
    hide LastRow;
    var n := |rows| - 1;
    var init, last := rows[..n], rows[n];
    var more := if last.sha != "" then g[last.sha := last.parents] else g;
    forall i: nat
      ensures LastRow(rows, i) ==> i < |rows| && rows[i].sha != "" && if i == n then true else LastRow(init, i) && last.sha != rows[i].sha
      ensures LastRow(init, i) ==> i < n && init[i] == rows[i] && rows[i].sha != "" && (last.sha != rows[i].sha ==> LastRow(rows, i))
    {
      LastRowOfMore(rows, i);
      LastRowIs(rows, i);
      LastRowIs(init, i);
    }
    forall c | c in more
      ensures exists i: nat :: LastRow(rows, i) && rows[i].sha == c
    {
      if c == last.sha && last.sha != "" {
        LastRowOfMore(rows, n);
        assert LastRow(rows, n);
      } else {
        var i: nat :| LastRow(init, i) && init[i].sha == c;
        assert LastRow(rows, i);
      }
    }
  }

  lemma LastRowIs(rows: seq<LogRow>, i: nat)
    ensures LastRow(rows, i) ==> i < |rows| && rows[i].sha != ""
  {
  }

  // ----- descent, read off the rows -----

  /** The row of `c` lists `parent`. */
  ghost predicate Lists(rows: seq<LogRow>, c: Commit, parent: Commit) {
    exists i: nat :: LastRow(rows, i) && rows[i].sha == c && parent in rows[i].parents
  }

  ghost predicate IsTrail(rows: seq<LogRow>, trail: seq<Commit>) {
    trail != [] && forall i :: 0 <= i < |trail| - 1 ==> Lists(rows, trail[i], trail[i + 1])
  }

  /** `to` is `from` itself, or comes of it by going from row to row through any listed parents. */
  ghost predicate Descends(rows: seq<LogRow>, from: Commit, to: Commit) {
    exists trail | IsTrail(rows, trail) :: trail[0] == from && trail[|trail| - 1] == to
  }

  lemma ListsExactly(g: Graph, rows: seq<LogRow>, c: Commit, parent: Commit)
    requires ParentsOfRows(g, rows)
    ensures parent in Parents(g, c) <==> Lists(rows, c, parent)
  {
    if parent in Parents(g, c) {
      var i: nat :| LastRow(rows, i) && rows[i].sha == c;
      assert g[c] == rows[i].parents;
    }
    if Lists(rows, c, parent) {
      var i: nat :| LastRow(rows, i) && rows[i].sha == c && parent in rows[i].parents;
      assert g[rows[i].sha] == rows[i].parents;
    }
  }

  lemma DescendsExactly(g: Graph, rows: seq<LogRow>, from: Commit, to: Commit)
    requires ParentsOfRows(g, rows)
    ensures Reaches(g, from, to) <==> Descends(rows, from, to)
  {
    hide ParentsOfRows, Lists, Parents;
    forall c, parent {
      ListsExactly(g, rows, c, parent);
    }
    forall path: seq<Commit>
      ensures IsPath(g, path) <==> IsTrail(rows, path)
    {
    }
  }

  /** `h` is what the log pass over `rows` with a resolved `head` must record. */
  ghost predicate Records(h: History, rows: seq<LogRow>, head: Commit) {
    && h.available
    && ParentsOfRows(h.parents, rows)
    && (forall c :: c in h.headReachable <==> Descends(rows, head, c))
    && (forall id6 :: h.FinalizedBy(id6) == FinalizeShas(rows, id6))
    && (forall id6 :: h.MovedBy(id6) == MoveShas(rows, id6))
  }

  /** When each commit is listed once, the index has exactly its row's parents for it, and no other commit has any. */
  lemma ParentsAreThoseListed(h: History, rows: seq<LogRow>, head: Commit)
    requires Records(h, rows, head) && forall j, k | 0 <= j < k < |rows| :: rows[j].sha != rows[k].sha
    ensures forall i | 0 <= i < |rows| && rows[i].sha != "" :: rows[i].sha in h.parents && h.parents[rows[i].sha] == rows[i].parents
    ensures forall c | c in h.parents :: c != "" && exists i | 0 <= i < |rows| :: rows[i].sha == c
  {
    hide Descends, FinalizeShas, MoveShas;
    forall i | 0 <= i < |rows| && rows[i].sha != ""
      ensures LastRow(rows, i)
    {
    }
  }

  // ----- from the rows to the answer -----

  /** A row that finalizes the artifact between the ending head and HEAD. */
  ghost predicate Finalizes(rows: seq<LogRow>, head: Commit, id6: string, endingHead: Commit, row: LogRow) {
    row.sha != "" && row.subject == Finalize(id6) && Descends(rows, head, row.sha) && !Descends(rows, endingHead, row.sha)
  }

  ghost predicate Moves(rows: seq<LogRow>, head: Commit, id6: string, endingHead: Commit, targets: Option<set<string>>, row: LogRow) {
    && row.sha != "" && row.subject.Transition? && row.subject.id6 == id6 && Wanted(targets, row.subject.target)
    && Descends(rows, head, row.sha) && !Descends(rows, endingHead, row.sha)
  }

  /** The rows the two searches look for, on the facts recorded. */
  ghost predicate FinalizesAfter(h: History, endingHead: Commit, id6: string, row: LogRow) {
    row.sha != "" && row.subject == Finalize(id6) && h.After(endingHead, row.sha)
  }

  ghost predicate MovesAfter(h: History, endingHead: Commit, targets: Option<set<string>>, id6: string, row: LogRow) {
    && row.sha != "" && row.subject.Transition? && row.subject.id6 == id6 && Wanted(targets, row.subject.target)
    && h.After(endingHead, row.sha)
  }

  lemma {:induction false} FirstFinalizeSnoc(h: History, endingHead: Commit, commits: seq<Commit>, c: Commit)
    ensures FirstFinalize(h, endingHead, commits + [c])
            == if FirstFinalize(h, endingHead, commits).Hit? then FirstFinalize(h, endingHead, commits)
               else if h.After(endingHead, c) then Hit(c) else Miss(NoFinalize)
  {
    if commits == [] {
      assert [] + [c] == [c] && [c][1..] == [];
    } else {
      assert (commits + [c])[1..] == commits[1..] + [c];
      FirstFinalizeSnoc(h, endingHead, commits[1..], c);
    }
  }

  lemma {:induction false} FirstMoveSnoc(h: History, endingHead: Commit, targets: Option<set<string>>, moves: seq<(Commit, string)>, m: (Commit, string))
    ensures FirstMove(h, endingHead, targets, moves + [m])
            == if FirstMove(h, endingHead, targets, moves).Hit? then FirstMove(h, endingHead, targets, moves)
               else if h.After(endingHead, m.0) && Wanted(targets, m.1) then Hit(m.0) else Miss(NoTransition)
  {
    if moves == [] {
      assert [] + [m] == [m] && [m][1..] == [];
    } else {
      assert (moves + [m])[1..] == moves[1..] + [m];
      FirstMoveSnoc(h, endingHead, targets, moves[1..], m);
    }
  }

  /** The search over the shas is the search over the rows. */
  lemma {:induction false} FirstFinalizeRow(h: History, endingHead: Commit, rows: seq<LogRow>, id6: string)
    ensures match FirstFinalize(h, endingHead, FinalizeShas(rows, id6))
            case Hit(c) => exists i | 0 <= i < |rows| ::
              FinalizesAfter(h, endingHead, id6, rows[i]) && rows[i].sha == c && forall j | 0 <= j < i :: !FinalizesAfter(h, endingHead, id6, rows[j])
            case Miss(why) => why == NoFinalize && forall i | 0 <= i < |rows| :: !FinalizesAfter(h, endingHead, id6, rows[i])
  {
    hide *;
    LastFinalize(h, endingHead, rows, id6);
    if rows != [] {
      var n := |rows| - 1;
      var init := rows[..n];
      assert forall j | 0 <= j < n :: init[j] == rows[j];
      FirstFinalizeRow(h, endingHead, init, id6);
    }
  }

  /** The last row decides only when none before it did. */
  lemma LastFinalize(h: History, endingHead: Commit, rows: seq<LogRow>, id6: string)
    ensures FirstFinalize(h, endingHead, FinalizeShas(rows, id6))
            == if rows == [] then Miss(NoFinalize)
               else if FirstFinalize(h, endingHead, FinalizeShas(rows[..|rows| - 1], id6)).Hit? then FirstFinalize(h, endingHead, FinalizeShas(rows[..|rows| - 1], id6))
               else if FinalizesAfter(h, endingHead, id6, rows[|rows| - 1]) then Hit(rows[|rows| - 1].sha) else Miss(NoFinalize)
  {
    if rows != [] {
      var row, shas := rows[|rows| - 1], FinalizeShas(rows[..|rows| - 1], id6);
      FirstFinalizeSnoc(h, endingHead, shas, row.sha);
      FirstFinalizeMisses(h, endingHead, shas);
      hide FirstFinalize;
    }
  }

  lemma {:induction false} FirstFinalizeMisses(h: History, endingHead: Commit, found: seq<Commit>)
    ensures FirstFinalize(h, endingHead, found).Miss? ==> FirstFinalize(h, endingHead, found) == Miss(NoFinalize)
  {
    if found != [] {
      FirstFinalizeMisses(h, endingHead, found[1..]);
    }
  }

  lemma {:induction false} FirstMoveRow(h: History, endingHead: Commit, targets: Option<set<string>>, rows: seq<LogRow>, id6: string)
    ensures match FirstMove(h, endingHead, targets, MoveShas(rows, id6))
            case Hit(c) => exists i | 0 <= i < |rows| ::
              MovesAfter(h, endingHead, targets, id6, rows[i]) && rows[i].sha == c && forall j | 0 <= j < i :: !MovesAfter(h, endingHead, targets, id6, rows[j])
            case Miss(why) => why == NoTransition && forall i | 0 <= i < |rows| :: !MovesAfter(h, endingHead, targets, id6, rows[i])
  {
    hide *;
    LastMove(h, endingHead, targets, rows, id6);
    if rows != [] {
      var n := |rows| - 1;
      var init := rows[..n];
      assert forall j | 0 <= j < n :: init[j] == rows[j];
      FirstMoveRow(h, endingHead, targets, init, id6);
    }
  }

  /** The last row decides only when none before it did. */
  lemma LastMove(h: History, endingHead: Commit, targets: Option<set<string>>, rows: seq<LogRow>, id6: string)
    ensures FirstMove(h, endingHead, targets, MoveShas(rows, id6))
            == if rows == [] then Miss(NoTransition)
               else if FirstMove(h, endingHead, targets, MoveShas(rows[..|rows| - 1], id6)).Hit? then FirstMove(h, endingHead, targets, MoveShas(rows[..|rows| - 1], id6))
               else if MovesAfter(h, endingHead, targets, id6, rows[|rows| - 1]) then Hit(rows[|rows| - 1].sha) else Miss(NoTransition)
  {
    if rows != [] {
      var row, shas := rows[|rows| - 1], MoveShas(rows[..|rows| - 1], id6);
      if row.subject.Transition? {
        FirstMoveSnoc(h, endingHead, targets, shas, (row.sha, row.subject.target));
      }
      FirstMoveMisses(h, endingHead, targets, shas);
      hide FirstMove;
    }
  }

  lemma {:induction false} FirstMoveMisses(h: History, endingHead: Commit, targets: Option<set<string>>, found: seq<(Commit, string)>)
    ensures FirstMove(h, endingHead, targets, found).Miss? ==> FirstMove(h, endingHead, targets, found) == Miss(NoTransition)
  {
    if found != [] {
      FirstMoveMisses(h, endingHead, targets, found[1..]);
    }
  }

  lemma AfterIsRange(h: History, rows: seq<LogRow>, head: Commit, endingHead: Commit, c: Commit)
    requires Records(h, rows, head)
    ensures h.After(endingHead, c) <==> Descends(rows, head, c) && !Descends(rows, endingHead, c)
  {
    hide ParentsOfRows, Descends, Reaches;
    DescendsExactly(h.parents, rows, endingHead, c);
  }

  /** From the log rows to the verdict: the commit reported is that of the first row, in log order, that finalizes the
      artifact between the ending head and HEAD, and none is reported exactly when there is no such row. */
  lemma ReportedFinalizeIsInTheLog(h: History, rows: seq<LogRow>, head: Commit, id6: string, endingHead: Commit)
    requires Records(h, rows, head)
    ensures var found := SearchFinalize(h, id6, endingHead);
            if endingHead == "" then found == Miss(NoEndingHead)
            else if !Descends(rows, head, endingHead) then found == Miss(HeadUnreachable)
            else
              match found
              case Hit(c) => exists i | 0 <= i < |rows| ::
                Finalizes(rows, head, id6, endingHead, rows[i]) && rows[i].sha == c && forall j | 0 <= j < i :: !Finalizes(rows, head, id6, endingHead, rows[j])
              case Miss(why) => why == NoFinalize && forall i | 0 <= i < |rows| :: !Finalizes(rows, head, id6, endingHead, rows[i])
  {
    hide ParentsOfRows, Descends, FirstFinalize, FinalizeShas;
    forall row
      ensures FinalizesAfter(h, endingHead, id6, row) <==> Finalizes(rows, head, id6, endingHead, row)
    {
      AfterIsRange(h, rows, head, endingHead, row.sha);
    }
    FirstFinalizeRow(h, endingHead, rows, id6);
  }

  /** The same for moves into the wanted dispositions. */
  lemma ReportedMoveIsInTheLog(h: History, rows: seq<LogRow>, head: Commit, id6: string, endingHead: Commit, targets: Option<set<string>>)
    requires Records(h, rows, head)
    ensures var found := SearchTransition(h, id6, endingHead, targets);
            if endingHead == "" then found == Miss(NoEndingHead)
            else if !Descends(rows, head, endingHead) then found == Miss(HeadUnreachable)
            else
              match found
              case Hit(c) => exists i | 0 <= i < |rows| ::
                Moves(rows, head, id6, endingHead, targets, rows[i]) && rows[i].sha == c && forall j | 0 <= j < i :: !Moves(rows, head, id6, endingHead, targets, rows[j])
              case Miss(why) => why == NoTransition && forall i | 0 <= i < |rows| :: !Moves(rows, head, id6, endingHead, targets, rows[i])
  {
    hide ParentsOfRows, Descends, FirstMove, MoveShas;
    forall row
      ensures MovesAfter(h, endingHead, targets, id6, row) <==> Moves(rows, head, id6, endingHead, targets, row)
    {
      AfterIsRange(h, rows, head, endingHead, row.sha);
    }
    FirstMoveRow(h, endingHead, targets, rows, id6);
  }

  /** What the walk keeps: it never leaves the ancestors, and every parent of a commit already seen is
      seen or waiting. */
  ghost predicate Walking(g: Graph, ancestors: set<Commit>, seen: set<Commit>, stack: seq<Commit>) {
    && seen <= ancestors
    && (forall c | c in stack :: c in ancestors)
    && forall c | c in seen :: forall p | p in Parents(g, c) :: p in seen || p in stack
  }

  lemma WalkStep(g: Graph, ancestors: set<Commit>, seen: set<Commit>, rest: seq<Commit>, cur: Commit)
    requires Walking(g, ancestors, seen, rest + [cur]) && ClosedUnderParents(g, ancestors)
    ensures cur in ancestors
    ensures cur in seen ==> Walking(g, ancestors, seen, rest)
    ensures Walking(g, ancestors, seen + {cur}, rest + Parents(g, cur))
  {
    assert cur in rest + [cur];
  }

  lemma Popped<T>(s: seq<T>)
    requires s != []
    ensures s == s[..|s| - 1] + [s[|s| - 1]]
  {
  }

  lemma FewerLeft(universe: set<Commit>, seen: set<Commit>, cur: Commit)
    requires cur in universe && cur !in seen
    ensures |universe - (seen + {cur})| < |universe - seen|
  {
    assert universe - seen == (universe - (seen + {cur})) + {cur};
  }

  /** The work list walk: a stack and a set of commits already met. Terminates on any parent map,
      cyclic or not, and returns exactly the closure. */
  method Walk(g: Graph, commit: Commit) returns (seen: set<Commit>)
    ensures IsClosure(g, commit, seen)
  {
    ghost var ancestors := Ancestors(g, commit);
    AncestorsAreClosed(g, commit);
    seen := {};
    var stack := [commit];
    while stack != []
      invariant commit in seen || commit in stack
      invariant Walking(g, ancestors, seen, stack)
      decreases |ancestors - seen|, |stack|
    {
      var cur, rest := stack[|stack| - 1], stack[..|stack| - 1];
      Popped(stack);
      WalkStep(g, ancestors, seen, rest, cur);
      stack := rest;
      if cur !in seen {
        FewerLeft(ancestors, seen, cur);
        seen := seen + {cur};
        stack := rest + Parents(g, cur);
      }
    }
    ClosedReachableSetIsClosure(g, commit, seen);
  }

  class FinalizeEvidenceIndex {
    var available: bool
    var finalizeCommits: map<string, seq<Commit>>
    var transitionCommits: map<string, seq<(Commit, string)>>
    var parents: Graph
    var headReachable: set<Commit>
    var ancestorCache: map<Commit, set<Commit>>

    function Facts(): History
      reads this
    {
      History(available, finalizeCommits, transitionCommits, parents, headReachable)
    }

    /** Every memo entry is the closure it stands for. */
    ghost predicate Valid()
      reads this
    {
      && Facts().Valid()
      && forall c | c in ancestorCache :: IsClosure(parents, c, ancestorCache[c])
    }

    /** Reads the log and then HEAD. Whatever fails, nothing is ever available by accident. */
    constructor Read(git: GitRead)
      ensures Valid()
      ensures available <==> git.LogRead? && git.head.Some?
      ensures available ==> Records(Facts(), git.rows, git.head.value)
    {
      available := false;
      finalizeCommits := map[];
      transitionCommits := map[];
      parents := map[];
      headReachable := {};
      ancestorCache := map[];
      new;
      if git.LogRead? {
        LoadRows(git.rows);
        if git.head.Some? {
          var reachable := AncestorsOf(git.head.value);
          headReachable := reachable;
          available := true;
          RowsAreRecorded(git.rows, git.head.value);
        }
      }
    }

    lemma RowsAreRecorded(rows: seq<LogRow>, head: Commit)
      requires available && parents == ParentMap(rows) && IsClosure(parents, head, headReachable)
      requires forall id6 :: Facts().FinalizedBy(id6) == FinalizeShas(rows, id6)
      requires forall id6 :: Facts().MovedBy(id6) == MoveShas(rows, id6)
      ensures Records(Facts(), rows, head)
    {
      hide Reaches, Descends, ParentsOfRows, ParentMap, FinalizeShas, MoveShas;
      ParentMapIsOfRows(rows);
      forall c {
        DescendsExactly(parents, rows, head, c);
      }
    }

    method LoadRows(rows: seq<LogRow>)
      requires !available && finalizeCommits == map[] && transitionCommits == map[] && parents == map[]
      requires ancestorCache == map[]
      modifies this
      ensures !available && ancestorCache == map[] && Valid()
      ensures parents == ParentMap(rows)
      ensures forall id6 :: Facts().FinalizedBy(id6) == FinalizeShas(rows, id6)
      ensures forall id6 :: Facts().MovedBy(id6) == MoveShas(rows, id6)
    {
      hide IsClosure;
      for n := 0 to |rows|
        invariant !available && ancestorCache == map[]
        invariant parents == ParentMap(rows[..n])
        invariant forall id6 :: Facts().FinalizedBy(id6) == FinalizeShas(rows[..n], id6)
        invariant forall id6 :: Facts().MovedBy(id6) == MoveShas(rows[..n], id6)
      {
        var row := rows[n];
        assert rows[..n + 1][..n] == rows[..n] && rows[..n + 1][n] == row;
        hide Reaches;
        if row.sha != "" {
          parents := parents[row.sha := row.parents];
          match row.subject
          case Finalize(id6) =>
            finalizeCommits := finalizeCommits[id6 := Facts().FinalizedBy(id6) + [row.sha]];
          case Transition(id6, target) =>
            transitionCommits := transitionCommits[id6 := Facts().MovedBy(id6) + [(row.sha, target)]];
          case Other =>
        }
      }
      assert rows[..|rows|] == rows;
    }

    /** The memoised walk: the answer is the closure whether it is computed or remembered, an old memo
        entry is never replaced by a different one, and only the asked commit gains one. */
    method AncestorsOf(commit: Commit) returns (ancestors: set<Commit>)
      requires Valid()
      modifies this`ancestorCache
      ensures Valid()
      ensures IsClosure(parents, commit, ancestors)
      ensures ancestorCache == old(ancestorCache)[commit := ancestors]
      ensures commit in old(ancestorCache) ==> ancestors == old(ancestorCache)[commit]
    {
      if commit in ancestorCache {
        return ancestorCache[commit];
      }
      var seen := Walk(parents, commit);
      ancestorCache := ancestorCache[commit := seen];
      return seen;
    }

    method FinalizeAfter(id6: string, endingHead: Commit) returns (found: Search)
      requires Valid()
      modifies this`ancestorCache
      ensures Valid()
      ensures found == SearchFinalize(Facts(), id6, endingHead)
    {
      var problem := Facts().RangeProblem(endingHead);
      if problem.Some? {
        return Miss(problem.value);
      }
      var before := AncestorsOf(endingHead);
      var commits := Facts().FinalizedBy(id6);
      for n := 0 to |commits|
        invariant FirstFinalize(Facts(), endingHead, commits) == FirstFinalize(Facts(), endingHead, commits[n..])
      {
        if commits[n] in headReachable && commits[n] !in before {
          return Hit(commits[n]);
        }
      }
      return Miss(NoFinalize);
    }

    method TransitionAfter(id6: string, endingHead: Commit, targets: Option<set<string>>) returns (found: Search)
      requires Valid()
      modifies this`ancestorCache
      ensures Valid()
      ensures found == SearchTransition(Facts(), id6, endingHead, targets)
    {
      var problem := Facts().RangeProblem(endingHead);
      if problem.Some? {
        return Miss(problem.value);
      }
      var before := AncestorsOf(endingHead);
      var moves := Facts().MovedBy(id6);
      for n := 0 to |moves|
        invariant FirstMove(Facts(), endingHead, targets, moves) == FirstMove(Facts(), endingHead, targets, moves[n..])
      {
        if moves[n].0 in headReachable && moves[n].0 !in before && Wanted(targets, moves[n].1) {
          return Hit(moves[n].0);
        }
      }
      return Miss(NoTransition);
    }
  }
}
