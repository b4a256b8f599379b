# Verification of the artifact and run machinery of agent-workflows

Records of planned work live in a repository as dated markdown files. Tools name and rename them, rewrite the
citations of a renamed file, adopt foreign documents, audit whether a record really reached the state its tree
position claims, and drive a queue of them through agent turns. This project models that machinery in Dafny and
proves what it keeps.

| area | files |
|---|---|
| commit evidence, audit verdicts, lookup cache | `CommitGraph`, `Evidence`, `Audit`, `AuditTable`, `IndexCache`, `Lookups` |
| names and renames | `Text`, `Kebab`, `Naming`, `Rename` |
| masking and rewriting citations | `Rewriting`, `Masking`, `Links`, `Unmasking`, `UnmaskLayers`, `UnmaskExact`, `UnmaskLimits` |
| planning a rename's citations | `Citations`, `RecordNames`, `RefPlan`, `RefApply`, `FreeStretches`, `RefClean`, `RefResidue` |
| what a rename makes of its citations | `OnePass`, `NamePlaces`, `RefRenamed` |
| set metadata and the markdown writer | `Markdown`, `FileLines`, `SetMetadata`, `MetadataLines`, `MetadataSettled`, `MetadataMade`, `MetadataKept`, `SetMetadataTwice` |
| the dispatch loop | `Dispatch` (state machine), `Cascade`, `RunQueue` (the loop in place), `RunHistory`, `RunSafety`, `RunRecords`, `RunDrain` |
| the incremental transcript reader | `Transcript`, `TranscriptExact` |
| adopting a document | `Adoption` |
| agent records | `AgentSchema`, `AgentRecords`, `AgentRender` |
| ablation schedules and comparisons | `Ablation`, `Comparison` |
| rendering paths | `RepoPath` |

`dafny verify dfyconfig.toml` checks everything.

How the outside world enters:

- Git history is a parent map and log rows. A directory signature is the watched tree itself, and the files of a record
  type are any function of the names in that tree, the same function as long as the repository is.
- One pass of the dispatch loop sees a `Tick`: the stop level polled, the queue as reloaded, where each plan lies and
  what its status field says, what the shared helpers decided and how the turn ended. What the loop or a helper computes
  from these is computed: whether each edge is met (from the disk alone, as the code does), which dependents a failed
  plan of the queue blocks, that a stop request rules out a restart, and that only a parked item can earn another round
  of questions. A run is any sequence of ticks, so every claim about runs holds for every finite prefix of every run.
- Two claims name what they ask of the world. `RunSafety.DispatchFollowsEdges` asks, pass by pass, that a plan the run
  has not started does not come to satisfy an edge; a plan finished by another run, or merged from an earlier one, would.
  `RunRecords.StopUnrecordedExactly` asks that a stop request, once readable, stays readable.
- Disk failures are flags naming the step that fails; the model keeps every intermediate state of the disk, so a claim
  about all of them covers a process cut at any point.
- The detectors for escape codes and home paths, and the reduction of a violation to its rule text, are parameters.
- `random.shuffle` takes its draws, and `sorted` over cells takes its result, as parameters.
- Where `\d` is matched only the ten ASCII digits count; Python also accepts other Unicode digits.

## Where the code and its documentation differ

The model follows the code. Each of these has a lemma.

- **Masking does not always invert.** A fenced block directly followed by a line starting with the permalink token's
  label and a number, and then a Markdown permalink whose label holds a space, is read back wrongly although the text
  has no NUL (`UnmaskLimits.LostText`). The exact condition is in `UnmaskExact.UnmaskInvertsMaskExactly`, for each layer
  on every text in `UnmaskLayers.LayersInvertExactly`, and `UnmaskLimits.LabelFreeTextSurvives` gives a check that needs
  no masking.
- **Recording a set is not idempotent** when a normalised bullet file's first `## ` line is an empty heading: stripping
  turns it into `##`, which ends no front matter the second time (`SetMetadataTwice.SecondCallChangesThis`).
- **A lookup with a caller's index can answer falsely**, from another cached index that is stale too, because the second
  pass is not verified (`Lookups.CallerIndexCanAnswerFalsely`). A rebuilt stale key keeps its old place in the cache
  order (`IndexCache.RebuiltEntryKeepsItsPlace`).
- **A rename can leave a citation of the old name** when one name ends with the other (`RefResidue.SuffixLeavesCitation`).
- **A slug rename can move a legacy name into the clustered grammar** (`Rename.LegacyRenameTurnsClustered`), and
  `--to-id6` on a legacy name ignores `--set` and `--order` (`Rename.ConversionIgnoresSetAndOrder`).
- **The deliberate stop is recorded at boundaries only**: a run that ends inside a turn, on an interrupt or on a runaway
  leaves out the stop it observed (`RunRecords.StopUnrecordedExactly`, `RunRecords.ForcedTurnLeavesStopUnrecorded`). And
  the record lists what was deliberately not started, yet after a stop recorded when the queue drains an item can start
  once a parked question is answered (`RunRecords.DispatchAfterRecordExactly`,
  `RunRecords.AnsweredPlanStartsAfterRecord`).
- **The transcript cache differs from a scan** on repeated step indexes and behind a record whose index cannot be a key;
  the exact condition is in `TranscriptExact.ReaderIsExactExactly`.
- **An adopted body is not byte-identical** when the drop has carriage returns, since reading as text translates them
  (`Adoption.DropIsKeptExactly`), and an overwritten destination is deleted, not restored, when the refresh fails
  (`Adoption.ErrorsRestoreExactly`).
- **Guarded rendering raises on a value that is not an object**, although its fallback expects one
  (`AgentRender.RaisesExactly`).
- **Paired comparisons pool cells with different timeouts**, which the documentation says must match
  (`Comparison.TimeoutsArePooled`).

## Model

| member | source | states |
|---|---|---|
| `Evidence.Walk` | agent_workflows/artifact_audit.py:268-287 | The stack-and-set walk terminates on every parent map, cyclic or not, and returns exactly the commits reachable through parents, the start included |
| `Evidence.FinalizeEvidenceIndex.Read` | agent_workflows/artifact_audit.py:370-447 | The index records the log rows exactly: for each commit all parents of its last row and for no other commit any, as reachable from HEAD what the rows lead to, and the finalizes and moves in log order; whatever read fails, no evidence is ever available by accident |
| `Evidence.ParentsAreThoseListed` | agent_workflows/artifact_audit.py:405-425 | For rows with distinct commits each commit has exactly its row's parents, merges included, and no other commit has any |
| `Evidence.DescendsExactly` | agent_workflows/artifact_audit.py:268-287 | Reachability on the parent map is following parents from row to row of the log |
| `Evidence.FinalizeEvidenceIndex.AncestorsOf` | agent_workflows/artifact_audit.py:268-287 | The memoised answer is the closure whether computed or remembered; no memo entry ever changes, every entry stays a closure, and only the asked commit gains one |
| `Evidence.FinalizeEvidenceIndex.FinalizeAfter` | agent_workflows/artifact_audit.py:289-318 | The loop over recorded finalizes returns the search result on the history, with the memo kept equal to closures |
| `Evidence.FinalizeEvidenceIndex.TransitionAfter` | agent_workflows/artifact_audit.py:320-346 | The same for recorded moves into the wanted dispositions |
| `Evidence.FinalizeEvidence` | agent_workflows/artifact_audit.py:289-318 | A finalize is reported if and only if one for that id6 is reachable from HEAD and outside the ancestors of the ending head, and the commit reported is such a one |
| `Evidence.TransitionEvidence` | agent_workflows/artifact_audit.py:320-346 | The same if-and-only-if for a recorded transition |
| `Evidence.LaterBoundLosesEvidence` | agent_workflows/artifact_audit.py:289-346 | Moving the ending head to a descendant can only lose evidence |
| `Evidence.OldFinalizeIsNoEvidence` | agent_workflows/artifact_audit.py:289-318 | When every finalize of an id6 was visible at the run end, none is reported |
| `Evidence.ReportedFinalizeIsInTheLog` | agent_workflows/artifact_audit.py:289-447 | From log rows to verdict, every outcome: the commit reported is that of the first row in log order with that finalize subject which HEAD descends to along the rows' parents and the ending head does not, and none is reported exactly when there is no such row |
| `Evidence.ReportedMoveIsInTheLog` | agent_workflows/artifact_audit.py:320-447 | The same for the first row that moves the artifact into a wanted disposition |
| `CommitGraph.ClosedReachableSetIsClosure` | agent_workflows/artifact_audit.py:268-287 | A set holding the start, closed under parents and holding only ancestors is the reflexive-transitive closure |
| `CommitGraph.ClosureOfAncestorIsSmaller` | agent_workflows/artifact_audit.py:268-287 | The closure of an ancestor is part of the closure |
| `Audit.UnchangedExactly` | agent_workflows/artifact_audit.py:1308-1499 | `unchanged` if and only if the file is found, has no type conflict and its status and disposition are an allowed pair |
| `Audit.ResolvedExactly` | agent_workflows/artifact_audit.py:753-1006 | `resolved` if and only if the artifact is discrepant, moved forward, and the history holds a lifecycle commit of its own id6 after the run ended; the commit named is such a one |
| `Audit.HandEditIsNotResolved` | agent_workflows/artifact_audit.py:753-1006 | Whatever the tree looks like, if every lifecycle commit was visible when the run ended the verdict is not `resolved` |
| `Audit.ResolvedSurvivesEarlierBound` | agent_workflows/artifact_audit.py:753-1006 | A resolved verdict stays resolved against every ancestor of the ending head |
| `Audit.RetirementVerdicts` | agent_workflows/artifact_audit.py:753-1006 | An artifact in a retirement directory is never `regressed` or `resolved`, and is `retired` exactly when its banner and status say so |
| `Audit.OpenRunsRaiseNoRegression` | agent_workflows/artifact_audit.py:753-1006 | With an open run status the only alarm left is a file that was not found |
| `AuditTable.ExecutedPlanAlarm` | agent_workflows/artifact_audit.py:559-693 | For an executed plan found under its own id6 the alarm is raised for every directory but `executed/` and the retirement ones, unless a reviewed plan waits in `pending/` or a plan stands in `reusable/` |
| `AuditTable.SuccessfulPlanUnchanged` | agent_workflows/artifact_audit.py:624-634 | After a successful review a plan is `unchanged` exactly when it waits in `pending/` as reviewed or approved; after any other successful step exactly when it is in `executed/` as executed or complete, or in the retirement or reusable directory its status names |
| `AuditTable.SuccessfulBacklogUnchanged` | agent_workflows/artifact_audit.py:581-589 | The same for backlog items: done, and graduated when the step did not execute |
| `AuditTable.SuccessfulSpecUnchanged` | agent_workflows/artifact_audit.py:590-623 | The same for specs, for each action |
| `AuditTable.SuccessfulOtherUnchanged` | agent_workflows/artifact_audit.py:635-637 | The same for the remaining types |
| `AuditTable.RetiredUnchanged` | agent_workflows/artifact_audit.py:639-640 | After a run that retired it, an artifact of any type is `unchanged` exactly in the retirement directory its status names |
| `AuditTable.UnfinishedFromStatusUnchanged` | agent_workflows/artifact_audit.py:642-660 | After an unfinished run the artifact is `unchanged` exactly when it has its initial status and stands where that says, or is a plan waiting in `pending/` |
| `AuditTable.UnfinishedTypedUnchanged` | agent_workflows/artifact_audit.py:662-684 | Without a recorded initial status a typed entry falls back on the start of its type |
| `AuditTable.UnfinishedUntypedUnchanged` | agent_workflows/artifact_audit.py:686-693 | An untyped entry without one is `unchanged` exactly in `pending/`, a plan with any waiting status |
| `AuditTable.RegressedExactly` | agent_workflows/artifact_audit.py:753-1006 | `regressed`, for each type, action and success status, on the declared status, the directory and the file's own name |
| `AuditTable.ResolvedByType` | agent_workflows/artifact_audit.py:753-1006 | `resolved`, for each type, on the status and directory reached and a later commit of the artifact that reached them |
| `Audit.DiscrepancyIsDisallowed` | agent_workflows/artifact_audit.py:1308-1499 | The two mismatch booleans together hold exactly when the pair is not allowed |
| `IndexCache.Traverse` | agent_workflows/artifact_audit.py:1139-1190 | The traversal builds an index of exactly the files and ids on disk |
| `IndexCache.Cache.BuildIndex` | agent_workflows/artifact_audit.py:1139-1190 | The cached index on an equal signature, else a fresh one; the entry used is in the cache afterwards and the cache never exceeds 8 entries |
| `IndexCache.Cache.FindArtifact` | agent_workflows/artifact_audit.py:1193-1291 | Without a caller index every tier-one answer is true of the disk at answer time and at most one traversal is spent; with one, exactly when it can be false. Whenever an index of the present disk answers, the answer is complete in all three tiers |
| `Lookups.Session` | agent_workflows/artifact_audit.py:1139-1291 | Over any interleaving of tree changes, in-place id edits and lookups from an empty cache, there is one answer for each lookup, true in tier one of the disk at that moment and otherwise that of an index built when the repository had the tree it has then; one traversal at most each, 8 entries at most after each |
| `Lookups.AnswersAreComplete` | agent_workflows/artifact_audit.py:1064-1291 | Where no id was edited without the tree changing, a session names or lists exactly the files that declare the id6; if none does, exactly those whose name's id6 field is it; if none is, the file least in path text whose name contains the stem; and nothing exactly when there is none |
| `IndexCache.AnswerTrueExactly` | agent_workflows/artifact_audit.py:1193-1291 | An unverified answer is true of the disk exactly when the claims behind it are |
| `IndexCache.FreshAnswerIsExact` | agent_workflows/artifact_audit.py:1247-1291 | Against the disk it was built from, an index gives exactly that answer, stated on the files listed, the ids declared and the names parsed |
| `IndexCache.FreshAnswersAgree` | agent_workflows/artifact_audit.py:1193-1291 | All indexes of one disk answer alike, so what a lookup answers is fixed by the disk, the cache and the index given |
| `IndexCache.StoredKeeps` | agent_workflows/artifact_audit.py:1187-1190 | The entry just built is never the one evicted |
| `Lookups.HitIsFreshUnlessEdited` | agent_workflows/artifact_audit.py:1094-1158 | An index whose signature still matches is an index of the present disk if and only if no listed file had its id edited in place since it was built |
| `IndexCache.RecentlyUsedSurvives` | agent_workflows/artifact_audit.py:1085-1190 | An entry of age a survives any 7 - a builds of other keys, hits and misses in any order |
| `IndexCache.JustUsedSurvives` | agent_workflows/artifact_audit.py:1085-1190 | An entry just hit, or stored under a new key, survives any seven builds of other keys |
| `IndexCache.RebuiltEntryKeepsItsPlace` | agent_workflows/artifact_audit.py:1187-1190 | A rebuilt stale key keeps its old place, so the entry just rebuilt can be the next evicted |
| `Lookups.CallerIndexCanAnswerFalsely` | agent_workflows/artifact_audit.py:1247-1262 | From an empty cache, two traversals, an in-place edit and a lookup with the older index end in an answer naming a file that declares another id |
| `Kebab.ToKebabIsKebab` | agent_workflows/artifact_core.py:201-204 | Whatever the text, the result is kebab: allowed characters, no double and no outer hyphen |
| `Kebab.ToKebabIdempotent` | agent_workflows/artifact_core.py:201-204 | Normalising twice is normalising once, for every text |
| `Kebab.KebabNonempty` | agent_workflows/artifact_core.py:201-204 | A slug keeps a nonempty form exactly when it holds a letter or digit |
| `Naming.ParseIsLazyMatch` | agent_workflows/artifact_naming.py:229-246 | The parsers succeed exactly on the printed names and return the match with the shortest set |
| `Naming.PrintRoundTrip` | agent_workflows/artifact_naming.py:198-246 | Parsing a printed name gives its fields back if and only if the set hides no order-and-id6 middle |
| `Naming.PrefixAgrees` | agent_workflows/artifact_naming.py:182-190 | The prefix reader agrees with the full parser on date, set, order and id6 for every name the parser accepts |
| `Naming.BuildRoundTrip` | agent_workflows/artifact_naming.py:198-236 | Building always yields a canonical name; it reads back as the normalised inputs if and only if no two neighbouring set tokens after the first are two digits and six base36 characters |
| `Naming.HiddenMiddleIsNumberedId` | agent_workflows/artifact_naming.py:126-148 | A set hides a middle exactly when its tokens hold such a pair |
| `Rename.ClusteredRenameReadsBack` | agent_workflows/artifact_rename.py:136-150 | A renamed clustered name reads back with only the requested parts changed, date, id6 and facet kept, if and only if the request is harmless |
| `Rename.ClusteredConversionIsIdentity` | agent_workflows/artifact_rename.py:86-150 | A bare conversion leaves a clustered name alone |
| `Rename.ConversionBuilds` | agent_workflows/artifact_rename.py:110-195 | The one name each older shape converts to |
| `Rename.ConversionIgnoresSetAndOrder` | agent_workflows/artifact_rename.py:113-134 | Converting a legacy name gives the same name whatever set and order are asked for |
| `Rename.ConversionIdempotent` | agent_workflows/artifact_rename.py:86-221 | For every record type, `--to-id6` applied to its own output is the identity if and only if the slug kept holds a letter or digit |
| `Rename.LegacyRenameTurnsClustered` | agent_workflows/artifact_rename.py:136-160 | A slug rename makes a legacy name read as clustered if and only if the new slug tokens hold an order-and-id6 pair before the last token |
| `Rename.LegacyRenameReadsBack` | agent_workflows/artifact_rename.py:151-163 | A legacy name renamed without a change of grammar reads back with the order and slug asked for and all else kept, if and only if the order has two digits and the slug is not empty |
| `Rename.DatedRenameReadsBack` | agent_workflows/artifact_rename.py:194-211 | A dated record or walkthrough renamed reads back with its date and facet and the slug asked for, if and only if that slug is not empty |
| `Rename.Id6SlugTurnsClustered` | agent_workflows/artifact_rename.py:136-160 | Every slug starting with six base36 characters and another token is such a slug |
| `Masking.MaskFencedCode` | agent_workflows/artifact_refs.py:146-186 | The line loop yields the text with each fenced block replaced by its token, an unclosed fence running to the end, and saves the blocks in order |
| `Masking.FenceMarkerExactly` | agent_workflows/artifact_refs.py:146-160 | A line is a fence exactly when white space and then three backticks or three tildes start it |
| `Masking.RestoreRender` | agent_workflows/artifact_refs.py:146-203 | Without a token the rendering did not put there, restoring gives the source back |
| `Links.SafeCut` | agent_workflows/artifact_refs.py:130-143 | On every text whose fence tokens are all saved ones, NULs or not, a permalink match never starts or ends inside one |
| `Unmasking.UnmaskInvertsMask` | agent_workflows/artifact_refs.py:146-203 | On every text, NULs or not, that brings no foreign token, unmasking inverts masking, even where a link span swallowed a fence token |
| `Unmasking.ApplyEditsFreeRegionsOnly` | agent_workflows/artifact_refs.py:386-416 | On every such text and for any edits between dated names the applier leaves every fenced block and pinned link byte-identical and rewrites each free stretch as if alone |
| `UnmaskLayers.LayersInvertExactly` | agent_workflows/artifact_refs.py:146-203 | On every text each of the two restores gives back what its masking was given if and only if that layer met no foreign token |
| `UnmaskLayers.InvertsWithoutForeignLinkExactly` | agent_workflows/artifact_refs.py:146-203 | On every text without a foreign permalink token the whole inverts if and only if there is no foreign fence token |
| `UnmaskExact.UnmaskInvertsMaskExactly` | agent_workflows/artifact_refs.py:146-203 | On every text without NUL, masking then unmasking is the identity if and only if the masked text holds no permalink token masking did not put there |
| `UnmaskLimits.ForeignFollowsFence` | agent_workflows/artifact_refs.py:146-203 | Such a token needs a fenced block with the token label directly behind it |
| `UnmaskLimits.LabelFreeTextSurvives` | agent_workflows/artifact_refs.py:146-203 | Every text, NULs or not, that mentions neither token label brings no foreign token and survives masking and unmasking |
| `UnmaskLimits.UnlabelledTextSurvives` | agent_workflows/artifact_refs.py:146-203 | Without NUL it is enough that the text never mentions the permalink label |
| `UnmaskLimits.LostText` | agent_workflows/artifact_refs.py:146-203 | A concrete text without NUL that does not survive |
| `Rewriting.SubStopsAtBoundary` | agent_workflows/artifact_refs.py:113-127 | Any character outside letters, digits and hyphen separates tokens: each side is rewritten alone |
| `Rewriting.SubOnToken` | agent_workflows/artifact_refs.py:113-127 | On one token a stem rewrite is all or nothing, so a longer token embedding the stem is untouched |
| `Rewriting.RewriteAllStopsAtNul` | agent_workflows/artifact_refs.py:386-416 | Any run of edits works on each side of a NUL alone |
| `Citations.ReplaceKeepsOut` | agent_workflows/artifact_refs.py:409-410 | Replacing a name leaves no occurrence of it and makes none of another name it shares no border with |
| `Citations.SubKeepsOut` | agent_workflows/artifact_refs.py:411-414 | A boundaried stem rewrite makes no occurrence of a name that was not there |
| `RecordNames.NamesApart` | agent_workflows/artifact_refs.py:90-103 | Two dated record names share no border exactly because of their shape, once neither is a suffix of the other |
| `RefPlan.StemMaps` | agent_workflows/artifact_refs.py:261-318 | The three stem maps: every entry comes from a rename and passes its guard, and every stem that passes has an entry |
| `RefApply.PlanFile` | agent_workflows/artifact_refs.py:320-361 | One file: every edit is justified by a rename and found in the masked text, none that is called for is missed, and the order is the applier's |
| `RefApply.ApplyToFile` | agent_workflows/artifact_refs.py:386-416 | The applier loop equals masking, rewriting in kind order and unmasking |
| `RefClean.NoCitationSurvives` | agent_workflows/artifact_refs.py:250-416 | For any rename map whose names do not run into one another, after planning and applying no free stretch of the file still holds an old name |
| `RefClean.RenamedRecordLeavesNoCitation` | agent_workflows/artifact_refs.py:250-416 | For every facet-preserving clustered rename, neither name being a suffix of the other suffices |
| `RefClean.HandleNeverEndsWithStem` | agent_workflows/artifact_refs.py:272-300 | The short handle of a new name never ends with the stem of a clustered old one |
| `RefResidue.SuffixLeavesCitation` | agent_workflows/artifact_refs.py:250-416 | When one name ends with the other, a text and its plan leave a citation of the old name |
| `RefResidue.RenameIsCleanExactly` | agent_workflows/artifact_refs.py:250-416 | A facet-preserving clustered rename is clean on every text and plan if and only if neither name ends with the other |
| `RefRenamed.RenamedTextIs` | agent_workflows/artifact_refs.py:250-416 | Planning and applying one facet-preserving clustered rename, on every text without a foreign token: fenced blocks and pinned links stay, and each free stretch becomes one left-to-right pass over the old text that puts the new form in for whichever citation of the record starts there |
| `RefRenamed.CitedNameBecomesNew` | agent_workflows/artifact_refs.py:386-416 | Where the old name first stands in a free stretch the file then holds the new name once, followed by the rest read on its own; what precedes it is kept when it cites the record in no other form and read on its own when it ends at a boundary |
| `RefRenamed.EveryNameBecomesNew` | agent_workflows/artifact_refs.py:386-416 | Each free stretch of the applied file is the old one cut at the leftmost non-overlapping places of the old name and joined by exactly the new name, and each part that cites the record in no other form is kept |
| `RefRenamed.CitedStemBecomesNew` | agent_workflows/artifact_refs.py:113-127 | A whole stem, facetless stem or lone short handle of the record between boundaries becomes its new form, and the text on either side is read on its own |
| `OnePass.RewritesAreOnePass` | agent_workflows/artifact_refs.py:386-416 | Rewriting one citation after the other over the whole text equals one pass looking for all of them, for every list of citations none of which makes, cuts or hides another |
| `NamePlaces.ReplacedPlaces` | agent_workflows/artifact_refs.py:409-410 | For any two strings a replacement puts the new one exactly at the leftmost places of the old that do not overlap |
| `SetMetadata.UpdateSetMetadata` | agent_workflows/artifact_rename.py:484-580 | The loops over fenced YAML and bullet front matter compute the specified edit of the file text |
| `MetadataKept.EditKeepsOtherLines` | agent_workflows/artifact_rename.py:484-580 | Whatever set and order are asked for, every line that is no set or order line stays as it is and in order |
| `MetadataMade.EditedLinesSayTheAsk` | agent_workflows/artifact_rename.py:484-580 | Every line of the edited file is an old one, names exactly the set asked for, or reads as exactly the order asked for, and an update leaves such a line |
| `SetMetadataTwice.SecondCallChangesNothingExactly` | agent_workflows/artifact_rename.py:484-580 | Recording the same nonempty set and order twice equals once, unless and only unless the file is normalised bullets whose first second-level heading is empty with a stale set or order line before the next heading |
| `SetMetadataTwice.SecondCallChangesThis` | agent_workflows/artifact_rename.py:528-580 | A concrete file the second call changes again |
| `FileLines.WrittenReadsBack` | agent_workflows/artifact_rename.py:577-580 | What is written reads back as the trimmed lines, and writing those again gives the same file |
| `FileLines.TidyIsWritten` | agent_workflows/artifact_rename.py:577-580 | Two written files are equal exactly when they read back as the same lines |
| `RunQueue.Runner.Drive` | agent_workflows/agy_runipd.py:3255-3830 | The in-place loop equals the state machine run: refused exactly on an item of unknown outcome, otherwise the passes the ticks describe |
| `RunQueue.Runner.CascadeBlocked` | agent_workflows/agy_runipd.py:3437-3446 | The passes that block dependents of a failed plan in place reach the specified queue |
| `Cascade.CascadeCloses` | agent_workflows/agy_runipd.py:3437-3446 | The cascade blocks queued items only and leaves none queued that depends on a failed plan of the queue, by the bar of its own action |
| `Cascade.CascadeIsLeast` | agent_workflows/agy_runipd.py:3437-3446 | It blocks nothing more: every queue closed in that sense that blocks only queued items blocks all of these |
| `Cascade.CascadeBlocksExactly` | agent_workflows/agy_runipd.py:3437-3446 | After the cascade exactly the queued items that wait on a failed plan of the queue, those it failed included, are blocked, and no other field of any item changes |
| `RunQueue.Runner.RequeueInterrupted` | agent_workflows/agy_runipd.py:3216-3224 | The first requeue route, item by item |
| `RunQueue.Runner.RetryIncomplete` | agent_workflows/agy_runipd.py:3287-3337 | The retry route, item by item |
| `RunHistory.ChosenIsFirst` | agent_workflows/agy_runipd.py:3500-3513 | The item chosen is the first ready one in dispatch order and then in queue order, and none is chosen exactly when none is ready |
| `RunHistory.StepAdds` | agent_workflows/agy_runipd.py:3392-3712 | What one pass may add to the log, from any state and whatever the helpers find |
| `RunSafety.EveryDispatchWasReady` | agent_workflows/agy_runipd.py:3392-3712 | In every run each item handed to a turn or the orchestrator branch was queued, had all edges met on disk and none to a failed plan of the queue, preceded every other ready item and lay inside the stop in force |
| `RunSafety.EveryDispatchStartedInTurn` | agent_workflows/agy_runipd.py:3500-3513 | In every run each item started had every edge met, written out on the directory and status of the plan named, went before all others that might start, answered ones first and then by rank, and lay in the set of the stop in force |
| `RunSafety.DispatchFollowsEdges` | agent_workflows/agy_runipd.py:3500-3510 | In every run in which, pass by pass, only plans the run has started come to satisfy edges, each dispatch follows that of every plan it has an `executed` edge to, unless the edge was met at the start |
| `RunSafety.StopIsHonoured` | agent_workflows/agy_runipd.py:3470-3530 | Once a stop is observed its boundary never moves, nothing outside the captured set starts, and the drain arm relabels no queued item |
| `RunSafety.LevelOneStartsNothing` | agent_workflows/runner_stop.py:735-750 | A level-1 stop starts nothing more unless raised to level 2 |
| `RunSafety.StopRecordedOnce` | agent_workflows/agy_runipd.py:3470-3530 | The deliberate stop is recorded at most once, and always when the run ends drained or at a boundary |
| `RunRecords.StopUnrecordedExactly` | agent_workflows/agy_runipd.py:3392-3712 | A run that has ended leaves a stop it observed unrecorded if and only if it ended on a runaway, inside a turn or on an interrupt and no earlier pass had recorded the stop and gone on |
| `RunDrain.StuckRunLabelsExactly` | agent_workflows/agy_runipd.py:3529-3650 | When a run ends stuck, each item queued at the top of its last pass has one event, left queued if it waits on something transient and labelled if not; where no merge was polled exactly the latter end `fail-depend`, where merges were polled exactly those still waiting end `fail-merge`, and no other item changes |
| `RunDrain.PassEndsStuckExactly` | agent_workflows/agy_runipd.py:3470-3650 | A pass ends the run stuck if and only if no stop is in force, something is left, nothing queued may start, no peer is waited for and no question round is due |
| `RunRecords.RestartMeansNoStop` | agent_workflows/agy_runipd.py:3402-3412 | While a stop request stays, a run never ends in a restart with a stop observed |
| `RunRecords.ForcedTurnLeavesStopUnrecorded` | agent_workflows/agy_runipd.py:3763-3770 | A run of one plan that ends inside a turn with a level-2 stop observed and nowhere in the log |
| `RunRecords.DispatchAfterRecordExactly` | agent_workflows/agy_runipd.py:3470-3530 | In every run something starts after the stop was recorded if and only if the recording pass found the queue drained and was granted another round of questions, and a later pass started an item |
| `RunRecords.AnsweredPlanStartsAfterRecord` | agent_workflows/agy_runipd.py:3470-3490 | A run of one parked plan that is answered and starts again after the stop was recorded |
| `RunSafety.RequeuedExactly` | agent_workflows/agy_runipd.py:3284-3337 | Both requeue routes together, field by field: exactly the interrupted and retryable items are queued for recovery, an interrupted item of unknown outcome is marked for reconciliation, and nothing else changes |
| `RunSafety.RefusedExactly` | agent_workflows/agy_runipd.py:3339-3356 | A resume is refused exactly when an indeterminate item is in the queue, and nothing has started then |
| `Transcript.StepReader.Lookup` | agent_workflows/agy_runipd.py:947-1033 | The cache lookup, conversation switch and incremental read equal the functional reader |
| `TranscriptExact.LookupIsRight` | agent_workflows/agy_runipd.py:947-1033 | On a consistent log one lookup keeps the map equal to the lines read and answers as a scan, or nothing when reading failed |
| `TranscriptExact.SessionIsRight` | agent_workflows/agy_runipd.py:947-1033 | Over any sequence of whole-line appends, lookups and conversation switches every answer is the scan of the log as it then is |
| `TranscriptExact.ReaderIsExactExactly` | agent_workflows/agy_runipd.py:1006-1029 | The reader is exact on a log, however it grew and was read, if and only if every indexed record is a repeat of the first of its index before any record that cannot be cached |
| `TranscriptExact.DistinctIsConsistent` | agent_workflows/agy_runipd.py:1006-1029 | Distinct usable indexes are enough |
| `Adoption.Disk.AtomicWrite` | agent_workflows/artifact_core.py:400-433 | Every disk state of a write with a failure possible at each step, the temporary file cleaned up or left |
| `Adoption.Disk.ApplyAdoption` | agent_workflows/artifact_adopt.py:831-910 | Every disk state of an adoption and its outcome |
| `Adoption.EveryStepKeepsTheDrop` | agent_workflows/artifact_adopt.py:831-910 | At every step boundary the drop is untouched in the inbox or complete at its destination; it leaves the inbox only in the last step, and no other file changes |
| `Adoption.ErrorsRestoreExactly` | agent_workflows/artifact_adopt.py:856-890 | An error before the removal restores the original files if and only if the stated cleanup steps worked; an overwritten destination is lost |
| `Adoption.NewDestinationIsRolledBack` | agent_workflows/artifact_adopt.py:856-890 | Without an overwrite and with working cleanup every such error restores the disk |
| `Adoption.VerbatimKeepsBody` | agent_workflows/artifact_core.py:323-332 | In a verbatim-preserved tree the destination ends with the exact body |
| `Adoption.DropIsKeptExactly` | agent_workflows/artifact_adopt.py:676-679 | The drop as it was on disk is kept byte for byte if and only if it holds no carriage return |
| `Markdown.NormalizeKeepsLines` | agent_workflows/artifact_core.py:335-363 | The result is the right-stripped lines minus trailing blank ones, each ended by one newline |
| `Markdown.NormalizeIdempotent` | agent_workflows/artifact_core.py:335-363 | Normalising twice is normalising once |
| `Markdown.NormalizeEnds` | agent_workflows/artifact_core.py:335-363 | The result is empty or ends in exactly one newline and no line ends in whitespace |
| `AgentRecords.Validate` | agent_workflows/agent_schema.py:235-377 | The appending validator reports exactly the listed violations, and none if and only if the record is valid in its own terms |
| `AgentRecords.NoViolationExactly` | agent_workflows/agent_schema.py:235-377 | No violation if and only if envelope, kind rules and every nested string value are sound |
| `AgentRender.ProjectionStaysValid` | agent_workflows/agent_schema.py:506-514 | A valid record projected to any fields is valid and keeps every field asked for |
| `AgentRender.NeededExactly` | agent_workflows/agent_schema.py:480-503 | The preserved fields but `next` are exactly those whose loss can invalidate a valid record |
| `AgentRender.GuardedAlwaysValid` | agent_workflows/agent_schema.py:576-629 | On every JSON object guarded rendering emits a record that passes the validator: itself when valid, else an error record |
| `AgentRender.SubstituteExactly` | agent_workflows/agent_schema.py:546-573 | The substitute record is valid if and only if its text is clean |
| `AgentRender.RaisesExactly` | agent_workflows/agent_schema.py:576-629 | Strict rendering emits exactly the valid objects; a value that is no object raises in every mode |
| `Ablation.GenerateSchedule` | agent_workflows/benchmark_ablations.py:235-286 | The schedule is a permutation of the factor product with order indexes exactly 0 to n - 1 |
| `Ablation.Shuffle` | agent_workflows/benchmark_ablations.py:266-269 | Swapping from the end by any draws is a permutation |
| `Ablation.ProductIsFull` | agent_workflows/benchmark_ablations.py:246-264 | Every combination is scheduled as often as its factors were listed, and nothing else |
| `Comparison.Compare` | agent_workflows/benchmark_ablations.py:354-482 | The counting loop equals the summary of the pairs; no common cell is a refusal |
| `Comparison.ComparisonConserves` | agent_workflows/benchmark_ablations.py:399-461 | Wins, losses, ties and pending pairs add up to the number of common cells |
| `Comparison.ComparisonSwaps` | agent_workflows/benchmark_ablations.py:399-482 | Swapping the sides swaps the wins and negates every delta and both means |
| `Comparison.JudgedExactly` | agent_workflows/benchmark_ablations.py:426-446 | Who wins a pair, on the two outcomes: complete before incomplete before pending before anything else, and no winner between two pending |
| `Comparison.TimeoutsArePooled` | agent_workflows/benchmark_ablations.py:360-375 | The pairs are the same whatever timeout each trial of either side ran under |
| `RepoPath.NeverAbsolute` | agent_workflows/artifact_core.py:526-630 | For every input, root and disk the rendered text is never an absolute path |
| `RepoPath.InsideRejoins` | agent_workflows/artifact_core.py:566-581 | For an absolute root and a path lexically inside it the text has no parent segment and rejoins to the normalised path |
| `RepoPath.EscapeShowsNameOnly` | agent_workflows/artifact_core.py:619-630 | A relative path that is inside nothing shows itself from its first records segment on, else from its first agents segment on, else its file name |

## Left out

- Evidence.FinalizeEvidenceIndex.Read: takes git's answers as rows and a HEAD value; running git and parsing its output text beyond the row fields is not modelled.
- Audit.ResolvedExactly: takes the run status, action and initial status already normalised to lower case, and the target directory of a type and status as the table the placement module holds.
- UnmaskExact.UnmaskInvertsMaskExactly: covers texts without NUL; on other texts each layer alone is exact, the two together invert without foreign tokens, and do not with a foreign fence token alone, but whether the effects of a foreign permalink token can cancel against other tokens of the text is left open.
- Unmasking.ApplyEditsFreeRegionsOnly: requires both sides of every edit to hold a hyphen and no NUL, which every dated record name does.
- RefClean.NoCitationSurvives: covers names with the closed facet enum; a legacy name with an open facet is not a record name here, and the short-handle rewrite of a legacy old name is covered only when the new handle does not end with an old stem.
- RefRenamed.RenamedTextIs: covers one clustered rename that keeps the facet; for several renames at once `OnePass.RewritesAreOnePass` gives the same pass where none of their citations makes, cuts or hides another, and elsewhere only `RefClean.NoCitationSurvives` speaks of them.
- RefPlan.StemMaps: returns the maps; the warning texts for skipped shared stems are not modelled.
- SetMetadataTwice.SecondCallChangesNothingExactly: is stated for a given set without whitespace, which its only caller guarantees by passing a kebab set; a call without a set is modelled but not covered.
- RunQueue.Runner.Drive: one pass reloads an arbitrary queue, so what the helpers write between passes is not constrained beyond what a lemma says; termination of the loop rests on retry budgets outside this model.
- Kebab.ToKebabIsKebab: `str.lower` is modelled as far as the kebab result can see it.
- TranscriptExact.SessionIsRight: logs grow by whole lines; a line read while half written is not modelled.
- Adoption.Disk.ApplyAdoption: file modes, directories and the text encoding are not modelled.
- RefApply.ApplyToFile: the files a rename scans, and holding back edits to plans in flight, are not modelled.
- Comparison.Compare: takes the common cells as sorted.
- Planning an adoption (leak gate, name suggestion, id6 minting) and the other refusals before the first write.
- Lane integration, zero-work retries, peer waits, the decision that an orchestrator waits for a child, and parsing dependency tokens: they enter as what a pass finds.
- Refusals of the ablation scheduler for empty factor lists, and resolving architecture names.
- Argument parsing, terminal output, notifications, statuslines and summary tables.
- Subprocesses, signals, threads and the agent turn itself.
- General regular expressions: the patterns used are written as matchers over sequences.
