# Structural reconciliation, verified

A Dafny model of the domain-neutral reconciliation pipeline of the Structural Reconciliation Engine:
two rooted trees go in; a one-to-one match graph, per-parent aligned regions, a set of edit operations
and a list of suppressed effects come out. Around the pipeline stand the algorithms it depends on: the
tree validator, the LCS edit script, the causal cycle check, the JSON limits with the data-tree adapter,
the threaded job executor, normalization, and the interpretation of a result as a localization report.

Each stage is a method (loops, arrays and classes where the program has them) proved against a
declarative contract; the theorems are lemmas about everything that meets those contracts.

## How the modules fit

| part | modules |
|---|---|
| shared | `Options`, `Ordering` (handles, `sorted`, stable sorting), `Profiles` |
| trees | `Trees`, `TreeValidator`, `Walks` |
| evidence and matching | `Evidence`, `Scoring`, `Matches`, `Contest` (theory of the similarity phase), `Similarity` (its loops), `Matcher`, `Verdicts` (who is confirmed, over evidence and profile), `Handles` (what renaming changes) |
| alignment | `Lcs`, `Alignment`, `Regions`, `Aligner` |
| classification | `Operations`, `Classification`, `Diagnosis`, `Regularity`, `Guarantees`, `Contents` (when content counts as changed), `Records` (what regions, positions and operations hold), `Repetition` (when an id occurs twice) |
| whole pipeline | `Pipeline`, `Twins`, `SingleEdit`, `Engine` |
| suppression | `Suppression`, `Cascades` |
| around it | `Causality`, `DataRefs`, `DataTree`, `JsonLimits`, `AdaptedTrees`, `DataShape` (its trees node by node), `JobExecutor`, `Normalization`, `Whitespace` (in terms of words), `Localization`, `Presence`, `Report` (the issue list status by status) |
| concrete runs | `Witnesses`: small trees on which the engine falls short of its documentation |

`Diagnosis.Run` is one run of aligner and classifiers over a match graph; `Pipeline.Reconciliation` adds
the matcher's input; `Engine.Delivered` ties one to a command. Theorems with such a hypothesis speak about every
run that returns: `Engine.Reconcile` hands out the witness, and says exactly when it raises instead. `SingleEdit.Edit` describes the five edits.

## Main results

* One edit, one operation (`OneEditOneOperation`, end to end `EngineReportsOneEdit`), and a tree compared
  with itself is all MATCH (`SelfComparisonIsAllMatch`).
* Nothing is lost (`NoSourceNodeIsLost`, `NoTargetNodeIsLost`); every confirmed pair has exactly one
  diagnosis (`EveryMatchHasOneDiagnosis`); which records violate their own constructor is known exactly
  (`Reconcile`, `CandidatesAreWellFormedIff`, `AlignmentIsWellFormedIff`, `PipelineOperationsAreWellFormed`).
* Lexical order decides no confirmed match, in either phase (`ConfirmationIgnoresNames`,
  `RenamingKeepsVerdicts`), and an ambiguous edge exactly where it is fragile (`EdgesSurviveIff`).
* What is decided is said without the functions that decide it: who is confirmed (`ConfirmedIff`), what a
  score compares (`ScoreIsClosedForm`), when content changed (`UpdateIffChanged`), when order matters
  (`ReorderByType`), what each operation, issue and adapted node holds (`OperationsHold`, `PairIsListed`,
  `AdaptedRepresents`).
* The validator accepts exactly the rooted trees; the LCS script is optimal; the cycle check is exact.
* Adapted data trees are valid, decodable and bounded; a job record lives through RUNNING and one
  terminal state under every interleaving.

## Where the code does less than its documentation says

* The engine documents three errors. With feature weights that support no identifier, and by default
  there are none, the constructor of an identifier match raises after all checks passed; so does the
  constructor of the alignment when two region ids share a string form: `Reconcile` has both conditions,
  `UnweightedEngineRaises` and `RepeatedRegionIdRaises` show them, `WeightedEngineDelivers` excludes them.
* INSERT and DELETE are documented as "no viable correspondence exists". A source with a target above the
  match threshold can be neither confirmed nor ambiguous: `SilentSources` says exactly when, and
  `SilentSourceIsDeletedIff` when it becomes a DELETE. `PerfectMatchIsDeleted` deletes a score of 1.0.
* Handles order the work, and the matcher is documented never to resolve an ambiguity by position. A
  source tied between two best targets still counts as a contender for the lexically first one only, so
  the order of handles can decide whether a third pair is ambiguous or its source deleted:
  `EdgesSurviveIff`, `EdgesDependOnHandles`, `TieDecidesDeletion`.
* A cross-parent match below the move threshold is documented to become DELETE and INSERT. Each side does
  so only if its parent corresponds to some node: `WeakMoveDegradesIff`. The localized report then lists
  the node as matched and as missing: `PairedAndMissingIff`, `WeakMoveIsPairedAndMissing`.
* With a root confirmed to a non-root, regions are not unique per parent, and children of that root are
  reported as matched and deleted at once: `RegionsUniqueIffRootsSettled`, `UnsettledRootContradictsIff`,
  `MatchedIsDeleted`. The same DELETE, INSERT or REORDER id can then occur twice (`IdRepeatsIff`), with
  two effects (`EffectsRepeatIff`), and an INSERT can hide the node it reports (`RootHiddenIff`).
* Similarity matches record no soft violation: `SimilarityOmitsSoftViolations`.
* A REORDER effect is described as sibling position changes; it also covers the aligned children of every
  reordered sibling: `ReorderAffects`, `ReorderHidesGrandchild`.
* Normalization is documented never to alter identity. An identifier read from content survives only if
  its key is not excluded and its text is tidy or its key preserved: `IdSurvivesIff`; it can merge with
  another one, held as content or as identity: `IdsMergeIff`, `IdsCanMerge`.
* `wait` is documented to block until a terminal state; if it looks before the submission and reads before
  the outcome is stored it returns RUNNING: `WaitReturnsRunningIff`, `EarlyWaitMayReturnRunning`. Reusing a
  job id takes a terminal record back: `RevertsIffResubmitted`.

## Model

| member | source | states |
|---|---|---|
| Engine.EngineReportsOneEdit | src/reconciliation/core/engine.py:124-190 | On the submitted trees, whenever a result is delivered: one insertion, deletion, move, permutation or no edit is reported by exactly the operation that names it, plus MATCH or UPDATE for each other surviving non-root node, whatever the content, signatures, thresholds and presence policy, provided normalization leaves the identifiers alone. |
| Engine.Reconcile | src/reconciliation/core/engine.py:76-204 | Each error is returned exactly when its check is the first to fail: not a rooted tree, profiles disagree, limits exceeded, then a confirmed or ambiguous match without supporting evidence, then two region ids with one string form; in all other cases the result is complete and every stage delivers its contract on the normalized trees. |
| Engine.RunStages | src/reconciliation/core/engine.py:124-190 | After the checks: a match without evidence or a repeated region id raises, under exactly those conditions, else the stages composed in order meet the pipeline contract. |
| Engine.WeightedEngineDelivers | src/reconciliation/core/engine.py:145-163 | With positive identifier weight, positive probable threshold and no arrow in a source handle nothing raises after the checks. |
| Engine.DeliveredFindings | src/reconciliation/application/services/localization_validation.py:234-261 | In every delivered result, interpreted on the submitted trees, a source is found missing exactly for a DELETE in the result that no rule exempts; under a suppressing policy every finding is kept. |
| Engine.CheckPreLimits | src/reconciliation/core/metrics/calculator.py:32-57 | Passes exactly when the combined node count and every root path stay within the limits. |
| Engine.ValidateProfiles | src/reconciliation/core/validation/profile_validator.py:47-85 | Valid exactly when suppression rules react to enabled operations and weighted features have a priority. |
| Engine.IsValid | src/reconciliation/core/validation/tree_validator.py:163-170 | A constructed tree passes exactly when it is a rooted tree. |
| SingleEdit.OneEditOneOperation | src/reconciliation/core/engine.py:145-171 | The same for every pipeline run on valid trees with identified source nodes. |
| SingleEdit.SelfComparisonIsAllMatch | tests/property/test_invariants.py:35-43 | A tree whose non-root nodes have unique ids, compared with itself, yields exactly one MATCH per non-root node. |
| SingleEdit.EditedUnedited | tests/property/test_invariants.py:35-43 | No edit: no operation beyond the routine ones. |
| SingleEdit.EditedGrafted | src/reconciliation/core/classification/classifiers/insert_delete.py:43-92 | An inserted subtree: one INSERT, for its root, and no other structural operation. |
| SingleEdit.EditedPruned | src/reconciliation/core/classification/classifiers/insert_delete.py:43-92 | A deleted subtree: one DELETE, for its root. |
| SingleEdit.EditedRelocated | src/reconciliation/core/classification/classifiers/move.py:23-53 | A subtree moved to another parent: one MOVE, and no INSERT, DELETE or REORDER at either end. |
| SingleEdit.EditedPermuted | src/reconciliation/core/classification/classifiers/reorder.py:23-54 | Permuted children: one REORDER under an ordered parent, none under an unordered one. |
| SingleEdit.ReportsFromStructure | src/reconciliation/core/classification/classifier.py:46-66 | In an unambiguous run the operations follow from four structural facts: topmost unmatched nodes, moved pairs, shuffled parents, kept pairs. |
| Twins.IdentifiedRunIsByTwins | src/reconciliation/core/matching/matcher.py:54-65 | With identified nodes the confirmed pairs below the roots are exactly the nodes with equal ids, with full confidence and no ambiguity. |
| Twins.VerdictIsTwins | src/reconciliation/core/matching/matcher.py:72-110 | The matcher's verdict on each pair in that situation. |
| Twins.NoContest | src/reconciliation/core/matching/matcher.py:126-200 | The similarity phase then finds nothing ambiguous and can at most confirm the two roots. |
| Guarantees.NoSourceNodeIsLost | src/reconciliation/core/classification/classifiers/insert_delete.py:49-75 | Every unconfirmed non-root source node is at or below a DELETE, an unresolved position, or (under the region policy) a silenced region. |
| Guarantees.NoTargetNodeIsLost | src/reconciliation/core/classification/classifiers/insert_delete.py:76-91 | The same for target nodes and INSERT. |
| Guarantees.EveryMatchHasOneDiagnosis | src/reconciliation/core/classification/registry.py:47-104 | Each confirmed pair of non-root nodes is exactly one of: in place with one MATCH or UPDATE, moved with one MOVE, or cross-parent below the threshold with neither. |
| Guarantees.WeakMoveDegradesIff | src/reconciliation/core/classification/registry.py:84-96 | Under every policy a below-threshold move is a DELETE (an INSERT) exactly when its old (new) parent corresponds to a node and the policy does not silence that region. |
| Guarantees.UnsettledRootContradictsIff | src/reconciliation/core/alignment/aligner.py:75-81 | A pair in place is also reported as deleted exactly when it hangs under a source root confirmed to a non-root, and as inserted exactly in the mirror case, up to silenced regions. |
| Guarantees.PairedIsDeletedIff | src/reconciliation/core/classification/classifiers/insert_delete.py:49-75 | A confirmed node is reported as deleted exactly when its pair is no confident move and its parent corresponds to a node other than the parent of its partner, in a region that speaks. |
| Guarantees.PairedIsInsertedIff | src/reconciliation/core/classification/classifiers/insert_delete.py:76-91 | The mirror statement for INSERT. |
| Guarantees.UnmatchedIsDeletedIff | src/reconciliation/core/classification/registry.py:132-167 | An unmatched node is reported as deleted exactly when its parent corresponds to a node and neither ambiguity nor policy withholds it. |
| Guarantees.UnresolvedIffContested | src/reconciliation/core/contracts/alignment.py:109-117 | A region is unresolved exactly when one of its children is held in an ambiguity. |
| Guarantees.NoPresenceClaimOnUncertainNodes | src/reconciliation/core/classification/registry.py:145-167 | Under either suppressing policy no DELETE or INSERT names a node held in an ambiguity. |
| Guarantees.OperationsAreWellFormed | src/reconciliation/core/contracts/operations.py:46-62 | No operation constructor can raise: every MOVE changes parent, every REORDER has two siblings, every match is supported. |
| Pipeline.ProducedIsSound | src/reconciliation/core/engine.py:145-171 | What the stages deliver satisfies the hypotheses of all guarantees. |
| Pipeline.PipelineOperationsAreWellFormed | src/reconciliation/core/contracts/operations.py:46-62 | Every operation of a pipeline run passes its constructor, confidences included. |
| Pipeline.AmbiguousNodesAreNeverAbsent | src/reconciliation/core/classification/registry.py:145-167 | Under a suppressing policy no DELETE or INSERT names an end of an ambiguous edge. |
| Pipeline.UncertainIffEdge | src/reconciliation/core/classification/registry.py:108-130 | The classifier's uncertain nodes are exactly the ends of ambiguous edges. |
| Pipeline.SilentSourceIsDeletedIff | src/reconciliation/core/contracts/profiles.py:245-263 | An unreported source with a viable target becomes a DELETE exactly when its parent corresponds to a node in a region that speaks, under every policy. |
| Diagnosis.MatchIff | src/reconciliation/core/classification/classifiers/match.py:24-55 | MATCH (UPDATE) exactly for confirmed pairs under corresponding parents with equal (different) content. |
| Contents.UpdateIffChanged | src/reconciliation/core/classification/classifiers/match.py:24-55 | A pair in place is an UPDATE exactly if some content key is on one side only or holds unequal values, and else a MATCH: null and strings equal themselves, booleans and numbers whatever is the same number, lists and dictionaries member by member. |
| Contents.AlignedReport | src/reconciliation/core/classification/classifiers/match.py:35-54 | The same of the classifier alone, for any aligned position, with the evidence code. |
| Records.OperationsHold | src/reconciliation/core/classification/classifier.py:46-66 | Every operation of a run holds its nodes, its parents, the match id and confidence of its pair, and its evidence codes, kind by kind; a REORDER lists kept children in source order with their partners. |
| Records.OutputIsOrdered | src/reconciliation/core/classification/classifier.py:62-66 | Deletions come first, then insertions, matches, moves, reorders and updates; within a type the ids do not decrease. |
| Diagnosis.MoveIff | src/reconciliation/core/classification/classifiers/move.py:23-53 | MOVE exactly for confident confirmed pairs whose parents do not correspond. |
| Diagnosis.DeleteIff | src/reconciliation/core/classification/classifiers/insert_delete.py:57-75 | DELETE exactly for one-sided children of a corresponding parent that neither moved nor are withheld. |
| Diagnosis.InsertIff | src/reconciliation/core/classification/classifiers/insert_delete.py:76-91 | INSERT, the same on the target side. |
| Regularity.ReorderIff | src/reconciliation/core/classification/classifiers/reorder.py:23-54 | REORDER exactly for an ordered parent whose matched children are inverted. |
| Records.ReorderByType | src/reconciliation/core/classification/classifiers/reorder.py:23-54 | REORDER exactly if matched siblings are exchanged and the profile's entry for the parent's type says ordered, or the default does where there is no entry. |
| Repetition.IdRepeatsIff | src/reconciliation/core/classification/classifier.py:62-66 | In every run an operation id occurs twice exactly if it is a DELETE of a child of the source root alone both under the root pair and under another counterpart of that root, the mirror INSERT, or a REORDER of a root whose children are inverted against both its counterparts. |
| Repetition.OperationIdsDistinct | src/reconciliation/core/classification/classifier.py:62-66 | With settled roots all operation ids are distinct as kind and handles. |
| Repetition.OperationNamesDistinct | src/reconciliation/core/classification/classifier.py:62-66 | Their string forms are distinct too if no source handle contains an arrow. |
| Regularity.RunPartitionsChildren | src/reconciliation/core/alignment/aligner.py:138-192 | In every region of a run each child of the two parents sits in exactly one position, nothing else does, and positions plus aligned positions count all children. |
| Regularity.RegionsUniqueIffRootsSettled | src/reconciliation/core/alignment/aligner.py:75-93 | Regions are unique per source parent and per target parent exactly when the roots are settled. |
| Contest.ConfirmationIgnoresNames | src/reconciliation/core/matching/matcher.py:177-200 | The greedy phase confirms exactly a relation on scores that mentions no order of handles. |
| Handles.RenamingKeepsConfirmation | src/reconciliation/core/matching/matcher.py:13-17 | Renaming the handles bijectively renames what the greedy phase confirms and changes nothing else. |
| Handles.RenamingKeepsVerdicts | src/reconciliation/core/matching/matcher.py:42-68 | Over both phases, renaming the handles of the evidence renames the confirmed and the rejected pairs, and every ambiguous edge that is not fragile. |
| Handles.EdgesSurviveIff | src/reconciliation/core/matching/matcher.py:202-235 | An ambiguous edge, or its absence, survives every renaming exactly when it is not fragile: a condition on scores, margin and sources tied at the top above the threshold. |
| Handles.SoleEdge | src/reconciliation/core/matching/matcher.py:222-235 | A source with one near target is on an edge exactly if no contender outscores it by more than the margin and another one is within the margin. |
| Contest.WinnersAreOneToOne | src/reconciliation/core/matching/matcher.py:187-198 | Greedy confirmation is one-to-one. |
| Contest.SilentSources | src/reconciliation/core/matching/matcher.py:177-189 | A viable source is left unreported exactly when its one near target is outbid or vetoed. |
| Similarity.ScoreRow | src/reconciliation/core/matching/matcher.py:138-150 | A row lists exactly the plausible targets of a source, best first, ties by handle. |
| Similarity.AmbiguousEdges | src/reconciliation/core/matching/matcher.py:202-235 | The two loops collect exactly the source-side and target-side ambiguous edges. |
| Similarity.ConfirmOffers | src/reconciliation/core/matching/matcher.py:187-198 | Consuming offers in order keeps exactly the first offer for each target. |
| Matcher.Match | src/reconciliation/core/matching/matcher.py:42-68 | Raises exactly when some confirmed or ambiguous pair has no agreeing feature of positive weight, naming such a pair; otherwise the graph lists every decided pair once, in order, with its state, score, confidence, violations and alternatives, each record accepted by its constructor. |
| Verdicts.ConfirmedIff | src/reconciliation/core/matching/matcher.py:54-200 | A graph confirms exactly the pairs that share an authoritative, unduplicated identifier with fitting types, and the pairs of free nodes whose score reaches the threshold, beats every other target by more than the margin and every near rival likewise; thresholds and margin are those of the profile. |
| Verdicts.RejectedIff | src/reconciliation/core/matching/matcher.py:84-97 | Rejected exactly if an identifier is shared although hard types differ. |
| Verdicts.NearTiesAreAmbiguous | src/reconciliation/core/matching/matcher.py:202-220 | Two targets within the margin of an above-threshold best are both kept as ambiguous. |
| Verdicts.CandidateScores | src/reconciliation/core/matching/matcher.py:144-196 | Every candidate carries the closed-form score of its pair; its confidence is that score, or one for an identifier match. |
| Pipeline.ProducedPairsIff | src/reconciliation/core/engine.py:145-157 | The same characterisation of the confirmed pairs of every pipeline run. |
| Matcher.AuthoritativeMatches | src/reconciliation/core/matching/matcher.py:72-110 | One candidate for each pair of equal, unduplicated ids: rejected on a hard violation, else confirmed with confidence 1; raises on one without evidence. |
| Matcher.SimilarityMatches | src/reconciliation/core/matching/matcher.py:126-200 | Ambiguous and confirmed candidates are exactly the edges and the winners of the contest over free nodes; raises on one without evidence. |
| Matcher.UniqueIdIndex | src/reconciliation/core/matching/matcher.py:112-122 | The index holds exactly the nodes with an unduplicated id, under that id. |
| Matcher.GraphIsOneToOne | src/reconciliation/core/contracts/matches.py:103-120 | Confirmed matches are one-to-one across both phases, so the graph constructor cannot raise. |
| Matcher.PairsListedOnce | src/reconciliation/core/matching/matcher.py:67-68 | No (source, target) pair occurs twice in a graph. |
| Matcher.AmbiguousIsUnconfirmed | src/reconciliation/core/matching/matcher.py:177-189 | No end of an ambiguous edge takes part in a confirmed match. |
| Matcher.EdgeHasAlternative | src/reconciliation/core/contracts/matches.py:80-83 | Every ambiguous edge competes with another one at one of its ends. |
| Matcher.CandidatesAreWellFormedIff | src/reconciliation/core/contracts/matches.py:73-88 | All candidates satisfy their contract exactly when each confirmed or ambiguous pair, of either phase, has an agreeing feature of positive weight. |
| Matcher.BaselessIsIdentified | src/reconciliation/core/matching/matcher.py:147-148 | With a positive probable threshold only identifier matches can lack evidence. |
| Matcher.UnweightedRaisesIff | src/reconciliation/core/contracts/profiles.py:176 | Under a profile without weights, the default, the matcher raises exactly when an identifier matches or a zero threshold admits any similarity pair. |
| Matcher.WeightedMatcherReturns | src/reconciliation/core/contracts/matches.py:73-79 | With positive identifier weight and positive probable threshold the matcher never raises. |
| Matcher.IdentifierWeightSupports | src/reconciliation/core/matching/scorer.py:65-73 | A positive identifier weight is evidence for every authoritative pair. |
| Matcher.SimilarityOmitsSoftViolations | src/reconciliation/core/matching/matcher.py:190-196 | Similarity candidates list no soft violation even where the types differ. |
| Matches.CheckOneToOne | src/reconciliation/core/contracts/matches.py:103-120 | The two growing sets decide exactly whether confirmation is one-to-one. |
| Matches.LookupIsPairing | src/reconciliation/core/contracts/matches.py:132-144 | In a one-to-one graph both lookups are the correspondence relation. |
| Scoring.ScorePair | src/reconciliation/core/matching/scorer.py:27-104 | The running tally computes the closed form below, score and contributions. |
| Scoring.ScoreIsClosedForm | src/reconciliation/core/matching/scorer.py:59-104 | The score times the applicable weight is the agreeing weight: identifier and label count where one side has them and agree where both have the same, signature and child types always count; without applicable weight it is zero. |
| Scoring.ContributionsAre | src/reconciliation/core/matching/scorer.py:59-101 | A contribution of each kind is listed exactly if its weight is positive and its signal agrees, with that weight and value. |
| Profiles.WeightIsFirst | src/reconciliation/core/matching/scorer.py:20-24 | The weight of a feature is that of its first entry, and zero without one. |
| Scoring.ScoreIsSupportedFraction | src/reconciliation/core/matching/scorer.py:103-104 | Scores lie in [0, 1] and are positive exactly when some agreeing feature contributes. |
| Scoring.EvaluateConstraints | src/reconciliation/core/matching/constraints.py:16-40 | A type mismatch is one violation, hard or soft as the profile says; nothing else is. |
| Evidence.Extract | src/reconciliation/core/evidence/extractor.py:100-121 | Evidence for every node of both trees and exactly the duplicated ids of each. |
| Evidence.EvidenceShowsNode | src/reconciliation/core/evidence/extractor.py:65-72 | Identifier and label are the text of the first offering key of "id", "xml:id", "guid", "key" and of "label", "title", "navtitle", from identity unless that is null, else from content. |
| Evidence.ChildSignaturesAgreeIff | src/reconciliation/core/evidence/extractor.py:93-94 | For types without a comma two nodes with children share a child signature exactly if their child types agree one by one. |
| Evidence.ExtractTree | src/reconciliation/core/evidence/extractor.py:123-143 | Counting ids finds exactly the ids carried by two different nodes. |
| Lcs.FillTable | src/reconciliation/core/alignment/lcs.py:30-38 | The in-place table holds the LCS length of every pair of suffixes. |
| Lcs.AlignSequences | src/reconciliation/core/alignment/lcs.py:21-59 | The two cursors produce the script that the recursion over suffixes defines. |
| Lcs.ScriptIsOptimal | src/reconciliation/core/alignment/lcs.py:40-59 | The script projects onto both inputs, aligns along a longest common subsequence and has length n + m - LCS. |
| Lcs.ScriptIsGreedy | src/reconciliation/core/alignment/lcs.py:40-59 | Of the optimal scripts it is the one that aligns equal heads at once and skips on the left unless that shortens the common subsequence. |
| Lcs.AllAlignedIffEqual | src/reconciliation/core/alignment/lcs.py:40-59 | Only ALIGN positions exactly when the sequences are equal. |
| Regions.RegionPartitionsChildren | src/reconciliation/core/alignment/aligner.py:138-192 | Every source and target child sits in exactly one position; positions plus matched pairs count all children. |
| Regions.OrderChangedIffInverted | src/reconciliation/core/alignment/aligner.py:194-201 | The order flag holds exactly when two matched siblings are inverted, and exactly when the LCS script of the two orders has a non-ALIGN position. |
| Regions.PositionsAre | src/reconciliation/core/alignment/aligner.py:149-192 | A region holds exactly partners both present, sources without one and targets without one. |
| Alignment.AlignChildren | src/reconciliation/core/alignment/aligner.py:117-213 | The three loops build the region of one pair of parents, with its order flag and unresolved mark. |
| Aligner.Align | src/reconciliation/core/alignment/aligner.py:43-97 | Raises exactly when two parent pairs share a string form; otherwise one region for the roots and for every confirmed pair, in order, with the unresolved ones listed. |
| Records.RegionOrderedIff | src/reconciliation/core/alignment/aligner.py:132-135 | A region is ordered as the entry for the type of its source parent says, and as the default says where there is none. |
| Records.PositionsHold | src/reconciliation/core/alignment/aligner.py:138-192 | Every position is a confirmed pair with its match id, a node alone, or a node held in ambiguity with the ids of exactly its ambiguous edges. |
| Records.EdgesAreOrdered | src/reconciliation/core/alignment/aligner.py:99-115 | The ids a position carries stand in the order of their string forms. |
| Aligner.AmbiguousIndexOf | src/reconciliation/core/alignment/aligner.py:99-115 | Exactly the unsettled ends of ambiguous edges, each with all its match ids. |
| Aligner.ParentPairs | src/reconciliation/core/alignment/aligner.py:75-81 | The deduplicated list of corresponding parents. |
| Aligner.AlignmentIsWellFormedIff | src/reconciliation/core/contracts/alignment.py:67-167 | The alignment passes its constructors (region names unique, unresolved regions marked and listed) exactly when no two parent pairs share a string form. |
| Aligner.ArrowFreeNeverCollides | src/reconciliation/core/alignment/aligner.py:35-37 | Source handles without an arrow keep all region ids apart. |
| Classification.Classify | src/reconciliation/core/classification/classifier.py:46-66 | Exactly the reported operations, in output order; one occurs more than once exactly if two positions or two regions report it. |
| Classification.ClassifyMatches | src/reconciliation/core/classification/classifiers/match.py:24-55 | One operation for each aligned position with an enabled type; `Contents.AlignedReport` says which. |
| Classification.ClassifyPresence | src/reconciliation/core/classification/classifiers/insert_delete.py:43-92 | One operation for each one-sided position that nothing withholds. |
| Classification.MovePairs | src/reconciliation/core/classification/registry.py:66-96 | Exactly the confirmed cross-parent pairs that clear the threshold. |
| Classification.ClassifyMoves | src/reconciliation/core/classification/classifiers/move.py:23-53 | One MOVE for each such pair. |
| Classification.ClassifyReorders | src/reconciliation/core/classification/classifiers/reorder.py:23-54 | One REORDER for each ordered region with a changed order. |
| TreeValidator.ValidateTreeResult | src/reconciliation/core/validation/tree_validator.py:84-160 | The violations are exactly the prescribed reports, in order. |
| TreeValidator.ReportedIffFaulty | src/reconciliation/core/validation/tree_validator.py:84-160 | A violation with a code and a node is reported exactly if that node has the fault of that code. |
| TreeValidator.AcceptsExactlyRootedTrees | src/reconciliation/core/validation/tree_validator.py:84-160 | No violation exactly when every node has one child-link path from the root and parent links agree. |
| TreeValidator.WalksIntoCycle | src/reconciliation/core/validation/tree_validator.py:63-80 | The parent walk terminates and reports exactly the walks that repeat a node. |
| TreeValidator.DetectCycles | src/reconciliation/core/validation/tree_validator.py:60-81 | One report for each node whose walk repeats, in handle order. |
| Walks.TreeDepth | src/reconciliation/core/metrics/calculator.py:20-29 | The stack walk returns the length of a longest root path. |
| Walks.Descendants | src/reconciliation/core/suppression/service.py:25-33 | The stack walk terminates and collects exactly the strict descendants. |
| Suppression.Suppress | src/reconciliation/core/suppression/service.py:39-116 | One numbered effect for each operation and rule that fire, in order, with its sorted affected nodes; exactly the retained defects. |
| Cascades.EffectHolds | src/reconciliation/core/suppression/service.py:65-111 | Every effect is the record of an emitted operation under a rule of its type whose threshold it reaches: category, confidence, sorted affected nodes and the defect check of a MOVE. |
| Cascades.EffectExists | src/reconciliation/core/suppression/service.py:65-111 | Every emitted operation that affects something has such an effect under every rule that it clears. |
| Suppression.DownstreamSiblings | src/reconciliation/core/suppression/service.py:118-153 | The aligned targets of exactly the regions the operation touches. |
| Suppression.FindIndependentDefects | src/reconciliation/core/suppression/independent_defect.py:16-35 | Exactly the affected nodes named by an UPDATE. |
| Cascades.RetainedIff | src/reconciliation/core/suppression/service.py:74-81 | A node is retained exactly when it has an UPDATE and lies strictly below a node whose MOVE clears some MOVE rule. |
| Cascades.InsertAffects | src/reconciliation/core/suppression/service.py:128-136 | An INSERT affects exactly its target siblings that are counterparts of kept nodes. |
| Cascades.DeleteAffects | src/reconciliation/core/suppression/service.py:137-145 | A DELETE affects exactly the counterparts of its kept source siblings. |
| Cascades.ReorderAffects | src/reconciliation/core/suppression/service.py:146-152 | In every run a REORDER of a parent was reported for one pair of parents, lists the children kept between them, and affects exactly those and the kept children of every sibling it lists. |
| Cascades.EffectsAreGrounded | src/reconciliation/core/contracts/suppression.py:27-59 | Every effect names an emitted operation and a rule it clears, is numbered from one and never carries a retained defect. |
| Cascades.EffectsRepeatIff | src/reconciliation/core/suppression/service.py:65-111 | In every run an operation id and a rule share two effects exactly if two operations of the output carry the id and the rule fires for both, which takes a repeated id. |
| Cascades.RootHiddenIff | src/reconciliation/core/suppression/service.py:74-97 | In every run an INSERT affects the node it is about exactly if that node is also kept in place, which settled roots exclude; a MOVE never does. |
| Causality.CheckAcyclic | src/reconciliation/core/contracts/causality.py:64-88 | Accepts exactly the link sets without a directed cycle; on acceptance the finish order lists every effect before its causes. |
| Causality.Search.HasCycle | src/reconciliation/core/contracts/causality.py:74-83 | The recursive search terminates on every finite link set; a hit is a cycle, a miss settles the node. |
| Causality.SettledIsAcyclic | src/reconciliation/core/contracts/causality.py:85-88 | Finished nodes in finish order exclude every cycle. |
| DataTree.Adapt | src/reconciliation/adapters/data_tree/canonical_adapter.py:96-139 | Succeeds exactly on supported values and then returns the specified tree; an error blames something the value contains. |
| DataShape.AdaptedRepresents | src/reconciliation/adapters/data_tree/canonical_adapter.py:96-257 | The tree stands for the value node by node: arrays of indexed items, objects of keyed properties, typed scalars with value and text, and paths that extend the parent's. |
| DataShape.AdaptedIsRegular | src/reconciliation/adapters/data_tree/canonical_adapter.py:141-257 | In every adapted tree children of arrays are items with their index and no identity, children of objects are properties with one key, contents carry a text exactly if the value is not null, and scalar nodes have the type of their value. |
| DataShape.QuotedKeyReadsBack | src/reconciliation/adapters/data_tree/canonical_adapter.py:63-69 | A quoted key can be read back from a path whatever follows it. |
| DataShape.DecimalReadsBack | src/reconciliation/adapters/data_tree/canonical_adapter.py:182-193 | Indexes are written in decimal and read back as themselves. |
| DataTree.Builder.BuildValue | src/reconciliation/adapters/data_tree/canonical_adapter.py:141-163 | Writes exactly the nodes of the value into the shared map, or reports an error. |
| DataTree.Builder.BuildObject | src/reconciliation/adapters/data_tree/canonical_adapter.py:165-215 | The same for an object, after its keys were checked. |
| DataTree.Builder.BuildArray | src/reconciliation/adapters/data_tree/canonical_adapter.py:217-257 | The same for an array. |
| DataTree.SlotPathsDistinct | src/reconciliation/adapters/data_tree/canonical_adapter.py:63-69 | Members of one container have different paths; escaping never merges two keys. |
| DataRefs.RefInjective | src/reconciliation/adapters/data_tree/canonical_adapter.py:182-193 | Different positions have different node handles. |
| AdaptedTrees.AdaptedIsValid | src/reconciliation/adapters/data_tree/canonical_adapter.py:104-131 | Every adapted tree is one the validator accepts. |
| AdaptedTrees.DecodesAdapted | src/reconciliation/adapters/data_tree/canonical_adapter.py:141-257 | Decoding an adapted tree gives back the value: entry order, keys and typed scalars. |
| AdaptedTrees.AdaptationIsInjective | src/reconciliation/adapters/data_tree/canonical_adapter.py:141-257 | Different values never share a tree, even under different renderings of scalars. |
| AdaptedTrees.LimitsBoundTheTree | src/reconciliation/adapters/json/parser.py:59-103 | A value within the JSON limits gives a tree of at most twice the nodes and twice the depth. |
| JsonLimits.EnforceStructureLimits | src/reconciliation/adapters/json/parser.py:59-103 | Accepts exactly supported values within both limits, and every rejection gives a true reason. |
| JsonLimits.Walker.Walk | src/reconciliation/adapters/json/parser.py:62-101 | The counting walk from any depth and count. |
| JobExecutor.ThreadedJobExecutor.SubmitJob | src/reconciliation/infrastructure/jobs/in_memory.py:37-47 | The locked block of `submit` is one step and returns the RUNNING record it stored. |
| JobExecutor.ThreadedJobExecutor.StoreOutcome | src/reconciliation/infrastructure/jobs/in_memory.py:49-52 | The locked block of `_execute` is one step; the future completes in a later step of its own. |
| JobExecutor.ThreadedJobExecutor.WaitRead | src/reconciliation/infrastructure/jobs/in_memory.py:59-65 | The final read of `wait` is one step and returns the current record. |
| JobExecutor.StepKeepsInvariant | src/reconciliation/infrastructure/jobs/in_memory.py:37-65 | Every step of every interleaving keeps records, futures, tasks and waiters consistent. |
| JobExecutor.ChangesCountStages | src/reconciliation/infrastructure/jobs/in_memory.py:44-52 | Over a whole run a record changes once to RUNNING and at most once more, to a terminal state. |
| JobExecutor.TerminalIsFinal | src/reconciliation/infrastructure/jobs/in_memory.py:49-52 | A terminal record never changes again. |
| JobExecutor.RunningUntilTerminal | src/reconciliation/infrastructure/jobs/in_memory.py:44-57 | A RUNNING record stays until a terminal one replaces it. |
| JobExecutor.WaitReturnsTerminal | src/reconciliation/infrastructure/jobs/in_memory.py:59-65 | A `wait` that found a future returns a terminal record under every interleaving. |
| JobExecutor.WaitReturnsRunningIff | src/reconciliation/infrastructure/jobs/in_memory.py:59-65 | Under every interleaving a `wait` returns a record that is not terminal exactly when the job is submitted after the call started and no outcome of that task is stored before it reads; then the job was unknown at the start. |
| JobExecutor.SubmittedBeforeWaitIsTerminal | src/reconciliation/infrastructure/jobs/in_memory.py:59-65 | A `wait` that starts after the submission returns a terminal record. |
| JobExecutor.EarlyWaitMayReturnRunning | src/reconciliation/infrastructure/jobs/in_memory.py:59-65 | A concrete run in which `wait` returns RUNNING because it looked before the submission. |
| JobExecutor.CrashedStaysRunning | src/reconciliation/infrastructure/jobs/in_memory.py:49-52 | If the service raises, the job stays RUNNING for good and its future never completes. |
| JobExecutor.CrashStrandsWaiters | src/reconciliation/infrastructure/jobs/in_memory.py:59-65 | A `wait` that found the future of such a job never returns a record, under every continuation. |
| JobExecutor.RevertsIffResubmitted | src/reconciliation/infrastructure/jobs/in_memory.py:44-46 | Without fresh ids a step takes a terminal record back exactly if it submits that id again. |
| Normalization.Normalize | src/reconciliation/core/normalization/service.py:64-111 | The normalized tree, and a trace with one entry for exactly each content key dropped or changed. |
| Normalization.NormalizationIsIdempotent | src/reconciliation/core/normalization/service.py:64-111 | A second pass returns the same tree with an empty trace. |
| Normalization.NormalizeValueTwice | src/reconciliation/core/normalization/service.py:46-54 | Collapsing whitespace in a value is idempotent at every depth. |
| Whitespace.NormalizedIsWords | src/reconciliation/core/normalization/service.py:46-49 | Normalized text is the words of the text with one blank between them. |
| Whitespace.NormalizedIsReduced | src/reconciliation/core/normalization/service.py:46-54 | In a value this happens to the strings at every depth and to nothing else. |
| Whitespace.NodeIsReduced | src/reconciliation/core/normalization/service.py:71-106 | Of a node only content changes: excluded keys go, keys that may be rewritten are reduced, the others stay. |
| Whitespace.TracedIff | src/reconciliation/core/normalization/service.py:80-100 | A key is traced as excluded exactly if it is, and as collapsed exactly if it may be rewritten and some string in its value is not yet its words with single blanks between them. |
| Normalization.NormalizedIsTidy | src/reconciliation/core/normalization/service.py:48-49 | Normalized text has single blanks only, none at its ends. |
| Normalization.InkIsKept | src/reconciliation/core/normalization/service.py:48-49 | Normalization keeps every non-whitespace character, in order. |
| Normalization.NormalizedIsValid | src/reconciliation/core/normalization/service.py:104-106 | A valid tree stays valid. |
| Normalization.IdentityIsKept | src/reconciliation/core/normalization/service.py:71-73 | A node whose first usable identifier key is held as identity, or is kept and tidy or not rewritten, keeps its identifier. |
| Normalization.IdSurvivesIff | src/reconciliation/core/normalization/service.py:78-104 | An identifier survives exactly when its key is safe (identity, or not excluded and not rewritten or tidy) or its text vanishes and a later key supplies it again; none appears from nothing. |
| Normalization.IdsMergeIff | src/reconciliation/core/normalization/service.py:78-104 | Any two nodes with different identifiers get the same one exactly when the first texts that outlive normalization agree, under whichever keys and whether held as identity or as content. |
| Normalization.IdsCanMerge | src/reconciliation/core/normalization/service.py:90-100 | Wherever content is rewritten two such nodes exist: both with the text in content, or one of them with the text as identity. |
| Localization.Interpret | src/reconciliation/application/services/localization_validation.py:140-284 | The issues are exactly the prescribed findings, numbered in order, minus the contradictory ones. |
| Report.PairIsListed | src/reconciliation/application/services/localization_validation.py:160-210 | Each confirmed non-root pair is named by one finding: WRONG_PARENT with its MOVE if that was emitted, else SOURCE_UPDATED if stale, else CONFIRMED_MATCH if the confidence reaches the threshold, else PROBABLE_MATCH. |
| Report.PairIsListedOnce | src/reconciliation/application/services/localization_validation.py:160-210 | And at one place of the list only. |
| Report.AbsenceIff | src/reconciliation/application/services/localization_validation.py:251-261 | A source is listed as missing, or as exempt if its type is, exactly for its DELETE. |
| Report.SurplusIff | src/reconciliation/application/services/localization_validation.py:262-271 | A target is listed as extra, or as exempt if its type in the locale is, exactly for its INSERT. |
| Report.WrongOrderIff | src/reconciliation/application/services/localization_validation.py:235-249 | WRONG_ORDER exactly for each REORDER, about its first sibling. |
| Report.AmbiguousIff | src/reconciliation/application/services/localization_validation.py:213-231 | An ambiguity finding names a source on an ambiguous edge and exactly its edges. |
| Report.DroppedIff | src/reconciliation/application/services/localization_validation.py:286-323 | The barrier drops exactly the presence findings about ends of ambiguous edges. |
| Report.ListedIff | src/reconciliation/application/services/localization_validation.py:286-323 | The report is every finding that is not dropped, with its number. |
| Localization.WithoutContradictoryPresence | src/reconciliation/application/services/localization_validation.py:286-323 | Drops exactly the presence issues about nodes held in an ambiguity. |
| Localization.IndexMoves | src/reconciliation/application/services/localization_validation.py:363-371 | Exactly the sources of MOVE operations, each with such an operation. |
| Presence.BarrierIsRedundant | src/reconciliation/application/services/localization_validation.py:286-323 | Under either suppressing policy the filter returns its input unchanged. |
| Presence.NoKeptContradiction | src/reconciliation/application/services/localization_validation.py:303-323 | Under every policy no kept issue calls an ambiguous node missing or extra. |
| Presence.DroppedIsStillReported | src/reconciliation/application/services/localization_validation.py:213-232 | Every dropped node is still named by an ambiguity issue. |
| Presence.PairedAndMissingIff | src/reconciliation/application/services/localization_validation.py:160-261 | Under every policy a confirmed non-root source is also listed as missing exactly when its pair is no confident move, its old parent corresponds to a node other than the new parent in a region that speaks, and no rule exempts it; with settled roots only moves below the threshold remain. |
| Presence.MissingIff | src/reconciliation/application/services/localization_validation.py:251-261 | A MISSING issue exactly for a non-exempt DELETE. |
| Witnesses.PerfectMatchIsDeleted | src/reconciliation/core/matching/matcher.py:177-200 | On two trees of two items the engine deletes a source that agrees with a free target in every weighted signal. |
| Witnesses.PerfectMatchWithheld | src/reconciliation/core/matching/matcher.py:177-189 | In the contest of those trees the pair that scores 1.0 is neither confirmed nor ambiguous. |
| Witnesses.EdgesDependOnHandles | src/reconciliation/core/matching/matcher.py:222-235 | On the evidence of two trees the order of two target handles alone decides which of two pairs is ambiguous; both are fragile. |
| Witnesses.TieDecidesDeletion | src/reconciliation/core/matching/matcher.py:222-235 | On two trees the order of two target handles alone decides which of two sources is deleted. |
| Witnesses.WeakMoveIsPairedAndMissing | src/reconciliation/core/classification/registry.py:84-104 | On two trees a below-threshold move yields a DELETE without INSERT, and an issue list with the node both matched and missing. |
| Witnesses.ReorderHidesGrandchild | src/reconciliation/core/suppression/service.py:146-152 | On two trees a swap of two children gives a REORDER effect that covers the child of one of them, which kept its parent. |
| Witnesses.MatchedIsDeleted | src/reconciliation/core/alignment/aligner.py:75-93 | On two trees two pairs in place, one under both roots, are reported as matched and as deleted. |
| Witnesses.UnweightedEngineRaises | src/reconciliation/core/contracts/matches.py:73-79 | On any two trees of items with one shared identifier the default weights pass every check and the engine raises. |
| Witnesses.RepeatedRegionIdRaises | src/reconciliation/core/contracts/alignment.py:153-157 | On two trees of two nodes two region ids coincide and the engine raises. |
| Ordering.SortRefs | src/reconciliation/core/matching/matcher.py:133-134 | `sorted` over a set of handles: strictly increasing, same members. |
| Ordering.BelowIff | src/reconciliation/core/matching/matcher.py:133-134 | The order of handles is decided at the first difference, and a proper prefix comes first. |
| Ordering.SortsUnique | src/reconciliation/core/matching/matcher.py:15-16 | There is exactly one such sequence, so map order cannot show. |
| Ordering.Sort | src/reconciliation/core/classification/classifier.py:65 | Sorting by key keeps the items and orders them. |

## Left out

- Scores are reals and `round(value, 6)` counts as already applied; calibration and floating point are not modelled.
- Match, region and operation ids are datatypes; their string forms serve as sort keys and in the uniqueness check of region ids. Ids inside other records are compared as datatypes.
- `_signature` (rendering with `repr`), `str` of scalars, `isidentifier` and `isspace` are parameters; theorems hold for every choice, the whitespace ones with the blank as whitespace. The witnesses that depend on signatures use `Rendered`, which is the rendering of the nodes that occur in them.
- Value equality models Python's numeric equality of booleans, integers and floats; NaN is not modelled.
- Source locations keep the path only; extension properties, contract versions, metadata, messages, severities, labels and recommended actions are omitted.
- Root-cause analysis, diagnostics, timings and profile versions of the engine; the analyzer emits no links, so only the cycle check of the causal graph is modelled.
- Normalization, classifier and localization services are taken with their default wiring; injected replacements and the classifier registry are not modelled.
- `_build_object` and `_build_array` share one member loop here; on error the partly filled node map is discarded, as in the source.
- Parsing of JSON, YAML, XML and DITA text; the walk starts from parsed values, and object keys need not be distinct.
- Job ids generated from UUIDs are parameters; the pool is a set of steps without scheduling, fairness or liveness, and `shutdown` is omitted.
- Localization: translation state and policy exemptions are parameters; summary counts, recommendations and attachments are omitted.
- CLI, HTTP delivery, persistence, reports, benchmark and the packaged profile files.
- The order of ambiguous edges, offers and groups follows sorted handles where the source follows dictionary insertion; the result is a set in both.
