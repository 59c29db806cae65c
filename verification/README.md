# A verified model of the regime engine's core

This project models the stateful and algorithmic core of the regime engine in Dafny and proves what that core is meant to
guarantee. Methods follow the code step by step; specification functions say what the result means; lemmas prove the
properties that span calls and runs.

- **Evidence selection** (`Evidence`, `Candidates`, `Ranking`, `SelectionSpec`, `Selection`, `SourceUnion`, `Coverage`,
  `Summary`, `Conflicts`, `Warnings`, `Reporting`, `Slots`, `Selector`, `Invariance`, `Verdicts`, `Listings`). Bundles are
  scored in exact basis points, ranked and capped per family, reduced to the largest set of features closed under
  in-bundle lineage, and briefs are judged against what survived; conflicts, warnings and the union of source references
  follow. The specification speaks only of the sets of slots and records, so the result cannot depend on any order; the
  selector is proved to compute exactly that and never to fail its own closing checks. `Verdicts` and `Listings` say what
  such a summary tells about a single bundle, feature, claim, brief, conflict or reference, in the records' own fields and
  in numbers.
- **Bundle validation** (`Lineage`, `Graphs`). The depth-first cycle search with its shared sets, and the identity and
  resolution checks.
- **Position synthesis queue and worker** (`QueueSpec`, `QueueRuns`, `QueueExclusion`, `QueueLeases`, `Queue`,
  `PositionWorker`). The request table with two-sided rendezvous, head-of-line claims, leases and retries. The class runs the
  adapter's statements against the row table; its ghost log of calls ties every state to a run, and the lemmas quantify over
  all runs.
- **Pair synthesis cursor and worker** (`CursorSpec`, `PairCursor`). The two-component watermark with lease, snapshot,
  back-off and attempt counter.
- **Start-up reconciliation's concurrent map** (`ConcurrentMap`). Every interleaving of the workers that share one index.
- **Canonical JSON** (`JsonText`, `Canonical`, `JsonReader`) and **scope keys** (`ScopeKeys`). Unique decodability, a reader
  that undoes the printer, and an exact parser.
- **Candles** (`Candles`, `ReadPlan`, `Revisions`, `Ingestion`). Aggregation to hours, the closed-candle read plan, and the
  append-only revision log behind two adapters.
- **Regime classifier** (`Classifier`) and **history pagination** (`History`).
- `Sorting` holds the orders and the stable sort that the others share.

Each database call is one atomic step on an in-memory table. Clocks, network answers and the results of unseen code are
parameters. SHA-256 digests are given as texts; distinctness is assumed only where a lemma says so.

Where the code and its declared intent differ, the model follows the code, and the difference is a result:

- Promotion keeps a waiting row's id, so a scope can have two rows in processing. `QueueExclusion` proves that a run keeps
  every scope to one row in processing if and only if no enqueue promotes a row past a younger row in processing, a condition
  that can be read off the table before the call, and gives a run in which it fails.
- Failing a row that waits for its plan violates the table's hash check whenever such a row exists, so it never takes effect.
- A report that repeats the stored candle does not advance its source time. `Ingestion` proves exactly when the final view
  is nevertheless independent of the arrival order.
- A row that becomes visible late, with an id below a snapshot already claimed, is marked as processed without having been
  seen. `CursorSpec` proves that it happens at no moment of a run, whoever completes next, if and only if every row lands
  above the watermark and above the held snapshot when it is inserted, and gives a run in which it happens.
- The coverage counter for research briefs counts every included brief, although only the last one is attached.

## Model

| member | source | states |
|---|---|---|
| `Selector.SelectEvidence` | src/engine/evidence/selectEvidence.ts:233-1728 | never throws on stored records with an accepted policy (no impossible score, no failed integrity check); rejects exactly a negative time or a policy out of bounds; otherwise returns the summary that the order-free specification determines |
| `Invariance.SelectionForgetsOrder` | src/engine/evidence/selectEvidence.ts:243-276 | permuting the records, and features, claims, source references, cited references, feature warnings, key findings and uncertainties inside any bundle, gives the identical summary: header, decisions, selected items, coverage, availability, conflicts, mode, warnings, source-reference union and bundle lineage |
| `Invariance.CorrectForgetsRecordOrder` | src/engine/evidence/selectEvidence.ts:243-276 | the summary specified for some records is the one specified for any permutation of them |
| `Invariance.CorrectForgetsItemOrder` | src/engine/evidence/selectEvidence.ts:1553-1643 | two summaries for records that differ only in the order of items and references inside bundles are equal |
| `Invariance.SummaryUnique` | src/engine/evidence/selectEvidence.ts:1553-1643 | the slots determine the summary apart from its accounts: every output list is in a strict canonical order |
| `Invariance.AccountsUnique` | src/engine/evidence/selectEvidence.ts:1458-1639 | input and records determine the header, the availability counters, the source-reference union and the bundle list |
| `Invariance.AccountsForgetItemOrder` | src/engine/evidence/selectEvidence.ts:1458-1639 | those accounts do not change when items and references inside bundles are rearranged |
| `SourceUnion.BuildUnion` | src/engine/evidence/selectEvidence.ts:1458-1559 | the union holds exactly the references that some decided feature or claim of their bundle cites, each once, marked as selected lineage if an included item cites it and as audit-only if an excluded one does, ordered by publisher, source, hash and reference id |
| `SourceUnion.ScanRefs` | src/engine/evidence/selectEvidence.ts:1511-1523 | one item's citations add exactly their marks, whatever was met before |
| `SourceUnion.FindUnique` | src/engine/evidence/selectEvidence.ts:1476-1503 | distinct reference ids make the find independent of the list's order |
| `Coverage.BundlesListed` | src/engine/evidence/selectEvidence.ts:1635-1639 | one entry per bundle, accepted or rejected with its reason, strictly by publisher, source and hash |
| `Coverage.CountFeatures` | src/engine/evidence/selectEvidence.ts:874-884 | the three counters are the numbers of features in each state, over all bundles, rejected ones too |
| `Slots.FeaturesConserved` | src/engine/evidence/selectEvidence.ts:874-884 | the three counters add up to the number of feature slots |
| `Slots.MapTells` | src/engine/evidence/selectEvidence.ts:1509-1546 | every citing item has a decision, and it says whether the slot is included |
| `Conflicts.FindConflicts` | src/engine/evidence/selectEvidence.ts:1294-1330 | strictly by message, exactly one conflict for each contextual family with an included bullish and an included bearish claim; its affected ids are exactly those claims in strict id order, its totals the sums of their scores |
| `Conflicts.FamilyStatuses` | src/engine/evidence/selectEvidence.ts:1240-1261 | missing means nothing registered, rejected means registered but nothing included, conflicted means included claims in both directions |
| `Conflicts.ModeRight` | src/engine/evidence/selectEvidence.ts:1269-1292 | full exactly with a brief and unconflicted included claims in all five families, degraded exactly with neither brief nor claim, partial otherwise |
| `Conflicts.TotalOfList` | src/engine/evidence/selectEvidence.ts:1306-1314 | the running total over a list is the sum over the set of its candidates |
| `Warnings.FindWarnings` | src/engine/evidence/selectEvidence.ts:1332-1456 | exactly the warnings that are due, each once, strictly by code and family |
| `Warnings.FindStale` | src/engine/evidence/selectEvidence.ts:1335-1355 | the stale warning is due exactly if a selected item or the attached brief carries the stale weight |
| `Invariance.TidyDecide` | src/engine/evidence/selectEvidence.ts:1000-1116 | sorting the references of every candidate changes no verdict: dependency closure, missing citations and brief scores ignore reference order |
| `Selection.ResolveDependencies` | src/engine/evidence/selectEvidence.ts:1002-1045 | the repeated scan ends with exactly the preliminary candidates all of whose transitive in-bundle feature dependencies are preliminary, cycles included |
| `Selection.ScanDependencies` | src/engine/evidence/selectEvidence.ts:1004-1044 | one pass never removes a survivor; it strictly shrinks the set if it reports a change, and leaves a dependency-closed set if it does not |
| `Selection.VisitFeature` | src/engine/evidence/selectEvidence.ts:1010-1043 | a feature is removed only if it cannot survive, and is otherwise free of dependencies outside the current set |
| `Selection.HasExcludedDependency` | src/engine/evidence/selectEvidence.ts:1013-1029 | the inner loop finds an in-bundle dependency that is excluded or no longer preliminarily included exactly when there is one |
| `SelectionSpec.SurvivorsClosed` | src/engine/evidence/selectEvidence.ts:1014-1028 | no survivor depends on a feature that did not survive |
| `SelectionSpec.SurvivorsLargest` | src/engine/evidence/selectEvidence.ts:1002-1045 | every dependency-closed set of preliminary candidates consists of survivors: they are the greatest such set |
| `Selection.CapFamily` | src/engine/evidence/selectEvidence.ts:926-1000 | a family's decisions after threshold, ranking and cap are final verdicts, and what is kept is exactly its preliminary candidates |
| `Selection.CapFamilies` | src/engine/evidence/selectEvidence.ts:926-1000 | after all families exactly the preliminary candidates are open, in whatever order the families are visited |
| `Selection.ApplyThreshold` | src/engine/evidence/selectEvidence.ts:934-948 | excludes exactly the candidates below the minimum score and keeps the others, each once |
| `Selection.TakeBest` | src/engine/evidence/selectEvidence.ts:989-999 | of a ranked family the first maxSelectedPerFamily are kept and the rest get the family-limit verdict |
| `Selection.PlaceIsRank` | src/engine/evidence/selectEvidence.ts:950-999 | a candidate's index after sorting is the number of same-family candidates over the threshold that rank before it |
| `Selection.FamilyFilled` | src/engine/evidence/selectEvidence.ts:989-999 | a family keeps exactly as many candidates as the cap allows, or all that pass the threshold if fewer |
| `SelectionSpec.CapExcludesTheLowest` | src/engine/evidence/selectEvidence.ts:989-999 | whatever the cap excludes ranks after everything it keeps |
| `SelectionSpec.CapKeepsTheBest` | src/engine/evidence/selectEvidence.ts:950-999 | what the cap keeps has a score at least as high as what it cuts; for equal scores a later or equal as-of time; then a later observation, none counting as earliest; then publisher, source, local id and hash ascend by code unit |
| `Verdicts.CapVerdict` | src/engine/evidence/selectEvidence.ts:926-1000 | in any summary: if an item is included and another of its family gets the family-limit verdict, the included one's score is at least as high, and ties are decided by the records' as-of times, the observation times, publisher, source, local id and hash, in that order |
| `Verdicts.EachItemDecided` | src/engine/evidence/selectEvidence.ts:1213-1220 | every feature, every claim and the brief slot of every record has exactly one decision in the summary |
| `Verdicts.BundleVerdict` | src/engine/evidence/selectEvidence.ts:329-621 | a bundle is accepted exactly if it has the asked scope, its stored lifecycle is what its own times say and is not expired, and its source has a quality other than zero; otherwise it is listed with the one reason that applies, mismatch before disabled before expired |
| `Verdicts.RejectedVerdict` | src/engine/evidence/selectEvidence.ts:344-606 | whatever belongs to a rejected bundle is excluded for the bundle's reason, with zero weights and no score |
| `Verdicts.FeatureVerdict` | src/engine/evidence/selectEvidence.ts:623-725 | the decision on a feature of an accepted bundle, in its own fields: unavailable and invalid ones are excluded as such; an available one carries 10000 or the stale weight by its own and its bundle's freshness, the floor of its product over 10^12 as score, is excluded exactly for the threshold when that is below the minimum, and has the reasons that its weight and verdict call for |
| `Verdicts.ClaimVerdict` | src/engine/evidence/selectEvidence.ts:728-797 | the same for a claim, by its provenance method and its own expiry; only the threshold and the cap can exclude an unexpired one |
| `Verdicts.BriefVerdict` | src/engine/evidence/selectEvidence.ts:1058-1116 | the decision on a brief: excluded without score if something it cites is not included, naming exactly those citations in ascending order; otherwise its score is the greatest integer that exceeds neither its bundle's confidence nor the average of the scores of the included decisions it cites, 0 if it cites nothing, and it is included exactly if that reaches the minimum |
| `Verdicts.NoBriefVerdict` | src/engine/evidence/selectEvidence.ts:832-853 | a bundle without a brief has one decision that says so |
| `Verdicts.DependencyVerdict` | src/engine/evidence/selectEvidence.ts:1002-1045 | an included feature has all features of its bundle that its lineage names included; one excluded for its dependencies has one that is not |
| `Verdicts.ScoreIsFloor` | src/engine/evidence/selectEvidence.ts:677-687 | score times 10^12 is at most the product of confidence, source, provenance and freshness, and the next integer's is not |
| `Listings.SelectedAreIncluded` | src/engine/evidence/selectEvidence.ts:1118-1211 | every selected item repeats the origin, numbers, score and reasons of an including decision and shows an item of a record, with its lists in ascending copies and every other field unchanged |
| `Listings.IncludedAreSelected` | src/engine/evidence/selectEvidence.ts:1118-1211 | every including decision has its item in the list of its group |
| `Listings.ReferencesListed` | src/engine/evidence/selectEvidence.ts:1458-1546 | the references listed are exactly those of some record that a decided feature or claim of it cites, marked as selected lineage and as audit-only by the included and excluded decisions on such items |
| `Listings.LastBriefAttached` | src/engine/evidence/selectEvidence.ts:1181-1206 | the attached brief belongs to the greatest record, in record order, whose brief is included |
| `Listings.NoBriefAttached` | src/engine/evidence/selectEvidence.ts:1181-1206 | no brief is attached exactly if no decision includes one |
| `Listings.ConflictVerdict` | src/engine/evidence/selectEvidence.ts:1294-1326 | a conflict affects exactly the included bullish and bearish claims of its family, both kinds exist, each total is the sum of the scores of the decisions on them, and the consensus is the floor of the gap times 10000 over the sum |
| `Listings.AffectedAscend` | src/engine/evidence/selectEvidence.ts:1299-1304 | the claims that a conflict affects ascend by the texts of their ids |
| `Listings.ConflictsAscend` | src/engine/evidence/selectEvidence.ts:1330 | conflicts are listed in the order derivatives, events, flows, newsRegulatory, supportResistance |
| `Listings.WarningsAscend` | src/engine/evidence/selectEvidence.ts:1415-1456 | warnings are listed by code (stale, conflicted, missing, rejected, no research), and those of one code by family |
| `Listings.DecisionsAscend` | src/engine/evidence/selectEvidence.ts:1220 | decisions ascend by the texts of their ids |
| `Listings.SelectedAscend` | src/engine/evidence/selectEvidence.ts:1562-1611 | the selected items of a group ascend by the texts of their ids |
| `Listings.ReferencesAscend` | src/engine/evidence/selectEvidence.ts:1553-1559 | source references ascend by publisher, source, hash and reference id |
| `Listings.BundlesAscend` | src/engine/evidence/selectEvidence.ts:1635-1639 | bundles ascend by publisher, source and hash |
| `SelectionSpec.IncludedIffSurvives` | src/engine/evidence/selectEvidence.ts:1047-1056 | a feature or claim is included exactly when it survives |
| `SelectionSpec.IncludedDependenciesIncluded` | src/engine/evidence/selectEvidence.ts:1014-1056 | an included feature depends only on included features of its bundle |
| `SelectionSpec.IncludedBriefCitesIncluded` | src/engine/evidence/selectEvidence.ts:1064-1091 | an included brief cites only included evidence of its own bundle |
| `Selection.IncludeSurvivors` | src/engine/evidence/selectEvidence.ts:1047-1056 | with the survivors included, every feature and claim slot has its final verdict |
| `Selection.EvaluateBrief` | src/engine/evidence/selectEvidence.ts:1060-1115 | a brief gets the specified verdict and is appended to the decision order |
| `Selection.EvaluateBriefs` | src/engine/evidence/selectEvidence.ts:1058-1116 | after the briefs every slot is decided, and the briefs are last in the order of decisions |
| `Selection.FindMissing` | src/engine/evidence/selectEvidence.ts:1061-1077 | the collected ids are the citations that name no surviving feature or claim, in citation order |
| `Selection.AverageScore` | src/engine/evidence/selectEvidence.ts:1089-1100 | the floored average over the citations that carry a score, feature before claim |
| `Selection.CitationLookup` | src/engine/evidence/selectEvidence.ts:1064-1077 | looking a citation up in the decision map tells what the specification says about it |
| `Selector.DecidedOnce` | src/engine/evidence/selectEvidence.ts:1645-1658 | every slot has exactly one decision, and it is the specified one |
| `Selector.SummaryHasIntegrity` | src/engine/evidence/selectEvidence.ts:1645-1689 | a summary that meets the specification passes every closing check: one decision per candidate, selected items included, scores in range |
| `Selector.DecideInRange` | src/engine/evidence/selectEvidence.ts:1089-1115 | every decision's score is a basis-point value; a brief's is the lesser of its bundle's confidence and a floored average |
| `Selector.ValidatePolicy` | src/engine/evidence/selectionPolicy.ts:78-120 | accepts exactly the policies with a non-blank version whose fields, listed source qualities and provenance weights are basis points and whose cap is positive |
| `Selector.PolicyBounds` | src/engine/evidence/selectionPolicy.ts:60-120 | in numbers: some character of the version outside the trimmed code points, every share between 0 and 10000, and a cap of at least 1 |
| `Selector.BriefsInRecordOrder` | src/engine/evidence/selectEvidence.ts:1058-1061 | the last included brief in registration order is the last included brief slot in record order |
| `Selector.RecordScoreInRange` | src/engine/evidence/selectEvidence.ts:677-687 | every score a record can register is a basis-point value, so the impossible-score error cannot occur |
| `Candidates.ScoreBounded` | src/engine/evidence/selectEvidence.ts:677-687 | a score is a floor in [0, 10000] and at most each of its four factors |
| `Candidates.Registry.ComputeScore` | src/engine/evidence/selectEvidence.ts:677-687 | the exact product is divided once, rounding down, and the range check never fires |
| `Candidates.Registry.RegisterRecord` | src/engine/evidence/selectEvidence.ts:329-877 | a record adds exactly one outcome per feature, claim and brief slot, in registration order: rejected, excluded early, or registered |
| `Candidates.Registry.RejectBundle` | src/engine/evidence/selectEvidence.ts:346-430 | a rejected bundle excludes each of its slots once, for the bundle's reason |
| `Candidates.Registry.RegisterAll` | src/engine/evidence/selectEvidence.ts:329-877 | all records, in order, with no impossible score |
| `Slots.RecordSlotsDistinct` | src/engine/evidence/selectEvidence.ts:623-877 | a record's slots have distinct ids built from its hash, and each feature has a slot |
| `Slots.SlotsWellSlotted` | src/contract/evidence/v1/validate.ts:96-184 | distinct hashes and the validator's unique ids make every candidate id name one slot |
| `Slots.SlotsMatchRecords` | src/engine/evidence/selectEvidence.ts:1010-1019 | every registered candidate's record is found by its hash, and its features are exactly the feature slots of that hash |
| `Slots.SeedDecisions` | src/engine/evidence/selectEvidence.ts:921-924 | the decision map starts with exactly the early exclusions |
| `Slots.Catalog` | src/engine/evidence/selectEvidence.ts:886-892 | all registered candidates under their ids |
| `Summary.CollectSelected` | src/engine/evidence/selectEvidence.ts:1118-1211 | the lists, the coverage counters and the attached brief hold exactly the included candidates; every included brief is counted, the last one is attached |
| `Summary.ConsensusRange` | src/engine/evidence/selectEvidence.ts:1305-1321 | consensus is a basis-point value, symmetric, 0 for balanced totals and 10000 when one side carries no weight |
| `Summary.LastCollected` | src/engine/evidence/selectEvidence.ts:1181-1206 | the brief left after the loop is the last included one |
| `Summary.FinalListSorted` | src/engine/evidence/selectEvidence.ts:1562-1611 | a final list holds the normalized items in strict id order |
| `Reporting.BuildSummary` | src/engine/evidence/selectEvidence.ts:1118-1695 | the summary assembled from the decision map, the family lists and the accounts is the specified one |
| `Reporting.ListDecisions` | src/engine/evidence/selectEvidence.ts:1213-1220 | one decision per slot, in strict id order |
| `Ranking.RecordOrder` | src/engine/evidence/selectEvidence.ts:245-276 | the record comparator compares keys in a strict total order |
| `Ranking.CandidateOrder` | src/engine/evidence/selectEvidence.ts:950-987 | the candidate comparator, missing observation times last, compares keys in a strict total order; what it prefers is said by BetterFirst |
| `Ranking.BetterFirst` | src/engine/evidence/selectEvidence.ts:950-987 | of two candidates the one placed first has the higher score, then the later as-of time, then the later observation with none last, then publisher, source, local id and hash ascending by code unit |
| `Ranking.EarlierFirst` | src/engine/evidence/selectEvidence.ts:245-276 | of two records the one placed first has the lesser publisher, source and as-of time, then the earlier receipt, the lower row id, the lesser hash |
| `Ranking.IdTextOrder` | src/engine/evidence/selectEvidence.ts:1004-1008 | for hashes of one length, comparing ids part by part is comparing their texts hash/kind/localId |
| `Ranking.RecordSortForgetsOrder` | src/engine/evidence/selectEvidence.ts:244-276 | sorting records with distinct hashes forgets their input order |
| `Sorting.SortStrictly` | src/engine/evidence/selectEvidence.ts:950-987 | sorting items with distinct keys yields a strictly sorted permutation |
| `Sorting.StringsAscend` | src/engine/evidence/selectEvidence.ts:245-262 | a text is less than another exactly if it is a proper prefix of it or has the lower code unit at their first difference |
| `Sorting.SortedUnique` | src/engine/evidence/selectEvidence.ts:1553-1643 | a strictly sorted sequence is determined by its elements |
| `Lineage.CycleDetector.DetectCycle` | src/contract/evidence/v1/validate.ts:198-225 | without a cycle the node is finished: nothing leads out of the finished nodes and none lies on a cycle; otherwise the answer starts with a node on a cycle reachable from the argument; unvisited nodes decrease |
| `Lineage.FindCycle` | src/contract/evidence/v1/validate.ts:227-231 | a search from a feature returns a cycle if and only if one is reachable from it over known ids |
| `Lineage.CheckCycles` | src/contract/evidence/v1/validate.ts:227-238 | an issue for a feature exactly when a cycle is reachable from it; none at all exactly when the lineage graph is acyclic |
| `Lineage.CheckFeatureLineage` | src/contract/evidence/v1/validate.ts:240-250 | exactly the lineage ids that are neither features nor references are reported |
| `Lineage.CheckClaimSources` | src/contract/evidence/v1/validate.ts:252-270 | exactly the claim sources that are not references are reported |
| `Lineage.CheckBriefEvidence` | src/contract/evidence/v1/validate.ts:272-283 | exactly the brief citations that are neither features nor claims are reported |
| `Lineage.CheckUniqueIds` | src/contract/evidence/v1/validate.ts:96-184 | no issue exactly when feature, evidence and reference ids are each unique and the three kinds share none; each duplicate kind is reported exactly when it occurs |
| `Lineage.FindSharedIds` | src/contract/evidence/v1/validate.ts:158-176 | an id is shared exactly when it occurs in two of the three kinds |
| `Lineage.CheckIdentityAndLineage` | src/contract/evidence/v1/validate.ts:96-284 | no issue exactly when ids are unique, references resolve and lineage is acyclic |
| `Lineage.EdgesAre` | src/contract/evidence/v1/validate.ts:193-215 | an edge of the lineage graph leads from a feature to exactly the features and source references of the bundle that its lineage names |
| `Graphs.AcyclicGivesRank` | src/contract/evidence/v1/validate.ts:227-238 | in an acyclic lineage graph the number of descendants drops along every edge: a topological rank |
| `Graphs.RankGivesAcyclic` | src/contract/evidence/v1/validate.ts:227-238 | a rank that drops along every edge excludes cycles |
| `ScopeKeys.ParsePositionScopeKey` | src/application/use-cases/requestPositionPolicyInsightSynthesisUseCase.ts:93-129 | the parser is the exact inverse of the printer on position scopes and rejects every other text |
| `ScopeKeys.ParsePrefix` | src/application/use-cases/requestPositionPolicyInsightSynthesisUseCase.ts:99-110 | reads one length-prefixed part, or fails exactly where the code does |
| `ScopeKeys.ScopeKeyInjective` | src/application/ports/evidenceBundleRepositoryPort.ts:83-101 | different scopes of any of the four kinds have different keys |
| `ScopeKeys.SourceQualityKeyInjective` | src/engine/evidence/selectionPolicy.ts:56-58 | different publisher and source pairs have different keys |
| `ScopeKeys.PrintedKeys` | src/application/ports/evidenceBundleRepositoryPort.ts:83-101 | one printed key of each kind, character by character |
| `QueueSpec.RunKeeps` | src/ledger/pg/schema/policyInsightSynthesisRequests.ts:24-53 | every reachable table satisfies the invariant and with it all checks and the three partial unique indexes |
| `QueueSpec.ApplyKeeps` | src/adapters/postgres/postgresPositionPolicyInsightSynthesisQueueAdapter.ts:74-514 | every call keeps the invariant: a waiting row is the only row of its group with its hash, ready rows are unique, hashes and leases are coherent |
| `QueueSpec.InvGivesConstraints` | src/ledger/pg/schema/policyInsightSynthesisRequests.ts:24-53 | isolation of waiting rows and unique ready rows give every declared constraint |
| `QueueLeases.RowsSay` | src/ledger/pg/schema/policyInsightSynthesisRequests.ts:24-53 | whatever was called, a stored row has an owner and a lease exactly while in processing, lacks a hash exactly while waiting for it, and is the only one for its scope, ruleset, selection and plan |
| `QueueSpec.EnqueueBothKeeps` | src/adapters/postgres/postgresPositionPolicyInsightSynthesisQueueAdapter.ts:93-206 | promoting, deleting or inserting for a pair of hashes keeps the invariant |
| `Queue.NothingWaitsBesideReady` | src/adapters/postgres/postgresPositionPolicyInsightSynthesisQueueAdapter.ts:95-116 | next to a ready row no row waits with either hash, so the clean-up DELETE removes nothing |
| `QueueSpec.OneWaits` | src/adapters/postgres/postgresPositionPolicyInsightSynthesisQueueAdapter.ts:118-158 | at most one row waits with a hash, so LIMIT 1 has no choice |
| `Queue.SynthesisQueue.EnqueueOrReconcile` | src/adapters/postgres/postgresPositionPolicyInsightSynthesisQueueAdapter.ts:74-283 | never violates a constraint; refuses exactly when both hashes are missing; the answered row is stored, in its group, and carries the given hashes; a new one starts without attempts, lease or back-off in the state its missing half calls for, and an old one is unchanged or was waiting for the hash that it now has |
| `Queue.SynthesisQueue.EnqueueWithBoth` | src/adapters/postgres/postgresPositionPolicyInsightSynthesisQueueAdapter.ts:93-206 | the statements for two hashes have the specified effect |
| `Queue.SynthesisQueue.CompleteWithPlan` | src/adapters/postgres/postgresPositionPolicyInsightSynthesisQueueAdapter.ts:118-148 | the row waiting for the plan is completed under its old id, and only then the other waiting row is deleted, without violating a constraint in between |
| `Queue.SynthesisQueue.CompleteWithSelection` | src/adapters/postgres/postgresPositionPolicyInsightSynthesisQueueAdapter.ts:150-180 | the row waiting for evidence is completed under its old id; the DELETE after it removes nothing |
| `Queue.SynthesisQueue.ScopeHeads` | src/adapters/postgres/postgresPositionPolicyInsightSynthesisQueueAdapter.ts:292-297 | the grouped minimum is the head of each scope |
| `Queue.FirstOf` | src/adapters/postgres/postgresPositionPolicyInsightSynthesisQueueAdapter.ts:305-311 | the first ids in ascending order, up to the limit |
| `Queue.SynthesisQueue.ClaimBatch` | src/adapters/postgres/postgresPositionPolicyInsightSynthesisQueueAdapter.ts:285-350 | returns exactly the claimed rows in ascending order, each held by the caller under a lease that ends now + duration, with one attempt more and no back-off; all other rows stay as they are |
| `QueueRuns.OneClaimPerScope` | src/adapters/postgres/postgresPositionPolicyInsightSynthesisQueueAdapter.ts:292-297 | a batch holds at most one row per scope, and it is the scope's least active id |
| `QueueRuns.BatchTakesFirst` | src/adapters/postgres/postgresPositionPolicyInsightSynthesisQueueAdapter.ts:305-311 | a due head is passed over only in favour of smaller ids |
| `Queue.SynthesisQueue.End` | src/adapters/postgres/postgresPositionPolicyInsightSynthesisQueueAdapter.ts:352-394 | a finishing call succeeds exactly for the leaseholder, then writes the final status and code and drops the lease, and otherwise changes nothing |
| `Queue.SynthesisQueue.ReleaseForRetry` | src/adapters/postgres/postgresPositionPolicyInsightSynthesisQueueAdapter.ts:453-514 | releases to pending or, at the attempt limit, to failed; only for the leaseholder |
| `Queue.SynthesisQueue.FailWaitingForPlan` | src/adapters/postgres/postgresPositionPolicyInsightSynthesisQueueAdapter.ts:396-427 | violates the hash check exactly when a row matches, and never changes the table |
| `Queue.FailingWaitingIsForbidden` | src/ledger/pg/schema/policyInsightSynthesisRequests.ts:32-35 | marking a row without a plan as failed is against the hash check |
| `QueueRuns.LeaseIsHistory` | src/adapters/postgres/postgresPositionPolicyInsightSynthesisQueueAdapter.ts:352-514 | a finishing call by an owner would succeed exactly when the row's last claim was by that owner with no successful finish since |
| `QueueRuns.FinishNeedsLease` | src/adapters/postgres/postgresPositionPolicyInsightSynthesisQueueAdapter.ts:352-514 | a finishing call by anyone else leaves the table as it was |
| `QueueRuns.AttemptsAreClaims` | src/adapters/postgres/postgresPositionPolicyInsightSynthesisQueueAdapter.ts:314-321 | in every run attempt_count is the number of times the row was claimed |
| `QueueRuns.PendingBudget` | src/adapters/postgres/postgresPositionPolicyInsightSynthesisQueueAdapter.ts:479-512 | a pending row always has attempts left |
| `QueueRuns.ClaimsBounded` | src/adapters/postgres/postgresPositionPolicyInsightSynthesisQueueAdapter.ts:314-321 | no row is claimed more often than the attempt limit plus the expired leases taken over |
| `QueueLeases.LeaseLasts` | src/adapters/postgres/postgresPositionPolicyInsightSynthesisQueueAdapter.ts:292-323 | over any run, a row that has been in someone's hands since a claim is not claimed again before that claim's time plus its duration |
| `QueueLeases.NextClaimWaits` | src/adapters/postgres/postgresPositionPolicyInsightSynthesisQueueAdapter.ts:292-323 | so the next worker to claim a row whose owner does not finish it comes no earlier than the end of the owner's lease |
| `QueueLeases.RetryWaits` | src/adapters/postgres/postgresPositionPolicyInsightSynthesisQueueAdapter.ts:453-514 | over any run, a row released for retry is not claimed before its retry time |
| `QueueLeases.ClaimedWithinLimit` | src/adapters/postgres/postgresPositionPolicyInsightSynthesisQueueAdapter.ts:479-512 | in a run in which no claim finds the row in someone's hands, it is claimed at most as often as the attempt limit |
| `QueueLeases.TakeoverExactly` | src/adapters/postgres/postgresPositionPolicyInsightSynthesisQueueAdapter.ts:292-323 | a claimed row can be claimed by anyone exactly from the end of its lease on |
| `QueueLeases.RetryExactly` | src/adapters/postgres/postgresPositionPolicyInsightSynthesisQueueAdapter.ts:453-514 | a released head can be claimed again exactly from its retry time on |
| `QueueLeases.FreshIsClaimable` | src/adapters/postgres/postgresPositionPolicyInsightSynthesisQueueAdapter.ts:182-206 | a request for two hashes in a new scope can be claimed at once, at any time |
| `QueueRuns.TerminalForever` | src/adapters/postgres/postgresPositionPolicyInsightSynthesisQueueAdapter.ts:352-514 | completed, failed and superseded rows never change again |
| `QueueRuns.EndsOnce` | src/ledger/pg/schema/policyInsightSynthesisRequests.ts:45-47 | a scope, ruleset, selection and plan ends at most once in any run |
| `QueueRuns.Rendezvous` | src/adapters/postgres/postgresPositionPolicyInsightSynthesisQueueAdapter.ts:118-180 | a waiting row changes only when a call brings its missing half, and then its group has a ready row with both hashes; none is lost and none is ever failed |
| `QueueExclusion.ExclusionHolds` | src/adapters/postgres/postgresPositionPolicyInsightSynthesisQueueAdapter.ts:292-297 | if no waiting row is promoted past a younger row in processing, every reachable table has at most one processing row per scope, its least active one |
| `QueueExclusion.PromotableIsPromoted` | src/adapters/postgres/postgresPositionPolicyInsightSynthesisQueueAdapter.ts:128-137 | the guard on the table before the call (both hashes given, nothing ready, the row waiting for the plan, or else the one waiting for the evidence) names exactly the rows the call promotes |
| `QueueExclusion.ExclusionExactly` | src/adapters/postgres/postgresPositionPolicyInsightSynthesisQueueAdapter.ts:292-323 | a run leaves every scope with at most one row in processing, whatever claim comes next at any point, if and only if no call in it promotes a row past a younger row in processing |
| `QueueExclusion.OvertakingIsTheOnlyBreak` | src/adapters/postgres/postgresPositionPolicyInsightSynthesisQueueAdapter.ts:128-137 | from a table in which only heads are processed, a call keeps it so if and only if it does not overtake |
| `QueueExclusion.OvertakingLosesExclusion` | src/adapters/postgres/postgresPositionPolicyInsightSynthesisQueueAdapter.ts:128-137 | after any overtaking promotion the next large enough claim has two rows of the scope in processing |
| `QueueExclusion.ExclusionCanFail` | src/adapters/postgres/postgresPositionPolicyInsightSynthesisQueueAdapter.ts:128-137 | a run of five calls that does so |
| `PositionWorker.RunCycle` | src/workers/policyInsight/runPositionSynthesisCycle.ts:128-449 | whatever others do between claim and finish, the reported outcome is the state of the claimed row, or the lease was lost and the finishing call changed nothing; idle exactly when no head was due; unless the lease was lost, result and code are those that scope, plan and errors call for |
| `PositionWorker.LeaseKeepsAttempts` | src/workers/policyInsight/runPositionSynthesisCycle.ts:388-446 | a worker that still holds its row held it throughout, with the attempt count it was given |
| `PositionWorker.ReleaseRequest` | src/workers/policyInsight/runPositionSynthesisCycle.ts:388-446 | the worker's exhausted verdict is the status that the queue writes |
| `PositionWorker.TryBlock` | src/workers/policyInsight/runPositionSynthesisCycle.ts:147-316 | either throws the first error that is reached, having written nothing, or makes the one finishing call that the scope and the plan call for, with its code |
| `PositionWorker.Work` | src/workers/policyInsight/runPositionSynthesisCycle.ts:147-446 | each finding leads to the one finishing call, result and code that fits it, unless the lease was lost |
| `PositionWorker.OutcomeKinds` | src/workers/policyInsight/runPositionSynthesisCycle.ts:98-125 | clear requests succeed and no others; supersession goes before permanent failure; exactly the remaining errors below the attempt limit are retried |
| `PositionWorker.SupersessionIsReported` | src/workers/policyInsight/runPositionSynthesisCycle.ts:124-126 | an error whose own code is EVIDENCE_SELECTION_SUPERSEDED or POSITION_PLAN_SUPERSEDED ends the request as superseded with that code |
| `PositionWorker.CodesDecide` | src/workers/policyInsight/runPositionSynthesisCycle.ts:98-126 | which codes and classes supersede, which fail for good, and that every other error is retried below the attempt limit and ends as EXHAUSTED_RETRIES at it |
| `PositionWorker.CodesFound` | src/workers/policyInsight/runPositionSynthesisCycle.ts:54-96 | the code of an error: its own, else the one that a named store error stands for, else its cause's, else its name or a fallback |
| `PositionWorker.HandleError` | src/workers/policyInsight/runPositionSynthesisCycle.ts:317-446 | supersession before permanent failure before retry, each with its code, and exhaustion at the attempt limit |
| `PositionWorker.FindErrorCode` | src/workers/policyInsight/runPositionSynthesisCycle.ts:61-82 | the first code along the chain of causes, or the fallback |
| `ConcurrentMap.ResolvedMeansAll` | src/application/use-cases/requestPositionPolicyInsightSynthesisUseCase.ts:68-91 | whatever the interleaving of the workers, when the map resolves every item has its own answer in its own place |
| `ConcurrentMap.RunInv` | src/application/use-cases/requestPositionPolicyInsightSynthesisUseCase.ts:76-88 | every started item is answered or in exactly one worker's hands; no answer is lost or overwritten |
| `ConcurrentMap.FailureStops` | src/application/use-cases/requestPositionPolicyInsightSynthesisUseCase.ts:79-87 | after a failure no further item is started and the map cannot resolve |
| `ConcurrentMap.NeverStuck` | src/application/use-cases/requestPositionPolicyInsightSynthesisUseCase.ts:79-88 | a map that has neither resolved nor failed can take a step |
| `ConcurrentMap.OpenCallsBounded` | src/application/use-cases/requestPositionPolicyInsightSynthesisUseCase.ts:68-91 | however the workers interleave, no more than limit calls are open at a time |
| `CursorSpec.RunKeeps` | src/ledger/pg/schema/policyInsightSynthesisCursor.ts:31-34 | in every run the row is idle, leased or released for retry, and last <= target <= greatest ids in both components |
| `CursorSpec.StepKeeps` | src/adapters/postgres/postgresPolicyInsightSynthesisTriggerAdapter.ts:28-214 | every call keeps that and moves no watermark back |
| `CursorSpec.WatermarksAdvance` | src/adapters/postgres/postgresPolicyInsightSynthesisTriggerAdapter.ts:163-181 | both watermarks only advance over any run |
| `CursorSpec.HolderIsHistory` | src/adapters/postgres/postgresPolicyInsightSynthesisTriggerAdapter.ts:178-213 | finishing calls succeed exactly for the last claimant with its snapshot, until it has finished |
| `CursorSpec.WatermarkIsSnapshot` | src/adapters/postgres/postgresPolicyInsightSynthesisTriggerAdapter.ts:152-184 | the watermark is the origin or the exact maxima at some claim whose owner completed it later |
| `CursorSpec.FairExactly` | src/adapters/postgres/postgresPolicyInsightSynthesisTriggerAdapter.ts:76-184 | at every moment of a run, and whoever completes next, each row that the watermark covers precedes some completed claim, if and only if every row lands above the watermark and above the held snapshot when it is inserted |
| `CursorSpec.CoveredExactly` | src/adapters/postgres/postgresPolicyInsightSynthesisTriggerAdapter.ts:76-149 | if every row lands ahead, the watermark covers a row, receipt or theses, if and only if some claim made after its insertion has been completed |
| `CursorSpec.LandingSays` | src/adapters/postgres/postgresPolicyInsightSynthesisTriggerAdapter.ts:92-143 | a row lands ahead exactly if its id exceeds, in its own table, the watermark and the held snapshot |
| `CursorSpec.InOrderLandsAhead` | src/adapters/postgres/postgresPolicyInsightSynthesisTriggerAdapter.ts:95-107 | ids in insertion order always land ahead |
| `CursorSpec.LateRowIsCovered` | src/adapters/postgres/postgresPolicyInsightSynthesisTriggerAdapter.ts:76-149 | a run in which a row that appears late, below the held snapshot, is covered by the claim made before it |
| `CursorSpec.AttemptsAreClaims` | src/adapters/postgres/postgresPolicyInsightSynthesisTriggerAdapter.ts:114-135 | attempt_count is the number of times the current snapshot has been claimed |
| `CursorSpec.ClaimsBounded` | src/workers/policyInsight/runSynthesisCycle.ts:151-214 | with workers that complete at the attempt limit, no snapshot is claimed more often than the limit plus expired leases taken over |
| `CursorSpec.LeaseLasts` | src/adapters/postgres/postgresPolicyInsightSynthesisTriggerAdapter.ts:53-150 | over any run, a cursor that has been in someone's hands since a claim is not claimed again before that claim's time plus its duration |
| `CursorSpec.ClaimedWithinLimit` | src/workers/policyInsight/runSynthesisCycle.ts:160-239 | in a run in which no claim finds the cursor in someone's hands, no snapshot is claimed more often than the attempt limit |
| `CursorSpec.TakeoverExactly` | src/adapters/postgres/postgresPolicyInsightSynthesisTriggerAdapter.ts:53-150 | a claimed cursor can be claimed again exactly from the end of its lease on |
| `CursorSpec.RetryExactly` | src/adapters/postgres/postgresPolicyInsightSynthesisTriggerAdapter.ts:187-217 | a cursor released for retry can be claimed again exactly from the retry time on |
| `CursorSpec.NewsIsClaimable` | src/adapters/postgres/postgresPolicyInsightSynthesisTriggerAdapter.ts:53-150 | a completed cursor can be claimed again exactly if one of the two source tables has moved past the snapshot, at any time |
| `PairCursor.TriggerCursor.ClaimLatestPairEvidence` | src/adapters/postgres/postgresPolicyInsightSynthesisTriggerAdapter.ts:28-150 | succeeds exactly when back-off and lease have passed and something lies after the watermark; the ticket is the snapshot of the maxima |
| `PairCursor.TriggerCursor.Complete` | src/adapters/postgres/postgresPolicyInsightSynthesisTriggerAdapter.ts:152-185 | moves the watermark to the snapshot, for the holder only |
| `PairCursor.TriggerCursor.ReleaseForRetry` | src/adapters/postgres/postgresPolicyInsightSynthesisTriggerAdapter.ts:187-214 | keeps the snapshot and sets the back-off, for the holder only |
| `PairCursor.RunCycle` | src/workers/policyInsight/runSynthesisCycle.ts:92-239 | idle exactly when nothing was claimable; unless the lease was lost, success exactly without a failure, and a retry exactly for a transient one below the attempt limit; success and permanent failure move the watermark to the claimed snapshot, a transient failure leaves it, a lost lease changes nothing |
| `PairCursor.FinishClaim` | src/workers/policyInsight/runSynthesisCycle.ts:112-237 | only a transient failure below the attempt limit is retried |
| `PairCursor.LeaseKeepsCursor` | src/workers/policyInsight/runSynthesisCycle.ts:112-237 | a worker that still holds the cursor held it throughout, with unchanged watermark and attempts |
| `Canonical.CanonicalTextIsCanonical` | src/contract/v1/canonical.ts:19-50 | two values have the same canonical text if and only if both are supported and they are equal up to key order and the sign of zero |
| `Canonical.PrintsSeparate` | src/contract/v1/canonical.ts:19-46 | texts of values, each followed by a comma or a closing bracket, coincide only as wholes: the encoding is uniquely decodable |
| `Canonical.EqualTextsSame` | src/contract/v1/canonical.ts:19-46 | equal texts come from values equal up to key order and the sign of zero |
| `Canonical.SameEqualTexts` | src/contract/v1/canonical.ts:19-46 | such values have equal texts, and one is supported exactly when the other is |
| `Canonical.ListUnique` | src/contract/v1/canonical.ts:32-41 | a closed comma-separated list of such texts determines its parts |
| `Canonical.KeyOrder` | src/contract/v1/canonical.ts:38-39 | the order of keys is strict and total |
| `Canonical.NumberUnitsAre` | src/contract/v1/canonical.ts:10-17 | the characters that number texts are made of |
| `Canonical.PrintedKeysAscend` | src/contract/v1/canonical.ts:38-39 | the keys of a printed object ascend: the first difference of two neighbours is in favour of the lower code unit, and a proper prefix comes first |
| `JsonReader.CanonicalTextIsRead` | src/contract/v1/canonical.ts:19-50 | a reader of JSON written from the grammar of ECMA-404, apart from the printer, reads every canonical text to its end and gives a value equal to the printed one up to key order and the sign of zero |
| `JsonReader.QuoteRead` | src/contract/v1/canonical.ts:28-30 | the reader undoes every string literal, escapes and lone surrogates included, and stops behind it |
| `Canonical.NumbersSeparate` | src/contract/v1/canonical.ts:10-17 | number texts followed by a delimiter are separate |
| `JsonText.EscapeSays` | src/contract/v1/canonical.ts:28-30 | what is written for the head of a string: two-unit escapes, surrogate pairs as they are, lower-case \\u escapes for other controls and lone surrogates, everything else unchanged |
| `JsonText.QuoteUnique` | src/contract/v1/canonical.ts:28-30 | string literals form a prefix code, with short escapes, \\u escapes and lone surrogates |
| `JsonText.EscapeUnique` | src/contract/v1/canonical.ts:28-30 | an escaped string up to its closing quote determines the string and what follows |
| `Candles.Aggregate` | src/engine/candles/aggregateCandles.ts:23-101 | emits exactly one candle for each hour that holds exactly its four quarters, in ascending order, and counts everything else under its own reason |
| `Candles.BuildHour` | src/engine/candles/aggregateCandles.ts:56-95 | an hour of four candles is emitted exactly when it covers the four quarters: first open, last close, highest high, lowest low, summed volume |
| `Candles.HourSays` | src/engine/candles/aggregateCandles.ts:78-95 | the candle of a complete hour names four input candles at the hour and 900000, 1800000 and 2700000 milliseconds after it, all that the hour holds: the first one's open, the last one's close, the extremes of the four and the sum of their volumes |
| `Candles.Partition` | src/engine/candles/aggregateCandles.ts:36-53 | buckets hold the aligned candles of each hour in input order; the two skip counters are exact |
| `Candles.Summarize` | src/engine/candles/aggregateCandles.ts:78-95 | extremes are attained and bound all four candles, the volume is their sum |
| `Candles.CandlesConserved` | src/engine/candles/aggregateCandles.ts:36-53 | every source candle is skipped for one reason or lies in exactly one bucket |
| `Candles.HoursConserved` | src/engine/candles/aggregateCandles.ts:56-76 | every bucket is incomplete, gappy or complete |
| `Candles.NoGapsWithDistinctTimes` | src/engine/candles/aggregateCandles.ts:64-75 | with distinct timestamps the gap counter is always zero |
| `Candles.FourDistinctComplete` | src/engine/candles/aggregateCandles.ts:64-75 | four different aligned timestamps of one hour are its four quarters |
| `ReadPlan.SourcesAreClosed` | src/engine/marketRegime/regimeCandleReadPlan.ts:41-89 | at every moment the newest allowed hour's four sources lie at or before the 15-minute cutoff |
| `ReadPlan.CutoffIsNewestClosed` | src/engine/marketRegime/closedCandleCutoff.ts:1-9 | the cutoff is aligned, closed for at least the delay, and the next bar is not |
| `ReadPlan.PlanNumbers` | src/engine/marketRegime/regimeCandleReadPlan.ts:41-89 | in numbers: a direct read takes 170 candles up to the newest quarter-hour closed for 120 seconds; a derived one takes 352 of them, and hours up to the newest one closed for 300 seconds |
| `ReadPlan.DirectReadIsClosed` | src/engine/marketRegime/regimeCandleReadPlan.ts:53-64 | a direct read of a gap-free history gives 170 candles, every one of them closed for at least the delay |
| `ReadPlan.ClosedIsAllowed` | src/engine/marketRegime/closedCandleCutoff.ts:1-9 | an aligned open that has been closed for the delay is at or before the cutoff |
| `ReadPlan.RecentHoursComplete` | src/engine/marketRegime/regimeCandleReadPlan.ts:66-76 | with a gap-free history filling the source limit, each of the 87 hours up to the derived cutoff is complete |
| `ReadPlan.EnoughBars` | src/engine/marketRegime/regimeCandleReadPlan.ts:71-76 | at least 87 bars remain after the cutoff filter |
| `ReadPlan.ReadDerivedBars` | src/engine/marketRegime/regimeCandleReadPlan.ts:41-89 | so the read yields at least the 80 bars it requires, all of them complete allowed hours |
| `Ingestion.CandleStore.Ingest` | src/application/use-cases/ingestCandlesUseCase.ts:47-93 | appends exactly the accepted candles, keeps every slot's history progressive, and reports exact counts and sorted rejections, with either adapter |
| `Ingestion.DecisionIs` | src/domain/candle/candleRevision.ts:34-49 | a candle is new exactly if no row has its slot; otherwise the row that the queries put first decides: same hash idempotent, older time revised, else rejected with that row's time |
| `Ingestion.RejectionsAre` | src/application/use-cases/ingestCandlesUseCase.ts:56-87 | rejections ascend by slot and are exactly the candles classified as stale, with the stored time |
| `Revisions.StepProgressive` | src/domain/candle/candleRevision.ts:34-49 | stored source times increase strictly and neighbouring hashes differ |
| `Revisions.SqliteReadLatest` | src/adapters/sqlite/sqliteCandleRevisionUnitOfWork.ts:18-46 | per-slot queries read the newest revision of each slot |
| `Revisions.PostgresReadLatest` | src/adapters/postgres/postgresCandleRevisionUnitOfWork.ts:27-62 | the ordered scan with first-wins map reads the newest revision of each slot |
| `Revisions.ViewsAgree` | src/adapters/postgres/postgresCandleRevisionUnitOfWork.ts:27-62 | both adapters read the same view |
| `Revisions.FirstIsNewest` | src/adapters/sqlite/sqliteCandleRevisionUnitOfWork.ts:19-27 | the row that the queries put first is the last one inserted |
| `Ingestion.BatchSteps` | src/application/use-cases/ingestCandlesUseCase.ts:51-87 | a batch moves each of its slots by one step and leaves all other histories alone |
| `Ingestion.ReplayAddsNothing` | src/domain/candle/candleRevision.ts:42-44 | sending the same batch again at once adds nothing |
| `Ingestion.EveryCandleCounted` | src/application/use-cases/ingestCandlesUseCase.ts:56-87 | inserted, revised, idempotent and rejected add up to the batch |
| `Ingestion.HistoryIsFold` | src/application/use-cases/ingestCandlesUseCase.ts:47-93 | over any run of batches a slot's history is what its own reports make of it |
| `Ingestion.RunValid` | src/application/use-cases/ingestCandlesUseCase.ts:47-93 | the log stays progressive over any run of batches |
| `Ingestion.OrderIndependentExactly` | src/domain/candle/candleRevision.ts:34-49 | the latest report is the final view in every arrival order if and only if its hash occurs at no other time and its time with no other hash |
| `Ingestion.ClearWinnerWins` | src/domain/candle/candleRevision.ts:34-49 | with such a winner, every arrival order ends in it |
| `Ingestion.UnclearLoses` | src/domain/candle/candleRevision.ts:42-48 | without one, some arrival order ends in another view |
| `Ingestion.DistinctReportsAreClear` | src/domain/candle/candleRevision.ts:34-49 | pairwise distinct hashes and times suffice |
| `Ingestion.OrderMatters` | src/domain/candle/candleRevision.ts:42-44 | an unchanged report does not advance the stored time: a concrete pair of orders with different views |
| `Classifier.DeadBandRemembers` | src/engine/regime/classifier.ts:17-47 | over any number of bars between a trend's exit and entry thresholds, a run in that trend stays in it and a run in CHOP stays in CHOP |
| `Classifier.SwitchesAreSpaced` | src/engine/regime/classifier.ts:49-129 | whatever the telemetry, two switches are at least the minimum hold plus the confirmation apart |
| `Classifier.SwitchIsConfirmed` | src/engine/regime/classifier.ts:88-110 | a switch to r follows confirmBars consecutive bars, its own included, that ask for r, after the minimum hold |
| `Classifier.FirstSwitchIsLate` | src/engine/regime/classifier.ts:4-9 | the first switch from the default state obeys the same bound |
| `Classifier.SteadyDemandSwitches` | src/engine/regime/classifier.ts:70-129 | the bound is tight: from the default state a steady demand for either trend switches at exactly that bar |
| `Classifier.ThresholdsDecide` | src/engine/regime/classifier.ts:17-129 | after any run, as many bars as hold and confirmation need decide by the thresholds: over chopVolRatioMax CHOP; calm and at or over enterUpTrend UP; calm and at or under enterDownTrend DOWN, unless they keep the opposite trend; calm and between the entry thresholds CHOP once they keep no trend |
| `Classifier.DemandPrevails` | src/engine/regime/classifier.ts:49-129 | a demand that lasts for hold and confirmation prevails after any run |
| `Classifier.RunTracks` | src/engine/regime/classifier.ts:57-129 | in every run the pending regime has been asked for by each of the last pendingBars bars |
| `Classifier.ClassifyMarketRegime` | src/engine/marketRegime/classifyMarketRegime.ts:16-46 | the stateless loop returns UP exactly if minHoldBars is not positive, volRatio is at most chopVolRatioMax and trendStrength at least enterUpTrend; DOWN likewise at or under enterDownTrend; CHOP otherwise; with the matching reasons |
| `History.GetHistory` | src/adapters/postgres/postgresEvidenceBundleRepository.ts:307-399 | one page: the first rows after the cursor, a next cursor exactly when more remain, and an error exactly for limits outside 1 to 100 |
| `History.HistoryIsComplete` | src/adapters/postgres/postgresEvidenceBundleRepository.ts:307-399 | over a fixed table, following the cursor to null reads every matching row exactly once, newest first |
| `History.ReadInOrder` | src/adapters/postgres/postgresEvidenceBundleRepository.ts:307-399 | in the rows' own fields: what is read are exactly the rows of the scope, and of the publisher and source if named, each before those received earlier or at the same time under a lower id |
| `History.PageSays` | src/adapters/postgres/postgresEvidenceBundleRepository.ts:307-399 | a page holds at most limit of the rows asked for that are older than the cursor, newest first, and none of those it leaves out is newer than one it holds |
| `History.NextCursorSays` | src/adapters/postgres/postgresEvidenceBundleRepository.ts:385-397 | a next cursor is the receipt time and id of the last row of a full page, and an older row is left to read |
| `History.TraversalReadsAll` | src/adapters/postgres/postgresEvidenceBundleRepository.ts:319-352 | with rows inserted between pages, no row is read twice and no row that was there at the start is skipped |
| `History.FixedTraversal` | src/adapters/postgres/postgresEvidenceBundleRepository.ts:385-397 | over a fixed table the traversal ends and reads the whole listing |
| `History.RemainingIs` | src/adapters/postgres/postgresEvidenceBundleRepository.ts:336-352 | the ordered query holds exactly the matching rows after the cursor, strictly in reading order |

## Left out

- Selector.SelectEvidence: what the code copies without reading is one text per item (its content), and the constants pair and authority of the summary are left out; a candidate's value and claim text, which repeat its item, are that item.
- Selector.ValidatePolicy: does not model freezing; the message texts of errors are left out.
- Candidates.Registry.RegisterRecord: the bounds of the bundle schema (basis points, feature families) are a precondition, because JSON schema validation is not modelled; a candidate id is the triple of hash, kind and local id, whose order is the order of the text because hashes have a fixed length.
- SourceUnion.BuildUnion: the key of an entry is the pair of hash and reference id, whose text is unambiguous because hashes have a fixed length.
- Warnings.FindWarnings: a warning is a code and a family; the code stores a message text and recovers the family from it.
- Lineage.CheckIdentityAndLineage: timestamp-order checks of the validator and the texts of issue messages are not modelled.
- Lineage.CycleDetector.DetectCycle: does not claim that the reported path is a cycle, because it may contain nodes off the cycle.
- Queue.SynthesisQueue.ClaimBatch: FOR UPDATE SKIP LOCKED is not modelled, since no other transaction is in progress during an atomic step.
- Queue.SynthesisQueue.EnqueueOrReconcile: advisory locks, column lengths and the hexadecimal format check on hashes are not modelled; nor are error messages.
- PositionWorker.RunCycle: plan ledger, synthesis and clock are given as findings and times; a finishing call of the error handler that throws, so that the cycle itself throws, is not modelled; that no one else claims under the same owner follows from random worker ids.
- PairCursor.RunCycle: what the try block throws is given as none, permanent or transient; error codes and messages are not modelled, nor is a call of the error handler that throws.
- CursorSpec.RunKeeps: rows are never deleted, and one cursor key is modelled; inserts may come in any order of ids.
- ConcurrentMap.ResolvedMeansAll: the limit is positive, as at its only call; with a limit of zero the code resolves to an array of holes.
- Canonical.CanonicalTextIsCanonical: arrays have no holes (the code prints nothing for a hole, so a one-hole array and an empty one both give `[]`); a finite double is represented by its shortest decimal text, as ECMAScript prints it; class instances, undefined and other unsupported values are one constructor.
- Candles.Aggregate: prices and volumes are reals, so rounding in the volume sum is not modelled; buckets are visited in insertion order as in the code.
- Ingestion.CandleStore.Ingest: prices are represented by their hash, the ISO text of the source time is left out, and transactions are atomic.
- Classifier.SwitchesAreSpaced: telemetry is finite; NaN comparisons are not modelled.
- History.GetHistory: parsing of the stored bundle and the derived lifecycle are not modelled.
- The indicators, baselines, policy synthesis rules, churn governor, exposure caps and HTTP layer are not part of this model: they depend on floating point, or are long lists of single-branch facts, or plumbing.
- The single-scope reconciliation use case is represented only by the queue calls it makes.
