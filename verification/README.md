# Decision Core: a verified model

Decision Core is a deterministic policy engine with a hash-linked audit log. This project
models its logic in Dafny and proves what the engine is for: that the log is tamper-evident,
that compiled rules and their generated scenarios agree, that policy verdicts are deny-wins,
that graph queries are exact, that observe mode never changes an outcome, and that nobody
approves their own request without the break-glass check.

`dafny verify dfyconfig.toml` checks everything.

## How it is laid out

| file | what it models |
|---|---|
| `Text`, `Entries`, `EcmaNumber` | UTF-16 texts, keyed entries and their canonical order, number texts |
| `CanonicalJson`, `CanonicalJsonProofs`, `JsonGrammar` | the canonical JSON printer, a decoder for it, and the text it writes as a grammar |
| `ObjectGraph` | the serializer on object graphs with sharing and cycles, with its shared `seen` set |
| `EvidenceChain` | chain entries, chain verification, the evidence chain service |
| `EvidenceRecorder`, `DecisionRunner`, `DecisionTable`, `DecisionEvidence`, `DecisionPipeline`, `DecisionTheorems`, `DecisionForensics` | the recorder of a run, the pipeline's stages and endings, the outcomes as one table over the host's answers, how facts are written, the runner, what holds of every run, what a head hash proves about one |
| `RuleExpressions`, `RuleInputs` | the sixteen rule expressions, their evaluation and recorded inputs; when the record determines the outcome |
| `ScenarioGenerator`, `ScenarioTable`, `ScenarioProofs`, `ScenarioComposites` | the scenario generator and test harness, the scenarios as a table of kinds, exactness on leaves, agreement on AND and OR |
| `RuleSetHash`, `RuleSetStore` | the hash over compiled rules, the versioned store of rule sets |
| `Walks`, `PolicyGraph` | walks and distances, the two traversals of the policy graph |
| `GlobMatcher`, `GlobMeaning`, `ConflictDetector` | globs as regular expressions and as patterns, the static overlap analysis |
| `PolicyDecision`, `PolicyDecisionPoint`, `StableSort` | one policy rule, the rule store and the decision point, JavaScript's stable sort |
| `Approvals` | approval resolution, sequential and concurrent |
| `SectionParser` | the Markdown section parser with its heading stack |
| `UuidV7` | the UUID generator and its readers |
| `Strings`, `Wrappers` | string helpers, `Option` and `Result` |

Objects the program updates in place are classes (`WeakSet`, `EvidenceChainService`,
`EvidenceRecorder`, `PolicyRuleRepository`, `PolicyDecisionPoint`, `RuleSet`,
`VersionedRuleSets`, `ApprovalRepository`, `UuidGenerator`); its loops are loops with
invariants; code made of expressions is functions. Exceptions are `Result` or `Option` values.
SHA-256 is a parameter: equal digests of different texts are reported as a collision between
two texts that were actually hashed, never assumed away. Clocks, random bytes, generated ids,
date parsing, letter case, regular expressions in rules and locale collation are parameters
too. JSON texts are sequences of UTF-16 code units, so lone surrogates are covered; numbers
are their shortest decimal form (Number::toString, ECMA-262 section 6.1.6.1.20).

Where the code does not have a property one would expect, the project proves exactly when it
does: `GlobMeaning.TranslationFaithful` (a question mark in a glob is not literal),
`ConflictDetector.OverlapErrs`, and part by part `ConflictDetector.OverlapMissed` and
`ConflictDetector.OverlapFalselyReported` (the static overlap analysis against the actions two
globs have in common), `ScenarioProofs.LeafExact`
(which leaves the generator gets right), `RuleInputs.RecordedInputsExactly` (when a rule's
recorded inputs determine its outcome), `RuleSetHash.OrderIrrelevantExactly` (when the order of
the rules does not matter to their hash), `PolicyDecision.RaisingImpact` (when a higher amount
loosens a verdict), `PolicyDecision.OvernightWindow` (when a time window is ever open),
`Approvals.OverwritesExactly` (when a resolution overwrites another one),
`UuidV7.NextIdIncreases` and `DecisionTheorems.SafeBlockRouteFallsThrough` (when a route that
is to be safe-blocked reaches the model). `Approvals.OverlappingCallsOverwrite` is a run in
which an approved request turns rejected, and `EvidenceChains.UnseenChanges` states the changes
that verification of a chain does not see.

## Model

| member | source | states |
|---|---|---|
| EcmaNumber.ScanFormat | src/utils/golden-snapshot.ts:18-22 | the text printed for a finite number reads back as that number, whatever delimiter follows it |
| EcmaNumber.ValueLayout | src/utils/golden-snapshot.ts:18-22 | the layout of a number's digits, with padding or an exponent, keeps its value |
| EcmaNumber.NatNumberFaithful | src/utils/golden-snapshot.ts:22 | different counters are different numbers, so sequence numbers are not confused |
| CanonicalJsonProofs.ReadPrint | src/utils/golden-snapshot.ts:10-61 | whatever may follow a printed value, the decoder takes exactly that value off the front |
| CanonicalJsonProofs.DecodePrint | src/utils/golden-snapshot.ts:10-61 | decoding a printed value gives the value back, keys sorted at every depth |
| CanonicalJsonProofs.PrintDistinguishes | src/utils/golden-snapshot.ts:63-69 | two values print alike if and only if they are equal up to the order of object keys |
| CanonicalJsonProofs.PrintWellFormed | src/utils/golden-snapshot.ts:15 | printed text never holds a lone surrogate, so hashing its UTF-8 bytes loses nothing |
| Utf16.LessIsBefore | src/utils/golden-snapshot.ts:54-55 | the order of keys is by the first code unit that differs, a proper prefix first |
| JsonGrammar.PrintWrites | src/utils/golden-snapshot.ts:10-61 | every printed text is one of the JSON grammar with all its characters given literally: punctuation, escapes, number layouts, and the members of an object in code-unit order of their names |
| JsonGrammar.DecodedAscends | src/utils/golden-snapshot.ts:54-57 | whatever a printed text decodes to has its names in code-unit order at every depth |
| JsonGrammar.ObjectText | src/utils/golden-snapshot.ts:53-57 | an object with plain names prints as its members in ascending order, each name quoted as it is |
| ObjectGraph.SerializeValue | src/utils/golden-snapshot.ts:10-61 | the recursion over a graph with a shared `seen` set terminates, restores `seen`, and prints or throws as the graph's denotation says |
| ObjectGraph.SerializeItems | src/utils/golden-snapshot.ts:49-51 | the items of an array are serialized in order up to the first error, and `seen` is restored |
| ObjectGraph.SerializeFields | src/utils/golden-snapshot.ts:53-57 | the fields of a record are serialized in key order up to the first error, and `seen` is restored |
| ObjectGraph.SerializeForSnapshot | src/utils/golden-snapshot.ts:67-69 | succeeds if and only if no cycle and no refused value is reachable; the text is a grammar text of a tree the graph represents, and decodes to such a tree with names in code-unit order at every depth; an error names something reachable |
| ObjectGraph.SerializationExact | src/utils/golden-snapshot.ts:31-60 | on any finite closed graph it succeeds if and only if no cycle and no refused value is reachable; it reports a cycle only when there is one |
| ObjectGraph.FailureExplained | src/utils/golden-snapshot.ts:43-60 | every failure comes with the path to the cycle or to the refused value that caused it |
| ObjectGraph.OkPaths | src/utils/golden-snapshot.ts:43-60 | when it succeeds, no path from the root repeats an object or meets a refused value |
| ObjectGraph.DenoteRepresents | src/utils/golden-snapshot.ts:10-61 | what is printed is the value the object graph represents, sharing unfolded |
| ObjectGraph.GraphTextsDistinguish | src/utils/golden-snapshot.ts:63-69 | two object graphs print alike if and only if they represent the same value up to key order |
| ObjectGraph.InsertionOrderIrrelevant | src/utils/golden-snapshot.ts:54-55 | graphs that differ only in the insertion order of keys print alike |
| EvidenceChains.EntryTextDetermines | src/utils/audit-hash.ts:48-61 | the hashed text of a chain entry determines sequence, previous hash, payload hash, operation type and timestamp, including whether a timestamp was given |
| EvidenceChains.EntryPrinted | src/utils/audit-hash.ts:48-61 | the text hashed for an entry, member by member: operationType, payloadHash, previousHash, sequence and, when given, timestamp |
| EvidenceChains.LinkedSnoc | src/integrity/evidence-chain.service.ts:35-64 | appending a record that names the last audit hash and hashes itself keeps a chain acceptable |
| EvidenceChains.LinkedAccepted | src/integrity/evidence-chain.service.ts:102-143 | a chain is linked if and only if every record names the hash before it and carries the digest of its own text |
| EvidenceChains.VerifyChain | src/integrity/evidence-chain.service.ts:88-154 | accepts exactly the chains in which every record names the hash before it and carries the digest of that text of its own parts; otherwise brokenAt is the least bad index, with the two hashes that disagree; it throws only when the first bad record cannot be serialized |
| EvidenceChains.TamperEvidence | src/integrity/evidence-chain.service.ts:88-154 | two accepted non-empty chains with the same last audit hash agree in length and record by record in everything hashed, or the proof yields two different texts they hashed with one digest |
| EvidenceChains.HeadHashPinsChain | src/utils/audit-hash.ts:48-61 | without a collision among the texts hashed, the head hash pins the whole chain |
| EvidenceChains.UnseenChanges | src/integrity/evidence-chain.service.ts:102-143 | verification accepts every prefix, and any change of id, tenant or correlation id |
| EvidenceChains.EvidenceChain.Push | src/integrity/evidence-chain.service.ts:61-62 | adds a record that continues the chain and moves the head to it |
| EvidenceChains.EvidenceChainService.GetOrCreateChain | src/integrity/evidence-chain.service.ts:21-33 | returns the stored chain or stores a new empty one, and changes no record |
| EvidenceChains.EvidenceChainService.Append | src/integrity/evidence-chain.service.ts:35-64 | appends exactly one record, specified in every field, to that tenant's and correlation's chain and to no other; a payload that cannot be serialized throws and changes no record |
| EvidenceChains.EvidenceChainService.GetChain | src/integrity/evidence-chain.service.ts:66-70 | finds the chain of a tenant and correlation id, or nothing |
| EvidenceChains.EvidenceChainService.Verify | src/integrity/evidence-chain.service.ts:72-86 | every chain the service wrote is accepted; a missing one is reported as not found |
| EvidenceRecording.EvidenceRecorder.Append | src/decisions/evidence/evidence-recorder.ts:42-89 | the recorder's records stay the chain of its steps, each announced once, with the head at the last audit hash; an unserializable payload throws and changes nothing |
| EvidenceRecording.ChainLinked | src/decisions/evidence/evidence-recorder.ts:42-89 | the chain of any list of steps is accepted by verification |
| EvidenceRecording.ChainShows | src/decisions/evidence/evidence-recorder.ts:42-66 | record i carries number i, its own id and time, the type and payload of step i, the run's tenant and correlation id, the hash before it and the digest of its own text |
| DecisionRunners.CheckAbortConditions | src/decisions/evidence/abort-conditions.ts:28-64 | each abort condition is listed exactly when it holds, once, in the fixed order |
| DecisionRunners.AbortMembers | src/decisions/evidence/abort-conditions.ts:28-78 | membership of each condition, their order, the hard abort and the soft abort in terms of the inputs; without a hard abort, a soft abort is the same as a non-empty list |
| DecisionPipelines.Journal.Note | src/decisions/evidence/evidence-recorder.ts:42-89 | writes one fact to the recorder, which stays in step with the facts stated |
| DecisionPipelines.Journal.NotePayload | src/decisions/decision-runner.ts:399-426 | a fact with a payload is recorded, or throws before anything changes |
| DecisionPipelines.Journal.NoteAll | src/decisions/decision-runner.ts:331-335 | the evidence of the compiled rules is recorded in order |
| DecisionPipelines.UseCandidate | src/decisions/decision-runner.ts:395-406 | parsing and recording a deterministic candidate comes to the specified ending, failures included |
| DecisionPipelines.AskModel | src/decisions/decision-runner.ts:407-446 | the model path comes to the specified ending: prompt, pattern evidence, safe block, parsing, failures |
| DecisionPipelines.TryExecute | src/decisions/decision-runner.ts:382-450 | the try block, with the branch on candidate, gateway or template |
| DecisionPipelines.RunExecution | src/decisions/decision-runner.ts:382-492 | a thrown error is caught, recorded and turned into a failed verdict |
| DecisionPipelines.EnforceAndExecute | src/decisions/decision-runner.ts:318-374 | compiled rules block first, then soft aborts, then execution |
| DecisionPipelines.Decide | src/decisions/decision-runner.ts:261-492 | deny, approval, failed gate, compiled rules, soft abort and execution, in this order |
| DecisionPipelines.Prepare | src/decisions/decision-runner.ts:147-259 | the stages before the decision record their facts and list the abort conditions, or throw |
| DecisionPipelines.DecisionRunner.Finalize | src/decisions/decision-runner.ts:499-608 | the last fact is recorded, one log record appended with the status of the verdict, one decision event emitted, and the result summarises the evidence |
| DecisionPipelines.DecisionRunner.Execute | src/decisions/decision-runner.ts:128-493 | when a run throws and with which message; otherwise, by what the host supplied, an if and only if for each of the five verdicts, its output, explanation, abort conditions and facts, the log record with its status for each verdict, an announcement for every record and one for the decision |
| DecisionTable.RunMeans | src/decisions/decision-runner.ts:128-493 | the staged pipeline comes to one table over the host's answers: blocked exactly on an effective deny or, the policy allowing, a failed gate or blocking rules; approval, safe block, completion and failure likewise, with explanation, output and facts |
| DecisionTable.ExecutionMeans | src/decisions/decision-runner.ts:382-492 | execution completes, safe-blocks or fails exactly as candidate, model or template answer, with the message of the first error and the facts recorded before it |
| DecisionTheorems.ObserveIndependence | src/decisions/decision-runner.ts:194-202 | in observe mode two runs that differ only in the verdict and matches of the decision point throw alike or end with the same verdict, output, explanation and abort conditions; their facts differ only in the policy fact |
| DecisionTheorems.EnforcedFrom | src/decisions/decision-runner.ts:318-493 | everything after the policy stage depends on what was recorded before only by keeping it in front |
| DecisionTheorems.CompletedExactly | src/decisions/decision-runner.ts:247-492 | a run completes if and only if the effective verdict is allow, the gate did not fail, compiled rules did not block, the abort list is empty and execution succeeds |
| DecisionTheorems.PolicyFirst | src/decisions/decision-runner.ts:261-297 | an effective deny blocks without executing anything; approval is asked exactly on an effective approve_required |
| DecisionTheorems.ModelRecordedExactly | src/decisions/decision-runner.ts:247-446 | given that a model answer can be recorded, the run records one if and only if the effective verdict is allow, the gate did not fail, compiled rules did not block, the abort list is empty, the inputs serialize, no candidate decides and a gateway is configured |
| DecisionTheorems.ModelUnread | src/decisions/decision-runner.ts:247-446 | a run outside those conditions comes to the same whatever the model would answer |
| DecisionTheorems.SafeBlockRouteFallsThrough | src/decisions/decision-runner.ts:395-450 | a run on a route that is to be safe-blocked never ends as a safe block of abort conditions; it reaches the model if and only if nothing else stops it and a gateway is configured, and then ends as the model's pattern does, without a gateway as the template does |
| DecisionTheorems.TrailShape | src/decisions/decision-runner.ts:150-219 | the facts of a run start with its initiation, the gate and both policy verdicts, and end with the verdict returned |
| DecisionTheorems.EvidenceShowsTrail | src/decisions/evidence/evidence-recorder.ts:42-96 | record by record the evidence shows the facts as written, and verification accepts it |
| DecisionTheorems.VerifiableTrail | src/decisions/decision-runner.ts:150-158 | every run that returns leaves accepted evidence, first decision_initiated and last decision_finalized |
| DecisionTheorems.DecideOnNewRecorder | src/decisions/decision-runner.ts:128-158 | a run started on its own new recorder that returns leaves accepted evidence with these ends, record by record showing the steps written for its facts, reports and logs once by the table, and digests just the texts specified |
| DecisionForensics.PolicyFactPinned | src/decisions/decision-runner.ts:211-219 | the payload recorded for the policy stage determines observed and effective verdict, mode and every matched policy |
| DecisionForensics.FinalFactPinned | src/decisions/decision-runner.ts:521-528 | the payload of the last step determines the verdict returned |
| DecisionForensics.HeadHashPinsDecision | src/decisions/decision-runner.ts:530-539 | two runs with the same head hash recorded the same policy answer and mode and returned the same verdict, or yield two different texts they hashed with one digest |
| DecisionEvidence.StepOfShows | src/decisions/decision-runner.ts:150-528 | the operation type and every payload name and value of each recorded fact, verdicts, modes and explanations in words |
| DecisionEvidence.SummaryPrinted | src/decisions/decision-runner.ts:532-539 | the text whose digest is the result's audit hash, member by member |
| RuleExpressions.GetFieldValue | src/knowledge/compiler/compiled-rule-evaluator.ts:21-29 | the loop over the dotted parts finds what the path denotes, inherited methods and the prototype accessor included |
| RuleExpressions.PathFound | src/knowledge/compiler/compiled-rule-evaluator.ts:21-29 | a dotted path finds in a nested object what its rest finds there, and nothing in a plain value |
| RuleExpressions.OwnFound | src/knowledge/compiler/compiled-rule-evaluator.ts:21-29 | what a value has of its own: fields of objects, length and elements of lists and texts by their decimal indices |
| RuleExpressions.InheritedFound | src/knowledge/compiler/compiled-rule-evaluator.ts:21-29 | any other name finds what the value's kind inherits, the prototype accessor included, and nothing in null and undefined |
| RuleExpressions.LeafMeans | src/knowledge/compiler/compiled-rule-evaluator.ts:36-219 | for each of the fourteen single expressions, when it passes and when it throws, by the values found: regex_match passes a text exactly when the expression matches it |
| RuleExpressions.EvaluateLeaf | src/knowledge/compiler/compiled-rule-evaluator.ts:38-219 | a leaf passes, fails or throws exactly as that reading of its type says, with a diagnostic of its type |
| RuleExpressions.EvaluateComposite | src/knowledge/compiler/compiled-rule-evaluator.ts:221-241 | the loop over the parts evaluates all of them and combines them |
| RuleExpressions.EvaluateWithDiagnostic | src/knowledge/compiler/compiled-rule-evaluator.ts:36-243 | the outcome is the expression's verdict and the diagnostic tree mirrors the expression tree |
| RuleExpressions.CompositeVerdict | src/knowledge/compiler/compiled-rule-evaluator.ts:221-241 | an AND passes if and only if all parts pass, an OR if and only if some part does |
| RuleExpressions.CollectInputFields | src/knowledge/compiler/compiled-rule-evaluator.ts:245-270 | the recorded inputs are exactly the fields the expression names, absent ones as null, but for the prototype accessor and, outside presence checks, the empty name |
| RuleExpressions.AgreeDetermines | src/knowledge/compiler/compiled-rule-evaluator.ts:36-243 | contexts that agree on the fields and data an expression reads give the same verdict |
| RuleInputs.RecordedInputsExactly | src/knowledge/compiler/compiled-rule-evaluator.ts:245-270 | for every expression that is neither a composite nor regex_match, equal recorded inputs, data tables and currencies always give the same verdict if and only if its fields can be recorded or it asks nothing (an empty range, window or list) |
| RuleInputs.RecordedInputsDetermine | src/knowledge/compiler/compiled-rule-evaluator.ts:245-270 | nested AND and OR expressions over such parts are determined by their record |
| RuleInputs.FieldMatters | src/knowledge/compiler/compiled-rule-evaluator.ts:261-264 | otherwise two contexts have the same record and different verdicts, for the empty field name and for the prototype accessor |
| RuleInputs.ProtoMatters | src/knowledge/compiler/compiled-rule-evaluator.ts:255-259 | the same for a presence check that names the prototype accessor |
| ScenarioGenerator.GenerateFieldPresence | src/knowledge/compiler/scenario-generator.ts:154-173 | the presence scenarios, with the context built field by field |
| ScenarioGenerator.GenerateForExpression | src/knowledge/compiler/scenario-generator.ts:29-48 | generation over all sixteen expressions gives the specified scenarios or throws |
| ScenarioGenerator.GenerateCompositeAnd | src/knowledge/compiler/scenario-generator.ts:303-321 | the AND scenarios: merged first positives, and the first failing scenario of the first part |
| ScenarioGenerator.PositiveOfAnd | src/knowledge/compiler/scenario-generator.ts:306-313 | the loop merges the first positive context of every part, later ones winning |
| ScenarioGenerator.GenerateCompositeOr | src/knowledge/compiler/scenario-generator.ts:323-336 | the OR scenarios: the first positive of the first part, and the empty context |
| ScenarioTable.LeafSelects | src/knowledge/compiler/scenario-generator.ts:54-301 | the scenarios of a leaf are the rows of one table, each of a kind, that the options want, in order; it throws if and only if making a wanted row does |
| ScenarioTable.AndScenarios | src/knowledge/compiler/scenario-generator.ts:303-321 | an AND generates one passing scenario, every key as the last part that sets it does, and the first failing one of its first part; it throws if and only if a part it asks does |
| ScenarioTable.OrScenarios | src/knowledge/compiler/scenario-generator.ts:323-336 | an OR generates the first passing scenario of its first part and the empty context as failing |
| ScenarioGenerator.GenerateScenarios | src/knowledge/compiler/scenario-generator.ts:18-27 | throws if and only if generation throws on some rule; otherwise one test case for every scenario of every rule, in that order, with its context and what it expects of that rule |
| ScenarioGenerator.Evaluate | src/knowledge/compiler/compiled-rule-evaluator.ts:279-309 | a rule's result is its verdict with its recorded inputs and condition hash; a throwing expression becomes an error that does not pass, and only a condition that cannot be hashed throws |
| ScenarioGenerator.RunTestCase | src/knowledge/compiler/policy-rule-test-harness.ts:53-82 | a case passes if and only if every expectation meets the first result with its rule id, and the failures listed are exactly the others; it throws exactly when some condition cannot be hashed |
| ScenarioGenerator.RunAllTests | src/knowledge/compiler/policy-rule-test-harness.ts:84-98 | the number of results that passed, the others as failed, and every case's result |
| ScenarioProofs.LeafExact | src/knowledge/compiler/scenario-generator.ts:54-301 | on every leaf but regex_match, all generated scenarios agree with the evaluator if and only if a check on the expression alone holds |
| ScenarioProofs.ThresholdExact | src/knowledge/compiler/scenario-generator.ts:54-84 | thresholds agree exactly when the field is a top-level name and adding one to the value, or for gte, lt and neq subtracting one, makes a difference in double precision |
| ScenarioProofs.RangeExact | src/knowledge/compiler/scenario-generator.ts:86-102 | ranges agree exactly when the rounded midpoint lies within the bounds, strictly when exclusive, and, when inclusive, one less than min and one more than max make a difference |
| ScenarioProofs.StringExact | src/knowledge/compiler/scenario-generator.ts:117-142 | string matches agree exactly when case folding undoes the flipped case |
| ScenarioProofs.PresenceExact | src/knowledge/compiler/scenario-generator.ts:154-173 | presence lists agree exactly when, all required, every field can be found and some field other than the first is not inherited, or, any, some field is top-level and none is inherited |
| ScenarioProofs.SanctionsExact | src/knowledge/compiler/scenario-generator.ts:175-187 | sanctions matches agree exactly for a non-empty list of lists and a field that is not the data table |
| ScenarioProofs.DateExact | src/knowledge/compiler/scenario-generator.ts:204-224 | date ranges agree exactly when the bounds parse and leave room for the midpoint |
| ScenarioProofs.AmountExact | src/knowledge/compiler/scenario-generator.ts:226-237 | amount limits agree exactly for a top-level field, a limit to which adding one makes a difference, and a currency that is not the sentinel |
| ScenarioProofs.RoleExact | src/knowledge/compiler/scenario-generator.ts:250-267 | role lists agree exactly when non-empty, without the sentinel, or with two distinct roles when all are required |
| ScenarioProofs.MembershipExact | src/knowledge/compiler/scenario-generator.ts:281-301 | list membership agrees exactly for a top-level field that is not the data table |
| ScenarioComposites.GeneratorAgrees | src/knowledge/compiler/scenario-generator.ts:29-48 | on the well-formed class every generated scenario agrees with the evaluator, under every choice of options, through nested AND and OR |
| ScenarioComposites.MergedContext | src/knowledge/compiler/scenario-generator.ts:306-313 | merging contexts of parts that read disjoint keys leaves every part its own values |
| ScenarioComposites.EmptyFails | src/knowledge/compiler/scenario-generator.ts:332-334 | every well-formed expression fails on the empty context |
| ScenarioComposites.NoFailuresReported | src/knowledge/compiler/policy-rule-test-harness.ts:84-98 | running the harness on the scenarios generated from well-formed rules with distinct ids counts every case as passed |
| ScenarioComposites.RunGenerated | src/knowledge/compiler/policy-rule-test-harness.ts:84-98 | generating the scenarios of well-formed rules and running them reports no failed case |
| RuleSetHash.OrderIrrelevantExactly | src/knowledge/compiler/compiled-rule-set.repository.ts:35-45 | for every serializable rule list, all its orders print the same hashed text if and only if any two rules with equal collation keys are the same in everything hashed |
| RuleSetHash.HashIgnoresOrder | src/knowledge/compiler/compiled-rule-set.repository.ts:35-45 | the hash, or the error thrown, ignores the order of rules without ties or whose ties agree |
| RuleSetHash.TiedStay | src/knowledge/compiler/compiled-rule-set.repository.ts:36 | the sort is stable: rules with one collation key keep their order |
| RuleSetHash.HashedTextIs | src/knowledge/compiler/compiled-rule-set.repository.ts:35-45 | the hash is the digest of the rules' texts, member by member, in a list with no collation key after a greater one and ties in their order; otherwise the first rule of that list that cannot be serialized decides the error |
| RuleSetHash.HashPinsRules | src/knowledge/compiler/compiled-rule-set.repository.ts:35-45 | two rule lists with one hash are the same in everything hashed, or yield two different hashed texts with one digest |
| RuleSetHash.HashFails | src/knowledge/compiler/compiled-rule-set.repository.ts:44 | hashing throws if and only if some expression cannot be serialized |
| RuleSetStore.RuleSetRepository.Create | src/persistence/memory/in-memory-compiled-rule-set.repository.ts:28-41 | adds one record at the end of its tenant's list and touches no other tenant |
| RuleSetStore.RuleSetRepository.FindById | src/persistence/memory/in-memory-compiled-rule-set.repository.ts:43-45 | finds the tenant's record with that id, or nothing if there is none |
| RuleSetStore.RuleSetRepository.FindActive | src/persistence/memory/in-memory-compiled-rule-set.repository.ts:47-50 | finds an active record of the tenant if and only if there is one |
| RuleSetStore.NextVersion | src/knowledge/compiler/compiled-rule-set.repository.ts:61-65 | one more than the highest version under the name, 1 for a new name |
| RuleSetStore.VersionedRuleSets.CreateRuleSet | src/knowledge/compiler/compiled-rule-set.repository.ts:54-94 | the new record in every field: the next version under its name, the given clauses and correlation id, compiled now and never activated, inactive; rules and hash are stored under the new id only; an unserializable rule throws before anything is stored; at most one record per tenant stays active and every stored hash still verifies |
| RuleSetStore.VersionedRuleSets.ActivateRuleSet | src/knowledge/compiler/compiled-rule-set.repository.ts:96-127 | the named record becomes its tenant's only active one; an inactive copy of the old active record is added if and only if that was another one, with its name, version, clauses, times and correlation id and without rules; stored rules and other tenants' lists do not change; an unknown id changes nothing |
| RuleSetStore.VersionedRuleSets.Deactivate | src/knowledge/compiler/compiled-rule-set.repository.ts:101-115 | adds the inactive copy, with the name, version, clauses, times and correlation id of the record it copies, and leaves the tenant without an active record |
| RuleSetStore.VersionedRuleSets.GetActiveRuleSet | src/knowledge/compiler/compiled-rule-set.repository.ts:129-131 | the active record, which is the only one |
| RuleSetStore.VersionedRuleSets.GetRulesForSet | src/knowledge/compiler/compiled-rule-set.repository.ts:137-139 | the rules stored at creation, none for an unknown id |
| RuleSetStore.VersionedRuleSets.VerifyRuleSetHash | src/knowledge/compiler/compiled-rule-set.repository.ts:149-154 | holds if and only if rules were stored under that id and their digest is not the empty text |
| PolicyGraph.ClauseNeighbourhood | src/knowledge/graph/policy-graph-query.service.ts:121-168 | for every depth, the nodes are exactly those within that undirected distance and the edges, once each, exactly those with an endpoint closer than it |
| PolicyGraph.Expand | src/knowledge/graph/policy-graph-query.service.ts:143-154 | one dequeued node adds its edges, its neighbours and the unvisited ones to the queue, nothing else |
| PolicyGraph.NextLevel | src/knowledge/graph/policy-graph-query.service.ts:135-155 | although nodes are marked on dequeue and queued more than once, the queue holds one level and then part of the next |
| PolicyGraph.SurfacesImpactedByClause | src/knowledge/graph/policy-graph-query.service.ts:70-116 | terminates and returns, once each, exactly the targets of constrains, blocks and triggers edges leaving nodes reachable by the listed edge types |
| PolicyGraph.ScanOutgoing | src/knowledge/graph/policy-graph-query.service.ts:80-96 | the outgoing edges of one node add its surfaces and queue its unvisited clauses |
| PolicyGraph.ScanIncoming | src/knowledge/graph/policy-graph-query.service.ts:98-111 | the incoming edges queue the unvisited clauses that depend on it |
| Walks.WithinIsDistance | src/knowledge/graph/policy-graph-query.service.ts:118-120 | growing a set level by level gives exactly the nodes at that distance |
| GlobMatcher.EmittedText | src/policy/glob-matcher.ts:17-26 | splitting on `**`, escaping, replacing `*` and joining emits the text of one token after the other |
| GlobMatcher.ReadBack | src/policy/glob-matcher.ts:14-27 | a regular-expression parser reads that text exactly as the tokens say, quantifying question marks included |
| GlobMatcher.CompiledRegex | src/policy/glob-matcher.ts:14-27 | the compiled expression in terms of the pattern's tokens |
| GlobMeaning.SameLanguage | src/policy/glob-matcher.ts:29-31 | without a question mark, the compiled expression accepts exactly the strings the glob matches |
| GlobMeaning.TranslationFaithful | src/policy/glob-matcher.ts:14-31 | compilation succeeds and preserves meaning if and only if the pattern has no question mark |
| ConflictDetector.GlobsCanOverlap | src/policy/analysis/conflict-detector.ts:237-262 | the loop over the parts decides overlap as specified |
| ConflictDetector.OverlapComplete | src/policy/analysis/conflict-detector.ts:237-262 | on patterns of literal, `*` and `**` parts, whenever one action matches both, overlap is reported |
| ConflictDetector.OverlapExact | src/policy/analysis/conflict-detector.ts:237-262 | on plain patterns with equally many parts, overlap is reported if and only if some action matches both |
| ConflictDetector.CommonOnTokens | src/policy/glob-matcher.ts:14-31 | any two patterns have an action in common if and only if their tokens meet, which is decided by recursion on them |
| ConflictDetector.OverlapErrs | src/policy/analysis/conflict-detector.ts:237-262 | for every pair of patterns, when an overlap is missed and when one is reported that is none: whether the tokens meet against whether a part is `**` or no parts clash |
| ConflictDetector.CommonExactly | src/policy/glob-matcher.ts:14-31 | patterns without `**` have an action in common if and only if they have equally many parts and every pair of parts meets |
| ConflictDetector.OverlapMissed | src/policy/analysis/conflict-detector.ts:249-259 | on patterns without `**`, an overlap is missed if and only if all parts meet and two of them clash |
| ConflictDetector.OverlapFalselyReported | src/policy/analysis/conflict-detector.ts:246-259 | on patterns without `**`, an overlap is reported that is none if and only if no parts clash, and the numbers of parts differ, an empty part stands against one neither empty nor `*`, or a `*` against one with a line feed |
| ConflictDetector.CompiledCommonAction | src/policy/glob-matcher.ts:14-31 | without question marks, the actions in common are those both compiled expressions accept |
| PolicyDecision.AppliesExactly | src/policy/policy-rule.entity.ts:28-59 | for patterns without a question mark, a rule applies if and only if it is enabled and its pattern, enforcement point and roles cover the context |
| PolicyDecision.VerdictExactly | src/policy/policy-rule.entity.ts:61-136 | when an applicable rule allows and when it asks for approval, in terms of thresholds, closed hours, the approval flag and the default |
| PolicyDecision.EvaluateRuleMeans | src/policy/policy-rule.entity.ts:28-136 | a rule in scope answers with its own id and name and the first check it does not pass, with the value found and the limit; one out of scope is skipped for the first scope check it does not pass; it throws exactly when it is enabled and its pattern does not compile |
| PolicyDecision.RaisingImpact | src/policy/policy-rule.entity.ts:61-113 | raising the financial impact loosens a rule's verdict if and only if the rule asks for approval, is closed at this hour, and the raise crosses its limit with no score too low |
| PolicyDecision.WindowMeaning | src/policy/policy-rule.entity.ts:100-113 | comparing HH:MM texts is comparing minutes of the day |
| PolicyDecision.OvernightWindow | src/policy/policy-rule.entity.ts:104 | a window of two clock texts admits some time if and only if it does not end before it starts |
| PolicyDecision.AddingNeverLoosens | src/policy/policy-decision-point.ts:125-135 | a rule list that covers another never gets a looser verdict |
| PolicyDecision.AddingRulesNeverLoosens | src/policy/policy-decision-point.ts:125-135 | adding rules never gives a looser verdict |
| PolicyDecision.OrderAndPriorityIrrelevant | src/policy/policy-decision-point.ts:51-53 | neither order nor priorities of the rules change the verdict |
| PolicyDecisionPoints.PolicyRuleRepository.Create | src/persistence/memory/in-memory-policy-rule.repository.ts:25-37 | stores the rule under its new id and tenant, and no other tenant changes |
| PolicyDecisionPoints.PolicyRuleRepository.FindById | src/persistence/memory/in-memory-policy-rule.repository.ts:39-41 | finds the rule with that id, or nothing if there is none |
| PolicyDecisionPoints.PolicyRuleRepository.Update | src/persistence/memory/in-memory-policy-rule.repository.ts:63-78 | replaces the rule in place keeping id, tenant and creation time; an unknown id changes nothing |
| PolicyDecisionPoints.PolicyRuleRepository.Delete | src/persistence/memory/in-memory-policy-rule.repository.ts:80-82 | removes exactly the rule with that id and tells whether there was one |
| PolicyDecisionPoints.PolicyRuleRepository.FindByActionType | src/persistence/memory/in-memory-policy-rule.repository.ts:58-61 | the matching rules in store order, or an exception if and only if some pattern of the tenant does not compile |
| PolicyDecisionPoints.SetRuleMeaning | src/persistence/memory/in-memory-policy-rule.repository.ts:76 | storing under an id replaces that rule in its place or adds it at the end |
| PolicyDecisionPoints.ArbitrationIsStrictest | src/policy/policy-decision-point.ts:125-135 | arbitration gives the strictest verdict among the applicable rules, allow when there is none |
| PolicyDecisionPoints.PrefilterLosesNothing | src/policy/policy-decision-point.ts:44-53 | prefiltering by glob, dropping disabled rules and sorting loses no applicable rule and keeps their order |
| PolicyDecisionPoints.PolicyDecisionPoint.Evaluate | src/policy/policy-decision-point.ts:36-112 | the matches are the answers of exactly the rules in scope, each its own rule's id, name, verdict and reason, by falling priority and within one in store order; any denial denies and else any request for approval asks; one audit entry and event per match name that match, and one final event; it throws exactly when a pattern does not compile, and then records nothing |
| PolicyDecisionPoints.EvaluationsAnswer | src/policy/policy-decision-point.ts:44-68 | evaluating the sorted rules answers for exactly the rules in scope, each at its place in the store |
| PolicyDecisionPoints.PolicyDecisionPoint.RecordApplicable | src/policy/policy-decision-point.ts:55-79 | the loop audits exactly the applicable rules, in order |
| PolicyDecisionPoints.PolicyAuditService.Record | src/policy/policy-audit.service.ts:34-78 | one entry and one event per call |
| StableSort.SortOrders | src/policy/policy-decision-point.ts:53 | the sort is a permutation by falling priority |
| StableSort.SortFilter | src/policy/policy-decision-point.ts:45-53 | the sort is stable: filtering before it or after it is the same |
| StableSort.SortPlaces | src/policy/policy-decision-point.ts:53 | where each element of the sorted list stood: by falling rank, and by position where ranks are equal |
| Approvals.SeparationOfDuties | src/approval/approval-routing.ts:50-96 | the check allows if and only if resolver and requester differ, or break-glass holds: chief executive role, a reason that is not blank, an expiry in the future |
| Approvals.ApprovalRepository.Create | src/persistence/memory/in-memory-approval.repository.ts:25-38 | stores a new unresolved request with the status it is given |
| Approvals.ApprovalRepository.FindById | src/persistence/memory/in-memory-approval.repository.ts:40-42 | the stored request, or nothing |
| Approvals.ApprovalRepository.UpdateStatus | src/persistence/memory/in-memory-approval.repository.ts:66-86 | overwrites status and resolution of what is stored now, whatever its status; a missing request changes nothing |
| Approvals.ResolveApprovalRequest | src/approval/resolve-approval.ts:36-79 | an uninterrupted call: which answer and refusal it gives, the stored request in every field when it writes, and no other request changed |
| Approvals.CallSteps | src/approval/resolve-approval.ts:36-79 | in any state, a call reads what is stored, and later answers and writes by what it read and by what is stored then, leaving other calls and requests alone |
| Approvals.StoredMeans | src/approval/resolve-approval.ts:36-79 | in every interleaving, a stored request is as it was created, or it is what the last call to write it answered, resolved at the time of that write, by a call that had read it pending |
| Approvals.ApprovedMeansAllowed | src/approval/resolve-approval.ts:48-79 | in every interleaving, a request that stands approved and was created otherwise was last stored by the writing step of an approving call, at the time it is resolved at; if the resolver is the requester, the break-glass check held at that time |
| Approvals.ApprovedWasResolved | src/approval/resolve-approval.ts:44-78 | a request that stands approved has a resolver if and only if the step that created it did not create it approved |
| Approvals.NothingVanishes | src/approval/resolve-approval.ts:75-77 | no call ever reports a request that vanished |
| Approvals.SettledForever | src/approval/resolve-approval.ts:44-46 | when calls on one request do not overlap, it leaves pending at most once and is never changed again |
| Approvals.OverwritesExactly | src/approval/resolve-approval.ts:40-74 | in general a write replaces the stored request if and only if its call read it pending and may write |
| Approvals.OverlappingCallsOverwrite | src/approval/resolve-approval.ts:36-79 | a run of two overlapping calls in which an approved request turns rejected |
| SectionParser.HeadingExactly | src/knowledge/ingestion/policy-section-parser.ts:35-48 | a line is a heading if and only if the expression matches it in some way, and every way gives the same level and trimmed title |
| SectionParser.OpenExactly | src/knowledge/ingestion/policy-section-parser.ts:50-54 | the stack strictly rises in level and holds exactly the headings so far with no later heading of lower or equal level |
| SectionParser.HeadingStep | src/knowledge/ingestion/policy-section-parser.ts:50-54 | a heading closes every open one of its level or deeper and opens itself |
| SectionParser.PopTo | src/knowledge/ingestion/policy-section-parser.ts:51-53 | popping from the top keeps exactly the part of the stack below the level |
| SectionParser.Flush | src/knowledge/ingestion/policy-section-parser.ts:38-45 | pushes the section under way when it has a title and text, with the next number |
| SectionParser.StartSection | src/knowledge/ingestion/policy-section-parser.ts:37-58 | a heading line flushes the section under way, updates the stack and starts a new section |
| SectionParser.TakeLine | src/knowledge/ingestion/policy-section-parser.ts:34-61 | one line takes the parser from its state before it to its state after it |
| SectionParser.ParseLines | src/knowledge/ingestion/policy-section-parser.ts:24-74 | the loop over the lines yields the sections of all lines that make one |
| SectionParser.ParseSections | src/knowledge/ingestion/policy-section-parser.ts:24-74 | the sections of a document split at line feeds |
| SectionParser.SectionsMeaning | src/knowledge/ingestion/policy-section-parser.ts:76-88 | sections keep document order, are numbered from zero without gaps, carry their heading, a path of their ancestors' titles that ends with their own, and their text, and none is left out |
| UuidV7.UuidGenerator.Generate | src/utils/uuid-v7.ts:25-69 | the id's text and the new clock and counter state |
| UuidV7.IdOrder | src/utils/uuid-v7.ts:37-69 | ids compare as texts by clock, then by the counter's twelve bits, then by what follows |
| UuidV7.NextIdIncreases | src/utils/uuid-v7.ts:28-33 | the next id is greater if and only if the clock advanced, or stood still and the counter did not wrap at 4096 |
| UuidV7.IdsIncrease | src/utils/uuid-v7.ts:25-69 | over any run of a positive non-decreasing clock below 2^48 with at most 4096 ids per millisecond, ids strictly increase |
| UuidV7.TimestampRoundTrip | src/utils/uuid-v7.ts:82-85 | the clock reading comes back out of the id |
| UuidV7.GeneratedAccepted | src/utils/uuid-v7.ts:74-77 | every generated id is a well-formed version 7 id |
| UuidV7.AcceptedExactly | src/utils/uuid-v7.ts:71-77 | a text is accepted if and only if it is five groups of hexadecimal digits with version 7 and variant 8, 9, a or b |
| UuidV7.RandomShown | src/utils/uuid-v7.ts:37-69 | the id shows all random bits given to it but the two that the variant takes |
| UuidV7.HexRead | src/utils/uuid-v7.ts:82-85 | the number read from a text: white space, a sign, a prefix, digits, and whatever follows them |
| Strings.SplitExactly | src/knowledge/ingestion/policy-section-parser.ts:25 | splitting is undone by joining, and no piece holds the separator |
| Strings.TrimExactly | src/approval/approval-routing.ts:75 | trimming takes off two blank ends and leaves a text that neither starts nor ends with white space |
| Strings.CaseExactly | src/knowledge/compiler/scenario-generator.ts:132-142 | the case of the ASCII letters, one by one; letter case beyond them is a parameter |
| Strings.SpacesExactly | src/approval/approval-routing.ts:75 | white space and line terminators, character by character |
| Strings.TextLessExactly | src/policy/policy-rule.entity.ts:104 | texts compare by the first character that differs, a proper prefix first |

## Left out

- SHA-256, random bytes, clocks, generated ids, `Date` parsing, letter case, locale collation and rule-level regular expressions: parameters of the model.
- HTTP, MCP and command-line surfaces, gbrain transports, hooks, logging, file and YAML loading, SQLite: input and output.
- Environment detection, interviews, report text, redaction, schema validation: string templates or easy members.
- Model gateway fallback: two failing profiles can select each other for ever (`src/core/model-gateway.ts:141-171`), so there is no termination to prove.
- Observation aggregation, the offset-to-line index, `hashNormalizedText`, the rule compiler's three buckets and the conflict detector's pairwise loops: they would add easier members.
- The serializer's `-0`, which prints like `0`, and a `Date`, which prints like its text: the value model has one zero and prints a date as its text.
- Sparse arrays, inherited properties, getters and `toJSON` are not part of the object-graph model (rule contexts do have inherited names); a graph does not change while it is serialized, and payloads do not change after they are appended.
- RuleExpressions.EvaluateWithDiagnostic: numbers are reals, with rounded addition and halving as parameters and without NaN; diagnostic prose is left out, its tree and outcomes are not.
- ScenarioGenerator.GenerateScenarios: test-case names are left out.
- RuleExpressions.GetFieldValue: which names are inherited methods is a parameter for each built-in prototype; the prototype of an array or a primitive is treated like that of a plain object, and contexts are plain data.
- RuleExpressions.CollectInputFields: assigning to the prototype accessor sets no key; that an object or null so assigned becomes the prototype of the record, or of a merged context, is not modelled.
- ScenarioComposites.GeneratorAgrees: states the well-formed class as sufficient. It leaves regex_match out, whose samples depend on the expression, and asks that the parts of an AND read disjoint keys and that no list is named like an inherited method.
- PolicyDecisionPoints.PolicyDecisionPoint.Evaluate: every rule is checked at a time of its own, given by the rule's id; reasons are structured values, and the audit hash of an entry is left out.
- PolicyDecision, approvals, sections and rule expressions use Dafny strings, whose characters exclude lone surrogates and compare by code point, which differs from JavaScript's order only beyond the basic plane; only the JSON modules work on code units.
- DecisionPipelines.DecisionRunner.Execute: templates, the decision point, routes, compiled rules and models are given as values and functions, so what they do internally is not part of a run; timings and the type check of the template argument are left out. A run that throws leaves its announcements unspecified.
- RuleSetStore.VersionedRuleSets.ActivateRuleSet: calls do not overlap. Interleaved activations are outside the model, and so is the audit hash of the inactive copy.
- Approvals.ApprovalRepository.Create: payload, priority, constraints and audit hash of a request are left out; they take no part in resolution.
- Approvals.ResolveApprovalRequest: the break-glass check and the resolution time share one clock reading; the program takes two within one uninterrupted step.
- UuidV7.UuidGenerator.Generate: bit masks are written as division and remainder; a clock at or beyond 2^48 milliseconds is generated but carries no order.
