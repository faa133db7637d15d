# BallotProof in Dafny

BallotProof collects election evidence, adds up votes level by level, commits to what it
holds with Merkle trees and hash chains, and publishes signed checkpoints of it. This
project models the algorithms at its centre and proves what each is for: commitments bind,
votes are neither lost nor counted twice, a source is not asked more often than its policy
allows, ledgers verify in every state that can be reached, and replicas and leases keep
their promises under failures.

Verify everything with `dafny verify dfyconfig.toml` (Dafny 4.11).

## Layout

| files | what they hold |
|---|---|
| `Outcomes`, `Hashing`, `Ordering`, `Finite` | results and options; digests and the collision disjunct; lexicographic order and the stable sort; counting and sums |
| `Merkle`, `MerkleTheorems` | the release commitment, its proof builder and verifier; binding, soundness, completeness |
| `Normalization`, `SemanticSet`, `SemanticTheorems`, `SemanticContent` | the memoised normaliser, the semantic record set and its root; binding and invariance; what equal roots say about the records |
| `CycleCheck` | the depth-first cycle check, ranks and sinks |
| `Collation`, `Completion`, `CollationGraph`, `CollationTheorems`, `CollationReports` | one collation step, which steps can still be verified, the replay of a whole graph, path sums and conservation of votes, reports in terms of the rows and nodes of the request |
| `Scheduler`, `SchedulerTheorems`, `RetryLadder` | reservations; the sliding-window bound, exact retry times, the retry ladder |
| `Acquisition`, `AcquisitionTheorems`, `AcquisitionOutcomes` | plans, executions and the steps of workers; at most one send per slot; what becomes of each slot, crashes included |
| `HashChain`, `Evidence` | append-only hash chains; evidence versions |
| `Governance`, `GovernanceTheorems`, `GovernanceProvenance` | release keys, checkpoints, their verifiers and published snapshots; reachable states; the operations that every checkpoint, event and key row comes from |
| `ObserverPins` | pinned witness statements and the search for equivocation |
| `Quorum` | immutable objects on replicas |
| `Leases` | the fenced worker lease |

Programs that change state step by step are methods, in classes where the original has
objects with fields; each is proved equal to a specification function or relation, and the
theorems are lemmas about those. Protocols that interleave (workers, replicas, processes,
the two halves of a checkpoint append) are state machines whose events are one transaction,
one call or one crash each. What a specification function computes is stated besides without naming
it, in terms of the records, rows and fields that go in and come out, so that contracts and theorems do
not rest on a definition alone.

## Reading the theorems

* SHA-256, base64, Ed25519 and the canonical JSON encodings are parameters. Claims about
  hashes read "the conclusion holds, or two different strings collide", and the strings
  range only over those that the computations at hand really hash (`Hashing.CollisionIn`
  over an explicit finite set; `CollisionMeans`, `InnerInputsAreHashed`), so the second half is
  never true for free.
* Encodings are assumed injective where a theorem says so, signatures to verify, and
  decoding to undo encoding (`Governance.Sound`). Leaves and inner nodes of a Merkle tree are
  hashed alike, so claims about roots have one more way out: a leaf encoding of one of the two
  computations is hashed as an inner node of the other (`MerkleTheorems.ReadsAsNode`). Such an
  encoding has 64 bytes (`MerkleTheorems.NodesHave64Bytes`), and the way out is real
  (`MerkleTheorems.PairLengthRecordIsAccepted`).
* Instants are integers, microseconds where a length matters. Digests are 32 bytes, whether
  the original carries them as bytes or as hexadecimal.
* Where the original walks a sorted set and the order makes no difference, the model picks
  elements in any order, so the result covers every order; identifier lists that are sorted only for display are sets.
* Random identifiers, clock readings, outages and the answers of other systems are
  parameters of the operation that draws them.

Some statements one might expect are false of the code. For each of them a failing input is given,
and the exact condition under which the statement holds is proved:

* Permuting the records does not move the semantic root when records that define one reference
  agree on what it means; a later evidence record silently replaces an earlier one under the same
  key or local reference. What references resolve to is independent of the order if and only if
  the records agree (`OrderIrrelevantIffOneMeaning`), and two rival evidence records for one
  attestation give two roots (`SwappedEvidenceMovesRoot`).
* Adding a record whose normal form is already there does not move the semantic root when it
  redefines nothing (`SemanticRootAbsorbs`). Everything resolved before stays as it was if and
  only if nothing is redefined (`ExtendsIffMeaningsKept`); otherwise the root can move although
  no form is new (`RedefinitionMovesRoot`).
* Root totals equal leaf totals if and only if no identifier with two parents is, or leads to, a
  leaf with votes for the candidate (`VotesConservedIffNoneShared`); otherwise a fully verified
  graph can count a leaf twice (`SharedLeafCountsTwice`).
* A failed collation step may verify later (`PartialSumFails`, `FullSumVerifies`). Whatever its
  status, a step can still be verified if and only if the register is known, no stranger has
  reported, every row received names exactly the register, every missing unit can be named in a
  row, and a declaration names exactly the register with totals that leave room for what is
  missing (`MayVerifyIffConsistent`).
* The rate bound holds in all runs with given clock readings if and only if no reading falls
  behind an earlier one by less than a minute (`BoundIffSteady`). For every limit, a fall by any
  part of a minute lets one reservation too many into a minute (`FallingClockBreaksBound`).
* A checkpoint chain verifies if and only if no checkpoint was issued at or after a revocation
  of its key (`VerifiesIffNoneLate`). Appending reads the key before its transaction begins, so a
  revocation in between breaks the chain (`RaceBreaksChain`), even under an advancing clock
  (`RaceHappens`); when appends are atomic it cannot (`AtomicRunsVerify`).
* Quorums agree when they are majorities (`ReturnsAgree`), and in no other configuration
  (`MinorityQuorumsSplit`).
* docs/POSTGRES_RUNTIME.md calls fencing tokens monotonically increasing. They are while the
  lease row survives (`TokensRise`), but a deletion makes them start again (`RestartsAtOne`).
  Over a whole run they never fall, and rise with every change of worker, if and only if every
  deletion before another acquisition removed a row with the first token and the same worker
  comes next (`FencedIffHarmless`). From every state with a remembered lease the run can go on
  so that another worker holds the lease and the old one passes again (`TokensRestart`).

## Model

| member | source | states |
|---|---|---|
| Merkle.OrderedRecords | src/ballotproof/releases.py:149-157 | succeeds exactly when no two records share type and key, and then gives all records in ascending order of type and key; comparing neighbours is enough |
| Merkle.ReduceToRoot | src/ballotproof/releases.py:173-180 | the level-by-level loop computes the root of the recursively defined tree |
| Merkle.MerkleRoot | src/ballotproof/releases.py:168-180 | refused as a duplicate exactly when two records share type and key, and as empty exactly when there is none; otherwise the root over the sorted records |
| Merkle.ReleaseRootIsTower | src/ballotproof/releases.py:149-180 | that root is the top of levels that start with the hashed records in order of type and key, each level hashing neighbours as left then right and an odd last one with itself |
| Merkle.WalkToRoot | src/ballotproof/releases.py:200-217 | the index walk collects siblings that fold from the leaf to the root, one per level |
| Merkle.BuildInclusionProof | src/ballotproof/releases.py:183-228 | builds a complete bundle for a record under the key, whose steps hash the leaf up to the root of the release side by side, or reports a duplicate, an empty release or an unknown record, each exactly then |
| Merkle.VerifyInclusionProof | src/ballotproof/releases.py:231-245 | accepts exactly when names and leaf are the record's and hashing each sibling in on the side it names leads from the leaf to the stated root |
| MerkleTheorems.MerkleBinding | src/ballotproof/releases.py:149-180 | two releases of any sizes have one root if and only if they hold the same records, or a collision is among the strings hashed for them, or the encoding of a record of one is hashed as an inner node of the other |
| MerkleTheorems.RootIgnoresOrder | src/ballotproof/releases.py:149-180 | the outcome, error or root, depends only on the multiset of records |
| MerkleTheorems.PaddingIsInvisible | src/ballotproof/releases.py:173-179 | for every hash function the tree alone cannot tell an odd level from the same level with its last digest repeated, so the duplicate-key check is what binds |
| MerkleTheorems.InclusionSoundness | src/ballotproof/releases.py:231-245 | whatever the verifier accepts against a release root carries a record of that release and has exactly the tree's height in steps, or there is a collision, or a leaf of the release or of the verifier is hashed as an inner node by the other |
| MerkleTheorems.PairLengthRecordIsAccepted | src/ballotproof/releases.py:231-245 | the last case is real: a record encoded as the two leaf digests of a release is accepted with no steps |
| MerkleTheorems.InnerInputsAreHashed | src/ballotproof/releases.py:173-179 | the strings that claims about the root speak of are those hashed on the way up the levels, all of them and no others |
| MerkleTheorems.NodesHave64Bytes | src/ballotproof/releases.py:176-179 | every string hashed for an inner node has 64 bytes, so only a leaf encoding of that length can be read as one |
| MerkleTheorems.InclusionCompleteness | src/ballotproof/releases.py:183-245 | a complete bundle for any record is accepted against the release root and has ceil(log2 n) steps |
| MerkleTheorems.HeightIsCeilLog2 | src/ballotproof/releases.py:173-180 | the number of levels is the ceiling of the base-two logarithm |
| MerkleTheorems.ProveAndVerify | src/ballotproof/releases.py:183-245 | building a proof for any record of a distinct-keyed release succeeds, carries that record and is accepted |
| Normalization.Normalizer.Normalize | src/ballotproof/release_semantics.py:198-229 | the memoised search with its cycle stack ends and gives what the plain recursion gives: its value, its missing reference, or a report of a cycle exactly when the recursion would not end; what the value keeps of a record is SameFormSameContent |
| Normalization.PlainMonotone | src/ballotproof/release_semantics.py:198-229 | the plain recursion has one answer, however deep it is allowed to go |
| SemanticTheorems.EndlessIffCircular | src/ballotproof/release_semantics.py:202-203 | the recursion does not end if and only if the supersession chain closes on itself |
| SemanticSet.Resolve | src/ballotproof/release_semantics.py:177-193 | collects the evidence references and extraction payloads by record key and by local reference |
| SemanticSet.NormalizePhase | src/ballotproof/release_semantics.py:182-272 | one pass over the records yields exactly the normal forms of its kind, or reports the error of the first of them that has none |
| SemanticSet.NormalizeExtractions | src/ballotproof/release_semantics.py:231-233 | the extractions, in order of identifier, yield exactly their normal forms, or the error of the least one that has none |
| SemanticSet.Deduplicate | src/ballotproof/release_semantics.py:274-283 | equal forms collapse; different forms under one identity are refused |
| SemanticSet.SemanticRecords | src/ballotproof/release_semantics.py:177-288 | succeeds exactly when every record has a normal form and none clash, and lists each form once, sorted; otherwise reports the error of the least extraction without a form, else of the first attestation or review without one, else the clash |
| SemanticSet.SemanticMerkleRoot | src/ballotproof/release_semantics.py:291-306 | the root and count of that list, or an error for an empty release; what the root fixes is SemanticRootMeansContent |
| SemanticTheorems.SemanticBinding | src/ballotproof/release_semantics.py:291-306 | two releases have one semantic root if and only if they have the same normal forms, or there is a collision, or a leaf of one is hashed as an inner node of the other |
| SemanticContent.SemanticRootMeansContent | src/ballotproof/release_semantics.py:145-306 | two releases have one semantic root if and only if every record of either has a record of the other with the same content, down to the fields, the evidence it rests on and what it supersedes, or the hashes can be confused |
| SemanticContent.SameFormSameContent | src/ballotproof/release_semantics.py:145-272 | between two releases with the same normal forms, none of which clash, records with one normal form are of one type and say the same: extractions in status, provenance, multiset of fields, evidence and history; registries in the rest, source content, offices and units; reviews in reviewer, fields and extraction |
| SemanticContent.SameContentSameForm | src/ballotproof/release_semantics.py:145-272 | and records that say the same have one normal form |
| SemanticContent.SemanticRootIsTower | src/ballotproof/release_semantics.py:291-306 | the semantic root is the top of a tower over the hashed leaves of the listed forms, as many as are counted |
| SemanticContent.ListingIsOrdered | src/ballotproof/release_semantics.py:284-288 | the forms are listed by type and within a type by ascending semantic key |
| SemanticContent.MissingMeansGap | src/ballotproof/release_semantics.py:198-216 | an extraction is reported missing exactly when supersession leads to an identifier without extraction, and evidence exactly when it leads to an extraction without known evidence |
| SemanticContent.LocalRefReads | src/ballotproof/release_semantics.py:189-190 | a local reference is the identifier, a colon and the version in decimal |
| SemanticTheorems.SemanticRootIgnoresOrder | src/ballotproof/release_semantics.py:177-306 | when records that define one reference or extraction identifier agree on its meaning, reordering or repeating them does not move the semantic root, nor turn success into failure |
| SemanticTheorems.OrderIrrelevantIffOneMeaning | src/ballotproof/release_semantics.py:182-193 | what references resolve to is the same for every permutation of the records if and only if the records agree on it |
| SemanticTheorems.SwappedEvidenceMovesRoot | src/ballotproof/release_semantics.py:186-190 | two evidence records with different content that define the reference of an attestation give different roots in their two orders, or the hashes can be confused |
| SemanticTheorems.SemanticRootIgnoresNames | src/ballotproof/release_semantics.py:145-306 | an injective renaming of evidence and extraction identifiers, with the keys that are local references renamed along, and any change to what is dropped or re-sorted, does not move the root |
| SemanticTheorems.SemanticRootAbsorbs | src/ballotproof/release_semantics.py:274-306 | adding a record whose normal form is already there and that redefines no reference does not move the root |
| SemanticTheorems.ExtendsIffMeaningsKept | src/ballotproof/release_semantics.py:182-193 | after adding a record everything resolves as before if and only if the record gives nothing known another meaning |
| SemanticTheorems.RedefinitionMovesRoot | src/ballotproof/release_semantics.py:186-190 | adding evidence that redefines the reference of an attestation moves the root although its normal form is already there, or the hashes can be confused |
| CycleCheck.CycleChecker.Visit | src/ballotproof/collation_graph.py:80-90 | refuses only when there is a cycle; otherwise visits children before parents and leaves the set of open nodes as it was |
| CycleCheck.AssertAcyclic | src/ballotproof/collation_graph.py:71-92 | succeeds on exactly the graphs without a cycle, whatever the order of the roots |
| CycleCheck.AcyclicIffRanked | src/ballotproof/collation_graph.py:71-92 | a graph is free of cycles if and only if its nodes can be ranked with every child below its parent |
| Collation.Validate | src/ballotproof/collation.py:24-63 | accepts exactly the requests with unique identifiers, non-negative totals and texts within their limits |
| Collation.AcceptableMeans | src/ballotproof/collation.py:24-63 | which requests those are, with the limits of 128 and 256 characters spelled out |
| Collation.AddUp | src/ballotproof/collation.py:114-117 | each candidate's computed total is the sum over the expected units of what the unit contributes |
| Collation.CompareRegister | src/ballotproof/collation.py:101-112 | lists for each included unit exactly the registered candidates it lacks and the unregistered ones it names |
| Collation.CompareDeclared | src/ballotproof/collation.py:138-151 | reports exactly the comparable candidates whose declared total differs, with the difference |
| Collation.ReplayCollation | src/ballotproof/collation.py:87-195 | the whole report, field by field, for every request, or a refusal of invalid ones |
| CollationReports.ReportSays | src/ballotproof/collation.py:87-195 | the report of an acceptable request by its rows: totals sum what the rows of expected units give, the lists name exactly the missing and foreign units and candidates, differences carry declared minus computed, coverage counts the expected units that reported |
| Collation.FailedIffContradicted | src/ballotproof/collation.py:153-166 | a step fails if and only if the statements received so far are at odds: a stranger unit, an unregistered candidate, or a declared total that differs from the sum of the rows at hand although no reporting unit left the candidate out |
| Collation.VerifiedIffExact | src/ballotproof/collation.py:153-171 | a step is verified if and only if every unit reported exactly the registered candidates and any declaration equals the sum |
| Collation.PartialSumFails | src/ballotproof/collation.py:120-164 | a declared total that exceeds the partial sum fails the step while a unit is missing |
| Collation.FullSumVerifies | src/ballotproof/collation.py:120-168 | the same declaration is verified once the missing unit reports |
| Completion.MayVerifyIffConsistent | src/ballotproof/collation.py:87-195 | for every acceptable request some further rows make the step verified if and only if the register is known, no stranger reported, every received row names exactly the register, the missing units can be named, and a declaration names the register with totals at least the sum so far, equal to it when no unit is missing |
| CollationGraph.GraphIsWellFormed | src/ballotproof/collation_graph.py:24-54 | accepts exactly the well-formed acyclic requests |
| CollationReports.WellFormedMeans | src/ballotproof/collation_graph.py:24-92 | which requests those are: named nodes with children, no name twice, none shared with a leaf, counts from zero up, and no way down that returns to where it began |
| CollationGraph.ReplayNode | src/ballotproof/collation_graph.py:111-143 | a node's report follows from the totals of its leaves and of its verified children alone; a negative declared total or a leaf whose identifier does not fit is refused |
| CollationGraph.Pass | src/ballotproof/collation_graph.py:102-148 | one pass replays nodes only after their children, and makes no progress only if every remaining node waits for a child |
| CollationGraph.SomeNodeIsReady | src/ballotproof/collation_graph.py:149-150 | while nodes remain some node is ready, so the graph always resolves |
| CollationGraph.ReplayCollationGraph | src/ballotproof/collation_graph.py:95-175 | every node gets the report of the plain children-first recursion whatever the order; the result is FAILED exactly when a leaf is unreferenced or a node failed and INCOMPLETE exactly when neither and a node is incomplete; only a negative declared total or a leaf whose identifier does not fit is refused |
| CollationTheorems.NodeAddsChildren | src/ballotproof/collation_graph.py:111-143 | at every node a candidate's total is the sum of what leaves and verified children carry |
| CollationTheorems.TotalIsPathSum | src/ballotproof/collation_graph.py:102-144 | at every node it is the sum of leaf votes over all paths down through verified nodes |
| CollationTheorems.VerifiedTotalIsPathSum | src/ballotproof/collation_graph.py:102-144 | at a verified node it is the sum over all child paths down to leaves |
| CollationTheorems.CarriesIffReaches | src/ballotproof/collation_graph.py:111-143 | in a verified graph an identifier carries votes for a candidate if and only if it is, or leads to, a leaf that has some |
| CollationTheorems.RootsExceedLeavesByRepeats | src/ballotproof/collation_graph.py:152-175 | in a verified graph root totals exceed leaf totals by exactly what repeated references count again |
| CollationTheorems.VotesConservedIffNoneShared | src/ballotproof/collation_graph.py:152-175 | root and leaf totals agree if and only if no identifier with two parents is, or leads by child references to, a leaf with votes for the candidate |
| CollationTheorems.VotesConserved | src/ballotproof/collation_graph.py:152-175 | with at most one parent each, root totals sum to exactly the leaf totals |
| CollationTheorems.SharedLeafCountsTwice | src/ballotproof/collation_graph.py:152-175 | without it not: two roots that share a leaf are verified and hold twice its votes |
| CollationTheorems.ResultReports | src/ballotproof/collation_graph.py:155-175 | a replay's result is verified if and only if all node reports are and every leaf is referenced |
| CollationReports.ResultSays | src/ballotproof/collation_graph.py:95-175 | a replay fails if and only if a leaf is nobody's child or some node's statements are contradicted, and is verified if and only if no leaf is and every node's statements are exact; every node's rows are what its leaves and verified children carry, and roots and loose leaves are nobody's children |
| Scheduler.SourceSchedulerStore.Reserve | src/ballotproof/source_scheduler.py:110-271 | decides as specified, in the order of the checks, and adds exactly the requested row when it allows |
| SchedulerTheorems.ReserveAll | src/ballotproof/source_scheduler.py:110-271 | any sequence of calls on a store leaves it with the rows of the log that the theorems are about |
| Scheduler.Matching | src/ballotproof/source_scheduler.py:150-160 | selects exactly the receipts of the key, source and URL retrieved by now |
| SchedulerTheorems.GrantedIffDue | src/ballotproof/source_scheduler.py:119-241 | a request is granted if and only if it is bound to the approved policy, permitted, within its attempts, in sequence, not reserved before, under the limit of the last sixty seconds, and the wait since the latest matching response is over, where attempt 2 waits for the policy's backoff and each further attempt twice as long as the one before; the row granted is the request's |
| SchedulerTheorems.RefusalNamesFirstFailure | src/ballotproof/source_scheduler.py:119-241 | the reason of a refusal is the first of those conditions that fails, and only a wait comes with an instant |
| SchedulerTheorems.EntriesAreCalls | src/ballotproof/source_scheduler.py:236-266 | every logged reservation is the answer to one call on the rows before it, at that call's reading of the clock and under its policy's limit |
| SchedulerTheorems.LatestIsGreatest | src/ballotproof/source_scheduler.py:150-161 | the receipt a retry is measured by is the greatest matching one by retrieval, storage and identifier |
| SchedulerTheorems.LimitIsThreshold | src/ballotproof/source_scheduler.py:202-214 | the rate limit applies exactly while the k-th newest reservation is less than a minute old |
| SchedulerTheorems.RetryTimeIsExact | src/ballotproof/source_scheduler.py:202-234 | a refusal that names an instant is repeated, with the same reason and instant, at every earlier moment, and the request is allowed from that instant on |
| SchedulerTheorems.EveryGrantWithinLimit | src/ballotproof/source_scheduler.py:202-216 | under any clock each reservation respects, at its own instant, the limit it was granted under |
| SchedulerTheorems.SlidingWindowBound | src/ballotproof/source_scheduler.py:184-266 | in every run whose clock readings never fall behind an earlier one by less than a minute, the rows of a source with t - 60 s < reserved <= t are at most as many as the policy of the last of them allows |
| SchedulerTheorems.BoundIffSteady | src/ballotproof/source_scheduler.py:184-266 | the bound holds in all runs with given clock readings if and only if no reading falls behind an earlier one by less than a minute |
| SchedulerTheorems.FallingClockBreaksBound | src/ballotproof/source_scheduler.py:184-214 | for every limit and every fall by part of a minute, a run puts one reservation more than the limit into a minute |
| RetryLadder.RetryLadder | src/ballotproof/source_scheduler.py:143-182 | attempt m stands on attempts 1 .. m - 1 of the same key and URL, each of which drew a retryable status, waits after the last response as long as its policy demands, and comes after the first response by at least m - 1 waits, the first of them backoff and each other twice the one before |
| RetryLadder.ReserveAlong | src/ballotproof/source_scheduler.py:110-271 | the reservations of such a run are the rows of a store on which its calls are made |
| RetryLadder.AttemptsAreUnique | src/ballotproof/source_scheduler.py:187-200 | no attempt of a key is reserved twice |
| Acquisition.SourceAutomationStore.Defer | src/ballotproof/source_automation.py:244-254 | moves the next run of a known plan and nothing else |
| Acquisition.SourceAutomationStore.Advance | src/ballotproof/source_automation.py:256-266 | the next run becomes the first instant after now that lies a whole number of intervals after the slot, at the same offset from UTC |
| Acquisition.NextRunIsEarliest | src/ballotproof/source_automation.py:256-266 | that instant is the earliest point of the plan's grid that is still ahead |
| Acquisition.SourceAutomationStore.SetEnabled | src/ballotproof/source_automation.py:230-242 | switches a known plan and reports an unknown one |
| Acquisition.SourceAutomationStore.DuePlans | src/ballotproof/source_automation.py:213-228 | the first plans that are enabled and due, in order of time and identifier, each once; one is left out only when the limit is reached, and then none listed comes after it |
| Acquisition.SourceTransportStore.Claim | src/ballotproof/source_transport.py:339-383 | succeeds exactly once per reservation |
| Acquisition.SourceTransportStore.Finish | src/ballotproof/source_transport.py:385-408 | records how a claimed execution ended |
| AcquisitionTheorems.StepsKeepInv | src/ballotproof/source_automation.py:382-520 | every transaction, transport call, fault and crash of any worker keeps the invariant of the engine |
| AcquisitionTheorems.AtMostOneSend | src/ballotproof/source_automation.py:425-520 | over every interleaving and every crash the transport is called at most once per reservation and at most once per plan and scheduled time as written |
| AcquisitionTheorems.SendsArePermitted | src/ballotproof/source_transport.py:307-337 | the transport is called only for a reservation bound to the policy in force when it was checked, approved and permitting the request |
| AcquisitionTheorems.SlotsDoNotShare | src/ballotproof/source_automation.py:425-439 | a reservation made for one slot is never another slot's |
| AcquisitionTheorems.SlotIsResumed | src/ballotproof/source_automation.py:543-552 | a slot that is taken up again finds the reservation made for it before |
| AcquisitionTheorems.CompletedNamesReceipt | src/ballotproof/source_transport.py:255-268 | an execution marked completed, and a run recorded as completed, name a stored receipt that carries the reservation |
| AcquisitionTheorems.AbandonedClaimStays | src/ballotproof/source_automation.py:463-487 | once its worker is gone a claimed reservation keeps its record for ever and its transport is never called again |
| AcquisitionOutcomes.AbandonedClaimIsReported | src/ballotproof/source_automation.py:463-481 | however long a claim has been abandoned, whoever takes its slot up switches the plan off and records AMBIGUOUS_EXECUTION with that reservation, and the transport has not been called for it since |
| AcquisitionOutcomes.FoundExecutionDecides | src/ballotproof/source_automation.py:458-498 | an execution found decides the slot in every interleaving: none is executed, a completed one is recorded with its receipt and the plan advances, a failed one is recorded as failed and the plan advances, a claimed one disables the plan as ambiguous |
| AcquisitionOutcomes.BlockedPlanIsDisabled | src/ballotproof/source_automation.py:391-423 | a plan whose policy is missing, changed or unapproved, or whose source has no transport, is disabled with that reason, and any other goes on |
| AcquisitionOutcomes.ReservationIsLookedUp | src/ballotproof/source_automation.py:425-427 | a slot goes on with the reservation made for its plan and written time, and asks for one only when there is none |
| AcquisitionOutcomes.SlotIsReservedOrDeferred | src/ballotproof/source_automation.py:427-456 | the request is a first attempt under the policy just checked; a refusal defers the plan to the instant it names, or advances it, and records the reason |
| AcquisitionOutcomes.ClaimComesFirst | src/ballotproof/source_transport.py:307-383 | before any call an outdated binding or an existing claim gives the slot up, and otherwise exactly the claim is stored |
| AcquisitionOutcomes.ResponseIsCaptured | src/ballotproof/source_transport.py:205-255 | a call is one send; its response is stored as a receipt of the reservation, field by field, or an error is noted |
| AcquisitionOutcomes.ExecutionIsSettled | src/ballotproof/source_automation.py:500-520 | the execution is marked with its outcome and the run recorded as completed with its receipt or as failed, the plan advancing; whatever breaks off in between gives the slot up and leaves the mark |
| AcquisitionOutcomes.RoundIsWorkedOff | src/ballotproof/source_automation.py:356-367 | a worker takes the plans it has read as due one after the other, each once, all against the instant of the reading |
| AcquisitionOutcomes.SurroundingSteps | src/ballotproof/source_automation.py:230-242 | a crash loses nothing that is stored, and operators change one plan or one policy |
| HashChain.HeadFixesHistory | src/ballotproof/storage.py:263-280 | two chains that verify and end in one hash are the same chain, or a collision is among the strings they hash |
| HashChain.SealedStaysValid | src/ballotproof/storage.py:190-214 | a link sealed onto a valid chain leaves it valid |
| Evidence.EvidenceStore.AppendVersion | src/ballotproof/storage.py:164-243 | adds exactly one version with the submission's fields, the next number and the hash of the version before, or refuses an unknown history or a taken hash, each exactly then, and changes nothing; all histories stay valid |
| Evidence.EvidenceStore.VerifyChain | src/ballotproof/storage.py:263-280 | accepts exactly the valid histories and otherwise names the first bad version |
| Evidence.StoredChainsVerify | src/ballotproof/storage.py:164-280 | every history of a store filled by appending verifies in full |
| Evidence.EvidenceHeadFixesHistory | src/ballotproof/storage.py:31-50 | two verifying evidence histories with one head hash are equal in length and content, or there is a collision |
| Governance.ReleaseGovernanceStore.EnrollKey | src/ballotproof/release_governance.py:182-244 | adds the active row and logs it in one event, both given field by field, or refuses with the first check that fails and changes nothing |
| Governance.ReleaseGovernanceStore.RevokeKey | src/ballotproof/release_governance.py:263-297 | marks the row revoked, nothing else of it, and logs that in one event, or refuses an unknown or revoked key and changes nothing |
| Governance.ReleaseGovernanceStore.AppendKeyEvent | src/ballotproof/release_governance.py:560-595 | seals one event onto the key ledger |
| Governance.ReleaseGovernanceStore.Authorize | src/ballotproof/release_governance.py:366-396 | what an append has established before its transaction: a valid release, the matching signer, an active key and its enrollment; each refusal exactly when its check is the first to fail |
| Governance.ReleaseGovernanceStore.Issue | src/ballotproof/release_governance.py:397-457 | a manifest keeps the checkpoint it has; otherwise one checkpoint over that manifest, the ticket's key and enrollment and the chain's last hash is signed onto its election's chain, all fields given |
| Governance.ReleaseGovernanceStore.VerifyKeyTransparency | src/ballotproof/release_governance.py:328-364 | valid exactly when every event continues the chain, matches its hash and its key's fingerprint |
| Governance.ReleaseGovernanceStore.VerifyCheckpointChain | src/ballotproof/release_governance.py:481-540 | valid exactly when every checkpoint is in place, anchored, signed and not late; otherwise names the first checkpoint that does not hold and the head before it; an unknown enrollment escapes as an error |
| Governance.VerifyKeySnapshot | src/ballotproof/release_publication.py:261-277 | accepts exactly the numbered, chained, non-empty snapshots with the stated head |
| Governance.VerifyChainSnapshot | src/ballotproof/release_publication.py:290-334 | accepts exactly the snapshots whose checkpoints all hold against the key snapshot |
| Governance.MatchingCheckpoint | src/ballotproof/release_publication.py:337-354 | finds the only checkpoint of a manifest and the chain up to it, and refuses otherwise |
| GovernanceTheorems.StepsKeepInv | src/ballotproof/release_governance.py:182-457 | enrolling, revoking, authorising and issuing keep the ledger consistent |
| GovernanceTheorems.VerifiesIffNoneLate | src/ballotproof/release_governance.py:328-540 | in every reachable state the key ledger verifies, no enrollment lookup fails, and a chain verifies if and only if no checkpoint was issued at or after a revocation of its key |
| GovernanceTheorems.AtomicRunsVerify | src/ballotproof/release_governance.py:366-540 | with atomic appends and a strictly advancing clock, the key ledger and every chain always verify |
| GovernanceTheorems.RaceBreaksChain | src/ballotproof/release_governance.py:388-416 | after any run, a key revoked between the lookup and the transaction of an append leaves a chain that does not verify |
| GovernanceTheorems.RaceHappens | src/ballotproof/release_governance.py:366-457 | such a run exists for every actor, key and manifest under a strictly advancing clock, provided that its two key events hash differently |
| GovernanceTheorems.PrefixSnapshotsHold | src/ballotproof/release_publication.py:290-334 | every chain prefix with the current key events passes the self-contained verifier if and only if none of its checkpoints is late |
| GovernanceTheorems.MatchIsFound | src/ballotproof/release_publication.py:337-354 | every issued checkpoint is the only match of its manifest and ends the prefix that is published |
| GovernanceTheorems.RevokedIsFinal | src/ballotproof/release_governance.py:263-313 | a revoked key is never active again, not even under another identifier |
| GovernanceProvenance.CheckpointsAreAuthorized | src/ballotproof/release_governance.py:366-457 | over every run each checkpoint names exactly the election, release, Merkle root and digest of the manifest of a valid release authorised earlier for the key that signs it, that key being active then and anchored in its first enrollment; its times are those of its issue, and it continues its election's chain |
| GovernanceProvenance.KeyEventsAreLogged | src/ballotproof/release_governance.py:182-297 | every key event was logged, in the order of the run, by one enrollment or revocation, and repeats the row that operation wrote, its actor and its time |
| GovernanceProvenance.KeyRowsAreLogged | src/ballotproof/release_governance.py:182-297 | every key row is what its one enrollment event and its one revocation event, if any, say |
| GovernanceProvenance.HashesAreUnique | src/ballotproof/release_governance.py:141-174 | no two key events and no two checkpoints, of whatever elections, share a hash |
| GovernanceProvenance.VerifyingMeans | src/ballotproof/release_governance.py:328-540 | a ledger and a chain verify if and only if each event continues the one before, carries its hash and names its key's fingerprint, and each checkpoint is in place, signed by the key first enrolled under its signer, hashed, and earlier than any revocation of that key |
| GovernanceProvenance.KeySnapshotMeans | src/ballotproof/release_publication.py:261-277 | the same for a published key snapshot, with its count, numbering and head |
| GovernanceProvenance.ChainSnapshotMeans | src/ballotproof/release_publication.py:290-334 | the same for a published chain snapshot, with its count and head |
| ObserverPins.ObserverPinStore.PinStatement | src/ballotproof/observer_pins.py:112-222 | for an authentic statement of the trusted witness: the pin there is at its sequence or a conflict, a refusal when a later one is pinned, and otherwise the next pin, field by field; a blank observer, an untrusted witness and an invalid statement are refused, each exactly then; the ledger stays valid |
| ObserverPins.ObserverPinStore.VerifyChain | src/ballotproof/observer_pins.py:237-298 | valid exactly when every pin is numbered, chained, authentic, true to its statement and later in its stream; otherwise names the first pin that does not hold and the head before it |
| ObserverPins.PinHoldsMeans | src/ballotproof/observer_pins.py:237-298 | what a pin must satisfy: its number, the hash before it, its own hash, an authentic statement whose fields it repeats, and a later sequence than every earlier pin of its observer, witness and election |
| ObserverPins.AuthenticMeans | src/ballotproof/release_publication.py:688-729 | a statement is authentic when its key has 32 bytes with the stated fingerprint, its signature verifies over the payload, and its digest is that of its body |
| ObserverPins.StreamsStrictlyIncrease | src/ballotproof/observer_pins.py:181-194 | along the ledger each stream's checkpoint sequence strictly increases |
| ObserverPins.DetectWitnessEquivocations | src/ballotproof/release_publication.py:744-781 | reports exactly the (witness, election, sequence) keys on which two statements name different publications or checkpoints, each with every publication and every checkpoint named and each statement digest as often as it occurs, and refuses lists with an invalid statement |
| ObserverPins.StatementsArePinned | src/ballotproof/observer_pins.py:224-235 | an observer's statements are those of its pins, one for each |
| ObserverPins.OneObserverSeesNoEquivocation | src/ballotproof/observer_pins.py:139-167 | one observer's own pins never contain a contradiction |
| ObserverPins.ObserverNeverEquivocates | src/ballotproof/observer_pins.py:112-298 | for every store filled by pinning, the ledger verifies and detection over one observer's pins reports nothing |
| ObserverPins.PinHeadFixesLedger | src/ballotproof/observer_pins.py:268-285 | two verifying ledgers with one head hash have the same entries, or there is a collision |
| Quorum.ReplicatedBackend.PutBytes | src/ballotproof/object_storage.py:273-294 | stores non-empty bytes at a good path on every replica that is reached and has nothing there, and returns exactly when enough replicas confirm that they hold them; replicas that failed may or may not hold the object |
| Quorum.PutIfAbsent | src/ballotproof/release_publication.py:187-211 | one replica: absent bytes are stored, the same bytes confirmed again, other bytes, empty bytes and bad paths refused, and nothing stored is ever changed |
| Quorum.ReplicatedBackend.ReadBytes | src/ballotproof/object_storage.py:296-313 | returns the value of the first replica that answers, exactly when enough replicas answer and all digests agree |
| Quorum.ReturnsAgree | src/ballotproof/object_storage.py:273-313 | with majority quorums any two operations on a path that ever return, put or read, agree on the digest, whatever fails and however clients interleave |
| Quorum.PutsAgree | src/ballotproof/object_storage.py:273-294 | two puts on a path that return have put the same bytes |
| Quorum.MinorityQuorumsSplit | src/ballotproof/object_storage.py:258-271 | for every configuration without a majority there is a run in which two different objects are both put at one path |
| Quorum.PutAsSteps | src/ballotproof/object_storage.py:273-294 | an undisturbed put, run one replica at a time, is the put of the backend |
| Quorum.ReadAsSteps | src/ballotproof/object_storage.py:296-313 | an undisturbed read, run one replica at a time, returns an answer exactly when enough replicas answer and all digests agree |
| Quorum.StepSays | src/ballotproof/object_storage.py:273-313 | one event of a run moves one client and at most one replica, and an operation returns only after it has been through all of them |
| Leases.PostgresFencedLeaseStore.TryAcquire | src/ballotproof/postgres_leases.py:61-146 | never takes an unexpired lease from another worker; a fresh row has token one, a renewal of an unexpired lease keeps token and start, anything else raises the token by one; a row that vanishes in between is reported |
| Leases.PostgresFencedLeaseStore.AssertCurrent | src/ballotproof/postgres_leases.py:148-173 | passes exactly for the worker and token on an unexpired row |
| Leases.PostgresFencedLeaseStore.Release | src/ballotproof/postgres_leases.py:175-194 | forgets the token, and deletes the row exactly when worker and remembered token are still on it |
| Leases.StepSays | src/ballotproof/postgres_leases.py:61-194 | one event of a run takes, renews, deletes or forgets as those calls do, and touches no other process |
| Leases.OneLeasePasses | src/ballotproof/postgres_leases.py:148-173 | at any moment at most one worker and token pass |
| Leases.TokensRise | src/ballotproof/postgres_leases.py:104-132 | while the row survives tokens never fall, and have risen if any other worker held the lease in between |
| Leases.FencedIffHarmless | src/ballotproof/postgres_leases.py:74-194 | over a whole run tokens never fall and rise with every change of worker if and only if every deletion before another acquisition removed a row with the first token and the same worker comes next |
| Leases.RestartsAtOne | src/ballotproof/postgres_leases.py:74-85 | the first acquisition after a deletion has token one |
| Leases.OldLeaseRefused | src/ballotproof/postgres_leases.py:148-173 | once another worker holds the lease an old lease is refused in every later state until its own worker acquires again |
| Leases.PassingLeaseWasHeld | src/ballotproof/postgres_leases.py:148-173 | a lease that still passes while the row survived was its worker's throughout |
| Leases.ReleaseRemovesOwnRow | src/ballotproof/postgres_leases.py:175-191 | a release never removes another worker's row |
| Leases.TokensRestart | src/ballotproof/postgres_leases.py:74-191 | every run that ends with a lease its process remembers can go on so that another worker holds the lease and then the old lease, worker and token, passes again |

## Left out

- SHA-256, Ed25519, base64, canonical JSON, CSV and Parquet: library code, kept as functions with stated assumptions.
- Web routes, command lines, environment parsing, connection pools, SQL text, network and file-system details: plumbing around the algorithms.
- URL, host, address and path normalisation rules: a predicate decides them; the code that does is not part of this model.
- Patterns and limits of text fields other than collation identifiers and levels, and upper-casing of request methods: the text is taken as given.
- Rounding of fractional seconds to microseconds, and comparing instants as ISO text in SQL: instants are compared as numbers.
- Storing rows as JSON and reading them back: a row is the value that was stored.
- The order in which identifier lists are displayed: they are sets here, as are the differences of a collation report.
- Guarded mutations being atomic with the lease check: the original checks in a separate round trip, so nothing is claimed.
- Acquisition: a worker's steps are transitions of a state machine rather than one method, because they interleave with other workers; the stores they change are classes. Their lists of due plans may be any of the due plans.
- Release file assembly, publication objects and signatures of witnesses' own making, S3 object locks, result-sheet checks, reconciliation, registry references, cutover and the fixed-window request limiter: lighter than what is here, or library behaviour.
