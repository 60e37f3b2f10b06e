# Resolution ledger, exact inference and outbox pipeline: a verified model

This project models four connected parts of the system and proves what each is for.

1. **The resolution ledger** (`crates/li-storage/src/ledger.rs`). A batch of commands is validated as a whole and
   then changes about fifteen indexes: evidence, inferences, decisions, identities and their merge classes, an
   outbox, receipts, a replay table and a log. `LedgerSpec` gives every transition as a function on a ledger value;
   `MemoryLedgers.MemoryLedger` is the mutable class, field by field, with its incremental canonical forest, and is
   proved to refine those functions. `Acceptance` says which batches are accepted, and `Effects`, `MergeRecords` and
   `Withdrawals` what they leave behind, without those functions. Whole-run theorems (also `LedgerRuns`,
   `Dependencies`, `History`, `AsOf`, `Statuses`, `Representatives`, `Receipts`, `Evidence`) quantify over every log of
   accepted envelopes; `LedgerRuns.RunIsLog` ties every submission sequence to such a log. `DurableLedgers` adds
   write-then-apply persistence over an ordered byte-key store (`KeyValue`) and recovery by replay, and `Recovery` says
   which stored tables can be opened.
2. **The Sum-Product solver** (`crates/li-inference/src/solver.rs`). `FactorGraphs` validates tables and compiles
   strides and message offsets, `Topology` finds cycles with a path-compressing union-find and bounds the passes,
   `SumProduct` performs the passes in place on message arrays, and `Solver` runs them. `JointSums`, `Exactness`,
   `ExactMessages` and `ExactFactors` prove that on a forest every message is proportional to the exact sum over what
   lies behind its edge, so that the returned marginals are those of the joint distribution. `BatchWeights` states that
   distribution by picks and tables alone, and `Schedules` what runs of damped passes are.
3. **Candidates, distributions and decisions** (`Candidates`, `Aggregation`, `Decisions`, `Inference`): the in-place
   sort and dedup of candidate groups, one provider against many, the canonical distribution, the minimum-risk action,
   and the stage that runs them around the solver.
4. **The outbox pipeline** (`HostGraph`, `Workspace`, `Outbox`, `Batches`, `Deliveries`, `Pipeline`, `Resolution`):
   evidence commit, inference, resolution commit, hot cache, host write, receipt and retry, with host, backend and
   providers failing whenever the environment likes.

Conventions of the model:

- Identifiers, timestamps and payloads are naturals or opaque sequences; identity references in candidate lists and
  distributions are numbered in their order. Iteration over a hash map picks an arbitrary key.
- Log potentials, priors and messages are the positive reals they are logarithms of: adding logs is multiplication,
  adding exponentials of logs is addition, a non-finite potential is one that is not positive.
- A provider is the list of pushes it makes and a function from the candidates to factors; the planner, the contents
  of records and the identity behind a candidate number are arbitrary functions. A host adapter may fail before or
  after its write went through.
- The serializer is a parameter: encoding may fail, and what was encoded decodes to itself. The backend write is
  atomic; it may succeed, be refused, or succeed just before the process stops.

Where a natural claim is false of the code, the code is kept. `Counterexamples`, `MergeCounterexamples` and
`PipelineCounterexamples` hold concrete inputs, and the theorems beside each are if-and-only-ifs, for one commit and
for whole runs:

| claim | concrete input | exact condition |
|---|---|---|
| the inference found for a version is the one current then | `TwoResolutionsStayOpen` | `AsOf.InferenceHistoryIff` |
| the decision found for a version is the one current then | `LateRevertRewritesHistory` | `AsOf.DecisionHistoryIff` |
| no active transaction depends on an inactive one | `EnvelopeUnderminesItself` | `Dependencies.CommitKeepsSupportIff`, `Dependencies.ActiveNeverRestsOnInactive` |
| every replaced identity is `Merged` | `LifecycleOverwritesMerged` | `Statuses.CommitAgreesIff`, `Statuses.ReplacedAreMerged` |
| no class representative is `Merged` | `RevertLeavesMerged` | `Representatives.CommitKeepsRepresentativesIff`, `Representatives.RepresentativesUnmarkedIff` |
| a materialization has at most one receipt | `TwoReceiptsAccepted` | `Receipts.CommitKeepsOneReceiptIff`, `Receipts.OneReceiptIff` |
| the hot cache follows the committed decisions | `StaleBatch`, `SeenTwice` | `Pipeline.ResolutionRuntime.ProcessBatch`, `Pipeline.ResolutionRuntime.HotHistory` |

Code and comments disagree in one modelled place: the comment at `crates/li-core/src/decision.rs:147-149` puts
identity assignments before a new identity in the tie order, while the code starts from the new identity. The model
follows the code (`Decisions.Decide`, `Decisions.TieGoesToNew`).

## Model

| member | source | states |
|---|---|---|
| MemoryLedgers.MemoryLedger.CommitEnvelope | crates/li-storage/src/ledger.rs:323-328 | Committing to the mutable ledger is the ledger function `Commit`: refused and replayed envelopes change nothing, accepted ones have exactly their effects; the canonical forest stays valid and represents the open merges |
| MemoryLedgers.MemoryLedger.PrepareEnvelope | crates/li-storage/src/ledger.rs:484-506 | A known replay key replays its envelope or collides; any other envelope is validated |
| MemoryLedgers.MemoryLedger.ValidateEnvelope | crates/li-storage/src/ledger.rs:508-855 | Whole-batch validation gives the next version exactly when the header and every command are admissible, and otherwise the reason of the first that is not; admissibility speaks of the log, the records and the status the earlier commands left, not of the overlay |
| Acceptance.SubmittedAcceptedIff | crates/li-storage/src/ledger.rs:484-855 | At every state of every run a batch is accepted if and only if its replay key is new and it is admissible: among others, a revert needs its transaction active and, only if strict, no active dependent; each lifecycle change its statuses; a merge joinable endpoints and known support; a split open merges; a receipt its open entry |
| Acceptance.ValidationDecided | crates/li-storage/src/ledger.rs:508-855 | Over exact indexes validation accepts exactly the admissible batches and reports the first failing condition of the first failing command |
| MemoryLedgers.MemoryLedger.ApplyEnvelope | crates/li-storage/src/ledger.rs:873-1035 | An applicable batch takes effect command by command and is recorded in the log, the indexes and the replay table |
| MemoryLedgers.MemoryLedger.CanonicalIdentity | crates/li-storage/src/ledger.rs:1278-1281 | The representative is the least identity of the component of open merges, for every known identity and no other |
| MemoryLedgers.MemoryLedger.Root | crates/li-storage/src/ledger.rs:1189-1203 | The fuel-bounded walk never gives up on a known identity, and two to the number of steps is at most the class size |
| MemoryLedgers.MemoryLedger.UnionCanonical | crates/li-storage/src/ledger.rs:1205-1235 | Union by size makes the forest represent one more edge and reports the kept and the replaced class minimum |
| MemoryLedgers.MemoryLedger.RebuildCanonical | crates/li-storage/src/ledger.rs:1152-1176 | Whatever order the maps are iterated in, the rebuilt forest represents the open merges and every non-minimum becomes `Merged` |
| MemoryLedgers.MemoryLedger.InsertCanonical | crates/li-storage/src/ledger.rs:1178-1187 | A new identity joins the forest as a class of its own; no other class changes |
| MemoryLedgers.MemoryLedger.CloseCurrentResolution | crates/li-storage/src/ledger.rs:1037-1060 | Closes the observation's current inference and decision, silently skipping an empty interval |
| MemoryLedgers.MemoryLedger.CollectRevertTargets | crates/li-storage/src/ledger.rs:1062-1085 | The cursor loop lists the dependency closure in visiting order and terminates |
| MemoryLedgers.MemoryLedger.DeactivateTransaction | crates/li-storage/src/ledger.rs:1087-1150 | Deactivation withdraws, closes and removes what the transaction's commands had added, as the ledger function `Deactivate` |
| Withdrawals.RevertWithdraws | crates/li-storage/src/ledger.rs:1140-1145 | A revert takes away exactly the materializations that the transactions it names or cascades to enqueued, and leaves every other entry as it is |
| Withdrawals.CommandOutbox | crates/li-storage/src/ledger.rs:978-1010 | Each command enqueues, completes, withdraws or keeps an outbox entry exactly as its name says |
| Withdrawals.EntriesAreLogged | crates/li-storage/src/ledger.rs:982-997 | In every run each outbox entry names, by its commit, an active log entry that enqueues it with that decision and relation |
| Withdrawals.OutstandingIff | crates/li-storage/src/ledger.rs:1087-1150 | In every run the outbox holds exactly the materializations that were enqueued and that no later revert took away |
| Effects.RecordsAreLogged | crates/li-storage/src/ledger.rs:878-938 | In every run every observation, inference, decision and merge of the log is recorded word for word under the version of its commit; only ends are set later |
| Effects.PromotionsAreLogged | crates/li-storage/src/ledger.rs:906-911 | In every run an identity is promoted to the last target the log names for it |
| Effects.StatusAfterCommand | crates/li-storage/src/ledger.rs:897-975 | Every command leaves every status as its own label, the classes it joins and the merges it leaves open say |
| Effects.StatusesFollowCommands | crates/li-storage/src/ledger.rs:873-975 | In every run, each command of each accepted batch does so when its turn comes |
| MergeRecords.MergesLast | crates/li-storage/src/ledger.rs:940-950 | In every run a merge is open exactly until the first later split that names it, or revert that withdraws it, and ends with that commit |
| Canonical.DepthBound | crates/li-storage/src/ledger.rs:1189-1203 | In a canonical forest two to the depth of a node is at most the size of its class |
| Canonical.RelinkKeepsForest | crates/li-storage/src/ledger.rs:1217-1234 | Hanging the smaller root under the larger keeps sizes, minima and the depth bound |
| Canonical.UnionRepresents | crates/li-storage/src/ledger.rs:1205-1235 | Joining two classes of the forest is adding one edge to the graph it represents |
| Canonical.MinimumIsClassMinimum | crates/li-storage/src/ledger.rs:1278-1281 | The minimum recorded at a root is the least identity connected to the node |
| Connectivity.AddEdge | crates/li-storage/src/ledger.rs:1205-1235 | One more edge connects exactly the pairs connected before and those across its endpoints |
| LedgerRuns.LogIsComplete | crates/li-storage/src/ledger.rs:1014-1034 | In every run the version is the log length, entry i has version i+1 and its envelope, and both indexes are exact |
| LedgerRuns.ActiveOnlyFalls | crates/li-storage/src/ledger.rs:1087-1102 | At any two states of a run a stored envelope is the one its entry was logged with, and `active` only goes from true to false |
| LedgerRuns.ResubmissionReplays | crates/li-storage/src/ledger.rs:484-506 | Any committed envelope, resubmitted at any later state, returns its original version as a replay and changes nothing |
| LedgerRuns.ReusedKeyCollides | crates/li-storage/src/ledger.rs:484-506 | A replay key reused with another envelope is a collision at every later state |
| LedgerRuns.RunIsLog | crates/li-storage/src/ledger.rs:469-506 | Any submission sequence, with rejected and replayed commits in it, leaves exactly the state of its accepted log |
| LedgerFrames.ValidatedIsApplicable | crates/li-storage/src/ledger.rs:508-855 | Validation against the old state suffices: no command of an accepted batch meets a state in which it could fail halfway |
| Dependencies.CascadeIsClosure | crates/li-storage/src/ledger.rs:1062-1085 | A cascade lists exactly the transactions reachable through dependents, each once, the root first |
| Dependencies.RevertDeactivatesExactly | crates/li-storage/src/ledger.rs:1016-1021 | A revert deactivates exactly its targets and no other transaction |
| Dependencies.DependentsExact | crates/li-storage/src/ledger.rs:1022-1030 | In every run `dependents` lists t's dependents exactly as the logged envelopes declare them |
| Dependencies.DependentsInOrder | crates/li-storage/src/ledger.rs:1022-1030 | The list of a transaction's dependents names them one by one, in the order their envelopes were committed |
| Dependencies.CommitKeepsSupportIff | crates/li-storage/src/ledger.rs:530-539 | A commit keeps active transactions off inactive ones if and only if it does not depend on a transaction it reverts |
| Dependencies.ActiveNeverRestsOnInactive | crates/li-storage/src/ledger.rs:791-815 | In every run, no active transaction depends on an inactive one if and only if every envelope that reverted its own dependency has been deactivated since |
| AsOf.InferenceHistoryIff | crates/li-storage/src/ledger.rs:885-896 | Inference history answers what was current then, at every later time, if and only if no batch resolved an observation twice |
| AsOf.DecisionHistoryIff | crates/li-storage/src/ledger.rs:1262-1275 | The decision found for a version, asked at any later time, is the one current then, for every observation, if and only if no batch resolved an observation twice and every revert met only open decisions |
| AsOf.IntervalsDisjoint | crates/li-core/src/inference.rs:292-320 | Over a log in which no batch resolves an observation twice, the intervals of one observation are pairwise disjoint |
| AsOf.OpenIffCurrent | crates/li-storage/src/ledger.rs:1037-1060 | Over such a log an inference is open exactly when it is its observation's current one |
| AsOf.DoubleAnswers | crates/li-storage/src/ledger.rs:1046-1049 | Every batch that resolves an observation twice leaves a wrong answer behind |
| AsOf.ReclosingRewrites | crates/li-storage/src/ledger.rs:1120-1127 | Every revert of a transaction with a closed decision rewrites some historical answer |
| History.StateSound | crates/li-storage/src/ledger.rs:890-895 | In every run records keep their lineage and their validity began with their commit; without double resolutions everything open is current |
| Queries.DecisionAsOf | crates/li-storage/src/ledger.rs:1262-1275 | The scan returns some decision of the observation valid at the version, whatever the visiting order, and none only if there is none |
| Queries.DecisionAsOfRun | crates/li-storage/src/ledger.rs:1262-1275 | Over a log of batches that resolve nothing twice and revert only open decisions it names exactly the decision that was current at that version |
| Queries.CurrentDecision | crates/li-storage/src/ledger.rs:1251-1259 | The current decision is the record the current index names |
| Queries.DependencyClosure | crates/li-storage/src/ledger.rs:1318-1326 | The closure query returns, in ascending order, exactly the transactions reachable through dependents |
| Statuses.CommitAgreesIff | crates/li-storage/src/ledger.rs:692-729 | A commit keeps every replaced identity `Merged` if and only if it leaves no offending relabel unrepaired |
| Statuses.ReplacedAreMerged | crates/li-storage/src/ledger.rs:912-973 | In every run, each identity that is not its class minimum is `Merged` if and only if every offending relabel left behind was followed by a split or effective revert |
| Statuses.LifecyclesFirstIsSafe | crates/li-storage/src/ledger.rs:196-249 | A batch with its lifecycle commands ahead of merges and splits never offends: the overlay agrees with the applied statuses |
| Statuses.LifecyclesFirstKeepsMerged | crates/li-storage/src/ledger.rs:676-790 | Hence every run of such batches keeps all replaced identities `Merged` |
| Representatives.CommandMisnames | crates/li-storage/src/ledger.rs:912-973 | A command leaves an identity `Merged` while it represents its class exactly if it was so before and the command does not repair it, or if it is a split or revert whose remaining merges free an identity that is marked and that no partition names |
| Representatives.CommitKeepsRepresentativesIff | crates/li-storage/src/ledger.rs:1152-1176 | A commit keeps `Merged` off every class minimum if and only if no split or revert of its batch frees a marked identity without a later relabel, merge or partition of the batch repairing it |
| Representatives.RepresentativesUnmarkedIff | crates/li-storage/src/ledger.rs:1152-1176 | In every run, no class minimum is `Merged` if and only if every identity freed like that was repaired by a later command of the run |
| Receipts.CommitAppendsReceipts | crates/li-storage/src/ledger.rs:998-1010 | A commit appends one receipt per receipt command, in batch order, and nothing ever drops one |
| Receipts.CommitKeepsOneReceiptIff | crates/li-storage/src/ledger.rs:839-851 | A commit keeps at most one receipt per materialization if and only if its receipt commands name pairwise different materializations, none of which has a receipt already |
| Receipts.OneReceiptIff | crates/li-storage/src/ledger.rs:839-851 | In every run, materializations have at most one receipt each if and only if no two receipt commands of the log name the same one |
| Receipts.SecondReceiptNeedsWithdrawal | crates/li-storage/src/ledger.rs:1140-1145 | Between receipts for one materialization in two commits there is a state in which its entry is not in the outbox |
| Evidence.EvidenceIsLogged | crates/li-storage/src/ledger.rs:880-884 | The visible evidence is exactly what the log persisted, under the version that persisted it |
| Evidence.ObservationsAsOf | crates/li-storage/src/ledger.rs:1296-1310 | The query returns exactly the visible observations, each once, ascending by id |
| Evidence.VisibleForever | crates/li-storage/src/ledger.rs:1296-1310 | Asked at any later time, an observation is visible as of version c exactly if one of the first c log entries persisted it, whatever was reverted since |
| Evidence.SameAnswerForever | crates/li-storage/src/ledger.rs:1296-1310 | The list answering the query about version c is the same list, in the same order, at every state from c on |
| KeyValue.MemoryKvBackend.PrefixScan | crates/li-storage/src/backend/memory.rs:37-53 | The scan that stops at the first non-match returns every entry with the prefix, in key order |
| KeyValue.MemoryKvBackend.ApplyTransaction | crates/li-storage/src/backend/memory.rs:55-75 | A batch of puts and deletes takes effect in order |
| KeyValue.LastOperationDecides | crates/li-storage/src/backend/memory.rs:55-75 | After a batch the last operation on a key decides: a put leaves its value, a delete nothing, and other keys stay as they were |
| KeyValue.PrefixContiguous | crates/li-storage/src/backend/memory.rs:37-53 | Keys with a common prefix are contiguous in byte order |
| KeyValue.DurableKeyOrder | crates/li-storage/src/ledger.rs:418-423 | Byte order of ledger keys is version order |
| KeyValue.DurableKeyRoundTrip | crates/li-storage/src/ledger.rs:425-431 | A ledger key is `txn/` and eight bytes, and decoding it gives back its version |
| KeyValue.OnlyDurableKeysDecode | crates/li-storage/src/ledger.rs:425-431 | What decodes to a version is exactly that version's key |
| DurableLedgers.DurableLedger.CommitEnvelope | crates/li-storage/src/ledger.rs:343-365 | A commit is the memory commit, or a storage refusal without effect, or a stop that leaves the envelope stored |
| DurableLedgers.Open | crates/li-storage/src/ledger.rs:383-405 | Opening replays the scanned records in order and reports the first corruption |
| Recovery.RecoverIff | crates/li-storage/src/ledger.rs:383-405 | Opening gets through its records exactly if they stand under the versions from one on and decode to a valid log, whose ledger it yields; otherwise it ends in the error of the first record that cannot be replayed on what came before |
| DurableLedgers.RecoveryIsExact | crates/li-storage/src/ledger.rs:383-405 | Scanning the stored table of a valid log and replaying it gives exactly the ledger of that log |
| DurableLedgers.StoppedCommitSurvives | crates/li-storage/src/ledger.rs:343-405 | Wherever a writing commit stops, the table can be opened, and every opening yields exactly the ledger with the interrupted envelope applied |
| DurableLedgers.RecoveryAfterAnyRun | crates/li-storage/src/ledger.rs:343-405 | After any mix of accepted, rejected, replayed, refused and stopped commits and restarts no opening has failed, the table can be opened, and every opening yields the survivors' ledger |
| Counterexamples.TwoResolutionsStayOpen | crates/li-storage/src/ledger.rs:1046-1049 | A concrete batch with two resolutions of one observation leaves both inferences open |
| Counterexamples.LateRevertRewritesHistory | crates/li-storage/src/ledger.rs:1120-1127 | A concrete log in which reverting a superseded resolution makes its decision hold at a version at which it did not |
| Counterexamples.EnvelopeUnderminesItself | crates/li-storage/src/ledger.rs:530-539 | A concrete envelope stays active on the dependency it deactivates |
| Counterexamples.TwoReceiptsAccepted | crates/li-storage/src/ledger.rs:839-851 | A concrete batch with two receipts for one materialization is accepted with both |
| MergeCounterexamples.LifecycleOverwritesMerged | crates/li-storage/src/ledger.rs:692-729 | A concrete batch whose lifecycle command overwrites the `Merged` of its own merge |
| MergeCounterexamples.RevertLeavesMerged | crates/li-storage/src/ledger.rs:1167-1175 | A concrete log in which a reverted merge leaves its identity `Merged` although it represents its class again |
| FactorGraphs.NewFactorTable | crates/li-factors/src/provider.rs:171-212 | A table is accepted exactly when its scope is non-empty and duplicate-free, its cardinalities positive with a representable product equal to its length, and its potentials finite; refusals come in this order |
| FactorGraphs.DigitOfIndex | crates/li-inference/src/solver.rs:390-393 | Dividing by the stride and taking the remainder reads an assignment back from its table entry |
| FactorGraphs.IndexOfDigits | crates/li-inference/src/solver.rs:254-266 | Every table entry is the entry of its digits, so entries and in-range assignments correspond one to one |
| FactorGraphs.FitsIff | crates/li-inference/src/solver.rs:233-305 | A batch fits exactly when every factor position names an observation with its candidate count plus two, and all message cells together are addressable |
| FactorGraphs.RefusalIs | crates/li-inference/src/solver.rs:268-300 | A position is refused for its variable, then its cardinality, then the message cells so far |
| FactorGraphs.Compile | crates/li-inference/src/solver.rs:233-305 | Compilation succeeds exactly when every variable is in bounds with the right cardinality and the message buffers stay representable, otherwise reports the first variable that is not; edges, edge lists, strides and offsets are as numbered |
| SumProduct.RangesDisjoint | crates/li-inference/src/solver.rs:284-301 | Message ranges lie inside the buffers and never overlap |
| SumProduct.RangesCover | crates/li-inference/src/solver.rs:284-301 | Every message cell belongs to some edge |
| Topology.ComponentRoot | crates/li-inference/src/solver.rs:347-358 | Finding a root terminates and returns it; path compression hangs nodes below it and changes no node's root |
| Topology.ParentsDetermineRoots | crates/li-inference/src/solver.rs:347-358 | The parent links alone determine every root |
| Topology.UnionComponents | crates/li-inference/src/solver.rs:361-378 | Union hangs the smaller class under the larger one's root, keeps recorded sizes exact, and reports whether they were distinct |
| Topology.FindTopology | crates/li-inference/src/solver.rs:309-344 | Acyclic is reported exactly when every link is a bridge, and the pass bound is one more than the largest component's edge count |
| Topology.ComponentsAreThin | crates/li-inference/src/solver.rs:309-344 | A component has at most one more node than it has edges |
| Topology.CountsAreComponents | crates/li-inference/src/solver.rs:330-337 | The counter of a root counts exactly its component's edges |
| Forests.ForestStep | crates/li-inference/src/solver.rs:318-329 | A new link keeps a forest one exactly when it joins two components |
| Forests.BehindSplits | crates/li-inference/src/solver.rs:387-415 | Behind a node, away from one neighbour, lie the node itself and what lies behind its other neighbours |
| Forests.BehindDisjoint | crates/li-inference/src/solver.rs:387-415 | In a forest the parts behind two neighbours of a node do not meet |
| SumProduct.Normalise | crates/li-inference/src/solver.rs:529-539 | Normalising divides by the total, and refuses exactly a total without support |
| SumProduct.DampAndResidual | crates/li-inference/src/solver.rs:541-562 | Damping mixes old and new, reports the largest change, and normalises; it refuses exactly a mixture without support |
| SumProduct.FactorPass | crates/li-inference/src/solver.rs:380-424 | The pass replaces every message to a variable from the unchanged messages to factors and never lacks support |
| SumProduct.VariablePass | crates/li-inference/src/solver.rs:426-457 | The pass replaces every message to a factor from the unchanged messages to variables and never lacks support |
| SumProduct.FillFactorMessage | crates/li-inference/src/solver.rs:387-415 | The table loop computes the sum over exactly the entries that give the variable each of its values |
| ExactFactors.MessageIsSum | crates/li-inference/src/solver.rs:387-415 | That sum is the sum over all assignments of the factor's other variables |
| JointSums.TableTail | crates/li-inference/src/solver.rs:387-415 | Running through a table in order is summing over its variables, whatever their numbers |
| JointSums.ZSplits | crates/li-inference/src/solver.rs:387-457 | Sums over parts that do not look at each other's variables multiply |
| ExactFactors.FactorMessageExact | crates/li-inference/src/solver.rs:380-424 | From exact messages a factor computes a message proportional to the exact sum over its whole side |
| ExactMessages.BeliefExact | crates/li-inference/src/solver.rs:426-457 | From exact messages a variable's belief is proportional to the exact sum over its whole side |
| Solver.FactorPassCarries | crates/li-inference/src/solver.rs:175-231 | A factor pass makes messages exact one node further out, although initial messages omit the priors |
| Solver.VariablePassCarries | crates/li-inference/src/solver.rs:175-231 | A variable pass makes messages to factors exact as far out |
| Solver.PassesReach | crates/li-inference/src/solver.rs:309-344 | As many passes as the largest component's edges plus one reach across every component whose edge count is a 32-bit number |
| Solver.BeliefIsMarginal | crates/li-inference/src/solver.rs:469-489 | When messages reach across a component, the normalised belief is the exact marginal of the whole batch |
| Solver.TotalsAgree | crates/li-inference/src/solver.rs:469-489 | The weight of all joint assignments is the sum over one variable's values of its share |
| Schedules.DampedMoves | crates/li-inference/src/solver.rs:541-562 | A damped update keeps a distribution one and moves each value by `1 - damping` of its distance to the recomputed message |
| Schedules.ResidualWithin | crates/li-inference/src/solver.rs:198-211 | The residual is within a bound exactly when no message of the iteration's two passes is recomputed further than that from the one before |
| BatchWeights.GraphSumIsBatchSum | crates/li-inference/src/solver.rs:459-467 | Summing the graph's weights is summing, over joint assignments, one prior per pick (candidate, new identity or noise) times one table entry per factor |
| BatchWeights.UnnamedKeepsPriors | crates/li-inference/src/solver.rs:459-467 | The belief of an observation no factor names gives each candidate, the new identity and noise exactly its own prior over their sum |
| Solver.MarginalIsPosterior | crates/li-inference/src/solver.rs:469-512 | A marginal of the graph gives each outcome the weight of all joint assignments with it against that of all joint assignments |
| Solver.Iterate | crates/li-inference/src/solver.rs:198-211 | From messages of one, each iteration is a pass; a forest takes exactly the pass bound; any other graph stops at the first iteration that moves no message further than the tolerance, or at the limit |
| Solver.Collect | crates/li-inference/src/solver.rs:469-489 | Collected marginals are the normalised beliefs of every variable |
| Solver.Solve | crates/li-inference/src/solver.rs:175-231 | The marginals are the beliefs after that many damped passes from messages of one, and distributions; on every forest each, of every variable whose component's edge count is a 32-bit number, is the exact posterior over candidates, new identity and noise; an observation no factor names keeps its priors; `Exact` is reported exactly for forests, `Converged` exactly when the last iteration was steady; a refusal is the compilation's |
| Candidates.CandidateBuffer.PushObservation | crates/li-factors/src/provider.rs:91-128 | A push appends the strictly ascending list of its candidates as the next group and touches no earlier group; it is refused exactly for an index beyond the batch, one out of order, or offsets beyond 32 bits |
| Candidates.CandidateBuffer.DedupTail | crates/li-factors/src/provider.rs:112-123 | The swapping loop keeps exactly one of each run and leaves earlier groups alone |
| Candidates.CandidateBuffer.Get | crates/li-factors/src/provider.rs:131-142 | The slice between two offsets is the observation's group |
| Candidates.CanonicalExact | crates/li-factors/src/provider.rs:110-123 | The canonical form is strictly ascending and has the same candidates |
| Aggregation.FromOneProvider | crates/li-runtime/src/pipeline.rs:430-444 | The direct path yields the provider's groups, or its first refusal, or an incomplete provider |
| Aggregation.FromProviders | crates/li-runtime/src/pipeline.rs:445-480 | The general path yields the aggregate of all providers, or the first error |
| Aggregation.OutcomeExact | crates/li-runtime/src/pipeline.rs:430-444 | A provider is accepted exactly if it pushes once for every observation, in order, within the offsets; its offers are what it pushed; one that stops early is incomplete |
| Aggregation.DirectPathAgrees | crates/li-runtime/src/pipeline.rs:430-480 | For one provider the direct path and the general path agree, groups and errors alike |
| Aggregation.GroupsAreUnions | crates/li-runtime/src/pipeline.rs:445-480 | Each group is the strictly increasing list of what some provider offers |
| Decisions.NewDistributionExact | crates/li-core/src/inference.rs:210-250 | Construction accepts exactly complete, duplicate-free, normalised lists, only reorders them, and reports the first failing condition |
| Decisions.Probability | crates/li-core/src/inference.rs:263-271 | Binary search finds an outcome exactly when it is present, with its probability |
| Decisions.PosteriorAccepted | crates/li-inference/src/solver.rs:490-512 | A solver marginal over a canonical domain is always accepted, already in canonical order |
| Decisions.WrongIsTheRest | crates/li-core/src/decision.rs:90-130 | Expected loss is the cost times the mass of the outcomes under which the action is wrong |
| Decisions.RiskPerAction | crates/li-core/src/decision.rs:90-130 | The expected loss of a new identity, an assignment and a rejection is its own cost times all mass outside its outcome; that of abstaining is the abstention loss |
| Decisions.FirstBestIsChosen | crates/li-core/src/decision.rs:150-179 | The first least-loss action is the one those numbers choose: each action's exact condition in the code's tie order |
| Decisions.ChosenIsFirstBest | crates/li-core/src/decision.rs:150-179 | And an action meeting its condition is the first least-loss action |
| Decisions.Decide | crates/li-core/src/decision.rs:150-179 | The decision is the first action of least expected loss in the order new identity, assignments in domain order, noise, abstain; over canonical entries it meets that action's condition on the four losses and the probabilities |
| Decisions.TieGoesToNew | crates/li-core/src/decision.rs:150-179 | A tie between a new identity and an assignment goes to the new identity |
| Decisions.AssignsMostProbable | crates/li-core/src/decision.rs:150-179 | An assignment, when chosen, goes to an identity of greatest probability |
| Decisions.RecordDecision | crates/li-core/src/decision.rs:207-230 | Recording refuses exactly assignments outside the domain |
| Decisions.DecideAndRecord | crates/li-core/src/decision.rs:207-230 | What the policy decides is always recorded |
| Inference.GraphUnique | crates/li-inference/src/solver.rs:233-305 | The domains and factors of a batch determine the compiled graph |
| Inference.Infer | crates/li-runtime/src/pipeline.rs:430-493 | The stage ends in the first error, in the order candidates, factors, solver; otherwise it yields one recordable decision per observation: the first action of least expected loss under a posterior over exactly that observation's candidates, which on a forest is the exact marginal and, for an observation no factor names, its priors |
| Resolution.ResolveBatch | crates/li-runtime/src/pipeline.rs:384-662 | Every decision a completed batch commits is that action, an assignment, creation, rejection or abstention accordingly, under the configured policy and loss versions and with the host write planned for it; a failed stage leaves the evidence committed and reports its error, a refused evidence commit leaves the log as it was |
| HostGraph.AuthoritativeHostGraph.AddNode | crates/li-model/src/host_graph.rs:133-144 | A node is added once; a duplicate changes nothing |
| HostGraph.AuthoritativeHostGraph.Materialize | crates/li-model/src/host_graph.rs:154-205 | A new materialization adds one edge, which for each of the six relations leaves and enters the nodes its arguments name; the same one is replayed, a different one collides, and the first missing endpoint is named and changes nothing |
| HostGraph.FactDeterminesRelation | crates/li-model/src/host_graph.rs:164-177 | Comparing role and endpoints compares the relations |
| Workspace.PushHistory | crates/li-core/src/history.rs:70-81 | A push keeps the newest entries up to the capacity and returns the one that falls out |
| Workspace.LastOfLast | crates/li-core/src/history.rs:70-81 | Keeping the last n after every push keeps the last n of everything pushed |
| Workspace.HotWorkspace.ApplyCommitted | crates/li-workspace/src/hot.rs:156-171 | An association extends its entry's history and version, its activation becomes the later of the two, and it is refused exactly for a missing entry or a version that does not advance |
| Workspace.HotWorkspace.EvictBefore | crates/li-workspace/src/hot.rs:177-188 | Eviction splits the cache exactly at the cutoff |
| Outbox.PlainCommit | crates/li-storage/src/ledger.rs:982-1010 | What a pipeline commit does to outbox and log |
| Outbox.FreshNeverReplays | crates/li-runtime/src/pipeline.rs:277-300 | With fresh identifiers a submission is accepted or refused without effect; it is never a replay or a collision |
| Outbox.ReceiptAccepted | crates/li-storage/src/ledger.rs:839-851 | A receipt for an open entry is refused only when versions are exhausted |
| Outbox.DoubleLeavesStale | crates/li-workspace/src/hot.rs:164-166 | Stopping at an identity's second association leaves its newest observation out of the cache |
| Batches.EnvelopesSay | crates/li-runtime/src/pipeline.rs:384-616 | The first of a batch's two log entries persists its observations in order, the second depends on it and resolves each observation by its decision, with the configured provenance and versions and the planned host write; both are issued at the latest ingestion time |
| Batches.BatchRecords | crates/li-runtime/src/pipeline.rs:541-616 | The log records exactly the associations the proposals ask for: latent identities by name, new ones by the next numbers |
| Deliveries.StoppedAgreesIff | crates/li-runtime/src/pipeline.rs:625-639 | A cache that agreed and stopped at a repeated identity agrees with the longer log if and only if it keeps no history and every identity of the batch was met before the stop |
| Pipeline.ResolutionRuntime.ProcessBatch | crates/li-runtime/src/pipeline.rs:384-662 | Whatever fails, outbox and host keep matching; if identifiers suffice and both commits are accepted and stored, the log gains exactly the evidence envelope and the resolution envelope computed from observations, proposals and identifiers, otherwise the evidence envelope or nothing; a failed inference stage is reported exactly when its evidence went in; the batch ends in `StaleCommit` if and only if both commits go through and the proposals give two observations to one identity; a cache that agreed with the committed decisions agrees afterwards if and only if that did not happen, or it keeps no history and no identity was passed over; a completed batch returns the decisions its log entry resolves the observations by, in order, and settles every owed write or reports it pending |
| Pipeline.ResolutionRuntime.Submit | crates/li-runtime/src/pipeline.rs:277-300 | A submission draws one transaction id or fails for want of one; validation speaks before storage; it never replays or collides |
| Pipeline.ResolutionRuntime.WriteHost | crates/li-runtime/src/pipeline.rs:641-657 | A host write for an outbox entry never collides: every attempt presents the entry's own relation, decision and commit |
| Pipeline.ResolutionRuntime.RetryMaterialization | crates/li-runtime/src/pipeline.rs:673-694 | A retry completes its entry when host and backend work, and is harmless otherwise |
| Pipeline.ResolutionRuntime.CommitReceipt | crates/li-runtime/src/pipeline.rs:696-713 | A receipt completes exactly its entry, or changes nothing |
| Pipeline.ResolutionRuntime.EntriesWrittenOnce | crates/li-runtime/src/pipeline.rs:618-713 | In every reachable state an outbox entry has at most one host edge, a completed one exactly one, which leaves and enters the nodes the entry's relation names; every edge has the kinds of endpoints its role asks for |
| Pipeline.ResolutionRuntime.ApplyAssociations | crates/li-runtime/src/pipeline.rs:625-639 | The cache follows the committed batch, and stops exactly at a repeated identity |
| Pipeline.ResolutionRuntime.HotHistory | crates/li-runtime/src/pipeline.rs:625-639 | In every reachable state each cache entry holds the newest observations that the batches of the log, each up to its first repeated identity, gave it; the cache agrees with the whole log if and only if what came after those repetitions makes no visible difference, and always if no batch repeats an identity |
| PipelineCounterexamples.DoubleResolves | crates/li-runtime/src/pipeline.rs:384-662 | A concrete batch that creates an identity and assigns a second observation to it is accepted in both commits and associates that identity twice |
| PipelineCounterexamples.StaleBatch | crates/li-runtime/src/pipeline.rs:625-639 | As the first batch of a new runtime, with nothing failing, that batch ends in `StaleCommit` and leaves a cache with any history behind the ledger |
| PipelineCounterexamples.KnownTwiceResolves | crates/li-runtime/src/pipeline.rs:384-662 | In every state with room for two new sightings of one known identity, a batch holding both is accepted in both commits |
| PipelineCounterexamples.SeenTwice | crates/li-runtime/src/pipeline.rs:625-639 | On any runtime in such a state that batch ends in `StaleCommit`, and a cache that agreed and keeps history is behind afterwards |

## Left out

- Solver.Solve: the exact marginal of a variable is stated when its component has at most 2^32 - 1 edges, because the pass count is a 32-bit number that saturates; convergence of the loopy schedule is not claimed.
- Solver.Collect: returns the marginals as plain sequences; `Decisions.PosteriorEntries` attaches the outcomes.
- Pipeline.ResolutionRuntime.ProcessBatch: an envelope without commands and an all-zero replay key, which the structural constructors refuse, cannot arise here and are not modelled.
- Workspace.HotWorkspace.ApplyCommitted: cache entries are values in a map, so aliasing of an entry is not captured; provider summaries are left out.
- FactorGraphs.Compile: the scratch object is split into the compiled graph and the arrays the passes overwrite, so reuse of allocations is not captured; the candidate count plus two does not saturate.
- Floating-point rounding, underflow and the exponential and logarithm functions: messages are exact reals.
- Postcard encoding and the RocksDB backend: a round-tripping serializer and an atomic write are assumed.
- The host schema profile (six distinct predicates) and petgraph's index reuse: edges are numbered in order.
- `invalidate_dependents` of a split plan: carried but unused by the code.
- Saturating size counters of the canonical forest and of the union-find: sizes are unbounded.
- `SplitPlan::new`, the identity typestate, `BatchPhase`, snapshots and queues: single-branch facts or library behaviour.
- RDF, PROV and SHACL output, spatial likelihoods and benchmark metrics: formatting and plain arithmetic.
- Provider internals, score contributions, diagnostics and tracing: opaque to the modelled properties.
