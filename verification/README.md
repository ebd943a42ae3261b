# PelicanBench: a verified model of the campaign protocol and its companions

This project models, in Dafny, the parts of PelicanBench in which behaviour over many steps
matters, and proves what those parts promise.

**The campaign protocol.** A manifest lists cells (one model, task and replicate each). Any number
of workers lease ready cells from a transactional store, renew their leases, complete or release
them; expired leases are reclaimed and failed cells requeued. Every change updates a cell table and
appends an event to a hash-chained log. A reconciler replays the log against the table. A simpler
in-memory ledger makes the same decisions from an immutable event tuple, and a worker program
executes its leases and writes one record per completed lease.

- `Campaign.dfy`, `Money.dfy`, `Text.dfy`, `Prelude.dfy`: manifest, budget gate, scheduling order,
  rounding to the eighth decimal, texts, sums.
- `Store.dfy`: rows, events, the five kinds of atomic change, and for each public call the list of
  changes it commits (`Plan`) or the error with which it rolls back.
- `StoreCalls.dfy`, `StoreLeasing.dfy`: the same calls column by column, independently of `Plan`:
  exactly when each is accepted, and the rows, events, cells and tokens it leaves.
- `CampaignStore.dfy`: the store as an object whose methods update table and log in place, each
  proved against both.
- `StoreRuns.dfy`, `StoreLog.dfy`, `StoreInvariants.dfy`: runs (any interleaving of calls by anyone
  at any times), replay, and the invariants that every enabled change keeps.
- `StoreReconcile.dfy`, `StoreSafety.dfy`, `StoreGuards.dfy`, `StoreRows.dfy`, `StoreHistory.dfy`,
  `StoreScheduling.dfy`, `StoreThrift.dfy`, `StoreLimits.dfy`: the theorems over whole runs, and concrete runs at the
  limits of what the reconciler promises.
- `Ledger.dfy`, `LedgerCalls.dfy`, `LedgerRefinement.dfy`: the in-memory ledger, what its calls do field
  by field, and the store as its refinement.
- `Worker.dfy`, `WorkerSafety.dfy`, `WorkerReconcile.dfy`, `WorkerBatch.dfy`, `WorkerOutcomes.dfy`,
  `WorkerLimits.dfy`: batches of any number of workers interleaved with every other store call, their
  records, and the records' reconciler.

**Companions.** Component counting by flood fill (`Grid.dfy`, `FloodFill.dfy`), the balanced severity
search and the block design it runs on (`Severity.dfy`, `SeverityDesign.dfy`), the stratified
round-robin sampler (`Sorting.dfy`, `RoundRobin.dfy`, `Sampler.dfy`, `SamplerStrata.dfy`), the drawing environment
(`Canvas.dfy`, `CanvasCalls.dfy`, `CanvasSafety.dfy`), majority votes (`Majority.dfy`), ontology inheritance and merging
(`Ontologies.dfy`, `OntologyProgram.dfy`), and blinding (`Blinding.dfy`, `BlindingCalls.dfy`).

Conventions. A cell is identified by its position in the manifest, times are integers (seconds),
costs are exact reals, and `round(x, 8)` rounds half to even. A content hash is a datatype
constructor over the hashed payload, hence injective. A token factory is the sequence of its future
results. A transaction is one step: a call either commits all its changes or none. Runs start from a
manifest in which no cell is already leased.

## Where the code differs from what is promised

- `requeue_failed_cell` consults only the transition table, which also admits leased to ready, and
  does not clear the lease columns. The documentation speaks of requeueing failed cells only
  (docs/prospective-campaign-operations.md:80). Proved: requeueing keeps a reconciled store
  reconciled if and only if the cell was not leased (`StoreSafety.RequeueReconcilesIffNotLeased`),
  and a concrete run (`StoreLimits.RequeueLeasedDoesNotReconcile`).
- The table accumulates unrounded charges and the log rounded ones. A charge keeps the costs
  reconciled if and only if the gap it would leave, computable before the call, is within 1e-8
  (`StoreGuards.CallKeepsCostsExactly`). Two unrounded charges per cell always do; three need not
  (`StoreLimits.ThreeHalfUnitsDoNotReconcile`). With the condition on requeues this is the whole
  story: a store reconciles throughout a run exactly when every call passes both tests
  (`StoreGuards.AlwaysReconciledExactly`).
- The documentation lists consistency between terminal states and artifacts among the reconciler's
  checks (docs/transactional-campaign-store.md:71); the code has no such check, and its verdict
  ignores the artifact column altogether (`StoreReconcile.ArtifactsUnchecked`, with a succeeded row
  that names no artifact in `StoreLimits.SucceededWithoutArtifactReconciles`). The property itself
  holds after every run (`StoreRows.TableFollowsLog`).
- A failed execution's record names the trial's artifact while its event never does. Records and
  events agree if and only if no batch stopped between a completion and its record, and no accepted
  completion was of a failed result whose trial names an artifact
  (`WorkerReconcile.ReconciliationExact`; a concrete run in `WorkerLimits.FailedArtifactDoesNotMatch`).
  The bundled runner gives a failure no artifact and scores everything else
  (`WorkerReconcile.RunnerCarriesNothing`); another runner might not.
- An event row changed in any column without a new hash is always detected, as documented
  (docs/transactional-campaign-store.md:73-74). A last row rewritten in columns and payload and
  rehashed is not, since no later row refers to it (`StoreHistory.TamperingDetected`,
  `StoreHistory.RewrittenLastRowUndetected`).
- A failing `group` or `ungroup` keeps the assignments made before the missing id, without history
  or event. Every point of a run replays if and only if no call fails part way, that is, on some
  earlier id that did not already have the group (`CanvasSafety.AlwaysReplaysExactly`,
  `CanvasSafety.PartialExactly`, a concrete run in `CanvasSafety.PartialGroupIsNotReplayable`). An
  undo right afterwards, if there is history, makes the state replay again (`CanvasSafety.UndoRepairs`).
- The sampler promises evenness over crossings of stratum, model, score band and disagreement band
  (src/pelicanbench/calibration.py:103-106) but groups by the four joined with bars, so crossings
  such as ("x|y", "z") and ("x", "y|z") share a list. The sample is even between crossings for every
  target and shuffle if and only if no two crossings of the input share a name, or no crossing has
  two candidates (`SamplerStrata.EvennessExactly`); it is whenever no stratum or no model contains
  a bar (`SamplerStrata.BarFreeIsEven`), and need not be otherwise (`SamplerStrata.BarsLoseEvenness`).
- More voters help only from p = 1/2 upwards: adding two votes never lowers the odds if and only if
  p >= 1/2 or p = 0 (`Majority.MoreVotesHelpExactly`).
- On a manifest without cells `lease_ready_cells` raises (it asks `next_ready_cells` for zero cells)
  where the store returns no lease.

## Model

| member | source | states |
|---|---|---|
| Money.Round8Close | src/pelicanbench/campaign_store.py:417-418 | rounding an amount moves it by at most half of 1e-8 and never below zero |
| Money.Round8Fixed | src/pelicanbench/campaign_worker.py:369-379 | rounding leaves exactly the whole multiples of 1e-8 alone and is idempotent |
| Money.Round8Nearest | src/pelicanbench/campaign_store.py:417-418 | rounding gives the nearest multiple of 1e-8, a tie going to the even one |
| Text.LessMeans | src/pelicanbench/campaign_store.py:582 | texts compare at their first difference, a proper prefix being less |
| Text.StripMeans | src/pelicanbench/campaign_store.py:79 | stripping removes exactly the white space at both ends |
| Text.BlankMeans | src/pelicanbench/campaign_store.py:397 | a text is blank exactly when it has nothing but white space |
| Campaign.GateMeans | src/pelicanbench/campaign.py:403-415 | unknown prices of ready cells block first, then a cost with reserve above the budget, then a required budget that is missing; exactly the advisory and the passing gate let execution through |
| Campaign.KnownCostMeans | src/pelicanbench/campaign.py:403 | the known cost adds up the estimates there are |
| Campaign.KeyOrderFacts | src/pelicanbench/campaign_store.py:582 | the scheduling order lists every cell once, sorted by stage, model, task and replicate |
| Campaign.KeyOrderMeans | src/pelicanbench/campaign_store.py:582 | of two cells the earlier has the smaller stage, on a tie the smaller model, then task, then replicate |
| StoreCalls.InitialMeans | src/pelicanbench/campaign_store.py:253-376 | each initial row, column by column |
| StoreCalls.ChangesAllowed | src/pelicanbench/campaign_store.py:33-37 | the nine legal changes of state |
| StoreCalls.CompleteMeans | src/pelicanbench/campaign_store.py:743-810 | a completion is accepted exactly for a live lease of the caller, one of five states, costs not negative, a reason with text and an artifact if retained; the row and event it then leaves, column by column |
| StoreCalls.CompleteErrors | src/pelicanbench/campaign_store.py:758-776 | which error comes first: arguments, cell, state, owner, expiry |
| StoreCalls.HeartbeatMeans | src/pelicanbench/campaign_store.py:661-740 | when a renewal is accepted, and the row and event it leaves |
| StoreCalls.RequeueMeans | src/pelicanbench/campaign_store.py:813-861 | a requeue is accepted exactly for a leased or failed cell and a reason with text, and what it leaves |
| StoreLeasing.ReclaimMeans | src/pelicanbench/campaign_store.py:455-500 | reclaiming frees exactly the rows due, logging one event each with its former owner, token and attempt, and fails exactly on a negative estimate |
| StoreLeasing.NewTokenMeans | src/pelicanbench/campaign_store.py:67-91 | a token is the first of the next eight draws that is not blank and, with its prefix, on no row and no event; there is none exactly if all eight fail |
| StoreLeasing.RefusedMeans | src/pelicanbench/campaign_store.py:586-597 | a cell is passed over exactly when its model's leased cells number the cap, it has no price, or charges, live estimates and its own exceed the budget |
| StoreLeasing.LeaseMeans | src/pelicanbench/campaign_store.py:557-651 | an accepted lease call reclaims and then, cell by cell in order, leases exactly the matching admissible cells up to the limit, each under the first usable token, with the row and event spelled out |
| StoreLeasing.TicketMeans | src/pelicanbench/campaign_store.py:633-648 | what the ticket of a lease holds |
| StoreLeasing.LeaseErrors | src/pelicanbench/campaign_store.py:539-548 | bad arguments and unexecutable manifests are refused exactly as stated |
| StoreLeasing.LeaseSucceeds | src/pelicanbench/campaign_store.py:525-658 | with no negative estimate and enough usable, different draws an executable lease call succeeds |
| StoreObject.CampaignStore.constructor | src/pelicanbench/campaign_store.py:253-376 | a new store holds one row per cell in its manifest state, at zero cost and attempts, and no event |
| StoreObject.CampaignStore.InsertEvent | src/pelicanbench/campaign_store.py:379-452 | appends one chained, hashed event with rounded costs, or raises on an illegal transition, blank reason, negative cost or missing artifact and appends nothing |
| StoreObject.CampaignStore.ReclaimInTransaction | src/pelicanbench/campaign_store.py:455-500 | the in-place loop over leased rows commits exactly the expirations of the specification, in scheduling order |
| StoreObject.CampaignStore.ReclaimExpired | src/pelicanbench/campaign_store.py:503-522 | the transaction around it: all expirations or none |
| StoreObject.CampaignStore.NewLeaseToken | src/pelicanbench/campaign_store.py:67-91 | returns the first of eight draws that is non-empty and on no row and no event, with the number of draws made |
| StoreObject.CampaignStore.LeaseCells | src/pelicanbench/campaign_store.py:525-658 | the loop with running counter and reserve commits exactly the greedy plan, returns one ticket per logged lease, and on any error rolls everything back |
| StoreObject.CampaignStore.HeartbeatLease | src/pelicanbench/campaign_store.py:661-740 | renews to the later of the old expiry and the new horizon after the ownership and expiry checks and returns the lease as renewed, or changes nothing |
| StoreObject.CampaignStore.CompleteLease | src/pelicanbench/campaign_store.py:743-810 | closes a live lease owned by the caller, adds the unrounded charge, clears the lease columns, or changes nothing |
| StoreObject.CampaignStore.RequeueCell | src/pelicanbench/campaign_store.py:813-861 | any transition to ready that the table admits, leaving the lease columns alone |
| StoreObject.CampaignStore.GetStatus | src/pelicanbench/campaign_store.py:864-924 | counted totals equal the sums over the table; complete exactly when every cell is terminal and the spend within budget |
| StoreObject.CampaignStore.Replay | src/pelicanbench/campaign_store.py:1010-1044 | the replay loop stops at the first event that fails a check and holds the states and costs of the accepted prefix |
| StoreObject.CampaignStore.Reconcile | src/pelicanbench/campaign_store.py:970-1099 | each verdict of the reconciler is exactly its meaning: intact chain, states replayed, costs within tolerance, lease columns exactly on leased cells |
| StoreReconcile.AcceptedFacts | src/pelicanbench/campaign_store.py:1013-1044 | what replay accepts is the longest intact prefix, and everything exactly when the chain is intact |
| StoreReconcile.ReconciledMeans | src/pelicanbench/campaign_store.py:1013-1084 | the store reconciles exactly when every event row and every cell row passes every check, each spelled out |
| StoreRuns.PlanEnabled | src/pelicanbench/campaign_store.py:455-861 | a call commits only changes whose guards hold in the very state in which they are made |
| StoreInvariants.StepInv | src/pelicanbench/campaign_store.py:455-861 | every guarded change keeps log and table in agreement, lease columns sound, tokens fenced, expiries, caps and the budget bound |
| StoreInvariants.RunInv | src/pelicanbench/campaign_store.py:253-861 | all invariants hold after every run of calls in any interleaving |
| StoreSafety.ReconcileAfterRun | src/pelicanbench/campaign_store.py:970-1099 | after every run chain and states reconcile, and the whole store does exactly when no cell was requeued out of a live lease without being leased again and no rounding drift exceeds 1e-8 |
| StoreSafety.CleanRunReconciles | src/pelicanbench/campaign_store.py:379-861 | a run that never requeues a leased cell and charges whole units always reconciles, with replayed costs equal to stored ones |
| StoreSafety.RequeueReconcilesIffNotLeased | src/pelicanbench/campaign_store.py:830-853 | on a reconciled store a successful requeue keeps it reconciled if and only if the cell was not leased |
| StoreSafety.RoundingDriftBounded | src/pelicanbench/campaign_store.py:793-802 | stored and replayed cost of a cell differ by at most half a unit per unrounded charge, so up to two never trip the reconciler |
| StoreLimits.RequeueLeasedDoesNotReconcile | src/pelicanbench/campaign_store.py:846-853 | a concrete two-call run, lease then requeue, whose store does not reconcile |
| StoreLimits.ThreeHalfUnitsDoNotReconcile | src/pelicanbench/campaign_store.py:1058 | a concrete run with three half-unit charges that trips the cost tolerance |
| StoreRows.TableFollowsLog | src/pelicanbench/campaign_store.py:253-861 | after every run the log determines each row's state, reason, time, attempt count, the owner, token and start of a live lease and the artifact of a finished cell; succeeded and quarantined cells brought there name one |
| StoreGuards.CallKeepsCostsExactly | src/pelicanbench/campaign_store.py:793-802 | after any run whose costs reconcile, a call keeps them reconciled if and only if it is not an accepted completion or the gap its charge would leave is within 1e-8 |
| StoreGuards.CallKeepsReconciledExactly | src/pelicanbench/campaign_store.py:455-861 | on a reconciled store a call keeps it reconciled if and only if its charge is tolerable and it does not requeue a leased cell |
| StoreGuards.AlwaysReconciledExactly | src/pelicanbench/campaign_store.py:970-1099 | over whole runs the store reconciles at every point exactly when every accepted call passes both tests |
| StoreReconcile.ArtifactsUnchecked | src/pelicanbench/campaign_store.py:1053-1073 | changing any row's artifact never changes the reconciler's verdict |
| StoreLimits.SucceededWithoutArtifactReconciles | src/pelicanbench/campaign_store.py:1053-1073 | a concrete store with a succeeded row and no artifact that reconciles |
| StoreHistory.HeadHashCommits | src/pelicanbench/campaign_store.py:1013-1040 | two intact non-empty logs with the same last hash are equal in length and in every column |
| StoreHistory.TamperingDetected | docs/transactional-campaign-store.md:62-74 | replacing any one event row of an intact log leaves it intact exactly if it was the last row and the forged one passes the replay's checks there, which needs a new hash |
| StoreHistory.RewrittenLastRowUndetected | src/pelicanbench/campaign_store.py:1013-1040 | a last row with any other reason, rehashed, leaves the whole store reconciled |
| StoreHistory.LogIsAppendOnly | src/pelicanbench/campaign_store.py:426-451 | later calls only extend the log |
| StoreHistory.TokensFence | src/pelicanbench/campaign_store.py:67-91 | over whole runs a token belongs to one cell and attempt, an attempt has one token, and an event that closes a lease is the last to carry its token |
| StoreHistory.ClosedTokenNeverReturns | src/pelicanbench/campaign_store.py:455-500 | however a run continues, a token whose lease was closed is never logged again |
| StoreHistory.EndedLeaseNeverReturns | src/pelicanbench/campaign_store.py:67-91 | however a lease ends, also by a requeue of the leased cell that names no token, no later event of any continuation carries its token |
| StoreHistory.LiveLeaseExpiry | src/pelicanbench/campaign_store.py:688-695 | a live lease expires at the maximum of time plus duration over its issue and all accepted heartbeats |
| StoreHistory.BudgetHolds | src/pelicanbench/campaign_store.py:559-597 | spent plus reserved never exceeds the hard budget by more than the total overrun of charges over estimates; without overruns never at all |
| StoreHistory.CapsHold | src/pelicanbench/campaign_store.py:589-591 | in every reachable state no model has more live leases than its cap |
| StoreScheduling.LeaseIsMaximal | src/pelicanbench/campaign_store.py:557-651 | after a lease call no lease is expired, at most limit cells were leased, and if fewer, every matching ready cell is capped, unpriced or over the remaining budget |
| StoreScheduling.ReclaimClears | src/pelicanbench/campaign_store.py:455-500 | reclaiming frees exactly the expired leases and leaves every other row untouched |
| StoreScheduling.PassingGateNeverStarves | src/pelicanbench/campaign.py:403-415 | under a passing gate, while spend stays within finished estimates plus the reserve, the budget test refuses no ready cell in any state |
| StoreScheduling.PassingGateLeasesAll | src/pelicanbench/campaign_store.py:586-597 | under the same condition a lease call that stops short of its limit leaves only capped or unpriced cells behind |
| StoreThrift.ThriftyRunNeverStarves | src/pelicanbench/campaign.py:403-415 | under a passing gate, in a run that charges a cell only when it finishes it, at most its estimate in all, and requeues only cells that cost nothing, no ready cell is ever refused for its budget |
| Ledger.Replay | src/pelicanbench/campaign.py:459-497 | the loop returns states and total cost of a legal event tuple and otherwise raises the complaint about the first bad event |
| Ledger.Append | src/pelicanbench/campaign.py:500-536 | appends exactly when the tuple is legal, the transition allowed, the cost not negative, the reason not blank and a success names an artifact; the new tuple is legal, extends the old by that event, and replays to the changed state and total |
| Ledger.LegalMeans | src/pelicanbench/campaign.py:466-493 | a ledger is legal exactly when every event passes every check, each spelled out |
| Ledger.ComplaintOrder | src/pelicanbench/campaign.py:466-493 | which check of an event complains first |
| Ledger.HeadHashCommits | src/pelicanbench/campaign.py:466-496 | two legal non-empty ledgers with the same last hash are equal in every field |
| Ledger.LeaseReadyCells | src/pelicanbench/campaign.py:594-661 | the loop with running counter and reserve picks exactly the greedy choice and appends its leases, or raises the same error |
| LedgerCalls.AppendMeans | src/pelicanbench/campaign.py:510-536 | the errors of an append in their order, and otherwise the one event it appends, every field spelled out |
| LedgerCalls.LeaseReadyMeans | src/pelicanbench/campaign.py:594-661 | the errors of a lease call in their order; otherwise its picks are exactly the cells that, when the pass comes to them below the limit, are ready, match, are priced, and fit cap and budget with the earlier picks leased, and each pick is logged as a lease |
| Ledger.CampaignStatus | src/pelicanbench/campaign.py:539-569 | counts by state, whether the budget that applies is exceeded, and complete exactly when all cells are terminal and it is not |
| LedgerRefinement.ErasedIsLegal | src/pelicanbench/campaign_store.py:33-37 | erasing heartbeats from any intact store log gives a ledger that replay accepts, with the same states and total cost |
| LedgerRefinement.RunRefinesLedger | src/pelicanbench/campaign.py:459-497 | for every run the erased log is a legal ledger with the table's states, and with whole-unit charges the same cost and completion flag |
| LedgerRefinement.GreedyPicksSame | src/pelicanbench/campaign.py:636-650 | store and ledger pick the same cells from the same states and spend |
| LedgerRefinement.LeaseRefinesLedger | src/pelicanbench/campaign.py:594-661 | after its reclaim a store lease call picks exactly the cells lease_ready_cells picks from the erased ledger, and the resulting logs correspond again |
| Worker.VerdictIsWorkerTerminal | src/pelicanbench/campaign_worker.py:369-409 | every outcome yields a terminal state, a reason the reconciler recognises as a worker's, and a whole-unit cost (which of them: WorkerOutcomes.VerdictMeans) |
| WorkerOutcomes.VerdictMeans | src/pelicanbench/campaign_worker.py:369-409 | succeeded exactly for a scored result with all three gates passed, quarantined for a scored one with a gate failed, failed otherwise; reason, cost and artifacts from the fields of the outcome |
| WorkerOutcomes.GenerationMeans | src/pelicanbench/runner.py:105-247 | with the bundled runner: retained exactly for an image for the right task, under its output hash, at the reported or estimated cost |
| WorkerOutcomes.CompletionSettles | src/pelicanbench/campaign_worker.py:643-668 | in every system an accepted completion appends an event, and leaves a record, that say exactly that of the ticket's cell, worker, token and attempt |
| WorkerOutcomes.WrittenMeans | src/pelicanbench/campaign_worker.py:640-668 | and so does every record that a batch writes |
| WorkerOutcomes.WorkerTerminalMeans | src/pelicanbench/campaign_worker.py:231-238 | which events call for a record |
| WorkerOutcomes.FieldsAgreeMean | src/pelicanbench/campaign_worker.py:303-323 | which fields of a record must agree with its event, and the cost within 1e-8 |
| WorkerSafety.NextKeeps | src/pelicanbench/campaign_worker.py:518-668 | every move of every batch, and every other store call that does not forge a worker's event, keeps records and events together |
| WorkerSafety.RecordsFollowEvents | src/pelicanbench/campaign_worker.py:518-668 | in every interleaving, wherever batches die, each record has its terminal event and each batch leaves at most one terminal event without a record |
| WorkerSafety.BijectiveIffNothingUnwritten | src/pelicanbench/campaign_worker.py:231-342 | records and worker terminal events are in bijection on cell, token and attempt exactly when no batch holds an unwritten record, in particular once all have returned |
| WorkerReconcile.ReconcileRecords | src/pelicanbench/campaign_worker.py:247-342 | the loops over the event map and the record map accept exactly when the store reconciles and events and records identify each other uniquely, pair off and agree in every field |
| WorkerReconcile.HeldWereMade | src/pelicanbench/campaign_worker.py:518-668 | the records written or about to be are exactly those of the completions the store accepted |
| WorkerReconcile.ReconciliationExact | src/pelicanbench/campaign_worker.py:446 | after any interleaving the records match exactly when nothing is unwritten and no accepted completion was of a failed result whose trial names an artifact |
| WorkerLimits.FailedArtifactDoesNotMatch | src/pelicanbench/campaign_worker.py:643-668 | a concrete batch that returns with the store reconciled and its record not matching its event |
| WorkerReconcile.RunnerCarriesNothing | src/pelicanbench/runner.py:105-247 | no result of the bundled runner fails and names an artifact |
| WorkerReconcile.OrderlyReconciles | src/pelicanbench/campaign_worker.py:247-342 | with outcomes as the bundled runner yields them, whole-unit charges by others and no requeue of leased cells, the store always reconciles, and records match exactly when nothing is unwritten, in particular once all batches have returned |
| WorkerBatch.ExecuteBatch | src/pelicanbench/campaign_worker.py:518-668 | the batch program performs moves of the system, records its tickets in order up to the first refused completion, and returns exactly when all are recorded |
| WorkerBatch.SystemIsARun | src/pelicanbench/campaign_worker.py:518-668 | whatever the workers do, the store has been through a run of its own calls, so every theorem about runs applies |
| Grid.ComponentsPartition | src/pelicanbench/render.py:131-132 | the 8-connected classes, defined by paths, are nonempty, pairwise disjoint, closed and cover the foreground |
| FloodFill.PushWindow | src/pelicanbench/render.py:149-153 | the clipped window marks and pushes exactly the unvisited foreground neighbours, each once |
| FloodFill.PushOffsets | src/pelicanbench/repair.py:146-157 | the nine bounds-checked offsets do exactly the same |
| FloodFill.Flood | src/pelicanbench/render.py:143-153 | one flood marks exactly the start's class, counts its size, and pushes each member once |
| FloodFill.CountClasses | src/pelicanbench/render.py:131-156 | for every grid the count is the number of classes with at least the minimum size, and every foreground pixel is pushed exactly once |
| FloodFill.ConnectedComponents | src/pelicanbench/render.py:131-156 | the renderer's count is that number |
| FloodFill.CountComponents | src/pelicanbench/repair.py:133-160 | the repair scorer's count on the same grid is the same number |
| Severity.HopelessIsInfeasible | scripts/build_t14_candidate_episodes.py:106-108 | the pruning test never cuts a branch that has a balanced completion |
| Severity.Search.Visit | scripts/build_t14_candidate_episodes.py:103-119 | success leaves the lexicographically least balanced choice; failure means none exists, with the counts restored; earlier groups are untouched |
| SeverityDesign.Complementary | scripts/build_t14_candidate_episodes.py:87-94 | the two blocks of a vehicle in a round are complementary |
| SeverityDesign.OncePerRound | scripts/build_t14_candidate_episodes.py:87-94 | every family occurs exactly once per vehicle and round, three times per vehicle in 24 scenes |
| SeverityDesign.BlockMeans | scripts/build_t14_candidate_episodes.py:87-94 | a block holds the four families from its start around the eight, or the other four |
| SeverityDesign.DesignIsFeasible | scripts/build_t14_candidate_episodes.py:97-127 | for every number of rounds the design has a balanced assignment with two severe families per scene |
| SeverityDesign.SeverityAssignment | scripts/build_t14_candidate_episodes.py:97-127 | the search therefore never raises on the design and returns the least balanced assignment |
| RoundRobin.RoundRobinIsFair | src/pelicanbench/calibration.py:138-169 | at every prefix a list not yet exhausted is at most one behind any other |
| RoundRobin.RoundProgresses | src/pelicanbench/calibration.py:167-168 | before everything is taken another round takes at least one item |
| RoundRobin.AllMeans | src/pelicanbench/calibration.py:138-169 | items are taken by position and then by list, each once |
| Sampler.Select | src/pelicanbench/calibration.py:93-170 | the grouping, sorting, shuffling and cursor loops return exactly the specified sample, with distinct selection ids, or the first error; the no-progress break is never taken |
| Sampler.BandsMean | src/pelicanbench/calibration.py:68-85 | the bands and their boundaries |
| Sampler.CellMeans | src/pelicanbench/calibration.py:119-126 | the parts of a sampling cell's name, in order, with bars between |
| Sampler.RowsMean | src/pelicanbench/calibration.py:131-135 | a cell's shuffle is given its members ascending by artifact |
| Sampler.OrderMeans | src/pelicanbench/calibration.py:137-138 | the cells' shuffle is given the occurring names ascending |
| Sampler.SampleMeans | src/pelicanbench/calibration.py:139-170 | the k-th of the sample is in the k-th slot of the rounds |
| Sampler.SelectionMeans | src/pelicanbench/calibration.py:149-163 | what a selection holds |
| Sampler.RankingIsPermutation | src/pelicanbench/calibration.py:130-170 | taken to the end the ranking lists every candidate exactly once |
| Sampler.SampleIsDistinct | src/pelicanbench/calibration.py:137-170 | the sample has exactly min(target, n) candidates, all different artifacts of the input |
| Sampler.StrataStayEven | src/pelicanbench/calibration.py:116-126 | no sampling cell, identified by its joined name, is more than one ahead of a cell that still has candidates |
| SamplerStrata.NamesTellApart | src/pelicanbench/calibration.py:119-126 | if no stratum or no model has a bar, two candidates share a cell name exactly when they agree in stratum, model and both bands |
| SamplerStrata.EvennessExactly | src/pelicanbench/calibration.py:103-106 | no crossing is more than one ahead of a crossing with candidates left, for every target and shuffle, exactly when no two crossings of the input share a name or no crossing has two candidates |
| SamplerStrata.BarFreeIsEven | src/pelicanbench/calibration.py:103-106 | evenness between crossings holds whenever no stratum or no model contains a bar |
| SamplerStrata.BarsLoseEvenness | src/pelicanbench/calibration.py:119-126 | three concrete candidates whose two crossings share a name and are sampled unevenly |
| Sampler.SampleGrows | src/pelicanbench/calibration.py:137-170 | a smaller target's sample is a prefix of a larger one's |
| Sampler.SampleIgnoresOrder | src/pelicanbench/calibration.py:124-133 | permuting the input changes nothing |
| Majority.CombFactorial | src/pelicanbench/design_assurance.py:139 | the coefficients used are the binomial coefficients |
| Majority.MajorityProbability | src/pelicanbench/design_assurance.py:130-149 | the accumulation loop with the half tie computes the majority probability, with the program's errors |
| Majority.WinComplement | src/pelicanbench/design_assurance.py:135-149 | P(n, p) + P(n, 1 - p) = 1 for all n and p |
| Majority.EvenAddsNothing | src/pelicanbench/design_assurance.py:143-148 | P(2m, p) = P(2m - 1, p), thanks to the half tie |
| Majority.OddStep | src/pelicanbench/design_assurance.py:135-149 | P(2m + 1, p) - P(2m - 1, p) is p - 1/2 times the chance of a tie among 2m |
| Majority.MoreVotesHelpExactly | src/pelicanbench/design_assurance.py:130-149 | two more votes do not hurt if and only if p >= 1/2 or p = 0, and help strictly if and only if 1/2 < p < 1 |
| Majority.JuryTheorem | src/pelicanbench/design_assurance.py:130-149 | for p >= 1/2 a majority is at least as reliable as one voter and never less reliable than a smaller majority |
| Canvas.CanvasEnvironment.Step | src/pelicanbench/canvas.py:67-115 | every action, failing ones included, leaves exactly the specified elements, history, checkpoints and events |
| Canvas.CanvasEnvironment.Restore | src/pelicanbench/canvas.py:117-128 | restore saves the present, brings back the checkpoint and logs it, or fails and changes nothing |
| Canvas.CanvasEnvironment.Reset | src/pelicanbench/canvas.py:51-56 | everything is cleared |
| CanvasCalls.SanitizeMeans | src/pelicanbench/canvas.py:165-187 | which objects are accepted and copied, and otherwise which check fails first |
| CanvasCalls.AddMeans | src/pelicanbench/canvas.py:72-78 | an add is accepted exactly for a new id below the limit and an acceptable object; the element it leaves, and nothing else changed |
| CanvasCalls.UpdateMeans | src/pelicanbench/canvas.py:79-88 | an update overwrites the given fields, merges attributes name by name, and changes nothing else |
| CanvasCalls.DeleteMeans | src/pelicanbench/canvas.py:89-93 | a delete removes exactly the id |
| CanvasCalls.GroupMeans | src/pelicanbench/canvas.py:94-100 | a group or ungroup sets the group of exactly the listed ids |
| CanvasCalls.UndoMeans | src/pelicanbench/canvas.py:104-111 | an undo takes the last saved drawing back from the history |
| CanvasCalls.CheckpointMeans | src/pelicanbench/canvas.py:101-103 | a checkpoint saves the elements under its id and changes no other |
| CanvasCalls.CheckpointIdMeans | src/pelicanbench/canvas.py:102 | the id given, or "checkpoint-" and the decimal numeral of one more than there are |
| CanvasCalls.RestoreMeans | src/pelicanbench/canvas.py:117-128 | a restore brings back what its checkpoint holds and saves the present |
| CanvasCalls.CheckpointRestores | src/pelicanbench/canvas.py:101-128 | whatever calls follow a checkpoint that neither reset nor save under its id, a restore leaves exactly the elements there were at the checkpoint |
| CanvasSafety.AssignAllIs | src/pelicanbench/canvas.py:94-100 | group and ungroup set the group on exactly the ids before the first missing one and succeed exactly when none is missing |
| CanvasSafety.PartialExactly | src/pelicanbench/canvas.py:94-100 | a call fails part way exactly when it is a group or ungroup with a missing id and some earlier id did not already have that group |
| CanvasSafety.StepReplays | src/pelicanbench/canvas.py:67-128 | from a state its log rebuilds, a step leads to such a state if and only if it does not fail part way |
| CanvasSafety.RunReplays | src/pelicanbench/canvas.py:67-128 | replaying the events of any run without partial failures rebuilds elements, history, checkpoints and events with their hashes |
| CanvasSafety.AlwaysReplaysExactly | src/pelicanbench/canvas.py:67-128 | the log rebuilds the state at every point of a run if and only if no call of the run fails part way |
| CanvasSafety.UndoRepairs | src/pelicanbench/canvas.py:94-111 | an undo right after a partial failure leaves exactly what it would have left without it, and the state replays again |
| CanvasSafety.PartialGroupIsNotReplayable | src/pelicanbench/canvas.py:94-100 | a concrete run whose failing group is lost on replay |
| CanvasSafety.BracketsRestore | src/pelicanbench/canvas.py:105-113 | any well-bracketed mix of successful edits, restores, checkpoints and undos restores elements and history exactly |
| CanvasSafety.EverySnapshotIsSafe | src/pelicanbench/canvas.py:165-187 | after every run, failures included, the size bound and the allow-lists hold in the present, in the whole history and in every checkpoint |
| OntologyProgram.Visit | src/pelicanbench/ontology.py:71-81 | the depth-first visit raises only on a real cycle and otherwise every concept it marks has a chain that ends |
| OntologyProgram.AssertAcyclic | src/pelicanbench/ontology.py:67-84 | accepts exactly the ontologies in which no concept is its own proper ancestor |
| OntologyProgram.Validate | src/pelicanbench/ontology.py:49-65 | reports the first failing kind of check, and nothing exactly when all hold |
| Ontologies.ValidationMeans | src/pelicanbench/ontology.py:49-84 | each check of the validation spelled out, in order |
| Ontologies.AncestorsInOrder | src/pelicanbench/ontology.py:86-94 | the ancestors come nearest first |
| Ontologies.IsAMeans | src/pelicanbench/ontology.py:113-114 | is_a is equality or reachability by parent steps |
| Ontologies.MergedQuestions | src/pelicanbench/ontology.py:166-178 | the merge has the given id and version, and all questions in order |
| OntologyProgram.AncestorsOf | src/pelicanbench/ontology.py:86-94 | on a sound ontology the loop terminates with the chain of ancestors |
| OntologyProgram.RequiredFeatureProfile | src/pelicanbench/ontology.py:96-105 | the loops over the reversed lineage compute the inherited profile |
| Ontologies.AncestorsAre | src/pelicanbench/ontology.py:86-94 | the ancestors are exactly the concepts reachable by one or more parent steps |
| Ontologies.ProfileTier | src/pelicanbench/ontology.py:96-105 | a feature's tier is the concept's own last requirement, else the inherited tier, else necessary if listed as required |
| Ontologies.IsAPartialOrder | src/pelicanbench/ontology.py:113-114 | is_a is reflexive, antisymmetric and transitive |
| OntologyProgram.MergeOntologies | src/pelicanbench/ontology.py:159-180 | raises exactly on a conflicting definition, otherwise returns the union or its validation error |
| Ontologies.MergeFailsOnlyOnQuestions | src/pelicanbench/ontology.py:159-180 | merging validated, agreeing ontologies fails exactly when the concatenated competency-question ids are not unique |
| Ontologies.MergeIsConservative | src/pelicanbench/ontology.py:159-180 | the merge preserves every concept's ancestors and feature profile |
| Blinding.AssignAliases | src/pelicanbench/blinding.py:251-263 | the loop gives each model the shortest free alias of its digest, or raises at the first model without one |
| Blinding.AssignedIsAliased | src/pelicanbench/blinding.py:251-263 | the aliases are pairwise distinct digest prefixes |
| BlindingCalls.AssignedShortest | src/pelicanbench/blinding.py:251-263 | each model's alias is "SYS-" and the shortest upper-case prefix of 12, 14, ..., 64 characters that no earlier model has |
| Blinding.AssignFailsRarely | src/pelicanbench/blinding.py:259-260 | the collision error needs more than 27 models, two of which share a whole digest |
| Blinding.DistinctDigestsSuffice | src/pelicanbench/blinding.py:251-263 | with pairwise distinct digests the loop always ends with distinct aliases |
| Blinding.BuildEntries | src/pelicanbench/blinding.py:245-267 | blank and duplicate identifiers are refused exactly; otherwise the private map is one to one, ascending by model, with aliases assigned in that order |
| Blinding.FieldsReplaced | src/pelicanbench/blinding.py:497-506 | for any list of fields, each text is followed through the map once per listing of its field and nothing else changes; a record is refused exactly when a listed field holds something that is not a text or from which the map does not lead that far |
| Blinding.DistinctFieldsReplaced | src/pelicanbench/blinding.py:497-506 | with distinct fields each listed text is replaced by what the map holds for it |
| BlindingCalls.BlindRecords | src/pelicanbench/blinding.py:487-508 | succeeds exactly with one entry per model and every listed field of every record followable through the entries, and what every field then holds |
| BlindingCalls.UnblindRecords | src/pelicanbench/blinding.py:511-541 | refused without authorization whatever the input; otherwise succeeds exactly with one entry per alias and every listed field followable backwards, and what every field then holds |
| Blinding.UnblindBlind | src/pelicanbench/blinding.py:487-541 | unblinding a blinded list returns it unchanged for every list of fields, even repeated ones, unless the map has duplicate aliases, which is refused |
| Blinding.BuiltEntriesRoundTrip | src/pelicanbench/blinding.py:265-267 | with entries that are one to one, as the built ones are, unblinding always undoes blinding |
| Blinding.BlindUnblind | src/pelicanbench/blinding.py:487-541 | and the other way round |

## Left out

- SQLite, WAL, connections, JSON text, file paths and atomic file writes: a transaction is one atomic step, and immutable record files are a set of records.
- Manifest-mismatch and schema checks of the store, the wrong-manifest errors and the missing-table branch of the reconciler: the manifest is fixed.
- The truncated event_id and file-name digests: determined by the content hash.
- Timestamp text: times are integers, so blank or malformed timestamps do not occur.
- Floating point: costs, sums and probabilities are exact reals; non-finite charges do not occur.
- Whitespace and case outside ASCII: stripping, lower-casing and upper-casing are modelled on ASCII.
- Shard construction, price schedules, qualification and the campaign identity hash of `build_campaign_manifest`: only its budget gate and its cells are modelled.
- `next_ready_cells` and `campaign_store_status.state_counts` on their own: prefixes and counts of what is modelled.
- The heartbeat thread: heartbeats are arbitrary interleaved calls; heartbeat counts, cost-basis labels, error texts and the batch summary are not part of a record.
- The runner and the adapter: an oracle that is missing the task, raises, or returns trial, scorecard and failure flag; of the runner only the shape of the one trial is modelled; the metadata fields searched for a reported cost are one optional amount.
- WorkerBatch.ExecuteBatch: the program itself runs uninterrupted, other callers being the system's other moves, and its summary document (counts, sums, hash) is not modelled, because it only tallies the records.
- WorkerSafety.NextKeeps: other callers may complete leases with any state and reason except a worker's own reasons on a worker's terminal state, because such an event would count as a worker's without a record.
- The generator inside the sampler's shuffles: a shuffle is any deterministic function that permutes its input; the selection_id digest is a free constructor.
- Pairwise calibration tasks, `to_svg`, JSON-LD export, scene composition, and the severity table's held-out choice: single-pass formatting or finite data.
- The rest of `repair.py` and the inspection, decoding and resampling around the component counts: the model starts from a boolean grid.
- HMAC and SHA-256: digests are arbitrary 64-character lowercase hexadecimal texts; commitments, presentation order and the authorization MAC are not modelled, authorization being one truth value.
- OntologyProgram.Validate: an unknown parent and an unknown tier are one kind of error, because which of them is raised first depends on dictionary order.
- Canvas actions with missing keys, and element values that are not texts: actions are typed; an unsupported action kind is kept as an error.
