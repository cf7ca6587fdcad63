# Automation core

A model of the backend's automation core and proofs of what it keeps: the run saga and its limits,
the graph validator and hash, the lifecycle of workflows and their triggers, and five small
algorithms with exact specifications.

* `RunProtocol` is the saga as interleaved steps. `create` is split at its lookup, advisory lock,
  count, insert and commit; the claim commits on its own; a cancel or a reconcile may land between a
  claim and the dispatch that follows. `RunCalls` says what each step decides; `RunQuota`,
  `RunIdempotency`, `RunDispatch`, `RunRevival` and `RevivalLimits` prove what holds over every
  interleaving. `Executions` is the row itself, with each service call one atomic step, `Reconciler`
  the pass that ends silent runs, and `Starvation` which silent runs it never reaches.
* `WorkflowGraphs`, `GraphValidation`, `CycleSearch`, `GraphGuarantees` and `GraphHash` are
  `graph.py`; `GraphMeaning` states the rules on the stored fields alone; `Digraphs` and `StableSort`
  are the mathematics they rest on.
* `Workflows` holds the workflow and its trigger binding as objects, `WorkflowSafety` what every run
  of requests keeps, `WorkflowMeaning` when a request is accepted and what it then leaves, and
  `DraftRaces` the same saves and publishes as concurrent transactions.
* `RateLimit`, `Secrets`, `PayloadVault`, `Redaction` and `Schedules` are the small algorithms;
  `Texts`, `Json`, `Sets` and `Wrappers` are shared vocabulary.

The engine is a contract: the same execution id gives the same run, and a run is reported as RUNNING
or as finished. The node registry holds the bundled catalogue's keys, none of them blank
(`backend/app/services/catalog.py:49-136`). Encryption is symbolic. JSON text and digests are
parameters assumed faithful or injective where a result needs it, and `JsonText` shows that a faithful
text exists. Clocks, random strings, zone offsets, the next cron instant, the expression check and the
engine's answers are parameters.

## Where the code departs from its promise

* A dispatch ends with a write of RUNNING, QUEUED or FAILED_TO_START that does not look at the row, so
  a run cancelled or interrupted after its claim can come back, and the limits can be exceeded at once
  or by a `create` already under way (`RunRevival`, `RevivalLimits`). The earlier DISPATCHING write
  cannot do this: the worker's object has held that status since the claim, so only the time is stored.
  Without such a write the limits hold in every interleaving.
* A rule list that is no list of dictionaries makes the validator raise instead of answering. A save or
  a publish then fails; a due schedule's firing is rolled back with its whole tick and stays due.
* The revision check of `save_draft` reads and writes in one transaction without locking the draft,
  so two overlapping saves can both be accepted (`DraftRaces`).
* A retry of a draft run reads the current draft (`WorkflowSafety.RetryRepeatsIff`).
* `fire_schedule` clears the next run of a binding without a version and its `finally` sets it again.
  An enabled binding loses its version only when the version row is removed and the key set to null.
* Behind 200 fresh rows a stale run is never looked at: a pass takes the 200 oldest (`Starvation`).
* The node id pattern accepts one trailing newline; a rotation with a page size of zero does nothing;
  an empty idempotency key counts as no key but the unique index still holds it.
* The prune age may be one clock unit shorter than the window without harm, no more.

## Model

| member | source | states |
|---|---|---|
| `RunQuota.LimitsHold` | backend/app/services/executions.py:118-141 | In every interleaving of `create` transactions with claims, dispatches, cancels and reconciles in which no dispatch writes an active status onto an ended row, committed active runs never exceed the per-workflow limit or the workspace ceiling, for every workspace and workflow |
| `RunQuota.ReachableQuota` | backend/app/services/executions.py:276-307 | The invariant behind it: at every reachable state each open transaction, with its uncommitted rows, is also within the limits, and one that is about to insert still has room |
| `RunQuota.CommitKeepsQuota` | backend/app/services/executions.py:118-138 | A commit keeps the limits for every other open transaction, because the advisory lock keeps the two out of one workspace |
| `RunQuota.ReachableOrderly` | backend/app/services/executions.py:134-138 | No lock is held twice, every uncommitted row lies in a locked workspace, and row ids are never reused |
| `RunIdempotency.OneRowPerKey` | backend/app/models/execution.py:56-61 | In every interleaving two committed rows with the same workspace, workflow and key are one row |
| `RunIdempotency.KeyedCallsAgree` | backend/app/services/executions.py:229-247 | In every interleaving all keyed calls that return and commit name the same row, and it bears their key |
| `RunIdempotency.ReplayIsAnsweredAtOnce` | backend/app/services/executions.py:108-116 | A call that starts after its key is committed returns that row at the lookup: nothing inserted, no lock, no count, however full the limits |
| `RunIdempotency.LateReplayIsNeverRefused` | backend/app/services/executions.py:140-166 | A keyed call caught between lookup and insert when its key commits is never refused by the ceiling and never inserts a second row |
| `RunIdempotency.InsertedKeyIsNew` | backend/app/models/execution.py:56-61 | A row the insert adds has a key that no committed or pending row of that workflow bears |
| `RunCalls.RefusalHasCause` | backend/app/services/executions.py:140-212 | No call is refused without cause: in every interleaving each refusal on record was given at a step that found one of the two counts at its limit and no run under the key in sight, or nothing valid to run |
| `RunCalls.CheckDecides` | backend/app/services/executions.py:140-166 | Below both limits the call goes on; at a limit it is answered with a run of its own key when one is in sight and refused when none is. The counts are over runs that have not ended, also while a cancel is asked for |
| `RunCalls.LookupDecides` | backend/app/services/executions.py:108-116 | A call under a nonempty key whose run is in sight is answered with that run; any other goes on |
| `RunCalls.LockDecides` | backend/app/services/executions.py:135-138 | The lock waits for exactly the other open transactions that hold the workspace's, and is kept to the end of the transaction |
| `RunCalls.InsertWaitsIff` | backend/app/models/execution.py:56-61 | The insert waits exactly for an open transaction with an uncommitted row of the same workspace, workflow and key |
| `RunCalls.InsertDecides` | backend/app/services/executions.py:214-247 | Otherwise: refused with nothing valid to run; a duplicate in sight is handed back, or poisons the transaction under an empty key; else exactly one queued row under a new id is added and returned |
| `RunDispatch.OneHandOneRun` | backend/app/worker.py:43-63 | With any number of workers and with cancels and reconciles anywhere, no execution is in two hands and the engine starts at most one run per execution; a row that has a reference has that run's |
| `RunDispatch.RefNeverChanges` | backend/app/services/executions.py:409-457 | An engine reference, once set, is the same in every later state of the run, given the engine's idempotency contract |
| `RunDispatch.FinishKeepsRefs` | backend/app/engine/base.py:40-43 | Dispatching again under the same execution id hands back the reference of the run already started |
| `RunDispatch.DispatchWrites` | backend/app/services/executions.py:390-457 | What a claim and the two dispatch writes leave on the committed row, by column and by how the engine answered |
| `RunDispatch.EngineStartsIff` | backend/app/engine/base.py:40-43 | The engine starts a run exactly when a dispatch lands for an execution it has none for |
| `RunRevival.StepKeepsEndingsIff` | backend/app/services/executions.py:409-457 | A step keeps the status of every ended row exactly when it is no closing write of a dispatch (RUNNING, QUEUED or FAILED_TO_START) that changes the status of an ended row |
| `RunRevival.RunKeepsEndingsIff` | backend/app/services/executions.py:409-457 | Over a whole interleaving, ended executions stay ended exactly when no dispatch's closing write changed an ended one |
| `RunRevival.RevivalKeepsLimitsIff` | backend/app/services/executions.py:453-457 | At the instant of the write: the committed table is within the limits exactly when it had room for one more run of that workflow |
| `RunRevival.CancelledRunComesBack` | backend/app/services/executions.py:668-672 | A concrete interleaving with limit one: a claimed run is cancelled, a second is admitted, the RUNNING write of the dispatch revives the first, and two runs are active |
| `RevivalLimits.RevivalStaysWithinIff` | backend/app/services/executions.py:118-166 | A revival is followed only by states within the limits, over every continuation without another revival, exactly when the committed table and every open transaction's view had room for one more run of that workflow, and for two where the transaction has counted and is about to insert |
| `RevivalLimits.FirstRevivalStaysWithinIff` | backend/app/services/executions.py:409-457 | The same for the first revival of any run of the protocol in which a call under an empty key opens its transaction |
| `RevivalLimits.QuotaLasts` | backend/app/services/executions.py:276-307 | The limits' invariant lasts through every continuation without a revival |
| `RevivalLimits.Lands` | backend/app/services/executions.py:118-247 | From every reachable state each open transaction that is in no call under an empty key can still commit what it sees, and the row it was about to insert |
| `Executions.RunKeepsRow` | backend/app/services/executions.py:650-672 | With each service call one atomic step: terminal exactly when `ended_at` is set, RUNNING has reference and start time, QUEUED has no reference, and a terminal row is never changed again, over every run of one row |
| `Executions.StepKeepsRow` | backend/app/worker.py:96-123 | One step of the above |
| `Executions.EndingHasCause` | backend/app/services/executions.py:375-677 | Every ended row was ended by one step for its own cause, and is still as that step left it: the engine refused the run, a user cancelled it before the engine had it, the engine reported just that ending, or it was unknown or silent too long |
| `Executions.OutcomeWasReported` | backend/app/services/executions.py:511-558 | A row is SUCCEEDED, FAILED or TIMED_OUT only if the engine reported that very status, with the node results, log, duration and error the row shows |
| `Executions.IngestCoherentIffHonest` | backend/app/services/executions.py:494-563 | Storing a poll answer keeps the row consistent exactly when the engine reported RUNNING or an ending |
| `Executions.IngestTwice` | backend/app/services/executions.py:511-558 | A final report stored twice changes nothing but the time last seen |
| `Executions.StatusPartition` | backend/app/models/enums.py:85-100 | Every execution status is terminal or active and never both |
| `Executions.Execution.constructor` | backend/app/services/executions.py:214-228 | A created row is QUEUED with no reference, start, end or result |
| `Executions.Execution.MarkDispatching` | backend/app/services/executions.py:390-393 | The first writes of a dispatch; they keep a consistent row consistent exactly when it is unfinished and has no reference yet |
| `Executions.Execution.FinishDispatch` | backend/app/services/executions.py:420-457 | From a consistent claimed row every outcome leaves a consistent one: ended exactly on a refusal, with a reference exactly on an acceptance, queued again exactly when the engine is down |
| `Executions.Execution.Ingest` | backend/app/services/executions.py:484-563 | By field: RUNNING moves only a DISPATCHING row and sets its start; after any other report status, node results, log lines, duration and error are the report's, the start is the report's or the old one, the end the report's or now, and the reference stays |
| `Executions.Execution.Poll` | backend/app/services/executions.py:462-481 | An unknown run is interrupted, an unreachable engine changes nothing, another failure rolls back |
| `Executions.Execution.MarkInterrupted` | backend/app/services/executions.py:599-619 | Whatever the row was, it is now consistent and ended, with its reference, results and log kept |
| `Executions.Execution.InterruptIfStale` | backend/app/worker.py:96-123 | The row changes exactly when it is unfinished and silent too long; it then ends, as failed to start exactly without a reference, and stays consistent |
| `Executions.Execution.Reconcile` | backend/app/worker.py:77-86 | A failing poll leaves the row as it was; an unknown run is interrupted; a reported ending is stored; with no answer the row ends exactly when unfinished and silent too long |
| `Executions.Execution.Cancel` | backend/app/services/executions.py:643-677 | Nothing on a finished row; CANCELLED at once without a reference; with one, CANCEL_REQUESTED when the engine is silent or still running it, the ending it reports, and no change when the request fails |
| `Reconciler.ExecutionTable.ReconcilePass` | backend/app/worker.py:72-93 | A pass handles exactly the picked rows, each once |
| `Reconciler.SilenceEndsAllRuns` | backend/app/services/executions.py:955-965 | With the engine silent and all k unresolved rows stale, after n passes exactly max(0, k - 200 n) are left and every other one is terminal, so all are terminal after ceil(k/200) |
| `Reconciler.SilentPassEnds` | backend/app/worker.py:96-123 | A silent pass ends exactly the stale rows it picks |
| `Reconciler.PassShrinks` | backend/app/services/executions.py:955-965 | A pass removes exactly its batch from the unresolved rows |
| `Reconciler.StaleRowEndsIffNearFront` | backend/app/services/executions.py:955-965 | One silent pass ends a stale row exactly when fewer than 200 unresolved rows were queued before it |
| `Starvation.SilenceEndsStaleRuns` | backend/app/worker.py:72-123 | With k stale rows among F < 200 fresh ones, at most k - n (200 - F) stale rows are left after n silent passes |
| `Starvation.StaleRowEndsIff` | backend/app/services/executions.py:955-965 | Over as many silent passes as there are unresolved rows, or more, a stale row ends exactly when fewer than 200 fresh unresolved rows were queued before it |
| `Starvation.NearRowEnds` | backend/app/worker.py:72-93 | With fewer than 200 fresh rows ahead, ties included, a stale row ends within one pass more than there are other stale rows ahead |
| `Starvation.FarRowStarves` | backend/app/services/executions.py:955-965 | Behind 200 fresh rows a stale row is unresolved after any number of passes |
| `Starvation.TwoHundredFreshRowsStarve` | backend/app/services/executions.py:955-965 | Such a table exists: 200 rows seen now in front of one seen long ago |
| `CycleSearch.HasCycle` | backend/app/services/graph.py:487-502 | Terminates on every finite adjacency map and returns true exactly when some node has a nonempty path back to itself |
| `CycleSearch.Search.Visit` | backend/app/services/graph.py:491-500 | The recursive visit: grey nodes are the path being followed, black nodes point only at nodes that finished earlier, and the white nodes shrink |
| `CycleSearch.FinishOrderRefutesCycle` | backend/app/services/graph.py:496-500 | When every node has finished, the finish order itself shows that there is no cycle |
| `CycleSearch.GreyNeighbourCloses` | backend/app/services/graph.py:493-494 | A grey neighbour closes a real cycle |
| `GraphValidation.ValidateGraph` | backend/app/services/graph.py:264-482 | Raises exactly when a connection reaches a source node whose ports cannot be named; otherwise `ok` exactly on the graphs that meet every rule, stated without the validator's bookkeeping, and for those the trigger, the credentials and the orphan warnings are exactly the graph's |
| `GraphValidation.IndexNodes` | backend/app/services/graph.py:293-306 | No id error exactly when ids are well formed and distinct, and then the table holds every node under its id |
| `GraphValidation.CheckFields` | backend/app/services/graph.py:244-261 | A required-field error exactly when a required field with a met condition is blank |
| `GraphValidation.CheckNode` | backend/app/services/graph.py:308-384 | One node's findings are error-free exactly when the node is acceptable and its name is new |
| `GraphValidation.CheckConnection` | backend/app/services/graph.py:405-449 | A new connection raises exactly when its source's ports cannot be named, and is refused exactly when it dangles, loops, repeats, leaves by a port its source does not offer or enters by one its target does not declare |
| `WorkflowGraphs.OutputPortsAreOffered` | backend/app/services/graph.py:186-204 | A rule-driven node offers exactly the nonempty stripped text output keys of its rules, and `other` exactly with the extra fallback; any other node exactly its declared ports |
| `GraphMeaning.ConnectionAcceptedMeans` | backend/app/services/graph.py:405-449 | A connection is acceptable exactly when it joins two different nodes of the graph, leaves by an offered port (any port when none is offered) and enters by a declared one; said of the stored fields, missing and empty ones included |
| `GraphMeaning.SameEdgeMeans` | backend/app/services/graph.py:420-428 | Two connections are duplicates exactly when they join the same ports of the same nodes |
| `GraphMeaning.PortsRaiseMeans` | backend/app/services/graph.py:186-204 | Ports cannot be named exactly when the configuration of a rule-driven node, its rule list or one of its rules is of the wrong kind |
| `GraphMeaning.NodeAcceptedMeans` | backend/app/services/graph.py:308-384 | A node is acceptable exactly when its kind is known, active or deprecated and not blocked, its stripped name has 1 to 200 characters, its configuration is a dictionary or empty, every demanded field is filled and no expression is malformed; said of the stored fields |
| `GraphMeaning.TriggersMeanNodes` | backend/app/services/graph.py:354-397 | The triggers counted are exactly the nodes of a trigger kind, in their order, with their ids |
| `GraphMeaning.GraphCredentialsMean` | backend/app/services/graph.py:368-375 | The credentials reported are exactly the nonempty values of credential fields of the nodes |
| `WorkflowGraphs.NodeIdMeans` | backend/app/services/graph.py:32 | A node id is 1 to 64 letters, digits, underscores and hyphens, with or without one final newline |
| `WorkflowGraphs.IdTableMeans` | backend/app/services/graph.py:293-306 | The table of the validator holds, under each well-formed id, the first node with that id |
| `GraphValidation.CheckConnections` | backend/app/services/graph.py:399-452 | Raises exactly when some connection does; otherwise the counters and the adjacency map are those of exactly the accepted connections |
| `GraphValidation.FindOrphans` | backend/app/services/graph.py:462-474 | A warning for exactly the nodes, other than triggers, that nothing enters |
| `GraphGuarantees.AcceptedGraphRunsFromTrigger` | backend/app/services/graph.py:386-482 | No error and no orphan warning: the single trigger reaches every node |
| `GraphGuarantees.AcceptedGraphHasOrder` | backend/app/services/graph.py:454-458 | Every accepted graph has an order of its nodes that follows every connection |
| `GraphGuarantees.TraversalsAgree` | backend/app/services/graph.py:505-522 | On an accepted graph `collect_credential_ids` does not raise and returns the validator's credentials, and `trigger_of` returns the node it named; the registry's keys are the catalogue's, none of them blank |
| `GraphGuarantees.CollectCredentialIds` | backend/app/services/graph.py:505-514 | Raises exactly when a credential field is read from a configuration that is no dictionary; otherwise the credentials of every node |
| `Digraphs.AcyclicHasOrder` | backend/app/services/graph.py:454-458 | A finite graph without a cycle has a topological order |
| `Digraphs.RootReachesAll` | backend/app/services/graph.py:460-474 | In a finite acyclic graph where every node but one has a predecessor, that one reaches every node |
| `GraphHash.PartsKeepAllButPosition` | backend/app/services/graph.py:156-171 | Two nodes are hashed alike exactly when id, key, name and schema version (1 when absent) agree, their configurations are equal or both empty, and both or neither are disabled; only the position is free |
| `GraphHash.MaterialIdentifiesMeaning` | backend/app/services/graph.py:156-181 | For all graphs: equal material exactly when the connections agree with multiplicity and, under each id, the nodes agree in turn in every field but the position |
| `GraphHash.MaterialOfDistinctIds` | backend/app/services/graph.py:156-181 | With distinct ids: equal material exactly when each graph has every node of the other, up to position, and the connection multisets are equal |
| `GraphHash.HashIsMaterial` | backend/app/services/graph.py:182-183 | Two hashes are equal exactly when the material is |
| `GraphHash.HashOfDistinctIds` | backend/app/services/graph.py:149-183 | With distinct ids: equal hashes exactly when each graph has every node of the other, up to position, and the connection multisets are equal, for any faithful JSON text and injective digest |
| `GraphHash.OrderIrrelevantIffIdsIdentify` | backend/app/services/graph.py:166-181 | Node order never matters to the hash exactly when nodes that share an id agree in every field but the position |
| `StableSort.SortedIsStableSort` | backend/app/services/graph.py:160-181 | The sort returns a sorted sequence and keeps the elements under each key in their order |
| `StableSort.SortedEqual` | backend/app/services/graph.py:160-181 | Two sequences sort alike exactly when they agree under every key |
| `StableSort.StringLeMeans` | backend/app/services/graph.py:160-181 | The order of the sort is by the first character that differs, and a text comes after its own beginnings |
| `WorkflowSafety.RequestsKeepWorkflow` | backend/app/services/workflows.py:765-838 | Over every run of saves, publishes, activations, deactivations, runs, retries, webhooks, firings and a delete: versions stay numbered 1 to n and are never changed or lost, pointers and binding stay consistent, runs are never changed, an allocated webhook key lasts until the delete |
| `WorkflowSafety.StepKeepsSound` | backend/app/models/workflow.py:167-210 | One request keeps all of it: binding version equals active version; enabled means ACTIVE, not deleted and bound to an own version; an enabled schedule has a next run; a next run means SCHEDULE |
| `WorkflowSafety.PublishedRunsLast` | backend/app/services/executions.py:180-205 | A published run carries the graph of the version it names, and both are the same after any further requests |
| `WorkflowSafety.SavesAreConsecutive` | backend/app/services/workflows.py:477-512 | As atomic requests the k-th accepted save named revision k, the draft is the last accepted graph, and a draft run carries the graph of the revision it recorded |
| `WorkflowSafety.DraftRunsReproducible` | backend/app/services/executions.py:168-174 | Two draft runs that recorded the same revision ran the same graph |
| `WorkflowSafety.RetryRepeatsIff` | backend/app/services/executions.py:680-701 | A retry names what its original named, and runs the same graph exactly when the original was published or the draft equals the original's graph |
| `WorkflowSafety.RetryChainKeepsGraph` | backend/app/services/executions.py:680-701 | Every run in a chain of retries back to a published run carries that run's graph |
| `WorkflowSafety.NumberNamesVersion` | backend/app/services/workflows.py:905-912 | Looking up version k finds the k-th version published, for every k from 1 to n and no other |
| `WorkflowSafety.PublishKeepsSound` | backend/app/services/workflows.py:798-823 | Publishing appends exactly the draft under the next number and moves only the published pointer |
| `WorkflowSafety.CreatedIsNewborn` | backend/app/services/workflows.py:350-425 | A created workflow is inactive with revision 1 and no version, and its binding already has the type its trigger node declares |
| `WorkflowSafety.DuplicateIsNewborn` | backend/app/services/workflows.py:981-1034 | A copy has the draft, no version, no run, is not enabled, and its webhook key differs from the original's |
| `WorkflowSafety.SyncKeepsSound` | backend/app/services/workflows.py:532-605 | Following the trigger node keeps every invariant; the binding stays enabled exactly when it was and its type did not change, and switching off makes the workflow inactive |
| `WorkflowSafety.FiringAdvances` | backend/app/services/triggers.py:263-345 | A firing of a reachable workflow fails only when the validator raises on its version; otherwise the binding is disabled or its next run is later than now, and it is disabled exactly when deleted, disabled before, or the zone no longer resolves |
| `WorkflowSafety.FiringAdvancesAlike` | backend/app/services/triggers.py:266-271 | A skipped or refused firing that completes leaves the same binding as a successful one |
| `WorkflowSafety.FiringStrandsIff` | backend/app/services/triggers.py:328-343 | A completed firing leaves an ACTIVE workflow with a disabled trigger exactly when the stored zone no longer resolves |
| `WorkflowSafety.FiringWithoutVersion` | backend/app/services/triggers.py:304-332 | A binding whose version row was removed is disabled, yet its cleared next run is set again by the closing recomputation |
| `WorkflowMeaning.RollbackBindsNumber` | backend/app/services/workflows.py:904-917 | An accepted activation under number n has 1 <= n <= the number of versions and leaves the active and the bound version at the n-th published; one without a number binds the last; a number outside, or no version at all, is refused |
| `WorkflowMeaning.ActivationBindsAsked` | backend/app/services/workflows.py:891-956 | Accepted exactly when the version asked for exists and is valid, the credentials are usable and a schedule has a next run; the whole state it leaves |
| `WorkflowMeaning.DraftRunStarts` | backend/app/services/executions.py:168-212 | A draft run is started exactly when admitted with a valid draft, and is frozen with that draft and its revision |
| `WorkflowMeaning.PublishedRunAcceptedIff` | backend/app/services/executions.py:176-212 | A published run is started exactly when admitted and the version it uses exists and is valid: the one asked for, else the active one, else the last |
| `WorkflowMeaning.PublishedRunIsOfUsed` | backend/app/services/executions.py:176-228 | It is frozen with the id, number and graph of that version |
| `WorkflowMeaning.HookAcceptedIff` | backend/app/services/triggers.py:168-227 | A webhook call starts a run exactly when the key is this hook's, the hook is on, the call is authentic and admitted, and the bound version is valid |
| `WorkflowMeaning.HookStartsBound` | backend/app/services/triggers.py:200-227 | The run is of the bound version and the binding notes the time; nothing else changes |
| `WorkflowMeaning.FiringStartsBound` | backend/app/services/triggers.py:263-327 | A due firing that completes adds a run of the bound version exactly when it is not skipped for overlap, is admitted and that version is valid; otherwise it adds none |
| `WorkflowMeaning.FiringReschedules` | backend/app/services/triggers.py:328-345 | Whatever happened, it notes the time and takes the next run of the stored configuration, or disables the binding when there is none |
| `WorkflowMeaning.FiringCrashesIff` | backend/app/services/triggers.py:263-345 | It ends in an exception exactly when the run it should start has a version the validator raises on, or the next run cannot be computed at all |
| `WorkflowMeaning.RetryAcceptedIff` | backend/app/services/executions.py:680-701 | A retry is accepted exactly for a finished run whose version, or whose draft as it is now, is valid and admitted |
| `WorkflowMeaning.RetryIsLinked` | backend/app/services/executions.py:680-701 | The new run links to the original with its kind and trigger; a published original gives its version and graph again, a draft original the current draft and revision |
| `WorkflowMeaning.SaveAcceptedIff` | backend/app/services/workflows.py:477-529 | A save is accepted exactly on the current revision, with a validator that does not raise and a trigger that can be bound; it stores the graph as the next revision and leaves versions, pointers and runs alone |
| `WorkflowMeaning.PublishAcceptedIff` | backend/app/services/workflows.py:765-838 | A publish is accepted exactly when it names no other revision, the draft is valid, engine and credentials agree and the id is new |
| `WorkflowMeaning.SyncFollows` | backend/app/services/workflows.py:532-605 | The workflow follows its trigger node whenever that can be bound; its listed type is then the binding's, and a type change switches both off exactly when the binding was on |
| `WorkflowMeaning.FollowedNode` | backend/app/services/graph.py:517-522 | The node followed is the first of a trigger kind in the list |
| `WorkflowMeaning.FollowedWebhook` | backend/app/services/workflows.py:568-589 | A webhook binding has method and mode in capitals with their defaults, the size limit cut to the deployment's, and a secret unless its mode asks for none |
| `WorkflowMeaning.FollowedSchedule` | backend/app/services/workflows.py:561-567 | A schedule binding has the validated configuration and its policy and, while on, the next run of that configuration |
| `WorkflowMeaning.CreatedFromTrigger` | backend/app/services/workflows.py:350-425 | A workflow is created exactly on a trigger of the registry that can be bound; its draft is that trigger alone, with the fields given |
| `WorkflowMeaning.CopiedIff` | backend/app/services/workflows.py:981-1034 | A workflow is copied exactly when it is not deleted, the trigger of its draft can be bound and a drawn webhook key is not the original's |
| `WorkflowMeaning.CopyFollowsDraft` | backend/app/services/workflows.py:981-1034 | By field what a copy starts from |
| `WorkflowMeaning.DeletedIff` | backend/app/services/workflows.py:1037-1063 | Deleting is refused exactly while the workflow is on, has an unfinished run or is deleted already; it releases the webhook key and keeps versions and runs |
| `WorkflowMeaning.DeactivationRemembers` | backend/app/services/workflows.py:959-978 | Deactivating forgets nothing but the next run: active and bound version, key, versions and runs stay |
| `DraftRaces.SavesFollowIffNoneCrossed` | backend/app/services/workflows.py:494-512 | Over every interleaving of concurrent saves and publishes, each save replaced the revision it named exactly when no save was committed between another's read and its commit |
| `DraftRaces.CrossedSaveOverwrites` | backend/app/services/workflows.py:494-505 | Two saves that both read revision 1 are both accepted and the first graph is gone |
| `DraftRaces.NumbersExactInEveryRace` | backend/app/models/workflow.py:136-138 | However publishes interleave, committed version numbers are exactly 1 to n |
| `DraftRaces.VersionsWereDrafts` | backend/app/services/workflows.py:765-823 | Every version of a race freezes the draft as a publish of that id read it, whatever was saved before that publish committed |
| `DraftRaces.DraftWasSubmitted` | backend/app/services/workflows.py:494-512 | The draft of a race is the first one until a save commits, and then a graph submitted on the revision its author saw |
| `Workflows.TriggerBinding.Rebind` | backend/app/services/workflows.py:553-593 | An allocated webhook key is kept and a webhook has one; only a schedule has a next run, and an enabled one always; a schedule's stored configuration is normalized |
| `Workflows.Workflow.SyncTrigger` | backend/app/services/workflows.py:532-605 | The same for the workflow, with the type-change deactivation |
| `Workflows.Workflow.Create` | backend/app/services/workflows.py:350-425 | A new workflow with its trigger seeded and synced, or none |
| `Workflows.Workflow.Duplicate` | backend/app/services/workflows.py:981-1034 | A new workflow with the draft, or none; none too when the drawn key is the original's |
| `Workflows.Workflow.SaveDraft` | backend/app/services/workflows.py:477-529 | Accepted exactly when the named revision is current, the validator does not raise and the trigger can follow; a refusal changes nothing |
| `Workflows.Workflow.Publish` | backend/app/services/workflows.py:765-838 | Accepted exactly when the revision, the validator and the engine agree; the next number is one past the highest |
| `Workflows.Workflow.AddVersion` | backend/app/services/workflows.py:798-823 | The draft frozen under the next number, or nothing when the id is taken |
| `Workflows.Workflow.Activate` | backend/app/services/workflows.py:891-956 | Leaves the state of an accepted activation, or changes nothing; `WorkflowMeaning.ActivationBindsAsked` says which version that is |
| `Workflows.Workflow.BindTo` | backend/app/services/workflows.py:939-948 | The binding and the workflow name the same version, enabled and ACTIVE, a schedule with its next run; versions, runs, draft and key stay |
| `Workflows.Workflow.Deactivate` | backend/app/services/workflows.py:959-978 | Switches off and keeps the active version |
| `Workflows.Workflow.Delete` | backend/app/services/workflows.py:1037-1063 | Refused while active or running; otherwise releases the webhook key |
| `Workflows.Workflow.StartRun` | backend/app/services/executions.py:168-212 | The artefact a run is frozen with, and when the request crashes in the validator |
| `Workflows.Workflow.Retry` | backend/app/services/executions.py:680-701 | A new run of the original's kind and version, linked to it; only of a finished run |
| `Workflows.Workflow.ReceiveHook` | backend/app/services/triggers.py:168-227 | A run of the bound version exactly when the hook is on, authentic and admitted |
| `Workflows.Workflow.FireSchedule` | backend/app/services/triggers.py:263-345 | The whole state a firing leaves on every path |
| `Workflows.MaxNumber` | backend/app/services/workflows.py:798-800 | The highest version number |
| `Workflows.FindById` | backend/app/services/executions.py:177-186 | The version with an id, if there is one |
| `Workflows.FindByNumber` | backend/app/services/workflows.py:905-910 | The version with a number, if there is one |
| `RateLimit.HitsCountTheLog` | backend/app/core/rate_limit.py:35-55 | Under nondecreasing time every answer is the number of requests the full log holds in the current window |
| `RateLimit.WindowAdmitsItsFirst` | backend/app/core/rate_limit.py:75-82 | Each window admits exactly its first `limit` requests |
| `RateLimit.SpanAdmitsAtMostTwice` | backend/app/models/ops.py:115-118 | No half-open span of one window length admits more than twice the limit |
| `RateLimit.PruneHarmlessIff` | backend/app/core/rate_limit.py:111-122 | Pruning never changes an answer on a key exactly when its window is at most one clock unit longer than the prune age |
| `RateLimit.PruneChangesNoDecision` | backend/app/core/rate_limit.py:111-122 | Every answer is the one given with all prunes left out, under that condition |
| `RateLimit.PruneForgets` | backend/app/core/rate_limit.py:111-122 | Beyond it, one prune makes the second request of a window count as the first |
| `RateLimit.BucketSharedIff` | backend/app/core/rate_limit.py:58-82 | Two keys share a bucket exactly when they are equal, or both have 200 characters or more and agree on the first 200 |
| `RateLimit.WindowHoldsNow` | backend/app/core/rate_limit.py:52-55 | A window starts at a multiple of its length and holds the moment asked for |
| `RateLimit.Limiter.Hit` | backend/app/core/rate_limit.py:35-82 | The upsert as insert, increment or restart, answered after counting; the bucket notes the time in the window that holds it and no other bucket changes |
| `RateLimit.Limiter.Prune` | backend/app/core/rate_limit.py:111-122 | Removes exactly the rows past the age and counts them |
| `Secrets.InterruptionsDoNotMatter` | backend/app/core/secrets.py:182-229 | Any sequence of rotations interrupted at commits, then a complete one, leaves the table of a single uninterrupted rotation |
| `Secrets.RotationKeepsPayloads` | backend/app/core/secrets.py:141-148 | After that every old-key record opens under the new key to its original payload, third-key records are untouched and no ciphertext changed |
| `Secrets.RerunRotatesNothing` | backend/app/core/secrets.py:193-197 | A second complete run with distinct keys rotates nothing |
| `Secrets.SecretStore.RewrapAll` | backend/app/core/secrets.py:182-229 | Wherever it is cut short, the table is the rotation of exactly the records done at the last commit, each visited once, with counts that add up to them; uncut it has done them all |
| `Secrets.SecretStore.RewrapUntilDone` | backend/app/core/secrets.py:193-197 | Rotations that die one after the other at any commit, then one that does not, leave the table of a single uninterrupted rotation |
| `Secrets.SecretStore.RewrapNext` | backend/app/core/secrets.py:205-227 | A page on top of a partial rotation gives the partial rotation one page further |
| `Secrets.SecretStore.RewrapPage` | backend/app/core/secrets.py:213-222 | Exactly the records of the page are rewrapped or counted as skipped |
| `Secrets.CountsSealed` | backend/app/core/secrets.py:205-227 | The count of rotated records is the number of places whose data key was sealed under the old key |
| `Secrets.SecretStore.Write` | backend/app/core/secrets.py:101-139 | The payload opens under the key, the version goes up by one, every other record stays |
| `Secrets.SecretStore.Read` | backend/app/core/secrets.py:141-148 | The stored payload, and the empty object for a missing record |
| `PayloadVault.RetriesKeepPayload` | backend/app/services/executions.py:353-371 | With an unchanged key a run and every chain of retries of it hand the engine exactly the caller's payload, the empty object when there was none |
| `PayloadVault.StoredOpens` | backend/app/core/payload_vault.py:37-70 | Sealing then unsealing gives the payload back |
| `PayloadVault.StoredColumns` | backend/app/core/payload_vault.py:37-70 | A payload is sealed whole and opens under its key alone, null is not sealed, and the readable column holds only the redacted form |
| `PayloadVault.PayloadSurvivesIff` | backend/app/services/executions.py:353-371 | Under another key the payload survives exactly when it is null, the key is the same, or redaction would have changed nothing |
| `JsonText.FaithfulCodecExists` | backend/app/core/payload_vault.py:37-70 | A text encoding of JSON that decodes back to every value exists, so the results that assume one are about something |
| `JsonText.EncodePrefix` | backend/app/core/payload_vault.py:37-42 | That encoding is injective, even followed by other text |
| `Redaction.RedactIdempotent` | backend/app/core/redaction.py:46-62 | Redacting twice is redacting once, at every depth |
| `Redaction.RedactIsSafe` | backend/app/core/redaction.py:46-62 | Depth, list length and string length are bounded, and only the mask stands under a sensitive key |
| `Redaction.RedactEqualIffIndistinct` | backend/app/core/redaction.py:46-62 | Two payloads redact alike exactly when they differ only where redaction looks away: sensitive or dropped keys, cut tails, too great a depth |
| `Redaction.RedactUnchangedIff` | backend/app/core/redaction.py:46-62 | A payload is left as it is exactly when it has no dropped key, the mask under every sensitive one, at most eight levels, lists of at most 50 items and texts of at most 4096 characters, or what redaction itself writes |
| `Redaction.SensitiveMeans` | backend/app/core/redaction.py:41-43 | A key is sensitive exactly when one of the hints stands in it somewhere, in any case |
| `Redaction.DroppedMeans` | backend/app/core/redaction.py:34-56 | A key is dropped exactly when it is one of the four header names, in any case |
| `Redaction.MakePreview` | backend/app/core/redaction.py:65-99 | The longest prefix of the capped items whose encoding with the true total fits, the true total, and `truncated` false only when every item is kept |
| `Schedules.DailyRunsNext` | backend/app/services/schedules.py:97-103 | The next run of a validated daily schedule is the least later instant that shows its hour and minute in its zone, its own, else the workspace's, else Bangkok, and is at most a day away |
| `Schedules.IntervalRunsNext` | backend/app/services/schedules.py:94-95 | The next run of a validated interval is exactly its seconds after the base, and they are at least 60 |
| `Schedules.CronRunsNext` | backend/app/services/schedules.py:105-107 | The next run of a validated cron schedule is the cron successor of the base, both on its zone's clock |
| `Schedules.UncheckedRunsHourly` | backend/app/services/schedules.py:90-95 | A configuration without kind or period runs an hour after the base, in whatever zone it names that resolves |
| `Schedules.AcceptedSchedules` | backend/app/services/schedules.py:31-76 | Accepted exactly: one of the three kinds in any case, a zone that resolves, and a period of at least 60 seconds, a readable time or a valid expression |
| `Schedules.ParseTimeMeans` | backend/app/services/schedules.py:58-66 | `HH:MM` is two decimal numbers within a day; a text without a colon is none |
| `Schedules.DailyIsLeastLater` | backend/app/services/schedules.py:97-103 | The arithmetic behind it, for any offset: the least later instant with that wall-clock time |
| `Schedules.NormalizedRunsLater` | backend/app/services/schedules.py:79-107 | For a validated shape the next run is strictly after its base and fails exactly when the zone does not resolve |
| `Schedules.ValidateIdempotent` | backend/app/services/schedules.py:31-76 | Validating what validation returned changes nothing |
| `Schedules.ValidateNormalizes` | backend/app/services/schedules.py:31-76 | What validation returns has the validated shape and a zone that resolves |
| `Schedules.ValidatedAlwaysAdvances` | backend/app/services/schedules.py:79-107 | A validated configuration always has a later next run |
| `Schedules.PreviewRuns` | backend/app/services/schedules.py:110-122 | As many times as asked, at least one, each the next run after the one before, strictly increasing for a validated configuration; none only when one of them cannot be computed |
| `Texts.TwoDigitsParse` | backend/app/services/schedules.py:66 | The stored `HH` and `MM` parse back to the number they came from |
| `Texts.DecimalParses` | backend/app/services/schedules.py:58-66 | The decimal text of a number is read as that number |
| `Texts.StripIsMiddle` | backend/app/services/graph.py:186-204 | Stripping takes away exactly the white space at both ends |

## Left out

- Executions.Execution.Ingest: node results and log lines are opaque texts, replaced one by one; their previews and node keys are not modelled, because they do not influence the run.
- RunQuota.LimitsHold: assumes fixed ceilings, because a ceiling changed during a run would need history state.
- Starvation.StaleRowEndsIff: the set of stale rows is fixed over the passes and no fresh row shares the stale row's queue time; with ties NearRowEnds and FarRowStarves bound it from both sides.
- RunDispatch.OneHandOneRun: assumes the engine's contract of idempotent starts and honest reports; the engine's own code is not part of this model.
- RunProtocol: a claim takes one row at a time and a worker's hand is a set; the batch size of the claim query and the order of its rows are not modelled, since no property depends on them.
- Reconciler.ExecutionTable.ReconcilePass: polls the row as it is in the table; a row object the session read earlier and holds stale is not modelled.
- GraphValidation.ValidateGraph: the brace check inside expressions is a parameter, ids, keys and names are texts or missing, and endpoints have only a node id and a port.
- GraphGuarantees.AcceptedGraphRunsFromTrigger: excludes a registry with both a blank key and a trigger named "None", which the catalogue never holds.
- RevivalLimits.RevivalStaysWithinIff: assumes that a call under an empty idempotency key is made in a transaction with nothing else to commit, as its callers do; the scheduler's tick, which makes several calls in one transaction, passes no key.
- GraphHash: numbers are a mantissa and an exponent and values are compared as decoded JSON, so Python's equality of 1 and True does not appear, and extra endpoint fields are not part of a connection.
- WorkflowGraphs.OutputPorts: a branch name that is no text is ignored, where the code uses its text form.
- Workflows.Workflow: names, descriptions, audit entries, validation caches and `activated_by` are not modelled; credential checks, the engine's dry run, concurrency and webhook authentication are yes-or-no inputs of each request.
- Workflows.Workflow.StartRun: idempotency keys are modelled in RunProtocol only.
- WorkflowSafety.RequestsKeepWorkflow: each request is one atomic step; overlapping requests are modelled for saves and publishes only, in DraftRaces.
- Workflows.Workflow.FireSchedule: one clock reading serves `last_fired_at` and the next run, and one firing is one transaction, while the loop shares one among all due schedules.
- Schedules: daylight saving and the zone database (every zone has a fixed offset), cron expressions (an opaque function that always moves on), and overflow of very long intervals.
- Texts: digits, letters and case are ASCII; Python accepts other Unicode digits and folds more letters.
- Redaction.MakePreview: the size of an encoding is a parameter, and nothing is assumed about it.
- Secrets: real cryptography; deleting and describing secrets, which are lookups.
- RateLimit: replicas and the database clock; a hit is one atomic statement and time never goes back.
- HTTP, RBAC, members, alerts, monitoring, the catalogue, credentials, migrations, the n8n compiler and the frontend: table lookups, plumbing or code behind the engine contract.
