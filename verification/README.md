# Superplane core, modelled and proved in Dafny

This project models the parts of Superplane whose behaviour is hardest to see by reading one
function: the canvas auto-layout, the guard on sub-runs, the execution state machine and run
cancellation, the provider-session protocol of agents, scoped-token permissions, role
inheritance, and several row-level state machines (bounded clean-up, folder order, work orders,
usage counters, SQL redaction). `dafny verify dfyconfig.toml` checks the whole project.

Code that changes things step by step is modelled by classes and methods with loops, each proved
against a specification function; what the code is for is then proved about that function. What an
operation does to each column, position or byte is in addition stated outright, without such functions:
on the methods where it is about one call, and in lemmas otherwise.
Database tables are maps, a transaction is one atomic step, and concurrency is a series of such
steps by any number of callers, in any order.

## What the files model

| Files | Modelled |
|---|---|
| `Reachability` | paths and closures in finite relations, used by the layout and by roles |
| `LayoutGraph`, `LayoutComponents`, `LayoutGeometry`, `Sorting`, `LayoutPlacement`, `LayoutPacking`, `AutoLayout`, `CanvasLayout`, `LayoutMeaning` | the auto-layout, from the breadth-first searches to the public entry point, and where it puts the nodes |
| `SubRuns` | the guard on sub-run creation |
| `RunExecutions`, `CanvasRuns` | executions, draining and cancelling runs, the run's result |
| `AgentSessions`, `UsageLedger` | provider sessions under concurrent callers, token usage |
| `Text`, `Scopes`, `ScopedTokens`, `Roles` | trimming and splitting, the scope language, its decision, role closure |
| `BoundedSets`, `FactoryCleanup`, `CanvasCleanup` | bounded deletion |
| `CanvasFolders`, `WorkOrders` | folder order, work-order status and its event log |
| `SqlSanitize` | the SQL literal scanner |
| `Options`, `Sequences` | optional values and sequences without repeats |

## Assumptions

- The layered-layout library with its rounding is the parameter `Engine`: any function from a list
  of edges and an orientation to integer positions whose keys are endpoints of these edges. The
  layout theorems hold for every such function.
- Node IDs need not be unique. As in the code, the last node with an ID is the one that is moved,
  and nodes with an empty ID are never moved.
- Integers are unbounded. None of the modelled code relies on wrap-around.
- New ids (rows, upstream sessions, folders) are ids that are not in use.
- Transactions run at the database's default isolation level, read committed. So what is read without a
  row lock may have changed when the same transaction writes, and the two are separate in the model
  wherever this matters: the state that passing, failing or cancelling an execution goes by, the list of
  executions that a drain works off, the folder copy that an update saves, the session that a reset checks,
  the work order that a transition goes by, the usage that a publisher reads. The three writes of a drain
  are one step.
- Creating and moving a folder hold the organization's lock from their first read to their last write, and
  lock the folders that they read (pkg/models/canvas_folder.go:262-276, 520-531). Each is one step: a save
  of an update that starts meanwhile waits for it or does the same after it.
- The ORM's `Save` writes all columns of the copy, and inserts the row when it is gone.
- Strings are sequences of Unicode characters; the SQL scanner works on bytes, so there a character
  stands for a byte. Title lengths are counted in UTF-8 bytes as in the code.

## Where the code falls short of what one might expect

Each of these is stated as an exact condition, or by a concrete history, in the files named.

- `StartInTransaction` checks the state in the caller's copy of the row. `PassInTransaction`,
  `FailInTransaction` and `CancelInTransaction` read the state without locking the row
  (pkg/models/canvas_node_execution.go:715-727) and write it whatever it has become. Executions move
  forward only, exactly when each call still finds in the row what it needs. After its run was drained, an
  execution is brought back by a start that goes by a pending copy, and events are added by a pass that
  read the row while it was open, or by `EmitOutputsInTransaction`, which reads nothing. A drained run stays
  drained exactly when there is no such call. Until then the run ends exactly when every active execution has
  been ended, by a cancel or late by a worker, and no finished one has been put back since
  (`RunExecutions`).
- A drain works off a list of executions that are not locked. It misses what is created after the list, and
  puts back to cancelling what has finished since, which the sweep of cancelling runs
  (pkg/workers/run_finalizer.go:112-135) can do at any time. Draining selects executions and queue items by workflow and
  run, `FindOpenWork` by run alone. With an up-to-date list they agree exactly when no open row carries the
  run's id with another workflow's. The schema allows such rows, but nothing was found in the code that
  would write one.
- A reset reads the session row without locking it, so it can delete a session that has started
  streaming since. It deletes a streaming session exactly when the last status written to the row that it
  read was streaming, and nobody else has deleted the row before it commits (`AgentSessions`).
- The same reset archives the upstream session that it has read, not the one that it deletes. These are the
  same exactly when no refresh or recovery has replaced it in between; otherwise the new one is lost. In
  general an upstream session that no row has any more is archived exactly when a refresh has replaced it or
  a reset has read it. Recovery and the deletion of rows do not archive.
- `provisionSession` does not clean up the upstream session when inserting the row fails. A session that
  any returned call has created is installed or cleaned up exactly when that is not what happened to it.
- `UpdateCanvasFolder` runs without a transaction: it reads the folder without a lock and saves every column
  of that copy, the sort key included. A move in between is undone by half, so that two folders have one
  key, and a folder deleted in between comes back. Folders behave as a list exactly when every save finds
  the row still there, and writes a key that no other folder has and that compares to the others' as the
  row's own does (`CanvasFolders`).
- Printing permissions as scopes and parsing them grants the same, exactly when no part of a
  permission holds a colon. Otherwise the parts are read back at other boundaries (`Scopes`).
- Default-role permissions are collected under the key `resource:action`. All granted permissions are
  returned exactly when no two of them share that key (`Roles`). That is so as long as resources have no
  colon, and rbac/rbac_org_policy.csv has none.
- `FactoryResourceCleaner` does not delete artifacts and comments, whose foreign keys restrict the
  deletion of orders and of the factory (db/structure.sql:2532-2541, 2604-2613). Clean-up completes
  exactly when no row outside the eight cleaned tables refers to the factory or a row of it.
- `UpdateStatus` works on the caller's copy, and keeps what it assigned when its transaction fails.
  The event log is one path that ends in the row, exactly when every call that changes the order is
  made on an up-to-date copy (`WorkOrders`).
- While a provider session lasts, what is published as token usage exceeds what is tracked exactly when a
  counter moves between a publisher's reading and its marking, and the snapshot exceeds what was read. Two
  publishers of different snapshots then publish what these share twice, in messages with different
  idempotency keys. When a new provider session starts between reading and marking, what is published can
  also fall short. Over all sessions it agrees at every moment exactly when each snapshot with anything to
  publish meets the counter it was compared with, or exceeds neither that one nor the present one. The
  published totals exceed the tracked one as soon as a counter grows and the total does not (`UsageLedger`).
- The SQL scanner does not know backslashes. Whatever its body, a literal is skipped up to its closing quote
  exactly when the body's quotes come in pairs, so a quote with a backslash before it in an `E''` string
  ends the literal early and shows what follows (`SqlSanitize`).
- Nor does it know placeholders: in `$1,$2,'a$1,$secret'` it takes `$1,$` for the tag of a dollar-quoted
  string, which swallows the opening quote. Behind a text every literal with doubled quotes is redacted as a
  whole, whatever it holds and whatever follows, exactly when every dollar of the text belongs to a literal
  and every literal of the text is closed in it.
- `crossWorkflowDepthForSubRun` counts changes of app. The comments at
  pkg/models/canvas_run.go:764 and :843 count one more; the code is followed.

## Model

| member | source | states |
|---|---|---|
| LayoutGraph.HasLayoutPath | pkg/layout/auto_layout.go:244-266 | the breadth-first search terminates although its queue holds duplicates, and answers reachability exactly |
| LayoutGraph.ResolveLayoutEdges | pkg/layout/auto_layout.go:205-217 | keeps the edges inside the layout, in order |
| LayoutGraph.WithinIs | pkg/layout/auto_layout.go:205-217 | each edge is kept or left out by its own ends, where it stands among the others |
| LayoutGraph.ResolveForwardLayoutEdges | pkg/layout/auto_layout.go:219-242 | the loop computes the greedy choice of forward edges |
| LayoutGraph.ForwardAcyclic | pkg/layout/auto_layout.go:219-242 | the forward edges have no directed cycle, self-loops included |
| LayoutGraph.DroppedIffClosesCycle | pkg/layout/auto_layout.go:219-242 | an edge is dropped exactly when it would close a cycle with edges kept before it |
| LayoutGraph.ForwardKeepsOrder | pkg/layout/auto_layout.go:219-242 | the forward edges are a subsequence of the edges in scope |
| LayoutGraph.ForwardKeepsConnectivity | pkg/layout/auto_layout.go:219-242 | dropping cycle-closing edges changes no undirected connection |
| LayoutComponents.ResolveDisconnectedLayoutComponents | pkg/layout/auto_layout.go:268-336 | the search returns the connected components of the layout nodes, each with its nodes once |
| LayoutComponents.ComponentsPartition | pkg/layout/auto_layout.go:268-336 | the components cover all nodes, and a node is in one only |
| LayoutComponents.SameComponentIffConnected | pkg/layout/auto_layout.go:268-336 | two nodes share a component iff an undirected path joins them |
| LayoutComponents.ComponentsOfForwardEdges | pkg/layout/auto_layout.go:219-336 | the components found with all edges are those of the forward edges |
| LayoutComponents.EveryNodeOfALargeComponentHasAForwardEdge | pkg/layout/auto_layout.go:371-389 | in a component of several nodes every node is an end of a forward edge, so it is never without edges |
| LayoutComponents.BuildFlowAdjacency | pkg/layout/auto_layout.go:716-739 | the adjacency lists hold the undirected links inside the flow, no more and no less |
| LayoutComponents.TraverseConnectedNodeSet | pkg/layout/auto_layout.go:741-768 | the traversal finds what the seeds reach |
| LayoutComponents.ResolveConnectedComponentNodeIds | pkg/layout/auto_layout.go:701-714 | the scope is what is connected to a seed, in flow order |
| LayoutComponents.SeedScopeIsUnionOfComponents | pkg/layout/auto_layout.go:701-779 | that scope is the union of the components that hold a seed |
| LayoutGeometry.LayoutPositions.MinPosition | pkg/layout/auto_layout.go:170-191 | the least X and the least Y over all positions |
| LayoutGeometry.LayoutPositions.ApplyOffset | pkg/layout/auto_layout.go:627-634 | every position moves by the offset |
| LayoutGeometry.ResolveMinPositionFromNodes | pkg/layout/auto_layout.go:596-618 | the corner of a list of nodes |
| LayoutGeometry.ResolveLayoutBounds | pkg/layout/auto_layout.go:428-471 | the bounding box of a component's node boxes |
| LayoutPlacement.ComputeAutogPositions | pkg/layout/auto_layout.go:476-594 | the engine's positions for the edges, each pair once, and a sorted column for the nodes that the engine leaves out, or for all when there are no edges; `LayoutMeaning` says where that puts each node |
| LayoutPlacement.SortedIndexIsRank | pkg/layout/auto_layout.go:476-594 | in the sorted column a node's index is the number of nodes before it, whatever the input order |
| LayoutPlacement.ComponentPositionsCover | pkg/layout/auto_layout.go:476-594 | every node of a component is placed, and no other |
| LayoutPlacement.ComponentPositionsStable | pkg/layout/auto_layout.go:476-594 | a component that stands as placed is placed in the same way again |
| LayoutMeaning.EngineEdgesAreFirsts | pkg/layout/auto_layout.go:506-515 | the engine is asked for the ends of each edge, in order, without those whose names joined by an arrow came before |
| LayoutPacking.ResolvePackedLayoutedPositions | pkg/layout/auto_layout.go:360-417 | the loop packs the components along one axis at the offsets specified |
| LayoutPacking.PackedApart | pkg/layout/auto_layout.go:360-417 | boxes of different components are at least the packing gap apart, whatever the engine answers |
| LayoutPacking.CornersInOrder | pkg/layout/auto_layout.go:338-417 | packed components have their corners in packing order |
| AutoLayout.SortComponentsByCurrentPosition | pkg/layout/auto_layout.go:338-358 | components sorted stably by their corner, along the packing axis first |
| Sorting.StableSortIsStable | pkg/layout/auto_layout.go:338-358 | elements stay in order unless the later one goes before the earlier |
| AutoLayout.PackedSortsBack | pkg/layout/auto_layout.go:338-417 | packed components sort back into the same order |
| AutoLayout.LayoutMapIdempotent | pkg/layout/auto_layout.go:78-145 | the positions computed from positions already laid out are the same |
| CanvasLayout.IndexNodes | pkg/layout/auto_layout.go:78-100 | the index points to the last node of each ID, the flow lists the IDs that are not empty |
| CanvasLayout.ResolveLayoutSeedNodeIds | pkg/layout/auto_layout.go:636-657 | the seeds in the order of their first mention, each once, or the first that is unknown |
| CanvasLayout.ApplyTo | pkg/layout/auto_layout.go:155-168 | each position goes to the last node with its ID |
| CanvasLayout.ApplyLayeredLayout | pkg/layout/auto_layout.go:78-145 | the whole pipeline computes the specified layout, with all its early exits and errors |
| CanvasLayout.LayoutIsIdempotent | pkg/layout/auto_layout.go:78-145 | laying out an already laid-out canvas changes nothing, for any graph, scope, orientation and engine |
| CanvasLayout.LayoutTouchesOnlyScopedPositions | pkg/layout/auto_layout.go:137-168 | only positions of nodes in scope change; IDs, kinds, order and nodes without ID do not |
| CanvasLayout.LayoutKeepsCorner | pkg/layout/auto_layout.go:137-145 | the laid-out nodes keep their least X and least Y |
| CanvasLayout.LayoutSeparatesComponents | pkg/layout/auto_layout.go:360-417 | laid-out nodes that no path joins are at least the packing gap apart |
| LayoutMeaning.LayoutKeepsEngineDistances | pkg/layout/auto_layout.go:476-550 | nodes that the engine places, and that a path joins, stand from each other exactly as the engine's answer to the forward edges of their component has them, whatever the engine |
| LayoutMeaning.LayoutPutsRestInColumn | pkg/layout/auto_layout.go:554-593 | a node that the engine leaves out stands in the column at X 0 of the answer, 360 below all that the engine has placed, and 360 lower for each such node before it by Y, X and name |
| LayoutMeaning.LayoutPacksComponents | pkg/layout/auto_layout.go:360-417 | the components stand in a line from the corner on: each at the corner, or 100 right of or 280 below the furthest box of another |
| LayoutMeaning.LayoutKeepsOrder | pkg/layout/auto_layout.go:338-417 | of two components the one whose corner went first, along the packing axis, then across, then by the first mention of a node in the canvas, goes first again, with the gap between all their boxes |
| LayoutMeaning.LayoutFailsIff | pkg/layout/auto_layout.go:636-695 | unknown node iff some seed is none of the canvas, and then the first of these; unsupported scope iff it is not one of the known ones; nothing is done without nodes |
| LayoutMeaning.ScopeIs | pkg/layout/auto_layout.go:659-714 | laid out is every node with an ID, or with seeds and not the whole canvas what an undirected path joins to a seed |
| SubRuns.CollectRunAncestors | pkg/models/canvas_run.go:776-806 | the ancestors up to the hop limit, or that the parent is missing or the chain too long |
| SubRuns.EntrypointInRuns | pkg/models/canvas_run.go:810-817 | some run of the chain has the same app and node |
| SubRuns.WorkflowCycleInAncestors | pkg/models/canvas_run.go:826-838 | the chain has left the app and would return to it |
| SubRuns.CrossWorkflowDepthForSubRun | pkg/models/canvas_run.go:844-861 | the number of app changes along the chain and the new run |
| SubRuns.ValidateSubRunCreation | pkg/models/canvas_run.go:721-772 | the verdict of the checks in their order |
| SubRuns.LoadingFailsIff | pkg/models/canvas_run.go:721-806 | no parent is always accepted, a parent without row is missing, and the chain is too long iff 256 parents can be followed, in any table |
| SubRuns.VerdictIs | pkg/models/canvas_run.go:721-861 | on the path of parents: the app and node are on it; else the parent is in another app and the app is on it; else it changes app at least the allowed number of times; else accepted |
| SubRuns.ShortChainIsComplete | pkg/models/canvas_run.go:776-806 | a list shorter than the hop limit is the complete chain, even over corrupted tables |
| SubRuns.AcceptedIffWellShaped | pkg/models/canvas_run.go:721-772 | below a well-shaped chain a sub-run is accepted iff the longer chain is well shaped |
| SubRuns.EveryChainIsBounded | pkg/models/canvas_run.go:721-861 | over every forest grown under the guard: one block per app, no repeated entrypoint, at most the allowed number of apps, length bounded by the entrypoints |
| RunExecutions.CallMovesForwardIff | pkg/models/canvas_node_execution.go:427-667 | a call moves no execution back, exactly when it still finds in the row what it needs |
| RunExecutions.ExecutionsMoveForwardIff | pkg/models/canvas_node_execution.go:427-667 | over every interleaving, with readings of any age: states only move forward between any two moments and a finished row is final, exactly when every call found in the row what it needs |
| RunExecutions.UpToDateCallsMoveForward | pkg/models/canvas_node_execution.go:427-667 | so they do when every call was up to date |
| RunExecutions.RowAfterCall | pkg/models/canvas_node_execution.go:427-667 | column by column: which calls complete, fail or change the state of a row, and what they write |
| RunExecutions.EventsAfterCall | pkg/models/canvas_node_execution.go:457-561 | a call adds one pending event for each output of an emit or an effective pass, and none otherwise |
| RunExecutions.ResultIsOfLastCompletion | pkg/models/canvas_node_execution.go:427-667 | over every series of calls: passed, failed or cancelled as the last call that completed the execution |
| RunExecutions.ReasonIsOfLastFailure | pkg/models/canvas_node_execution.go:570-602 | over every series of calls: reason and message of the last call that failed it |
| RunExecutions.StateIsOfLastChange | pkg/models/canvas_node_execution.go:427-667 | over every series of calls: the state that the last call that changed it wrote |
| RunExecutions.DrainingDrainsIff | pkg/models/canvas_run.go:887-942 | after draining nothing of the run can start, exactly when no open execution is missing from the list, however old it is, and no queue item is of another workflow |
| RunExecutions.UpToDateListMissesIff | pkg/models/canvas_run.go:887-1030 | an up-to-date list misses open work exactly when some of it carries another workflow's id |
| RunExecutions.DrainChanges | pkg/models/canvas_run.go:887-942 | draining sets the listed executions to cancelling, removes the queue items of the workflow and run and closes the run's events, and changes nothing else |
| RunExecutions.DrainingMovesForwardIff | pkg/models/canvas_run.go:887-913 | draining moves no execution back, exactly when none of its list has finished since |
| RunExecutions.DrainMissesLaterExecution | pkg/models/canvas_run.go:887-913 | an execution created after the list keeps the run from being drained |
| RunExecutions.DrainPutsBackFinished | pkg/models/canvas_run.go:887-913 | an execution that passes after the list is cancelling again, with its result |
| RunExecutions.DrainingAgainOnlyRequests | pkg/workers/run_finalizer.go:112-135 | another drain of a drained run is the requests for its list, however old, and nothing else |
| RunExecutions.StaysDrainedIff | pkg/models/canvas_node_execution.go:427-667 | a call leaves a drained run drained, exactly when it is neither a start or emit that goes by a pending copy, nor a pass with outputs that has read the row open, nor an emit with outputs |
| RunExecutions.DrainedThroughoutIff | pkg/models/canvas_node_execution.go:427-667 | the same over every series of calls; until then the run gets no event |
| RunExecutions.CancellationProgress | pkg/models/canvas_node_execution.go:631-667 | over every series of calls that keeps the run drained, with readings of any age, the number of active executions falls by one with each effective cancel and each late end by a worker, rises by one with each execution put back, and changes by nothing else |
| RunExecutions.ActiveUntilEnded | pkg/models/canvas_node_execution.go:631-667 | over every such series what is active is what was and has not been ended since, and what has been put back since |
| RunExecutions.UpToDateCallsOnlyCancel | pkg/models/canvas_node_execution.go:427-667 | when all calls are up to date none revives or puts back an execution, and only a cancel ends one |
| RunExecutions.CancelledRunEndsIff | pkg/models/canvas_run.go:583-667 | whatever such calls follow, with readings of any age, a cancelled run is still marked as cancelling, has got no event, and has no open work left exactly when all that was active has been ended and nothing put back since |
| RunExecutions.CancelledRunStaysDrainedIff | pkg/models/canvas_run.go:887-942 | it stays drained throughout exactly when its drain misses nothing and no call revives an execution |
| RunExecutions.CancellingIs | pkg/grpc/actions/canvases/cancel_run.go:32-61 | a finished run is left as it is, any other is drained and marked as cancelling with all else kept |
| RunExecutions.StaleCallsRevive | pkg/models/canvas_node_execution.go:427-526 | on a cancelling execution, a pass that read it open creates an event, a start from a stale copy makes the same pass up to date, and an emit creates an event in any case |
| CanvasRuns.NodeExecution.StartInTransaction | pkg/models/canvas_node_execution.go:427-441 | checks the copy and writes the row |
| CanvasRuns.NodeExecution.PassInTransaction | pkg/models/canvas_node_execution.go:457-526 | creates one event for each output and finishes, unless the row is finished or cancelling; row and copy in all cases |
| CanvasRuns.NodeExecution.EmitOutputsInTransaction | pkg/models/canvas_node_execution.go:528-561 | creates one pending event for each output whatever the state, and starts the execution if the copy is pending |
| CanvasRuns.NodeExecution.FailInTransaction | pkg/models/canvas_node_execution.go:570-602 | a pending or started row is finished as failed with reason and message, column by column, any other is left; reports whether it was |
| CanvasRuns.NodeExecution.RequestCancellation | pkg/models/canvas_node_execution.go:604-625 | sets the row to cancelling, whatever it was |
| CanvasRuns.NodeExecution.CancelInTransaction | pkg/models/canvas_node_execution.go:631-667 | finishes as cancelled, unless the row is finished |
| CanvasRuns.CancelNodeExecutions | pkg/models/canvas_node.go:726-743 | asks exactly the open executions of the list to cancel, and returns their ids |
| CanvasRuns.CanvasRun.ListOpenExecutions | pkg/models/canvas_run.go:1002-1015 | lists each open execution of the run once |
| CanvasRuns.CanvasRun.DeleteQueueItems | pkg/models/canvas_run.go:1017-1030 | deletes the run's queue items and returns them |
| CanvasRuns.CanvasRun.SupersedePendingEvents | pkg/models/canvas_run.go:915-942 | closes the run's pending events and returns them |
| CanvasRuns.CanvasRun.DrainForCancellation | pkg/models/canvas_run.go:887-913 | the three steps together drain the run as specified; asked to cancel are exactly its pending and started executions |
| CanvasRuns.CanvasRun.MarkAsCancelling | pkg/models/canvas_run.go:1032-1047 | marks the run in the copy and in the row |
| CanvasRuns.CanvasRun.CancelRun | pkg/grpc/actions/canvases/cancel_run.go:32-61 | the transaction of a cancel request: nothing for a run of another canvas or a finished one, a second drain for one that is already cancelling, otherwise drained and marked |
| CanvasRuns.CanvasRun.FindOpenWork | pkg/models/canvas_run.go:583-618 | whether a pending, started or cancelling execution, a queue item or a pending event has the run's id |
| CanvasRuns.CanvasRun.CalculateResult | pkg/models/canvas_run.go:620-667 | when the result is failed, passed or cancelled; cancelling comes first |
| CanvasRuns.CanvasRun.Finalize | pkg/workers/run_finalizer.go:440-485 | a run is finished iff it has no open work, and its row then holds the result: cancelled when cancelling, else failed with errors or a failed execution, else cancelled with a cancelled one, else passed |
| AgentSessions.SessionTable.ProviderSessionRecoveryTarget | pkg/agents/service.go:552-580 | missing, streaming, to be replaced iff it still has the stale session and for a refresh another revision, or already replaced, with the row |
| AgentSessions.SessionTable.InstallRecoveredProviderSession | pkg/agents/service.go:582-621 | compare and install: the row gets the new session, the revision and idle iff it is there, not streaming, has the stale session and for a refresh another revision; otherwise nothing changes |
| AgentSessions.SessionTable.SwapCanvasSession | pkg/agents/service.go:93-135 | refused while streaming, not created upstream, rolled back and to be cleaned up, or replaced and the old session to be retired; the rows in each case |
| AgentSessions.SessionTable.ProvisionSession | pkg/agents/service.go:162-191 | an existing session is returned, otherwise one is created upstream and inserted, or none when either fails |
| AgentSessions.EveryRunKeepsInvariant | pkg/agents/service.go:474-621 | the protocol's invariant holds over every interleaving of every number of callers |
| AgentSessions.FindTargetGoesOnIff | pkg/agents/service.go:524-580 | a refreshing or recovering call goes on to create a session iff the row can be replaced |
| AgentSessions.InstallReplacesIff | pkg/agents/service.go:540-621 | its install replaces the row of the call iff the row can still be replaced and the database does not fail; otherwise the new session is to be discarded |
| AgentSessions.RecoveryCanInstall | pkg/agents/service.go:509-621 | a history in which a recovery replaces a failed session at the same revision |
| AgentSessions.StartGoesOnIff | pkg/agents/service.go:474-515 | a refresh checks only a session of another revision that is not streaming, a recovery any |
| AgentSessions.ResetIsRefusedIff | pkg/agents/service.go:58-118 | a reset is refused exactly when the session of its key streams, at its start and again at its reading |
| AgentSessions.CommitReplaces | pkg/agents/service.go:93-144 | the commit of a reset puts a fresh row in the place of what the key has by then, and retires what was read; or leaves all rows and discards what it created |
| AgentSessions.ProvisionInserts | pkg/agents/service.go:162-191 | provisioning inserts a fresh row iff the key has none, a session is created and the insert does not fail |
| AgentSessions.OneSessionPerCanvas | pkg/agents/service.go:88-191 | never two rows for one organization, user and canvas, nor for one upstream session |
| AgentSessions.OneReplacementPerStaleSession | pkg/agents/service.go:524-621 | of all callers with the same stale session at most one installs, and never while streaming |
| AgentSessions.ArchivedIsNotCurrent | pkg/agents/service.go:524-660 | an archived or cleaned-up session is not current in any row |
| AgentSessions.EachCreatedSessionIsInstalledOrCleanedUp | pkg/agents/service.go:93-135 | when a refreshing, recovering or resetting call returns, the session that it created is installed or cleaned up, not both, whatever other calls are doing |
| AgentSessions.ProvisionInstallsIff | pkg/agents/service.go:162-191 | the session that a provisioning step creates is installed exactly when the insert does not fail, and is not cleaned up |
| AgentSessions.CreatedSessionIsKeptTrackOfIff | pkg/agents/service.go:93-191 | over every interleaving: what any returned call has created is installed or cleaned up, exactly when no provisioning step has failed to insert it |
| AgentSessions.ResetDeletesStreamingOnlyIfChanged | pkg/agents/service.go:58-135 | a reset that deletes a streaming session had read another state of it |
| AgentSessions.ResetDeletesStreamingIff | pkg/agents/service.go:88-135 | over every interleaving between a reset's reading and its commit: it deletes a streaming session exactly when the row of its key was last set to streaming and has not been deleted |
| AgentSessions.ResetCanDeleteStreaming | pkg/agents/service.go:93-135 | a history in which that happens |
| AgentSessions.SessionIsLostIff | pkg/agents/service.go:88-144 | over every interleaving: an upstream session that has been in a row and is in none is neither archived nor about to be, exactly when it was replaced by a recovery, deleted with its row, or deleted by a reset that had read another, and no refresh or reset retires it |
| AgentSessions.ResetRetiresWhatItDeletesIff | pkg/agents/service.go:93-144 | over every interleaving between a reset's reading and its commit: it retires the session that it deletes exactly when the one that it read is still in its row |
| AgentSessions.ResetCanLoseSession | pkg/agents/service.go:93-144 | a history in which a refresh in between has its new session lost |
| AgentSessions.ProvisioningCanLeak | pkg/agents/service.go:162-191 | a history in which a failed insert leaves an upstream session behind |
| Scopes.NormalizeScopedTokenValues | pkg/jwt/scoped.go:146-160 | trimmed, not blank, each value once, in order |
| Scopes.NormalizeKeepsOrder | pkg/jwt/scoped.go:146-160 | a value not mentioned before stands right behind those before it |
| Scopes.NormalizeScopedTokenPermissions | pkg/jwt/scoped.go:162-193 | the loop computes the normalized permissions |
| Scopes.NormalizedPermissionsAre | pkg/jwt/scoped.go:162-193 | these are the permissions whose type and action are not blank, trimmed, with normalized resources |
| Scopes.ScopesFromPermissions | pkg/jwt/scoped.go:195-212 | prints one scope for each grant of the normalized permissions |
| Scopes.ScopesAreWhatIsSaid | pkg/jwt/scoped.go:195-212 | a scope is printed iff some permission, trimmed and not blank, says it: type and action, and one of its resources if any is not blank |
| Scopes.PermissionsFromScopes | pkg/jwt/scoped.go:214-273 | groups the parsed scopes by type, action and whether they are global, in place; `Scopes.ParseScopeIff` says what is parsed |
| Scopes.ParseScopeIff | pkg/jwt/scoped.go:226-254 | a scope is parsed iff it is two or three parts without colons, joined by colons, none of them blank; to the trimmed parts, global iff there are two |
| Scopes.ParsePrinted | pkg/jwt/scoped.go:195-273 | a grant without colons is parsed back from its scope |
| Scopes.GroupingKeepsAuthority | pkg/jwt/scoped.go:214-273 | the parsed permissions grant exactly what single scopes of the list grant |
| Scopes.ParsePrintParse | pkg/jwt/scoped.go:195-273 | parsing, printing and parsing is parsing, for all inputs, orders included |
| Scopes.PrintThenParseIsExactIff | pkg/jwt/scoped.go:195-273 | permissions come back as they were iff they are grouped and without colons |
| Scopes.PrintingKeepsAuthorityIff | pkg/jwt/scoped.go:195-273 | printing then parsing grants what the normalized permissions grant iff these hold no colon |
| Scopes.ColonMovesAuthority | pkg/jwt/scoped.go:195-273 | how a type with a colon is read back |
| ScopedTokens.ResourceIDsFromPathParams | pkg/authorization/path_params.go:36-49 | the first path value that is not blank, if any |
| ScopedTokens.NamedResourceIff | pkg/authorization/path_params.go:36-49 | that is the value, without the spaces around it, of the first key that is in the path with a value that is not all spaces |
| ScopedTokens.HasRequiredScopedTokenPermission | pkg/authorization/scoped_token_permission.go:10-47 | permitted iff there is no scopes claim, or some single scope of two or three parts that are not blank has the resource, an allowed action, and is global or names the first non-blank path value |
| Roles.ResolveRoles | pkg/authorization/service.go:1159-1182 | the work list terminates and finds the reflexive-transitive closure of the templates, cycles included |
| Roles.GrantedIff | pkg/authorization/service.go:1159-1198 | granted is what a `p` row gives to a role to which a chain of `g` rows leads, each from the role that it is for to the one that it names; nothing else |
| Roles.GetDefaultRolePermissions | pkg/authorization/service.go:1159-1205 | one permission for each key granted in the closure, that of the last row with the key; all of them iff keys are distinct |
| Roles.InheritedPermissionsAreGranted | pkg/authorization/service.go:1159-1205 | a role is granted every permission of any role it inherits; roles that inherit each other are granted the same |
| Roles.InheritedPermissionsAreReturned | pkg/authorization/service.go:1159-1205 | what is returned for a role has every key of what is returned for a role it inherits, and every permission if the role's keys are distinct |
| Roles.ColonFreeResourcesHaveDistinctKeys | pkg/authorization/service.go:1183-1198 | without colons in resources the keys are distinct |
| Roles.SharedKeyDropsPermission | pkg/authorization/service.go:1183-1198 | of two granted permissions with one key only one is returned |
| FactoryCleanup.FactoryResourceCleaner.DeleteLimited | pkg/models/canvas_run.go:401-414 | deletes as many candidates as the limit allows, or fails and deletes none if a row that stays refers to one |
| FactoryCleanup.FactoryResourceCleaner.FactoryDomainEmpty | pkg/models/factory_resource_cleaner.go:146-161 | no execution, dispatch, order or line names the factory |
| FactoryCleanup.AllOrphans | pkg/models/factory_resource_cleaner.go:188-235 | once the referring tables are empty, every order of an unblocked factory is an orphan |
| FactoryCleanup.NotRestricted | pkg/models/factory_resource_cleaner.go:34-144 | deleting from a table breaks no reference once the tables before it are empty |
| FactoryCleanup.ChildrenAre | pkg/models/factory_resource_cleaner.go:34-186 | the rows to be deleted, by their columns: events and assignees through their order, others by the factory that they name |
| FactoryCleanup.RestrictedIff | db/structure.sql:2517-2733 | a deletion is refused iff a row that stays names a deleted factory, order, line or dispatch |
| FactoryCleanup.BlockedIff | db/structure.sql:2517-2733 | a factory is blocked iff some other row names it, or an order, line or dispatch of it |
| FactoryCleanup.FactoryResourceCleaner.Run | pkg/models/factory_resource_cleaner.go:34-144 | what a call deletes and reports: at most the limit of children, stage by stage and as much as there is, also of a blocked factory; complete iff fewer are left than the limit or the last of exactly that many are lines; it fails only when the database refuses a statement of it, for a blocked factory alone, and then deletes nothing |
| FactoryCleanup.IncompleteCall | pkg/models/factory_resource_cleaner.go:34-144 | an incomplete call deletes exactly the limit |
| FactoryCleanup.CleanupCompletesIff | pkg/models/factory_resource_cleaner.go:34-144 | floor(N / limit) + 1 calls delete a factory with N children, iff nothing else refers to it or its rows |
| FactoryCleanup.BareFactoryGoesAtOnce | pkg/models/factory_resource_cleaner.go:34-144 | a factory without anything else is deleted by the first call |
| FactoryCleanup.BlockedNeverCompletes | pkg/models/factory_resource_cleaner.go:34-144 | otherwise no call ever does |
| FactoryCleanup.ArtifactBlocks | db/structure.sql:2532-2541 | an artifact, comment or canvas of the factory is enough for that |
| CanvasCleanup.Canvas.DeleteRemainingResources | pkg/models/canvas.go:442-474 | deletes table by table within the budget; done iff fewer rows than the budget, and then all tables are empty; it fails exactly at a statement that the database refuses, with the tables before dealt with |
| CanvasFolders.OneListing | pkg/models/canvas_folder.go:63-80 | the query's order lists the rows in exactly one way |
| CanvasFolders.FolderTable.ListCanvasFolders | pkg/models/canvas_folder.go:63-80 | all rows, by key, then later creation, then greater id |
| CanvasFolders.FolderTable.CreateCanvasFolder | pkg/models/canvas_folder.go:118-154 | the new row, column by column, or the first of the checks that fails: blank title, more than 128 bytes, unknown color, title taken |
| CanvasFolders.FolderTable.ReadForUpdate | pkg/models/canvas_folder.go:192-210 | the row with the trimmed title and the color, if that is a change, without a lock; or the first check that fails |
| CanvasFolders.FolderTable.SaveFolder | pkg/models/canvas_folder.go:212-219 | every column of the copy is written, and the row inserted when it is gone, unless the title is taken |
| CanvasFolders.FolderTable.UpdateCanvasFolder | pkg/models/canvas_folder.go:192-221 | title and color changed and no other column, or the first check that fails, when nothing comes between reading and saving |
| CanvasFolders.UpdateAtOnce | pkg/models/canvas_folder.go:192-221 | so it is after any history, when the save follows right after the reading |
| CanvasFolders.ByteLengthIs | pkg/models/canvas_folder.go:495-506 | each character counts one to four bytes towards the length of a title |
| CanvasFolders.FolderTable.DeleteCanvasFolder | pkg/models/canvas_folder.go:227-242 | the row is gone, or was not found |
| CanvasFolders.FolderTable.MoveCanvasFolder | pkg/models/canvas_folder.go:262-327 | neighbours swap keys, nothing happens at the ends, and which error comes first |
| CanvasFolders.MoveUpIs | pkg/models/canvas_folder.go:262-327 | up exchanges the keys of a folder and the one listed before it, or nothing for the first |
| CanvasFolders.MoveDownIs | pkg/models/canvas_folder.go:262-327 | down exchanges them with the one listed behind it, or nothing for the last |
| CanvasFolders.MovesExchange | pkg/models/canvas_folder.go:262-327 | with distinct keys either move puts two neighbours in the other order, and leaves the rest of the list |
| CanvasFolders.DeleteTakesOut | pkg/models/canvas_folder.go:227-242 | a deletion takes the folder out of the list, and leaves the rest |
| CanvasFolders.NextSortOrder | pkg/models/canvas_folder.go:520-539 | the new key is one below the least, or 0 for the first folder |
| CanvasFolders.OpRefinesList | pkg/models/canvas_folder.go:118-335 | on rows with distinct keys creating, moving and deleting are prepend, swap and removal on the list |
| CanvasFolders.SaveKeepsListIff | pkg/models/canvas_folder.go:212-219 | a save keeps the keys distinct and the list as it is, exactly when the row exists and the key written compares to the other folders' keys as the row's own |
| CanvasFolders.OpRefinesListIff | pkg/models/canvas_folder.go:118-335 | on rows with distinct keys any operation is its counterpart on the list, exactly when it is no save with another key than that |
| CanvasFolders.FoldersAreAListIff | pkg/models/canvas_folder.go:63-335 | over every history, with any number of updates between reading and saving: keys stay distinct and the listing is the list at every moment, exactly when every save is of that kind |
| CanvasFolders.UpToDateFoldersAreAList | pkg/models/canvas_folder.go:63-335 | so they do when every save finds its row with the key that it has read |
| CanvasFolders.FoldersStayWellFormed | pkg/models/canvas_folder.go:63-335 | over every history titles stay distinct, trimmed, not blank and within the limit, and colors known |
| CanvasFolders.StaleSaveRepeatsKey | pkg/models/canvas_folder.go:192-221 | an update that saves after its folder was moved leaves two folders with one key |
| CanvasFolders.StaleSaveRestoresFolder | pkg/models/canvas_folder.go:192-221 | an update that saves after its folder was deleted brings it back |
| CanvasFolders.StaleSaveAfterHistory | pkg/models/canvas_folder.go:156-221 | any history can be continued to two folders with one key, if a folder can be moved and updated |
| CanvasFolders.SomeHistoryRepeatsKeys | pkg/models/canvas_folder.go:156-221 | a history of two folders, a move and an update that ends so |
| CanvasFolders.MoveIsUndone | pkg/models/canvas_folder.go:262-327 | a move with an effect is undone by the opposite move |
| CanvasFolders.MoveHasEffectIff | pkg/models/canvas_folder.go:262-327 | a move has an effect iff there is a neighbour with another key |
| WorkOrders.CreateWorkOrder | pkg/models/factory.go:481-545 | a draft with its first event, from nothing, unless the title is blank |
| WorkOrders.FactoryWorkOrder.UpdateStatus | pkg/models/factory_work_order.go:236-339 | which changes are made: draft opened or rejected, open order closed or without an active dispatch made a draft, closed order opened; the new row, event, copy and report in all cases |
| WorkOrders.FactoryWorkOrder.Close | pkg/models/factory_work_order.go:359-374 | nothing on a closed copy; otherwise a draft is rejected, an open order completed, rejected or failed; row, event and copy |
| WorkOrders.FactoryWorkOrder.TransitionOnDispatch | pkg/models/factory_work_order.go:378-392 | opens a draft with its event, leaves an open order, refuses others |
| WorkOrders.ApplyIsConsistentIff | pkg/models/factory_work_order.go:236-339 | a call keeps the log a path to the row iff it changed nothing or its copy was up to date |
| WorkOrders.LogIsPathIff | pkg/models/factory_work_order.go:236-392 | over every history: the events form one legal path from nothing through draft to the row, iff all calls with an effect were up to date |
| WorkOrders.UpToDateHistoryReplays | pkg/models/factory_work_order.go:39-58 | the log replays to the row, and closing a draft is a rejection |
| WorkOrders.HistoryKeepsRow | pkg/models/factory_work_order.go:236-392 | over every history: a result iff closed, and one event for the creation and for each reported change |
| WorkOrders.FailedWriteLeavesCopyAhead | pkg/models/factory_work_order.go:270-338 | a history in which a failed write leaves the copy ahead and the log gets a gap |
| UsageLedger.AgentSession.UpdateProviderSession | pkg/models/agent_session.go:185-204 | a new provider session counts from zero |
| UsageLedger.AgentSession.CalculateTokenUsageDelta | pkg/models/agent_session.go:266-276 | counter by counter what the snapshot has more; a total that has not grown is replaced by the sum of these; nothing for an uninitialized session |
| UsageLedger.AgentSession.MarkTokenUsageTracked | pkg/models/agent_session.go:278-296 | each counter and the total become the greater of the snapshot's and their own |
| UsageLedger.TrackedIsRunningMaximum | pkg/models/agent_session.go:278-296 | the tracked usage is the running maximum, in any order of snapshots |
| UsageLedger.PublishedIsTrackedIff | pkg/models/agent_session.go:266-362 | the deltas sum to final minus initial iff no counter moved between the reading and the marking of a snapshot that exceeds the reading; they never sum to less and none is negative |
| UsageLedger.OneAfterTheOtherCountsOnce | pkg/models/agent_session.go:266-362 | one publisher after the other counts nothing twice |
| UsageLedger.NothingToMark | pkg/workers/agent_stream_worker.go:571-573 | skipping the marking when there is nothing to publish changes nothing, while a provider session lasts |
| UsageLedger.TwoReadersCountTwice | pkg/workers/agent_stream_worker.go:556-583 | two publishers of different snapshots that both read before either marks publish what the snapshots share twice |
| UsageLedger.TotalsAddUpIff | pkg/models/agent_session.go:333-346 | the totals add up iff every snapshot whose counters grow also has a greater total |
| UsageLedger.PublishedOverResetsIff | pkg/workers/agent_stream_worker.go:538-585 | over every series of publishers, first snapshots of uninitialized sessions, and new provider sessions, with readings from before or after these: what is published is at every moment what all sessions have tracked, iff each snapshot with anything to publish meets the counter it was compared with, or exceeds neither that nor the present one |
| UsageLedger.ReadBeforeResetFallsShort | pkg/workers/agent_stream_worker.go:556-583 | a snapshot of the new session that was compared with the old one's usage, and exceeds it in some counter, is tracked in full but not published in the others |
| SqlSanitize.ReadSingleQuotedString | pkg/database/sql_sanitize.go:117-136 | ends within bounds, behind the closing quote, over doubled quotes |
| SqlSanitize.ReadDollarQuotedString | pkg/database/sql_sanitize.go:138-164 | ends within bounds, behind the second occurrence of the tag, if there is one |
| SqlSanitize.SanitizeSQLStatement | pkg/database/sql_sanitize.go:74-115 | the scanner terminates and computes the redaction |
| SqlSanitize.OutputPieces | pkg/database/sql_sanitize.go:74-115 | the output is made of redacted literals and of input bytes other than quotes, in order |
| SqlSanitize.LiteralIsRedacted | pkg/database/sql_sanitize.go:74-136 | every literal with doubled quotes that the scanner arrives at is redacted as a whole, whatever its body, with an E or e before it or not |
| SqlSanitize.UnclosedIsRedacted | pkg/database/sql_sanitize.go:74-136 | a literal that is never closed is redacted up to the end |
| SqlSanitize.OtherByteIsKept | pkg/database/sql_sanitize.go:74-115 | every byte is kept that is no quote, no E or e before one, and no dollar of a tag that occurs again; with the clauses for literals this determines the output |
| SqlSanitize.LiteralsAreRedactedIff | pkg/database/sql_sanitize.go:74-164 | for every text before it: whatever its body and whatever follows, a literal behind the text is redacted as a whole, iff in the text every dollar belongs to a literal and every literal is closed |
| SqlSanitize.PlaceholdersShowSecret | pkg/database/sql_sanitize.go:138-164 | two placeholders before a literal that holds the tag which they make show what the literal holds behind it |
| SqlSanitize.BodyIsSkippedIff | pkg/database/sql_sanitize.go:117-136 | for every body, escaped in any way: the scan of a literal ends behind its closing quote iff the body's quotes come in pairs, or only the last is left over and nothing follows |
| SqlSanitize.BackslashedIsSkippedIff | pkg/database/sql_sanitize.go:117-136 | a value written with backslash escapes, and followed by anything, is skipped as a whole iff it has no quote |
| SqlSanitize.EscapedQuoteEndsScan | pkg/database/sql_sanitize.go:90-136 | a first quote behind a backslash ends an `E''` string, and what follows is read as a statement |
| SqlSanitize.EscapedQuoteShowsSecret | pkg/database/sql_sanitize.go:74-136 | so a secret behind such a quote is in the output |
| SqlSanitize.DollarLiteralIsRedacted | pkg/database/sql_sanitize.go:138-164 | every dollar-quoted string is redacted as a whole, if its tag first occurs again where its body ends |
| SqlSanitize.BodyDoesNotShow | pkg/database/sql_sanitize.go:74-136 | after a beginning without dollars, another quote-free body of a literal gives the same output |
| SqlSanitize.NothingToRedact | pkg/database/sql_sanitize.go:74-115 | a statement without quotes and dollars is left as it is |

## Left out

- The layered-layout library and its rounding; only the keys of its answer are assumed.
- The choice between layout algorithms and the alternative spellings of scopes and algorithms in `ApplyLayout`.
- SQL, gorm, timestamps, JSON and UUID generation; rows are values, ids are given, a query is a set or a sorted list.
- CanvasRuns.NodeExecution.PassInTransaction: does not complete the pending node requests of the execution, which are not modelled; reads the state and writes the row in one step, which the calls of `RunExecutions` take apart.
- CanvasRuns.NodeExecution.FailInTransaction: the same.
- CanvasRuns.NodeExecution.CancelInTransaction: the same.
- CanvasRuns.CanvasRun.DrainForCancellation: lists and writes without a call in between; RunExecutions.DrainedFrom takes the two apart.
- CanvasRuns.CanvasRun.Finalize: the callbacks that a finished run triggers are not modelled.
- Queue workers, the event router and line dispatch.
- Publishing of messages.
- Lost or reordered provider calls: creating an upstream session succeeds or fails, archiving and cleaning up succeed.
- CanvasCleanup.Canvas.DeleteRemainingResources: rows that the database deletes along with others are not counted in the code either; which statements it refuses is a parameter, the foreign keys between the tables are not modelled.
- FactoryCleanup.FactoryResourceCleaner.Run: the seven equal blocks before the lines are one loop over the tables in their order.
- FactoryCleanup.FactoryResourceCleaner.DeleteLimited: which rows a limited statement picks is left open, as the database leaves it open.
- AgentSessions.SessionTable.SwapCanvasSession: reads and deletes without a step in between; the steps of the protocol take the two apart.
- AgentSessions.ResetDeletesStreamingOnlyIfChanged: one direction only, from the call's own log; AgentSessions.ResetDeletesStreamingIff is the exact condition.
- ScopedTokens.HasRequiredScopedTokenPermission: decoding the claim from JSON is a parameter.
- Scopes.NormalizeScopedTokenValues: trimming is on Unicode characters; bytes that are not UTF-8 are not modelled.
- SqlSanitize.LiteralIsRedacted: literals with doubled quotes at which the scanner arrives; SqlSanitize.BodyIsSkippedIff is the exact condition for other bodies, SqlSanitize.LiteralsAreRedactedIff that for the text before.
- CanvasFolders.FolderTable.UpdateCanvasFolder: an update that nothing disturbs; ReadForUpdate and SaveFolder take it apart.
- Redaction of statement parameters by their Go type.
- The policy enforcer behind custom roles, groups and users; only the template closure of default roles is modelled.
- Membership of canvases in folders.
- Assignees, comments, artifacts and attribution of work orders; the guard against an active line dispatch is a parameter.
- The worker that publishes token usage, apart from its reading, marking and skipping; what a consumer does with idempotency keys.
