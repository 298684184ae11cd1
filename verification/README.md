# Control Plane and Worker protocols, verified

A Dafny model of the parts of the agent runtime platform whose correctness spans several functions, two processes or whole histories, with proofs about every input, every run or every reachable state. `dafny verify dfyconfig.toml` checks all of it.

## How the model is built

- A value is a `datatype`. State that the source changes in place is a `class` whose methods are proved equal to a function of the old state. Lemmas then prove what the source promises about that function, over whole runs: what every step keeps, exactly when an operation succeeds or refuses, and what it has achieved when nothing disturbs it.
- One SQL statement or transaction is one atomic guarded step on a row or a table. Every `await` is an interleaving point. Clocks, generated identifiers, image IDs, network outcomes and answers of Docker or the gateway are parameters.
- Milliseconds, bytes and identifiers are integers. CPU averages are exact quotients of reals.

| files | subject |
|---|---|
| `Ipv4Text`, `Multiples`, `Ipv4Blocks`, `Intervals`, `EgressPolicy` | IPv4 texts, aligned blocks (prefix notation of RFC 4632, section 3.1), interval algebra, and the egress policy over the private ranges of RFC 1918, section 3 |
| `WorkspaceRows`, `WorkspaceTable` | every transition of a Workspace row, as a function and as an in-place update |
| `SetRuntime`, `RuntimeChange`, `RuntimeProtocol`, `RuntimeCoupling`, `RuntimeLife`, `RuntimeRecovery`, `RuntimeLimits` | a Runtime change: the Worker's durable steps, crashes and failures, the handler, the two-party protocol with starts, stops and deletes in the middle of changes, its invariants, recovery, and runs that show why each condition is needed |
| `Reconciliation` | the Worker's report after a reconnect and the writes the Control Plane makes of it |
| `ModelKeys`, `ModelKeyLaws`, `ModelKeyProgress`, `ModelKeyReconciliation` | virtual model keys between database, gateway and Workers |
| `AuthThrottle`, `LockEvents`, `LoginGuard` | login throttling, the lock events it reports and the address it counts |
| `ComputeActivity`, `AccessTracker`, `IdleStop` | what makes a Workspace idle, and stopping it |
| `Scheduler`, `WorkerChannel`, `ProjectIds` | placement, the command channel, quota project IDs |

## The Runtime change protocol and its conditions

The Control Plane records the intent, sends a command and then finishes, reverts or fails the change. The Worker switches its metadata, removes the container, creates the new one, looks it up and pins its image ID, and may crash or fail in between. Its commands form one FIFO queue that a crash empties. Starts, stops, deletes and reconciliations are steps of the same protocol, and the source accepts a start (from `WORKER_OFFLINE`) and a delete (from `ERROR` or `WORKER_OFFLINE`) in the middle of a change.

**Coupling.** `RuntimeProtocol.Careful` names the conditions under which the stored image and the Worker's images stay coupled (`RuntimeCoupling.CoupledOnEveryCarefulRun`). Each of them is needed: `RuntimeLimits` holds, for each, a run of the protocol's own steps with exactly one step that breaks it.

1. No settling write and no late command of a handler overtakes a later change. The rows carry no fencing token, so a delayed finish, revert, recovery or start write, change command or ensure command from before a later change is accepted (`OvertakenFinishLosesCoupling`, `OvertakenRevertLosesCoupling`, `LateRecoveryLosesCoupling`, `LateStartLosesCoupling`, `DelayedDispatchLosesCoupling`, `LateEnsureLosesCoupling`).
2. The row that a refusal would restore is not older than an interrupted change. `RuntimeRecovery.RestoreCoversIff` gives the exact condition (`StaleSnapshotLosesCoupling`).
3. A start is not accepted with an image that its handler had read before a change: the ensure command names that image, and the row the stored one (`StaleStartLosesCoupling`).
4. Creating the container never ends with a code that the Control Plane takes to mean "nothing changed". `RUNTIME_IMAGE_UNAVAILABLE`, `WORKSPACE_NOT_MANAGED` and `UNMANAGED_CONTAINER_CONFLICT` can be raised after the metadata switch (`apps/worker/src/runtime.ts:409-417`, `:1599-1627`), against the comment that such refusals guarantee nothing was changed (`apps/control-plane/src/routes/workspace-runtime.ts:16-19`). `SetRuntime.UnchangedRefusalAltersIff` says exactly when such a refusal has altered the disk; see `LateRefusalLosesCoupling` and `MovedReferenceLosesCoupling`.

Otherwise starts, stops and deletes do not disturb the coupling, whenever they are accepted.

**Recovery.** On every run, careful or not, an interrupted change passes the route guard and the store guard exactly when every start and delete accepted since a change was last begun has been followed by an accepted stop (`RuntimeRecovery.InterruptedChangePassesIff`). Hence a start strands it (`StartStrandsInterruptedChange`); a delete that the Worker refuses strands it too, and the Workspace is then neither deleted nor changed (`DeleteStrandsInterruptedChange`). That no start or delete was accepted is sufficient but not necessary: a stop after the start opens the guard again (`StopReopensInterruptedChange`).

Where the guard passes, retry and rollback also complete exactly while the container is down (`AttemptCompletesIff`), and the run itself continues, without another fault, until row, metadata and container are on the chosen image: the Worker finishes what it has in hand, serves its queue in order, and then carries out one attempt (`InterruptedChangeRecovers`, and without a premise on the container `UnturnedChangeRecovers`). These three need, besides `Careful`:

- nothing outlives the wish it belongs to (`RuntimeLife.Timely`). A delete or start command carried out after the wish was turned back leaves nothing to retry on, or has every retry refused (`LateDeleteDefeatsRetry`, `LateStartDefeatsRetry`). A stop or a stopped report that is written after a later start and stop leaves the row STOPPED with the container up (`LateStopLeavesItUp`, `LateReportLeavesItUp`), so that a change begun on that row and interrupted passes the guard and is refused by the Worker (`LateStopDefeatsRetry`); a start written after a delete and a later start leaves it RUNNING with nothing on the Worker (`LateStartWithoutWorkspace`). The guards of these writes name state and Worker only (`packages/database/src/workspace-lifecycle.ts:5-54`). Each run breaks `Timely` in one step and `Careful` in none;
- image references keep naming one image ID (`RuntimeRecovery.IsStableRun`). Where a reference moves while the metadata already names the target and is pinned to the old ID, a crash between creation and pinning leaves a container that every later attempt refuses. `SetRuntime.CrashSafeIff` is the exact condition.

## Other results that differ from what the code's comments suggest

- Throttle: on gated runs the bound for an interval no longer than window and lock is 2T - 2 failures (one for T = 1), and it is reached. A hit that no check stopped can shorten a lock in force, exactly when its window has run out and T > 1. Of the logins that pass their check only a failure from a trusted network is such a hit, because those networks are counted but not blocked by the account counter (`AuthThrottle.TrustedFailureShortensIff`); `AuthThrottle.TrustedFailureUnlocks` is a reachable run in which it unlocks the account for everybody.
- Model keys: the gateway may hold a key whose row is already `revoked`, exactly when the generate request landed after the last deletion did (`ModelKeyLaws.RevokedKeyHeldIff`). A step brings that about exactly when it is such a landing, or records a deletion that such a landing has followed (`ModelKeyLaws.OrphanedByIff`); the key is never handed out afterwards (`ModelKeyLaws.OrphanIsNeverHandedOut`).
- CPU activity: `lastActiveAt` can move back; `ComputeActivity.MovesBackIff` says exactly when.
- Idle stop: the SQL re-check sees only persisted accesses. A racing access wins, as `packages/database/src/idle.ts:62-65` describes, exactly when a write that carries it past the cutoff has landed before the stop statement (`IdleStop.RacingAccessWinsIff`); one that is still only in memory loses (`IdleStop.AccessInMemoryLoses`). A begun stop is due, as the Portal would show it at that instant, exactly when nothing in memory moved into the window since the sweep's check (`IdleStop.SweepStopsDueIff`).
- Placement: a Worker has more Workspaces than its maximum only after it declared less than it had (`Scheduler.CapacityIsNeverExceeded`, `Scheduler.KeepsCapacity`).

## Model

| member | source | states |
|---|---|---|
| Ipv4Text.ParseIpv4Address | packages/protocol/src/egress.ts:27-38 | the octet loop accepts a text exactly when it splits into four strict octets, and computes their value |
| Ipv4Text.ParseOfFormattedAddress | packages/protocol/src/egress.ts:27-42 | parsing undoes formatting on every 32-bit address |
| Ipv4Text.FormatOfParsedAddress | packages/protocol/src/egress.ts:27-42 | every accepted text is the canonical text of its address |
| Ipv4Text.AddressOfOctets | packages/protocol/src/egress.ts:27-42 | the first octet is the most significant one, on every four octets |
| Ipv4Text.ParseOfFormattedCidr | packages/protocol/src/egress.ts:52-66 | parsing undoes formatting on every aligned block |
| Ipv4Text.FormatOfParsedCidr | packages/protocol/src/egress.ts:52-66 | formatting an accepted text gives it back, with the /32 a bare address stands for |
| Ipv4Text.AcceptedTextIff | packages/protocol/src/egress.ts:52-66 | a text is accepted as a block exactly when it is the block's canonical text, or a bare address and the block is its /32 |
| Ipv4Text.CanonicalIsIdempotent | packages/protocol/src/egress.ts:69-72 | a canonical text is its own canonical form and names the same block |
| Ipv4Blocks.IntervalToCidrs | packages/protocol/src/egress.ts:101-117 | the nested loops give aligned, ascending, disjoint blocks whose union is exactly the interval, at most 62 within 32 bits, and no list of aligned blocks with that union is shorter |
| Ipv4Blocks.GreedyIsShortest | packages/protocol/src/egress.ts:100-117 | a greedy tiling is no longer than any list of aligned blocks with the same union |
| Ipv4Blocks.GreedyAtMost62 | packages/protocol/src/egress.ts:100-117 | a greedy tiling inside the IPv4 space has at most 62 blocks |
| Ipv4Blocks.SplitOfBlock | packages/protocol/src/egress.ts:74-117 | splitting the interval of a block gives that single block |
| Intervals.MergeIntervals | packages/protocol/src/egress.ts:86-98 | the in-place merge loop computes the canonical merge of its input |
| Intervals.MergeKeepsAddresses | packages/protocol/src/egress.ts:85-98 | merging neither adds nor loses an address |
| Intervals.MergeSeparates | packages/protocol/src/egress.ts:85-98 | the result is sorted, and between two intervals there is a gap |
| Intervals.SeparatedIsUnique | packages/protocol/src/egress.ts:85-98 | only one separated list covers a given set of addresses |
| Intervals.MergeIsCanonical | packages/protocol/src/egress.ts:85-98 | two inputs merge to the same list exactly when they cover the same addresses |
| Intervals.CoveredIffEveryAddressIs | packages/protocol/src/egress.ts:119-127 | the coverage check holds exactly when every address of the inner interval is in the union of the outer ones |
| Intervals.OverlapIffSharedAddress | packages/protocol/src/egress.ts:129-131 | two intervals overlap exactly when they share an address |
| EgressPolicy.ValidateEgressRules | apps/control-plane/src/egress.ts:59-80 | the validation loop returns the first refusal in rule order, or none |
| EgressPolicy.AcceptedIff | apps/control-plane/src/egress.ts:53-80 | a rule set is accepted exactly when it is within the limits, every allowed address is otherwise denied and no allowed address is protected |
| EgressPolicy.RefusedIff | apps/control-plane/src/egress.ts:59-80 | a set is refused for its size, or for its first bad allow rule: outside the denied addresses, or else overlapping a protected one |
| EgressPolicy.DefaultDenyTexts | packages/protocol/src/egress.ts:4-8 | the default ranges are the blocks of the texts 10.0.0.0/8, 172.16.0.0/12 and 192.168.0.0/16 |
| EgressPolicy.EgressStore.CreateEgressRule | packages/database/src/egress.ts:188-250 | the transaction refuses a duplicate or an invalid set and changes nothing, or appends exactly the requested rule under the returned ID and raises the revision |
| EgressPolicy.CreateIff | packages/database/src/egress.ts:188-250 | a rule is created exactly when no stored one has the same fields and the set with it passes; a duplicate and a rejection have exactly the other conditions |
| EgressPolicy.EgressStore.DeleteEgressRule | packages/database/src/egress.ts:252-275 | the transaction removes the rule and raises the revision, or changes nothing |
| EgressPolicy.DeleteIff | packages/database/src/egress.ts:252-275 | a deletion takes away the rule of that ID and no other, exactly when there is one and the rest passes |
| EgressPolicy.CommitsAreAccepted | packages/database/src/egress.ts:222-269 | whatever is committed was accepted as a whole set |
| EgressPolicy.EveryRunKeepsPolicy | packages/database/src/egress.ts:188-275 | after any sequence of creations and deletions the stored allow rules open only denied addresses, identifiers and entries are unique, and the revision counts the committed changes |
| EgressPolicy.StoredIff | packages/database/src/egress.ts:188-275 | after any sequence of requests a rule is stored exactly when it was created under its ID and not deleted since |
| EgressPolicy.WorkersOpenOnlyDenied | apps/control-plane/src/egress.ts:82-100 | every address a Worker is told to open is in a default or stored deny range |
| EgressPolicy.WorkersReceiveIff | apps/control-plane/src/egress.ts:82-100 | a Worker receives exactly the networks of the stored rules, by action, with their revision |
| WorkspaceRows.EveryRunAgrees | packages/database/src/workspace-lifecycle.ts:5-114 | on every run of all transitions STARTING and RUNNING mean to run, STOPPING, STOPPED and UPGRADING to stop, DELETING to delete, UPGRADING has a previous image and no completion time, and a Worker is assigned exactly outside CREATED |
| WorkspaceRows.AcceptedIff | packages/database/src/workspace-lifecycle.ts:5-114 | the state chart of all updates: each is accepted exactly where the chart has a move for it, from the row's own Worker and with what it asks, and leads to the chart's state, wish and images |
| WorkspaceRows.TableAgrees | packages/database/src/workspace-lifecycle.ts:5-114 | every transition of every row keeps that agreement for the whole table; each method of the in-place table keeps it too, under what its caller obliges itself to |
| WorkspaceRows.AssignmentIsForever | packages/database/src/scheduling.ts:270-281 | a row keeps its Worker from the moment it gets one |
| WorkspaceTable.Perform | packages/database/src/workspace-lifecycle.ts:5-114 | every repository method, dispatched by the transition it stands for, does to the table in place what that transition does, and keeps the agreement of states and wishes |
| WorkspaceTable.RemovedOnlyWhenWanted | packages/database/src/workspace-lifecycle.ts:84-98 | over every run of those calls a Workspace disappears only when it is meant to be deleted, and is being deleted or unreachable, or when it never had a Worker |
| WorkspaceTable.AddedIff | packages/database/src/workspaces.ts:28-54 | a row appears exactly by a creation, without a Worker, meant to be stopped and on its only image |
| WorkspaceTable.OthersStay | packages/database/src/workspace-lifecycle.ts:5-114 | a call changes no row but the assigned one it names, or those of the Worker it is about |
| WorkspaceTable.RemovedIff | packages/database/src/workspace-lifecycle.ts:84-98 | a call removes a row exactly when it confirms its deletion, finds it gone from an offline Worker with the wish to delete, or drops one that never had a Worker |
| WorkspaceTable.WorkspaceTable.ScheduleWorkspaceStart | packages/database/src/scheduling.ts:221-295 | starts a startable row on its own Worker or the selected one, and nothing else |
| WorkspaceTable.WorkspaceTable.BeginWorkspaceDelete | packages/database/src/workspace-lifecycle.ts:56-82 | moves a row outside every transient state to DELETING |
| WorkspaceTable.WorkspaceTable.MarkWorkspaceRuntimeFailure | packages/database/src/workspace-lifecycle.ts:100-114 | turns a transient state into ERROR or WORKER_OFFLINE |
| WorkspaceTable.WorkspaceTable.BeginWorkspaceRuntimeChange | packages/database/src/runtime-changes.ts:22-52 | records the intent from STOPPED on the source image or from an interrupted change of exactly that pair |
| WorkspaceTable.WorkspaceTable.FinishWorkspaceRuntimeChange | packages/database/src/runtime-changes.ts:73-91 | completes a change whose target is still the stored image |
| WorkspaceTable.WorkspaceTable.RevertWorkspaceRuntimeChange | packages/database/src/runtime-changes.ts:105-126 | puts back image, previous image, completion time and state as read before |
| WorkspaceTable.WorkspaceTable.BeginWorkerReconciliation | packages/database/src/recovery.ts:46-64 | marks every row of the Worker offline and returns them |
| WorkspaceTable.WorkspaceTable.ReconcileWorkspaceRecovery | packages/database/src/recovery.ts:66-101 | settles an offline row only under the image and wish that were read, completing an interrupted change on an observed state |
| WorkspaceTable.WorkspaceTable.DeleteRecoveredWorkspace | packages/database/src/recovery.ts:103-120 | removes an offline row only under the image that was read and the wish to delete |
| SetRuntime.WorkspaceRuntime.SetRuntime | apps/worker/src/runtime.ts:517-593 | the statement sequence, cut by a crash after any number of durable steps or failed at a first check, removal, creation, lookup, removal of a moved image or verification, leaves the disk and gives the answer of the attempt it specifies |
| SetRuntime.WorkspaceRuntime.CreateContainer | apps/worker/src/runtime.ts:349-424 | creation, lookup, comparison of the image ID and pinning: what each failure leaves of container and pin |
| SetRuntime.WorkspaceRuntime.Delete | apps/worker/src/runtime.ts:615-672 | deletes container and directory unless the container is not the one the metadata and its pin name, cut by a crash between the two |
| SetRuntime.AnswerIff | apps/worker/src/runtime.ts:517-593 | without a failure each answer of an attempt has its exact condition on the offer, the metadata and the container, and leaves exactly this disk |
| SetRuntime.HaltIff | apps/worker/src/runtime.ts:349-593 | what each crash and each failure of an attempt past its checks leaves of metadata, pin and container, and what is answered |
| SetRuntime.DeletedIff | apps/worker/src/runtime.ts:615-672 | a delete removes container and directory exactly when the container, if any, is the one the metadata and its pin name, and otherwise refuses and changes nothing |
| SetRuntime.RetriesComplete | apps/worker/src/runtime.ts:511-593 | after any number of attempts, each crashed or failed anywhere, one more attempt completes with metadata and container on the target |
| SetRuntime.CrashSafeIff | apps/worker/src/runtime.ts:517-593 | an attempt that goes through also goes through after every history of crashes and failures exactly when no stale pin and no third container can outlive it |
| SetRuntime.UnchangedRefusalAltersIff | apps/worker/src/runtime.ts:404-424 | a refusal that counts as "unchanged" has altered the disk exactly when the checks had passed and the metadata was not on the target, or another pin or container is left; past the checks it comes from a moved reference, the lookup or the verification |
| RuntimeChange.Change | apps/control-plane/src/routes/workspace-runtime.ts:55-144 | the handler over the in-place table and the in-place Worker: each check, the intent, the command and the one follow-up write its outcome asks for, and the whole table keeps its agreement of states and wishes |
| RuntimeChange.RefusalIff | apps/control-plane/src/routes/workspace-runtime.ts:61-106 | the handler begins the change exactly when the row is stopped or an interrupted change, has a Worker, the target is offered and another image than the source, the Worker is connected and the row still allows it; each refusal has its own exact condition and touches nothing |
| RuntimeChange.EndIff | apps/control-plane/src/routes/workspace-runtime.ts:107-143 | a begun change ends finished exactly when the Worker's success arrives, reverted exactly when one of the six unchanged-refusals arrives and unfinished otherwise, with exactly these columns and no other row touched |
| RuntimeChange.UndisturbedChange | apps/control-plane/src/routes/workspace-runtime.ts:55-144 | alone, a coupled change that may begin ends finished on both sides, refused with the row as before and the disk as before exactly unless it was refused late, interrupted with only its two images on the Worker, or turned down exactly for a third image |
| RuntimeCoupling.KeepsInvariant | packages/database/src/runtime-changes.ts:31-126 | every careful step of handlers, Worker, crashes, timeouts, starts, stops, deletes and reconciliations keeps the protocol invariant |
| RuntimeCoupling.CoupledOnEveryCarefulRun | apps/worker/src/runtime.ts:517-593 | on every careful interleaving a Worker that has the Workspace holds only the stored image outside a change and only the pair during one, and no container is stranded from a third image |
| RuntimeLife.KeepsLife | apps/control-plane/src/routes/workspaces.ts:188-424 | every careful and timely step, the writes of start, stop and reconciliation handlers included, keeps what ties the row to the Worker having the Workspace and its container being up |
| RuntimeLife.LifeOnTimelyRuns | apps/control-plane/src/routes/workspaces.ts:188-540 | on every careful and timely run a stopped row has its container down, and the Workspace is missing on the Worker only while it is to be deleted, or to run and not running |
| RuntimeRecovery.InterruptedChangePassesIff | packages/database/src/runtime-changes.ts:31-52 | on every run, careful or not, an interrupted change passes route and store guard, for retry and for rollback, exactly when every start and delete accepted since a change was last begun was followed by an accepted stop |
| RuntimeRecovery.WishSince | packages/database/src/workspace-lifecycle.ts:20-82 | since a change was begun the wish is to be stopped exactly when every accepted start and delete was followed by an accepted stop |
| RuntimeRecovery.Drain | apps/worker/src/runtime.ts:517-593 | from every state on a stable run with the wish to be stopped and the container down, the Worker comes to rest without a fault, by finishing its command and serving its queue in order, with the row as before and the container down |
| RuntimeRecovery.InterruptedChangeRecovers | apps/control-plane/src/routes/workspace-runtime.ts:55-144 | from every interrupted change that a stable run reaches with the wish to be stopped and the container down, whatever the Worker has in hand and queued, the same run continues without a fault, for retry and for rollback, until row, metadata and container are on the chosen image |
| RuntimeRecovery.UnturnedChangeRecovers | apps/control-plane/src/routes/workspace-runtime.ts:55-144 | so does the run of every interrupted change begun on a stopped Workspace, unless a start or delete was accepted since it began |
| RuntimeRecovery.AttemptCompletesIff | apps/worker/src/runtime.ts:528-560 | on every stable run, while the wish is to be stopped, an attempt at the interrupted change completes exactly when the container is down |
| RuntimeRecovery.PinsOnStableRuns | apps/worker/src/runtime.ts:404-424 | while references keep their image IDs, pins and containers agree with them on every careful and timely run |
| RuntimeRecovery.ChangeGuardIff | packages/database/src/runtime-changes.ts:39-51 | retry and rollback pass the store guard exactly while the wish is to be stopped |
| RuntimeRecovery.RestoreCoversIff | apps/control-plane/src/routes/workspace-runtime.ts:87-93 | the row a refusal restores covers whatever the Worker may hold exactly when the snapshot is not stale |
| RuntimeLimits.StaleSnapshotLosesCoupling | apps/control-plane/src/routes/workspace-runtime.ts:87-132 | a run whose only careless step is a begin on a stale snapshot ends stopped and uncoupled |
| RuntimeLimits.LateRefusalLosesCoupling | apps/worker/src/runtime.ts:1618-1627 | a run in which creation ends with an "unchanged" code ends stopped and uncoupled |
| RuntimeLimits.MovedReferenceLosesCoupling | apps/worker/src/runtime.ts:410-417 | a run in which the reference moves during creation ends stopped and uncoupled |
| RuntimeLimits.OvertakenRevertLosesCoupling | packages/database/src/runtime-changes.ts:105-126 | a revert overtaken by a later change ends stopped and uncoupled |
| RuntimeLimits.OvertakenFinishLosesCoupling | packages/database/src/runtime-changes.ts:73-91 | a finish overtaken by two later changes ends stopped on an image the Worker no longer has |
| RuntimeLimits.LateRecoveryLosesCoupling | packages/database/src/recovery.ts:66-101 | a recovery write overtaken by two later changes ends stopped and uncoupled |
| RuntimeLimits.DelayedDispatchLosesCoupling | apps/control-plane/src/routes/workspace-runtime.ts:107-112 | a command dispatched after its change ended switches a stopped Workspace |
| RuntimeLimits.StaleStartLosesCoupling | apps/control-plane/src/routes/workspaces.ts:201-297 | a start whose handler read the row before a change is accepted in the middle of it and ends running and uncoupled |
| RuntimeLimits.LateStartLosesCoupling | packages/database/src/workspace-lifecycle.ts:5-18 | a start recorded after a later change began ends running and uncoupled |
| RuntimeLimits.LateEnsureLosesCoupling | apps/control-plane/src/routes/workspaces.ts:285-295 | an ensure command of an earlier start brings a deleted Workspace back on an image that is no longer the stored one |
| RuntimeLimits.StartStrandsInterruptedChange | packages/database/src/scheduling.ts:221-276 | a careful run with a start from WORKER_OFFLINE in the middle of a change, after which no begin passes the store guard |
| RuntimeLimits.DeleteStrandsInterruptedChange | packages/database/src/workspace-lifecycle.ts:56-82 | a careful run with a delete in the middle of a change that the Worker refuses for the old container, after which no begin passes the store guard |
| RuntimeLimits.StopReopensInterruptedChange | packages/database/src/workspace-lifecycle.ts:20-39 | a careful run with a start and then a stop in the middle of a change, after which retry and rollback pass the store guard again and the Worker refuses them while the container is up |
| RuntimeLimits.LateDeleteDefeatsRetry | apps/worker/src/runtime.ts:615-672 | a run whose only untimely step is a delete carried out after its wish was turned back leaves an interrupted change nothing to retry on |
| RuntimeLimits.LateStartDefeatsRetry | apps/control-plane/src/routes/workspaces.ts:313-319 | a run whose only untimely step is a start carried out after its wish was turned back has every retry refused |
| RuntimeLimits.LateStopLeavesItUp | packages/database/src/workspace-lifecycle.ts:41-54 | a run whose only untimely step is a stop written after a later start and stop ends STOPPED with the container up |
| RuntimeLimits.LateStopDefeatsRetry | packages/database/src/workspace-lifecycle.ts:41-54 | continued with a change begun on that row and interrupted, both store guards are open and the Worker refuses retry and rollback |
| RuntimeLimits.LateReportLeavesItUp | packages/database/src/recovery.ts:66-101 | a run whose only untimely step is a stopped report written after a start, a stop and a disconnect ends STOPPED with the container up |
| RuntimeLimits.LateStartWithoutWorkspace | packages/database/src/workspace-lifecycle.ts:5-18 | a run whose only untimely step is a start written after a delete and a later start ends RUNNING with nothing on the Worker |
| Reconciliation.Reconcile | apps/worker/src/runtime.ts:751-923 | one result per assignment in order, MISSING exactly when no container, network or directory names it; the issues are exactly those of the inventory, and the report fails exactly when the inventory cannot be listed or has too many of them |
| Reconciliation.IssueIff | apps/worker/src/runtime.ts:786-867 | a platform container or network is an issue unless all Workspaces it names are assigned, the issue names one that is not, and it is an orphan of this Worker exactly when name, labels and owner agree, foreign exactly when it names another owner |
| Reconciliation.IssuesAt | apps/worker/src/runtime.ts:786-867 | every resource that is an issue is reported, in order |
| Reconciliation.IssuesFrom | apps/worker/src/runtime.ts:786-867 | every reported issue is that of a resource |
| Reconciliation.ReconcileWorkerWorkspaces | apps/control-plane/src/runtime-commands.ts:162-263 | the recovery loop writes nothing on a report that does not answer every row, and otherwise the writes of each row until the Worker disconnects |
| Reconciliation.WrittenIff | apps/control-plane/src/runtime-commands.ts:216-262 | for the Worker's own report exactly this is written for a row: removal when nothing names it and it is to be deleted, RUNNING or STOPPED when the container was found so and the wish agrees or is unknown, nothing while the Worker cannot tell, ERROR otherwise |
| Reconciliation.WritesAreJustified | apps/control-plane/src/runtime-commands.ts:216-262 | however far the loop gets, every write is for a listed row under its recorded image, and justified as above |
| Reconciliation.EveryRowIsAnswered | apps/control-plane/src/runtime-commands.ts:216-262 | a row is settled or removed exactly when its result may not be retried |
| Reconciliation.HonestAnswers | apps/worker/src/runtime.ts:886-921 | the Worker's own report always answers every assignment |
| ModelKeys.KeepsInvariant | packages/database/src/model-keys.ts:109-270 | every step of issue, activation, delivery, disable, delete, expiry, retry and Worker restart keeps the invariant |
| ModelKeyProgress.StatusMovesIff | packages/database/src/model-keys.ts:109-270 | a key becomes issuing exactly by the insert of its free alias, active exactly by an activation of an issuing row, revoking exactly by a step that gives up a live key, and revoked exactly by a recorded deletion |
| ModelKeyProgress.SpacesMoveIff | packages/database/src/model-keys.ts:109-143 | exactly what enables and disables users, and creates, assigns, deletes and removes Workspaces |
| ModelKeyProgress.NextIsUnique | packages/database/src/model-keys.ts:150-155 | the next alias of a Workspace is one and only one, and free |
| ModelKeyProgress.UndisturbedIssue | apps/control-plane/src/model-gateway/key-manager.ts:152-202 | from every reachable state in which a Workspace may have a key and has none, an undisturbed issue ends with a new alias active, held by the gateway, and stored and served by the Worker |
| ModelKeyProgress.UndisturbedRevocation | apps/control-plane/src/model-gateway/key-manager.ts:303-320 | from every reachable state an undisturbed revocation ends with the key revoked, gone from the gateway and not served, and nothing else changed |
| ModelKeyLaws.UsableKeyIsActiveOrRevoking | apps/control-plane/src/model-gateway/key-manager.ts:152-202 | on every run a key that a Worker serves and the gateway accepts has a row that is active or revoking |
| ModelKeyLaws.LiveKeyIsEntitled | packages/database/src/model-keys.ts:104-182 | a live row belongs to an enabled user and a Workspace not being deleted, and is the only live one there |
| ModelKeyLaws.DisabledUserIsCutOff | packages/database/migrations/0012_model_gateway.sql:86-99 | once a disabled user's pending deletions are confirmed, no Worker serves a key of that user that the gateway accepts |
| ModelKeyLaws.AliasIsForever | packages/database/src/model-keys.ts:150-163 | an alias stays with its user and its status only moves forward, so it is never reused |
| ModelKeyLaws.AliasIsRequestedOnce | apps/control-plane/src/model-gateway/key-manager.ts:166-181 | the gateway is asked for each alias at most once |
| ModelKeyLaws.GatewayHoldsIff | apps/control-plane/src/model-gateway/key-manager.ts:304-320 | on every run the gateway holds a key exactly when its request landed after its last deletion did, and a deletion is confirmed exactly when one has landed |
| ModelKeyLaws.RevokedKeyHeldIff | apps/control-plane/src/model-gateway/key-manager.ts:182-187 | behind a revoked row the gateway holds the key exactly when the request landed after the last deletion, of which there is one |
| ModelKeyLaws.OrphanedByIff | apps/control-plane/src/model-gateway/key-manager.ts:182-187 | a step leaves a key in the gateway behind a revoked row exactly when the request lands behind one, or a deletion is recorded although the request has landed since |
| ModelKeyLaws.OrphanIsNeverHandedOut | apps/control-plane/src/model-gateway/key-manager.ts:152-202 | such a key is never served by a Worker or on its way to one afterwards |
| ModelKeyLaws.UndeliveredKeyOutlivesItsRow | apps/control-plane/src/model-gateway/key-manager.ts:182-187 | a run that ends with a key in the gateway behind a revoked row |
| ModelKeyReconciliation.ReconcileWorker | apps/control-plane/src/model-gateway/key-manager.ts:255-272 | the loops select exactly the unexpected holdings and exactly the active keys that are not held |
| ModelKeyReconciliation.ReconciliationAgrees | apps/control-plane/src/model-gateway/key-manager.ts:251-272 | undisturbed, the Worker afterwards holds exactly the keys that stay active |
| AuthThrottle.Throttle.Upsert | packages/database/src/auth-throttle.ts:124-160 | the CASE expressions under SQL's three-valued logic compute exactly the counter transition |
| AuthThrottle.Throttle.RecordAuthThrottleHits | packages/database/src/auth-throttle.ts:113-182 | the loop records every hit in order and reports exactly the scopes that reach their threshold |
| LockEvents.ReportedIffThreshold | packages/database/src/auth-throttle.ts:108-182 | over any sequence of recordings, concurrent hits included, the reported events are exactly those of the hits that are the T-th of an episode of their own counter, in order and under its scope |
| LockEvents.OnePerEpisode | packages/database/src/auth-throttle.ts:108-178 | an episode has exactly one such hit when it reaches the threshold, and none otherwise |
| AuthThrottle.FailureCounts | apps/control-plane/src/login-guard.ts:133-151 | a failed login counts on its three counters, each under its own policy, and on no other |
| AuthThrottle.Throttle.LocalLogin | apps/control-plane/src/routes/auth-local.ts:36-145 | a locked attempt changes nothing, a request that does not parse is checked and counted by its address alone, a failure counts on its three counters, a session that cannot be created counts nothing, a success forgets one counter |
| AuthThrottle.Throttle.DeleteExpiredAuthThrottle | packages/database/src/auth-throttle.ts:271-280 | removes exactly the counters whose window and lock are over |
| AuthThrottle.LatestLock | packages/database/src/auth-throttle.ts:94-106 | none exactly when no given counter is locked, otherwise the latest of their lock ends |
| AuthThrottle.GatedIntervalBound | packages/database/src/auth-throttle.ts:49-67 | on a gated run no half-open interval within window and lock has more than 2T - 2 counted failures |
| AuthThrottle.GatedIntervalBoundIsReached | packages/database/src/auth-throttle.ts:49-67 | some gated run has that many |
| AuthThrottle.LockHolds | packages/database/src/auth-throttle.ts:49-67 | on a gated run nothing is counted before a lock ends, so it is never shortened |
| AuthThrottle.LockShortenedIff | packages/database/src/auth-throttle.ts:54-65 | an ungated hit shortens a lock in force exactly when the window has run out and T > 1 |
| AuthThrottle.FailureIsGatedIff | apps/control-plane/src/login-guard.ts:117-151 | the counters a failed login bumps were found unlocked, except the account counter from a trusted network |
| AuthThrottle.TrustedFailureShortensIff | apps/control-plane/src/login-guard.ts:117-151 | of the logins that pass their check only one from a trusted network meets a lock of its account, and its failure shortens that lock exactly when the window has run out and T > 1 |
| AuthThrottle.TrustedFailureUnlocks | packages/database/src/auth-throttle.ts:54-65 | a run from no counters: T failures that passed their checks lock the account, and one more from a trusted network unlocks it at the end of the window |
| AuthThrottle.OneEventPerEpisode | packages/database/src/auth-throttle.ts:108-178 | one lock event per counting episode that reaches the threshold, at exactly that hit |
| AuthThrottle.MaxWindowMs | apps/control-plane/src/login-guard.ts:196-199 | bounds every window and is one of them |
| AuthThrottle.CleanupIsInvisible | packages/database/src/auth-throttle.ts:270-280 | deleting expired counters at arbitrary times changes no later counter, lock decision or event |
| LoginGuard.ResolveClientAddress | apps/control-plane/src/login-guard.ts:73-91 | the backward loop computes the walk from the peer over the hops |
| LoginGuard.ResolvedIff | apps/control-plane/src/login-guard.ts:73-91 | the counted address is that at the only position behind which everything is trusted and from which the walk cannot go on |
| LoginGuard.ForgedHopsAreIgnored | apps/control-plane/src/login-guard.ts:68-91 | whatever an untrusted client puts before its own hop, it is counted under its own address |
| ComputeActivity.ComputeActivityTracker.Record | apps/control-plane/src/idle/compute-activity.ts:38-58 | the loop over a heartbeat's samples computes the recorded states |
| ComputeActivity.ComputeActivityTracker.ForgetWorker | apps/control-plane/src/idle/compute-activity.ts:61-65 | removes exactly the states of that Worker |
| ComputeActivity.MapEntryIsAfter | apps/control-plane/src/idle/compute-activity.ts:38-65 | after any history of heartbeats and forgets the map's entry of a Workspace is the state of that Workspace's own events |
| ComputeActivity.StateDescribesTrail | apps/control-plane/src/idle/compute-activity.ts:38-58 | for every sample stream activeAt <= bucketStart.at <= last.at, the open bucket is under five minutes, and from activeAt to bucketStart there is no gap or drop and the CPU used is below the threshold |
| ComputeActivity.TrailIsSampled | apps/control-plane/src/idle/compute-activity.ts:38-58 | every point that description speaks of is a sample of the Workspace's own Worker |
| ComputeActivity.IdleVerdict | apps/control-plane/src/idle/compute-activity.ts:68-78 | an idle verdict means a real average below the threshold from at or before the cutoff to within two minutes of now |
| ComputeActivity.QuietIsIdle | apps/control-plane/src/idle/compute-activity.ts:38-78 | conversely, samples without gap or drop and below the threshold from each to the next are idle since the first, until the last is older than a gap |
| ComputeActivity.MovesBackIff | apps/control-plane/src/idle/compute-activity.ts:68-78 | the last activity moves back over one more sample exactly when the open bucket counted as active, the sample continues it without gap or drop, and the average up to the sample is below the threshold |
| ComputeActivity.LastActivityMovesBack | apps/control-plane/src/idle/compute-activity.ts:68-78 | a stream on which it does |
| AccessTracker.WorkspaceAccessTracker.Touch | apps/control-plane/src/idle/access-tracker.ts:24-39 | the in-place update of the latest access and the pending flag |
| AccessTracker.WorkspaceAccessTracker.FlushUntilWrite | apps/control-plane/src/idle/access-tracker.ts:47-55 | takes exactly the pending accesses and marks them not pending |
| AccessTracker.WorkspaceAccessTracker.FlushAfterWrite | apps/control-plane/src/idle/access-tracker.ts:56-68 | records what was written, or makes it pending again |
| AccessTracker.TouchIff | apps/control-plane/src/idle/access-tracker.ts:24-39 | an access asks for a write exactly when it ends a connection, or none was made within the last minute |
| AccessTracker.UndisturbedFlush | apps/control-plane/src/idle/access-tracker.ts:47-68 | an undisturbed flush writes exactly the pending accesses, and afterwards nothing is pending |
| AccessTracker.AccessIsAtMostAMinuteBehind | apps/control-plane/src/idle/access-tracker.ts:10-69 | under every interleaving a Workspace is pending, or a flush under way or the newest write is less than a minute behind its latest access |
| AccessTracker.EndedConnectionIsNotDropped | apps/control-plane/src/idle/access-tracker.ts:32-38 | an access that ends a connection stays pending, under way, or is written |
| AccessTracker.AtRestTheDatabaseKnows | packages/database/src/idle.ts:20-34 | with nothing pending or under way the stored access is less than a minute behind |
| AccessTracker.StoredNeverMovesBack | packages/database/src/idle.ts:21-34 | whatever the order of overlapping writes, the stored access never moves back |
| IdleStop.StopAtIff | apps/control-plane/src/idle/idle-status.ts:29-44 | the Portal's instant has come exactly when start-up guard, candidate query, memory check and stop statement all agree |
| IdleStop.Sweep | apps/control-plane/src/idle/idle-stopper.ts:67-106 | the loop begins the stops of the specified sweep and counts them |
| IdleStop.SweepCounts | apps/control-plane/src/idle/idle-stopper.ts:67-106 | the sweep handles the candidates up to the tenth successful stop; it begins the stops that pass both checks in order, and counts the successful ones and those refused by the stop statement |
| IdleStop.SweepStopsDueIff | apps/control-plane/src/idle/idle-stopper.ts:67-106 | for every sweep a begun stop is due at its statement, as the Portal would show it, exactly when nothing in memory moved into the window since the check; at most ten succeed, and below that limit exactly the candidates that pass both checks are begun |
| IdleStop.StoredPastIff | packages/database/src/idle.ts:20-34 | on every run of the access tracker the stored access is past a time exactly when some write past that time has landed |
| IdleStop.RacingAccessWinsIff | packages/database/src/idle.ts:61-86 | a racing access keeps the stop from beginning exactly when it, or one past the cutoff, was persisted before the stop statement |
| IdleStop.AccessInMemoryLoses | packages/database/src/idle.ts:61-86 | touching a Workspace between check and statement leaves the stop begun and makes it not due |
| Scheduler.BeforeIsTotal | apps/control-plane/src/scheduler.ts:41-52 | the comparator is antisymmetric and total on eligible candidates, and a tie means the same ID |
| Scheduler.BeforeIsTransitive | apps/control-plane/src/scheduler.ts:41-52 | the cross-multiplied comparison is transitive |
| Scheduler.SelectedIsLeastLoaded | apps/control-plane/src/scheduler.ts:41-63 | no other eligible Worker has a smaller ratio of assigned to possible Workspaces, and among equals the selected ID is lexicographically first; none is selected exactly when none is eligible |
| Scheduler.CompatibleIff | apps/control-plane/src/scheduler.ts:6-39 | a Worker is eligible exactly when it is connected, enabled, schedulable and online, was heard of after the cutoff, has room, enforces the current egress policy and disk quotas, fits the architecture, and its first entry for the image has the required capabilities |
| Scheduler.SortingPutsSelectedFirst | apps/control-plane/src/scheduler.ts:58-62 | any sort by the comparator puts the selected Worker first |
| Scheduler.SelectionIgnoresOrder | apps/control-plane/src/scheduler.ts:54-63 | permuting the candidates does not change the selection |
| Scheduler.Placement.ScheduleWorkspaceStart | packages/database/src/scheduling.ts:205-295 | the placement transaction over the table of assignments |
| Scheduler.PlacementHasRoom | packages/database/src/scheduling.ts:205-281 | a placement raises one count by one, up to that Worker's maximum, and no other |
| Scheduler.StartedOnlyWhereItMayRun | packages/database/src/scheduling.ts:205-295 | exactly when a start is refused, and where it places a Workspace: on its own Worker, or on one that may run it and has room by the table, with no less loaded one |
| Scheduler.KeepsCapacity | packages/database/src/scheduling.ts:205-281 | a step keeps a Worker within its maximum exactly unless the Worker declares less than it has |
| Scheduler.CapacityIsNeverExceeded | packages/database/src/scheduling.ts:205-281 | over every serialised run a Worker has more Workspaces than its maximum only if it declared less than it had, and no step that leaves it so gave it another one |
| WorkerChannel.WorkerChannel.Register | apps/control-plane/src/worker-channel.ts:75-81 | replaces the socket and names the superseded one |
| WorkerChannel.WorkerChannel.Unregister | apps/control-plane/src/worker-channel.ts:83-101 | the loop closes exactly the Worker's pending commands, and only for the current socket |
| WorkerChannel.WorkerChannel.Dispatch | apps/control-plane/src/worker-channel.ts:103-158 | a command is refused, fails at once, or is pending under its own timer |
| WorkerChannel.WorkerChannel.AcceptResponse | apps/control-plane/src/worker-channel.ts:160-188 | a response settles the matching command of its Worker and nothing else |
| WorkerChannel.WorkerChannel.FireTimer | apps/control-plane/src/worker-channel.ts:129-138 | the timer's callback settles its own command |
| WorkerChannel.PendingIffUnsettled | apps/control-plane/src/worker-channel.ts:103-188 | on every run a command is pending under a live timer exactly while unsettled |
| WorkerChannel.DispatchIff | apps/control-plane/src/worker-channel.ts:103-158 | a dispatched command is under way exactly when the socket is open, no other one under way has its request ID and sending works; otherwise it failed for the first of these reasons |
| WorkerChannel.EndsIff | apps/control-plane/src/worker-channel.ts:83-188 | a command under way ends exactly by its own timer, by a response of its Worker under its ID, which resolves it as it says when the type matches, and by the close of its Worker's current socket |
| WorkerChannel.SettlesOnce | apps/control-plane/src/worker-channel.ts:103-188 | what became of a command never changes |
| WorkerChannel.ResolvedByItsWorker | apps/control-plane/src/worker-channel.ts:160-188 | only a response of the same Worker and request type resolves a command |
| WorkerChannel.UnregisterSettlesItsWorker | apps/control-plane/src/worker-channel.ts:83-101 | after the current socket unregisters nothing of its Worker is pending; a superseded socket's close settles nothing |
| ProjectIds.UnusedProjectIds | apps/worker/src/runtime.ts:1503-1525 | the candidate loop returns the lowest unused IDs of the window |
| ProjectIds.LowestUnusedIsLowest | apps/worker/src/runtime.ts:1502-1525 | they are ascending and unused, no smaller unused one is skipped, and fewer are returned only when no more are left |
| ProjectIds.UndisturbedAllocation | apps/worker/src/runtime.ts:1455-1525 | an undisturbed allocation records the two lowest IDs that are recorded nowhere, exactly when there are two |
| ProjectIds.ProjectIdsAreDistinct | apps/worker/src/runtime.ts:1455-1525 | over every run of allocations, deletions and crashes the recorded IDs are pairwise distinct and above the probe's |

## Left out

- RuntimeCoupling.CoupledOnEveryCarefulRun: holds under the conditions of `Careful`; for each of them `RuntimeLimits` has a run that breaks it once and loses the coupling.
- RuntimeRecovery.InterruptedChangeRecovers: for an open guard and a container that is down, on careful and timely runs where references keep their image IDs; the continuation is one in which the Worker stays connected, offers the images it is asked for and does not fail.
- RuntimeRecovery.UnturnedChangeRecovers: under the same conditions on runs; the source enforces none of `Careful` and `Timely`.
- RuntimeRecovery.AttemptCompletesIff: of the Worker's own answer, under the same conditions.
- RuntimeLife.LifeOnTimelyRuns: under `Timely`, which the source does not enforce: a late stop, start or recovery write and a late start or delete command each break it (the six runs named above).
- RuntimeLife.KeepsLife: the same, for one step.
- AuthThrottle.GatedIntervalBound: hits after which a counter is cleared by a success or an administrator start a new run.
- LockEvents.ReportedIffThreshold: the same; between two recordings of its history no counter is cleared.
- ModelKeyProgress.UndisturbedIssue: one continuation, in which every call and command succeeds; what may happen otherwise is covered by the safety results.
- Scheduler.SelectWorker: the library sort is taken as any sort by the comparator.
- RuntimeProtocol: one Workspace and its Worker; a run ends when the row is removed. Ensure, start, stop and delete commands may be carried out at any time, which covers the Worker's queue; ensure, start and stop are one abstract step that keeps the recorded images. A container is its image, image ID and whether it runs, without networks, mounts and labels.
- RuntimeProtocol: every created container has an image digest to pin; the fixed image set that offers none exists only beside the production code.
- ModelKeys: budgets, rate limits, the relay flag at issue time, retry delays and the coalescing of maintenance passes; the model lets revocations, deletions and deliveries happen at any time instead.
- ModelKeys: clear and set commands may be carried out in any order, which covers the Worker's queue.
- Reconciliation: the security baseline of containers is an outcome given from outside; that the check of a connected Worker may fail between two rows is one cut of the loop.
- WorkspaceTable.WorkspaceTable.BeginIdleStop: the comparison of activity and access with the cutoff is given as a flag; `IdleStop.BeginStopOf` makes it.
- IdleStop: the candidate query's order and its limit of 50 rows are given.
- EgressPolicy: rule texts in the store are parsed blocks; the order in which rules are listed and the resolution of protected host names are not modelled.
- User ownership (`user_id`), authorisation, audit rows other than lock events, metrics and logging.
- HTTP, cookies, OIDC, OAuth2, password hashing, WebSocket transport, gateway proxying, Docker, XFS and nftables calls, configuration parsing (including the comma-separated CIDR list), migrations of data, dashboards and the Portal.
- File-system failures other than a crash between steps, and rounding of floating-point CPU averages.
