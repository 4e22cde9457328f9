# Verified model of the BAPC mesh control plane

A Dafny model of the parts of the control plane whose correctness is hardest to see by reading: the staged policy
rollout with automatic rollback, drift detection and its convergence, canonical JSON and the audit chain built on it,
the protocols that share database tables (key rotation, outbox, migrations), address allocation, policy decisions and
their compiled forms, and the in-memory tables that prune or index what they store (rate limiter, threat window, relay).
`dafny verify dfyconfig.toml` checks the whole project.

## How the system is represented

* Code that updates state in place is a class with methods; each method is proved against functions of the old state, and
  the theorems are about those functions. Pure code is functions and lemmas.
* Database tables are sequences or maps, and a SQL statement is one atomic step. Where several processes share a table
  (key rotation, outbox, migrations) their statements interleave freely, and the theorems hold of every reachable state.
* SHA-256 is a parameter. `Injective` (for drift) and `IdealHash` (for the audit chain: injective and never the text
  `GENESIS`) say what is asked of it. `localeCompare` is a parameter too, required to be a strict total order.
* A JSON number is carried as its printed text. A value that passes through a `jsonb` column comes back equal up to the
  order of object keys, at every depth.
* Clocks, probes, acknowledgements seen by a poll, send results, and whether a port call completes or throws after some
  of its statements took effect, are parameters, so every theorem quantifies over them.

## What was found

* The fail-fast exit of a rollout is never taken for a failure reported by this repository's own agent: its failure
  report carries no commit identifier (agents/shared/production-agent.ts:122-124), so `refresh` never sees it and the node
  times out at the end of the window (`SafeApply.AgentFailureWaitsForDeadline`). The comment at
  src/application/safe-apply.ts:63-71 reads as if an explicit failure ended the wait.
* A rollback does not reach a node that is behind: ROLLBACK_FIREWALL has priority 200 and overtakes both the
  APPLY_FIREWALL it should undo and a waiting RECONCILE, which carries a firewall plan of its own. The last of those in
  delivery order stays in force. `RollbackDelivery.RollbackSticksIff` is the exact condition, and `RolledBackPolicyStays`
  and `PlanOutlivesRollback` are two such queues.
* An exception between staging and the try block (opening the rows, announcing the rollout) leaves the commit STAGED and
  its rules sent to all nodes; a fault inside staging leaves it STAGED and the rules sent to some. Nothing compensates.
  `SafeApply.SafeApplyService.Apply` states when, and with which rows and queue, for the outcome `Thrown(BeforeTry)`.
* One check-and-drain round may leave drift behind, because a queued command of priority 100 drains after the correction
  of priority 150. `Convergence.OneRoundIff` says exactly when one round is enough; two always are.
* An agent keeps its revision in memory only. A check that read the older desired row and overlaps one that read the newer
  queues its RECONCILE behind the newer one. If the agent restarts between the two, and the older one fails after
  replacing the routes, they change unnoticed: the node is judged in sync with other routes on it
  (`DriftSoundness.RestartHidesRouteDrift`). Routes judged in sync are the desired ones if no RECONCILE failed since the
  one that reported them, or if the agent has not restarted.
* Peering is one-sided for one pair of zones: a production-data node is told to accept development nodes that are not told
  about it (`MeshPlan.PeeringMutualIff`).
* `verify` accepts every chain whose links and hashes fit, also one that was truncated or rewritten with fresh hashes. The
  head hash tells exactly those apart: two verifying chains have the same head if and only if they tell the same events
  (`AuditChain.SameHeadIffSameEvents`).
* The address loop runs over 65532 counters, but only 65024 leases exist, because IPv4 addresses repeat.
* The rate limiter's hourly sweep breaks its own promises exactly when some key that admits calls has a window of more
  than an hour: more calls than the limit are then admitted within a window (`RateLimit.LimitKeptIff`), and a refused
  caller is admitted before the announced reset time (`RateLimit.ResetHonouredIff`).
* Re-registering a relay session under new endpoints, or reusing another session's endpoint, breaks the endpoint index;
  `Relay.RegisterKeepsIndexIff` is the exact condition on a registration. A reused endpoint's datagrams go to the other
  session, and are dropped once that one is unregistered (`Relay.SharedEndpointHijacks`).

## Model

| member | source | states |
|---|---|---|
| `RolloutStore.PgRolloutStore.Start` | src/infrastructure/pg-rollout-store.ts:11-19 | Inserts PENDING rows for the nodes, in order, leaving existing rows alone; when it throws, exactly a prefix was inserted |
| `RolloutStore.PgRolloutStore.Refresh` | src/infrastructure/pg-rollout-store.ts:29-44 | Moves PENDING rows to the verdict of the acknowledgements that answer this commit; when it throws, a prefix of the updates took effect |
| `RolloutStore.PgRolloutStore.FinalizeTimeouts` | src/infrastructure/pg-rollout-store.ts:46-51 | Turns exactly the commit's PENDING rows into TIMED_OUT |
| `RolloutStore.PgRolloutStore.MarkRolledBack` | src/infrastructure/pg-rollout-store.ts:58-63 | Turns every row of the commit into ROLLED_BACK, whatever its status |
| `RolloutStore.StartedRows` | src/infrastructure/pg-rollout-store.ts:11-19 | After `start` exactly the missing rows of the targeted nodes were added, as PENDING |
| `RolloutStore.AdvanceAllLater` | src/infrastructure/pg-rollout-store.ts:35-42 | No refresh adds or removes a row, changes a row that left PENDING, or touches another commit |
| `RolloutStore.AdvancedByAck` | src/infrastructure/pg-rollout-store.ts:35-42 | A row that changed holds the verdict of one of the acknowledgements, for its own node |
| `RolloutStore.SelectedAnswers` | src/infrastructure/pg-rollout-store.ts:30-34 | A refresh considers exactly the APPLY_FIREWALL acknowledgements naming this commit |
| `RolloutStore.FailuresGrow` | src/infrastructure/pg-rollout-store.ts:35-42 | The set of FAILED nodes of a commit only grows while waiting |
| `PolicyEnforcer.PgPolicyEnforcer.Stage` | src/infrastructure/pg-policy-enforcer.ts:60-84 | Succeeds exactly on a valid policy set, a new commit identifier and no fault; says exactly when the commit was inserted as STAGED and which nodes were sent the rules, also when it throws |
| `PolicyEnforcer.PgPolicyEnforcer.Commit` | src/infrastructure/pg-policy-enforcer.ts:86-91 | Sets the commit COMMITTED, or throws with or without having done so |
| `PolicyEnforcer.PgPolicyEnforcer.Rollback` | src/infrastructure/pg-policy-enforcer.ts:93-101 | Says exactly whether the commit became ROLLED_BACK and which nodes were sent the rollback at priority 200, also when it throws part-way |
| `PolicyEnforcer.BroadcastAppends` | src/infrastructure/pg-policy-enforcer.ts:77-79 | A broadcast appends exactly one command per node, in list order, and changes nothing else in the queue |
| `PolicyEnforcer.StagedMeaning` | src/infrastructure/pg-policy-enforcer.ts:75-79 | What staging queues for each node, in list order at priority 100 and under the commit, read field by field, allows exactly the flows the governing policy grants |
| `SafeApply.PollOnce` | src/application/safe-apply.ts:80-90 | One poll: probe, refresh, failure count, all answered, in that order, with the rows it leaves behind |
| `SafeApply.PollUntilDeadline` | src/application/safe-apply.ts:72-92 | The loop ends at the first poll that settles something, or at the deadline after polls that settled nothing |
| `SafeApply.WaitForOutcome` | src/application/safe-apply.ts:72-96 | The outcome is that of the first settling poll, otherwise of the closing statements; only this commit's rows change |
| `SafeApply.EarlyExitMatchesDeadline` | src/application/safe-apply.ts:72-105 | With a healthy probe and no faults, stopping early takes exactly the commit-or-rollback decision of polling to the deadline, timing out and deciding once |
| `SafeApply.FailFastIsFinal` | src/application/safe-apply.ts:87-88 | A failure count over the threshold stays over it at the deadline |
| `SafeApply.AllAnsweredIsFinal` | src/application/safe-apply.ts:89-90 | Once no row is PENDING, an acceptable count stays acceptable at the deadline |
| `SafeApply.CommitIsSafe` | src/application/safe-apply.ts:86-105 | A decision to commit means: rows cover exactly the targets, none is PENDING or ROLLED_BACK, the targets whose row is FAILED or TIMED_OUT number at most the threshold times the targets, and each success was acknowledged |
| `SafeApply.RollbackIsJustified` | src/application/safe-apply.ts:86-105 | A decision to roll back means: the last probe was unhealthy or hung, or the reason names the number of targets FAILED at that poll (FAILED or TIMED_OUT at the deadline) out of all targets, and it is over the threshold |
| `SafeApply.SickProbeDecides` | src/application/safe-apply.ts:80-84 | The first probe that is not healthy ends the wait: an exception if it rejected, a rollback if it was unhealthy or hung |
| `SafeApply.DecisionFromLogs` | src/application/safe-apply.ts:72-105 | Read off the acknowledgement logs alone: with healthy probes and no faults the rollout commits exactly when the targets whose first timely answer for the commit is missing or not a success are at most the threshold times the targets |
| `SafeApply.ZeroThresholdNeedsEveryNode` | src/application/safe-apply.ts:23-29 | At threshold zero every targeted node acknowledged this very commit with success |
| `SafeApply.PollsBounded` | src/application/safe-apply.ts:73-91 | At most the timeout divided by the poll interval, rounded up, many polls are made |
| `SafeApply.PollsRegularly` | src/application/safe-apply.ts:91 | Two polls are at most one interval apart, besides the time a poll takes and a timer runs late |
| `SafeApply.EndsInTime` | src/application/safe-apply.ts:73-91 | The wait overruns its deadline by at most what the last poll and its timer take and one millisecond |
| `SafeApply.WindowEnds` | src/application/safe-apply.ts:73-91 | The window always ends after finitely many polls |
| `SafeApply.SafeApplyService.Attempt` | src/application/safe-apply.ts:45-55 | The try block: rows, status and queue for a commit and for a rollback, and that it throws only if something it calls does |
| `SafeApply.SafeApplyService.Settle` | src/application/safe-apply.ts:47-55 | Rolls back for a reason or commits without one: status, rows and queue on success, at most one status write and a prefix of the rollback commands otherwise |
| `SafeApply.SafeApplyService.Revert` | src/application/safe-apply.ts:57-58 | Marks the rows, then rolls back: the exact rows, status and queue it leaves, whichever call throws |
| `SafeApply.SafeApplyService.Prepare` | src/application/safe-apply.ts:40-43 | Staging, opening rows and announcing: succeeds exactly when all of it does; the exact rows, commit and queue it leaves otherwise |
| `SafeApply.SafeApplyService.Conclude` | src/application/safe-apply.ts:45-60 | The try block with its catch: outcome, rows, status and queue agree for every outcome, and status never returns from ROLLED_BACK to COMMITTED |
| `SafeApply.SafeApplyService.Compensate` | src/application/safe-apply.ts:56-60 | The catch: rows and status ROLLED_BACK and the rollback sent, or exactly how far a compensation that throws got |
| `SafeApply.SafeApplyService.Apply` | src/application/safe-apply.ts:38-61 | The whole call under any faults: when each outcome occurs; COMMITTED means safe to commit, one broadcast and no rollback; ROLLED_BACK or a compensated exception means status and all rows ROLLED_BACK; a bad timeout changes nothing; an exception before the try block leaves the commit STAGED exactly if it was inserted, and the rows opened so far exactly if staging succeeded; other commits are untouched |
| `SafeApply.SafeApplyService.StrandedByStart` | src/application/safe-apply.ts:41-43 | If only opening the rows fails, the exception leaves the commit STAGED, its rules sent to every node and only the first rows opened |
| `RolloutMeaning.AnswerHasExecution` | agents/shared/production-agent.ts:84-95 | In every run of queue and agents, an acknowledgement that answers for a commit was written by a successful execution of that commit on that node |
| `RolloutMeaning.CommitMeansEveryNodeApplied` | src/application/safe-apply.ts:8-17 | At threshold zero, with logs read from such a run, every targeted node executed the committed rules |
| `RolloutMeaning.AppliedTheIssuedRules` | src/infrastructure/pg-policy-enforcer.ts:75-79 | If one rule set was issued under the commit, that rule set is what the node then enforced |
| `RolloutMeaning.CommitEnforcesDecisions` | src/application/safe-apply.ts:8-17 | At threshold zero a commit means every targeted node came to enforce rules that, read field by field, allow exactly the flows the governing policy grants |
| `SafeApply.AgentFailureWaitsForDeadline` | agents/shared/production-agent.ts:122-124 | With this agent's reports only, a rollback verdict is never reached before the deadline unless the probe or a port fails |
| `RollbackDelivery.RollbackSticksIff` | src/infrastructure/pg-policy-enforcer.ts:93-101 | After the queue drains, a waiting rollback that succeeds has removed all rules exactly when no application that succeeds, and no plan the agent accepts, waited with it |
| `RollbackDelivery.PendingRollbacksFirst` | services/mesh-controller/pg-command-queue.ts:39-47 | A waiting rollback is delivered before every waiting application and plan |
| `RollbackDelivery.LastEffectInForce` | agents/shared/production-agent.ts:84-96 | The rules in force after a run are those of the last command in it that takes effect, judged from the state before the run |
| `RollbackDelivery.RulesOutlastRollbacks` | services/mesh-controller/pg-command-queue.ts:43 | If a waiting application or plan takes effect, the rules left in force are those of the last such command in delivery order |
| `RollbackDelivery.EveryQueueIssued` | src/infrastructure/pg-policy-enforcer.ts:77-100 | Every queue built by staging, rolling back, checking, answering and unrelated sending has the priorities the delivery order rests on |
| `RollbackDelivery.RolledBackPolicyStays` | src/infrastructure/pg-policy-enforcer.ts:77-100 | A commit staged and rolled back before an idle node fetches anything ends up enforced by that node |
| `RollbackDelivery.PlanOutlivesRollback` | src/application/node-reconciliation.ts:80-83 | A reconciliation plan waiting when a rollback is issued ends up enforced by the node |
| `CanonicalJson.ParsePrint` | src/infrastructure/canonical-json.ts:13-19 | A parser recovers the canonical form of a value from its printed text, whatever follows it |
| `CanonicalJson.CanonicalFaithful` | src/infrastructure/canonical-json.ts:13-19 | Two values print the same exactly when they are equal up to the order of object keys at every depth |
| `CanonicalJson.PrintDeterminesCanon` | src/infrastructure/canonical-json.ts:13-19 | Equal texts have equal canonical forms |
| `CanonicalJson.CanonDeterminesValue` | src/infrastructure/canonical-json.ts:16-18 | Equal canonical forms come from values that differ in key order only |
| `CanonicalJson.EquivalentPrintsSame` | src/infrastructure/canonical-json.ts:16-18 | Values that differ in key order only print the same |
| `AuditChain.AuditService.Append` | src/application/audit.ts:6 | Appends one record linked to the last, and keeps a verifying chain verifying |
| `AuditChain.AuditService.Verify` | src/application/audit.ts:7 | Returns true exactly when every link and hash checks out |
| `AuditChain.RecordedChainVerifies` | src/application/audit.ts:6-7 | Every sequence of `record` calls on an empty store leaves a chain that verifies, numbered from 1 |
| `AuditChain.HeadDeterminesChain` | src/application/audit.ts:6-7 | Two verifying chains with the same head hash are the same chain, up to key order in payloads |
| `AuditChain.SameHeadIffSameEvents` | src/application/audit.ts:6-7 | Two verifying chains have the same head hash exactly when they tell the same events |
| `AuditChain.RewritingVerifies` | src/application/audit.ts:6-7 | Any history recorded from scratch verifies, under the same head only if it tells the same events |
| `Routes.SerialDeterminesSorted` | src/agent/reconciler.ts:15-25 | Two route lists serialise alike exactly when their sorted lists are equal |
| `Routes.SameSerialSameRoutes` | src/agent/reconciler.ts:39-42 | Equal serialisations mean equal multisets of routes, whatever the fields contain: a difference is never missed |
| `Routes.SerialIsCanonical` | src/agent/reconciler.ts:24-25 | For fields without separators and non-empty gateways, lists serialise alike exactly when equal as multisets |
| `Routes.OrderInsensitiveIffNoTies` | src/agent/reconciler.ts:24-25 | The comparison ignores list order exactly when no two distinct routes share a sort position |
| `CommandQueue.PgCommandQueue.Enqueue` | services/mesh-controller/pg-command-queue.ts:14-21 | Appends one unacknowledged command with its priority |
| `CommandQueue.PgCommandQueue.HasPending` | services/mesh-controller/pg-command-queue.ts:30-37 | True exactly when the node has an unacknowledged command of the kind |
| `CommandQueue.PgCommandQueue.Pending` | services/mesh-controller/pg-command-queue.ts:39-47 | The first commands of the delivery order, all of them waiting |
| `CommandQueue.PgCommandQueue.Acknowledge` | services/mesh-controller/pg-command-queue.ts:57-74 | Marks the command and logs one acknowledgement with the status derived from the report; a second one for the same command throws |
| `CommandQueue.PgCommandQueue.LatestAcknowledgement` | services/mesh-controller/pg-command-queue.ts:83-92 | The most recent successful acknowledgement of a kind |
| `CommandQueue.PendingSorted` | services/mesh-controller/pg-command-queue.ts:43 | Delivery is by descending priority, then by issue order, each command once |
| `CommandQueue.PendingIsWaiting` | services/mesh-controller/pg-command-queue.ts:42 | Exactly the unacknowledged commands of the node are delivered |
| `CommandQueue.AckedHeadLeavesTail` | services/mesh-controller/pg-command-queue.ts:39-74 | Acknowledging the most urgent command leaves exactly the rest of the delivery order |
| `Agent.ProductionAgent.ReconcileState` | src/agent/reconciler.ts:30-46 | Refuses lower revisions; a current one succeeds exactly when the adapters do and the node holds every expected file with that very hash; a file that is missing or differs leaves the node unchanged and is reported as a failure |
| `Agent.ProductionAgent.Execute` | agents/shared/production-agent.ts:49-125 | One command: its effect on the node, and the acknowledgement with the echo of what was applied, or an error |
| `Agent.FailsExactlyWhen` | agents/shared/production-agent.ts:49-125 | When each command is reported as failed, and that a failed one changed nothing but, for a RECONCILE cut short at its firewall call, the routes |
| `Agent.RunTouchesOnly` | agents/shared/production-agent.ts:49-121 | Over every run, each part of the node is changed by its own kinds of command only, and no command changes files |
| `Agent.IsolationFollowsLast` | agents/shared/production-agent.ts:97-98 | Over every run, a node is isolated exactly when the last successful QUARANTINE or RESTORE was a QUARANTINE |
| `Agent.ProductionAgent.RunBatch` | agents/shared/production-agent.ts:45 | Executes a batch in order |
| `Agent.ProductionAgent.Drain` | agents/shared/production-agent.ts:37-48 | Heartbeats until nothing is pending; batching changes neither what is executed nor the order |
| `Agent.BatchThenRest` | agents/shared/production-agent.ts:37-48 | Executing a batch and then the rest equals executing everything pending |
| `MeshPlan.PlanListsEligible` | services/mesh-controller/controller.ts:63-73 | A plan lists exactly the active other nodes whose zone is allowed, each with its own key and addresses |
| `MeshPlan.PlanMeaning` | services/mesh-controller/controller.ts:63-73 | A plan describes exactly the active other nodes whose zones may peer, zone pair by zone pair, each with its key, its two host routes and the relay if there is one |
| `MeshPlan.PeersArrive` | services/mesh-controller/controller.ts:25-28 | The peer list a node reads, field by field and whatever became of key order, is the plan |
| `MeshPlan.PeeringMutualIff` | services/mesh-controller/controller.ts:101-106 | Two active nodes list each other or neither does, exactly when their zones are not development and production data |
| `MeshPlan.PeersJsonWellFormed` | services/mesh-controller/controller.ts:25-28 | The peer list that is hashed and sent is well-formed JSON with distinct keys |
| `Reconciliation.NodeReconciliationService.Check` | src/application/node-reconciliation.ts:76-138 | One dimension: reports drift exactly when not in sync, and queues its correction exactly then |
| `Reconciliation.NodeReconciliationService.CheckNode` | src/application/node-reconciliation.ts:46-68 | Unknown node, no desired state, or one finding per dimension and the corrections of exactly the drifted ones |
| `DriftSoundness.RunInv` | src/application/node-reconciliation.ts:46-138 | The system invariant holds in every state reachable by upserts, checks, other commands, executions and agent restarts in any order |
| `DriftSoundness.InSyncMeansApplied` | src/application/node-reconciliation.ts:76-122 | In every reachable state, restarts included, a node judged in sync holds the desired DNS servers, kill switch and peers, and the desired routes if no RECONCILE failed since they were reported or the agent remembers its revision |
| `DriftSoundness.RevisionsGrow` | services/mesh-controller/pg-desired-state-store.ts:41-56 | An agent's revision never passes the store's, and decreases only by a restart, to zero |
| `DriftSoundness.InSyncWithoutRestart` | src/agent/reconciler.ts:28-46 | For an agent that has not restarted, routes judged in sync are the desired ones, whatever failed |
| `DriftSoundness.RemembersUntilRestart` | src/agent/reconciler.ts:28-46 | An agent whose memory agrees with its last report keeps agreeing until it restarts |
| `DriftSoundness.RestartHidesRouteDrift` | src/agent/reconciler.ts:28-46 | For any two route lists there is a run, with one restart and one failed RECONCILE and every executed command the next one the queue delivers, that ends in sync for one list with the other on the node |
| `DriftSoundness.CheckKeepsInv` | src/application/node-reconciliation.ts:46-68 | A whole check keeps the invariant, even one working from an outdated desired row |
| `IntegritySoundness.SuccessMeansIntact` | src/agent/reconciler.ts:32-37 | In every run, each report of a current RECONCILE's success was written by executing that command while the node held every expected file with that very hash, whatever happens to the files before or after |
| `IntegritySoundness.InSyncMeansIntact` | src/application/node-reconciliation.ts:76-85 | A node judged in sync for routes and integrity held every file of its current desired row, with its hash, when it executed the RECONCILE whose report the judgement rests on |
| `CheckMeaning.InSyncMeansDecided` | src/application/node-reconciliation.ts:130-139 | A node whose policy version is judged in sync came to enforce rules that, read field by field, allow exactly the flows the governing policy grants |
| `CheckMeaning.ChecksSendTheDesired` | src/application/node-reconciliation.ts:76-138 | Every command a check queues carries the desired row's values, the peers of the plan, or rules that decide as the governing policy does, at the right priority |
| `Convergence.LatestAfterRun` | services/mesh-controller/pg-command-queue.ts:83-92 | After a drain, the latest successful report of a kind is that of the last command of the kind delivered |
| `Convergence.CheckedExtends` | src/application/node-reconciliation.ts:61-66 | A check leaves the queue as it was and appends corrections of drifted dimensions only, all of them |
| `Convergence.CheckAppendsEachOnce` | src/application/node-reconciliation.ts:61-66 | A check appends exactly the corrections of the drifted dimensions, each once, in the order of the checks |
| `Convergence.RoundIdles` | src/application/node-reconciliation.ts:46-68 | A round of check and drain empties the node's queue, whatever fails |
| `Convergence.OneRoundIff` | src/application/node-reconciliation.ts:76-138 | One round brings a dimension in sync exactly when the last command of its kind to drain asks for the desired value |
| `Convergence.TwoRoundsConverge` | src/application/node-reconciliation.ts:46-138 | From every ready state two rounds leave no drift in any of the five dimensions, and the next check queues nothing |
| `Convergence.ReachableIsReady` | src/application/node-reconciliation.ts:46-138 | Every reachable state of the system is ready, for each node |
| `Convergence.ConvergedNodeHoldsDesired` | agents/shared/production-agent.ts:49-125 | After the two rounds the node itself holds the desired DNS servers, kill switch and peers, restarted or not; the desired routes if no RECONCILE failed since they were reported or its revision is the desired one, as it is if it remembered the last one reported |
| `Convergence.ReachableIsKnown` | src/agent/reconciler.ts:28-46 | Every reachable state, restarts included, is one that theorem starts from, and an agent that never restarted remembers what it last reported |
| `Convergence.StaleCommandOutlivesCorrection` | services/mesh-controller/pg-command-queue.ts:43 | A stale SET_DNS of lower priority leaves the node drifted after one round although everything succeeded |
| `KeyRotation.RunInv` | services/mesh-controller/pg-key-rotation-ledger.ts:15-39 | The ledger invariant holds under every interleaving of reads, inserts, conflicts and broken connections |
| `KeyRotation.EpochsAreConsecutive` | services/mesh-controller/pg-key-rotation-ledger.ts:20-31 | In every reachable state a node's epochs are exactly 1..k, each once, in commit order |
| `KeyRotation.AcknowledgedEpochsDiffer` | services/mesh-controller/pg-key-rotation-ledger.ts:31 | Two rotations of one node are never told the same epoch |
| `KeyRotation.AcknowledgedStaysRecorded` | services/mesh-controller/pg-key-rotation-ledger.ts:27-31 | The epoch and key a caller was told stay in the ledger in every later state |
| `KeyRotation.GiveUpMeansFiveOthersWon` | services/mesh-controller/pg-key-rotation-ledger.ts:32-38 | A call gives up only after five other rotations of the node committed during it, and leaves no row of its own |
| `KeyRotation.StaleEpochConflicts` | services/mesh-controller/pg-key-rotation-ledger.ts:32-36 | An epoch read earlier is taken exactly when it is no longer the next one: the key catches every lost race |
| `KeyRotation.LedgerOnlyGrows` | services/mesh-controller/pg-key-rotation-ledger.ts:27-30 | No step rewrites or removes a row |
| `KeyRotation.PgKeyRotationLedger.Rotate` | services/mesh-controller/pg-key-rotation-ledger.ts:15-39 | Gives up exactly when all five attempts were raced, throws exactly at a broken attempt reached, and otherwise appends its row under the next epoch |
| `KeyRotation.PgKeyRotationLedger.Attempt` | services/mesh-controller/pg-key-rotation-ledger.ts:21-36 | One attempt goes on to the next exactly when another call committed between its read and its insert |
| `Outbox.OutboxDispatcher.Flush` | src/infrastructure/postgres/outbox.ts:24-41 | Sends the claimed rows in order; on commit publishes exactly those sent successfully and counts every attempt; a failure to record rolls all rows back although rows were sent |
| `Outbox.ClaimedRows` | src/infrastructure/postgres/outbox.ts:26-27 | A claim takes the oldest unpublished, unlocked rows up to its limit, and no other |
| `Outbox.RunInv` | src/infrastructure/postgres/outbox.ts:24-41 | The outbox invariant holds under every interleaving of dispatchers, publications, commits and rollbacks |
| `Outbox.LocksAreExclusive` | src/infrastructure/postgres/outbox.ts:26-27 | Two transactions under way never hold the same row |
| `Outbox.PublishedMeansDelivered` | src/infrastructure/postgres/outbox.ts:28-38 | A row is published exactly when a committed transaction sent it successfully |
| `Outbox.SentAgainOnlyInVain` | src/infrastructure/postgres/outbox.ts:24-41 | A row is sent again only if the earlier send failed or its transaction was rolled back |
| `Outbox.PublishedIsFinal` | src/infrastructure/postgres/outbox.ts:24-41 | A published row stays published and is never sent again |
| `Outbox.OneRowPerPublish` | src/infrastructure/postgres/outbox.ts:24-41 | In every run there is one row per event published, and none appears otherwise or disappears |
| `OutboxAttempts.AttemptsAreCommittedSends` | src/infrastructure/postgres/outbox.ts:28-38 | In every run a row's attempt counter is the number of times committed transactions sent it |
| `Migrations.MigrationRunner.Apply` | src/infrastructure/postgres/migrate.ts:37-64 | Fails leaving the database unchanged, or applies and skips exactly the unrecorded and the recorded migrations |
| `Migrations.AppliedRunsTheRest` | src/infrastructure/postgres/migrate.ts:45-61 | Exactly the unrecorded migrations run, in list order, once each, and the record matches what ran |
| `Migrations.AppliesIffClean` | src/infrastructure/postgres/migrate.ts:46-61 | As long as no script fails, a call succeeds exactly when recorded names come with their recorded, non-empty checksum and new names are listed once |
| `Migrations.RunsExactlyTheNew` | src/infrastructure/postgres/migrate.ts:46-61 | A call that succeeds runs exactly the listed migrations whose names were not in the record |
| `Migrations.ReapplyDoesNothing` | src/infrastructure/postgres/migrate.ts:46-54 | Once a list succeeded, running it again does nothing, whatever ran in between |
| `Migrations.ChangedRefusedForever` | src/infrastructure/postgres/migrate.ts:46-54 | Once a migration is recorded, every later call that lists it with another checksum fails, whatever ran in between |
| `Migrations.AppliedAndSkippedPartition` | src/infrastructure/postgres/migrate.ts:41-62 | Applied and skipped together are the list, nothing lost or repeated |
| `Migrations.EachMigrationOnce` | src/infrastructure/postgres/migrate.ts:37-64 | Under every interleaving of runners no name takes effect twice and the record matches what ran |
| `Migrations.CommitRunsTheRest` | src/infrastructure/postgres/migrate.ts:39-62 | A transaction that commits has run exactly what the record lacked of its list at that moment |
| `Migrations.OnlyCommitsChange` | src/infrastructure/postgres/client.ts:18-29 | The database changes only at commits, and then only grows |
| `Allocator.NextLease` | services/mesh-controller/controller.ts:31-40 | Returns the addresses of the least counter with both addresses free, or nothing when the range has none |
| `Allocator.SameIpv4Iff` | services/mesh-controller/controller.ts:34-35 | Two counters share an IPv4 address exactly when they differ by a multiple of 65024 |
| `Allocator.SameIpv6Iff` | services/mesh-controller/controller.ts:36 | Different counters have different IPv6 addresses |
| `Allocator.LiveLeasesDisjoint` | services/mesh-controller/controller.ts:31-40 | In every run of allocations and releases two live leases share neither address |
| `Allocator.ExhaustedIffFull` | services/mesh-controller/controller.ts:33-39 | In every reachable state at most 65024 leases are live and allocation fails exactly at that number |
| `Allocator.MeshCapacity` | services/mesh-controller/controller.ts:29-41 | For the mesh's own addresses: a fresh pair from a counter below 65026, whose IPv4 address ends in 1 to 254, or failure exactly when 65024 leases are live |
| `Allocator.FillsInOrder` | services/mesh-controller/controller.ts:33-39 | Without releases the pairs are handed out in counter order |
| `Allocator.FirstLease` | services/mesh-controller/controller.ts:33-37 | An empty mesh hands out 10.144.10.3 and fd14:4b41:5043::2 |
| `Allocator.SuccessorAddress` | services/mesh-controller/controller.ts:34-35 | The next counter's IPv4 address is the next host of the subnet, or the first host of the next subnet |
| `Policy.Decide` | src/application/policy.ts:13-22 | Action, policy and reason of the first match in priority order; ALLOW, and ISOLATE, exactly when the governing policy grants it |
| `Policy.DecidedIff` | src/application/policy.ts:13-23 | Over the policies' own fields: ALLOW, or ISOLATE, is decided exactly for a subject with MFA on a trusted device and active node if the first-ranked policy that lists the source zone, the destination zone, the protocol or ANY, and the port or none, and asks only for roles held, takes that action and any grant it needs is held |
| `Policy.DecidedPolicyIff` | src/application/policy.ts:17-18 | The decision names that policy and says why, and names none exactly when no policy covers the flow |
| `Policy.FirstMatchWins` | src/application/policy.ts:16-18 | The first match after sorting is the matching policy of highest priority, the earliest among equals |
| `Policy.DecisionFollowsWinner` | src/application/policy.ts:17-18 | The decision is that policy's verdict, denied without a grant it requires |
| `Policy.OrderIndependentIff` | src/application/policy.ts:16 | The repository's order is immaterial exactly when all matching policies of the top priority agree |
| `Policy.DistinctPrioritiesDecideAlike` | src/application/policy.ts:16 | With distinct priorities the decision does not depend on the order of the input |
| `Policy.CompileRejectsExactlyInvalid` | src/application/policy-compiler.ts:7 | Compilation fails exactly when an active policy names an unknown zone or a port out of range |
| `Policy.CompiledMeaning` | src/application/policy-compiler.ts:7 | First match on the compiled rules decides every flow as `decide` does for an admitted, entitled subject |
| `Policy.FirewallMeaning` | src/infrastructure/pg-policy-enforcer.ts:20-29 | On a list in descending priority the firewall rules allow exactly what `decide` allows |
| `Policy.WireMeaning` | src/infrastructure/pg-policy-enforcer.ts:20-29 | The rule list a node reads, its fields looked up by name and its ports read from their digits whatever became of key order, allows on a list in descending priority exactly the flows the governing policy grants, by the rule with that policy's identifier |
| `RateLimit.MemoryRateLimiter.Check` | src/api/rest/rate-limit.ts:10-20 | Prunes, admits below the limit, and reports remaining calls and reset time |
| `RateLimit.MemoryRateLimiter.Sweep` | src/api/rest/rate-limit.ts:21-26 | Drops what is older than an hour, and keys left empty |
| `RateLimit.PruningUnobservable` | src/api/rest/rate-limit.ts:10-26 | For times in order and windows up to an hour every answer is that of a limiter that forgets nothing |
| `RateLimit.SweepObservable` | src/api/rest/rate-limit.ts:21-26 | For every longer window with a positive limit there is a run whose answers differ |
| `RateLimit.UnobservableIff` | src/api/rest/rate-limit.ts:10-26 | Pruning and sweeping are unobservable on all runs exactly when no admitting key's window exceeds an hour |
| `RateLimit.AdmissionsAreSpread` | src/api/rest/rate-limit.ts:10-26 | In every run of checks and sweeps in time order, with windows of admitting keys up to an hour, any limit + 1 consecutive calls the limiter admits span at least the window |
| `RateLimit.LimitBroken` | src/api/rest/rate-limit.ts:21-26 | For every longer window with a positive limit there is a run that admits limit + 1 calls within an hour |
| `RateLimit.LimitKeptIff` | src/api/rest/rate-limit.ts:10-26 | The limit is kept in all runs exactly when no admitting key has a window of more than an hour |
| `RateLimit.RefusedUntilReset` | src/api/rest/rate-limit.ts:10-26 | Under the same condition, a refused caller whose key sees no other call is admitted exactly from the announced reset time on, whatever else is called or swept meanwhile |
| `RateLimit.ResetBroken` | src/api/rest/rate-limit.ts:21-26 | For every longer window with a positive limit there is a run that admits a refused caller before the announced reset time |
| `RateLimit.ResetHonouredIff` | src/api/rest/rate-limit.ts:10-26 | Reset times are honoured in all runs exactly when no admitting key has a window of more than an hour |
| `RateLimit.RemainingIsExact` | src/api/rest/rate-limit.ts:10-20 | In every state, for windows of at least a millisecond, the remaining count is the number of further calls admitted at that moment |
| `RateLimit.AdmittedReset` | src/api/rest/rate-limit.ts:17-19 | After an admitted call the key's window is empty again exactly from the announced reset time on, no other call intervening |
| `Threat.ThreatCorrelator.Ingest` | services/threat-engine/correlator.ts:28-33 | Files the signal under its node, prunes the window and evaluates exactly what is left of it |
| `Threat.ThreatCorrelator.Dismiss` | services/threat-engine/correlator.ts:39-44 | Clears the node's signals and reports how many there were |
| `Threat.ThreatCorrelator.ActiveSignalCount` | services/threat-engine/correlator.ts:46-48 | Counts the signals in the window, pruning the rest |
| `Threat.WindowCompleteIff` | services/threat-engine/threat-signal-store.ts:22-36 | After every run, in any order of times, a window is the full history since dismissal exactly when no earlier, higher bound dropped one of its signals |
| `Threat.PruningUnobservable` | services/threat-engine/threat-signal-store.ts:27-31 | For times in order, a window is the full history since the last dismissal |
| `Threat.WindowMeaning` | services/threat-engine/threat-signal-store.ts:22-36 | For times in order, the window holds exactly the signals ingested for the node since its last dismissal that are no older than the bound, each as often as ingested |
| `Threat.ActsOnOwnNode` | services/threat-engine/correlator.ts:28-33 | After every run of ingesting, dismissing and counting, a signal triggers actions on no node but its own and leaves other nodes' windows alone |
| `Threat.ScoreInRange` | services/threat-engine/engine.ts:22-25 | The score is between 0 and 100 |
| `Threat.ScoreIsEvidence` | services/threat-engine/engine.ts:22-25 | For confidences in 0..1 and weights from 0 on, the score is the sum of confidence times weight rounded to the nearest integer, halves up, and 100 from 99.5 on |
| `Threat.AlikeSignalsScore` | services/threat-engine/engine.ts:22-25 | n signals of confidence c and weight w score n * c * w, rounded halves up and capped at 100 |
| `Threat.WorthlessSignal` | services/threat-engine/engine.ts:23 | A signal of confidence or weight at most 0 changes no score, wherever it arrives |
| `Threat.ConfidenceSaturates` | services/threat-engine/engine.ts:23 | A confidence above 1 scores as 1 |
| `Threat.ScoreMonotone` | services/threat-engine/engine.ts:22-25 | A more confident or weightier signal never lowers the score |
| `Threat.ScoreIgnoresOrder` | services/threat-engine/engine.ts:22-25 | The score depends on the signals as a multiset only |
| `Threat.MoreSignalsMoreSevere` | services/threat-engine/engine.ts:22-28 | Adding signals never lowers the score or the severity |
| `Threat.ActionsByScore` | services/threat-engine/engine.ts:28-46 | Which action is taken from which score on, for exactly the node the first naming signal names, and that containment is reported exactly when a node is isolated |
| `Threat.ContainmentGrows` | services/threat-engine/engine.ts:26-46 | More evidence never undoes containment: each containing action is taken again for the same node, and the node is isolated again |
| `Relay.BlindRelayServer.Register` | services/relay/relay-server.ts:19-23 | Records the session and indexes both endpoints |
| `Relay.BlindRelayServer.Unregister` | services/relay/relay-server.ts:25-31 | Removes the session and its endpoints; an unknown identifier changes nothing |
| `Relay.BlindRelayServer.Forward` | services/relay/relay-server.ts:50-57 | Routes to the other endpoint or drops, and counts the bytes relayed |
| `Relay.KeyDeterminesEndpoint` | services/relay/relay-server.ts:17 | The indexed text determines host and port, even for hosts with colons |
| `Relay.RegisterKeepsIndexIff` | services/relay/relay-server.ts:19-23 | A registration keeps the index the exact inverse of the sessions exactly when it takes no other session's endpoint and leaves none of its own behind |
| `Relay.SharedEndpointHijacks` | services/relay/relay-server.ts:19-31 | After a second session reuses an endpoint, that endpoint's datagrams go to the second session's peer, and are dropped once it is unregistered, although the first session is live |
| `Relay.MovedSessionLeavesRoute` | services/relay/relay-server.ts:19-31 | After a session is registered again under new endpoints, the old ones stay routed, even after it is unregistered |
| `Relay.UnregisterKeepsIndex` | services/relay/relay-server.ts:25-31 | Unregistering keeps the index exact |
| `Relay.RunConsistent` | services/relay/relay-server.ts:19-31 | Every run of fitting registrations and unregistrations keeps the index exact |
| `Relay.FreshSessionLeavesNoTrace` | services/relay/relay-server.ts:19-31 | After every such run, registering a new session that fits and unregistering it restores all tables |
| `Relay.ForwardsWithinSession` | services/relay/relay-server.ts:50-57 | A datagram goes from one endpoint of a live session to the other, and to no one else |
| `Relay.RepliesReturn` | services/relay/relay-server.ts:50-57 | If a datagram from one endpoint reaches another, the reply is routed back |

## Left out

- Convergence.ConvergedNodeHoldsDesired: promises the routes of a restarted agent only if no RECONCILE failed since they were reported; `DriftSoundness.RestartHidesRouteDrift` shows why.
- SafeApply.SafeApplyService.Apply: the timeout is an integer; a timeout that is not a number, which passes the source's range test, is not modelled.
- CommandQueue.PgCommandQueue.Pending: `expires_at` and `not_before` are not modelled; every queued command stays deliverable.
- CommandQueue.PgCommandQueue.HasPending: `expires_at` is not modelled, as for `Pending`.
- CommandQueue.PendingIsWaiting: counts every unacknowledged command as deliverable, as for `Pending`.
- Agent.ProductionAgent.ReconcileState: clearing transient credentials on an integrity failure is not modelled; the credentials are outside the node state considered.
- Agent.ProductionAgent.Execute: the key exchange behind ROTATE_IDENTITY_REQUIRED is reduced to its success or failure.
- Reconciliation.NodeReconciliationService.Check: the relay is chosen once per check; the source chooses again when it resends the peer plan.
- Threat.ThreatCorrelator.Dismiss: the dismissal record and the closing of incidents are calls to ports that are not modelled.
- CheckMeaning.InSyncMeansDecided: is about the moment the echoed rules were applied; a rollback or a RECONCILE changes the rules in force without a new APPLY_FIREWALL report.
- Policy.WireMeaning: reads the rules as their fields say; the platform adapters that turn them into native rules are not modelled (the Linux one writes no zone conditions, native/linux/adapter.ts:124-131).
- APPLY_WIREGUARD: no producer exists in the repository; the soundness theorems are about queues without it.
- Lone surrogates, `undefined`, NaN and infinities in canonical JSON: values are those JSON can express.
- `localeCompare` on distinct texts it ranks as equal: the order of keys is required to be total; route lists, where ties do arise, have their exact condition.
- Hash collisions: hashes are taken to be injective.
- Floating point: thresholds and scores are over the reals, so order-independence of the score is exact here.
- Concurrent `record` calls and gaps in the audit table's identity column: the chain is the in-memory, sequential one.
- InMemoryRolloutStore: the development store never sees acknowledgements; only the Postgres store's row states are modelled.
- `nodesOverdueForRotation`, `status` of the migration runner, relay selection, JIT lifecycle, enrolment, attestation, HTTP and gRPC transport, native adapters: input and output, cryptography, or easy members.
- Incident records and the evaluation event of the threat engine: only scores, severities and actions are modelled.
