# PicoDome: verified model

PicoDome runs untrusted commands in a sandbox. Around that sandbox sit small state machines and codecs that decide who
runs a scan, what the audit trail is worth, who may call, which policy is in force and what is kept on disk. This project
models those parts in Dafny and proves what they keep, over all inputs and whole runs.

| files | what they model |
|---|---|
| `cluster_registry`, `cluster_failover`, `cluster_balance`, `cluster_runs`, `cluster_gossip`, `gossip_join`, `cluster_manager` | node and scan registries, least-loaded assignment, failover, health checks, leader election, gossip merge |
| `audit_chain`, `audit_rotation`, `audit_logger`, `audit_sink` | the hash-chained audit log: verifier, rotation, restart, the file sink with its cached handle |
| `binary_heap`, `job_queue_model`, `job_queue` | the bounded priority queue on a binary heap |
| `token_bucket`, `limiter_model`, `limiter_bounds`, `limiter_overshadow`, `limiter_eviction`, `limiter` | token buckets, the two-level limiter with idle eviction, the Redis Lua script |
| `policy_lines`, `policy_signing` | inline policy signatures: print, parse, strip, verify |
| `policy_model`, `policy_canonical`, `policy_history`, `policy_runs`, `policy_store` | policies and their dictionaries, the canonical form, the versioned store |
| `job_store_model`, `job_store_runs`, `job_store_restarts`, `job_store` | the JSON Lines job store: append, rewrite, load, compact |
| `discovery` | breadth-first project discovery |
| `retention_model`, `retention` | time and quota deletion |
| `text_order`, `sorting`, `collections` | Python's order on text, stable `sorted`, insertion-ordered `dict` |

Objects that the program changes in place are classes whose methods are proved against a function of the old state;
the lemmas are about those functions. Clock readings, random ids and file contents are parameters. JSON, SHA-256, HMAC and
time-stamp parsing are function parameters, injective where a lemma says so. The time of a bucket and the size of a file
are real and natural numbers without rounding.

Where the code and its documentation differ, the model follows the code:

- The merge is documented as last-writer-wins; entries with tied versions go to the remote side, so two peers that
  cross-merge agree on versions but not always on the rest (`JoinCommutesIff` says exactly when).
- Failover sweeps completed scans too, because scans are listed by owner alone (`src/picodome/cluster/manager.py:550-553`).
- `complete_scan` checks neither status nor owner, `handle_heartbeat` overwrites the load and deregistration redistributes
  nothing. The invariant survives these calls exactly under the conditions in `CompleteKeepsInvIff`,
  `HeartbeatKeepsInvIff` and `RemoveKeepsInvIff`.
- `elect_leader` leaves the stored leader alone when nobody is online (`LeaderOnlineIff`).
- A full queue may evict a job that is more urgent than the incoming one (`EvictsMoreUrgentIff`).
- The global bucket is charged even when the actor's own bucket then refuses, and `max_actors`, documented
  as the maximum number of tracked actors, only triggers a sweep (`TrackedIff`, `CrowdIsTracked`).
- `verify_chain` raises on a JSON line that is no object, instead of reporting it (`VerifyChain`).
- The verifier passes over blank lines, so a blank last line vouches for nothing above it (`BlankEndHidesReplacement`).
- A process that stops between rotating and appending forgets its chain head (`InterruptedRotationForgetsHead`), and
  `verify_chain`, which reads one file at a time, cannot see the break (`BreakIsUnseen`).
- `sign_policy` followed by `verify_policy` fails unless the policy ends in exactly one newline after a line that is not blank,
  or is a lone newline. A policy that already holds a block verifies afterwards only if it did so before, because the first
  block in a file is the one that is read (`SignThenVerifyIff`).
- `verify_integrity` reads neither `latest.json` nor a version whose hash is empty (`IntegrityIff`, `LatestIsUnchecked`).
- `validate_policy` does not look for duplicate paths, which its documentation promises; its target and action checks can
  never fire.
- The canonical form leaves out `fail_closed`, and shows the order of rules that share an id (`SwappedDuplicatesDiffer`).
- A policy that never expires (`ttl_days == 0`) never applies its size quota either; a failed secure deletion is counted as
  done, exact only when nothing was left of the file (`BytesConservedIff`).
- Idle buckets may be deleted before they are full again. Whether that can be noticed, and whether an actor can then exceed
  its rate, depends on the global limit too (`EvictionInvisibleIff`, `RateLimitedIff`).
- A restart of the job store can be noticed in a listing of its newest jobs when an id is used again, truncated away or not,
  or when a job has no id, unless the job takes the same place in memory and in the file (`NoRestartShowsIff`,
  `ReaddedIdShows`, `KeptIdShows`).
- A job under the empty id lives in memory only (`FileIsMemoryIff`); one JSON line that is no object makes the job store
  start fresh and the next update erases the file (`ScalarLineStartsFresh`).

## Model

| member | source | states |
|---|---|---|
| `TextOrder.LtIff` | src/picodome/cluster/manager.py:492-494 | texts are ordered by their first difference, the smaller code point first, and a prefix comes before what it is a prefix of |
| `ClusterRegistry.AssignKeepsInv` | src/picodome/cluster/manager.py:469-505 | assignment keeps the invariant: each node's load is its number of running scans, a scan is pending exactly when it has no owner; no scan id is lost |
| `ClusterRegistry.LeastLoadedUnique` | src/picodome/cluster/manager.py:492-494 | least by (load, node_id) singles out one node, so enumeration order cannot matter |
| `ClusterRegistry.AssignTakesLightest` | src/picodome/cluster/manager.py:486-502 | an assignment takes the online node of least load, of equals the one whose id comes first, adds one to its load, makes the scan run there and changes nothing else |
| `ClusterRegistry.CompleteKeepsInvIff` | src/picodome/cluster/manager.py:507-520 | `complete_scan` keeps the invariant if and only if a running scan is completed for its owner, or a completed one again for a node that is unknown or has no load; completing a pending scan always breaks it |
| `ClusterRegistry.CompleteKeepsAccountingIff` | src/picodome/cluster/manager.py:507-520 | of the invariant the load accounting alone survives if and only if a running scan is completed for its owner, or else the node that is named has no load |
| `ClusterRegistry.CompleteByOwnerKeepsInv` | src/picodome/cluster/manager.py:507-520 | completion of a running scan by its owner keeps the whole invariant and every scan |
| `ClusterRegistry.FailKeepsInvIff` | src/picodome/cluster/manager.py:524-541 | `fail_scan` keeps the invariant if and only if it is not called on a completed scan whose owner still has load |
| `ClusterRegistry.HeartbeatKeepsInvIff` | src/picodome/cluster/manager.py:833-850 | a heartbeat keeps the invariant if and only if it reports the true number of running scans |
| `ClusterRegistry.RemoveKeepsInvIff` | src/picodome/cluster/manager.py:437-441 | removing a node keeps the invariant if and only if nothing runs on it |
| `ClusterFailover.FailoverRestores` | src/picodome/cluster/manager.py:854-883 | on an accounted registry failover restores the accounting, although it passes through registries that are not accounted, and the failed node ends with load 0 |
| `ClusterFailover.FailoverMoves` | src/picodome/cluster/manager.py:854-883 | on any registry: the failed node ends offline and owns nothing, no scan is lost, its former scans all run on online nodes or are all pending because none is online, every other scan is untouched, and its load has fallen by the number of its scans but not below zero |
| `ClusterFailover.RedistributeMoves` | src/picodome/cluster/manager.py:873-883 | what holds between two turns of the redistribution loop on any registry, how far the failed node's load falls, and that only the listed scans move |
| `ClusterBalance.SpreadBounded` | src/picodome/cluster/manager.py:486-502 | from any start, loads of online nodes never differ by more than the larger of 1 and the initial difference, after any number of assignments |
| `ClusterBalance.RoundRobin` | src/picodome/cluster/manager.py:486-502 | from k online nodes with equal loads, assignment j goes to the node of rank j mod k by node_id |
| `ClusterBalance.BatchRoundRobin` | src/picodome/cluster/manager.py:9-12 | the same on the registry: scan j of a batch is owned by roster node j mod k |
| `ClusterBalance.FailoverRoundRobin` | src/picodome/cluster/manager.py:9-12 | redistribution is a round robin over equally loaded survivors |
| `ClusterBalance.FailoverNodesOrderFree` | src/picodome/cluster/manager.py:869-879 | whichever order the backend lists a failed node's scans in, the nodes end with the same loads, on any registry |
| `ClusterRuns.ElectionIsDeterministic` | src/picodome/cluster/manager.py:557-570 | the same registry always elects the same leader |
| `ClusterRuns.LeaderOnlineIff` | src/picodome/cluster/manager.py:557-570 | after an election the stored leader is online if and only if some node is |
| `ClusterRuns.LeaderComesFirst` | src/picodome/cluster/manager.py:557-570 | no online node has an id that comes before the elected leader's |
| `ClusterRuns.RunsAreSafe` | src/picodome/cluster/manager.py:463-543 | in every run of registrations, submissions, assignments, owner completions, failures, truthful heartbeats, idle removals, elections and node failures from an accounted registry, the invariant holds at every moment and the set of scan ids never shrinks |
| `ClusterRuns.ClusterIsSafe` | src/picodome/cluster/manager.py:187-191 | so it is in every run of a cluster, which starts empty: at every moment each load is the number of scans that run there, a scan is pending exactly when nobody owns it and whoever runs one is registered |
| `ClusterRuns.FailureIs` | src/picodome/cluster/manager.py:854-883 | after a node failure in a run the node is offline and owns nothing, the scans it had run on online nodes or wait because there is none, and no other scan is touched |
| `ClusterRuns.SweepClears` | src/picodome/cluster/manager.py:958-984 | one health check leaves every victim offline and owning nothing, even when a scan was first handed to a later victim, on any registry; on an accounted one every victim is idle and the invariant holds |
| `GossipJoin.JoinCommutes` | src/picodome/cluster/manager.py:598-618 | merging is commutative in the versions it keeps |
| `GossipJoin.JoinAssociates` | src/picodome/cluster/manager.py:598-618 | merging is associative and idempotent, entry for entry |
| `GossipJoin.JoinIsLeast` | src/picodome/cluster/manager.py:598-618 | the merge is the least registry above both |
| `GossipJoin.JoinCommutesIff` | src/picodome/cluster/manager.py:603-618 | both merge orders give identical registries if and only if tied versions carry identical entries |
| `ClusterGossip.MergeIsJoin` | src/picodome/cluster/manager.py:591-623 | the merge loops compute that join for any listing order of the snapshot, losing no node and no scan |
| `ClusterGossip.MergedScan` | src/picodome/cluster/manager.py:607-618 | for a scan that both sides know: finished if and only if it is on either side, else running if and only if it is on either, else pending if and only if it is on either; a tie goes to the peer |
| `ClusterGossip.MergedNode` | src/picodome/cluster/manager.py:600-604 | for a node that both sides know: the later stamp wins, a tie goes to the peer |
| `ClusterGossip.MergedRest` | src/picodome/cluster/manager.py:598-623 | what one side only knows is kept, and the peer's leader is taken over when it names one |
| `ClusterGossip.FinishedStaysFinished` | src/picodome/cluster/manager.py:607-618 | a scan that is completed anywhere is completed in every registry that merges it, after any number of merges in any order |
| `ClusterGossip.ExchangeIdentical` | src/picodome/cluster/manager.py:578-623 | after A merges B's snapshot and B merges A's new one, both have identical nodes, scans and (when A names one) leader |
| `ClusterGossip.CrossMergeAgrees` | src/picodome/cluster/manager.py:598-618 | peers that hear each other's old snapshots hold the same nodes with the same stamps and the same scans, of which the same are completed, running and pending |
| `ClusterGossip.GossipOrderIrrelevant` | src/picodome/cluster/manager.py:598-618 | two nodes, each with a registry of its own, that heard each other and the same peers, in any order and any number of times, hold the same nodes with the same stamps and the same scans, of which the same are completed, running and pending |
| `ClusterGossip.GossipRunAgrees` | src/picodome/cluster/manager.py:578-623 | in any run of a gossiping cluster, snapshots being taken of registries that have merged others before, nodes that have heard of the same nodes, directly or through others, hold the same nodes with the same stamps and the same scans, of which the same are completed, running and pending |
| `ClusterManager.MemoryStateBackend.SaveScan` | src/picodome/cluster/manager.py:209-211 | a saved scan is stored under its id and a known id keeps its place |
| `ClusterManager.MemoryStateBackend.LoadAllNodes` | src/picodome/cluster/manager.py:201-203 | the i-th node listed is stored under the i-th key in insertion order; under their own ids exactly the stored nodes are listed |
| `ClusterManager.ClusterState.ListNodes` | src/picodome/cluster/manager.py:449-455 | exactly the nodes of a status, sorted by node_id |
| `ClusterManager.ClusterState.LeastLoadedNode` | src/picodome/cluster/manager.py:486-494 | the head of the sorted online nodes is the least-loaded one |
| `ClusterManager.ClusterState.AssignScan` | src/picodome/cluster/manager.py:469-505 | the new registry is that of the assignment transition; missing and already assigned scans change nothing |
| `ClusterManager.ClusterState.CompleteScan` | src/picodome/cluster/manager.py:507-520 | the new registry is that of the completion transition; only the status of the scan and the load of the named node change, the load by one and not below zero |
| `ClusterManager.ClusterState.FailScan` | src/picodome/cluster/manager.py:524-541 | the new registry is that of the failure transition; the scan is pending and unowned, and its owner's load falls by one and not below zero |
| `ClusterManager.ClusterState.GetScansForNode` | src/picodome/cluster/manager.py:550-553 | the loop over all scans lists exactly the ids with this owner, whatever their status, once each and in backend order |
| `ClusterManager.ClusterState.ElectLeader` | src/picodome/cluster/manager.py:557-570 | stores and returns the lowest online id; with nobody online stores nothing |
| `ClusterManager.ClusterState.GetStateSnapshot` | src/picodome/cluster/manager.py:578-589 | the snapshot lists every node and scan once, and the leader |
| `ClusterManager.ClusterState.MergeState` | src/picodome/cluster/manager.py:591-623 | the three merge steps compute the merge function |
| `ClusterManager.Manager.AssignScan` | src/picodome/cluster/manager.py:788-797 | submission then assignment; what is returned is the node that owns the scan afterwards, or nothing when it has none |
| `ClusterManager.Manager.HandleHeartbeat` | src/picodome/cluster/manager.py:833-850 | a registered node gets the status, stamp and load reported and no other node, scan or leader changes; an unknown one is refused and nothing changes |
| `ClusterManager.Manager.StaleIff` | src/picodome/cluster/manager.py:964-976 | a node is too old if and only if it is not the checking one, has a stamp that can be read, and more than heartbeat timeout times missed heartbeats has passed since |
| `ClusterManager.Manager.HeardIsNoVictim` | src/picodome/cluster/manager.py:833-976 | a node whose heartbeat was just taken is no victim of a check until its timeout has passed, whatever it reported |
| `ClusterManager.Manager.HandleNodeFailure` | src/picodome/cluster/manager.py:854-883 | the offline mark and the loop compute the failover transition on any registry, which is the node failure step of a run, clear the node, and keep the invariant where it held; returns the ids that were swept, all that the node owned |
| `ClusterManager.Manager.CheckNodeHealth` | src/picodome/cluster/manager.py:958-984 | fails over, in id order, exactly the online nodes, other than itself, whose last readable heartbeat is too old, on any registry, and keeps the invariant where it held |
| `AuditChain.VerifierIsExact` | src/picodome/audit/logger.py:249-275 | the verifier reports nothing if and only if every line that is not blank parses and, but for line 1, carries the hash of the line before |
| `AuditChain.ReportedIff` | src/picodome/audit/logger.py:249-275 | what is reported, entry by entry: the number of each line that is no JSON, and of each other line but the first whose link is not the hash of the closest good line above, with both hashes |
| `AuditChain.IntactIffLinked` | src/picodome/audit/logger.py:255-275 | intact logs are exactly those whose entries form a linked chain, with the stated effect of a blank first line |
| `AuditChain.CleanLogsWithSameEnd` | src/picodome/audit/logger.py:249-275 | under an injective hash, two logs that verify and end in the same entry are one a suffix of the other |
| `AuditChain.ReplacementIsReported` | src/picodome/audit/logger.py:249-275 | exactly when replacing one line of a verifying log is reported, for every such log, line and text: while an entry follows, it goes unseen only when the line is blanked, or was blank, right behind its double, and that links to itself; with nothing but blank lines below, blanking it goes unseen, and so does any line that parses and links |
| `AuditChain.SolidReplacementIsReported` | src/picodome/audit/logger.py:249-275 | in a log without blank lines every change above the last line is reported, except blanking a line that repeats the one above it |
| `AuditChain.BlankEndHidesReplacement` | src/picodome/audit/logger.py:255-275 | a log of one line and a blank one: any other line that parses takes its place unreported |
| `AuditRotation.ShiftBackups` | src/picodome/audit/logger.py:431-435 | the loop, from the highest number down, computes the shift |
| `AuditRotation.ShiftMoves` | src/picodome/audit/logger.py:431-435 | the shift loop moves every existing backup up by one |
| `AuditRotation.RotateNumbered` | src/picodome/audit/logger.py:428-443 | rotation makes the current file backup 1 and loses only a backup beyond the capacity |
| `AuditRotation.RotateOnDisk` | src/picodome/audit/logger.py:428-443 | rotation keeps everything on disk until the capacity is reached, then drops exactly the oldest backup |
| `AuditRotation.SizeAdds` | src/picodome/audit/logger.py:416 | the size that decides about rotation is that of all lines of the file |
| `AuditRotation.AppendRotatesIff` | src/picodome/audit/logger.py:410-420 | a line goes behind the others if and only if they are smaller than the limit; otherwise they become backup 1, every backup moves up, and the line starts a file |
| `AuditRotation.RunsFill` | src/picodome/audit/logger.py:410-443 | after any run every backup holds at least max_bytes, and the current file without its last line holds fewer |
| `AuditRotation.RecordKeepsConsistent` | src/picodome/audit/logger.py:192-211 | recording keeps the files a linked suffix of everything recorded, with the head the hash of the last line |
| `AuditRotation.RestartRecoversHead` | src/picodome/audit/logger.py:445-467 | a restart reads back exactly the head held in memory |
| `AuditRotation.InterruptedRotationForgetsHead` | src/picodome/audit/logger.py:416-420 | stopped between truncating and appending, it does not |
| `AuditRotation.BreakIsUnseen` | src/picodome/audit/logger.py:239-280 | after an interrupted rotation and one more record every file still verifies on its own, while all of them together, oldest first, do not |
| `AuditRotation.EverythingVerifies` | src/picodome/audit/logger.py:239-280 | the current file, each backup, and all of them in order verify |
| `AuditRotation.RunsVerify` | src/picodome/audit/logger.py:192-211 | after any sequence of records, rotations and clean restarts all that still holds, and the head is recovered |
| `AuditLogging.AuditLogger.Record` | src/picodome/audit/logger.py:192-211 | on any directory appends the event linked to the previous line and moves the head; a consistent directory stays consistent |
| `AuditLogging.AuditLogger.Restart` | src/picodome/audit/logger.py:164-168 | takes the head from the current file of any directory; on a consistent one nothing changes |
| `AuditLogging.AuditLogger.constructor` | src/picodome/audit/logger.py:155-168 | a logger on any directory starts from the head it reads there; on an empty one it is consistent |
| `AuditLogging.AuditLogger.AppendLine` | src/picodome/audit/logger.py:410-420 | rotates when the file has reached the limit, then appends |
| `AuditLogging.AuditLogger.Rotate` | src/picodome/audit/logger.py:428-443 | the current file becomes backup 1 of the shifted ones and is truncated |
| `AuditLogging.AuditLogger.ReadLastHash` | src/picodome/audit/logger.py:445-467 | the hash of the last line that is not blank, if it is JSON |
| `AuditLogging.AuditLogger.VerifyChain` | src/picodome/audit/logger.py:239-280 | on any file the report, or the error that a JSON line raises when it is no object; an empty report if and only if the file is an intact chain |
| `AuditSinks.FileSink.WriteLine` | src/picodome/audit/sinks/file_sink.py:108-120 | through a cached handle, every line lands where the audit log's own append would put it; the handle always points at the named file |
| `AuditSinks.FileSink.RotateFile` | src/picodome/audit/sinks/file_sink.py:122-143 | the same rotation as the log's, leaving no handle on the old file |
| `BinaryHeap.SiftDown` | src/picodome/ratelimit/queue.py:131 | restores heap order below a start after an insertion, keeping the elements |
| `BinaryHeap.ChoicesIff` | src/picodome/ratelimit/queue.py:47-51 | a first choice has the smallest priority number and of those the earliest stamp, a last choice the largest and the latest |
| `BinaryHeap.SiftUp` | src/picodome/ratelimit/queue.py:162 | restores heap order below a position whose subtrees are heaps, keeping the elements |
| `BinaryHeap.Heapify` | src/picodome/ratelimit/queue.py:230 | makes a heap of any list with the same elements |
| `BinaryHeap.HeapPush` | src/picodome/ratelimit/queue.py:131 | the heap with one more element |
| `BinaryHeap.HeapPop` | src/picodome/ratelimit/queue.py:162 | removes a minimum by (priority, created_at), in numbers, and leaves a heap of the rest |
| `JobQueueModel.EvictsMoreUrgentIff` | src/picodome/ratelimit/queue.py:110-117 | the evicted job is more urgent than the incoming one if and only if every waiting job is |
| `JobQueueModel.AcceptIsSoundIff` | src/picodome/ratelimit/queue.py:119-135 | storing a job keeps the books if and only if its truncated random id is new |
| `JobQueueModel.FinishIsSoundIff` | src/picodome/ratelimit/queue.py:167-181 | `complete` and `fail` keep the books if and only if the job was handed out |
| `JobQueueModel.Conservation` | src/picodome/ratelimit/queue.py:90-96 | enqueued = dequeued + expired + evicted + waiting, and the queue is within its bound |
| `JobQueueModel.NextIsSound` | src/picodome/ratelimit/queue.py:98-253 | every operation keeps the books: a job waits exactly when its record says "queued", and the counters count the records |
| `JobQueueModel.RunsConserve` | src/picodome/ratelimit/queue.py:98-253 | both at every moment of every run, and dropped = evicted + refused |
| `JobQueueModel.DrainIsSorted` | src/picodome/ratelimit/queue.py:47-51 | draining yields a sequence sorted by (priority, created_at) |
| `JobQueueModel.DequeuesDrain` | src/picodome/ratelimit/queue.py:159-165 | what a run of dequeues hands out is such a drain |
| `JobQueueModel.DequeuesAreSorted` | src/picodome/ratelimit/queue.py:159-165 | so workers get waiting jobs sorted by (priority, created_at), first come first served within a priority |
| `JobQueueModel.DrainIsFifo` | src/picodome/ratelimit/queue.py:47-51 | first come, first served within a priority when stamps differ |
| `JobQueueModel.ListingIsDrainOrder` | src/picodome/ratelimit/queue.py:193-198 | with distinct keys, sorting the waiting jobs foretells the order in which they will be handed out |
| `JobQueues.JobQueue.Enqueue` | src/picodome/ratelimit/queue.py:98-135 | accepts, refuses or evicts a last choice; refuses if and only if the queue is full and the job is LOW or nothing waits; what was stored, counted and kept; the books survive if and only if nothing was accepted or the random id is new |
| `JobQueues.JobQueue.WorstIndex` | src/picodome/ratelimit/queue.py:237-247 | the scan finds the first maximum by (priority, created_at) |
| `JobQueues.JobQueue.EvictLowest` | src/picodome/ratelimit/queue.py:233-253 | removes a job that no waiting one exceeds in priority number or, of the same priority, in stamp, marks it "dropped", counts it and restores the heap |
| `JobQueues.JobQueue.Dequeue` | src/picodome/ratelimit/queue.py:159-165 | hands out a job with the smallest priority number that waits, of those the earliest, marked "processing", and changes nothing else |
| `JobQueues.JobQueue.Complete` | src/picodome/ratelimit/queue.py:167-174 | a known job is marked and counted and nothing else changes; exactly when the new state is still valid |
| `JobQueues.JobQueue.Fail` | src/picodome/ratelimit/queue.py:176-181 | a known job is marked and counted and nothing else changes; exactly when the new state is still valid |
| `JobQueues.JobQueue.PurgeExpired` | src/picodome/ratelimit/queue.py:221-231 | removes and marks exactly the waiting jobs older than the cutoff, counts them and restores the heap |
| `TokenBucket.RefillTwice` | src/picodome/ratelimit/limiter.py:61-66 | refilling at t1 and then t2 is refilling once at t2 |
| `TokenBucket.ConsumeIff` | src/picodome/ratelimit/limiter.py:61-74 | a request is granted if and only if the bucket holds as much, with rate tokens earned per second and no more than burst, and only then pays |
| `TokenBucket.ScriptRefinesConsume` | src/picodome/ratelimit/redis_limiter.py:36-57 | on a clock that does not run backwards one script call equals one in-memory consume |
| `TokenBucket.ScriptRunRefines` | src/picodome/ratelimit/redis_limiter.py:29-58 | so do whole runs: every call of every run gets the answer of the in-memory bucket, and the stored hash is that bucket |
| `TokenBucket.ScriptIff` | src/picodome/ratelimit/redis_limiter.py:29-58 | on any clock: an unknown key counts as full, and a bucket whose time has not advanced is neither refilled nor stamped |
| `TokenBucket.ScriptOnAnyClock` | src/picodome/ratelimit/redis_limiter.py:40-57 | on any clock tokens stay within 0 and burst and last_refill is the running maximum |
| `TokenBucket.ScriptBound` | src/picodome/ratelimit/redis_limiter.py:29-58 | on any clock the total consumed is at most burst + rate * (latest - first time) |
| `TokenBucket.RedisBucket.TokenBucketScript` | src/picodome/ratelimit/redis_limiter.py:29-58 | the script's branches store and answer what the script function says |
| `LimiterModel.EvictionInvisible` | src/picodome/ratelimit/limiter.py:174-180 | when rate * idle timeout >= burst, deleting idle buckets changes no answer on any request sequence, whatever the amounts |
| `LimiterEviction.EvictionInvisibleIff` | src/picodome/ratelimit/limiter.py:102-180 | for every configuration: deletion changes no answer of any run if and only if a bucket fills up within the idle timeout, or there is a global limit that lets nothing through, or one that refills no faster than a bucket and falls behind it within the idle timeout by all that it holds more |
| `LimiterOvershadow.OvershadowedIsInvisible` | src/picodome/ratelimit/limiter.py:112-139 | one half of it: what the deleting limiter holds more for an actor than one that never deletes, the global bucket never lets through |
| `LimiterEviction.AheadExceeds` | src/picodome/ratelimit/limiter.py:112-139 | the other half at work: where the global bucket refills faster, an actor whose bucket was restored can spend more than the limit allows |
| `LimiterBounds.AllowedIff` | src/picodome/ratelimit/limiter.py:102-139 | a request is admitted if and only if the global bucket, if there is one, and the actor's own hold enough |
| `LimiterBounds.RequestCosts` | src/picodome/ratelimit/limiter.py:114-131 | the global bucket pays whenever it holds enough, even if the actor's own bucket then refuses; the actor pays for what is admitted |
| `LimiterBounds.GrantedRequest` | src/picodome/ratelimit/limiter.py:112-139 | once the global bucket has paid, the actor's own, a full one if it has none, decides and pays; others are only deleted if idle, and only when a minute has passed since that was last done or a new actor comes at capacity |
| `LimiterBounds.RefusedRequest` | src/picodome/ratelimit/limiter.py:114-116 | a request that the global bucket refuses leaves every actor's bucket alone |
| `LimiterBounds.GlobalBurstIs` | src/picodome/ratelimit/limiter.py:89-100 | the global bucket holds what is earned in ten seconds, rounded down, and starts full |
| `LimiterBounds.ActorBound` | src/picodome/ratelimit/limiter.py:112-139 | over any window of any run one actor is admitted at most burst + rate * T, when buckets fill up within the idle timeout |
| `LimiterOvershadow.ShadowedActorBound` | src/picodome/ratelimit/limiter.py:112-139 | so it is when the global limit stands in front of the actors' own |
| `LimiterEviction.RateLimitedIff` | src/picodome/ratelimit/limiter.py:102-180 | and otherwise some run lets an actor exceed it: the rate limit of an actor holds over all windows of all runs under exactly the condition of `EvictionInvisibleIff` |
| `LimiterBounds.GlobalBound` | src/picodome/ratelimit/limiter.py:96-116 | over any window of any run all actors together are admitted at most the global burst + global_rps * T |
| `LimiterBounds.TrackedIff` | src/picodome/ratelimit/limiter.py:117-124 | a request leads beyond `max_actors` tracked actors if and only if it is admitted globally, its actor is new, the maximum is reached and no bucket is idle |
| `LimiterBounds.CrowdIsTracked` | src/picodome/ratelimit/limiter.py:34-35 | any number of actors that call at one moment are all tracked, whatever the maximum |
| `Limiters.TokenBucket.Consume` | src/picodome/ratelimit/limiter.py:68-74 | refill then consume, in place |
| `Limiters.TokenBucketLimiter.constructor` | src/picodome/ratelimit/limiter.py:89-100 | no buckets, and a global one with ten seconds of burst when a global rate is set |
| `Limiters.TokenBucketLimiter.Allow` | src/picodome/ratelimit/limiter.py:102-139 | the new state and the answer of one request: global bucket first, sweep at capacity, periodic sweep |
| `Limiters.TokenBucketLimiter.CleanupStale` | src/picodome/ratelimit/limiter.py:174-180 | keeps exactly the buckets used since the cutoff, unchanged |
| `Limiters.TokenBucketLimiter.GetStatus` | src/picodome/ratelimit/limiter.py:141-160 | refills, reports the tokens rounded half to even to two digits and whether fewer than one is left, and makes no bucket |
| `PolicyLines.SplitJoin` | src/picodome/policy_versioned/signing.py:250 | joining one-line texts and splitting them again gives them back |
| `PolicyLines.JoinSplit` | src/picodome/policy_versioned/signing.py:234 | splitting a text and joining it again gives it back |
| `PolicyLines.SpacesAre` | src/picodome/policy_versioned/signing.py:235 | the characters that stripping removes |
| `PolicySigning.StripSignedIff` | src/picodome/policy_versioned/signing.py:232-250 | stripping a signed policy returns the policy if and only if it held no block before and ends in one newline after a line that is not blank, or is a lone newline |
| `PolicySigning.StrippedIsClean` | src/picodome/policy_versioned/signing.py:232-250 | a stripped text has no marker, and if it was signed it ends properly |
| `PolicySigning.StripIdempotent` | src/picodome/policy_versioned/signing.py:232-250 | stripping is idempotent on every text |
| `PolicySigning.ParseSigned` | src/picodome/policy_versioned/signing.py:185-229 | for every content: parsing a signed policy recovers every printed field, unless it held a block before that ends within it, whose fields are then read |
| `PolicySigning.SignedText` | src/picodome/policy_versioned/signing.py:143-166 | a signed policy is the policy and six lines, letter by letter |
| `PolicySigning.BlockParses` | src/picodome/policy_versioned/signing.py:185-229 | a block printed below a text parses as the four fields that were printed |
| `PolicySigning.ShortBlockParses` | src/picodome/policy_versioned/signing.py:221-229 | a block that names no key id counts as signed under "default", one without a signature as none |
| `PolicySigning.VerifiedKeyIdIsPlain` | src/picodome/policy_versioned/signing.py:275-281 | nothing verifies against a key id with a newline or surrounding blanks |
| `PolicySigning.ValidIff` | src/picodome/policy_versioned/signing.py:253-303 | for every text: valid if and only if the parsed block is of the supported algorithm, names the expected key id and carries the code of the stripped text; which error otherwise, and what the result reports |
| `PolicySigning.OtherKeyIdFails` | src/picodome/policy_versioned/signing.py:275-281 | a policy signed under one key id does not verify under another, even with the same key |
| `PolicySigning.OtherAlgorithmFails` | src/picodome/policy_versioned/signing.py:268-273 | a block of another algorithm never verifies, even with the right code |
| `PolicySigning.OtherKeyIff` | src/picodome/policy_versioned/signing.py:284-303 | under another key a signed policy verifies if and only if both keys give its text the same code |
| `PolicySigning.SignThenVerify` | src/picodome/policy_versioned/signing.py:253-297 | for any MAC, colliding or not, a freshly signed policy verifies if its key id is plain, it held no block and it ends properly |
| `PolicySigning.SignThenVerifyIff` | src/picodome/policy_versioned/signing.py:253-297 | for every content under a collision-free MAC: a freshly signed policy verifies if and only if its key id is plain and it ends properly; one that held a block before, if and only if that block ends within it and verified already |
| `PolicySigning.SignFileVerifiesIff` | src/picodome/policy_versioned/signing.py:169-178 | a file signed in place verifies if and only if it was signed before or ends properly |
| `PolicySigning.ResignKeepsPolicy` | src/picodome/policy_versioned/signing.py:169-178 | signing a signed file keeps the policy and replaces everything from the old marker on: the file is then the policy and one block |
| `PolicySigning.ValidSignaturePinsText` | src/picodome/policy_versioned/signing.py:284-296 | two files that verify under one key carry one signature if and only if they hold the same policy text |
| `PolicySigning.FindMarker` | src/picodome/policy_versioned/signing.py:235-239 | the loop finds the first marker line, if any |
| `PolicySigning.StripSignatureBlock` | src/picodome/policy_versioned/signing.py:232-250 | the loop that pops blank lines computes the stripped text |
| `PolicySigning.ReadBlock` | src/picodome/policy_versioned/signing.py:207-219 | the field loop, with its early exit, computes the parsed fields |
| `PolicySigning.ParseSignatureBlock` | src/picodome/policy_versioned/signing.py:185-229 | the parsed signature, or none |
| `PolicyModel.PolicyRoundTrip` | src/picodome/l3/policy.py:462-483 | `_policy_from_dict` inverts `to_dict` on every policy |
| `PolicyModel.RuleRoundTrip` | src/picodome/l3/models.py:49-58 | so it does rule by rule |
| `PolicyModel.ToDictIsInjective` | src/picodome/l3/models.py:71-89 | two policies have one dictionary if and only if they are equal |
| `PolicyModel.DefaultsAreRead` | src/picodome/l3/policy.py:477-483 | an empty dictionary reads as the policy "custom" that denies everything and fails closed |
| `PolicyModel.RuleNeeds` | src/picodome/l3/policy.py:465-475 | a rule needs an id, a target and an action, is refused for the first one missing, and needs nothing else |
| `PolicyModel.ActionTexts` | src/picodome/l3/policy.py:470 | an action is read from its own text and from no other |
| `PolicyModel.ReadRules` | src/picodome/l3/policy.py:464-476 | the loop reads every rule or stops at the first that raises |
| `PolicyModel.ValidatePolicy` | src/picodome/l3/policy.py:407-459 | no complaint if and only if there are rules and their ids are unique; a duplicate is named if and only if its id repeats |
| `PolicyCanonical.CanonicalIff` | src/picodome/l3/policy_hash.py:17-46 | equal canonical forms if and only if name, version and default action agree and, for every id, the rules of that id match in order up to permuting paths, addresses and syscalls |
| `PolicyCanonical.CanonicalOfUniqueIff` | src/picodome/l3/policy_hash.py:17-46 | with unique ids: if and only if the rules match up to any permutation |
| `PolicyCanonical.SwappedDuplicatesDiffer` | src/picodome/l3/policy_hash.py:39 | with a repeated id, swapping the two rules is invisible if and only if they match |
| `PolicyCanonical.CanonicalIsSorted` | src/picodome/l3/policy_hash.py:39 | no rule of the canonical form has an id that comes before one above it |
| `PolicyCanonical.CanonicalListsAreSorted` | src/picodome/l3/policy_hash.py:22-38 | the lists of a rule hold the same texts in order |
| `PolicyHistory.VersionRoundTrip` | src/picodome/policy_versioned/store.py:52-73 | reading back a written version gives the version |
| `PolicyHistory.VersionDefaults` | src/picodome/policy_versioned/store.py:63-73 | what a version file reads as that holds only a policy, or nothing |
| `PolicyHistory.FileNameInjective` | src/picodome/policy_versioned/store.py:125 | different versions have different file names, none of them the latest pointer's |
| `PolicyHistory.FileNameIs` | src/picodome/policy_versioned/store.py:125 | the name is "v", the number in decimal without leading zeros, and ".json" |
| `PolicyHistory.ListingIsExact` | src/picodome/policy_versioned/store.py:256-269 | a listing holds every stored version and nothing else |
| `PolicyHistory.IntegrityIff` | src/picodome/policy_versioned/store.py:239-252 | what is reported: exactly the stored versions whose content hash is present and wrong |
| `PolicyRuns.SaveAppends` | src/picodome/policy_versioned/store.py:94-154 | saving appends version n + 1 to the history |
| `PolicyRuns.SaveWrites` | src/picodome/policy_versioned/store.py:94-154 | over any files: a save stores the version with the policy's hash under its number, one or one more than the highest listed, and as the latest, and changes what no other number and no other policy loads |
| `PolicyRuns.RunsStandFor` | src/picodome/policy_versioned/store.py:94-189 | any run of saves and rollbacks over the files is the same run over an append-only log |
| `PolicyRuns.HistoryIsComplete` | src/picodome/policy_versioned/store.py:94-172 | from an empty store, after any run: the versions are exactly 1 to n, each loads as logged, the latest is n, integrity checking finds nothing |
| `PolicyRuns.VersionsNeverChange` | src/picodome/policy_versioned/store.py:94-189 | a version that can be loaded loads the same after any further run |
| `PolicyRuns.RollbackRestores` | src/picodome/policy_versioned/store.py:174-189 | rolling back makes the old policy the latest again, under the next number |
| `PolicyRuns.ReplacedVersionIff` | src/picodome/policy_versioned/store.py:239-252 | a replaced version file is reported if and only if it carries a hash that is not its policy's, and nothing else is reported |
| `PolicyRuns.ChangedPolicyIsReported` | src/picodome/policy_versioned/store.py:239-252 | under an injective hash, changing a stored policy and leaving its hash is always reported |
| `PolicyRuns.LatestIsUnchecked` | src/picodome/policy_versioned/store.py:158-162 | whatever replaces the latest pointer is served and never reported |
| `PolicyStores.Compare` | src/picodome/policy_versioned/store.py:202-225 | nothing differs if and only if both versions decide every rule id alike and share the default action; added, removed and changed ids are exact |
| `PolicyStores.ByIdHas` | src/picodome/policy_versioned/store.py:202-203 | what is compared are the ids that rules have |
| `PolicyStores.ByIdIs` | src/picodome/policy_versioned/store.py:202-203 | an id stands for the last rule that has it |
| `PolicyStores.VersionedPolicyStore.ListStored` | src/picodome/policy_versioned/store.py:256-269 | the loop over sorted names computes the listing |
| `PolicyStores.VersionedPolicyStore.SaveVersion` | src/picodome/policy_versioned/store.py:94-154 | the new files, and that the version returned is what loads by its number and as the latest |
| `PolicyStores.VersionedPolicyStore.LoadVersion` | src/picodome/policy_versioned/store.py:156-172 | a version by number or the latest, with the fallback |
| `PolicyStores.VersionedPolicyStore.RollbackTo` | src/picodome/policy_versioned/store.py:174-189 | saves the target's policy again, or changes nothing |
| `PolicyStores.VersionedPolicyStore.VerifyStored` | src/picodome/policy_versioned/store.py:239-252 | the loop computes the report |
| `JobStoreModel.Changed` | src/picodome/daemon/store.py:213-215 | an update overwrites the given fields, stamps the completion time when the job finishes, and leaves the rest, the id included |
| `JobStoreModel.FoldRecords` | src/picodome/daemon/store.py:84-97 | a written file reads back as the dict it was written from, less a job without an id |
| `JobStoreModel.LastLineCounts` | src/picodome/daemon/store.py:84-97 | a job is read from the last line that holds its id, whatever blank or broken lines lie about |
| `JobStoreModel.ReadFromALine` | src/picodome/daemon/store.py:84-97 | and nothing is read that no line holds, or under an empty id |
| `JobStoreModel.NewestByPlace` | src/picodome/daemon/store.py:103-109 | a job is kept if and only if fewer than max_jobs jobs are newer, or as new and earlier in the dict |
| `JobStoreModel.NewestFirst` | src/picodome/daemon/store.py:226-235 | in a listing no job has a later stamp than one above it |
| `JobStoreModel.NoneNewerIsLeftOut` | src/picodome/daemon/store.py:103-109 | no job that is left out has a later stamp than one that is kept |
| `JobStoreRuns.RunAgrees` | src/picodome/daemon/store.py:170-218 | after any run of adds and updates the file folds to the dict in memory, less the empty id |
| `JobStoreRuns.FileIsMemoryIff` | src/picodome/daemon/store.py:161-251 | from an empty store the file folds to exactly the dict in memory if and only if no job has the empty id |
| `JobStoreRuns.CompactionIsInvisible` | src/picodome/daemon/store.py:79-159 | loading through `_compact` and loading without it leave the same jobs |
| `JobStoreRuns.LoadIs` | src/picodome/daemon/store.py:62-112 | a line that raises empties the store; otherwise memory holds jobs of the file, as many as max_jobs allows, and the file is rewritten if and only if it is larger than ten mebibytes |
| `JobStoreRuns.LoadLeavesOutTheOldest` | src/picodome/daemon/store.py:103-109 | no job of the file that a load does not keep has a later stamp than one that it keeps |
| `JobStoreRestarts.RunKeepsNewest` | src/picodome/daemon/store.py:55-251 | in every run whose calls hide restarts, memory and file have the same newest max_jobs jobs in the same order, although a truncating restart leaves older ones in the file |
| `JobStoreRuns.RestartKeepsNewest` | src/picodome/daemon/store.py:68-112 | wherever memory and file have the same newest jobs, a restart keeps exactly the max_jobs newest, ties in dict order, unchanged |
| `JobStoreRuns.RestartKeepsAll` | src/picodome/daemon/store.py:68-112 | and it loses nothing while there are no more than max_jobs jobs |
| `JobStoreRuns.RestartIsIdempotent` | src/picodome/daemon/store.py:68-159 | restarting again, through either path, keeps the same jobs |
| `JobStoreRuns.ListingSurvivesRestart` | src/picodome/daemon/store.py:226-235 | a restart cannot be seen in a listing of at most max_jobs jobs, order and ties included, wherever memory and file have the same newest jobs |
| `JobStoreRestarts.NoRestartShows` | src/picodome/daemon/store.py:55-251 | over any readable file and in any run in which new jobs get new ids, a restart can be seen at no moment in any listing of at most max_jobs jobs |
| `JobStoreRestarts.NoRestartShowsIff` | src/picodome/daemon/store.py:55-251 | over any readable file and for any run with any restarts: a restart can be seen at no moment in a listing of the max_jobs newest jobs if and only if every call hides it |
| `JobStoreRestarts.StepHidesIff` | src/picodome/daemon/store.py:170-251 | call by call: an added job hides it if it takes the same place among the newest of memory and file, or is too old to be listed in both and without its id both list the same; an update, unless memory lists a job without an id |
| `JobStoreRestarts.ReusedIdHidesIff` | src/picodome/daemon/store.py:170-196 | for an id that was truncated away, or one still in memory and a job no older than the one it replaces, the places alone decide |
| `JobStoreRestarts.ReaddedIdShows` | src/picodome/daemon/store.py:68-112 | an id that was truncated away is submitted again: a tie is listed the other way round after a restart |
| `JobStoreRestarts.KeptIdShows` | src/picodome/daemon/store.py:68-112 | so it is for an id that memory still has |
| `JobStoreRuns.RunsStayCovered` | src/picodome/daemon/store.py:55-251 | in every run with restarts over any readable file, each job in memory is what the file would give back |
| `JobStoreRuns.ScalarLineStartsFresh` | src/picodome/daemon/store.py:62-66 | one JSON line that is no object empties the store, and the next update erases the file |
| `JobStores.PersistentScanJobStore.ReadJobs` | src/picodome/daemon/store.py:84-97 | the reading loop computes the fold, or stops at a line that raises |
| `JobStores.PersistentScanJobStore.EnsureLoaded` | src/picodome/daemon/store.py:55-112 | loads once: compaction above the size limit, truncation above max_jobs; which jobs, how many, and when the file stays as it was |
| `JobStores.PersistentScanJobStore.Compact` | src/picodome/daemon/store.py:114-159 | the file and the dict after compaction |
| `JobStores.PersistentScanJobStore.AddJob` | src/picodome/daemon/store.py:170-196 | stores and appends one pending job with the given command, actor and time, nothing else set |
| `JobStores.PersistentScanJobStore.UpdateJob` | src/picodome/daemon/store.py:198-218 | sets the given fields of a known job and no others, stamps one that completed or failed and rewrites the file; an unknown id changes nothing |
| `JobStores.PersistentScanJobStore.ListRecentJobs` | src/picodome/daemon/store.py:226-235 | as many jobs as asked for and there are, newest first, none left out that is newer |
| `Discovery.Walk` | src/picodome/workspace.py:142-206 | the queue loop ends on every finite tree and has found exactly the projects |
| `Discovery.MarkersDecide` | src/picodome/workspace.py:31-42 | which marker file makes which type of project, and both a mixed one |
| `Discovery.OneStepIff` | src/picodome/workspace.py:201-206 | one part of a path leads to the real directory of that name in a readable directory, never through a link |
| `Discovery.PromisedIff` | src/picodome/workspace.py:142-206 | what is promised: markers that say the type, readable, not too deep, and no dot name or skipped name on the way; of the skipped names the ones that start with a dot add nothing |
| `Discovery.SmallWorkspace` | src/picodome/workspace.py:122-208 | a small tree with a mixed project, a linked marker and an installed package that is no project |
| `Discovery.DiscoverProjects` | src/picodome/workspace.py:122-208 | returns, once each and in path order, exactly the readable marker directories at depth at most max_depth with no skipped, dot-named or linked directory on the way, each with its type |
| `Discovery.PathTextIs` | src/picodome/workspace.py:208 | the text that projects are sorted by is the path joined by slashes |
| `RetentionModel.BytesConserved` | src/picodome/retention/manager.py:292-346 | bytes freed and bytes left make up the bytes there were, plus what counted deletions left behind; a failed secure deletion may leave any number of bytes and a new modification time, and the quota pass sees it so |
| `RetentionModel.BytesConservedIff` | src/picodome/retention/manager.py:315-320 | the reported figure is exact if and only if every counted file is gone or was emptied; plain deletion never counts a failure |
| `RetentionModel.TimePassIs` | src/picodome/retention/manager.py:305-320 | the time pass attempts exactly the files more than ttl_days days of 86400 seconds old, what becomes of each, and which count |
| `RetentionModel.SureCleanup` | src/picodome/retention/manager.py:292-346 | when no deletion fails, what is kept are files as they were, none past its time, all such files without a quota, and otherwise no more than max_size_mb mebibytes |
| `RetentionModel.QuotaTakesShortestPrefix` | src/picodome/retention/manager.py:324-344 | the quota pass attempts the shortest oldest-first prefix after which what it counted makes the rest fit, or every file when there is none; failed plain deletions are skipped and not counted |
| `RetentionModel.QuotaSparesTheRest` | src/picodome/retention/manager.py:324-344 | when every attempt counts, always when it is secure, that is a shortest prefix without which the rest fits |
| `RetentionModel.OldestGoFirst` | src/picodome/retention/manager.py:310-344 | over both passes, no deletable file stays while a newer one goes |
| `RetentionModel.SecureFits` | src/picodome/retention/manager.py:325-344 | a secure policy meets its quota whenever deletion fails, if at all, only at its last step, when the file is already empty |
| `RetentionModel.FitsIff` | src/picodome/retention/manager.py:325-344 | exactly when a directory ends within its quota, for every policy: one that never expires if it fits already; a plain one if and only if the files that cannot be deleted fit; a secure one if what failed deletions left fits beside the files it spared |
| `Retention.RetentionManager.RemoveExpired` | src/picodome/retention/manager.py:310-322 | the first loop: files left, failed ones as their deletion left them, counts and error names |
| `Retention.RetentionManager.RemoveOverQuota` | src/picodome/retention/manager.py:325-344 | the second loop: files left, failed ones as their deletion left them, and counts |
| `Retention.RetentionManager.CleanupDirectory` | src/picodome/retention/manager.py:292-346 | both, or nothing at all when the policy never expires |

## Left out

- The HTTP and gRPC daemons, CLI, admission webhook, Rekor notary, mTLS, tracing and the syslog and webhook sinks: network and process plumbing.
- The sandbox backends (seccomp, seatbelt, subprocess): they rest on the operating system.
- The detector rules, profiler patterns and differ: tables of string matches with no property across functions.
- `SQLiteStateBackend`, the SQLite and Redis stores and the Redis key expiry: engine behaviour.
- SHA-256, HMAC, JSON, gzip, `fromisoformat` and floating-point rounding: function parameters and exact reals.
- Failures of reading, writing and moving files, except in retention, where a failed deletion is a property of the file.
- File permissions and the overwriting passes of secure deletion: what a failed one leaves of a file, and its new modification time, are given with the file.
- Interleaving: each locked method, and each failover and health check, is one step; each call reads the clock once.
- Objects handed to callers that stay shared with the store (scans, nodes, queued jobs, stored jobs) are values here, so a later change through them is not seen.
- Tenant stores, config merging, licence checks, formatters and health endpoints: branch tables.
- EvictionInvisibleIff: amounts of requests are not negative, which `allow` does not check; the same holds of RateLimitedIff.
- HeapPush: the list functions of `heapq` return the new list; the queue then stores it in its field.
- Dequeue: one attempt; waiting on the condition variable is not modelled.
- DiscoverProjects: gives no project name or version, which are read from the marker files' text.
- ListStored: a stored field of the wrong JSON type counts as raising; some of them Python would carry along unread.
- ReadJobs: ids and creation times are text, and any other type reads as absent; `max_jobs` is not negative.
- SaveVersion: a policy name is an opaque directory name; path separators in it are not interpreted.
- RemoveOverQuota: both passes see the directory in one listing order, which decides ties in modification time.
- FailoverMoves: says which scans move and where to, not that re-running a completed scan is harmless.
