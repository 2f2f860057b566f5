# Verified models of the panel's bookkeeping

PasarGuard's panel meters traffic, keeps every worker's picture of cores and
hosts equal, and keeps proxy nodes serving exactly the right users. This
project models that logic in Dafny and proves what it keeps over whole runs.
`dafny verify dfyconfig.toml` checks everything.

| file | what it models |
|---|---|
| `SafeExecute.dfy` | one database write with its retries, and what a failure is known to have left behind |
| `Ledgers.dfy`, `Pieces.dfy`, `UsageTotals.dfy` | sums per id; scaling, chunking and merging the counters taken off the nodes |
| `Upserts.dfy` | the chart tables and the statements of three SQL dialects, as data with a meaning |
| `UsageLedger.dfy`, `UsageLedgerTheorems.dfy` | one accounting cycle as a step of tables and carry buffers, with the outcome of each write chosen by the environment; conservation over runs |
| `OverlappingCycles.dfy`, `CycleSteps.dfy` | what would happen if cycles overlapped, and that a job alone is the cycle |
| `CoreReplicas.dfy`, `HostReplicas.dfy` | workers, their pending messages and the broadcast log; convergence |
| `SyncBlocked.dfy`, `NodeSync.dfy` | the tables that decide who may be served, the four forms of "blocked", and a node kept up to date by pushes |
| `GroupResync.dfy` | revoking access on WireGuard and L2TP backends, and the pruned full resync |
| `StatefulNodes.dfy` | what such a backend may hold over whole runs of changes without a resync |
| `NatsChunking.dfy` | packing user updates into commands of limited size |
| `Webhooks.dfy`, `WebhookTheorems.dfy` | the webhook queue with retries |
| `XrayFallback.dfy` | reading Xray inbounds and resolving fallbacks |
| `WireGuardSubnets.dfy` | CIDR arithmetic and the separation of client subnets |
| `CommaText.dfy`, `ArrayColumns.dfy` | comma-separated columns |

Code that changes state is a class or method here too, and is proved against a
function of the old state; what the panel promises is then proved about that
function as lemmas. Coefficients are positive reals and `int()` is the floor.
Where a definition is used both by an operation and by the theorems about it, a
second one by the columns, fields or literals of the source pins it down
(`EntitledTo`, `HeldByRight`, `RunsTag`, `KeepsState`, `MadeFor`, `PointsAt`,
`InBlock`, `Sendable`, `RowOf`, `ToggledTo`), and the two are proved equal.
Where Python iterates a set or a dictionary, `IterationOrder` returns the keys in
an arbitrary order, so the results hold for every order.

## Where a promise fails

Some of the promises hold only under a condition. For each there is a lemma with
a failing input or a whole failing family, and one that says exactly when the
promise holds.

- The share of an admin is lost when the user write of its cycle rolls back:
  the error is raised before the admin stage and only the user window is parked
  (`AdminConservedIff`, `AdminShareLostOnUserRollback`).
- A chart call of more rows than one batch (1000 on MySQL, 400 on SQLite) is
  several transactions. If one of them rolls back the call is parked whole, and
  the rows the earlier ones committed are counted again
  (`SplitCallOvercountsIff`, `OvercountPossibleIff`, `TwoStatementsOvercount`).
- The comment on the job's `max_instances` says overlapping cycles charge users
  twice. In the code the user window is folded in and cleared without an `await`
  between, so users are safe in every interleaving; it is admins who are charged
  twice (`OverlapNeverDoubleBillsUsers`, `OverlapBillsParkedAdminTwice`). A start
  makes that possible exactly when something is parked for the admin while a
  job that still writes users holds something for it (`StartOverBillsIff`,
  `OverBillingPossibleIff`).
- The comment on the carry buffers says a window is parked before it is written.
  The code consumes it and parks it again only after a certain rollback; the
  model follows the code.
- `safe_execute(max_retries=0)` returns normally without having done anything
  (`SafeExecute`).
- The inbound tables of two workers can differ for good when two cores define
  one tag differently (`TablesAgreeIff`, `RaceAgreesIff`), and host maps can when
  writers overlap that disagree about a host (`OverlapIsHarmlessIff`,
  `OverlappingWritesDiverge`).
- Giving users a new owner, or deleting their owner, tells no node
  (`SilentRunMatchesIff`, `ReassignedMatchesIff`, `WithoutAdminsMatchesIff`,
  `NewOwnerIsNotSynced`).
- The full query reads the tags of a user from a comma-separated column. A sing-box
  core may name an inbound with a comma; a push sends such a tag whole, while the
  full query, on every reconnect and full resync, breaks it up: the user loses the
  inbound, and is served the ones the parts name if there are such
  (`FullSetMatchesIff`, `QueriedMatchesIff`; the input is `CommaTagIsBrokenUp`).
- The pruned resync picks nodes by configured core ids, but a node whose core
  could not be loaded runs the default core; if that one is stateful the node is
  missed (`CoveredIff`, `OrphanSurvives`).
- Only group requests are followed by a full resync. When an edit of a user or a
  change of its status or its admin takes an inbound that holds state from it,
  the user is pushed, and by the documentation of `full_resync_stateful_nodes`
  such a push need not make the node drop the peer or the credential
  (`ChangeSettlesIff` and, over runs, `RunSettlesIff`; the input is
  `UserEditLeavesPeer`).
- A detached user without session counts as not blocked
  (`UserSyncBlockedIff`), and so do many (`BlockedAdminIdsForUsers`).
- A webhook run that is cancelled, while it drains or between batches, drops
  what it had taken as ready and not settled (`CutShortLoses`).
- Modifying a WireGuard core without naming its type skips the subnet check: the
  configuration is validated as an Xray one, while the stored type stays
  WireGuard. A plain WireGuard configuration is refused for that, one that also
  holds Xray inbounds and outbounds is not (`NamespacesStaySeparate`,
  `PlainRequestsAreHarmless`, `UndeclaredChangeOverlaps`).

## Model

| member | source | states |
|---|---|---|
| `SafeExecution.WriteRolledBack` | app/jobs/record_usages.py:68-91 | a failure is certain to have committed nothing exactly for MySQL 1213/1205, PostgreSQL 40P01 and a locked SQLite database; a cancellation or an unrelated error never is |
| `SafeExecution.RolledBackIff` | app/jobs/record_usages.py:68-91 | a failure is certain to have left nothing if and only if the driver reports 1213 or 1205 first, or the code 40P01, or the message holds "database is locked" |
| `SafeExecution.RetriedIff` | app/jobs/record_usages.py:467-511 | an attempt is followed by another if and only if one is left and it failed by a deadlock or lock wait, or was the first and found SQLite locked |
| `SafeExecution.RetriedNeverLanded` | app/jobs/record_usages.py:467-511 | every attempt that is followed by a retry failed with an error the certain-rollback check also accepts, so it left nothing behind |
| `SafeExecution.SafeExecute` | app/jobs/record_usages.py:442-511 | at most `max_retries` attempts; each but the last was retried and the last was not; at most one effect, exactly one on a normal return if and only if `max_retries >= 1`, none after a raise that counts as a certain rollback |
| `SafeExecution.Write` | app/jobs/record_usages.py:940-963 | a write with its retries lands exactly once on success, never on a certain rollback, at most once otherwise |
| `SafeExecution.WriteOnce` | app/jobs/record_usages.py:442-511 | a write of the job, with the default number of attempts, lands once or not at all, as its caller classifies it |
| `Pieces.ChunkedKeepsEverything` | app/jobs/record_usages.py:151-153 | the pieces concatenate to the input and none is empty or longer than the size |
| `UsageTotals.MergeOfMerges` | app/jobs/record_usages.py:139-148 | merging merged groups of dictionaries is merging all of them at once |
| `UsageTotals.ParallelEqualsSequential` | app/jobs/record_usages.py:812-875 | the per-node chunk totals, merged, are the totals of the single sequential pass, for every input and coefficient map |
| `UsageTotals.ProcessNodeChunk` | app/jobs/record_usages.py:125-136 | one node chunk sums to the totals of its scaled counters |
| `UsageTotals.MergeUsageDicts` | app/jobs/record_usages.py:139-148 | the merge of dictionaries is their pointwise sum |
| `UsageTotals.ProcessUsageSync` | app/jobs/record_usages.py:821-835 | the sequential loop computes the totals of all scaled counters |
| `UsageTotals.ProcessUsageParallel` | app/jobs/record_usages.py:837-875 | chunk tasks, partial merges and the final merge list the totals of the single loop |
| `UsageTotals.CalculateUsersUsage` | app/jobs/record_usages.py:812-875 | whichever branch runs -- thread pool, four-way merge, fallback after an executor error -- the result lists the same per-user totals, each user once; and the bill of every user is at most the sum of its counters times the coefficients of their nodes (1 where there is none), and less than one unit per counter below it |
| `UsageTotals.TruncationLoss` | app/jobs/record_usages.py:125-136 | against every counter times the coefficient the map holds for its node, truncating loses at least 0 and strictly less than one unit per entry reported for the user |
| `UsageTotals.AdminShareIsUsersSum` | app/jobs/record_usages.py:786-809 | an admin is charged the sum of what its own users are charged |
| `UsageTotals.LookUpOwners` | app/jobs/record_usages.py:786-809 | looking owners up in batches finds exactly the known users among those reported |
| `UsageTotals.CalculateAdminUsage` | app/jobs/record_usages.py:786-809 | the admin totals and the valid user ids, for every iteration order: each admin is charged what the listed users it owns come to, and nobody else is charged |
| `Upserts.GroupedIsRowByRow` | app/jobs/record_usages.py:170-279 | grouping the rows by bucket, user and node first gives the table of adding them one at a time |
| `Upserts.AddRowsConcat` | app/jobs/record_usages.py:566-581 | adding one batch after another is adding their concatenation |
| `Upserts.AddRowsOrderFree` | app/jobs/record_usages.py:170-279 | the table does not depend on the order of the rows |
| `Upserts.SourceHoldsRows` | app/jobs/record_usages.py:182-214 | the four unnested arrays read side by side, or the union of single selects, are the rows again |
| `Upserts.ChartUpsertAddsEveryRow` | app/jobs/record_usages.py:170-279 | the statement of each of the three dialects means "add every row of a known user" |
| `Upserts.CollectRows` | app/jobs/record_usages.py:548-561 | one row per counter in node order, under the bucket, user and node, worth the counter times the coefficient the map holds for the node (1 if none), truncated to whole units |
| `Upserts.Batches` | app/jobs/record_usages.py:566-573 | the statements of a call hold its rows in order, none is empty or longer than 1000 rows on MySQL and 400 on SQLite, and there is at most one if the rows fit a batch (always on PostgreSQL) |
| `Upserts.FitsOneStatementIff` | app/jobs/record_usages.py:566-573 | a call is one statement if and only if it has at most 1000 rows on MySQL, 400 on SQLite, any number on PostgreSQL |
| `Upserts.ChartCall` | app/jobs/record_usages.py:575-581 | a call has added a prefix of its rows when it ends: all of them on success, and none if it fits one statement that rolled back |
| `Upserts.RecordUserStatsBatched` | app/jobs/record_usages.py:531-581 | every statement of a call is retried and committed on its own until one raises; the table has exactly the rows of the statements that landed |
| `Upserts.ChartRowsByUser` | app/jobs/record_usages.py:548-561 | the chart rows regrouped by user are the billed entries |
| `Upserts.UserBillIsChartSum` | app/jobs/record_usages.py:548-561 | the bill of a user is the sum of the chart rows over all nodes |
| `Upserts.FlowUpsertAddsOnce` | app/jobs/record_usages.py:282-439 | for node and inbound totals, insert-ignore-zero followed by update (SQLite) and the single upserts of the other dialects add the amount once |
| `UsageLedger.MergeUsage` | app/jobs/record_usages.py:58-65 | the merged list holds, once per id, the fresh plus the carried amount |
| `UsageLedger.FilterUsage` | app/jobs/record_usages.py:927-929 | keeps exactly the known users with traffic |
| `UsageLedger.FilterParams` | app/jobs/record_usages.py:997-1001 | keeps, per node, the counters of known users, and no empty node |
| `UsageLedger.UpdateUsers` | app/jobs/record_usages.py:947-955 | the update adds each amount to the counter of its user and touches nobody else |
| `UsageLedger.UpdateAdmins` | app/jobs/record_usages.py:967-978 | the same for admins |
| `UsageLedger.AdminSharesAgree` | app/jobs/record_usages.py:786-809 | the admin totals of the listed usage are the shares of the summed usage |
| `UsageLedger.UsageRecorder.WriteUsers` | app/jobs/record_usages.py:940-963 | the user stage: consume the window, write, re-park it only on a certain rollback |
| `UsageLedger.UsageRecorder.WriteAdmins` | app/jobs/record_usages.py:966-991 | the admin stage, likewise, followed by the limit enforcement |
| `UsageLedger.UsageRecorder.RetryChart` | app/jobs/record_usages.py:1009-1021 | a carried batch is retried on its own, with its saved coefficients, statement by statement; it is parked whole again if the call raises in a statement that is certain to have rolled back |
| `UsageLedger.UsageRecorder.WriteChart` | app/jobs/record_usages.py:1023-1030 | the fresh chart batch likewise, parked with its coefficients |
| `UsageLedger.UsageRecorder.RecordUserUsages` | app/jobs/record_usages.py:905-1044 | one whole cycle changes tables and carry buffers exactly as the step function of the state machine says, for every course of every attempt of every write |
| `UsageLedgerTheorems.CycleKeepsUsers` | app/jobs/record_usages.py:926-964 | one cycle never adds more to stored plus carried than it collected for a user; exactly that unless the write ended in doubt |
| `UsageLedgerTheorems.CycleKeepsAdmins` | app/jobs/record_usages.py:966-991 | the same for admins, in a cycle that reaches the admin stage |
| `UsageLedgerTheorems.AdminConservedIff` | app/jobs/record_usages.py:957-992 | with no admin write in doubt, a cycle conserves the traffic of an admin if and only if the user write succeeded (or had nothing to write), or the admin had no share |
| `UsageLedgerTheorems.AdminShareLostOnUserRollback` | app/jobs/record_usages.py:957-964 | for every deadlocked user write followed by a clean cycle: the user is billed for both windows, the admin only for the second |
| `UsageLedgerTheorems.CycleKeepsChart` | app/jobs/record_usages.py:1009-1030 | the chart plus the carried batch at its own coefficients grows by at most what was collected plus what a split call doubled, exactly by that when no outcome is in doubt, and nothing is doubled when the calls fit one statement; a retry never re-scales |
| `UsageLedgerTheorems.BucketDoesNotMatter` | app/jobs/record_usages.py:1004-1009 | a retried batch may land in another time bucket but adds the same amounts |
| `UsageLedgerTheorems.NeverBilledTwice` | app/jobs/record_usages.py:926-1030 | over every run of cycles with every outcome of every write, and deletions and resets in between, stored plus carried never exceeds what there was plus what was collected: for users and admins always, for chart cells if every chart call is one statement, and otherwise up to the rows split calls doubled |
| `UsageLedgerTheorems.UserTrafficConserved` | app/jobs/record_usages.py:931-964 | over runs whose failed user writes are certain rollbacks, cycles without a healthy node among them, stored plus carried equals collected after every cycle, and nothing is carried after a success |
| `UsageLedgerTheorems.AdminTrafficConserved` | app/jobs/record_usages.py:966-991 | the same for admins over runs in which only the admin write fails |
| `UsageLedgerTheorems.CleanCycleReconciles` | app/jobs/record_usages.py:926-1032 | in a failure-free cycle the increment of a user is the sum of the chart rows over all nodes, and the increment of an admin is the sum of what its users are billed |
| `UsageLedgerTheorems.SplitCallOvercountsIff` | app/jobs/record_usages.py:575-581 | with no outcome in doubt, a cycle over-counts a known user in the chart if and only if a statement that committed before the one that rolled back carried traffic for it |
| `UsageLedgerTheorems.OvercountPossibleIff` | app/jobs/record_usages.py:566-581 | before a call is made: some failure of it over-counts if and only if a statement other than its last carries traffic for the user |
| `UsageLedgerTheorems.TwoStatementsOvercount` | app/jobs/record_usages.py:566-581 | 401 users on SQLite: the first statement commits, the second rolls back, and user 0 is both stored and parked |
| `OverlappingCycles.OverlapNeverDoubleBillsUsers` | app/jobs/record_usages.py:931-964 | even if cycles overlap in any way, no user is billed twice |
| `OverlappingCycles.ApartNeverDoubleBillsAdmins` | app/jobs/record_usages.py:935-991 | while every start is harmless for an admin -- nothing parked for it, or no job that still writes users holds anything for it -- it is not billed twice, whatever the writes do |
| `OverlappingCycles.CanBillIff` | app/jobs/record_usages.py:935-991 | the running jobs can still end with a given amount billed to an admin if and only if it is at most what is stored, on its way to the admins table, and the larger of the carry and what waits behind user writes |
| `OverlappingCycles.StartOverBillsIff` | app/jobs/record_usages.py:918-991 | a starting cycle makes no more billable than it collected itself, if and only if it is harmless |
| `OverlappingCycles.OverBillingPossibleIff` | app/jobs/record_usages.py:918-991 | after any interleaving that has lost nothing, some course of the writes still to come bills an admin more than was there and collected, if and only if some start was not harmless |
| `OverlappingCycles.SuccessIsLossless` | app/jobs/record_usages.py:918-991 | a run in which every write succeeds loses nothing |
| `OverlappingCycles.OverlapBillsParkedAdminTwice` | app/jobs/record_usages.py:935-978 | two overlapping successful cycles bill an admin the parked window once too often |
| `CycleSteps.AloneIsTheCycle` | app/jobs/record_usages.py:926-991 | the segments overlapping cycles are made of, run by one job alone, leave the carry buffers of the cycle and add the same to the counter of every user and admin |
| `CoreReplicas.CoreManager.UpdateInbounds` | app/core/manager.py:240-250 | the inbound table is the union of the cores, later ones overwriting |
| `CoreReplicas.CoreManager.UpdateCoreLocal` | app/core/manager.py:252-274 | a valid configuration replaces the core under its id and refreshes the table; an invalid one changes nothing |
| `CoreReplicas.CoreManager.RemoveCoreLocal` | app/core/manager.py:288-297 | the id goes away, the table is refreshed |
| `CoreReplicas.CoreManager.HandleCoreMessage` | app/core/manager.py:144-182 | a message has the effect of the local call it announces |
| `CoreReplicas.StepKeepsInv` | app/core/manager.py:276-306 | every step of every worker -- write, publish, handle, own echoes included -- keeps the convergence invariant |
| `CoreReplicas.CoresConverge` | app/core/manager.py:276-306 | for any number of writers and every interleaving, once all is published and handled each worker maps each id to what the last effective message on it says |
| `CoreReplicas.ReplicasEqual` | app/nats/router.py:35-62 | then all maps are equal, and the inbound tables too when no two cores clash on a tag |
| `CoreReplicas.MergedOfAgreeing` | app/core/manager.py:240-250 | when cores do not clash, the table is their union whatever the insertion order |
| `CoreReplicas.RaceAgreesIff` | app/core/manager.py:240-274 | from any common set of cores, two workers creating one new core each at once end with equal maps, and with equal inbound tables if and only if the two cores agree on shared tags |
| `CoreReplicas.TablesAgreeIff` | app/core/manager.py:240-306 | workers that hold the same cores are certain to have the same inbound tables, whatever led there, if and only if no two of the cores clash on a tag |
| `HostReplicas.HostManager.AddPreparedHostsLocal` | app/core/hosts.py:666-675 | adds or replaces each prepared host |
| `HostReplicas.HostManager.RemoveHostLocal` | app/core/hosts.py:736-740 | removes the host |
| `HostReplicas.HostManager.HandleHostMessage` | app/core/hosts.py:594-610 | a message has the effect of the local call it announces |
| `HostReplicas.HostManager.AddHostsNats` | app/core/hosts.py:700-731 | broadcasts one message for each candidate, additions with their data first and then removals, and applies the same to the own map: of different hosts one with data is stored with it, one without is gone, all others stay |
| `HostReplicas.HostManager.RemoveHostNats` | app/core/hosts.py:742-744 | broadcasts the removal, then applies it |
| `HostReplicas.StepKeepsShape` | app/core/hosts.py:700-744 | a write in progress is always the tail of the broadcast log, as long as writes are serialized |
| `HostReplicas.HostsConverge` | app/core/hosts.py:594-744 | with one writer at a time, every interleaving of publishing, own application and echoes ends with equal maps: the last message per id |
| `HostReplicas.OverlappingWritesDiverge` | app/core/hosts.py:700-744 | one interleaving of two overlapping single-message writes that ends with different maps if and only if they disagree about one host |
| `HostReplicas.AgreeingWritesConverge` | app/core/hosts.py:594-744 | however many writes overlap in whatever way, if no two of their messages disagree about one host all workers end with equal maps |
| `HostReplicas.OverlapIsHarmlessIff` | app/core/hosts.py:594-744 | writes made of given messages are certain to leave equal maps, in every run of any number of workers, if and only if no two of the messages disagree about one host |
| `NatsChunking.PartIsSmaller` | app/nats/node_rpc.py:10-12 | the encoded command of a part is no longer than that of the whole |
| `NatsChunking.OversizedStandsAlone` | app/node/sync.py:29-44 | a user too big on its own never shares a command, so the warning misses none |
| `NatsChunking.StaysAhead` | app/node/sync.py:18-47 | against any other contiguous split, the greedy one is never behind |
| `NatsChunking.PackedIsOptimal` | app/node/sync.py:18-47 | a split whose chunks are all full uses the fewest chunks |
| `NatsChunking.ChunkSerializedUsersForNats` | app/node/sync.py:18-47 | the chunks concatenate to the input, none is empty, each is one user or at most the batch setting of users in a command of at most the payload setting or 1024 bytes, no other such split has fewer chunks, and exactly the users too big for a command of their own are reported |
| `SyncBlocked.UserSyncBlockedIff` | app/node/sync.py:67-89 | the single-user form is right if and only if it can find out: memory decides, or a session is left, or the owner blocks nobody |
| `SyncBlocked.BlockedAdminIdsForUsers` | app/node/sync.py:92-127 | the bulk form never blocks a wrong admin, and finds all blocking ones if and only if there are none, or any user has a session, or the last copy in memory of every admin decides |
| `SyncBlocked.BlockedFormsAgree` | app/node/sync.py:50-127 | the loaded, queried, admin and full-query forms of "blocked" give one answer |
| `SyncBlocked.InboundsFromLoadedGroups` | app/node/user.py:22-39 | the tags of the enabled groups in memory, each and no others, or nothing when one of them is incomplete |
| `SyncBlocked.SerializeInbounds` | app/node/user.py:42-54 | an active or on-hold user is sent with exactly the tags its enabled groups grant, from memory or not; a disabled, limited or expired one with none |
| `PanelData.DesiredIsEntitled` | app/node/user.py:101-174 | what a user is to have, column by column: an active or on-hold user has the inbounds of its enabled groups, unless its owner is limited or disabled and has a role that cuts users off then |
| `NodeSync.PushSettles` | app/node/sync.py:147-174 | a push brings the node to what is wanted for that user and moves nobody else |
| `NodeSync.MatchedIsByRight` | app/node/sync.py:147-174 | a user matches on a node if and only if the node holds it with its own settings and exactly the inbounds it runs and the user is entitled to, or not at all if there are none |
| `NodeSync.Panel.Send` | app/node/user.py:42-54 | a user is serialized from whatever is in memory of its groups and is then held with its settings and exactly the inbounds it is entitled to on the node |
| `NodeSync.Panel.BlockedOwners` | app/node/sync.py:92-127 | the owners found blocking, from memory or by a query, are exactly those the tables say |
| `NodeSync.Panel.AdminIsBlocked` | app/operation/admin_sync.py:9-23 | the answer of the admin itself is the one of the tables |
| `NodeSync.Panel.SyncUser` | app/node/sync.py:147-152 | one user ends as wanted unless the single-user check finds its owner blocking, whatever is in memory |
| `NodeSync.Panel.RemoveUsers` | app/node/sync.py:155-166 | the listed users are gone from the node |
| `NodeSync.Panel.SyncUsers` | app/node/sync.py:169-174 | the listed users whose owners the bulk check does not find blocking end as wanted, whatever is in memory |
| `NodeSync.Panel.SyncAdminUsersForBlockTransition` | app/operation/admin_sync.py:26-47 | nothing when the answer did not change; else the live users of the admin go, or all of its users are pushed |
| `NodeSync.Panel.TransitionSettles` | app/operation/admin_sync.py:26-47 | everyone the transition is about ends as wanted, the other users of the admin want what they wanted, nobody else moves: so every matching user of the admin still matches, although only live users are removed |
| `NodeSync.Panel.ModifyAdmin` | app/operation/admin.py:138-142 | a node that matches on its inbounds without state still matches after any change of an admin, its role included; the change is logged with the users told about, who all match, and the wish of nobody else changes |
| `NodeSync.Panel.LimitExceededAdmins` | app/operation/admin_sync.py:50-67 | exactly the active admins that have used up a limit above zero become limited, nothing else of them changes, and a node that matches on its inbounds without state still matches |
| `NodeSync.Panel.ResetAdminUsage` | app/operation/admin.py:297-304 | a node that matches on its inbounds without state still matches although "was blocked" is passed for roles that never blocked; the change is logged with the users told about, who all match, and the wish of nobody else changes |
| `NodeSync.Panel.BulkSetAdminsDisabled` | app/operation/admin.py:433-458 | all statuses change in one commit and the transitions follow one by one: a node that matches on its inbounds without state matches at the end; the change is logged with the users told about, who all match, and the wish of nobody else changes |
| `NodeSync.Panel.CreateUser` | app/operation/user.py:445-446 | on the inbounds that hold no state, a matching node still matches after a user is created; the change is logged with the users told about, who all match, and the wish of nobody else changes |
| `NodeSync.Panel.UpdateUser` | app/operation/user.py:445-446 | on the inbounds that hold no state, a matching node still matches after a user changes, its owner staying; the change is logged with the users told about, who all match, and the wish of nobody else changes |
| `NodeSync.Panel.BulkSetUsersDisabled` | app/operation/user.py:1236-1265 | on the inbounds that hold no state, a matching node still matches after users are disabled, or enabled to the status each of them resolves to -- expired, used up, on hold or active, in this order -- although only changed users are pushed; logged likewise |
| `NodeSync.Panel.DeleteUsers` | app/operation/user.py:1060-1069 | on the inbounds that hold no state, a matching node still matches after users are deleted; logged likewise |
| `NodeSync.Panel.SetGroup` | app/operation/group.py:87-104 | on the inbounds that hold no state, a matching node still matches after a group changes and its members are pushed; logged likewise (the resync for the others is GroupResync.Panel.Handle) |
| `NodeSync.Panel.RemoveGroup` | app/operation/group.py:115-127 | on the inbounds that hold no state, a matching node still matches after a group is deleted, members looked up by name; logged likewise (the resync for the others is GroupResync.Panel.Handle) |
| `NodeSync.Panel.CoreUsersRow` | app/node/user.py:101-174 | aggregating the tags of a user into one comma-separated column and splitting it gives the parts of every tag, in whatever order it was written |
| `NodeSync.Panel.CoreUsers` | app/node/user.py:101-167 | no disabled, limited or expired user is given; with tags free of commas every other user is held with its settings and exactly the inbounds it is entitled to on the node, blocked and unentitled ones not at all |
| `NodeSync.QueriedMatchesIff` | app/node/user.py:101-167 | among the inbounds without state the answer of the full query is what is wanted if and only if what every user is to have on the node fits the column |
| `NodeSync.Panel.Reconnect` | app/node/user.py:101-188 | afterwards the node holds what the full query gives, which among its inbounds without state is what is wanted if and only if what every user is to have there fits the column; disabled, limited and expired users are gone in any case |
| `NodeSync.Panel.Run` | app/node/sync.py:147-174 | after every run of user, group, admin, owner and reconnect events the node holds of every user what it was last sent, among its inbounds without state; and that is what the tables want if it was so before or a reconnect came, and every event since was safe: no owner change across blocking, no comma broken up |
| `NodeSync.Panel.Handle` | app/node/sync.py:147-174 | one event keeps a matching node matching if and only if it is safe; pushed changes always are |
| `NodeSync.EventTakesEffect` | app/operation/user.py:1236-1265 | what a granted request leaves in the tables, event by event |
| `NodeSync.CleanRunsStayMatched` | app/node/sync.py:147-174 | where no tag holds a comma and no owner changes, every mix of events keeps a matching node matching, and a reconnect makes any node match |
| `NodeSync.SilentRunMatchesIff` | app/operation/user.py:1347-1390 | after any run of owner changes and admin deletions, of which the node is told nothing, it still matches if and only if no user it could serve has moved between an owner that blocks it and one that does not |
| `NodeSync.Panel.WholeNode` | app/node/sync.py:147-200 | after such a run the whole node, whatever it kept by itself, is the view once its stateful inbounds are set aside, and is exactly as wanted if nobody has drifted from what was last sent and no user has lost a stateful inbound it was ever sent |
| `NodeSync.Panel.SetOwner` | app/db/crud/user.py:1714-1736 | the traffic of the user moves between the two counters and nothing is sent: a node that matches on its inbounds without state still matches if and only if the user cannot be served anyway or the two owners agree on blocking |
| `NodeSync.Panel.RemoveAdmins` | app/db/crud/admin.py:835-850 | exactly the users of the removed admins lose their owner and nothing else; a node that matches on its inbounds without state still matches if and only if none of them that could be served was blocked |
| `NodeSync.OwnerIsKept` | app/operation/admin.py:168-171 | a deletion that names an admin with the owner role changes nothing |
| `NodeSync.ReassignedMatchesIff` | app/operation/user.py:1347-1390 | after a change of owners the node matches if and only if no user that could be served moves between a blocking and a non-blocking owner |
| `NodeSync.WithoutAdminsMatchesIff` | app/db/crud/admin.py:835-850 | after admins are deleted the node matches if and only if none of their users that could be served was blocked |
| `NodeSync.NewOwnerIsNotSynced` | app/operation/user.py:1347-1353 | a concrete user who stays connected under a blocking owner |
| `GroupResync.CoreIds` | app/node/sync.py:228-231 | the cores of a node, primary first, each once |
| `GroupResync.NodeTagsAreRun` | app/node/sync.py:228-243 | a node runs the inbounds of its configured cores, core 1 standing for a missing or zero primary one and replacing every core that is not loaded |
| `GroupResync.ResyncedIff` | app/node/sync.py:213-231 | a node is replaced if and only if one of its stored cores is a WireGuard or L2TP one, and the scope is everything or names the inbound of such a core |
| `GroupResync.MatchedIsByRight` | app/node/sync.py:249-251 | a node is as wanted if and only if it serves each user exactly the inbounds it runs and the user is entitled to |
| `GroupResync.FullSetMatchesIff` | app/node/sync.py:249-251 | the full set leaves each user exactly the wanted tags if and only if these fit the column: none holds a comma, and they are not the empty tag alone |
| `GroupResync.CommaTagIsBrokenUp` | app/node/user.py:109-157 | a user granted the sing-box inbound "a,b" is given "a" and "b" instead |
| `GroupResync.CleanTagsAreSafe` | app/node/user.py:109-157 | where no group grants a tag with a comma, nothing is broken up on any node |
| `GroupResync.LossHasAGroup` | app/operation/group.py:87-129 | a tag can only be lost through a group of the user that granted it |
| `GroupResync.ModifyGroupIsHonest` | app/operation/group.py:87-106 | whatever editing a group takes away lies within its tags before and after, and only members need a push |
| `GroupResync.RemoveGroupIsHonest` | app/operation/group.py:115-129 | the same for deleting a group and its tags |
| `GroupResync.RemoveGroupsIsHonest` | app/operation/group.py:167-200 | the same for bulk deletion |
| `GroupResync.SetGroupsDisabledIsHonest` | app/operation/group.py:213-252 | the same for disabling; enabling takes nothing away |
| `GroupResync.AddGroupsIsHonest` | app/operation/group.py:136-149 | giving groups to users takes nothing away, and only those who gained one need a push |
| `GroupResync.TakeGroupsIsHonest` | app/operation/group.py:151-166 | taking groups from users only matters to those who had one; the unconditional resync covers every loss |
| `GroupResync.EditsPushMembers` | app/operation/group.py:87-252 | who is pushed after an edit: the members of the edited or deleted groups, or of those that changed; adding and enabling are followed by no resync, taking and bulk deletion by an unconditional one |
| `GroupResync.CoveredIff` | app/node/sync.py:226-246 | a node is missed if and only if none of its core ids is stateful, one of them is not loaded, and the default core that replaces it is stateful |
| `GroupResync.StateTagsAreKnown` | app/node/sync.py:177-188 | the stateful inbounds a node runs are among the tags of the stored stateful cores |
| `GroupResync.PushSufficesWithoutLoss` | app/node/sync.py:194-200 | if nothing stateful is lost, the push alone settles the node, whatever it forgets or keeps by itself |
| `GroupResync.PrunedResyncIsSound` | app/node/sync.py:191-253 | a covered node that matched before an edit matches after it if the resync skips it, and if the resync replaces its users then exactly when what they are to have there fits the column |
| `GroupResync.RevokedInboundIsGone` | app/node/sync.py:191-253 | disabling the groups that grant the inbound of a WireGuard or L2TP core takes it from every user on every answering node configured with the core |
| `GroupResync.OrphanSurvives` | app/node/sync.py:232-244 | on every node that is not covered, a user whose group is disabled can keep the stateful inbound |
| `GroupResync.SomeNodeIsNotCovered` | app/node/sync.py:232-244 | such a node: configured with a core that does not load, while the default core is a WireGuard one |
| `GroupResync.Panel.SyncUsers` | app/node/sync.py:169-174 | on every registered node the pushed users have the wanted inbounds, nothing more among those without state, and of those with state at most what they had before |
| `GroupResync.Panel.FullResyncStatefulNodes` | app/node/sync.py:191-253 | exactly the answering nodes configured with a stored WireGuard or L2TP core, in a scope that is everything or names the inbound of such a core, get their full set, so that with clean tags they serve each user what it is entitled to there; every other keeps what it had |
| `GroupResync.Panel.Handle` | app/operation/group.py:87-252 | one group request stores what it says of groups and memberships and nothing else, and keeps every covered, answering node as wanted, unless its full set breaks up a tag with a comma |
| `GroupResync.Panel.Run` | app/operation/group.py:87-252 | so does every run of group requests |
| `GroupResync.CleanRequestsFit` | app/operation/group.py:87-252 | no run of requests breaks up a tag if no group is granted one with a comma |
| `StatefulNodes.AlwaysBetween` | app/node/sync.py:194-200 | over any run of changes without a resync the inbounds without state are exactly as last told, none of those told is missing, and what is too much holds state and was told at some time |
| `StatefulNodes.RunSettlesIff` | app/node/sync.py:147-200 | any run of changes, told or not, from whatever the node held, is certain to leave it as wanted, whatever stateful inbounds it forgets by itself, if and only if for every user what was last told is wanted now and no stateful inbound ever told has been lost |
| `StatefulNodes.HonestRunSettlesIff` | app/node/sync.py:147-200 | when everyone concerned was told of each change, if and only if nobody has lost a stateful inbound since |
| `StatefulNodes.ChangeSettlesIff` | app/node/sync.py:147-200 | one change and its messages settle a node for certain if and only if no user loses an inbound with state by it |
| `StatefulNodes.UserEditLeavesPeer` | app/operation/user.py:445-446 | user 7 is taken out of its group by an edit of the user and the node is told, and still its WireGuard peer can stay |
| `Webhooks.WebhookSender.Enqueue` | app/notification/queue_manager.py:131-140 | appends to the queue |
| `Webhooks.WebhookSender.Dequeue` | app/notification/nats_queue.py:131-137 | takes the oldest item, if any |
| `Webhooks.WebhookSender.Drain` | app/jobs/send_notifications.py:69-91 | takes what is queued, all of it or a prefix if cancelled on the way; ready is exactly what has a try left and is due, postponed what has a try left and is not due |
| `Webhooks.WebhookSender.SendBatches` | app/jobs/send_notifications.py:93-113 | posts in batches of fifty until done or cancelled, each notification at the time and with the outcome of its batch; exactly those of failed batches with a try left come back, a timeout after the failure, with one try more |
| `Webhooks.WebhookSender.SendNotifications` | app/jobs/send_notifications.py:51-128 | one run changes queue and posts exactly as its step function says |
| `WebhookTheorems.FateOf` | app/jobs/send_notifications.py:71-128 | the one pending item of a ticket is kept, or dropped as exhausted, or posted once and put back by that post alone; or the run was cut short |
| `WebhookTheorems.RunKeepsTracked` | app/jobs/send_notifications.py:71-128 | a run keeps the record of every ticket good, whatever the webhooks answer and wherever it is cancelled |
| `WebhookTheorems.PostedWithinLimits` | app/jobs/send_notifications.py:71-128 | over all runs a notification is posted at most `recurrent` times, never before it is due, never less than a timeout after an earlier post of it, each post taken at its own time, and never after a success |
| `WebhookTheorems.DueIsPosted` | app/jobs/send_notifications.py:71-113 | a run that is not cancelled posts every notification that is due and has a try left |
| `WebhookTheorems.FullRunKeepsAccounts` | app/jobs/send_notifications.py:71-128 | a run that is not cancelled leaves every notification queued, delivered, or failed `recurrent` times |
| `WebhookTheorems.NothingIsLost` | app/jobs/send_notifications.py:71-128 | so over all runs of which none is cancelled, every notification ever queued is one of the three |
| `WebhookTheorems.CutShortLoses` | app/jobs/send_notifications.py:93-119 | a run cancelled while it drains or before its last batch is settled, with a ready notification not yet settled, always loses one, which is none of the three |
| `XrayFallback.SeparatorComesFirst` | app/core/xray.py:481 | in a generated tag the separator first occurs right after the name of the child |
| `XrayFallback.FallbackTagDecodes` | app/core/xray.py:481 | a generated tag names one child and one parent |
| `XrayFallback.FallbackTagIsNew` | app/core/xray.py:108-114 | it never equals a configured tag, and fits the comma-separated columns |
| `XrayFallback.XrayConfig.CollectFallbackInbounds` | app/core/xray.py:82-98 | the parents are the first inbounds of the explicit tags and of tags that declare fallbacks, for every iteration order |
| `XrayFallback.XrayConfig.Validate` | app/core/xray.py:100-117 | accepts exactly configurations with inbounds and outbounds whose tags are non-empty and, for inbounds, hold neither "," nor "<=>" |
| `XrayFallback.XrayConfig.FindFallbackInbound` | app/core/xray.py:119-128 | exactly the parents with a destination that is the listener or the port, a missing destination being the empty text, null a missing listener and 0 a missing port |
| `XrayFallback.XrayConfig.HandlePortSettings` | app/core/xray.py:154-176 | fails exactly for an inbound without port that does not listen on a path or an abstract socket and is not a child; a child gets exactly its parents |
| `XrayFallback.FallbackIsMade` | app/core/xray.py:514-530 | a child made over for a parent has the tag of both, the port, security and TLS settings of the parent, and protocol, listener, fallbacks and other stream settings of its own |
| `XrayFallback.XrayConfig.ReadInbound` | app/core/xray.py:442-512 | terminates; the list and the table keep naming the same tags, each once, and existing entries stay; on success the inbound and its remade children are there, on failure something readable is broken |
| `XrayFallback.XrayConfig.ReadFallbacks` | app/core/xray.py:479-493 | a child is offered once per parent, each of which has a port |
| `XrayFallback.XrayConfig.Load` | app/core/xray.py:74-80 | on success the table holds exactly the offered tags and no configured inbound is broken; under a plain tag it holds the configured inbounds of the five protocols that are not left out, as they are; under any other a child with the port, security and TLS settings of its parent and everything else its own; it fails only for an invalid configuration or a broken inbound, and never for a valid one without inbounds for users |
| `XrayFallback.OfferedTagsAreSound` | app/core/xray.py:108-114 | every offered tag is non-empty and comma-free, and one with the separator names exactly one child tag and one parent |
| `WireGuardSubnets.DivideTwice` | app/db/crud/wireguard.py:46-55 | dividing by a smaller and then a larger block size is dividing by their product |
| `WireGuardSubnets.ContainsAsBlock` | app/db/crud/wireguard.py:46-55 | masking an address gives the base of the block exactly when the address lies between its ends |
| `WireGuardSubnets.MeetingBlocksNest` | app/operation/core.py:62-65 | a shared address puts the whole smaller block inside the larger |
| `WireGuardSubnets.NestedOrApart` | app/operation/core.py:62-65 | two blocks are nested or share no address |
| `WireGuardSubnets.OverlapsIffMeet` | app/operation/core.py:65 | looking at the ends decides whether two blocks share an address |
| `WireGuardSubnets.CompatibleIff` | app/operation/core.py:62-72 | the subnets of two cores are compatible if and only if the blocks of any two of their addresses, 32 or 128 bits less the prefix wide, are the same or share no address |
| `WireGuardSubnets.WgCoreSubnets` | app/db/crud/wireguard.py:46-55 | the distinct readable subnets of a core |
| `WireGuardSubnets.DeclaredKeepsSeparated` | app/operation/core.py:93-192 | create, modify with a type, delete and bulk removal keep the subnets of different cores the same or apart |
| `WireGuardSubnets.UndeclaredKeepsSeparatedIff` | app/operation/core.py:139-161 | modifying a WireGuard core without naming its type: the invariant survives if and only if the configuration is refused as an Xray one, or the check that was skipped would have found no overlap |
| `WireGuardSubnets.DisguisedIsXray` | app/core/xray.py:442-444 | a configuration whose only inbound serves no users is a valid Xray one, whatever addresses it also lists |
| `WireGuardSubnets.UndeclaredChangeOverlaps` | app/operation/core.py:143-161 | 10.0.0.0/32 and 10.0.0.1/32 are apart until the second core is changed, without a type, to a configuration that is accepted as Xray and also lists 10.0.0.0/31 |
| `WireGuardSubnets.NamespacesStaySeparate` | app/operation/core.py:93-225 | in every state on the way of a run of requests client subnets of two WireGuard cores are identical or share no address, if and only if every change without a type is refused as an Xray configuration or fits beside the other cores |
| `WireGuardSubnets.PlainRequestsAreHarmless` | app/core/manager.py:129-137 | so it is whenever the configurations sent without a type hold no Xray inbounds, as plain WireGuard ones do |
| `WireGuardSubnets.CoreOperation.ValidateWireguardSubnet` | app/operation/core.py:52-73 | accepts exactly a list with a readable address, each of whose blocks is the same as or apart from those of every other WireGuard core |
| `WireGuardSubnets.CoreOperation.CreateCore` | app/operation/core.py:93-127 | a refused core changes nothing; an accepted one gets a new id |
| `WireGuardSubnets.CoreOperation.ModifyCore` | app/operation/core.py:139-172 | not found, refused, or the new configuration under the same id; without a type it is checked as Xray and the stored type is kept |
| `WireGuardSubnets.CoreOperation.DeleteCore` | app/operation/core.py:174-190 | core 1 is forbidden, an unknown id not found, any other deleted |
| `WireGuardSubnets.CoreOperation.BulkRemoveCores` | app/operation/core.py:192-225 | all or nothing: a missing id is looked for before the default core |
| `CommaText.SplitJoin` | app/db/compiles_types.py:68-80 | splitting joined text gives the parts of every part |
| `CommaText.ReadBackIff` | app/db/compiles_types.py:57-80 | joined text reads back as it was written if and only if every part is non-empty and comma-free |
| `CommaText.ColumnedOf` | app/node/user.py:109-157 | a set of tags written to a column in any order and split again gives the parts of its members, and nothing if the column is empty |
| `CommaText.ColumnKeepsIff` | app/node/user.py:109-157 | read back and cut down to known tags it is the set that was written if and only if no member holds a comma and it is not the empty tag alone |
| `ArrayColumns.StringArrayRoundTripIff` | app/db/compiles_types.py:68-80 | a set survives the column, in whatever order it is written, if and only if every member is non-empty and comma-free |
| `ArrayColumns.MissingSetReadsAsEmpty` | app/db/compiles_types.py:68-80 | a missing set is stored as the empty set and reads back as it |
| `ArrayColumns.EnumArrayRoundTripIff` | app/db/compiles_types.py:45-57 | an ordered list of members, repetitions included, survives if and only if the values it uses are non-empty and comma-free |
| `ArrayColumns.UnknownValueIsRefused` | app/db/compiles_types.py:52-60 | a stored list is refused if and only if a non-empty part of it names no member |
| `ArrayColumns.StoredLengthOrderFree` | app/db/compiles_types.py:68-72 | the stored length does not depend on the iteration order |
| `ArrayColumns.LenCheck` | app/models/validators.py:298-314 | an accepted set stores in at most `max` characters in every order; a refused one in more than `max` in every order |

## Left out

Assumptions of the models:

- A cycle is atomic with respect to other writers of the same tables; between
  cycles anything may delete rows or lower counters. Two accounting cycles do
  not overlap, except in `OverlappingCycles.dfy`.
- `_write_rolled_back` is taken at its word: where it answers yes, nothing was
  committed (`Honest` in `SafeExecute.dfy`).
- Each database statement is one atomic step whose attempts go as the
  environment decides. The MySQL `IGNORE` prefix, connection handling, backoff sleeps and
  semaphores are not modelled.
- Reading the statistics off a node, the thread pool and its cancellation are
  parameters: the counters arrive, in some order, as validated numbers.
- Broadcast messages are neither lost nor reordered, each worker handles them one
  at a time, and building a core from its configuration is deterministic. The
  JetStream key-value cache, the reload from it and cached getters are left out.
- Messages to a node arrive in the order they were sent, and role flags are fixed
  while they do: changing a role triggers no sync in the code.
- No admin has the id 0 in `NodeSync.dfy`: the single-user form of "blocked" reads
  an owner with id 0 as no owner.
- What is in memory of a user agrees with the tables, and a session is left to ask
  for the rest; which parts are in memory is arbitrary.
- In `NodeSync.dfy` the view of a node is what it holds among its inbounds without
  state; for the others it keeps the log that `StatefulNodes.dfy` is about.
- A node on stateful inbounds is as the documentation of `full_resync_stateful_nodes`
  in `app/node/sync.py` says: a push may or may not make it forget what a user
  lost, a full set replaces everything. The documentation of `remove_users` says
  nodes drop users sent without inbounds; what a node keeps is arbitrary in the
  model, inbound by inbound. Nodes that are unreachable during a resync are not
  claimed for.
- Tags of WireGuard and L2TP cores hold no comma, as their validation requires.
- The column of the full query is as long as it needs to be; the length limit MySQL
  puts on `group_concat` is not modelled.
- Requests that change cores arrive one after another; check and write are not
  interleaved with those of another request.

Weaker than the code, or not covered:

- NodeSync.Panel.CoreUsersRow: the restriction of credentials to the protocols a node runs is not modelled; the node keeps the settings it is sent.
- OverlappingCycles.OverBillingPossibleIff: exact for runs that have lost nothing so far; after a loss, over-billing is measured against what could still be billed, not against what was collected.
- GroupResync.Panel.FullResyncStatefulNodes: the log entry of a failed node and the protocols of its cores are left out.
- CoreReplicas.CoreManager.HandleCoreMessage: messages the handler answers with a reload from the key-value cache (malformed ones, or without a usable id) are left out.
- HostReplicas.HostManager.HandleHostMessage: likewise for host messages.
- NodeSync.Panel.SetGroup: the full resync of nodes with state that the code adds is a separate event here, and part of the request in `GroupResync.Panel.Handle`.
- NodeSync.Panel.RemoveGroup: likewise.
- XrayFallback.XrayConfig.ReadInbound: protocol, transport, TLS and certificate checks are two opaque predicates, before and after the fallbacks; the metadata they fill in and the defaulted `clients` list are left out, and which of several errors is reported first is not stated.
- XrayFallback.XrayConfig.FindFallbackInbound: a parent is listed once per matching destination in the code; the contract states which parents are listed, not how often.
- WireGuardSubnets.WgCoreSubnets: parsing of address text is left out; an address is given as version, number and prefix length, or as unreadable.
- Webhooks.WebhookSender.Drain: malformed queue items are left out.
- Webhooks.WebhookSender.SendNotifications: malformed queue items, the NATS queue and failures while requeueing are left out.
- HostReplicas.HostManager.AddHostsNats: preparing a host for subscriptions is a parameter, so is the removal of hosts without an inbound; a message with host id 0 (which the handler reads as a reload request) is left out.
- ArrayColumns.LenCheck: elements are taken as their text.

Not modelled, since it would add only easy members or depends on code outside
these files: subscription rendering, reality scans, telegram and discord
messages, notification reminders, bulk node connection and health checks, the
permission tables, WireGuard peer address allocation, node-level and inbound
usage jobs beyond their statements, and the dashboard.
