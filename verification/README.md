# cdbct: verified model of the workload, chaos and topology logic

A CockroachDB cluster in Docker is driven by a multi-tenant write workload, disturbed through
Toxiproxy, and observed through counters and a gRPC API. This project models the parts of that
system whose guarantees span many steps, and proves them for every input, every interleaving and
every pattern of failures the model admits. `dafny verify dfyconfig.toml` checks all of it.

## What is modelled

- **The write path** (`Store`, `WritePath`, `WritePathProofs`, `EarlierTables`, `WritePathTheorems`, `Runner`).
  Any number of write rounds overlap. Each spawned write is a transaction with its own buffered
  row, buffered counter update and `SET LOCAL` tenant, retried from a savepoint. The store is
  taken to be serializable in the optimistic sense: `RELEASE` takes effect only if the counter
  version the transaction read is still current, a restart throws away the attempt's writes and
  settings, and a `RELEASE` may take effect without the client learning it. Nothing else is
  assumed; that no update is lost is derived. A run is any sequence of actions from freshly
  migrated tables, or from any tables left by an earlier process, and an action that is not enabled
  does nothing. `Runner` has the goroutines in their own imperative form, with arbitrary actions of
  everyone else interleaved before every statement; each leaves the shared state in a state of a
  run, so every theorem about runs applies to it. A process that starts on tables left by an earlier one runs on top of them
  (`EarlierTables.RunOnTop`), so what is stated from fresh tables holds of what it adds.
- **Readers** (`Reads`, `Readers`): the read rounds, `ListTenants`, `GetRegionStatus`, `VerifyRLS`.
- **Tenants** (`Cyclic`, `Ordering`, `Tenants`, `Seeding`): the 20/60/20 split, seeding, loading,
  the two indexes.
- **Chaos** (`Toxiproxy`, `Chaos`, `ChaosRuns`): the proxy and toxic registry, where every API
  call may be lost before it arrives or lose its reply after taking effect; the client's commands;
  sequences of commands; severed nodes and replica majorities.
- **Topology and connection strings** (`Topology`, `Dsn`) and **retries** (`Retry`).
- `Sequences` and `Text` hold the counting, string and number facts the rest uses.

## Where the code and its documentation differ

- The comment on seeding promises at least one tenant per tier. `distribute` leaves the background
  tier empty for n below 3 and returns two tenants for n below 2 (`Tenants.SplitIsTwentySixtyTwenty`).
- `event_counters` is described as always current. No run changes by how much a counter is off
  (`WritePathTheorems.DriftNeverChanges`): rows older than the counters, which the migration creates at
  zero, stay uncounted. A counter that starts exact stays so throughout every run iff no tenant is homed
  in a region named like its target ("global", "east", "west", "eu")
  (`WritePathTheorems.GlobalAlwaysExact`, `WritePathTheorems.PartitionAlwaysExact`). An unmapped region
  always reports zero events (`Readers.RegionStatusAlwaysExact`), and the totals stay exact for the
  pools whose writes are all counted under the three partition targets (`Readers.TotalsAlwaysExact`).
- `VerifyRLS` says it proves row-level security. Its per-tenant query filters by tenant id itself,
  so its verdict is the same whether or not the policy is in force (`Readers.VerdictIgnoresPolicy`);
  what the flag does establish is in `Readers.FlagAtOneSnapshot`,
  `Readers.EnforcedSampleSawForeignRow` and `Readers.VerdictMeans`.
  Its note says the admin total comes from `event_counters`; the code counts the table.
- `AppUserDSN` names appuser for every DSN with userinfo and for no other (`Dsn.AppUserNamesUser`).
  Without userinfo the DSN stays as it is, or, if an '@' occurs in its path or query, loses its
  host (`Dsn.AppUserKeepsHosts`).
- `chaos regional` is described as re-applying the baseline. It succeeds exactly when no node with a
  known latency still carries one of its baseline toxics (`ChaosRuns.RegionalSucceedsIff`): after
  clearing everything, but not on a baseline in place (`ChaosRuns.RegionalNotRepeatable`). After
  clearing a single node other than the first it stops at the first node and never gets to the
  cleared one (`ChaosRuns.SingleClearRestoredIff`; for several, `ChaosRuns.ClearedNodesRestoredIff`).
- `ClearAll` returns no error once it could list the proxies, even if every later call is lost and
  nothing changes. When nil does mean cleared, and that otherwise nothing got worse, is in
  `Chaos.ClearOne` and `Chaos.ClearAll`.
- The tenant count may be any integer on the command line. A negative one crashes a first start, before
  anything is inserted, and is ignored on any later one (`Tenants.SeedOrLoad`). A cluster of no nodes
  crashes after the proxy container is up (`Topology.Docker.CreateCluster`).

## Model

| member | source | states |
|---|---|---|
| WritePathProofs.StepKeepsInv | internal/workload/runner.go:144-231 | every step of every write, and every spawn, keeps the joint invariant of counters, rows, metrics and rounds |
| WritePathProofs.InvAlways | internal/workload/runner.go:144-231 | the joint invariant holds after every interleaving of rounds, retries, failures and unseen commits |
| WritePathProofs.CommitKeepsCounters | internal/db/tenants.sql.go:153-161 | a commit under the serializable rule keeps each counter equal to the rows it stands for, although the update was buffered from an earlier read |
| EarlierTables.RunOnTop | internal/workload/runner.go:64-75 | a run on tables an earlier process left is, action by action, the run from freshly migrated tables on top of them: same outcomes and metrics, old rows then new ones, counters ahead by what they held |
| WritePathTheorems.DriftNeverChanges | internal/migrations/00003_counters.sql:4-25 | from any migrated tables, no run changes by how much a counter is off from the rows counted under it |
| WritePathTheorems.CountersStandForCounts | internal/migrations/00003_counters.sql:4-25 | for mapped tenants all four counters are exact in a reachable state iff the process found them exact, and freshly migrated tables are |
| WritePathTheorems.PartitionsCoverTable | internal/migrations/00003_counters.sql:4-25 | on exact tables of rows of mapped tenants, the three partition counters also add up to events_regional in every reachable state |
| WritePathTheorems.GlobalCounterExact | internal/workload/runner.go:215-231 | after a run from fresh tables "global" equals the events row count iff no regional row comes from a region named "global" |
| WritePathTheorems.GlobalAlwaysExact | internal/workload/runner.go:215-231 | from any migrated tables "global" is exact throughout every run iff it was at the start and no tenant of the pool is homed in a region called "global"; otherwise a run that breaks it is given |
| WritePathTheorems.PartitionCounterExact | internal/workload/runner.go:326-337 | after a run from fresh tables a mapped region's counter equals its partition's row count iff no row carries the short target name as its region |
| WritePathTheorems.PartitionAlwaysExact | internal/workload/runner.go:326-337 | from any migrated tables a mapped region's counter is exact throughout every run iff it was at the start and no tenant of the pool is homed under its short target name; otherwise a run that breaks it is given |
| WritePathTheorems.WritesConserved | internal/workload/runner.go:195-206 | per target and tier, issued = successes + errors + in flight, and committed rows lie between successes and issued |
| WritePathTheorems.RetriesAreExtraAttempts | internal/workload/runner.go:216-221 | recorded retries are total attempts minus executions that made one |
| WritePathTheorems.FinishedRoundsBalance | internal/workload/runner.go:144-193 | when all rounds have returned, per tier the global outcomes equal the sum over the regional targets |
| WritePathTheorems.FinishedRoundIssuedItsBatch | internal/workload/runner.go:146-192 | a round that has left its loop issued its whole batch to each table, whatever other rounds are doing |
| WritePathTheorems.ExactlyOnceRefinement | internal/workload/runner.go:208-231 | every run is a run of an atomic insert-and-count ledger in which each committed write appears exactly once and each other write never; reported success implies committed |
| WritePathTheorems.RivalMustRestart | internal/workload/runner.go:211-214 | of two transactions holding the same counter version, one commit makes the other's release impossible and leaves it only a restart or an abort |
| WritePathTheorems.PolicyNeverRefuses | internal/migrations/00002_multi_tenancy.sql:24-32 | the WITH CHECK policy never refuses a workload insert |
| WritePathTheorems.RowsBelongToTheirTenant | internal/workload/runner.go:162-169 | every row in a reachable state carries its writer's tenant id and that tenant's home region, if the rows found at the start do |
| WritePathTheorems.RegionFilterIsRedundant | internal/db/audit.sql.go:26-43 | the region filter of the regional read does not change a tenant's own count |
| WritePathTheorems.VisibleCountsAddUp | internal/migrations/00002_multi_tenancy.sql:24-32 | policy-visible counts summed over the pool equal the admin count |
| WritePathTheorems.FollowerReadNeverAhead | internal/workload/runner.go:281-322 | a read at an earlier snapshot never counts more than a strong read of a later state |
| Runner.Process.Interleave | internal/workload/runner.go:125-134 | other goroutines run any sequence of actions; the state stays a state of a run |
| Runner.Closure | internal/workload/runner.go:217-230 | one call of the retry closure: on success the row and the count are buffered in order; on an error it is rolled back or given up |
| Runner.Attempt | internal/workload/runner.go:215-231 | closure plus release: success is a commit; it starts over after a retryable error or because another write committed to the same counter; it gives up on a final error or one that may hide a commit |
| Runner.TenantInsert | internal/workload/runner.go:215-231 | under any interference a nil error means exactly one durable row, an error at most one; without unseen commits nil iff exactly one; it is tried as long as there is reason to, so an error means no BEGIN, no attempts left or a final error, and a first attempt without a fault is enough unless another write got ahead on the same counter |
| WritePathTheorems.RivalBehindMove | internal/workload/runner.go:211-231 | behind a counter that moved there is another write that committed to it |
| Runner.RecordWrite | internal/workload/runner.go:195-206 | every outcome is recorded once, with all the insert promises about it, and a recorded success has one row |
| Runner.OthersLeaveDrawn | internal/workload/runner.go:144-192 | overlapping rounds and all running writes leave the writes drawn by a round as they are |
| Runner.Wait | internal/workload/runner.go:192 | waiting is over exactly when every write of the round has been recorded, and is not cut short before the others had all their turns |
| Runner.RunWrites | internal/workload/runner.go:144-193 | the tenants of the round's writes to each table are exactly the drawn ones, in order, one write to each table per item and none for a negative batch; it finishes exactly when all of them are recorded |
| Reads.RunReads | internal/workload/runner.go:252-324 | the reads of a round are, region by region in order, the two transactions of the drawn tenant, each at its own moment |
| Reads.RoundIsHonest | internal/workload/runner.go:252-324 | every read a round returns comes from a tenant of one of its regions and is that tenant's own recent row count at the moment of its own transaction, at the follower for background tenants and at the leaseholder for others, or nothing if it failed; it is never more than the leaseholder's; there are two for each region with a tenant |
| Reads.RoundInOrder | internal/workload/runner.go:267-322 | a round goes through the regions that have a tenant in order, reading events and then the regional table |
| Reads.RegionReadsAreHonest | internal/workload/runner.go:267-322 | both reads of a region come from a tenant homed there and count its own recent rows, each at its own moment: exactly for strong reads, never more for background ones |
| Readers.ListTenants | internal/workload/grpc_server.go:50-115 | each tier and region tally counts the tenants it names, the tenants are the rows in order, and the event totals are read from the counters |
| Readers.ListTenantsReportsRowCounts | internal/workload/grpc_server.go:107-114 | the totals read from event_counters are the row counts of both tables in every reachable state, for mapped tenants on tables that started exact |
| Readers.TotalsAlwaysExact | internal/workload/grpc_server.go:107-114 | from any migrated tables both totals are exact throughout every run iff they were at the start and every tenant of the pool is homed where writes are counted under one of the three partition targets |
| Readers.ListTenantsTalliesAddUp | internal/workload/grpc_server.go:76-110 | the tier tallies add up to the total iff every tier is one of the three, the region tallies iff every region is mapped |
| Readers.GetRegionStatus | internal/workload/grpc_server.go:226-268 | one entry per active region in sorted order, with the number of pool tenants homed there, overall and by tier, and its counter; the entries tally every tenant once |
| Readers.RegionStatusReportsPartition | internal/workload/grpc_server.go:237-265 | after a run from fresh tables, exactly when the reported event count is the partition's row count, for mapped and unmapped regions |
| Readers.RegionStatusAlwaysExact | internal/workload/grpc_server.go:237-265 | from any migrated tables a region's reported count is right throughout every run iff it was at the start and no tenant of the pool is homed under its short name, or, if it is unmapped, in it |
| Readers.SampleTenants | internal/workload/grpc_server.go:129-142 | the sampling loop with its early exit picks exactly one tenant per active region, the one no other of its region comes before |
| Readers.VerifyRLS | internal/workload/grpc_server.go:123-186 | the response carries the admin total, the samples of the answered candidates, and a verdict that holds iff the total is zero or a sample is flagged |
| Readers.SamplesAreAnswers | internal/workload/grpc_server.go:160-178 | the samples are exactly the answered candidates, each with its own count and flagged by it |
| Readers.SamplesInOrder | internal/workload/grpc_server.go:160-178 | there is one sample for each answered candidate, in the candidates' order |
| Readers.VerdictIgnoresPolicy | internal/workload/grpc_server.go:318-332 | the per-tenant count is the same with the policy on and off |
| Readers.FlagAtOneSnapshot | internal/workload/grpc_server.go:168-171 | at one snapshot a sample is flagged iff events is empty or holds another tenant's row |
| Readers.FlagMeansForeignRow | internal/workload/grpc_server.go:123-178 | under concurrent writers a flag with a nonzero total means a foreign row existed when the tenant was counted |
| Readers.EnforcedSampleSawForeignRow | internal/workload/grpc_server.go:123-186 | a flagged sample of a response with a nonzero total belongs to a candidate for whom the table held another tenant's row when it was counted, each candidate being counted at a moment of its own |
| Readers.VerdictMeans | internal/workload/grpc_server.go:160-186 | the verdict of a response with a nonzero total says enforced iff some answered candidate owned fewer rows when counted than the total, policy or not |
| Tenants.Distribute | internal/workload/tenant.go:174-188 | the float split equals the integer form with floor((n+2)/5) for every n |
| Tenants.CriticalNeverReduced | internal/workload/tenant.go:180-182 | the branch that decrements the critical tier is unreachable for every n |
| Tenants.SplitIsTwentySixtyTwenty | internal/workload/tenant.go:174-188 | the parts sum to n iff n >= 2, are all positive iff n >= 3, and are within rounding of 20/60/20 |
| Tenants.Seed | internal/workload/tenant.go:118-146 | completes iff n is not negative, there is a region and no insert fails, and then adds exactly the dealt tier list; an error leaves a prefix of it; a panic leaves the table alone |
| Tenants.Load | internal/workload/tenant.go:148-172 | the pool is the table in its sorted order and both indexes are its order-preserving filters |
| Tenants.TenantPool.ActiveRegions | internal/workload/tenant.go:77-89 | strictly ascending, and exactly the home regions that occur |
| Tenants.SeedOrLoad | internal/workload/tenant.go:98-116 | seeds an empty table, otherwise loads it unchanged whatever n and regions say; exactly when it returns a pool, and exactly when it panics |
| Tenants.SeedThenRestart | internal/workload/tenant.go:91-116 | a second call after a successful one returns the same non-empty pool |
| Tenants.TenantsAreOrdered | internal/db/tenants.sql.go:180-184 | ORDER BY home_region, qos_tier, id is a total order |
| Tenants.ListingInOrder | internal/db/tenants.sql.go:180-184 | the listing is by region, within a region by tier, within both by id |
| Tenants.ListingDeterminedByContents | internal/db/tenants.sql.go:180-184 | two tables list the same tenants in the same order iff they hold the same rows |
| Seeding.SeedingCoverage | internal/workload/tenant.go:133-144 | with k distinct regions the loaded pool has a tenant for every region and tier pair iff n >= 5k - 2 |
| Seeding.SeedingBalanced | internal/workload/tenant.go:133-144 | in the loaded pool two regions' tenant counts differ by at most one, overall and inside each tier |
| Seeding.SeededTiers | internal/workload/tenant.go:118-131 | the loaded pool has floor((n+2)/5) critical, as many background and the rest regular tenants, below three tenants one critical and one regular |
| Seeding.SeededRegions | internal/workload/tenant.go:133-144 | the loaded pool has its size over the number of regions tenants in each region, the regions listed first one more |
| Seeding.SeededPoolQualifies | internal/workload/tenant.go:118-146 | a first start's pool has unique ids, and mapped tenants if the regions are mapped: what the write path's guarantees ask of a pool |
| Seeding.LoadedPoolQualifies | internal/workload/tenant.go:148-172 | a restart's pool has unique ids if the table does, and mapped tenants iff the table does |
| Seeding.RegionSizesAddUp | internal/workload/tenant.go:158-163 | the region lists of the pool add up to its length |
| Seeding.TierSizesAddUp | internal/migrations/00001_initial_schema.sql:10-15 | the three tier lists add up to the length iff the CHECK on qos_tier holds |
| Chaos.InjectFault | internal/chaos/client.go:105-145 | no error iff the proxy exists and the fault is new and known; the registry is the injected one, or under failures possibly the old one |
| Chaos.InjectNamedLatency | internal/chaos/client.go:65-85 | both toxics or an error; under failures nothing, the upstream one, or both |
| Chaos.EnsureProxies | internal/chaos/client.go:87-103 | registers nodes 1..n, never touches an existing proxy |
| Chaos.RegisterToxiproxyProxies | internal/docker/chaos.go:128-158 | leaves the same registry as EnsureProxies |
| Chaos.ClearFaults | internal/chaos/client.go:147-173 | nil means enabled with no toxics; with any failures nothing is added, disabled, or changed elsewhere |
| Chaos.ClearOne | internal/chaos/client.go:183-199 | one pass leaves the proxy clean iff it was clean, or it was found, enabling it was not lost, and its toxics were listed and no removal lost |
| Chaos.ClearAll | internal/chaos/client.go:175-201 | clears every node proxy in any order and no other; a nil error says only that the listing arrived; with nil, all node proxies are clean iff every pass over a dirty one got through; if every later call is lost nothing changes; with any failures nothing is added or disabled |
| Chaos.ApplyRegionalLatencies | internal/docker/chaos.go:180-206 | applies the baselines node by node, stopping at the first error, when the nodes before have theirs, the failing one nothing, its upstream toxic or both, and nothing else changed |
| Chaos.Status | internal/chaos/client.go:203-234 | reports exactly the node proxies, each by its state or by the error text |
| Chaos.StatusIsFaithful | internal/chaos/client.go:215-231 | clean iff enabled with no toxics, partitioned iff disabled, for all toxics |
| Chaos.ProxyNamesDiffer | internal/chaos/client.go:34-36 | proxy names are injective in the node index and recognised as node proxies |
| Chaos.CRDBProxyIff | internal/chaos/client.go:236-239 | a node proxy is one whose name goes on behind "crdb-node-" |
| Chaos.NodeProxyInFull | internal/docker/chaos.go:128-158 | each node's proxy listens on 26000 plus its index and leads to that node's RPC port; no two share an address or a node |
| ChaosRuns.ToxicsStayBounded | internal/chaos/client.go:65-145 | after any commands on a reliable API a node proxy has at most six toxics with distinct names, up present iff down is |
| ChaosRuns.PerformAll | internal/chaos/client.go:65-201 | whatever calls fail, no sequence of commands leaves a node proxy with more than six toxics or two of one name |
| ChaosRuns.LoseSecondToxic | internal/chaos/client.go:65-85 | the pairing can break: losing the second call leaves the upstream toxic alone |
| ChaosRuns.CommandsAreIsolated | internal/chaos/client.go:105-173 | a command on one node leaves every other proxy unchanged |
| ChaosRuns.ClearThenRegionalIsBaseline | internal/docker/chaos.go:167-206 | after any commands, clear then regional succeeds and gives exactly the baseline |
| ChaosRuns.RestoreBaseline | internal/chaos/client.go:178-201 | the same, by running the client against the server |
| ChaosRuns.BaselineInFull | internal/chaos/client.go:59-85 | the two toxics of every baseline in full: 42±5 ms in us-east, 55±8 in us-west, 61±10 in eu-central, under their fixed names, upstream and downstream |
| ChaosRuns.RegionalNotRepeatable | internal/docker/chaos.go:190-193 | on a baseline the regional command changes nothing and succeeds iff no node has a known latency |
| ChaosRuns.RegionalSucceedsIff | internal/docker/chaos.go:180-206 | on any registry the regional command succeeds iff every node with a known latency has its proxy and neither baseline toxic |
| ChaosRuns.ClearedNodesRestoredIff | internal/docker/chaos.go:180-206 | after clearing any nodes of a baseline the regional command restores it iff the cleared nodes with a known latency come before the uncleared ones, and succeeds iff all with a known latency were cleared |
| ChaosRuns.SingleClearRestoredIff | internal/docker/chaos.go:180-206 | after clearing one node of a baseline the regional command restores it iff the node has no known latency or is the first that has; otherwise it fails and leaves the node cleared |
| ChaosRuns.InjectionShowsInStatus | internal/chaos/client.go:105-173 | a fault injected on a clean proxy shows in its status with the parameters given, a partition as such, and clearing restores the clean proxy |
| ChaosRuns.InjectionInFull | internal/chaos/client.go:105-145 | what each fault leaves on a clean proxy in full: name, type, downstream, full toxicity and the parameters given, or the proxy disabled |
| ChaosRuns.ParametersInFull | internal/chaos/client.go:118-133 | missing or malformed parameters count as zero, signs are understood |
| ChaosRuns.SeveredByLastWord | internal/chaos/client.go:112-116 | a node is severed iff the last partition or clear naming it was a partition |
| ChaosRuns.QuorumFollowsCommands | README.md:294-334 | in any run from connected nodes a home partition loses its majority iff two of its replicas were last told to partition |
| ChaosRuns.LossTakesTwoOfOwnRegion | README.md:330-334 | losing a majority takes two distinct severed nodes of the partition's own region |
| ChaosRuns.ThreeNodeRegion | README.md:330-334 | with three nodes in the region, two severed nodes of it lose the majority and one never does |
| ChaosRuns.NineNodes | README.md:330-334 | in the nine-node cluster the regions hold nodes 1 4 7, 2 5 8 and 3 6 9, replicas can only be those, and a home partition is down iff two of its three are severed |
| ChaosRuns.OtherRegionsKeepMajority | README.md:311-313 | commands on another region's nodes never change a region's majority |
| Topology.LabelsRoundTrip | internal/docker/cluster.go:151-162 | the topology read back from labels is the created one iff it is a standard one |
| Topology.PortsDistinctUpTo100 | internal/docker/cluster.go:18-26 | SQL, HTTP and RPC host ports of nodes 1..n are pairwise distinct iff n <= 100 |
| Topology.NodeInFull | internal/docker/cluster.go:164-210 | the ports, locality and labels each node is given, and that its reported ports are its own |
| Topology.Docker.CreateCluster | internal/docker/cluster.go:50-91 | nodes are exactly 1..n in order, each reported with its index and its SQL and HTTP port, iff none was there and no step fails; a failing step leaves exactly the nodes before it; an existing cluster is not touched; asking for no nodes, or a negative number, crashes |
| Topology.Docker.AddNode | internal/docker/cluster.go:93-136 | adds exactly the next index whatever the listing order, with the region the original topology gives it, iff the listing, the proxy container, the creation and the start succeed |
| Topology.Docker.GetClusterTopology | internal/docker/cluster.go:138-149 | the created mode and regions with the current node count, or nine multi-geo nodes when there are none or the listing fails |
| Topology.NodesBalancedAndStable | internal/docker/topology.go:40-44 | regions' node counts differ by at most one at every size; scaling moves no node |
| ChaosRuns.MultiGeoInFull | internal/docker/topology.go:20-44 | which region every node index of the two topologies is in |
| Dsn.InternalDSN | internal/docker/workload.go:48-59 | the DSN over all nodes in index order |
| Dsn.RegionalDSN | internal/docker/workload.go:61-79 | the DSN over the region's nodes in index order, or over all when it has none |
| Dsn.HostsRoundTrip | internal/docker/workload.go:55-58 | the host list read back from a DSN is the one it was built over |
| Dsn.DsnInFull | internal/docker/workload.go:50-79 | what a DSN looks like, and its host list for two nodes |
| Dsn.RegionHasNodes | internal/docker/workload.go:67-74 | the region at position j has a node iff there are more than j nodes |
| Dsn.RegionalHostsPartition | internal/docker/workload.go:50-79 | with enough nodes the regional host lists are ordered, non-empty, disjoint and together the cluster's |
| Dsn.EmptyRegionFallsBack | internal/docker/workload.go:61-79 | a listed region gets the cluster-wide DSN iff there are too few nodes for its position or it holds every node |
| Dsn.UnlistedRegionFallsBack | internal/docker/workload.go:72-74 | a region the topology does not list gets the cluster-wide DSN |
| Dsn.AppUserDSN | internal/workload/tenant.go:190-201 | the scan computes the replacement between the first "://" and the first '@' after it |
| Dsn.IndexByte | internal/workload/tenant.go:203-210 | the first position of the byte, or -1 iff absent |
| Dsn.AppUserIdempotent | internal/workload/tenant.go:190-201 | applying it twice is applying it once, on every string |
| Dsn.AppUserKeepsHosts | internal/workload/tenant.go:190-201 | host, path and query survive iff the DSN has userinfo or no '@' behind its host |
| Dsn.AppUserNamesUser | internal/workload/tenant.go:190-201 | the result is the admin DSN with appuser as its user iff the admin DSN has userinfo |
| Dsn.AppUserOfBuiltDsn | internal/workload/runner.go:81-95 | for the DSNs built here the application DSN has the same hosts under appuser |
| Retry.AttemptsWithin | internal/cockroach/client.go:63-84 | attempt n >= 4 starts iff 7+8(n-4) seconds fit: at most 10 in 60 s and 6 in 30 s |
| Retry.PingWithRetry | internal/cockroach/client.go:63-84 | ready iff the last ping succeeded, cancelled iff its sleep was, otherwise not ready and the time, counting calls and late sleeps, is used up; a ping starts only inside the timeout; attempts are bounded by the backoff sum, and that bound is reached |
| Retry.ApplyWithRetry | internal/cockroach/zone_configs.go:72-95 | an error iff cancelled; otherwise applied, or the 60 s, counting calls and late sleeps, are used up, which is not an error; the zone is configured iff an attempt took effect, seen or not |
| Retry.EndsWithinTime | internal/cockroach/zone_configs.go:72-95 | attempts are bounded by the backoff sum, and that bound is reached |
| Retry.ApplyZoneConfigs | internal/cockroach/zone_configs.go:46-70 | configs are dealt with in order; an error iff one was cancelled, and nothing after it is tried; only partitions of the listed regions change; they are all pinned to their own region iff each config took effect or was so before |
| Retry.PinsInFull | internal/cockroach/zone_configs.go:15-44 | partition east is pinned to us-east, west to us-west and eu to eu-central, three replicas and the leaseholder; each is the partition its region's counter counts |

## Left out

- CockroachDB and cockroach-go internals: Raft, leases and the savepoint wire protocol appear only as the store contract above.
- Other columns of the event rows, the QoS session setting, and the foreign key on tenants: nothing proved here depends on them.
- Runner.RunWrites: the process may end while a round still waits; what holds then is stated for every reachable state, and the rest for rounds that finish.
- Read metrics, histograms and gauges.
- Runner.Process: starts from freshly migrated tables and zeroed metrics; tables left by an earlier process only lie underneath.
- Tenants.Distribute: uses exact real arithmetic; no n puts the rounded value within 1/10 of a boundary, so float64 agrees far beyond any pool size.
- Tenants.Seed: UUIDs are parameters assumed fresh and distinct; two processes seeding at once are not modelled.
- Integer widths: tenant counts stay far below the int32 of the API messages; strconv.Atoi's out-of-range results are not modelled.
- The order in which the Toxiproxy API lists toxics, and what toxics do to traffic.
- Toxiproxy.Server.CreateProxy: does not model a listen address already in use.
- Registration of a proxy for a node added later: the container check returns early when the proxy container runs.
- Placement of the replicas of the unconstrained events table.
- GetTenantEvents, ListTenantsByRegion, command-line wiring, images, observability containers: no more than lookups and I/O.
