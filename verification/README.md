# NextPATH, verified

NextPATH answers DNS queries for selected domains with *fake* addresses, remembers
which real address each fake stands for, replicates these mappings between nodes,
and lets the kernel translate traffic to a fake back to its real. This project
models the four parts whose correctness is not visible in any one function, in
Dafny, and proves what they keep.

| files | what they model |
|---|---|
| `Address`, `Leases`, `Sharded`, `IPPool` | the fake-IP pool: 64 hash shards and two global indexes, as a class that is proved to stand for one injective lease table |
| `Blocks`, `Geometry`, `Exhaustion`, `Allocation` | where fakes come from: 32-bit pool arithmetic, hash and linear probe, the all-or-nothing batch with its rollback |
| `PoolRuns`, `Locks` | every interleaving of critical sections, the hybrid logical clock, the lock order |
| `Convergence`, `Replication`, `Peering` | merging mappings in any delivery order, receiving them, handshake and tie-break between two nodes |
| `Rewrite` | rewriting DNS answers in place; the pool undoes it |
| `Sorting`, `Domains`, `Rpz` | the domain compiler: collapse of a sorted list, meaning of the emitted response policy zone |
| `PrefixSets`, `Routes` | the address compiler: canonical prefix sets, lossy widening under a limit, exact subtraction |
| `Sets` | facts about sets and maps used throughout |

Time, the wall clock and the hash are parameters, so every result holds for all of
them. Addresses are their 128-bit keys (`Address.ByteOrder`, `Address.KeyRoundTrip`
justify that). Machine integers wrap where the engine's do.

## Results about the code that its documentation does not tell

* The documentation promises conflict-free replication. Delivery order does matter
  in general (`Convergence.OrderMatters`); it is irrelevant exactly when every beaten
  mapping is beaten by an unbeaten one (`Convergence.OrderIndependentIff`).
* A listed name that ends in `-d` for a listed `d` sorts between `d` and the names
  below `d` and breaks the collapse: `Domains.AntichainIff` and `Rpz.ZoneMeaningIff`
  give the exact conditions, `Domains.HyphenExample` and `Rpz.HyphenZone` the family
  of failures.
* Globally removed hosts are not written to the ad-block zone as passed names, so a
  removal below an included name that has no listed parent has no effect
  (`Rpz.RemovalHasNoEffect`); `Rpz.AdblockMeaningIff` says when the zone means its rules.
* The route limit holds before the subtraction only (`Routes.LimitNotKeptBySubtraction`);
  `Routes.RouteLimitIff` says when it holds afterwards.
* The fallback start 198.18.0.0 leaves the advertised net for pools of 2^18 to 2^31
  addresses (`Geometry.FallbackEscapes`); `Geometry.ConfiguredRoomyIff` lists the sizes
  that fit.
* An IPv4 allocation can fail with 1015 fakes held (`Exhaustion.ProbeComplete4Iff`), and
  in IPv6 pools above 2^32-1023 addresses a probe tries addresses twice
  (`Exhaustion.CandidateRepeats`, `Exhaustion.ProbeComplete6Iff`).
* A peer that sends version 2^64-1 resets the clock (`PoolRuns.LargestVersionResets`).
* Two connections dialled by the same node, whichever, can both be lost
  (`Peering.BothLost`); `Peering.AllLostIff` says when two nodes can lose all they have.
* The documentation speaks of node striding in the probe; the code probes linearly,
  and so does the model.

## Model

| member | source | states |
|---|---|---|
| `Address.ByteOrder` | internal/dnsengine/ippool.go:197 | comparing the 16-byte forms of two addresses byte by byte, as conflict resolution does, is comparing their keys as numbers |
| `Address.KeyEquality` | internal/dnsengine/ippool.go:39-53 | two addresses share a key exactly when their 16-byte forms agree, so a 4-byte address and its IPv4-mapped form are one key |
| `Address.KeyRoundTrip` | internal/dnsengine/ippool.go:55-60 | writing any 128-bit key out as an address and keying it again gives the key back |
| `Sorting.SortSorts` | internal/dnsengine/ippool.go:410-414 | sorting by a total order yields an ordered permutation |
| `Sorting.SortedUnique` | internal/dnsengine/ippool.go:410-414 | two ordered permutations of one multiset are equal, so which algorithm sorts does not matter |
| `Sorting.SortCanonical` | internal/parser/compiler.go:979-984 | the sorted list depends on the elements only, not on the order in which a Go map yields them |
| `Leases.MergeTakes` | internal/dnsengine/ippool.go:190-248 | what a merge does, by values: taken exactly when version, then real, beats the holder of the fake and version, then fake, beats the real's other lease; then the real has exactly the lease given, expiry included, the other holder is gone and nothing else changes; otherwise nothing changes |
| `Leases.TakenUnique` | internal/dnsengine/ippool.go:190-248 | that promise determines table and answer |
| `Leases.ReserveInjective` | internal/dnsengine/ippool.go:277-311 | reserving keeps fakes unique, and a granted fake leads back to the real it was granted to |
| `Leases.ReserveGrants` | internal/dnsengine/ippool.go:277-311 | what a reservation does, by values: a live lease is kept and extended with under five minutes left; otherwise the real loses its lease and gets the one asked for exactly if no other real has the fake |
| `Leases.FakesCount` | internal/dnsengine/ippool.go:377-381 | an injective table holds as many fakes as reals |
| `Leases.PruneOneMore` | internal/dnsengine/ippool.go:337-346 | pruning one more listed pair removes that real if it is still expired under that fake and nothing else |
| `Leases.WithoutHolder` | internal/dnsengine/ippool.go:230-240 | clearing the one holder of a fake is the same as clearing the fake |
| `Sharded.RepresentsInjective` | internal/dnsengine/ippool.go:62-83 | shards and indexes that represent a table represent an injective one whose fakes are the keys of the fake index |
| `Sharded.RepresentsUnique` | internal/dnsengine/ippool.go:62-83 | the stored form determines the lease table |
| `Sharded.AcceptsStoredExact` | internal/dnsengine/ippool.go:190-224 | the acceptance test that the indexes and one shard answer is the test on the whole table |
| `Sharded.AddRepresents` | internal/dnsengine/ippool.go:225-247 | the writes of an accepted mapping, two shards and both indexes, represent the table with the old holder of the fake and the old fake of the real gone |
| `Sharded.UnlinkRepresents` | internal/dnsengine/ippool.go:262-267 | deleting from shard and indexes represents the table without that real |
| `Sharded.LinkRepresents` | internal/dnsengine/ippool.go:301-308 | entering a free fake represents the table with that lease added |
| `Sharded.PruneNextShard` | internal/dnsengine/ippool.go:313-351 | committing what was listed in shard i extends "pruned below i" to "pruned below i+1" |
| `Sharded.ActiveCount` | internal/dnsengine/ippool.go:377-381 | leases, fakes in the index and entries summed over all 64 shards are equally many |
| `Pool.IPPool.NewIPPool` | internal/dnsengine/ippool.go:92-162 | any sizes and bases give a valid empty pool with clock 0 and the computed geometry |
| `Pool.IPPool.constructor` | internal/dnsengine/ippool.go:141-157 | 64 distinct empty shards and empty indexes represent the empty table |
| `Pool.IPPool.AddMapping` | internal/dnsengine/ippool.go:180-249 | keeps the promise of `Leases.MergeTakes` on the leases that shards and indexes represent, and validity |
| `Pool.IPPool.Install` | internal/dnsengine/ippool.go:208-247 | all shards and indexes after an accepted mapping, as a function of those before |
| `Pool.IPPool.RemoveMapping` | internal/dnsengine/ippool.go:251-268 | removes the lease exactly if the real still holds that fake; every other lease is as it was |
| `Pool.IPPool.TryReserve` | internal/dnsengine/ippool.go:277-311 | result and table are those of the abstract reserve, with both clock readings |
| `Pool.IPPool.Existing` | internal/dnsengine/ippool.go:433-450 | a live lease is returned and perhaps extended, an expired one removed; it is live exactly when a fake is returned |
| `Pool.IPPool.Touch` | internal/dnsengine/ippool.go:437-440 | a lease with under 300 seconds left gets the new expiry, any other none; nothing else changes |
| `Pool.IPPool.SnapshotExpired` | internal/dnsengine/ippool.go:316-330 | lists exactly the expired leases whose real hashes to the shard, with their fakes |
| `Pool.IPPool.PruneSnapshot` | internal/dnsengine/ippool.go:334-349 | with a list of any age removes exactly the listed leases that still have that fake and are still expired |
| `Pool.IPPool.PruneExpired` | internal/dnsengine/ippool.go:313-351 | without interference the 64 two-phase passes remove exactly the expired leases |
| `Pool.IPPool.GetVersion` | internal/dnsengine/ippool.go:353-360 | the version of the lease that holds the fake, 0 if none does |
| `Pool.IPPool.GetAllMappings` | internal/dnsengine/ippool.go:362-375 | lists exactly the mappings held, each with its version |
| `Pool.IPPool.GetActiveCount` | internal/dnsengine/ippool.go:377-381 | the number of leases, which is the sum of the shard sizes |
| `Pool.IPPool.GetNextVersion` | internal/dnsengine/ippool.go:569-579 | the wall clock if it is ahead, otherwise one more than before, and 0 after 2^64-1 |
| `Pool.IPPool.ObserveVersion` | internal/dnsengine/ippool.go:581-591 | the clock becomes the largest of itself, the wall clock and the version |
| `Pool.IPPool.ProbeV4` | internal/dnsengine/ippool.go:459-478 | finds the first candidate of the window that is free and ends in neither 0 nor 255 |
| `Pool.IPPool.ProbeV6` | internal/dnsengine/ippool.go:479-499 | finds the first free candidate of the window |
| `Pool.IPPool.FindFake` | internal/dnsengine/ippool.go:452-500 | the natural fake if free, the probed one otherwise; what is found is free |
| `Pool.IPPool.AllocateLocked` | internal/dnsengine/ippool.go:433-525 | the section under both locks does to leases and clock what one abstract allocation does |
| `Pool.IPPool.FakeFor` | internal/dnsengine/ippool.go:420-525 | the fast path without the global lock and the locked section agree with one abstract allocation |
| `Pool.IPPool.AllocateLoop` | internal/dnsengine/ippool.go:416-527 | the loop stops at the first address without a fake and otherwise processes all |
| `Pool.IPPool.GetFakeIPsForReals` | internal/dnsengine/ippool.go:405-531 | on success every requested real, and no other, is answered with the fake of its live lease; the new mappings are those of exactly the reals without live lease, reported with the fake and version stored and leased for two hours; on failure no lease is new |
| `Pool.IPPool.Undo` | internal/dnsengine/ippool.go:517-519 | removes the mappings a failed batch created, in whatever order the map yields them |
| `Geometry.NewGeometryWellFormed` | internal/dnsengine/ippool.go:94-138 | every configuration yields masks that fit the sizes and starts that are aligned or the fallback |
| `Geometry.GeometryMeaning` | internal/dnsengine/ippool.go:94-138 | the constructor in numbers: sizes given or 131072 and 1048576, the smallest nets that hold them, bases with cleared host bits, 198.18.0.0 and fd00:18:: otherwise |
| `Geometry.SubnetRange` | internal/dnsengine/sync.go:991-1005 | the subnet check in numbers: the aligned ranges of the two nets |
| `Geometry.ChooseMeaning` | internal/dnsengine/ippool.go:452-500 | the natural fake if it is free, otherwise the first usable free candidate of the window, otherwise none |
| `Geometry.Numbers4` | internal/dnsengine/ippool.go:459-478 | natural fake, candidates and window of an IPv4 pool as formulas modulo the size and 2^32 |
| `Geometry.Numbers6` | internal/dnsengine/ippool.go:479-499 | the same of an IPv6 pool |
| `Geometry.ProbeExact` | internal/dnsengine/ippool.go:459-499 | what the probe picks is free and was tried; it picks none exactly when every usable attempt is held |
| `Geometry.NaturalInNetIff` | internal/dnsengine/ippool.go:533-551 | every hashed IPv4 fake lies in the advertised net if and only if the pool has room there (for one address: if and only if it is neither .0 nor .255) |
| `Geometry.ChosenInNet4` | internal/dnsengine/ippool.go:452-478 | for every hash and every set of held fakes, an allocated IPv4 fake is free, ends in neither 0 nor 255, and lies in the net of a roomy pool |
| `Geometry.OffsetInNet6` | internal/dnsengine/ippool.go:479-499 | an IPv6 offset below the size stays in the net and the 32-bit addition never wraps |
| `Geometry.ChosenInNet6` | internal/dnsengine/ippool.go:479-499 | an allocated IPv6 fake is free and always lies in the advertised net |
| `Geometry.ChosenInSubnet` | internal/dnsengine/sync.go:991-1005 | every fake allocated from pools that fit their nets passes the subnet check of a peer with the same nets, one-address pools and IPv4-mapped IPv6 bases included |
| `Geometry.ChosenInSubnetIff` | internal/dnsengine/sync.go:991-1005 | peers accept every allocated fake, for all hashes and all sets of held fakes, if and only if the IPv4 pool has room in its net (a single address: is neither .0 nor .255) and an IPv4-mapped IPv6 pool has both ends in the IPv4 net |
| `Geometry.ConfiguredRoomyIff` | internal/dnsengine/ippool.go:104-125 | a configuration leaves the pool room in its net if and only if its base does not mask to zero or its size is in one of eleven listed ranges |
| `Geometry.FallbackEscapes` | internal/dnsengine/ippool.go:123-125 | with the fallback start and 2^18 to 2^31 addresses some natural fake lies outside the advertised net |
| `Exhaustion.FailureFillsWindow` | internal/dnsengine/ippool.go:459-499 | a failed probe whose usable candidates differ bounds the number of held fakes from below by their number |
| `Exhaustion.ProbeComplete4` | internal/dnsengine/ippool.go:459-478 | in pools of 1024 up to 2^32-1024 addresses an IPv4 allocation fails only with at least 1015 fakes held, 1016 when the size modulo 256 is 0, 254 or 255 |
| `Exhaustion.ProbeComplete4Iff` | internal/dnsengine/ippool.go:459-478 | of all sizes from 1024 on, failing takes 1016 held fakes if and only if the size modulo 256 is 0, 254 or 255 and it is at most 2^32-1024, or it is 2^32-1 |
| `Exhaustion.ProbeComplete6` | internal/dnsengine/ippool.go:479-499 | an IPv6 allocation fails only with the whole window held |
| `Exhaustion.CandidateRepeats` | internal/dnsengine/ippool.go:488-498 | in a larger pool the 32-bit sum of offset and attempt wraps and two attempts try the same address |
| `Exhaustion.ProbeComplete6Iff` | internal/dnsengine/ippool.go:479-499 | the bound holds for all hashes and held fakes if and only if the pool has at most 2^32-1023 addresses |
| `Exhaustion.SmallPoolFailsIff` | internal/dnsengine/ippool.go:452-500 | in a pool of at most 1024 addresses allocation fails if and only if the natural fake and every address that may be given out are held |
| `Exhaustion.OpenInWindow` | internal/dnsengine/ippool.go:463-471 | a window of 1024 attempts, also across the end of the pool, has at most nine addresses that end in 0 or 255, and at most eight when the size modulo 256 is 0, 254 or 255 |
| `Allocation.EachProgress` | internal/dnsengine/ippool.go:416-527 | what the loop keeps after every address, whether it has failed or not |
| `Allocation.AllOrNothing` | internal/dnsengine/ippool.go:405-531 | on success every requested real has its one live fake, live leases keep theirs and the new mappings are exactly those of the reals that had none, with the fake and version stored; on failure nothing new is left and nothing live is lost |
| `Allocation.AllocateTimes` | internal/dnsengine/ippool.go:428-439 | on success a lease that was live with at least five minutes left is untouched and every other requested one expires two hours after the request |
| `Allocation.AllocateStamps` | internal/dnsengine/ippool.go:506-510 | new versions lie after the clock before and up to the clock after the request, are at least their wall readings, and ascend with the addresses, as long as the clock has room |
| `Allocation.RequestOrderIrrelevant` | internal/dnsengine/ippool.go:410-414 | the order in which addresses arrive changes neither answer nor state |
| `Allocation.AllocateSucceeds` | internal/dnsengine/ippool.go:452-500 | a request cannot fail while leases and requested addresses together are within the capacity: all addresses that may be given out for pools up to 1024, else 1015 or 1016 (IPv4) or 1024 (IPv6) |
| `Allocation.AnswerAllOrNothing` | internal/dnsengine/proxy.go:185-212 | all or nothing for both families together, also when IPv6 fails after IPv4 succeeded; the new mappings reported are held as reported and account for every lease that changed |
| `PoolRuns.RunInjective` | internal/dnsengine/ippool.go:180-351 | in every interleaving no two reals share a fake |
| `PoolRuns.RunInNet` | internal/dnsengine/sync.go:700-703 | in every run of pools that fit their nets every fake is in the nets or was brought in unchecked by a recovery or a reservation |
| `PoolRuns.StaysInNetIff` | internal/dnsengine/sync.go:700-703 | that holds of every hash and every run if and only if the pools fit their nets |
| `PoolRuns.RunClockAhead` | internal/dnsengine/ippool.go:569-591 | in every run that issues no version with the clock at 2^64-1 the clock has reached every version stored, issued or received |
| `PoolRuns.RoomForTicks` | internal/dnsengine/ippool.go:569-591 | inputs that leave room for one tick a step keep the clock from its end |
| `PoolRuns.IssuedIsNewestIff` | internal/dnsengine/ippool.go:569-579 | with the clock ahead, an issued version exceeds all versions seen if and only if the clock is below 2^64-1 |
| `PoolRuns.IssuedIsNewest` | internal/dnsengine/sync.go:705-712 | in such a run each issued version exceeds all stored, issued or received before, those of skipped messages included |
| `PoolRuns.LargestVersionResets` | internal/dnsengine/ippool.go:581-591 | after one message with version 2^64-1 the next version issued is 0 |
| `PoolRuns.PruneOnlyExpired` | internal/dnsengine/ippool.go:313-351 | with any steps between its two phases a prune removes only leases that were expired under the same fake both times |
| `PoolRuns.Perform` | internal/dnsengine/ippool.go:180-591 | each critical section of the class does what the step says, from any state and with any stale list |
| `PoolRuns.Execute` | internal/dnsengine/ippool.go:180-591 | after every feasible interleaving shards and indexes represent exactly the leases and the clock of the run |
| `Convergence.MergeHolds` | internal/dnsengine/ippool.go:180-249 | a merge accepts exactly when the mapping beats all held ones it conflicts with, and then replaces exactly those |
| `Convergence.UnbeatenSurvives` | internal/dnsengine/ippool.go:180-249 | a mapping that nothing sent beats is held after every delivery order with any repeats |
| `Convergence.BeatenLosesSomewhere` | internal/dnsengine/ippool.go:180-249 | any other mapping is lost in some order without repeats |
| `Convergence.SurvivesIff` | internal/dnsengine/ippool.go:180-249 | exactly the unbeaten mappings survive all orders |
| `Convergence.SettledFinal` | internal/dnsengine/ippool.go:180-249 | a settled set ends as the set of its unbeaten mappings, with any order and repeats |
| `Convergence.UnsettledLeftover` | internal/dnsengine/ippool.go:180-249 | an unsettled set has an order that leaves a beaten mapping behind |
| `Convergence.OrderIndependentIff` | README.md:12 | order is irrelevant if and only if every beaten mapping is beaten by an unbeaten one |
| `Convergence.OneFakePerRealConverges` | internal/dnsengine/ippool.go:190-206 | if no real is proposed twice, all orders leave each fake with the maximum of (version, real) |
| `Convergence.RecoveryOrderIrrelevant` | cmd/nextpath-engine/main.go:198-203 | recovery from the kernel map leaves each real with its greatest fake, whatever the iteration order |
| `Convergence.ColdStartReplicates` | internal/dnsengine/sync.go:635-638 | a peer with an empty table that receives all mappings, in any order with any repeats, holds exactly the sender's |
| `Convergence.PreCheckRedundant` | internal/dnsengine/sync.go:705-708 | the version check in front of the merge never changes the outcome |
| `Convergence.OrderMatters` | internal/dnsengine/ippool.go:180-249 | three mappings for which two delivery orders end differently |
| `Replication.ReceiveOne` | internal/dnsengine/sync.go:704-713 | table, clock and acceptance after one received mapping; the clock stays when the version check skips it |
| `Replication.ReceiveMappings` | internal/dnsengine/sync.go:693-717 | a message as a trace, entry by entry: with both addresses and a fake in the nets an entry is merged as `Leases.MergeTakes` says, with its own expiry, and the clock becomes the largest of clock, wall reading and version unless the fake is held with a higher version; any other entry changes nothing; what goes to the kernel is what was merged, in order, and a kernel map that followed the pool follows it afterwards |
| `Replication.TraceDelivers` | internal/dnsengine/sync.go:693-717 | such a trace determines table and clock |
| `Replication.LeaseOrigin` | internal/dnsengine/sync.go:693-717 | after a message every lease is an old one, untouched, or was given by an entry that carried it, with the expiry of that entry |
| `Replication.ColdStartReceived` | internal/dnsengine/sync.go:635-638 | an empty pool that receives exactly the mappings of another, in any order with any repeats, ends with these mappings |
| `Replication.ColdStart` | internal/dnsengine/sync.go:635-638 | listing, sending and receiving all mappings of a pool leaves an empty peer with exactly these mappings, leased as received, and the sender unchanged |
| `Replication.MessageReached` | internal/dnsengine/sync.go:704-712 | after a message the clock has reached every stored version and every admissible version received, those of skipped mappings included |
| `Rewrite.ExtractHints` | internal/dnsengine/proxy.go:143-162 | collects exactly the hinted addresses that get a fake |
| `Rewrite.CollectOne` | internal/dnsengine/proxy.go:164-175 | collects exactly the addresses of one record that get a fake |
| `Rewrite.CollectResponse` | internal/dnsengine/proxy.go:105-185 | the two lists hold exactly what the three sections ask for, by family |
| `Rewrite.PatchSVCBValues` | internal/dnsengine/proxy.go:355-389 | the parameters kept, in order, with their hints mapped |
| `Rewrite.FilterRRs` | internal/dnsengine/proxy.go:274-319 | compacting in the array it reads yields the rewritten section |
| `Rewrite.FilteredUndone` | internal/dnsengine/proxy.go:274-319 | by record type: no RRSIG, NSEC, NSEC3 and, with IPv6 off, no AAAA is sent; every other record is, in order; usable addresses and hints lead back through the pool to the upstream ones, unusable hints and with IPv6 off parameters with key 6 are gone, times to live are the lesser of two, everything else is as it was |
| `Rewrite.KindsSent` | internal/dnsengine/proxy.go:274-319 | as many A, SVCB, HTTPS and other records are sent as received, and AAAA with IPv6 on; none of the types dropped |
| `Rewrite.DistinctStay` | internal/dnsengine/proxy.go:274-319 | different reals are sent as different fakes and equal ones as equal |
| `Rewrite.AllocateAnswer` | internal/dnsengine/proxy.go:185-212 | both families with the cross-family rollback, as one function of pool and clock |
| `Rewrite.AnswerServes` | internal/dnsengine/proxy.go:105-212 | allocating what was collected makes the maps answer every address of the response |
| `Rewrite.KernelFollowsAnswer` | internal/dnsengine/proxy.go:214-272 | entering all mapped fakes, not only the new ones, keeps the kernel map in step with the pool |
| `Rewrite.Handle` | internal/dnsengine/proxy.go:105-327 | a whole response: on success all three sections are sent as `Rewrite.FilteredUndone` says, on failure they are untouched, no lease is new and no live one lost; only leases of usable addresses in the response change; what is broadcast is held, new, and all that changed |
| `Peering.RegisteredMeansCompatible` | internal/dnsengine/sync.go:501-631 | a connection registered at either end means equal IPv4 and IPv6 nets and different UUIDs, though only the accepting side compares nets |
| `Peering.CanRegisterIff` | internal/dnsengine/sync.go:501-631 | an end can register a connection if and only if the nets agree, the UUIDs differ, and the tokens shown are those the accepting side, and at the dialling end the dialling side, asks for |
| `Peering.TieBreakHasDistinctIds` | internal/dnsengine/sync.go:474-487 | the equal-UUID branches of the tie-break are never reached |
| `Peering.DominantSurvives` | internal/dnsengine/sync.go:533-553 | in every interleaving the one connection dialled by the lower UUID, or the only connection there is, is closed at neither end |
| `Peering.DominantIsKept` | internal/dnsengine/sync.go:725-732 | once both ends have registered it both tables keep it while the network does |
| `Peering.ConnectionSafeIff` | internal/dnsengine/sync.go:463-490 | no run closes a given connection if and only if it is the only one of the lower UUID or the only one |
| `Peering.BothLost` | internal/dnsengine/sync.go:467-469 | any two connections dialled by the same node, whichever, have a run after which both are over and both tables empty |
| `Peering.AllLostIff` | internal/dnsengine/sync.go:463-490 | some run loses every connection without a fault of the network if and only if there are at least two and the lower UUID has not dialled exactly one |
| `Peering.TieBreakSafeIff` | internal/dnsengine/sync.go:463-490 | no run closes a connection of the lower node if and only if it has dialled at most one |
| `Locks.ScriptFollows` | internal/dnsengine/ippool.go:184-244 | every operation keeps the lock order |
| `Locks.RunInv` | internal/dnsengine/ippool.go:184-244 | in every run of any number of threads no two hold conflicting locks and all keep the order |
| `Locks.NoDeadlock` | internal/dnsengine/ippool.go:184-244 | in every reachable state with an unfinished operation some thread can step |
| `Domains.CompareFromEnd` | internal/parser/compiler.go:967-977 | the scanning comparison is the order on reversed bytes |
| `Domains.LeTotalOrder` | internal/parser/compiler.go:967-977 | that order is total |
| `Domains.SortDomains` | internal/parser/compiler.go:984 | the array becomes the one ordered permutation of what it held |
| `Domains.Interval` | internal/parser/compiler.go:967-977 | between a name and one below it sort only the name itself, names below it and names in which a byte before the dot precedes it |
| `Domains.Compact` | internal/parser/compiler.go:986-996 | writing behind the index it reads at loses nothing: the returned part of the array is the pass over the list as it was before |
| `Domains.CollapseDomains` | internal/parser/compiler.go:979-997 | sort and pass together, in the array it was given, empty input included |
| `Domains.KeptIff` | internal/parser/compiler.go:979-997 | which names are kept, in closed form |
| `Domains.PassKeepsMeaning` | internal/parser/compiler.go:986-996 | the names at or below a listed one stay the same, for every list, sorted or not |
| `Domains.AntichainIff` | internal/parser/compiler.go:979-997 | no kept name lies below another if and only if every listed name with a listed parent has one that no `x-` name follows |
| `Domains.NoDashShielded` | internal/parser/compiler.go:979-997 | without a listed `x-d` for a listed `d` that condition holds |
| `Domains.DashIsHyphen` | internal/parser/compiler.go:1027-1046 | in a normalised name the byte in question can only be the hyphen |
| `Domains.HyphenExample` | internal/parser/compiler.go:979-997 | for all a, x, y the list `a`, `y-a`, `x.a` is sorted and kept whole although its last name lies below its first |
| `Domains.CollapseMeaning` | internal/parser/compiler.go:979-997 | coverage, kept names and the antichain condition for an input in any order |
| `Rpz.BuildSimpleRPZ` | internal/parser/compiler.go:46-78 | which names are written as blocked and which as passed |
| `Rpz.BuildProxyZone` | internal/parser/compiler.go:185-225 | the same for the proxy zone: includes stripped, excludes of three lists |
| `Rpz.BuildAdblockZone` | internal/parser/compiler.go:231-287 | the same for the ad-block zone: removed names count as excludes but are not passed |
| `Rpz.BlockedIsIncluded` | internal/parser/compiler.go:644-656 | under most-specific match every blocked name lies under an include |
| `Rpz.IncludedIsBlocked` | internal/parser/compiler.go:644-656 | every name under an include and under no exclude is blocked |
| `Rpz.MeaningIff` | internal/parser/compiler.go:46-78 | the zone blocks exactly the names under an include and no exclude if and only if every include below an exclude has a listed parent that no `x-` name follows, and every exclude below a blocked name lies under a passed one |
| `Rpz.ZoneMeaningIff` | internal/parser/compiler.go:46-78 | when all excludes are written as passed names the first condition is all there is |
| `Rpz.SimpleZoneMeaning` | internal/parser/compiler.go:46-78 | rules to meaning: what is blocked an include rule covers; what an include and no exclude rule covers is blocked; these are all if and only if the includes are sheltered |
| `Rpz.NoHyphenMeansRules` | internal/parser/compiler.go:46-78 | without a listed `x-d` for a listed `d` the zone means its rules |
| `Rpz.AdblockMeaningIff` | internal/parser/compiler.go:231-287 | the ad-block zone blocks exactly what an include rule covers and no exclude rule or removed name does if and only if the includes are sheltered and every removed name below a blocked one is under an exclude rule |
| `Rpz.RemovalHasNoEffect` | internal/parser/compiler.go:254-282 | the failing family: a name removed below an included one without listed parents stays blocked |
| `Rpz.StripWidens` | internal/parser/compiler.go:1048-1092 | stripping a leading label yields a name that covers the original and still has a dot |
| `Rpz.StripShape` | internal/parser/compiler.go:1048-1092 | which names are shortened: those whose first label is www, m, hd, cdn, perhaps with a number, or a number, in any case, with a dot left afterwards |
| `Rpz.ProxyCoversIncludes` | internal/parser/compiler.go:185-225 | every name under an include as listed and under no exclude is proxied |
| `Rpz.ProxyMeaningIff` | internal/parser/compiler.go:185-225 | the proxy zone blocks exactly what a stripped include covers and none of the three kinds of excludes does if and only if the stripped includes are sheltered |
| `Rpz.HyphenZone` | internal/parser/compiler.go:46-78 | with `a` excluded and `y-a` included, an included `x.a` is blocked although excluded |
| `PrefixSets.PaintMem` | internal/parser/compiler.go:923-933 | adding or removing a prefix changes membership exactly under it |
| `PrefixSets.CanonicalUnique` | internal/parser/compiler.go:923-933 | a set of addresses has one canonical form |
| `PrefixSets.PrefixesMeaning` | internal/parser/compiler.go:923-933 | the prefixes listed denote the set |
| `PrefixSets.PrefixesAreMaximal` | internal/parser/compiler.go:923-933 | exactly the maximal prefixes of the set are listed |
| `PrefixSets.DiffCount` | internal/parser/compiler.go:923-933 | how many prefixes a difference of two sets lists, as a sum over the prefixes of the first |
| `Routes.SubtractMeaning` | internal/parser/compiler.go:923-933 | subtraction is exact and lists the maximal prefixes of the difference |
| `Routes.CollapseCanonical` | internal/parser/compiler.go:935-937 | lists of the same addresses collapse to the same list |
| `Routes.CollapseLength` | internal/parser/compiler.go:935-937 | collapsing yields no prefix longer than the longest given |
| `Routes.WidenTwice` | internal/parser/compiler.go:844-865 | cutting to one length and then to a shorter one is cutting once |
| `Routes.LongestPrefix` | internal/parser/compiler.go:834-839 | the greatest prefix length, attained |
| `Routes.AggregatePrefixes` | internal/parser/compiler.go:822-868 | terminates, within a positive limit or with no prefix longer than the floor, at the longest level whose list is within the limit; unlimited and empty inputs are returned as they are |
| `Routes.AggregatedMeaning` | internal/parser/compiler.go:822-868 | the result covers every input address, adds only addresses that share the floor's bits with one, and is within the limit or has no prefix longer than the floor |
| `Routes.AggregatedUnique` | internal/parser/compiler.go:822-868 | that description determines the result |
| `Routes.FilterNets` | internal/parser/compiler.go:870-886 | keeps exactly the networks of the family, with the safeguard those of at least 4 (IPv4) or 16 (IPv6) bits |
| `Routes.CompileFamily` | internal/parser/compiler.go:781-820 | in numbers: an address under an included network of at least 4 (16) bits is routed unless excluded or denied; excluded or denied it is not; routed it shares 12 (32) bits with such an included address, all bits without a limit; the aggregation is within the limit or has no prefix longer than 12 (32); the deny list is exact |
| `Routes.RoutedMeaning` | internal/parser/compiler.go:781-820 | despite the widening the promise on routed addresses holds at the level the aggregation reaches |
| `Routes.RoutesDenote` | internal/parser/compiler.go:801-804 | the prefixes written denote exactly the widened includes without excludes and denies |
| `Routes.SubtractCount` | internal/parser/compiler.go:923-933 | how many prefixes a subtraction lists: per collapsed network one, one more for every split towards an excluded prefix inside it, one less for every such prefix, none if it is excluded whole |
| `Routes.RouteLimitIff` | internal/parser/compiler.go:801-804 | the written routes are within the limit if and only if these pieces of the widened networks are |
| `Routes.OneExcludeLimitIff` | internal/parser/compiler.go:801-804 | with one excluded network the limit is kept if and only if the network it lies in, if any, is not shorter by more than the room left plus one |
| `Routes.DisjointKeepsRoutes` | internal/parser/compiler.go:923-933 | excludes that meet no route change no route |
| `Routes.ExcludeBound` | internal/parser/compiler.go:923-933 | however they lie, excludes add at most the sum of their lengths |
| `Routes.LimitNotKeptBySubtraction` | internal/parser/compiler.go:801-804 | for every limit that 2^d exceeds, an admitted network and excludes d+1 bits longer for which the aggregation is within the limit and the written routes are 2^d |

## Left out

- TLS, certificate pinning, dialling, gob encoding, deadlines, write queues and peer exchange: network I/O; `Peering` keeps the handshake fields and the identity of connections.
- Batching in `sendAllMappingsToConn` and `BroadcastMappings`: splits a list into messages, which `Convergence.ColdStartReplicates` makes irrelevant.
- The nftables ruleset, kernel errors and kernel timeouts: `Replication` and `Rewrite` model the kernel map as a map whose writes succeed.
- Downloads, caching, state hashes, file watching, configuration, metrics, logging, Lua and shell scripts: no property beyond what they call.
- `normalizeDomain`, IDNA, the casino filter and line parsing: names are any strings; where normalisation matters the lemma says which bytes may occur.
- `routeAll` and raw zone rules: they are copied to the zone as they are.
- The FNV mixing: the hash is a parameter, only its reduction modulo 64 and the pool size is modelled.
- Host bits of an unmasked prefix: prefixes are bit strings of their length, as the set builder reads them.
- The netipx set builder is not part of this model; canonical tries stand for it, and `PrefixSets` proves that they list what that library documents.
- The Go sort algorithms: `Sorting.SortedUnique` shows that their result is determined.
- Convergence with expiry or removal between deliveries: only runs of deliveries are compared.
- Concurrent requests that use a mapping another request is about to roll back: the all-or-nothing results are for one request without interference; `PoolRuns` covers the interleavings for the pool's own invariants.
- Locks and data are modelled apart: `Locks` has the lock order, `PoolRuns` takes each critical section as one step.
- The upstream query and its failure: `Rewrite.Handle` starts from a response.
- Exhaustion.ProbeComplete4: for pools of at most 2^32 - 1024 addresses; `Exhaustion.ProbeComplete4Iff` decides the larger ones.
- Exhaustion.ProbeComplete6: for pools of at most 2^32 - 1023 addresses; `Exhaustion.ProbeComplete6Iff` shows that this is exact.
- Allocation.AllocateSucceeds: not for IPv4 pools of 2^32 - 1023 to 2^32 - 2 and IPv6 pools above 2^32 - 1023 addresses, where a probe tries addresses twice.
- PoolRuns.RunInNet: for pools that fit their nets; `PoolRuns.StaysInNetIff` shows that this is exact.
- PoolRuns.RunClockAhead: for runs that issue no version with the clock at 2^64 - 1; `PoolRuns.LargestVersionResets` shows what happens then.
- Peering.DominantSurvives: for a connection that is the only one of the lower UUID or the only one; `Peering.ConnectionSafeIff` shows that this is exact.
