# Orleans local grain directory — a Dafny model

This project models the local grain directory of an Orleans silo
(`LocalGrainDirectory`). The directory is a distributed map from grain identities
to the activation that currently hosts each grain. Every silo owns the
directory entries for one range of a hash ring, keeps a cache of entries it
learned from other silos, and forwards requests for grains it does not own.

The model covers:

- the membership snapshot: a list of silos sorted by consistent hash, plus the
  set of the same silos; adding and removing silos; ring neighbours; ring
  distance;
- ownership resolution (`CalculateGrainDirectoryPartition`): which silo owns the
  directory entry of a grain;
- the forwarding decision (`CheckIfShouldForward`) and the bounded forwarding
  chain it produces;
- the request handlers (register, unregister, unregister a batch, look up,
  delete, the local-only lookup), as synchronous procedures that mutate the
  partition and the cache exactly as the source does on each path;
- the adjustments of the partition and of the cache when a silo joins or
  leaves, and the dispatch of silo status changes.

Files:

- `types.dfy`: identities, hashes, errors.
- `stores.dfy`: the contracts the directory relies on from its partition and its cache.
- `membership.dfy`: the ring snapshot.
- `ownership.dfy`: ownership and forwarding as functions.
- `batch.dfy`: the specification of the batch pass.
- `directory.dfy`: the `LocalGrainDirectory` class with its handlers and adjustments.
- `scenarios.dfy`: short end-to-end runs.

**Ownership follows the code.** The owner of an ordinary grain is found by
scanning the sorted ring from the top down. It is the silo with the greatest
hash not above the grain's signed 32-bit hash. When every silo hashes above the
grain, the ring wraps to the silo with the greatest hash. This is the reverse of
the textbook consistent-hashing rule, where the owner is the first silo whose
hash is at or above the key. The model implements the code's rule. So on a ring
of silos hashing to 10, 50 and 90, a grain hashing to 60 belongs to the silo at
50, not the one at 90. Once that silo leaves, the grain belongs to the silo at 10
(`Ownership.ThreeSiloRing`, `DirectoryScenarios.ThreeSiloRingAfterRemoval`).

Collaborators are parameters:

- Consistent and uniform hashes are fields of the silo and grain identities.
- `IsPredecessorOf` is a function-valued constant of the directory.
- The set of functional silos (`IsFunctionalDirectory`) is a parameter of the
  handlers that consult it.
- The remote directory is a value holding one total function per remote call.
- The partition's fresh version tag is a parameter.
- Calls to the catalog and the handoff manager are recorded as ordered
  notification lists. Each catalog notification also records the membership
  snapshot current at the call, which shows that the catalog is called before
  the ring changes.

## Model

All source paths are relative to the repository root;
`src/Orleans.Runtime/GrainDirectory/LocalGrainDirectory.cs` is the only core file.

| member | source | states |
|---|---|---|
| DirectoryTypes.ToInt32 | src/Orleans.Runtime/GrainDirectory/LocalGrainDirectory.cs:320 | the unchecked cast to `int` keeps the value modulo 2^32 and is non-negative exactly for values below 2^31 |
| DirectoryTypes.SiloStatus.IsTerminating | src/Orleans.Runtime/GrainDirectory/LocalGrainDirectory.cs:274 | the terminating statuses are exactly those past `Active` in a silo's life |
| Membership.DirectoryMembership.Valid | src/Orleans.Runtime/GrainDirectory/LocalGrainDirectory.cs:949-962 | a snapshot pairs a ring list sorted by hash and free of duplicates with a set of exactly its silos |
| Membership.ValidSizes | src/Orleans.Runtime/GrainDirectory/LocalGrainDirectory.cs:949-962 | in a valid snapshot the ring list and the membership set have the same size |
| Membership.Default | src/Orleans.Runtime/GrainDirectory/LocalGrainDirectory.cs:957 | the starting snapshot is valid and holds no silo |
| Membership.InsertIndex | src/Orleans.Runtime/GrainDirectory/LocalGrainDirectory.cs:132-137 | the insertion point is preceded by a silo hashing below the newcomer and followed only by silos hashing at or above it |
| Membership.IndexOf | src/Orleans.Runtime/GrainDirectory/LocalGrainDirectory.cs:246 | -1 exactly when the silo is absent, otherwise its first position |
| Membership.InsertKeepsSorted | src/Orleans.Runtime/GrainDirectory/LocalGrainDirectory.cs:134-140 | inserting at that point keeps the ring sorted by hash |
| Membership.InsertKeepsDistinct | src/Orleans.Runtime/GrainDirectory/LocalGrainDirectory.cs:139-141 | inserting an absent silo keeps the ring duplicate-free and adds exactly that silo to its elements |
| Membership.InsertPlacement | src/Orleans.Runtime/GrainDirectory/LocalGrainDirectory.cs:132-137 | on a sorted ring the silo inserted at that point follows every lower hash and precedes every equal or higher one |
| Membership.WithSilo | src/Orleans.Runtime/GrainDirectory/LocalGrainDirectory.cs:131-141 | the new snapshot is sorted and duplicate-free, its list and set hold the same silos, and it gains exactly the new silo; the old silos keep their order and the newcomer follows every lower hash and precedes every silo sharing its hash |
| Membership.RemoveKeepsValid | src/Orleans.Runtime/GrainDirectory/LocalGrainDirectory.cs:174-176 | dropping one position keeps the ring sorted and duplicate-free and drops exactly that silo |
| Membership.WithoutSilo | src/Orleans.Runtime/GrainDirectory/LocalGrainDirectory.cs:174-176 | the new snapshot stays valid and loses exactly the removed silo; the ring is the old one with the silo's first position taken out, so every other silo keeps its place in the order |
| Membership.WithoutSiloKeepsTieOrder | src/Orleans.Runtime/GrainDirectory/LocalGrainDirectory.cs:174-176 | with three silos sharing one hash, removing the last leaves the other two in their original order |
| Membership.RemoveInserted | src/Orleans.Runtime/GrainDirectory/LocalGrainDirectory.cs:174-176 | dropping the position just inserted gives back the ring from before |
| Membership.WithoutAfterWith | src/Orleans.Runtime/GrainDirectory/LocalGrainDirectory.cs:120-183 | removing a silo that was just added restores the previous snapshot exactly |
| Membership.IndexOfFirst | src/Orleans.Runtime/GrainDirectory/LocalGrainDirectory.cs:246 | a silo whose earlier positions all hold other silos is found at its first occurrence |
| Membership.IndexOfDistinct | src/Orleans.Runtime/GrainDirectory/LocalGrainDirectory.cs:246 | on a duplicate-free ring each silo is found at its own position |
| Membership.FindPredecessor | src/Orleans.Runtime/GrainDirectory/LocalGrainDirectory.cs:243-254 | none exactly when the silo is absent or alone; otherwise the cyclically previous silo, which differs from it |
| Membership.FindSuccessor | src/Orleans.Runtime/GrainDirectory/LocalGrainDirectory.cs:256-267 | none exactly when the silo is absent or alone; otherwise the cyclically next silo, which differs from it |
| Membership.PredecessorOfSuccessor | src/Orleans.Runtime/GrainDirectory/LocalGrainDirectory.cs:243-267 | on a duplicate-free ring, the predecessor of a silo's successor is that silo |
| Membership.SuccessorOfPredecessor | src/Orleans.Runtime/GrainDirectory/LocalGrainDirectory.cs:243-267 | on a duplicate-free ring, the successor of a silo's predecessor is that silo |
| Membership.CalcRingDistance | src/Orleans.Runtime/GrainDirectory/LocalGrainDirectory.cs:765-775 | the distance as written: 0 for equal hashes, positive when the second hash is higher, and never below -1 |
| Membership.CalcRingDistanceNegative | src/Orleans.Runtime/GrainDirectory/LocalGrainDirectory.cs:767-772 | as written, the distance from the highest hash to the lowest is -1 |
| Membership.RingDistance | src/Orleans.Runtime/GrainDirectory/LocalGrainDirectory.cs:765-775 | the corrected clockwise distance is in [0, 2^32), is 0 exactly for equal hashes, and leads from the first hash to the second modulo 2^32 |
| Membership.RingDistanceRoundTrip | src/Orleans.Runtime/GrainDirectory/LocalGrainDirectory.cs:765-775 | for distinct hashes, there and back covers the ring exactly once |
| Membership.RingDistanceToSuccessor | src/Orleans.Runtime/GrainDirectory/LocalGrainDirectory.cs:763 | as written with `CalcRingDistance`: 0 without a successor, positive when the successor hashes higher, and never below -1 |
| Membership.CorrectedRingDistanceToSuccessor | src/Orleans.Runtime/GrainDirectory/LocalGrainDirectory.cs:763 | on the 2^32 ring: in [0, 2^32), 0 without a successor, and 0 with one exactly when both share a hash |
| Membership.RingDistanceToSuccessorShortOnWrap | src/Orleans.Runtime/GrainDirectory/LocalGrainDirectory.cs:763-775 | the portion as written equals the corrected one unless the successor wraps past the top of the hash range, where it is two short |
| Membership.RingDistanceToSuccessorNegative | src/Orleans.Runtime/GrainDirectory/LocalGrainDirectory.cs:763-775 | on the ring of the lowest and the highest hash, the highest silo's portion is -1 as written and 1 when corrected |
| Ownership.IsSiloNextInTheRing | src/Orleans.Runtime/GrainDirectory/LocalGrainDirectory.cs:782-785 | a candidate hashes at or below the grain and is not the excluded local silo |
| Ownership.ScanDown | src/Orleans.Runtime/GrainDirectory/LocalGrainDirectory.cs:334-343 | the highest position below the start that qualifies, or none when no such position qualifies |
| Ownership.PartitionOwner | src/Orleans.Runtime/GrainDirectory/LocalGrainDirectory.cs:295-365 | a configuration error exactly for the membership-table type without a seed; the local silo for system targets; for an empty ring, the local silo or none when stopping; otherwise the highest qualifying ring member, or the wrap-around fallback; a non-null owner is a ring member |
| Ownership.OwnerHasGreatestHashNotAbove | src/Orleans.Runtime/GrainDirectory/LocalGrainDirectory.cs:319-355 | on a sorted ring, the owner has the greatest hash not above the grain's hash, or the greatest hash of all when the ring wraps |
| Ownership.StoppingSiloNeverOwns | src/Orleans.Runtime/GrainDirectory/LocalGrainDirectory.cs:322-355 | a directory that is not running never names itself the owner of an ordinary grain |
| Ownership.RunningSilosAgree | src/Orleans.Runtime/GrainDirectory/LocalGrainDirectory.cs:319-364 | running silos that see the same ring agree on every ordinary grain's owner |
| Ownership.ScanDownIgnoresObserver | src/Orleans.Runtime/GrainDirectory/LocalGrainDirectory.cs:334-343 | without exclusion, the scan's result does not depend on which silo performs it |
| Ownership.ThreeSiloRing | src/Orleans.Runtime/GrainDirectory/LocalGrainDirectory.cs:334-355 | on silos hashing to 10/50/90, grain 60 goes to the silo at 50 and grain 5 wraps to the silo at 90 |
| Ownership.Forwarding | src/Orleans.Runtime/GrainDirectory/LocalGrainDirectory.cs:367-387 | serve locally exactly when there is no owner or the local silo owns the grain; a foreign owner at or past the hop limit is a hop-limit error naming the silo, grain, owner and hop count; a forward target is never the local silo |
| Ownership.Route | src/Orleans.Runtime/GrainDirectory/LocalGrainDirectory.cs:403-436 | under arbitrary ownership beliefs, a forwarded request ends within the hop limit at a silo that believes it should serve it, or fails exactly at the hop limit |
| Ownership.EndlessDisagreementHitsHopLimit | src/Orleans.Runtime/GrainDirectory/LocalGrainDirectory.cs:379-383 | when every silo always points elsewhere, the request fails with the hop-limit error naming the last believed owner |
| Stores.AddSingleActivation | src/Orleans.Runtime/GrainDirectory/LocalGrainDirectory.cs:425 | an existing activation wins unless it is the named previous one; otherwise the address is stored with the fresh tag; other grains are untouched |
| Stores.RemoveActivation | src/Orleans.Runtime/GrainDirectory/LocalGrainDirectory.cs:501 | the entry goes only when it still records that activation; nothing else changes |
| Stores.RemoveGrain | src/Orleans.Runtime/GrainDirectory/LocalGrainDirectory.cs:734 | the grain's entry goes whatever it records; nothing else changes |
| Stores.LookUpActivation | src/Orleans.Runtime/GrainDirectory/LocalGrainDirectory.cs:641 | an address exactly when the partition holds the grain, with its tag; `default(AddressAndTag)` on a miss |
| Stores.RegisterRaceHasOneWinner | src/Orleans.Runtime/GrainDirectory/LocalGrainDirectory.cs:421-429 | two racing registrations of a new grain leave one entry, and both callers see the same winning address and tag |
| Stores.CacheAddOrUpdate | src/Orleans.Runtime/GrainDirectory/LocalGrainDirectory.cs:428 | the grain now maps to the given address and tag; other grains are untouched |
| Stores.CacheRemove | src/Orleans.Runtime/GrainDirectory/LocalGrainDirectory.cs:744-747 | the grain's entry is gone; other grains are untouched |
| Stores.CacheRemoveAddress | src/Orleans.Runtime/GrainDirectory/LocalGrainDirectory.cs:749-752 | the entry goes only when it records that activation |
| Ownership.ForwardDecision | src/Orleans.Runtime/GrainDirectory/LocalGrainDirectory.cs:367-387 | serve locally exactly when the owner is none or the local silo; a forward target is the owner, is never the local silo, and is below the hop limit |
| Batching.AppendTo | src/Orleans.Runtime/GrainDirectory/LocalGrainDirectory.cs:522-525 | the target's list gains the address at its end; other lists are untouched |
| Batching.Sweep | src/Orleans.Runtime/GrainDirectory/LocalGrainDirectory.cs:512-535 | the pass only removes partition entries and keeps entries filed under their grain |
| Batching.Locals | src/Orleans.Runtime/GrainDirectory/LocalGrainDirectory.cs:515-533 | every address unregistered locally is in the batch and is served locally |
| Batching.RoutedTo | src/Orleans.Runtime/GrainDirectory/LocalGrainDirectory.cs:515-526 | an address goes to a silo exactly when it is in the batch and that silo is its forward target; such a silo is never the local one |
| Batching.FirstFailure | src/Orleans.Runtime/GrainDirectory/LocalGrainDirectory.cs:518 | none exactly when every ownership check of the batch succeeds |
| Batching.Cleared | src/Orleans.Runtime/GrainDirectory/LocalGrainDirectory.cs:532 | an entry goes exactly when some address names its activation; kept entries are unchanged |
| Batching.ClearedStep | src/Orleans.Runtime/GrainDirectory/LocalGrainDirectory.cs:532 | unregistering one address and then the rest equals unregistering them all |
| Batching.SweepClears | src/Orleans.Runtime/GrainDirectory/LocalGrainDirectory.cs:512-535 | the pass unregisters exactly the activations named by locally served addresses before the first failed check |
| Batching.SweepFails | src/Orleans.Runtime/GrainDirectory/LocalGrainDirectory.cs:518 | the pass fails exactly when some check fails, with the first error |
| Batching.SweepGroups | src/Orleans.Runtime/GrainDirectory/LocalGrainDirectory.cs:520-526 | on success each silo's list is its batch addresses in batch order |
| Batching.ClearedTwice | src/Orleans.Runtime/GrainDirectory/LocalGrainDirectory.cs:551-558 | unregistering the same addresses again removes nothing more |
| Batching.SweepListsIgnorePartition | src/Orleans.Runtime/GrainDirectory/LocalGrainDirectory.cs:518-526 | where addresses are sent does not depend on the partition's contents |
| Batching.SweepTwice | src/Orleans.Runtime/GrainDirectory/LocalGrainDirectory.cs:554-559 | the second pass after the delay leaves the partition as the first left it and rebuilds the same lists |
| GrainDirectory.DirectoryEvicts | src/Orleans.Runtime/GrainDirectory/LocalGrainDirectory.cs:195-200 | a departed silo's own activations are always evicted; a joining silo evicts only its predecessors' activations; for any other silo only predecessors count |
| GrainDirectory.DirectoryAfterAdjust | src/Orleans.Runtime/GrainDirectory/LocalGrainDirectory.cs:188-209 | an entry is dropped exactly when its silo is a predecessor of the changed silo, or is the changed silo and that silo is dead; kept entries are unchanged |
| GrainDirectory.DirectoryAdjustIdempotent | src/Orleans.Runtime/GrainDirectory/LocalGrainDirectory.cs:188-209 | a repeated adjustment for the same change removes nothing more |
| GrainDirectory.DirectoryAdjustAddThenRemove | src/Orleans.Runtime/GrainDirectory/LocalGrainDirectory.cs:145-178 | adjusting for a join and then a departure of one silo removes what the departure alone removes |
| GrainDirectory.CacheEvicts | src/Orleans.Runtime/GrainDirectory/LocalGrainDirectory.cs:225-236 | a grain the local silo now owns is always dropped; any other entry is dropped exactly when the partition rule would evict its address |
| GrainDirectory.CacheAfterAdjust | src/Orleans.Runtime/GrainDirectory/LocalGrainDirectory.cs:219-241 | an entry is dropped exactly when its grain now belongs to the local silo, or its silo is a predecessor of the changed silo, or is the changed silo and that silo is dead |
| GrainDirectory.CacheAdjustIdempotent | src/Orleans.Runtime/GrainDirectory/LocalGrainDirectory.cs:219-241 | a repeated cache adjustment under the same membership removes nothing more |
| GrainDirectory.CacheKeepsUnaffected | src/Orleans.Runtime/GrainDirectory/LocalGrainDirectory.cs:211-218 | an entry owned elsewhere and recording an unaffected silo survives unchanged |
| GrainDirectory.CacheAdjustFailsOnlyWithoutSeed | src/Orleans.Runtime/GrainDirectory/LocalGrainDirectory.cs:227 | the cache adjustment can fail only without a seed and with a membership-table grain cached |
| GrainDirectory.ForwardBatches | src/Orleans.Runtime/GrainDirectory/LocalGrainDirectory.cs:569-580 | succeeds exactly when every destination acknowledges its batch; a failure is one destination's error |
| GrainDirectory.LocalGrainDirectory.constructor | src/Orleans.Runtime/GrainDirectory/LocalGrainDirectory.cs:43-88 | a new directory is not running, knows only its own silo, holds nothing and has announced itself to the handoff manager; the seed is itself when the primary endpoint is its own |
| GrainDirectory.LocalGrainDirectory.Start | src/Orleans.Runtime/GrainDirectory/LocalGrainDirectory.cs:90-97 | the directory is running |
| GrainDirectory.LocalGrainDirectory.StopAsync | src/Orleans.Runtime/GrainDirectory/LocalGrainDirectory.cs:105-118 | both stores are empty and the silo no longer owns any ordinary grain |
| GrainDirectory.LocalGrainDirectory.CalculateGrainDirectoryPartition | src/Orleans.Runtime/GrainDirectory/LocalGrainDirectory.cs:295-365 | the downward loop computes `PartitionOwner` of the current membership |
| GrainDirectory.LocalGrainDirectory.CheckIfShouldForward | src/Orleans.Runtime/GrainDirectory/LocalGrainDirectory.cs:367-387 | the decision is `ForwardDecision` on the current membership |
| GrainDirectory.LocalGrainDirectory.ForwardTarget | src/Orleans.Runtime/GrainDirectory/LocalGrainDirectory.cs:403-419 | the check repeated after the retry delay yields the same decision |
| GrainDirectory.LocalGrainDirectory.RegisterAsync | src/Orleans.Runtime/GrainDirectory/LocalGrainDirectory.cs:391-450 | served here, the partition's winner is returned and cached; forwarded with one more hop, the owner's answer is returned and cached only when it is the submitted address on a functional silo; an error changes nothing |
| GrainDirectory.LocalGrainDirectory.UnregisterAsync | src/Orleans.Runtime/GrainDirectory/LocalGrainDirectory.cs:469-509 | at hop 0 the matching cache entry goes first; served here, the activation is no longer registered; forwarded, the owner's outcome is returned |
| GrainDirectory.LocalGrainDirectory.UnregisterOrPutInForwardList | src/Orleans.Runtime/GrainDirectory/LocalGrainDirectory.cs:512-535 | the loop's partition and lists are those of `Sweep` |
| GrainDirectory.LocalGrainDirectory.UnregisterManyAsync | src/Orleans.Runtime/GrainDirectory/LocalGrainDirectory.cs:538-581 | locally owned activations are unregistered; a failed check raises the first error; otherwise it succeeds exactly when every owner acknowledges its own sub-batch |
| GrainDirectory.LocalGrainDirectory.LookupAsync | src/Orleans.Runtime/GrainDirectory/LocalGrainDirectory.cs:645-713 | served here, the partition answers and a miss carries NO_ETAG; a non-functional target is an unstable-target error; a remote answer on a functional silo is cached |
| GrainDirectory.LocalGrainDirectory.DeleteGrainAsync | src/Orleans.Runtime/GrainDirectory/LocalGrainDirectory.cs:715-742 | served here, the grain's entry goes; forwarded, the local cache entry goes first |
| GrainDirectory.LocalGrainDirectory.GetLocalCacheData | src/Orleans.Runtime/GrainDirectory/LocalGrainDirectory.cs:643 | a cached address is offered exactly when its silo is functional |
| GrainDirectory.LocalGrainDirectory.LocalLookup | src/Orleans.Runtime/GrainDirectory/LocalGrainDirectory.cs:584-639 | false without an owner; a functional cache hit with tag 0; the partition only when this silo owns the grain; false for a foreign owner; every hit is a functional cached address or this silo's own registration |
| GrainDirectory.LocalGrainDirectory.AdjustLocalDirectory | src/Orleans.Runtime/GrainDirectory/LocalGrainDirectory.cs:188-209 | the collect-then-remove loops leave exactly `DirectoryAfterAdjust` |
| GrainDirectory.LocalGrainDirectory.AdjustLocalCache | src/Orleans.Runtime/GrainDirectory/LocalGrainDirectory.cs:219-241 | the scan leaves exactly `CacheAfterAdjust`, or stops with an ownership error after dropping only entries it would drop |
| GrainDirectory.LocalGrainDirectory.AddServer | src/Orleans.Runtime/GrainDirectory/LocalGrainDirectory.cs:120-150 | a present silo changes nothing; a new one is inserted in hash order, announced to the handoff manager, and both stores are adjusted |
| GrainDirectory.LocalGrainDirectory.RemoveServer | src/Orleans.Runtime/GrainDirectory/LocalGrainDirectory.cs:152-183 | the catalog is notified in every case, together with the membership snapshot from before the change, so it still sees a removed silo as a member; an absent silo changes nothing more; otherwise it leaves the ring and no partition entry records it, nor any cache entry after a completed adjustment |
| GrainDirectory.LocalGrainDirectory.SiloStatusChangeNotification | src/Orleans.Runtime/GrainDirectory/LocalGrainDirectory.cs:269-285 | changes of the local silo and intermediate statuses are ignored; a terminating silo is reported to the catalog with the snapshot from before its removal and leaves the membership; an active one joins it |
| DirectoryScenarios.ThreeSiloRingAfterRemoval | src/Orleans.Runtime/GrainDirectory/LocalGrainDirectory.cs:174-176 | removing the silo at 50 from 10/50/90 leaves [10, 90], and grain 60 then goes to the silo at 10 |
| DirectoryScenarios.SingleSiloRegisterThenLookup | src/Orleans.Runtime/GrainDirectory/LocalGrainDirectory.cs:421-429 | a lone running silo registers and then finds the activation with its tag, without forwarding |
| DirectoryScenarios.ForwardedRegisterThenCachedLookup | src/Orleans.Runtime/GrainDirectory/LocalGrainDirectory.cs:436-446 | a forwarded registration the owner accepts is cached, and the next local lookup is a hit with tag 0 |
| DirectoryScenarios.TwoOwnerBatchSplits | src/Orleans.Runtime/GrainDirectory/LocalGrainDirectory.cs:515-526 | a batch spanning two other owners sends each exactly its own activation and unregisters nothing here |
| DirectoryScenarios.TwoOwnerBatchAcknowledged | src/Orleans.Runtime/GrainDirectory/LocalGrainDirectory.cs:569-580 | for that batch, no check fails, and waiting for every destination means waiting for exactly the two owners' replies to their own activation |
| DirectoryScenarios.RemovedSiloNeverReturned | src/Orleans.Runtime/GrainDirectory/LocalGrainDirectory.cs:152-183 | after a completed removal, no local lookup answers with an activation on the removed silo |

## Left out

- Metrics and logging (`DirectoryInstruments`, the log methods): they have no effect on directory state.
- Asynchrony, the write lock and `Task.WhenAll`: each handler and each membership change runs as one atomic step. The retry delay is a second ownership check on unchanged membership, so a membership change during the delay is not modelled.
- The transport (`GetDirectoryReference`): a remote call is a function of its arguments.
- The unregistration cause is dropped: it is only passed through to the partition.
- `LocalGrainDirectoryPartition` and the directory cache are not part of this model. Their duplicate-resolution, tag generation and eviction policy are assumed as the contracts in `stores.dfy`. `NO_ETAG` is taken as -1.
- `Catalog.OnSiloStatusChange` and `HandoffManager.ProcessSiloAddEvent` are recorded as notification lists. The catalog's exception is swallowed in the source; the model's notification cannot fail.
- Subscribing to the status oracle in `Start` and the queuing of status-change work items: the notification handler performs the change directly.
- `UnregisterAfterNonexistingActivation`, `GetPrimaryForGrain`, `IsSiloInCluster`, `AddOrUpdateCacheEntry`, `TryCachedLookup`, `Participate` and the `RegisterAsync` overload without a previous address: these are thin wrappers or one-line delegations.
- `InvalidateCacheEntry` and `GetLocalDirectoryData` are modelled inline as `Stores.CacheRemoveAddress`, `Stores.CacheRemove` and `Stores.LookUpActivation`.
- Error messages: errors are values, not text. The hop-limit error carries the silo, the grain and the owner its message names, plus the hop count, which the message does not name. The unstable-target error carries the silo, the grain and the target. The configuration error carries the grain.
- The `operationDescription` argument of `CheckIfShouldForward`: it is only interpolated into the hop-limit message, so `ForwardDecision` and `Forwarding` take no operation name and `HopLimitExceeded` does not record one.
- Stores.LookUpActivation: the partition's answer on a miss is not part of this model. It is taken as `default(AddressAndTag)` (no address, tag 0), so `LookupAsync` itself supplies `NO_ETAG` on a miss and `LocalLookup` returns the default value.
- The seed: the source builds it from the configured primary endpoint as `SiloAddress.New(endpoint, 0)`. The constructor takes that address whole, and only whether a seed exists is ever read.
- The hash functions: they are fields of the identities.
- GrainDirectory.LocalGrainDirectory.AdjustLocalCache: when an ownership check fails part-way, the contract says only that the removed entries were among those to be dropped. The source iterates the cache in an order the model does not fix.
- GrainDirectory.LocalGrainDirectory.SiloStatusChangeNotification: states the membership change and the catalog notification, not the partition and cache adjustments. `AddServer` and `RemoveServer` state those.

## Findings

| source | as written | input that shows it | evidently intended | confidence | as-written member | corrected member |
|---|---|---|---|---|---|---|
| src/Orleans.Runtime/GrainDirectory/LocalGrainDirectory.cs:767-772 | the ring size is `int.MaxValue * 2L`, which is 2^32 - 2, so the wrap-around distance `ringSize - (hash1 - hash2)` can be negative | silo hashes `int.MaxValue` to `int.MinValue` give -1 | a ring of 2^32 hash values, so the distance is always in [0, 2^32) | not executed | Membership.CalcRingDistance, Membership.CalcRingDistanceNegative, Membership.RingDistanceToSuccessor, Membership.RingDistanceToSuccessorNegative | Membership.RingDistance, Membership.RingDistanceRoundTrip, Membership.CorrectedRingDistanceToSuccessor, Membership.RingDistanceToSuccessorShortOnWrap |

`Membership.RingDistanceToSuccessor` follows the source and reports the as-written value, which only the metrics read.
