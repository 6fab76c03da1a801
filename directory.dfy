/** The local grain directory of one silo: its membership snapshot, its partition of the
    directory and its cache, the request handlers that either serve a request locally or
    forward it to the silo that owns the grain, and the adjustments made when membership
    changes. */
module GrainDirectory {
  import opened DirectoryTypes
  import opened Stores
  import opened Membership
  import opened Ownership
  import opened Batching

  /** The directory on another silo, reached through the transport. Each call is answered by
      the owner's own handler; the reply (or the error it raises) is a function of the call. */
  datatype RemoteDirectory = RemoteDirectory(
    register: (SiloAddress, GrainAddress, Option<GrainAddress>, nat) -> Result<AddressAndTag>,
    unregister: (SiloAddress, GrainAddress, nat) -> Outcome,
    unregisterMany: (SiloAddress, seq<GrainAddress>, nat) -> Outcome,
    lookup: (SiloAddress, GrainId, nat) -> Result<AddressAndTag>,
    deleteGrain: (SiloAddress, GrainId, nat) -> Outcome)

  // ---------------------------------------------------------------------------
  // Membership-change adjustment, as specifications

  /** A partition entry is dropped when its silo is the changed silo and that silo is dead,
      or when its silo is a predecessor of the changed silo. */
  predicate DirectoryEvicts(isPredecessorOf: (SiloAddress, SiloAddress) -> bool, a: GrainAddress, silo: SiloAddress, dead: bool)
    // A departed silo's own activations always go; a joining silo evicts only its predecessors'.
    ensures dead && a.siloAddress == silo ==> DirectoryEvicts(isPredecessorOf, a, silo, dead)
    ensures !dead ==> (DirectoryEvicts(isPredecessorOf, a, silo, dead) <==> isPredecessorOf(a.siloAddress, silo))
    ensures a.siloAddress != silo ==> (DirectoryEvicts(isPredecessorOf, a, silo, dead) <==> isPredecessorOf(a.siloAddress, silo))
  {
    (dead && a.siloAddress == silo) || isPredecessorOf(a.siloAddress, silo)
  }

  /** The partition after `AdjustLocalDirectory`. */
  function DirectoryAfterAdjust(p: Partition, isPredecessorOf: (SiloAddress, SiloAddress) -> bool, silo: SiloAddress, dead: bool): (r: Partition)
    ensures forall g :: g in r <==> g in p && !DirectoryEvicts(isPredecessorOf, p[g].activation, silo, dead)
    ensures forall g :: g in r ==> r[g] == p[g]
  {
    map g | g in p && !DirectoryEvicts(isPredecessorOf, p[g].activation, silo, dead) :: p[g]
  }

  /** Repeating the adjustment for the same change removes nothing more, which makes the
      handling of a repeated membership event harmless. */
  lemma DirectoryAdjustIdempotent(p: Partition, isPredecessorOf: (SiloAddress, SiloAddress) -> bool, silo: SiloAddress, dead: bool)
    ensures var once := DirectoryAfterAdjust(p, isPredecessorOf, silo, dead);
            DirectoryAfterAdjust(once, isPredecessorOf, silo, dead) == once
  {
  }

  /** Adjusting for a silo's removal after adjusting for its addition removes exactly what the
      removal alone would remove. */
  lemma DirectoryAdjustAddThenRemove(p: Partition, isPredecessorOf: (SiloAddress, SiloAddress) -> bool, silo: SiloAddress)
    ensures DirectoryAfterAdjust(DirectoryAfterAdjust(p, isPredecessorOf, silo, false), isPredecessorOf, silo, true)
            == DirectoryAfterAdjust(p, isPredecessorOf, silo, true)
  {
  }

  /** A cache entry is dropped when the grain now belongs to the local silo, when its silo is a
      predecessor of the changed silo, or when its silo is the changed silo and that is dead. */
  predicate CacheEvicts(v: OwnerView, isPredecessorOf: (SiloAddress, SiloAddress) -> bool, g: GrainId, e: CacheEntry, silo: SiloAddress, dead: bool)
    // A grain the local silo now owns is always dropped; otherwise the cache follows the
    // partition's rule for the entry's address.
    ensures PartitionOwner(v, g) == Ok(Some(v.me)) ==> CacheEvicts(v, isPredecessorOf, g, e, silo, dead)
    ensures PartitionOwner(v, g) != Ok(Some(v.me)) ==>
              (CacheEvicts(v, isPredecessorOf, g, e, silo, dead) <==> DirectoryEvicts(isPredecessorOf, e.address, silo, dead))
  {
    PartitionOwner(v, g) == Ok(Some(v.me)) || isPredecessorOf(e.address.siloAddress, silo) || (dead && e.address.siloAddress == silo)
  }

  /** The cache after the full `AdjustLocalCache` scan. */
  function CacheAfterAdjust(c: Cache, v: OwnerView, isPredecessorOf: (SiloAddress, SiloAddress) -> bool, silo: SiloAddress, dead: bool): (r: Cache)
    ensures forall g :: g in r <==> g in c && !CacheEvicts(v, isPredecessorOf, g, c[g], silo, dead)
    ensures forall g :: g in r ==> r[g] == c[g]
  {
    map g | g in c && !CacheEvicts(v, isPredecessorOf, g, c[g], silo, dead) :: c[g]
  }

  /** Repeating a completed cache adjustment under the same membership removes nothing more. */
  lemma CacheAdjustIdempotent(c: Cache, v: OwnerView, isPredecessorOf: (SiloAddress, SiloAddress) -> bool, silo: SiloAddress, dead: bool)
    ensures var once := CacheAfterAdjust(c, v, isPredecessorOf, silo, dead);
            CacheAfterAdjust(once, v, isPredecessorOf, silo, dead) == once
  {
  }

  /** Entries for grains whose owner is some other silo survive the adjustment unless they
      record the changed silo (when dead) or one of its predecessors. */
  lemma CacheKeepsUnaffected(c: Cache, v: OwnerView, isPredecessorOf: (SiloAddress, SiloAddress) -> bool, silo: SiloAddress, dead: bool, g: GrainId)
    requires g in c && PartitionOwner(v, g) != Ok(Some(v.me))
    requires !isPredecessorOf(c[g].address.siloAddress, silo) && !(dead && c[g].address.siloAddress == silo)
    ensures g in CacheAfterAdjust(c, v, isPredecessorOf, silo, dead)
    ensures CacheAfterAdjust(c, v, isPredecessorOf, silo, dead)[g] == c[g]
  {
  }

  /** What `AdjustLocalCache` promises: it fails exactly when the owner of some cached grain
      cannot be computed, and then only after dropping some of the entries it would drop;
      otherwise the cache is exactly `CacheAfterAdjust`. */
  ghost predicate CacheAdjusted(v: OwnerView, isPredecessorOf: (SiloAddress, SiloAddress) -> bool, before: Cache, after: Cache, silo: SiloAddress, dead: bool, outcome: Outcome) {
    (outcome.Pass? <==> forall g :: g in before ==> PartitionOwner(v, g).Ok?) &&
    (outcome.Pass? ==> after == CacheAfterAdjust(before, v, isPredecessorOf, silo, dead)) &&
    (outcome.Fail? ==>
      (exists g :: g in before && PartitionOwner(v, g) == Err(outcome.error)) &&
      (forall g :: g in after ==> g in before && after[g] == before[g]) &&
      (forall g :: g in before && g !in after ==> CacheEvicts(v, isPredecessorOf, g, before[g], silo, dead)))
  }

  /** With a seed configured, or with no development membership table cached, the cache
      adjustment cannot fail. */
  lemma CacheAdjustFailsOnlyWithoutSeed(v: OwnerView, isPredecessorOf: (SiloAddress, SiloAddress) -> bool, before: Cache, after: Cache, silo: SiloAddress, dead: bool, outcome: Outcome)
    requires CacheAdjusted(v, isPredecessorOf, before, after, silo, dead, outcome)
    requires outcome.Fail?
    ensures v.seed.None?
    ensures exists g :: g in before && g.grainType == MembershipTableType
  {
    var g :| g in before && PartitionOwner(v, g) == Err(outcome.error);
  }

  // ---------------------------------------------------------------------------
  // Batched forwarding

  /** Sends every destination its batch and waits for all of them: the call succeeds only if
      every destination acknowledges, and otherwise raises one of the destinations' errors. */
  method ForwardBatches(forward: ForwardList, hopCount: nat, remote: RemoteDirectory) returns (r: Outcome)
    ensures r.Pass? <==> forall t :: t in forward ==> remote.unregisterMany(t, forward[t], hopCount + 1).Pass?
    ensures r.Fail? ==> exists t :: t in forward && remote.unregisterMany(t, forward[t], hopCount + 1) == r
  {
    r := Pass;
    var pending := forward.Keys;
    while pending != {}
      invariant pending <= forward.Keys
      invariant r.Pass? <==> forall t :: t in forward && t !in pending ==> remote.unregisterMany(t, forward[t], hopCount + 1).Pass?
      invariant r.Fail? ==> exists t :: t in forward && remote.unregisterMany(t, forward[t], hopCount + 1) == r
      decreases pending
    {
      var t :| t in pending;
      var reply := remote.unregisterMany(t, forward[t], hopCount + 1);
      if reply.Fail? && r.Pass? {
        r := reply;
      }
      pending := pending - {t};
    }
  }

  // ---------------------------------------------------------------------------
  // The directory

  class LocalGrainDirectory {
    const myAddress: SiloAddress
    /** The primary silo of development clustering, if one is configured. */
    const seed: Option<SiloAddress>
    /** `SiloAddress.IsPredecessorOf`, supplied by the runtime. */
    const isPredecessorOf: (SiloAddress, SiloAddress) -> bool

    var running: bool
    var membership: DirectoryMembership
    var partition: Partition
    var cache: Cache
    /** Status changes reported to the catalog, in order, each with the membership snapshot
        current when the catalog was called. */
    var catalogNotifications: seq<(SiloAddress, SiloStatus, DirectoryMembership)>
    /** Silos announced to the handoff manager, in order. */
    var handoffNotifications: seq<SiloAddress>

    ghost predicate Valid()
      reads this
    {
      membership.Valid() && PartitionKeyed(partition) && CacheKeyed(cache)
    }

    /** What ownership resolution depends on. */
    function View(): (v: OwnerView)
      reads this`membership, this`running
      ensures v.ring == membership.ring && v.me == myAddress && v.running == running && v.seed == seed
    {
      OwnerView(membership.ring, myAddress, running, seed)
    }

    /** A new directory knows only its own silo, is not yet running and holds nothing. The
        seed is the local silo itself when the configured primary endpoint is its own. */
    constructor (myAddress: SiloAddress, primarySilo: Option<SiloAddress>, isPredecessorOf: (SiloAddress, SiloAddress) -> bool)
      ensures Valid()
      ensures this.myAddress == myAddress && this.isPredecessorOf == isPredecessorOf
      ensures seed == if primarySilo.Some? && primarySilo.value.endpoint == myAddress.endpoint then Some(myAddress) else primarySilo
      ensures !running && membership.ring == [myAddress] && membership.members == {myAddress}
      ensures partition == map[] && cache == map[]
      ensures catalogNotifications == [] && handoffNotifications == [myAddress]
    {
      this.myAddress := myAddress;
      this.seed := if primarySilo.Some? && primarySilo.value.endpoint == myAddress.endpoint then Some(myAddress) else primarySilo;
      this.isPredecessorOf := isPredecessorOf;
      running := false;
      membership := Default();
      partition := map[];
      cache := map[];
      catalogNotifications := [];
      handoffNotifications := [];
      new;
      var added := AddServer(myAddress);
      assert membership.ring[0] == myAddress;
    }

    method Start()
      modifies this`running
      ensures running
    {
      running := true;
    }

    /** Stops serving: the local silo no longer owns any ordinary grain, and both stores are
        emptied. */
    method StopAsync()
      requires Valid()
      modifies this`running, this`partition, this`cache
      ensures Valid()
      ensures !running && partition == map[] && cache == map[]
      ensures forall g: GrainId :: !g.IsSystemTarget() ==> PartitionOwner(View(), g) != Ok(Some(myAddress))
    {
      running := false;
      partition := map[];
      cache := map[];
      forall g: GrainId | !g.IsSystemTarget() ensures PartitionOwner(View(), g) != Ok(Some(myAddress)) {
        StoppingSiloNeverOwns(View(), g);
      }
    }

    // -------------------------------------------------------------------------
    // Ownership

    /** The owner of the grain's directory entry, by a downward scan of the ring. */
    method CalculateGrainDirectoryPartition(g: GrainId) returns (r: Result<Option<SiloAddress>>)
      ensures r == PartitionOwner(View(), g)
    {
      if g.IsSystemTarget() {
        if g.grainType == MembershipTableType && seed.None? {
          return Err(ConfigurationError(g));
        }
        return Ok(Some(myAddress));
      }
      var hash := ToInt32(g.uniformHash);
      var excludeMySelf := !running;
      var ring := membership.ring;
      if |ring| == 0 {
        return Ok(if !running then None else Some(myAddress));
      }
      var index := |ring|;
      while index > 0
        invariant 0 <= index <= |ring|
        invariant forall j :: index <= j < |ring| ==> !IsSiloNextInTheRing(ring[j], hash, excludeMySelf, myAddress)
      {
        index := index - 1;
        if IsSiloNextInTheRing(ring[index], hash, excludeMySelf, myAddress) {
          return Ok(Some(ring[index]));
        }
      }
      var last := ring[|ring| - 1];
      if last == myAddress && excludeMySelf {
        return Ok(if |ring| > 1 then Some(ring[|ring| - 2]) else None);
      }
      return Ok(Some(last));
    }

    /** No target when the request is to be served here; the owner to forward to otherwise;
        an error once the hop limit is reached. */
    method CheckIfShouldForward(g: GrainId, hopCount: nat) returns (r: Result<Option<SiloAddress>>)
      ensures r == ForwardDecision(View(), g, hopCount)
    {
      var owner := CalculateGrainDirectoryPartition(g);
      if owner.Err? {
        return Err(owner.error);
      }
      if owner.value.None? || owner.value.value == myAddress {
        return Ok(None);
      }
      if hopCount >= HOP_LIMIT {
        return Err(HopLimitExceeded(myAddress, g, owner.value.value, hopCount));
      }
      return owner;
    }

    /** The forwarding decision a handler acts on: one check, and on a forwarded hop (after the
        retry delay) a second one, which wins. */
    method ForwardTarget(g: GrainId, hopCount: nat) returns (r: Result<Option<SiloAddress>>)
      ensures r == ForwardDecision(View(), g, hopCount)
    {
      r := CheckIfShouldForward(g, hopCount);
      if hopCount > 0 && r.Ok? && r.value.Some? {
        r := CheckIfShouldForward(g, hopCount);
      }
    }

    // -------------------------------------------------------------------------
    // Request handlers

    /** Registers a single activation. Served here, the partition decides the winner and the
        result is cached; forwarded, the owner's answer is cached only when it is the address
        submitted and that address's silo is functional. */
    method RegisterAsync(address: GrainAddress, previous: Option<GrainAddress>, hopCount: nat,
                         functional: set<SiloAddress>, remote: RemoteDirectory, freshTag: int)
      returns (r: Result<AddressAndTag>)
      requires Valid()
      modifies this`partition, this`cache
      ensures Valid()
      ensures var d := ForwardDecision(View(), address.grainId, hopCount);
              && (d.Err? ==> r == Err(d.error) && partition == old(partition) && cache == old(cache))
              && (d == Ok(None) ==>
                    var (p, info) := AddSingleActivation(old(partition), address, previous, freshTag);
                    partition == p && cache == CacheAddOrUpdate(old(cache), info.activation, info.versionTag) &&
                    r == Ok(AddressAndTag(Some(info.activation), info.versionTag)))
              && (d.Ok? && d.value.Some? ==>
                    partition == old(partition) &&
                    r == remote.register(d.value.value, address, previous, hopCount + 1) &&
                    cache == (if r.Ok? && r.value.address == Some(address) && address.siloAddress in functional
                              then CacheAddOrUpdate(old(cache), address, r.value.versionTag)
                              else old(cache)))
      // Served here, the answer is the registration the partition now holds, and it is cached.
      ensures ForwardDecision(View(), address.grainId, hopCount) == Ok(None) ==>
                r.Ok? && r.value.address.Some? && address.grainId in partition &&
                r.value.address.value == partition[address.grainId].activation &&
                r.value.versionTag == partition[address.grainId].versionTag &&
                cache[address.grainId] == CacheEntry(r.value.address.value, r.value.versionTag)
    {
      var target := ForwardTarget(address.grainId, hopCount);
      if target.Err? {
        return Err(target.error);
      }
      if target.value.None? {
        var (p, info) := AddSingleActivation(partition, address, previous, freshTag);
        partition := p;
        cache := CacheAddOrUpdate(cache, info.activation, info.versionTag);
        r := Ok(AddressAndTag(Some(info.activation), info.versionTag));
      } else {
        r := remote.register(target.value.value, address, previous, hopCount + 1);
        if r.Ok? && r.value.address == Some(address) && address.siloAddress in functional {
          cache := CacheAddOrUpdate(cache, address, r.value.versionTag);
        }
      }
    }

    /** Unregisters one activation. A request that starts here first drops the cache entry
        recording that activation; served here, the partition forgets the activation if it
        still records it. */
    method UnregisterAsync(address: GrainAddress, hopCount: nat, remote: RemoteDirectory) returns (r: Outcome)
      requires Valid()
      modifies this`partition, this`cache
      ensures Valid()
      ensures cache == if hopCount == 0 then CacheRemoveAddress(old(cache), address) else old(cache)
      ensures var d := ForwardDecision(View(), address.grainId, hopCount);
              && (d.Err? ==> r == Fail(d.error) && partition == old(partition))
              && (d == Ok(None) ==> r == Pass && partition == RemoveActivation(old(partition), address.grainId, address.activationId))
              && (d.Ok? && d.value.Some? ==> r == remote.unregister(d.value.value, address, hopCount + 1) && partition == old(partition))
      // Served here, the activation is no longer registered.
      ensures ForwardDecision(View(), address.grainId, hopCount) == Ok(None) ==>
                !(address.grainId in partition && partition[address.grainId].activation.activationId == address.activationId)
    {
      if hopCount == 0 {
        cache := CacheRemoveAddress(cache, address);
      }
      var target := ForwardTarget(address.grainId, hopCount);
      if target.Err? {
        return Fail(target.error);
      }
      if target.value.None? {
        partition := RemoveActivation(partition, address.grainId, address.activationId);
        r := Pass;
      } else {
        r := remote.unregister(target.value.value, address, hopCount + 1);
      }
    }

    /** One pass over a batch: unregisters here what this silo owns and lists the rest by owner,
        stopping at the first failed ownership check. */
    method UnregisterOrPutInForwardList(addrs: seq<GrainAddress>, hopCount: nat) returns (forward: Result<ForwardList>)
      requires Valid()
      modifies this`partition
      ensures Valid()
      ensures (partition, forward) == Sweep(View(), old(partition), map[], addrs, hopCount)
    {
      var lists: ForwardList := map[];
      var i := 0;
      while i < |addrs|
        invariant 0 <= i <= |addrs|
        invariant PartitionKeyed(partition)
        invariant Sweep(View(), old(partition), map[], addrs, hopCount) == Sweep(View(), partition, lists, addrs[i..], hopCount)
      {
        var a := addrs[i];
        assert addrs[i..][0] == a && addrs[i..][1..] == addrs[i + 1..];
        var target := CheckIfShouldForward(a.grainId, hopCount);
        if target.Err? {
          return Err(target.error);
        }
        if target.value.Some? {
          lists := AppendTo(lists, target.value.value, a);
        } else {
          partition := RemoveActivation(partition, a.grainId, a.activationId);
        }
        i := i + 1;
      }
      assert addrs[i..] == [];
      forward := Ok(lists);
    }

    /** Unregisters a batch: the activations this silo owns are unregistered here and the rest
        go, one batch per owner, to their owners; the call succeeds only when every owner
        acknowledges. */
    method UnregisterManyAsync(addrs: seq<GrainAddress>, hopCount: nat, remote: RemoteDirectory) returns (r: Outcome)
      requires Valid()
      modifies this`partition
      ensures Valid()
      ensures partition == Cleared(old(partition), Locals(View(), addrs, hopCount))
      ensures FirstFailure(View(), addrs, hopCount).Some? ==> r == Fail(FirstFailure(View(), addrs, hopCount).value)
      ensures FirstFailure(View(), addrs, hopCount).None? ==>
                (r.Pass? <==> forall t :: RoutedTo(View(), addrs, hopCount, t) != [] ==>
                                remote.unregisterMany(t, RoutedTo(View(), addrs, hopCount, t), hopCount + 1).Pass?)
      ensures r.Fail? && FirstFailure(View(), addrs, hopCount).None? ==>
                exists t :: RoutedTo(View(), addrs, hopCount, t) != [] &&
                            remote.unregisterMany(t, RoutedTo(View(), addrs, hopCount, t), hopCount + 1) == r
    {
      ghost var p0 := partition;
      var first := UnregisterOrPutInForwardList(addrs, hopCount);
      SweepClears(View(), p0, map[], addrs, hopCount);
      SweepFails(View(), p0, map[], addrs, hopCount);
      if first.Err? {
        return Fail(first.error);
      }
      var lists := first.value;
      if hopCount > 0 && lists != map[] {
        SweepTwice(View(), p0, addrs, hopCount);
        var second := UnregisterOrPutInForwardList(addrs, hopCount);
        lists := second.value;
      }
      forall t ensures (t in lists <==> RoutedTo(View(), addrs, hopCount, t) != []) &&
                       (t in lists ==> lists[t] == RoutedTo(View(), addrs, hopCount, t)) {
        SweepGroups(View(), p0, map[], addrs, hopCount, t);
      }
      r := ForwardBatches(lists, hopCount, remote);
      if r.Pass? {
        forall t | RoutedTo(View(), addrs, hopCount, t) != []
          ensures remote.unregisterMany(t, RoutedTo(View(), addrs, hopCount, t), hopCount + 1).Pass?
        {
          assert t in lists;
        }
      } else {
        var t :| t in lists && remote.unregisterMany(t, lists[t], hopCount + 1) == r;
        assert RoutedTo(View(), addrs, hopCount, t) != [];
      }
    }

    /** Looks a grain up. Served here, the partition answers (no address and NO_ETAG when it
        holds nothing); forwarded, the target must be functional, and an answer whose silo is
        functional is cached. */
    method LookupAsync(g: GrainId, hopCount: nat, functional: set<SiloAddress>, remote: RemoteDirectory)
      returns (r: Result<AddressAndTag>)
      requires Valid()
      modifies this`cache
      ensures Valid()
      ensures var d := ForwardDecision(View(), g, hopCount);
              && (d.Err? ==> r == Err(d.error) && cache == old(cache))
              && (d == Ok(None) ==>
                    r == Ok(if g in partition then LookUpActivation(partition, g) else AddressAndTag(None, NO_ETAG)) &&
                    cache == old(cache))
              && (d.Ok? && d.value.Some? && d.value.value !in functional ==>
                    r == Err(UnstableTarget(myAddress, g, d.value.value)) && cache == old(cache))
              && (d.Ok? && d.value.Some? && d.value.value in functional ==>
                    r == remote.lookup(d.value.value, g, hopCount + 1) &&
                    cache == (if r.Ok? && r.value.address.Some? && r.value.address.value.siloAddress in functional
                              then CacheAddOrUpdate(old(cache), r.value.address.value, r.value.versionTag)
                              else old(cache)))
      // Served here, a miss is not an error: it carries NO_ETAG.
      ensures ForwardDecision(View(), g, hopCount) == Ok(None) ==>
                r.Ok? && (r.value.address.None? <==> g !in partition) &&
                (g !in partition ==> r.value.versionTag == NO_ETAG)
    {
      var target := ForwardTarget(g, hopCount);
      if target.Err? {
        return Err(target.error);
      }
      if target.value.None? {
        var local := LookUpActivation(partition, g);
        if local.address.None? {
          return Ok(AddressAndTag(None, NO_ETAG));
        }
        return Ok(local);
      }
      var owner := target.value.value;
      if owner !in functional {
        return Err(UnstableTarget(myAddress, g, owner));
      }
      r := remote.lookup(owner, g, hopCount + 1);
      if r.Ok? && r.value.address.Some? && r.value.address.value.siloAddress in functional {
        cache := CacheAddOrUpdate(cache, r.value.address.value, r.value.versionTag);
      }
    }

    /** Deletes a grain's entry. Served here, the partition drops it whatever activation it
        records; forwarded, this silo first drops its own cache entry for the grain. */
    method DeleteGrainAsync(g: GrainId, hopCount: nat, remote: RemoteDirectory) returns (r: Outcome)
      requires Valid()
      modifies this`partition, this`cache
      ensures Valid()
      ensures var d := ForwardDecision(View(), g, hopCount);
              && (d.Err? ==> r == Fail(d.error) && partition == old(partition) && cache == old(cache))
              && (d == Ok(None) ==> r == Pass && partition == RemoveGrain(old(partition), g) && cache == old(cache))
              && (d.Ok? && d.value.Some? ==>
                    r == remote.deleteGrain(d.value.value, g, hopCount + 1) &&
                    partition == old(partition) && cache == CacheRemove(old(cache), g))
    {
      var target := ForwardTarget(g, hopCount);
      if target.Err? {
        return Fail(target.error);
      }
      if target.value.None? {
        partition := RemoveGrain(partition, g);
        r := Pass;
      } else {
        cache := CacheRemove(cache, g);
        r := remote.deleteGrain(target.value.value, g, hopCount + 1);
      }
    }

    /** The cached address of the grain, provided its silo is functional. */
    function GetLocalCacheData(g: GrainId, functional: set<SiloAddress>): (r: Option<GrainAddress>)
      reads this`cache
      ensures r.Some? <==> g in cache && cache[g].address.siloAddress in functional
      ensures r.Some? ==> r.value == cache[g].address && r.value.siloAddress in functional
    {
      if g in cache && cache[g].address.siloAddress in functional then Some(cache[g].address) else None
    }

    /** The lookup that never leaves the silo: a functional cache hit (with tag 0) when the
        grain has an owner at all, else the partition when this silo owns the grain. */
    method LocalLookup(g: GrainId, functional: set<SiloAddress>) returns (r: Result<(bool, AddressAndTag)>)
      ensures var owner := PartitionOwner(View(), g);
              && (owner.Err? ==> r == Err(owner.error))
              && (owner == Ok(None) ==> r == Ok((false, NoAddress)))
              && (owner.Ok? && owner.value.Some? && GetLocalCacheData(g, functional).Some? ==>
                    r == Ok((true, AddressAndTag(GetLocalCacheData(g, functional), 0))))
              && (owner == Ok(Some(myAddress)) && GetLocalCacheData(g, functional).None? ==>
                    r == Ok((g in partition, LookUpActivation(partition, g))))
              && (owner.Ok? && owner.value.Some? && owner.value.value != myAddress && GetLocalCacheData(g, functional).None? ==>
                    r == Ok((false, NoAddress)))
      // A hit is either a functional cached address (tag 0) or this silo's own registration.
      ensures r.Ok? && r.value.0 ==>
                r.value.1.address.Some? &&
                ((g in cache && r.value.1.address.value == cache[g].address &&
                  r.value.1.address.value.siloAddress in functional && r.value.1.versionTag == 0) ||
                 (PartitionOwner(View(), g) == Ok(Some(myAddress)) && g in partition &&
                  r.value.1.address.value == partition[g].activation && r.value.1.versionTag == partition[g].versionTag))
    {
      var silo := CalculateGrainDirectoryPartition(g);
      if silo.Err? {
        return Err(silo.error);
      }
      if silo.value.None? {
        return Ok((false, NoAddress));
      }
      var address := GetLocalCacheData(g, functional);
      if address.Some? {
        return Ok((true, AddressAndTag(address, 0)));
      }
      if silo.value.value == myAddress {
        var result := LookUpActivation(partition, g);
        if result.address.None? {
          return Ok((false, result));
        }
        return Ok((true, result));
      }
      return Ok((false, NoAddress));
    }

    // -------------------------------------------------------------------------
    // Membership changes

    /** Drops the partition entries the changed silo makes stale: first collects them, then
        removes each one still recording the collected activation. */
    method AdjustLocalDirectory(silo: SiloAddress, dead: bool)
      requires PartitionKeyed(partition)
      modifies this`partition
      ensures partition == DirectoryAfterAdjust(old(partition), isPredecessorOf, silo, dead)
      ensures PartitionKeyed(partition)
    {
      ghost var p0 := partition;
      ghost var evicted: set<GrainId> := {};
      var toRemove: seq<(GrainId, nat)> := [];
      var pending := partition.Keys;
      while pending != {}
        invariant pending <= p0.Keys && partition == p0
        invariant forall g :: g in evicted <==> g in p0 && g !in pending && DirectoryEvicts(isPredecessorOf, p0[g].activation, silo, dead)
        invariant forall e :: e in toRemove ==> e.0 in evicted && p0[e.0].activation.activationId == e.1
        invariant forall g :: g in evicted ==> (g, p0[g].activation.activationId) in toRemove
        decreases pending
      {
        var g :| g in pending;
        var address := partition[g].activation;
        if (dead && address.siloAddress == silo) || isPredecessorOf(address.siloAddress, silo) {
          toRemove := toRemove + [(g, address.activationId)];
          evicted := evicted + {g};
        }
        pending := pending - {g};
      }
      var i := 0;
      while i < |toRemove|
        invariant 0 <= i <= |toRemove|
        invariant forall g :: g in partition ==> g in p0 && partition[g] == p0[g]
        invariant forall g :: g in p0 && g !in partition ==> g in evicted
        invariant forall j :: 0 <= j < i ==> toRemove[j].0 !in partition
      {
        partition := RemoveActivation(partition, toRemove[i].0, toRemove[i].1);
        i := i + 1;
      }
      forall g | g in evicted ensures g !in partition {
        var j :| 0 <= j < |toRemove| && toRemove[j] == (g, p0[g].activation.activationId);
      }
    }

    /** Scans a snapshot of the cache and drops the entries the changed silo makes stale; the
        scan stops, with the error, at an entry whose owner cannot be computed. */
    method AdjustLocalCache(silo: SiloAddress, dead: bool) returns (r: Outcome)
      requires CacheKeyed(cache)
      modifies this`cache
      ensures CacheAdjusted(View(), isPredecessorOf, old(cache), cache, silo, dead, r)
      ensures CacheKeyed(cache)
    {
      ghost var c0 := cache;
      var pending := cache.Keys;
      while pending != {}
        invariant pending <= c0.Keys
        invariant forall g :: g in cache ==> g in c0 && cache[g] == c0[g]
        invariant forall g :: g in c0 ==> (g in cache <==> g in pending || !CacheEvicts(View(), isPredecessorOf, g, c0[g], silo, dead))
        invariant forall g :: g in c0 && g !in pending ==> PartitionOwner(View(), g).Ok?
        decreases pending
      {
        var g :| g in pending;
        var entry := cache[g];
        var owner := CalculateGrainDirectoryPartition(entry.address.grainId);
        if owner.Err? {
          return Fail(owner.error);
        }
        if owner.value == Some(myAddress) {
          cache := CacheRemove(cache, g);
        } else if isPredecessorOf(entry.address.siloAddress, silo) || (dead && entry.address.siloAddress == silo) {
          cache := CacheRemove(cache, g);
        }
        pending := pending - {g};
      }
      r := Pass;
    }

    /** Adds a silo to the ring (nothing happens if it is already there), announces it to the
        handoff manager and drops the entries the newcomer makes stale. */
    method AddServer(silo: SiloAddress) returns (r: Outcome)
      requires Valid()
      modifies this`membership, this`partition, this`cache, this`handoffNotifications
      ensures Valid()
      ensures silo in membership.members
      ensures silo in old(membership.members) ==>
                r == Pass && membership == old(membership) && partition == old(partition) &&
                cache == old(cache) && handoffNotifications == old(handoffNotifications)
      ensures silo !in old(membership.members) ==>
                membership == WithSilo(old(membership), silo) &&
                handoffNotifications == old(handoffNotifications) + [silo] &&
                partition == DirectoryAfterAdjust(old(partition), isPredecessorOf, silo, false) &&
                CacheAdjusted(View(), isPredecessorOf, old(cache), cache, silo, false, r)
    {
      if silo in membership.members {
        return Pass;
      }
      membership := WithSilo(membership, silo);
      handoffNotifications := handoffNotifications + [silo];
      AdjustLocalDirectory(silo, false);
      r := AdjustLocalCache(silo, false);
    }

    /** Reports the change to the catalog, then takes the silo out of the ring (nothing more
        happens if it is not there) and drops every entry recording it or a predecessor. */
    method RemoveServer(silo: SiloAddress, status: SiloStatus) returns (r: Outcome)
      requires Valid()
      modifies this`membership, this`partition, this`cache, this`catalogNotifications
      ensures Valid()
      ensures silo !in membership.members
      // The catalog is called before the ring changes, so it still sees the silo as a member.
      ensures catalogNotifications == old(catalogNotifications) + [(silo, status, old(membership))]
      ensures silo in old(membership.members) ==> silo in catalogNotifications[|catalogNotifications| - 1].2.members
      ensures silo !in old(membership.members) ==>
                r == Pass && membership == old(membership) && partition == old(partition) && cache == old(cache)
      ensures silo in old(membership.members) ==>
                membership == WithoutSilo(old(membership), silo) &&
                partition == DirectoryAfterAdjust(old(partition), isPredecessorOf, silo, true) &&
                CacheAdjusted(View(), isPredecessorOf, old(cache), cache, silo, true, r)
      // The removed silo survives in no store.
      ensures silo in old(membership.members) ==> forall g :: g in partition ==> partition[g].activation.siloAddress != silo
      ensures silo in old(membership.members) && r.Pass? ==> forall g :: g in cache ==> cache[g].address.siloAddress != silo
    {
      catalogNotifications := catalogNotifications + [(silo, status, membership)];
      if silo !in membership.members {
        return Pass;
      }
      membership := WithoutSilo(membership, silo);
      AdjustLocalDirectory(silo, true);
      r := AdjustLocalCache(silo, true);
    }

    /** Status changes of other silos: a terminating silo is removed, an active one added;
        every other status, and every change of the local silo, is ignored. */
    method SiloStatusChangeNotification(updated: SiloAddress, status: SiloStatus) returns (r: Outcome)
      requires Valid()
      modifies this`membership, this`partition, this`cache, this`catalogNotifications, this`handoffNotifications
      ensures Valid()
      ensures updated == myAddress || !(status.IsTerminating() || status == Active) ==>
                r == Pass && membership == old(membership) && partition == old(partition) && cache == old(cache) &&
                catalogNotifications == old(catalogNotifications) && handoffNotifications == old(handoffNotifications)
      ensures updated != myAddress && status.IsTerminating() ==>
                updated !in membership.members && membership.members == old(membership.members) - {updated} &&
                catalogNotifications == old(catalogNotifications) + [(updated, status, old(membership))]
      ensures updated != myAddress && status == Active ==>
                membership.members == old(membership.members) + {updated} &&
                catalogNotifications == old(catalogNotifications)
    {
      r := Pass;
      if updated != myAddress {
        if status.IsTerminating() {
          r := RemoveServer(updated, status);
        } else if status == Active {
          r := AddServer(updated);
        }
      }
    }
  }
}
