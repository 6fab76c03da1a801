/** End-to-end runs of the directory: a caller drives one or two directories through a short
    sequence of operations and the outcome is stated as the contract of the run. */
module DirectoryScenarios {
  import opened DirectoryTypes
  import opened Stores
  import opened Membership
  import opened Ownership
  import opened Batching
  import opened GrainDirectory

  /** Three silos at 10, 50 and 90; once the silo at 50 leaves, a grain hashing to 60 wraps
      down to the silo at 10, which is now the greatest hash not above 60. */
  lemma ThreeSiloRingAfterRemoval(a: SiloAddress, b: SiloAddress, c: SiloAddress, me: SiloAddress, key: nat)
    requires a.consistentHash == 10 && b.consistentHash == 50 && c.consistentHash == 90
    ensures var m := DirectoryMembership([a, b, c], {a, b, c});
            m.Valid() && WithoutSilo(m, b).ring == [a, c]
    ensures PartitionOwner(OwnerView([a, c], me, true, None), GrainId(ApplicationType(0), key, 60)) == Ok(Some(a))
  {
    var m := DirectoryMembership([a, b, c], {a, b, c});
    assert Elements([a, b, c]) == {a, b, c} by {
      assert a == [a, b, c][0] && b == [a, b, c][1] && c == [a, b, c][2];
    }
    assert IndexOf([a, b, c], b) == 1;
    assert [a, b, c][..1] + [a, b, c][2..] == [a, c];
    assert ScanDown([a, c], 60, false, me, 1) == Some(0);
  }

  /** A single running silo serves a registration and the lookup that follows it on its own:
      the lookup returns the registered activation with the tag the partition gave it. */
  method SingleSiloRegisterThenLookup(me: SiloAddress, address: GrainAddress, isPredecessorOf: (SiloAddress, SiloAddress) -> bool,
                                      functional: set<SiloAddress>, remote: RemoteDirectory, freshTag: int)
    returns (registered: Result<AddressAndTag>, found: Result<AddressAndTag>)
    requires address.grainId.grainType != MembershipTableType
    ensures registered == Ok(AddressAndTag(Some(address), freshTag))
    ensures found == registered
  {
    var d := new LocalGrainDirectory(me, None, isPredecessorOf);
    d.Start();
    assert d.View() == OwnerView([me], me, true, None);
    assert PartitionOwner(d.View(), address.grainId) == Ok(Some(me));
    registered := d.RegisterAsync(address, None, 0, functional, remote, freshTag);
    found := d.LookupAsync(address.grainId, 0, functional, remote);
  }

  /** A silo that does not own a grain forwards the registration to the owner with one more
      hop; when the owner accepts the address, the forwarding silo caches it, and its next
      local lookup is a cache hit (tag 0) that needs no call to any other silo. */
  method ForwardedRegisterThenCachedLookup(d: LocalGrainDirectory, address: GrainAddress, owner: SiloAddress,
                                           functional: set<SiloAddress>, remote: RemoteDirectory, freshTag: int, tag: int)
    returns (registered: Result<AddressAndTag>, hit: Result<(bool, AddressAndTag)>)
    requires d.Valid()
    requires PartitionOwner(d.View(), address.grainId) == Ok(Some(owner)) && owner != d.myAddress
    requires remote.register(owner, address, None, 1) == Ok(AddressAndTag(Some(address), tag))
    requires address.siloAddress in functional
    modifies d
    ensures registered == Ok(AddressAndTag(Some(address), tag))
    ensures hit == Ok((true, AddressAndTag(Some(address), 0)))
  {
    assert ForwardDecision(d.View(), address.grainId, 0) == Ok(Some(owner));
    registered := d.RegisterAsync(address, None, 0, functional, remote, freshTag);
    assert d.cache[address.grainId] == CacheEntry(address, tag);
    assert d.GetLocalCacheData(address.grainId, functional) == Some(address);
    hit := d.LocalLookup(address.grainId, functional);
  }

  /** A batch of two activations whose grains belong to two different other silos: nothing is
      unregistered here, no check fails, and each owner is sent exactly its own activation. */
  lemma TwoOwnerBatchSplits(v: OwnerView, a1: GrainAddress, a2: GrainAddress, o1: SiloAddress, o2: SiloAddress)
    requires PartitionOwner(v, a1.grainId) == Ok(Some(o1)) && o1 != v.me
    requires PartitionOwner(v, a2.grainId) == Ok(Some(o2)) && o2 != v.me
    requires o1 != o2
    ensures Locals(v, [a1, a2], 0) == [] && FirstFailure(v, [a1, a2], 0).None?
    ensures forall t :: RoutedTo(v, [a1, a2], 0, t) == (if t == o1 then [a1] else []) + (if t == o2 then [a2] else [])
  {
    assert ForwardDecision(v, a1.grainId, 0) == Ok(Some(o1));
    assert ForwardDecision(v, a2.grainId, 0) == Ok(Some(o2));
    assert [a1, a2][0] == a1 && [a1, a2][1..] == [a2] && [a2][0] == a2 && [a2][1..] == [];
    assert Locals(v, [a2], 0) == Locals(v, [], 0);
    forall t ensures RoutedTo(v, [a1, a2], 0, t) == (if t == o1 then [a1] else []) + (if t == o2 then [a2] else []) {
      assert RoutedTo(v, [a2], 0, t) == (if t == o2 then [a2] else []) + RoutedTo(v, [], 0, t);
    }
  }

  /** For that batch, no ownership check fails, and "every destination acknowledged its
      sub-batch" (what `UnregisterManyAsync` waits for) means that both owners acknowledged
      their own activation; a failure is one of the two replies. */
  lemma TwoOwnerBatchAcknowledged(v: OwnerView, a1: GrainAddress, a2: GrainAddress, o1: SiloAddress, o2: SiloAddress, remote: RemoteDirectory)
    requires PartitionOwner(v, a1.grainId) == Ok(Some(o1)) && o1 != v.me
    requires PartitionOwner(v, a2.grainId) == Ok(Some(o2)) && o2 != v.me
    requires o1 != o2
    ensures FirstFailure(v, [a1, a2], 0).None?
    ensures (forall t :: RoutedTo(v, [a1, a2], 0, t) != [] ==> remote.unregisterMany(t, RoutedTo(v, [a1, a2], 0, t), 1).Pass?)
            <==> remote.unregisterMany(o1, [a1], 1).Pass? && remote.unregisterMany(o2, [a2], 1).Pass?
    ensures forall t :: RoutedTo(v, [a1, a2], 0, t) != [] ==>
              remote.unregisterMany(t, RoutedTo(v, [a1, a2], 0, t), 1) == remote.unregisterMany(o1, [a1], 1) ||
              remote.unregisterMany(t, RoutedTo(v, [a1, a2], 0, t), 1) == remote.unregisterMany(o2, [a2], 1)
  {
    TwoOwnerBatchSplits(v, a1, a2, o1, o2);
    assert RoutedTo(v, [a1, a2], 0, o1) == [a1] && RoutedTo(v, [a1, a2], 0, o2) == [a2];
  }

  /** Once a silo has been removed, no local lookup answers with an activation on it. */
  method RemovedSiloNeverReturned(d: LocalGrainDirectory, silo: SiloAddress, status: SiloStatus, g: GrainId,
                                  functional: set<SiloAddress>)
    returns (removal: Outcome, found: Result<(bool, AddressAndTag)>)
    requires d.Valid() && silo in d.membership.members
    modifies d
    ensures removal.Pass? && found.Ok? && found.value.0 ==>
              found.value.1.address.Some? && found.value.1.address.value.siloAddress != silo
  {
    removal := d.RemoveServer(silo, status);
    found := d.LocalLookup(g, functional);
  }
}
