/** The two stores the directory consults, reduced to the contracts the directory relies on:
    the authoritative partition (grain -> its single registered activation and version tag)
    and the non-authoritative cache of addresses learned from other silos. */
module Stores {
  import opened DirectoryTypes

  // ---------------------------------------------------------------------------
  // Partition store

  datatype GrainInfo = GrainInfo(activation: GrainAddress, versionTag: int)

  type Partition = map<GrainId, GrainInfo>

  /** Every entry is filed under its own grain. */
  ghost predicate PartitionKeyed(p: Partition) {
    forall g :: g in p ==> p[g].activation.grainId == g
  }

  /** Single-activation registration: an existing activation wins unless the caller names it
      as the previous address it replaces; otherwise `address` is stored under `freshTag`.
      The result is the registration the store now holds for the grain. */
  function AddSingleActivation(p: Partition, address: GrainAddress, previous: Option<GrainAddress>, freshTag: int)
    : (r: (Partition, GrainInfo))
    ensures address.grainId in r.0 && r.0[address.grainId] == r.1
    ensures r.0.Keys == p.Keys + {address.grainId}
    ensures forall g :: g in p && g != address.grainId ==> r.0[g] == p[g]
    ensures address.grainId !in p ==> r.1 == GrainInfo(address, freshTag)
    ensures address.grainId in p ==>
              if previous.Some? && p[address.grainId].activation.Matches(previous.value)
              then r.1 == GrainInfo(address, freshTag)
              else r.0 == p
    ensures PartitionKeyed(p) ==> PartitionKeyed(r.0)
  {
    var g := address.grainId;
    if g in p && !(previous.Some? && p[g].activation.Matches(previous.value)) then
      (p, p[g])
    else
      var info := GrainInfo(address, freshTag);
      (p[g := info], info)
  }

  /** Removes the grain's entry only when it still records activation `activationId`. */
  function RemoveActivation(p: Partition, g: GrainId, activationId: nat): (r: Partition)
    ensures g in p && p[g].activation.activationId == activationId ==> r.Keys == p.Keys - {g}
    ensures !(g in p && p[g].activation.activationId == activationId) ==> r == p
    ensures forall k :: k in r ==> k in p && r[k] == p[k]
    ensures PartitionKeyed(p) ==> PartitionKeyed(r)
  {
    if g in p && p[g].activation.activationId == activationId then p - {g} else p
  }

  /** `RemoveGrain`: drop the grain's entry whatever activation it records. */
  function RemoveGrain(p: Partition, g: GrainId): (r: Partition)
    ensures g !in r && r.Keys == p.Keys - {g}
    ensures forall k :: k in r ==> r[k] == p[k]
    ensures PartitionKeyed(p) ==> PartitionKeyed(r)
  {
    p - {g}
  }

  /** The stored registration, or `default(AddressAndTag)` on a miss. */
  function LookUpActivation(p: Partition, g: GrainId): (r: AddressAndTag)
    ensures r.address.Some? <==> g in p
    ensures g in p ==> r.address.value == p[g].activation && r.versionTag == p[g].versionTag
    ensures g !in p ==> r == NoAddress
  {
    if g in p then AddressAndTag(Some(p[g].activation), p[g].versionTag) else NoAddress
  }

  /** Two racing registrations of different activations of one new grain: the first one
      stored wins, and the second caller is told about it, with the same tag. */
  lemma RegisterRaceHasOneWinner(p: Partition, first: GrainAddress, second: GrainAddress, tag1: int, tag2: int)
    requires first.grainId == second.grainId && first.grainId !in p
    ensures var (p1, r1) := AddSingleActivation(p, first, None, tag1);
            var (p2, r2) := AddSingleActivation(p1, second, None, tag2);
            r2 == r1 && r1.activation == first && p2 == p1 && p2[first.grainId] == r1
  {
  }

  // ---------------------------------------------------------------------------
  // Directory cache

  datatype CacheEntry = CacheEntry(address: GrainAddress, versionTag: int)

  type Cache = map<GrainId, CacheEntry>

  ghost predicate CacheKeyed(c: Cache) {
    forall g :: g in c ==> c[g].address.grainId == g
  }

  function CacheAddOrUpdate(c: Cache, address: GrainAddress, versionTag: int): (r: Cache)
    ensures r.Keys == c.Keys + {address.grainId}
    ensures r[address.grainId] == CacheEntry(address, versionTag)
    ensures forall g :: g in c && g != address.grainId ==> r[g] == c[g]
    ensures CacheKeyed(c) ==> CacheKeyed(r)
  {
    c[address.grainId := CacheEntry(address, versionTag)]
  }

  /** `Remove(GrainId)`: drop whatever the cache holds for the grain. */
  function CacheRemove(c: Cache, g: GrainId): (r: Cache)
    ensures g !in r && r.Keys == c.Keys - {g}
    ensures forall k :: k in r ==> r[k] == c[k]
  {
    c - {g}
  }

  /** `Remove(GrainAddress)`: drop the grain's entry only when it records that activation. */
  function CacheRemoveAddress(c: Cache, address: GrainAddress): (r: Cache)
    ensures address.grainId in c && c[address.grainId].address.Matches(address) ==> r.Keys == c.Keys - {address.grainId}
    ensures !(address.grainId in c && c[address.grainId].address.Matches(address)) ==> r == c
    ensures forall k :: k in r ==> k in c && r[k] == c[k]
  {
    if address.grainId in c && c[address.grainId].address.Matches(address) then c - {address.grainId} else c
  }
}
