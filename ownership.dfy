/** Which silo owns the directory entry of a grain, and whether a request must be forwarded. */
module Ownership {
  import opened DirectoryTypes
  import opened Membership

  /** What ownership resolution reads from a directory: the ring of the current membership
      snapshot, the local silo, whether the directory is running, and the configured seed. */
  datatype OwnerView = OwnerView(ring: seq<SiloAddress>, me: SiloAddress, running: bool, seed: Option<SiloAddress>)

  /** `IsSiloNextInTheRing`: a candidate owner has a hash not above the grain's, and is not
      the local silo when that one is excluded. */
  function IsSiloNextInTheRing(silo: SiloAddress, hash: int, excludeMySelf: bool, me: SiloAddress): (b: bool)
    ensures b ==> silo.consistentHash <= hash
    ensures excludeMySelf && silo == me ==> !b
    ensures !excludeMySelf ==> (b <==> silo.consistentHash <= hash)
  {
    silo.consistentHash <= hash && (!excludeMySelf || silo != me)
  }

  /** The downward scan over positions `i-1, ..., 0`: the highest position below `i` holding
      a candidate owner, if any. */
  function ScanDown(ring: seq<SiloAddress>, hash: int, excludeMySelf: bool, me: SiloAddress, i: nat)
    : (r: Option<nat>)
    requires i <= |ring|
    ensures r.Some? ==> r.value < i && IsSiloNextInTheRing(ring[r.value], hash, excludeMySelf, me)
    ensures r.Some? ==> forall j :: r.value < j < i ==> !IsSiloNextInTheRing(ring[j], hash, excludeMySelf, me)
    ensures r.None? ==> forall j :: 0 <= j < i ==> !IsSiloNextInTheRing(ring[j], hash, excludeMySelf, me)
    decreases i
  {
    if i == 0 then None
    else if IsSiloNextInTheRing(ring[i - 1], hash, excludeMySelf, me) then Some(i - 1)
    else ScanDown(ring, hash, excludeMySelf, me, i - 1)
  }

  /** `CalculateGrainDirectoryPartition`: system targets belong to the local silo (the
      development membership table needs a seed); an ordinary grain belongs to the highest
      ring position whose hash is not above the grain's signed hash, skipping the local silo
      while the directory is not running; with no such position it wraps to the last silo
      (or the one before it when the last is the excluded local silo). An empty ring gives
      the local silo, or no owner once stopping. */
  function PartitionOwner(v: OwnerView, g: GrainId): (r: Result<Option<SiloAddress>>)
    ensures r.Err? <==> g.IsSystemTarget() && g.grainType == MembershipTableType && v.seed.None?
    ensures r.Err? ==> r.error == ConfigurationError(g)
    ensures g.IsSystemTarget() && r.Ok? ==> r.value == Some(v.me)
    ensures !g.IsSystemTarget() && v.ring == [] ==> r == Ok(if v.running then Some(v.me) else None)
    ensures !g.IsSystemTarget() && v.ring != [] && r.Ok? && r.value.Some? ==> r.value.value in v.ring
    ensures !g.IsSystemTarget() ==>
              var hash, exclude := ToInt32(g.uniformHash), !v.running;
              forall k :: 0 <= k < |v.ring| && IsSiloNextInTheRing(v.ring[k], hash, exclude, v.me) &&
                          (forall j :: k < j < |v.ring| ==> !IsSiloNextInTheRing(v.ring[j], hash, exclude, v.me))
                          ==> r == Ok(Some(v.ring[k]))
    ensures !g.IsSystemTarget() && v.ring != [] ==>
              var hash, exclude, last := ToInt32(g.uniformHash), !v.running, v.ring[|v.ring| - 1];
              (forall k :: 0 <= k < |v.ring| ==> !IsSiloNextInTheRing(v.ring[k], hash, exclude, v.me)) ==>
                r == Ok(if last != v.me || !exclude then Some(last)
                        else if |v.ring| > 1 then Some(v.ring[|v.ring| - 2])
                        else None)
  {
    if g.IsSystemTarget() then
      if g.grainType == MembershipTableType && v.seed.None? then Err(ConfigurationError(g))
      else Ok(Some(v.me))
    else
      var hash := ToInt32(g.uniformHash);
      var excludeMySelf := !v.running;
      if |v.ring| == 0 then
        Ok(if !v.running then None else Some(v.me))
      else
        match ScanDown(v.ring, hash, excludeMySelf, v.me, |v.ring|)
        case Some(i) => Ok(Some(v.ring[i]))
        case None =>
          var last := v.ring[|v.ring| - 1];
          if last == v.me && excludeMySelf then
            Ok(if |v.ring| > 1 then Some(v.ring[|v.ring| - 2]) else None)
          else
            Ok(Some(last))
  }

  /** With a hash-sorted ring and a running directory, the owner of an ordinary grain is a
      silo with the greatest hash not above the grain's hash; when every silo hashes above
      the grain, it is a silo with the greatest hash of all (the ring wraps around). */
  lemma OwnerHasGreatestHashNotAbove(v: OwnerView, g: GrainId)
    requires SortedByHash(v.ring) && v.ring != [] && v.running && !g.IsSystemTarget()
    ensures PartitionOwner(v, g).Ok? && PartitionOwner(v, g).value.Some?
    ensures var o, hash := PartitionOwner(v, g).value.value, ToInt32(g.uniformHash);
            if exists s :: s in v.ring && s.consistentHash <= hash then
              o.consistentHash <= hash && forall s :: s in v.ring && s.consistentHash <= hash ==> s.consistentHash <= o.consistentHash
            else
              forall s :: s in v.ring ==> s.consistentHash <= o.consistentHash
  {
    var hash := ToInt32(g.uniformHash);
    var n := |v.ring|;
    match ScanDown(v.ring, hash, false, v.me, n)
    case Some(k) =>
      forall s | s in v.ring && s.consistentHash <= hash ensures s.consistentHash <= v.ring[k].consistentHash {
        var j :| 0 <= j < n && v.ring[j] == s;
        assert !(k < j);
      }
    case None =>
      assert !exists s :: s in v.ring && s.consistentHash <= hash by {
        forall s | s in v.ring ensures s.consistentHash > hash {
          var j :| 0 <= j < n && v.ring[j] == s;
        }
      }
      forall s | s in v.ring ensures s.consistentHash <= v.ring[n - 1].consistentHash {
        var j :| 0 <= j < n && v.ring[j] == s;
      }
  }

  /** A directory that is not running never names itself the owner of an ordinary grain. */
  lemma StoppingSiloNeverOwns(v: OwnerView, g: GrainId)
    requires Distinct(v.ring) && !v.running && !g.IsSystemTarget()
    ensures PartitionOwner(v, g) != Ok(Some(v.me))
  {
    var n := |v.ring|;
    if n > 1 && v.ring[n - 1] == v.me {
      assert v.ring[n - 2] != v.ring[n - 1];
    }
  }

  /** All running silos that observe the same ring agree on the owner of an ordinary grain. */
  lemma {:induction false} RunningSilosAgree(v1: OwnerView, v2: OwnerView, g: GrainId)
    requires v1.ring == v2.ring && v1.ring != [] && v1.running && v2.running && !g.IsSystemTarget()
    ensures PartitionOwner(v1, g) == PartitionOwner(v2, g)
  {
    ScanDownIgnoresObserver(v1.ring, ToInt32(g.uniformHash), v1.me, v2.me, |v1.ring|);
  }

  lemma {:induction false} ScanDownIgnoresObserver(ring: seq<SiloAddress>, hash: int, me1: SiloAddress, me2: SiloAddress, i: nat)
    requires i <= |ring|
    ensures ScanDown(ring, hash, false, me1, i) == ScanDown(ring, hash, false, me2, i)
    decreases i
  {
    if i > 0 {
      ScanDownIgnoresObserver(ring, hash, me1, me2, i - 1);
    }
  }

  /** Three silos hashing to 10, 50 and 90: a grain hashing to 60 belongs to the silo at 50,
      the greatest hash not above 60. A grain hashing to 5 wraps around to the silo at 90. */
  lemma ThreeSiloRing(a: SiloAddress, b: SiloAddress, c: SiloAddress, me: SiloAddress, key: nat)
    requires a.consistentHash == 10 && b.consistentHash == 50 && c.consistentHash == 90
    ensures PartitionOwner(OwnerView([a, b, c], me, true, None), GrainId(ApplicationType(0), key, 60)) == Ok(Some(b))
    ensures PartitionOwner(OwnerView([a, b, c], me, true, None), GrainId(ApplicationType(0), key, 5)) == Ok(Some(c))
    ensures PartitionOwner(OwnerView([a, b], me, true, None), GrainId(ApplicationType(0), key, 5)) == Ok(Some(b))
  {
    assert ScanDown([a, b, c], 60, false, me, 2) == Some(1);
  }

  // ---------------------------------------------------------------------------
  // Forwarding

  /** `CheckIfShouldForward`, given the owner computed for the grain: handle locally (none)
      when there is no owner or the local silo owns the grain; otherwise forward to the
      owner, unless `hopCount` has reached the hop limit, which is an error. */
  function Forwarding(owner: Result<Option<SiloAddress>>, me: SiloAddress, g: GrainId, hopCount: nat)
    : (r: Result<Option<SiloAddress>>)
    ensures owner.Err? ==> r == owner
    ensures r == Ok(None) <==> owner.Ok? && (owner.value.None? || owner.value.value == me)
    ensures owner.Ok? && r.Err? <==> owner.Ok? && owner.value.Some? && owner.value.value != me && hopCount >= HOP_LIMIT
    ensures owner.Ok? && r.Err? ==> r.error == HopLimitExceeded(me, g, owner.value.value, hopCount)
    ensures r.Ok? && r.value.Some? ==> r == owner && r.value.value != me && hopCount < HOP_LIMIT
  {
    match owner
    case Err(e) => Err(e)
    case Ok(o) =>
      if o.None? || o.value == me then Ok(None)
      else if hopCount >= HOP_LIMIT then Err(HopLimitExceeded(me, g, o.value, hopCount))
      else Ok(Some(o.value))
  }

  /** `CheckIfShouldForward` for one grain, against a directory's ownership view. */
  function ForwardDecision(v: OwnerView, g: GrainId, hopCount: nat): (r: Result<Option<SiloAddress>>)
    ensures r == Ok(None) <==> PartitionOwner(v, g) == Ok(None) || PartitionOwner(v, g) == Ok(Some(v.me))
    ensures r.Ok? && r.value.Some? ==> r.value.value != v.me && hopCount < HOP_LIMIT && PartitionOwner(v, g) == r
  {
    Forwarding(PartitionOwner(v, g), v.me, g, hopCount)
  }

  /** Where a request for an ordinary grain ends up. */
  datatype RouteEnd = ServedAt(silo: SiloAddress, hopCount: nat) | FailedAt(error: DirectoryError)

  /** The path of one request through the cluster: the silo it reaches at hop `hopCount`
      believes `beliefs(silo, hopCount)` owns the grain, and either serves it, forwards it
      with the hop count increased by one, or gives up. The beliefs may be arbitrary, even
      contradictory: the hop limit alone makes every path finite. */
  function Route(beliefs: (SiloAddress, nat) -> Option<SiloAddress>, at: SiloAddress, g: GrainId, hopCount: nat)
    : (r: RouteEnd)
    requires hopCount <= HOP_LIMIT
    ensures r.ServedAt? ==> hopCount <= r.hopCount <= HOP_LIMIT
    ensures r.ServedAt? ==> beliefs(r.silo, r.hopCount).None? || beliefs(r.silo, r.hopCount) == Some(r.silo)
    ensures r.FailedAt? ==> r.error.HopLimitExceeded? && r.error.hopCount == HOP_LIMIT
    decreases HOP_LIMIT - hopCount
  {
    match Forwarding(Ok(beliefs(at, hopCount)), at, g, hopCount)
    case Err(e) => FailedAt(e)
    case Ok(None) => ServedAt(at, hopCount)
    case Ok(Some(next)) => Route(beliefs, next, g, hopCount + 1)
  }

  /** If every silo always believes some other silo owns the grain, the request is forwarded
      until the hop limit and then fails. */
  lemma {:induction false} EndlessDisagreementHitsHopLimit(
    beliefs: (SiloAddress, nat) -> Option<SiloAddress>, at: SiloAddress, g: GrainId, hopCount: nat)
    requires hopCount <= HOP_LIMIT
    requires forall s, h :: beliefs(s, h).Some? && beliefs(s, h).value != s
    ensures Route(beliefs, at, g, hopCount).FailedAt?
    ensures Route(beliefs, at, g, hopCount).error.owner == beliefs(Route(beliefs, at, g, hopCount).error.silo, HOP_LIMIT).value
    decreases HOP_LIMIT - hopCount
  {
    if hopCount < HOP_LIMIT {
      EndlessDisagreementHitsHopLimit(beliefs, beliefs(at, hopCount).value, g, hopCount + 1);
    }
  }
}
