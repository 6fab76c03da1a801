/** Identities, hashes, results and errors shared by the grain directory model. */
module DirectoryTypes {

  datatype Option<+T> = None | Some(value: T)

  /** A result that is either a value or one of the directory's errors (the source throws). */
  datatype Result<+T> = Ok(value: T) | Err(error: DirectoryError)

  /** A result of an operation that returns nothing but may throw. */
  datatype Outcome = Pass | Fail(error: DirectoryError)

  /** C# `int`. */
  type Int32 = x: int | -0x8000_0000 <= x < 0x8000_0000

  /** C# `uint`. */
  type UInt32 = x: int | 0 <= x < 0x1_0000_0000

  /** `unchecked((int)u)`: the same 32 bits read as a two's-complement signed value. */
  function ToInt32(u: UInt32): (r: Int32)
    ensures r % 0x1_0000_0000 == u
    ensures r >= 0 <==> u < 0x8000_0000
  {
    if u < 0x8000_0000 then u else u - 0x1_0000_0000
  }

  /** A silo: its network identity and its consistent hash, which is a deterministic
      function of that identity (so equal silos have equal hashes). */
  datatype SiloAddress = SiloAddress(endpoint: nat, generation: int, consistentHash: Int32)

  /** The type part of a grain identity. System targets are owned by every silo locally;
      the development membership table is one distinguished system-target type. */
  datatype GrainType = ApplicationType(code: nat) | SystemTargetType(code: nat) | MembershipTableType

  /** A grain identity with its uniform (unsigned 32-bit) hash. */
  datatype GrainId = GrainId(grainType: GrainType, key: nat, uniformHash: UInt32) {
    predicate IsSystemTarget() { !grainType.ApplicationType? }
  }

  /** One activation of a grain, hosted on a silo. */
  datatype GrainAddress = GrainAddress(grainId: GrainId, activationId: nat, siloAddress: SiloAddress) {
    /** Same grain and same activation (the silo is not compared). */
    predicate Matches(other: GrainAddress) {
      grainId == other.grainId && activationId == other.activationId
    }
  }

  /** An optional address with the version tag of the directory entry it came from. */
  datatype AddressAndTag = AddressAndTag(address: Option<GrainAddress>, versionTag: int)

  /** `default(AddressAndTag)`: no address, tag 0. */
  const NoAddress: AddressAndTag := AddressAndTag(None, 0)

  /** The tag the partition reports for a grain it holds no entry for. */
  const NO_ETAG: int := -1

  /** Forward a request no more than this many times. */
  const HOP_LIMIT: nat := 6

  datatype SiloStatus = StatusNone | Created | Joining | Active | ShuttingDown | Stopping | Dead {
    /** The statuses of a silo on its way out; every other status is before or at Active. */
    predicate IsTerminating()
      ensures IsTerminating() <==> !(this == StatusNone || this == Created || this == Joining || this == Active)
    {
      this == ShuttingDown || this == Stopping || this == Dead
    }
  }

  datatype DirectoryError =
    | ConfigurationError(grain: GrainId)
    | HopLimitExceeded(silo: SiloAddress, grain: GrainId, owner: SiloAddress, hopCount: nat)
    | UnstableTarget(silo: SiloAddress, grain: GrainId, target: SiloAddress)
}
