/** The directory's view of cluster membership: an immutable snapshot holding the member silos
    as a list sorted by consistent hash (the ring) plus a set of the same silos. The snapshot
    is never changed in place; adding or removing a silo builds a new one. */
module Membership {
  import opened DirectoryTypes

  ghost predicate SortedByHash(ring: seq<SiloAddress>) {
    forall i, j :: 0 <= i < j < |ring| ==> ring[i].consistentHash <= ring[j].consistentHash
  }

  ghost predicate Distinct(ring: seq<SiloAddress>) {
    forall i, j :: 0 <= i < j < |ring| ==> ring[i] != ring[j]
  }

  /** The silos a list holds. */
  ghost function Elements(ring: seq<SiloAddress>): set<SiloAddress> {
    set x | x in ring
  }

  /** A duplicate-free list holds as many silos as it has positions. */
  lemma {:induction false} DistinctCardinality(ring: seq<SiloAddress>)
    requires Distinct(ring)
    ensures |Elements(ring)| == |ring|
    decreases |ring|
  {
    if ring != [] {
      var rest := ring[..|ring| - 1];
      var last := ring[|ring| - 1];
      assert Distinct(rest);
      DistinctCardinality(rest);
      assert Elements(ring) == Elements(rest) + {last} by {
        assert ring == rest + [last];
      }
      assert last !in Elements(rest);
    }
  }

  datatype DirectoryMembership = DirectoryMembership(ring: seq<SiloAddress>, members: set<SiloAddress>) {
    /** The ring is hash-sorted and duplicate-free, and the set holds exactly its silos. */
    ghost predicate Valid() {
      SortedByHash(ring) && Distinct(ring) && members == Elements(ring)
    }
  }

  /** In a valid snapshot the ring list and the membership set have the same size. */
  lemma ValidSizes(m: DirectoryMembership)
    requires m.Valid()
    ensures |m.ring| == |m.members|
  {
    DistinctCardinality(m.ring);
  }

  /** `DirectoryMembership.Default`: the snapshot a directory starts from, with no silo. */
  function Default(): (m: DirectoryMembership)
    ensures m.Valid() && m.members == {} && m.ring == []
  {
    DirectoryMembership([], {})
  }

  /** `FindLastIndex(s => s.hash < hash) + 1`: one past the last silo whose hash is below `hash`. */
  function InsertIndex(ring: seq<SiloAddress>, hash: int): (k: nat)
    ensures k <= |ring|
    ensures k > 0 ==> ring[k - 1].consistentHash < hash
    ensures forall j :: k <= j < |ring| ==> ring[j].consistentHash >= hash
    decreases |ring|
  {
    if ring == [] then 0
    else if ring[|ring| - 1].consistentHash < hash then |ring|
    else InsertIndex(ring[..|ring| - 1], hash)
  }

  /** `IndexOf`: the first position of `s`, or -1 when it is absent. */
  function IndexOf(ring: seq<SiloAddress>, s: SiloAddress): (i: int)
    ensures -1 <= i < |ring|
    ensures i == -1 <==> s !in ring
    ensures 0 <= i ==> ring[i] == s && forall j :: 0 <= j < i ==> ring[j] != s
    decreases |ring|
  {
    if ring == [] then -1
    else if ring[0] == s then 0
    else
      var i := IndexOf(ring[1..], s);
      if i == -1 then -1 else i + 1
  }

  lemma IndexOfDistinct(ring: seq<SiloAddress>, j: nat)
    requires Distinct(ring) && j < |ring|
    ensures IndexOf(ring, ring[j]) == j
  {
  }

  /** Where each position of a list with one silo inserted comes from. */
  lemma InsertedAt(ring: seq<SiloAddress>, k: nat, s: SiloAddress, j: nat)
    requires k <= |ring| && j <= |ring|
    ensures (ring[..k] + [s] + ring[k..])[j] == if j < k then ring[j] else if j == k then s else ring[j - 1]
  {
  }

  /** Inserting at `InsertIndex` keeps a hash-sorted list sorted. */
  lemma {:induction false} InsertKeepsSorted(ring: seq<SiloAddress>, s: SiloAddress)
    requires SortedByHash(ring)
    ensures var k := InsertIndex(ring, s.consistentHash);
            SortedByHash(ring[..k] + [s] + ring[k..])
  {
    var k := InsertIndex(ring, s.consistentHash);
    var r := ring[..k] + [s] + ring[k..];
    forall i, j | 0 <= i < j < |r| ensures r[i].consistentHash <= r[j].consistentHash {
      InsertedAt(ring, k, s, i);
      InsertedAt(ring, k, s, j);
      if i < k && j == k {
        assert ring[i].consistentHash <= ring[k - 1].consistentHash;
      }
    }
  }

  /** In a sorted list, the silo inserted at `InsertIndex` follows every lower hash and
      precedes every silo with an equal or higher one. */
  lemma InsertPlacement(ring: seq<SiloAddress>, s: SiloAddress)
    requires SortedByHash(ring)
    ensures var k := InsertIndex(ring, s.consistentHash); var r := ring[..k] + [s] + ring[k..];
            && r[k] == s
            && (forall j :: 0 <= j < k ==> r[j].consistentHash < s.consistentHash)
            && (forall j :: k < j < |r| ==> s.consistentHash <= r[j].consistentHash)
  {
    var k := InsertIndex(ring, s.consistentHash);
    var r := ring[..k] + [s] + ring[k..];
    InsertedAt(ring, k, s, k);
    forall j | 0 <= j < k ensures r[j].consistentHash < s.consistentHash {
      InsertedAt(ring, k, s, j);
      assert ring[j].consistentHash <= ring[k - 1].consistentHash;
    }
    forall j | k < j < |r| ensures s.consistentHash <= r[j].consistentHash {
      InsertedAt(ring, k, s, j);
    }
  }

  /** Inserting a silo not yet in a duplicate-free list keeps it duplicate-free and adds
      exactly that silo. */
  lemma {:induction false} InsertKeepsDistinct(ring: seq<SiloAddress>, k: nat, s: SiloAddress)
    requires Distinct(ring) && s !in ring && k <= |ring|
    ensures Distinct(ring[..k] + [s] + ring[k..])
    ensures Elements(ring[..k] + [s] + ring[k..]) == Elements(ring) + {s}
  {
    var r := ring[..k] + [s] + ring[k..];
    forall i, j | 0 <= i < j < |r| ensures r[i] != r[j] {
      InsertedAt(ring, k, s, i);
      InsertedAt(ring, k, s, j);
    }
    forall x | x in r ensures x in ring || x == s {
      var j :| 0 <= j < |r| && r[j] == x;
      InsertedAt(ring, k, s, j);
    }
    forall x | x in ring ensures x in r {
      var j :| 0 <= j < |ring| && ring[j] == x;
      if j < k {
        InsertedAt(ring, k, s, j);
      } else {
        InsertedAt(ring, k, s, j + 1);
      }
    }
    assert s == r[k] by { InsertedAt(ring, k, s, k); }
  }

  /** `r` is `ring` with `s` inserted at position `k`: the old silos keep their order, and `s`
      comes after every lower hash and before every silo sharing its hash. */
  ghost predicate InsertedInOrder(ring: seq<SiloAddress>, r: seq<SiloAddress>, s: SiloAddress, k: nat) {
    && k < |r|
    && r[k] == s
    && r[..k] + r[k + 1..] == ring
    && (forall j :: 0 <= j < k ==> r[j].consistentHash < s.consistentHash)
    && (forall j :: k < j < |r| ==> s.consistentHash <= r[j].consistentHash)
  }

  /** The snapshot after AddServer inserts a new silo at `InsertIndex`. It stays valid and
      gains exactly that silo. */
  function WithSilo(m: DirectoryMembership, s: SiloAddress): (r: DirectoryMembership)
    requires m.Valid() && s !in m.members
    ensures r.Valid()
    ensures r.members == m.members + {s}
    ensures |r.ring| == |m.ring| + 1
    ensures InsertedInOrder(m.ring, r.ring, s, InsertIndex(m.ring, s.consistentHash))
  {
    var k := InsertIndex(m.ring, s.consistentHash);
    InsertKeepsSorted(m.ring, s);
    InsertKeepsDistinct(m.ring, k, s);
    InsertPlacement(m.ring, s);
    RemoveInserted(m.ring, k, s);
    DirectoryMembership(m.ring[..k] + [s] + m.ring[k..], m.members + {s})
  }

  /** Dropping one position keeps a list sorted and duplicate-free, and drops exactly that silo. */
  lemma RemoveKeepsValid(ring: seq<SiloAddress>, i: nat)
    requires SortedByHash(ring) && Distinct(ring) && i < |ring|
    ensures SortedByHash(ring[..i] + ring[i + 1..])
    ensures Distinct(ring[..i] + ring[i + 1..])
    ensures Elements(ring[..i] + ring[i + 1..]) == Elements(ring) - {ring[i]}
  {
    var r := ring[..i] + ring[i + 1..];
    assert forall j :: 0 <= j < |r| ==> r[j] == ring[if j < i then j else j + 1];
    forall x | x in ring && x != ring[i] ensures x in r {
      var j :| 0 <= j < |ring| && ring[j] == x;
      assert r[if j < i then j else j - 1] == x;
    }
  }

  /** `r` is `ring` with position `k` taken out: every other silo stays, in the same order. */
  ghost predicate DroppedAt(ring: seq<SiloAddress>, r: seq<SiloAddress>, k: int) {
    0 <= k < |ring| && |r| == |ring| - 1 &&
    (forall j :: 0 <= j < k ==> r[j] == ring[j]) &&
    (forall j :: k <= j < |r| ==> r[j] == ring[j + 1])
  }

  /** The snapshot after RemoveServer takes a member out of both the list and the set. */
  function WithoutSilo(m: DirectoryMembership, s: SiloAddress): (r: DirectoryMembership)
    requires m.Valid() && s in m.members
    ensures r.Valid()
    ensures r.members == m.members - {s}
    ensures |r.ring| == |m.ring| - 1
    ensures DroppedAt(m.ring, r.ring, IndexOf(m.ring, s))
  {
    var i := IndexOf(m.ring, s);
    RemoveKeepsValid(m.ring, i);
    DirectoryMembership(m.ring[..i] + m.ring[i + 1..], m.members - {s})
  }

  /** Among silos sharing a hash, removing one keeps the others in their order, which is the
      order that decides which of them owns a grain. */
  lemma WithoutSiloKeepsTieOrder(x: SiloAddress, y: SiloAddress, s: SiloAddress)
    requires x != y && x != s && y != s
    requires x.consistentHash == y.consistentHash == s.consistentHash
    ensures DirectoryMembership([x, y, s], {x, y, s}).Valid()
    ensures WithoutSilo(DirectoryMembership([x, y, s], {x, y, s}), s).ring == [x, y]
  {
    var m := DirectoryMembership([x, y, s], {x, y, s});
    assert Elements([x, y, s]) == {x, y, s} by {
      assert x == [x, y, s][0] && y == [x, y, s][1] && s == [x, y, s][2];
    }
    assert IndexOf([x, y, s], s) == 2;
    var r := WithoutSilo(m, s).ring;
    assert r[0] == x && r[1] == y;
  }

  /** The first occurrence of a silo is the position where it first appears. */
  lemma IndexOfFirst(ring: seq<SiloAddress>, s: SiloAddress, k: nat)
    requires k < |ring| && ring[k] == s
    requires forall j :: 0 <= j < k ==> ring[j] != s
    ensures IndexOf(ring, s) == k
  {
  }

  /** Dropping the inserted position gives back the list. */
  lemma RemoveInserted(ring: seq<SiloAddress>, k: nat, s: SiloAddress)
    requires k <= |ring|
    ensures var r := ring[..k] + [s] + ring[k..]; r[..k] + r[k + 1..] == ring
  {
    var r := ring[..k] + [s] + ring[k..];
    assert r[..k] == ring[..k];
    assert r[k + 1..] == ring[k..];
    assert ring[..k] + ring[k..] == ring;
  }

  /** Removing a silo that was just added gives back the snapshot from before. */
  lemma {:induction false} WithoutAfterWith(m: DirectoryMembership, s: SiloAddress)
    requires m.Valid() && s !in m.members
    ensures WithoutSilo(WithSilo(m, s), s) == m
  {
    var k := InsertIndex(m.ring, s.consistentHash);
    var added := WithSilo(m, s);
    // Every silo before the newcomer hashes strictly lower, so it is not the newcomer.
    assert InsertedInOrder(m.ring, added.ring, s, k);
    IndexOfFirst(added.ring, s, k);
    var removed := WithoutSilo(added, s);
    assert removed.ring == added.ring[..k] + added.ring[k + 1..] == m.ring;
    assert removed.members == added.members - {s} == m.members;
  }

  lemma CyclicPrevious(i: int, n: int)
    requires 0 <= i < n
    ensures (i + n - 1) % n == if i == 0 then n - 1 else i - 1
  {
    if i == 0 {
      assert (n - 1) % n == n - 1;
    } else {
      assert (i - 1 + n) % n == i - 1;
    }
  }

  lemma CyclicNext(i: int, n: int)
    requires 0 <= i < n
    ensures (i + 1) % n == if i + 1 == n then 0 else i + 1
  {
  }

  /** `FindPredecessor`: the ring neighbour before `s`, cyclically; none when `s` is absent
      or alone. */
  function FindPredecessor(ring: seq<SiloAddress>, s: SiloAddress): (r: Option<SiloAddress>)
    ensures r.Some? <==> s in ring && |ring| > 1
    ensures r.Some? ==> r.value == ring[(IndexOf(ring, s) + |ring| - 1) % |ring|]
    ensures r.Some? && Distinct(ring) ==> r.value != s
  {
    var index := IndexOf(ring, s);
    if index == -1 then None
    else if |ring| > 1 then
      CyclicPrevious(index, |ring|);
      Some(ring[(if index == 0 then |ring| else index) - 1])
    else None
  }

  /** `FindSuccessor`: the ring neighbour after `s`, cyclically; none when `s` is absent
      or alone. */
  function FindSuccessor(ring: seq<SiloAddress>, s: SiloAddress): (r: Option<SiloAddress>)
    ensures r.Some? <==> s in ring && |ring| > 1
    ensures r.Some? ==> r.value == ring[(IndexOf(ring, s) + 1) % |ring|]
    ensures r.Some? && Distinct(ring) ==> r.value != s
  {
    var index := IndexOf(ring, s);
    if index == -1 then None
    else if |ring| > 1 then
      CyclicNext(index, |ring|);
      Some(ring[(index + 1) % |ring|])
    else None
  }

  /** On a duplicate-free ring, the predecessor of a silo's successor is the silo itself. */
  lemma PredecessorOfSuccessor(ring: seq<SiloAddress>, s: SiloAddress)
    requires Distinct(ring) && s in ring && |ring| > 1
    ensures FindSuccessor(ring, s).Some?
    ensures FindPredecessor(ring, FindSuccessor(ring, s).value) == Some(s)
  {
    var i := IndexOf(ring, s);
    CyclicNext(i, |ring|);
    var j := (i + 1) % |ring|;
    IndexOfDistinct(ring, j);
    CyclicPrevious(j, |ring|);
  }

  /** On a duplicate-free ring, the successor of a silo's predecessor is the silo itself. */
  lemma SuccessorOfPredecessor(ring: seq<SiloAddress>, s: SiloAddress)
    requires Distinct(ring) && s in ring && |ring| > 1
    ensures FindPredecessor(ring, s).Some?
    ensures FindSuccessor(ring, FindPredecessor(ring, s).value) == Some(s)
  {
    var i := IndexOf(ring, s);
    CyclicPrevious(i, |ring|);
    var j := (i + |ring| - 1) % |ring|;
    IndexOfDistinct(ring, j);
    CyclicNext(j, |ring|);
  }

  // ---------------------------------------------------------------------------
  // Ring distance

  /** The ring size as the source writes it: `int.MaxValue * 2L`, two short of 2^32. */
  const RingSizeAsWritten: int := 0x7fff_ffff * 2

  /** The number of hash values on the ring of 32-bit hashes. */
  const RingSize: int := 0x1_0000_0000

  /** `CalcRingDistance` as written: clockwise distance from silo1's hash to silo2's hash. */
  function CalcRingDistance(silo1: SiloAddress, silo2: SiloAddress): (d: int)
    ensures silo1.consistentHash == silo2.consistentHash ==> d == 0
    ensures silo1.consistentHash < silo2.consistentHash ==> 0 < d < RingSize
    ensures -1 <= d < RingSize
  {
    var hash1 := silo1.consistentHash;
    var hash2 := silo2.consistentHash;
    if hash2 > hash1 then hash2 - hash1
    else if hash2 < hash1 then RingSizeAsWritten - (hash1 - hash2)
    else 0
  }

  /** As written, the distance from the highest hash to the lowest is negative. */
  lemma CalcRingDistanceNegative()
    ensures CalcRingDistance(SiloAddress(1, 0, 0x7fff_ffff), SiloAddress(2, 0, -0x8000_0000)) == -1
  {
  }

  /** The clockwise distance on the ring of 2^32 hash values. */
  function RingDistance(silo1: SiloAddress, silo2: SiloAddress): (d: int)
    ensures 0 <= d < RingSize
    ensures d == 0 <==> silo1.consistentHash == silo2.consistentHash
    ensures (silo1.consistentHash + d - silo2.consistentHash) % RingSize == 0
  {
    var hash1 := silo1.consistentHash;
    var hash2 := silo2.consistentHash;
    if hash2 > hash1 then hash2 - hash1
    else if hash2 < hash1 then RingSize - (hash1 - hash2)
    else 0
  }

  /** Going from one silo to another and back covers the whole ring exactly once. */
  lemma RingDistanceRoundTrip(silo1: SiloAddress, silo2: SiloAddress)
    requires silo1.consistentHash != silo2.consistentHash
    ensures RingDistance(silo1, silo2) + RingDistance(silo2, silo1) == RingSize
  {
  }

  /** `RingDistanceToSuccessor` as written: the size of the hash range from `me` to its
      successor, measured with `CalcRingDistance`. */
  function RingDistanceToSuccessor(ring: seq<SiloAddress>, me: SiloAddress): (d: int)
    ensures -1 <= d < RingSize
    ensures FindSuccessor(ring, me).None? ==> d == 0
    ensures FindSuccessor(ring, me).Some? && me.consistentHash < FindSuccessor(ring, me).value.consistentHash ==> d > 0
  {
    match FindSuccessor(ring, me)
    case Some(successor) => CalcRingDistance(me, successor)
    case None => 0
  }

  /** The same range measured on the ring of 2^32 hash values. */
  function CorrectedRingDistanceToSuccessor(ring: seq<SiloAddress>, me: SiloAddress): (d: int)
    ensures 0 <= d < RingSize
    ensures FindSuccessor(ring, me).None? ==> d == 0
    ensures FindSuccessor(ring, me).Some? ==>
              (d == 0 <==> me.consistentHash == FindSuccessor(ring, me).value.consistentHash)
  {
    match FindSuccessor(ring, me)
    case Some(successor) => RingDistance(me, successor)
    case None => 0
  }

  /** The two agree unless the successor wraps past the top of the hash range, where the
      distance as written is two short. */
  lemma RingDistanceToSuccessorShortOnWrap(ring: seq<SiloAddress>, me: SiloAddress)
    ensures FindSuccessor(ring, me).Some? && FindSuccessor(ring, me).value.consistentHash < me.consistentHash ==>
              RingDistanceToSuccessor(ring, me) == CorrectedRingDistanceToSuccessor(ring, me) - 2
    ensures !(FindSuccessor(ring, me).Some? && FindSuccessor(ring, me).value.consistentHash < me.consistentHash) ==>
              RingDistanceToSuccessor(ring, me) == CorrectedRingDistanceToSuccessor(ring, me)
  {
  }

  /** On a ring holding the lowest and the highest hash, the highest silo's portion as written
      is -1. */
  lemma RingDistanceToSuccessorNegative(lo: SiloAddress, hi: SiloAddress)
    requires lo.consistentHash == -0x8000_0000 && hi.consistentHash == 0x7fff_ffff
    ensures RingDistanceToSuccessor([lo, hi], hi) == -1
    ensures CorrectedRingDistanceToSuccessor([lo, hi], hi) == 1
  {
    assert IndexOf([lo, hi], hi) == 1;
  }
}
