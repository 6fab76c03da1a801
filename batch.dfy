/** The specification of `UnregisterOrPutInForwardList`: one pass over a batch of addresses
    that unregisters locally what the local silo owns and groups the rest by owner. */
module Batching {
  import opened DirectoryTypes
  import opened Stores
  import opened Ownership

  type ForwardList = map<SiloAddress, seq<GrainAddress>>

  /** Appends `a` to the list kept for silo `t`, creating the list on first use. */
  function AppendTo(forward: ForwardList, t: SiloAddress, a: GrainAddress): (r: ForwardList)
    ensures r.Keys == forward.Keys + {t}
    ensures r[t] == (if t in forward then forward[t] else []) + [a]
    ensures forall u :: u in forward && u != t ==> r[u] == forward[u]
  {
    forward[t := (if t in forward then forward[t] else []) + [a]]
  }

  /** The pass, from partition `p` and forward lists `forward`: stops at the first address
      whose ownership check fails. */
  function Sweep(v: OwnerView, p: Partition, forward: ForwardList, addrs: seq<GrainAddress>, hopCount: nat)
    : (r: (Partition, Result<ForwardList>))
    ensures forall g :: g in r.0 ==> g in p && r.0[g] == p[g]
    ensures PartitionKeyed(p) ==> PartitionKeyed(r.0)
    decreases |addrs|
  {
    if addrs == [] then (p, Ok(forward))
    else
      var a := addrs[0];
      match ForwardDecision(v, a.grainId, hopCount)
      case Err(e) => (p, Err(e))
      case Ok(None) => Sweep(v, RemoveActivation(p, a.grainId, a.activationId), forward, addrs[1..], hopCount)
      case Ok(Some(t)) => Sweep(v, p, AppendTo(forward, t, a), addrs[1..], hopCount)
  }

  /** The addresses the pass unregisters locally: those the local silo owns, up to the first
      failed check. */
  function Locals(v: OwnerView, addrs: seq<GrainAddress>, hopCount: nat): (r: seq<GrainAddress>)
    ensures forall a :: a in r ==> a in addrs && ForwardDecision(v, a.grainId, hopCount) == Ok(None)
    decreases |addrs|
  {
    if addrs == [] then []
    else
      match ForwardDecision(v, addrs[0].grainId, hopCount)
      case Err(_) => []
      case Ok(None) => [addrs[0]] + Locals(v, addrs[1..], hopCount)
      case Ok(Some(_)) => Locals(v, addrs[1..], hopCount)
  }

  /** The addresses of the batch that go to silo `t`, in batch order. */
  function RoutedTo(v: OwnerView, addrs: seq<GrainAddress>, hopCount: nat, t: SiloAddress): (r: seq<GrainAddress>)
    ensures forall a :: a in r <==> a in addrs && ForwardDecision(v, a.grainId, hopCount) == Ok(Some(t))
    ensures r != [] ==> t != v.me && hopCount < HOP_LIMIT
    decreases |addrs|
  {
    if addrs == [] then []
    else (if ForwardDecision(v, addrs[0].grainId, hopCount) == Ok(Some(t)) then [addrs[0]] else [])
         + RoutedTo(v, addrs[1..], hopCount, t)
  }

  /** The first failed ownership check of the batch, if any. */
  function FirstFailure(v: OwnerView, addrs: seq<GrainAddress>, hopCount: nat): (r: Option<DirectoryError>)
    ensures r.None? <==> forall a :: a in addrs ==> ForwardDecision(v, a.grainId, hopCount).Ok?
    decreases |addrs|
  {
    if addrs == [] then None
    else
      match ForwardDecision(v, addrs[0].grainId, hopCount)
      case Err(e) => Some(e)
      case Ok(_) => FirstFailure(v, addrs[1..], hopCount)
  }

  /** Some address of `locals` names the activation `p` records for grain `g`. */
  predicate MatchedBy(p: Partition, g: GrainId, locals: seq<GrainAddress>)
    requires g in p
  {
    exists k :: 0 <= k < |locals| && locals[k].grainId == g && locals[k].activationId == p[g].activation.activationId
  }

  /** `p` without the entries whose activation some address of `locals` names. */
  function Cleared(p: Partition, locals: seq<GrainAddress>): (r: Partition)
    ensures forall g :: g in r <==> g in p && !MatchedBy(p, g, locals)
    ensures forall g :: g in r ==> r[g] == p[g]
  {
    map g | g in p && !MatchedBy(p, g, locals) :: p[g]
  }

  lemma ClearedStep(p: Partition, a: GrainAddress, rest: seq<GrainAddress>)
    ensures Cleared(RemoveActivation(p, a.grainId, a.activationId), rest) == Cleared(p, [a] + rest)
  {
    var p' := RemoveActivation(p, a.grainId, a.activationId);
    var l := Cleared(p', rest);
    var r := Cleared(p, [a] + rest);
    forall g | g in p'
      ensures MatchedBy(p', g, rest) <==> MatchedBy(p, g, [a] + rest)
    {
      if MatchedBy(p', g, rest) {
        var k :| 0 <= k < |rest| && rest[k].grainId == g && rest[k].activationId == p'[g].activation.activationId;
        assert ([a] + rest)[k + 1] == rest[k];
      }
      if MatchedBy(p, g, [a] + rest) {
        var k :| 0 <= k < |[a] + rest| && ([a] + rest)[k].grainId == g && ([a] + rest)[k].activationId == p[g].activation.activationId;
        assert k != 0;
        assert rest[k - 1] == ([a] + rest)[k];
      }
    }
    forall g ensures g in l <==> g in r {
      if g in p && g !in p' {
        assert ([a] + rest)[0] == a;
      }
    }
  }

  /** The pass unregisters exactly the recorded activations that a locally owned address of
      the batch names (those before the first failed check). */
  lemma {:induction false} SweepClears(v: OwnerView, p: Partition, forward: ForwardList, addrs: seq<GrainAddress>, hopCount: nat)
    ensures Sweep(v, p, forward, addrs, hopCount).0 == Cleared(p, Locals(v, addrs, hopCount))
    decreases |addrs|
  {
    if addrs == [] {
      assert Cleared(p, []) == p;
    } else {
      var a := addrs[0];
      match ForwardDecision(v, a.grainId, hopCount)
      case Err(e) =>
        assert Cleared(p, []) == p;
      case Ok(None) =>
        SweepClears(v, RemoveActivation(p, a.grainId, a.activationId), forward, addrs[1..], hopCount);
        ClearedStep(p, a, Locals(v, addrs[1..], hopCount));
      case Ok(Some(t0)) =>
        SweepClears(v, p, AppendTo(forward, t0, a), addrs[1..], hopCount);
    }
  }

  /** The pass fails exactly when some check of the batch fails, with the first such error. */
  lemma {:induction false} SweepFails(v: OwnerView, p: Partition, forward: ForwardList, addrs: seq<GrainAddress>, hopCount: nat)
    ensures Sweep(v, p, forward, addrs, hopCount).1.Err? <==> FirstFailure(v, addrs, hopCount).Some?
    ensures Sweep(v, p, forward, addrs, hopCount).1.Err? ==>
              Sweep(v, p, forward, addrs, hopCount).1.error == FirstFailure(v, addrs, hopCount).value
    decreases |addrs|
  {
    if addrs != [] {
      var a := addrs[0];
      match ForwardDecision(v, a.grainId, hopCount)
      case Err(e) =>
      case Ok(None) =>
        SweepFails(v, RemoveActivation(p, a.grainId, a.activationId), forward, addrs[1..], hopCount);
      case Ok(Some(t0)) =>
        SweepFails(v, p, AppendTo(forward, t0, a), addrs[1..], hopCount);
    }
  }

  /** When the pass succeeds, every silo's list is what it held before followed by the
      addresses of the batch that silo owns, in batch order; so no list goes to the local silo. */
  lemma {:induction false} SweepGroups(v: OwnerView, p: Partition, forward: ForwardList, addrs: seq<GrainAddress>, hopCount: nat, t: SiloAddress)
    ensures Sweep(v, p, forward, addrs, hopCount).1.Ok? ==>
              var f := Sweep(v, p, forward, addrs, hopCount).1.value;
              (t in f <==> t in forward || RoutedTo(v, addrs, hopCount, t) != []) &&
              (t in f ==> f[t] == (if t in forward then forward[t] else []) + RoutedTo(v, addrs, hopCount, t))
    decreases |addrs|
  {
    if addrs != [] {
      var a := addrs[0];
      var rest := addrs[1..];
      var later := RoutedTo(v, rest, hopCount, t);
      match ForwardDecision(v, a.grainId, hopCount)
      case Err(e) =>
      case Ok(None) =>
        var p' := RemoveActivation(p, a.grainId, a.activationId);
        assert Sweep(v, p, forward, addrs, hopCount) == Sweep(v, p', forward, rest, hopCount);
        assert RoutedTo(v, addrs, hopCount, t) == later;
        SweepGroups(v, p', forward, rest, hopCount, t);
      case Ok(Some(t0)) =>
        var forward' := AppendTo(forward, t0, a);
        assert Sweep(v, p, forward, addrs, hopCount) == Sweep(v, p, forward', rest, hopCount);
        SweepGroups(v, p, forward', rest, hopCount, t);
        if t == t0 {
          assert RoutedTo(v, addrs, hopCount, t) == [a] + later;
          var before := if t in forward then forward[t] else [];
          assert forward'[t] + later == before + ([a] + later);
        } else {
          assert RoutedTo(v, addrs, hopCount, t) == later;
        }
    }
  }

  /** Unregistering the same locals a second time removes nothing more. */
  lemma ClearedTwice(p: Partition, locals: seq<GrainAddress>)
    ensures Cleared(Cleared(p, locals), locals) == Cleared(p, locals)
  {
    var c := Cleared(p, locals);
    forall g | g in c ensures !MatchedBy(c, g, locals) {
      assert c[g] == p[g];
    }
  }

  /** Which addresses go where depends on ownership only, never on the partition. */
  lemma {:induction false} SweepListsIgnorePartition(v: OwnerView, p1: Partition, p2: Partition, forward: ForwardList, addrs: seq<GrainAddress>, hopCount: nat)
    ensures Sweep(v, p1, forward, addrs, hopCount).1 == Sweep(v, p2, forward, addrs, hopCount).1
    decreases |addrs|
  {
    if addrs != [] {
      var a := addrs[0];
      match ForwardDecision(v, a.grainId, hopCount)
      case Err(_) =>
      case Ok(None) =>
        SweepListsIgnorePartition(v, RemoveActivation(p1, a.grainId, a.activationId), RemoveActivation(p2, a.grainId, a.activationId), forward, addrs[1..], hopCount);
      case Ok(Some(t)) =>
        SweepListsIgnorePartition(v, p1, p2, AppendTo(forward, t, a), addrs[1..], hopCount);
    }
  }

  /** Re-running the pass after it succeeded (the retry after the forwarding delay) leaves the
      partition as the first pass left it and builds the same forward lists. */
  lemma SweepTwice(v: OwnerView, p: Partition, addrs: seq<GrainAddress>, hopCount: nat)
    ensures var first := Sweep(v, p, map[], addrs, hopCount);
            Sweep(v, first.0, map[], addrs, hopCount) == first
  {
    var first := Sweep(v, p, map[], addrs, hopCount);
    SweepClears(v, p, map[], addrs, hopCount);
    SweepClears(v, first.0, map[], addrs, hopCount);
    ClearedTwice(p, Locals(v, addrs, hopCount));
    SweepListsIgnorePartition(v, first.0, p, map[], addrs, hopCount);
  }
}
