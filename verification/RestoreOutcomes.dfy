/** When a record is restored, what it becomes, and how far a restore gets, written out in terms of the pools, the record and the world. */
module RestoreOutcomes {
  import opened PyLists
  import opened Vms
  import opened AllocatorSpec
  import opened RestoreSpec
  import opened Restore

  /** Of at most ten tries, one is refused and all before it time out. */
  ghost predicate LeaseRefused(answers: nat -> Dhcp) {
    exists n: nat :: n < 10 && answers(n) == Refused && forall m: nat :: m < n ==> answers(m) == TimedOut
  }

  /** Every interface has a device that is still there, and its address can be renewed or is only slow to answer. */
  ghost predicate NetworksUsable(c: Config, nets: seq<Net>, world: World) {
    forall i: nat :: i < |nets| ==>
      (nets[i].source == c.bridgeDevice || nets[i].source == c.privateNetwork) && !LeaseRefused(world.dhcp(i))
  }

  /** `found` are the first free devices with the listed addresses. */
  predicate FirstAt(gpus: seq<Device>, addresses: seq<string>, found: seq<Device>) {
    |found| == |addresses| && forall i :: 0 <= i < |found| ==> IsFirstAt(gpus, addresses[i], found[i])
  }

  predicate IsFirstAt(gpus: seq<Device>, address: string, d: Device) {
    exists k :: 0 <= k < |gpus| && gpus[k] == d && d.fullAddress == address && forall j :: 0 <= j < k ==> gpus[j].fullAddress != address
  }

  lemma {:induction false} LookupIsFirst(gpus: seq<Device>, address: string)
    ensures Lookup(gpus, address).Some? ==> IsFirstAt(gpus, address, Lookup(gpus, address).value)
  {
    if gpus != [] && gpus[0].fullAddress != address {
      LookupIsFirst(gpus[1..], address);
      if Lookup(gpus[1..], address).Some? {
        var d := Lookup(gpus[1..], address).value;
        var k :| 0 <= k < |gpus[1..]| && gpus[1..][k] == d && d.fullAddress == address
                 && forall j :: 0 <= j < k ==> gpus[1..][j].fullAddress != address;
        assert gpus[k + 1] == d;
        forall j | 0 <= j < k + 1 ensures gpus[j].fullAddress != address {
          if j > 0 { assert gpus[1..][j - 1] == gpus[j]; }
        }
      }
    } else if gpus != [] {
      assert gpus[0] == Lookup(gpus, address).value;
    }
  }

  lemma {:induction false} LookupAllIsFirst(gpus: seq<Device>, addresses: seq<string>)
    ensures LookupAll(gpus, addresses).Some? ==> FirstAt(gpus, addresses, LookupAll(gpus, addresses).value)
  {
    if addresses != [] {
      LookupIsFirst(gpus, addresses[0]);
      LookupAllIsFirst(gpus, addresses[1..]);
    }
  }

  lemma FirstIsUnique(gpus: seq<Device>, address: string, a: Device, b: Device)
    requires IsFirstAt(gpus, address, a) && IsFirstAt(gpus, address, b)
    ensures a == b
  {
  }

  lemma FirstAtIsUnique(gpus: seq<Device>, addresses: seq<string>, a: seq<Device>, b: seq<Device>)
    requires FirstAt(gpus, addresses, a) && FirstAt(gpus, addresses, b)
    ensures a == b
  {
    forall i | 0 <= i < |a| ensures a[i] == b[i] {
      FirstIsUnique(gpus, addresses[i], a[i], b[i]);
    }
  }

  /** The devices of a record, if there are any. */
  lemma FoundExactly(gpus: seq<Device>, addresses: seq<string>)
    ensures LookupAll(gpus, addresses).Some? <==> exists found :: FirstAt(gpus, addresses, found)
    ensures forall found :: FirstAt(gpus, addresses, found) ==> LookupAll(gpus, addresses) == Some(found)
  {
    LookupAllIsFirst(gpus, addresses);
    forall found | FirstAt(gpus, addresses, found) ensures LookupAll(gpus, addresses) == Some(found) {
      LookupAllFinds(gpus, addresses);
      forall a <- addresses ensures exists d <- gpus :: d.fullAddress == a {
        var i :| 0 <= i < |addresses| && addresses[i] == a;
        assert IsFirstAt(gpus, addresses[i], found[i]);
      }
      FirstAtIsUnique(gpus, addresses, found, LookupAll(gpus, addresses).value);
    }
  }

  /** Everything a record needs to be restored. */
  ghost predicate Restorable(c: Config, p: Pools, rec: Record, world: World, found: seq<Device>) {
    && world.storageValid
    && rec.nets.Some? && NetworksUsable(c, rec.nets.value, world)
    && multiset(Macs(rec.nets.value)) <= multiset(p.macs)
    && FirstAt(p.gpus, rec.pcis, found) && multiset(found) <= multiset(p.gpus)
    && rec.complete
  }

  lemma RefusedIsFailing(answers: nat -> Dhcp)
    ensures LeaseRefused(answers) <==> RenewalFails(answers)
  {
  }

  lemma ListedMacsAreFree(p: Pools, nets: seq<Net>)
    requires multiset(Macs(nets)) <= multiset(p.macs)
    ensures forall i: nat :: i < |nets| ==> nets[i].mac in p.macs
  {
    forall i: nat | i < |nets| ensures nets[i].mac in p.macs {
      assert Macs(nets)[i] in multiset(Macs(nets)) && Macs(nets)[i] in multiset(p.macs);
    }
  }

  lemma UsableExactly(c: Config, p: Pools, nets: seq<Net>, world: World)
    requires multiset(Macs(nets)) <= multiset(p.macs)
    ensures NetworksUsable(c, nets, world) <==> NetworksPass(c, p, nets, world)
  {
    ListedMacsAreFree(p, nets);
    forall i: nat | i < |nets| ensures LeaseRefused(world.dhcp(i)) <==> RenewalFails(world.dhcp(i)) {
      RefusedIsFailing(world.dhcp(i));
    }
    if NetworksPass(c, p, nets, world) {
      forall i: nat | i < |nets|
        ensures (nets[i].source == c.bridgeDevice || nets[i].source == c.privateNetwork) && !LeaseRefused(world.dhcp(i))
      {
        assert NetworkPasses(c, p, nets[i], world.dhcp(i));
      }
    }
  }

  lemma TakenExactly(c: Config, p: Pools, rec: Record, world: World)
    ensures TryRestore(c, p, rec, world).1 <==>
      && Passes(c, p, rec, world) && rec.complete
      && multiset(Macs(rec.nets.value)) <= multiset(p.macs)
      && multiset(LookupAll(p.gpus, rec.pcis).value) <= multiset(p.gpus)
  {
    if Passes(c, p, rec, world) {
      RemoveEachExactly(p.macs, Macs(rec.nets.value));
      RemoveEachExactly(p.gpus, LookupAll(p.gpus, rec.pcis).value);
    }
  }

  /** A record is restored if and only if it has everything it needs. */
  lemma RestoredExactly(c: Config, p: Pools, rec: Record, world: World)
    ensures TryRestore(c, p, rec, world).1 <==> exists found :: Restorable(c, p, rec, world, found)
  {
    TakenExactly(c, p, rec, world);
    FoundExactly(p.gpus, rec.pcis);
    if rec.nets.Some? && multiset(Macs(rec.nets.value)) <= multiset(p.macs) {
      UsableExactly(c, p, rec.nets.value, world);
    }
    if TryRestore(c, p, rec, world).1 {
      LookupAllIsFirst(p.gpus, rec.pcis);
      assert Restorable(c, p, rec, world, LookupAll(p.gpus, rec.pcis).value);
    }
  }

  /** It becomes a VM with what it asked for, under its own name, and the pools lose just that. */
  lemma RestoredBecomes(c: Config, p: Pools, rec: Record, world: World, found: seq<Device>)
    requires Restorable(c, p, rec, world, found)
    ensures var q := TryRestore(c, p, rec, world).0;
      && q.vms == p.vms[rec.name := Vm(p.nextId, rec.name, found, rec.nets.value, rec.port)] && q.nextId == p.nextId + 1
      && q.ports == p.ports + [rec.port]
      && multiset(q.gpus) == multiset(p.gpus) - multiset(found)
      && multiset(q.macs) == multiset(p.macs) - multiset(Macs(rec.nets.value))
  {
    FoundExactly(p.gpus, rec.pcis);
    UsableExactly(c, p, rec.nets.value, world);
    RemoveEachExactly(p.macs, Macs(rec.nets.value));
    RemoveEachExactly(p.gpus, found);
  }

  // ----- how far a restore gets

  /** The clean-up after record `i` works: it has interfaces to release, and releasing them does not raise. */
  predicate GoesOn(recs: seq<Record>, worlds: seq<World>, flags: seq<bool>, i: nat)
    requires i < |flags| <= |recs| == |worlds|
  {
    flags[i] || (recs[i].nets.Some? && worlds[i].cleanup)
  }

  /** Every record before the last that was reached let the restore go on, and the last one ended it unless it was the last of all. */
  lemma {:induction false} ReachedExactly(c: Config, p: Pools, recs: seq<Record>, worlds: seq<World>)
    requires |recs| == |worlds|
    ensures var flags := RestoreAll(c, p, recs, worlds).1;
      && (recs != [] ==> flags != [])
      && (forall i: nat :: i < |flags| - 1 ==> GoesOn(recs, worlds, flags, i))
      && (flags != [] && |flags| < |recs| ==> !GoesOn(recs, worlds, flags, |flags| - 1))
    decreases |recs|
  {
    if recs != [] {
      var t := TryRestore(c, p, recs[0], worlds[0]);
      if t.1 || CleansUp(recs[0], worlds[0]) {
        ReachedExactly(c, t.0, recs[1..], worlds[1..]);
        OneMoreReached(recs, worlds, t.1, RestoreAll(c, t.0, recs[1..], worlds[1..]).1);
      }
    }
  }

  lemma OneMoreReached(recs: seq<Record>, worlds: seq<World>, ok: bool, rest: seq<bool>)
    requires 0 < |recs| == |worlds| && |rest| < |recs|
    requires recs[1..] != [] ==> rest != []
    requires forall i: nat :: i < |rest| - 1 ==> GoesOn(recs[1..], worlds[1..], rest, i)
    requires rest != [] && |rest| < |recs| - 1 ==> !GoesOn(recs[1..], worlds[1..], rest, |rest| - 1)
    requires ok || CleansUp(recs[0], worlds[0])
    ensures var flags := [ok] + rest;
      && (forall i: nat :: i < |flags| - 1 ==> GoesOn(recs, worlds, flags, i))
      && (|flags| < |recs| ==> !GoesOn(recs, worlds, flags, |flags| - 1))
  {
    var flags := [ok] + rest;
    forall i: nat | 0 < i < |flags| ensures GoesOn(recs, worlds, flags, i) <==> GoesOn(recs[1..], worlds[1..], rest, i - 1) {
      assert flags[i] == rest[i - 1] && recs[i] == recs[1..][i - 1] && worlds[i] == worlds[1..][i - 1];
    }
  }
}
