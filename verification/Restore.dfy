/** What a restore keeps: conservation record by record, exclusivity, and the round trip through the persisted form. */
module Restore {
  import opened PyLists
  import opened Vms
  import opened AllocatorSpec
  import opened RestoreSpec
  import opened MapSums
  import Ledger

  lemma PortCountMismatch(p: Pools, gpus: multiset<Device>, macs: multiset<string>)
    requires |p.ports| != |p.vms|
    ensures !Conserved(p, gpus, macs)
  {
    PortPerVm(p.vms);
    assert |multiset(p.ports)| == |p.ports|;
  }

  /** A MAC address that the record names twice but the pool has once is found out too late. */
  lemma MissingMacLoses(c: Config, p: Pools, rec: Record, world: World, gpus: multiset<Device>, macs: multiset<string>)
    requires Conserved(p, gpus, macs) && Passes(c, p, rec, world)
    requires !(multiset(Macs(rec.nets.value)) <= multiset(p.macs))
    ensures !TryRestore(c, p, rec, world).1 && !Conserved(TryRestore(c, p, rec, world).0, gpus, macs)
  {
    var items := Macs(rec.nets.value);
    RemoveEachExactly(p.macs, items);
    assert NetworkPasses(c, p, rec.nets.value[0], world.dhcp(0)) by { assert |items| > 0; }
    RemoveEachShrinks(p.macs, items);
    FewerIsUnbalanced(RemoveEach(p.macs, items).0, p.macs, HeldMacs(p.vms));
  }

  lemma MissingGpuLoses(c: Config, p: Pools, rec: Record, world: World, gpus: multiset<Device>, macs: multiset<string>)
    requires Conserved(p, gpus, macs) && Passes(c, p, rec, world)
    requires multiset(Macs(rec.nets.value)) <= multiset(p.macs)
    requires !(multiset(LookupAll(p.gpus, rec.pcis).value) <= multiset(p.gpus))
    ensures !TryRestore(c, p, rec, world).1 && !Conserved(TryRestore(c, p, rec, world).0, gpus, macs)
  {
    var items := LookupAll(p.gpus, rec.pcis).value;
    RemoveEachExactly(p.macs, Macs(rec.nets.value));
    RemoveEachExactly(p.gpus, items);
    LookupAllFinds(p.gpus, rec.pcis);
    assert items[0] in p.gpus by { assert |items| > 0; }
    RemoveEachShrinks(p.gpus, items);
    FewerIsUnbalanced(RemoveEach(p.gpus, items).0, p.gpus, HeldGpus(p.vms));
  }

  /** With the devices taken, a record that cannot become a VM under a free name leaves its port listed for nobody. */
  lemma LatecomerLoses(c: Config, p: Pools, rec: Record, world: World, gpus: multiset<Device>, macs: multiset<string>)
    requires Conserved(p, gpus, macs) && Passes(c, p, rec, world)
    requires multiset(Macs(rec.nets.value)) <= multiset(p.macs)
    requires multiset(LookupAll(p.gpus, rec.pcis).value) <= multiset(p.gpus)
    requires !rec.complete || rec.name in p.vms
    ensures TryRestore(c, p, rec, world).1 == rec.complete && !Conserved(TryRestore(c, p, rec, world).0, gpus, macs)
  {
    ListedPortsCount(p, gpus, macs);
    LatecomerShape(c, p, rec, world);
    PortCountMismatch(TryRestore(c, p, rec, world).0, gpus, macs);
  }

  lemma LatecomerShape(c: Config, p: Pools, rec: Record, world: World)
    requires Passes(c, p, rec, world)
    requires multiset(Macs(rec.nets.value)) <= multiset(p.macs)
    requires multiset(LookupAll(p.gpus, rec.pcis).value) <= multiset(p.gpus)
    requires !rec.complete || rec.name in p.vms
    ensures var (q, ok) := TryRestore(c, p, rec, world);
      ok == rec.complete && |q.ports| == |p.ports| + 1 && |q.vms| == |p.vms|
  {
    RemoveEachExactly(p.macs, Macs(rec.nets.value));
    RemoveEachExactly(p.gpus, LookupAll(p.gpus, rec.pcis).value);
    var q := TryRestore(c, p, rec, world).0;
    assert q.vms.Keys == p.vms.Keys;
  }

  lemma TakenIsHeld<T(!new)>(left: multiset<T>, pool: multiset<T>, taken: multiset<T>, held: multiset<T>)
    requires taken <= pool && left == pool - taken
    ensures left + (held + taken) == pool + held
  {
    forall x ensures (left + (held + taken))[x] == (pool + held)[x] {
      assert taken[x] <= pool[x];
    }
  }

  lemma SoundIsRestored(c: Config, p: Pools, rec: Record, world: World, gpus: multiset<Device>, macs: multiset<string>)
    requires Conserved(p, gpus, macs) && Passes(c, p, rec, world) && Sound(p, rec)
    ensures TryRestore(c, p, rec, world).1 && Conserved(TryRestore(c, p, rec, world).0, gpus, macs)
  {
    var nets, devices := rec.nets.value, LookupAll(p.gpus, rec.pcis).value;
    var q := TryRestore(c, p, rec, world).0;
    var vm := Vm(p.nextId, rec.name, devices, nets, rec.port);
    RemoveEachExactly(p.macs, Macs(nets));
    RemoveEachExactly(p.gpus, devices);
    HeldWith(p.vms, rec.name, vm);
    TakenIsHeld(multiset(q.gpus), multiset(p.gpus), GpusOf(vm), HeldGpus(p.vms));
    TakenIsHeld(multiset(q.macs), multiset(p.macs), MacsOf(vm), HeldMacs(p.vms));
  }

  /** Restoring one record keeps conservation if and only if the record failed the checks, or is sound. */
  lemma RecordExactly(c: Config, p: Pools, rec: Record, world: World, gpus: multiset<Device>, macs: multiset<string>)
    requires Conserved(p, gpus, macs)
    ensures Conserved(TryRestore(c, p, rec, world).0, gpus, macs) <==> (Passes(c, p, rec, world) ==> Sound(p, rec))
    ensures Passes(c, p, rec, world) && Sound(p, rec) ==> TryRestore(c, p, rec, world).1
  {
    if Passes(c, p, rec, world) {
      if !(multiset(Macs(rec.nets.value)) <= multiset(p.macs)) {
        MissingMacLoses(c, p, rec, world, gpus, macs);
      } else if !(multiset(LookupAll(p.gpus, rec.pcis).value) <= multiset(p.gpus)) {
        MissingGpuLoses(c, p, rec, world, gpus, macs);
      } else if !rec.complete || rec.name in p.vms {
        LatecomerLoses(c, p, rec, world, gpus, macs);
      } else {
        SoundIsRestored(c, p, rec, world, gpus, macs);
      }
    }
  }

  /** No duplicates inside the record, and nothing missing from it. */
  predicate WellFormed(rec: Record) {
    Distinct(rec.pcis) && (rec.nets.Some? ==> Distinct(Macs(rec.nets.value))) && rec.complete
  }

  lemma WellFormedIsSound(c: Config, p: Pools, rec: Record, world: World)
    requires WellFormed(rec) && Passes(c, p, rec, world) && rec.name !in p.vms
    ensures Sound(p, rec)
  {
    var nets, devices := rec.nets.value, LookupAll(p.gpus, rec.pcis).value;
    LookupAllFinds(p.gpus, rec.pcis);
    assert forall i, j :: 0 <= i < j < |devices| ==> devices[i] != devices[j] by {
      assert forall i :: 0 <= i < |devices| ==> devices[i].fullAddress == rec.pcis[i];
    }
    forall x | x in devices ensures x in p.gpus {}
    SubmultisetWhenDistinct(devices, p.gpus);
    forall x | x in Macs(nets) ensures x in p.macs {
      var i :| 0 <= i < |nets| && Macs(nets)[i] == x;
      assert NetworkPasses(c, p, nets[i], world.dhcp(i));
    }
    SubmultisetWhenDistinct(Macs(nets), p.macs);
  }

  /** A failed record leaves the VMs alone; a restored one is filed under its name. */
  lemma RestoreShape(c: Config, p: Pools, rec: Record, world: World)
    ensures var (q, ok) := TryRestore(c, p, rec, world);
      q.vms == if ok then p.vms[rec.name := Vm(p.nextId, rec.name, LookupAll(p.gpus, rec.pcis).value, rec.nets.value, rec.port)] else p.vms
    ensures var (q, ok) := TryRestore(c, p, rec, world);
      (ok ==> Passes(c, p, rec, world)) && (!Passes(c, p, rec, world) ==> q == p)
  {
  }

  /** A well-formed record either fails and changes nothing, or becomes a VM; conservation holds either way. */
  lemma WellFormedRecord(c: Config, p: Pools, rec: Record, world: World, gpus: multiset<Device>, macs: multiset<string>)
    requires Conserved(p, gpus, macs) && WellFormed(rec) && rec.name !in p.vms
    ensures Conserved(TryRestore(c, p, rec, world).0, gpus, macs)
    ensures TryRestore(c, p, rec, world).1 <==> Passes(c, p, rec, world)
    ensures !TryRestore(c, p, rec, world).1 ==> TryRestore(c, p, rec, world).0 == p
  {
    if Passes(c, p, rec, world) {
      WellFormedIsSound(c, p, rec, world);
      SoundIsRestored(c, p, rec, world, gpus, macs);
    }
  }

  predicate FreshNames(recs: seq<Record>, taken: set<string>) {
    && (forall i, j :: 0 <= i < j < |recs| ==> recs[i].name != recs[j].name)
    && (forall i :: 0 <= i < |recs| ==> recs[i].name !in taken)
  }

  lemma NamesStayFresh(c: Config, p: Pools, recs: seq<Record>, world: World)
    requires recs != [] && FreshNames(recs, p.vms.Keys)
    ensures FreshNames(recs[1..], TryRestore(c, p, recs[0], world).0.vms.Keys)
  {
    RestoreShape(c, p, recs[0], world);
  }

  /** Over any list of well-formed records with fresh names, free plus held stays what was configured. */
  lemma {:induction false} RestoreConserves(c: Config, p: Pools, recs: seq<Record>, worlds: seq<World>, gpus: multiset<Device>, macs: multiset<string>)
    requires Conserved(p, gpus, macs) && |recs| == |worlds|
    requires FreshNames(recs, p.vms.Keys) && forall i :: 0 <= i < |recs| ==> WellFormed(recs[i])
    ensures Conserved(RestoreAll(c, p, recs, worlds).0, gpus, macs)
    decreases |recs|
  {
    if recs != [] {
      WellFormedRecord(c, p, recs[0], worlds[0], gpus, macs);
      NamesStayFresh(c, p, recs, worlds[0]);
      var (q, ok) := TryRestore(c, p, recs[0], worlds[0]);
      if ok || CleansUp(recs[0], worlds[0]) {
        RestoreConserves(c, q, recs[1..], worlds[1..], gpus, macs);
      }
    }
  }

  // ----- two records that claim one device

  predicate Claims(rec: Record, mac: string) {
    rec.nets.Some? && mac in Macs(rec.nets.value)
  }

  lemma RestoreOnlyTakes(c: Config, p: Pools, rec: Record, world: World)
    ensures multiset(TryRestore(c, p, rec, world).0.macs) <= multiset(p.macs)
    ensures multiset(TryRestore(c, p, rec, world).0.gpus) <= multiset(p.gpus)
  {
    if Passes(c, p, rec, world) {
      RemoveEachShrinks(p.macs, Macs(rec.nets.value));
      RemoveEachShrinks(p.gpus, LookupAll(p.gpus, rec.pcis).value);
    }
  }

  lemma ClaimOfMissingMacFails(c: Config, p: Pools, rec: Record, world: World, mac: string)
    requires mac !in p.macs && Claims(rec, mac)
    ensures !Passes(c, p, rec, world)
  {
    var nets := rec.nets.value;
    var i :| 0 <= i < |nets| && Macs(nets)[i] == mac;
    assert !NetworkPasses(c, p, nets[i], world.dhcp(i));
  }

  lemma ClaimOfMissingGpuFails(c: Config, p: Pools, rec: Record, world: World, address: string)
    requires (forall d <- p.gpus :: d.fullAddress != address) && address in rec.pcis
    ensures !Passes(c, p, rec, world)
  {
    LookupAllFinds(p.gpus, rec.pcis);
  }

  lemma {:induction false} MissingMacIsNeverRestored(c: Config, p: Pools, recs: seq<Record>, worlds: seq<World>, mac: string)
    requires |recs| == |worlds| && mac !in p.macs
    ensures var flags := RestoreAll(c, p, recs, worlds).1;
      forall j :: 0 <= j < |flags| && Claims(recs[j], mac) ==> !flags[j]
    decreases |recs|
  {
    if recs != [] {
      var (q, ok) := TryRestore(c, p, recs[0], worlds[0]);
      if Claims(recs[0], mac) { ClaimOfMissingMacFails(c, p, recs[0], worlds[0], mac); }
      RestoreOnlyTakes(c, p, recs[0], worlds[0]);
      assert multiset(q.macs)[mac] <= multiset(p.macs)[mac] == 0;
      if ok || CleansUp(recs[0], worlds[0]) { MissingMacIsNeverRestored(c, q, recs[1..], worlds[1..], mac); }
    }
  }

  lemma {:induction false} MissingGpuIsNeverRestored(c: Config, p: Pools, recs: seq<Record>, worlds: seq<World>, address: string)
    requires |recs| == |worlds| && forall d <- p.gpus :: d.fullAddress != address
    ensures var flags := RestoreAll(c, p, recs, worlds).1;
      forall j :: 0 <= j < |flags| && address in recs[j].pcis ==> !flags[j]
    decreases |recs|
  {
    if recs != [] {
      var (q, ok) := TryRestore(c, p, recs[0], worlds[0]);
      if address in recs[0].pcis { ClaimOfMissingGpuFails(c, p, recs[0], worlds[0], address); }
      RestoreOnlyTakes(c, p, recs[0], worlds[0]);
      assert forall d <- q.gpus :: d in multiset(q.gpus) && d in multiset(p.gpus);
      if ok || CleansUp(recs[0], worlds[0]) { MissingGpuIsNeverRestored(c, q, recs[1..], worlds[1..], address); }
    }
  }

  ghost predicate AtMostOnce<T(!new)>(pool: seq<T>) {
    forall x :: multiset(pool)[x] <= 1
  }

  /** A PCI address belongs to one device. */
  predicate AddressesIdentify(gpus: seq<Device>) {
    forall d <- gpus, e <- gpus :: d.fullAddress == e.fullAddress ==> d == e
  }

  predicate ShareDevice(a: Record, b: Record) {
    (a.nets.Some? && exists m <- Macs(a.nets.value) :: Claims(b, m)) || (exists g <- a.pcis :: g in b.pcis)
  }

  lemma RestoredMacIsGone(c: Config, p: Pools, rec: Record, world: World, mac: string)
    requires AtMostOnce(p.macs) && Claims(rec, mac) && TryRestore(c, p, rec, world).1
    ensures mac !in TryRestore(c, p, rec, world).0.macs
  {
    RemoveEachExactly(p.macs, Macs(rec.nets.value));
    assert multiset(Macs(rec.nets.value))[mac] >= 1 >= multiset(p.macs)[mac];
  }

  lemma RestoredTakesDevices(c: Config, p: Pools, rec: Record, world: World)
    requires TryRestore(c, p, rec, world).1
    ensures multiset(TryRestore(c, p, rec, world).0.gpus) == multiset(p.gpus) - multiset(LookupAll(p.gpus, rec.pcis).value)
  {
    RemoveEachExactly(p.gpus, LookupAll(p.gpus, rec.pcis).value);
  }

  lemma RestoredGpuIsGone(c: Config, p: Pools, rec: Record, world: World, address: string)
    requires AtMostOnce(p.gpus) && AddressesIdentify(p.gpus) && address in rec.pcis && TryRestore(c, p, rec, world).1
    ensures forall d <- TryRestore(c, p, rec, world).0.gpus :: d.fullAddress != address
  {
    var items := LookupAll(p.gpus, rec.pcis).value;
    var left := TryRestore(c, p, rec, world).0.gpus;
    RestoredTakesDevices(c, p, rec, world);
    LookupAllFinds(p.gpus, rec.pcis);
    var i :| 0 <= i < |rec.pcis| && rec.pcis[i] == address;
    GoneWhenTaken(multiset(left), multiset(p.gpus), multiset(items), items[i]);
    AddressIsGone(left, p.gpus, items[i]);
  }

  lemma AddressIsGone(left: seq<Device>, pool: seq<Device>, taken: Device)
    requires AddressesIdentify(pool) && taken in pool
    requires taken !in multiset(left) && forall d <- multiset(left) :: d in multiset(pool)
    ensures forall d <- left :: d.fullAddress != taken.fullAddress
  {
    forall d | d in left ensures d.fullAddress != taken.fullAddress {
      assert d in multiset(left) && d in pool;
    }
  }

  lemma GoneWhenTaken<T(!new)>(left: multiset<T>, pool: multiset<T>, taken: multiset<T>, x: T)
    requires left == pool - taken && x in taken && pool[x] <= 1
    ensures x !in left && forall y <- left :: y in pool
  {
  }

  lemma PoolsStayIdentified(c: Config, p: Pools, rec: Record, world: World)
    requires AtMostOnce(p.macs) && AtMostOnce(p.gpus) && AddressesIdentify(p.gpus)
    ensures var q := TryRestore(c, p, rec, world).0;
      AtMostOnce(q.macs) && AtMostOnce(q.gpus) && AddressesIdentify(q.gpus)
  {
    RestoreOnlyTakes(c, p, rec, world);
    var q := TryRestore(c, p, rec, world).0;
    forall x ensures multiset(q.macs)[x] <= 1 { assert multiset(q.macs)[x] <= multiset(p.macs)[x]; }
    forall x ensures multiset(q.gpus)[x] <= 1 { assert multiset(q.gpus)[x] <= multiset(p.gpus)[x]; }
    assert forall d <- q.gpus :: d in multiset(q.gpus) && d in multiset(p.gpus);
  }

  lemma LaterFlag(c: Config, p: Pools, recs: seq<Record>, worlds: seq<World>, j: nat)
    requires |recs| == |worlds| && 0 < j < |RestoreAll(c, p, recs, worlds).1|
    ensures var rest := RestoreAll(c, TryRestore(c, p, recs[0], worlds[0]).0, recs[1..], worlds[1..]).1;
      j - 1 < |rest| && RestoreAll(c, p, recs, worlds).1[j] == rest[j - 1]
  {
    var t := TryRestore(c, p, recs[0], worlds[0]);
    var rest := RestoreAll(c, t.0, recs[1..], worlds[1..]).1;
    if t.1 || CleansUp(recs[0], worlds[0]) {
      assert RestoreAll(c, p, recs, worlds).1 == [t.1] + rest;
    }
  }

  /** Two records that claim one device are never both restored. */
  lemma {:induction false} NeverBoth(c: Config, p: Pools, recs: seq<Record>, worlds: seq<World>, i: nat, j: nat)
    requires |recs| == |worlds| && AtMostOnce(p.macs) && AtMostOnce(p.gpus) && AddressesIdentify(p.gpus)
    requires i < j < |RestoreAll(c, p, recs, worlds).1| && ShareDevice(recs[i], recs[j])
    ensures !(RestoreAll(c, p, recs, worlds).1[i] && RestoreAll(c, p, recs, worlds).1[j])
    decreases i
  {
    var q := TryRestore(c, p, recs[0], worlds[0]).0;
    if i > 0 {
      LaterFlag(c, p, recs, worlds, i);
      LaterFlag(c, p, recs, worlds, j);
      PoolsStayIdentified(c, p, recs[0], worlds[0]);
      NeverBoth(c, q, recs[1..], worlds[1..], i - 1, j - 1);
    } else if TryRestore(c, p, recs[0], worlds[0]).1 {
      FirstExcludes(c, p, recs, worlds, j);
    }
  }

  lemma FirstExcludes(c: Config, p: Pools, recs: seq<Record>, worlds: seq<World>, j: nat)
    requires |recs| == |worlds| && AtMostOnce(p.macs) && AtMostOnce(p.gpus) && AddressesIdentify(p.gpus)
    requires 0 < j < |RestoreAll(c, p, recs, worlds).1| && ShareDevice(recs[0], recs[j])
    requires TryRestore(c, p, recs[0], worlds[0]).1
    ensures !RestoreAll(c, p, recs, worlds).1[j]
  {
    var q := TryRestore(c, p, recs[0], worlds[0]).0;
    LaterFlag(c, p, recs, worlds, j);
    if m :| Claims(recs[0], m) && Claims(recs[j], m) {
      RestoredMacIsGone(c, p, recs[0], worlds[0], m);
      MissingMacIsNeverRestored(c, q, recs[1..], worlds[1..], m);
    } else {
      var g :| g in recs[0].pcis && g in recs[j].pcis;
      RestoredGpuIsGone(c, p, recs[0], worlds[0], g);
      MissingGpuIsNeverRestored(c, q, recs[1..], worlds[1..], g);
    }
  }

  // ----- the round trip

  function Addresses(gpus: seq<Device>): (r: seq<string>)
    ensures |r| == |gpus|
  {
    seq(|gpus|, i requires 0 <= i < |gpus| => gpus[i].fullAddress)
  }

  /**
  The record read back for a live VM: GPUs by address, the port as text, and no `net_ifaces` key at all when
  the VM has no interface, since an empty list leaves no trace in XML.
  */
  function Persist(vm: Vm): Record {
    Record(vm.name, Addresses(vm.pcis), if vm.nets == [] then None else Some(vm.nets), Render(vm.port), true)
  }

  function PersistAll(vms: seq<Vm>): (r: seq<Record>)
    ensures |r| == |vms| && forall i :: 0 <= i < |vms| ==> r[i] == Persist(vms[i])
  {
    seq(|vms|, i requires 0 <= i < |vms| => Persist(vms[i]))
  }

  /** Storage is there, and DHCP answers with nothing worse than timeouts. */
  ghost predicate Benign(world: World) {
    world.storageValid && forall i: nat :: !RenewalFails(world.dhcp(i))
  }

  ghost predicate SourcesValid(c: Config, vm: Vm) {
    forall net <- vm.nets :: net.source == c.bridgeDevice || net.source == c.privateNetwork
  }

  ghost predicate AllBenign(c: Config, vms: seq<Vm>, worlds: seq<World>)
    requires |vms| == |worlds|
  {
    forall i :: 0 <= i < |vms| ==> Benign(worlds[i]) && SourcesValid(c, vms[i])
  }

  lemma AllBenignRest(c: Config, vms: seq<Vm>, worlds: seq<World>)
    requires |vms| == |worlds| && vms != [] && AllBenign(c, vms, worlds)
    ensures Benign(worlds[0]) && SourcesValid(c, vms[0]) && AllBenign(c, vms[1..], worlds[1..])
  {
    forall i | 0 <= i < |vms[1..]| ensures Benign(worlds[1..][i]) && SourcesValid(c, vms[1..][i]) {
      assert worlds[1..][i] == worlds[i + 1] && vms[1..][i] == vms[i + 1];
    }
  }

  ghost predicate RestoredAs(was: Vm, now: Vm) {
    now.name == was.name && now.pcis == was.pcis && now.nets == was.nets && now.port == Render(was.port)
  }

  lemma {:induction false} LookupOwn(gpus: seq<Device>, own: seq<Device>)
    requires AddressesIdentify(gpus) && forall d <- own :: d in gpus
    ensures LookupAll(gpus, Addresses(own)) == Some(own)
  {
    if own != [] {
      LookupFinds(gpus, own[0].fullAddress);
      assert Addresses(own)[1..] == Addresses(own[1..]);
      assert own == [own[0]] + own[1..];
      LookupOwn(gpus, own[1..]);
    }
  }

  /** A record of a VM whose devices are all free is restored exactly when the VM has an interface. */
  lemma PersistedVmIsRestored(c: Config, p: Pools, vm: Vm, world: World, gpus: multiset<Device>, macs: multiset<string>)
    requires Conserved(p, gpus, macs) && AddressesIdentify(p.gpus) && vm.name !in p.vms
    requires GpusOf(vm) <= multiset(p.gpus) && MacsOf(vm) <= multiset(p.macs)
    requires Benign(world) && SourcesValid(c, vm)
    ensures var (q, ok) := TryRestore(c, p, Persist(vm), world);
      && (ok <==> vm.nets != [])
      && Conserved(q, gpus, macs)
      && (!ok ==> q == p)
      && (ok ==> vm.name in q.vms && RestoredAs(vm, q.vms[vm.name]) && q.vms == p.vms[vm.name := q.vms[vm.name]])
      && (ok ==> multiset(q.gpus) == multiset(p.gpus) - GpusOf(vm) && multiset(q.macs) == multiset(p.macs) - MacsOf(vm))
  {
    var rec := Persist(vm);
    assert forall d <- vm.pcis :: d in multiset(vm.pcis) && d in multiset(p.gpus);
    LookupOwn(p.gpus, vm.pcis);
    if vm.nets != [] {
      forall i: nat | i < |vm.nets| ensures NetworkPasses(c, p, vm.nets[i], world.dhcp(i)) {
        assert Macs(vm.nets)[i] in multiset(Macs(vm.nets)) && Macs(vm.nets)[i] in multiset(p.macs);
        assert vm.nets[i] in vm.nets;
      }
      SoundIsRestored(c, p, rec, world, gpus, macs);
      RemoveEachExactly(p.macs, Macs(vm.nets));
      RemoveEachExactly(p.gpus, vm.pcis);
    }
  }

  /** `vms` lists the values of `live` once each. */
  ghost predicate Lists(vms: seq<Vm>, live: map<string, Vm>) {
    && (forall i :: 0 <= i < |vms| ==> vms[i].name in live && live[vms[i].name] == vms[i])
    && (forall i, j :: 0 <= i < j < |vms| ==> vms[i].name != vms[j].name)
    && (forall k <- live :: exists i :: 0 <= i < |vms| && vms[i].name == k)
  }

  ghost predicate Available(live: map<string, Vm>, q: Pools) {
    HeldGpus(live) <= multiset(q.gpus) && HeldMacs(live) <= multiset(q.macs)
  }

  lemma ListsRest(vms: seq<Vm>, live: map<string, Vm>)
    requires vms != [] && Lists(vms, live)
    ensures Lists(vms[1..], live - {vms[0].name})
  {
    var rest := live - {vms[0].name};
    forall k <- rest ensures exists i :: 0 <= i < |vms[1..]| && vms[1..][i].name == k {
      var i :| 0 <= i < |vms| && vms[i].name == k;
      assert vms[1..][i - 1].name == k;
    }
  }

  lemma AvailableRest(live: map<string, Vm>, q: Pools, k: string)
    requires k in live && Available(live, q)
    ensures GpusOf(live[k]) <= multiset(q.gpus) && MacsOf(live[k]) <= multiset(q.macs)
    ensures HeldGpus(live - {k}) <= multiset(q.gpus) - GpusOf(live[k])
    ensures HeldMacs(live - {k}) <= multiset(q.macs) - MacsOf(live[k])
    ensures Available(live - {k}, q)
  {
    HeldWithout(live, k);
    WithinRemainder(GpusOf(live[k]), HeldGpus(live - {k}), multiset(q.gpus));
    WithinRemainder(MacsOf(live[k]), HeldMacs(live - {k}), multiset(q.macs));
  }

  lemma WithinRemainder<T(!new)>(a: multiset<T>, b: multiset<T>, pool: multiset<T>)
    requires a + b <= pool
    ensures a <= pool && b <= pool - a && b <= pool
  {
    forall x ensures a[x] <= pool[x] && b[x] <= (pool - a)[x] && b[x] <= pool[x] {
      assert (a + b)[x] <= pool[x];
    }
  }

  /** The first VM without an interface, or the end of the list. */
  function FirstBare(vms: seq<Vm>): (r: nat)
    ensures r <= |vms|
    ensures (forall i :: 0 <= i < r ==> vms[i].nets != []) && (r < |vms| ==> vms[r].nets == [])
  {
    if vms == [] || vms[0].nets == [] then 0 else 1 + FirstBare(vms[1..])
  }

  /** `after` is `before` plus the listed VMs, each with what it held. */
  ghost predicate RestoredFrom(vms: seq<Vm>, before: map<string, Vm>, after: map<string, Vm>) {
    && (forall k :: k in after <==> k in before || Names(vms, k))
    && (forall k <- before :: k in after && after[k] == before[k])
    && (forall i :: 0 <= i < |vms| ==> vms[i].name in after && RestoredAs(vms[i], after[vms[i].name]))
  }

  ghost predicate Names(vms: seq<Vm>, k: string) {
    exists i :: 0 <= i < |vms| && vms[i].name == k
  }

  lemma NamesSplit(vms: seq<Vm>, k: string)
    requires vms != []
    ensures Names(vms, k) <==> vms[0].name == k || Names(vms[1..], k)
  {
    if i :| 0 <= i < |vms| && vms[i].name == k && i > 0 {
      assert vms[1..][i - 1].name == k;
    }
    if i :| 0 <= i < |vms[1..]| && vms[1..][i].name == k {
      assert vms[i + 1].name == k;
    }
  }

  lemma RestoredFromRest(vms: seq<Vm>, before: map<string, Vm>, mid: map<string, Vm>, after: map<string, Vm>)
    requires vms != [] && vms[0].name !in before
    requires OneRestored(before, vms[0], mid) && RestoredFrom(vms[1..], mid, after)
    ensures RestoredFrom(vms, before, after)
  {
    forall k ensures k in after <==> k in before || Names(vms, k) {
      NamesSplit(vms, k);
    }
    forall i | 0 <= i < |vms| ensures vms[i].name in after && RestoredAs(vms[i], after[vms[i].name]) {
      if i > 0 {
        assert vms[1..][i - 1] == vms[i];
      }
    }
  }

  /** What happens to the rest of the list once the first VM is dealt with. */
  lemma PersistedStep(c: Config, q: Pools, vms: seq<Vm>, worlds: seq<World>)
    requires vms != [] && |vms| == |worlds|
    ensures var (q', ok) := TryRestore(c, q, Persist(vms[0]), worlds[0]);
      var all := RestoreAll(c, q, PersistAll(vms), worlds);
      var rest := RestoreAll(c, q', PersistAll(vms[1..]), worlds[1..]);
      && (ok ==> all.0 == rest.0 && all.1 == [true] + rest.1)
      && (!ok && vms[0].nets == [] ==> all == (q', [false]))
  {
    assert PersistAll(vms)[1..] == PersistAll(vms[1..]);
    assert PersistAll(vms)[0] == Persist(vms[0]);
  }

  ghost predicate ReadyFor(c: Config, q: Pools, live: map<string, Vm>) {
    AddressesIdentify(q.gpus) && Available(live, q) && live.Keys !! q.vms.Keys
  }

  /** One live VM's record was restored. */
  ghost predicate OneRestored(before: map<string, Vm>, vm: Vm, after: map<string, Vm>) {
    vm.name in after && after == before[vm.name := after[vm.name]] && RestoredAs(vm, after[vm.name])
  }

  lemma StillReady(c: Config, q: Pools, q': Pools, live: map<string, Vm>, vm: Vm)
    requires ReadyFor(c, q, live) && vm.name in live && live[vm.name] == vm && OneRestored(q.vms, vm, q'.vms)
    requires multiset(q'.gpus) == multiset(q.gpus) - GpusOf(vm) && multiset(q'.macs) == multiset(q.macs) - MacsOf(vm)
    ensures ReadyFor(c, q', live - {vm.name})
  {
    AvailableRest(live, q, vm.name);
    StillIdentified(q.gpus, q'.gpus);
  }

  lemma StillIdentified(before: seq<Device>, after: seq<Device>)
    requires AddressesIdentify(before) && multiset(after) <= multiset(before)
    ensures AddressesIdentify(after)
  {
    forall d | d in after ensures d in before {
      assert d in multiset(after);
    }
  }

  lemma RestoreOneLive(c: Config, q: Pools, vm: Vm, world: World, live: map<string, Vm>, gpus: multiset<Device>, macs: multiset<string>)
    requires Conserved(q, gpus, macs) && ReadyFor(c, q, live) && vm.nets != []
    requires vm.name in live && live[vm.name] == vm && Benign(world) && SourcesValid(c, vm)
    ensures var (q', ok) := TryRestore(c, q, Persist(vm), world);
      ok && Conserved(q', gpus, macs) && ReadyFor(c, q', live - {vm.name}) && OneRestored(q.vms, vm, q'.vms)
  {
    AvailableRest(live, q, vm.name);
    PersistedVmIsRestored(c, q, vm, world, gpus, macs);
    StillReady(c, q, TryRestore(c, q, Persist(vm), world).0, live, vm);
  }

  /** The flags of a restore that succeeds for the first `n` records and is cut short by the next one, if there is one. */
  predicate CutAt(flags: seq<bool>, n: nat, total: nat) {
    && |flags| == (if n < total then n + 1 else n)
    && (forall i :: 0 <= i < |flags| ==> (flags[i] <==> i < n))
  }

  /** The restore went through the VMs up to the first one without an interface, and ended there. */
  ghost predicate Recovered(vms: seq<Vm>, before: map<string, Vm>, r: (Pools, seq<bool>)) {
    RestoredFrom(vms[..FirstBare(vms)], before, r.0.vms) && CutAt(r.1, FirstBare(vms), |vms|)
  }

  lemma RecoveredFirst(vms: seq<Vm>, before: map<string, Vm>, mid: map<string, Vm>, r: (Pools, seq<bool>), rest: (Pools, seq<bool>))
    requires vms != [] && vms[0].nets != [] && vms[0].name !in before
    requires OneRestored(before, vms[0], mid) && Recovered(vms[1..], mid, rest)
    requires r == (rest.0, [true] + rest.1)
    ensures Recovered(vms, before, r)
  {
    var prefix := vms[..FirstBare(vms)];
    assert prefix[1..] == vms[1..][..FirstBare(vms[1..])];
    RestoredFromRest(prefix, before, mid, r.0.vms);
  }

  lemma RecoveredNothing(vms: seq<Vm>, before: map<string, Vm>, r: (Pools, seq<bool>))
    requires vms == [] || vms[0].nets == []
    requires r.0.vms == before && r.1 == if vms == [] then [] else [false]
    ensures Recovered(vms, before, r)
  {
  }

  lemma {:induction false} RestoreLive(c: Config, q: Pools, vms: seq<Vm>, worlds: seq<World>, live: map<string, Vm>,
                                       gpus: multiset<Device>, macs: multiset<string>)
    requires Conserved(q, gpus, macs) && ReadyFor(c, q, live) && |vms| == |worlds| && Lists(vms, live)
    requires AllBenign(c, vms, worlds)
    ensures Conserved(RestoreAll(c, q, PersistAll(vms), worlds).0, gpus, macs)
    ensures Recovered(vms, q.vms, RestoreAll(c, q, PersistAll(vms), worlds))
    decreases |vms|
  {
    if vms == [] {
      RecoveredNothing(vms, q.vms, RestoreAll(c, q, PersistAll(vms), worlds));
    } else {
      AllBenignRest(c, vms, worlds);
      PersistedStep(c, q, vms, worlds);
      if vms[0].nets != [] {
        RestoreLiveFirst(c, q, vms, worlds, live, gpus, macs);
      } else {
        AvailableRest(live, q, vms[0].name);
        PersistedVmIsRestored(c, q, vms[0], worlds[0], gpus, macs);
        RecoveredNothing(vms, q.vms, RestoreAll(c, q, PersistAll(vms), worlds));
      }
    }
  }

  lemma {:induction false} RestoreLiveFirst(c: Config, q: Pools, vms: seq<Vm>, worlds: seq<World>, live: map<string, Vm>,
                                            gpus: multiset<Device>, macs: multiset<string>)
    requires Conserved(q, gpus, macs) && ReadyFor(c, q, live) && |vms| == |worlds| && Lists(vms, live)
    requires AllBenign(c, vms, worlds) && vms != [] && vms[0].nets != []
    ensures Conserved(RestoreAll(c, q, PersistAll(vms), worlds).0, gpus, macs)
    ensures Recovered(vms, q.vms, RestoreAll(c, q, PersistAll(vms), worlds))
    decreases |vms|, 0
  {
    AllBenignRest(c, vms, worlds);
    PersistedStep(c, q, vms, worlds);
    RestoreOneLive(c, q, vms[0], worlds[0], live, gpus, macs);
    ListsRest(vms, live);
    var q' := TryRestore(c, q, Persist(vms[0]), worlds[0]).0;
    RestoreLive(c, q', vms[1..], worlds[1..], live - {vms[0].name}, gpus, macs);
    RecoveredFirst(vms, q.vms, q'.vms, RestoreAll(c, q, PersistAll(vms), worlds), RestoreAll(c, q', PersistAll(vms[1..]), worlds[1..]));
  }

  /** A freshly started allocator with the same configured devices. */
  ghost predicate FreshStart(q: Pools, gpus: multiset<Device>, macs: multiset<string>) {
    multiset(q.gpus) == gpus && multiset(q.macs) == macs && q.ports == [] && q.vms == map[]
  }

  lemma FreshIsConserved(q: Pools, gpus: multiset<Device>, macs: multiset<string>)
    requires FreshStart(q, gpus, macs)
    ensures Conserved(q, gpus, macs)
  {
    HeldByNone();
  }

  /** Equal holdings and equal totals leave equal free pools. */
  lemma SameFreePools(p: Pools, r: Pools, gpus: multiset<Device>, macs: multiset<string>)
    requires Conserved(p, gpus, macs) && Conserved(r, gpus, macs)
    requires r.vms.Keys == p.vms.Keys && forall k <- p.vms :: RestoredAs(p.vms[k], r.vms[k])
    ensures multiset(r.gpus) == multiset(p.gpus) && multiset(r.macs) == multiset(p.macs)
  {
    TotalDependsOnParts(p.vms, r.vms, GpusOf);
    TotalDependsOnParts(p.vms, r.vms, MacsOf);
    Ledger.Cancel(multiset(r.gpus), multiset(p.gpus), HeldGpus(p.vms));
    Ledger.Cancel(multiset(r.macs), multiset(p.macs), HeldMacs(p.vms));
  }

  /**
  The crash-recovery round trip. A fresh allocator that reads back another one's live VMs conserves the
  devices and ends with exactly those VMs that are listed before the first one without an interface, each
  holding what it held; that one ends the restore. So the restore completes if and only if every VM has an
  interface, and that is also exactly when the result is a copy, free pools included.
  */
  lemma RoundTrip(c: Config, p: Pools, q: Pools, vms: seq<Vm>, worlds: seq<World>, gpus: multiset<Device>, macs: multiset<string>)
    requires Conserved(p, gpus, macs) && FreshStart(q, gpus, macs) && AddressesIdentify(q.gpus)
    requires |vms| == |worlds| && Lists(vms, p.vms)
    requires AllBenign(c, vms, worlds)
    ensures var (r, flags) := RestoreAll(c, q, PersistAll(vms), worlds);
      var whole := forall k <- p.vms :: p.vms[k].nets != [];
      && Conserved(r, gpus, macs)
      && (forall k :: k in r.vms <==> Names(vms[..FirstBare(vms)], k))
      && (forall k <- r.vms :: k in p.vms && RestoredAs(p.vms[k], r.vms[k]))
      && CutAt(flags, FirstBare(vms), |vms|)
      && (FirstBare(vms) == |vms| <==> whole)
      && (r.vms.Keys == p.vms.Keys <==> whole)
      && (whole ==> multiset(r.gpus) == multiset(p.gpus) && multiset(r.macs) == multiset(p.macs))
  {
    FreshIsConserved(q, gpus, macs);
    assert ReadyFor(c, q, p.vms);
    RestoreLive(c, q, vms, worlds, p.vms, gpus, macs);
    var r := RestoreAll(c, q, PersistAll(vms), worlds).0;
    RestoredBefore(vms, p.vms, r.vms);
    if r.vms.Keys == p.vms.Keys {
      SameFreePools(p, r, gpus, macs);
    }
  }

  lemma RestoredAreLive(vms: seq<Vm>, live: map<string, Vm>, after: map<string, Vm>)
    requires Lists(vms, live) && RestoredFrom(vms[..FirstBare(vms)], map[], after)
    ensures forall k <- after :: k in live && RestoredAs(live[k], after[k])
  {
    var prefix := vms[..FirstBare(vms)];
    forall k <- after ensures k in live && RestoredAs(live[k], after[k]) {
      assert Names(prefix, k);
      var i :| 0 <= i < |prefix| && prefix[i].name == k;
      assert prefix[i] == vms[i];
    }
  }

  lemma BareIsMissing(vms: seq<Vm>, live: map<string, Vm>, after: map<string, Vm>)
    requires Lists(vms, live) && RestoredFrom(vms[..FirstBare(vms)], map[], after) && FirstBare(vms) < |vms|
    ensures var bare := vms[FirstBare(vms)].name; bare in live && live[bare].nets == [] && bare !in after
  {
    var n := FirstBare(vms);
    assert !Names(vms[..n], vms[n].name);
  }

  lemma WholeIsRestored(vms: seq<Vm>, live: map<string, Vm>, after: map<string, Vm>)
    requires Lists(vms, live) && RestoredFrom(vms[..FirstBare(vms)], map[], after) && FirstBare(vms) == |vms|
    ensures forall k <- live :: k in after && live[k].nets != []
  {
    assert vms[..|vms|] == vms;
    forall k <- live ensures k in after && live[k].nets != [] {
      var i :| 0 <= i < |vms| && vms[i].name == k;
      assert Names(vms, k);
    }
  }

  lemma RestoredBefore(vms: seq<Vm>, live: map<string, Vm>, after: map<string, Vm>)
    requires Lists(vms, live) && RestoredFrom(vms[..FirstBare(vms)], map[], after)
    ensures forall k <- after :: k in live && RestoredAs(live[k], after[k])
    ensures FirstBare(vms) == |vms| <==> forall k <- live :: live[k].nets != []
    ensures after.Keys == live.Keys <==> forall k <- live :: live[k].nets != []
  {
    RestoredAreLive(vms, live, after);
    if FirstBare(vms) < |vms| {
      BareIsMissing(vms, live, after);
    } else {
      WholeIsRestored(vms, live, after);
    }
  }
}
