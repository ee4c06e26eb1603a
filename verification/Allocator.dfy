/**
The hypervisor's allocator as an object. Each method is one atomic section of a coroutine, or a helper of
one, and is proved against the functions of AllocatorSpec and RestoreSpec.
*/
module Allocator {
  import opened PyLists
  import opened Vms
  import opened AllocatorSpec
  import opened RestoreSpec
  import AllocatorRuns
  import Restore

  class Allocator {
    const serverName: string
    const maxVms: int
    const solBasePort: int
    const paravirtNetDevice: string
    const privateNetwork: string
    const totalMacAddresses: nat
    const totalGpus: nat

    var macAddresses: seq<string>
    var gpusList: seq<Device>
    var solUsedPorts: seq<Port>
    var vms: map<string, Vm>
    var nextId: nat

    ghost const initialGpus: multiset<Device>
    ghost const initialMacs: multiset<string>

    function Settings(): Config {
      Config(serverName, maxVms, solBasePort, paravirtNetDevice, privateNetwork, totalGpus, totalMacAddresses)
    }

    ghost function View(): Pools
      reads this
    {
      Pools(gpusList, macAddresses, solUsedPorts, vms, nextId)
    }

    /** In these pools no configured device is lost, shared or invented. */
    ghost predicate Balanced(p: Pools) {
      && Conserved(p, initialGpus, initialMacs)
      && |initialGpus| == totalGpus && |initialMacs| == totalMacAddresses
    }

    /** No configured device is lost, shared or invented. */
    ghost predicate Valid()
      reads this
    {
      Balanced(View())
    }

    constructor (macAddresses: seq<string>, gpusList: seq<Device>, serverName: string, maxVms: int,
                 solBasePort: int, paravirtDevice: string, privateNetwork: string)
      ensures Valid() && Restore.FreshStart(View(), multiset(gpusList), multiset(macAddresses))
      ensures initialGpus == multiset(gpusList) && initialMacs == multiset(macAddresses)
      ensures Settings() == Config(serverName, maxVms, solBasePort, paravirtDevice, privateNetwork, |gpusList|, |macAddresses|)
    {
      this.macAddresses, this.gpusList := macAddresses, gpusList;
      this.totalMacAddresses, this.totalGpus := |macAddresses|, |gpusList|;
      this.serverName, this.maxVms, this.solBasePort := serverName, maxVms, solBasePort;
      this.paravirtNetDevice, this.privateNetwork := paravirtDevice, privateNetwork;
      this.vms, this.solUsedPorts, this.nextId := map[], [], 0;
      this.initialGpus, this.initialMacs := multiset(gpusList), multiset(macAddresses);
      new;
      HeldByNone();
    }

    /** `_reserve_free_port` */
    method ReserveFreePort(port: int, attempts: nat, bind: int -> Bind) returns (r: Search)
      modifies this`solUsedPorts
      ensures r == SearchPort(old(solUsedPorts), bind, port, attempts)
      ensures solUsedPorts == if r.Found? then old(solUsedPorts) + [Number(r.port)] else old(solUsedPorts)
      decreases attempts
    {
      if attempts == 0 {
        return NoFreePort;
      }
      if Number(port) !in solUsedPorts {
        match bind(port) {
          case Bindable =>
            solUsedPorts := solUsedPorts + [Number(port)];
            return Found(port);
          case Denied =>
            return SocketError;
          case InUse =>
        }
      }
      r := ReserveFreePort(port + 1, attempts - 1, bind);
    }

    /** `_reserve_gpus` */
    method ReserveGpus(numGpus: int) returns (gpus: seq<Device>)
      modifies this`gpusList
      ensures gpus + gpusList == old(gpusList)
      ensures gpus == Take(old(gpusList), numGpus) && gpusList == Drop(old(gpusList), numGpus)
    {
      SlicesPartition(gpusList, numGpus);
      gpus := Take(gpusList, numGpus);
      gpusList := Drop(gpusList, numGpus);
    }

    /** `_reserve_networks` and `_reserve_macs` */
    method ReserveNetworks(networks: seq<string>) returns (nets: seq<Net>)
      requires |networks| <= |macAddresses|
      modifies this`macAddresses
      ensures Macs(nets) + macAddresses == old(macAddresses)
      ensures nets == Interfaces(Settings(), old(macAddresses)[..|networks|], networks)
      ensures forall i :: 0 <= i < |nets| ==>
        && nets[i].mac == old(macAddresses)[i] && nets[i].mode == networks[i]
        && nets[i].source == if networks[i] == "bridge" then paravirtNetDevice else privateNetwork
      ensures macAddresses == old(macAddresses)[|networks|..]
    {
      var macs := macAddresses[..|networks|];
      macAddresses := macAddresses[|networks|..];
      nets := [];
      for i := 0 to |networks|
        invariant nets == Interfaces(Settings(), macs, networks)[..i]
      {
        nets := nets + [Net(macs[i], networks[i], if networks[i] == "bridge" then paravirtNetDevice else privateNetwork)];
      }
    }

    /** `_free_vm_resources`; false when the port is not listed, which raises. */
    method FreeVmResources(gpus: seq<Device>, nets: seq<Net>, port: Port) returns (ok: bool)
      modifies this`gpusList, this`macAddresses, this`solUsedPorts
      ensures (View(), ok) == Freed(old(View()), gpus, nets, port)
    {
      gpusList := gpusList + gpus;
      macAddresses := macAddresses + Macs(nets);
      if port !in solUsedPorts {
        return false;
      }
      solUsedPorts := RemoveFirst(solUsedPorts, port);
      return true;
    }

    /** `_validate_networks_params` */
    static method ValidateNetworks(networks: seq<string>) returns (ok: bool)
      ensures ok == ValidNetworks(networks)
    {
      for i := 0 to |networks|
        invariant forall j :: 0 <= j < i ==> networks[j] == "bridge" || networks[j] == "isolated"
      {
        if networks[i] != "bridge" && networks[i] != "isolated" {
          assert networks[i] in networks;
          return false;
        }
      }
      return true;
    }

    /** The loop that looks for an unused name. */
    method ChooseName() returns (name: string)
      ensures name == FreshName(Settings(), vms) && name !in vms
    {
      ghost var free := FreeIndex(serverName, vms.Keys, |vms|);
      var index := |vms|;
      name := VmName(serverName, index);
      while name in vms
        invariant |vms| <= index <= free && name == VmName(serverName, index)
        invariant forall j :: |vms| <= j < index ==> VmName(serverName, j) in vms
        decreases free - index
      {
        index := index + 1;
        name := VmName(serverName, index);
      }
      FreeIndexIsLeast(serverName, vms.Keys, |vms|, index);
    }

    /** The checks of `allocate_vm`; they change nothing. */
    method Admit(req: Request) returns (refusal: Option<Error>)
      ensures refusal == Refusal(Settings(), View(), req)
    {
      var networks := AsList(req.networks);
      if |networks| > |macAddresses| {
        return Some(NotEnoughMacs);
      }
      if req.numGpus > |gpusList| {
        return Some(NotEnoughGpus);
      }
      var valid := ValidateNetworks(networks);
      if !valid {
        return Some(InvalidNetworks);
      }
      if maxVms == |vms| {
        return Some(TooManyVms);
      }
      return None;
    }

    /** The VM object, listed under a fresh name; if making it raises, the resources go back. */
    method Construct(gpus: seq<Device>, nets: seq<Net>, port: int, constructs: bool) returns (r: Outcome)
      modifies this
      ensures (View(), r) == AllocatorSpec.Construct(Settings(), old(View()), gpus, nets, port, constructs)
    {
      var name := ChooseName();
      if !constructs {
        var _ := FreeVmResources(gpus, nets, Number(port));
        return Raised(VmFailed);
      }
      var vm := Vm(nextId, name, gpus, nets, Number(port));
      vms, nextId := vms[name := vm], nextId + 1;
      r := Begun(vm);
    }

    /** The three reservations, in order; a failing port search leaves the first two in force. */
    method Reserve(req: Request, bind: int -> Bind) returns (gpus: seq<Device>, nets: seq<Net>, search: Search)
      requires |AsList(req.networks)| <= |macAddresses|
      modifies this
      ensures gpus == Take(old(gpusList), req.numGpus)
      ensures nets == Interfaces(Settings(), old(macAddresses)[..|AsList(req.networks)|], AsList(req.networks))
      ensures search == PortFor(Settings(), old(View()), bind)
      ensures View() == old(View()).(
        gpus := Drop(old(gpusList), req.numGpus),
        macs := old(macAddresses)[|AsList(req.networks)|..],
        ports := if search.Found? then old(solUsedPorts) + [Number(search.port)] else old(solUsedPorts))
    {
      gpus := ReserveGpus(req.numGpus);
      nets := ReserveNetworks(AsList(req.networks));
      search := ReserveFreePort(solBasePort + |vms|, ATTEMPTS, bind);
    }

    /** `allocate_vm` up to the creation of the VM. */
    method AllocateBegin(req: Request, bind: int -> Bind, constructs: bool) returns (r: Outcome)
      modifies this
      ensures (View(), r) == AllocatorSpec.AllocateBegin(Settings(), old(View()), req, bind, constructs)
      ensures old(Valid()) ==> (Valid() <==> !AllocatorRuns.Leaks(Settings(), old(View()), req, bind))
    {
      BeginKeepsValid(req, bind, constructs);
      var refusal := Admit(req);
      if refusal.Some? {
        r := Raised(refusal.value);
      } else {
        var gpus, nets, search := Reserve(req, bind);
        if search.Found? {
          r := Construct(gpus, nets, search.port, constructs);
        } else {
          r := Raised(PortSearchFailed(search));
        }
      }
      assert View() == AllocatorSpec.AllocateBegin(Settings(), old(View()), req, bind, constructs).0;
    }

    lemma BeginKeepsValid(req: Request, bind: int -> Bind, constructs: bool)
      ensures Valid() ==> (Balanced(AllocatorSpec.AllocateBegin(Settings(), View(), req, bind, constructs).0)
                           <==> !AllocatorRuns.Leaks(Settings(), View(), req, bind))
    {
      if Valid() {
        AllocatorRuns.BeginExactly(Settings(), View(), req, bind, constructs, initialGpus, initialMacs);
      }
    }

    lemma RestoreKeepsValid(rec: Record, world: World)
      ensures Valid() ==> (Balanced(TryRestore(Settings(), View(), rec, world).0)
                           <==> (Passes(Settings(), View(), rec, world) ==> Sound(View(), rec)))
    {
      if Valid() {
        Restore.RecordExactly(Settings(), View(), rec, world, initialGpus, initialMacs);
      }
    }

    /** `allocate_vm` from the end of the creation on. */
    method AllocateEnd(vm: Vm, created: bool) returns (e: Option<Error>)
      modifies this
      ensures (View(), e) == AllocatorSpec.AllocateEnd(old(View()), vm, created)
      ensures old(Valid()) ==> (Valid() <==> created || AllocatorRuns.Returnable(old(View()), vm))
    {
      if Valid() {
        AllocatorRuns.EndExactly(View(), vm, initialGpus, initialMacs);
      }
      if created {
        return None;
      }
      var listed := FreeVmResources(vm.pcis, vm.nets, vm.port);
      if !listed {
        return Some(PortNotListed);
      }
      vms := vms - {vm.name};
      return Some(VmFailed);
    }

    /** `destroy_vm` from the end of the VM manager's work on. */
    method DestroyEnd(name: string, vm: Vm, destroyed: bool) returns (e: Option<Error>)
      modifies this
      ensures (View(), e) == AllocatorSpec.DestroyEnd(old(View()), name, vm, destroyed)
      ensures old(Valid()) ==> (Valid() <==> (destroyed && name in old(vms) ==> SameHoldings(vm, old(vms)[name])))
    {
      if Valid() && name in vms {
        AllocatorRuns.DestroyExactly(View(), name, vm, initialGpus, initialMacs);
      }
      if !destroyed {
        return Some(VmFailed);
      }
      if name !in vms {
        return Some(NoSuchVm);
      }
      vms := vms - {name};
      var listed := FreeVmResources(vm.pcis, vm.nets, vm.port);
      if !listed {
        return Some(PortNotListed);
      }
      return None;
    }

    /** `check_allocate`: a refusal is final, whatever the state; an acceptance holds once no VM is live. */
    method CheckAllocate(req: Request) returns (possible: bool)
      ensures possible == Feasible(Settings(), req)
    {
      var networks := AsList(req.networks);
      if |networks| > totalMacAddresses {
        return false;
      }
      if req.numGpus > totalGpus {
        return false;
      }
      possible := ValidateNetworks(networks);
    }

    // ----- crash recovery

    /** `_try_restore_ip`: timeouts are retried, and survived if every try times out. */
    static method TryRestoreIp(answers: nat -> Dhcp) returns (r: Dhcp)
      ensures r == Refused <==> RenewalFails(answers)
      ensures r == TimedOut <==> forall n: nat :: n < RETRIES ==> answers(n) == TimedOut
    {
      for i := 0 to RETRIES
        invariant forall n: nat :: n < i ==> answers(n) == TimedOut
      {
        if answers(i) != TimedOut {
          return answers(i);
        }
      }
      return TimedOut;
    }

    method TakeMacs(macs: seq<string>) returns (ok: bool)
      modifies this`macAddresses
      ensures (macAddresses, ok) == RemoveEach(old(macAddresses), macs)
    {
      for i := 0 to |macs|
        invariant RemoveEach(macAddresses, macs[i..]) == RemoveEach(old(macAddresses), macs)
      {
        if macs[i] !in macAddresses {
          return false;
        }
        macAddresses := RemoveFirst(macAddresses, macs[i]);
      }
      return true;
    }

    method TakeGpus(gpus: seq<Device>) returns (ok: bool)
      modifies this`gpusList
      ensures (gpusList, ok) == RemoveEach(old(gpusList), gpus)
    {
      for i := 0 to |gpus|
        invariant RemoveEach(gpusList, gpus[i..]) == RemoveEach(old(gpusList), gpus)
      {
        if gpus[i] !in gpusList {
          return false;
        }
        gpusList := RemoveFirst(gpusList, gpus[i]);
      }
      return true;
    }

    /** The MAC addresses of a record's interfaces, if every interface passes. */
    method CheckNetworks(nets: seq<Net>, world: World) returns (macs: Option<seq<string>>)
      ensures macs.Some? <==> NetworksPass(Settings(), View(), nets, world)
      ensures macs.Some? ==> macs.value == Macs(nets)
    {
      var found := [];
      for i := 0 to |nets|
        invariant found == Macs(nets)[..i]
        invariant forall j: nat :: j < i ==> NetworkPasses(Settings(), View(), nets[j], world.dhcp(j))
      {
        if nets[i].source != paravirtNetDevice && nets[i].source != privateNetwork {
          return None;
        }
        if nets[i].mac !in macAddresses {
          return None;
        }
        found := found + [nets[i].mac];
        var renewal := TryRestoreIp(world.dhcp(i));
        if renewal == Refused {
          return None;
        }
      }
      return Some(found);
    }

    /** The free devices behind a record's PCI addresses, if each address has one. */
    method MatchGpus(pcis: seq<string>) returns (gpus: Option<seq<Device>>)
      ensures gpus == LookupAll(gpusList, pcis)
    {
      var found := [];
      for i := 0 to |pcis|
        invariant LookupAll(gpusList, pcis).Some? <==> LookupAll(gpusList, pcis[i..]).Some?
        invariant LookupAll(gpusList, pcis).Some? ==> LookupAll(gpusList, pcis).value == found + LookupAll(gpusList, pcis[i..]).value
      {
        var matching := Lookup(gpusList, pcis[i]);
        if matching.None? {
          return None;
        }
        found := found + [matching.value];
      }
      assert pcis[|pcis|..] == [] && LookupAll(gpusList, pcis).value == found;
      return Some(found);
    }

    /** `_try_restore_vm`; false when it raises. */
    method TryRestoreVm(rec: Record, world: World) returns (ok: bool)
      modifies this
      ensures (View(), ok) == TryRestore(Settings(), old(View()), rec, world)
      ensures old(Valid()) ==> (Valid() <==> (Passes(Settings(), old(View()), rec, world) ==> Sound(old(View()), rec)))
    {
      RestoreKeepsValid(rec, world);
      if !world.storageValid {
        return false;
      }
      if rec.nets.None? {
        return false;
      }
      var macs := CheckNetworks(rec.nets.value, world);
      if macs.None? {
        return false;
      }
      var gpus := MatchGpus(rec.pcis);
      if gpus.None? {
        return false;
      }
      ok := TakeMacs(macs.value);
      if !ok {
        return;
      }
      ok := TakeGpus(gpus.value);
      if !ok {
        return;
      }
      solUsedPorts := solUsedPorts + [rec.port];
      if !rec.complete {
        return false;
      }
      vms := vms[rec.name := Vm(nextId, rec.name, gpus.value, rec.nets.value, rec.port)];
      nextId := nextId + 1;
      return true;
    }

    /** `restore_vms` */
    method RestoreVms(recs: seq<Record>, worlds: seq<World>) returns (flags: seq<bool>)
      requires |recs| == |worlds|
      modifies this
      ensures (View(), flags) == RestoreAll(Settings(), old(View()), recs, worlds)
      ensures old(Valid()) && Restore.FreshNames(recs, old(vms).Keys) && (forall i :: 0 <= i < |recs| ==> Restore.WellFormed(recs[i])) ==> Valid()
    {
      RestoreAllKeepsValid(recs, worlds);
      flags := [];
      ghost var all := RestoreAll(Settings(), View(), recs, worlds);
      AllToCome(Settings(), View(), recs, worlds);
      for i := 0 to |recs|
        invariant StillToCome(all, flags, Settings(), View(), recs, worlds, i)
      {
        RestoreStep(all, flags, Settings(), View(), recs, worlds, i);
        var ok := TryRestoreVm(recs[i], worlds[i]);
        flags := flags + [ok];
        if !ok && !CleansUp(recs[i], worlds[i]) {
          return;
        }
      }
      NothingToCome(all, flags, Settings(), View(), recs, worlds);
    }

    lemma RestoreAllKeepsValid(recs: seq<Record>, worlds: seq<World>)
      requires |recs| == |worlds|
      ensures Valid() && Restore.FreshNames(recs, vms.Keys) && (forall i :: 0 <= i < |recs| ==> Restore.WellFormed(recs[i])) ==>
                Balanced(RestoreAll(Settings(), View(), recs, worlds).0)
    {
      if Valid() && Restore.FreshNames(recs, vms.Keys) && forall i :: 0 <= i < |recs| ==> Restore.WellFormed(recs[i]) {
        Restore.RestoreConserves(Settings(), View(), recs, worlds, initialGpus, initialMacs);
      }
    }
  }
}
