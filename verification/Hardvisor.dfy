/** The hardvisor's own code over the shared machine table, which every operation edits in place. */
module Hardvisor {
  import opened PyLists
  import opened Hardware

  function Matching(table: Table, order: seq<Name>, arch: Arch): seq<Machine>
    requires forall n <- order :: n in table
  {
    if order == [] then []
    else (if table[order[0]].arch == arch then [table[order[0]]] else []) + Matching(table, order[1..], arch)
  }

  function FirstAvailable(machines: seq<Machine>): Option<Machine> {
    if machines == [] then None
    else if machines[0].status == Available then Some(machines[0])
    else FirstAvailable(machines[1..])
  }

  /** Filtering first and then looking for an available machine finds the first that fits. */
  lemma {:induction false} FirstOfMatching(table: Table, order: seq<Name>, arch: Arch)
    requires forall n <- order :: n in table
    ensures var key := FirstMatch(table, order, arch);
      FirstAvailable(Matching(table, order, arch)) == if key.Some? then Some(table[key.value]) else None
  {
    if order != [] {
      var m, rest := table[order[0]], Matching(table, order[1..], arch);
      FirstOfMatching(table, order[1..], arch);
      if m.arch == arch {
        assert ([m] + rest)[1..] == rest;
      } else {
        assert [] + rest == rest;
      }
    }
  }

  class HardwareManager {
    /** The `resources` hash. */
    var resources: Table

    constructor ()
      ensures resources == map[]
    {
      resources := map[];
    }

    /** `keys` is the order in which the configuration lists its machines. */
    method UpdateMachines(keys: seq<Name>, config: map<Name, Details>)
      requires forall k :: k in keys <==> k in config
      modifies this
      ensures resources == Register(old(resources), config)
      ensures forall k <- config :: k !in old(resources) ==>
        k in resources && resources[k].status == Available && resources[k].allocation == None
    {
      for i := 0 to |keys|
        invariant resources == Register(old(resources), map k | k in config && k in keys[..i] :: config[k])
      {
        assert keys[..i + 1] == keys[..i] + [keys[i]];
        if keys[i] !in resources {
          resources := resources[keys[i] := Registered(keys[i], config[keys[i]])];
        }
      }
      assert keys[..|keys|] == keys;
      assert config == map k | k in config && k in keys :: config[k];
    }

    method MatchingMachines(order: seq<Name>, arch: Arch) returns (machines: seq<Machine>)
      requires forall n <- order :: n in resources
      ensures machines == Matching(resources, order, arch)
    {
      machines := [];
      for i := 0 to |order|
        invariant machines + Matching(resources, order[i..], arch) == Matching(resources, order, arch)
      {
        assert order[i..][1..] == order[i + 1..];
        if arch == resources[order[i]].arch {
          machines := machines + [resources[order[i]]];
        }
      }
    }

    method MatchReqsToAvailableMachine(order: seq<Name>, d: Demand) returns (machine: Option<Machine>)
      requires forall n <- order :: n in resources
      ensures var key := FirstMatch(resources, order, d.arch);
        machine == if key.Some? then Some(resources[key.value]) else None
    {
      var machines := MatchingMachines(order, d.arch);
      FirstOfMatching(resources, order, d.arch);
      for i := 0 to |machines|
        invariant FirstAvailable(machines[i..]) == FirstAvailable(machines)
      {
        assert machines[i..][1..] == machines[i + 1..];
        if machines[i].status == Available {
          return Some(machines[i]);
        }
      }
      machine := None;
    }

    /** Could some machine ever serve the demand? */
    method CheckAllocate(order: seq<Name>, d: Demand) returns (possible: bool)
      requires Lists(order, resources)
      ensures possible <==> exists n :: n in resources && resources[n].arch == d.arch
    {
      var machines := MatchingMachines(order, d.arch);
      MatchingIsNonempty(resources, order, d.arch);
      possible := machines != [];
    }

    method ReserveMachine(machine: Machine, d: Demand) returns (m: Machine)
      modifies this
      ensures m == Reserved(machine, d) && resources == old(resources)[m.name := m]
    {
      m := machine.(allocation := d.allocation, requestor := d.requestor, status := InUse);
      resources := resources[m.name := m];
    }

    method Allocate(order: seq<Name>, d: Demand) returns (r: Option<Machine>)
      requires forall n <- order :: n in resources
      modifies this
      ensures (resources, r) == Hardware.Allocate(old(resources), order, d)
    {
      var machine := MatchReqsToAvailableMachine(order, d);
      if machine.None? {
        return None;
      }
      var m := ReserveMachine(machine.value, d);
      r := Some(m);
    }

    method Release(name: Name)
      modifies this
      ensures resources == Hardware.Release(old(resources), name)
    {
      if name !in resources {
        return;
      }
      var machine := resources[name].(allocation := None);
      machine := machine.(status := Available);
      resources := resources[name := machine];
    }

    /** `do_clean_dangling_hardware`: every machine in use must belong to an active allocation. */
    method CleanDanglingHardware(order: seq<Name>, active: set<Id>)
      requires forall n <- order :: n in resources
      modifies this
      ensures resources == Clean(old(resources), old(resources), order, active)
    {
      var machines := resources;
      for i := 0 to |order|
        invariant Clean(resources, machines, order[i..], active) == Clean(machines, machines, order, active)
      {
        assert order[i..][1..] == order[i + 1..];
        var machine := machines[order[i]];
        if machine.status == InUse {
          if machine.allocation.None? || machine.allocation.value !in active {
            Release(machine.name);
          }
        }
      }
    }
  }

  lemma {:induction false} MatchingIsNonempty(table: Table, order: seq<Name>, arch: Arch)
    requires forall n <- order :: n in table
    ensures Matching(table, order, arch) != [] <==> exists n :: n in order && table[n].arch == arch
  {
    if order != [] {
      MatchingIsNonempty(table, order[1..], arch);
      assert order == [order[0]] + order[1..];
      if table[order[0]].arch == arch {
        assert order[0] in order;
      }
    }
  }

  lemma NextGrant(table: Table, demands: seq<Demand>, orders: seq<seq<Name>>, k: nat)
    requires k < |demands| == |orders| && WellKeyed(table) && forall o <- orders[k..] :: Lists(o, table)
    ensures Lists(orders[k], table)
    ensures var (next, got) := Hardware.Allocate(table, orders[k], demands[k]);
      && WellKeyed(next) && (forall o <- orders[k + 1..] :: Lists(o, next))
      && Grants(table, demands[k..], orders[k..]).0 == Grants(next, demands[k + 1..], orders[k + 1..]).0
      && Grants(table, demands[k..], orders[k..]).1 == [got] + Grants(next, demands[k + 1..], orders[k + 1..]).1
  {
    assert demands[k..][1..] == demands[k + 1..] && orders[k..][1..] == orders[k + 1..];
    assert Lists(orders[k..][0], table);
    StillListed(table, Hardware.Allocate(table, orders[k], demands[k]).0, orders[k..]);
  }

  /** What a request says of one host. */
  datatype HostReqs = HostReqs(arch: Option<Arch>)

  class HardVisor {
    const manager: HardwareManager

    constructor (manager: HardwareManager)
      ensures this.manager == manager
    {
      this.manager := manager;
    }

    static method ParseRequirements(hosts: seq<HostReqs>, allocation: Option<Id>, requestor: nat) returns (demands: seq<Demand>)
      ensures |demands| == |hosts|
      ensures forall i :: 0 <= i < |hosts| ==>
                demands[i] == Demand(if hosts[i].arch.Some? then hosts[i].arch.value else "x86_64", allocation, Some(requestor))
    {
      demands := [];
      for i := 0 to |hosts|
        invariant |demands| == i
        invariant forall j :: 0 <= j < i ==>
                    demands[j] == Demand(if hosts[j].arch.Some? then hosts[j].arch.value else X86_64, allocation, Some(requestor))
      {
        var arch := if hosts[i].arch.Some? then hosts[i].arch.value else X86_64;
        demands := demands + [Demand(arch, allocation, Some(requestor))];
      }
    }

    /** The gathered allocations; the lock lets them through one by one. */
    method AllocateAll(demands: seq<Demand>, orders: seq<seq<Name>>) returns (grants: seq<Option<Machine>>)
      requires |orders| == |demands| && WellKeyed(manager.resources) && forall o <- orders :: Lists(o, manager.resources)
      modifies manager
      ensures manager.resources == Grants(old(manager.resources), demands, orders).0
      ensures grants == Grants(old(manager.resources), demands, orders).1
    {
      ghost var before := manager.resources;
      grants := [];
      for k := 0 to |demands|
        invariant WellKeyed(manager.resources) && forall o <- orders[k..] :: Lists(o, manager.resources)
        invariant var rest := Grants(manager.resources, demands[k..], orders[k..]);
          Grants(before, demands, orders).0 == rest.0 && Grants(before, demands, orders).1 == grants + rest.1
      {
        NextGrant(manager.resources, demands, orders, k);
        var r := manager.Allocate(orders[k], demands[k]);
        grants := grants + [r];
      }
    }

    /** The gathered releases of whatever was allocated. */
    method RollBack(grants: seq<Option<Machine>>)
      modifies manager
      ensures manager.resources == ReleaseAll(old(manager.resources), grants)
    {
      for k := 0 to |grants|
        invariant ReleaseAll(manager.resources, grants[k..]) == ReleaseAll(old(manager.resources), grants)
      {
        assert grants[k..][1..] == grants[k + 1..];
        if grants[k].Some? {
          manager.Release(grants[k].value.name);
        }
      }
    }

    /** `fulfill`, run without other requests; `orders[k]` is how the hash lists the machines at the k-th allocation. */
    method Fulfill(demands: seq<Demand>, orders: seq<seq<Name>>) returns (info: Option<seq<Option<Machine>>>)
      requires |orders| == |demands| && WellKeyed(manager.resources) && forall o <- orders :: Lists(o, manager.resources)
      modifies manager
      ensures (manager.resources, info) == Hardware.Fulfil(old(manager.resources), demands, orders)
      ensures Tidy(old(manager.resources)) ==> (info.Some? <==> Enough(old(manager.resources), demands))
      ensures Tidy(old(manager.resources)) && info.None? ==> SameUse(old(manager.resources), manager.resources)
    {
      ghost var before := manager.resources;
      if Tidy(before) {
        AllOrNothing(before, demands, orders);
      }
      var grants := AllocateAll(demands, orders);
      if AllGranted(grants) {
        return Some(grants);
      }
      RollBack(grants);
      info := None;
    }
  }
}
