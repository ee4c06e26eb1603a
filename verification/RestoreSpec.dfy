/** Crash recovery: rebuilding the allocator's pools from the VM records that were persisted in the domain XML. */
module RestoreSpec {
  import opened PyLists
  import opened Vms
  import opened AllocatorSpec

  /**
  A persisted VM. `nets` is None when the record has no `net_ifaces` key; `complete` says whether the
  record has every field the VM constructor insists on.
  */
  datatype Record = Record(name: string, pcis: seq<string>, nets: Option<seq<Net>>, port: Port, complete: bool)

  datatype Dhcp = Renewed | TimedOut | Refused

  /** What the outside world answers while one record is restored: `dhcp(i)(n)` is the answer to try `n` for interface `i`. */
  datatype World = World(storageValid: bool, dhcp: nat -> (nat -> Dhcp), cleanup: bool)

  const RETRIES: nat := 10

  /** The first answer that is not a timeout, if one of the ten tries gets it, is an error. */
  ghost predicate RenewalFails(answers: nat -> Dhcp) {
    exists n: nat :: n < RETRIES && answers(n) == Refused && forall m: nat :: m < n ==> answers(m) == TimedOut
  }

  function Lookup(gpus: seq<Device>, address: string): Option<Device> {
    if gpus == [] then None
    else if gpus[0].fullAddress == address then Some(gpus[0])
    else Lookup(gpus[1..], address)
  }

  lemma {:induction false} LookupFinds(gpus: seq<Device>, address: string)
    ensures Lookup(gpus, address).Some? ==> Lookup(gpus, address).value in gpus && Lookup(gpus, address).value.fullAddress == address
    ensures Lookup(gpus, address).None? ==> forall d <- gpus :: d.fullAddress != address
  {
    if gpus != [] { LookupFinds(gpus[1..], address); }
  }

  /** The devices a record asks for, or None if an address has no free device. */
  function LookupAll(gpus: seq<Device>, addresses: seq<string>): (r: Option<seq<Device>>)
    ensures r.Some? ==> |r.value| == |addresses|
  {
    if addresses == [] then Some([])
    else
      var first, others := Lookup(gpus, addresses[0]), LookupAll(gpus, addresses[1..]);
      if first.Some? && others.Some? then Some([first.value] + others.value) else None
  }

  ghost predicate NetworksPass(c: Config, p: Pools, nets: seq<Net>, world: World) {
    forall i: nat :: i < |nets| ==> NetworkPasses(c, p, nets[i], world.dhcp(i))
  }

  ghost predicate NetworkPasses(c: Config, p: Pools, net: Net, answers: nat -> Dhcp) {
    (net.source == c.bridgeDevice || net.source == c.privateNetwork) && net.mac in p.macs && !RenewalFails(answers)
  }

  /** Everything that is checked before the first pool is changed. */
  ghost predicate Passes(c: Config, p: Pools, rec: Record, world: World) {
    && world.storageValid
    && rec.nets.Some?
    && NetworksPass(c, p, rec.nets.value, world)
    && LookupAll(p.gpus, rec.pcis).Some?
  }

  /** `_try_restore_vm`; false when it raises. */
  ghost function TryRestore(c: Config, p: Pools, rec: Record, world: World): (Pools, bool) {
    if !Passes(c, p, rec, world) then (p, false)
    else
      var nets, gpus := rec.nets.value, LookupAll(p.gpus, rec.pcis).value;
      var (macsLeft, macsTaken) := RemoveEach(p.macs, Macs(nets));
      if !macsTaken then (p.(macs := macsLeft), false)
      else
        var (gpusLeft, gpusTaken) := RemoveEach(p.gpus, gpus);
        if !gpusTaken then (p.(macs := macsLeft, gpus := gpusLeft), false)
        else
          var q := p.(macs := macsLeft, gpus := gpusLeft, ports := p.ports + [rec.port]);
          if !rec.complete then (q, false)
          else (q.(vms := p.vms[rec.name := Vm(p.nextId, rec.name, gpus, nets, rec.port)], nextId := p.nextId + 1), true)
  }

  /**
  The clean-up after a failed record. It releases the address of every interface outside any `try`, so for a
  record without the `net_ifaces` key it always raises.
  */
  predicate CleansUp(rec: Record, world: World) {
    rec.nets.Some? && world.cleanup
  }

  /**
  `restore_vms`: one flag per record that was reached. A record that fails is destroyed through the VM
  manager, and if that raises as well no further record is reached and the start-up fails.
  */
  ghost function RestoreAll(c: Config, p: Pools, recs: seq<Record>, worlds: seq<World>): (r: (Pools, seq<bool>))
    requires |recs| == |worlds|
    ensures |r.1| <= |recs|
    decreases |recs|
  {
    if recs == [] then (p, [])
    else
      var (q, ok) := TryRestore(c, p, recs[0], worlds[0]);
      if !ok && !CleansUp(recs[0], worlds[0]) then (q, [false])
      else
        var (last, flags) := RestoreAll(c, q, recs[1..], worlds[1..]);
        (last, [ok] + flags)
  }

  /** The records from `i` on still have to be restored in `p`, and `all` is what comes of the whole list. */
  ghost predicate StillToCome(all: (Pools, seq<bool>), flags: seq<bool>, c: Config, p: Pools, recs: seq<Record>, worlds: seq<World>, i: nat)
    requires i <= |recs| == |worlds|
  {
    var rest := RestoreAll(c, p, recs[i..], worlds[i..]);
    all.0 == rest.0 && all.1 == flags + rest.1
  }

  /** What the record at `i` makes of it. */
  lemma RestoreStep(all: (Pools, seq<bool>), flags: seq<bool>, c: Config, p: Pools, recs: seq<Record>, worlds: seq<World>, i: nat)
    requires i < |recs| == |worlds| && StillToCome(all, flags, c, p, recs, worlds, i)
    ensures var (q, ok) := TryRestore(c, p, recs[i], worlds[i]);
      if ok || CleansUp(recs[i], worlds[i]) then StillToCome(all, flags + [ok], c, q, recs, worlds, i + 1)
      else all == (q, flags + [ok])
  {
    assert recs[i..][1..] == recs[i + 1..] && worlds[i..][1..] == worlds[i + 1..];
    assert recs[i..][0] == recs[i] && worlds[i..][0] == worlds[i];
  }

  lemma NothingToCome(all: (Pools, seq<bool>), flags: seq<bool>, c: Config, p: Pools, recs: seq<Record>, worlds: seq<World>)
    requires |recs| == |worlds| && StillToCome(all, flags, c, p, recs, worlds, |recs|)
    ensures all == (p, flags)
  {
    assert recs[|recs|..] == [] && RestoreAll(c, p, recs[|recs|..], worlds[|recs|..]) == (p, []);
    assert flags + [] == flags;
  }

  lemma AllToCome(c: Config, p: Pools, recs: seq<Record>, worlds: seq<World>)
    requires |recs| == |worlds|
    ensures StillToCome(RestoreAll(c, p, recs, worlds), [], c, p, recs, worlds, 0)
  {
    assert recs[0..] == recs && worlds[0..] == worlds;
  }

  // ----- conservation, record by record

  /** What a record must satisfy, once it passed the checks, for its restoration not to lose anything. */
  ghost predicate Sound(p: Pools, rec: Record)
    requires rec.nets.Some? && LookupAll(p.gpus, rec.pcis).Some?
  {
    && multiset(Macs(rec.nets.value)) <= multiset(p.macs)
    && multiset(LookupAll(p.gpus, rec.pcis).value) <= multiset(p.gpus)
    && rec.complete
    && rec.name !in p.vms
  }

  lemma FewerIsUnbalanced<T>(fewer: seq<T>, list: seq<T>, held: multiset<T>)
    requires |fewer| < |list|
    ensures multiset(fewer) + held != multiset(list) + held
  {
    assert |multiset(fewer) + held| == |fewer| + |held|;
    assert |multiset(list) + held| == |list| + |held|;
  }

  lemma {:induction false} LookupAllFinds(gpus: seq<Device>, addresses: seq<string>)
    ensures var r := LookupAll(gpus, addresses);
      r.Some? <==> forall a <- addresses :: exists d <- gpus :: d.fullAddress == a
    ensures var r := LookupAll(gpus, addresses);
      r.Some? ==> forall i :: 0 <= i < |addresses| ==> r.value[i] in gpus && r.value[i].fullAddress == addresses[i]
  {
    if addresses != [] {
      LookupFinds(gpus, addresses[0]);
      LookupAllFinds(gpus, addresses[1..]);
      assert addresses == [addresses[0]] + addresses[1..];
      if Lookup(gpus, addresses[0]).None? {
        assert addresses[0] in addresses;
      } else if LookupAll(gpus, addresses[1..]).None? {
        var a :| a in addresses[1..] && forall d <- gpus :: d.fullAddress != a;
        assert a in addresses;
      } else {
        assert forall a <- addresses :: a == addresses[0] || a in addresses[1..];
      }
    }
  }
}
