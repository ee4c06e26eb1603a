/**
The atomic sections of the hypervisor's allocator as functions on its four collections. Between two
suspension points no other coroutine runs, and the body under `Allocator.lock` never suspends, so each
function below is one step of the program.
*/
module AllocatorSpec {
  import opened PyLists
  import opened Vms
  import opened MapSums

  datatype Config = Config(
    serverName: string, maxVms: int, solBasePort: int,
    bridgeDevice: string, privateNetwork: string,
    totalGpus: nat, totalMacs: nat)

  /** Free GPUs, free MAC addresses, used serial ports, live VMs, and the next unused object identity. */
  datatype Pools = Pools(gpus: seq<Device>, macs: seq<string>, ports: seq<Port>, vms: map<string, Vm>, nextId: nat)

  /** What the caller asks for; a lone network name is accepted instead of a list. */
  datatype Networks = One(network: string) | Many(networks: seq<string>)
  datatype Request = Request(networks: Networks, numGpus: int)

  /** Outcome of binding a TCP socket to a port: bound, EADDRINUSE, or any other error. */
  datatype Bind = Bindable | InUse | Denied
  datatype Search = Found(port: int) | NoFreePort | SocketError

  datatype Error = NotEnoughMacs | NotEnoughGpus | InvalidNetworks | TooManyVms | PortSearchFailed(search: Search)
                 | VmFailed | NoSuchVm | PortNotListed
  datatype Outcome = Begun(vm: Vm) | Raised(error: Error)

  const ATTEMPTS: nat := 500

  function AsList(networks: Networks): seq<string> {
    match networks
    case One(n) => [n]
    case Many(ns) => ns
  }

  predicate ValidNetworks(networks: seq<string>) {
    forall n <- networks :: n == "bridge" || n == "isolated"
  }

  // ----- the conservation law

  ghost function GpusOf(vm: Vm): multiset<Device> { multiset(vm.pcis) }

  ghost function MacsOf(vm: Vm): multiset<string> { multiset(Macs(vm.nets)) }

  ghost function PortOf(vm: Vm): multiset<Port> { multiset{vm.port} }

  ghost function HeldGpus(vms: map<string, Vm>): multiset<Device> { Total(vms, GpusOf) }

  ghost function HeldMacs(vms: map<string, Vm>): multiset<string> { Total(vms, MacsOf) }

  ghost function HeldPorts(vms: map<string, Vm>): multiset<Port> { Total(vms, PortOf) }

  /** Every configured device is either free or held by exactly one live VM, and the used ports are those of live VMs. */
  ghost predicate Conserved(p: Pools, gpus: multiset<Device>, macs: multiset<string>) {
    && multiset(p.gpus) + HeldGpus(p.vms) == gpus
    && multiset(p.macs) + HeldMacs(p.vms) == macs
    && multiset(p.ports) == HeldPorts(p.vms)
  }

  ghost predicate SameHoldings(a: Vm, b: Vm) {
    && multiset(a.pcis) == multiset(b.pcis)
    && multiset(Macs(a.nets)) == multiset(Macs(b.nets))
    && a.port == b.port
  }

  lemma HeldWithout(vms: map<string, Vm>, k: string)
    requires k in vms
    ensures HeldGpus(vms) == multiset(vms[k].pcis) + HeldGpus(vms - {k})
    ensures HeldMacs(vms) == multiset(Macs(vms[k].nets)) + HeldMacs(vms - {k})
    ensures HeldPorts(vms) == multiset{vms[k].port} + HeldPorts(vms - {k})
  {
    TotalWithout(vms, GpusOf, k);
    TotalWithout(vms, MacsOf, k);
    TotalWithout(vms, PortOf, k);
  }

  lemma HeldWith(vms: map<string, Vm>, k: string, vm: Vm)
    requires k !in vms
    ensures HeldGpus(vms[k := vm]) == HeldGpus(vms) + multiset(vm.pcis)
    ensures HeldMacs(vms[k := vm]) == HeldMacs(vms) + multiset(Macs(vm.nets))
    ensures HeldPorts(vms[k := vm]) == HeldPorts(vms) + multiset{vm.port}
  {
    TotalWith(vms, GpusOf, k, vm);
    TotalWith(vms, MacsOf, k, vm);
    TotalWith(vms, PortOf, k, vm);
  }

  lemma HeldByNone()
    ensures HeldGpus(map[]) == multiset{} && HeldMacs(map[]) == multiset{} && HeldPorts(map[]) == multiset{}
  {
    TotalOfNone<string, Vm, Device>(map[], GpusOf);
    TotalOfNone<string, Vm, string>(map[], MacsOf);
    TotalOfNone<string, Vm, Port>(map[], PortOf);
  }

  lemma NothingShared<T(!new)>(a: multiset<T>, b: multiset<T>, total: multiset<T>)
    requires a + b <= total
    requires forall x :: total[x] <= 1
    ensures a !! b
  {
    forall x ensures !(x in a && x in b) {
      assert (a + b)[x] <= total[x] <= 1;
    }
  }

  lemma TwoVmsWithin(p: Pools, gpus: multiset<Device>, macs: multiset<string>, j: string, k: string)
    requires Conserved(p, gpus, macs) && j in p.vms && k in p.vms && j != k
    ensures multiset(p.vms[j].pcis) + multiset(p.vms[k].pcis) <= gpus
    ensures multiset(Macs(p.vms[j].nets)) + multiset(Macs(p.vms[k].nets)) <= macs
  {
    HeldWithout(p.vms, j);
    HeldWithout(p.vms - {j}, k);
  }

  /** When no device is configured twice, conservation means that no two live VMs share a GPU or a MAC address. */
  lemma NoDeviceInTwoVms(p: Pools, gpus: multiset<Device>, macs: multiset<string>, j: string, k: string)
    requires Conserved(p, gpus, macs)
    requires j in p.vms && k in p.vms && j != k
    ensures (forall d :: gpus[d] <= 1) ==> multiset(p.vms[j].pcis) !! multiset(p.vms[k].pcis)
    ensures (forall m :: macs[m] <= 1) ==> multiset(Macs(p.vms[j].nets)) !! multiset(Macs(p.vms[k].nets))
  {
    TwoVmsWithin(p, gpus, macs, j, k);
    if forall d :: gpus[d] <= 1 {
      NothingShared(multiset(p.vms[j].pcis), multiset(p.vms[k].pcis), gpus);
    }
    if forall m :: macs[m] <= 1 {
      NothingShared(multiset(Macs(p.vms[j].nets)), multiset(Macs(p.vms[k].nets)), macs);
    }
  }

  /** There are as many used ports as live VMs. */
  lemma PortPerVm(vms: map<string, Vm>)
    ensures |HeldPorts(vms)| == |vms|
  {
    TotalOfSingles(vms, PortOf);
  }

  lemma ListedPortsCount(p: Pools, gpus: multiset<Device>, macs: multiset<string>)
    requires Conserved(p, gpus, macs)
    ensures |p.ports| == |p.vms|
  {
    PortPerVm(p.vms);
    assert |multiset(p.ports)| == |p.ports|;
  }

  // ----- port search

  /** The first bindable port from `port` on; ports listed as used are not tried at all. */
  function SearchPort(used: seq<Port>, bind: int -> Bind, port: int, attempts: nat): Search
    decreases attempts, |used|
  {
    if attempts == 0 then NoFreePort
    else if Number(port) in used || bind(port) == InUse then SearchPort(used, bind, port + 1, attempts - 1)
    else if bind(port) == Bindable then Found(port)
    else SocketError
  }

  predicate Skipped(used: seq<Port>, bind: int -> Bind, port: int) {
    Number(port) in used || bind(port) == InUse
  }

  predicate StopsAt(used: seq<Port>, bind: int -> Bind, start: int, attempts: nat, port: int) {
    && start <= port < start + attempts
    && !Skipped(used, bind, port)
    && forall q :: start <= q < port ==> Skipped(used, bind, q)
  }

  /** The search stops at the least port that is neither listed nor in use, and fails exactly when there is none or it cannot be bound. */
  lemma {:induction false} SearchIsExact(used: seq<Port>, bind: int -> Bind, start: int, attempts: nat)
    ensures forall p :: SearchPort(used, bind, start, attempts) == Found(p)
                        <==> StopsAt(used, bind, start, attempts, p) && bind(p) == Bindable
    ensures SearchPort(used, bind, start, attempts) == SocketError
            <==> exists p :: StopsAt(used, bind, start, attempts, p) && bind(p) == Denied
    ensures SearchPort(used, bind, start, attempts) == NoFreePort
            <==> forall p :: start <= p < start + attempts ==> Skipped(used, bind, p)
    decreases attempts
  {
    if attempts == 0 {
    } else if Skipped(used, bind, start) {
      SearchIsExact(used, bind, start + 1, attempts - 1);
      assert forall p :: StopsAt(used, bind, start, attempts, p) <==> StopsAt(used, bind, start + 1, attempts - 1, p);
    } else {
      assert StopsAt(used, bind, start, attempts, start);
      assert forall p :: StopsAt(used, bind, start, attempts, p) ==> p == start;
    }
  }

  /** The ports of a window that something else is bound to. */
  ghost function Busy(bind: int -> Bind, start: int, attempts: nat): set<int> {
    set n | start <= n < start + attempts && bind(n) == InUse
  }

  ghost predicate NoneDenied(bind: int -> Bind, start: int, attempts: nat) {
    forall n :: start <= n < start + attempts ==> bind(n) != Denied
  }

  lemma BusyWithin(bind: int -> Bind, start: int, attempts: nat, from: int, size: nat)
    requires from <= start && start + attempts <= from + size
    ensures |Busy(bind, start, attempts)| <= |Busy(bind, from, size)|
  {
    SubsetIsSmaller(Busy(bind, start, attempts), Busy(bind, from, size));
  }

  lemma NothingBusy(bind: int -> Bind, start: int, attempts: nat)
    requires forall n :: bind(n) == Bindable
    ensures Busy(bind, start, attempts) == {} && NoneDenied(bind, start, attempts)
  {
  }

  /** Pigeonhole: if no port of the window is denied, and fewer are listed or busy than there are attempts, one is found. */
  lemma SearchSucceeds(used: seq<Port>, bind: int -> Bind, start: int, attempts: nat)
    requires NoneDenied(bind, start, attempts) && |used| + |Busy(bind, start, attempts)| < attempts
    ensures SearchPort(used, bind, start, attempts).Found?
  {
    var listed := set x | x in used;
    SetNoLargerThanList(used);
    SearchPastListed(used, bind, start, attempts, listed);
  }

  lemma {:induction false} SearchPastListed(used: seq<Port>, bind: int -> Bind, start: int, attempts: nat, listed: set<Port>)
    requires NoneDenied(bind, start, attempts)
    requires forall p :: start <= p && Number(p) in used ==> Number(p) in listed
    requires |listed| + |Busy(bind, start, attempts)| < attempts
    ensures SearchPort(used, bind, start, attempts).Found?
    decreases attempts
  {
    var rest := Busy(bind, start + 1, attempts - 1);
    BusyWithin(bind, start + 1, attempts - 1, start, attempts);
    if Number(start) in used {
      SearchPastListed(used, bind, start + 1, attempts - 1, listed - {Number(start)});
    } else if bind(start) == InUse {
      assert Busy(bind, start, attempts) == rest + {start};
      SearchPastListed(used, bind, start + 1, attempts - 1, listed);
    }
  }

  /** Only the numbers among the listed ports matter to the search. */
  lemma {:induction false} SearchSeesNumbers(used: seq<Port>, other: seq<Port>, bind: int -> Bind, start: int, attempts: nat)
    requires forall n :: Number(n) in used <==> Number(n) in other
    ensures SearchPort(used, bind, start, attempts) == SearchPort(other, bind, start, attempts)
    decreases attempts
  {
    if attempts > 0 && Skipped(used, bind, start) {
      SearchSeesNumbers(used, other, bind, start + 1, attempts - 1);
    }
  }

  // ----- naming

  /** The first index from `i` on whose name is not taken; each taken name is met once. */
  function FreeIndex(server: string, taken: set<string>, i: nat): (r: nat)
    ensures i <= r <= i + |taken|
    ensures VmName(server, r) !in taken
    ensures forall j :: i <= j < r ==> VmName(server, j) in taken
    decreases |taken|
  {
    if VmName(server, i) in taken then
      var r := FreeIndex(server, taken - {VmName(server, i)}, i + 1);
      assert VmName(server, r) != VmName(server, i) by {
        if VmName(server, r) == VmName(server, i) { VmNameIsInjective(server, r, i); }
      }
      r
    else i
  }

  /** The index is the only one that is free and has no free index before it. */
  lemma FreeIndexIsLeast(server: string, taken: set<string>, i: nat, r: nat)
    requires i <= r && VmName(server, r) !in taken
    requires forall j :: i <= j < r ==> VmName(server, j) in taken
    ensures r == FreeIndex(server, taken, i)
  {
    var f := FreeIndex(server, taken, i);
    assert !(f < r) && !(r < f);
  }

  function FreshName(c: Config, vms: map<string, Vm>): string {
    VmName(c.serverName, FreeIndex(c.serverName, vms.Keys, |vms|))
  }

  /** With `n` live VMs the naming loop ends at an unused index between `n` and `2n`. */
  lemma FreshNameIsFresh(c: Config, vms: map<string, Vm>)
    ensures FreshName(c, vms) !in vms
    ensures exists i :: |vms| <= i <= 2 * |vms| && FreshName(c, vms) == VmName(c.serverName, i)
  {
    var i := FreeIndex(c.serverName, vms.Keys, |vms|);
    assert |vms.Keys| == |vms|;
    assert |vms| <= i <= 2 * |vms| && FreshName(c, vms) == VmName(c.serverName, i);
  }

  // ----- atomic sections

  function Interfaces(c: Config, macs: seq<string>, networks: seq<string>): (r: seq<Net>)
    requires |macs| == |networks|
    ensures |r| == |networks| && Macs(r) == macs
  {
    seq(|networks|, i requires 0 <= i < |networks| =>
      Net(macs[i], networks[i], if networks[i] == "bridge" then c.bridgeDevice else c.privateNetwork))
  }

  /** The checks made before anything is taken, in the order in which they are made. */
  function Refusal(c: Config, p: Pools, req: Request): Option<Error> {
    if |AsList(req.networks)| > |p.macs| then Some(NotEnoughMacs)
    else if req.numGpus > |p.gpus| then Some(NotEnoughGpus)
    else if !ValidNetworks(AsList(req.networks)) then Some(InvalidNetworks)
    else if c.maxVms == |p.vms| then Some(TooManyVms)
    else None
  }

  /** `_free_vm_resources`: removing a port that is not listed raises, after the devices were handed back. */
  function Freed(p: Pools, gpus: seq<Device>, nets: seq<Net>, port: Port): (Pools, bool) {
    var q := p.(gpus := p.gpus + gpus, macs := p.macs + Macs(nets));
    if port in p.ports then (q.(ports := RemoveFirst(p.ports, port)), true) else (q, false)
  }

  function PortFor(c: Config, p: Pools, bind: int -> Bind): Search {
    SearchPort(p.ports, bind, c.solBasePort + |p.vms|, ATTEMPTS)
  }

  /** The object is made and listed under a fresh name; if making it raises, the resources go back. */
  function Construct(c: Config, p: Pools, gpus: seq<Device>, nets: seq<Net>, n: int, constructs: bool): (Pools, Outcome) {
    var vm := Vm(p.nextId, FreshName(c, p.vms), gpus, nets, Number(n));
    if constructs then (p.(vms := p.vms[vm.name := vm], nextId := p.nextId + 1), Begun(vm))
    else (Freed(p, gpus, nets, Number(n)).0, Raised(VmFailed))
  }

  /** `allocate_vm` from its start until it waits for the VM to be created. */
  function AllocateBegin(c: Config, p: Pools, req: Request, bind: int -> Bind, constructs: bool): (Pools, Outcome) {
    var networks := AsList(req.networks);
    var refusal := Refusal(c, p, req);
    if refusal.Some? then (p, Raised(refusal.value))
    else
      var gpus := Take(p.gpus, req.numGpus);
      var nets := Interfaces(c, p.macs[..|networks|], networks);
      var taken := p.(gpus := Drop(p.gpus, req.numGpus), macs := p.macs[|networks|..]);
      match PortFor(c, p, bind)
      case Found(n) => Construct(c, taken.(ports := p.ports + [Number(n)]), gpus, nets, n, constructs)
      case failed => (taken, Raised(PortSearchFailed(failed)))
  }

  /**
  `allocate_vm` from the end of the creation on; `created` is false on any exception, cancellation included.
  The entry is dropped after the resources were handed back, so it stays if that raises.
  */
  function AllocateEnd(p: Pools, vm: Vm, created: bool): (Pools, Option<Error>) {
    if created then (p, None)
    else if vm.port in p.ports then (Freed(p.(vms := p.vms - {vm.name}), vm.pcis, vm.nets, vm.port).0, Some(VmFailed))
    else (Freed(p, vm.pcis, vm.nets, vm.port).0, Some(PortNotListed))
  }

  /** `destroy_vm` after the VM manager returned; the entry is deleted by name. */
  function DestroyEnd(p: Pools, name: string, vm: Vm, destroyed: bool): (Pools, Option<Error>) {
    if !destroyed then (p, Some(VmFailed))
    else if name !in p.vms then (p, Some(NoSuchVm))
    else
      var (freed, listed) := Freed(p.(vms := p.vms - {name}), vm.pcis, vm.nets, vm.port);
      (freed, if listed then None else Some(PortNotListed))
  }

  /** `check_allocate`: could this hypervisor ever create such a VM? */
  predicate Feasible(c: Config, req: Request) {
    && |AsList(req.networks)| <= c.totalMacs
    && req.numGpus <= c.totalGpus
    && ValidNetworks(AsList(req.networks))
  }
}
