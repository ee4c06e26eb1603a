/**
Serial ports of live VMs. A port that was read back after a restart is text, and the search for a free port
compares numbers, so a restored VM's port is not passed over.
*/
module AllocatorPorts {
  import opened PyLists
  import opened Vms
  import opened AllocatorSpec
  import opened AllocatorRuns
  import Decimals

  /** Two entries that stand for one port, written as a number or as text. */
  predicate SamePort(a: Port, b: Port) {
    a != Absent && Render(a) == Render(b)
  }

  /** No two live VMs have the same serial port. */
  ghost predicate PortsApart(vms: map<string, Vm>) {
    forall j <- vms, k <- vms :: j != k ==> !SamePort(vms[j].port, vms[k].port)
  }

  /** Some live VM was restored with the text of port `n`. */
  ghost predicate IsRestored(vms: map<string, Vm>, n: int) {
    exists k <- vms :: vms[k].port == Text(Decimals.OfInt(n))
  }

  /**
  The port of a live restored VM can be bound, and each port before it, from where the search starts, is listed
  as a number or in use.
  */
  ghost predicate Reuses(c: Config, p: Pools, bind: int -> Bind) {
    exists n :: StopsAt(p.ports, bind, c.solBasePort + |p.vms|, ATTEMPTS, n) && bind(n) == Bindable && IsRestored(p.vms, n)
  }

  /** An allocation that is admitted and whose VM can be built comes to no such port. */
  ghost predicate PortClear(c: Config, s: State, step: Step) {
    step.Allocate? && Refusal(c, s.pools, step.req).None? && step.constructs ==> !Reuses(c, s.pools, step.bind)
  }

  lemma RenderedNumbers(a: Port, b: Port)
    requires a.Number? && b.Number? && Render(a) == Render(b)
    ensures a == b
  {
    Decimals.OfIntIsInjective(a.n, b.n);
  }

  lemma NewPortIsUnlisted(c: Config, p: Pools, req: Request, bind: int -> Bind, constructs: bool)
    ensures var (q, r) := AllocateBegin(c, p, req, bind, constructs);
      && (r.Begun? ==> r.vm.port.Number? && r.vm.port !in p.ports)
      && (r.Begun? ==> r.vm.name !in p.vms && q.vms == p.vms[r.vm.name := r.vm])
      && (r.Raised? ==> q.vms == p.vms)
  {
    SearchIsExact(p.ports, bind, c.solBasePort + |p.vms|, ATTEMPTS);
    FreshNameIsFresh(c, p.vms);
  }

  /** Among conserving pools, a new VM can share its port only with a restored one. */
  lemma SharedOnlyWithText(p: Pools, vm: Vm, k: string, gpus: multiset<Device>, macs: multiset<string>)
    requires Conserved(p, gpus, macs) && k in p.vms && vm.port.Number? && vm.port !in p.ports
    ensures SamePort(vm.port, p.vms[k].port) <==> p.vms[k].port == Render(vm.port)
  {
    PortOfLiveVmIsListed(p, gpus, macs, k);
    if p.vms[k].port.Number? && Render(vm.port) == Render(p.vms[k].port) {
      RenderedNumbers(vm.port, p.vms[k].port);
    }
  }

  lemma ApartWith(vms: map<string, Vm>, vm: Vm)
    requires PortsApart(vms) && vm.name !in vms
    ensures PortsApart(vms[vm.name := vm]) <==> forall k <- vms :: !SamePort(vm.port, vms[k].port)
  {
    var after := vms[vm.name := vm];
    if PortsApart(after) {
      forall k <- vms ensures !SamePort(vm.port, vms[k].port) {
        assert after[k] == vms[k] && after[vm.name] == vm;
      }
    }
  }

  /** The port that the search finds belongs to a restored VM if and only if the state and the sockets say so. */
  lemma ReusesFound(c: Config, p: Pools, bind: int -> Bind)
    ensures Reuses(c, p, bind) <==> PortFor(c, p, bind).Found? && IsRestored(p.vms, PortFor(c, p, bind).port)
  {
    SearchIsExact(p.ports, bind, c.solBasePort + |p.vms|, ATTEMPTS);
  }

  lemma BeginsExactly(c: Config, p: Pools, req: Request, bind: int -> Bind, constructs: bool)
    ensures var r := AllocateBegin(c, p, req, bind, constructs).1;
      && (r.Begun? <==> Refusal(c, p, req).None? && constructs && PortFor(c, p, bind).Found?)
      && (r.Begun? ==> r.vm.port == Number(PortFor(c, p, bind).port))
  {
  }

  lemma NewVmApartExactly(p: Pools, vm: Vm, gpus: multiset<Device>, macs: multiset<string>)
    requires Conserved(p, gpus, macs) && PortsApart(p.vms) && vm.name !in p.vms && vm.port.Number? && vm.port !in p.ports
    ensures PortsApart(p.vms[vm.name := vm]) <==> !IsRestored(p.vms, vm.port.n)
  {
    ApartWith(p.vms, vm);
    forall k <- p.vms ensures SamePort(vm.port, p.vms[k].port) <==> p.vms[k].port == Text(Decimals.OfInt(vm.port.n)) {
      SharedOnlyWithText(p, vm, k, gpus, macs);
    }
  }

  lemma BeginApartExactly(c: Config, p: Pools, req: Request, bind: int -> Bind, constructs: bool,
                          gpus: multiset<Device>, macs: multiset<string>)
    requires Conserved(p, gpus, macs) && PortsApart(p.vms)
    ensures PortsApart(AllocateBegin(c, p, req, bind, constructs).0.vms)
            <==> (Refusal(c, p, req).None? && constructs ==> !Reuses(c, p, bind))
  {
    var r := AllocateBegin(c, p, req, bind, constructs).1;
    NewPortIsUnlisted(c, p, req, bind, constructs);
    BeginsExactly(c, p, req, bind, constructs);
    ReusesFound(c, p, bind);
    if r.Begun? {
      NewVmApartExactly(p, r.vm, gpus, macs);
    }
  }

  /** One step keeps the ports of live VMs apart if and only if no allocation in it comes to the port of a restored one. */
  lemma StepApartExactly(c: Config, s: State, step: Step, gpus: multiset<Device>, macs: multiset<string>)
    requires Conserved(s.pools, gpus, macs) && PortsApart(s.pools.vms) && Enabled(s, step)
    ensures PortsApart(Next(c, s, step).pools.vms) <==> PortClear(c, s, step)
  {
    if step.Allocate? {
      BeginApartExactly(c, s.pools, step.req, step.bind, step.constructs, gpus, macs);
    } else {
      OtherStepsAddNothing(c, s, step);
      FewerStayApart(s.pools.vms, Next(c, s, step).pools.vms);
    }
  }

  lemma OtherStepsAddNothing(c: Config, s: State, step: Step)
    requires Enabled(s, step) && !step.Allocate?
    ensures var vms := Next(c, s, step).pools.vms; forall k <- vms :: k in s.pools.vms && vms[k] == s.pools.vms[k]
  {
  }

  lemma FewerStayApart(vms: map<string, Vm>, fewer: map<string, Vm>)
    requires PortsApart(vms) && forall k <- fewer :: k in vms && fewer[k] == vms[k]
    ensures PortsApart(fewer)
  {
  }

  ghost predicate AlwaysApart(c: Config, s: State, steps: seq<Step>)
    requires Runs(c, s, steps)
    decreases |steps|
  {
    PortsApart(s.pools.vms) && (steps == [] || AlwaysApart(c, Next(c, s, steps[0]), steps[1..]))
  }

  ghost predicate AlwaysClear(c: Config, s: State, steps: seq<Step>)
    requires Runs(c, s, steps)
    decreases |steps|
  {
    steps == [] || (PortClear(c, s, steps[0]) && AlwaysClear(c, Next(c, s, steps[0]), steps[1..]))
  }

  /** Over every conserving run, no two live VMs ever share a port if and only if no allocation comes to the port of a live restored one. */
  lemma {:induction false} ApartExactlyWhenClear(c: Config, s: State, steps: seq<Step>, gpus: multiset<Device>, macs: multiset<string>)
    requires PortsApart(s.pools.vms) && Runs(c, s, steps) && AlwaysConserved(c, s, steps, gpus, macs)
    ensures AlwaysApart(c, s, steps) <==> AlwaysClear(c, s, steps)
    decreases |steps|
  {
    if steps != [] {
      StepApartExactly(c, s, steps[0], gpus, macs);
      if PortClear(c, s, steps[0]) {
        ApartExactlyWhenClear(c, Next(c, s, steps[0]), steps[1..], gpus, macs);
      }
    }
  }

  // ----- when restored VMs hold their ports

  /** Every port that a live VM was restored with is in use, as it is while the domain that binds it runs. */
  ghost predicate RestoredAreBusy(s: State, step: Step) {
    step.Allocate? ==> forall n :: IsRestored(s.pools.vms, n) ==> step.bind(n) == InUse
  }

  ghost predicate AlwaysBusy(c: Config, s: State, steps: seq<Step>)
    requires Runs(c, s, steps)
    decreases |steps|
  {
    steps == [] || (RestoredAreBusy(s, steps[0]) && AlwaysBusy(c, Next(c, s, steps[0]), steps[1..]))
  }

  lemma {:induction false} BusyIsClear(c: Config, s: State, steps: seq<Step>)
    requires Runs(c, s, steps) && AlwaysBusy(c, s, steps)
    ensures AlwaysClear(c, s, steps)
    decreases |steps|
  {
    if steps != [] {
      BusyIsClear(c, Next(c, s, steps[0]), steps[1..]);
    }
  }

  /** So in a run in which restored VMs hold their ports, no two live VMs ever share one. */
  lemma ApartWhenRestoredAreBusy(c: Config, s: State, steps: seq<Step>, gpus: multiset<Device>, macs: multiset<string>)
    requires PortsApart(s.pools.vms) && Runs(c, s, steps) && AlwaysConserved(c, s, steps, gpus, macs)
    requires AlwaysBusy(c, s, steps)
    ensures AlwaysApart(c, s, steps)
  {
    BusyIsClear(c, s, steps);
    ApartExactlyWhenClear(c, s, steps, gpus, macs);
  }

  // ----- without restored VMs

  ghost predicate AllNumbers(vms: map<string, Vm>) {
    forall k <- vms :: vms[k].port.Number?
  }

  lemma NumbersAreBusy(c: Config, s: State, step: Step)
    requires AllNumbers(s.pools.vms) && Enabled(s, step)
    ensures RestoredAreBusy(s, step) && AllNumbers(Next(c, s, step).pools.vms)
  {
    if step.Allocate? {
      NewPortIsUnlisted(c, s.pools, step.req, step.bind, step.constructs);
    } else {
      OtherStepsAddNothing(c, s, step);
    }
  }

  lemma {:induction false} NumbersAreAlwaysBusy(c: Config, s: State, steps: seq<Step>)
    requires AllNumbers(s.pools.vms) && Runs(c, s, steps)
    ensures AlwaysBusy(c, s, steps)
    decreases |steps|
  {
    if steps != [] {
      NumbersAreBusy(c, s, steps[0]);
      NumbersAreAlwaysBusy(c, Next(c, s, steps[0]), steps[1..]);
    }
  }

  /** A run that starts without restored VMs never makes two VMs share a port. */
  lemma ApartWithoutRestore(c: Config, s: State, steps: seq<Step>, gpus: multiset<Device>, macs: multiset<string>)
    requires AllNumbers(s.pools.vms) && PortsApart(s.pools.vms)
    requires Runs(c, s, steps) && AlwaysConserved(c, s, steps, gpus, macs)
    ensures AlwaysApart(c, s, steps)
  {
    NumbersAreAlwaysBusy(c, s, steps);
    ApartWhenRestoredAreBusy(c, s, steps, gpus, macs);
  }

  // ----- and with one

  /** A VM that was restored with the text of the second port. */
  predicate HasSecondPort(c: Config, vm: Vm) {
    vm.port == Text(Decimals.OfInt(c.solBasePort + 1))
  }

  /** The allocator after a restart that restored only that VM. */
  predicate Restarted(p: Pools, vm: Vm) {
    p.ports == [vm.port] && p.vms == map[vm.name := vm]
  }

  lemma OnlyEntry<K, V>(k: K, v: V)
    ensures map[k := v] - {k} == map[]
  {
  }

  lemma HeldByOne(vm: Vm)
    ensures var vms := map[vm.name := vm];
      HeldGpus(vms) == multiset(vm.pcis) && HeldMacs(vms) == multiset(Macs(vm.nets)) && HeldPorts(vms) == multiset{vm.port}
  {
    HeldByNone();
    HeldWithout(map[vm.name := vm], vm.name);
    OnlyEntry(vm.name, vm);
  }

  lemma OneVmIsConserved(p: Pools, vm: Vm)
    requires Restarted(p, vm)
    ensures Conserved(p, multiset(p.gpus) + multiset(vm.pcis), multiset(p.macs) + multiset(Macs(vm.nets)))
  {
    HeldByOne(vm);
  }

  lemma OneVmIsApart(vm: Vm)
    ensures PortsApart(map[vm.name := vm])
  {
  }

  lemma SecondPortIsFound(c: Config, p: Pools, vm: Vm, bind: int -> Bind)
    requires Restarted(p, vm) && HasSecondPort(c, vm) && bind(c.solBasePort + 1) == Bindable
    ensures PortFor(c, p, bind) == Found(c.solBasePort + 1)
  {
    assert p.vms.Keys == {vm.name} && |p.vms| == |p.vms.Keys|;
  }

  /** If that port can be bound, the next VM, whatever it asks for, gets it too. */
  lemma RestoredPortIsReused(c: Config, p: Pools, vm: Vm, req: Request, bind: int -> Bind)
    requires Restarted(p, vm) && HasSecondPort(c, vm) && bind(c.solBasePort + 1) == Bindable && Refusal(c, p, req).None?
    ensures PortsApart(p.vms)
    ensures var (q, r) := AllocateBegin(c, p, req, bind, true);
      r.Begun? && SamePort(r.vm.port, vm.port) && !PortsApart(q.vms)
  {
    OneVmIsConserved(p, vm);
    OneVmIsApart(vm);
    SecondPortIsFound(c, p, vm, bind);
    ReusesFound(c, p, bind);
    BeginsExactly(c, p, req, bind, true);
    assert IsRestored(p.vms, c.solBasePort + 1) by { assert vm.name in p.vms; }
    BeginApartExactly(c, p, req, bind, true, multiset(p.gpus) + multiset(vm.pcis), multiset(p.macs) + multiset(Macs(vm.nets)));
  }
}
