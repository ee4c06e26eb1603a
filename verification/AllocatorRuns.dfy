/**
All interleavings of allocations and destructions on one allocator. A task is suspended in one of three
places: while its VM is being created (it holds the VM's lock), while it waits for a VM's lock to destroy
it, or while that VM is being destroyed (it holds the lock). Any enabled task may move next.
*/
module AllocatorRuns {
  import opened PyLists
  import opened Vms
  import opened AllocatorSpec
  import Ledger
  import MapSums

  /** `name` is the one the destruction was asked for. */
  datatype Task = Creating(vm: Vm) | Waiting(vm: Vm, name: string) | Destroying(vm: Vm, name: string)

  datatype State = State(pools: Pools, tasks: map<nat, Task>)

  datatype Step =
    | Allocate(t: nat, req: Request, bind: int -> Bind, constructs: bool)
    | Created(t: nat, ok: bool)      // also: creation cancelled
    | Destroy(t: nat, name: string)
    | Wake(t: nat)                   // the VM's lock is handed to a waiting destroyer
    | Abandon(t: nat)                // a destroyer is cancelled while waiting
    | Destroyed(t: nat, ok: bool)    // also: destruction cancelled

  ghost predicate LockFree(s: State, id: nat) {
    forall t <- s.tasks :: s.tasks[t].vm.id == id ==> s.tasks[t].Waiting?
  }

  ghost predicate Enabled(s: State, step: Step) {
    match step
    case Allocate(t, _, _, _) => t !in s.tasks
    case Created(t, _) => t in s.tasks && s.tasks[t].Creating?
    case Destroy(t, _) => t !in s.tasks
    case Wake(t) => t in s.tasks && s.tasks[t].Waiting? && LockFree(s, s.tasks[t].vm.id)
    case Abandon(t) => t in s.tasks && s.tasks[t].Waiting?
    case Destroyed(t, _) => t in s.tasks && s.tasks[t].Destroying?
  }

  ghost function Next(c: Config, s: State, step: Step): State
    requires Enabled(s, step)
  {
    match step
    case Allocate(t, req, bind, constructs) =>
      var (pools, outcome) := AllocateBegin(c, s.pools, req, bind, constructs);
      State(pools, if outcome.Begun? then s.tasks[t := Creating(outcome.vm)] else s.tasks)
    case Created(t, ok) =>
      State(AllocateEnd(s.pools, s.tasks[t].vm, ok).0, s.tasks - {t})
    case Destroy(t, name) =>
      if name in s.pools.vms then s.(tasks := s.tasks[t := Waiting(s.pools.vms[name], name)]) else s
    case Wake(t) =>
      var (vm, name) := (s.tasks[t].vm, s.tasks[t].name);
      s.(tasks := if name in s.pools.vms then s.tasks[t := Destroying(vm, name)] else s.tasks - {t})
    case Abandon(t) => s.(tasks := s.tasks - {t})
    case Destroyed(t, ok) =>
      State(DestroyEnd(s.pools, s.tasks[t].name, s.tasks[t].vm, ok).0, s.tasks - {t})
  }

  ghost predicate Runs(c: Config, s: State, steps: seq<Step>)
    decreases |steps|
  {
    steps == [] || (Enabled(s, steps[0]) && Runs(c, Next(c, s, steps[0]), steps[1..]))
  }

  ghost function Final(c: Config, s: State, steps: seq<Step>): State
    requires Runs(c, s, steps)
    decreases |steps|
  {
    if steps == [] then s else Final(c, Next(c, s, steps[0]), steps[1..])
  }

  // ----- exactly when conservation holds

  /** The request is admitted, takes something, and then finds no port. */
  predicate Leaks(c: Config, p: Pools, req: Request, bind: int -> Bind) {
    && Refusal(c, p, req).None? && !PortFor(c, p, bind).Found?
    && !(Take(p.gpus, req.numGpus) == [] && AsList(req.networks) == [])
  }

  /** A failed creation gives back what the entry under the VM's name holds, or has nothing to give back and no port to unlist. */
  ghost predicate Returnable(p: Pools, vm: Vm) {
    if vm.port in p.ports then vm.name in p.vms && SameHoldings(vm, p.vms[vm.name]) else vm.pcis == [] && vm.nets == []
  }

  /** The guard under which a step keeps the conservation law; it can be read off the state before the step. */
  ghost predicate Safe(c: Config, s: State, step: Step)
    requires Enabled(s, step)
  {
    var p := s.pools;
    match step
    case Allocate(_, req, bind, _) => !Leaks(c, p, req, bind)
    case Created(t, ok) =>
      ok || Returnable(p, s.tasks[t].vm)
    case Destroyed(t, ok) =>
      ok && s.tasks[t].name in p.vms ==> SameHoldings(s.tasks[t].vm, p.vms[s.tasks[t].name])
    case _ => true
  }

  ghost predicate AllSafe(c: Config, s: State, steps: seq<Step>)
    requires Runs(c, s, steps)
    decreases |steps|
  {
    steps == [] || (Safe(c, s, steps[0]) && AllSafe(c, Next(c, s, steps[0]), steps[1..]))
  }

  ghost predicate AlwaysConserved(c: Config, s: State, steps: seq<Step>, gpus: multiset<Device>, macs: multiset<string>)
    requires Runs(c, s, steps)
    decreases |steps|
  {
    && Conserved(s.pools, gpus, macs)
    && (steps == [] || AlwaysConserved(c, Next(c, s, steps[0]), steps[1..], gpus, macs))
  }

  lemma PortOfLiveVmIsListed(p: Pools, gpus: multiset<Device>, macs: multiset<string>, k: string)
    requires Conserved(p, gpus, macs) && k in p.vms
    ensures p.vms[k].port in p.ports
  {
    HeldWithout(p.vms, k);
    assert p.vms[k].port in multiset(p.ports);
  }

  /** Handing back what a VM holds and dropping the entry under a name is conservative exactly when that entry held the same. */
  lemma HandBackExactly(p: Pools, name: string, vm: Vm, gpus: multiset<Device>, macs: multiset<string>)
    requires Conserved(p, gpus, macs) && name in p.vms && vm.port in p.ports
    ensures Conserved(Freed(p.(vms := p.vms - {name}), vm.pcis, vm.nets, vm.port).0, gpus, macs)
            <==> SameHoldings(vm, p.vms[name])
  {
    var other, rest := p.vms[name], p.vms - {name};
    HeldWithout(p.vms, name);
    Ledger.HandBack(p.gpus, vm.pcis, GpusOf(other), HeldGpus(rest));
    Ledger.HandBack(p.macs, Macs(vm.nets), MacsOf(other), HeldMacs(rest));
    Ledger.Unlist(p.ports, vm.port, other.port, HeldPorts(rest));
  }

  lemma BeginExactly(c: Config, p: Pools, req: Request, bind: int -> Bind, constructs: bool,
                     gpus: multiset<Device>, macs: multiset<string>)
    requires Conserved(p, gpus, macs)
    ensures Conserved(AllocateBegin(c, p, req, bind, constructs).0, gpus, macs) <==> !Leaks(c, p, req, bind)
  {
    if Refusal(c, p, req).None? {
      if PortFor(c, p, bind).Found? {
        BeginFoundPort(c, p, req, bind, constructs, gpus, macs);
      } else {
        BeginWithoutPort(c, p, req, bind, constructs, gpus, macs);
      }
    }
  }

  lemma LendGpus(p: Pools, n: int)
    ensures multiset(Drop(p.gpus, n)) + (HeldGpus(p.vms) + multiset(Take(p.gpus, n))) == multiset(p.gpus) + HeldGpus(p.vms)
    ensures multiset(Drop(p.gpus, n) + Take(p.gpus, n)) + HeldGpus(p.vms) == multiset(p.gpus) + HeldGpus(p.vms)
    ensures multiset(Drop(p.gpus, n)) + HeldGpus(p.vms) == multiset(p.gpus) + HeldGpus(p.vms) <==> Take(p.gpus, n) == []
  {
    SlicesPartition(p.gpus, n);
    Ledger.Lend(p.gpus, Take(p.gpus, n), Drop(p.gpus, n), HeldGpus(p.vms));
  }

  lemma LendMacs(p: Pools, n: nat)
    requires n <= |p.macs|
    ensures multiset(p.macs[n..]) + (HeldMacs(p.vms) + multiset(p.macs[..n])) == multiset(p.macs) + HeldMacs(p.vms)
    ensures multiset(p.macs[n..] + p.macs[..n]) + HeldMacs(p.vms) == multiset(p.macs) + HeldMacs(p.vms)
    ensures multiset(p.macs[n..]) + HeldMacs(p.vms) == multiset(p.macs) + HeldMacs(p.vms) <==> n == 0
  {
    Ledger.Halves(p.macs, n);
    Ledger.Lend(p.macs, p.macs[..n], p.macs[n..], HeldMacs(p.vms));
    assert n == 0 <==> p.macs[..n] == [];
  }

  lemma BeginWithoutPort(c: Config, p: Pools, req: Request, bind: int -> Bind, constructs: bool,
                         gpus: multiset<Device>, macs: multiset<string>)
    requires Conserved(p, gpus, macs) && Refusal(c, p, req).None? && !PortFor(c, p, bind).Found?
    ensures Conserved(AllocateBegin(c, p, req, bind, constructs).0, gpus, macs)
            <==> Take(p.gpus, req.numGpus) == [] && AsList(req.networks) == []
  {
    LendGpus(p, req.numGpus);
    LendMacs(p, |AsList(req.networks)|);
  }

  /** The devices that a failing port search leaves with nobody. */
  ghost function LostGpus(c: Config, p: Pools, req: Request, bind: int -> Bind): multiset<Device> {
    if Refusal(c, p, req).None? && !PortFor(c, p, bind).Found? then multiset(Take(p.gpus, req.numGpus)) else multiset{}
  }

  ghost function LostMacs(c: Config, p: Pools, req: Request, bind: int -> Bind): multiset<string> {
    if Refusal(c, p, req).None? && !PortFor(c, p, bind).Found? then multiset(p.macs[..|AsList(req.networks)|]) else multiset{}
  }

  lemma NothingLost(c: Config, p: Pools, req: Request, bind: int -> Bind)
    ensures LostGpus(c, p, req, bind) == multiset{} && LostMacs(c, p, req, bind) == multiset{} <==> !Leaks(c, p, req, bind)
  {
    if Refusal(c, p, req).None? {
      Ledger.NothingIn(Take(p.gpus, req.numGpus));
      Ledger.NothingIn(p.macs[..|AsList(req.networks)|]);
    }
  }

  lemma TakenAreMissing(p: Pools, n: int, k: nat, gpus: multiset<Device>, macs: multiset<string>)
    requires Conserved(p, gpus, macs) && k <= |p.macs|
    ensures multiset(Take(p.gpus, n)) <= gpus && multiset(p.macs[..k]) <= macs
    ensures Conserved(p.(gpus := Drop(p.gpus, n), macs := p.macs[k..]), gpus - multiset(Take(p.gpus, n)), macs - multiset(p.macs[..k]))
  {
    LendGpus(p, n);
    LendMacs(p, k);
    Ledger.Missing(multiset(Drop(p.gpus, n)), HeldGpus(p.vms), multiset(Take(p.gpus, n)), gpus);
    Ledger.Missing(multiset(p.macs[k..]), HeldMacs(p.vms), multiset(p.macs[..k]), macs);
  }

  lemma MinusNothing(p: Pools, gpus: multiset<Device>, macs: multiset<string>)
    requires Conserved(p, gpus, macs)
    ensures Conserved(p, gpus - multiset{}, macs - multiset{})
  {
    assert gpus - multiset{} == gpus && macs - multiset{} == macs;
  }

  /** What the first half of `allocate_vm` loses is exactly what is missing afterwards. */
  lemma BeginAccounts(c: Config, p: Pools, req: Request, bind: int -> Bind, constructs: bool,
                      gpus: multiset<Device>, macs: multiset<string>)
    requires Conserved(p, gpus, macs)
    ensures LostGpus(c, p, req, bind) <= gpus && LostMacs(c, p, req, bind) <= macs
    ensures Conserved(AllocateBegin(c, p, req, bind, constructs).0, gpus - LostGpus(c, p, req, bind), macs - LostMacs(c, p, req, bind))
  {
    if Refusal(c, p, req).None? && !PortFor(c, p, bind).Found? {
      TakenAreMissing(p, req.numGpus, |AsList(req.networks)|, gpus, macs);
    } else {
      BeginExactly(c, p, req, bind, constructs, gpus, macs);
      MinusNothing(AllocateBegin(c, p, req, bind, constructs).0, gpus, macs);
    }
  }

  lemma BeginFoundPort(c: Config, p: Pools, req: Request, bind: int -> Bind, constructs: bool,
                       gpus: multiset<Device>, macs: multiset<string>)
    requires Conserved(p, gpus, macs) && Refusal(c, p, req).None? && PortFor(c, p, bind).Found?
    ensures Conserved(AllocateBegin(c, p, req, bind, constructs).0, gpus, macs)
  {
    if constructs {
      BeginNewVm(c, p, req, bind, gpus, macs);
    } else {
      BeginFailedVm(c, p, req, bind, gpus, macs);
    }
  }

  lemma FailedVmPools(c: Config, p: Pools, req: Request, bind: int -> Bind)
    requires Refusal(c, p, req).None? && PortFor(c, p, bind).Found?
    ensures var after, k := AllocateBegin(c, p, req, bind, false).0, |AsList(req.networks)|;
      && after.gpus == Drop(p.gpus, req.numGpus) + Take(p.gpus, req.numGpus)
      && after.macs == p.macs[k..] + p.macs[..k]
      && multiset(after.ports) == multiset(p.ports) && after.vms == p.vms
  {
    Ledger.Enlist(p.ports, Number(PortFor(c, p, bind).port));
  }

  lemma RotatedConserves(p: Pools, q: Pools, n: int, k: nat, gpus: multiset<Device>, macs: multiset<string>)
    requires Conserved(p, gpus, macs) && k <= |p.macs|
    requires q.gpus == Drop(p.gpus, n) + Take(p.gpus, n) && q.macs == p.macs[k..] + p.macs[..k]
    requires multiset(q.ports) == multiset(p.ports) && q.vms == p.vms
    ensures Conserved(q, gpus, macs)
  {
    LendGpus(p, n);
    LendMacs(p, k);
  }

  lemma BeginFailedVm(c: Config, p: Pools, req: Request, bind: int -> Bind, gpus: multiset<Device>, macs: multiset<string>)
    requires Conserved(p, gpus, macs) && Refusal(c, p, req).None? && PortFor(c, p, bind).Found?
    ensures Conserved(AllocateBegin(c, p, req, bind, false).0, gpus, macs)
  {
    FailedVmPools(c, p, req, bind);
    RotatedConserves(p, AllocateBegin(c, p, req, bind, false).0, req.numGpus, |AsList(req.networks)|, gpus, macs);
  }

  lemma BeginNewVm(c: Config, p: Pools, req: Request, bind: int -> Bind, gpus: multiset<Device>, macs: multiset<string>)
    requires Conserved(p, gpus, macs) && Refusal(c, p, req).None? && PortFor(c, p, bind).Found?
    ensures Conserved(AllocateBegin(c, p, req, bind, true).0, gpus, macs)
  {
    var begun := AllocateBegin(c, p, req, bind, true).1.vm;
    FreshNameIsFresh(c, p.vms);
    HeldWith(p.vms, begun.name, begun);
    Ledger.Enlist(p.ports, begun.port);
    LendGpus(p, req.numGpus);
    LendMacs(p, |AsList(req.networks)|);
  }

  lemma StrayHandBackExactly(p: Pools, vm: Vm, gpus: multiset<Device>, macs: multiset<string>)
    requires Conserved(p, gpus, macs) && vm.port !in p.ports
    ensures Conserved(Freed(p, vm.pcis, vm.nets, vm.port).0, gpus, macs) <==> vm.pcis == [] && vm.nets == []
  {
    Ledger.Stray(p.gpus, vm.pcis, HeldGpus(p.vms));
    Ledger.Stray(p.macs, Macs(vm.nets), HeldMacs(p.vms));
    assert vm.nets == [] <==> Macs(vm.nets) == [];
  }

  lemma OrphanHandBackFails(p: Pools, vm: Vm, gpus: multiset<Device>, macs: multiset<string>)
    requires Conserved(p, gpus, macs) && vm.port in p.ports && vm.name !in p.vms
    ensures !Conserved(AllocateEnd(p, vm, false).0, gpus, macs)
  {
    MapSums.WithoutAbsent(p.vms, vm.name);
    Ledger.Shorter(p.ports, vm.port);
  }

  lemma EndExactly(p: Pools, vm: Vm, gpus: multiset<Device>, macs: multiset<string>)
    requires Conserved(p, gpus, macs)
    ensures Conserved(AllocateEnd(p, vm, false).0, gpus, macs) <==> Returnable(p, vm)
  {
    if vm.port !in p.ports {
      StrayHandBackExactly(p, vm, gpus, macs);
    } else if vm.name in p.vms {
      HandBackExactly(p, vm.name, vm, gpus, macs);
    } else {
      OrphanHandBackFails(p, vm, gpus, macs);
    }
  }

  lemma DestroyExactly(p: Pools, name: string, vm: Vm, gpus: multiset<Device>, macs: multiset<string>)
    requires Conserved(p, gpus, macs) && name in p.vms
    ensures Conserved(DestroyEnd(p, name, vm, true).0, gpus, macs) <==> SameHoldings(vm, p.vms[name])
  {
    if vm.port in p.ports {
      HandBackExactly(p, name, vm, gpus, macs);
    } else {
      PortOfLiveVmIsListed(p, gpus, macs, name);
      HeldWithout(p.vms, name);
      assert |HeldPorts(p.vms)| == |HeldPorts(p.vms - {name})| + 1;
    }
  }

  /** One step keeps the law if and only if its guard holds. */
  lemma StepExactly(c: Config, s: State, step: Step, gpus: multiset<Device>, macs: multiset<string>)
    requires Conserved(s.pools, gpus, macs) && Enabled(s, step)
    ensures Conserved(Next(c, s, step).pools, gpus, macs) <==> Safe(c, s, step)
  {
    match step
    case Allocate(t, req, bind, constructs) => BeginExactly(c, s.pools, req, bind, constructs, gpus, macs);
    case Created(t, ok) => if !ok { EndExactly(s.pools, s.tasks[t].vm, gpus, macs); }
    case Destroyed(t, ok) =>
      if ok && s.tasks[t].name in s.pools.vms { DestroyExactly(s.pools, s.tasks[t].name, s.tasks[t].vm, gpus, macs); }
    case _ =>
  }

  /** A run keeps the law in every state if and only if every step's guard holds. */
  lemma {:induction false} ConservedExactlyWhenSafe(c: Config, s: State, steps: seq<Step>, gpus: multiset<Device>, macs: multiset<string>)
    requires Conserved(s.pools, gpus, macs) && Runs(c, s, steps)
    ensures AlwaysConserved(c, s, steps, gpus, macs) <==> AllSafe(c, s, steps)
    decreases |steps|
  {
    if steps != [] {
      StepExactly(c, s, steps[0], gpus, macs);
      if Safe(c, s, steps[0]) {
        ConservedExactlyWhenSafe(c, Next(c, s, steps[0]), steps[1..], gpus, macs);
      }
    }
  }

  // ----- two conditions that make every step safe

  /** The port search did not fail, and a destroyer that gets the lock still finds its own VM under the name. */
  ghost predicate Proper(c: Config, s: State, step: Step)
    requires Enabled(s, step)
  {
    match step
    case Allocate(_, req, bind, _) => Refusal(c, s.pools, req).None? ==> PortFor(c, s.pools, bind).Found?
    case Wake(t) => Current(s, t)
    case _ => true
  }

  ghost predicate Current(s: State, t: nat)
    requires t in s.tasks && !s.tasks[t].Creating?
  {
    var (vm, name) := (s.tasks[t].vm, s.tasks[t].name);
    name in s.pools.vms ==> s.pools.vms[name].id == vm.id
  }

  ghost predicate AllProper(c: Config, s: State, steps: seq<Step>)
    requires Runs(c, s, steps)
    decreases |steps|
  {
    steps == [] || (Proper(c, s, steps[0]) && AllProper(c, Next(c, s, steps[0]), steps[1..]))
  }

  /** VMs sit under their own names, identities are unique, and whoever holds a VM's lock finds that VM under its name. */
  ghost predicate Owned(s: State) {
    Keyed(s.pools) && TasksKnow(s) && HoldersOwn(s)
  }

  ghost predicate Keyed(p: Pools) {
    && (forall k <- p.vms :: p.vms[k].name == k && p.vms[k].id < p.nextId)
    && (forall j <- p.vms, k <- p.vms :: j != k ==> p.vms[j].id != p.vms[k].id)
  }

  ghost predicate TasksKnow(s: State) {
    && (forall t <- s.tasks :: s.tasks[t].vm.id < s.pools.nextId)
    && (forall t <- s.tasks, k <- s.pools.vms :: s.tasks[t].vm.id == s.pools.vms[k].id ==> s.tasks[t].vm == s.pools.vms[k])
    && (forall t <- s.tasks :: !s.tasks[t].Creating? ==> s.tasks[t].name == s.tasks[t].vm.name)
  }

  ghost predicate HoldersOwn(s: State) {
    && (forall t <- s.tasks :: !s.tasks[t].Waiting? ==> HoldsOwn(s, t))
    && (forall t <- s.tasks, u <- s.tasks :: t != u && !s.tasks[t].Waiting? && !s.tasks[u].Waiting? ==> s.tasks[t].vm.id != s.tasks[u].vm.id)
  }

  ghost predicate HoldsOwn(s: State, t: nat)
    requires t in s.tasks
  {
    s.tasks[t].vm.name in s.pools.vms && s.pools.vms[s.tasks[t].vm.name] == s.tasks[t].vm
  }

  lemma KeyedWithNewVm(p: Pools, vm: Vm, q: Pools)
    requires Keyed(p) && vm.name !in p.vms && vm.id == p.nextId && q.nextId == p.nextId + 1 && q.vms == p.vms[vm.name := vm]
    ensures Keyed(q)
  {
  }

  lemma HoldersWithNewVm(s: State, t: nat, vm: Vm, p: Pools)
    requires TasksKnow(s) && HoldersOwn(s) && t !in s.tasks
    requires vm.name !in s.pools.vms && vm.id == s.pools.nextId && p.vms == s.pools.vms[vm.name := vm]
    ensures HoldersOwn(State(p, s.tasks[t := Creating(vm)]))
  {
    var e := State(p, s.tasks[t := Creating(vm)]);
    forall u <- e.tasks | !e.tasks[u].Waiting? ensures HoldsOwn(e, u) {
      assert u != t ==> HoldsOwn(s, u);
    }
  }

  lemma TasksWithNewVm(s: State, t: nat, vm: Vm, p: Pools)
    requires Keyed(s.pools) && TasksKnow(s) && t !in s.tasks
    requires vm.name !in s.pools.vms && vm.id == s.pools.nextId
    requires p.nextId == s.pools.nextId + 1 && p.vms == s.pools.vms[vm.name := vm]
    ensures TasksKnow(State(p, s.tasks[t := Creating(vm)]))
  {
  }

  lemma OwnedWithNewVm(s: State, t: nat, vm: Vm, p: Pools)
    requires Owned(s) && t !in s.tasks
    requires vm.name !in s.pools.vms && vm.id == s.pools.nextId
    requires p.nextId == s.pools.nextId + 1 && p.vms == s.pools.vms[vm.name := vm]
    ensures Owned(State(p, s.tasks[t := Creating(vm)]))
  {
    KeyedWithNewVm(s.pools, vm, p);
    TasksWithNewVm(s, t, vm, p);
    HoldersWithNewVm(s, t, vm, p);
  }

  lemma OwnedAfterAllocate(c: Config, s: State, step: Step)
    requires Owned(s) && Enabled(s, step) && step.Allocate?
    ensures Owned(Next(c, s, step))
  {
    var (p, outcome) := AllocateBegin(c, s.pools, step.req, step.bind, step.constructs);
    if outcome.Begun? {
      FreshNameIsFresh(c, s.pools.vms);
      OwnedWithNewVm(s, step.t, outcome.vm, p);
    } else {
      OwnedDependsOnVms(s, p);
    }
  }

  lemma OwnedDependsOnVms(s: State, p: Pools)
    requires Owned(s) && p.vms == s.pools.vms && p.nextId == s.pools.nextId
    ensures Owned(s.(pools := p))
  {
    forall u <- s.tasks | !s.tasks[u].Waiting? ensures HoldsOwn(s.(pools := p), u) {
      assert HoldsOwn(s, u);
    }
  }

  lemma HoldersWithTask(s: State, t: nat, task: Task)
    requires HoldersOwn(s) && (t in s.tasks ==> s.tasks[t].Waiting?)
    requires task.vm.name in s.pools.vms && s.pools.vms[task.vm.name] == task.vm
    requires task.Waiting? || LockFree(s, task.vm.id)
    ensures HoldersOwn(s.(tasks := s.tasks[t := task]))
  {
    var e := s.(tasks := s.tasks[t := task]);
    forall u <- e.tasks | !e.tasks[u].Waiting? ensures HoldsOwn(e, u) {
      assert u != t ==> HoldsOwn(s, u);
    }
  }

  lemma TasksWithTask(s: State, t: nat, task: Task)
    requires Keyed(s.pools) && TasksKnow(s)
    requires task.vm.name in s.pools.vms && s.pools.vms[task.vm.name] == task.vm
    requires !task.Creating? ==> task.name == task.vm.name
    ensures TasksKnow(s.(tasks := s.tasks[t := task]))
  {
  }

  /** A task starts waiting for a live VM's lock, or stops waiting, or gets the lock of the VM that is still its own. */
  lemma OwnedWithTask(s: State, t: nat, task: Task)
    requires Owned(s) && (t in s.tasks ==> s.tasks[t].Waiting?)
    requires task.vm.name in s.pools.vms && s.pools.vms[task.vm.name] == task.vm
    requires task.Waiting? || LockFree(s, task.vm.id)
    requires !task.Creating? ==> task.name == task.vm.name
    ensures Owned(s.(tasks := s.tasks[t := task]))
  {
    TasksWithTask(s, t, task);
    HoldersWithTask(s, t, task);
  }

  lemma OwnedWithoutTask(s: State, t: nat)
    requires Owned(s)
    ensures Owned(s.(tasks := s.tasks - {t}))
  {
    var e := s.(tasks := s.tasks - {t});
    forall u <- e.tasks | !e.tasks[u].Waiting? ensures HoldsOwn(e, u) {
      assert HoldsOwn(s, u);
    }
  }

  /** A task that holds the lock of its own VM ends, with or without dropping the VM. */
  lemma OwnedAfterEnd(s: State, t: nat, p: Pools)
    requires Owned(s) && t in s.tasks && !s.tasks[t].Waiting?
    requires p.nextId == s.pools.nextId
    requires p.vms == s.pools.vms || p.vms == s.pools.vms - {s.tasks[t].vm.name}
    ensures Owned(State(p, s.tasks - {t}))
  {
    var e := State(p, s.tasks - {t});
    forall u <- e.tasks | !e.tasks[u].Waiting? ensures HoldsOwn(e, u) {
      assert HoldsOwn(s, u) && HoldsOwn(s, t);
    }
  }

  lemma OwnedKept(c: Config, s: State, step: Step)
    requires Owned(s) && Enabled(s, step) && Proper(c, s, step)
    ensures Owned(Next(c, s, step))
  {
    match step
    case Allocate(t, req, bind, constructs) => OwnedAfterAllocate(c, s, step);
    case Created(t, ok) => OwnedAfterEnd(s, t, Next(c, s, step).pools);
    case Destroyed(t, ok) => OwnedAfterEnd(s, t, Next(c, s, step).pools);
    case Destroy(t, name) => if name in s.pools.vms { OwnedWithTask(s, t, Waiting(s.pools.vms[name], name)); }
    case Wake(t) =>
      if s.tasks[t].name in s.pools.vms { OwnedWithTask(s, t, Destroying(s.tasks[t].vm, s.tasks[t].name)); } else { OwnedWithoutTask(s, t); }
    case Abandon(t) => OwnedWithoutTask(s, t);
  }

  lemma OwnIsReturnable(s: State, t: nat, gpus: multiset<Device>, macs: multiset<string>)
    requires Conserved(s.pools, gpus, macs) && t in s.tasks && HoldsOwn(s, t)
    ensures Returnable(s.pools, s.tasks[t].vm) && SameHoldings(s.tasks[t].vm, s.pools.vms[s.tasks[t].vm.name])
  {
    PortOfLiveVmIsListed(s.pools, gpus, macs, s.tasks[t].vm.name);
  }

  lemma HolderOwns(s: State, t: nat)
    requires Owned(s) && t in s.tasks && !s.tasks[t].Waiting?
    ensures HoldsOwn(s, t) && (s.tasks[t].Destroying? ==> s.tasks[t].name == s.tasks[t].vm.name)
  {
  }

  lemma CreatedIsSafe(c: Config, s: State, t: nat, ok: bool, gpus: multiset<Device>, macs: multiset<string>)
    requires Conserved(s.pools, gpus, macs) && Enabled(s, Created(t, ok)) && HoldsOwn(s, t)
    ensures Safe(c, s, Created(t, ok))
  {
    OwnIsReturnable(s, t, gpus, macs);
  }

  lemma DestroyedIsSafe(c: Config, s: State, t: nat, ok: bool, gpus: multiset<Device>, macs: multiset<string>)
    requires Conserved(s.pools, gpus, macs) && Enabled(s, Destroyed(t, ok)) && HoldsOwn(s, t) && s.tasks[t].name == s.tasks[t].vm.name
    ensures Safe(c, s, Destroyed(t, ok))
  {
    OwnIsReturnable(s, t, gpus, macs);
  }

  lemma ProperIsSafe(c: Config, s: State, step: Step, gpus: multiset<Device>, macs: multiset<string>)
    requires Owned(s) && Conserved(s.pools, gpus, macs) && Enabled(s, step) && Proper(c, s, step)
    ensures Safe(c, s, step)
  {
    match step
    case Created(t, ok) =>
      HolderOwns(s, t);
      CreatedIsSafe(c, s, t, ok, gpus, macs);
    case Destroyed(t, ok) =>
      HolderOwns(s, t);
      DestroyedIsSafe(c, s, t, ok, gpus, macs);
    case _ =>
  }

  lemma ProperStepConserves(c: Config, s: State, step: Step, gpus: multiset<Device>, macs: multiset<string>)
    requires Owned(s) && Conserved(s.pools, gpus, macs) && Enabled(s, step) && Proper(c, s, step)
    ensures Owned(Next(c, s, step)) && Conserved(Next(c, s, step).pools, gpus, macs)
  {
    ProperIsSafe(c, s, step, gpus, macs);
    StepExactly(c, s, step, gpus, macs);
    OwnedKept(c, s, step);
  }

  /** The main theorem: in such a run no device is ever lost or handed out twice, whatever fails or is cancelled. */
  lemma {:induction false} Conservation(c: Config, s: State, steps: seq<Step>, gpus: multiset<Device>, macs: multiset<string>)
    requires Owned(s) && Conserved(s.pools, gpus, macs)
    requires Runs(c, s, steps) && AllProper(c, s, steps)
    ensures AlwaysConserved(c, s, steps, gpus, macs)
    decreases |steps|
  {
    if steps != [] {
      ProperStepConserves(c, s, steps[0], gpus, macs);
      Conservation(c, Next(c, s, steps[0]), steps[1..], gpus, macs);
    }
  }

  lemma {:induction false} ConservedAtTheEnd(c: Config, s: State, steps: seq<Step>, gpus: multiset<Device>, macs: multiset<string>)
    requires Runs(c, s, steps) && AlwaysConserved(c, s, steps, gpus, macs)
    ensures Conserved(Final(c, s, steps).pools, gpus, macs)
    decreases |steps|
  {
    if steps != [] {
      ConservedAtTheEnd(c, Next(c, s, steps[0]), steps[1..], gpus, macs);
    }
  }

  lemma NeverShared(c: Config, s: State, steps: seq<Step>, gpus: multiset<Device>, macs: multiset<string>, j: string, k: string)
    requires Owned(s) && Conserved(s.pools, gpus, macs)
    requires Runs(c, s, steps) && AllProper(c, s, steps)
    requires (forall d :: gpus[d] <= 1) && (forall m :: macs[m] <= 1)
    requires j in Final(c, s, steps).pools.vms && k in Final(c, s, steps).pools.vms && j != k
    ensures var vms := Final(c, s, steps).pools.vms;
      multiset(vms[j].pcis) !! multiset(vms[k].pcis) && multiset(Macs(vms[j].nets)) !! multiset(Macs(vms[k].nets))
  {
    Conservation(c, s, steps, gpus, macs);
    ConservedAtTheEnd(c, s, steps, gpus, macs);
    NoDeviceInTwoVms(Final(c, s, steps).pools, gpus, macs, j, k);
  }
}
