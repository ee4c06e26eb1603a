/**
What each half of `allocate_vm` and `destroy_vm` answers and leaves, written out in terms of the pools, the
request and the sockets alone.
*/
module AllocatorOutcomes {
  import opened PyLists
  import opened Vms
  import opened AllocatorSpec
  import opened AllocatorRuns
  import Decimals

  /** The networks asked for; a lone name is a list of one. */
  predicate Asks(req: Request, networks: seq<string>) {
    req.networks == Many(networks) || (|networks| == 1 && req.networks == One(networks[0]))
  }

  /** Port `n` is the first, from the base plus the number of live VMs, that is neither listed nor in use, within 500. */
  ghost predicate FirstPort(c: Config, p: Pools, bind: int -> Bind, n: int) {
    && c.solBasePort + |p.vms| <= n < c.solBasePort + |p.vms| + 500
    && Number(n) !in p.ports && bind(n) != InUse
    && forall m :: c.solBasePort + |p.vms| <= m < n ==> Number(m) in p.ports || bind(m) == InUse
  }

  lemma FirstPortExactly(c: Config, p: Pools, bind: int -> Bind, n: int)
    ensures FirstPort(c, p, bind, n) <==> StopsAt(p.ports, bind, c.solBasePort + |p.vms|, ATTEMPTS, n)
  {
    var start := c.solBasePort + |p.vms|;
    if StopsAt(p.ports, bind, start, ATTEMPTS, n) {
      forall m | start <= m < n ensures Number(m) in p.ports || bind(m) == InUse {
        assert Skipped(p.ports, bind, m);
      }
    }
  }

  lemma FirstPortIsFound(c: Config, p: Pools, bind: int -> Bind)
    ensures forall n :: PortFor(c, p, bind) == Found(n) <==> FirstPort(c, p, bind, n) && bind(n) == Bindable
    ensures PortFor(c, p, bind) == SocketError <==> exists n :: FirstPort(c, p, bind, n) && bind(n) == Denied
  {
    SearchIsExact(p.ports, bind, c.solBasePort + |p.vms|, ATTEMPTS);
    forall n ensures FirstPort(c, p, bind, n) <==> StopsAt(p.ports, bind, c.solBasePort + |p.vms|, ATTEMPTS, n) {
      FirstPortExactly(c, p, bind, n);
    }
  }

  // ----- the refusals

  predicate Known(networks: seq<string>) {
    forall i :: 0 <= i < |networks| ==> networks[i] == "bridge" || networks[i] == "isolated"
  }

  lemma KnownExactly(networks: seq<string>)
    ensures Known(networks) <==> ValidNetworks(networks)
  {
    if Known(networks) {
      forall n <- networks ensures n == "bridge" || n == "isolated" {
        var i :| 0 <= i < |networks| && networks[i] == n;
      }
    }
    forall i | 0 <= i < |networks| && ValidNetworks(networks) ensures networks[i] == "bridge" || networks[i] == "isolated" {
      assert networks[i] in networks;
    }
  }

  lemma AsListIsAsked(req: Request, networks: seq<string>)
    requires Asks(req, networks)
    ensures AsList(req.networks) == networks
  {
  }

  /** Too few MACs are found out first, then too few GPUs, then an unknown network, then the limit; each leaves everything as it is. */
  lemma RefusedExactly(c: Config, p: Pools, req: Request, networks: seq<string>, bind: int -> Bind, constructs: bool)
    requires Asks(req, networks)
    ensures var (q, r) := AllocateBegin(c, p, req, bind, constructs);
      && (r == Raised(NotEnoughMacs) <==> |networks| > |p.macs|)
      && (r == Raised(NotEnoughGpus) <==> |networks| <= |p.macs| && req.numGpus > |p.gpus|)
      && (r == Raised(InvalidNetworks) <==> |networks| <= |p.macs| && req.numGpus <= |p.gpus| && !Known(networks))
      && (r == Raised(TooManyVms) <==> |networks| <= |p.macs| && req.numGpus <= |p.gpus| && Known(networks) && |p.vms| == c.maxVms)
      && (r.Raised? && r.error in {NotEnoughMacs, NotEnoughGpus, InvalidNetworks, TooManyVms} ==> q == p)
  {
    AsListIsAsked(req, networks);
    KnownExactly(networks);
  }

  /** What no refusal stands against. */
  predicate Admitted(c: Config, p: Pools, req: Request, networks: seq<string>) {
    |networks| <= |p.macs| && req.numGpus <= |p.gpus| && Known(networks) && |p.vms| != c.maxVms
  }

  lemma AdmittedExactly(c: Config, p: Pools, req: Request, networks: seq<string>)
    requires Asks(req, networks)
    ensures Admitted(c, p, req, networks) <==> Refusal(c, p, req).None?
  {
    AsListIsAsked(req, networks);
    KnownExactly(networks);
  }

  /** A VM is begun exactly if the request is admitted, the first port can be bound and the object can be made. */
  lemma BegunExactly(c: Config, p: Pools, req: Request, networks: seq<string>, bind: int -> Bind, constructs: bool)
    requires Asks(req, networks)
    ensures AllocateBegin(c, p, req, bind, constructs).1.Begun?
            <==> Admitted(c, p, req, networks) && constructs && exists n :: FirstPort(c, p, bind, n) && bind(n) == Bindable
  {
    AdmittedExactly(c, p, req, networks);
    FirstPortIsFound(c, p, bind);
  }

  /** Where a Python slice with bound `n` ends in a list of the given size. */
  function SliceEnd(size: nat, n: int): (e: nat)
    ensures e <= size
  {
    if n > size then size else if n >= 0 then n else if size + n >= 0 then size + n else 0
  }

  lemma NoPortExactly(c: Config, p: Pools, bind: int -> Bind)
    ensures PortFor(c, p, bind) == NoFreePort <==> forall n :: !FirstPort(c, p, bind, n)
  {
    FirstPortIsFound(c, p, bind);
    SearchIsExact(p.ports, bind, c.solBasePort + |p.vms|, ATTEMPTS);
    forall n ensures FirstPort(c, p, bind, n) <==> StopsAt(p.ports, bind, c.solBasePort + |p.vms|, ATTEMPTS, n) {
      FirstPortExactly(c, p, bind, n);
    }
  }

  /**
  An admitted request that begins no VM raises the port search's failure, with the devices off the pools, or
  the object's own, with everything given back; the live VMs are the same.
  */
  lemma NotBegunAs(c: Config, p: Pools, req: Request, networks: seq<string>, bind: int -> Bind, constructs: bool)
    requires Asks(req, networks) && Admitted(c, p, req, networks) && AllocateBegin(c, p, req, bind, constructs).1.Raised?
    ensures var (q, r) := AllocateBegin(c, p, req, bind, constructs);
      var e := SliceEnd(|p.gpus|, req.numGpus);
      && q.vms == p.vms && q.nextId == p.nextId
      && (r.error == PortSearchFailed(NoFreePort) <==> forall n :: !FirstPort(c, p, bind, n))
      && (r.error == PortSearchFailed(SocketError) <==> exists n :: FirstPort(c, p, bind, n) && bind(n) == Denied)
      && (r.error == VmFailed <==> exists n :: FirstPort(c, p, bind, n) && bind(n) == Bindable)
      && (r.error != VmFailed ==> q.gpus == p.gpus[e..] && q.macs == p.macs[|networks|..] && q.ports == p.ports)
      && (r.error == VmFailed ==> q.gpus == p.gpus[e..] + p.gpus[..e] && q.macs == p.macs[|networks|..] + p.macs[..|networks|]
                                  && multiset(q.ports) == multiset(p.ports))
  {
    AsListIsAsked(req, networks);
    AdmittedExactly(c, p, req, networks);
    NoPortExactly(c, p, bind);
    FirstPortIsFound(c, p, bind);
    if PortFor(c, p, bind).Found? {
      FailedVmPools(c, p, req, bind);
    }
  }

  // ----- the VM that is begun

  /** A bridged interface sits on the bridge device, any other on the private network. */
  predicate Wired(c: Config, net: Net, mac: string, network: string) {
    && net.mac == mac && net.mode == network
    && net.source == if network == "bridge" then c.bridgeDevice else c.privateNetwork
  }

  /** All of the interfaces, by the first free MACs in order. */
  predicate AllWired(c: Config, nets: seq<Net>, macs: seq<string>, networks: seq<string>) {
    |nets| == |networks| <= |macs| && forall i :: 0 <= i < |nets| ==> Wired(c, nets[i], macs[i], networks[i])
  }

  lemma BegunIsWired(c: Config, p: Pools, req: Request, networks: seq<string>, bind: int -> Bind)
    requires Asks(req, networks) && AllocateBegin(c, p, req, bind, true).1.Begun?
    ensures AllWired(c, AllocateBegin(c, p, req, bind, true).1.vm.nets, p.macs, networks)
    ensures AllocateBegin(c, p, req, bind, true).0.macs == p.macs[|networks|..]
  {
    AsListIsAsked(req, networks);
  }

  lemma BegunHasGpus(c: Config, p: Pools, req: Request, bind: int -> Bind)
    requires AllocateBegin(c, p, req, bind, true).1.Begun?
    ensures var (q, r) := AllocateBegin(c, p, req, bind, true);
      var e := SliceEnd(|p.gpus|, req.numGpus);
      r.vm.pcis == p.gpus[..e] && q.gpus == p.gpus[e..]
  {
  }

  lemma BegunIsListed(c: Config, p: Pools, req: Request, bind: int -> Bind)
    requires AllocateBegin(c, p, req, bind, true).1.Begun?
    ensures var (q, r) := AllocateBegin(c, p, req, bind, true);
      && r.vm.port.Number? && FirstPort(c, p, bind, r.vm.port.n) && bind(r.vm.port.n) == Bindable
      && q.ports == p.ports + [r.vm.port]
      && r.vm.name !in p.vms && q.vms == p.vms[r.vm.name := r.vm]
      && r.vm.id == p.nextId && q.nextId == p.nextId + 1
  {
    FirstPortIsFound(c, p, bind);
    FreshNameIsFresh(c, p.vms);
  }

  /** The name is the server's, `-vm-`, and the least number, from the number of live VMs on, that is not taken. */
  lemma BegunIsNamed(c: Config, p: Pools, req: Request, bind: int -> Bind) returns (i: nat)
    requires AllocateBegin(c, p, req, bind, true).1.Begun?
    ensures |p.vms| <= i && AllocateBegin(c, p, req, bind, true).1.vm.name == c.serverName + "-vm-" + Decimals.Natural(i)
    ensures forall j: nat :: |p.vms| <= j < i ==> c.serverName + "-vm-" + Decimals.Natural(j) in p.vms
  {
    i := FreeIndex(c.serverName, p.vms.Keys, |p.vms|);
    forall j: nat | |p.vms| <= j < i ensures c.serverName + "-vm-" + Decimals.Natural(j) in p.vms {
      assert VmName(c.serverName, j) in p.vms.Keys;
    }
  }

  /** Names as the repository's own checks expect them. */
  lemma ExpectedNames()
    ensures VmName("sasha", 0) == "sasha-vm-0" && VmName("sasha", 12) == "sasha-vm-12"
  {
    assert Decimals.Natural(12) == Decimals.Natural(1) + "2";
    assert "sasha" + "-vm-" == "sasha-vm-";
    assert "sasha-vm-" + "0" == "sasha-vm-0";
    assert "sasha-vm-" + "12" == "sasha-vm-12";
  }

  // ----- the ends

  /**
  A creation that succeeds changes nothing. One that fails drops the VM and raises its own error; but if the
  port is not listed it raises that, after the devices went back and before the VM is dropped.
  */
  lemma EndedAs(p: Pools, vm: Vm, created: bool)
    ensures var (q, e) := AllocateEnd(p, vm, created);
      && (created ==> e == None && q == p)
      && (!created && vm.port in p.ports ==> e == Some(VmFailed) && q.vms == p.vms - {vm.name} && |q.ports| == |p.ports| - 1)
      && (!created && vm.port !in p.ports ==> e == Some(PortNotListed) && q.vms == p.vms && q.ports == p.ports)
      && (!created ==> q.gpus == p.gpus + vm.pcis && q.macs == p.macs + Macs(vm.nets))
  {
    RemoveFirstIsOneLess(p.ports, vm.port);
  }

  /** A destruction that fails, or finds the name gone, changes nothing; any other drops the entry and gives everything back. */
  lemma DestroyedAs(p: Pools, name: string, vm: Vm, destroyed: bool)
    ensures var (q, e) := DestroyEnd(p, name, vm, destroyed);
      && (!destroyed ==> e == Some(VmFailed) && q == p)
      && (destroyed && name !in p.vms ==> e == Some(NoSuchVm) && q == p)
      && (destroyed && name in p.vms ==>
            && q.vms == p.vms - {name} && q.gpus == p.gpus + vm.pcis && q.macs == p.macs + Macs(vm.nets)
            && (vm.port in p.ports ==> e == None && |q.ports| == |p.ports| - 1)
            && (vm.port !in p.ports ==> e == Some(PortNotListed) && q.ports == p.ports))
  {
    RemoveFirstIsOneLess(p.ports, vm.port);
  }

  // ----- a whole destruction

  /** A destroyer that gives up while it waits, or that wakes to find the name gone, leaves no trace. */
  lemma DestroyerGivesUp(c: Config, s: State, t: nat)
    requires t in s.tasks && s.tasks[t].Waiting?
    ensures Next(c, s, Abandon(t)) == State(s.pools, s.tasks - {t})
    ensures LockFree(s, s.tasks[t].vm.id) && s.tasks[t].name !in s.pools.vms ==> Next(c, s, Wake(t)) == State(s.pools, s.tasks - {t})
  {
  }

  /** A destruction with nothing in between: an unknown name starts nothing, and a live one goes with its devices. */
  lemma UninterruptedDestroy(c: Config, s: State, t: nat, name: string, ok: bool)
    requires t !in s.tasks
    ensures name !in s.pools.vms ==> Next(c, s, Destroy(t, name)) == s
    ensures name in s.pools.vms && LockFree(s, s.pools.vms[name].id) ==>
      var vm := s.pools.vms[name];
      var s1 := Next(c, s, Destroy(t, name));
      && Enabled(s1, Wake(t))
      && Enabled(Next(c, s1, Wake(t)), Destroyed(t, ok))
      && Next(c, Next(c, s1, Wake(t)), Destroyed(t, ok)) == State(DestroyEnd(s.pools, name, vm, ok).0, s.tasks)
  {
    if name in s.pools.vms && LockFree(s, s.pools.vms[name].id) {
      var vm := s.pools.vms[name];
      var s1 := Next(c, s, Destroy(t, name));
      assert s1.tasks == s.tasks[t := Waiting(vm, name)];
      var s2 := Next(c, s1, Wake(t));
      assert s2.tasks == s.tasks[t := Destroying(vm, name)];
      assert s2.tasks - {t} == s.tasks;
    }
  }
}
