/** What `max_vms` and `check_allocate` promise over whole runs, and when the port search cannot fail. */
module AllocatorLimits {
  import opened MapSums
  import opened Vms
  import opened AllocatorSpec
  import opened AllocatorRuns

  lemma StepWithinMaxVms(c: Config, s: State, step: Step)
    requires Enabled(s, step) && |s.pools.vms| <= c.maxVms
    ensures |Next(c, s, step).pools.vms| <= c.maxVms
  {
    match step
    case Allocate(_, req, bind, constructs) => BeginWithinMaxVms(c, s.pools, req, bind, constructs);
    case Created(t, ok) => EndDropsAtMostOne(s.pools, s.tasks[t].vm.name, s.tasks[t].vm, ok);
    case Destroyed(t, ok) => EndDropsAtMostOne(s.pools, s.tasks[t].name, s.tasks[t].vm, ok);
    case _ =>
  }

  lemma EndDropsAtMostOne(p: Pools, name: string, vm: Vm, ok: bool)
    ensures |AllocateEnd(p, vm, ok).0.vms| <= |p.vms| && |DestroyEnd(p, name, vm, ok).0.vms| <= |p.vms|
  {
    SizeWithout(p.vms, vm.name);
    SizeWithout(p.vms, name);
  }

  lemma BeginAddsAtMostOne(c: Config, p: Pools, req: Request, bind: int -> Bind, constructs: bool)
    ensures var (q, outcome) := AllocateBegin(c, p, req, bind, constructs);
      |q.vms| == if outcome.Begun? then |p.vms| + 1 else |p.vms|
  {
    var outcome := AllocateBegin(c, p, req, bind, constructs).1;
    if outcome.Begun? {
      FreshNameIsFresh(c, p.vms);
      SizeWith(p.vms, outcome.vm.name, outcome.vm);
    }
  }

  lemma BeginWithinMaxVms(c: Config, p: Pools, req: Request, bind: int -> Bind, constructs: bool)
    requires |p.vms| <= c.maxVms
    ensures |AllocateBegin(c, p, req, bind, constructs).0.vms| <= c.maxVms
  {
    BeginAddsAtMostOne(c, p, req, bind, constructs);
  }

  /** The test for equality is enough: a run that starts within the limit never exceeds it. */
  lemma {:induction false} WithinMaxVms(c: Config, s: State, steps: seq<Step>)
    requires Runs(c, s, steps) && |s.pools.vms| <= c.maxVms
    ensures |Final(c, s, steps).pools.vms| <= c.maxVms
    decreases |steps|
  {
    if steps != [] {
      StepWithinMaxVms(c, s, steps[0]);
      WithinMaxVms(c, Next(c, s, steps[0]), steps[1..]);
    }
  }

  /** ... but above the limit, where a restore can put it, the same test lets every request through. */
  lemma OverfullStillGrows(c: Config, p: Pools, req: Request, bind: int -> Bind)
    requires |p.vms| > c.maxVms && PortFor(c, p, bind).Found?
    requires |AsList(req.networks)| <= |p.macs| && req.numGpus <= |p.gpus| && ValidNetworks(AsList(req.networks))
    ensures |AllocateBegin(c, p, req, bind, true).0.vms| == |p.vms| + 1
  {
    BeginAddsAtMostOne(c, p, req, bind, true);
  }

  // ----- the port search

  /**
  In the ports that a search within `max_vms` can come to none is denied, and those that something else is
  bound to leave enough for the VMs.
  */
  ghost predicate PortsSuffice(c: Config, bind: int -> Bind) {
    c.maxVms >= 0 ==>
      && NoneDenied(bind, c.solBasePort, c.maxVms + ATTEMPTS)
      && c.maxVms + |Busy(bind, c.solBasePort, c.maxVms + ATTEMPTS)| <= ATTEMPTS
  }

  /** If nothing else is bound to a port, 500 VMs are not too many. */
  lemma BindablePortsSuffice(c: Config, bind: int -> Bind)
    requires forall n :: bind(n) == Bindable
    ensures PortsSuffice(c, bind) <==> c.maxVms <= ATTEMPTS
  {
    if c.maxVms >= 0 {
      NothingBusy(bind, c.solBasePort, c.maxVms + ATTEMPTS);
    }
  }

  ghost predicate EverySearchSuffices(c: Config, steps: seq<Step>) {
    forall step <- steps :: step.Allocate? ==> PortsSuffice(c, step.bind)
  }

  /** Every destroyer that gets its lock still finds its own VM under the name. */
  ghost predicate NeverStale(c: Config, s: State, steps: seq<Step>)
    requires Runs(c, s, steps)
    decreases |steps|
  {
    steps == [] || ((steps[0].Wake? ==> Current(s, steps[0].t)) && NeverStale(c, Next(c, s, steps[0]), steps[1..]))
  }

  lemma PortIsFound(c: Config, p: Pools, bind: int -> Bind)
    requires |p.ports| == |p.vms| < c.maxVms && PortsSuffice(c, bind)
    ensures PortFor(c, p, bind).Found?
  {
    var start := c.solBasePort + |p.vms|;
    BusyWithin(bind, start, ATTEMPTS, c.solBasePort, c.maxVms + ATTEMPTS);
    assert NoneDenied(bind, start, ATTEMPTS);
    SearchSucceeds(p.ports, bind, start, ATTEMPTS);
  }

  lemma ProperWhenPortsSuffice(c: Config, s: State, step: Step)
    requires Enabled(s, step) && |s.pools.ports| == |s.pools.vms| <= c.maxVms
    requires step.Allocate? ==> PortsSuffice(c, step.bind)
    requires step.Wake? ==> Current(s, step.t)
    ensures Proper(c, s, step)
  {
    if step.Allocate? && Refusal(c, s.pools, step.req).None? {
      PortIsFound(c, s.pools, step.bind);
    }
  }

  /** When the ports suffice the reservation section never leaks, so conservation needs no more than current destroyers. */
  lemma {:induction false} ConservationWhenPortsSuffice(c: Config, s: State, steps: seq<Step>, gpus: multiset<Device>, macs: multiset<string>)
    requires Owned(s) && Conserved(s.pools, gpus, macs) && |s.pools.vms| <= c.maxVms
    requires Runs(c, s, steps) && EverySearchSuffices(c, steps) && NeverStale(c, s, steps)
    ensures AllProper(c, s, steps) && AlwaysConserved(c, s, steps, gpus, macs)
    decreases |steps|
  {
    if steps != [] {
      var step := steps[0];
      ListedPortsCount(s.pools, gpus, macs);
      ProperWhenPortsSuffice(c, s, step);
      ProperStepConserves(c, s, step, gpus, macs);
      StepWithinMaxVms(c, s, step);
      ConservationWhenPortsSuffice(c, Next(c, s, step), steps[1..], gpus, macs);
    }
  }

  // ----- check_allocate

  ghost predicate Totals(c: Config, gpus: multiset<Device>, macs: multiset<string>) {
    |gpus| == c.totalGpus && |macs| == c.totalMacs
  }

  /** What `check_allocate` rejects, no state that conserves the devices can serve. */
  lemma InfeasibleIsRefused(c: Config, p: Pools, req: Request, gpus: multiset<Device>, macs: multiset<string>)
    requires Conserved(p, gpus, macs) && Totals(c, gpus, macs) && !Feasible(c, req)
    ensures Refusal(c, p, req).Some?
  {
    assert |multiset(p.gpus)| == |p.gpus| && |multiset(p.macs)| == |p.macs|;
    assert |multiset(p.gpus) + HeldGpus(p.vms)| == |p.gpus| + |HeldGpus(p.vms)|;
    assert |multiset(p.macs) + HeldMacs(p.vms)| == |p.macs| + |HeldMacs(p.vms)|;
  }

  /** What it accepts is served once no VM is live, unless no VM may ever be or there is no port for the first one. */
  lemma FeasibleIsServedWhenIdle(c: Config, p: Pools, req: Request, bind: int -> Bind, gpus: multiset<Device>, macs: multiset<string>)
    requires Conserved(p, gpus, macs) && Totals(c, gpus, macs)
    requires p.vms == map[]
    ensures AllocateBegin(c, p, req, bind, true).1.Begun? <==>
            Feasible(c, req) && c.maxVms != 0 && SearchPort([], bind, c.solBasePort, ATTEMPTS).Found?
  {
    HeldByNone();
    assert |multiset(p.gpus)| == |p.gpus| && |multiset(p.macs)| == |p.macs|;
    ListedPortsCount(p, gpus, macs);
    assert p.ports == [];
  }

  /** Both directions in every reachable state. */
  lemma FeasibilityOverRuns(c: Config, s: State, steps: seq<Step>, req: Request, bind: int -> Bind, constructs: bool,
                            gpus: multiset<Device>, macs: multiset<string>)
    requires Owned(s) && Conserved(s.pools, gpus, macs) && Totals(c, gpus, macs)
    requires Runs(c, s, steps) && AllProper(c, s, steps)
    ensures var p := Final(c, s, steps).pools;
      !Feasible(c, req) ==> AllocateBegin(c, p, req, bind, constructs).0 == p && AllocateBegin(c, p, req, bind, constructs).1.Raised?
    ensures var p := Final(c, s, steps).pools;
      p.vms == map[] ==>
        (AllocateBegin(c, p, req, bind, true).1.Begun? <==>
           Feasible(c, req) && c.maxVms != 0 && SearchPort([], bind, c.solBasePort, ATTEMPTS).Found?)
  {
    Conservation(c, s, steps, gpus, macs);
    ConservedAtTheEnd(c, s, steps, gpus, macs);
    var p := Final(c, s, steps).pools;
    if !Feasible(c, req) {
      InfeasibleIsRefused(c, p, req, gpus, macs);
    }
    if p.vms == map[] {
      FeasibleIsServedWhenIdle(c, p, req, bind, gpus, macs);
    }
  }
}
