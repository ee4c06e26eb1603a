/** Requests for several VMs at once: `HyperVisor.fulfill` over the allocator. */
module HyperVisor {
  import opened PyLists
  import opened Vms
  import opened AllocatorSpec
  import opened AllocatorRuns
  import opened AllocatorLimits
  import opened Allocator
  import opened MapSums
  import AllocatorOutcomes
  import Ledger

  /** The part of a demand the allocator's pools depend on; missing entries have defaults. */
  datatype Demand = Demand(networks: Option<Networks>, gpus: Option<int>)

  function ToRequest(demand: Demand): Request {
    Request(if demand.networks.Some? then demand.networks.value else Many(["bridge"]),
            if demand.gpus.Some? then demand.gpus.value else 1)
  }

  function ToRequests(demands: seq<Demand>): (r: seq<Request>)
    ensures |r| == |demands|
  {
    seq(|demands|, i requires 0 <= i < |demands| => ToRequest(demands[i]))
  }

  /** A demand without entries that is served gets one GPU and one interface, bridged, by the first free MAC. */
  lemma DefaultDemand(c: Config, p: Pools, bind: int -> Bind)
    requires AllocateBegin(c, p, ToRequest(Demand(None, None)), bind, true).1.Begun?
    ensures var vm := AllocateBegin(c, p, ToRequest(Demand(None, None)), bind, true).1.vm;
      && |p.macs| > 0 && vm.nets == [Net(p.macs[0], "bridge", c.bridgeDevice)]
      && |p.gpus| > 0 && vm.pcis == [p.gpus[0]]
  {
    var req := ToRequest(Demand(None, None));
    AllocatorOutcomes.BegunIsWired(c, p, req, ["bridge"], bind);
    AllocatorOutcomes.BegunHasGpus(c, p, req, bind);
    AllocatorOutcomes.BegunExactly(c, p, req, ["bridge"], bind, true);
  }

  /** What a demand says of itself is what is asked for; each default stands in for its own entry alone. */
  lemma StatedDemand(networks: Networks, gpus: int)
    ensures ToRequest(Demand(Some(networks), Some(gpus))) == Request(networks, gpus)
    ensures ToRequest(Demand(Some(networks), None)) == Request(networks, 1)
    ensures ToRequest(Demand(None, Some(gpus))) == Request(Many(["bridge"]), gpus)
  {
  }

  /** How the outside world answers, demand by demand: which ports bind, and whether building and creating the VM succeed. */
  datatype Script = Script(bind: nat -> (int -> Bind), builds: nat -> bool, creates: nat -> bool)

  predicate Works(script: Script, i: nat) { script.builds(i) && script.creates(i) }

  function NetsFrom(requests: seq<Request>, k: nat): nat
    decreases |requests| - k
  {
    if k >= |requests| then 0 else |AsList(requests[k].networks)| + NetsFrom(requests, k + 1)
  }

  function GpusFrom(requests: seq<Request>, k: nat): int
    decreases |requests| - k
  {
    if k >= |requests| then 0 else requests[k].numGpus + GpusFrom(requests, k + 1)
  }

  lemma {:induction false} GpusFromIsNatural(requests: seq<Request>, k: nat)
    requires forall i :: 0 <= i < |requests| ==> requests[i].numGpus >= 0
    ensures GpusFrom(requests, k) >= 0
    decreases |requests| - k
  {
    if k < |requests| { GpusFromIsNatural(requests, k + 1); }
  }

  /** There is enough of everything for all the requests from `k` on together. */
  ghost predicate Room(c: Config, p: Pools, requests: seq<Request>, k: nat)
    requires k <= |requests|
  {
    && NetsFrom(requests, k) <= |p.macs|
    && GpusFrom(requests, k) <= |p.gpus|
    && |p.vms| + |requests| - k <= c.maxVms
    && (forall i :: 0 <= i < |requests| ==> requests[i].numGpus >= 0 && ValidNetworks(AsList(requests[i].networks)))
  }

  /** The VM has the interfaces and the number of GPUs that were asked for. */
  ghost predicate Serves(vm: Vm, req: Request) {
    && |vm.nets| == |AsList(req.networks)|
    && (forall i :: 0 <= i < |vm.nets| ==> vm.nets[i].mode == AsList(req.networks)[i])
    && (req.numGpus >= 0 ==> |vm.pcis| == req.numGpus)
  }

  /** `made` serves the demands it has VMs for, all of them among the first `n`. */
  ghost predicate AllServe(made: map<nat, Vm>, requests: seq<Request>, n: nat)
    requires n <= |requests|
  {
    forall i <- made :: i < n && Serves(made[i], requests[i])
  }

  lemma AllServeAfterBegin(made: map<nat, Vm>, requests: seq<Request>, n: nat, r: Outcome)
    requires n < |requests| && AllServe(made, requests, n) && (r.Begun? ==> Serves(r.vm, requests[n]))
    ensures AllServe(if r.Begun? then made[n := r.vm] else made, requests, n + 1)
  {
  }

  ghost predicate Complete(made: map<nat, Vm>, n: nat) {
    forall i: nat :: i < n ==> i in made
  }

  // ----- the VMs one request has made so far, by demand

  /** `now` is `before` plus the VMs in `made`, each under its own new name; the count leaves nothing else. */
  ghost predicate Extends(before: map<string, Vm>, made: map<nat, Vm>, now: map<string, Vm>) {
    && (forall k <- before :: k in now && now[k] == before[k])
    && (forall i <- made :: made[i].name !in before && made[i].name in now && now[made[i].name] == made[i])
    && (forall i <- made, j <- made :: i != j ==> made[i].name != made[j].name)
    && |now| == |before| + |made|
  }

  lemma ExtendsWith(before: map<string, Vm>, made: map<nat, Vm>, now: map<string, Vm>, i: nat, vm: Vm)
    requires Extends(before, made, now) && i !in made && vm.name !in now
    ensures Extends(before, made[i := vm], now[vm.name := vm])
  {
    SizeWith(made, i, vm);
    SizeWith(now, vm.name, vm);
  }

  lemma ExtendsWithout(before: map<string, Vm>, made: map<nat, Vm>, now: map<string, Vm>, i: nat)
    requires Extends(before, made, now) && i in made
    ensures Extends(before, made - {i}, now - {made[i].name})
  {
    SizeWithout(made, i);
    SizeWithout(now, made[i].name);
  }

  lemma ExtendsByNothing(before: map<string, Vm>, now: map<string, Vm>)
    requires Extends(before, map[], now)
    ensures now == before
  {
    SameSizeSameMap(before, now);
  }

  /** Free pools as multisets, and the listed ports. */
  ghost predicate SamePools(p: Pools, q: Pools) {
    multiset(p.gpus) == multiset(q.gpus) && multiset(p.macs) == multiset(q.macs) && multiset(p.ports) == multiset(q.ports)
  }

  // ----- one atomic section at a time, with nothing stale

  lemma BeginServes(c: Config, p: Pools, req: Request, bind: int -> Bind, constructs: bool)
    ensures var (q, r) := AllocateBegin(c, p, req, bind, constructs);
      && (r.Raised? ==> q.vms == p.vms)
      && (r.Begun? ==> r.vm.name !in p.vms && q.vms == p.vms[r.vm.name := r.vm] && Serves(r.vm, req))
  {
    FreshNameIsFresh(c, p.vms);
  }

  /** When the ports suffice, an admitted request finds one. */
  lemma NoLeakWithPorts(c: Config, p: Pools, req: Request, bind: int -> Bind, gpus: multiset<Device>, macs: multiset<string>)
    requires Conserved(p, gpus, macs) && |p.vms| <= c.maxVms && PortsSuffice(c, bind)
    ensures !Leaks(c, p, req, bind) && (Refusal(c, p, req).None? ==> PortFor(c, p, bind).Found?)
  {
    ListedPortsCount(p, gpus, macs);
    if Refusal(c, p, req).None? {
      PortIsFound(c, p, bind);
    }
  }

  /** With room for all, the next request is admitted and leaves room for the others. */
  lemma RoomAfterBegin(c: Config, p: Pools, requests: seq<Request>, k: nat, bind: int -> Bind, constructs: bool)
    requires k < |requests| && Room(c, p, requests, k)
    requires Refusal(c, p, requests[k]).None? ==> PortFor(c, p, bind).Found?
    ensures var (q, r) := AllocateBegin(c, p, requests[k], bind, constructs);
      (r.Begun? <==> constructs) && Room(c, q, requests, k + 1)
  {
    GpusFromIsNatural(requests, k + 1);
    BeginAddsAtMostOne(c, p, requests[k], bind, constructs);
  }

  lemma EndLeavesRoom(c: Config, p: Pools, requests: seq<Request>, k: nat, vm: Vm, created: bool)
    requires k <= |requests| && Room(c, p, requests, k)
    ensures Room(c, AllocateEnd(p, vm, created).0, requests, k)
  {
    EndDropsAtMostOne(p, vm.name, vm, created);
  }

  lemma EndConserves(p: Pools, vm: Vm, created: bool, gpus: multiset<Device>, macs: multiset<string>)
    requires Conserved(p, gpus, macs) && vm.name in p.vms && p.vms[vm.name] == vm
    ensures Conserved(AllocateEnd(p, vm, created).0, gpus, macs)
    ensures AllocateEnd(p, vm, created).0.vms == if created then p.vms else p.vms - {vm.name}
  {
    if !created {
      PortOfLiveVmIsListed(p, gpus, macs, vm.name);
      HandBackExactly(p, vm.name, vm, gpus, macs);
    }
  }

  lemma DestroyConserves(p: Pools, vm: Vm, gpus: multiset<Device>, macs: multiset<string>)
    requires Conserved(p, gpus, macs) && vm.name in p.vms && p.vms[vm.name] == vm
    ensures Conserved(DestroyEnd(p, vm.name, vm, true).0, gpus, macs)
    ensures DestroyEnd(p, vm.name, vm, true).0.vms == p.vms - {vm.name}
  {
    DestroyExactly(p, vm.name, vm, gpus, macs);
    DestroyedVms(p, vm);
  }

  lemma DestroyedVms(p: Pools, vm: Vm)
    requires vm.name in p.vms
    ensures DestroyEnd(p, vm.name, vm, true).0.vms == p.vms - {vm.name}
  {
  }

  // ----- one request under way

  /** What does not change while a request is served; `ports` and `room` say whether they sufficed for all its demands. */
  datatype Job = Job(c: Config, gpus: multiset<Device>, macs: multiset<string>, before: map<string, Vm>,
                     script: Script, requests: seq<Request>, ports: bool, room: bool)

  /** The first `next` demands were started; `made` has those not failed, `running` those not ended. */
  datatype Progress = Progress(next: nat, made: map<nat, Vm>, running: set<nat>, failed: bool)

  /** The pools that each started demand met, and the devices that failing port searches have lost. */
  datatype Log = Log(met: seq<Pools>, gpus: multiset<Device>, macs: multiset<string>)

  function AfterBegin(g: Progress, r: Outcome): Progress {
    if r.Begun? then Progress(g.next + 1, g.made[g.next := r.vm], g.running + {g.next}, g.failed)
    else Progress(g.next + 1, g.made, g.running, true)
  }

  function AfterEnd(g: Progress, i: nat, created: bool): Progress {
    if created then g.(running := g.running - {i})
    else Progress(g.next, g.made - {i}, g.running - {i}, true)
  }

  ghost function LogBegin(job: Job, log: Log, p: Pools): Log
    requires |log.met| < |job.requests|
  {
    var i := |log.met|;
    Log(log.met + [p],
        log.gpus + LostGpus(job.c, p, job.requests[i], job.script.bind(i)),
        log.macs + LostMacs(job.c, p, job.requests[i], job.script.bind(i)))
  }

  /** How the first half of `allocate_vm` went for demand `i`, which met the pools `p`. */
  function Section(c: Config, p: Pools, script: Script, req: Request, i: nat): Outcome {
    AllocateBegin(c, p, req, script.bind(i), script.builds(i)).1
  }

  ghost predicate SectionLeaks(job: Job, log: Log, i: nat)
    requires i < |log.met| <= |job.requests|
  {
    Leaks(job.c, log.met[i], job.requests[i], job.script.bind(i))
  }

  ghost predicate SectionBegins(job: Job, log: Log, i: nat)
    requires i < |log.met| <= |job.requests|
  {
    Section(job.c, log.met[i], job.script, job.requests[i], i).Begun?
  }

  ghost predicate Consistent(job: Job, p: Pools, g: Progress, log: Log) {
    && log.gpus <= job.gpus && log.macs <= job.macs
    && Conserved(p, job.gpus - log.gpus, job.macs - log.macs)
    && Tracked(job, p.vms, g)
  }

  ghost predicate Tracked(job: Job, vms: map<string, Vm>, g: Progress) {
    && Extends(job.before, g.made, vms)
    && g.next <= |job.requests| && g.running <= g.made.Keys
    && AllServe(g.made, job.requests, g.next)
    && (!g.failed ==> Complete(g.made, g.next))
  }

  /** Devices are lost exactly by the sections that leak, and with enough ports none does. */
  ghost predicate Accounted(job: Job, log: Log)
    requires |log.met| <= |job.requests|
  {
    && (log.gpus == multiset{} && log.macs == multiset{} <==> forall i: nat :: i < |log.met| ==> !SectionLeaks(job, log, i))
    && (job.ports ==> AllPorts(job.c, job.script, |job.requests|) && forall i: nat :: i < |log.met| ==> !SectionLeaks(job, log, i))
  }

  ghost predicate AllPorts(c: Config, script: Script, n: nat) {
    forall i: nat :: i < n ==> PortsSuffice(c, script.bind(i))
  }

  /** Demand `i` did not begin, or its creation has ended badly. */
  ghost predicate Fails(job: Job, g: Progress, log: Log, i: nat)
    requires i < |log.met| <= |job.requests|
  {
    !SectionBegins(job, log, i) || (i !in g.running && !job.script.creates(i))
  }

  /** `failed` says exactly that some demand did. */
  ghost predicate Fate(job: Job, g: Progress, log: Log)
    requires |log.met| <= |job.requests|
  {
    g.failed <==> exists i: nat :: i < |log.met| && Fails(job, g, log, i)
  }

  ghost predicate MadeBySections(job: Job, g: Progress, log: Log)
    requires |log.met| <= |job.requests|
  {
    forall i <- g.made :: i < |log.met| && Section(job.c, log.met[i], job.script, job.requests[i], i) == Begun(g.made[i])
  }

  /** With enough ports and room for all demands, each begins unless building its VM fails. */
  ghost predicate Roomy(job: Job, p: Pools, log: Log)
    requires |log.met| <= |job.requests|
  {
    job.ports && job.room ==>
      && Room(job.c, p, job.requests, |log.met|)
      && forall i: nat :: i < |log.met| ==> (SectionBegins(job, log, i) <==> job.script.builds(i))
  }

  /** With enough ports there are never more VMs than those suffice for. */
  ghost predicate WithinLimit(job: Job, p: Pools) {
    job.ports ==> |p.vms| <= job.c.maxVms
  }

  /** The whole invariant of a request under way. */
  ghost predicate UnderWay(job: Job, p: Pools, g: Progress, log: Log) {
    && Consistent(job, p, g, log) && WithinLimit(job, p) && |log.met| == g.next
    && Accounted(job, log) && Fate(job, g, log) && MadeBySections(job, g, log) && Roomy(job, p, log)
  }

  // ----- a demand begins

  lemma CompleteWith(g: Progress, vm: Vm)
    ensures Complete(g.made, g.next) ==> Complete(g.made[g.next := vm], g.next + 1)
    ensures g.running <= g.made.Keys ==> g.running + {g.next} <= g.made[g.next := vm].Keys
  {
  }

  lemma TrackedAfterStart(job: Job, vms: map<string, Vm>, g: Progress, vm: Vm)
    requires Tracked(job, vms, g) && g.next < |job.requests|
    requires vm.name !in vms && Serves(vm, job.requests[g.next])
    ensures Tracked(job, vms[vm.name := vm], AfterBegin(g, Begun(vm)))
  {
    assert g.next !in g.made;
    AllServeAfterBegin(g.made, job.requests, g.next, Begun(vm));
    ExtendsWith(job.before, g.made, vms, g.next, vm);
    CompleteWith(g, vm);
  }

  lemma TrackedAfterRefusal(job: Job, vms: map<string, Vm>, g: Progress, e: Error)
    requires Tracked(job, vms, g) && g.next < |job.requests|
    ensures Tracked(job, vms, AfterBegin(g, Raised(e)))
  {
    AllServeAfterBegin(g.made, job.requests, g.next, Raised(e));
  }

  lemma BeginIsTracked(job: Job, p: Pools, g: Progress)
    requires Tracked(job, p.vms, g) && g.next < |job.requests|
    ensures var (q, r) := AllocateBegin(job.c, p, job.requests[g.next], job.script.bind(g.next), job.script.builds(g.next));
      Tracked(job, q.vms, AfterBegin(g, r))
  {
    var (q, r) := AllocateBegin(job.c, p, job.requests[g.next], job.script.bind(g.next), job.script.builds(g.next));
    BeginServes(job.c, p, job.requests[g.next], job.script.bind(g.next), job.script.builds(g.next));
    match r
    case Begun(vm) => TrackedAfterStart(job, p.vms, g, vm);
    case Raised(e) => TrackedAfterRefusal(job, p.vms, g, e);
  }

  lemma LessLess<T(!new)>(total: multiset<T>, lost: multiset<T>, more: multiset<T>)
    requires lost <= total && more <= total - lost
    ensures lost + more <= total && total - (lost + more) == total - lost - more
  {
    forall x ensures (lost + more)[x] <= total[x] && (total - (lost + more))[x] == (total - lost - more)[x] {
      assert more[x] <= (total - lost)[x];
    }
  }

  lemma BeginIsConsistent(job: Job, p: Pools, g: Progress, log: Log)
    requires Consistent(job, p, g, log) && |log.met| == g.next < |job.requests|
    ensures var (q, r) := AllocateBegin(job.c, p, job.requests[g.next], job.script.bind(g.next), job.script.builds(g.next));
      Consistent(job, q, AfterBegin(g, r), LogBegin(job, log, p))
  {
    var req, bind := job.requests[g.next], job.script.bind(g.next);
    BeginAccounts(job.c, p, req, bind, job.script.builds(g.next), job.gpus - log.gpus, job.macs - log.macs);
    LessLess(job.gpus, log.gpus, LostGpus(job.c, p, req, bind));
    LessLess(job.macs, log.macs, LostMacs(job.c, p, req, bind));
    BeginIsTracked(job, p, g);
  }

  lemma BothEmpty<T>(a: multiset<T>, b: multiset<T>)
    ensures a + b == multiset{} <==> a == multiset{} && b == multiset{}
  {
    assert |a + b| == |a| + |b|;
  }

  lemma SectionsBefore(job: Job, log: Log, p: Pools, i: nat)
    requires i < |log.met| < |job.requests|
    ensures SectionLeaks(job, LogBegin(job, log, p), i) <==> SectionLeaks(job, log, i)
    ensures SectionBegins(job, LogBegin(job, log, p), i) <==> SectionBegins(job, log, i)
    ensures LogBegin(job, log, p).met[i] == log.met[i]
  {
  }

  lemma SectionLogged(job: Job, log: Log, p: Pools)
    requires |log.met| < |job.requests|
    ensures var i := |log.met|;
      && (SectionLeaks(job, LogBegin(job, log, p), i) <==> Leaks(job.c, p, job.requests[i], job.script.bind(i)))
      && (SectionBegins(job, LogBegin(job, log, p), i) <==> Section(job.c, p, job.script, job.requests[i], i).Begun?)
  {
  }

  lemma OneMoreLeak(job: Job, log: Log, p: Pools)
    requires |log.met| < |job.requests|
    ensures var after := LogBegin(job, log, p);
      (forall j: nat :: j < |after.met| ==> !SectionLeaks(job, after, j))
      <==> !SectionLeaks(job, after, |log.met|) && forall j: nat :: j < |log.met| ==> !SectionLeaks(job, log, j)
  {
    var after := LogBegin(job, log, p);
    forall j: nat | j < |log.met| ensures SectionLeaks(job, after, j) <==> SectionLeaks(job, log, j) {
      SectionsBefore(job, log, p, j);
    }
  }

  lemma BeginIsAccounted(job: Job, p: Pools, log: Log, gpus: multiset<Device>, macs: multiset<string>)
    requires |log.met| < |job.requests| && Accounted(job, log) && Conserved(p, gpus, macs) && WithinLimit(job, p)
    ensures Accounted(job, LogBegin(job, log, p))
  {
    var i := |log.met|;
    var req, bind := job.requests[i], job.script.bind(i);
    NothingLost(job.c, p, req, bind);
    BothEmpty(log.gpus, LostGpus(job.c, p, req, bind));
    BothEmpty(log.macs, LostMacs(job.c, p, req, bind));
    if job.ports {
      NoLeakWithPorts(job.c, p, req, bind, gpus, macs);
    }
    SectionLogged(job, log, p);
    OneMoreLeak(job, log, p);
  }

  lemma FailsBefore(job: Job, p: Pools, g: Progress, log: Log, r: Outcome, j: nat)
    requires j < |log.met| == g.next < |job.requests|
    ensures Fails(job, AfterBegin(g, r), LogBegin(job, log, p), j) <==> Fails(job, g, log, j)
  {
    SectionsBefore(job, log, p, j);
  }

  lemma FailsNow(job: Job, p: Pools, g: Progress, log: Log)
    requires |log.met| == g.next < |job.requests|
    ensures var r := Section(job.c, p, job.script, job.requests[g.next], g.next);
      Fails(job, AfterBegin(g, r), LogBegin(job, log, p), g.next) <==> r.Raised?
  {
    SectionLogged(job, log, p);
  }

  lemma MadeBefore(job: Job, p: Pools, g: Progress, log: Log)
    requires |log.met| == g.next < |job.requests| && MadeBySections(job, g, log)
    ensures MadeBySections(job, AfterBegin(g, Section(job.c, p, job.script, job.requests[g.next], g.next)), LogBegin(job, log, p))
  {
    var r := Section(job.c, p, job.script, job.requests[g.next], g.next);
    var g', log' := AfterBegin(g, r), LogBegin(job, log, p);
    forall i <- g'.made ensures i < |log'.met| && Section(job.c, log'.met[i], job.script, job.requests[i], i) == Begun(g'.made[i]) {
      if i != g.next {
        assert i in g.made;
        SectionsBefore(job, log, p, i);
      }
    }
  }

  lemma BeginIsFated(job: Job, p: Pools, g: Progress, log: Log)
    requires |log.met| == g.next < |job.requests| && Fate(job, g, log)
    ensures var r := Section(job.c, p, job.script, job.requests[g.next], g.next);
      Fate(job, AfterBegin(g, r), LogBegin(job, log, p))
  {
    var r := Section(job.c, p, job.script, job.requests[g.next], g.next);
    var g', log' := AfterBegin(g, r), LogBegin(job, log, p);
    forall j: nat | j < g.next ensures Fails(job, g', log', j) <==> Fails(job, g, log, j) {
      FailsBefore(job, p, g, log, r, j);
    }
    FailsNow(job, p, g, log);
    assert |log'.met| == g.next + 1;
  }

  lemma BeginsAsBuilt(job: Job, p: Pools, log: Log)
    requires |log.met| < |job.requests|
    requires forall i: nat :: i < |log.met| ==> (SectionBegins(job, log, i) <==> job.script.builds(i))
    requires Section(job.c, p, job.script, job.requests[|log.met|], |log.met|).Begun? <==> job.script.builds(|log.met|)
    ensures var after := LogBegin(job, log, p);
      forall i: nat :: i < |after.met| ==> (SectionBegins(job, after, i) <==> job.script.builds(i))
  {
    var after := LogBegin(job, log, p);
    SectionLogged(job, log, p);
    forall i: nat | i < |after.met| ensures SectionBegins(job, after, i) <==> job.script.builds(i) {
      if i < |log.met| {
        SectionsBefore(job, log, p, i);
      }
    }
  }

  lemma BeginLeavesRoom(job: Job, p: Pools, log: Log, gpus: multiset<Device>, macs: multiset<string>)
    requires |log.met| < |job.requests| && Accounted(job, log) && Roomy(job, p, log) && Conserved(p, gpus, macs) && WithinLimit(job, p)
    ensures var i := |log.met|;
      Roomy(job, AllocateBegin(job.c, p, job.requests[i], job.script.bind(i), job.script.builds(i)).0, LogBegin(job, log, p))
  {
    var i := |log.met|;
    if job.ports && job.room {
      NoLeakWithPorts(job.c, p, job.requests[i], job.script.bind(i), gpus, macs);
      RoomAfterBegin(job.c, p, job.requests, i, job.script.bind(i), job.script.builds(i));
      BeginsAsBuilt(job, p, log);
    }
  }

  lemma BeginIsWithin(job: Job, p: Pools, i: nat)
    requires WithinLimit(job, p) && i < |job.requests|
    ensures WithinLimit(job, AllocateBegin(job.c, p, job.requests[i], job.script.bind(i), job.script.builds(i)).0)
  {
    if job.ports {
      BeginWithinMaxVms(job.c, p, job.requests[i], job.script.bind(i), job.script.builds(i));
    }
  }

  lemma BeginKeeps(job: Job, p: Pools, g: Progress, log: Log)
    requires UnderWay(job, p, g, log) && g.next < |job.requests|
    ensures var (q, r) := AllocateBegin(job.c, p, job.requests[g.next], job.script.bind(g.next), job.script.builds(g.next));
      UnderWay(job, q, AfterBegin(g, r), LogBegin(job, log, p))
  {
    BeginIsConsistent(job, p, g, log);
    BeginIsWithin(job, p, g.next);
    BeginIsAccounted(job, p, log, job.gpus - log.gpus, job.macs - log.macs);
    BeginIsFated(job, p, g, log);
    MadeBefore(job, p, g, log);
    BeginLeavesRoom(job, p, log, job.gpus - log.gpus, job.macs - log.macs);
  }

  // ----- a creation ends

  lemma EndIsConsistent(job: Job, p: Pools, g: Progress, log: Log, i: nat)
    requires Consistent(job, p, g, log) && i in g.running
    ensures Consistent(job, AllocateEnd(p, g.made[i], job.script.creates(i)).0, AfterEnd(g, i, job.script.creates(i)), log)
  {
    EndConserves(p, g.made[i], job.script.creates(i), job.gpus - log.gpus, job.macs - log.macs);
    ExtendsWithout(job.before, g.made, p.vms, i);
  }

  lemma OtherFailsStay(job: Job, g: Progress, log: Log, i: nat, j: nat)
    requires j < |log.met| <= |job.requests| && j != i
    ensures Fails(job, AfterEnd(g, i, job.script.creates(i)), log, j) <==> Fails(job, g, log, j)
  {
  }

  lemma EndedFails(job: Job, g: Progress, log: Log, i: nat)
    requires i < |log.met| <= |job.requests| && i in g.running && SectionBegins(job, log, i)
    ensures !Fails(job, g, log, i) && (Fails(job, AfterEnd(g, i, job.script.creates(i)), log, i) <==> !job.script.creates(i))
  {
  }

  lemma EndIsFated(job: Job, g: Progress, log: Log, i: nat)
    requires i < |log.met| <= |job.requests| && Fate(job, g, log) && i in g.running && SectionBegins(job, log, i)
    ensures Fate(job, AfterEnd(g, i, job.script.creates(i)), log)
  {
    var g' := AfterEnd(g, i, job.script.creates(i));
    forall j: nat | j < |log.met| && j != i ensures Fails(job, g', log, j) <==> Fails(job, g, log, j) {
      OtherFailsStay(job, g, log, i, j);
    }
    EndedFails(job, g, log, i);
  }

  lemma EndIsMade(job: Job, g: Progress, log: Log, i: nat)
    requires |log.met| <= |job.requests| && MadeBySections(job, g, log) && i in g.made
    ensures MadeBySections(job, AfterEnd(g, i, job.script.creates(i)), log)
    ensures i < |log.met| && SectionBegins(job, log, i)
  {
  }

  lemma EndIsRoomy(job: Job, p: Pools, log: Log, vm: Vm, created: bool)
    requires |log.met| <= |job.requests| && Roomy(job, p, log) && WithinLimit(job, p)
    ensures Roomy(job, AllocateEnd(p, vm, created).0, log) && WithinLimit(job, AllocateEnd(p, vm, created).0)
  {
    EndDropsAtMostOne(p, vm.name, vm, created);
    if job.ports && job.room {
      EndLeavesRoom(job.c, p, job.requests, |log.met|, vm, created);
    }
  }

  lemma OneLessRunning(g: Progress, i: nat, created: bool)
    requires i in g.running
    ensures |AfterEnd(g, i, created).running| < |g.running|
  {
  }

  lemma EndKeeps(job: Job, p: Pools, g: Progress, log: Log, i: nat)
    requires UnderWay(job, p, g, log) && i in g.running
    ensures UnderWay(job, AllocateEnd(p, g.made[i], job.script.creates(i)).0, AfterEnd(g, i, job.script.creates(i)), log)
  {
    EndIsConsistent(job, p, g, log, i);
    EndIsMade(job, g, log, i);
    EndIsFated(job, g, log, i);
    EndIsRoomy(job, p, log, g.made[i], job.script.creates(i));
  }

  // ----- start and end of a request

  const START := Progress(0, map[], {}, false)

  ghost function EmptyLog(): Log { Log([], multiset{}, multiset{}) }

  ghost function NewJob(c: Config, p: Pools, gpus: multiset<Device>, macs: multiset<string>, script: Script, requests: seq<Request>): Job {
    Job(c, gpus, macs, p.vms, script, requests, |p.vms| <= c.maxVms && AllPorts(c, script, |requests|), Room(c, p, requests, 0))
  }

  lemma StartsUnderWay(c: Config, p: Pools, gpus: multiset<Device>, macs: multiset<string>, script: Script, requests: seq<Request>)
    requires Conserved(p, gpus, macs)
    ensures UnderWay(NewJob(c, p, gpus, macs, script, requests), p, START, EmptyLog())
  {
    assert gpus - multiset{} == gpus && macs - multiset{} == macs;
  }

  /** Every section that was logged began, and every creation ended well. */
  ghost predicate AllWell(job: Job, log: Log)
    requires |log.met| <= |job.requests|
  {
    forall i: nat :: i < |log.met| ==> SectionBegins(job, log, i) && job.script.creates(i)
  }

  lemma FailsAtTheEnd(job: Job, g: Progress, log: Log, i: nat)
    requires i < |log.met| <= |job.requests| && g.running == {}
    ensures Fails(job, g, log, i) <==> !(SectionBegins(job, log, i) && job.script.creates(i))
  {
  }

  lemma NotAllWell(job: Job, g: Progress, log: Log, i: nat)
    requires i < |log.met| <= |job.requests| && g.running == {} && Fails(job, g, log, i)
    ensures !AllWell(job, log)
  {
    FailsAtTheEnd(job, g, log, i);
  }

  lemma FailedExactly(job: Job, g: Progress, log: Log)
    requires |log.met| <= |job.requests| && Fate(job, g, log) && g.running == {}
    ensures !g.failed <==> AllWell(job, log)
  {
    if g.failed {
      var i: nat :| i < |log.met| && Fails(job, g, log, i);
      NotAllWell(job, g, log, i);
    } else {
      forall i: nat | i < |log.met| ensures SectionBegins(job, log, i) && job.script.creates(i) {
        FailsAtTheEnd(job, g, log, i);
      }
    }
  }

  lemma AllWellExactly(job: Job, p: Pools, log: Log)
    requires |log.met| == |job.requests| && Roomy(job, p, log) && job.ports && job.room
    ensures AllWell(job, log) <==> forall i: nat :: i < |job.requests| ==> Works(job.script, i)
  {
    forall i: nat | i < |job.requests| ensures SectionBegins(job, log, i) && job.script.creates(i) <==> Works(job.script, i) {
    }
  }

  /** A section that begins does not leak, so a request that succeeds has lost nothing. */
  lemma WellIsLossless(job: Job, log: Log)
    requires |log.met| <= |job.requests| && Accounted(job, log) && AllWell(job, log)
    ensures log.gpus == multiset{} && log.macs == multiset{}
  {
    forall i: nat | i < |log.met| ensures !SectionLeaks(job, log, i) {
      assert SectionBegins(job, log, i);
    }
  }

  // ----- what a failed request leaves

  /** The live VMs and the listed ports are as before, and the free devices too, less the lost ones. */
  ghost predicate BackWithout(p: Pools, q: Pools, log: Log) {
    && q.vms == p.vms && multiset(q.ports) == multiset(p.ports)
    && multiset(q.gpus) + log.gpus == multiset(p.gpus)
    && multiset(q.macs) + log.macs == multiset(p.macs)
  }

  lemma RolledBack(p: Pools, q: Pools, log: Log, gpus: multiset<Device>, macs: multiset<string>)
    requires Conserved(p, gpus, macs) && log.gpus <= gpus && log.macs <= macs
    requires Conserved(q, gpus - log.gpus, macs - log.macs) && p.vms == q.vms
    ensures BackWithout(p, q, log)
  {
    Ledger.Short(multiset(p.gpus), multiset(q.gpus), HeldGpus(p.vms), log.gpus, gpus);
    Ledger.Short(multiset(p.macs), multiset(q.macs), HeldMacs(p.vms), log.macs, macs);
  }

  lemma BackExactly(p: Pools, q: Pools, log: Log)
    requires BackWithout(p, q, log)
    ensures SamePools(p, q) <==> log.gpus == multiset{} && log.macs == multiset{}
  {
    Ledger.Cancel(log.gpus, multiset{}, multiset(q.gpus));
    Ledger.Cancel(log.macs, multiset{}, multiset(q.macs));
    assert multiset{} + multiset(q.gpus) == multiset(q.gpus) && multiset{} + multiset(q.macs) == multiset(q.macs);
    assert log.gpus + multiset(q.gpus) == multiset(p.gpus) && log.macs + multiset(q.macs) == multiset(p.macs);
  }

  /** The outcome of a request: `failed`, the VMs it made, and the log of its sections. */
  ghost predicate Served(job: Job, p: Pools, q: Pools, success: bool, made: map<nat, Vm>, log: Log) {
    && |log.met| == |job.requests|
    && (success <==> AllWell(job, log))
    && (success ==> Extends(job.before, made, q.vms) && AllMade(job, made, log) && Conserved(q, job.gpus, job.macs))
    && (!success ==> BackWithout(p, q, log))
    && (!success ==> (SamePools(p, q) <==> forall i: nat :: i < |log.met| ==> !SectionLeaks(job, log, i)))
  }

  /** Every demand has the VM that its section began, and that VM serves it. */
  ghost predicate AllMade(job: Job, made: map<nat, Vm>, log: Log)
    requires |log.met| == |job.requests|
  {
    && (forall i: nat :: i < |job.requests| <==> i in made)
    && (forall i <- made :: i < |job.requests| && Serves(made[i], job.requests[i])
                            && Section(job.c, log.met[i], job.script, job.requests[i], i) == Begun(made[i]))
  }

  lemma ServedWell(job: Job, p: Pools, q: Pools, g: Progress, log: Log)
    requires UnderWay(job, q, g, log) && g.next == |job.requests| && g.running == {} && !g.failed
    ensures Served(job, p, q, true, g.made, log)
  {
    FailedExactly(job, g, log);
    WellIsLossless(job, log);
    assert job.gpus - multiset{} == job.gpus && job.macs - multiset{} == job.macs;
  }

  lemma ServedBadly(job: Job, p: Pools, q: Pools, g: Progress, log: Log)
    requires |log.met| == |job.requests| && Fate(job, g, log) && g.running == {} && g.failed
    requires Accounted(job, log) && log.gpus <= job.gpus && log.macs <= job.macs
    requires Conserved(p, job.gpus, job.macs) && Conserved(q, job.gpus - log.gpus, job.macs - log.macs) && q.vms == p.vms
    ensures Served(job, p, q, false, g.made, log)
  {
    FailedExactly(job, g, log);
    RolledBack(p, q, log, job.gpus, job.macs);
    BackExactly(p, q, log);
  }

  /** With enough ports a failed request changes nothing, and with room as well only a VM that cannot be made fails one. */
  lemma EnoughPorts(job: Job, mid: Pools, log: Log, p: Pools, q: Pools, success: bool, made: map<nat, Vm>)
    requires |log.met| == |job.requests| && Accounted(job, log) && Roomy(job, mid, log)
    requires Served(job, p, q, success, made, log)
    ensures job.ports && !success ==> SamePools(p, q) && q.vms == p.vms
    ensures job.ports && job.room ==> (success <==> forall i: nat :: i < |job.requests| ==> Works(job.script, i))
  {
    if job.ports && job.room {
      AllWellExactly(job, mid, log);
    }
  }

  class HyperVisor {
    const allocator: Allocator

    constructor (allocator: Allocator)
      ensures this.allocator == allocator
    {
      this.allocator := allocator;
    }

    /** No configured device is lost or shared. */
    ghost predicate Valid()
      reads allocator
    {
      Conserved(allocator.View(), allocator.initialGpus, allocator.initialMacs)
    }

    /** The request for `requests` as it starts here. */
    ghost function ThisJob(script: Script, requests: seq<Request>): Job
      reads allocator
    {
      NewJob(allocator.Settings(), allocator.View(), allocator.initialGpus, allocator.initialMacs, script, requests)
    }

    static method TranslateToVmParams(demands: seq<Demand>) returns (requests: seq<Request>)
      ensures |requests| == |demands| && forall i :: 0 <= i < |demands| ==> requests[i] == ToRequest(demands[i])
    {
      requests := [];
      for i := 0 to |demands|
        invariant |requests| == i && forall j :: 0 <= j < i ==> requests[j] == ToRequest(demands[j])
      {
        requests := requests + [ToRequest(demands[i])];
      }
    }

    /** The next creation starts. */
    method Start(g: Progress, script: Script, requests: seq<Request>, ghost job: Job, ghost log: Log) returns (g': Progress)
      requires g.next < |requests| && job.requests == requests && job.script == script && job.c == allocator.Settings()
      requires UnderWay(job, allocator.View(), g, log)
      modifies allocator
      ensures UnderWay(job, allocator.View(), g', LogBegin(job, log, old(allocator.View()))) && g'.next == g.next + 1
    {
      var r := allocator.AllocateBegin(requests[g.next], script.bind(g.next), script.builds(g.next));
      BeginKeeps(job, old(allocator.View()), g, log);
      g' := AfterBegin(g, r);
    }

    /** Some creation ends. */
    method End(g: Progress, script: Script, ghost job: Job, ghost log: Log) returns (g': Progress)
      requires g.running != {} && job.script == script && job.c == allocator.Settings()
      requires UnderWay(job, allocator.View(), g, log)
      modifies allocator
      ensures UnderWay(job, allocator.View(), g', log) && g'.next == g.next && |g'.running| < |g.running|
    {
      var i :| i in g.running;
      var e := allocator.AllocateEnd(g.made[i], script.creates(i));
      EndKeeps(job, old(allocator.View()), g, log, i);
      OneLessRunning(g, i, script.creates(i));
      g' := AfterEnd(g, i, script.creates(i));
    }

    /** The gathered creations of one request: they start in order and finish in any order, and each may fail at any point. */
    method Gather(script: Script, requests: seq<Request>, ghost job: Job) returns (g: Progress, ghost log: Log)
      requires job.requests == requests && job.script == script && job.c == allocator.Settings()
      requires UnderWay(job, allocator.View(), START, EmptyLog())
      modifies allocator
      ensures UnderWay(job, allocator.View(), g, log) && g.next == |requests| && g.running == {}
    {
      g, log := START, EmptyLog();
      while g.next < |requests| || g.running != {}
        invariant g.next <= |requests| && UnderWay(job, allocator.View(), g, log)
        decreases |requests| - g.next, |g.running|
      {
        var start: bool := *;
        if g.next < |requests| && (g.running == {} || start) {
          ghost var p := allocator.View();
          g := Start(g, script, requests, job, log);
          log := LogBegin(job, log, p);
        } else {
          g := End(g, script, job, log);
        }
      }
    }

    /** `destroy_vm` with nothing else running, and the VM manager succeeding. */
    method Destroy(i: nat, made: map<nat, Vm>, ghost before: map<string, Vm>, ghost gpus: multiset<Device>, ghost macs: multiset<string>)
      requires Conserved(allocator.View(), gpus, macs) && Extends(before, made, allocator.vms) && i in made
      modifies allocator
      ensures Conserved(allocator.View(), gpus, macs) && Extends(before, made - {i}, allocator.vms)
    {
      DestroyConserves(allocator.View(), made[i], gpus, macs);
      ExtendsWithout(before, made, allocator.vms, i);
      var _ := allocator.DestroyEnd(made[i].name, made[i], true);
    }

    /** Destroys what a failed request made; `gpus` and `macs` are what is still accounted for. */
    method RollBack(made: map<nat, Vm>, ghost before: map<string, Vm>, ghost gpus: multiset<Device>, ghost macs: multiset<string>)
      requires Conserved(allocator.View(), gpus, macs) && Extends(before, made, allocator.vms)
      modifies allocator
      ensures Conserved(allocator.View(), gpus, macs) && allocator.vms == before
    {
      var left := made;
      while left != map[]
        invariant Conserved(allocator.View(), gpus, macs) && Extends(before, left, allocator.vms)
        decreases |left|
      {
        var i :| i in left;
        Destroy(i, left, before, gpus, macs);
        SizeWithout(left, i);
        left := left - {i};
      }
      ExtendsByNothing(before, allocator.vms);
    }

    /**
    `fulfill` without other requests, and with rollback destroys succeeding; `log.met[i]` is what demand `i`
    found. The request succeeds exactly if every section began and every creation ended well, and then each
    demand has a new VM of its own. Otherwise the live VMs and listed ports are what they were, and the free
    pools too, exactly if no section's port search failed after it had taken something; `log` has what is
    missing. Within `max_vms` and with enough ports nothing is, and with room as well only a VM that cannot be
    made fails a request.
    */
    method Fulfill(script: Script, demands: seq<Demand>) returns (success: bool, made: map<nat, Vm>, ghost log: Log)
      requires Valid()
      modifies allocator
      ensures Served(old(ThisJob(script, ToRequests(demands))), old(allocator.View()), allocator.View(), success, made, log)
      ensures |old(allocator.vms)| <= allocator.maxVms && AllPorts(allocator.Settings(), script, |demands|) && !success ==>
                allocator.vms == old(allocator.vms) && SamePools(old(allocator.View()), allocator.View())
      ensures AllPorts(allocator.Settings(), script, |demands|) && old(Room(allocator.Settings(), allocator.View(), ToRequests(demands), 0)) ==>
                (success <==> forall i: nat :: i < |demands| ==> Works(script, i))
    {
      var requests := TranslateToVmParams(demands);
      assert requests == ToRequests(demands);
      ghost var job := ThisJob(script, requests);
      ghost var before := allocator.View();
      StartsUnderWay(allocator.Settings(), before, allocator.initialGpus, allocator.initialMacs, script, requests);
      var g;
      g, log := Gather(script, requests, job);
      ghost var mid := allocator.View();
      success, made := !g.failed, g.made;
      if success {
        ServedWell(job, before, mid, g, log);
      } else {
        RollBack(made, before.vms, job.gpus - log.gpus, job.macs - log.macs);
        ServedBadly(job, before, allocator.View(), g, log);
      }
      EnoughPorts(job, mid, log, before, allocator.View(), success, made);
    }
  }
}
