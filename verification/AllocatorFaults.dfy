/** Two runs of the allocator in which devices are lost or handed out twice. */
module AllocatorFaults {
  import opened PyLists
  import opened Vms
  import opened AllocatorSpec
  import opened AllocatorRuns

  function Denies(port: int): Bind { Denied }

  function Fresh(d: Device, e: Device, m: string, n: string): State {
    State(Pools([d, e], [m, n], [], map[], 0), map[])
  }

  lemma FreshIsConserved(d: Device, e: Device, m: string, n: string)
    ensures Conserved(Fresh(d, e, m, n).pools, multiset{d, e}, multiset{m, n}) && Owned(Fresh(d, e, m, n))
  {
    HeldByNone();
    assert multiset([d, e]) == multiset{d, e} && multiset([m, n]) == multiset{m, n};
  }

  lemma FirstSlices<T>(x: T, y: T)
    ensures Take([x, y], 1) == [x, y][..1] == [x] && Drop([x, y], 1) == [x, y][1..] == [y]
  {
  }

  lemma Then(c: Config, s: State, step: Step, rest: seq<Step>)
    requires Enabled(s, step) && Runs(c, Next(c, s, step), rest)
    ensures Runs(c, s, [step] + rest) && Final(c, s, [step] + rest) == Final(c, Next(c, s, step), rest)
  {
    assert ([step] + rest)[1..] == rest;
  }

  /** A failed port search keeps the devices it was given: nobody holds them and they are not free. */
  lemma PortFailureLosesDevices(c: Config, d: Device, e: Device, m: string, n: string)
    requires c.maxVms != 0
    ensures var step := Allocate(0, Request(One("bridge"), 1), Denies, true);
      var s := Fresh(d, e, m, n);
      && Runs(c, s, [step] + [])
      && Final(c, s, [step] + []).pools == Pools([e], [n], [], map[], 0)
      && !Conserved(Final(c, s, [step] + []).pools, multiset{d, e}, multiset{m, n})
  {
    var step := Allocate(0, Request(One("bridge"), 1), Denies, true);
    var s := Fresh(d, e, m, n);
    FirstSlices(d, e);
    FirstSlices(m, n);
    Then(c, s, step, []);
    HeldByNone();
    assert |multiset([e])| == 1 && |multiset{d, e}| == 2;
  }

  function OneVm(c: Config, id: nat, d: Device, m: string): Vm {
    Vm(id, VmName(c.serverName, 0), [d], [Net(m, "bridge", c.bridgeDevice)], Number(c.solBasePort))
  }

  function Binds(port: int): Bind { Bindable }

  function Ask(t: nat): Step { Allocate(t, Request(One("bridge"), 1), Binds, true) }

  lemma OnlyVm(c: Config, d: Device, e: Device, m: string, n: string, id: nat)
    requires c.maxVms != 0
    ensures var vm := OneVm(c, id, d, m);
      AllocateBegin(c, Pools([d, e], [m, n], [], map[], id), Request(One("bridge"), 1), Binds, true)
      == (Pools([e], [n], [vm.port], map[vm.name := vm], id + 1), Begun(vm))
  {
    var p := Pools([d, e], [m, n], [], map[], id);
    assert p.vms.Keys == {};
    assert PortFor(c, p, Binds) == Found(c.solBasePort);
    assert Interfaces(c, [m, n][..1], ["bridge"]) == [Net(m, "bridge", c.bridgeDevice)];
    FirstSlices(d, e);
    FirstSlices(m, n);
    assert AsList(One("bridge")) == ["bridge"] && ValidNetworks(["bridge"]);
    assert Refusal(c, p, Request(One("bridge"), 1)).None?;
    var vm := OneVm(c, id, d, m);
    assert FreshName(c, p.vms) == vm.name;
    assert p.vms[vm.name := vm] == map[vm.name := vm];
    assert p.ports + [vm.port] == [vm.port];
  }

  lemma {:induction false} Append(c: Config, s: State, a: seq<Step>, b: seq<Step>)
    requires Runs(c, s, a) && Runs(c, Final(c, s, a), b)
    ensures Runs(c, s, a + b) && Final(c, s, a + b) == Final(c, Final(c, s, a), b)
    decreases |a|
  {
    if a == [] {
      assert a + b == b;
    } else {
      Append(c, Next(c, s, a[0]), a[1..], b);
      Then(c, s, a[0], a[1..] + b);
      assert a + b == [a[0]] + (a[1..] + b);
    }
  }

  lemma Three(c: Config, s0: State, s1: State, s2: State, s3: State, a: Step, b: Step, d: Step)
    requires Enabled(s0, a) && Next(c, s0, a) == s1
    requires Enabled(s1, b) && Next(c, s1, b) == s2
    requires Enabled(s2, d) && Next(c, s2, d) == s3
    ensures Runs(c, s0, [a, b, d]) && Final(c, s0, [a, b, d]) == s3
  {
    Then(c, s2, d, []);
    Then(c, s1, b, [d] + []);
    Then(c, s0, a, [b] + ([d] + []));
    assert [a] + ([b] + ([d] + [])) == [a, b, d];
  }

  /**
  A destroyer waits while the VM is being created; the creation fails and gives everything back; a second
  request takes the freed name before the destroyer gets its lock.
  */
  function StaleDestroy(c: Config): seq<Step> {
    [Ask(0), Destroy(1, VmName(c.serverName, 0)), Created(0, false)] + [Ask(2), Wake(1), Destroyed(1, true)]
  }

  /** `vm` is handed back and the entry that now has its name, and perhaps not its devices, is dropped. */
  lemma HandedBack(p: Pools, vm: Vm, live: Vm)
    requires vm.name == live.name && vm.port == live.port && p.vms == map[live.name := live] && p.ports == [vm.port]
    ensures var after := p.(gpus := p.gpus + vm.pcis, macs := p.macs + Macs(vm.nets), ports := [], vms := map[]);
      AllocateEnd(p, vm, false).0 == after && DestroyEnd(p, vm.name, vm, true).0 == after
  {
    assert p.vms - {vm.name} == map[];
    assert RemoveFirst([vm.port], vm.port) == [];
  }

  lemma CreationFails(c: Config, d: Device, e: Device, m: string, n: string)
    requires c.maxVms != 0
    ensures var steps := [Ask(0), Destroy(1, VmName(c.serverName, 0)), Created(0, false)];
      && Runs(c, Fresh(d, e, m, n), steps)
      && Final(c, Fresh(d, e, m, n), steps) == State(Pools([e, d], [n, m], [], map[], 1), map[1 := Waiting(OneVm(c, 0, d, m), VmName(c.serverName, 0))])
  {
    var vm := OneVm(c, 0, d, m);
    OnlyVm(c, d, e, m, n, 0);
    var p := Pools([e], [n], [vm.port], map[vm.name := vm], 1);
    HandedBack(p, vm, vm);
    var waiting := State(p, map[0 := Creating(vm), 1 := Waiting(vm, vm.name)]);
    assert waiting.tasks - {0} == map[1 := Waiting(vm, vm.name)];
    Three(c, Fresh(d, e, m, n), State(p, map[0 := Creating(vm)]), waiting,
          State(Pools([e, d], [n, m], [], map[], 1), map[1 := Waiting(vm, vm.name)]),
          Ask(0), Destroy(1, vm.name), Created(0, false));
  }

  lemma Wakes(c: Config, p: Pools, a: Vm, b: Vm)
    requires a.id != b.id && a.name in p.vms
    ensures var waiting := State(p, map[1 := Waiting(a, a.name), 2 := Creating(b)]);
      Enabled(waiting, Wake(1)) && Next(c, waiting, Wake(1)) == State(p, map[1 := Destroying(a, a.name), 2 := Creating(b)])
  {
    assert map[1 := Waiting(a, a.name), 2 := Creating(b)][1 := Destroying(a, a.name)] == map[1 := Destroying(a, a.name), 2 := Creating(b)];
  }

  lemma DropsBoth(c: Config, p: Pools, a: Vm, b: Vm)
    requires a.name == b.name && a.port == b.port && p.vms == map[b.name := b] && p.ports == [a.port]
    ensures var destroying := State(p, map[1 := Destroying(a, a.name), 2 := Creating(b)]);
      Next(c, destroying, Destroyed(1, true))
      == State(p.(gpus := p.gpus + a.pcis, macs := p.macs + Macs(a.nets), ports := [], vms := map[]), map[2 := Creating(b)])
  {
    HandedBack(p, a, b);
    assert map[1 := Destroying(a, a.name), 2 := Creating(b)] - {1} == map[2 := Creating(b)];
  }

  lemma NextVm(c: Config, d: Device, e: Device, m: string, n: string, a: Vm)
    requires c.maxVms != 0
    ensures var b := OneVm(c, 1, d, m);
      var s := State(Pools([d, e], [m, n], [], map[], 1), map[1 := Waiting(a, a.name)]);
      && Enabled(s, Ask(2))
      && Next(c, s, Ask(2)) == State(Pools([e], [n], [b.port], map[b.name := b], 2), map[1 := Waiting(a, a.name), 2 := Creating(b)])
  {
    OnlyVm(c, d, e, m, n, 1);
  }

  lemma NameIsTakenAgain(c: Config, d: Device, e: Device, m: string, n: string)
    requires c.maxVms != 0
    ensures var s := State(Pools([e, d], [n, m], [], map[], 1), map[1 := Waiting(OneVm(c, 0, d, m), VmName(c.serverName, 0))]);
      var steps := [Ask(2), Wake(1), Destroyed(1, true)];
      Runs(c, s, steps) && Final(c, s, steps).pools == Pools([d, d], [m, m], [], map[], 2)
  {
    var a, b := OneVm(c, 0, d, m), OneVm(c, 1, e, n);
    NextVm(c, e, d, n, m, a);
    var p := Pools([d], [m], [b.port], map[b.name := b], 2);
    var waiting := State(p, map[1 := Waiting(a, a.name), 2 := Creating(b)]);
    var destroying := State(p, map[1 := Destroying(a, a.name), 2 := Creating(b)]);
    Wakes(c, p, a, b);
    DropsBoth(c, p, a, b);
    Three(c, State(Pools([e, d], [n, m], [], map[], 1), map[1 := Waiting(a, a.name)]), waiting, destroying,
          State(Pools([d, d], [m, m], [], map[], 2), map[2 := Creating(b)]),
          Ask(2), Wake(1), Destroyed(1, true));
  }

  /** The run ends with one device free twice and the other one, which nobody holds, gone. */
  lemma StaleDestroyDuplicatesDevices(c: Config, d: Device, e: Device, m: string, n: string)
    requires c.maxVms != 0
    ensures Runs(c, Fresh(d, e, m, n), StaleDestroy(c))
    ensures Final(c, Fresh(d, e, m, n), StaleDestroy(c)).pools == Pools([d, d], [m, m], [], map[], 2)
    ensures d != e ==> !Conserved(Final(c, Fresh(d, e, m, n), StaleDestroy(c)).pools, multiset{d, e}, multiset{m, n})
  {
    CreationFails(c, d, e, m, n);
    NameIsTakenAgain(c, d, e, m, n);
    Append(c, Fresh(d, e, m, n), [Ask(0), Destroy(1, VmName(c.serverName, 0)), Created(0, false)], [Ask(2), Wake(1), Destroyed(1, true)]);
    HeldByNone();
    assert multiset([d, d])[d] == 2 && (d != e ==> multiset{d, e}[d] == 1);
  }
}
