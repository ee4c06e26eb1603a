/** A restart and what follows: a restored allocator is a sound start for every run. */
module Restart {
  import opened PyLists
  import opened Vms
  import opened AllocatorSpec
  import opened AllocatorRuns
  import opened AllocatorPorts
  import opened RestoreSpec
  import opened Restore

  lemma RestoredRecordIsOwned(c: Config, p: Pools, rec: Record, world: World)
    requires Owned(State(p, map[]))
    ensures Owned(State(TryRestore(c, p, rec, world).0, map[]))
  {
    RestoreShape(c, p, rec, world);
  }

  /** Restored VMs sit under their own names and have identities of their own. */
  lemma {:induction false} RestoredIsOwned(c: Config, p: Pools, recs: seq<Record>, worlds: seq<World>)
    requires |recs| == |worlds| && Owned(State(p, map[]))
    ensures Owned(State(RestoreAll(c, p, recs, worlds).0, map[]))
    decreases |recs|
  {
    if recs != [] {
      RestoredRecordIsOwned(c, p, recs[0], worlds[0]);
      var (q, ok) := TryRestore(c, p, recs[0], worlds[0]);
      if ok || CleansUp(recs[0], worlds[0]) {
        RestoredIsOwned(c, q, recs[1..], worlds[1..]);
      }
    }
  }

  /** After a restart from well-formed records with different names, every proper run conserves the devices that are configured. */
  lemma ConservationAfterRestart(c: Config, q: Pools, recs: seq<Record>, worlds: seq<World>, steps: seq<Step>,
                                 gpus: multiset<Device>, macs: multiset<string>)
    requires FreshStart(q, gpus, macs) && |recs| == |worlds|
    requires FreshNames(recs, {}) && forall i :: 0 <= i < |recs| ==> WellFormed(recs[i])
    requires var s := State(RestoreAll(c, q, recs, worlds).0, map[]); Runs(c, s, steps) && AllProper(c, s, steps)
    ensures AlwaysConserved(c, State(RestoreAll(c, q, recs, worlds).0, map[]), steps, gpus, macs)
  {
    FreshIsConserved(q, gpus, macs);
    assert q.vms.Keys == {};
    RestoreConserves(c, q, recs, worlds, gpus, macs);
    assert Owned(State(q, map[]));
    RestoredIsOwned(c, q, recs, worlds);
    Conservation(c, State(RestoreAll(c, q, recs, worlds).0, map[]), steps, gpus, macs);
  }

  /** What is read back keeps the serial ports of live VMs apart. */
  lemma RestoredPortsStayApart(live: map<string, Vm>, after: map<string, Vm>)
    requires PortsApart(live) && forall k <- after :: k in live && RestoredAs(live[k], after[k])
    ensures PortsApart(after)
  {
    forall j <- after, k <- after | j != k ensures !SamePort(after[j].port, after[k].port) {
      assert !SamePort(live[j].port, live[k].port);
    }
  }
}
