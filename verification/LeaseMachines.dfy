/**
The machines that records list, one by one: over whole runs, a machine leaves its record only when it was
deallocated or after the grace period, except in exactly three ways.
*/
module LeaseMachines {
  import opened PyLists
  import opened Leases
  import opened Expiry
  import opened LeaseRuns

  /** The record is gone, or no longer lists the machine. */
  predicate Lacks(rec: Option<Record>, h: Hardware) {
    rec.None? || h !in rec.value.hardware
  }

  /** The machine was deallocated during the step, or its record was more than fifteen minutes past its expiration. */
  ghost predicate MayLeave(s: State, step: Step, id: Id, h: Hardware)
    requires Enabled(s, step) && id in s.store
  {
    || h in FreedIn(s, step, id)
    || (step.Expire? && s.store[id].expiration < step.w.at(id) - GRACE)
  }

  ghost predicate Accounted(s: State, step: Step, id: Id, h: Hardware)
    requires Enabled(s, step) && id in s.store
  {
    h in s.store[id].hardware && Lacks(Get(Next(s, step).store, id), h) ==> MayLeave(s, step, id, h)
  }

  ghost predicate AllAccounted(s: State, step: Step)
    requires Enabled(s, step)
  {
    forall id, h :: id in s.store ==> Accounted(s, step, id, h)
  }

  // ----- the three ways

  /** A reply to the status query of a lapsed record replaces its list by one without the machine. */
  predicate LeftOut(rec: Record, now: int, reply: Reply, h: Hardware) {
    && Recovering(rec.status) && rec.endpoint.Some? && rec.expiration >= now - GRACE
    && reply.Info? && h !in Details(rec.endpoint.value, reply.vms)
  }

  /** An empty reply drops the record, or another one leaves out a listed machine. */
  predicate Forgets(rec: Record, now: int, reply: Reply) {
    SilentlyLost(rec, now, reply) || exists h <- rec.hardware :: LeftOut(rec, now, reply, h)
  }

  /** A heartbeat writes back an older record, from before a machine was listed. */
  ghost predicate WritesOver(s: State, t: nat)
    requires t in s.beats
  {
    var beat := s.beats[t];
    beat.id in s.store && exists h <- s.store[beat.id].hardware :: h !in beat.rec.hardware
  }

  ghost predicate Remembers(s: State, step: Step)
    requires Enabled(s, step)
  {
    match step
    case Expire(order, w) =>
      forall i :: 0 <= i < Cut(s.store, order, 0, w) ==> !Forgets(s.store[order[i]], w.at(order[i]), w.reply(order[i]))
    case BeatWrites(t) => !WritesOver(s, t)
    case _ => true
  }

  // ----- the pass

  lemma VisitedExactly(rec: Record, now: int, reply: Reply, freed: nat, h: Hardware)
    requires WellFormed(rec) && h in rec.hardware
    ensures Lacks(After(rec, now, reply, freed), h) <==>
      || (Visit(rec, now, reply).Release? && AllFreed(rec, freed))
      || (Recovering(rec.status) && rec.expiration < now - GRACE)
      || SilentlyLost(rec, now, reply) || LeftOut(rec, now, reply, h)
    ensures Lacks(Scanned(rec, now, reply), h) <==>
      || (Recovering(rec.status) && rec.expiration < now - GRACE)
      || SilentlyLost(rec, now, reply) || LeftOut(rec, now, reply, h)
  {
  }

  lemma AccountedInPass(s: State, order: seq<Id>, w: World, i: nat, h: Hardware)
    requires Inv(s) && Enumerates(order, s.store) && i < |order| && order[i] in s.store
    requires i < Cut(s.store, order, 0, w) ==> !Forgets(s.store[order[i]], w.at(order[i]), w.reply(order[i]))
    ensures Accounted(s, Expire(order, w), order[i], h)
  {
    var id := order[i];
    var rec := s.store[id];
    PassAt(s.store, order, w, i);
    if Unbroken(s.store, order, w) {
      CutWhenUnbroken(s.store, order, 0, w);
    }
    if h in rec.hardware {
      VisitedExactly(rec, w.at(id), w.reply(id), w.freed(id), h);
      FreedOfAll(rec, w.freed(id));
    }
  }

  lemma ForgottenInPass(s: State, order: seq<Id>, w: World, i: nat) returns (h: Hardware)
    requires Inv(s) && Enumerates(order, s.store) && i < Cut(s.store, order, 0, w)
    requires Forgets(s.store[order[i]], w.at(order[i]), w.reply(order[i]))
    ensures order[i] in s.store && !Accounted(s, Expire(order, w), order[i], h)
  {
    var id := order[i];
    assert id in order;
    var rec := s.store[id];
    PassAt(s.store, order, w, i);
    if SilentlyLost(rec, w.at(id), w.reply(id)) {
      h := rec.hardware[0];
    } else {
      h :| h in rec.hardware && LeftOut(rec, w.at(id), w.reply(id), h);
    }
    VisitedExactly(rec, w.at(id), w.reply(id), w.freed(id), h);
    assert !Visit(rec, w.at(id), w.reply(id)).Release?;
  }

  lemma PassExactly(s: State, order: seq<Id>, w: World)
    requires Inv(s) && Enumerates(order, s.store)
    ensures AllAccounted(s, Expire(order, w)) <==> Remembers(s, Expire(order, w))
  {
    var step := Expire(order, w);
    if Remembers(s, step) {
      forall id, h | id in s.store ensures Accounted(s, step, id, h) {
        assert id in order;
        var i :| 0 <= i < |order| && order[i] == id;
        AccountedInPass(s, order, w, i, h);
      }
    } else {
      var i :| 0 <= i < Cut(s.store, order, 0, w) && Forgets(s.store[order[i]], w.at(order[i]), w.reply(order[i]));
      var h := ForgottenInPass(s, order, w, i);
    }
  }

  lemma WriteExactly(s: State, t: nat)
    requires t in s.beats
    ensures AllAccounted(s, BeatWrites(t)) <==> !WritesOver(s, t)
  {
    var beat := s.beats[t];
    if WritesOver(s, t) {
      var h :| h in s.store[beat.id].hardware && h !in beat.rec.hardware;
      assert !Accounted(s, BeatWrites(t), beat.id, h);
    } else {
      forall id, h | id in s.store ensures Accounted(s, BeatWrites(t), id, h) {
      }
    }
  }

  /** One step lets a machine go unaccounted if and only if a reply leaves it out or a heartbeat writes over it. */
  lemma StepExactly(s: State, step: Step)
    requires Inv(s) && Enabled(s, step)
    ensures AllAccounted(s, step) <==> Remembers(s, step)
  {
    match step
    case Expire(order, w) => PassExactly(s, order, w);
    case BeatWrites(t) => WriteExactly(s, t);
    case Release(id, freed) =>
      forall x, h | x in s.store ensures Accounted(s, step, x, h) {
        if x == id && s.store[id].hardware != [] { FreedOfAll(s.store[id], freed); }
      }
    case _ =>
      forall x, h | x in s.store ensures Accounted(s, step, x, h) {
      }
  }

  // ----- runs

  ghost predicate AlwaysAccounted(s: State, steps: seq<Step>)
    requires Runs(s, steps)
    decreases |steps|
  {
    steps == [] || (AllAccounted(s, steps[0]) && AlwaysAccounted(Next(s, steps[0]), steps[1..]))
  }

  ghost predicate AlwaysRemembers(s: State, steps: seq<Step>)
    requires Runs(s, steps)
    decreases |steps|
  {
    steps == [] || (Remembers(s, steps[0]) && AlwaysRemembers(Next(s, steps[0]), steps[1..]))
  }

  /**
  In every run, a listed machine leaves its record only deallocated or more than fifteen minutes after the
  expiration, if and only if no recovery reply is empty or leaves a listed machine out, and no heartbeat
  writes back a record from before a machine was listed.
  */
  lemma {:induction false} MachinesAreAccounted(s: State, steps: seq<Step>)
    requires Inv(s) && Runs(s, steps)
    ensures AlwaysAccounted(s, steps) <==> AlwaysRemembers(s, steps)
    decreases |steps|
  {
    if steps != [] {
      StepExactly(s, steps[0]);
      InvKept(s, steps[0]);
      MachinesAreAccounted(Next(s, steps[0]), steps[1..]);
    }
  }

  // ----- a heartbeat that is overtaken

  function Ask(id: Id, vm: VmId, now: int): Step {
    Request(id, true, [Offer(0, Allocated([vm]), now)], now)
  }

  /** A lease is released and its identifier requested again while a heartbeat of the old lease is under way. */
  function Overtaken(id: Id, now: int): seq<Step> {
    [Ask(id, 1, now)] + ([BeatReads(0, id, now)] + ([Step.Release(id, 1)] + ([Ask(id, 2, now)] + ([BeatWrites(0)] + []))))
  }

  function Listing(vm: VmId, now: int): Record {
    Record(Success, now + LEASE, Some(0), [Hardware(0, vm)])
  }

  lemma AskLists(store: Hash, id: Id, vm: VmId, now: int)
    requires id !in store
    ensures Fulfil(store, id, true, [Offer(0, Allocated([vm]), now)], now)
            == store[id := Listing(vm, now)]
  {
    var offers := [Offer(0, Allocated([vm]), now)];
    var rec := Record(Allocating, now + LEASE, Some(0), []);
    var done := Fulfilled(rec, 0, [vm], now);
    assert offers[1..] == [] && Carry(done, []) == done;
    assert Carry(rec, offers) == Carry(done, offers[1..]);
    assert Details(0, [vm]) == [Hardware(0, vm)];
  }

  /** A run that goes wrong later goes wrong. */
  lemma Behind(s: State, step: Step, next: State, rest: seq<Step>)
    requires Enabled(s, step) && Next(s, step) == next && Runs(next, rest)
    ensures Runs(s, [step] + rest)
    ensures !AllAccounted(s, step) || !AlwaysAccounted(next, rest) ==> !AlwaysAccounted(s, [step] + rest)
  {
    assert ([step] + rest)[1..] == rest;
  }

  lemma WritesOldList(id: Id, now: int)
    ensures var s := State(map[id := Listing(2, now)], map[0 := Heartbeat(id, Listing(1, now))]);
      !AllAccounted(s, BeatWrites(0))
  {
    var s := State(map[id := Listing(2, now)], map[0 := Heartbeat(id, Listing(1, now))]);
    assert Hardware(0, 2) in s.store[id].hardware && Hardware(0, 2) !in Listing(1, now).hardware;
    assert WritesOver(s, 0);
    WriteExactly(s, 0);
  }

  /** Then the write brings the old list back, and the new machine is listed nowhere. */
  lemma OvertakenHeartbeatForgets(id: Id, now: int)
    ensures Runs(State(map[], map[]), Overtaken(id, now)) && !AlwaysAccounted(State(map[], map[]), Overtaken(id, now))
  {
    var beat := map[0 := Heartbeat(id, Listing(1, now))];
    var s0, s1, s2 := State(map[], map[]), State(map[id := Listing(1, now)], map[]), State(map[id := Listing(1, now)], beat);
    var s3, s4 := State(map[], beat), State(map[id := Listing(2, now)], beat);
    AskLists(map[], id, 1, now);
    AskLists(map[], id, 2, now);
    WritesOldList(id, now);
    Behind(s4, BeatWrites(0), Next(s4, BeatWrites(0)), []);
    var r4 := [BeatWrites(0)] + [];
    Behind(s3, Ask(id, 2, now), s4, r4);
    var r3 := [Ask(id, 2, now)] + r4;
    Behind(s2, Step.Release(id, 1), s3, r3);
    var r2 := [Step.Release(id, 1)] + r3;
    Behind(s1, BeatReads(0, id, now), s2, r2);
    Behind(s0, Ask(id, 1, now), s1, [BeatReads(0, id, now)] + r2);
  }
}
