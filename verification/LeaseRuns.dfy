/**
Whole runs of the provisioner, over any number of managers. Fulfilment, release and the expiry pass each run
uninterrupted; a heartbeat is a read and a later write with anything in between.
*/
module LeaseRuns {
  import opened PyLists
  import opened Leases
  import opened Expiry

  datatype Heartbeat = Heartbeat(id: Id, rec: Record)

  datatype State = State(store: Hash, beats: map<nat, Heartbeat>)

  datatype Step =
    | Request(id: Id, possible: bool, offers: seq<Offer>, now: int)
    | Release(id: Id, freed: nat)
    | BeatReads(t: nat, id: Id, now: int)
    | BeatWrites(t: nat)
    | Expire(order: seq<Id>, w: World)

  ghost predicate Enabled(s: State, step: Step) {
    match step
    case Request(_, possible, offers, _) => possible ==> offers != []
    case BeatReads(t, _, _) => t !in s.beats
    case BeatWrites(t) => t in s.beats
    case Expire(order, _) => Enumerates(order, s.store)
    case _ => true
  }

  ghost function Next(s: State, step: Step): State
    requires Enabled(s, step)
  {
    match step
    case Request(id, possible, offers, now) => s.(store := Fulfil(s.store, id, possible, offers, now))
    case Release(id, freed) => s.(store := ReleaseLease(s.store, id, freed))
    case BeatReads(t, id, now) =>
      // only a successful lease is extended; anything else raises before the write
      if id in s.store && s.store[id].status == Success
      then s.(beats := s.beats[t := Heartbeat(id, s.store[id].(expiration := now + LEASE))])
      else s
    case BeatWrites(t) => State(s.store[s.beats[t].id := s.beats[t].rec], s.beats - {t})
    case Expire(order, w) => s.(store := Pass(s.store, order, w))
  }

  /** The machines of record `id` whose deallocation succeeded during the step. */
  ghost function FreedIn(s: State, step: Step, id: Id): seq<Hardware>
    requires Enabled(s, step) && id in s.store
  {
    match step
    case Release(x, freed) => if x == id then FreedOf(s.store[id], freed) else []
    case Expire(order, w) =>
      if Visit(s.store[id], w.at(id), w.reply(id)).Release? then FreedOf(s.store[id], w.freed(id)) else []
    case _ => []
  }

  /** A record that listed machines may go once all of them were deallocated, or after the grace period. */
  ghost predicate Justified(s: State, step: Step, id: Id)
    requires Enabled(s, step) && id in s.store
  {
    || FreedIn(s, step, id) == s.store[id].hardware
    || (step.Expire? && s.store[id].expiration < step.w.at(id) - GRACE)
  }

  ghost predicate DropsJustified(s: State, step: Step)
    requires Enabled(s, step)
  {
    forall id <- s.store :: s.store[id].hardware != [] && id !in Next(s, step).store ==> Justified(s, step, id)
  }

  /** The manager answers the status query of a lapsed record that lists machines with nothing at all. */
  predicate SilentlyLost(rec: Record, now: int, reply: Reply) {
    && rec.hardware != [] && Recovering(rec.status)
    && now - GRACE <= rec.expiration <= now && reply == Empty
  }

  ghost predicate NoSilentLoss(s: State, step: Step)
    requires Enabled(s, step)
  {
    step.Expire? ==> forall i :: 0 <= i < Cut(s.store, step.order, 0, step.w) ==>
                       !SilentlyLost(s.store[step.order[i]], step.w.at(step.order[i]), step.w.reply(step.order[i]))
  }

  // ----- records that list machines always name their manager

  predicate WellFormed(rec: Record) {
    rec.hardware != [] ==> rec.endpoint.Some? && rec.status !in {Received, Allocating}
  }

  ghost predicate Inv(s: State) {
    && (forall id <- s.store :: WellFormed(s.store[id]))
    && (forall t <- s.beats :: WellFormed(s.beats[t].rec))
  }

  lemma ScannedIsWellFormed(rec: Record, now: int, reply: Reply, freed: nat)
    requires WellFormed(rec)
    ensures Scanned(rec, now, reply).Some? ==> WellFormed(Scanned(rec, now, reply).value)
    ensures After(rec, now, reply, freed).Some? ==> WellFormed(After(rec, now, reply, freed).value)
  {
  }

  lemma PassIsWellFormed(store: Hash, order: seq<Id>, w: World, id: Id)
    requires Enumerates(order, store) && (forall x <- store :: WellFormed(store[x]))
    requires id in Pass(store, order, w)
    ensures WellFormed(Pass(store, order, w)[id])
  {
    if id !in store {
      PassAddsNothing(store, order, w, id);
    } else {
      ScannedIsWellFormed(store[id], w.at(id), w.reply(id), w.freed(id));
      if Unbroken(store, order, w) {
        PassIsPointwise(store, order, w, id);
      } else {
        CutPass(store, order, w, id);
      }
    }
  }

  lemma {:induction false} CarriedIsWellFormed(rec: Record, offers: seq<Offer>)
    requires WellFormed(rec) && rec.endpoint.Some?
    ensures WellFormed(Carry(rec, offers))
    decreases |offers|
  {
    if offers != [] && offers[0].outcome.Allocated? {
      CarriedIsWellFormed(Fulfilled(rec, offers[0].endpoint, offers[0].outcome.vms, offers[0].now), offers[1..]);
    }
  }

  lemma InvKept(s: State, step: Step)
    requires Inv(s) && Enabled(s, step)
    ensures Inv(Next(s, step))
  {
    if step.Request? && step.possible {
      var offers := step.offers;
      CarriedIsWellFormed(Record(Allocating, step.now + LEASE, Some(offers[|offers| - 1].endpoint), []), offers);
    }
    if step.Expire? {
      forall id <- Pass(s.store, step.order, step.w) ensures WellFormed(Pass(s.store, step.order, step.w)[id]) {
        PassIsWellFormed(s.store, step.order, step.w, id);
      }
    }
  }

  /** Inside a pass, a record that lists machines goes in exactly three ways. */
  lemma DroppedBecause(rec: Record, now: int, reply: Reply, freed: nat)
    requires WellFormed(rec) && rec.hardware != []
    ensures After(rec, now, reply, freed).None? <==>
      || (Visit(rec, now, reply).Release? && AllFreed(rec, freed))
      || (Recovering(rec.status) && rec.expiration < now - GRACE)
      || SilentlyLost(rec, now, reply)
    ensures Scanned(rec, now, reply).None? <==>
      || (Recovering(rec.status) && rec.expiration < now - GRACE)
      || SilentlyLost(rec, now, reply)
  {
  }

  lemma FreedOfAll(rec: Record, freed: nat)
    requires rec.hardware != []
    ensures FreedOf(rec, freed) == rec.hardware <==> AllFreed(rec, freed)
  {
    assert |FreedOf(rec, freed)| == if freed <= |rec.hardware| then freed else |rec.hardware|;
  }

  lemma SilentIsUnjustified(s: State, order: seq<Id>, w: World, id: Id)
    requires Inv(s) && Enumerates(order, s.store) && id in s.store
    requires SilentlyLost(s.store[id], w.at(id), w.reply(id))
    ensures !Justified(s, Expire(order, w), id)
  {
    assert !Visit(s.store[id], w.at(id), w.reply(id)).Release?;
  }

  lemma PassDropsJustified(s: State, order: seq<Id>, w: World)
    requires Inv(s) && Enumerates(order, s.store)
    ensures DropsJustified(s, Expire(order, w)) <==> NoSilentLoss(s, Expire(order, w))
  {
    var step := Expire(order, w);
    var after := Pass(s.store, order, w);
    var cut := Cut(s.store, order, 0, w);
    if NoSilentLoss(s, step) {
      forall id <- s.store | s.store[id].hardware != [] && id !in after ensures Justified(s, step, id) {
        DropInPass(s, order, w, id);
      }
    } else {
      var i :| 0 <= i < cut && SilentlyLost(s.store[order[i]], w.at(order[i]), w.reply(order[i]));
      LostInPass(s, order, w, i);
      SilentIsUnjustified(s, order, w, order[i]);
    }
  }

  lemma DropInPass(s: State, order: seq<Id>, w: World, id: Id)
    requires Inv(s) && Enumerates(order, s.store) && NoSilentLoss(s, Expire(order, w))
    requires id in s.store && s.store[id].hardware != [] && id !in Pass(s.store, order, w)
    ensures Justified(s, Expire(order, w), id)
  {
    var rec := s.store[id];
    DroppedBecause(rec, w.at(id), w.reply(id), w.freed(id));
    FreedOfAll(rec, w.freed(id));
    var i :| 0 <= i < |order| && order[i] == id;
    if Unbroken(s.store, order, w) {
      PassIsPointwise(s.store, order, w, id);
      CutWhenUnbroken(s.store, order, 0, w);
    } else {
      CutPass(s.store, order, w, id);
      BeyondTheCut(s.store, order, w, i);
    }
  }

  /** What a pass that is cut short does not come to, it keeps. */
  lemma BeyondTheCut(store: Hash, order: seq<Id>, w: World, i: nat)
    requires Enumerates(order, store) && !Unbroken(store, order, w) && i < |order|
    ensures i >= Cut(store, order, 0, w) ==> order[i] in Pass(store, order, w)
  {
    ScanIsPointwise(store, store, order, 0, w);
    CutWhenBroken(store, order, 0, w);
    var cut := Cut(store, order, 0, w);
    if i >= cut {
      assert order[i] !in order[0..cut];
      assert order[i] in order && order[i] in store;
    }
  }

  lemma LostInPass(s: State, order: seq<Id>, w: World, i: nat)
    requires Inv(s) && Enumerates(order, s.store) && i < Cut(s.store, order, 0, w)
    requires SilentlyLost(s.store[order[i]], w.at(order[i]), w.reply(order[i]))
    ensures order[i] !in Pass(s.store, order, w)
  {
    var id := order[i];
    assert id in order && id in s.store;
    DroppedBecause(s.store[id], w.at(id), w.reply(id), w.freed(id));
    if Unbroken(s.store, order, w) {
      PassIsPointwise(s.store, order, w, id);
    } else {
      ScanIsPointwise(s.store, s.store, order, 0, w);
      CutWhenBroken(s.store, order, 0, w);
    }
  }

  lemma StepDropsJustified(s: State, step: Step)
    requires Inv(s) && Enabled(s, step)
    ensures DropsJustified(s, step) <==> NoSilentLoss(s, step)
  {
    match step
    case Expire(order, w) => PassDropsJustified(s, order, w);
    case Release(id, freed) => if id in s.store && s.store[id].hardware != [] { FreedOfAll(s.store[id], freed); }
    case _ =>
  }

  // ----- runs

  ghost predicate Runs(s: State, steps: seq<Step>)
    decreases |steps|
  {
    steps == [] || (Enabled(s, steps[0]) && Runs(Next(s, steps[0]), steps[1..]))
  }

  ghost function Final(s: State, steps: seq<Step>): State
    requires Runs(s, steps)
    decreases |steps|
  {
    if steps == [] then s else Final(Next(s, steps[0]), steps[1..])
  }

  ghost predicate AlwaysJustified(s: State, steps: seq<Step>)
    requires Runs(s, steps)
    decreases |steps|
  {
    steps == [] || (DropsJustified(s, steps[0]) && AlwaysJustified(Next(s, steps[0]), steps[1..]))
  }

  ghost predicate NeverSilent(s: State, steps: seq<Step>)
    requires Runs(s, steps)
    decreases |steps|
  {
    steps == [] || (NoSilentLoss(s, steps[0]) && NeverSilent(Next(s, steps[0]), steps[1..]))
  }

  /**
  In every run, a record that lists machines is deleted only after they were all deallocated or once its
  expiration is more than fifteen minutes past, if and only if no manager ever answers the status query of
  such a lapsed record with an empty reply.
  */
  lemma {:induction false} NoMachineForgotten(s: State, steps: seq<Step>)
    requires Inv(s) && Runs(s, steps)
    ensures AlwaysJustified(s, steps) <==> NeverSilent(s, steps)
    decreases |steps|
  {
    if steps != [] {
      StepDropsJustified(s, steps[0]);
      InvKept(s, steps[0]);
      NoMachineForgotten(Next(s, steps[0]), steps[1..]);
    }
  }
}
