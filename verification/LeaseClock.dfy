/**
One successful lease in real time: heartbeats and an expiry pass that works on a snapshot interleave freely
while the clock runs. Everything that happens to other records is left open.
*/
module LeaseClock {
  import opened PyLists
  import opened Leases

  /** A heartbeat between its read and its write; `stamp` is when it computed the new expiration. */
  datatype Beat = Beat(rec: Record, stamp: int)

  /** An expiry pass under way: its snapshot, when that was taken, and the records not looked at yet. */
  datatype Sweep = Sweep(snapshot: Hash, takenAt: int, todo: set<Id>)

  datatype State = State(now: int, store: Hash, beats: map<nat, Beat>, lastWrite: int, sweep: Option<Sweep>, reclaimed: bool)

  datatype Step =
    | Tick(seconds: nat)
    | BeatReads(t: nat)
    | BeatWrites(t: nat)
    | TakeSnapshot
    | Look(id: Id, reply: Reply)
    | EndSweep
    | Other(id: Id, rec: Option<Record>)

  ghost predicate Enabled(a: Id, s: State, step: Step) {
    match step
    case Tick(_) => true
    case BeatReads(t) => t !in s.beats
    case BeatWrites(t) => t in s.beats
    case TakeSnapshot => s.sweep.None?
    case Look(id, _) => s.sweep.Some? && id in s.sweep.value.todo && id in s.sweep.value.snapshot
    case EndSweep => s.sweep.Some?
    case Other(id, _) => id != a
  }

  ghost function Put(store: Hash, id: Id, rec: Option<Record>): Hash {
    if rec.Some? then store[id := rec.value] else store - {id}
  }

  ghost function Next(a: Id, s: State, step: Step): State
    requires Enabled(a, s, step)
  {
    match step
    case Tick(seconds) => s.(now := s.now + seconds)
    case BeatReads(t) =>
      if a in s.store && s.store[a].status == Success
      then s.(beats := s.beats[t := Beat(s.store[a].(expiration := s.now + LEASE), s.now)])
      else s
    case BeatWrites(t) => s.(store := s.store[a := s.beats[t].rec], beats := s.beats - {t}, lastWrite := s.now)
    case TakeSnapshot => s.(sweep := Some(Sweep(s.store, s.now, s.store.Keys)))
    case Look(id, reply) =>
      var sweep := s.sweep.value;
      var rest := Some(sweep.(todo := sweep.todo - {id}));
      (match Visit(sweep.snapshot[id], s.now, reply)
       case Keep(r) => s.(store := if r == sweep.snapshot[id] then s.store else s.store[id := r], sweep := rest)
       case Drop => s.(store := s.store - {id}, sweep := rest)
       case Release(r) => s.(store := s.store[id := r], sweep := rest, reclaimed := s.reclaimed || id == a)
       case Broken => s.(sweep := None))
    case EndSweep => s.(sweep := None)
    case Other(id, rec) => s.(store := Put(s.store, id, rec))
  }

  /** At most `gap` seconds between heartbeat writes, `lag` from a stamp to its write, `span` from a snapshot to the look at the lease. */
  datatype Timing = Timing(gap: nat, lag: nat, span: nat)

  ghost predicate OnTime(a: Id, s: State, m: Timing) {
    && s.now - s.lastWrite <= m.gap
    && (forall t <- s.beats :: s.now - s.beats[t].stamp <= m.lag)
    && (s.sweep.Some? && a in s.sweep.value.todo ==> s.now - s.sweep.value.takenAt <= m.span)
  }

  /** A heartbeat with nothing in between extends the lease to sixty seconds from now exactly if it is a success. */
  lemma UninterruptedBeat(a: Id, s: State, t: nat)
    requires t !in s.beats
    ensures var s1 := Next(a, s, BeatReads(t));
      if a in s.store && s.store[a].status == Success
      then t in s1.beats && Next(a, s1, BeatWrites(t)) == s.(store := s.store[a := s.store[a].(expiration := s.now + 60)], lastWrite := s.now)
      else s1 == s
  {
    var s1 := Next(a, s, BeatReads(t));
    if a in s.store && s.store[a].status == Success {
      assert s1.beats - {t} == s.beats;
    }
  }

  /** A look at the lease reclaims it exactly if its snapshot is a success that has expired by now, whatever the store says. */
  lemma LookReclaimsExactly(a: Id, s: State, reply: Reply)
    requires Enabled(a, s, Look(a, reply)) && !s.reclaimed
    ensures var rec := s.sweep.value.snapshot[a];
      var next := Next(a, s, Look(a, reply));
      && (next.reclaimed <==> rec.status == Success && rec.expiration <= s.now)
      && (next.reclaimed ==> a in next.store && next.store[a] == rec.(status := Deallocating))
  {
  }

  // ----- a sweep with nothing in between is the first loop of the expiry pass

  /** The records from position `k` on are still to be looked at. */
  ghost predicate Ahead(s: State, order: seq<Id>, k: nat) {
    && s.sweep.Some? && Distinct(order) && k <= |order|
    && forall i :: k <= i < |order| ==> order[i] in s.sweep.value.todo && order[i] in s.sweep.value.snapshot
  }

  /** After looks at them in order, as far as they get. */
  ghost function Looked(a: Id, s: State, order: seq<Id>, k: nat, w: World): State
    requires Ahead(s, order, k)
    decreases |order| - k
  {
    if k == |order| then s
    else
      var next := Next(a, s, Look(order[k], w.reply(order[k])));
      if next.sweep.None? then next else Looked(a, next, order, k + 1, w)
  }

  lemma {:induction false} LooksAreScan(a: Id, s: State, order: seq<Id>, k: nat, w: World)
    requires Ahead(s, order, k) && (forall id <- order :: id in s.sweep.value.snapshot && w.at(id) == s.now)
    ensures var (store, _, broken) := Scan(s.store, s.sweep.value.snapshot, order, k, w);
      Looked(a, s, order, k, w).store == store && (Looked(a, s, order, k, w).sweep.None? <==> broken)
    decreases |order| - k
  {
    if k < |order| {
      var next := Next(a, s, Look(order[k], w.reply(order[k])));
      if next.sweep.Some? {
        LooksAreScan(a, next, order, k + 1, w);
      }
    }
  }

  /** A whole sweep leaves the store as the first loop does, and nothing under way. */
  lemma UninterruptedSweep(a: Id, s: State, order: seq<Id>, w: World)
    requires s.sweep.None? && Distinct(order) && (forall id :: id in order <==> id in s.store) && forall id <- order :: w.at(id) == s.now
    ensures Ahead(Next(a, s, TakeSnapshot), order, 0)
    ensures var end := Looked(a, Next(a, s, TakeSnapshot), order, 0, w);
      var last := if end.sweep.None? then end else Next(a, end, EndSweep);
      last.store == Scan(s.store, s.store, order, 0, w).0 && last.sweep.None?
  {
    LooksAreScan(a, Next(a, s, TakeSnapshot), order, 0, w);
  }

  ghost predicate Runs(a: Id, s: State, steps: seq<Step>, m: Timing)
    decreases |steps|
  {
    && OnTime(a, s, m)
    && (steps == [] || (Enabled(a, s, steps[0]) && Runs(a, Next(a, s, steps[0]), steps[1..], m)))
  }

  ghost function Final(a: Id, s: State, steps: seq<Step>, m: Timing): State
    requires Runs(a, s, steps, m)
    decreases |steps|
  {
    if steps == [] then s else Final(a, Next(a, s, steps[0]), steps[1..], m)
  }

  /** `rec` is the lease, but for its expiration. */
  predicate SameLease(rec: Record, lease: Record) {
    rec.(expiration := lease.expiration) == lease && lease.status == Success
  }

  /** The lease stands, extended no earlier than the last write allows. */
  ghost predicate Held(a: Id, s: State, lease: Record, m: Timing) {
    && a in s.store && SameLease(s.store[a], lease)
    && s.store[a].expiration >= s.lastWrite - m.lag + LEASE
    && s.lastWrite <= s.now
    && !s.reclaimed
  }

  ghost predicate Inv(a: Id, s: State, lease: Record, m: Timing) {
    && Held(a, s, lease, m)
    && (forall t <- s.beats :: var b := s.beats[t]; SameLease(b.rec, lease) && b.rec.expiration == b.stamp + LEASE)
    && (s.sweep.Some? && a in s.sweep.value.todo ==> SnapshotFresh(a, s.sweep.value, lease, m))
  }

  ghost predicate SnapshotFresh(a: Id, sweep: Sweep, lease: Record, m: Timing) {
    && a in sweep.snapshot && SameLease(sweep.snapshot[a], lease)
    && sweep.snapshot[a].expiration >= sweep.takenAt - m.gap - m.lag + LEASE
  }

  lemma InvKept(a: Id, s: State, step: Step, lease: Record, m: Timing)
    requires m.gap + m.lag + m.span < LEASE
    requires Inv(a, s, lease, m) && OnTime(a, s, m) && Enabled(a, s, step)
    ensures Inv(a, Next(a, s, step), lease, m)
  {
    if step.Look? && step.id == a {
      var rec := s.sweep.value.snapshot[a];
      assert rec.expiration > s.now;
      assert Visit(rec, s.now, step.reply) == Keep(rec);
    }
  }

  /** No run that is on time ever reclaims the lease, or touches anything but its expiration. */
  lemma {:induction false} NeverReclaimed(a: Id, s: State, steps: seq<Step>, lease: Record, m: Timing)
    requires m.gap + m.lag + m.span < LEASE
    requires Inv(a, s, lease, m) && Runs(a, s, steps, m)
    ensures Held(a, Final(a, s, steps, m), lease, m)
    decreases |steps|
  {
    if steps != [] {
      InvKept(a, s, steps[0], lease, m);
      NeverReclaimed(a, Next(a, s, steps[0]), steps[1..], lease, m);
    }
  }

  // ----- the bound is tight

  function Granted(m: Timing): Record {
    Record(Success, LEASE - m.lag, Some(0), [Hardware(0, 0)])
  }

  /** A lease whose last write, `lag` seconds late, has just landed. */
  ghost function Leased(a: Id, m: Timing): State {
    State(0, map[a := Granted(m)], map[], 0, None, false)
  }

  lemma LeasedIsHeld(a: Id, m: Timing)
    ensures Inv(a, Leased(a, m), Granted(m), m)
  {
  }

  lemma Then(a: Id, s: State, step: Step, rest: seq<Step>, m: Timing)
    requires OnTime(a, s, m) && Enabled(a, s, step) && Runs(a, Next(a, s, step), rest, m)
    ensures Runs(a, s, [step] + rest, m) && Final(a, s, [step] + rest, m) == Final(a, Next(a, s, step), rest, m)
  {
    assert ([step] + rest)[1..] == rest;
  }

  /** A pass that waits, while a heartbeat is written every second, and then looks at its old snapshot. */
  ghost predicate Waiting(a: Id, s: State, m: Timing) {
    && s.now == s.lastWrite && s.beats == map[]
    && a in s.store && s.store[a].status == Success
    && s.sweep.Some? && a in s.sweep.value.todo && a in s.sweep.value.snapshot
    && s.sweep.value.snapshot[a].status == Success
  }

  lemma {:induction false} WaitAndReclaim(a: Id, s: State, n: nat, m: Timing) returns (steps: seq<Step>)
    requires m.gap >= 1 && Waiting(a, s, m) && s.now + n <= s.sweep.value.takenAt + m.span
    requires s.sweep.value.snapshot[a].expiration <= s.now + n
    ensures Runs(a, s, steps, m) && Final(a, s, steps, m).reclaimed
    decreases n
  {
    if n == 0 {
      steps := [Look(a, Empty)] + [];
      Then(a, s, Look(a, Empty), [], m);
    } else {
      var s1 := Next(a, s, Tick(1));
      var s2 := Next(a, s1, BeatReads(0));
      var s3 := Next(a, s2, BeatWrites(0));
      assert s3.beats == map[];
      steps := WaitAndReclaim(a, s3, n - 1, m);
      Then(a, s2, BeatWrites(0), steps, m);
      Then(a, s1, BeatReads(0), [BeatWrites(0)] + steps, m);
      Then(a, s, Tick(1), [BeatReads(0)] + ([BeatWrites(0)] + steps), m);
      steps := [Tick(1)] + ([BeatReads(0)] + ([BeatWrites(0)] + steps));
    }
  }

  lemma SlowPassReclaims(a: Id, m: Timing) returns (steps: seq<Step>)
    requires m.gap >= 1 && m.gap + m.lag + m.span >= LEASE
    ensures Runs(a, Leased(a, m), steps, m) && Final(a, Leased(a, m), steps, m).reclaimed
  {
    var s0 := Leased(a, m);
    var s1 := Next(a, s0, Tick(m.gap));
    var s2 := Next(a, s1, TakeSnapshot);
    var s3 := Next(a, s2, BeatReads(0));
    var s4 := Next(a, s3, BeatWrites(0));
    assert s4.beats == map[];
    steps := WaitAndReclaim(a, s4, m.span, m);
    Then(a, s3, BeatWrites(0), steps, m);
    Then(a, s2, BeatReads(0), [BeatWrites(0)] + steps, m);
    Then(a, s1, TakeSnapshot, [BeatReads(0)] + ([BeatWrites(0)] + steps), m);
    Then(a, s0, Tick(m.gap), [TakeSnapshot] + ([BeatReads(0)] + ([BeatWrites(0)] + steps)), m);
    steps := [Tick(m.gap)] + ([TakeSnapshot] + ([BeatReads(0)] + ([BeatWrites(0)] + steps)));
  }

  /** A run that is on time and keeps the lease. */
  ghost predicate Keeps(a: Id, s: State, steps: seq<Step>, lease: Record, m: Timing) {
    Inv(a, s, lease, m) && Runs(a, s, steps, m) ==> !Final(a, s, steps, m).reclaimed
  }

  /** A lease is safe in every run with the given timing if and only if the three delays add up to less than its length. */
  lemma SafeExactly(a: Id, m: Timing)
    requires m.gap >= 1
    ensures m.gap + m.lag + m.span < LEASE <==> forall s, steps, lease :: Keeps(a, s, steps, lease, m)
  {
    if m.gap + m.lag + m.span < LEASE {
      forall s, steps, lease ensures Keeps(a, s, steps, lease, m) {
        if Inv(a, s, lease, m) && Runs(a, s, steps, m) {
          NeverReclaimed(a, s, steps, lease, m);
        }
      }
    } else {
      var steps := SlowPassReclaims(a, m);
      LeasedIsHeld(a, m);
      assert !Keeps(a, Leased(a, m), steps, Granted(m), m);
    }
  }
}
