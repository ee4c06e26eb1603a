/**
Locked allocations racing with unlocked releases, and with the pass that reclaims dangling machines: each
reads the shared table and writes it later, and only the allocations exclude one another.
*/
module HardwareRuns {
  import opened PyLists
  import opened Hardware

  /** The machine an allocation read and has not written yet. */
  datatype Held = Held(machine: Machine, demand: Demand)

  /** A release between its read and its write, with the grant that it is meant to end. */
  datatype Pending = Pending(name: Name, machine: Machine, grant: Option<nat>)

  /**
  The reclaiming pass: it asks for the active allocations, then reads all machines, then releases those that
  look dangling; `grants` are the grants in force when it read the machines.
  */
  datatype Cleaner = Resting | Knows(ids: set<Id>) | Sweeps(ids: set<Id>, snapshot: Table, grants: map<Name, nat>, todo: set<Name>)

  /** `owner` names the grant that each machine in use belongs to. */
  datatype State = State(table: Table, holder: Option<Held>, releases: map<nat, Pending>, owner: map<Name, nat>, nextGrant: nat,
                         cleaner: Cleaner)

  datatype Step =
    | AllocReads(order: seq<Name>, d: Demand)
    | AllocWrites
    | ReleaseReads(t: nat, name: Name)
    | ReleaseWrites(t: nat)
    | CleanAsks(ids: set<Id>)
    | CleanSnapshots
    | CleanReleases(t: nat, key: Name)
    | CleanEnds

  ghost function GrantOf(grants: map<Name, nat>, name: Name): Option<nat> {
    if name in grants then Some(grants[name]) else None
  }

  ghost predicate Enabled(s: State, step: Step) {
    match step
    case AllocReads(order, _) => s.holder.None? && Lists(order, s.table)
    case AllocWrites => s.holder.Some?
    case ReleaseReads(t, name) => t !in s.releases && name in s.table
    case ReleaseWrites(t) => t in s.releases
    case CleanAsks(_) => s.cleaner.Resting?
    case CleanSnapshots => s.cleaner.Knows?
    case CleanReleases(t, key) =>
      && t !in s.releases && s.cleaner.Sweeps? && key in s.cleaner.todo && key in s.cleaner.snapshot
      && Dangling(s.cleaner.snapshot[key], s.cleaner.ids) && s.cleaner.snapshot[key].name in s.table
    case CleanEnds => !s.cleaner.Resting?
  }

  ghost function Next(s: State, step: Step): State
    requires Enabled(s, step)
  {
    match step
    case AllocReads(order, d) =>
      var key := FirstMatch(s.table, order, d.arch);
      if key.None? then s else s.(holder := Some(Held(s.table[key.value], d)))
    case AllocWrites =>
      var m := Reserved(s.holder.value.machine, s.holder.value.demand);
      s.(table := s.table[m.name := m], holder := None, owner := s.owner[m.name := s.nextGrant], nextGrant := s.nextGrant + 1)
    case ReleaseReads(t, name) =>
      s.(releases := s.releases[t := Pending(name, s.table[name], GrantOf(s.owner, name))])
    case ReleaseWrites(t) =>
      var p := s.releases[t];
      s.(table := s.table[p.name := Released(p.machine)], releases := s.releases - {t}, owner := s.owner - {p.name})
    case CleanAsks(ids) => s.(cleaner := Knows(ids))
    case CleanSnapshots => s.(cleaner := Sweeps(s.cleaner.ids, s.table, s.owner, s.table.Keys))
    case CleanReleases(t, key) =>
      var name := s.cleaner.snapshot[key].name;
      s.(releases := s.releases[t := Pending(name, s.table[name], GrantOf(s.cleaner.grants, name))],
         cleaner := s.cleaner.(todo := s.cleaner.todo - {key}))
    case CleanEnds => s.(cleaner := Resting)
  }

  /** The two steps of an allocation with nothing in between are `allocate`. */
  lemma UninterruptedAllocate(s: State, order: seq<Name>, d: Demand)
    requires s.holder.None? && Lists(order, s.table)
    ensures var s1 := Next(s, AllocReads(order, d));
      (if s1.holder.None? then s1 else Next(s1, AllocWrites)).table == Allocate(s.table, order, d).0
  {
  }

  /** The two steps of a release with nothing in between are `release`. */
  lemma UninterruptedRelease(s: State, t: nat, name: Name)
    requires t !in s.releases && name in s.table
    ensures Next(Next(s, ReleaseReads(t, name)), ReleaseWrites(t)).table == Release(s.table, name)
  {
  }

  ghost predicate Runs(s: State, steps: seq<Step>)
    decreases |steps|
  {
    steps == [] || (Enabled(s, steps[0]) && Runs(Next(s, steps[0]), steps[1..]))
  }

  ghost function Final(s: State, steps: seq<Step>): State
    requires Runs(s, steps)
    decreases |steps|
  {
    if steps == [] then s else Final(Next(s, steps[0]), steps[1..])
  }

  // ----- the manager's own calls are runs

  lemma {:induction false} Append(s: State, a: seq<Step>, b: seq<Step>)
    requires Runs(s, a) && Runs(Final(s, a), b)
    ensures Runs(s, a + b) && Final(s, a + b) == Final(Final(s, a), b)
    decreases |a|
  {
    if a == [] {
      assert a + b == b;
    } else {
      Append(Next(s, a[0]), a[1..], b);
      assert (a + b)[1..] == a[1..] + b;
    }
  }

  lemma OneStep(s: State, step: Step)
    requires Enabled(s, step)
    ensures Runs(s, [step]) && Final(s, [step]) == Next(s, step)
  {
    assert [step][1..] == [];
  }

  datatype Call = Ask(order: seq<Name>, d: Demand) | Free(name: Name)

  /** The table after one call with nothing in between. */
  function Called(table: Table, call: Call): Table
    requires call.Ask? ==> forall n <- call.order :: n in table
  {
    match call
    case Ask(order, d) => Allocate(table, order, d).0
    case Free(name) => Release(table, name)
  }

  /** Each allocation is told all the machines there are. */
  ghost predicate Callable(table: Table, calls: seq<Call>)
    decreases |calls|
  {
    calls == [] || ((calls[0].Ask? ==> Lists(calls[0].order, table)) && Callable(Called(table, calls[0]), calls[1..]))
  }

  ghost function AllCalled(table: Table, calls: seq<Call>): Table
    requires Callable(table, calls)
    decreases |calls|
  {
    if calls == [] then table else AllCalled(Called(table, calls[0]), calls[1..])
  }

  ghost predicate AtRest(s: State) {
    s.holder.None? && s.releases == map[]
  }

  lemma CallIsRun(s: State, call: Call) returns (steps: seq<Step>)
    requires AtRest(s) && (call.Ask? ==> Lists(call.order, s.table))
    ensures Runs(s, steps) && AtRest(Final(s, steps)) && Final(s, steps).table == Called(s.table, call)
  {
    match call
    case Free(name) =>
      if name in s.table {
        var s1 := Next(s, ReleaseReads(0, name));
        UninterruptedRelease(s, 0, name);
        OneStep(s, ReleaseReads(0, name));
        OneStep(s1, ReleaseWrites(0));
        Append(s, [ReleaseReads(0, name)], [ReleaseWrites(0)]);
        steps := [ReleaseReads(0, name)] + [ReleaseWrites(0)];
        assert Next(s1, ReleaseWrites(0)).releases == map[];
      } else {
        steps := [];
      }
    case Ask(order, d) =>
      var s1 := Next(s, AllocReads(order, d));
      UninterruptedAllocate(s, order, d);
      OneStep(s, AllocReads(order, d));
      steps := [AllocReads(order, d)];
      if s1.holder.Some? {
        OneStep(s1, AllocWrites);
        Append(s, steps, [AllocWrites]);
        steps := steps + [AllocWrites];
      }
  }

  /** Any sequence of uninterrupted allocations and releases is a run. */
  lemma {:induction false} CallsAreRuns(s: State, calls: seq<Call>) returns (steps: seq<Step>)
    requires AtRest(s) && Callable(s.table, calls)
    ensures Runs(s, steps) && AtRest(Final(s, steps)) && Final(s, steps).table == AllCalled(s.table, calls)
    decreases |calls|
  {
    if calls == [] {
      steps := [];
    } else {
      var first := CallIsRun(s, calls[0]);
      var rest := CallsAreRuns(Final(s, first), calls[1..]);
      Append(s, first, rest);
      steps := first + rest;
    }
  }

  /** The allocation writes over a machine that is in use. */
  ghost predicate Overwrites(s: State, step: Step) {
    step.AllocWrites? && s.holder.Some? && s.holder.value.machine.name in s.table
    && s.table[s.holder.value.machine.name].status == InUse
  }

  ghost predicate NeverOverwrites(s: State, steps: seq<Step>)
    requires Runs(s, steps)
    decreases |steps|
  {
    steps == [] || (!Overwrites(s, steps[0]) && NeverOverwrites(Next(s, steps[0]), steps[1..]))
  }

  // ----- allocations never collide

  ghost predicate Inv(s: State) {
    && WellKeyed(s.table)
    && (s.holder.Some? ==> s.holder.value.machine.name in s.table && s.table[s.holder.value.machine.name].status == Available)
    && (forall t <- s.releases :: s.releases[t].name in s.table && s.releases[t].machine.name == s.releases[t].name)
  }

  lemma InvKept(s: State, step: Step)
    requires Inv(s) && Enabled(s, step)
    ensures Inv(Next(s, step)) && !Overwrites(s, step)
  {
  }

  lemma {:induction false} NeverOverwritten(s: State, steps: seq<Step>)
    requires Inv(s) && Runs(s, steps)
    ensures NeverOverwrites(s, steps)
    decreases |steps|
  {
    if steps != [] {
      InvKept(s, steps[0]);
      NeverOverwritten(Next(s, steps[0]), steps[1..]);
    }
  }

  ghost function Start(table: Table): State {
    State(table, None, map[], map[], 0, Resting)
  }

  ghost predicate Exclusive(table: Table, steps: seq<Step>) {
    Runs(Start(table), steps) ==> NeverOverwrites(Start(table), steps)
  }

  /** No interleaving ever grants a machine that is in use if and only if every machine carries the name it is stored under. */
  lemma ExclusiveExactly(table: Table)
    ensures WellKeyed(table) <==> forall steps :: Exclusive(table, steps)
  {
    if WellKeyed(table) {
      forall steps ensures Exclusive(table, steps) {
        if Runs(Start(table), steps) {
          NeverOverwritten(Start(table), steps);
        }
      }
    } else {
      var k :| k in table && table[k].name != k;
      var steps := FreeThenGrantTwice(Start(table), k);
      assert !Exclusive(table, steps);
    }
  }

  lemma Then(s: State, step: Step, rest: seq<Step>)
    requires Enabled(s, step) && Runs(Next(s, step), rest)
    ensures Runs(s, [step] + rest)
    ensures NeverOverwrites(s, [step] + rest) <==> !Overwrites(s, step) && NeverOverwrites(Next(s, step), rest)
    ensures AllLast(s, [step] + rest) <==> Lasts(s, step) && AllLast(Next(s, step), rest)
    ensures AllDisciplined(s, [step] + rest) <==> Disciplined(s, step) && AllDisciplined(Next(s, step), rest)
  {
    assert ([step] + rest)[1..] == rest;
  }

  lemma {:induction false} SomeOrder(names: set<Name>) returns (order: seq<Name>)
    ensures forall n :: n in order <==> n in names
  {
    if names == {} {
      order := [];
    } else {
      var n :| n in names;
      order := SomeOrder(names - {n});
      order := [n] + order;
    }
  }

  /** Some listing of the table in which `k` comes first. */
  lemma OrderWithFirst(table: Table, k: Name) returns (order: seq<Name>)
    requires k in table
    ensures Lists(order, table) && order != [] && order[0] == k
  {
    order := SomeOrder(table.Keys);
    order := [k] + order;
  }

  /** Reading and writing one allocation of the available machine under `k`. */
  lemma GrantOne(s: State, k: Name) returns (order: seq<Name>, d: Demand)
    requires s.holder.None? && k in s.table && s.table[k].status == Available
    ensures d == Demand(s.table[k].arch, None, None)
    ensures Enabled(s, AllocReads(order, d)) && Next(s, AllocReads(order, d)) == s.(holder := Some(Held(s.table[k], d)))
  {
    order := OrderWithFirst(s.table, k);
    d := Demand(s.table[k].arch, None, None);
  }

  lemma GrantTwice(s: State, k: Name) returns (steps: seq<Step>)
    requires s.holder.None? && k in s.table && s.table[k].name != k && s.table[k].status == Available
    ensures Runs(s, steps) && !NeverOverwrites(s, steps)
  {
    var o1, d1 := GrantOne(s, k);
    var s1 := Next(s, AllocReads(o1, d1));
    var s2 := Next(s1, AllocWrites);
    assert s2.table[k] == s.table[k];
    var o2, d2 := GrantOne(s2, k);
    var s3 := Next(s2, AllocReads(o2, d2));
    assert Overwrites(s3, AllocWrites);
    Then(s3, AllocWrites, []);
    Then(s2, AllocReads(o2, d2), [AllocWrites] + []);
    Then(s1, AllocWrites, [AllocReads(o2, d2)] + ([AllocWrites] + []));
    Then(s, AllocReads(o1, d1), [AllocWrites] + ([AllocReads(o2, d2)] + ([AllocWrites] + [])));
    steps := [AllocReads(o1, d1)] + ([AllocWrites] + ([AllocReads(o2, d2)] + ([AllocWrites] + [])));
  }

  lemma FreeThenGrantTwice(s: State, k: Name) returns (steps: seq<Step>)
    requires s.holder.None? && s.releases == map[] && k in s.table && s.table[k].name != k
    ensures Runs(s, steps) && !NeverOverwrites(s, steps)
  {
    var s1 := Next(s, ReleaseReads(0, k));
    var s2 := Next(s1, ReleaseWrites(0));
    steps := GrantTwice(s2, k);
    Then(s1, ReleaseWrites(0), steps);
    Then(s, ReleaseReads(0, k), [ReleaseWrites(0)] + steps);
    steps := [ReleaseReads(0, k)] + ([ReleaseWrites(0)] + steps);
  }

  // ----- a grant lasts until its own release

  /** The machine is in use, under the grant that the release is meant to end, and no other release of it is under way. */
  ghost predicate MayRelease(s: State, name: Name, grant: Option<nat>) {
    && name in s.table && s.table[name].status == InUse && grant.Some? && grant == GrantOf(s.owner, name)
    && forall t <- s.releases :: s.releases[t].name != name
  }

  /** Every release starts like that; one by the reclaiming pass is meant for the grant that the pass saw. */
  ghost predicate Disciplined(s: State, step: Step)
    requires Enabled(s, step)
  {
    match step
    case ReleaseReads(_, name) => MayRelease(s, name, GrantOf(s.owner, name))
    case CleanReleases(_, key) => MayRelease(s, s.cleaner.snapshot[key].name, GrantOf(s.cleaner.grants, s.cleaner.snapshot[key].name))
    case _ => true
  }

  ghost predicate AllDisciplined(s: State, steps: seq<Step>)
    requires Runs(s, steps)
    decreases |steps|
  {
    steps == [] || (Disciplined(s, steps[0]) && AllDisciplined(Next(s, steps[0]), steps[1..]))
  }

  ghost predicate OwnRelease(s: State, step: Step, n: Name)
    requires n in s.owner
  {
    step.ReleaseWrites? && step.t in s.releases && s.releases[step.t].name == n && s.releases[step.t].grant == Some(s.owner[n])
  }

  /** Every grant and its machine stay as they are, except for one that its own release ends. */
  ghost predicate Lasts(s: State, step: Step)
    requires Enabled(s, step)
  {
    var next := Next(s, step);
    forall n <- s.owner ::
      || (n in next.owner && next.owner[n] == s.owner[n] && n in s.table && n in next.table && next.table[n] == s.table[n])
      || OwnRelease(s, step, n)
  }

  ghost predicate AllLast(s: State, steps: seq<Step>)
    requires Runs(s, steps)
    decreases |steps|
  {
    steps == [] || (Lasts(s, steps[0]) && AllLast(Next(s, steps[0]), steps[1..]))
  }

  ghost predicate Orderly(s: State) {
    Inv(s) && Owned(s) && Numbered(s)
  }

  /** New grants get new numbers. */
  ghost predicate Numbered(s: State) {
    && (forall n <- s.owner :: s.owner[n] < s.nextGrant)
    && (s.cleaner.Sweeps? ==> forall n <- s.cleaner.grants :: s.cleaner.grants[n] < s.nextGrant)
  }

  lemma NumberedKept(s: State, step: Step)
    requires Numbered(s) && Enabled(s, step)
    ensures Numbered(Next(s, step))
  {
  }

  lemma DisciplinedLasts(s: State, step: Step)
    requires Orderly(s) && Enabled(s, step) && Disciplined(s, step)
    ensures Lasts(s, step)
  {
  }

  /** Exactly the machines in use are granted, and each release under way is the only one of its machine and meant for its grant. */
  ghost predicate Owned(s: State) {
    && (forall n :: n in s.owner <==> n in s.table && s.table[n].status == InUse)
    && (forall t <- s.releases :: s.releases[t].name in s.owner && s.releases[t].grant == Some(s.owner[s.releases[t].name]))
    && (forall t, u :: t in s.releases && u in s.releases && s.releases[t].name == s.releases[u].name ==> t == u)
  }

  lemma OwnedKept(s: State, step: Step)
    requires Inv(s) && Owned(s) && Enabled(s, step) && Disciplined(s, step)
    ensures Owned(Next(s, step))
  {
  }

  lemma OrderlyKept(s: State, step: Step)
    requires Orderly(s) && Enabled(s, step) && Disciplined(s, step)
    ensures Orderly(Next(s, step)) && Lasts(s, step)
  {
    InvKept(s, step);
    OwnedKept(s, step);
    NumberedKept(s, step);
    DisciplinedLasts(s, step);
  }

  /** If releases of one machine never overlap and each starts while it is in use, a grant lasts until its own release. */
  lemma {:induction false} GrantsLast(s: State, steps: seq<Step>)
    requires Orderly(s) && Runs(s, steps) && AllDisciplined(s, steps)
    ensures AllLast(s, steps)
    decreases |steps|
  {
    if steps != [] {
      OrderlyKept(s, steps[0]);
      GrantsLast(Next(s, steps[0]), steps[1..]);
    }
  }

  ghost predicate Breaks(s: State, steps: seq<Step>) {
    Runs(s, steps) && AllDisciplined(s, steps) && !AllLast(s, steps)
  }

  lemma BreaksAfter(s: State, step: Step, rest: seq<Step>)
    requires Enabled(s, step) && Disciplined(s, step) && Breaks(Next(s, step), rest)
    ensures Breaks(s, [step] + rest)
  {
    Then(s, step, rest);
  }

  /** A release whose machine is now under a grant that is not the release's own ends it at once. */
  lemma ForeignGrantEnds(s: State, t: nat) returns (steps: seq<Step>)
    requires t in s.releases && s.releases[t].name in s.owner && s.releases[t].grant != Some(s.owner[s.releases[t].name])
    ensures Breaks(s, steps)
  {
    var n := s.releases[t].name;
    assert !OwnRelease(s, ReleaseWrites(t), n);
    assert n !in Next(s, ReleaseWrites(t)).owner;
    assert !Lasts(s, ReleaseWrites(t));
    Then(s, ReleaseWrites(t), []);
    steps := [ReleaseWrites(t)] + [];
  }

  /** A release of an idle machine that is under way ends whatever grant comes next. */
  lemma StaleReleaseEndsGrant(s: State, t: nat) returns (steps: seq<Step>)
    requires Inv(s) && t in s.releases && s.table[s.releases[t].name].status == Available
    requires s.releases[t].grant.None? || s.releases[t].grant.value < s.nextGrant
    ensures Breaks(s, steps)
    decreases s.holder.Some?
  {
    var n := s.releases[t].name;
    if s.holder.None? {
      var order, d := GrantOne(s, n);
      var s1 := Next(s, AllocReads(order, d));
      steps := ForeignGrantEnds(Next(s1, AllocWrites), t);
      BreaksAfter(s1, AllocWrites, steps);
      BreaksAfter(s, AllocReads(order, d), [AllocWrites] + steps);
      steps := [AllocReads(order, d)] + ([AllocWrites] + steps);
    } else {
      var s1 := Next(s, AllocWrites);
      InvKept(s, AllocWrites);
      if s.holder.value.machine.name == n {
        steps := ForeignGrantEnds(s1, t);
      } else {
        steps := StaleReleaseEndsGrant(s1, t);
      }
      BreaksAfter(s, AllocWrites, steps);
      steps := [AllocWrites] + steps;
    }
  }

  /** The conditions are needed: after any release that breaks one, some disciplined continuation ends a grant that is not its own. */
  lemma DisciplineIsNeeded(s: State, step: Step) returns (steps: seq<Step>)
    requires Orderly(s) && Enabled(s, step) && !Disciplined(s, step)
    ensures Breaks(Next(s, step), steps)
  {
    var s1 := Next(s, step);
    InvKept(s, step);
    var t := step.t;
    var p := s1.releases[t];
    if s.table[p.name].status == Available {
      steps := StaleReleaseEndsGrant(s1, t);
    } else if p.grant != Some(s.owner[p.name]) {
      steps := ForeignGrantEnds(s1, t);
    } else {
      var u :| u in s.releases && s.releases[u].name == p.name;
      InvKept(s1, ReleaseWrites(u));
      var s2 := Next(s1, ReleaseWrites(u));
      steps := StaleReleaseEndsGrant(s2, t);
      BreaksAfter(s1, ReleaseWrites(u), steps);
      steps := [ReleaseWrites(u)] + steps;
    }
  }

  // ----- a reclaiming pass with nothing in between is the loop

  /** The machines listed in `order` are still to be gone over. */
  ghost predicate Ahead(s: State, order: seq<Name>) {
    && s.cleaner.Sweeps? && Distinct(order) && s.releases == map[]
    && (forall n <- order :: n in s.cleaner.todo && n in s.cleaner.snapshot)
    && (forall n <- s.cleaner.snapshot :: s.cleaner.snapshot[n].name in s.table)
  }

  /** After each dangling one among them was released. */
  ghost function Swept(s: State, order: seq<Name>): State
    requires Ahead(s, order)
    decreases |order|
  {
    if order == [] then s
    else if Dangling(s.cleaner.snapshot[order[0]], s.cleaner.ids)
    then Swept(Next(Next(s, CleanReleases(0, order[0])), ReleaseWrites(0)), order[1..])
    else Swept(s, order[1..])
  }

  lemma {:induction false} SweptIsClean(s: State, order: seq<Name>)
    requires Ahead(s, order)
    ensures Swept(s, order).table == Clean(s.table, s.cleaner.snapshot, order, s.cleaner.ids) && !Swept(s, order).cleaner.Resting?
    decreases |order|
  {
    if order != [] {
      if Dangling(s.cleaner.snapshot[order[0]], s.cleaner.ids) {
        SweptIsClean(Next(Next(s, CleanReleases(0, order[0])), ReleaseWrites(0)), order[1..]);
      } else {
        SweptIsClean(s, order[1..]);
      }
    }
  }

  /** A whole pass over a well-keyed table leaves the table as the loop does, and rests. */
  lemma UninterruptedClean(s: State, ids: set<Id>, order: seq<Name>)
    requires s.cleaner.Resting? && s.releases == map[] && WellKeyed(s.table) && Lists(order, s.table) && Distinct(order)
    ensures var s2 := Next(Next(s, CleanAsks(ids)), CleanSnapshots);
      && Ahead(s2, order)
      && var end := Swept(s2, order);
      && Enabled(end, CleanEnds)
      && Next(end, CleanEnds).table == Clean(s.table, s.table, order, ids)
      && Next(end, CleanEnds).cleaner.Resting?
  {
    SweptIsClean(Next(Next(s, CleanAsks(ids)), CleanSnapshots), order);
  }

  // ----- the reclaiming pass asks first and looks later

  lemma Follows(s: State, step: Step, rest: seq<Step>)
    requires Enabled(s, step) && Disciplined(s, step) && Runs(Next(s, step), rest) && AllDisciplined(Next(s, step), rest)
    ensures Runs(s, [step] + rest) && AllDisciplined(s, [step] + rest)
    ensures Final(s, [step] + rest) == Final(Next(s, step), rest)
  {
    assert ([step] + rest)[1..] == rest;
  }

  /** The pass, once it knows the active allocations `ids`, frees the machine under `k` that now dangles by them. */
  lemma SweepFrees(s: State, k: Name, ids: set<Id>) returns (steps: seq<Step>)
    requires Orderly(s) && s.cleaner == Knows(ids) && s.releases == map[]
    requires k in s.table && Dangling(s.table[k], ids)
    ensures Runs(s, steps) && AllDisciplined(s, steps) && k in Final(s, steps).table && Final(s, steps).table[k].status == Available
  {
    var s1 := Next(s, CleanSnapshots);
    var s2 := Next(s1, CleanReleases(0, k));
    assert s2.releases[0].name == k;
    Follows(s2, ReleaseWrites(0), []);
    Follows(s1, CleanReleases(0, k), [ReleaseWrites(0)] + []);
    Follows(s, CleanSnapshots, [CleanReleases(0, k)] + ([ReleaseWrites(0)] + []));
    steps := [CleanSnapshots] + ([CleanReleases(0, k)] + ([ReleaseWrites(0)] + []));
  }

  /** The pass has asked, and then the machine under `k` was granted to allocation `a`. */
  ghost predicate GrantedAfterAsking(s: State, k: Name, a: Id, ids: set<Id>, order: seq<Name>, granted: State) {
    var d := Demand(if k in s.table then s.table[k].arch else X86_64, Some(a), None);
    && Enabled(s, CleanAsks(ids))
    && Enabled(Next(s, CleanAsks(ids)), AllocReads(order, d))
    && Enabled(Next(Next(s, CleanAsks(ids)), AllocReads(order, d)), AllocWrites)
    && granted == Next(Next(Next(s, CleanAsks(ids)), AllocReads(order, d)), AllocWrites)
    && k in granted.table && granted.table[k].status == InUse && granted.table[k].allocation == Some(a)
  }

  /** Then the pass frees it again, though no release breaks the discipline. */
  lemma FreshGrantIsCleaned(s: State, k: Name, a: Id, ids: set<Id>) returns (order: seq<Name>, granted: State, steps: seq<Step>)
    requires Orderly(s) && s.holder.None? && s.releases == map[] && s.cleaner.Resting?
    requires k in s.table && s.table[k].status == Available && a !in ids
    ensures GrantedAfterAsking(s, k, a, ids, order, granted)
    ensures Runs(granted, steps) && AllDisciplined(granted, steps)
    ensures k in Final(granted, steps).table && Final(granted, steps).table[k].status == Available
  {
    var s1 := Next(s, CleanAsks(ids));
    OrderlyKept(s, CleanAsks(ids));
    order := OrderWithFirst(s1.table, k);
    var d := Demand(s1.table[k].arch, Some(a), None);
    var s2 := Next(s1, AllocReads(order, d));
    OrderlyKept(s1, AllocReads(order, d));
    assert s2.holder == Some(Held(s1.table[k], d));
    granted := Next(s2, AllocWrites);
    OrderlyKept(s2, AllocWrites);
    steps := SweepFrees(granted, k, ids);
  }
}
