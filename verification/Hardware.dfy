/**
The hardvisor's machine table and the operations on it, as functions: registration, the locked allocation,
the unlocked release and the request for several machines. Machine names are only ever compared.
*/
module Hardware {
  import opened PyLists

  type Name = nat
  type Id = nat
  type Arch = string

  datatype Use = Available | InUse

  datatype Machine = Machine(name: Name, arch: Arch, status: Use, allocation: Option<Id>, requestor: Option<nat>)

  type Table = map<Name, Machine>

  datatype Demand = Demand(arch: Arch, allocation: Option<Id>, requestor: Option<nat>)

  const X86_64: Arch := "x86_64"

  /** `name` is also stored inside the machine, and the allocation writes under that one. */
  ghost predicate WellKeyed(table: Table) {
    forall k <- table :: table[k].name == k
  }

  /** A machine that is not in use belongs to no allocation. */
  ghost predicate Tidy(table: Table) {
    forall k <- table :: table[k].status == Available ==> table[k].allocation == None
  }

  ghost predicate Lists(order: seq<Name>, table: Table) {
    forall n :: n in order <==> n in table
  }

  // ----- registration

  /** What the configuration says of a machine. */
  datatype Details = Details(name: Option<Name>, arch: Option<Arch>)

  function Registered(key: Name, d: Details): Machine {
    Machine(if d.name.Some? then d.name.value else key, if d.arch.Some? then d.arch.value else X86_64, Available, None, None)
  }

  /** `update_machines`: a machine that is already known keeps its entry. */
  function Register(table: Table, config: map<Name, Details>): Table {
    map k | k in table.Keys + config.Keys :: if k in table then table[k] else Registered(k, config[k])
  }

  /** A restart forgets no machine and no allocation, and keeps the table well keyed exactly if new machines have no other name. */
  lemma RegisterKeeps(table: Table, config: map<Name, Details>)
    ensures table.Keys <= Register(table, config).Keys && forall k <- table :: Register(table, config)[k] == table[k]
    ensures Tidy(table) ==> Tidy(Register(table, config))
    ensures WellKeyed(Register(table, config)) <==>
            WellKeyed(table) && forall k <- config :: k in table || config[k].name == None || config[k].name == Some(k)
  {
    var after := Register(table, config);
    if WellKeyed(after) {
      forall k <- table ensures table[k].name == k { assert after[k] == table[k]; }
      forall k <- config | k !in table ensures config[k].name == None || config[k].name == Some(k) {
        assert after[k].name == k;
      }
    }
  }

  // ----- one machine

  predicate Fits(m: Machine, arch: Arch) {
    m.arch == arch && m.status == Available
  }

  /** The key of the first machine, in the order the hash lists them, that matches and is available. */
  function FirstMatch(table: Table, order: seq<Name>, arch: Arch): (r: Option<Name>)
    requires forall n <- order :: n in table
    ensures r.Some? ==> r.value in order && Fits(table[r.value], arch)
    ensures r.None? ==> forall n <- order :: !Fits(table[n], arch)
  {
    if order == [] then None
    else if Fits(table[order[0]], arch) then Some(order[0])
    else FirstMatch(table, order[1..], arch)
  }

  function Reserved(m: Machine, d: Demand): Machine {
    m.(status := InUse, allocation := d.allocation, requestor := d.requestor)
  }

  function Released(m: Machine): Machine {
    m.(status := Available, allocation := None)
  }

  /** `allocate` with nothing in between. */
  function Allocate(table: Table, order: seq<Name>, d: Demand): (Table, Option<Machine>)
    requires forall n <- order :: n in table
  {
    match FirstMatch(table, order, d.arch)
    case None => (table, None)
    case Some(k) =>
      var m := Reserved(table[k], d);
      (table[m.name := m], Some(m))
  }

  /** `release` with nothing in between; a machine that is not there, or not in use, is no error. */
  function Release(table: Table, name: Name): Table {
    if name in table then table[name := Released(table[name])] else table
  }

  // ----- several machines

  lemma StillListed(table: Table, next: Table, orders: seq<seq<Name>>)
    requires orders != [] && next.Keys == table.Keys && forall o <- orders :: Lists(o, table)
    ensures forall o <- orders[1..] :: Lists(o, next)
  {
    forall o <- orders[1..] ensures Lists(o, next) {
      assert o in orders;
      assert forall n :: n in table <==> n in table.Keys;
    }
  }

  /** One allocation after the other, as the lock lets them through; a demand that is not met does not stop the rest. */
  function Grants(table: Table, demands: seq<Demand>, orders: seq<seq<Name>>): (r: (Table, seq<Option<Machine>>))
    requires |orders| == |demands| && WellKeyed(table) && forall o <- orders :: Lists(o, table)
    ensures |r.1| == |demands| && WellKeyed(r.0) && r.0.Keys == table.Keys
  {
    if demands == [] then (table, [])
    else
      assert Lists(orders[0], table);
      var (next, got) := Allocate(table, orders[0], demands[0]);
      assert next.Keys == table.Keys;
      StillListed(table, next, orders);
      var (last, rest) := Grants(next, demands[1..], orders[1..]);
      (last, [got] + rest)
  }

  predicate AllGranted(grants: seq<Option<Machine>>) {
    forall g <- grants :: g.Some?
  }

  function ReleaseAll(table: Table, grants: seq<Option<Machine>>): Table {
    if grants == [] then table
    else ReleaseAll(if grants[0].Some? then Release(table, grants[0].value.name) else table, grants[1..])
  }

  /** `HardVisor.fulfill`: all the demands, or nothing. */
  function Fulfil(table: Table, demands: seq<Demand>, orders: seq<seq<Name>>): (Table, Option<seq<Option<Machine>>>)
    requires |orders| == |demands| && WellKeyed(table) && forall o <- orders :: Lists(o, table)
  {
    var (after, grants) := Grants(table, demands, orders);
    if AllGranted(grants) then (after, Some(grants)) else (ReleaseAll(after, grants), None)
  }

  // ----- matching is complete

  ghost function Free(table: Table, arch: Arch): set<Name> {
    set n | n in table && Fits(table[n], arch)
  }

  function Wanted(demands: seq<Demand>, arch: Arch): nat {
    if demands == [] then 0 else (if demands[0].arch == arch then 1 else 0) + Wanted(demands[1..], arch)
  }

  /** For every architecture there are as many available machines as demands. */
  ghost predicate Enough(table: Table, demands: seq<Demand>) {
    forall arch :: Wanted(demands, arch) <= |Free(table, arch)|
  }

  /** An allocation takes one available machine of the architecture, if there is one, and touches nothing else. */
  lemma AllocateExactly(table: Table, order: seq<Name>, d: Demand)
    requires WellKeyed(table) && Lists(order, table)
    ensures var (after, got) := Allocate(table, order, d);
      && (got.None? <==> Free(table, d.arch) == {})
      && (got.None? ==> after == table)
      && (got.Some? ==>
            && got.value.name in Free(table, d.arch)
            && got.value == Reserved(table[got.value.name], d)
            && after == table[got.value.name := got.value]
            && Free(after, d.arch) == Free(table, d.arch) - {got.value.name}
            && forall arch | arch != d.arch :: Free(after, arch) == Free(table, arch))
  {
    var key := FirstMatch(table, order, d.arch);
    if key.Some? {
      assert key.value in Free(table, d.arch);
    }
  }

  /** The whole request is met if and only if there is enough of every architecture, in whatever order machines are listed. */
  lemma {:induction false} GreedyIsComplete(table: Table, demands: seq<Demand>, orders: seq<seq<Name>>)
    requires |orders| == |demands| && WellKeyed(table) && forall o <- orders :: Lists(o, table)
    ensures AllGranted(Grants(table, demands, orders).1) <==> Enough(table, demands)
    decreases |demands|
  {
    if demands != [] {
      var d := demands[0];
      assert Lists(orders[0], table);
      AllocateExactly(table, orders[0], d);
      var (next, got) := Allocate(table, orders[0], d);
      StillListed(table, next, orders);
      var rest := Grants(next, demands[1..], orders[1..]).1;
      GreedyIsComplete(next, demands[1..], orders[1..]);
      GrantedSplits(got, rest);
      if got.Some? {
        OneLessWanted(table, next, demands, got.value.name);
      } else {
        assert Wanted(demands, d.arch) >= 1 && |Free(table, d.arch)| == 0;
      }
    }
  }

  lemma GrantedSplits(got: Option<Machine>, rest: seq<Option<Machine>>)
    ensures AllGranted([got] + rest) <==> got.Some? && AllGranted(rest)
  {
    if AllGranted([got] + rest) {
      assert ([got] + rest)[0] == got;
      assert forall g <- rest :: g in [got] + rest;
    }
  }

  lemma OneLessWanted(table: Table, next: Table, demands: seq<Demand>, n: Name)
    requires demands != [] && n in Free(table, demands[0].arch)
    requires Free(next, demands[0].arch) == Free(table, demands[0].arch) - {n}
    requires forall arch | arch != demands[0].arch :: Free(next, arch) == Free(table, arch)
    ensures Enough(table, demands) <==> Enough(next, demands[1..])
  {
    var a := demands[0].arch;
    assert |Free(next, a)| == |Free(table, a)| - 1;
    forall arch ensures Wanted(demands, arch) <= |Free(table, arch)| <==> Wanted(demands[1..], arch) <= |Free(next, arch)| {
      assert Wanted(demands, arch) == (if a == arch then 1 else 0) + Wanted(demands[1..], arch);
    }
  }

  // ----- what the request leaves

  ghost predicate IsGranted(grants: seq<Option<Machine>>, n: Name) {
    exists i :: 0 <= i < |grants| && grants[i].Some? && grants[i].value.name == n
  }

  lemma IsGrantedSplits(grants: seq<Option<Machine>>, n: Name)
    requires grants != []
    ensures IsGranted(grants, n) <==> (grants[0].Some? && grants[0].value.name == n) || IsGranted(grants[1..], n)
  {
    var rest := grants[1..];
    assert forall i :: 0 <= i < |rest| ==> rest[i] == grants[i + 1];
    if IsGranted(grants, n) && !(grants[0].Some? && grants[0].value.name == n) {
      var i :| 0 <= i < |grants| && grants[i].Some? && grants[i].value.name == n;
      assert rest[i - 1] == grants[i];
    }
  }

  /** Every granted machine was available, fits its demand and is marked for it; nothing else changed. */
  ghost predicate Marked(table: Table, after: Table, demands: seq<Demand>, grants: seq<Option<Machine>>)
    requires |grants| == |demands|
  {
    && after.Keys == table.Keys
    && AllHold(table, after, demands, grants) && NamesDiffer(grants)
    && (forall n <- table :: !IsGranted(grants, n) ==> after[n] == table[n])
  }

  ghost predicate AllHold(table: Table, after: Table, demands: seq<Demand>, grants: seq<Option<Machine>>)
    requires |grants| == |demands|
  {
    forall i :: 0 <= i < |grants| && grants[i].Some? ==> Granted(table, after, demands[i], grants[i].value)
  }

  ghost predicate NamesDiffer(grants: seq<Option<Machine>>) {
    forall i, j :: 0 <= i < j < |grants| && grants[i].Some? && grants[j].Some? ==> grants[i].value.name != grants[j].value.name
  }

  ghost predicate Granted(table: Table, after: Table, d: Demand, m: Machine) {
    && m.name in table && m.name in after
    && m.name in Free(table, d.arch) && m == Reserved(table[m.name], d) && after[m.name] == m
  }

  lemma AllHoldWith(table: Table, after: Table, d: Demand, g: Option<Machine>, demands: seq<Demand>, grants: seq<Option<Machine>>)
    requires |grants| == |demands| && AllHold(table, after, demands, grants) && (g.Some? ==> Granted(table, after, d, g.value))
    ensures AllHold(table, after, [d] + demands, [g] + grants)
  {
    var ds, gs := [d] + demands, [g] + grants;
    forall i | 0 <= i < |gs| && gs[i].Some? ensures Granted(table, after, ds[i], gs[i].value) {
      if i > 0 {
        assert gs[i] == grants[i - 1] && ds[i] == demands[i - 1];
      }
    }
  }

  lemma NamesDifferWith(g: Option<Machine>, grants: seq<Option<Machine>>)
    requires NamesDiffer(grants) && (g.Some? ==> !IsGranted(grants, g.value.name))
    ensures NamesDiffer([g] + grants)
  {
    var gs := [g] + grants;
    forall i, j | 0 <= i < j < |gs| && gs[i].Some? && gs[j].Some? ensures gs[i].value.name != gs[j].value.name {
      assert gs[j] == grants[j - 1] && (i > 0 ==> gs[i] == grants[i - 1]);
    }
  }

  lemma LaterGrantsHold(table: Table, d: Demand, m: Machine, after: Table, demands: seq<Demand>, grants: seq<Option<Machine>>)
    requires |grants| == |demands| && m.name in Free(table, d.arch) && m == Reserved(table[m.name], d)
    requires AllHold(table[m.name := m], after, demands, grants)
    ensures AllHold(table, after, demands, grants) && !IsGranted(grants, m.name)
  {
    var next := table[m.name := m];
    forall j | 0 <= j < |grants| && grants[j].Some? ensures grants[j].value.name != m.name && Granted(table, after, demands[j], grants[j].value) {
      assert Granted(next, after, demands[j], grants[j].value);
      assert !Fits(next[m.name], demands[j].arch);
    }
  }

  lemma MarkedGrows(table: Table, d: Demand, m: Machine, after: Table, demands: seq<Demand>, grants: seq<Option<Machine>>)
    requires |grants| == |demands| && m.name in Free(table, d.arch) && m == Reserved(table[m.name], d)
    requires Marked(table[m.name := m], after, demands, grants)
    ensures Marked(table, after, [d] + demands, [Some(m)] + grants)
  {
    LaterGrantsHold(table, d, m, after, demands, grants);
    AllHoldWith(table, after, d, Some(m), demands, grants);
    NamesDifferWith(Some(m), grants);
    var gs := [Some(m)] + grants;
    assert gs[1..] == grants;
    forall n <- table | !IsGranted(gs, n) ensures after[n] == table[n] {
      IsGrantedSplits(gs, n);
    }
  }

  lemma MarkedStays(table: Table, d: Demand, after: Table, demands: seq<Demand>, grants: seq<Option<Machine>>)
    requires |grants| == |demands| && Marked(table, after, demands, grants)
    ensures Marked(table, after, [d] + demands, [None] + grants)
  {
    AllHoldWith(table, after, d, None, demands, grants);
    NamesDifferWith(None, grants);
    var gs := [None] + grants;
    assert gs[1..] == grants;
    forall n <- table | !IsGranted(gs, n) ensures after[n] == table[n] {
      IsGrantedSplits(gs, n);
    }
  }

  lemma {:induction false} GrantsAreMarked(table: Table, demands: seq<Demand>, orders: seq<seq<Name>>)
    requires |orders| == |demands| && WellKeyed(table) && forall o <- orders :: Lists(o, table)
    ensures var (after, grants) := Grants(table, demands, orders); Marked(table, after, demands, grants)
    decreases |demands|
  {
    if demands != [] {
      assert Lists(orders[0], table);
      AllocateExactly(table, orders[0], demands[0]);
      var (next, got) := Allocate(table, orders[0], demands[0]);
      StillListed(table, next, orders);
      GrantsAreMarked(next, demands[1..], orders[1..]);
      var (after, rest) := Grants(next, demands[1..], orders[1..]);
      assert demands == [demands[0]] + demands[1..];
      if got.Some? {
        MarkedGrows(table, demands[0], got.value, after, demands[1..], rest);
      } else {
        MarkedStays(table, demands[0], after, demands[1..], rest);
      }
    }
  }

  /** Releasing is per machine, and once is as good as twice. */
  lemma {:induction false} ReleaseAllIsPointwise(table: Table, grants: seq<Option<Machine>>)
    ensures ReleaseAll(table, grants).Keys == table.Keys
    ensures forall n <- table :: ReleaseAll(table, grants)[n] == if IsGranted(grants, n) then Released(table[n]) else table[n]
    decreases |grants|
  {
    if grants != [] {
      var next := if grants[0].Some? then Release(table, grants[0].value.name) else table;
      ReleaseAllIsPointwise(next, grants[1..]);
      forall n <- table ensures ReleaseAll(table, grants)[n] == if IsGranted(grants, n) then Released(table[n]) else table[n] {
        IsGrantedSplits(grants, n);
      }
    }
  }

  /** Only the name of the last requestor may differ. */
  ghost predicate SameUse(before: Table, after: Table) {
    before.Keys == after.Keys && forall n <- before :: after[n].(requestor := before[n].requestor) == before[n]
  }

  /** A request is met, each demand by a machine of its own, exactly when there is enough; otherwise it leaves every machine as it was. */
  lemma AllOrNothing(table: Table, demands: seq<Demand>, orders: seq<seq<Name>>)
    requires |orders| == |demands| && WellKeyed(table) && Tidy(table) && forall o <- orders :: Lists(o, table)
    ensures var (after, answer) := Fulfil(table, demands, orders);
      && (answer.Some? <==> Enough(table, demands))
      && (answer.Some? ==> |answer.value| == |demands| && AllGranted(answer.value) && Marked(table, after, demands, answer.value))
      && (answer.None? ==> SameUse(table, after))
  {
    GreedyIsComplete(table, demands, orders);
    GrantsAreMarked(table, demands, orders);
    var (mid, grants) := Grants(table, demands, orders);
    if !AllGranted(grants) {
      ReleaseAllIsPointwise(mid, grants);
      var after := ReleaseAll(mid, grants);
      forall n <- table ensures after[n].(requestor := table[n].requestor) == table[n] {
        if IsGranted(grants, n) {
          var i :| 0 <= i < |grants| && grants[i].Some? && grants[i].value.name == n;
          assert Granted(table, mid, demands[i], grants[i].value);
        } else {
          assert mid[n] == table[n];
        }
      }
    }
  }

  // ----- reclaiming

  /** A machine in use whose allocation the provisioner does not list. */
  predicate Dangling(m: Machine, active: set<Id>) {
    m.status == InUse && !(m.allocation.Some? && m.allocation.value in active)
  }

  /** The reclaiming loop over a snapshot. */
  function Clean(table: Table, snapshot: Table, order: seq<Name>, active: set<Id>): Table
    requires forall n <- order :: n in snapshot
  {
    if order == [] then table
    else
      var m := snapshot[order[0]];
      Clean(if Dangling(m, active) then Release(table, m.name) else table, snapshot, order[1..], active)
  }

  /** It frees exactly the dangling machines. */
  lemma {:induction false} CleanIsPointwise(table: Table, snapshot: Table, order: seq<Name>, active: set<Id>)
    requires WellKeyed(snapshot) && (forall n <- order :: n in snapshot) && table.Keys == snapshot.Keys
    requires forall n <- order :: table[n] == snapshot[n] || table[n] == Released(snapshot[n])
    ensures Clean(table, snapshot, order, active).Keys == table.Keys
    ensures forall n <- table :: Clean(table, snapshot, order, active)[n] ==
              if n in order && Dangling(snapshot[n], active) then Released(table[n]) else table[n]
    decreases |order|
  {
    if order != [] {
      var m := snapshot[order[0]];
      var next := if Dangling(m, active) then Release(table, m.name) else table;
      assert order == [order[0]] + order[1..];
      assert m.name == order[0];
      CleanIsPointwise(next, snapshot, order[1..], active);
    }
  }

  /** The machine is in use for an allocation in the set. */
  predicate UsedBy(m: Machine, active: set<Id>) {
    m.status == InUse && m.allocation.Some? && m.allocation.value in active
  }

  /**
  The active allocations are asked for before the machines are read. The pass spares every machine of an
  allocation that is `active` by then if and only if each of those was already among the ones `asked` for.
  */
  lemma ActiveAreSparedExactly(table: Table, order: seq<Name>, asked: set<Id>, active: set<Id>)
    requires WellKeyed(table) && Lists(order, table)
    ensures (forall k <- table :: UsedBy(table[k], active) ==> k in Clean(table, table, order, asked) && Clean(table, table, order, asked)[k] == table[k])
            <==> (forall k <- table :: UsedBy(table[k], active) ==> table[k].allocation.value in asked)
  {
    CleanIsPointwise(table, table, order, asked);
    forall k <- table | UsedBy(table[k], active)
      ensures Clean(table, table, order, asked)[k] == table[k] <==> table[k].allocation.value in asked
    {
      assert Released(table[k]) != table[k];
    }
  }

  // ----- the entries, written out

  /** A machine that is new to the table is available and belongs to nobody; its name and architecture have defaults. */
  lemma RegisteredAs(table: Table, config: map<Name, Details>, k: Name)
    requires k in config && k !in table
    ensures k in Register(table, config)
    ensures var (m, d) := (Register(table, config)[k], config[k]);
      && m.status == Available && m.allocation == None && m.requestor == None
      && (d.name == None ==> m.name == k) && (d.name.Some? ==> m.name == d.name.value)
      && (d.arch == None ==> m.arch == "x86_64") && (d.arch.Some? ==> m.arch == d.arch.value)
  {
  }

  /** The configured machines of an architecture. */
  ghost function Configured(config: map<Name, Details>, arch: Arch): set<Name> {
    set k | k in config && (config[k].arch == Some(arch) || (config[k].arch == None && arch == "x86_64"))
  }

  /** A registration makes exactly the new machines available, under their keys. */
  lemma RegisterFrees(table: Table, config: map<Name, Details>, arch: Arch)
    ensures Free(Register(table, config), arch) == Free(table, arch) + (Configured(config, arch) - table.Keys)
  {
    var after := Register(table, config);
    forall k ensures k in Free(after, arch) <==> k in Free(table, arch) + (Configured(config, arch) - table.Keys) {
      if k in config && k !in table {
        RegisteredAs(table, config, k);
      }
    }
  }

  /** After the first registration a request alone is met if and only if enough machines of every architecture are configured. */
  lemma FirstRequestExactly(config: map<Name, Details>, demands: seq<Demand>, orders: seq<seq<Name>>)
    requires forall k <- config :: config[k].name == None || config[k].name == Some(k)
    requires |orders| == |demands| && forall o <- orders :: Lists(o, Register(map[], config))
    ensures WellKeyed(Register(map[], config))
    ensures AllGranted(Grants(Register(map[], config), demands, orders).1)
            <==> forall arch :: Wanted(demands, arch) <= |Configured(config, arch)|
  {
    var table := Register(map[], config);
    RegisterKeeps(map[], config);
    GreedyIsComplete(table, demands, orders);
    forall arch ensures Free(table, arch) == Configured(config, arch) {
      RegisterFrees(map[], config, arch);
      assert Free(map[], arch) == {};
    }
  }

  lemma {:induction false} FirstMatchIsFirst(table: Table, order: seq<Name>, arch: Arch) returns (i: nat)
    requires (forall n <- order :: n in table) && FirstMatch(table, order, arch).Some?
    ensures i < |order| && order[i] == FirstMatch(table, order, arch).value
    ensures table[order[i]].arch == arch && table[order[i]].status == Available
    ensures forall j :: 0 <= j < i ==> !(table[order[j]].arch == arch && table[order[j]].status == Available)
  {
    if Fits(table[order[0]], arch) {
      i := 0;
    } else {
      i := FirstMatchIsFirst(table, order[1..], arch);
      i := i + 1;
    }
  }

  /** An allocation grants the first machine listed that is available and of the architecture, and marks it for its allocation. */
  lemma AllocatedAs(table: Table, order: seq<Name>, d: Demand) returns (i: nat)
    requires (forall n <- order :: n in table) && Allocate(table, order, d).1.Some?
    ensures i < |order| && table[order[i]].arch == d.arch && table[order[i]].status == Available
    ensures forall j :: 0 <= j < i ==> !(table[order[j]].arch == d.arch && table[order[j]].status == Available)
    ensures var (after, m) := (Allocate(table, order, d).0, Allocate(table, order, d).1.value);
      && m == Machine(table[order[i]].name, d.arch, InUse, d.allocation, d.requestor)
      && after == table[m.name := m]
  {
    i := FirstMatchIsFirst(table, order, d.arch);
  }

  /** A release makes the machine available for nobody, whatever it was, and keeps what else its entry says. */
  lemma ReleasedAs(table: Table, name: Name)
    ensures name !in table ==> Release(table, name) == table
    ensures name in table ==>
      var m := table[name];
      Release(table, name) == table[name := Machine(m.name, m.arch, Available, None, m.requestor)]
  {
  }

  /** The reclaiming pass frees a machine in use exactly if it has no allocation or one that is not active. */
  lemma CleanedAs(table: Table, order: seq<Name>, active: set<Id>, n: Name)
    requires WellKeyed(table) && Lists(order, table) && n in table
    ensures n in Clean(table, table, order, active)
    ensures var (m, after) := (table[n], Clean(table, table, order, active)[n]);
      && (m.status == InUse && m.allocation == None ==> after == Machine(n, m.arch, Available, None, m.requestor))
      && (m.status == InUse && m.allocation.Some? && m.allocation.value !in active ==> after == Machine(n, m.arch, Available, None, m.requestor))
      && (m.status == InUse && m.allocation.Some? && m.allocation.value in active ==> after == m)
      && (m.status == Available ==> after == m)
  {
    CleanIsPointwise(table, table, order, active);
  }
}
