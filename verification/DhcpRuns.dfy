/**
Lease requests, which take turns from their snapshot to their last update, interleaved with releases, which
wait for nobody. Every libvirt call may fail.
*/
module DhcpRuns {
  import opened PyLists
  import opened Dhcp

  /** The request under the lock: its address is chosen, and adding it has not been tried or has failed. */
  datatype Request = Request(mac: Mac, ip: Ip, addFailed: bool)

  datatype State = State(table: Table, holder: Option<Request>)

  datatype Step =
    | Reads(mac: Mac, ip: Option<Ip>)
    | Adds(up: bool)
    | Modifies(up: bool)
    | Releases(mac: Mac, up: bool)

  ghost predicate Enabled(s: State, step: Step) {
    match step
    case Reads(_, _) => s.holder.None?
    case Adds(_) => s.holder.Some? && !s.holder.value.addFailed
    case Modifies(_) => s.holder.Some? && s.holder.value.addFailed
    case Releases(_, _) => true
  }

  ghost function Next(r: Range, s: State, step: Step): State
    requires Enabled(s, step)
  {
    match step
    case Reads(mac, ip) =>
      var choice := Choose(s.table, r, ip);
      if choice.Granted? then s.(holder := Some(Request(mac, choice.ip, false))) else s
    case Adds(up) =>
      var q := s.holder.value;
      var after := AddLast(s.table, q.ip, q.mac, up);
      if after.Some? then State(after.value, None) else s.(holder := Some(q.(addFailed := true)))
    case Modifies(up) =>
      var q := s.holder.value;
      var after := Modify(s.table, q.ip, q.mac, up);
      State(if after.Some? then after.value else s.table, None)
    case Releases(mac, up) =>
      var after := Delete(s.table, mac, up);
      if after.Some? then s.(table := after.value) else s
  }

  /** The steps of one request with nothing in between are `_allocate_ip_sync`. */
  lemma UninterruptedRequest(r: Range, t: Table, mac: Mac, ip: Option<Ip>, up: Faults)
    ensures var s1 := Next(r, State(t, None), Reads(mac, ip));
      if s1.holder.None? then AllocateIp(t, r, mac, ip, up).0 == s1.table && !AllocateIp(t, r, mac, ip, up).1.Granted?
      else
        var s2 := Next(r, s1, Adds(up.add));
        var s3 := if s2.holder.None? then s2 else Next(r, s2, Modifies(up.change));
        s3 == State(AllocateIp(t, r, mac, ip, up).0, None)
  {
  }

  ghost predicate Runs(r: Range, s: State, steps: seq<Step>)
    decreases |steps|
  {
    steps == [] || (Enabled(s, steps[0]) && Runs(r, Next(r, s, steps[0]), steps[1..]))
  }

  ghost function Final(r: Range, s: State, steps: seq<Step>): State
    requires Runs(r, s, steps)
    decreases |steps|
  {
    if steps == [] then s else Final(r, Next(r, s, steps[0]), steps[1..])
  }

  // ----- the handlers' own calls are runs

  lemma {:induction false} Append(r: Range, s: State, a: seq<Step>, b: seq<Step>)
    requires Runs(r, s, a) && Runs(r, Final(r, s, a), b)
    ensures Runs(r, s, a + b) && Final(r, s, a + b) == Final(r, Final(r, s, a), b)
    decreases |a|
  {
    if a == [] {
      assert a + b == b;
    } else {
      Append(r, Next(r, s, a[0]), a[1..], b);
      assert (a + b)[1..] == a[1..] + b;
    }
  }

  lemma OneStep(r: Range, s: State, step: Step)
    requires Enabled(s, step)
    ensures Runs(r, s, [step]) && Final(r, s, [step]) == Next(r, s, step)
  {
    assert [step][1..] == [];
  }

  datatype Call = Ask(mac: Mac, ip: Option<Ip>, up: Faults) | Free(mac: Mac, works: bool)

  /** The table after one call with nothing in between. */
  function Called(r: Range, t: Table, call: Call): Table {
    match call
    case Ask(mac, ip, up) => AllocateIp(t, r, mac, ip, up).0
    case Free(mac, works) => var after := Delete(t, mac, works); if after.Some? then after.value else t
  }

  function AllCalled(r: Range, t: Table, calls: seq<Call>): Table
    decreases |calls|
  {
    if calls == [] then t else AllCalled(r, Called(r, t, calls[0]), calls[1..])
  }

  lemma CallIsRun(r: Range, t: Table, call: Call) returns (steps: seq<Step>)
    ensures Runs(r, State(t, None), steps) && Final(r, State(t, None), steps) == State(Called(r, t, call), None)
  {
    match call
    case Free(mac, works) =>
      steps := [Releases(mac, works)];
      OneStep(r, State(t, None), Releases(mac, works));
    case Ask(mac, ip, up) =>
      UninterruptedRequest(r, t, mac, ip, up);
      var s1 := Next(r, State(t, None), Reads(mac, ip));
      steps := [Reads(mac, ip)];
      OneStep(r, State(t, None), Reads(mac, ip));
      if s1.holder.Some? {
        var s2 := Next(r, s1, Adds(up.add));
        OneStep(r, s1, Adds(up.add));
        Append(r, State(t, None), steps, [Adds(up.add)]);
        steps := steps + [Adds(up.add)];
        if s2.holder.Some? {
          OneStep(r, s2, Modifies(up.change));
          Append(r, State(t, None), steps, [Modifies(up.change)]);
          steps := steps + [Modifies(up.change)];
        }
      }
  }

  /** Any sequence of uninterrupted requests and releases, reallocations included, is a run. */
  lemma {:induction false} CallsAreRuns(r: Range, t: Table, calls: seq<Call>) returns (steps: seq<Step>)
    ensures Runs(r, State(t, None), steps) && Final(r, State(t, None), steps) == State(AllCalled(r, t, calls), None)
    decreases |calls|
  {
    if calls == [] {
      steps := [];
    } else {
      var first := CallIsRun(r, t, calls[0]);
      var rest := CallsAreRuns(r, Called(r, t, calls[0]), calls[1..]);
      Append(r, State(t, None), first, rest);
      steps := first + rest;
    }
  }

  // ----- what every run keeps

  /** What the request under the lock is about to write is free, and still in the range. */
  ghost predicate HolderIsSound(r: Range, s: State) {
    s.holder.Some? ==> In(r, s.holder.value.ip) && s.holder.value.ip !in s.table.Values
  }

  /** Every reservation was there at the start or lies in the range. */
  ghost predicate InRangeOrOld(r: Range, start: Table, t: Table) {
    forall m <- t :: In(r, t[m]) || (m in start && start[m] == t[m])
  }

  ghost predicate Inv(r: Range, start: Table, s: State) {
    Injective(s.table) && HolderIsSound(r, s) && InRangeOrOld(r, start, s.table)
  }

  lemma PutKeeps(r: Range, start: Table, t: Table, mac: Mac, ip: Ip)
    requires Injective(t) && InRangeOrOld(r, start, t) && In(r, ip) && ip !in t.Values
    ensures Injective(t[mac := ip]) && InRangeOrOld(r, start, t[mac := ip])
  {
    forall m <- t ensures t[m] != ip { assert t[m] in t.Values; }
  }

  lemma DropKeeps(r: Range, start: Table, t: Table, mac: Mac)
    requires Injective(t) && InRangeOrOld(r, start, t)
    ensures Injective(t - {mac}) && InRangeOrOld(r, start, t - {mac})
    ensures (t - {mac}).Values <= t.Values
  {
  }

  lemma InvKept(r: Range, start: Table, s: State, step: Step)
    requires Inv(r, start, s) && Enabled(s, step)
    ensures Inv(r, start, Next(r, s, step))
  {
    match step
    case Reads(mac, ip) => if Choose(s.table, r, ip).Granted? { ChosenIsFree(s.table, r, ip); }
    case Adds(up) => PutKeeps(r, start, s.table, s.holder.value.mac, s.holder.value.ip);
    case Modifies(up) => PutKeeps(r, start, s.table, s.holder.value.mac, s.holder.value.ip);
    case Releases(mac, up) => DropKeeps(r, start, s.table, mac);
  }

  lemma {:induction false} InvHolds(r: Range, start: Table, s: State, steps: seq<Step>)
    requires Inv(r, start, s) && Runs(r, s, steps)
    ensures Inv(r, start, Final(r, s, steps))
    decreases |steps|
  {
    if steps != [] {
      InvKept(r, start, s, steps[0]);
      InvHolds(r, start, Next(r, s, steps[0]), steps[1..]);
    }
  }

  /**
  From a table in which no two MACs share an address, no run ever makes two share one or hands out an
  address beyond the range, and the free addresses and the reservations in the range always make up the range.
  */
  lemma ReservationsStayApart(r: Range, start: Table, steps: seq<Step>)
    requires r.lo <= r.hi && Injective(start) && Runs(r, State(start, None), steps)
    ensures var t := Final(r, State(start, None), steps).table;
      && Injective(t)
      && InRangeOrOld(r, start, t)
      && |FreeHosts(t, r)| + |Holders(t, r, t.Keys)| == r.hi - r.lo + 1
  {
    InvHolds(r, start, State(start, None), steps);
    RangeIsSharedOut(Final(r, State(start, None), steps).table, r);
  }

  /** So what holds of runs holds of every sequence of calls. */
  lemma CallsStayApart(r: Range, start: Table, calls: seq<Call>)
    requires r.lo <= r.hi && Injective(start)
    ensures var t := AllCalled(r, start, calls);
      && Injective(t)
      && InRangeOrOld(r, start, t)
      && |FreeHosts(t, r)| + |Holders(t, r, t.Keys)| == r.hi - r.lo + 1
  {
    var steps := CallsAreRuns(r, start, calls);
    ReservationsStayApart(r, start, steps);
  }
}
