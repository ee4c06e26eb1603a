/**
The reservation table of a libvirt network, from MAC to IP address, and what the code does to it. Addresses
are numbers, so that the DHCP range is an interval.
*/
module Dhcp {
  import opened PyLists

  type Mac = nat
  type Ip = int
  type Table = map<Mac, Ip>

  datatype Range = Range(lo: Ip, hi: Ip)

  predicate In(r: Range, ip: Ip) {
    r.lo <= ip <= r.hi
  }

  ghost predicate Injective(t: Table) {
    forall a, b :: a in t && b in t && t[a] == t[b] ==> a == b
  }

  // ----- libvirt's three updates; each may also fail by itself

  function AddLast(t: Table, ip: Ip, mac: Mac, up: bool): Option<Table> {
    if up && mac !in t && ip !in t.Values then Some(t[mac := ip]) else None
  }

  function Modify(t: Table, ip: Ip, mac: Mac, up: bool): Option<Table> {
    if up && mac in t then Some(t[mac := ip]) else None
  }

  function Delete(t: Table, mac: Mac, up: bool): Option<Table> {
    if up && mac in t then Some(t - {mac}) else None
  }

  /** Which of the three calls libvirt would serve. */
  datatype Faults = Faults(add: bool, change: bool, remove: bool)

  const ALL_UP := Faults(true, true, true)

  /** `add_dhcp_entry`: adding, and if that fails modifying. */
  function AddEntry(t: Table, ip: Ip, mac: Mac, up: Faults): Option<Table> {
    var added := AddLast(t, ip, mac, up.add);
    if added.Some? then added else Modify(t, ip, mac, up.change)
  }

  // ----- free addresses

  /** The addresses of the interval that are not reserved, in ascending order. */
  function Hosts(lo: Ip, hi: Ip, reserved: set<Ip>): seq<Ip>
    decreases hi - lo
  {
    if lo > hi then []
    else if lo in reserved then Hosts(lo + 1, hi, reserved)
    else [lo] + Hosts(lo + 1, hi, reserved)
  }

  predicate Ascends(s: seq<Ip>) {
    forall i, j :: 0 <= i < j < |s| ==> s[i] < s[j]
  }

  lemma {:induction false} HostsExactly(lo: Ip, hi: Ip, reserved: set<Ip>)
    ensures forall ip :: ip in Hosts(lo, hi, reserved) <==> lo <= ip <= hi && ip !in reserved
    ensures Ascends(Hosts(lo, hi, reserved))
    decreases hi - lo
  {
    if lo <= hi {
      var rest := Hosts(lo + 1, hi, reserved);
      HostsExactly(lo + 1, hi, reserved);
      forall j | 0 <= j < |rest| ensures lo < rest[j] {
        assert rest[j] in rest;
      }
    }
  }

  function FreeHosts(t: Table, r: Range): seq<Ip> {
    Hosts(r.lo, r.hi, t.Values)
  }

  datatype Lease = Granted(ip: Ip) | RangeEmpty | NotFree | LibvirtFailed

  /** What `_allocate_ip_sync` settles on from its snapshot: the requested address, or the last free one. */
  function Choose(t: Table, r: Range, ip: Option<Ip>): Lease {
    var hosts := FreeHosts(t, r);
    if hosts == [] then RangeEmpty
    else if ip.None? then Granted(hosts[|hosts| - 1])
    else if ip.value in hosts then Granted(ip.value)
    else NotFree
  }

  /** `_allocate_ip_sync` with nothing in between. */
  function AllocateIp(t: Table, r: Range, mac: Mac, ip: Option<Ip>, up: Faults): (Table, Lease) {
    match Choose(t, r, ip)
    case Granted(chosen) =>
      var after := AddEntry(t, chosen, mac, up);
      if after.Some? then (after.value, Granted(chosen)) else (t, LibvirtFailed)
    case refused => (t, refused)
  }

  /** `reallocate_ip`: a failing release is ignored. */
  function ReallocateIp(t: Table, r: Range, mac: Mac, ip: Option<Ip>, up: Faults): (Table, Lease) {
    var released := Delete(t, mac, up.remove);
    AllocateIp(if released.Some? then released.value else t, r, mac, ip, up)
  }

  // ----- what a request does

  lemma LastIsHighest(t: Table, r: Range, free: Ip)
    requires In(r, free) && free !in t.Values
    ensures FreeHosts(t, r) != [] && free <= FreeHosts(t, r)[|FreeHosts(t, r)| - 1]
  {
    var hosts := FreeHosts(t, r);
    HostsExactly(r.lo, r.hi, t.Values);
    assert free in hosts;
    var i :| 0 <= i < |hosts| && hosts[i] == free;
  }

  /** Without a preference the highest free address is taken, and there is a lease exactly if one is free. */
  lemma HighestIsChosen(t: Table, r: Range)
    ensures Choose(t, r, None).Granted? <==> exists free: Ip :: In(r, free) && free !in t.Values
    ensures Choose(t, r, None).Granted? ==>
      var chosen := Choose(t, r, None).ip;
      In(r, chosen) && chosen !in t.Values && forall free: Ip :: In(r, free) && free !in t.Values ==> free <= chosen
  {
    var hosts := FreeHosts(t, r);
    HostsExactly(r.lo, r.hi, t.Values);
    if hosts != [] {
      assert hosts[|hosts| - 1] in hosts;
    }
    forall free: Ip | In(r, free) && free !in t.Values ensures hosts != [] && free <= hosts[|hosts| - 1] {
      LastIsHighest(t, r, free);
    }
  }

  /** A preference is met exactly if it is in range and unreserved. */
  lemma PreferenceExactly(t: Table, r: Range, ip: Ip)
    ensures Choose(t, r, Some(ip)) == Granted(ip) <==> In(r, ip) && ip !in t.Values
    ensures Choose(t, r, Some(ip)).Granted? ==> Choose(t, r, Some(ip)).ip == ip
  {
    HostsExactly(r.lo, r.hi, t.Values);
    assert ip in FreeHosts(t, r) <==> In(r, ip) && ip !in t.Values;
  }

  lemma ChosenIsFree(t: Table, r: Range, ip: Option<Ip>)
    requires Choose(t, r, ip).Granted?
    ensures In(r, Choose(t, r, ip).ip) && Choose(t, r, ip).ip !in t.Values
  {
    var hosts := FreeHosts(t, r);
    HostsExactly(r.lo, r.hi, t.Values);
    assert Choose(t, r, ip).ip in hosts by {
      assert hosts[|hosts| - 1] in hosts;
    }
  }

  /** A request is refused as empty exactly if no address is free, and as not free exactly if one is but not the wanted one. */
  lemma RefusedExactly(t: Table, r: Range, ip: Option<Ip>)
    ensures Choose(t, r, ip) == RangeEmpty <==> forall free: Ip :: In(r, free) ==> free in t.Values
    ensures Choose(t, r, ip) == NotFree <==>
      (exists free: Ip :: In(r, free) && free !in t.Values) && ip.Some? && !(In(r, ip.value) && ip.value !in t.Values)
    ensures Choose(t, r, ip) != LibvirtFailed
  {
    var hosts := FreeHosts(t, r);
    HostsExactly(r.lo, r.hi, t.Values);
    if hosts != [] {
      assert hosts[0] in hosts;
    }
    forall free: Ip | In(r, free) && free !in t.Values ensures hosts != [] {
      assert free in hosts;
    }
  }

  /** One that is not refused fails exactly if neither adding, which takes a new MAC, nor modifying, which takes a known one, works. */
  lemma ServedExactly(t: Table, r: Range, mac: Mac, ip: Option<Ip>, up: Faults)
    requires Choose(t, r, ip).Granted?
    ensures AllocateIp(t, r, mac, ip, up).1 == (if mac in t then (if up.change then Choose(t, r, ip) else LibvirtFailed)
                                                else (if up.add then Choose(t, r, ip) else LibvirtFailed))
  {
    ChosenIsFree(t, r, ip);
  }

  /** A served request moves the MAC to a free address of the range and nothing else; any other changes nothing. */
  lemma AllocateIpExactly(t: Table, r: Range, mac: Mac, ip: Option<Ip>, up: Faults)
    ensures var (after, lease) := AllocateIp(t, r, mac, ip, up);
      && (lease.Granted? ==> In(r, lease.ip) && lease.ip !in t.Values && after == t[mac := lease.ip])
      && (!lease.Granted? ==> after == t)
      && (up == ALL_UP ==> lease == Choose(t, r, ip))
      && (Injective(t) ==> Injective(after))
  {
    if Choose(t, r, ip).Granted? {
      ChosenIsFree(t, r, ip);
    }
    var (after, lease) := AllocateIp(t, r, mac, ip, up);
    if lease.Granted? && Injective(t) {
      forall m <- t ensures t[m] != lease.ip { assert t[m] in t.Values; }
    }
  }

  /** An address that is held is never given out again, not even to its holder. */
  lemma HeldIsRefused(t: Table, r: Range, holder: Mac, mac: Mac, up: Faults)
    requires holder in t
    ensures var (after, lease) := AllocateIp(t, r, mac, Some(t[holder]), up); !lease.Granted? && after == t
  {
    assert t[holder] in t.Values;
    PreferenceExactly(t, r, t[holder]);
  }

  /** Reallocating the address a MAC already has leaves the table as it was if and only if the address is in the range. */
  lemma ReallocationIsIdentity(t: Table, r: Range, mac: Mac)
    requires Injective(t) && mac in t
    ensures var (after, lease) := ReallocateIp(t, r, mac, Some(t[mac]), ALL_UP);
      && (after == t <==> In(r, t[mac]))
      && (lease == Granted(t[mac]) <==> In(r, t[mac]))
      && (!In(r, t[mac]) ==> after == t - {mac})
  {
    var released := t - {mac};
    assert t[mac] !in released.Values;
    PreferenceExactly(released, r, t[mac]);
    AllocateIpExactly(released, r, mac, Some(t[mac]), ALL_UP);
    assert released[mac := t[mac]] == t;
    assert mac !in released;
  }

  /** If the release fails, the address still counts as held: the reallocation raises and changes nothing. */
  lemma FailedReleaseBlocks(t: Table, r: Range, mac: Mac, up: Faults)
    requires mac in t && !up.remove
    ensures var (after, lease) := ReallocateIp(t, r, mac, Some(t[mac]), up); after == t && !lease.Granted?
  {
    HeldIsRefused(t, r, mac, mac, up);
  }

  // ----- the range is shared out

  /** The MACs of a set whose address lies in the range. */
  ghost function Holders(t: Table, r: Range, macs: set<Mac>): set<Mac> {
    set m | m in macs && m in t && In(r, t[m])
  }

  ghost function Addresses(t: Table, macs: set<Mac>): set<Ip>
    requires macs <= t.Keys
  {
    set m | m in macs :: t[m]
  }

  ghost predicate InjectiveOn(t: Table, macs: set<Mac>)
    requires macs <= t.Keys
  {
    forall a, b :: a in macs && b in macs && t[a] == t[b] ==> a == b
  }

  /** As many addresses as MACs, exactly if no address is shared. */
  lemma {:induction false} AddressCount(t: Table, macs: set<Mac>)
    requires macs <= t.Keys
    ensures |Addresses(t, macs)| <= |macs|
    ensures |Addresses(t, macs)| == |macs| <==> InjectiveOn(t, macs)
    decreases |macs|
  {
    if macs != {} {
      var m :| m in macs;
      var rest := macs - {m};
      AddressCount(t, rest);
      assert Addresses(t, macs) == Addresses(t, rest) + {t[m]};
      if t[m] in Addresses(t, rest) {
        var n :| n in rest && t[n] == t[m];
        assert !InjectiveOn(t, macs);
      } else {
        assert forall n <- rest :: t[n] in Addresses(t, rest);
        assert InjectiveOn(t, rest) ==> InjectiveOn(t, macs);
        assert InjectiveOn(t, macs) ==> InjectiveOn(t, rest);
      }
    }
  }

  ghost function Span(lo: Ip, hi: Ip): (r: set<Ip>)
    requires lo <= hi + 1
    ensures forall ip :: ip in r <==> lo <= ip <= hi
    ensures |r| == hi - lo + 1
    decreases hi - lo
  {
    if lo > hi then {} else {lo} + Span(lo + 1, hi)
  }

  ghost function Elements(s: seq<Ip>): set<Ip> {
    set x | x in s
  }

  lemma {:induction false} AscendingSize(s: seq<Ip>)
    requires Ascends(s)
    ensures |Elements(s)| == |s|
    decreases |s|
  {
    if s != [] {
      AscendingSize(s[1..]);
      assert Elements(s) == Elements(s[1..]) + {s[0]};
    } else {
      assert Elements(s) == {};
    }
  }

  /** Free and reserved addresses divide the range. */
  lemma RangeIsDivided(t: Table, r: Range)
    requires r.lo <= r.hi
    ensures Elements(FreeHosts(t, r)) !! Addresses(t, Holders(t, r, t.Keys))
    ensures Elements(FreeHosts(t, r)) + Addresses(t, Holders(t, r, t.Keys)) == Span(r.lo, r.hi)
  {
    var holders := Holders(t, r, t.Keys);
    HostsExactly(r.lo, r.hi, t.Values);
    forall ip | ip in t.Values && In(r, ip) ensures ip in Addresses(t, holders) {
      var m :| m in t && t[m] == ip;
      assert m in holders;
    }
    forall ip | ip in Addresses(t, holders) ensures ip in t.Values && In(r, ip) {
    }
  }

  lemma DisjointSizes<T>(a: set<T>, b: set<T>, whole: set<T>)
    requires a !! b && a + b == whole
    ensures |a| + |b| == |whole|
  {
  }

  /** The free addresses and the reservations inside the range add up to the whole range if and only if no two of those share an address. */
  lemma RangeIsSharedOut(t: Table, r: Range)
    requires r.lo <= r.hi
    ensures |FreeHosts(t, r)| + |Holders(t, r, t.Keys)| == r.hi - r.lo + 1 <==> InjectiveOn(t, Holders(t, r, t.Keys))
  {
    var hosts, holders := FreeHosts(t, r), Holders(t, r, t.Keys);
    HostsExactly(r.lo, r.hi, t.Values);
    AscendingSize(hosts);
    AddressCount(t, holders);
    RangeIsDivided(t, r);
    DisjointSizes(Elements(hosts), Addresses(t, holders), Span(r.lo, r.hi));
  }
}
