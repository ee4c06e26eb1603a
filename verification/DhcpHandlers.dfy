/** The libvirt wrapper's reservation calls and the lease handlers on top of them, over one network's table. */
module DhcpHandlers {
  import opened PyLists
  import opened Dhcp

  /** One libvirt network with its DHCP range. */
  class LibvirtWrapper {
    const range: Range
    var table: Table

    constructor (range: Range)
      ensures this.range == range && table == map[]
    {
      this.range, table := range, map[];
    }

    /** The range as a set, less every reserved address, whether or not it lies in the range; `entries` lists the table. */
    method PermittedRange(entries: seq<Mac>) returns (permitted: set<Ip>)
      requires forall m :: m in entries <==> m in table
      ensures forall x :: x in permitted <==> range.lo <= x <= range.hi && x !in table.Values
    {
      permitted := {};
      for ip := range.lo to Upper()
        invariant forall x :: x in permitted <==> range.lo <= x < ip
      {
        permitted := permitted + {ip};
      }
      ghost var all := permitted;
      for i := 0 to |entries|
        invariant forall x :: x in permitted <==> x in all && x !in ReservedBy(table, entries[..i])
      {
        assert entries[..i + 1] == entries[..i] + [entries[i]];
        permitted := permitted - {table[entries[i]]};
      }
      assert entries[..|entries|] == entries;
      ReservedByAll(table, entries);
    }

    method GetNetworkDhcpInfo(entries: seq<Mac>) returns (hosts: seq<Ip>)
      requires forall m :: m in entries <==> m in table
      ensures hosts == FreeHosts(table, range)
    {
      var permitted := PermittedRange(entries);
      hosts := [];
      for ip := range.lo to Upper()
        invariant hosts + Hosts(ip, range.hi, table.Values) == FreeHosts(table, range)
      {
        NextHost(hosts, ip, range.hi, table.Values);
        if ip in permitted {
          hosts := hosts + [ip];
        }
      }
    }

    /** One past the range's end, or its start if it is empty. */
    function Upper(): (u: Ip)
      ensures u >= range.lo && u >= range.hi + 1 && (u == range.lo || u == range.hi + 1)
    {
      if range.hi + 1 >= range.lo then range.hi + 1 else range.lo
    }

    /** Adding first, which is refused for a known MAC or address; then modifying by MAC. */
    method AddDhcpEntry(ip: Ip, mac: Mac, up: Faults) returns (ok: bool)
      modifies this
      ensures ok <==> AddEntry(old(table), ip, mac, up).Some?
      ensures table == if ok then AddEntry(old(table), ip, mac, up).value else old(table)
    {
      if up.add && mac !in table && ip !in table.Values {
        table := table[mac := ip];
        return true;
      }
      if up.change && mac in table {
        table := table[mac := ip];
        return true;
      }
      ok := false;
    }

    method RemoveDhcpEntry(mac: Mac, up: Faults) returns (ok: bool)
      modifies this
      ensures ok <==> Delete(old(table), mac, up.remove).Some?
      ensures table == if ok then Delete(old(table), mac, up.remove).value else old(table)
    {
      ok := up.remove && mac in table;
      if ok {
        table := table - {mac};
      }
    }
  }

  lemma NextHost(hosts: seq<Ip>, lo: Ip, hi: Ip, reserved: set<Ip>)
    requires lo <= hi
    ensures hosts + Hosts(lo, hi, reserved) == (if lo in reserved then hosts else hosts + [lo]) + Hosts(lo + 1, hi, reserved)
  {
  }

  ghost function ReservedBy(t: Table, entries: seq<Mac>): set<Ip>
    requires forall m <- entries :: m in t
  {
    set m | m in entries :: t[m]
  }

  lemma ReservedByAll(t: Table, entries: seq<Mac>)
    requires forall m :: m in entries <==> m in t
    ensures ReservedBy(t, entries) == t.Values
  {
    forall x | x in t.Values ensures x in ReservedBy(t, entries) {
      var m :| m in t && t[m] == x;
      assert m in entries;
    }
  }

  class LibvirtDHCPAllocator {
    const libvirt: LibvirtWrapper

    constructor (libvirt: LibvirtWrapper)
      ensures this.libvirt == libvirt
    {
      this.libvirt := libvirt;
    }

    /** `_allocate_ip_sync`, under the lock and with no release in between. */
    method AllocateIpSync(mac: Mac, ip: Option<Ip>, entries: seq<Mac>, up: Faults) returns (lease: Lease)
      requires forall m :: m in entries <==> m in libvirt.table
      modifies libvirt
      ensures (libvirt.table, lease) == AllocateIp(old(libvirt.table), libvirt.range, mac, ip, up)
    {
      var hosts := libvirt.GetNetworkDhcpInfo(entries);
      if |hosts| == 0 {
        return RangeEmpty;
      }
      var candidate;
      if ip.Some? {
        if ip.value !in hosts {
          return NotFree;
        }
        candidate := ip.value;
      } else {
        candidate := hosts[|hosts| - 1];
      }
      var ok := libvirt.AddDhcpEntry(candidate, mac, up);
      lease := if ok then Granted(candidate) else LibvirtFailed;
    }

    /** `reallocate_ip` with this handler; the release's failure is swallowed. */
    method ReallocateIp(mac: Mac, ip: Option<Ip>, entries: seq<Mac>, up: Faults) returns (lease: Lease)
      requires forall m :: m in entries <==> m in libvirt.table
      modifies libvirt
      ensures (libvirt.table, lease) == Dhcp.ReallocateIp(old(libvirt.table), libvirt.range, mac, ip, up)
    {
      var rest := entries;
      var ok := libvirt.RemoveDhcpEntry(mac, up);
      if ok {
        rest := Without(entries, mac);
      }
      lease := AllocateIpSync(mac, ip, rest, up);
    }
  }

  /** The listing of the table once the MAC is gone. */
  function Without(entries: seq<Mac>, mac: Mac): (r: seq<Mac>)
    ensures forall m :: m in r <==> m in entries && m != mac
  {
    if entries == [] then []
    else if entries[0] == mac then Without(entries[1..], mac)
    else [entries[0]] + Without(entries[1..], mac)
  }
}
