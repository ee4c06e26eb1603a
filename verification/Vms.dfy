/** Virtual machines and the devices they hold. */
module Vms {
  import opened PyLists
  import Decimals

  /** A PCI device; two devices are equal when all their fields are. */
  datatype Device = Device(fullAddress: string, info: string)

  /** A serial-over-lan port: a number when allocated, text or nothing when read back from XML. */
  datatype Port = Number(n: int) | Text(s: string) | Absent

  datatype Net = Net(mac: string, mode: string, source: string)

  /** `id` stands for the identity of the Python object (and so for its lock). */
  datatype Vm = Vm(id: nat, name: string, pcis: seq<Device>, nets: seq<Net>, port: Port)

  function Macs(nets: seq<Net>): (r: seq<string>)
    ensures |r| == |nets|
  {
    seq(|nets|, i requires 0 <= i < |nets| => nets[i].mac)
  }

  function VmName(server: string, index: nat): string {
    server + "-vm-" + Decimals.Natural(index)
  }

  lemma VmNameIsInjective(server: string, i: nat, j: nat)
    requires VmName(server, i) == VmName(server, j)
    ensures i == j
  {
    var prefix := server + "-vm-";
    assert VmName(server, i)[|prefix|..] == Decimals.Natural(i);
    assert VmName(server, j)[|prefix|..] == Decimals.Natural(j);
    Decimals.NaturalIsInjective(i, j);
  }

  /** How a port reads once it has been through the domain XML. */
  function Render(port: Port): Port {
    match port
    case Number(n) => Text(Decimals.OfInt(n))
    case _ => port
  }
}
