/**
The provisioner's allocation records and the expiry pass over them, as functions on the `allocations`
hash. Clocks are whole seconds. Identifiers, endpoints and VM names are only ever compared.
*/
module Leases {
  import opened PyLists

  type Id = nat
  type Endpoint = nat
  type VmId = nat

  /** One entry of `hardware_details`. */
  datatype Hardware = Hardware(endpoint: Endpoint, vm: VmId)

  datatype Status = Received | Allocating | Success | Cancelled | Exception | Unknown | Deallocating | ErrorDeallocating | Deallocated

  datatype Record = Record(status: Status, expiration: int, endpoint: Option<Endpoint>, hardware: seq<Hardware>)

  type Hash = map<Id, Record>

  const LEASE := 60
  const GRACE := 15 * 60

  predicate Recovering(status: Status) {
    !(status == Received || status == Allocating || status == Success)
  }

  /** A manager's answer to a status query: an error, an empty reply, one without the expected fields, or its VMs. */
  datatype Reply = Unreachable | Empty | Malformed | Info(vms: seq<VmId>)

  function Details(endpoint: Endpoint, vms: seq<VmId>): (r: seq<Hardware>)
    ensures |r| == |vms|
  {
    seq(|vms|, i requires 0 <= i < |vms| => Hardware(endpoint, vms[i]))
  }

  /** `save_fulfilled_request` on a record. */
  function Fulfilled(rec: Record, endpoint: Endpoint, vms: seq<VmId>, now: int): Record {
    rec.(status := Success, hardware := Details(endpoint, vms), expiration := now + LEASE)
  }

  // ----- a request

  /** How one manager's allocation call ends. */
  datatype Outcome = Allocated(vms: seq<VmId>) | BadReply | Failed | ClientGone

  /** A manager that is asked to allocate, what comes of it, and when. */
  datatype Offer = Offer(endpoint: Endpoint, outcome: Outcome, now: int)

  /** The managers in turn: each success overwrites the record, and anything else ends the request. */
  function Carry(rec: Record, offers: seq<Offer>): Record
    decreases |offers|
  {
    if offers == [] then rec
    else
      match offers[0].outcome
      case Allocated(vms) => Carry(Fulfilled(rec, offers[0].endpoint, vms, offers[0].now), offers[1..])
      case BadReply => rec
      case Failed => rec.(status := Exception)
      case ClientGone => rec.(status := Cancelled)
  }

  /** `Fulfiller.fulfill` on the hash; `possible` is the outcome of its feasibility test. */
  function Fulfil(store: Hash, id: Id, possible: bool, offers: seq<Offer>, now: int): Hash
    requires possible ==> offers != []
  {
    if id in store || !possible then store
    else store[id := Carry(Record(Allocating, now + LEASE, Some(offers[|offers| - 1].endpoint), []), offers)]
  }

  /** `Fulfiller.release`: machines are deallocated in order, and the record goes once all of them are. */
  function ReleaseLease(store: Hash, id: Id, freed: nat): Hash {
    if id in store && AllFreed(store[id], freed) then store - {id} else store
  }

  /** When every manager allocates, the record lists only what the last one allocated. */
  lemma {:induction false} LastManagerWins(rec: Record, offers: seq<Offer>)
    requires offers != [] && forall o <- offers :: o.outcome.Allocated?
    ensures var last := offers[|offers| - 1];
      Carry(rec, offers) == Fulfilled(rec, last.endpoint, last.outcome.vms, last.now)
    decreases |offers|
  {
    var next := Fulfilled(rec, offers[0].endpoint, offers[0].outcome.vms, offers[0].now);
    if |offers| == 1 {
      assert Carry(next, offers[1..]) == next;
    } else {
      LastManagerWins(next, offers[1..]);
    }
  }

  // ----- one record in the expiry pass

  /** What the first loop decides about a record; `Broken` is an exception that ends the pass. */
  datatype Verdict = Keep(rec: Record) | Drop | Release(rec: Record) | Broken

  function ByDeadline(rec: Record, now: int): Verdict {
    if rec.expiration <= now then
      if rec.status == Success then Release(rec.(status := Deallocating)) else Drop
    else Keep(rec)
  }

  function Visit(rec: Record, now: int, reply: Reply): Verdict {
    if !Recovering(rec.status) then ByDeadline(rec, now)
    else if rec.endpoint.None? then Drop
    else if rec.expiration < now - GRACE then Drop
    else
      match reply
      case Unreachable => Keep(rec.(status := Unknown))
      case Malformed => Broken
      case Info(vms) => Keep(Fulfilled(rec, rec.endpoint.value, vms, now))
      case Empty => ByDeadline(rec, now)
  }

  /**
  What a pass meets: when each record is looked at, what its manager answers, and how many of its listed
  machines are deallocated before one fails.
  */
  datatype World = World(at: Id -> int, reply: Id -> Reply, freed: Id -> nat)

  function FreedOf(rec: Record, count: nat): seq<Hardware> {
    rec.hardware[..if count <= |rec.hardware| then count else |rec.hardware|]
  }

  predicate AllFreed(rec: Record, count: nat) {
    count >= |rec.hardware|
  }

  /** The first loop from position `k` on: the hash, the scheduled deallocations, and whether it was cut short. */
  function Scan(store: Hash, snapshot: Hash, order: seq<Id>, k: nat, w: World): (Hash, seq<Id>, bool)
    requires forall id <- order :: id in snapshot
    decreases |order| - k
  {
    if k >= |order| then (store, [], false)
    else
      var id := order[k];
      match Visit(snapshot[id], w.at(id), w.reply(id))
      case Keep(rec) =>
        // an untouched record is not written back
        Scan(if rec == snapshot[id] then store else store[id := rec], snapshot, order, k + 1, w)
      case Drop => Scan(store - {id}, snapshot, order, k + 1, w)
      case Broken => (store, [], true)
      case Release(rec) =>
        var (last, tasks, broken) := Scan(store[id := rec], snapshot, order, k + 1, w);
        (last, [id] + tasks, broken)
  }

  /** The second loop: a record whose machines are all deallocated goes; otherwise its status says so. */
  function Settle(store: Hash, snapshot: Hash, tasks: seq<Id>, w: World): Hash
    requires forall id <- tasks :: id in snapshot
  {
    if tasks == [] then store
    else
      var id := tasks[0];
      if AllFreed(snapshot[id], w.freed(id)) then Settle(store - {id}, snapshot, tasks[1..], w)
      else if id in store then Settle(store[id := store[id].(status := ErrorDeallocating)], snapshot, tasks[1..], w)
      else store // updating a record that is gone raises, which ends the pass
  }

  lemma {:induction false} ScanTasks(store: Hash, snapshot: Hash, order: seq<Id>, k: nat, w: World)
    requires forall id <- order :: id in snapshot
    ensures forall id <- Scan(store, snapshot, order, k, w).1 :: id in order && Visit(snapshot[id], w.at(id), w.reply(id)).Release?
    decreases |order| - k
  {
    if k < |order| {
      var id := order[k];
      match Visit(snapshot[id], w.at(id), w.reply(id))
      case Keep(rec) => ScanTasks(if rec == snapshot[id] then store else store[id := rec], snapshot, order, k + 1, w);
      case Drop => ScanTasks(store - {id}, snapshot, order, k + 1, w);
      case Broken =>
      case Release(rec) => ScanTasks(store[id := rec], snapshot, order, k + 1, w);
    }
  }

  /** One uninterrupted pass of `expire_allocations` over the records in `order`. */
  function Pass(store: Hash, order: seq<Id>, w: World): Hash
    requires forall id <- order :: id in store
  {
    var (scanned, tasks, broken) := Scan(store, store, order, 0, w);
    ScanTasks(store, store, order, 0, w);
    if broken then scanned else Settle(scanned, store, tasks, w)
  }

  // ----- the pass, record by record

  /** What a complete pass leaves of a record, from that record alone. */
  function After(rec: Record, now: int, reply: Reply, freed: nat): Option<Record> {
    match Visit(rec, now, reply)
    case Keep(r) => Some(r)
    case Drop => None
    case Broken => Some(rec)
    case Release(r) => if AllFreed(rec, freed) then None else Some(r.(status := ErrorDeallocating))
  }

  /** What the first loop alone leaves of it. */
  function Scanned(rec: Record, now: int, reply: Reply): Option<Record> {
    match Visit(rec, now, reply)
    case Keep(r) => Some(r)
    case Drop => None
    case Broken => Some(rec)
    case Release(r) => Some(r)
  }

  function Get(store: Hash, id: Id): Option<Record> {
    if id in store then Some(store[id]) else None
  }
}
