/**
The provisioner's own code: the redis client, the heartbeat handler, the fulfiller and the expiry pass,
each working on the shared `allocations` hash in place.
*/
module Provisioner {
  import opened PyLists
  import opened Leases
  import opened HostSplit

  type Host = nat

  class RedisClient {
    var allocations: Hash

    constructor ()
      ensures allocations == map[]
    {
      allocations := map[];
    }

    method SaveRequest(id: Id, now: int)
      modifies this
      ensures allocations == old(allocations)[id := Record(Received, now + LEASE, None, [])]
    {
      allocations := allocations[id := Record(Received, now + LEASE, None, [])];
    }

    /** `update_status(**kwargs)`; raises when the record is gone. */
    method UpdateStatus(id: Id, change: Record -> Record) returns (ok: bool)
      modifies this
      ensures ok <==> id in old(allocations)
      ensures allocations == if ok then old(allocations)[id := change(old(allocations[id]))] else old(allocations)
    {
      if id !in allocations {
        return false;
      }
      allocations := allocations[id := change(allocations[id])];
      ok := true;
    }

    method SaveFulfilledRequest(id: Id, endpoint: Endpoint, vms: seq<VmId>, now: int) returns (ok: bool)
      modifies this
      ensures ok <==> id in old(allocations)
      ensures allocations == if ok then old(allocations)[id := Fulfilled(old(allocations[id]), endpoint, vms, now)] else old(allocations)
    {
      var details: seq<Hardware> := [];
      for i := 0 to |vms|
        invariant details == Details(endpoint, vms)[..i]
      {
        details := details + [Hardware(endpoint, vms[i])];
      }
      assert details == Details(endpoint, vms);
      ok := UpdateStatus(id, (rec: Record) => rec.(status := Success, hardware := details, expiration := now + LEASE));
    }

    method Delete(id: Id)
      modifies this
      ensures allocations == old(allocations) - {id}
    {
      allocations := allocations - {id};
    }
  }

  /** A heartbeat with nothing in between: it extends a successful lease and raises for anything else. */
  method UpdateExpires(redis: RedisClient, id: Id, now: int) returns (ok: bool)
    modifies redis
    ensures ok <==> id in old(redis.allocations) && old(redis.allocations[id]).status == Success
    ensures redis.allocations == if ok then old(redis.allocations)[id := old(redis.allocations[id]).(expiration := now + LEASE)]
                                 else old(redis.allocations)
  {
    if id !in redis.allocations {
      return false;
    }
    var value := redis.allocations[id].(expiration := now + LEASE);
    if value.status != Success {
      return false;
    }
    redis.allocations := redis.allocations[id := value];
    ok := true;
  }

  // ----- expiry

  /** Deallocates in order until one fails; `works` of the calls would succeed. */
  method Deallocate(allocation: Record, works: nat) returns (ok: bool, freed: seq<Hardware>)
    ensures ok <==> AllFreed(allocation, works)
    ensures freed == FreedOf(allocation, works)
  {
    freed := [];
    for i := 0 to |allocation.hardware|
      invariant i <= works && freed == allocation.hardware[..i]
    {
      if i == works {
        return false, freed;
      }
      freed := freed + [allocation.hardware[i]];
    }
    ok := true;
  }

  /** One round of `expire_allocations`, over a snapshot that lists the records in `order`. */
  method ExpireAllocations(redis: RedisClient, order: seq<Id>, w: World)
    requires forall id <- order :: id in redis.allocations
    modifies redis
    ensures redis.allocations == Pass(old(redis.allocations), order, w)
  {
    var snapshot := redis.allocations;
    var tasks: seq<Id> := [];
    ScanTasks(snapshot, snapshot, order, 0, w);
    for k := 0 to |order|
      invariant var whole, rest := Scan(snapshot, snapshot, order, 0, w), Scan(redis.allocations, snapshot, order, k, w);
        whole.0 == rest.0 && whole.1 == tasks + rest.1 && whole.2 == rest.2
    {
      var id := order[k];
      match Visit(snapshot[id], w.at(id), w.reply(id)) {
        case Keep(rec) =>
          if rec != snapshot[id] {
            redis.allocations := redis.allocations[id := rec];
          }
        case Drop =>
          redis.Delete(id);
        case Release(rec) =>
          tasks := tasks + [id];
          redis.allocations := redis.allocations[id := rec];
        case Broken =>
          return;
      }
    }
    ghost var scanned := redis.allocations;
    assert Scan(snapshot, snapshot, order, 0, w).1 == tasks;
    assert Pass(snapshot, order, w) == Settle(scanned, snapshot, tasks, w);
    for k := 0 to |tasks|
      invariant Settle(scanned, snapshot, tasks, w) == Settle(redis.allocations, snapshot, tasks[k..], w)
    {
      var id := tasks[k];
      assert tasks[k..][0] == id && tasks[k..][1..] == tasks[k + 1..];
      var ok, _ := Deallocate(snapshot[id], w.freed(id));
      if ok {
        redis.Delete(id);
      } else {
        ok := redis.UpdateStatus(id, (rec: Record) => rec.(status := ErrorDeallocating));
        if !ok {
          return;
        }
      }
    }
  }

  // ----- fulfilment

  /** What the caller of `fulfill` gets. */
  datatype Answer = Found(rec: Record) | Unfulfillable | Raised

  /** How many managers are asked before the first that does not allocate, that one included. */
  function Asked(offers: seq<Offer>): (r: nat)
    ensures r <= |offers| && (offers != [] ==> r > 0)
  {
    if offers == [] then 0 else if offers[0].outcome.Allocated? then 1 + Asked(offers[1..]) else 1
  }

  lemma {:induction false} AskedExactly(offers: seq<Offer>)
    ensures Asked(offers) == |offers| <==> forall k :: 0 <= k < |offers| - 1 ==> offers[k].outcome.Allocated?
    decreases |offers|
  {
    if |offers| > 1 {
      var rest := offers[1..];
      AskedExactly(rest);
      assert forall k :: 0 <= k < |rest| ==> rest[k] == offers[k + 1];
      if offers[0].outcome.Allocated? && forall k :: 0 <= k < |rest| - 1 ==> rest[k].outcome.Allocated? {
        forall k | 0 <= k < |offers| - 1 ensures offers[k].outcome.Allocated? {
          assert k > 0 ==> rest[k - 1] == offers[k];
        }
      }
    }
  }

  /**
  Every manager is asked exactly if all but the last allocate; and when they are, every demand is sent to one
  exactly if no manager offered a host that was not demanded.
  */
  lemma EveryDemandIsSent(demands: seq<Host>, lists: seq<seq<Host>>, offers: seq<Offer>)
    requires |lists| == |offers| && Distinct(demands) && LooksPossible(lists, demands)
    ensures Asked(offers) == |offers| <==> forall k :: 0 <= k < |offers| - 1 ==> offers[k].outcome.Allocated?
    ensures Asked(offers) == |offers| ==>
      ((forall h <- demands :: exists k :: 0 <= k < Asked(offers) && h in Filtered(demands, SplitFrom(lists, 0)[k]))
       <==> (forall j :: 0 <= j < |lists| ==> forall h <- lists[j] :: h in demands))
  {
    AskedExactly(offers);
    EveryDemandIsKept(lists, demands);
  }

  class Fulfiller {
    const redis: RedisClient

    constructor (redis: RedisClient)
      ensures this.redis == redis
    {
      this.redis := redis;
    }

    /** The splitting loop: a manager loses the hosts that others have, and the record names it. */
    method Divide(id: Id, lists: seq<seq<Host>>, offers: seq<Offer>) returns (hosts: seq<seq<Host>>)
      requires |lists| == |offers| && offers != [] && id in redis.allocations
      modifies redis
      ensures hosts == SplitFrom(lists, 0)
      ensures redis.allocations == old(redis.allocations)[id := old(redis.allocations[id]).(status := Allocating, endpoint := Some(offers[|offers| - 1].endpoint))]
    {
      hosts := lists;
      for k := 0 to |lists|
        invariant |hosts| == |lists| && SplitFrom(hosts, k) == SplitFrom(lists, 0)
        invariant id in redis.allocations && redis.allocations == old(redis.allocations)[id := redis.allocations[id]]
        invariant redis.allocations[id] == if k == 0 then old(redis.allocations[id])
                                           else old(redis.allocations[id]).(status := Allocating, endpoint := Some(offers[k - 1].endpoint))
      {
        var mine := Prune(hosts[k], Others(hosts, k));
        hosts := hosts[k := mine];
        var endpoint := offers[k].endpoint;
        var _ := redis.UpdateStatus(id, (rec: Record) => rec.(status := Allocating, endpoint := Some(endpoint)));
      }
    }

    /** The allocation loop: each manager is sent the demands it kept, until one does not allocate. */
    method AskManagers(id: Id, demands: seq<Host>, hosts: seq<seq<Host>>, offers: seq<Offer>)
      returns (sent: seq<seq<Host>>)
      requires |hosts| == |offers| && offers != [] && id in redis.allocations
      modifies redis
      ensures redis.allocations == old(redis.allocations)[id := Carry(old(redis.allocations[id]), offers)]
      ensures |sent| == Asked(offers) && forall k :: 0 <= k < |sent| ==> sent[k] == Filtered(demands, hosts[k])
    {
      sent := [];
      for k := 0 to |offers|
        invariant id in redis.allocations && redis.allocations == old(redis.allocations)[id := redis.allocations[id]]
        invariant Carry(redis.allocations[id], offers[k..]) == Carry(old(redis.allocations[id]), offers)
        invariant |sent| == k && k + Asked(offers[k..]) == Asked(offers)
        invariant forall j :: 0 <= j < k ==> sent[j] == Filtered(demands, hosts[j])
      {
        assert offers[k..][1..] == offers[k + 1..];
        var request := FilterDemands(demands, hosts[k]);
        sent := sent + [request];
        match offers[k].outcome {
          case ClientGone =>
            var _ := redis.UpdateStatus(id, (rec: Record) => rec.(status := Cancelled));
            return;
          case Failed =>
            var _ := redis.UpdateStatus(id, (rec: Record) => rec.(status := Exception));
            return;
          case BadReply =>
            return;
          case Allocated(vms) =>
            var _ := redis.SaveFulfilledRequest(id, offers[k].endpoint, vms, offers[k].now);
        }
      }
    }

    /** `lists[k]` are the hosts that the manager of `offers[k]` said it could serve. */
    method Fulfill(id: Id, demands: seq<Host>, lists: seq<seq<Host>>, offers: seq<Offer>, now: int)
      returns (answer: Answer, sent: seq<seq<Host>>)
      requires |lists| == |offers|
      modifies redis
      ensures redis.allocations == Fulfil(old(redis.allocations), id, LooksPossible(lists, demands), offers, now)
      ensures id in old(redis.allocations) ==> answer == Found(old(redis.allocations[id])) && sent == []
      ensures id !in old(redis.allocations) && !LooksPossible(lists, demands) ==> answer == Unfulfillable && sent == []
      ensures id !in old(redis.allocations) && LooksPossible(lists, demands) ==>
        && |sent| == Asked(offers)
        && (forall k :: 0 <= k < |sent| ==> sent[k] == Filtered(demands, SplitFrom(lists, 0)[k]))
        && answer == if offers[|sent| - 1].outcome.BadReply? then Raised else Found(redis.allocations[id])
    {
      sent := [];
      if id in redis.allocations {
        return Found(redis.allocations[id]), sent;
      }
      redis.SaveRequest(id, now);
      if !LooksPossible(lists, demands) {
        redis.Delete(id);
        assert redis.allocations == old(redis.allocations);
        return Unfulfillable, sent;
      }
      var hosts := Divide(id, lists, offers);
      sent := AskManagers(id, demands, hosts, offers);
      answer := if offers[|sent| - 1].outcome.BadReply? then Raised else Found(redis.allocations[id]);
    }

    /** `works` of the deallocation calls would succeed; the first that fails ends the release. */
    method Release(id: Id, works: nat) returns (freed: seq<Hardware>)
      modifies redis
      ensures redis.allocations == ReleaseLease(old(redis.allocations), id, works)
      ensures freed == if id in old(redis.allocations) then FreedOf(old(redis.allocations[id]), works) else []
    {
      if id !in redis.allocations {
        return [];
      }
      var ok;
      ok, freed := Deallocate(redis.allocations[id], works);
      if ok {
        var _ := redis.UpdateStatus(id, (rec: Record) => rec.(status := Deallocated));
        redis.Delete(id);
        assert redis.allocations == old(redis.allocations) - {id};
      }
    }
  }
}
