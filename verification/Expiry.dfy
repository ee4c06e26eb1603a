/** The expiry pass: what it does to each record, that it never drops machines, and that it terminates leases. */
module Expiry {
  import opened PyLists
  import opened Leases

  /** The position at which the first loop is cut short, or the end. */
  function Cut(snapshot: Hash, order: seq<Id>, k: nat, w: World): (r: nat)
    requires k <= |order| && forall id <- order :: id in snapshot
    ensures k <= r <= |order|
    decreases |order| - k
  {
    if k == |order| || Visit(snapshot[order[k]], w.at(order[k]), w.reply(order[k])).Broken? then k
    else Cut(snapshot, order, k + 1, w)
  }

  ghost predicate ScannedTo(snapshot: Hash, order: seq<Id>, k: nat, cut: nat, w: World, before: Hash, after: Hash)
    requires k <= cut <= |order| && forall id <- order :: id in snapshot
  {
    && (forall i :: k <= i < cut ==> Get(after, order[i]) == Scanned(snapshot[order[i]], w.at(order[i]), w.reply(order[i])))
    && (forall id :: id !in order[k..cut] ==> Get(after, id) == Get(before, id))
  }

  function OneScanned(store: Hash, rec: Record, id: Id, w: World): Hash {
    match Scanned(rec, w.at(id), w.reply(id))
    case Some(r) => if r == rec then store else store[id := r]
    case None => store - {id}
  }

  lemma ScanStep(store: Hash, snapshot: Hash, order: seq<Id>, k: nat, w: World)
    requires k < |order| && (forall id <- order :: id in snapshot) && Get(store, order[k]) == Some(snapshot[order[k]])
    ensures var id := order[k];
      var v := Visit(snapshot[id], w.at(id), w.reply(id));
      var next := OneScanned(store, snapshot[id], id, w);
      && (!v.Broken? ==> Scan(store, snapshot, order, k, w).0 == Scan(next, snapshot, order, k + 1, w).0)
      && (!v.Broken? ==> Scan(store, snapshot, order, k, w).2 == Scan(next, snapshot, order, k + 1, w).2)
      && (!v.Broken? ==> Scan(store, snapshot, order, k, w).1 == (if v.Release? then [id] else []) + Scan(next, snapshot, order, k + 1, w).1)
      && Get(next, id) == Scanned(snapshot[id], w.at(id), w.reply(id))
      && forall other :: other != id ==> Get(next, other) == Get(store, other)
  {
  }

  lemma ScannedFrom(store: Hash, next: Hash, after: Hash, snapshot: Hash, order: seq<Id>, k: nat, cut: nat, w: World)
    requires k < cut <= |order| && Distinct(order) && forall id <- order :: id in snapshot
    requires ScannedTo(snapshot, order, k + 1, cut, w, next, after)
    requires Get(next, order[k]) == Scanned(snapshot[order[k]], w.at(order[k]), w.reply(order[k]))
    requires forall other :: other != order[k] ==> Get(next, other) == Get(store, other)
    ensures ScannedTo(snapshot, order, k, cut, w, store, after)
  {
    assert order[k..cut] == [order[k]] + order[k + 1..cut];
    assert order[k] !in order[k + 1..cut];
  }

  /** The first loop changes each record by itself, up to the cut. */
  lemma {:induction false} ScanIsPointwise(store: Hash, snapshot: Hash, order: seq<Id>, k: nat, w: World)
    requires Distinct(order) && k <= |order| && forall id <- order :: id in snapshot
    requires forall i :: k <= i < |order| ==> Get(store, order[i]) == Some(snapshot[order[i]])
    ensures ScannedTo(snapshot, order, k, Cut(snapshot, order, k, w), w, store, Scan(store, snapshot, order, k, w).0)
    ensures Scan(store, snapshot, order, k, w).2 <==> Cut(snapshot, order, k, w) < |order|
    decreases |order| - k
  {
    if k < |order| && !Visit(snapshot[order[k]], w.at(order[k]), w.reply(order[k])).Broken? {
      ScanStep(store, snapshot, order, k, w);
      var next := OneScanned(store, snapshot[order[k]], order[k], w);
      ScanIsPointwise(next, snapshot, order, k + 1, w);
      ScannedFrom(store, next, Scan(next, snapshot, order, k + 1, w).0, snapshot, order, k, Cut(snapshot, order, k, w), w);
    }
  }

  /** Deallocation is scheduled exactly for the leases that ran out, once each. */
  lemma {:induction false} TasksAreExpired(store: Hash, snapshot: Hash, order: seq<Id>, k: nat, w: World)
    requires Distinct(order) && k <= |order| && forall id <- order :: id in snapshot
    requires forall i :: k <= i < |order| ==> Get(store, order[i]) == Some(snapshot[order[i]])
    ensures var tasks := Scan(store, snapshot, order, k, w).1;
      && Distinct(tasks)
      && (forall id <- tasks :: id in order[k..])
      && (!Scan(store, snapshot, order, k, w).2 ==>
            forall i :: k <= i < |order| ==> (order[i] in tasks <==> Visit(snapshot[order[i]], w.at(order[i]), w.reply(order[i])).Release?))
    decreases |order| - k
  {
    if k < |order| && !Visit(snapshot[order[k]], w.at(order[k]), w.reply(order[k])).Broken? {
      ScanStep(store, snapshot, order, k, w);
      var next := OneScanned(store, snapshot[order[k]], order[k], w);
      TasksAreExpired(next, snapshot, order, k + 1, w);
      assert order[k..] == [order[k]] + order[k + 1..];
      assert order[k] !in order[k + 1..];
    }
  }

  /** The second loop settles each scheduled record by itself. */
  lemma {:induction false} SettleIsPointwise(store: Hash, snapshot: Hash, tasks: seq<Id>, w: World)
    requires Distinct(tasks) && forall id <- tasks :: id in snapshot && id in store
    ensures var after := Settle(store, snapshot, tasks, w);
      && (forall id <- tasks :: Get(after, id) == if AllFreed(snapshot[id], w.freed(id)) then None else Some(store[id].(status := ErrorDeallocating)))
      && (forall id :: id !in tasks ==> Get(after, id) == Get(store, id))
    decreases |tasks|
  {
    if tasks != [] {
      var id := tasks[0];
      var next := if AllFreed(snapshot[id], w.freed(id)) then store - {id} else store[id := store[id].(status := ErrorDeallocating)];
      assert id !in tasks[1..];
      SettleIsPointwise(next, snapshot, tasks[1..], w);
      assert tasks == [id] + tasks[1..];
    }
  }

  ghost predicate Enumerates(order: seq<Id>, store: Hash) {
    Distinct(order) && forall id :: id in order <==> id in store
  }

  predicate Unbroken(store: Hash, order: seq<Id>, w: World)
    requires forall id <- order :: id in store
  {
    forall id <- order :: !Visit(store[id], w.at(id), w.reply(id)).Broken?
  }

  lemma {:induction false} CutWhenUnbroken(store: Hash, order: seq<Id>, k: nat, w: World)
    requires k <= |order| && (forall id <- order :: id in store) && Unbroken(store, order, w)
    ensures Cut(store, order, k, w) == |order|
    decreases |order| - k
  {
    if k < |order| {
      assert order[k] in order;
      CutWhenUnbroken(store, order, k + 1, w);
    }
  }

  /** A complete pass is the same as deciding each record alone, in any order. */
  lemma PassIsPointwise(store: Hash, order: seq<Id>, w: World, id: Id)
    requires Enumerates(order, store) && Unbroken(store, order, w) && id in store
    ensures Get(Pass(store, order, w), id) == After(store[id], w.at(id), w.reply(id), w.freed(id))
  {
    UnbrokenScan(store, order, w, id);
    TasksAreThere(store, order, w);
    var (scanned, tasks, broken) := Scan(store, store, order, 0, w);
    SettleIsPointwise(scanned, store, tasks, w);
  }

  lemma UnbrokenScan(store: Hash, order: seq<Id>, w: World, id: Id)
    requires Enumerates(order, store) && Unbroken(store, order, w) && id in store
    ensures var (scanned, tasks, broken) := Scan(store, store, order, 0, w);
      && !broken && Distinct(tasks)
      && Get(scanned, id) == Scanned(store[id], w.at(id), w.reply(id))
      && (id in tasks <==> Visit(store[id], w.at(id), w.reply(id)).Release?)
  {
    CutWhenUnbroken(store, order, 0, w);
    ScanIsPointwise(store, store, order, 0, w);
    TasksAreExpired(store, store, order, 0, w);
    assert order[0..|order|] == order && order[0..] == order;
    var i :| 0 <= i < |order| && order[i] == id;
  }

  lemma TasksAreThere(store: Hash, order: seq<Id>, w: World)
    requires Enumerates(order, store) && !Scan(store, store, order, 0, w).2
    ensures forall t <- Scan(store, store, order, 0, w).1 :: t in store && t in Scan(store, store, order, 0, w).0
  {
    var (scanned, tasks, broken) := Scan(store, store, order, 0, w);
    ScanIsPointwise(store, store, order, 0, w);
    TasksAreExpired(store, store, order, 0, w);
    assert order[0..] == order;
    forall t <- tasks ensures t in store && t in scanned {
      var j :| 0 <= j < |order| && order[j] == t;
      assert Get(scanned, t) == Scanned(store[t], w.at(t), w.reply(t));
    }
  }

  lemma PassAddsNothing(store: Hash, order: seq<Id>, w: World, id: Id)
    requires Enumerates(order, store) && id !in store
    ensures id !in Pass(store, order, w)
  {
    var (scanned, tasks, broken) := Scan(store, store, order, 0, w);
    ScanIsPointwise(store, store, order, 0, w);
    TasksAreExpired(store, store, order, 0, w);
    var cut := Cut(store, order, 0, w);
    assert forall x <- order[0..cut] :: x in order;
    assert order[0..] == order;
    assert Get(scanned, id) == Get(store, id);
    if !broken {
      TasksAreThere(store, order, w);
      SettleIsPointwise(scanned, store, tasks, w);
    }
  }

  /** In a pass that is cut short, a record is untouched, or was scanned and not settled. */
  lemma CutPass(store: Hash, order: seq<Id>, w: World, id: Id)
    requires Enumerates(order, store) && !Unbroken(store, order, w) && id in store
    ensures var after := Get(Pass(store, order, w), id);
      after == Some(store[id]) || after == Scanned(store[id], w.at(id), w.reply(id))
  {
    ScanIsPointwise(store, store, order, 0, w);
    var cut := Cut(store, order, 0, w);
    CutWhenBroken(store, order, 0, w);
    if id in order[0..cut] {
      var i :| 0 <= i < cut && order[0..cut][i] == id;
      assert order[i] == id;
    }
  }

  lemma {:induction false} CutWhenBroken(store: Hash, order: seq<Id>, k: nat, w: World)
    requires k <= |order| && (forall id <- order :: id in store)
    requires exists i :: k <= i < |order| && Visit(store[order[i]], w.at(order[i]), w.reply(order[i])).Broken?
    ensures Cut(store, order, k, w) < |order|
    decreases |order| - k
  {
    if !Visit(store[order[k]], w.at(order[k]), w.reply(order[k])).Broken? {
      CutWhenBroken(store, order, k + 1, w);
    }
  }

  /** What a pass makes of the record at position `i`: settled, only scanned, or not come to. */
  lemma PassAt(store: Hash, order: seq<Id>, w: World, i: nat)
    requires Enumerates(order, store) && i < |order|
    ensures var id := order[i];
      Get(Pass(store, order, w), id) ==
        if Unbroken(store, order, w) then After(store[id], w.at(id), w.reply(id), w.freed(id))
        else if i < Cut(store, order, 0, w) then Scanned(store[id], w.at(id), w.reply(id))
        else Some(store[id])
  {
    var id := order[i];
    assert id in order && id in store;
    if Unbroken(store, order, w) {
      PassIsPointwise(store, order, w, id);
    } else {
      ScanIsPointwise(store, store, order, 0, w);
      CutWhenBroken(store, order, 0, w);
      var cut := Cut(store, order, 0, w);
      if i >= cut {
        assert id !in order[0..cut];
      }
    }
  }

  // ----- reclamation terminates

  /** Passes a record still has to go through: none when gone, two while its status must be recovered first. */
  function Rank(rec: Option<Record>): nat {
    match rec
    case None => 0
    case Some(r) => if Recovering(r.status) then 2 else 1
  }

  /** The manager answers with its machines, and every deallocation works. */
  predicate Answers(w: World, store: Hash, id: Id)
    requires id in store
  {
    w.reply(id).Info? && AllFreed(store[id], w.freed(id))
  }

  /** An unbroken pass that comes to a record after its expiration lowers its rank, if that record's manager answers and its machines are freed. */
  lemma PassLowersRank(store: Hash, order: seq<Id>, w: World, id: Id)
    requires Enumerates(order, store) && Unbroken(store, order, w)
    requires id in store && Answers(w, store, id) && store[id].expiration <= w.at(id)
    ensures Rank(Get(Pass(store, order, w), id)) < Rank(Some(store[id]))
  {
    PassIsPointwise(store, order, w, id);
  }

  /** No unbroken pass raises it, unless it starts a deallocation that fails. */
  lemma PassKeepsRank(store: Hash, order: seq<Id>, w: World, id: Id)
    requires Enumerates(order, store) && Unbroken(store, order, w) && id in store
    requires Visit(store[id], w.at(id), w.reply(id)).Release? ==> AllFreed(store[id], w.freed(id))
    ensures Rank(Get(Pass(store, order, w), id)) <= Rank(Some(store[id]))
  {
    PassIsPointwise(store, order, w, id);
  }
}
