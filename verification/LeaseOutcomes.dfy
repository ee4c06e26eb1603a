/** What a request, a release and an expiry pass leave in the store, written out record by record. */
module LeaseOutcomes {
  import opened PyLists
  import opened Leases
  import opened Expiry
  import LeaseRuns

  /** Machines of one manager, in the order of its reply. */
  predicate Listed(hardware: seq<Hardware>, endpoint: Endpoint, vms: seq<VmId>) {
    |hardware| == |vms| && forall i :: 0 <= i < |vms| ==> hardware[i] == Hardware(endpoint, vms[i])
  }

  // ----- a request

  /** The first manager that does not allocate, or the end of the list. */
  function FirstRefusal(offers: seq<Offer>): (k: nat)
    ensures k <= |offers| && (forall j :: 0 <= j < k ==> offers[j].outcome.Allocated?) && (k < |offers| ==> !offers[k].outcome.Allocated?)
  {
    if offers == [] || !offers[0].outcome.Allocated? then 0 else 1 + FirstRefusal(offers[1..])
  }

  /** What the managers before position `k` left: the last one's machines, and sixty seconds from its answer. */
  predicate LeftBy(rec: Record, offers: seq<Offer>, k: nat, now: int)
    requires k <= |offers| && forall j :: 0 <= j < k ==> offers[j].outcome.Allocated?
  {
    if k == 0 then rec.hardware == [] && rec.expiration == now + 60
    else Listed(rec.hardware, offers[k - 1].endpoint, offers[k - 1].outcome.vms) && rec.expiration == offers[k - 1].now + 60
  }

  /** The status says how the request went. */
  predicate StatusSays(rec: Record, offers: seq<Offer>, k: nat)
    requires k <= |offers|
  {
    && (rec.status == Success <==> k == |offers| || (offers[k].outcome.BadReply? && k > 0))
    && (rec.status == Exception <==> k < |offers| && offers[k].outcome.Failed?)
    && (rec.status == Cancelled <==> k < |offers| && offers[k].outcome.ClientGone?)
    && (rec.status == Allocating <==> k == 0 && k < |offers| && offers[k].outcome.BadReply?)
  }

  /** The managers up to `k` were carried into the record. */
  lemma {:induction false} CarriedTo(rec: Record, offers: seq<Offer>, k: nat)
    requires k <= |offers| && forall j :: 0 <= j < k ==> offers[j].outcome.Allocated?
    ensures k == 0 ==> Carry(rec, offers) == Carry(rec, offers[k..])
    ensures k > 0 ==>
      var o := offers[k - 1];
      var mid := Record(Success, o.now + 60, rec.endpoint, Details(o.endpoint, o.outcome.vms));
      Carry(rec, offers) == Carry(mid, offers[k..])
    decreases k
  {
    if k == 0 {
      assert offers[0..] == offers;
    } else {
      var first := offers[0];
      var next := Record(Success, first.now + 60, rec.endpoint, Details(first.endpoint, first.outcome.vms));
      assert offers[1..][k - 1..] == offers[k..];
      CarriedTo(next, offers[1..], k - 1);
    }
  }

  /** What a request makes of its new record. */
  lemma CarriedAs(rec: Record, offers: seq<Offer>, now: int)
    requires rec.status == Allocating && rec.hardware == [] && rec.expiration == now + 60 && offers != []
    ensures var (after, k) := (Carry(rec, offers), FirstRefusal(offers));
      after.endpoint == rec.endpoint && LeftBy(after, offers, k, now) && StatusSays(after, offers, k)
  {
    var k := FirstRefusal(offers);
    CarriedTo(rec, offers, k);
    if k < |offers| {
      assert offers[k..][0] == offers[k];
    } else {
      assert offers[k..] == [];
    }
  }

  /**
  A request for an identifier that is not known and that looks possible leaves a record that names the last
  manager, lists the machines of the last one that allocated before the first that did not, and says how it went.
  */
  lemma RequestOutcome(store: Hash, id: Id, offers: seq<Offer>, now: int)
    requires id !in store && offers != []
    ensures var after := Fulfil(store, id, true, offers, now);
      var k := FirstRefusal(offers);
      && after.Keys == store.Keys + {id} && (forall x <- store :: after[x] == store[x])
      && after[id].endpoint == Some(offers[|offers| - 1].endpoint)
      && LeftBy(after[id], offers, k, now)
      && StatusSays(after[id], offers, k)
  {
    CarriedAs(Record(Allocating, now + LEASE, Some(offers[|offers| - 1].endpoint), []), offers, now);
  }

  /** A known identifier, or a request that does not look possible, changes nothing. */
  lemma NoRequest(store: Hash, id: Id, possible: bool, offers: seq<Offer>, now: int)
    requires (possible ==> offers != []) && (id in store || !possible)
    ensures Fulfil(store, id, possible, offers, now) == store
  {
  }

  /** A release removes the record exactly if all of its machines could be deallocated, and touches nothing else. */
  lemma ReleaseOutcome(store: Hash, id: Id, works: nat)
    ensures var after := ReleaseLease(store, id, works);
      && (forall x :: x in after <==> x in store && (x == id ==> works < |store[id].hardware|))
      && (forall x <- after :: after[x] == store[x])
  {
  }

  // ----- the expiry pass

  predicate InRecovery(rec: Record) {
    rec.status != Received && rec.status != Allocating && rec.status != Success
  }

  /** The manager of the record is asked for its status. */
  predicate IsAsked(rec: Record, now: int) {
    InRecovery(rec) && rec.endpoint.Some? && rec.expiration >= now - 900
  }

  /** Its reply lacks what the pass reads from it, which ends the pass. */
  predicate Breaks(store: Hash, id: Id, w: World)
    requires id in store
  {
    IsAsked(store[id], w.at(id)) && w.reply(id) == Malformed
  }

  /** The pass comes to position `i`, that is, nothing before it ends it. */
  ghost predicate Reaches(store: Hash, order: seq<Id>, w: World, i: nat)
    requires i <= |order| && forall id <- order :: id in store
  {
    forall j :: 0 <= j < i ==> !Breaks(store, order[j], w)
  }

  lemma BreaksExactly(store: Hash, id: Id, w: World)
    requires id in store
    ensures Breaks(store, id, w) <==> Visit(store[id], w.at(id), w.reply(id)).Broken?
  {
  }

  lemma {:induction false} CutExactly(store: Hash, order: seq<Id>, k: nat, w: World, i: nat)
    requires k <= i <= |order| && (forall id <- order :: id in store)
    ensures i <= Cut(store, order, k, w) <==> forall j :: k <= j < i ==> !Breaks(store, order[j], w)
    decreases |order| - k
  {
    if k < |order| {
      BreaksExactly(store, order[k], w);
      if k < i && !Breaks(store, order[k], w) {
        CutExactly(store, order, k + 1, w, i);
      }
    }
  }

  lemma ReachesExactly(store: Hash, order: seq<Id>, w: World, i: nat)
    requires i <= |order| && forall id <- order :: id in store
    ensures Reaches(store, order, w, i) <==> i <= Cut(store, order, 0, w)
  {
    CutExactly(store, order, 0, w, i);
  }

  lemma WholeExactly(store: Hash, order: seq<Id>, w: World)
    requires forall id <- order :: id in store
    ensures Reaches(store, order, w, |order|) <==> Unbroken(store, order, w)
  {
    ReachesExactly(store, order, w, |order|);
    if Unbroken(store, order, w) {
      CutWhenUnbroken(store, order, 0, w);
    } else {
      var id :| id in order && Visit(store[id], w.at(id), w.reply(id)).Broken?;
      var i :| 0 <= i < |order| && order[i] == id;
      CutWhenBroken(store, order, 0, w);
    }
  }

  /** The pass goes past position `i`: it comes to it, and the record there does not end it. */
  ghost predicate Passes(store: Hash, order: seq<Id>, w: World, i: nat)
    requires i < |order| && forall id <- order :: id in store
  {
    Reaches(store, order, w, i + 1)
  }

  /** What a record that the pass goes past becomes. */
  lemma PassedAs(store: Hash, order: seq<Id>, w: World, i: nat)
    requires Enumerates(order, store) && i < |order| && Passes(store, order, w, i)
    ensures var id := order[i];
      Get(Pass(store, order, w), id) ==
        if Reaches(store, order, w, |order|) then After(store[id], w.at(id), w.reply(id), w.freed(id))
        else Scanned(store[id], w.at(id), w.reply(id))
  {
    ReachesExactly(store, order, w, i + 1);
    WholeExactly(store, order, w);
    PassAt(store, order, w, i);
  }

  /** Where the pass does not come, or where it ends, nothing changes. */
  lemma BeyondOutcome(store: Hash, order: seq<Id>, w: World, i: nat)
    requires Enumerates(order, store) && i < |order| && !Passes(store, order, w, i)
    ensures order[i] in store && Get(Pass(store, order, w), order[i]) == Some(store[order[i]])
  {
    ReachesExactly(store, order, w, i + 1);
    WholeExactly(store, order, w);
    assert order[i] in order;
    PassAt(store, order, w, i);
  }

  /**
  A record in recovery goes if it names no manager or is more than fifteen minutes past its expiration. Else
  its manager's answer decides: unreachable makes it unknown; machines make it a success that lists them, for
  another sixty seconds; nothing drops it if it has expired and leaves it if not.
  */
  lemma RecoveryOutcome(store: Hash, order: seq<Id>, w: World, i: nat)
    requires Enumerates(order, store) && i < |order| && Passes(store, order, w, i) && InRecovery(store[order[i]])
    ensures var (id, rec) := (order[i], store[order[i]]);
      var after := Get(Pass(store, order, w), id);
      && (!IsAsked(rec, w.at(id)) ==> after == None)
      && (IsAsked(rec, w.at(id)) && w.reply(id) == Unreachable ==> after == Some(rec.(status := Unknown)))
      && (IsAsked(rec, w.at(id)) && w.reply(id).Info? ==>
            && after.Some? && after.value.status == Success && after.value.expiration == w.at(id) + 60
            && after.value.endpoint == rec.endpoint && Listed(after.value.hardware, rec.endpoint.value, w.reply(id).vms))
      && (IsAsked(rec, w.at(id)) && w.reply(id) == Empty ==> after == if rec.expiration <= w.at(id) then None else Some(rec))
  {
    PassedAs(store, order, w, i);
    BreaksExactly(store, order[i], w);
    assert !Breaks(store, order[i], w);
  }

  /** A request under way goes when it expires, and is left alone until then. */
  lemma PendingOutcome(store: Hash, order: seq<Id>, w: World, i: nat)
    requires Enumerates(order, store) && i < |order| && Passes(store, order, w, i)
    requires store[order[i]].status == Received || store[order[i]].status == Allocating
    ensures var (id, rec) := (order[i], store[order[i]]);
      Get(Pass(store, order, w), id) == if rec.expiration <= w.at(id) then None else Some(rec)
  {
    PassedAs(store, order, w, i);
  }

  /**
  A lease is left alone until it expires. Then it is deallocating; and unless the pass is cut short, it goes
  if all of its machines could be deallocated, and is an error otherwise.
  */
  lemma LeaseOutcome(store: Hash, order: seq<Id>, w: World, i: nat)
    requires Enumerates(order, store) && i < |order| && Passes(store, order, w, i) && store[order[i]].status == Success
    ensures var (id, rec) := (order[i], store[order[i]]);
      Get(Pass(store, order, w), id) ==
        if rec.expiration > w.at(id) then Some(rec)
        else if !Reaches(store, order, w, |order|) then Some(rec.(status := Deallocating))
        else if w.freed(id) >= |rec.hardware| then None
        else Some(rec.(status := ErrorDeallocating))
  {
    PassedAs(store, order, w, i);
  }

  /** A pass makes a record a success only when its own manager answered with machines, and lists those. */
  lemma SuccessNeedsAnAnswer(store: Hash, order: seq<Id>, w: World, id: Id)
    requires Enumerates(order, store) && id in store && store[id].status != Success
    requires id in Pass(store, order, w) && Pass(store, order, w)[id].status == Success
    ensures InRecovery(store[id]) && store[id].endpoint.Some? && w.reply(id).Info?
    ensures Listed(Pass(store, order, w)[id].hardware, store[id].endpoint.value, w.reply(id).vms)
  {
    var i :| 0 <= i < |order| && order[i] == id;
    if !Passes(store, order, w, i) {
      BeyondOutcome(store, order, w, i);
    } else if InRecovery(store[id]) {
      RecoveryOutcome(store, order, w, i);
      assert !Breaks(store, order[i], w);
    } else {
      PendingOutcome(store, order, w, i);
    }
  }

  // ----- a heartbeat

  /** A heartbeat with nothing in between gives a successful lease another sixty seconds; for anything else it changes nothing. */
  lemma HeartbeatOutcome(s: LeaseRuns.State, t: nat, id: Id, now: int)
    requires t !in s.beats
    ensures var s1 := LeaseRuns.Next(s, LeaseRuns.BeatReads(t, id, now));
      && s1.store == s.store
      && (t in s1.beats <==> id in s.store && s.store[id].status == Success)
      && (t !in s1.beats ==> s1 == s)
      && (t in s1.beats ==>
            LeaseRuns.Next(s1, LeaseRuns.BeatWrites(t)) == s.(store := s.store[id := s.store[id].(expiration := now + 60)]))
  {
    var s1 := LeaseRuns.Next(s, LeaseRuns.BeatReads(t, id, now));
    if t in s1.beats {
      assert s1.beats - {t} == s.beats;
    }
  }
}
