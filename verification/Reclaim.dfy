/** Without heartbeats a lapsed lease disappears, whatever else the provisioner does in the meantime. */
module Reclaim {
  import opened PyLists
  import opened Leases
  import opened Expiry
  import opened LeaseRuns

  /**
  Nothing revives the record: no heartbeat of it is written, it is not requested anew, and a pass over it is
  neither cut short nor fails to free its machines. Other records, managers and clients do what they like.
  */
  ghost predicate Quiet(s: State, step: Step, id: Id)
    requires Enabled(s, step)
  {
    match step
    case Request(x, _, _, _) => x != id || id in s.store
    case BeatWrites(t) => s.beats[t].id != id
    case Expire(order, w) =>
      id in s.store ==>
        Unbroken(s.store, order, w) && (Visit(s.store[id], w.at(id), w.reply(id)).Release? ==> AllFreed(s.store[id], w.freed(id)))
    case _ => true
  }

  /** A pass comes to the record after its expiration, its manager answers, and its machines can be freed. */
  ghost predicate Effective(s: State, step: Step, id: Id) {
    && step.Expire? && Enumerates(step.order, s.store) && id in s.store && Unbroken(s.store, step.order, step.w)
    && Answers(step.w, s.store, id) && s.store[id].expiration <= step.w.at(id)
  }

  lemma QuietKeepsRank(s: State, step: Step, id: Id)
    requires Enabled(s, step) && Quiet(s, step, id)
    ensures Rank(Get(Next(s, step).store, id)) <= Rank(Get(s.store, id))
  {
    if step.Expire? {
      if id in s.store {
        PassKeepsRank(s.store, step.order, step.w, id);
      } else {
        PassAddsNothing(s.store, step.order, step.w, id);
      }
    }
  }

  lemma EffectiveLowersRank(s: State, step: Step, id: Id)
    requires Enabled(s, step) && Effective(s, step, id)
    ensures Rank(Get(Next(s, step).store, id)) < Rank(Get(s.store, id))
  {
    PassLowersRank(s.store, step.order, step.w, id);
  }

  ghost predicate AlwaysQuiet(s: State, steps: seq<Step>, id: Id)
    requires Runs(s, steps)
    decreases |steps|
  {
    steps == [] || (Quiet(s, steps[0], id) && AlwaysQuiet(Next(s, steps[0]), steps[1..], id))
  }

  ghost function EffectivePasses(s: State, steps: seq<Step>, id: Id): nat
    requires Runs(s, steps)
    decreases |steps|
  {
    if steps == [] then 0
    else (if Effective(s, steps[0], id) then 1 else 0) + EffectivePasses(Next(s, steps[0]), steps[1..], id)
  }

  /** Over any run that does not revive it, every effective pass takes the record one rank down, and nothing takes it up. */
  lemma {:induction false} EffectivePassesCount(s: State, steps: seq<Step>, id: Id)
    requires Runs(s, steps) && AlwaysQuiet(s, steps, id)
    ensures Rank(Get(Final(s, steps).store, id)) + EffectivePasses(s, steps, id) <= Rank(Get(s.store, id))
    decreases |steps|
  {
    if steps != [] {
      QuietKeepsRank(s, steps[0], id);
      if Effective(s, steps[0], id) {
        EffectiveLowersRank(s, steps[0], id);
      }
      EffectivePassesCount(Next(s, steps[0]), steps[1..], id);
    }
  }

  /** So it is gone after two of them, and after one if its status needs no recovery. */
  lemma TwoPassesReclaim(s: State, steps: seq<Step>, id: Id)
    requires Runs(s, steps) && AlwaysQuiet(s, steps, id)
    requires id in s.store ==> EffectivePasses(s, steps, id) >= if Recovering(s.store[id].status) then 2 else 1
    ensures id !in Final(s, steps).store
  {
    EffectivePassesCount(s, steps, id);
  }
}
