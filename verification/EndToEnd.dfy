/** From the users table to the receiver: store, outbox, dispatchers and receiver together. */
module EndToEnd {
  import opened Entities
  import opened Outbox
  import opened Dispatch
  import opened DispatchSafety
  import opened Convergence
  import GroupConvergence
  import Store

  /** The events put in the queue along a run, in order. */
  function Queued(steps: seq<Step>): seq<Delivery> {
    if steps == [] then []
    else
      var last := steps[|steps| - 1];
      Queued(steps[..|steps| - 1]) + (if last.Enqueue? then [last.event] else [])
  }

  /** Ids number the queued events, and only what was queued is ever acknowledged. */
  ghost predicate Numbered(s: State, events: seq<Delivery>) {
    && s.nextId == |events|
    && (forall i: Id :: i in s.enqueued <==> i < |events|)
    && (forall i | i in s.enqueued :: s.enqueued[i] == events[i])
    && (forall a | a in s.acked :: a.0 in s.enqueued && a.1 == s.enqueued[a.0])
  }

  lemma NumberedStep(cfg: Config, s: State, step: Step, events: seq<Delivery>)
    requires Usable(cfg) && Enabled(cfg, s, step) && Conserved(s) && Numbered(s, events)
    ensures Numbered(Apply(cfg, s, step), events + (if step.Enqueue? then [step.event] else []))
  {
  }

  lemma {:induction false} NumberedAlways(cfg: Config, states: seq<State>, steps: seq<Step>)
    requires Usable(cfg) && FullRun(cfg, states, steps)
    ensures Numbered(states[|steps|], Queued(steps))
    decreases |steps|
  {
    if steps != [] {
      var n := |steps| - 1;
      NumberedAlways(cfg, states[..n + 1], steps[..n]);
      ProvenAlways(cfg, states, steps, n);
      NumberedStep(cfg, states[n], steps[n], Queued(steps[..n]));
    }
  }

  /** Nothing waits and nothing is parked. */
  ghost predicate Drained(s: State) {
    forall i | i in s.rows :: s.rows[i].status.Delivered?
  }

  /** The receiver answered a post of this event with a status of 200 to 299. */
  ghost predicate Acknowledged(states: seq<State>, steps: seq<Step>, d: Delivery) {
    exists j: nat, id: Id :: Answered(states, steps, j, id, d)
  }

  /** What the receiver got: every post it so acknowledged, in any order, any number of times. */
  ghost predicate Received(states: seq<State>, steps: seq<Step>, arrivals: seq<Delivery>) {
    forall d :: d in arrivals <==> Acknowledged(states, steps, d)
  }

  lemma AcknowledgedIsAcked(cfg: Config, states: seq<State>, steps: seq<Step>, d: Delivery)
    requires Usable(cfg) && FullRun(cfg, states, steps)
    ensures Acknowledged(states, steps, d) <==> exists i :: (i, d) in states[|steps|].acked
  {
    forall i: Id
      ensures (i, d) in states[|steps|].acked <==> exists j: nat :: j < |steps| && Answered(states, steps, j, i, d)
    {
      AckedExactly(cfg, states, steps, |steps|, i, d);
    }
    if Acknowledged(states, steps, d) {
      var j: nat, i: Id :| Answered(states, steps, j, i, d);
      assert (i, d) in states[|steps|].acked;
    }
  }

  lemma DrainedIsDelivered(
    cfg: Config, states: seq<State>, steps: seq<Step>, events: seq<Delivery>, arrivals: seq<Delivery>)
    requires Usable(cfg) && FullRun(cfg, states, steps) && Numbered(states[|steps|], events)
    requires Drained(states[|steps|]) && Received(states, steps, arrivals)
    ensures Delivers(arrivals, events)
  {
    ProvenAlways(cfg, states, steps, |steps|);
    forall d ensures d in arrivals <==> exists i :: (i, d) in states[|steps|].acked {
      AcknowledgedIsAcked(cfg, states, steps, d);
    }
  }

  /**
   Whenever every queued event has left the pending and parked states, with dispatchers crashing,
   losing writes and posting twice along the way, a receiver that keeps the newest event per user
   holds exactly the users table.
   */
  lemma DrainedMeansConverged(
    store: Store.Config, txns: seq<Store.Txn>, cfg: Config, states: seq<State>, steps: seq<Step>,
    arrivals: seq<Delivery>)
    requires store.events && Store.Faithful(store.codec)
    requires AllFresh(Store.After(store, txns).tables.users, Store.After(store, txns).outbox)
    requires Usable(cfg) && FullRun(cfg, states, steps)
    requires Queued(steps) == Store.After(store, txns).outbox
    requires Drained(states[|steps|]) && Received(states, steps, arrivals)
    ensures ReceiveAll(arrivals, ById) == UsersCopy(Store.After(store, txns).tables.users)
  {
    NumberedAlways(cfg, states, steps);
    DrainedIsDelivered(cfg, states, steps, Queued(steps), arrivals);
    ReceiverConverges(store, txns, arrivals);
  }

  /** The same for groups, with deletes, wherever the clocks decide every group. */
  lemma DrainedGroupsConverged(
    store: Store.Config, txns: seq<Store.Txn>, cfg: Config, states: seq<State>, steps: seq<Step>,
    arrivals: seq<Delivery>)
    requires store.events && GroupConvergence.AllDecided(Store.After(store, txns))
    requires Usable(cfg) && FullRun(cfg, states, steps)
    requires Queued(steps) == Store.After(store, txns).outbox
    requires Drained(states[|steps|]) && Received(states, steps, arrivals)
    ensures GroupConvergence.Agrees(GroupConvergence.ReceiveAll(arrivals), Store.After(store, txns).tables)
  {
    NumberedAlways(cfg, states, steps);
    DrainedIsDelivered(cfg, states, steps, Queued(steps), arrivals);
    GroupConvergence.GroupsConvergeExactly(store, txns);
  }
}
