/** The lease keeps a delivery with one dispatcher, as long as dispatchers are punctual. */
module DispatchLease {
  import opened Entities
  import opened Outbox
  import opened Dispatch

  /**
   The timing hypothesis: a send takes at most the timeout, and what a batch spends outside its
   sends (claim latency and outcome writes) stays below the poll interval.
   */
  predicate Punctual(cfg: Config, s: State, step: Step) {
    step.Tick? ==>
      forall w | w in s.workers && s.workers[w].queue != [] ::
        if s.workers[w].phase.Sending? then s.workers[w].phase.elapsed + step.duration <= cfg.timeout
        else s.workers[w].overhead + step.duration < cfg.poll
  }

  ghost predicate PunctualRun(cfg: Config, states: seq<State>, steps: seq<Step>)
    requires Usable(cfg)
  {
    FullRun(cfg, states, steps) && forall k :: 0 <= k < |steps| ==> Punctual(cfg, states[k], steps[k])
  }

  function Elapsed(w: Worker): nat {
    if w.phase.Sending? then w.phase.elapsed else 0
  }

  /** Sends of the batch that are over. */
  function Finished(w: Worker): int {
    w.size - |w.queue| + (if w.phase.Writing? then 1 else 0)
  }

  /** A dispatcher that is still inside the time its lease covers. */
  ghost predicate InTime(cfg: Config, now: Time, w: Worker) {
    && |w.queue| <= w.size <= cfg.batch
    && w.overhead < cfg.poll
    && (w.phase.Sending? ==> w.phase.elapsed <= cfg.timeout)
    && now <= w.claimedAt + w.overhead + Finished(w) * cfg.timeout + Elapsed(w)
  }

  function Ids(queue: seq<Claim>): set<Id> {
    set c | c in queue :: c.id
  }

  /** The rows of a batch are pending, and their next attempt is the end of its lease. */
  ghost predicate Held(cfg: Config, rows: Rows, w: Worker)
    requires Usable(cfg)
  {
    forall i | i in Ids(w.queue) :: IsPending(rows, i) && rows[i].nextAttemptAt == w.claimedAt + LeaseFor(cfg)
  }

  ghost predicate Distinct(queue: seq<Claim>) {
    forall i, j :: 0 <= i < j < |queue| ==> queue[i].id != queue[j].id
  }

  ghost predicate Holding(cfg: Config, now: Time, rows: Rows, w: Worker)
    requires Usable(cfg)
  {
    w.queue != [] ==> InTime(cfg, now, w) && Held(cfg, rows, w) && Distinct(w.queue)
  }

  ghost predicate Exclusive(workers: map<WorkerId, Worker>) {
    forall v, w | v in workers && w in workers && v != w :: Ids(workers[v].queue) !! Ids(workers[w].queue)
  }

  ghost predicate Leased(cfg: Config, s: State)
    requires Usable(cfg)
  {
    && (forall w | w in s.workers :: Holding(cfg, s.now, s.rows, s.workers[w]))
    && Exclusive(s.workers)
    && (forall i | i in s.rows :: i < s.nextId)
  }

  lemma MulMono(a: int, b: int, t: int)
    requires a <= b && t > 0
    ensures a * t <= b * t
  {
  }

  /** While it holds a batch, a dispatcher's lease has not run out. */
  lemma LeaseCovers(cfg: Config, now: Time, w: Worker)
    requires Usable(cfg) && InTime(cfg, now, w) && w.queue != []
    ensures now < w.claimedAt + LeaseFor(cfg)
  {
    var f := Finished(w);
    if w.phase.Sending? {
      assert (f + 1) * cfg.timeout == f * cfg.timeout + cfg.timeout;
      MulMono(f + 1, cfg.batch, cfg.timeout);
    } else {
      MulMono(f, cfg.batch, cfg.timeout);
    }
  }

  /** A held row is not due, so no claim can take it. */
  lemma HeldNotClaimable(cfg: Config, s: State, w: Worker)
    requires Usable(cfg) && Holding(cfg, s.now, s.rows, w)
    ensures Ids(w.queue) !! Claimable(s.rows, s.now, cfg.batch)
  {
    if w.queue != [] {
      LeaseCovers(cfg, s.now, w);
    }
  }

  lemma ListSize(order: seq<Id>, ids: set<Id>)
    requires Lists(order, ids)
    ensures |order| == |ids|
    decreases |order|
  {
    if order == [] {
      assert ids == {};
    } else {
      var last := order[|order| - 1];
      var front := order[..|order| - 1];
      assert order == front + [last];
      assert (set i | i in front) == ids - {last};
      ListSize(front, ids - {last});
    }
  }

  /** A fresh batch starts inside its lease. */
  lemma FreshBatch(cfg: Config, s: State, w: WorkerId, order: seq<Id>)
    requires Usable(cfg) && Enabled(cfg, s, Take(w, order))
    ensures var t := Apply(cfg, s, Take(w, order));
            Holding(cfg, t.now, t.rows, t.workers[w]) && Ids(t.workers[w].queue) == Claimable(s.rows, s.now, cfg.batch)
  {
    var t := Apply(cfg, s, Take(w, order));
    var queue := t.workers[w].queue;
    var taken := Claimable(s.rows, s.now, cfg.batch);
    ClaimSize(s.rows, s.now, cfg.batch);
    ListSize(order, taken);
    assert Ids(queue) == taken by {
      assert forall c | c in queue :: c.id in order;
      forall i | i in order ensures i in Ids(queue) {
        var k :| 0 <= k < |order| && order[k] == i;
        assert queue[k] in queue && queue[k].id == i;
      }
      assert taken == (set i | i in order);
    }
    assert InTime(cfg, t.now, t.workers[w]);
  }

  lemma TakeLeased(cfg: Config, s: State, w: WorkerId, order: seq<Id>)
    requires Usable(cfg) && Enabled(cfg, s, Take(w, order)) && Leased(cfg, s)
    ensures Leased(cfg, Apply(cfg, s, Take(w, order)))
  {
    var t := Apply(cfg, s, Take(w, order));
    FreshBatch(cfg, s, w, order);
    forall v | v in s.workers && v != w
      ensures Ids(s.workers[v].queue) !! Ids(t.workers[w].queue)
      ensures Holding(cfg, t.now, t.rows, t.workers[v])
    {
      HeldNotClaimable(cfg, s, s.workers[v]);
    }
  }

  /** An outcome touches its own row only, and the rest of the batch stays held. */
  lemma NextLeased(cfg: Config, s: State, t: State, w: WorkerId)
    requires Usable(cfg) && Leased(cfg, s) && Busy(s, w) && s.workers[w].phase.Writing?
    requires t.workers == s.workers[w := Next(s.workers[w])] && t.now == s.now && t.nextId == s.nextId
    requires t.rows.Keys == s.rows.Keys
    requires forall i | i in s.rows && i != s.workers[w].queue[0].id :: t.rows[i] == s.rows[i]
    ensures Leased(cfg, t)
  {
    var b := s.workers[w];
    assert Holding(cfg, s.now, s.rows, b);
    assert b.queue[0] in b.queue && b.queue[0].id in Ids(b.queue);
    assert Ids(b.queue[1..]) <= Ids(b.queue);
    forall v | v in s.workers && v != w ensures Holding(cfg, t.now, t.rows, t.workers[v]) {
      assert Holding(cfg, s.now, s.rows, s.workers[v]);
      assert Ids(s.workers[v].queue) !! Ids(b.queue);
    }
    assert Finished(t.workers[w]) == Finished(b) && b.queue[0].id !in Ids(b.queue[1..]);
    assert Holding(cfg, t.now, t.rows, t.workers[w]);
  }

  lemma TickLeased(cfg: Config, s: State, d: nat)
    requires Usable(cfg) && Leased(cfg, s) && Punctual(cfg, s, Tick(d))
    ensures Leased(cfg, Apply(cfg, s, Tick(d)))
  {
    var t := Apply(cfg, s, Tick(d));
    forall w | w in t.workers
      ensures Holding(cfg, t.now, t.rows, t.workers[w]) && t.workers[w].queue == s.workers[w].queue
    {
      assert Holding(cfg, s.now, s.rows, s.workers[w]);
      assert Finished(t.workers[w]) == Finished(s.workers[w]);
    }
  }

  /** Moving the head of a queue into or out of a send keeps the dispatcher in time. */
  lemma PhaseLeased(cfg: Config, s: State, t: State, w: WorkerId, phase: Phase)
    requires Usable(cfg) && Leased(cfg, s) && Busy(s, w)
    requires (s.workers[w].phase.Ready? && phase == Sending(0)) || (s.workers[w].phase.Sending? && phase.Writing?)
    requires t.rows == s.rows && t.now == s.now && t.nextId == s.nextId
    requires t.workers == s.workers[w := s.workers[w].(phase := phase)]
    ensures Leased(cfg, t)
  {
    var b := s.workers[w];
    assert Holding(cfg, s.now, s.rows, b);
    assert (Finished(b) + 1) * cfg.timeout == Finished(b) * cfg.timeout + cfg.timeout;
    assert InTime(cfg, t.now, t.workers[w]);
    assert Held(cfg, t.rows, t.workers[w]);
    forall v | v in s.workers && v != w ensures Holding(cfg, t.now, t.rows, t.workers[v]) {
      assert Holding(cfg, s.now, s.rows, s.workers[v]);
    }
  }

  /** Steps that leave every pending row and every dispatcher's batch alone. */
  lemma OthersLeased(cfg: Config, s: State, t: State)
    requires Usable(cfg) && Leased(cfg, s)
    requires t.now == s.now && forall w | w in t.workers :: w in s.workers && t.workers[w] == s.workers[w]
    requires forall i | IsPending(s.rows, i) :: i in t.rows && t.rows[i] == s.rows[i]
    requires forall i | i in t.rows :: i < t.nextId
    ensures Leased(cfg, t)
  {
  }

  lemma LeasedStep(cfg: Config, s: State, step: Step)
    requires Usable(cfg) && Enabled(cfg, s, step) && Leased(cfg, s) && Punctual(cfg, s, step)
    ensures Leased(cfg, Apply(cfg, s, step))
  {
    var t := Apply(cfg, s, step);
    match step
    case Take(w, order) => TakeLeased(cfg, s, w, order);
    case Report(w) => NextLeased(cfg, s, t, w);
    case LoseWrite(w) => NextLeased(cfg, s, t, w);
    case Tick(d) => TickLeased(cfg, s, d);
    case Begin(w) => PhaseLeased(cfg, s, t, w, t.workers[w].phase);
    case Respond(w, _, _) => PhaseLeased(cfg, s, t, w, t.workers[w].phase);
    case Enqueue(_) => OthersLeased(cfg, s, t);
    case Crash(_) => OthersLeased(cfg, s, t);
    case Replay(_) => OthersLeased(cfg, s, t);
    case Purge(_) => OthersLeased(cfg, s, t);
  }

  lemma {:induction false} LeasedAlways(cfg: Config, states: seq<State>, steps: seq<Step>, k: nat)
    requires Usable(cfg) && PunctualRun(cfg, states, steps) && k < |states|
    ensures Leased(cfg, states[k])
  {
    if k > 0 {
      LeasedAlways(cfg, states, steps, k - 1);
      LeasedStep(cfg, states[k - 1], steps[k - 1]);
    }
  }

  /** No delivery is ever in flight at two dispatchers, nor twice at one. */
  lemma MutualExclusion(
    cfg: Config, states: seq<State>, steps: seq<Step>, k: nat, v: WorkerId, w: WorkerId, i: nat, j: nat)
    requires Usable(cfg) && PunctualRun(cfg, states, steps) && k < |states|
    requires v in states[k].workers && w in states[k].workers
    requires i < |states[k].workers[v].queue| && j < |states[k].workers[w].queue|
    requires states[k].workers[v].queue[i].id == states[k].workers[w].queue[j].id
    ensures v == w && i == j
  {
    LeasedAlways(cfg, states, steps, k);
    var s := states[k];
    assert Holding(cfg, s.now, s.rows, s.workers[v]);
    assert s.workers[v].queue[i] in s.workers[v].queue && s.workers[w].queue[j] in s.workers[w].queue;
    assert s.workers[v].queue[i].id in Ids(s.workers[v].queue) && s.workers[w].queue[j].id in Ids(s.workers[w].queue);
  }

  /** No claim takes a row between another dispatcher's claim of it and that dispatcher's outcome. */
  lemma NoReclaim(cfg: Config, states: seq<State>, steps: seq<Step>, k: nat, v: WorkerId, c: Claim)
    requires Usable(cfg) && PunctualRun(cfg, states, steps) && k < |steps| && steps[k].Take?
    requires v in states[k].workers && c in states[k].workers[v].queue
    ensures c.id !in steps[k].order
    ensures c.id in states[k].rows && states[k + 1].rows[c.id] == states[k].rows[c.id]
  {
    LeasedAlways(cfg, states, steps, k);
    HeldNotClaimable(cfg, states[k], states[k].workers[v]);
    assert c.id in Ids(states[k].workers[v].queue);
    assert (set i | i in steps[k].order) == Claimable(states[k].rows, states[k].now, cfg.batch);
  }

  /** A late dispatcher voids it: after the lease both hold the row. */
  lemma LatenessBreaksExclusion(cfg: Config, event: Delivery)
    returns (states: seq<State>, steps: seq<Step>)
    requires Usable(cfg)
    ensures FullRun(cfg, states, steps) && !Exclusive(states[|states| - 1].workers)
  {
    states, steps := [Initial(0)], [];
    states := Extend(cfg, states, steps, Enqueue(event));
    steps := steps + [Enqueue(event)];
    OneRow(states[1].rows, 0, 0, cfg.batch);
    states := Extend(cfg, states, steps, Take(0, [0]));
    steps := steps + [Take(0, [0])];
    states := Extend(cfg, states, steps, Tick(LeaseFor(cfg)));
    steps := steps + [Tick(LeaseFor(cfg))];
    OneRow(states[3].rows, 0, states[3].now, cfg.batch);
    states := Extend(cfg, states, steps, Take(1, [0]));
    steps := steps + [Take(1, [0])];
    BothHold(states[4].workers, 0, 1, 0);
  }

  /** Two queues that start with the same row. */
  lemma BothHold(workers: map<WorkerId, Worker>, v: WorkerId, w: WorkerId, id: Id)
    requires v in workers && w in workers && v != w && workers[v].queue != [] && workers[w].queue != []
    requires workers[v].queue[0].id == id == workers[w].queue[0].id
    ensures !Exclusive(workers)
  {
    assert workers[v].queue[0] in workers[v].queue && workers[w].queue[0] in workers[w].queue;
    assert id in Ids(workers[v].queue) && id in Ids(workers[w].queue);
  }

  lemma OneRow(rows: Rows, id: Id, now: Time, limit: int)
    requires rows.Keys == {id} && Due(rows[id], now) && limit > 0
    ensures Lists([id], Claimable(rows, now, limit))
  {
  }
}
