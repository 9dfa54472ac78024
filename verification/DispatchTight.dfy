/** The lease is no longer than it has to be: timing looser by a single instant breaks exclusion. */
module DispatchTight {
  import opened Ordering
  import opened Entities
  import opened Outbox
  import opened Dispatch
  import opened DispatchLease
  import Backoff

  /** As punctual, but a batch may spend the whole poll interval outside its sends. */
  predicate BarelyLate(cfg: Config, s: State, step: Step) {
    step.Tick? ==>
      forall w | w in s.workers && s.workers[w].queue != [] ::
        if s.workers[w].phase.Sending? then s.workers[w].phase.elapsed + step.duration <= cfg.timeout
        else s.workers[w].overhead + step.duration <= cfg.poll
  }

  ghost predicate BarelyLateRun(cfg: Config, states: seq<State>, steps: seq<Step>)
    requires Usable(cfg)
  {
    FullRun(cfg, states, steps) && forall k :: 0 <= k < |steps| ==> BarelyLate(cfg, states[k], steps[k])
  }

  lemma More(cfg: Config, states: seq<State>, steps: seq<Step>, step: Step) returns (longer: seq<State>)
    requires Usable(cfg) && BarelyLateRun(cfg, states, steps)
    requires Enabled(cfg, states[|steps|], step) && BarelyLate(cfg, states[|steps|], step)
    ensures longer == states + [Apply(cfg, states[|steps|], step)] && BarelyLateRun(cfg, longer, steps + [step])
  {
    longer := Extend(cfg, states, steps, step);
  }

  // ---- A full batch is queued and claimed ----

  ghost predicate Queued(s: State, n: nat) {
    && s.now == 0 && s.nextId == n && s.workers == map[]
    && (forall i: Id :: i in s.rows <==> i < n)
    && (forall i | i in s.rows :: s.rows[i].status.Pending? && s.rows[i].nextAttemptAt == 0)
  }

  lemma {:induction false} Fill(cfg: Config, event: Delivery, n: nat) returns (states: seq<State>, steps: seq<Step>)
    requires Usable(cfg)
    ensures BarelyLateRun(cfg, states, steps) && Queued(states[|steps|], n)
  {
    if n == 0 {
      states, steps := [Initial(0)], [];
    } else {
      states, steps := Fill(cfg, event, n - 1);
      states := More(cfg, states, steps, Enqueue(event));
      steps := steps + [Enqueue(event)];
    }
  }

  /** When no more rows are due than a batch holds, a claim takes them all. */
  lemma AllClaimable(rows: Rows, now: Time, n: nat)
    requires forall i: Id :: i in rows <==> i < n
    requires forall i | i in rows :: Due(rows[i], now)
    ensures Claimable(rows, now, n) == Numbers(0, n)
  {
    forall i | i in rows ensures |Ahead(rows, i)| < n {
      Subset(Ahead(rows, i) + {i}, Numbers(0, n));
    }
  }

  function Ascending(n: nat): (r: seq<Id>)
    ensures |r| == n && forall i :: 0 <= i < n ==> r[i] == i
  {
    seq(n, i requires 0 <= i < n => i)
  }

  lemma ListsAscending(n: nat)
    ensures Lists(Ascending(n), Numbers(0, n))
  {
    forall i: Id | i < n ensures i in Ascending(n) {
      assert Ascending(n)[i] == i;
    }
  }

  /** The dispatcher has worked off `j` of its batch, each in exactly the timeout. */
  ghost predicate Working(cfg: Config, s: State, j: nat)
    requires Usable(cfg)
  {
    && s.now == j * cfg.timeout && j < cfg.batch
    && s.workers.Keys == {0}
    && var b := s.workers[0];
    && b.claimedAt == 0 && b.phase.Ready? && b.overhead == 0 && |b.queue| == cfg.batch - j
    && (forall m :: 0 <= m < |b.queue| ==> b.queue[m].id == j + m)
    && (forall i: Id :: i in s.rows <==> i < cfg.batch)
    && (forall i | i in s.rows ::
          if i < j then s.rows[i].status.Delivered?
          else s.rows[i].status.Pending? && s.rows[i].nextAttemptAt == LeaseFor(cfg))
  }

  lemma TakeBatch(cfg: Config, event: Delivery) returns (states: seq<State>, steps: seq<Step>)
    requires Usable(cfg)
    ensures BarelyLateRun(cfg, states, steps) && Working(cfg, states[|steps|], 0)
  {
    states, steps := Fill(cfg, event, cfg.batch);
    var s, order := states[|steps|], Ascending(cfg.batch);
    AllClaimable(s.rows, 0, cfg.batch);
    ListsAscending(cfg.batch);
    states := More(cfg, states, steps, Take(0, order));
    steps := steps + [Take(0, order)];
    FreshWork(cfg, s, order);
  }

  lemma FreshWork(cfg: Config, s: State, order: seq<Id>)
    requires Usable(cfg) && Queued(s, cfg.batch) && order == Ascending(cfg.batch)
    requires Enabled(cfg, s, Take(0, order)) && Claimable(s.rows, s.now, cfg.batch) == Numbers(0, cfg.batch)
    ensures Working(cfg, Apply(cfg, s, Take(0, order)), 0)
  {
  }

  // ---- It is worked off on time ----

  /** The head of the queue has been posted and accepted; its outcome is still to be written. */
  ghost predicate Posted(cfg: Config, s: State, t: State)
    requires Usable(cfg)
  {
    && 0 in s.workers && t.rows == s.rows && t.now == s.now + cfg.timeout
    && t.workers.Keys == {0} && t.workers[0].phase.Writing? && t.workers[0].phase.verdict.Accepted?
    && t.workers[0].queue == s.workers[0].queue && t.workers[0].claimedAt == s.workers[0].claimedAt
    && t.workers[0].overhead == s.workers[0].overhead
  }

  lemma PostOne(cfg: Config, states: seq<State>, steps: seq<Step>, j: nat)
    returns (states': seq<State>, steps': seq<Step>)
    requires Usable(cfg) && BarelyLateRun(cfg, states, steps) && Working(cfg, states[|steps|], j)
    ensures BarelyLateRun(cfg, states', steps') && Posted(cfg, states[|steps|], states'[|steps'|])
  {
    states' := More(cfg, states, steps, Begin(0));
    steps' := steps + [Begin(0)];
    states' := More(cfg, states', steps', Tick(cfg.timeout));
    steps' := steps' + [Tick(cfg.timeout)];
    var done := Respond(0, Status(200), 0);
    assert Enabled(cfg, states'[|steps'|], done) by {
      var a := Attempts(states'[|steps'|], 0);
      Backoff.ScaledGrows(cfg.baseBackoff, 0, a - 1);
    }
    states' := More(cfg, states', steps', done);
    steps' := steps' + [done];
  }

  lemma {:induction false} WorkOff(cfg: Config, event: Delivery, j: nat)
    returns (states: seq<State>, steps: seq<Step>)
    requires Usable(cfg) && j < cfg.batch
    ensures BarelyLateRun(cfg, states, steps) && Working(cfg, states[|steps|], j)
  {
    if j == 0 {
      states, steps := TakeBatch(cfg, event);
    } else {
      states, steps := WorkOff(cfg, event, j - 1);
      var s := states[|steps|];
      states, steps := PostOne(cfg, states, steps, j - 1);
      ReportWorks(cfg, s, states[|steps|], j);
      states := More(cfg, states, steps, Report(0));
      steps := steps + [Report(0)];
    }
  }

  lemma ReportWorks(cfg: Config, s: State, t: State, j: nat)
    requires Usable(cfg) && 0 < j < cfg.batch && Working(cfg, s, j - 1) && Posted(cfg, s, t)
    ensures Enabled(cfg, t, Report(0)) && Working(cfg, Apply(cfg, t, Report(0)), j)
  {
    assert j * cfg.timeout == (j - 1) * cfg.timeout + cfg.timeout;
  }

  /**
   Full batches, sends of exactly the timeout, and a poll interval spent on everything else: the
   last row comes due while its dispatcher still holds it, and a second dispatcher claims it.
   */
  lemma LeaseIsTight(cfg: Config, event: Delivery) returns (states: seq<State>, steps: seq<Step>)
    requires Usable(cfg)
    ensures BarelyLateRun(cfg, states, steps) && !Exclusive(states[|steps|].workers)
  {
    var last := cfg.batch - 1;
    states, steps := WorkOff(cfg, event, last);
    var s := states[|steps|];
    states, steps := PostOne(cfg, states, steps, last);
    assert cfg.batch * cfg.timeout == last * cfg.timeout + cfg.timeout;
    states := More(cfg, states, steps, Tick(cfg.poll));
    steps := steps + [Tick(cfg.poll)];
    var t := states[|steps|];
    OnlyDue(t.rows, last, t.now, cfg.batch);
    states := More(cfg, states, steps, Take(1, [last]));
    steps := steps + [Take(1, [last])];
    BothHold(states[|steps|].workers, 0, 1, last);
  }

  lemma OnlyDue(rows: Rows, id: Id, now: Time, limit: int)
    requires id in rows && Due(rows[id], now) && limit > 0
    requires forall i | i in rows && i != id :: !rows[i].status.Pending?
    ensures Lists([id], Claimable(rows, now, limit))
  {
    assert Ahead(rows, id) == {};
  }
}
