/** How the attempt count relates to the outcomes that were recorded. */
module DispatchBudget {
  import opened Ordering
  import opened Entities
  import opened Outbox
  import opened Dispatch
  import opened DispatchSafety
  import DispatchLease

  function InFlight(s: State): set<Claim> {
    set w, c | w in s.workers && c in s.workers[w].queue :: c
  }

  /** The `n`-th claim of a row since it was last replayed. */
  function Token(s: State, id: Id, n: nat): Claim
    requires id in s.rows
  {
    Claim(id, s.rows[id].event, n, Epoch(s, id))
  }

  /** Every claim of a pending row since its last replay is written back, lost or still in flight. */
  ghost predicate Accounted(s: State) {
    forall id, n: nat | IsPending(s.rows, id) && 1 <= n <= s.rows[id].attempts ::
      Token(s, id, n) in s.recorded || Token(s, id, n) in s.lost || Token(s, id, n) in InFlight(s)
  }

  /** A failure is written back as a retry only below the attempt limit. */
  ghost predicate RetriesBelowLimit(cfg: Config, s: State) {
    forall c | c in s.recorded :: c.attempts < cfg.maxAttempts
  }

  lemma TakeAccounted(cfg: Config, s: State, w: WorkerId, order: seq<Id>)
    requires Usable(cfg) && Enabled(cfg, s, Take(w, order)) && Accounted(s)
    ensures Accounted(Apply(cfg, s, Take(w, order)))
  {
    var t := Apply(cfg, s, Take(w, order));
    var queue := t.workers[w].queue;
    forall c | c in InFlight(s) ensures c in InFlight(t) {
      var v :| v in s.workers && c in s.workers[v].queue;
      assert t.workers[v] == s.workers[v];
    }
    forall id, n: nat | IsPending(t.rows, id) && 1 <= n <= t.rows[id].attempts
      ensures Token(t, id, n) in t.recorded || Token(t, id, n) in t.lost || Token(t, id, n) in InFlight(t)
    {
      assert Token(t, id, n) == Token(s, id, n);
      if n > s.rows[id].attempts {
        assert id in (set i | i in order);
        var k :| 0 <= k < |order| && order[k] == id;
        assert queue[k] == Token(t, id, n) && queue[k] in queue;
      }
    }
  }

  /** A dispatcher finishing with the head of its queue leaves the other claims in flight. */
  lemma HeadGone(s: State, t: State, w: WorkerId)
    requires Busy(s, w) && t.workers == s.workers[w := Next(s.workers[w])]
    ensures forall c | c in InFlight(s) :: c == s.workers[w].queue[0] || c in InFlight(t)
  {
    var q := s.workers[w].queue;
    forall c | c in InFlight(s) ensures c == q[0] || c in InFlight(t) {
      var v :| v in s.workers && c in s.workers[v].queue;
      if v == w {
        assert q == [q[0]] + q[1..];
        assert t.workers[w].queue == q[1..];
      } else {
        assert t.workers[v] == s.workers[v];
      }
    }
  }

  lemma AccountedStep(cfg: Config, s: State, step: Step)
    requires Usable(cfg) && Enabled(cfg, s, step) && Accounted(s)
    ensures Accounted(Apply(cfg, s, step))
  {
    var t := Apply(cfg, s, step);
    match step
    case Take(w, order) => TakeAccounted(cfg, s, w, order);
    case Report(w) => HeadGone(s, t, w); SameTokens(s, t);
    case LoseWrite(w) => HeadGone(s, t, w); SameTokens(s, t);
    case Crash(w) =>
      forall c | c in InFlight(s) ensures c in t.lost || c in InFlight(t) {
        var v :| v in s.workers && c in s.workers[v].queue;
        assert v != w ==> t.workers[v] == s.workers[v];
      }
      SameTokens(s, t);
    case Tick(d) =>
      SameQueues(s, t);
      SameTokens(s, t);
    case Begin(w) => SameQueues(s, t); SameTokens(s, t);
    case Respond(w, _, _) => SameQueues(s, t); SameTokens(s, t);
    case Enqueue(_) => SameTokens(s, t);
    case Purge(_) => SameTokens(s, t);
    case Replay(id) =>
      assert InFlight(t) == InFlight(s);
      forall i, n: nat | IsPending(t.rows, i) && 1 <= n <= t.rows[i].attempts
        ensures Token(t, i, n) == Token(s, i, n) && IsPending(s.rows, i) && s.rows[i].attempts == t.rows[i].attempts
      {
      }
  }

  lemma SameQueues(s: State, t: State)
    requires forall w | w in s.workers :: w in t.workers && t.workers[w].queue == s.workers[w].queue
    ensures InFlight(s) <= InFlight(t)
  {
  }

  /** No row gains a claim and no claim goes missing. */
  lemma SameTokens(s: State, t: State)
    requires Accounted(s) && t.replays == s.replays
    requires forall id | IsPending(t.rows, id) ::
               (IsPending(s.rows, id)
                && t.rows[id].attempts == s.rows[id].attempts && t.rows[id].event == s.rows[id].event)
               || t.rows[id].attempts == 0
    requires forall c | c in s.recorded || c in s.lost || c in InFlight(s) ::
               c in t.recorded || c in t.lost || c in InFlight(t) || !IsPending(t.rows, c.id)
    ensures Accounted(t)
  {
    forall id, n: nat | IsPending(t.rows, id) && 1 <= n <= t.rows[id].attempts
      ensures Token(t, id, n) in t.recorded || Token(t, id, n) in t.lost || Token(t, id, n) in InFlight(t)
    {
      assert Token(t, id, n) == Token(s, id, n);
    }
  }

  lemma {:induction false} AccountedAlways(cfg: Config, states: seq<State>, steps: seq<Step>, k: nat)
    requires Usable(cfg) && FullRun(cfg, states, steps) && k < |states|
    ensures Accounted(states[k]) && RetriesBelowLimit(cfg, states[k])
  {
    if k > 0 {
      AccountedAlways(cfg, states, steps, k - 1);
      AccountedStep(cfg, states[k - 1], steps[k - 1]);
    }
  }

  /** The claims since the last replay whose outcome is lost or still open. */
  function Open(s: State, id: Id): set<nat>
    requires id in s.rows
  {
    set n | 1 <= n <= s.rows[id].attempts && (Token(s, id, n) in s.lost || Token(s, id, n) in InFlight(s))
  }

  /**
   In every state of every run, a pending row has been claimed at most one time fewer than the
   attempt limit, plus once for each claim whose outcome is lost or still open.
   */
  lemma AttemptBudget(cfg: Config, states: seq<State>, steps: seq<Step>, k: nat, id: Id)
    requires Usable(cfg) && FullRun(cfg, states, steps) && k < |states| && IsPending(states[k].rows, id)
    ensures states[k].rows[id].attempts <= cfg.maxAttempts - 1 + |Open(states[k], id)|
  {
    var s := states[k];
    AccountedAlways(cfg, states, steps, k);
    var claims, below := Numbers(1, s.rows[id].attempts), Numbers(1, cfg.maxAttempts - 1);
    assert claims <= below + Open(s, id) by {
      forall n | n in claims ensures n in below || n in Open(s, id) {
        assert Token(s, id, n) in s.recorded || n in Open(s, id);
      }
    }
    Subset(claims, below + Open(s, id));
  }

  /** Under punctual dispatchers a claim in flight is the row's latest. */
  ghost predicate Latest(s: State) {
    forall c | c in InFlight(s) :: c.id in s.rows && c == Token(s, c.id, s.rows[c.id].attempts)
  }

  lemma LatestStep(cfg: Config, s: State, step: Step)
    requires Usable(cfg) && Enabled(cfg, s, step) && DispatchLease.Leased(cfg, s) && Latest(s)
    ensures Latest(Apply(cfg, s, step))
  {
    var t := Apply(cfg, s, step);
    forall c | c in InFlight(t) ensures c.id in t.rows && c == Token(t, c.id, t.rows[c.id].attempts) {
      var v :| v in t.workers && c in t.workers[v].queue;
      if step.Take? && step.worker == v {
        assert c.id in step.order;
        assert (set i | i in step.order) == Claimable(s.rows, s.now, cfg.batch);
      } else {
        assert v in s.workers && c in s.workers[v].queue;
        assert c in InFlight(s);
        LatestKept(cfg, s, step, v, c);
      }
    }
  }

  lemma LatestKept(cfg: Config, s: State, step: Step, v: WorkerId, c: Claim)
    requires Usable(cfg) && Enabled(cfg, s, step) && DispatchLease.Leased(cfg, s)
    requires v in s.workers && c in s.workers[v].queue && c.id in s.rows && c == Token(s, c.id, s.rows[c.id].attempts)
    ensures var t := Apply(cfg, s, step);
            c.id in t.rows && c == Token(t, c.id, t.rows[c.id].attempts)
  {
    var t := Apply(cfg, s, step);
    assert DispatchLease.Holding(cfg, s.now, s.rows, s.workers[v]);
    assert c.id in DispatchLease.Ids(s.workers[v].queue);
    assert IsPending(s.rows, c.id);
    if step.Take? {
      DispatchLease.HeldNotClaimable(cfg, s, s.workers[v]);
    }
  }

  lemma {:induction false} LatestAlways(cfg: Config, states: seq<State>, steps: seq<Step>, k: nat)
    requires Usable(cfg) && DispatchLease.PunctualRun(cfg, states, steps) && k < |states|
    ensures Latest(states[k])
  {
    if k > 0 {
      LatestAlways(cfg, states, steps, k - 1);
      DispatchLease.LeasedAlways(cfg, states, steps, k - 1);
      LatestStep(cfg, states[k - 1], steps[k - 1]);
    }
  }

  /**
   With punctual dispatchers and no lost outcome since its last replay, a row is never claimed more
   often than the limit, and waits for its next claim only while below it.
   */
  lemma BudgetWithoutLoss(cfg: Config, states: seq<State>, steps: seq<Step>, k: nat, id: Id)
    requires Usable(cfg) && DispatchLease.PunctualRun(cfg, states, steps) && k < |states|
    requires IsPending(states[k].rows, id)
    requires forall c | c in states[k].lost :: c.id != id || c.epoch != Epoch(states[k], id)
    ensures states[k].rows[id].attempts <= cfg.maxAttempts
    ensures (forall c | c in InFlight(states[k]) :: c.id != id) ==> states[k].rows[id].attempts < cfg.maxAttempts
  {
    var s := states[k];
    var n := s.rows[id].attempts;
    AccountedAlways(cfg, states, steps, k);
    LatestAlways(cfg, states, steps, k);
    if n >= 1 {
      assert Token(s, id, n) in s.recorded || Token(s, id, n) in InFlight(s);
    }
    if n >= 2 {
      assert Token(s, id, n - 1) !in InFlight(s);
      assert Token(s, id, n - 1) in s.recorded;
    }
  }

  /**
   A pending row leaves the queue exactly when an outcome of it is written that is a success or is
   final: a permanent failure, or any failure of a claim at the attempt limit.
   */
  lemma LeavesQueueExactly(cfg: Config, s: State, step: Step, id: Id)
    requires Usable(cfg) && Enabled(cfg, s, step) && IsPending(s.rows, id)
    ensures !IsPending(Apply(cfg, s, step).rows, id) <==>
              && Reporting(s, step, id)
              && var head, verdict := s.workers[step.worker].queue[0], s.workers[step.worker].phase.verdict;
                 verdict.Accepted? || Final(cfg, head, verdict)
  {
  }

  /** The outcome of the last allowed claim takes the row out of the queue, whatever it is. */
  lemma LastClaimLeavesQueue(cfg: Config, s: State, w: WorkerId)
    requires Usable(cfg) && Enabled(cfg, s, Report(w)) && s.workers[w].queue[0].attempts >= cfg.maxAttempts
    ensures !IsPending(Apply(cfg, s, Report(w)).rows, s.workers[w].queue[0].id)
  {
  }

  /**
   A delivery that kills its dispatcher in every send is never parked: a claim does not look at the
   attempt count, so the row stays pending after any number of attempts.
   */
  lemma {:induction false} CrashLoopNeverParks(cfg: Config, event: Delivery, n: nat)
    returns (states: seq<State>, steps: seq<Step>)
    requires Usable(cfg)
    ensures FullRun(cfg, states, steps)
    ensures var s := states[|states| - 1];
            s.rows.Keys == {0} && Due(s.rows[0], s.now) && s.rows[0].attempts == n && s.workers == map[]
  {
    if n == 0 {
      states := [Initial(0), Apply(cfg, Initial(0), Enqueue(event))];
      steps := [Enqueue(event)];
    } else {
      states, steps := CrashLoopNeverParks(cfg, event, n - 1);
      var s := states[|states| - 1];
      DispatchLease.OneRow(s.rows, 0, s.now, cfg.batch);
      states := Extend(cfg, states, steps, Take(0, [0]));
      steps := steps + [Take(0, [0])];
      states := Extend(cfg, states, steps, Begin(0));
      steps := steps + [Begin(0)];
      states := Extend(cfg, states, steps, Crash(0));
      steps := steps + [Crash(0)];
      states := Extend(cfg, states, steps, Tick(LeaseFor(cfg)));
      steps := steps + [Tick(LeaseFor(cfg))];
    }
  }
}
