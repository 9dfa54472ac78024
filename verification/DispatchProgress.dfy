/** An overdue row cannot be starved: each claim takes it or works off the rows ahead of it. */
module DispatchProgress {
  import opened Ordering
  import opened Entities
  import opened Outbox
  import opened Dispatch
  import opened DispatchSafety
  import DispatchLease
  import Backoff

  predicate Overdue(s: State, id: Id) {
    IsPending(s.rows, id) && s.rows[id].nextAttemptAt < s.now
  }

  /** The step puts a row back in the queue for time `at`. */
  predicate Requeues(cfg: Config, s: State, step: Step, id: Id, at: Time) {
    && step.Report? && Busy(s, step.worker) && s.workers[step.worker].phase.Writing?
    && s.workers[step.worker].queue[0].id == id && s.workers[step.worker].phase.at == at
    && IsPending(s.rows, id)
    && !s.workers[step.worker].phase.verdict.Accepted?
    && !Final(cfg, s.workers[step.worker].queue[0], s.workers[step.worker].phase.verdict)
  }

  /** A retry time has not already passed when it is written. */
  ghost predicate Prompt(cfg: Config, s: State, step: Step) {
    forall id, at | Requeues(cfg, s, step, id, at) :: s.now <= at
  }

  /** No step moves a row ahead of an overdue one. */
  lemma AheadShrinks(cfg: Config, s: State, step: Step, id: Id)
    requires Usable(cfg) && Enabled(cfg, s, step) && Conserved(s) && Overdue(s, id) && Prompt(cfg, s, step)
    requires var t := Apply(cfg, s, step); id in t.rows && t.rows[id] == s.rows[id]
    ensures var t := Apply(cfg, s, step); Overdue(t, id) && Ahead(t.rows, id) <= Ahead(s.rows, id)
  {
    var t := Apply(cfg, s, step);
    if step.Report? {
      var head, phase := s.workers[step.worker].queue[0], s.workers[step.worker].phase;
      assert IsPending(s.rows, head.id) && !phase.verdict.Accepted? && !Final(cfg, head, phase.verdict) ==>
          Requeues(cfg, s, step, head.id, phase.at);
    }
    forall i | i in Ahead(t.rows, id) ensures i in Ahead(s.rows, id) {
    }
  }

  /** A claim that passes an overdue row by has taken exactly one batch from ahead of it. */
  lemma ClaimWorksOff(cfg: Config, s: State, w: WorkerId, order: seq<Id>, id: Id)
    requires Usable(cfg) && Enabled(cfg, s, Take(w, order)) && Overdue(s, id) && id !in order
    ensures var t := Apply(cfg, s, Take(w, order));
            t.rows[id] == s.rows[id] && |Ahead(t.rows, id)| == |Ahead(s.rows, id)| - cfg.batch
  {
    var t := Apply(cfg, s, Take(w, order));
    var taken := Claimable(s.rows, s.now, cfg.batch);
    assert taken == (set i | i in order);
    ClaimSize(s.rows, s.now, cfg.batch);
    assert Ahead(s.rows, id) + {id} <= DueIds(s.rows, s.now);
    Subset(Ahead(s.rows, id) + {id}, DueIds(s.rows, s.now));
    assert taken <= Ahead(s.rows, id);
    assert Ahead(t.rows, id) == Ahead(s.rows, id) - taken;
  }

  function Claims(steps: seq<Step>): nat {
    if steps == [] then 0 else Claims(steps[..|steps| - 1]) + (if steps[|steps| - 1].Take? then 1 else 0)
  }

  /** The row is the same at the start and all through. */
  ghost predicate Untouched(states: seq<State>, id: Id) {
    forall k :: 0 <= k < |states| ==>
      id in states[k].rows && id in states[0].rows && states[k].rows[id] == states[0].rows[id]
  }

  lemma StepWorksOff(cfg: Config, s: State, step: Step, t: State, id: Id)
    requires Usable(cfg) && Enabled(cfg, s, step) && t == Apply(cfg, s, step)
    requires Conserved(s) && Overdue(s, id) && Prompt(cfg, s, step)
    requires id in t.rows && t.rows[id] == s.rows[id]
    ensures Conserved(t) && Overdue(t, id)
    ensures |Ahead(t.rows, id)| + (if step.Take? then cfg.batch else 0) <= |Ahead(s.rows, id)|
  {
    ConservedStep(cfg, s, step);
    AheadShrinks(cfg, s, step, id);
    Subset(Ahead(Apply(cfg, s, step).rows, id), Ahead(s.rows, id));
    if step.Take? {
      assert Claimable(s.rows, s.now, cfg.batch) == (set i | i in step.order);
      ClaimWorksOff(cfg, s, step.worker, step.order, id);
    }
  }

  /** The number of rows that many claims take off the queue. */
  function Worked(steps: seq<Step>, n: nat, batch: int): int
    requires n <= |steps|
  {
    if n == 0 then 0 else Worked(steps, n - 1, batch) + (if steps[n - 1].Take? then batch else 0)
  }

  lemma {:induction false} WorkedIsProduct(steps: seq<Step>, n: nat, batch: int)
    requires n <= |steps|
    ensures Worked(steps, n, batch) == Claims(steps[..n]) * batch
  {
    if n > 0 {
      WorkedIsProduct(steps, n - 1, batch);
      assert steps[..n][..n - 1] == steps[..n - 1];
      assert (Claims(steps[..n - 1]) + 1) * batch == Claims(steps[..n - 1]) * batch + batch;
    }
  }

  lemma {:induction false} WaitBounded(cfg: Config, states: seq<State>, steps: seq<Step>, id: Id, n: nat)
    requires Usable(cfg) && Run(cfg, states, steps) && n <= |steps|
    requires Conserved(states[0]) && Overdue(states[0], id) && Untouched(states, id)
    requires forall k :: 0 <= k < |steps| ==> Prompt(cfg, states[k], steps[k])
    ensures Conserved(states[n]) && Overdue(states[n], id)
    ensures |Ahead(states[n].rows, id)| + Worked(steps, n, cfg.batch) <= |Ahead(states[0].rows, id)|
  {
    if n > 0 {
      WaitBounded(cfg, states, steps, id, n - 1);
      StepWorksOff(cfg, states[n - 1], steps[n - 1], states[n], id);
    }
  }

  /**
   However late the dispatchers, an overdue row is touched within rank / batch + 1 claims, as long as
   retry times are prompt: it is claimed, or a late holder's outcome reaches it.
   */
  lemma TouchedInTime(cfg: Config, states: seq<State>, steps: seq<Step>, id: Id)
    requires Usable(cfg) && Run(cfg, states, steps)
    requires Conserved(states[0]) && Overdue(states[0], id)
    requires forall k :: 0 <= k < |steps| ==> Prompt(cfg, states[k], steps[k])
    requires Claims(steps) > |Ahead(states[0].rows, id)| / cfg.batch
    ensures exists k :: 0 <= k < |steps| && Touches(cfg, states[k], steps[k], id)
  {
    if forall k :: 0 <= k < |steps| ==> !Touches(cfg, states[k], steps[k], id) {
      forall n | 0 <= n < |states| ensures id in states[n].rows && states[n].rows[id] == states[0].rows[id] {
        StaysUntouched(cfg, states, steps, id, n);
      }
      WaitBounded(cfg, states, steps, id, |steps|);
      WorkedIsProduct(steps, |steps|, cfg.batch);
      assert steps[..|steps|] == steps;
      BatchArithmetic(Claims(steps), |Ahead(states[0].rows, id)|, cfg.batch);
    }
  }

  lemma BatchArithmetic(claims: nat, rank: nat, batch: int)
    requires batch > 0 && claims * batch <= rank
    ensures claims <= rank / batch
  {
    var q := rank / batch;
    assert (q + 1) * batch == q * batch + batch > rank;
    if q + 1 <= claims {
      DispatchLease.MulMono(q + 1, claims, batch);
    }
  }

  /** The step claims the row or writes an outcome of it. */
  ghost predicate Touches(cfg: Config, s: State, step: Step, id: Id) {
    (step.Take? && id in step.order) || Reporting(s, step, id)
  }

  lemma StepLeaves(cfg: Config, s: State, step: Step, t: State, id: Id)
    requires Usable(cfg) && Enabled(cfg, s, step) && t == Apply(cfg, s, step)
    requires Conserved(s) && IsPending(s.rows, id) && !Touches(cfg, s, step, id)
    ensures Conserved(t) && id in t.rows && t.rows[id] == s.rows[id]
  {
    ConservedStep(cfg, s, step);
    assert step.Take? ==> Claimable(s.rows, s.now, cfg.batch) == (set i | i in step.order);
  }

  lemma {:induction false} StaysUntouched(cfg: Config, states: seq<State>, steps: seq<Step>, id: Id, n: nat)
    requires Usable(cfg) && Run(cfg, states, steps) && Conserved(states[0]) && IsPending(states[0].rows, id)
    requires forall k :: 0 <= k < |steps| ==> !Touches(cfg, states[k], steps[k], id)
    requires n <= |steps|
    ensures Conserved(states[n]) && id in states[n].rows && states[n].rows[id] == states[0].rows[id]
  {
    if n > 0 {
      StaysUntouched(cfg, states, steps, id, n - 1);
      StepLeaves(cfg, states[n - 1], steps[n - 1], states[n], id);
    }
  }

  // ---- When writes are prompt ----

  /** Only failures below the attempt limit are scheduled again, and their delays fit in 64 bits. */
  predicate Schedulable(cfg: Config)
    requires Usable(cfg)
  {
    Backoff.FitsUpTo(cfg.baseBackoff, cfg.maxBackoff, cfg.maxAttempts - 1)
  }

  /** No dispatcher waits between polls for longer than the least delay of a retry, give or take an instant. */
  predicate PollsOften(cfg: Config) {
    cfg.maxAttempts == 1 || cfg.poll <= Min(cfg.baseBackoff, cfg.maxBackoff) + 1
  }

  /** Claims in flight have been counted as attempts. */
  ghost predicate Counted(s: State) {
    forall w, c | w in s.workers && c in s.workers[w].queue :: c.attempts >= 1
  }

  lemma CountedStep(cfg: Config, s: State, step: Step)
    requires Usable(cfg) && Enabled(cfg, s, step) && Counted(s)
    ensures Counted(Apply(cfg, s, step))
  {
    if step.Take? {
      assert forall i | i in step.order :: i in Claimable(s.rows, s.now, cfg.batch);
    }
  }

  /** The outcome about to be written is a retry. */
  predicate Retrying(cfg: Config, w: Worker) {
    && w.queue != [] && w.phase.Writing?
    && !w.phase.verdict.Accepted? && !Final(cfg, w.queue[0], w.phase.verdict)
  }

  /** The time of a retry lies the least backoff after the reply, and so after now. */
  ghost predicate AheadOfClock(cfg: Config, s: State) {
    forall w | w in s.workers && Retrying(cfg, s.workers[w]) ::
      s.workers[w].phase.at + s.workers[w].overhead >= s.now + Min(cfg.baseBackoff, cfg.maxBackoff)
  }

  lemma AheadOfClockStep(cfg: Config, s: State, step: Step)
    requires Usable(cfg) && Enabled(cfg, s, step) && Schedulable(cfg)
    requires Counted(s) && AheadOfClock(cfg, s)
    ensures AheadOfClock(cfg, Apply(cfg, s, step))
  {
    var t := Apply(cfg, s, step);
    if step.Respond? && Retrying(cfg, t.workers[step.worker]) {
      assert s.workers[step.worker].queue[0] in s.workers[step.worker].queue;
      var a := Attempts(s, step.worker);
      Backoff.ScheduleWithin(cfg.baseBackoff, cfg.maxBackoff, cfg.maxAttempts - 1, a, step.jitter);
      Backoff.WaitMonotone(cfg.baseBackoff, cfg.maxBackoff, 1, a);
    }
    forall w | w in t.workers && Retrying(cfg, t.workers[w])
      ensures t.workers[w].phase.at + t.workers[w].overhead >= t.now + Min(cfg.baseBackoff, cfg.maxBackoff)
    {
      assert Busy(s, w);
    }
  }

  lemma {:induction false} AheadOfClockAlways(cfg: Config, states: seq<State>, steps: seq<Step>, k: nat)
    requires Usable(cfg) && Schedulable(cfg) && FullRun(cfg, states, steps) && k < |states|
    ensures Counted(states[k]) && AheadOfClock(cfg, states[k])
  {
    if k > 0 {
      AheadOfClockAlways(cfg, states, steps, k - 1);
      CountedStep(cfg, states[k - 1], steps[k - 1]);
      AheadOfClockStep(cfg, states[k - 1], steps[k - 1]);
    }
  }

  /** Punctual dispatchers that poll often enough write every retry time promptly. */
  lemma PunctualIsPrompt(cfg: Config, states: seq<State>, steps: seq<Step>, k: nat)
    requires Usable(cfg) && Schedulable(cfg) && PollsOften(cfg)
    requires DispatchLease.PunctualRun(cfg, states, steps) && k < |steps|
    ensures Prompt(cfg, states[k], steps[k])
  {
    var s := states[k];
    AheadOfClockAlways(cfg, states, steps, k);
    DispatchLease.LeasedAlways(cfg, states, steps, k);
    forall id, at | Requeues(cfg, s, steps[k], id, at) ensures s.now <= at {
      var w := s.workers[steps[k].worker];
      assert DispatchLease.Holding(cfg, s.now, s.rows, w);
      assert w.queue[0] in w.queue && Retrying(cfg, w);
    }
  }

  // ---- An overdue row is claimed ----

  /** Under a lease nobody holds an overdue row, so no outcome of it can be written. */
  lemma OverdueIsUnheld(cfg: Config, s: State, step: Step, id: Id)
    requires Usable(cfg) && DispatchLease.Leased(cfg, s) && Overdue(s, id)
    ensures !Reporting(s, step, id)
  {
    if Reporting(s, step, id) {
      var w := s.workers[step.worker];
      assert DispatchLease.Holding(cfg, s.now, s.rows, w);
      assert w.queue[0] in w.queue && id in DispatchLease.Ids(w.queue);
      DispatchLease.LeaseCovers(cfg, s.now, w);
    }
  }

  ghost predicate Takes(step: Step, id: Id) {
    step.Take? && id in step.order
  }

  lemma UnclaimedStep(cfg: Config, s: State, step: Step, t: State, id: Id)
    requires Usable(cfg) && Enabled(cfg, s, step) && t == Apply(cfg, s, step)
    requires Conserved(s) && DispatchLease.Leased(cfg, s) && Overdue(s, id) && !Takes(step, id)
    ensures Overdue(t, id) && !Touches(cfg, s, step, id)
  {
    OverdueIsUnheld(cfg, s, step, id);
    StepLeaves(cfg, s, step, t, id);
  }

  ghost predicate Orderly(cfg: Config, s: State)
    requires Usable(cfg)
  {
    Conserved(s) && DispatchLease.Leased(cfg, s)
  }

  /** Until it is claimed, an overdue row stays overdue and untouched. */
  lemma {:induction false} UnclaimedStays(cfg: Config, states: seq<State>, steps: seq<Step>, id: Id, k: nat)
    requires Usable(cfg) && Run(cfg, states, steps) && k < |steps|
    requires forall i :: 0 <= i < |states| ==> Orderly(cfg, states[i])
    requires Overdue(states[0], id) && forall i :: 0 <= i < |steps| ==> !Takes(steps[i], id)
    ensures Overdue(states[k], id) && !Touches(cfg, states[k], steps[k], id)
  {
    assert Orderly(cfg, states[k]);
    if k > 0 {
      UnclaimedStays(cfg, states, steps, id, k - 1);
      assert Orderly(cfg, states[k - 1]);
      UnclaimedStep(cfg, states[k - 1], steps[k - 1], states[k], id);
    }
    OverdueIsUnheld(cfg, states[k], steps[k], id);
  }

  /** What punctual dispatchers guarantee at every point of a run. */
  lemma OrderlyAlways(cfg: Config, states: seq<State>, steps: seq<Step>, k: nat)
    requires Usable(cfg) && Schedulable(cfg) && PollsOften(cfg)
    requires DispatchLease.PunctualRun(cfg, states, steps) && k < |states|
    ensures Orderly(cfg, states[k]) && (k < |steps| ==> Prompt(cfg, states[k], steps[k]))
  {
    ProvenAlways(cfg, states, steps, k);
    DispatchLease.LeasedAlways(cfg, states, steps, k);
    if k < |steps| {
      PunctualIsPrompt(cfg, states, steps, k);
    }
  }

  /**
   With punctual dispatchers that poll often enough, an overdue row is claimed
   within rank / batch + 1 claims, wherever in the run it has become overdue.
   */
  lemma ClaimedInTime(cfg: Config, states: seq<State>, steps: seq<Step>, id: Id, a: nat)
    requires Usable(cfg) && Schedulable(cfg) && PollsOften(cfg)
    requires DispatchLease.PunctualRun(cfg, states, steps) && a <= |steps| && Overdue(states[a], id)
    requires Claims(steps[a..]) > |Ahead(states[a].rows, id)| / cfg.batch
    ensures exists k :: a <= k < |steps| && Takes(steps[k], id)
  {
    if forall k :: a <= k < |steps| ==> !Takes(steps[k], id) {
      var later, rest := states[a..], steps[a..];
      forall k | 0 <= k < |later|
        ensures Orderly(cfg, later[k]) && (k < |rest| ==> Prompt(cfg, later[k], rest[k]))
      {
        OrderlyAlways(cfg, states, steps, a + k);
      }
      assert Orderly(cfg, later[0]);
      TouchedInTime(cfg, later, rest, id);
      var k :| 0 <= k < |rest| && Touches(cfg, later[k], rest[k], id);
      UnclaimedStays(cfg, later, rest, id, k);
    }
  }

  /** A retry time written late jumps the queue exactly when it sorts before the overdue row. */
  lemma LateRetryJumps(cfg: Config, s: State, w: WorkerId, id: Id, other: Id, at: Time)
    requires Usable(cfg) && Enabled(cfg, s, Report(w)) && Overdue(s, id)
    requires Requeues(cfg, s, Report(w), other, at) && other != id && other !in Ahead(s.rows, id)
    ensures var t := Apply(cfg, s, Report(w));
            other in Ahead(t.rows, id) <==>
            at < s.rows[id].nextAttemptAt || (at == s.rows[id].nextAttemptAt && other < id)
  {
  }
}
