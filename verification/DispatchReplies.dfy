/** What every step of the protocol does to the table, and which reply each written outcome goes back to. */
module DispatchReplies {
  import opened Text
  import opened Entities
  import opened Outbox
  import opened Dispatch
  import opened DispatchSafety
  import Backoff

  /** The reply at step `j` is the one the dispatcher is about to write back: same batch, verdict and retry time. */
  ghost predicate Awaits(cfg: Config, states: seq<State>, steps: seq<Step>, j: nat, s: State, w: WorkerId)
    requires Usable(cfg)
  {
    && j < |steps| < |states| && steps[j].Respond? && steps[j].worker == w
    && Busy(states[j], w) && Busy(s, w) && s.workers[w].queue == states[j].workers[w].queue
    && s.workers[w].phase == Writing(Classify(steps[j].reply), RetryAt(cfg, states, steps, j))
  }

  /** When a failure answered at step `j` is tried again: the backoff of that attempt after the reply. */
  function RetryAt(cfg: Config, states: seq<State>, steps: seq<Step>, j: nat): Time
    requires j < |steps| < |states| && steps[j].Respond? && Busy(states[j], steps[j].worker)
  {
    states[j].now
    + Backoff.Schedule(cfg.baseBackoff, cfg.maxBackoff, Attempts(states[j], steps[j].worker), steps[j].jitter)
  }

  lemma {:induction false} ReplyOf(cfg: Config, states: seq<State>, steps: seq<Step>, k: nat, w: WorkerId)
    returns (j: nat)
    requires Usable(cfg) && FullRun(cfg, states, steps) && k < |states|
    requires Busy(states[k], w) && states[k].workers[w].phase.Writing?
    ensures j < k && Awaits(cfg, states, steps, j, states[k], w)
  {
    var s, step := states[k - 1], steps[k - 1];
    if step.Respond? && step.worker == w {
      j := k - 1;
    } else {
      assert Busy(s, w) && s.workers[w].queue == states[k].workers[w].queue;
      assert s.workers[w].phase == states[k].workers[w].phase;
      j := ReplyOf(cfg, states, steps, k - 1, w);
    }
  }

  /**
   Every outcome that is written goes back to the reply of that very post, earlier in the run: it takes the
   row from pending to delivered for a status of 200 to 299, leaves it pending with a later time for 408, 429,
   500 and up or no answer as long as attempts remain, and parks it for anything else.
   */
  lemma ReportByReply(cfg: Config, states: seq<State>, steps: seq<Step>, k: nat) returns (j: nat)
    requires Usable(cfg) && FullRun(cfg, states, steps) && k < |steps| && steps[k].Report?
    ensures j < k && Awaits(cfg, states, steps, j, states[k], steps[k].worker)
    ensures var head := states[k].workers[steps[k].worker].queue[0];
            Settled(cfg, states[k].rows, states[k + 1].rows, head.id, head.attempts, steps[j].reply,
                    RetryAt(cfg, states, steps, j), states[k].now)
  {
    j := ReplyOf(cfg, states, steps, k, steps[k].worker);
  }

  /** Every other step: queueing, claiming, replaying and purging change the table as said here, the rest not at all. */
  lemma RowsExactly(cfg: Config, s: State, step: Step)
    requires Usable(cfg) && Enabled(cfg, s, step)
    ensures var rows, rows' := s.rows, Apply(cfg, s, step).rows;
            match step
            case Enqueue(event) => rows' == rows[s.nextId := Row(event, Pending, 0, s.now, None)]
            case Take(w, order) =>
              && rows'.Keys == rows.Keys
              && (forall i | i in rows ::
                    rows'[i] ==
                      if i in order
                      then rows[i].(attempts := rows[i].attempts + 1,
                                    nextAttemptAt := s.now + cfg.poll + cfg.batch * cfg.timeout)
                      else rows[i])
            case Replay(id) =>
              if id in rows && rows[id].status == DeadLetter
              then rows' == rows[id := rows[id].(status := Pending, attempts := 0, nextAttemptAt := s.now)]
              else rows' == rows
            case Purge(cutoff) =>
              && (forall i :: i in rows' <==>
                    i in rows && !(rows[i].status == Delivered && rows[i].deliveredAt.Some?
                                   && rows[i].deliveredAt.value < cutoff))
              && (forall i | i in rows' :: rows'[i] == rows[i])
            case Report(_) => true
            case _ => rows' == rows
  {
    if step.Take? {
      var taken := set i | i in step.order;
      assert forall i :: i in taken <==> i in Claimable(s.rows, s.now, cfg.batch);
    }
  }

  /** A retry waits from the doubled base, or the cap, to six fifths of it, where the arithmetic fits in 64 bits. */
  lemma RetryWindow(cfg: Config, states: seq<State>, steps: seq<Step>, j: nat)
    requires Usable(cfg) && Run(cfg, states, steps) && j < |steps| && steps[j].Respond?
    requires Backoff.Fits(cfg.baseBackoff, cfg.maxBackoff)
    ensures var n := states[j].workers[steps[j].worker].queue[0].attempts;
            var doubled := Backoff.Scaled(cfg.baseBackoff, if n < 1 then 0 else n - 1);
            var wait := if doubled < cfg.maxBackoff then doubled else cfg.maxBackoff;
            states[j].now + wait <= RetryAt(cfg, states, steps, j) <= states[j].now + wait + wait / 5
  {
    assert Enabled(cfg, states[j], steps[j]);
    Backoff.ScheduleExact(cfg.baseBackoff, cfg.maxBackoff, Attempts(states[j], steps[j].worker), steps[j].jitter);
  }

  // ---- A whole batch ----

  lemma {:induction false} OthersKept(cfg: Config, rows: Rows, cs: seq<Claimed>, world: Claimed -> Post, i: Id)
    requires Usable(cfg) && forall c | c in cs :: c.id != i
    ensures var rows' := AfterAttempts(cfg, rows, cs, world);
            (i in rows' <==> i in rows) && (i in rows ==> rows'[i] == rows[i])
  {
    if cs != [] {
      var n := |cs| - 1;
      assert cs[n] in cs && forall c | c in cs[..n] :: c in cs;
      OthersKept(cfg, rows, cs[..n], world, i);
    }
  }

  lemma AttemptSettles(cfg: Config, rows: Rows, c: Claimed, post: Post)
    requires Usable(cfg)
    ensures Settled(cfg, rows, AfterAttempt(cfg, rows, c, post), c.id, c.attempts, post.reply,
                    RetriedAt(cfg, c, post), post.at)
  {
  }

  /** The backoff of a claim's attempt after its reply. */
  function RetriedAt(cfg: Config, c: Claimed, post: Post): Time {
    post.at + Backoff.Schedule(cfg.baseBackoff, cfg.maxBackoff, Ordinal(c), post.jitter)
  }

  /** The row is where the reply to its post says. */
  ghost predicate Answers(cfg: Config, rows: Rows, rows': Rows, c: Claimed, post: Post) {
    c.id in rows && rows[c.id].status == Pending ==>
      && c.id in rows'
      && Outcome(cfg, rows[c.id], rows'[c.id], c.attempts, post.reply, RetriedAt(cfg, c, post), post.at)
  }

  /** Working through a batch puts each of its rows where its own reply says, and touches no row outside it. */
  lemma {:induction false} BatchExactly(cfg: Config, rows: Rows, cs: seq<Claimed>, world: Claimed -> Post)
    requires Usable(cfg) && forall i, j :: 0 <= i < j < |cs| ==> cs[i].id != cs[j].id
    ensures var rows' := AfterAttempts(cfg, rows, cs, world);
            && (forall i | forall c | c in cs :: c.id != i ::
                  (i in rows' <==> i in rows) && (i in rows ==> rows'[i] == rows[i]))
            && (forall k :: 0 <= k < |cs| ==> Answers(cfg, rows, rows', cs[k], world(cs[k])))
  {
    if cs != [] {
      var n := |cs| - 1;
      var last, before := cs[n], AfterAttempts(cfg, rows, cs[..n], world);
      BatchExactly(cfg, rows, cs[..n], world);
      OthersKept(cfg, rows, cs[..n], world, last.id);
      AttemptSettles(cfg, before, last, world(last));
      forall k | 0 <= k < n ensures Answers(cfg, rows, AfterAttempts(cfg, rows, cs, world), cs[k], world(cs[k])) {
        assert Answers(cfg, rows, before, cs[..n][k], world(cs[..n][k]));
        assert cs[k].id != last.id;
      }
    }
    forall i | forall c | c in cs :: c.id != i
      ensures var rows' := AfterAttempts(cfg, rows, cs, world);
              (i in rows' <==> i in rows) && (i in rows ==> rows'[i] == rows[i])
    {
      OthersKept(cfg, rows, cs, world, i);
    }
  }
}
