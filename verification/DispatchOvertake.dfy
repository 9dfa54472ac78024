/** When an overdue row can be overtaken: exactly when dispatchers poll more slowly than they retry. */
module DispatchOvertake {
  import opened Text
  import opened Ordering
  import opened Entities
  import opened Outbox
  import opened Dispatch
  import opened DispatchSafety
  import opened DispatchLease
  import opened DispatchProgress
  import Backoff

  /** The first event is claimed and its send begins. */
  lemma FirstSend(cfg: Config, event: Delivery) returns (states: seq<State>, steps: seq<Step>)
    requires Usable(cfg)
    ensures PunctualRun(cfg, states, steps)
    ensures var s := states[|steps|];
            && s.now == 0 && s.nextId == 1 && s.rows == map[0 := Row(event, Pending, 1, LeaseFor(cfg), None)]
            && s.workers == map[0 := Worker(0, 1, [Claim(0, event, 1, 0)], Sending(0), 0)]
  {
    states, steps := [Initial(0)], [];
    states := Extend(cfg, states, steps, Enqueue(event));
    steps := steps + [Enqueue(event)];
    OneRow(states[1].rows, 0, 0, cfg.batch);
    states := Extend(cfg, states, steps, Take(0, [0]));
    steps := steps + [Take(0, [0])];
    states := Extend(cfg, states, steps, Begin(0));
    steps := steps + [Begin(0)];
    var s := states[|steps|];
    assert s.rows == map[0 := Row(event, Pending, 1, LeaseFor(cfg), None)];
    assert s.workers[0].queue == [Claim(0, event, 1, 0)];
    assert s.workers == map[0 := Worker(0, 1, [Claim(0, event, 1, 0)], Sending(0), 0)];
  }

  /** The first event is claimed, its send fails, and time passes before the outcome is written. */
  lemma FailedSend(cfg: Config, event: Delivery, d: nat) returns (states: seq<State>, steps: seq<Step>)
    requires Usable(cfg) && cfg.maxAttempts > 1 && Schedulable(cfg)
    ensures FullRun(cfg, states, steps) && (d < cfg.poll ==> PunctualRun(cfg, states, steps))
    ensures var s := states[|steps|];
            && s.now == d && s.nextId == 1 && s.rows == map[0 := Row(event, Pending, 1, LeaseFor(cfg), None)]
            && Busy(s, 0) && s.workers[0].queue[0] == Claim(0, event, 1, 0)
            && s.workers[0].overhead == d
            && s.workers.Keys == {0} && s.workers[0].phase == Writing(Retry, Min(cfg.baseBackoff, cfg.maxBackoff))
  {
    states, steps := FirstSend(cfg, event);
    Backoff.ScheduleWithin(cfg.baseBackoff, cfg.maxBackoff, cfg.maxAttempts - 1, 1, 0);
    states := Extend(cfg, states, steps, Respond(0, TransportFailure, 0));
    steps := steps + [Respond(0, TransportFailure, 0)];
    states := Extend(cfg, states, steps, Tick(d));
    steps := steps + [Tick(d)];
  }

  /**
   A run in which it happens, under every configuration that retries and backs off for less than its
   lease: a failed send is written back only after its retry time, behind a row queued since.
   */
  lemma LateRetryRun(cfg: Config, first: Delivery, second: Delivery)
    returns (states: seq<State>, steps: seq<Step>)
    requires Usable(cfg) && cfg.maxAttempts > 1 && Schedulable(cfg)
    requires Min(cfg.baseBackoff, cfg.maxBackoff) + 1 < LeaseFor(cfg)
    ensures FullRun(cfg, states, steps) && |steps| > 0
    ensures var s, t := states[|steps| - 1], states[|steps|];
            Overdue(s, 1) && Overdue(t, 1) && 0 !in Ahead(s.rows, 1) && 0 in Ahead(t.rows, 1)
  {
    states, steps := FailedSend(cfg, first, Min(cfg.baseBackoff, cfg.maxBackoff) + 1);
    states := Extend(cfg, states, steps, Enqueue(second));
    steps := steps + [Enqueue(second)];
    states := Extend(cfg, states, steps, Tick(1));
    steps := steps + [Tick(1)];
    states := Extend(cfg, states, steps, Report(0));
    steps := steps + [Report(0)];
  }

  /**
   And one with punctual dispatchers, when the poll interval is longer than the least delay of a
   retry by more than an instant.
   */
  lemma SlowPollRun(cfg: Config, first: Delivery, second: Delivery) returns (states: seq<State>, steps: seq<Step>)
    requires Usable(cfg) && Schedulable(cfg) && !PollsOften(cfg)
    ensures PunctualRun(cfg, states, steps) && |steps| > 0
    ensures var s, t := states[|steps| - 1], states[|steps|];
            Overdue(s, 1) && 1 in t.rows && t.rows[1] == s.rows[1] && 0 !in Ahead(s.rows, 1) && 0 in Ahead(t.rows, 1)
  {
    states, steps := FailedSend(cfg, first, Min(cfg.baseBackoff, cfg.maxBackoff));
    assert LeaseFor(cfg) > cfg.poll;
    states := Extend(cfg, states, steps, Enqueue(second));
    steps := steps + [Enqueue(second)];
    states := Extend(cfg, states, steps, Tick(1));
    steps := steps + [Tick(1)];
    states := Extend(cfg, states, steps, Report(0));
    steps := steps + [Report(0)];
  }

  /** If the row is overdue and step `k` leaves it alone, nothing gets ahead of it. */
  ghost predicate KeepsPlace(states: seq<State>, k: nat, id: Id)
    requires k + 1 < |states|
  {
    var s, t := states[k], states[k + 1];
    Overdue(s, id) && id in t.rows && t.rows[id] == s.rows[id] ==> Ahead(t.rows, id) <= Ahead(s.rows, id)
  }

  ghost predicate AllKeepPlace(states: seq<State>) {
    forall k: nat, id: Id | k + 1 < |states| :: KeepsPlace(states, k, id)
  }

  ghost predicate NeverOvertaken(cfg: Config)
    requires Usable(cfg)
  {
    forall states: seq<State>, steps: seq<Step> | PunctualRun(cfg, states, steps) :: AllKeepPlace(states)
  }

  lemma OftenKeepsPlace(cfg: Config, states: seq<State>, steps: seq<Step>, k: nat, id: Id)
    requires Usable(cfg) && Schedulable(cfg) && PollsOften(cfg)
    requires PunctualRun(cfg, states, steps) && k < |steps|
    ensures KeepsPlace(states, k, id)
  {
    var s, t := states[k], states[k + 1];
    ProvenAlways(cfg, states, steps, k);
    PunctualIsPrompt(cfg, states, steps, k);
    if Overdue(s, id) && id in t.rows && t.rows[id] == s.rows[id] {
      AheadShrinks(cfg, s, steps[k], id);
    }
  }

  /** With punctual dispatchers no overdue row is ever overtaken, if and only if they poll often enough. */
  lemma OvertakenExactly(cfg: Config)
    requires Usable(cfg) && Schedulable(cfg)
    ensures NeverOvertaken(cfg) <==> PollsOften(cfg)
  {
    if PollsOften(cfg) {
      forall states: seq<State>, steps: seq<Step> | PunctualRun(cfg, states, steps) ensures AllKeepPlace(states) {
        forall k: nat, id: Id | k + 1 < |states| ensures KeepsPlace(states, k, id) {
          OftenKeepsPlace(cfg, states, steps, k, id);
        }
      }
    } else {
      var event := Delivery("", UserCreated, 0, ChangeEvent(UserCreated, 0, "", None, None));
      var states, steps := SlowPollRun(cfg, event, event);
      assert !KeepsPlace(states, |steps| - 1, 1);
      assert !AllKeepPlace(states);
    }
  }
}
