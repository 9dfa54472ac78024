/**
 The delivery protocol: any number of dispatchers share one table of deliveries, lease rows from
 it, post them and write the outcome back. Dispatchers stall, lose writes and die at any point.
 */
module Dispatch {
  import opened Text
  import opened Entities
  import opened Outbox
  import Backoff

  datatype Config = Config(
    maxAttempts: int,
    poll: int,
    batch: int,
    timeout: int,
    baseBackoff: int,
    maxBackoff: int)

  const SECOND: int := 1_000_000_000

  function OrDefault(v: int, fallback: int): int {
    if v <= 0 then fallback else v
  }

  predicate Usable(cfg: Config) {
    cfg.maxAttempts > 0 && cfg.poll > 0 && cfg.batch > 0 && cfg.timeout > 0 && cfg.baseBackoff > 0 && cfg.maxBackoff > 0
  }

  /** The defaults a new dispatcher fills in. */
  function New(cfg: Config): (r: Config)
    ensures Usable(r)
    ensures cfg.maxAttempts > 0 ==> r.maxAttempts == cfg.maxAttempts
    ensures cfg.poll > 0 ==> r.poll == cfg.poll
    ensures cfg.batch > 0 ==> r.batch == cfg.batch
    ensures cfg.timeout > 0 ==> r.timeout == cfg.timeout
    ensures cfg.baseBackoff > 0 ==> r.baseBackoff == cfg.baseBackoff
    ensures cfg.maxBackoff > 0 ==> r.maxBackoff == cfg.maxBackoff
    // In nanoseconds: five seconds, ten seconds, five seconds and five minutes.
    ensures cfg.maxAttempts <= 0 ==> r.maxAttempts == 6
    ensures cfg.poll <= 0 ==> r.poll == 5_000_000_000
    ensures cfg.batch <= 0 ==> r.batch == 20
    ensures cfg.timeout <= 0 ==> r.timeout == 10_000_000_000
    ensures cfg.baseBackoff <= 0 ==> r.baseBackoff == 5_000_000_000
    ensures cfg.maxBackoff <= 0 ==> r.maxBackoff == 300_000_000_000
  {
    Config(
      OrDefault(cfg.maxAttempts, 6),
      OrDefault(cfg.poll, 5 * SECOND),
      OrDefault(cfg.batch, 20),
      OrDefault(cfg.timeout, 10 * SECOND),
      OrDefault(cfg.baseBackoff, 5 * SECOND),
      OrDefault(cfg.maxBackoff, 300 * SECOND))
  }

  function LeaseFor(cfg: Config): (lease: nat)
    requires Usable(cfg)
  {
    cfg.poll + cfg.batch * cfg.timeout
  }

  /** What came back from a post: a status line, no usable reply, or a request that could not be built. */
  datatype Reply = Status(code: int) | TransportFailure | Unbuildable

  datatype Verdict = Accepted | Retry | Reject

  predicate Retryable(code: int) {
    code == 408 || code == 429 || code >= 500
  }

  function Classify(reply: Reply): Verdict {
    match reply
    case Status(code) => if 200 <= code < 300 then Accepted else if Retryable(code) then Retry else Reject
    case TransportFailure => Retry
    case Unbuildable => Reject
  }

  /** One claim of one row. `epoch` counts the replays the row had seen when it was claimed. */
  datatype Claim = Claim(id: Id, event: Delivery, attempts: nat, epoch: nat)

  predicate Final(cfg: Config, c: Claim, v: Verdict) {
    v.Reject? || (v.Retry? && c.attempts >= cfg.maxAttempts)
  }

  /** The outcome write of one attempt, guarded on the row still being pending. */
  function Settle(cfg: Config, rows: Rows, c: Claim, v: Verdict, at: Time, now: Time): Rows {
    if v.Accepted? then MarkDeliveredRows(rows, c.id, now)
    else if Final(cfg, c, v) then DeadLetterRows(rows, c.id)
    else RescheduleRows(rows, c.id, at)
  }

  /** Where a dispatcher stands with the first delivery of its queue. */
  datatype Phase = Ready | Sending(elapsed: nat) | Writing(verdict: Verdict, at: Time)

  /** A dispatcher with a batch. It is idle when the queue is empty. */
  datatype Worker = Worker(claimedAt: Time, size: nat, queue: seq<Claim>, phase: Phase, overhead: nat)

  type WorkerId = nat

  /**
   The shared table and clock, the dispatchers, and what has happened so far: every event ever
   queued, the ids purged, the posts a receiver answered 2xx, the replays in the admin log, the
   claims whose failure was written back and the claims whose outcome never reached the table.
   */
  datatype State = State(
    now: Time,
    rows: Rows,
    nextId: Id,
    workers: map<WorkerId, Worker>,
    enqueued: map<Id, Delivery>,
    purged: set<Id>,
    acked: set<(Id, Delivery)>,
    replays: seq<Id>,
    recorded: set<Claim>,
    lost: set<Claim>)

  datatype Step =
    | Enqueue(event: Delivery)
    | Take(worker: WorkerId, order: seq<Id>)
    | Begin(worker: WorkerId)
    | Respond(worker: WorkerId, reply: Reply, jitter: nat)
    | Report(worker: WorkerId)
    | LoseWrite(worker: WorkerId)
    | Crash(worker: WorkerId)
    | Replay(id: Id)
    | Purge(cutoff: Time)
    | Tick(duration: nat)

  function Initial(now: Time): State {
    State(now, map[], 0, map[], map[], {}, {}, [], {}, {})
  }

  function Epoch(s: State, id: Id): nat {
    multiset(s.replays)[id]
  }

  predicate Busy(s: State, w: WorkerId) {
    w in s.workers && s.workers[w].queue != []
  }

  /** A listing of a set without repetition, in any order. */
  predicate Lists(order: seq<Id>, ids: set<Id>) {
    && (forall i, j :: 0 <= i < j < |order| ==> order[i] != order[j])
    && (set i | i in order) == ids
  }

  predicate Enabled(cfg: Config, s: State, step: Step)
    requires Usable(cfg)
  {
    match step
    case Enqueue(_) => true
    case Take(w, order) => !Busy(s, w) && Lists(order, Claimable(s.rows, s.now, cfg.batch))
    case Begin(w) => Busy(s, w) && s.workers[w].phase.Ready?
    case Respond(w, reply, jitter) =>
      && Busy(s, w) && s.workers[w].phase.Sending?
      && jitter <= Backoff.Wait(cfg.baseBackoff, cfg.maxBackoff, Attempts(s, w)) / 5
    case Report(w) => Busy(s, w) && s.workers[w].phase.Writing?
    case LoseWrite(w) => Busy(s, w) && s.workers[w].phase.Writing?
    case Crash(w) => Busy(s, w)
    case Replay(_) => true
    case Purge(_) => true
    case Tick(_) => true
  }

  /** The attempt number of the delivery at the head of a queue. */
  function Attempts(s: State, w: WorkerId): nat
    requires Busy(s, w)
    ensures Attempts(s, w) >= 1
  {
    var a := s.workers[w].queue[0].attempts;
    if a < 1 then 1 else a
  }

  function Tokens(s: State, rows: Rows, order: seq<Id>): seq<Claim>
    requires forall i | i in order :: i in rows
  {
    seq(|order|, k requires 0 <= k < |order| =>
      Claim(order[k], rows[order[k]].event, rows[order[k]].attempts, Epoch(s, order[k])))
  }

  function Next(w: Worker): Worker
    requires w.queue != []
  {
    w.(queue := w.queue[1..], phase := Ready)
  }

  /** Time passes for a dispatcher: within its send, or on everything around it. */
  function Age(w: Worker, d: nat): Worker {
    if w.queue == [] then w
    else if w.phase.Sending? then w.(phase := Sending(w.phase.elapsed + d))
    else w.(overhead := w.overhead + d)
  }

  function Apply(cfg: Config, s: State, step: Step): State
    requires Usable(cfg) && Enabled(cfg, s, step)
  {
    match step
    case Enqueue(event) =>
      s.(rows := s.rows[s.nextId := Row(event, Pending, 0, s.now, None)],
         enqueued := s.enqueued[s.nextId := event],
         nextId := s.nextId + 1)
    case Take(w, order) =>
      var rows := ClaimRows(s.rows, s.now, cfg.batch, LeaseFor(cfg));
      assert forall i | i in order :: i in Claimable(s.rows, s.now, cfg.batch);
      var batch := Tokens(s, rows, order);
      s.(rows := rows, workers := s.workers[w := Worker(s.now, |order|, batch, Ready, 0)])
    case Begin(w) =>
      s.(workers := s.workers[w := s.workers[w].(phase := Sending(0))])
    case Respond(w, reply, jitter) =>
      var head := s.workers[w].queue[0];
      var v := Classify(reply);
      var at := s.now + Backoff.Schedule(cfg.baseBackoff, cfg.maxBackoff, Attempts(s, w), jitter);
      s.(workers := s.workers[w := s.workers[w].(phase := Writing(v, at))],
         acked := if v.Accepted? then s.acked + {(head.id, head.event)} else s.acked)
    case Report(w) =>
      var head, phase := s.workers[w].queue[0], s.workers[w].phase;
      s.(rows := Settle(cfg, s.rows, head, phase.verdict, phase.at, s.now),
         workers := s.workers[w := Next(s.workers[w])],
         recorded := if IsPending(s.rows, head.id) && !phase.verdict.Accepted? && !Final(cfg, head, phase.verdict)
                     then s.recorded + {head} else s.recorded)
    case LoseWrite(w) =>
      s.(workers := s.workers[w := Next(s.workers[w])], lost := s.lost + {s.workers[w].queue[0]})
    case Crash(w) =>
      s.(workers := s.workers - {w}, lost := s.lost + (set c | c in s.workers[w].queue))
    case Replay(id) =>
      s.(rows := ReplayRows(s.rows, id, s.now),
         replays := if Replayable(s.rows, id) then s.replays + [id] else s.replays)
    case Purge(cutoff) =>
      s.(rows := PurgeRows(s.rows, cutoff),
         purged := s.purged + (set i | i in s.rows && Expired(s.rows[i], cutoff)))
    case Tick(d) =>
      s.(now := s.now + d, workers := map w | w in s.workers :: Age(s.workers[w], d))
  }

  /** A run: every state follows from the one before by an enabled step. */
  ghost predicate Run(cfg: Config, states: seq<State>, steps: seq<Step>)
    requires Usable(cfg)
  {
    && |states| == |steps| + 1
    && forall k :: 0 <= k < |steps| ==>
         Enabled(cfg, states[k], steps[k]) && states[k + 1] == Apply(cfg, states[k], steps[k])
  }

  ghost predicate FullRun(cfg: Config, states: seq<State>, steps: seq<Step>)
    requires Usable(cfg)
  {
    Run(cfg, states, steps) && states[0] == Initial(states[0].now)
  }

  /** Adds a step to a run. */
  lemma Extend(cfg: Config, states: seq<State>, steps: seq<Step>, step: Step) returns (longer: seq<State>)
    requires Usable(cfg) && FullRun(cfg, states, steps) && Enabled(cfg, states[|steps|], step)
    ensures longer == states + [Apply(cfg, states[|steps|], step)] && FullRun(cfg, longer, steps + [step])
  {
    longer := states + [Apply(cfg, states[|steps|], step)];
  }

  /** What the world does to one attempt: the reply, the jitter drawn and the time the outcome is written. */
  datatype Post = Post(reply: Reply, jitter: nat, at: Time)

  function Ordinal(c: Claimed): nat {
    if c.attempts < 1 then 1 else c.attempts
  }

  function AfterAttempt(cfg: Config, rows: Rows, c: Claimed, post: Post): Rows {
    Settle(cfg, rows, Claim(c.id, c.event, c.attempts, 0), Classify(post.reply),
           post.at + Backoff.Schedule(cfg.baseBackoff, cfg.maxBackoff, Ordinal(c), post.jitter), post.at)
  }

  /** The reply asks for another attempt: no status came back, or one that may pass. */
  predicate Transient(reply: Reply) {
    reply.TransportFailure? || (reply.Status? && (reply.code == 408 || reply.code == 429 || reply.code >= 500))
  }

  /** What one reply makes of a pending row, by the status itself; payload and attempt count stay. */
  predicate Outcome(cfg: Config, before: Row, after: Row, attempts: nat, reply: Reply, retryAt: Time, now: Time) {
    after ==
      if reply.Status? && 200 <= reply.code <= 299 then
        Row(before.event, Delivered, before.attempts, before.nextAttemptAt, Some(now))
      else if Transient(reply) && attempts < cfg.maxAttempts then
        Row(before.event, Pending, before.attempts, retryAt, before.deliveredAt)
      else
        Row(before.event, DeadLetter, before.attempts, before.nextAttemptAt, before.deliveredAt)
  }

  /** One row goes from pending to where the reply puts it, and nothing else changes; otherwise nothing does at all. */
  ghost predicate Settled(
    cfg: Config, rows: Rows, rows': Rows, id: Id, attempts: nat, reply: Reply, retryAt: Time, now: Time)
  {
    if id in rows && rows[id].status == Pending then
      && rows'.Keys == rows.Keys && (forall i | i in rows && i != id :: rows'[i] == rows[i])
      && Outcome(cfg, rows[id], rows'[id], attempts, reply, retryAt, now)
    else rows' == rows
  }

  /** A batch posted in order, each delivery meeting what `world` has for it. */
  function AfterAttempts(cfg: Config, rows: Rows, cs: seq<Claimed>, world: Claimed -> Post): Rows {
    if cs == [] then rows
    else AfterAttempt(cfg, AfterAttempts(cfg, rows, cs[..|cs| - 1], world), cs[|cs| - 1], world(cs[|cs| - 1]))
  }

  /** One dispatcher's code: claim a batch, then post it in order. */
  class Dispatcher {
    const cfg: Config
    const queue: DeliveryTable

    constructor (queue: DeliveryTable, cfg: Config)
      ensures Usable(this.cfg) && this.cfg == New(cfg) && this.queue == queue
    {
      this.cfg, this.queue := New(cfg), queue;
    }

    /** Posts one delivery and records the outcome; a failed write is only logged. */
    method Attempt(del: Claimed, post: Post)
      requires Usable(cfg) && queue.Valid()
      modifies queue`rows
      ensures queue.Valid() && queue.rows == AfterAttempt(cfg, old(queue.rows), del, post)
      ensures Settled(cfg, old(queue.rows), queue.rows, del.id, del.attempts, post.reply,
                      post.at + Backoff.Schedule(cfg.baseBackoff, cfg.maxBackoff, Ordinal(del), post.jitter), post.at)
    {
      var verdict := Classify(post.reply);
      if verdict.Accepted? {
        var _ := queue.MarkDelivered(del.id, post.at);
        return;
      }
      if verdict.Reject? || del.attempts >= cfg.maxAttempts {
        var _ := queue.DeadLetterDelivery(del.id);
        return;
      }
      var wait := Backoff.Compute(cfg.baseBackoff, cfg.maxBackoff, del.attempts, post.jitter);
      var _ := queue.RescheduleDelivery(del.id, post.at + wait);
    }

    /** Leases a batch and works through it; a cancelled context stops after `stop` posts. */
    method Drain(now: Time, world: Claimed -> Post, stop: nat) returns (claimed: seq<Claimed>, done: nat)
      requires Usable(cfg) && queue.Valid()
      modifies queue`rows
      ensures queue.Valid()
      ensures forall i, j :: 0 <= i < j < |claimed| ==> claimed[i].id != claimed[j].id
      ensures (set c | c in claimed :: c.id) == Claimable(old(queue.rows), now, cfg.batch)
      ensures done == if |claimed| < stop then |claimed| else stop
      ensures queue.rows ==
              AfterAttempts(cfg, ClaimRows(old(queue.rows), now, cfg.batch, LeaseFor(cfg)), claimed[..done], world)
    {
      claimed := queue.ClaimDueDeliveries(cfg.batch, LeaseFor(cfg), now);
      done := PostAll(claimed, world, stop);
    }

    method PostAll(claimed: seq<Claimed>, world: Claimed -> Post, stop: nat) returns (done: nat)
      requires Usable(cfg) && queue.Valid()
      modifies queue`rows
      ensures queue.Valid()
      ensures done == if |claimed| < stop then |claimed| else stop
      ensures queue.rows == AfterAttempts(cfg, old(queue.rows), claimed[..done], world)
    {
      done := 0;
      while done < |claimed| && done < stop
        invariant 0 <= done <= |claimed| && done <= stop && queue.Valid()
        invariant queue.rows == AfterAttempts(cfg, old(queue.rows), claimed[..done], world)
      {
        Attempt(claimed[done], world(claimed[done]));
        assert claimed[..done + 1][..done] == claimed[..done];
        done := done + 1;
      }
    }
  }
}
