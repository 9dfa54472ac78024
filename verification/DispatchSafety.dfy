/** What no run of the delivery protocol can break, however late or lossy its dispatchers are. */
module DispatchSafety {
  import opened Entities
  import opened Outbox
  import opened Dispatch

  /** Rows and purged ids together are what was queued, with the payload it was queued with. */
  ghost predicate Conserved(s: State) {
    && s.rows.Keys !! s.purged
    && s.rows.Keys + s.purged == s.enqueued.Keys
    && (forall i | i in s.enqueued :: i < s.nextId)
    && (forall i | i in s.rows :: s.rows[i].event == s.enqueued[i])
    && (forall w, c | w in s.workers && c in s.workers[w].queue ::
          c.id in s.enqueued && c.event == s.enqueued[c.id])
  }

  /** A delivered or purged row was answered 2xx, with its own payload. */
  ghost predicate Proven(s: State) {
    && (forall i | i in s.rows && s.rows[i].status.Delivered? ::
          (i, s.rows[i].event) in s.acked && s.rows[i].deliveredAt.Some? && s.rows[i].deliveredAt.value <= s.now)
    && (forall i | i in s.purged :: i in s.enqueued && (i, s.enqueued[i]) in s.acked)
    && (forall w | Busy(s, w) && s.workers[w].phase.Writing? && s.workers[w].phase.verdict.Accepted? ::
          (s.workers[w].queue[0].id, s.workers[w].queue[0].event) in s.acked)
  }

  lemma TakeConserved(cfg: Config, s: State, w: WorkerId, order: seq<Id>)
    requires Usable(cfg) && Enabled(cfg, s, Take(w, order)) && Conserved(s)
    ensures Conserved(Apply(cfg, s, Take(w, order)))
  {
    var rows := ClaimRows(s.rows, s.now, cfg.batch, LeaseFor(cfg));
    assert forall i | i in order :: i in Claimable(s.rows, s.now, cfg.batch);
    assert forall c | c in Tokens(s, rows, order) :: c.id in order && c.event == rows[c.id].event;
  }

  lemma QueueTail(s: State, t: State, w: WorkerId)
    requires Busy(s, w) && t.workers == s.workers[w := Next(s.workers[w])]
    ensures forall v, c | v in t.workers && c in t.workers[v].queue :: v in s.workers && c in s.workers[v].queue
  {
  }

  /** A dispatcher done with the head of its queue, whatever became of the outcome. */
  lemma FinishConserved(s: State, t: State, w: WorkerId)
    requires Conserved(s) && Busy(s, w) && t.workers == s.workers[w := Next(s.workers[w])]
    requires t.rows.Keys == s.rows.Keys && t.purged == s.purged && t.enqueued == s.enqueued && t.nextId == s.nextId
    requires forall i | i in s.rows :: t.rows[i].event == s.rows[i].event
    ensures Conserved(t)
  {
    QueueTail(s, t, w);
  }

  lemma ConservedStep(cfg: Config, s: State, step: Step)
    requires Usable(cfg) && Enabled(cfg, s, step) && Conserved(s)
    ensures Conserved(Apply(cfg, s, step))
  {
    var t := Apply(cfg, s, step);
    match step
    case Take(w, order) => TakeConserved(cfg, s, w, order);
    case Report(w) => FinishConserved(s, t, w);
    case LoseWrite(w) => FinishConserved(s, t, w);
    case Crash(w) =>
      assert forall v | v in t.workers :: t.workers[v] == s.workers[v];
    case Purge(cutoff) =>
      assert t.rows.Keys + t.purged == s.rows.Keys + s.purged;
    case Tick(d) =>
      assert forall v | v in t.workers :: t.workers[v].queue == s.workers[v].queue;
    case _ =>
  }

  lemma ReportProven(cfg: Config, s: State, w: WorkerId)
    requires Usable(cfg) && Enabled(cfg, s, Report(w)) && Conserved(s) && Proven(s)
    ensures Proven(Apply(cfg, s, Report(w)))
  {
    assert s.workers[w].queue[0] in s.workers[w].queue;
  }

  lemma TakeProven(cfg: Config, s: State, w: WorkerId, order: seq<Id>)
    requires Usable(cfg) && Enabled(cfg, s, Take(w, order)) && Proven(s)
    ensures Proven(Apply(cfg, s, Take(w, order)))
  {
  }

  lemma ProvenStep(cfg: Config, s: State, step: Step)
    requires Usable(cfg) && Enabled(cfg, s, step) && Conserved(s) && Proven(s)
    ensures Proven(Apply(cfg, s, step))
  {
    var t := Apply(cfg, s, step);
    match step
    case Take(w, order) => TakeProven(cfg, s, w, order);
    case Report(w) => ReportProven(cfg, s, w);
    case Tick(d) =>
      assert forall v | Busy(t, v) :: Busy(s, v) && t.workers[v].queue == s.workers[v].queue;
    case Crash(w) =>
      assert forall v | v in t.workers :: t.workers[v] == s.workers[v];
    case _ =>
  }

  lemma {:induction false} ProvenAlways(cfg: Config, states: seq<State>, steps: seq<Step>, k: nat)
    requires Usable(cfg) && FullRun(cfg, states, steps) && k < |states|
    ensures Conserved(states[k]) && Proven(states[k])
  {
    if k > 0 {
      ProvenAlways(cfg, states, steps, k - 1);
      ConservedStep(cfg, states[k - 1], steps[k - 1]);
      ProvenStep(cfg, states[k - 1], steps[k - 1]);
    }
  }

  /** At step `j` of the run a post of this id and payload is answered with a status of 200 to 299. */
  ghost predicate Answered(states: seq<State>, steps: seq<Step>, j: nat, id: Id, event: Delivery) {
    && j < |steps| < |states| && steps[j].Respond?
    && steps[j].reply.Status? && 200 <= steps[j].reply.code <= 299
    && Busy(states[j], steps[j].worker)
    && states[j].workers[steps[j].worker].queue[0].id == id
    && states[j].workers[steps[j].worker].queue[0].event == event
  }

  /** What counts as acknowledged is what was answered so. */
  lemma {:induction false} AckedExactly(
    cfg: Config, states: seq<State>, steps: seq<Step>, k: nat, id: Id, event: Delivery)
    requires Usable(cfg) && FullRun(cfg, states, steps) && k < |states|
    ensures (id, event) in states[k].acked <==> exists j: nat :: j < k && Answered(states, steps, j, id, event)
  {
    if k > 0 {
      AckedExactly(cfg, states, steps, k - 1, id, event);
      assert (id, event) in states[k].acked <==>
        (id, event) in states[k - 1].acked || Answered(states, steps, k - 1, id, event);
    }
  }

  /**
   In every state of every run, rows and purged ids together are what was queued, each row with its payload;
   and a row that is delivered or purged was answered with a status of 200 to 299 earlier in the run, under
   its own id and payload.
   */
  lemma Conservation(cfg: Config, states: seq<State>, steps: seq<Step>, k: nat)
    requires Usable(cfg) && FullRun(cfg, states, steps) && k < |states|
    ensures var s := states[k];
            && s.rows.Keys !! s.purged && s.rows.Keys + s.purged == s.enqueued.Keys
            && (forall i | i in s.rows :: s.rows[i].event == s.enqueued[i])
            && (forall i | i in s.enqueued && (i in s.purged || s.rows[i].status == Delivered) ::
                  exists j: nat :: j < k && Answered(states, steps, j, i, s.enqueued[i]))
  {
    ProvenAlways(cfg, states, steps, k);
    var s := states[k];
    forall i | i in s.enqueued && (i in s.purged || s.rows[i].status == Delivered)
      ensures exists j: nat :: j < k && Answered(states, steps, j, i, s.enqueued[i])
    {
      AckedExactly(cfg, states, steps, k, i, s.enqueued[i]);
    }
  }

  datatype Place = Waiting | Sent | Parked | Gone | Unknown

  function PlaceOf(s: State, id: Id): Place {
    if id in s.rows then
      match s.rows[id].status
      case Pending => Waiting
      case Delivered => Sent
      case DeadLetter => Parked
    else if id in s.purged then Gone
    else Unknown
  }

  /** The step writes the outcome of a post of this row. */
  ghost predicate Reporting(s: State, step: Step, id: Id) {
    && step.Report? && Busy(s, step.worker)
    && s.workers[step.worker].phase.Writing? && s.workers[step.worker].queue[0].id == id
  }

  /** The only moves a row ever makes, and the step that makes each. */
  ghost predicate Move(cfg: Config, s: State, step: Step, id: Id, from: Place, to: Place) {
    match (from, to)
    case (Unknown, Waiting) => step.Enqueue? && id == s.nextId
    case (Waiting, Sent) =>
      Reporting(s, step, id) && s.workers[step.worker].phase.verdict.Accepted?
    case (Waiting, Parked) =>
      Reporting(s, step, id) && Final(cfg, s.workers[step.worker].queue[0], s.workers[step.worker].phase.verdict)
    case (Parked, Waiting) => step == Replay(id)
    case (Sent, Gone) => step.Purge? && id in s.rows && Expired(s.rows[id], step.cutoff)
    case _ => from == to
  }

  lemma MovesOnly(cfg: Config, s: State, step: Step, id: Id)
    requires Usable(cfg) && Enabled(cfg, s, step) && Conserved(s)
    ensures Move(cfg, s, step, id, PlaceOf(s, id), PlaceOf(Apply(cfg, s, step), id))
    ensures id in s.enqueued ==>
              id in Apply(cfg, s, step).enqueued && Apply(cfg, s, step).enqueued[id] == s.enqueued[id]
    ensures PlaceOf(s, id).Sent? && PlaceOf(Apply(cfg, s, step), id).Sent? ==>
              Apply(cfg, s, step).rows[id] == s.rows[id]
  {
  }

  /**
   Over a whole run: an event once queued keeps its payload and stays in exactly one place;
   delivered is for good, until the sweep takes the row.
   */
  lemma {:induction false} NothingLost(cfg: Config, states: seq<State>, steps: seq<Step>, id: Id, j: nat, k: nat)
    requires Usable(cfg) && FullRun(cfg, states, steps) && j <= k < |states|
    requires id in states[j].enqueued
    ensures id in states[k].enqueued && states[k].enqueued[id] == states[j].enqueued[id]
    ensures !PlaceOf(states[k], id).Unknown?
    ensures id in states[k].rows ==> states[k].rows[id].event == states[j].enqueued[id]
    ensures PlaceOf(states[j], id).Sent? ==>
              PlaceOf(states[k], id).Gone? || (PlaceOf(states[k], id).Sent? && states[k].rows[id] == states[j].rows[id])
    ensures PlaceOf(states[j], id).Gone? ==> PlaceOf(states[k], id).Gone?
    decreases k
  {
    ProvenAlways(cfg, states, steps, k);
    if j < k {
      NothingLost(cfg, states, steps, id, j, k - 1);
      ProvenAlways(cfg, states, steps, k - 1);
      MovesOnly(cfg, states[k - 1], steps[k - 1], id);
    }
  }

  /** How often an id left the dead-letter state along a run. */
  ghost function Leavings(states: seq<State>, id: Id): nat {
    if |states| < 2 then 0
    else Leavings(states[..|states| - 1], id)
         + (if PlaceOf(states[|states| - 2], id).Parked? && !PlaceOf(states[|states| - 1], id).Parked? then 1 else 0)
  }

  lemma OneReplayMore(cfg: Config, s: State, step: Step, id: Id)
    requires Usable(cfg) && Enabled(cfg, s, step) && Conserved(s)
    ensures var t := Apply(cfg, s, step);
            multiset(t.replays)[id] == multiset(s.replays)[id]
              + (if PlaceOf(s, id).Parked? && !PlaceOf(t, id).Parked? then 1 else 0)
  {
    MovesOnly(cfg, s, step, id);
  }

  /** A parked row leaves exactly as often as an operator's replay of it was logged. */
  lemma {:induction false} ReplaysAccountForLeavings(cfg: Config, states: seq<State>, steps: seq<Step>, id: Id)
    requires Usable(cfg) && FullRun(cfg, states, steps)
    ensures Leavings(states, id) == multiset(states[|states| - 1].replays)[id]
    decreases |steps|
  {
    if steps != [] {
      var n := |steps|;
      ReplaysAccountForLeavings(cfg, states[..n], steps[..n - 1], id);
      ProvenAlways(cfg, states, steps, n - 1);
      OneReplayMore(cfg, states[n - 1], steps[n - 1], id);
    }
  }
}
