/** When the audit review raises which flag, counted directly on the entries. */
module AriaExact {
  import opened Text
  import opened Entities
  import opened Ordering
  import opened Cluster
  import opened Aria

  // ---- What a caller's tally counts ----

  /** The places of the rows that meet a condition. */
  function Where(entries: seq<Logged>, p: Logged -> bool): set<nat> {
    set i: nat | i < |entries| && p(entries[i])
  }

  lemma WhereNext(entries: seq<Logged>, p: Logged -> bool)
    requires entries != []
    ensures var n := |entries| - 1; |Where(entries, p)| == |Where(entries[..n], p)| + (if p(entries[n]) then 1 else 0)
  {
    var n := |entries| - 1;
    assert Where(entries, p) == Where(entries[..n], p) + (if p(entries[n]) then {n} else {});
  }

  /** The caller's rows. */
  function OfCaller(entries: seq<Logged>, actor: string): set<nat> {
    Where(entries, (e: Logged) => e.entry.actor == actor)
  }

  /** The caller's refused requests. */
  function DenialsOf(entries: seq<Logged>, actor: string): set<nat> {
    Where(entries, (e: Logged) => e.entry.actor == actor && !e.entry.success)
  }

  /** A deactivation or delete by the caller, successful or not, between two moments, both included. */
  predicate Removes(e: Logged, actor: string, lo: Time, hi: Time) {
    e.entry.actor == actor && (e.entry.action == Deactivate || e.entry.action == Delete) && lo <= e.at <= hi
  }

  function RemovalsOf(entries: seq<Logged>, actor: string, lo: Time, hi: Time): set<nat> {
    Where(entries, (e: Logged) => Removes(e, actor, lo, hi))
  }

  /** Written on a weekend, before seven or from seven in the evening on. */
  predicate OutOfHours(zone: Zone, e: Logged) {
    zone(e.at).0 == 0 || zone(e.at).0 == 6 || zone(e.at).1 < 7 || zone(e.at).1 >= 19
  }

  function OffHoursOf(entries: seq<Logged>, zone: Zone): set<nat> {
    Where(entries, (e: Logged) => OutOfHours(zone, e))
  }

  lemma {:induction false} TotalExactly(entries: seq<Logged>, actor: string)
    ensures TallyOf(entries, actor).total == |OfCaller(entries, actor)|
  {
    if entries != [] {
      TotalExactly(entries[..|entries| - 1], actor);
      WhereNext(entries, (e: Logged) => e.entry.actor == actor);
    }
  }

  lemma {:induction false} DenialsExactly(entries: seq<Logged>, actor: string)
    ensures TallyOf(entries, actor).denials == |DenialsOf(entries, actor)|
  {
    if entries != [] {
      DenialsExactly(entries[..|entries| - 1], actor);
      WhereNext(entries, (e: Logged) => e.entry.actor == actor && !e.entry.success);
    }
  }

  lemma CountNext(times: Times, at: Time, lo: Time, hi: Time)
    ensures CountIn(times + [at], lo, hi) == CountIn(times, lo, hi) + (if lo <= at <= hi then 1 else 0)
  {
    assert (times + [at])[..|times|] == times;
  }

  lemma RemovalsNext(entries: seq<Logged>, actor: string)
    requires entries != []
    ensures var n := |entries| - 1;
            var e, was := entries[n], TallyOf(entries[..n], actor).removals;
            TallyOf(entries, actor).removals
            == if e.entry.actor == actor && (e.entry.action == Deactivate || e.entry.action == Delete)
               then was + [e.at] else was
  {
  }

  lemma {:induction false} RemovalsExactly(entries: seq<Logged>, actor: string, lo: Time, hi: Time)
    ensures CountIn(TallyOf(entries, actor).removals, lo, hi) == |RemovalsOf(entries, actor, lo, hi)|
  {
    if entries != [] {
      var n := |entries| - 1;
      RemovalsExactly(entries[..n], actor, lo, hi);
      RemovalsNext(entries, actor);
      CountNext(TallyOf(entries[..n], actor).removals, entries[n].at, lo, hi);
      WhereNext(entries, (e: Logged) => Removes(e, actor, lo, hi));
    }
  }

  /** The removal times themselves: those of the caller's deactivations and deletes, as often as they occur. */
  lemma RemovalTimesExactly(entries: seq<Logged>, actor: string, at: Time)
    ensures multiset(TallyOf(entries, actor).removals)[at] == |RemovalsOf(entries, actor, at, at)|
  {
    RemovalsExactly(entries, actor, at, at);
    CountAt(TallyOf(entries, actor).removals, at);
  }

  lemma {:induction false} CountAt(times: Times, at: Time)
    ensures CountIn(times, at, at) == multiset(times)[at]
  {
    if times != [] {
      CountAt(times[..|times| - 1], at);
      assert times == times[..|times| - 1] + [times[|times| - 1]];
    }
  }

  lemma {:induction false} OffHoursExactly(entries: seq<Logged>, zone: Zone)
    ensures |OffHoursEvents(entries, zone)| == |OffHoursOf(entries, zone)|
  {
    if entries != [] {
      OffHoursExactly(entries[..|entries| - 1], zone);
      WhereNext(entries, (e: Logged) => OutOfHours(zone, e));
    }
  }

  // ---- Which flags there are ----

  /** The report holds this finding. */
  ghost predicate Raises(flags: seq<Flag>, f: Finding) {
    exists k :: 0 <= k < |flags| && flags[k].finding == f
  }

  /** Whoever raises a flag of one kind raises it with what the tally gives rise to. */
  lemma {:induction false} RaisedExactly(kind: FlagKind, entries: seq<Logged>, callers: seq<Caller>, f: Finding)
    ensures Raises(Raised(kind, entries, callers), f) <==>
              exists i :: 0 <= i < |callers|
                && Found(kind, callers[i].1, TallyOf(entries, callers[i].1)) == Some(f)
  {
    if callers != [] {
      var n := |callers| - 1;
      var front, all := Raised(kind, entries, callers[..n]), Raised(kind, entries, callers);
      RaisedExactly(kind, entries, callers[..n], f);
      assert forall k :: 0 <= k < |front| ==> all[k] == front[k];
      assert forall i :: 0 <= i < n ==> callers[..n][i] == callers[i];
      if Found(kind, callers[n].1, TallyOf(entries, callers[n].1)) == Some(f) {
        assert all[|front|].finding == f;
      }
      if Raises(front, f) {
        var k :| 0 <= k < |front| && front[k].finding == f;
        assert all[k].finding == f;
      }
    }
  }

  lemma CallersAreActors(entries: seq<Logged>, actor: string)
    ensures OfCaller(entries, actor) != {} <==>
              exists i :: 0 <= i < |Callers(entries)| && Callers(entries)[i].1 == actor
  {
    var callers := Callers(entries);
    BusierIsTotal();
    assert forall c :: c in callers <==> c in Elements(callers);
    if OfCaller(entries, actor) != {} {
      var j :| j in OfCaller(entries, actor);
      assert entries[j] in entries && actor in Actors(entries);
      assert (TallyOf(entries, actor).total, actor) in callers;
    }
    if i :| 0 <= i < |callers| && callers[i].1 == actor {
      assert callers[i] in callers;
      var e :| e in entries && e.entry.actor == actor;
      var j :| 0 <= j < |entries| && entries[j] == e;
      assert j in OfCaller(entries, actor);
    }
  }

  /** A finding about a caller that made no request would need a count of nothing. */
  lemma FoundNeedsRows(kind: FlagKind, entries: seq<Logged>, actor: string)
    requires Found(kind, actor, TallyOf(entries, actor)).Some?
    ensures OfCaller(entries, actor) != {}
  {
    if OfCaller(entries, actor) == {} {
      forall e | e in entries ensures e.entry.actor != actor {
        var j :| 0 <= j < |entries| && entries[j] == e;
        assert j !in OfCaller(entries, actor);
      }
      UnseenTally(entries, actor);
    }
  }

  lemma RaisesConcat(a: seq<Flag>, b: seq<Flag>, f: Finding)
    ensures Raises(a + b, f) <==> Raises(a, f) || Raises(b, f)
  {
    assert forall k :: 0 <= k < |a| ==> (a + b)[k] == a[k];
    assert forall k :: 0 <= k < |b| ==> (a + b)[|a| + k] == b[k];
  }

  lemma FourRaises(a: seq<Flag>, b: seq<Flag>, c: seq<Flag>, d: seq<Flag>, f: Finding)
    ensures Raises(a + b + c + d, f) <==> Raises(a, f) || Raises(b, f) || Raises(c, f) || Raises(d, f)
  {
    RaisesConcat(a + b + c, d, f);
    RaisesConcat(a + b, c, f);
    RaisesConcat(a, b, f);
  }

  /** Among the callers of a report, a kind of flag is raised for whoever's tally gives rise to it. */
  lemma RaisedForCallers(kind: FlagKind, entries: seq<Logged>, f: Finding)
    ensures Raises(Raised(kind, entries, Callers(entries)), f) <==>
              f.kind == kind && Found(kind, f.actor, TallyOf(entries, f.actor)) == Some(f)
  {
    RaisedExactly(kind, entries, Callers(entries), f);
    if Found(kind, f.actor, TallyOf(entries, f.actor)) == Some(f) {
      FoundNeedsRows(kind, entries, f.actor);
      CallersAreActors(entries, f.actor);
    }
  }

  /** The report raises what some caller's tally gives rise to, and the off-hours finding. */
  lemma FlagsExactly(entries: seq<Logged>, zone: Zone, f: Finding)
    ensures Raises(FlagsOf(entries, zone), f) <==>
              if f.kind == OffHours then Raises(OffHoursFlag(OffHoursEvents(entries, zone)), f)
              else Found(f.kind, f.actor, TallyOf(entries, f.actor)) == Some(f)
  {
    var callers := Callers(entries);
    var off := OffHoursFlag(OffHoursEvents(entries, zone));
    FourRaises(Raised(BulkDeactivation, entries, callers), Raised(DenialBurst, entries, callers),
               off, Raised(HighVolume, entries, callers), f);
    RaisedForCallers(BulkDeactivation, entries, f);
    RaisedForCallers(DenialBurst, entries, f);
    RaisedForCallers(HighVolume, entries, f);
    assert Raises(off, f) ==> f.kind == OffHours;
  }

  /** A denial burst is raised for a caller exactly when it was refused at least five times, and carries the number. */
  lemma DenialBurstExactly(entries: seq<Logged>, zone: Zone, actor: string, count: nat, start: int, end: int)
    ensures Raises(FlagsOf(entries, zone), Finding(DenialBurst, actor, count, start, end)) <==>
              count == |DenialsOf(entries, actor)| >= 5 && start == end == 0
  {
    FlagsExactly(entries, zone, Finding(DenialBurst, actor, count, start, end));
    DenialsExactly(entries, actor);
  }

  /** High volume is raised exactly when a caller has at least fifty rows. */
  lemma HighVolumeExactly(entries: seq<Logged>, zone: Zone, actor: string, count: nat, start: int, end: int)
    ensures Raises(FlagsOf(entries, zone), Finding(HighVolume, actor, count, start, end)) <==>
              count == |OfCaller(entries, actor)| >= 50 && start == end == 0
  {
    FlagsExactly(entries, zone, Finding(HighVolume, actor, count, start, end));
    TotalExactly(entries, actor);
  }

  /** One off-hours flag, about no caller, exactly when some row was written off hours; it carries how many. */
  lemma OffHoursRaisedExactly(entries: seq<Logged>, zone: Zone, actor: string, count: nat, start: int, end: int)
    ensures Raises(FlagsOf(entries, zone), Finding(OffHours, actor, count, start, end)) <==>
              count == |OffHoursOf(entries, zone)| >= 1 && actor == "" && start == end == 0
  {
    var events := OffHoursEvents(entries, zone);
    FlagsExactly(entries, zone, Finding(OffHours, actor, count, start, end));
    OffHoursExactly(entries, zone);
    if events != [] {
      assert OffHoursFlag(events)[0].finding == Finding(OffHours, "", |events|, 0, 0);
    }
  }

  /** Some ten minutes, both ends included, hold at least that many of the caller's removals. */
  ghost predicate Burst(entries: seq<Logged>, actor: string, count: nat) {
    exists lo, hi :: lo <= hi <= lo + 600_000_000_000 && |RemovalsOf(entries, actor, lo, hi)| >= count
  }

  /**
   Bulk deactivation is raised for a caller exactly when some ten minutes hold at least five of its removals;
   the count is the most that any ten minutes hold, and the bounds hold that many and are the first to do so.
   */
  lemma BulkExactly(entries: seq<Logged>, zone: Zone, actor: string)
    ensures (exists count: nat, start, end ::
              Raises(FlagsOf(entries, zone), Finding(BulkDeactivation, actor, count, start, end)))
            <==> Burst(entries, actor, 5)
    ensures forall count: nat, start, end |
              Raises(FlagsOf(entries, zone), Finding(BulkDeactivation, actor, count, start, end)) ::
              && !Burst(entries, actor, count + 1)
              && start <= end <= start + 600_000_000_000 && |RemovalsOf(entries, actor, start, end)| == count
              && forall lo, hi | lo <= hi <= lo + 600_000_000_000 && hi < end ::
                   |RemovalsOf(entries, actor, lo, hi)| < count
  {
    var times := TallyOf(entries, actor).removals;
    var c := ClusterOf(times, BULK_WINDOW, BULK_COUNT);
    ClusterIsDensest(times, BULK_WINDOW, BULK_COUNT);
    forall lo, hi ensures CountIn(times, lo, hi) == |RemovalsOf(entries, actor, lo, hi)| {
      RemovalsExactly(entries, actor, lo, hi);
    }
    forall count: nat, start, end
      ensures Raises(FlagsOf(entries, zone), Finding(BulkDeactivation, actor, count, start, end)) <==>
              c == Some(Span(count, start, end))
    {
      FlagsExactly(entries, zone, Finding(BulkDeactivation, actor, count, start, end));
    }
    assert AtLeast(times, BULK_WINDOW, BULK_COUNT) <==> Burst(entries, actor, 5);
    if c.Some? {
      var span := c.value;
      assert Raises(FlagsOf(entries, zone), Finding(BulkDeactivation, actor, span.count, span.start, span.end));
    }
  }

  // ---- Their order ----

  /** Most severe first. */
  function Severity(kind: FlagKind): nat {
    match kind
    case BulkDeactivation => 0
    case DenialBurst => 1
    case OffHours => 2
    case HighVolume => 3
  }

  /** Severer first; within a kind the caller with more rows first, and of two with as many the lesser name. */
  ghost predicate Precedes(entries: seq<Logged>, f: Finding, g: Finding) {
    || Severity(f.kind) < Severity(g.kind)
    || (f.kind == g.kind
        && (|OfCaller(entries, f.actor)| > |OfCaller(entries, g.actor)|
            || (|OfCaller(entries, f.actor)| == |OfCaller(entries, g.actor)| && Less(f.actor, g.actor))))
  }

  ghost predicate InOrder(entries: seq<Logged>, flags: seq<Flag>) {
    forall i, j :: 0 <= i < j < |flags| ==> Precedes(entries, flags[i].finding, flags[j].finding)
  }

  lemma {:induction false} RaisedFrom(kind: FlagKind, entries: seq<Logged>, callers: seq<Caller>, k: nat)
    returns (i: nat)
    requires k < |Raised(kind, entries, callers)|
    ensures i < |callers| && Raised(kind, entries, callers)[k].finding.actor == callers[i].1
  {
    var n := |callers| - 1;
    if k < |Raised(kind, entries, callers[..n])| {
      i := RaisedFrom(kind, entries, callers[..n], k);
    } else {
      i := n;
    }
  }

  lemma {:induction false} RaisedInOrder(kind: FlagKind, entries: seq<Logged>, callers: seq<Caller>)
    requires forall i, j :: 0 <= i < j < |callers| ==> Busier(callers[i], callers[j])
    requires forall i :: 0 <= i < |callers| ==> callers[i].0 == |OfCaller(entries, callers[i].1)|
    ensures InOrder(entries, Raised(kind, entries, callers))
  {
    if callers != [] {
      var n := |callers| - 1;
      var front, all := Raised(kind, entries, callers[..n]), Raised(kind, entries, callers);
      RaisedInOrder(kind, entries, callers[..n]);
      RaisedKind(kind, entries, callers);
      forall i, j | 0 <= i < j < |all| ensures Precedes(entries, all[i].finding, all[j].finding) {
        if j < |front| {
          assert all[i] == front[i] && all[j] == front[j];
        } else {
          var c := RaisedFrom(kind, entries, callers[..n], i);
          assert all[i] == front[i] && Busier(callers[c], callers[n]);
        }
      }
    }
  }

  lemma OrderConcat(entries: seq<Logged>, a: seq<Flag>, b: seq<Flag>, s: nat)
    requires InOrder(entries, a) && InOrder(entries, b)
    requires forall i :: 0 <= i < |a| ==> Severity(a[i].finding.kind) < s
    requires forall i :: 0 <= i < |b| ==> Severity(b[i].finding.kind) == s
    ensures InOrder(entries, a + b) && forall i :: 0 <= i < |a + b| ==> Severity((a + b)[i].finding.kind) < s + 1
  {
  }

  lemma {:induction false} RaisedKind(kind: FlagKind, entries: seq<Logged>, callers: seq<Caller>)
    ensures forall k :: 0 <= k < |Raised(kind, entries, callers)| ==>
              Raised(kind, entries, callers)[k].finding.kind == kind
  {
    if callers != [] {
      RaisedKind(kind, entries, callers[..|callers| - 1]);
    }
  }

  /** The report reads worst first: by severity of the kind, then busiest caller first, ties by name. */
  lemma FlagsInOrder(entries: seq<Logged>, zone: Zone)
    ensures InOrder(entries, FlagsOf(entries, zone))
  {
    var callers := Callers(entries);
    BusierIsTotal();
    assert forall c :: c in callers <==> c in Elements(callers);
    forall i | 0 <= i < |callers| ensures callers[i].0 == |OfCaller(entries, callers[i].1)| {
      assert callers[i] in callers;
      TotalExactly(entries, callers[i].1);
    }
    var bulk, denials := Raised(BulkDeactivation, entries, callers), Raised(DenialBurst, entries, callers);
    var off, volume := OffHoursFlag(OffHoursEvents(entries, zone)), Raised(HighVolume, entries, callers);
    RaisedInOrder(BulkDeactivation, entries, callers);
    RaisedInOrder(DenialBurst, entries, callers);
    RaisedInOrder(HighVolume, entries, callers);
    RaisedKind(BulkDeactivation, entries, callers);
    RaisedKind(DenialBurst, entries, callers);
    RaisedKind(HighVolume, entries, callers);
    OrderConcat(entries, bulk, denials, 1);
    OrderConcat(entries, bulk + denials, off, 2);
    OrderConcat(entries, bulk + denials + off, volume, 3);
  }

  // ---- What a flag shows ----

  /** Which of a caller's rows a flag of each kind is about. */
  predicate About(kind: FlagKind, e: Logged, actor: string) {
    && e.entry.actor == actor
    && (kind == BulkDeactivation ==> e.entry.action == Deactivate || e.entry.action == Delete)
    && (kind == DenialBurst ==> !e.entry.success)
  }

  /** `picks` are the places, in order, of the first five such rows, or of all when there are fewer. */
  ghost predicate FirstFive(entries: seq<Logged>, p: Logged -> bool, picks: seq<nat>) {
    && |picks| <= 5
    && (forall i :: 0 <= i < |picks| ==> picks[i] in Where(entries, p))
    && (forall i, j :: 0 <= i < j < |picks| ==> picks[i] < picks[j])
    && (forall k | k in Where(entries, p) && k !in picks :: |picks| == 5 && picks[4] < k)
  }

  lemma PickNext(entries: seq<Logged>, p: Logged -> bool, picks: seq<nat>)
    requires entries != [] && FirstFive(entries[..|entries| - 1], p, picks)
    ensures var n := |entries| - 1;
            FirstFive(entries, p, if |picks| < 5 && p(entries[n]) then picks + [n] else picks)
  {
    var n := |entries| - 1;
    assert forall k :: k in Where(entries[..n], p) <==> k in Where(entries, p) && k < n;
  }

  /** A row as a briefing shows it: seven of its fields, and no images. */
  ghost predicate Shown(e: Logged, v: Event) {
    v == Event(e.at, e.entry.actor, e.entry.tenant, e.entry.resource, e.entry.action, e.entry.success, e.entry.target)
  }

  ghost predicate ShownAt(entries: seq<Logged>, picks: seq<nat>, events: seq<Event>) {
    && |picks| == |events|
    && forall i :: 0 <= i < |picks| ==> picks[i] < |entries| && Shown(entries[picks[i]], events[i])
  }

  /** `events` are those rows. */
  ghost predicate ShowsFirstFive(entries: seq<Logged>, p: Logged -> bool, events: seq<Event>) {
    exists picks :: FirstFive(entries, p, picks) && ShownAt(entries, picks, events)
  }

  lemma ShownNext(entries: seq<Logged>, picks: seq<nat>, events: seq<Event>)
    requires entries != [] && ShownAt(entries[..|entries| - 1], picks, events)
    ensures ShownAt(entries, picks, events)
    ensures ShownAt(entries, picks + [|entries| - 1], events + [ToEvent(entries[|entries| - 1])])
  {
    var n := |entries| - 1;
    forall i | 0 <= i < |picks| ensures picks[i] < |entries| && Shown(entries[picks[i]], events[i]) {
      assert picks[i] < n && entries[picks[i]] == entries[..n][picks[i]];
    }
  }

  lemma ShowNext(entries: seq<Logged>, p: Logged -> bool, events: seq<Event>)
    requires entries != [] && ShowsFirstFive(entries[..|entries| - 1], p, events)
    ensures var e := entries[|entries| - 1];
            ShowsFirstFive(entries, p, if |events| < 5 && p(e) then events + [ToEvent(e)] else events)
  {
    var n := |entries| - 1;
    var picks :| FirstFive(entries[..n], p, picks) && ShownAt(entries[..n], picks, events);
    PickNext(entries, p, picks);
    ShownNext(entries, picks, events);
  }

  /** The examples of a caller's flag are the first five of its rows that show the pattern. */
  lemma {:induction false} ExamplesExactly(entries: seq<Logged>, kind: FlagKind, actor: string)
    ensures ShowsFirstFive(entries, (e: Logged) => About(kind, e, actor), Examples(entries, kind, actor))
  {
    var p := (e: Logged) => About(kind, e, actor);
    if entries != [] {
      ExamplesExactly(entries[..|entries| - 1], kind, actor);
      ShowNext(entries, p, Examples(entries[..|entries| - 1], kind, actor));
    } else {
      assert FirstFive([], p, []);
    }
  }

  function FirstOf(events: seq<Event>): seq<Event> {
    if |events| <= 5 then events else events[..5]
  }

  /** Those of the off-hours flag are the first five rows written off hours, whoever wrote them. */
  lemma {:induction false} OffHoursExamples(entries: seq<Logged>, zone: Zone)
    ensures ShowsFirstFive(
              entries,
              (e: Logged) => OutOfHours(zone, e),
              FirstOf(OffHoursEvents(entries, zone)))
  {
    var p := (e: Logged) => OutOfHours(zone, e);
    if entries != [] {
      OffHoursExamples(entries[..|entries| - 1], zone);
      ShowNext(entries, p, FirstOf(OffHoursEvents(entries[..|entries| - 1], zone)));
    } else {
      assert FirstFive([], p, []);
    }
  }

  lemma {:induction false} RaisedExamples(kind: FlagKind, entries: seq<Logged>, callers: seq<Caller>, k: nat)
    requires k < |Raised(kind, entries, callers)|
    ensures var flag := Raised(kind, entries, callers)[k];
            flag.examples == Examples(entries, kind, flag.finding.actor)
  {
    var n := |callers| - 1;
    if k < |Raised(kind, entries, callers[..n])| {
      RaisedExamples(kind, entries, callers[..n], k);
    }
  }

  /** The flag carries the first five rows it is about. */
  ghost predicate Illustrated(entries: seq<Logged>, zone: Zone, flag: Flag) {
    ShowsFirstFive(
      entries,
      if flag.finding.kind == OffHours then (e: Logged) => OutOfHours(zone, e)
      else (e: Logged) => About(flag.finding.kind, e, flag.finding.actor),
      flag.examples)
  }

  lemma RaisedIllustrated(kind: FlagKind, entries: seq<Logged>, zone: Zone, callers: seq<Caller>)
    requires kind != OffHours
    ensures AllIllustrated(entries, zone, Raised(kind, entries, callers))
  {
    var flags := Raised(kind, entries, callers);
    RaisedKind(kind, entries, callers);
    forall k | 0 <= k < |flags| ensures Illustrated(entries, zone, flags[k]) {
      RaisedExamples(kind, entries, callers, k);
      ExamplesExactly(entries, kind, flags[k].finding.actor);
    }
  }

  ghost predicate AllIllustrated(entries: seq<Logged>, zone: Zone, flags: seq<Flag>) {
    forall k :: 0 <= k < |flags| ==> Illustrated(entries, zone, flags[k])
  }

  lemma IllustratedConcat(entries: seq<Logged>, zone: Zone, a: seq<Flag>, b: seq<Flag>)
    requires AllIllustrated(entries, zone, a) && AllIllustrated(entries, zone, b)
    ensures AllIllustrated(entries, zone, a + b)
  {
    forall k | 0 <= k < |a + b| ensures Illustrated(entries, zone, (a + b)[k]) {
      if k < |a| {
        assert Illustrated(entries, zone, a[k]);
      } else {
        assert Illustrated(entries, zone, b[k - |a|]);
      }
    }
  }

  lemma OffHoursIllustrated(entries: seq<Logged>, zone: Zone)
    ensures AllIllustrated(entries, zone, OffHoursFlag(OffHoursEvents(entries, zone)))
  {
    OffHoursExamples(entries, zone);
  }

  /** So does every flag of a report. */
  lemma FlagExamples(entries: seq<Logged>, zone: Zone)
    ensures AllIllustrated(entries, zone, FlagsOf(entries, zone))
  {
    var callers := Callers(entries);
    var bulk, denials := Raised(BulkDeactivation, entries, callers), Raised(DenialBurst, entries, callers);
    var off, volume := OffHoursFlag(OffHoursEvents(entries, zone)), Raised(HighVolume, entries, callers);
    RaisedIllustrated(BulkDeactivation, entries, zone, callers);
    RaisedIllustrated(DenialBurst, entries, zone, callers);
    RaisedIllustrated(HighVolume, entries, zone, callers);
    OffHoursIllustrated(entries, zone);
    IllustratedConcat(entries, zone, bulk, denials);
    IllustratedConcat(entries, zone, bulk + denials, off);
    IllustratedConcat(entries, zone, bulk + denials + off, volume);
  }
}
