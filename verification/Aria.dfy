/** The audit review: tallies per caller, and the flags they raise. */
module Aria {
  import opened Text
  import opened Entities
  import opened Ordering
  import opened Cluster

  const BULK_WINDOW := 600_000_000_000
  const BULK_COUNT := 5
  const VOLUME_COUNT := 50
  const DENIAL_COUNT := 5
  const BUSINESS_START := 7
  const BUSINESS_END := 19
  const MAX_EXAMPLES := 5

  /** An audit row with the time it was written. */
  datatype Logged = Logged(at: Time, entry: AuditEntry)

  /** What a briefing keeps of a row: no images. */
  datatype Event = Event(
    at: Time, actor: string, tenant: string, resource: Resource, action: Action, success: bool, target: Option<Uuid>)

  datatype FlagKind = BulkDeactivation | DenialBurst | OffHours | HighVolume

  /** The bounds are zero unless the flag is about a cluster. */
  datatype Finding = Finding(kind: FlagKind, actor: string, count: nat, start: int, end: int)

  datatype Flag = Flag(finding: Finding, examples: seq<Event>)

  datatype Report = Report(total: nat, callers: nat, flags: seq<Flag>)

  datatype Tally = Tally(total: nat, denials: nat, removals: Times)

  /** Weekday, with Sunday as 0, and hour of a moment in the review's time zone. */
  type Zone = int -> (int, int)

  predicate IsOffHours(zone: Zone, at: Time) {
    var (day, hour) := zone(at);
    day == 6 || day == 0 || hour < BUSINESS_START || hour >= BUSINESS_END
  }

  predicate IsRemoval(e: Logged) {
    e.entry.action.Deactivate? || e.entry.action.Delete?
  }

  predicate IsDenial(e: Logged) {
    !e.entry.success
  }

  function ToEvent(e: Logged): Event {
    Event(e.at, e.entry.actor, e.entry.tenant, e.entry.resource, e.entry.action, e.entry.success, e.entry.target)
  }

  // ---- Tallies ----

  function Counted(t: Tally, e: Logged): Tally {
    Tally(
      t.total + 1,
      t.denials + (if IsDenial(e) then 1 else 0),
      t.removals + (if IsRemoval(e) then [e.at] else []))
  }

  const NOTHING := Tally(0, 0, [])

  function TallyOf(entries: seq<Logged>, actor: string): Tally {
    if entries == [] then NOTHING
    else
      var n := |entries| - 1;
      var t := TallyOf(entries[..n], actor);
      if entries[n].entry.actor == actor then Counted(t, entries[n]) else t
  }

  function Actors(entries: seq<Logged>): set<string> {
    set e | e in entries :: e.entry.actor
  }

  function OffHoursEvents(entries: seq<Logged>, zone: Zone): seq<Event> {
    if entries == [] then []
    else
      var n := |entries| - 1;
      OffHoursEvents(entries[..n], zone) + (if IsOffHours(zone, entries[n].at) then [ToEvent(entries[n])] else [])
  }

  type Tallies = map<string, Tally>

  ghost predicate TalliesFor(tallies: Tallies, entries: seq<Logged>) {
    tallies.Keys == Actors(entries) && forall a | a in tallies :: tallies[a] == TallyOf(entries, a)
  }

  lemma NextActor(entries: seq<Logged>, i: nat)
    requires i < |entries|
    ensures entries[..i + 1][..i] == entries[..i]
    ensures Actors(entries[..i + 1]) == Actors(entries[..i]) + {entries[i].entry.actor}
  {
  }

  lemma {:induction false} UnseenTally(entries: seq<Logged>, actor: string)
    requires actor !in Actors(entries)
    ensures TallyOf(entries, actor) == NOTHING
  {
    if entries != [] {
      var n := |entries| - 1;
      assert entries[n] in entries && forall e | e in entries[..n] :: e in entries;
      UnseenTally(entries[..n], actor);
    }
  }

  lemma TallyNext(tallies: Tallies, entries: seq<Logged>, i: nat)
    requires i < |entries| && TalliesFor(tallies, entries[..i])
    ensures var a := entries[i].entry.actor;
            var t := Counted(if a in tallies then tallies[a] else NOTHING, entries[i]);
            TalliesFor(tallies[a := t], entries[..i + 1])
  {
    NextActor(entries, i);
    var a := entries[i].entry.actor;
    if a !in tallies {
      UnseenTally(entries[..i], a);
    }
  }

  /** The pass over the entries, in whatever order they come. */
  method Count(entries: seq<Logged>, zone: Zone) returns (tallies: Tallies, offHours: seq<Event>)
    ensures TalliesFor(tallies, entries) && offHours == OffHoursEvents(entries, zone)
  {
    tallies, offHours := map[], [];
    for i := 0 to |entries|
      invariant TalliesFor(tallies, entries[..i]) && offHours == OffHoursEvents(entries[..i], zone)
    {
      var e := entries[i];
      TallyNext(tallies, entries, i);
      NextActor(entries, i);
      var t := if e.entry.actor in tallies then tallies[e.entry.actor] else NOTHING;
      tallies := tallies[e.entry.actor := Counted(t, e)];
      if IsOffHours(zone, e.at) {
        offHours := offHours + [ToEvent(e)];
      }
    }
    assert entries[..|entries|] == entries;
  }

  // ---- Callers, busiest first ----

  type Caller = (nat, string)

  predicate Busier(a: Caller, b: Caller) {
    a.0 > b.0 || (a.0 == b.0 && Less(a.1, b.1))
  }

  lemma BusierIsTotal()
    ensures StrictTotal(Busier)
  {
    forall x: Caller ensures !Busier(x, x) {
      LessIrreflexive(x.1);
    }
    forall x: Caller, y: Caller, z: Caller | Busier(x, y) && Busier(y, z) ensures Busier(x, z) {
      if x.0 == y.0 == z.0 {
        LessTransitive(x.1, y.1, z.1);
      }
    }
    forall x: Caller, y: Caller ensures x == y || Busier(x, y) || Busier(y, x) {
      LessTotal(x.1, y.1);
    }
  }

  function CallerSet(entries: seq<Logged>): set<Caller> {
    set a | a in Actors(entries) :: (TallyOf(entries, a).total, a)
  }

  ghost function Callers(entries: seq<Logged>): seq<Caller> {
    BusierIsTotal();
    SortSet(CallerSet(entries), Busier)
  }

  // ---- Flags ----

  predicate Shows(kind: FlagKind, e: Logged) {
    match kind
    case BulkDeactivation => IsRemoval(e)
    case DenialBurst => IsDenial(e)
    case _ => true
  }

  /** The first few rows of a caller that show the pattern. */
  function Examples(entries: seq<Logged>, kind: FlagKind, actor: string): (r: seq<Event>)
    ensures |r| <= MAX_EXAMPLES
  {
    if entries == [] then []
    else
      var n := |entries| - 1;
      var r := Examples(entries[..n], kind, actor);
      if |r| < MAX_EXAMPLES && entries[n].entry.actor == actor && Shows(kind, entries[n])
      then r + [ToEvent(entries[n])]
      else r
  }

  /** Every row of the caller that shows the pattern, in order. */
  function Showing(entries: seq<Logged>, kind: FlagKind, actor: string): seq<Event> {
    if entries == [] then []
    else
      var n := |entries| - 1;
      Showing(entries[..n], kind, actor)
      + (if entries[n].entry.actor == actor && Shows(kind, entries[n]) then [ToEvent(entries[n])] else [])
  }

  /** The examples are the first five of those, or all of them when there are fewer. */
  lemma {:induction false} ExamplesAreFirst(entries: seq<Logged>, kind: FlagKind, actor: string)
    ensures var all := Showing(entries, kind, actor);
            Examples(entries, kind, actor) == if |all| <= MAX_EXAMPLES then all else all[..MAX_EXAMPLES]
  {
    if entries != [] {
      ExamplesAreFirst(entries[..|entries| - 1], kind, actor);
    }
  }

  lemma {:induction false} ExamplesFull(entries: seq<Logged>, kind: FlagKind, actor: string, i: nat)
    requires i <= |entries| && |Examples(entries[..i], kind, actor)| == MAX_EXAMPLES
    ensures Examples(entries, kind, actor) == Examples(entries[..i], kind, actor)
  {
    if i < |entries| {
      var n := |entries| - 1;
      assert entries[..n][..i] == entries[..i];
      ExamplesFull(entries[..n], kind, actor, i);
    } else {
      assert entries[..i] == entries;
    }
  }

  method ExamplesFor(entries: seq<Logged>, kind: FlagKind, actor: string) returns (out: seq<Event>)
    ensures out == Examples(entries, kind, actor)
  {
    out := [];
    for i := 0 to |entries|
      invariant out == Examples(entries[..i], kind, actor) && |out| < MAX_EXAMPLES
    {
      assert entries[..i + 1][..i] == entries[..i];
      var e := entries[i];
      if e.entry.actor == actor && Shows(kind, e) {
        out := out + [ToEvent(e)];
        if |out| == MAX_EXAMPLES {
          ExamplesFull(entries, kind, actor, i + 1);
          return;
        }
      }
    }
    assert entries[..|entries|] == entries;
  }

  /** What a caller's tally gives rise to. */
  function Found(kind: FlagKind, actor: string, t: Tally): Option<Finding> {
    match kind
    case BulkDeactivation =>
      (match ClusterOf(t.removals, BULK_WINDOW, BULK_COUNT)
       case Some(c) => Some(Finding(kind, actor, c.count, c.start, c.end))
       case None => None)
    case DenialBurst => if t.denials >= DENIAL_COUNT then Some(Finding(kind, actor, t.denials, 0, 0)) else None
    case HighVolume => if t.total >= VOLUME_COUNT then Some(Finding(kind, actor, t.total, 0, 0)) else None
    case OffHours => None
  }

  function Raised(kind: FlagKind, entries: seq<Logged>, callers: seq<Caller>): seq<Flag> {
    if callers == [] then []
    else
      var n := |callers| - 1;
      var actor := callers[n].1;
      Raised(kind, entries, callers[..n])
      + (match Found(kind, actor, TallyOf(entries, actor))
         case Some(f) => [Flag(f, Examples(entries, kind, actor))]
         case None => [])
  }

  function OffHoursFlag(events: seq<Event>): seq<Flag> {
    if events == [] then []
    else
      [Flag(
         Finding(OffHours, "", |events|, 0, 0),
         if |events| <= MAX_EXAMPLES then events else events[..MAX_EXAMPLES])]
  }

  /** All flags, most severe kind first, busiest caller first within a kind. */
  ghost function FlagsOf(entries: seq<Logged>, zone: Zone): seq<Flag> {
    var callers := Callers(entries);
    Raised(BulkDeactivation, entries, callers) + Raised(DenialBurst, entries, callers)
    + OffHoursFlag(OffHoursEvents(entries, zone)) + Raised(HighVolume, entries, callers)
  }

  method FindingFor(kind: FlagKind, actor: string, t: Tally) returns (r: Option<Finding>)
    ensures r == Found(kind, actor, t)
  {
    if kind.BulkDeactivation? {
      var c := MaxCluster(t.removals, BULK_WINDOW, BULK_COUNT);
      r := if c.Some? then Some(Finding(kind, actor, c.value.count, c.value.start, c.value.end)) else None;
    } else {
      r := Found(kind, actor, t);
    }
  }

  /** One loop over the callers, for one kind of flag. */
  method Raise(kind: FlagKind, entries: seq<Logged>, tallies: Tallies, callers: seq<Caller>) returns (flags: seq<Flag>)
    requires TalliesFor(tallies, entries) && forall c | c in callers :: c.1 in tallies
    ensures flags == Raised(kind, entries, callers)
  {
    flags := [];
    for i := 0 to |callers|
      invariant flags == Raised(kind, entries, callers[..i])
    {
      assert callers[..i + 1][..i] == callers[..i];
      assert callers[i] in callers;
      var actor := callers[i].1;
      var f := FindingFor(kind, actor, tallies[actor]);
      if f.Some? {
        var examples := ExamplesFor(entries, kind, actor);
        flags := flags + [Flag(f.value, examples)];
      }
    }
    assert callers[..|callers|] == callers;
  }

  method SortCallers(entries: seq<Logged>, tallies: Tallies) returns (callers: seq<Caller>)
    requires TalliesFor(tallies, entries)
    ensures callers == Callers(entries) && forall c | c in callers :: c.1 in tallies
  {
    BusierIsTotal();
    var found := set a | a in tallies :: (tallies[a].total, a);
    assert found == CallerSet(entries);
    callers := SortInto(found, Busier);
    assert forall c | c in callers :: c in Elements(callers);
  }

  method Detect(entries: seq<Logged>, zone: Zone) returns (r: Report)
    ensures r == Report(|entries|, |Actors(entries)|, FlagsOf(entries, zone))
  {
    var tallies, offHours := Count(entries, zone);
    var callers := SortCallers(entries, tallies);
    var bulk := Raise(BulkDeactivation, entries, tallies, callers);
    var denials := Raise(DenialBurst, entries, tallies, callers);
    var volume := Raise(HighVolume, entries, tallies, callers);
    r := Report(|entries|, |tallies.Keys|, bulk + denials + OffHoursFlag(offHours) + volume);
  }

  // ---- Totals ----

  function SumTotals(callers: seq<Caller>): nat {
    if callers == [] then 0 else SumTotals(callers[..|callers| - 1]) + callers[|callers| - 1].0
  }

  function WithTotals(entries: seq<Logged>, actors: seq<string>): seq<Caller> {
    seq(|actors|, i requires 0 <= i < |actors| => (TallyOf(entries, actors[i]).total, actors[i]))
  }

  ghost predicate Distinct(actors: seq<string>) {
    forall i, j :: 0 <= i < j < |actors| ==> actors[i] != actors[j]
  }

  lemma {:induction false} OneMore(entries: seq<Logged>, actors: seq<string>)
    requires entries != [] && Distinct(actors)
    ensures SumTotals(WithTotals(entries, actors))
         == SumTotals(WithTotals(entries[..|entries| - 1], actors))
           + (if entries[|entries| - 1].entry.actor in actors then 1 else 0)
    decreases |actors|
  {
    if actors != [] {
      var n, front := |actors| - 1, entries[..|entries| - 1];
      OneMore(entries, actors[..n]);
      assert WithTotals(entries, actors)[..n] == WithTotals(entries, actors[..n]);
      assert WithTotals(front, actors)[..n] == WithTotals(front, actors[..n]);
      assert forall a :: a in actors <==> a in actors[..n] || a == actors[n];
    }
  }

  lemma {:induction false} SumOfTotals(entries: seq<Logged>, actors: seq<string>)
    requires Distinct(actors) && forall e | e in entries :: e.entry.actor in actors
    ensures SumTotals(WithTotals(entries, actors)) == |entries|
    decreases |entries|
  {
    if entries == [] {
      NoTotals(actors);
    } else {
      var n := |entries| - 1;
      assert entries[n] in entries;
      OneMore(entries, actors);
      SumOfTotals(entries[..n], actors);
    }
  }

  lemma {:induction false} NoTotals(actors: seq<string>)
    ensures SumTotals(WithTotals([], actors)) == 0
  {
    if actors != [] {
      var n := |actors| - 1;
      NoTotals(actors[..n]);
      assert WithTotals([], actors)[..n] == WithTotals([], actors[..n]);
    }
  }

  /** Every entry is counted for exactly one caller. */
  lemma TalliesAddUp(entries: seq<Logged>)
    ensures SumTotals(Callers(entries)) == |entries|
  {
    var callers := Callers(entries);
    BusierIsTotal();
    assert forall c :: c in callers <==> c in Elements(callers);
    var actors := seq(|callers|, i requires 0 <= i < |callers| => callers[i].1);
    forall i | 0 <= i < |callers| ensures callers[i].0 == TallyOf(entries, actors[i]).total {
      assert callers[i] in callers;
    }
    assert WithTotals(entries, actors) == callers;
    forall i, j | 0 <= i < j < |actors| ensures actors[i] != actors[j] {
      assert Busier(callers[i], callers[j]);
    }
    forall e | e in entries ensures e.entry.actor in actors {
      var c := (TallyOf(entries, e.entry.actor).total, e.entry.actor);
      assert c in callers;
      var i :| 0 <= i < |callers| && callers[i] == c;
      assert actors[i] == e.entry.actor;
    }
    SumOfTotals(entries, actors);
  }

  // ---- The order of the entries does not matter ----

  /** Equal up to the order of the removal times. */
  predicate Alike(s: Tally, t: Tally) {
    s.total == t.total && s.denials == t.denials && multiset(s.removals) == multiset(t.removals)
  }

  function Joined(s: Tally, t: Tally): Tally {
    Tally(s.total + t.total, s.denials + t.denials, s.removals + t.removals)
  }

  lemma {:induction false} TallyConcat(a: seq<Logged>, b: seq<Logged>, actor: string)
    ensures TallyOf(a + b, actor) == Joined(TallyOf(a, actor), TallyOf(b, actor))
  {
    if b == [] {
      assert a + b == a;
    } else {
      var n := |b| - 1;
      assert (a + b)[..|a| + n] == a + b[..n];
      TallyConcat(a, b[..n], actor);
    }
  }

  lemma {:induction false} TallyForgetsOrder(a: seq<Logged>, b: seq<Logged>, actor: string)
    requires multiset(a) == multiset(b)
    ensures Alike(TallyOf(a, actor), TallyOf(b, actor))
    decreases |a|
  {
    SameLength(a, b);
    if a != [] {
      var n := |a| - 1;
      var l, h := TakeOut(a, b);
      var m := [a[n]];
      TallyForgetsOrder(a[..n], l + h, actor);
      assert a == a[..n] + m;
      TallyConcat(a[..n], m, actor);
      TallyConcat(l + m, h, actor);
      TallyConcat(l, m, actor);
      TallyConcat(l, h, actor);
    }
  }

  lemma ClusterForgetsOrder(a: Times, b: Times)
    requires multiset(a) == multiset(b)
    ensures ClusterOf(a, BULK_WINDOW, BULK_COUNT) == ClusterOf(b, BULK_WINDOW, BULK_COUNT)
  {
    SortForgetsOrder(a, b);
    SameLength(a, b);
  }

  lemma FoundForgetsOrder(kind: FlagKind, actor: string, s: Tally, t: Tally)
    requires Alike(s, t)
    ensures Found(kind, actor, s) == Found(kind, actor, t)
  {
    if kind.BulkDeactivation? {
      ClusterForgetsOrder(s.removals, t.removals);
    }
  }

  lemma CallersForgetOrder(a: seq<Logged>, b: seq<Logged>)
    requires multiset(a) == multiset(b)
    ensures Actors(a) == Actors(b) && Callers(a) == Callers(b)
  {
    assert forall e :: e in a <==> e in multiset(a);
    assert forall e :: e in b <==> e in multiset(b);
    forall actor ensures TallyOf(a, actor).total == TallyOf(b, actor).total {
      TallyForgetsOrder(a, b, actor);
    }
    assert CallerSet(a) == CallerSet(b);
  }

  lemma {:induction false} OffHoursConcat(a: seq<Logged>, b: seq<Logged>, zone: Zone)
    ensures OffHoursEvents(a + b, zone) == OffHoursEvents(a, zone) + OffHoursEvents(b, zone)
  {
    if b == [] {
      assert a + b == a;
    } else {
      var n := |b| - 1;
      assert (a + b)[..|a| + n] == a + b[..n];
      OffHoursConcat(a, b[..n], zone);
    }
  }

  lemma {:induction false} OffHoursForgetsOrder(a: seq<Logged>, b: seq<Logged>, zone: Zone)
    requires multiset(a) == multiset(b)
    ensures |OffHoursEvents(a, zone)| == |OffHoursEvents(b, zone)|
    decreases |a|
  {
    SameLength(a, b);
    if a != [] {
      var n := |a| - 1;
      var l, h := TakeOut(a, b);
      var m := [a[n]];
      OffHoursForgetsOrder(a[..n], l + h, zone);
      assert a == a[..n] + m;
      OffHoursConcat(a[..n], m, zone);
      OffHoursConcat(l + m, h, zone);
      OffHoursConcat(l, m, zone);
      OffHoursConcat(l, h, zone);
    }
  }

  function Findings(flags: seq<Flag>): seq<Finding> {
    seq(|flags|, i requires 0 <= i < |flags| => flags[i].finding)
  }

  lemma RaisedFront(kind: FlagKind, entries: seq<Logged>, callers: seq<Caller>)
    requires callers != []
    ensures var n := |callers| - 1;
            var f := Found(kind, callers[n].1, TallyOf(entries, callers[n].1));
            Findings(Raised(kind, entries, callers))
            == Findings(Raised(kind, entries, callers[..n])) + (if f.Some? then [f.value] else [])
  {
  }

  lemma {:induction false} RaisedForgetsOrder(kind: FlagKind, a: seq<Logged>, b: seq<Logged>, callers: seq<Caller>)
    requires multiset(a) == multiset(b)
    ensures Findings(Raised(kind, a, callers)) == Findings(Raised(kind, b, callers))
  {
    if callers != [] {
      var n := |callers| - 1;
      var actor := callers[n].1;
      RaisedForgetsOrder(kind, a, b, callers[..n]);
      TallyForgetsOrder(a, b, actor);
      FoundForgetsOrder(kind, actor, TallyOf(a, actor), TallyOf(b, actor));
      RaisedFront(kind, a, callers);
      RaisedFront(kind, b, callers);
    }
  }

  lemma OffHoursFinding(a: seq<Event>, b: seq<Event>)
    requires |a| == |b|
    ensures Findings(OffHoursFlag(a)) == Findings(OffHoursFlag(b))
  {
  }

  /** Kinds, callers, counts and windows of the flags are the same for every order of the entries. */
  lemma DetectForgetsOrder(a: seq<Logged>, b: seq<Logged>, zone: Zone)
    requires multiset(a) == multiset(b)
    ensures |a| == |b| && Actors(a) == Actors(b)
    ensures Findings(FlagsOf(a, zone)) == Findings(FlagsOf(b, zone))
  {
    SameLength(a, b);
    CallersForgetOrder(a, b);
    OffHoursForgetsOrder(a, b, zone);
    OffHoursFinding(OffHoursEvents(a, zone), OffHoursEvents(b, zone));
    var callers := Callers(a);
    RaisedForgetsOrder(BulkDeactivation, a, b, callers);
    RaisedForgetsOrder(DenialBurst, a, b, callers);
    RaisedForgetsOrder(HighVolume, a, b, callers);
    FindingsOf(a, zone);
    FindingsOf(b, zone);
  }

  lemma FindingsOf(entries: seq<Logged>, zone: Zone)
    ensures var callers := Callers(entries);
            Findings(FlagsOf(entries, zone)) ==
              Findings(Raised(BulkDeactivation, entries, callers)) + Findings(Raised(DenialBurst, entries, callers))
              + Findings(OffHoursFlag(OffHoursEvents(entries, zone))) + Findings(Raised(HighVolume, entries, callers))
  {
    var callers := Callers(entries);
    FourFindings(
      Raised(BulkDeactivation, entries, callers), Raised(DenialBurst, entries, callers),
      OffHoursFlag(OffHoursEvents(entries, zone)), Raised(HighVolume, entries, callers));
  }

  lemma FourFindings(a: seq<Flag>, b: seq<Flag>, c: seq<Flag>, d: seq<Flag>)
    ensures Findings(a + b + c + d) == Findings(a) + Findings(b) + Findings(c) + Findings(d)
  {
  }
}
