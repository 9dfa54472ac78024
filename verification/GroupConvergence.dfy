/**
 A receiver that keeps the newest event per group. A delete is stamped with the process clock and
 every other event with the database clock, so convergence hangs on how the two compare.
 */
module GroupConvergence {
  import opened Text
  import opened Entities
  import opened Store
  import opened Convergence
  import History

  predicate IsGroupEvent(d: Delivery) {
    || (d.payload.after.Some? && d.payload.after.value.GroupImage?)
    || (d.payload.after.None? && d.payload.before.Some? && d.payload.before.value.GroupImage?)
  }

  /** What the event says the group is: nothing, after a delete. */
  function Told(d: Delivery): Option<Group>
    requires IsGroupEvent(d)
  {
    if d.payload.after.Some? then Some(d.payload.after.value.group) else None
  }

  function About(d: Delivery): Uuid
    requires IsGroupEvent(d)
  {
    if d.payload.after.Some? then d.payload.after.value.group.id else d.payload.before.value.group.id
  }

  /** Per group, the newest time seen and what the group was as of then. */
  type GroupCopy = map<Uuid, (Time, Option<Group>)>

  function Receive(copy: GroupCopy, d: Delivery): GroupCopy {
    if !IsGroupEvent(d) then copy
    else if About(d) in copy && copy[About(d)].0 >= d.payload.occurredAt then copy
    else copy[About(d) := (d.payload.occurredAt, Told(d))]
  }

  function ReceiveAll(arrivals: seq<Delivery>): GroupCopy {
    if arrivals == [] then map[] else Receive(ReceiveAll(arrivals[..|arrivals| - 1]), arrivals[|arrivals| - 1])
  }

  /** The groups that exist according to the copy, or in the database. */
  function Known(copy: GroupCopy, id: Uuid): Option<Group> {
    if id in copy then copy[id].1 else None
  }

  ghost function Stored(t: Tables, id: Uuid): Option<Group> {
    if id in t.groups then Some(GroupOf(t.groups, t.members, id)) else None
  }

  ghost predicate Agrees(copy: GroupCopy, t: Tables) {
    forall id: Uuid :: Known(copy, id) == Stored(t, id)
  }

  /** Every order and repetition of the queued events gives the groups as they are. */
  ghost predicate GroupsConverge(db: Db) {
    forall arrivals | Delivers(arrivals, db.outbox) :: Agrees(ReceiveAll(arrivals), db.tables)
  }

  // ---- The exact condition ----

  ghost predicate Speaks(outbox: seq<Delivery>, d: Delivery, id: Uuid) {
    d in outbox && IsGroupEvent(d) && About(d) == id
  }

  /** The event tells the group as it is, and everything that tells it otherwise is strictly older. */
  ghost predicate Decides(t: Tables, outbox: seq<Delivery>, e: Delivery, id: Uuid) {
    && Speaks(outbox, e, id) && Told(e) == Stored(t, id)
    && forall d | Speaks(outbox, d, id) && Told(d) != Told(e) :: d.payload.occurredAt < e.payload.occurredAt
  }

  ghost predicate Decided(t: Tables, outbox: seq<Delivery>, id: Uuid) {
    exists e :: Decides(t, outbox, e, id)
  }

  ghost predicate Mentioned(outbox: seq<Delivery>, id: Uuid) {
    exists d :: Speaks(outbox, d, id)
  }

  ghost predicate AllDecided(db: Db) {
    forall id: Uuid | Mentioned(db.outbox, id) :: Decided(db.tables, db.outbox, id)
  }

  // ---- What a copy holds ----

  lemma {:induction false} CopyFrom(arrivals: seq<Delivery>, id: Uuid) returns (e: Delivery)
    requires id in ReceiveAll(arrivals)
    ensures Speaks(arrivals, e, id) && ReceiveAll(arrivals)[id] == (e.payload.occurredAt, Told(e))
  {
    var front, last := arrivals[..|arrivals| - 1], arrivals[|arrivals| - 1];
    assert arrivals == front + [last];
    if id in ReceiveAll(front) && ReceiveAll(arrivals)[id] == ReceiveAll(front)[id] {
      e := CopyFrom(front, id);
    } else {
      e := last;
    }
  }

  lemma {:induction false} CopyReaches(arrivals: seq<Delivery>, d: Delivery, id: Uuid)
    requires Speaks(arrivals, d, id)
    ensures id in ReceiveAll(arrivals) && ReceiveAll(arrivals)[id].0 >= d.payload.occurredAt
  {
    var front, last := arrivals[..|arrivals| - 1], arrivals[|arrivals| - 1];
    assert arrivals == front + [last];
    if d in front {
      CopyReaches(front, d, id);
    }
  }

  lemma {:induction false} FirstStays(d: Delivery, rest: seq<Delivery>)
    requires IsGroupEvent(d)
    ensures var copy := ReceiveAll([d] + rest);
            && About(d) in copy
            && (copy[About(d)] == (d.payload.occurredAt, Told(d)) || copy[About(d)].0 > d.payload.occurredAt)
  {
    var arrivals := [d] + rest;
    if rest == [] {
      assert arrivals[..0] == [];
      assert ReceiveAll(arrivals) == Receive(ReceiveAll([]), d);
    } else {
      FirstStays(d, rest[..|rest| - 1]);
      assert arrivals[..|arrivals| - 1] == [d] + rest[..|rest| - 1];
    }
  }

  /** An event about the group that none is newer than. */
  ghost predicate Newest(outbox: seq<Delivery>, e: Delivery, id: Uuid) {
    Speaks(outbox, e, id) && forall d | Speaks(outbox, d, id) :: d.payload.occurredAt <= e.payload.occurredAt
  }

  lemma NewestExists(outbox: seq<Delivery>, id: Uuid) returns (e: Delivery)
    requires Mentioned(outbox, id)
    ensures Newest(outbox, e, id)
  {
    var some :| Speaks(outbox, some, id);
    CopyReaches(outbox, some, id);
    e := CopyFrom(outbox, id);
    forall d | Speaks(outbox, d, id) ensures d.payload.occurredAt <= e.payload.occurredAt {
      CopyReaches(outbox, d, id);
    }
  }

  /** When a newest event arrives first, the copy ends up with what it tells. */
  lemma NewestFirst(outbox: seq<Delivery>, e: Delivery, id: Uuid)
    requires Newest(outbox, e, id)
    ensures Delivers([e] + outbox, outbox) && Known(ReceiveAll([e] + outbox), id) == Told(e)
  {
    FirstStays(e, outbox);
    var f := CopyFrom([e] + outbox, id);
    assert Speaks(outbox, f, id);
  }

  lemma DecidedAgrees(t: Tables, outbox: seq<Delivery>, arrivals: seq<Delivery>, id: Uuid)
    requires Decided(t, outbox, id) && Delivers(arrivals, outbox)
    ensures Known(ReceiveAll(arrivals), id) == Stored(t, id)
  {
    var e :| Decides(t, outbox, e, id);
    CopyReaches(arrivals, e, id);
    var f := CopyFrom(arrivals, id);
    assert Speaks(outbox, f, id);
  }

  lemma ConvergeDecides(db: Db, id: Uuid)
    requires GroupsConverge(db) && Mentioned(db.outbox, id)
    ensures Decided(db.tables, db.outbox, id)
  {
    var e := NewestExists(db.outbox, id);
    NewestFirst(db.outbox, e, id);
    assert Known(ReceiveAll([e] + db.outbox), id) == Stored(db.tables, id);
    forall d | Newest(db.outbox, d, id) ensures Told(d) == Told(e) {
      NewestFirst(db.outbox, d, id);
      assert Known(ReceiveAll([d] + db.outbox), id) == Stored(db.tables, id);
    }
    forall d | Speaks(db.outbox, d, id) && Told(d) != Told(e)
      ensures d.payload.occurredAt < e.payload.occurredAt
    {
      assert !Newest(db.outbox, d, id);
    }
    assert Decides(db.tables, db.outbox, e, id);
  }

  // ---- Every group that exists was announced ----

  ghost predicate Announces(t: Tables, outbox: seq<Delivery>, d: Delivery, id: Uuid) {
    Speaks(outbox, d, id) && Told(d) == Stored(t, id)
  }

  ghost predicate GroupAnnounced(t: Tables, outbox: seq<Delivery>, id: Uuid) {
    exists d :: Announces(t, outbox, d, id)
  }

  ghost predicate GroupsAnnounced(t: Tables, outbox: seq<Delivery>) {
    forall id | id in t.groups :: GroupAnnounced(t, outbox, id)
  }

  /** A write leaves every group it is not about as it was. */
  lemma OthersStored(t: Tables, tenant: string, edit: Edit, id: Uuid)
    requires edit.PutUser? || id != edit.id
    ensures Stored(Perform(t, tenant, edit), id) == Stored(t, id)
  {
    var t' := Perform(t, tenant, edit);
    History.SameMembers(t'.members, t.members, id);
  }

  /** What the event of a write about a group tells. */
  ghost predicate Telling(t': Tables, d: Decision, added: Delivery)
    requires d.Write?
  {
    if d.edit.PutUser? then !IsGroupEvent(added)
    else IsGroupEvent(added) && About(added) == d.edit.id && Told(added) == Stored(t', d.edit.id)
  }

  lemma StillAnnounced(t: Tables, t': Tables, outbox: seq<Delivery>, added: Delivery, id: Uuid)
    requires GroupAnnounced(t, outbox, id) && Stored(t', id) == Stored(t, id)
    ensures GroupAnnounced(t', outbox + [added], id)
  {
    var d :| Announces(t, outbox, d, id);
    assert Announces(t', outbox + [added], d, id);
  }

  lemma AnnouncedWrite(t: Tables, tenant: string, outbox: seq<Delivery>, d: Decision, added: Delivery)
    requires d.Write? && GroupsAnnounced(t, outbox) && Telling(Perform(t, tenant, d.edit), d, added)
    ensures GroupsAnnounced(Perform(t, tenant, d.edit), outbox + [added])
  {
    var t' := Perform(t, tenant, d.edit);
    forall id | id in t'.groups ensures GroupAnnounced(t', outbox + [added], id) {
      if d.edit.PutUser? || id != d.edit.id {
        OthersStored(t, tenant, d.edit, id);
        StillAnnounced(t, t', outbox, added, id);
      } else {
        assert Announces(t', outbox + [added], added, id);
      }
    }
  }

  lemma DecisionTelling(codec: Codec, env: Env, t: Tables, call: Call, req: Request, added: Delivery)
    requires KeyedById(t.users)
    ensures var d := Decide(codec, env, t, call.tenant, req);
            d.Write? && added.payload == EventFor(env, d.resource, d.action, d.spelled, d.before, d.after) ==>
              Telling(Perform(t, call.tenant, d.edit), d, added)
  {
    DecisionShape(codec, env, t, call.tenant, req);
  }

  lemma AnnouncedStep(cfg: Config, db: Db, txn: Txn)
    requires cfg.events && KeyedById(db.tables.users) && GroupsAnnounced(db.tables, db.outbox)
    ensures var db' := Transact(cfg, txn.env, db, txn.call, txn.req).0; GroupsAnnounced(db'.tables, db'.outbox)
  {
    var db' := Transact(cfg, txn.env, db, txn.call, txn.req).0;
    var d := Decide(cfg.codec, txn.env, db.tables, txn.call.tenant, txn.req);
    if !txn.env.fault && d.Write? {
      var added := db'.outbox[|db.outbox|];
      DecisionTelling(cfg.codec, txn.env, db.tables, txn.call, txn.req, added);
      AnnouncedWrite(db.tables, txn.call.tenant, db.outbox, d, added);
    }
  }

  lemma {:induction false} AnnouncedAlways(cfg: Config, txns: seq<Txn>)
    requires cfg.events
    ensures var db := After(cfg, txns); KeyedById(db.tables.users) && GroupsAnnounced(db.tables, db.outbox)
  {
    if txns != [] {
      var last := txns[|txns| - 1];
      AnnouncedAlways(cfg, txns[..|txns| - 1]);
      AnnouncedStep(cfg, After(cfg, txns[..|txns| - 1]), last);
    }
  }

  /**
   After any run, with any clocks: the receiver ends up with the groups as they are, in every order of
   arrival, if and only if each group that was ever announced has an event that tells it as it is (or
   that it is gone) and is strictly newer than every event that tells otherwise.
   */
  lemma GroupsConvergeExactly(cfg: Config, txns: seq<Txn>)
    requires cfg.events
    ensures GroupsConverge(After(cfg, txns)) <==> AllDecided(After(cfg, txns))
  {
    var db := After(cfg, txns);
    AnnouncedAlways(cfg, txns);
    if AllDecided(db) {
      forall arrivals | Delivers(arrivals, db.outbox) ensures Agrees(ReceiveAll(arrivals), db.tables) {
        forall id: Uuid ensures Known(ReceiveAll(arrivals), id) == Stored(db.tables, id) {
          DecidedOrSilent(db, arrivals, id);
        }
      }
    }
    if GroupsConverge(db) {
      forall id: Uuid | Mentioned(db.outbox, id) ensures Decided(db.tables, db.outbox, id) {
        ConvergeDecides(db, id);
      }
    }
  }

  lemma AnnouncedIsMentioned(t: Tables, outbox: seq<Delivery>, id: Uuid)
    requires GroupAnnounced(t, outbox, id)
    ensures Mentioned(outbox, id)
  {
    var d :| Announces(t, outbox, d, id);
  }

  lemma CopiedIsMentioned(arrivals: seq<Delivery>, outbox: seq<Delivery>, id: Uuid)
    requires id in ReceiveAll(arrivals) && Delivers(arrivals, outbox)
    ensures Mentioned(outbox, id)
  {
    var e := CopyFrom(arrivals, id);
    assert Speaks(outbox, e, id);
  }

  lemma DecidedOrSilent(db: Db, arrivals: seq<Delivery>, id: Uuid)
    requires AllDecided(db) && GroupsAnnounced(db.tables, db.outbox) && Delivers(arrivals, db.outbox)
    ensures Known(ReceiveAll(arrivals), id) == Stored(db.tables, id)
  {
    if id in db.tables.groups {
      AnnouncedIsMentioned(db.tables, db.outbox, id);
    }
    if id in ReceiveAll(arrivals) {
      CopiedIsMentioned(arrivals, db.outbox, id);
    }
    if Mentioned(db.outbox, id) {
      DecidedAgrees(db.tables, db.outbox, arrivals, id);
    }
  }

  // ---- The clocks that make it so, and clocks that do not ----

  /** A replace moves the database clock on; a delete finds the process clock ahead of it; no id is drawn twice. */
  ghost predicate GroupClock(codec: Codec, db: Db, txn: Txn) {
    match txn.req
    case CreateGroup(_) => !Mentioned(db.outbox, txn.env.freshId)
    case UpdateGroup(id, _) => Newer(codec, db.tables.groups, id, txn.env.now)
    case DeleteGroup(id) => Newer(codec, db.tables.groups, id, txn.env.wallClock)
    case _ => true
  }

  ghost predicate Newer(codec: Codec, groups: Groups, id: string, at: Time) {
    codec.parse(id).Some? && codec.parse(id).value in groups ==> groups[codec.parse(id).value].updatedAt < at
  }

  ghost predicate GroupsClocked(cfg: Config, txns: seq<Txn>) {
    forall k :: 0 <= k < |txns| ==> GroupClock(cfg.codec, After(cfg, txns[..k]), txns[k])
  }

  /** No event about a group that exists is newer than the group. */
  ghost predicate Dated(t: Tables, outbox: seq<Delivery>) {
    forall d, id | id in t.groups && Speaks(outbox, d, id) :: d.payload.occurredAt <= t.groups[id].updatedAt
  }

  /** The event of a write is newer than every earlier one about the same group. */
  ghost predicate Latest(outbox: seq<Delivery>, added: Delivery) {
    IsGroupEvent(added) ==>
      forall d | Speaks(outbox, d, About(added)) :: d.payload.occurredAt < added.payload.occurredAt
  }

  lemma StillDecided(t: Tables, t': Tables, outbox: seq<Delivery>, added: Delivery, id: Uuid)
    requires Decided(t, outbox, id) && Stored(t', id) == Stored(t, id)
    requires IsGroupEvent(added) ==> About(added) != id
    ensures Decided(t', outbox + [added], id)
  {
    var e :| Decides(t, outbox, e, id);
    assert forall d | Speaks(outbox + [added], d, id) :: Speaks(outbox, d, id);
    assert Decides(t', outbox + [added], e, id);
  }

  lemma DecidedWrite(t: Tables, tenant: string, outbox: seq<Delivery>, d: Decision, added: Delivery)
    requires AllDecided(Db(t, [], outbox)) && d.Write? && Telling(Perform(t, tenant, d.edit), d, added)
    requires Latest(outbox, added)
    ensures AllDecided(Db(Perform(t, tenant, d.edit), [], outbox + [added]))
  {
    var t' := Perform(t, tenant, d.edit);
    forall id: Uuid | Mentioned(outbox + [added], id) ensures Decided(t', outbox + [added], id) {
      if d.edit.PutUser? || id != d.edit.id {
        var e :| Speaks(outbox + [added], e, id);
        assert Speaks(outbox, e, id);
        OthersStored(t, tenant, d.edit, id);
        StillDecided(t, t', outbox, added, id);
      } else {
        assert Decides(t', outbox + [added], added, id);
      }
    }
  }

  lemma DatedWrite(t: Tables, tenant: string, outbox: seq<Delivery>, d: Decision, added: Delivery)
    requires Dated(t, outbox) && d.Write? && Telling(Perform(t, tenant, d.edit), d, added) && Latest(outbox, added)
    requires d.edit.PutGroup? ==> d.edit.row.updatedAt == added.payload.occurredAt
    ensures Dated(Perform(t, tenant, d.edit), outbox + [added])
  {
    var t' := Perform(t, tenant, d.edit);
    forall e, id | id in t'.groups && Speaks(outbox + [added], e, id)
      ensures e.payload.occurredAt <= t'.groups[id].updatedAt
    {
      if e != added {
        assert Speaks(outbox, e, id);
      }
    }
  }

  /** Which group a request about groups writes, and the stamp of its event. */
  lemma GroupStamp(codec: Codec, env: Env, t: Tables, tenant: string, req: Request)
    requires req.CreateGroup? || req.UpdateGroup? || req.DeleteGroup?
    ensures var d := Decide(codec, env, t, tenant, req);
            d.Write? ==>
              && (match req
                  case CreateGroup(_) => d.edit.PutGroup? && d.edit.id == env.freshId
                  case UpdateGroup(id, _) => d.edit.PutGroup? && codec.parse(id) == Some(d.edit.id)
                    && d.edit.id in t.groups
                  case DeleteGroup(id) => d.edit.DropGroup? && codec.parse(id) == Some(d.edit.id)
                    && d.edit.id in t.groups
                  case _ => true)
              && (d.edit.PutGroup? ==>
                    && d.after.Some? && d.after.value.GroupImage?
                    && UpdatedAt(d.after.value) == env.now == d.edit.row.updatedAt)
              && (d.edit.DropGroup? ==> d.after.None?)
  {
  }

  lemma UserWriteSilent(codec: Codec, env: Env, t: Tables, tenant: string, req: Request)
    requires req.CreateUser? || req.UpdateUser? || req.DeactivateUser?
    ensures var d := Decide(codec, env, t, tenant, req); d.Write? ==> d.edit.PutUser?
  {
  }

  lemma ClockedIsLatest(codec: Codec, db: Db, txn: Txn, added: Delivery)
    requires Dated(db.tables, db.outbox) && GroupClock(codec, db, txn)
    requires var d := Decide(codec, txn.env, db.tables, txn.call.tenant, txn.req);
             && d.Write? && Telling(Perform(db.tables, txn.call.tenant, d.edit), d, added)
             && added.payload == EventFor(txn.env, d.resource, d.action, d.spelled, d.before, d.after)
    ensures Latest(db.outbox, added)
    ensures var d := Decide(codec, txn.env, db.tables, txn.call.tenant, txn.req);
            d.edit.PutGroup? ==> d.edit.row.updatedAt == added.payload.occurredAt
  {
    if txn.req.CreateUser? || txn.req.UpdateUser? || txn.req.DeactivateUser? {
      UserWriteSilent(codec, txn.env, db.tables, txn.call.tenant, txn.req);
    } else {
      GroupStamp(codec, txn.env, db.tables, txn.call.tenant, txn.req);
    }
  }

  /** With such clocks the receiver always converges on the groups. */
  lemma {:induction false} GroupsClockedDecides(cfg: Config, txns: seq<Txn>)
    requires cfg.events && GroupsClocked(cfg, txns)
    ensures var db := After(cfg, txns); AllDecided(db) && Dated(db.tables, db.outbox)
  {
    if txns != [] {
      var n := |txns| - 1;
      assert forall k :: 0 <= k < n ==> txns[..n][..k] == txns[..k];
      GroupsClockedDecides(cfg, txns[..n]);
      AnnouncedAlways(cfg, txns[..n]);
      ClockedStep(cfg, After(cfg, txns[..n]), txns[n]);
    }
  }

  lemma ClockedStep(cfg: Config, db: Db, txn: Txn)
    requires cfg.events && KeyedById(db.tables.users) && GroupClock(cfg.codec, db, txn)
    requires AllDecided(db) && Dated(db.tables, db.outbox)
    ensures var db' := Transact(cfg, txn.env, db, txn.call, txn.req).0; AllDecided(db') && Dated(db'.tables, db'.outbox)
  {
    var db' := Transact(cfg, txn.env, db, txn.call, txn.req).0;
    var d := Decide(cfg.codec, txn.env, db.tables, txn.call.tenant, txn.req);
    if !txn.env.fault && d.Write? {
      var added := db'.outbox[|db.outbox|];
      DecisionTelling(cfg.codec, txn.env, db.tables, txn.call, txn.req, added);
      ClockedIsLatest(cfg.codec, db, txn, added);
      DecidedWrite(db.tables, txn.call.tenant, db.outbox, d, added);
      DatedWrite(db.tables, txn.call.tenant, db.outbox, d, added);
    }
  }

  /** A process clock at or behind the database's brings a deleted group back. */
  lemma DeletedComesBack(codec: Codec, id: Uuid, input: GroupInput, wallClock: Time) returns (txns: seq<Txn>)
    requires Faithful(codec) && input.members == [] && wallClock <= 0
    ensures var db := After(Config(codec, true), txns);
            id !in db.tables.groups && Mentioned(db.outbox, id) && !GroupsConverge(db)
  {
    var cfg, call := Config(codec, true), Call("tenant", "actor");
    var t0 := Txn(Env(0, 0, id, false, true), call, CreateGroup(input));
    var t1 := Txn(Env(0, wallClock, 0, false, true), call, DeleteGroup(codec.text(id)));
    txns := [t0, t1];
    assert txns[..1] == [t0] && [t0][..0] == [];
    var db1, db2 := After(cfg, [t0]), After(cfg, txns);
    assert After(cfg, [t0][..0]) == EMPTY;
    assert db1 == Transact(cfg, t0.env, After(cfg, [t0][..0]), call, t0.req).0;
    CreatedFirst(cfg, t0, input);
    assert db2 == Transact(cfg, t1.env, db1, call, t1.req).0;
    DeletedNext(cfg, t1, db1, id);
    GroupsConvergeExactly(cfg, txns);
    StaleDelete(db2, id);
  }

  lemma CreatedFirst(cfg: Config, txn: Txn, input: GroupInput)
    requires cfg.events && !txn.env.fault && txn.req == CreateGroup(input) && input.members == []
    ensures var db, id := Transact(cfg, txn.env, EMPTY, txn.call, txn.req).0, txn.env.freshId;
            && OwnGroup(db.tables.groups, txn.call.tenant, id) && |db.outbox| == 1
            && Speaks(db.outbox, db.outbox[0], id) && Told(db.outbox[0]).Some?
            && db.outbox[0].payload.occurredAt == txn.env.now
  {
    assert Dedupe([]) == [] && Denoted(cfg.codec, map[], txn.call.tenant, []) == {};
    assert Accept(cfg.codec, map[], txn.call.tenant, []) == Some({});
  }

  lemma DeletedNext(cfg: Config, txn: Txn, db: Db, id: Uuid)
    requires cfg.events && !txn.env.fault && txn.req.DeleteGroup?
    requires cfg.codec.parse(txn.req.groupId) == Some(id) && OwnGroup(db.tables.groups, txn.call.tenant, id)
    ensures var db' := Transact(cfg, txn.env, db, txn.call, txn.req).0;
            && id !in db'.tables.groups && |db'.outbox| == |db.outbox| + 1 && db'.outbox[..|db.outbox|] == db.outbox
            && var d := db'.outbox[|db.outbox|];
               IsGroupEvent(d) && About(d) == id && Told(d).None? && d.payload.occurredAt == txn.env.wallClock
  {
  }

  lemma StaleDelete(db: Db, id: Uuid)
    requires id !in db.tables.groups && |db.outbox| == 2
    requires IsGroupEvent(db.outbox[0]) && About(db.outbox[0]) == id && Told(db.outbox[0]).Some?
    requires IsGroupEvent(db.outbox[1]) && About(db.outbox[1]) == id && Told(db.outbox[1]).None?
    requires db.outbox[1].payload.occurredAt <= db.outbox[0].payload.occurredAt
    ensures Mentioned(db.outbox, id) && !AllDecided(db)
  {
    var created, deleted := db.outbox[0], db.outbox[1];
    assert Speaks(db.outbox, created, id);
    assert forall e | e in db.outbox :: e == created || e == deleted;
    assert !Decides(db.tables, db.outbox, created, id) && !Decides(db.tables, db.outbox, deleted, id);
    assert Mentioned(db.outbox, id) && !Decided(db.tables, db.outbox, id);
  }
}
