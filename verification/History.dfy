/** The audit log is a complete history of the store, and the outbox mirrors it. */
module History {
  import opened Text
  import opened Entities
  import opened Store

  type Key = (Resource, Uuid)
  /** A copy of the resources, each with its tenant. */
  datatype Archive = Archive(users: map<Uuid, (string, Image)>, groups: map<Uuid, (string, Image)>) {
    function Of(r: Resource): map<Uuid, (string, Image)> {
      if r.UserResource? then users else groups
    }

    function Put(r: Resource, m: map<Uuid, (string, Image)>): Archive {
      if r.UserResource? then this.(users := m) else this.(groups := m)
    }

    function Set(key: Key, tenant: string, image: Option<Image>): Archive {
      Put(key.0, if image.Some? then Of(key.0)[key.1 := (tenant, image.value)] else Of(key.0) - {key.1})
    }

    function Lookup(key: Key): Option<Image> {
      if key.1 in Of(key.0) then Some(Of(key.0)[key.1].1) else None
    }
  }

  function UserImages(users: Users): map<Uuid, (string, Image)> {
    map u | u in users :: (users[u].tenant, UserImage(users[u].user))
  }

  ghost function GroupImages(groups: Groups, members: Members): map<Uuid, (string, Image)> {
    map g | g in groups :: (groups[g].tenant, GroupImage(GroupOf(groups, members, g)))
  }

  /** Every stored resource, as the audit log would show it. */
  ghost function Images(t: Tables): Archive {
    Archive(UserImages(t.users), GroupImages(t.groups, t.members))
  }

  /** One audit entry applied to a copy: a success overwrites or removes its target. */
  function Apply(archive: Archive, e: AuditEntry): Archive {
    if !e.success || e.target.None? then archive
    else archive.Set((e.resource, e.target.value), e.tenant, e.after)
  }

  function Rebuild(log: seq<AuditEntry>): Archive {
    if log == [] then Archive(map[], map[]) else Apply(Rebuild(log[..|log| - 1]), log[|log| - 1])
  }

  /** The after image of the latest successful entry for a key, if it has one. */
  function LastAfter(log: seq<AuditEntry>, key: Key): Option<Image> {
    if log == [] then None
    else
      var e := log[|log| - 1];
      if e.success && e.target == Some(key.1) && e.resource == key.0 then e.after
      else LastAfter(log[..|log| - 1], key)
  }

  lemma {:induction false} RebuildFindsLast(log: seq<AuditEntry>, key: Key)
    ensures Rebuild(log).Lookup(key) == LastAfter(log, key)
  {
    if log != [] {
      RebuildFindsLast(log[..|log| - 1], key);
    }
  }

  /** Entry `k` continues where the history of its target stood. */
  ghost predicate Chained(log: seq<AuditEntry>, k: nat)
    requires k < |log|
  {
    var e := log[k];
    if e.success then
      && e.target.Some?
      && e.before == LastAfter(log[..k], (e.resource, e.target.value))
      && (e.action.Create? <==> e.before.None?)
      && (e.action.Delete? <==> e.after.None?)
    else
      e.before.None? && e.after.None?
  }

  ghost predicate Complete(db: Db) {
    && KeyedById(db.tables.users)
    && Rebuild(db.audit) == Images(db.tables)
    && forall k :: 0 <= k < |db.audit| ==> Chained(db.audit, k)
  }

  // ---- Member lists of other groups stay put ----

  lemma SameMembers(a: Members, b: Members, group: Uuid)
    requires forall k: (Uuid, Uuid) | k.0 == group :: (k in a <==> k in b) && (k in a ==> a[k] == b[k])
    ensures MembersOf(a, group) == MembersOf(b, group)
  {
    assert MemberKeys(a, group) == MemberKeys(b, group);
  }

  /** What a successful decision does to the archive, and that it starts from the archive. */
  ghost predicate Recorded(t: Tables, d: Decision, tenant: string) {
    d.Write? ==>
      var key := (d.resource, d.target);
      && d.before == Images(t).Lookup(key)
      && (d.action.Create? <==> d.before.None?)
      && (d.action.Delete? <==> d.after.None?)
      && Images(Perform(t, tenant, d.edit)) == Images(t).Set(key, tenant, d.after)
  }

  lemma UserWriteRecorded(t: Tables, tenant: string, u: Uuid, user: User)
    ensures Images(t.(users := t.users[u := UserRow(tenant, user)]))
            == Images(t).Set((UserResource, u), tenant, Some(UserImage(user)))
  {
  }

  lemma GroupWriteRecorded(
    groups: Groups, members: Members, tenant: string, g: Uuid, row: GroupRow, ids: set<Uuid>, now: Time)
    requires row.tenant == tenant
    ensures var groups', members' := groups[g := row], WithMembers(members, g, ids, tenant, now);
            GroupImages(groups', members')
            == GroupImages(groups, members)[g := (tenant, GroupImage(GroupOf(groups', members', g)))]
  {
    var members' := WithMembers(members, g, ids, tenant, now);
    forall h | h in groups && h != g ensures MembersOf(members', h) == MembersOf(members, h) {
      SameMembers(members', members, h);
    }
  }

  lemma GroupDeleteRecorded(groups: Groups, members: Members, g: Uuid)
    ensures GroupImages(groups - {g}, Without(members, g)) == GroupImages(groups, members) - {g}
  {
    var left, images := GroupImages(groups - {g}, Without(members, g)), GroupImages(groups, members) - {g};
    assert left.Keys == images.Keys;
    forall h | h in left ensures left[h] == images[h] {
      SameMembers(Without(members, g), members, h);
    }
  }

  lemma DecisionRecorded(codec: Codec, env: Env, t: Tables, tenant: string, req: Request)
    requires KeyedById(t.users)
    ensures Recorded(t, Decide(codec, env, t, tenant, req), tenant)
  {
    var d := Decide(codec, env, t, tenant, req);
    DecisionShape(codec, env, t, tenant, req);
    if d.Write? {
      match d.edit
      case PutUser(user) => UserWriteRecorded(t, tenant, user.id, user);
      case PutGroup(id, row, ids, now) => GroupWriteRecorded(t.groups, t.members, tenant, id, row, ids, now);
      case DropGroup(id) => GroupDeleteRecorded(t.groups, t.members, id);
    }
  }

  lemma Appended(log: seq<AuditEntry>, e: AuditEntry)
    requires forall k :: 0 <= k < |log| ==> Chained(log, k)
    requires Chained(log + [e], |log|)
    ensures forall k :: 0 <= k < |log + [e]| ==> Chained(log + [e], k)
    ensures Rebuild(log + [e]) == Apply(Rebuild(log), e)
  {
    var longer := log + [e];
    assert longer[..|log|] == log;
    forall k | 0 <= k < |log| ensures Chained(longer, k) {
      assert Chained(log, k);
      assert longer[..k] == log[..k] && longer[k] == log[k];
    }
  }

  lemma CompleteWrite(db: Db, db': Db, call: Call, d: Decision)
    requires Complete(db) && d.Write? && Recorded(db.tables, d, call.tenant)
    requires db'.tables == Perform(db.tables, call.tenant, d.edit)
    requires db'.audit == db.audit + [SuccessEntry(call, d.resource, d.action, d.target, d.before, d.after)]
    ensures Complete(db')
  {
    var e := SuccessEntry(call, d.resource, d.action, d.target, d.before, d.after);
    RebuildFindsLast(db.audit, (d.resource, d.target));
    assert (db.audit + [e])[..|db.audit|] == db.audit;
    Appended(db.audit, e);
  }

  lemma CompleteStep(cfg: Config, env: Env, db: Db, call: Call, req: Request)
    requires Complete(db)
    ensures Complete(Transact(cfg, env, db, call, req).0)
  {
    var db' := Transact(cfg, env, db, call, req).0;
    if !env.fault {
      var d := Decide(cfg.codec, env, db.tables, call.tenant, req);
      if d.Write? {
        DecisionRecorded(cfg.codec, env, db.tables, call.tenant, req);
        CompleteWrite(db, db', call, d);
      } else if d.Refuse? {
        var r := Refusals(cfg.codec, env, call, d.resource, d.action, d.spelled, d.detail);
        if r != [] {
          Appended(db.audit, r[0]);
          assert db'.audit == db.audit + [r[0]];
        } else {
          assert db'.audit == db.audit;
        }
      }
    }
  }

  /**
   After any run of transactions, replaying the successful entries rebuilds every user and every
   group with its members, and each entry's before image is its target's previous after image.
   */
  lemma {:induction false} AuditIsCompleteHistory(cfg: Config, txns: seq<Txn>)
    ensures Complete(After(cfg, txns))
  {
    if txns == [] {
      assert Images(EMPTY.tables) == Archive(map[], map[]);
    } else {
      AuditIsCompleteHistory(cfg, txns[..|txns| - 1]);
      var last := txns[|txns| - 1];
      CompleteStep(cfg, last.env, After(cfg, txns[..|txns| - 1]), last.call, last.req);
    }
  }

  // ---- The outbox mirrors the log ----

  function Successes(log: seq<AuditEntry>): seq<AuditEntry> {
    if log == [] then []
    else
      var e := log[|log| - 1];
      Successes(log[..|log| - 1]) + (if e.success then [e] else [])
  }

  /** The event tells the same change as the audit entry, and its type is fixed by that change. */
  ghost predicate Tells(e: AuditEntry, d: Delivery) {
    && d.tenant == e.tenant
    && Some(d.target) == e.target
    && d.payload.before == e.before
    && d.payload.after == e.after
    && d.kind == d.payload.kind == EventTypeOf(e.resource, e.action, e.before, e.after)
    && (e.after.Some? ==> d.payload.occurredAt == UpdatedAt(e.after.value))
  }

  ghost predicate Mirrors(log: seq<AuditEntry>, outbox: seq<Delivery>) {
    |Successes(log)| == |outbox| && forall k :: 0 <= k < |outbox| ==> Tells(Successes(log)[k], outbox[k])
  }

  lemma SuccessesAppend(log: seq<AuditEntry>, e: AuditEntry)
    ensures Successes(log + [e]) == Successes(log) + (if e.success then [e] else [])
  {
  }

  lemma MirrorsStep(cfg: Config, env: Env, db: Db, call: Call, req: Request)
    requires cfg.events && Mirrors(db.audit, db.outbox)
    ensures var db' := Transact(cfg, env, db, call, req).0; Mirrors(db'.audit, db'.outbox)
  {
    var db' := Transact(cfg, env, db, call, req).0;
    if !env.fault {
      var d := Decide(cfg.codec, env, db.tables, call.tenant, req);
      if d.Write? {
        SuccessesAppend(db.audit, SuccessEntry(call, d.resource, d.action, d.target, d.before, d.after));
      } else if d.Refuse? {
        var r := Refusals(cfg.codec, env, call, d.resource, d.action, d.spelled, d.detail);
        if r != [] {
          SuccessesAppend(db.audit, r[0]);
          assert db'.audit == db.audit + [r[0]];
        } else {
          assert db'.audit == db.audit;
        }
      }
    }
  }

  /** With change events on, successful entries and queued events correspond one to one, in order. */
  lemma {:induction false} OutboxMirrorsAudit(cfg: Config, txns: seq<Txn>)
    requires cfg.events
    ensures Mirrors(After(cfg, txns).audit, After(cfg, txns).outbox)
  {
    if txns != [] {
      OutboxMirrorsAudit(cfg, txns[..|txns| - 1]);
      var last := txns[|txns| - 1];
      MirrorsStep(cfg, last.env, After(cfg, txns[..|txns| - 1]), last.call, last.req);
    }
  }

  /** A refused or failed mutation changes no row and queues nothing; a refusal row needs a well-formed id. */
  lemma NoChangeUnlessSuccess(cfg: Config, env: Env, db: Db, call: Call, req: Request)
    ensures var (db', out) := Transact(cfg, env, db, call, req);
            && (!out.Changed? ==> db'.tables == db.tables && db'.outbox == db.outbox)
            && (out.Failed? ==> db' == db)
            && (out.Refused? ==>
                  db'.audit == db.audit
                  || (|db'.audit| == |db.audit| + 1 && !db'.audit[|db.audit|].success && env.refusalLogged))
            && (!cfg.events ==> db'.outbox == db.outbox)
  {
  }

  /** The event type, by the call and the active transition it made. */
  lemma EventTypes(codec: Codec, env: Env, t: Tables, tenant: string, req: Request)
    ensures var d := Decide(codec, env, t, tenant, req);
            d.Write? ==>
              var kind := EventTypeOf(d.resource, d.action, d.before, d.after);
              match req
              case CreateUser(_) => kind == UserCreated
              case UpdateUser(_, cols) =>
                kind == (if t.users[d.target].user.cols.active && !cols.active then UserDeactivated else UserReplaced)
              case DeactivateUser(_) => kind == UserDeactivated
              case CreateGroup(_) => kind == GroupCreated
              case UpdateGroup(_, _) => kind == GroupReplaced
              case DeleteGroup(_) => kind == GroupDeleted
  {
  }
}
