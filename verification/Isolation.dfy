/** Tenants share tables and cannot see or disturb each other. */
module Isolation {
  import opened Text
  import opened Entities
  import opened Store
  import opened Listing
  import History

  function OwnUsers(users: Users, tenant: string): Users {
    map u | u in users && users[u].tenant == tenant :: users[u]
  }

  function OwnGroups(groups: Groups, tenant: string): Groups {
    map g | g in groups && groups[g].tenant == tenant :: groups[g]
  }

  function OwnMembers(members: Members, tenant: string): Members {
    map k | k in members && members[k].tenant == tenant :: members[k]
  }

  function OwnTables(t: Tables, tenant: string): Tables {
    Tables(OwnUsers(t.users, tenant), OwnGroups(t.groups, tenant), OwnMembers(t.members, tenant))
  }

  function OwnAudit(log: seq<AuditEntry>, tenant: string): seq<AuditEntry> {
    if log == [] then []
    else OwnAudit(log[..|log| - 1], tenant) + (if log[|log| - 1].tenant == tenant then [log[|log| - 1]] else [])
  }

  function OwnOutbox(outbox: seq<Delivery>, tenant: string): seq<Delivery> {
    if outbox == [] then []
    else
      var d := outbox[|outbox| - 1];
      OwnOutbox(outbox[..|outbox| - 1], tenant) + (if d.tenant == tenant then [d] else [])
  }

  /** Everything in the database that belongs to one tenant. */
  function Project(db: Db, tenant: string): Db {
    Db(OwnTables(db.tables, tenant), OwnAudit(db.audit, tenant), OwnOutbox(db.outbox, tenant))
  }

  /** Membership rows agree with their group and their user on the tenant. */
  ghost predicate Consistent(t: Tables) {
    forall k | k in t.members ::
      OwnGroup(t.groups, t.members[k].tenant, k.0) && OwnUser(t.users, t.members[k].tenant, k.1)
  }

  lemma ConsistentEdit(t: Tables, tenant: string, edit: Edit)
    requires Consistent(t) && Allowed(t, tenant, edit)
    ensures Consistent(Perform(t, tenant, edit))
  {
  }

  lemma {:induction false} ConsistentAlways(cfg: Config, txns: seq<Txn>)
    ensures Consistent(After(cfg, txns).tables) && KeyedById(After(cfg, txns).tables.users)
  {
    if txns != [] {
      var last, db := txns[|txns| - 1], After(cfg, txns[..|txns| - 1]);
      ConsistentAlways(cfg, txns[..|txns| - 1]);
      DecisionShape(cfg.codec, last.env, db.tables, last.call.tenant, last.req);
      var d := Decide(cfg.codec, last.env, db.tables, last.call.tenant, last.req);
      if d.Write? {
        ConsistentEdit(db.tables, last.call.tenant, d.edit);
      }
    }
  }

  // ---- A foreign operation leaves a tenant's tables alone ----

  lemma ForeignMembers(members: Members, g: Uuid, ids: set<Uuid>, tenant: string, now: Time, other: string)
    requires other != tenant && forall k | k in members && k.0 == g :: members[k].tenant == tenant
    ensures OwnMembers(WithMembers(members, g, ids, tenant, now), other) == OwnMembers(members, other)
    ensures OwnMembers(Without(members, g), other) == OwnMembers(members, other)
  {
  }

  lemma OwnMembersEdited(members: Members, g: Uuid, ids: set<Uuid>, tenant: string, now: Time)
    ensures OwnMembers(WithMembers(members, g, ids, tenant, now), tenant)
            == WithMembers(OwnMembers(members, tenant), g, ids, tenant, now)
  {
  }

  lemma OwnMembersDropped(members: Members, g: Uuid, tenant: string)
    ensures OwnMembers(Without(members, g), tenant) == Without(OwnMembers(members, tenant), g)
  {
  }

  lemma OwnGroupsEdited(groups: Groups, id: Uuid, row: GroupRow, tenant: string)
    requires row.tenant == tenant
    ensures OwnGroups(groups[id := row], tenant) == OwnGroups(groups, tenant)[id := row]
    ensures OwnGroups(groups - {id}, tenant) == OwnGroups(groups, tenant) - {id}
  {
  }

  lemma ForeignEdit(t: Tables, tenant: string, edit: Edit, other: string)
    requires Consistent(t) && Allowed(t, tenant, edit) && other != tenant
    ensures OwnTables(Perform(t, tenant, edit), other) == OwnTables(t, other)
  {
    match edit
    case PutUser(user) =>
      assert OwnUsers(t.users[user.id := UserRow(tenant, user)], other) == OwnUsers(t.users, other);
    case PutGroup(id, row, ids, now) =>
      ForeignMembers(t.members, id, ids, tenant, now, other);
      assert OwnGroups(t.groups[id := row], other) == OwnGroups(t.groups, other);
    case DropGroup(id) =>
      ForeignMembers(t.members, id, {}, tenant, 0, other);
      assert OwnGroups(t.groups - {id}, other) == OwnGroups(t.groups, other);
  }

  lemma AuditAppend(log: seq<AuditEntry>, e: AuditEntry, tenant: string)
    ensures OwnAudit(log + [e], tenant) == OwnAudit(log, tenant) + (if e.tenant == tenant then [e] else [])
  {
  }

  lemma OutboxAppend(outbox: seq<Delivery>, d: Delivery, tenant: string)
    ensures OwnOutbox(outbox + [d], tenant) == OwnOutbox(outbox, tenant) + (if d.tenant == tenant then [d] else [])
  {
  }

  /** An operation of one tenant leaves every other tenant's part of the database unchanged. */
  lemma NoInterference(cfg: Config, env: Env, db: Db, call: Call, req: Request, other: string)
    requires Consistent(db.tables) && KeyedById(db.tables.users) && other != call.tenant
    ensures Project(Transact(cfg, env, db, call, req).0, other) == Project(db, other)
  {
    var d := Decide(cfg.codec, env, db.tables, call.tenant, req);
    if !env.fault && d.Write? {
      DecisionShape(cfg.codec, env, db.tables, call.tenant, req);
      ForeignEdit(db.tables, call.tenant, d.edit, other);
      AuditAppend(db.audit, SuccessEntry(call, d.resource, d.action, d.target, d.before, d.after), other);
      var event := EventFor(env, d.resource, d.action, d.spelled, d.before, d.after);
      OutboxAppend(db.outbox, Delivery(call.tenant, event.kind, d.target, event), other);
    } else if !env.fault && d.Refuse? {
      RefusalAppend(cfg.codec, env, db.audit, call, d, other);
    }
  }

  lemma RefusalAppend(codec: Codec, env: Env, log: seq<AuditEntry>, call: Call, d: Decision, tenant: string)
    requires d.Refuse?
    ensures var r := Refusals(codec, env, call, d.resource, d.action, d.spelled, d.detail);
            OwnAudit(log + r, tenant) == OwnAudit(log, tenant) + (if call.tenant == tenant then r else [])
  {
    var r := Refusals(codec, env, call, d.resource, d.action, d.spelled, d.detail);
    if r == [] {
      assert log + r == log;
    } else {
      AuditAppend(log, r[0], tenant);
      assert log + r == log + [r[0]];
    }
  }

  // ---- A tenant's own operation looks at nothing else ----

  lemma GroupChecksLocal(groups: Groups, tenant: string, name: string, ext: Option<string>, self: Option<Uuid>)
    ensures GroupNameTaken(groups, tenant, name, self) == GroupNameTaken(OwnGroups(groups, tenant), tenant, name, self)
    ensures GroupExternalIdTaken(groups, tenant, ext, self)
        == GroupExternalIdTaken(OwnGroups(groups, tenant), tenant, ext, self)
  {
  }

  lemma AcceptLocal(codec: Codec, users: Users, tenant: string, ids: seq<string>)
    ensures Accept(codec, users, tenant, ids) == Accept(codec, OwnUsers(users, tenant), tenant, ids)
  {
    assert Denoted(codec, users, tenant, Dedupe(ids)) == Denoted(codec, OwnUsers(users, tenant), tenant, Dedupe(ids));
  }

  /** Reading a group's members by group id alone finds only the tenant's own rows. */
  lemma GroupLocal(t: Tables, tenant: string, g: Uuid)
    requires Consistent(t) && OwnGroup(t.groups, tenant, g)
    ensures GroupOf(t.groups, t.members, g) == GroupOf(OwnGroups(t.groups, tenant), OwnMembers(t.members, tenant), g)
  {
    forall k: (Uuid, Uuid) | k.0 == g
      ensures (k in t.members <==> k in OwnMembers(t.members, tenant))
      ensures k in t.members ==> t.members[k] == OwnMembers(t.members, tenant)[k]
    {
    }
    History.SameMembers(t.members, OwnMembers(t.members, tenant), g);
  }

  /** An edit carried out next to other tenants' rows is the same edit without them. */
  lemma EditLocal(t: Tables, tenant: string, edit: Edit)
    requires Allowed(t, tenant, edit)
    ensures OwnTables(Perform(t, tenant, edit), tenant) == Perform(OwnTables(t, tenant), tenant, edit)
  {
    match edit
    case PutUser(user) =>
      var row := UserRow(tenant, user);
      assert OwnUsers(t.users[user.id := row], tenant) == OwnUsers(t.users, tenant)[user.id := row];
    case PutGroup(id, row, ids, now) =>
      OwnGroupsEdited(t.groups, id, row, tenant);
      OwnMembersEdited(t.members, id, ids, tenant, now);
    case DropGroup(id) =>
      OwnGroupsEdited(t.groups, id, t.groups[id], tenant);
      OwnMembersDropped(t.members, id, tenant);
  }

  /** The id the database draws for a create does not already belong to another tenant. */
  ghost predicate Unclaimed(t: Tables, tenant: string, env: Env, req: Request) {
    && (req.CreateUser? && env.freshId in t.users ==> OwnUser(t.users, tenant, env.freshId))
    && (req.CreateGroup? && env.freshId in t.groups ==> OwnGroup(t.groups, tenant, env.freshId))
  }

  lemma UserDecisionLocal(codec: Codec, env: Env, t: Tables, tenant: string, req: Request)
    requires req.CreateUser? || req.UpdateUser? || req.DeactivateUser?
    requires Unclaimed(t, tenant, env, req)
    ensures Decide(codec, env, t, tenant, req) == Decide(codec, env, OwnTables(t, tenant), tenant, req)
  {
  }

  /** The image of a group just written, read back by group id. */
  lemma WrittenGroupLocal(t: Tables, tenant: string, edit: Edit)
    requires Consistent(t) && edit.PutGroup? && Allowed(t, tenant, edit)
    ensures var t', own := Perform(t, tenant, edit), Perform(OwnTables(t, tenant), tenant, edit);
            GroupOf(t'.groups, t'.members, edit.id) == GroupOf(own.groups, own.members, edit.id)
  {
    ConsistentEdit(t, tenant, edit);
    GroupLocal(Perform(t, tenant, edit), tenant, edit.id);
    EditLocal(t, tenant, edit);
  }

  lemma CreateGroupLocal(codec: Codec, env: Env, t: Tables, tenant: string, g: GroupInput)
    requires Consistent(t) && (env.freshId in t.groups ==> OwnGroup(t.groups, tenant, env.freshId))
    ensures DecideCreateGroup(codec, env, t, tenant, g)
        == DecideCreateGroup(codec, env, OwnTables(t, tenant), tenant, g)
  {
    GroupChecksLocal(t.groups, tenant, g.displayName, g.externalId, None);
    AcceptLocal(codec, t.users, tenant, g.members);
    var d := DecideCreateGroup(codec, env, t, tenant, g);
    if d.Write? {
      WrittenGroupLocal(t, tenant, d.edit);
    }
  }

  lemma ReplaceGroupLocal(codec: Codec, env: Env, t: Tables, tenant: string, id: string, g: GroupInput)
    requires Consistent(t)
    ensures DecideReplaceGroup(codec, env, t, tenant, id, g)
        == DecideReplaceGroup(codec, env, OwnTables(t, tenant), tenant, id, g)
  {
    GroupChecksLocal(t.groups, tenant, g.displayName, g.externalId, codec.parse(id));
    AcceptLocal(codec, t.users, tenant, g.members);
    var d := DecideReplaceGroup(codec, env, t, tenant, id, g);
    if d.Write? {
      GroupLocal(t, tenant, d.edit.id);
      WrittenGroupLocal(t, tenant, d.edit);
    }
  }

  lemma DeleteGroupLocal(codec: Codec, env: Env, t: Tables, tenant: string, id: string)
    requires Consistent(t)
    ensures DecideDeleteGroup(codec, env, t, tenant, id)
        == DecideDeleteGroup(codec, env, OwnTables(t, tenant), tenant, id)
  {
    var d := DecideDeleteGroup(codec, env, t, tenant, id);
    if d.Write? {
      GroupLocal(t, tenant, d.edit.id);
    }
  }

  lemma DecisionLocal(codec: Codec, env: Env, t: Tables, tenant: string, req: Request)
    requires Consistent(t) && Unclaimed(t, tenant, env, req)
    ensures Decide(codec, env, t, tenant, req) == Decide(codec, env, OwnTables(t, tenant), tenant, req)
  {
    match req
    case CreateGroup(g) => CreateGroupLocal(codec, env, t, tenant, g);
    case UpdateGroup(id, g) => ReplaceGroupLocal(codec, env, t, tenant, id, g);
    case DeleteGroup(id) => DeleteGroupLocal(codec, env, t, tenant, id);
    case _ => UserDecisionLocal(codec, env, t, tenant, req);
  }

  lemma TransactLocal(cfg: Config, env: Env, db: Db, call: Call, req: Request)
    requires Consistent(db.tables) && KeyedById(db.tables.users) && Unclaimed(db.tables, call.tenant, env, req)
    ensures Transact(cfg, env, db, call, req).1 == Transact(cfg, env, Project(db, call.tenant), call, req).1
    ensures Project(Transact(cfg, env, db, call, req).0, call.tenant)
            == Transact(cfg, env, Project(db, call.tenant), call, req).0
  {
    var d := Decide(cfg.codec, env, db.tables, call.tenant, req);
    DecisionLocal(cfg.codec, env, db.tables, call.tenant, req);
    if !env.fault && d.Write? {
      DecisionShape(cfg.codec, env, db.tables, call.tenant, req);
      EditLocal(db.tables, call.tenant, d.edit);
      AuditAppend(db.audit, SuccessEntry(call, d.resource, d.action, d.target, d.before, d.after), call.tenant);
      var event := EventFor(env, d.resource, d.action, d.spelled, d.before, d.after);
      OutboxAppend(db.outbox, Delivery(call.tenant, event.kind, d.target, event), call.tenant);
    } else if !env.fault && d.Refuse? {
      RefusalAppend(cfg.codec, env, db.audit, call, d, call.tenant);
    }
  }

  /**
   The exact condition: the answer is the one the tenant's own data gives if and only if the drawn
   id is not another tenant's, or the operation fails on the tenant's own data anyway.
   */
  lemma AnswerLocalExactly(cfg: Config, env: Env, db: Db, call: Call, req: Request)
    requires Consistent(db.tables) && KeyedById(db.tables.users)
    ensures Transact(cfg, env, db, call, req).1 == Transact(cfg, env, Project(db, call.tenant), call, req).1 <==>
              || Unclaimed(db.tables, call.tenant, env, req)
              || Transact(cfg, env, Project(db, call.tenant), call, req).1.Failed?
  {
    if Unclaimed(db.tables, call.tenant, env, req) {
      TransactLocal(cfg, env, db, call, req);
    } else {
      assert Decide(cfg.codec, env, db.tables, call.tenant, req).Fail?;
    }
  }

  /**
   What an operation answers, and what it leaves of the tenant's data, depends on that tenant's data
   only: two databases that agree on it cannot be told apart.
   */
  lemma NonInterference(cfg: Config, env: Env, db1: Db, db2: Db, call: Call, req: Request)
    requires Consistent(db1.tables) && KeyedById(db1.tables.users)
    requires Consistent(db2.tables) && KeyedById(db2.tables.users)
    requires Unclaimed(db1.tables, call.tenant, env, req) && Unclaimed(db2.tables, call.tenant, env, req)
    requires Project(db1, call.tenant) == Project(db2, call.tenant)
    ensures var (db1', out1) := Transact(cfg, env, db1, call, req);
            var (db2', out2) := Transact(cfg, env, db2, call, req);
            out1 == out2 && Project(db1', call.tenant) == Project(db2', call.tenant)
  {
    TransactLocal(cfg, env, db1, call, req);
    TransactLocal(cfg, env, db2, call, req);
  }

  /** Over a whole run: another tenant's transactions could be left out without this tenant noticing. */
  function Only(txns: seq<Txn>, tenant: string): seq<Txn> {
    if txns == [] then []
    else
      var last := txns[|txns| - 1];
      Only(txns[..|txns| - 1], tenant) + (if last.call.tenant == tenant then [last] else [])
  }

  ghost predicate FreshIds(cfg: Config, txns: seq<Txn>) {
    forall k :: 0 <= k < |txns| ==>
      Unclaimed(After(cfg, txns[..k]).tables, txns[k].call.tenant, txns[k].env, txns[k].req)
  }

  lemma {:induction false} OtherTenantsInvisible(cfg: Config, txns: seq<Txn>, tenant: string)
    requires FreshIds(cfg, txns)
    ensures Project(After(cfg, txns), tenant) == After(cfg, Only(txns, tenant))
  {
    if txns == [] {
      assert Project(EMPTY, tenant) == EMPTY;
    } else {
      var n := |txns| - 1;
      var front, last := txns[..n], txns[n];
      assert forall k :: 0 <= k < n ==> front[..k] == txns[..k];
      OtherTenantsInvisible(cfg, front, tenant);
      ConsistentAlways(cfg, front);
      var db := After(cfg, front);
      if last.call.tenant == tenant {
        TransactLocal(cfg, last.env, db, last.call, last.req);
        assert Only(txns, tenant)[..|Only(front, tenant)|] == Only(front, tenant);
      } else {
        NoInterference(cfg, last.env, db, last.call, last.req, tenant);
        assert Only(txns, tenant) == Only(front, tenant);
      }
    }
  }

  // ---- Reads ----

  lemma UserStampsLocal(users: Users, tenant: string, f: UserFilter)
    ensures UserStamps(users, tenant, f) == UserStamps(OwnUsers(users, tenant), tenant, f)
  {
    var own := OwnUsers(users, tenant);
    forall u | u in users && MatchesUser(f, tenant, users[u]) ensures u in own && own[u] == users[u] {
    }
  }

  lemma GroupStampsLocal(groups: Groups, tenant: string, f: GroupFilter)
    ensures GroupStamps(groups, tenant, f) == GroupStamps(OwnGroups(groups, tenant), tenant, f)
  {
    var own := OwnGroups(groups, tenant);
    forall g | g in groups && MatchesGroup(f, tenant, groups[g]) ensures g in own && own[g] == groups[g] {
    }
  }

  /** A user listing is the listing of the tenant's own rows. */
  lemma UserListingLocal(users: Users, tenant: string, f: UserFilter)
    ensures MatchingUsers(users, tenant, f) == MatchingUsers(OwnUsers(users, tenant), tenant, f)
  {
    UserStampsLocal(users, tenant, f);
    UsersKnown(users, tenant, f);
    UsersKnown(OwnUsers(users, tenant), tenant, f);
  }

  /** A group listing, with members fetched by group id alone, is the listing of the tenant's own rows. */
  lemma GroupListingLocal(t: Tables, tenant: string, f: GroupFilter)
    requires Consistent(t)
    ensures MatchingGroups(t.groups, t.members, tenant, f)
         == MatchingGroups(OwnGroups(t.groups, tenant), OwnMembers(t.members, tenant), tenant, f)
  {
    var own := OwnGroups(t.groups, tenant);
    GroupStampsLocal(t.groups, tenant, f);
    GroupsKnown(t.groups, tenant, f);
    GroupsKnown(own, tenant, f);
    var stamps := InOrder(GroupStamps(t.groups, tenant, f));
    forall i | 0 <= i < |stamps|
      ensures GroupOf(t.groups, t.members, stamps[i].1) == GroupOf(own, OwnMembers(t.members, tenant), stamps[i].1)
    {
      assert stamps[i].1 in own;
      GroupLocal(t, tenant, stamps[i].1);
    }
  }
}
