/** The store's methods, statement by statement; each is one transaction. */
module Database {
  import opened Text
  import opened Entities
  import opened Ordering
  import opened Store
  import Membership

  method ScanRows(rows: seq<Timed>) returns (ids: seq<Uuid>)
    ensures ids == Seconds(rows)
  {
    ids := [];
    for i := 0 to |rows|
      invariant |ids| == i
      invariant forall k :: 0 <= k < i ==> ids[k] == rows[k].1
    {
      ids := ids + [rows[i].1];
    }
  }

  class PgStore {
    const cfg: Config
    var users: Users
    var groups: Groups
    var members: Members
    var audit: seq<AuditEntry>
    var outbox: seq<Delivery>

    ghost function Snapshot(): Db
      reads this
    {
      Db(Tables(users, groups, members), audit, outbox)
    }

    ghost predicate Valid()
      reads this`users
    {
      KeyedById(users)
    }

    constructor (cfg: Config)
      ensures this.cfg == cfg && Snapshot() == EMPTY && Valid()
    {
      this.cfg := cfg;
      users, groups, members, audit, outbox := map[], map[], map[], [], [];
    }

    method InsertAudit(call: Call, resource: Resource, action: Action, target: Uuid,
                       before: Option<Image>, after: Option<Image>)
      modifies this`audit
      ensures audit == old(audit) + [SuccessEntry(call, resource, action, target, before, after)]
    {
      audit := audit + [AuditEntry(call.tenant, call.actor, resource, action, true, "", Some(target), before, after)];
    }

    /** Best effort: a malformed id cannot be stored in the target column, and the write may fail. */
    method AuditRefusal(env: Env, call: Call, resource: Resource, action: Action, spelled: string, detail: string)
      modifies this`audit
      ensures audit == old(audit) + Refusals(cfg.codec, env, call, resource, action, spelled, detail)
    {
      var target := None;
      if spelled != "" {
        target := cfg.codec.parse(spelled);
        if target.None? {
          return;
        }
      }
      if env.refusalLogged {
        audit := audit + [AuditEntry(call.tenant, call.actor, resource, action, false, detail, target, None, None)];
      }
    }

    method EnqueueChange(env: Env, call: Call, kind: EventType, target: Uuid, spelled: string,
                         before: Option<Image>, after: Option<Image>)
      modifies this`outbox
      ensures var at := if after.Some? then UpdatedAt(after.value) else env.wallClock;
              outbox == if cfg.events
                        then old(outbox) + [Delivery(call.tenant, kind, target,
                          ChangeEvent(kind, at, spelled, before, after))]
                        else old(outbox)
    {
      if !cfg.events {
        return;
      }
      var occurred := env.wallClock;
      if after.Some? {
        occurred := UpdatedAt(after.value);
      }
      outbox := outbox + [Delivery(call.tenant, kind, target, ChangeEvent(kind, occurred, spelled, before, after))];
    }

    method CreateUser(env: Env, call: Call, cols: Columns) returns (out: Outcome)
      requires Valid()
      modifies this`users, this`audit, this`outbox
      ensures Valid()
      ensures (Snapshot(), out) == Transact(cfg, env, old(Snapshot()), call, Request.CreateUser(cols))
    {
      if env.fault || env.freshId in users {
        return Failed;
      }
      if UserNameTaken(users, call.tenant, cols.userName, None) {
        AuditRefusal(env, call, UserResource, Create, "", "duplicate userName");
        return Refused("duplicate userName");
      }
      if UserExternalIdTaken(users, call.tenant, cols.externalId, None) {
        return Failed;
      }
      var created := User(env.freshId, cols, env.now, env.now);
      users := users[created.id := UserRow(call.tenant, created)];
      var after := Some(UserImage(created));
      InsertAudit(call, UserResource, Create, created.id, None, after);
      EnqueueChange(env, call, UserCreated, created.id, cfg.codec.text(created.id), None, after);
      out := Changed(None, after);
    }

    method UpdateUser(env: Env, call: Call, id: string, cols: Columns) returns (out: Outcome)
      requires Valid()
      modifies this`users, this`audit, this`outbox
      ensures Valid()
      ensures (Snapshot(), out) == Transact(cfg, env, old(Snapshot()), call, Request.UpdateUser(id, cols))
    {
      if env.fault {
        return Failed;
      }
      var u := cfg.codec.parse(id);
      if u.None? || !OwnUser(users, call.tenant, u.value) {
        AuditRefusal(env, call, UserResource, Replace, id, "no such user");
        return Refused("no such user");
      }
      if UserNameTaken(users, call.tenant, cols.userName, u) {
        AuditRefusal(env, call, UserResource, Replace, id, "duplicate userName");
        return Refused("duplicate userName");
      }
      if UserExternalIdTaken(users, call.tenant, cols.externalId, u) {
        return Failed;
      }
      var before := users[u.value].user;
      var after := before.(cols := cols, updatedAt := env.now);
      out := Replaced(env, call, Replace, ChangeEventType(before, after), u.value, id, before, after);
    }

    method DeactivateUser(env: Env, call: Call, id: string) returns (out: Outcome)
      requires Valid()
      modifies this`users, this`audit, this`outbox
      ensures Valid()
      ensures (Snapshot(), out) == Transact(cfg, env, old(Snapshot()), call, Request.DeactivateUser(id))
    {
      if env.fault {
        return Failed;
      }
      var u := cfg.codec.parse(id);
      if u.None? || !OwnUser(users, call.tenant, u.value) {
        AuditRefusal(env, call, UserResource, Deactivate, id, "no such user");
        return Refused("no such user");
      }
      var before := users[u.value].user;
      var after := before.(cols := before.cols.(active := false), updatedAt := env.now);
      out := Replaced(env, call, Deactivate, UserDeactivated, u.value, id, before, after);
    }

    /** The write both user updates share: the row, its audit entry and its event. */
    method Replaced(
      env: Env, call: Call, action: Action, kind: EventType, u: Uuid, id: string, before: User, after: User)
      returns (out: Outcome)
      modifies this`users, this`audit, this`outbox
      ensures users == old(users)[u := UserRow(call.tenant, after)]
      ensures audit == old(audit)
          + [SuccessEntry(call, UserResource, action, u, Some(UserImage(before)), Some(UserImage(after)))]
      ensures outbox == if cfg.events
                        then old(outbox) + [Delivery(call.tenant, kind, u,
                               ChangeEvent(kind, after.updatedAt, id, Some(UserImage(before)), Some(UserImage(after))))]
                        else old(outbox)
      ensures out == Changed(Some(UserImage(before)), Some(UserImage(after)))
    {
      users := users[u := UserRow(call.tenant, after)];
      InsertAudit(call, UserResource, action, u, Some(UserImage(before)), Some(UserImage(after)));
      EnqueueChange(env, call, kind, u, id, Some(UserImage(before)), Some(UserImage(after)));
      out := Changed(Some(UserImage(before)), Some(UserImage(after)));
    }

    method FetchMembers(group: Uuid) returns (ids: seq<Uuid>)
      ensures ids == MembersOf(members, group)
    {
      EarlierIsTotal();
      var keys := SortInto(MemberKeys(members, group), Earlier);
      ids := ScanRows(keys);
    }

    method ReadGroup(group: Uuid) returns (g: Group)
      requires group in groups
      ensures g == GroupOf(groups, members, group)
    {
      var row := groups[group];
      var ids := FetchMembers(group);
      g := Group(group, row.externalId, row.displayName, ids, row.createdAt, row.updatedAt);
    }

    /** Clears a group's rows, then inserts one per id that names a user; the row count decides. */
    method ReplaceMembers(tenant: string, group: Uuid, ids: seq<string>, now: Time) returns (ok: bool)
      modifies this`members
      ensures ok <==> Accept(cfg.codec, users, tenant, ids).Some?
      ensures ok ==>
                members == WithMembers(old(members), group, Accept(cfg.codec, users, tenant, ids).value, tenant, now)
    {
      members := Without(members, group);
      var wanted := Membership.DedupeNonEmpty(ids);
      if wanted == [] {
        assert Denoted(cfg.codec, users, tenant, wanted) == {};
        return true;
      }
      if exists s :: s in wanted && cfg.codec.parse(s).None? {
        return false;
      }
      var found := set s | s in wanted && OwnUser(users, tenant, cfg.codec.parse(s).value) :: cfg.codec.parse(s).value;
      members := members + (map u | u in found :: (group, u) := MemberRow(tenant, now));
      assert found == Denoted(cfg.codec, users, tenant, wanted);
      ok := |found| == |wanted|;
    }

    /** A group's row and its members; a member that does not resolve rolls both back. */
    method WriteGroup(tenant: string, id: Uuid, row: GroupRow, ids: seq<string>, now: Time) returns (ok: bool)
      modifies this`groups, this`members
      ensures ok <==> Accept(cfg.codec, users, tenant, ids).Some?
      ensures ok ==>
                Tables(users, groups, members)
                == Perform(old(Tables(users, groups, members)), tenant,
                           PutGroup(id, row, Accept(cfg.codec, users, tenant, ids).value, now))
      ensures !ok ==> groups == old(groups) && members == old(members)
    {
      var savedGroups, savedMembers := groups, members;
      groups := groups[id := row];
      ok := ReplaceMembers(tenant, id, ids, now);
      if !ok {
        groups, members := savedGroups, savedMembers;
      }
    }

    method CreateGroup(env: Env, call: Call, g: GroupInput) returns (out: Outcome)
      requires Valid()
      modifies this`groups, this`members, this`audit, this`outbox
      ensures Valid()
      ensures (Snapshot(), out) == Transact(cfg, env, old(Snapshot()), call, Request.CreateGroup(g))
    {
      if env.fault || env.freshId in groups {
        return Failed;
      }
      if GroupNameTaken(groups, call.tenant, g.displayName, None) {
        AuditRefusal(env, call, GroupResource, Create, "", "duplicate displayName");
        return Refused("duplicate displayName");
      }
      if GroupExternalIdTaken(groups, call.tenant, g.externalId, None) {
        return Failed;
      }
      var id := env.freshId;
      var row := GroupRow(call.tenant, g.externalId, g.displayName, env.now, env.now);
      var ok := WriteGroup(call.tenant, id, row, g.members, env.now);
      if !ok {
        AuditRefusal(env, call, GroupResource, Create, "", "invalid member reference");
        return Refused("invalid member reference");
      }
      var created := ReadGroup(id);
      InsertAudit(call, GroupResource, Create, id, None, Some(GroupImage(created)));
      EnqueueChange(env, call, GroupCreated, id, cfg.codec.text(id), None, Some(GroupImage(created)));
      out := Changed(None, Some(GroupImage(created)));
    }

    method UpdateGroup(env: Env, call: Call, id: string, g: GroupInput) returns (out: Outcome)
      requires Valid()
      modifies this`groups, this`members, this`audit, this`outbox
      ensures Valid()
      ensures (Snapshot(), out) == Transact(cfg, env, old(Snapshot()), call, Request.UpdateGroup(id, g))
    {
      if env.fault {
        return Failed;
      }
      var k := cfg.codec.parse(id);
      if k.None? || !OwnGroup(groups, call.tenant, k.value) {
        AuditRefusal(env, call, GroupResource, Replace, id, "no such group");
        return Refused("no such group");
      }
      var before := ReadGroup(k.value);
      if GroupNameTaken(groups, call.tenant, g.displayName, k) {
        AuditRefusal(env, call, GroupResource, Replace, id, "duplicate displayName");
        return Refused("duplicate displayName");
      }
      if GroupExternalIdTaken(groups, call.tenant, g.externalId, k) {
        return Failed;
      }
      var row := groups[k.value].(displayName := g.displayName, externalId := g.externalId, updatedAt := env.now);
      var ok := WriteGroup(call.tenant, k.value, row, g.members, env.now);
      if !ok {
        AuditRefusal(env, call, GroupResource, Replace, id, "invalid member reference");
        return Refused("invalid member reference");
      }
      var after := ReadGroup(k.value);
      InsertAudit(call, GroupResource, Replace, k.value, Some(GroupImage(before)), Some(GroupImage(after)));
      EnqueueChange(env, call, GroupReplaced, k.value, id, Some(GroupImage(before)), Some(GroupImage(after)));
      out := Changed(Some(GroupImage(before)), Some(GroupImage(after)));
    }

    method DeleteGroup(env: Env, call: Call, id: string) returns (out: Outcome)
      requires Valid()
      modifies this`groups, this`members, this`audit, this`outbox
      ensures Valid()
      ensures (Snapshot(), out) == Transact(cfg, env, old(Snapshot()), call, Request.DeleteGroup(id))
    {
      if env.fault {
        return Failed;
      }
      var k := cfg.codec.parse(id);
      if k.None? || !OwnGroup(groups, call.tenant, k.value) {
        AuditRefusal(env, call, GroupResource, Delete, id, "no such group");
        return Refused("no such group");
      }
      var before := ReadGroup(k.value);
      groups := groups - {k.value};
      members := Without(members, k.value);
      InsertAudit(call, GroupResource, Delete, k.value, Some(GroupImage(before)), None);
      EnqueueChange(env, call, GroupDeleted, k.value, id, Some(GroupImage(before)), None);
      out := Changed(Some(GroupImage(before)), None);
    }
  }
}
