/** What each store transaction does, row by row and column by column, and exactly when. */
module StoreExact {
  import opened Text
  import opened Entities
  import opened Ordering
  import opened Store
  import opened Membership

  // ---- What every transaction leaves behind ----

  /** Nothing at all is different. */
  ghost predicate Untouched(db: Db, db': Db, out: Outcome) {
    db' == db && out == Failed
  }

  /** No row and no event; one more audit entry, without images, unless it cannot be written or the id is no uuid. */
  ghost predicate RefusedWith(
    cfg: Config, env: Env, db: Db, db': Db, call: Call, out: Outcome,
    resource: Resource, action: Action, id: Option<string>, detail: string)
  {
    && out == Refused(detail) && db'.tables == db.tables && db'.outbox == db.outbox
    && db'.audit == if !env.refusalLogged || (id.Some? && id.value != "" && cfg.codec.parse(id.value) == None)
                    then db.audit
                    else db.audit + [AuditEntry(
                      call.tenant, call.actor, resource, action, false, detail,
                      if id.Some? && id.value != "" then cfg.codec.parse(id.value) else None, None, None)]
  }

  /** One more audit entry with both images, and one more event with them while change events are on. */
  ghost predicate RecordedAs(
    cfg: Config, db: Db, db': Db, call: Call, out: Outcome, resource: Resource, action: Action, target: Uuid,
    kind: EventType, at: Time, spelled: string, before: Option<Image>, after: Option<Image>)
  {
    && out == Changed(before, after)
    && db'.audit
       == db.audit + [AuditEntry(call.tenant, call.actor, resource, action, true, "", Some(target), before, after)]
    && db'.outbox == if cfg.events
                     then db.outbox
                          + [Delivery(call.tenant, kind, target, ChangeEvent(kind, at, spelled, before, after))]
                     else db.outbox
  }

  /** Every user but one, every group and every membership is as it was. */
  ghost predicate OnlyUser(t: Tables, t': Tables, u: Uuid) {
    && t'.users.Keys == t.users.Keys + {u} && (forall v | v in t.users && v != u :: t'.users[v] == t.users[v])
    && t'.groups == t.groups && t'.members == t.members
  }

  // ---- Users ----

  /** Another user of the tenant has the name in some casing. */
  ghost predicate NameClash(t: Tables, tenant: string, name: string, except: Option<Uuid>) {
    exists v :: v in t.users && t.users[v].tenant == tenant && except != Some(v)
      && Lower(t.users[v].user.cols.userName) == Lower(name)
  }

  /** Another user of the tenant has the external id. */
  ghost predicate ExternalIdClash(t: Tables, tenant: string, ext: Option<string>, except: Option<Uuid>) {
    && ext.Some?
    && exists v :: v in t.users && t.users[v].tenant == tenant && except != Some(v)
         && t.users[v].user.cols.externalId == ext
  }

  /** The user row now has this tenant, identity, times and columns, each of them; the entry and the event carry it. */
  ghost predicate UserWritten(
    cfg: Config, db: Db, db': Db, call: Call, out: Outcome, action: Action, u: Uuid, createdAt: Time, now: Time,
    cols: Columns, active: bool, kind: EventType, spelled: string, before: Option<Image>)
  {
    && OnlyUser(db.tables, db'.tables, u)
    && db'.tables.users[u].tenant == call.tenant
    && var user := db'.tables.users[u].user;
    && user.id == u && user.createdAt == createdAt && user.updatedAt == now
    && user.cols.userName == cols.userName && user.cols.externalId == cols.externalId
    && user.cols.givenName == cols.givenName && user.cols.familyName == cols.familyName
    && user.cols.email == cols.email && user.cols.active == active
    && user.cols.extended == cols.extended
    && RecordedAs(cfg, db, db', call, out, UserResource, action, u, kind, now, spelled, before, Some(UserImage(user)))
  }

  lemma Clashes(t: Tables, tenant: string, cols: Columns, except: Option<Uuid>)
    ensures NameClash(t, tenant, cols.userName, except) <==> UserNameTaken(t.users, tenant, cols.userName, except)
    ensures ExternalIdClash(t, tenant, cols.externalId, except)
            <==> UserExternalIdTaken(t.users, tenant, cols.externalId, except)
  {
  }

  /** A create stores the columns as given, under the drawn id, at the transaction's time. */
  lemma CreateUserExactly(cfg: Config, env: Env, db: Db, call: Call, cols: Columns)
    ensures var (db', out) := Transact(cfg, env, db, call, CreateUser(cols));
            var u := env.freshId;
            if env.fault || u in db.tables.users then Untouched(db, db', out)
            else if NameClash(db.tables, call.tenant, cols.userName, None) then
              RefusedWith(cfg, env, db, db', call, out, UserResource, Create, None, "duplicate userName")
            else if ExternalIdClash(db.tables, call.tenant, cols.externalId, None) then Untouched(db, db', out)
            else
              UserWritten(cfg, db, db', call, out, Create, u, env.now, env.now, cols, cols.active, UserCreated,
                          cfg.codec.text(u), None)
  {
    Clashes(db.tables, call.tenant, cols, None);
  }

  /** The id names a user of the tenant. */
  ghost predicate UserAt(cfg: Config, t: Tables, tenant: string, id: string, u: Uuid) {
    cfg.codec.parse(id) == Some(u) && u in t.users && t.users[u].tenant == tenant
  }

  lemma UpdateCarried(cfg: Config, env: Env, db: Db, call: Call, id: string, u: Uuid, cols: Columns)
    requires KeyedById(db.tables.users) && !env.fault && UserAt(cfg, db.tables, call.tenant, id, u)
    requires !NameClash(db.tables, call.tenant, cols.userName, Some(u))
    requires !ExternalIdClash(db.tables, call.tenant, cols.externalId, Some(u))
    ensures var (db', out) := Transact(cfg, env, db, call, UpdateUser(id, cols));
            var before := db.tables.users[u].user;
            UserWritten(cfg, db, db', call, out, Replace, u, before.createdAt, env.now, cols, cols.active,
                        if before.cols.active && !cols.active then UserDeactivated else UserReplaced, id,
                        Some(UserImage(before)))
  {
    Clashes(db.tables, call.tenant, cols, Some(u));
  }

  lemma UpdateRefused(cfg: Config, env: Env, db: Db, call: Call, id: string, cols: Columns)
    requires env.fault || forall u :: !UserAt(cfg, db.tables, call.tenant, id, u)
    ensures var (db', out) := Transact(cfg, env, db, call, UpdateUser(id, cols));
            if env.fault then Untouched(db, db', out)
            else RefusedWith(cfg, env, db, db', call, out, UserResource, Replace, Some(id), "no such user")
  {
    var p := cfg.codec.parse(id);
    assert !env.fault && p.Some? ==> !UserAt(cfg, db.tables, call.tenant, id, p.value);
  }

  /**
   A replace keeps id, creation time and tenant and takes every other column from the caller; the event is a
   deactivation when it takes the user from active to inactive.
   */
  lemma UpdateUserExactly(cfg: Config, env: Env, db: Db, call: Call, id: string, cols: Columns)
    requires KeyedById(db.tables.users)
    ensures var (db', out) := Transact(cfg, env, db, call, UpdateUser(id, cols));
            if env.fault then Untouched(db, db', out)
            else if forall u :: !UserAt(cfg, db.tables, call.tenant, id, u) then
              RefusedWith(cfg, env, db, db', call, out, UserResource, Replace, Some(id), "no such user")
            else
              var u := cfg.codec.parse(id).value;
              if NameClash(db.tables, call.tenant, cols.userName, Some(u)) then
                RefusedWith(cfg, env, db, db', call, out, UserResource, Replace, Some(id), "duplicate userName")
              else if ExternalIdClash(db.tables, call.tenant, cols.externalId, Some(u)) then Untouched(db, db', out)
              else
                var before := db.tables.users[u].user;
                UserWritten(cfg, db, db', call, out, Replace, u, before.createdAt, env.now, cols, cols.active,
                            if before.cols.active && !cols.active then UserDeactivated else UserReplaced, id,
                            Some(UserImage(before)))
  {
    if u :| !env.fault && UserAt(cfg, db.tables, call.tenant, id, u) {
      Clashes(db.tables, call.tenant, cols, Some(u));
      if !NameClash(db.tables, call.tenant, cols.userName, Some(u))
        && !ExternalIdClash(db.tables, call.tenant, cols.externalId, Some(u)) {
        UpdateCarried(cfg, env, db, call, id, u, cols);
      }
    } else {
      UpdateRefused(cfg, env, db, call, id, cols);
    }
  }

  /** A soft delete makes the user inactive and moves its time; every other column stays. */
  lemma DeactivateUserExactly(cfg: Config, env: Env, db: Db, call: Call, id: string)
    requires KeyedById(db.tables.users)
    ensures var (db', out) := Transact(cfg, env, db, call, DeactivateUser(id));
            if env.fault then Untouched(db, db', out)
            else if forall u :: !UserAt(cfg, db.tables, call.tenant, id, u) then
              RefusedWith(cfg, env, db, db', call, out, UserResource, Deactivate, Some(id), "no such user")
            else
              var u := cfg.codec.parse(id).value;
              var before := db.tables.users[u].user;
              UserWritten(cfg, db, db', call, out, Deactivate, u, before.createdAt, env.now, before.cols, false,
                          UserDeactivated, id, Some(UserImage(before)))
  {
    var p := cfg.codec.parse(id);
    assert (exists u :: UserAt(cfg, db.tables, call.tenant, id, u)) <==>
      p.Some? && UserAt(cfg, db.tables, call.tenant, id, p.value);
  }

  // ---- Groups ----

  ghost predicate GroupNameClash(t: Tables, tenant: string, name: string, except: Option<Uuid>) {
    exists h :: h in t.groups && t.groups[h].tenant == tenant && except != Some(h)
      && Lower(t.groups[h].displayName) == Lower(name)
  }

  ghost predicate GroupExternalIdClash(t: Tables, tenant: string, ext: Option<string>, except: Option<Uuid>) {
    && ext.Some?
    && exists h :: h in t.groups && t.groups[h].tenant == tenant && except != Some(h)
         && t.groups[h].externalId == ext
  }

  /** Some id, empty ones aside, names no user of the tenant, or two that differ name the same user. */
  ghost predicate BadMembers(cfg: Config, t: Tables, tenant: string, ids: seq<string>) {
    || (exists s :: s in ids && s != "" && forall u :: !UserAt(cfg, t, tenant, s, u))
    || (exists s, r :: s in ids && r in ids && s != "" && r != "" && s != r && cfg.codec.parse(s) == cfg.codec.parse(r))
  }

  lemma BadMembersExactly(cfg: Config, t: Tables, tenant: string, ids: seq<string>)
    ensures Accept(cfg.codec, t.users, tenant, ids).None? <==> BadMembers(cfg, t, tenant, ids)
    ensures Accept(cfg.codec, t.users, tenant, ids).Some? ==>
              forall u: Uuid :: u in Accept(cfg.codec, t.users, tenant, ids).value <==>
                exists s :: s in ids && s != "" && UserAt(cfg, t, tenant, s, u)
  {
    AcceptsExactly(cfg.codec, t.users, tenant, ids);
    forall s ensures Names(cfg.codec, t.users, tenant, s) <==> exists u :: UserAt(cfg, t, tenant, s, u) {
      if Names(cfg.codec, t.users, tenant, s) {
        assert UserAt(cfg, t, tenant, s, cfg.codec.parse(s).value);
      }
    }
  }

  /** The group's members are the users the ids name, joined now; other groups' members are as they were. */
  ghost predicate MembersAre(
    cfg: Config, t: Tables, t': Tables, g: Uuid, tenant: string, ids: seq<string>, now: Time)
  {
    && (forall k: (Uuid, Uuid) | k.0 != g :: (k in t'.members <==> k in t.members)
          && (k in t.members ==> t'.members[k] == t.members[k]))
    && (forall u: Uuid :: (g, u) in t'.members <==> exists s :: s in ids && s != "" && UserAt(cfg, t, tenant, s, u))
    && (forall u: Uuid | (g, u) in t'.members ::
          t'.members[(g, u)].tenant == tenant && t'.members[(g, u)].addedAt == now)
  }

  /** Every group but one, and every user, is as it was. */
  ghost predicate OnlyGroup(t: Tables, t': Tables, g: Uuid) {
    && t'.groups.Keys == t.groups.Keys + {g} && (forall h | h in t.groups && h != g :: t'.groups[h] == t.groups[h])
    && t'.users == t.users
  }

  /** The image of a stored group: its columns, and its members by the time they joined and then by id. */
  ghost predicate Pictures(t: Tables, g: Uuid, image: Group) {
    && g in t.groups
    && image.id == g && image.displayName == t.groups[g].displayName && image.externalId == t.groups[g].externalId
    && image.createdAt == t.groups[g].createdAt && image.updatedAt == t.groups[g].updatedAt
    && (forall u :: u in image.members <==> (g, u) in t.members)
    && forall i, j :: 0 <= i < j < |image.members| && (g, image.members[i]) in t.members
                      && (g, image.members[j]) in t.members ==>
         || t.members[(g, image.members[i])].addedAt < t.members[(g, image.members[j])].addedAt
         || (t.members[(g, image.members[i])].addedAt == t.members[(g, image.members[j])].addedAt
             && image.members[i] < image.members[j])
  }

  lemma ReadInOrder(members: Members, g: Uuid)
    ensures var read := MembersOf(members, g);
            forall i, j :: 0 <= i < j < |read| ==>
              && (g, read[i]) in members && (g, read[j]) in members
              && (members[(g, read[i])].addedAt < members[(g, read[j])].addedAt
                  || (members[(g, read[i])].addedAt == members[(g, read[j])].addedAt && read[i] < read[j]))
  {
    EarlierIsTotal();
    var sorted := SortSet(MemberKeys(members, g), Earlier);
    assert forall k :: k in sorted <==> k in Elements(sorted);
    forall i | 0 <= i < |sorted|
      ensures (g, sorted[i].1) in members && members[(g, sorted[i].1)].addedAt == sorted[i].0
    {
      assert sorted[i] in MemberKeys(members, g);
    }
  }

  lemma ImageExactly(t: Tables, g: Uuid)
    requires g in t.groups
    ensures Pictures(t, g, GroupOf(t.groups, t.members, g))
  {
    ReadsAllMembers(t.members, g);
    ReadInOrder(t.members, g);
    var read := MembersOf(t.members, g);
    assert forall u :: u in read <==> u in Elements(read);
    forall u ensures u in MemberSet(t.members, g) <==> (g, u) in t.members {
      assert (g, u) in t.members ==> (g, u).1 in MemberSet(t.members, g);
    }
  }

  lemma StoredExactly(cfg: Config, t: Tables, g: Uuid, row: GroupRow, tenant: string, ids: seq<string>, now: Time)
    requires Accept(cfg.codec, t.users, tenant, ids).Some?
    ensures var found := Accept(cfg.codec, t.users, tenant, ids).value;
            var t' := Perform(t, tenant, PutGroup(g, row, found, now));
            && OnlyGroup(t, t', g) && t'.groups[g] == row && MembersAre(cfg, t, t', g, tenant, ids, now)
            && Pictures(t', g, GroupOf(t'.groups, t'.members, g))
  {
    BadMembersExactly(cfg, t, tenant, ids);
    var found := Accept(cfg.codec, t.users, tenant, ids).value;
    var t' := Perform(t, tenant, PutGroup(g, row, found, now));
    ImageExactly(t', g);
    assert forall u :: (g, u) in t'.members <==> u in found;
  }

  lemma GroupClashes(t: Tables, tenant: string, g: GroupInput, except: Option<Uuid>)
    ensures GroupNameClash(t, tenant, g.displayName, except)
            <==> GroupNameTaken(t.groups, tenant, g.displayName, except)
    ensures GroupExternalIdClash(t, tenant, g.externalId, except)
            <==> GroupExternalIdTaken(t.groups, tenant, g.externalId, except)
  {
  }

  /** The group now has this row and these members, and the entry and the event carry its image. */
  ghost predicate GroupWritten(
    cfg: Config, env: Env, db: Db, db': Db, call: Call, out: Outcome, action: Action, k: Uuid, row: GroupRow,
    ids: seq<string>, kind: EventType, spelled: string, before: Option<Image>)
  {
    && OnlyGroup(db.tables, db'.tables, k) && db'.tables.groups[k] == row
    && MembersAre(cfg, db.tables, db'.tables, k, call.tenant, ids, env.now)
    && out.Changed? && out.after.Some? && out.after.value.GroupImage?
    && Pictures(db'.tables, k, out.after.value.group)
    && RecordedAs(cfg, db, db', call, out, GroupResource, action, k, kind, env.now, spelled, before, out.after)
  }

  /** A create stores the row as given, under the drawn id, with the users named as its members. */
  lemma CreateGroupExactly(cfg: Config, env: Env, db: Db, call: Call, g: GroupInput)
    ensures var (db', out) := Transact(cfg, env, db, call, CreateGroup(g));
            var k := env.freshId;
            if env.fault || k in db.tables.groups then Untouched(db, db', out)
            else if GroupNameClash(db.tables, call.tenant, g.displayName, None) then
              RefusedWith(cfg, env, db, db', call, out, GroupResource, Create, None, "duplicate displayName")
            else if GroupExternalIdClash(db.tables, call.tenant, g.externalId, None) then Untouched(db, db', out)
            else if BadMembers(cfg, db.tables, call.tenant, g.members) then
              RefusedWith(cfg, env, db, db', call, out, GroupResource, Create, None, "invalid member reference")
            else
              GroupWritten(cfg, env, db, db', call, out, Create, k,
                           GroupRow(call.tenant, g.externalId, g.displayName, env.now, env.now),
                           g.members, GroupCreated, cfg.codec.text(k), None)
  {
    GroupClashes(db.tables, call.tenant, g, None);
    BadMembersExactly(cfg, db.tables, call.tenant, g.members);
    if Accept(cfg.codec, db.tables.users, call.tenant, g.members).Some? {
      StoredExactly(cfg, db.tables, env.freshId, GroupRow(call.tenant, g.externalId, g.displayName, env.now, env.now),
                    call.tenant, g.members, env.now);
    }
  }

  ghost predicate GroupAt(cfg: Config, t: Tables, tenant: string, id: string, k: Uuid) {
    cfg.codec.parse(id) == Some(k) && k in t.groups && t.groups[k].tenant == tenant
  }

  lemma ReplaceCarried(cfg: Config, env: Env, db: Db, call: Call, id: string, k: Uuid, g: GroupInput)
    requires !env.fault && GroupAt(cfg, db.tables, call.tenant, id, k)
    requires !GroupNameClash(db.tables, call.tenant, g.displayName, Some(k))
    requires !GroupExternalIdClash(db.tables, call.tenant, g.externalId, Some(k))
    requires !BadMembers(cfg, db.tables, call.tenant, g.members)
    ensures var (db', out) := Transact(cfg, env, db, call, UpdateGroup(id, g));
            && out.Changed? && out.before == Some(GroupImage(GroupOf(db.tables.groups, db.tables.members, k)))
            && GroupWritten(cfg, env, db, db', call, out, Replace, k,
                 GroupRow(call.tenant, g.externalId, g.displayName, db.tables.groups[k].createdAt, env.now),
                 g.members, GroupReplaced, id, out.before)
  {
    GroupClashes(db.tables, call.tenant, g, Some(k));
    BadMembersExactly(cfg, db.tables, call.tenant, g.members);
    StoredExactly(cfg, db.tables, k,
                  GroupRow(call.tenant, g.externalId, g.displayName, db.tables.groups[k].createdAt, env.now),
                  call.tenant, g.members, env.now);
  }

  lemma ReplaceClashes(cfg: Config, env: Env, db: Db, call: Call, id: string, k: Uuid, g: GroupInput)
    requires !env.fault && GroupAt(cfg, db.tables, call.tenant, id, k)
    requires GroupNameClash(db.tables, call.tenant, g.displayName, Some(k))
          || GroupExternalIdClash(db.tables, call.tenant, g.externalId, Some(k))
          || BadMembers(cfg, db.tables, call.tenant, g.members)
    ensures var (db', out) := Transact(cfg, env, db, call, UpdateGroup(id, g));
            if GroupNameClash(db.tables, call.tenant, g.displayName, Some(k)) then
              RefusedWith(cfg, env, db, db', call, out, GroupResource, Replace, Some(id), "duplicate displayName")
            else if GroupExternalIdClash(db.tables, call.tenant, g.externalId, Some(k)) then Untouched(db, db', out)
            else
              RefusedWith(cfg, env, db, db', call, out, GroupResource, Replace, Some(id), "invalid member reference")
  {
    GroupClashes(db.tables, call.tenant, g, Some(k));
    BadMembersExactly(cfg, db.tables, call.tenant, g.members);
  }

  lemma ReplaceRefused(cfg: Config, env: Env, db: Db, call: Call, id: string, g: GroupInput)
    requires env.fault || forall k :: !GroupAt(cfg, db.tables, call.tenant, id, k)
    ensures var (db', out) := Transact(cfg, env, db, call, UpdateGroup(id, g));
            if env.fault then Untouched(db, db', out)
            else RefusedWith(cfg, env, db, db', call, out, GroupResource, Replace, Some(id), "no such group")
  {
    var p := cfg.codec.parse(id);
    assert !env.fault && p.Some? ==> !GroupAt(cfg, db.tables, call.tenant, id, p.value);
  }

  /** A replace keeps id, creation time and tenant, takes name and external id, and starts the membership afresh. */
  lemma UpdateGroupExactly(cfg: Config, env: Env, db: Db, call: Call, id: string, g: GroupInput)
    ensures var (db', out) := Transact(cfg, env, db, call, UpdateGroup(id, g));
            if env.fault then Untouched(db, db', out)
            else if forall k :: !GroupAt(cfg, db.tables, call.tenant, id, k) then
              RefusedWith(cfg, env, db, db', call, out, GroupResource, Replace, Some(id), "no such group")
            else
              var k := cfg.codec.parse(id).value;
              if GroupNameClash(db.tables, call.tenant, g.displayName, Some(k)) then
                RefusedWith(cfg, env, db, db', call, out, GroupResource, Replace, Some(id), "duplicate displayName")
              else if GroupExternalIdClash(db.tables, call.tenant, g.externalId, Some(k)) then Untouched(db, db', out)
              else if BadMembers(cfg, db.tables, call.tenant, g.members) then
                RefusedWith(cfg, env, db, db', call, out, GroupResource, Replace, Some(id), "invalid member reference")
              else
                && out.Changed? && out.before.Some? && out.before.value.GroupImage?
                && Pictures(db.tables, k, out.before.value.group)
                && GroupWritten(cfg, env, db, db', call, out, Replace, k,
                     GroupRow(call.tenant, g.externalId, g.displayName, db.tables.groups[k].createdAt, env.now),
                     g.members, GroupReplaced, id, out.before)
  {
    if k :| !env.fault && GroupAt(cfg, db.tables, call.tenant, id, k) {
      if !GroupNameClash(db.tables, call.tenant, g.displayName, Some(k))
        && !GroupExternalIdClash(db.tables, call.tenant, g.externalId, Some(k))
        && !BadMembers(cfg, db.tables, call.tenant, g.members) {
        ImageExactly(db.tables, k);
        ReplaceCarried(cfg, env, db, call, id, k, g);
      } else {
        ReplaceClashes(cfg, env, db, call, id, k, g);
      }
    } else {
      ReplaceRefused(cfg, env, db, call, id, g);
    }
  }

  /** The row and its memberships are gone, and nothing else; the entry and the event carry the last image. */
  ghost predicate GroupDropped(cfg: Config, env: Env, db: Db, db': Db, call: Call, out: Outcome, k: Uuid, id: string) {
    && db'.tables.users == db.tables.users
    && db'.tables.groups.Keys == db.tables.groups.Keys - {k}
    && (forall h | h in db'.tables.groups :: db'.tables.groups[h] == db.tables.groups[h])
    && (forall m :: m in db'.tables.members <==> m in db.tables.members && m.0 != k)
    && (forall m | m in db'.tables.members :: db'.tables.members[m] == db.tables.members[m])
    && out.Changed? && out.before.Some? && out.before.value.GroupImage?
    && Pictures(db.tables, k, out.before.value.group)
    && RecordedAs(cfg, db, db', call, out, GroupResource, Delete, k, GroupDeleted, env.wallClock, id, out.before, None)
  }

  lemma DeleteCarried(cfg: Config, env: Env, db: Db, call: Call, id: string, k: Uuid)
    requires !env.fault && GroupAt(cfg, db.tables, call.tenant, id, k)
    ensures var (db', out) := Transact(cfg, env, db, call, DeleteGroup(id));
            GroupDropped(cfg, env, db, db', call, out, k, id)
  {
    ImageExactly(db.tables, k);
  }

  lemma DeleteRefused(cfg: Config, env: Env, db: Db, call: Call, id: string)
    requires forall k :: !GroupAt(cfg, db.tables, call.tenant, id, k)
    ensures var (db', out) := Transact(cfg, env, db, call, DeleteGroup(id));
            if env.fault then Untouched(db, db', out)
            else RefusedWith(cfg, env, db, db', call, out, GroupResource, Delete, Some(id), "no such group")
  {
    var p := cfg.codec.parse(id);
    assert p.Some? ==> !GroupAt(cfg, db.tables, call.tenant, id, p.value);
  }

  /** A delete takes the row and its memberships; the event carries the process clock. */
  lemma DeleteGroupExactly(cfg: Config, env: Env, db: Db, call: Call, id: string)
    ensures var (db', out) := Transact(cfg, env, db, call, DeleteGroup(id));
            if env.fault then Untouched(db, db', out)
            else if forall k :: !GroupAt(cfg, db.tables, call.tenant, id, k) then
              RefusedWith(cfg, env, db, db', call, out, GroupResource, Delete, Some(id), "no such group")
            else GroupDropped(cfg, env, db, db', call, out, cfg.codec.parse(id).value, id)
  {
    if k :| !env.fault && GroupAt(cfg, db.tables, call.tenant, id, k) {
      DeleteCarried(cfg, env, db, call, id, k);
    } else if !env.fault {
      DeleteRefused(cfg, env, db, call, id);
    }
  }
}
