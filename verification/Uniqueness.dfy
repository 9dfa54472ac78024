/** The unique indexes hold in every reachable state: per tenant, names and external ids are never shared. */
module Uniqueness {
  import opened Text
  import opened Entities
  import opened Store

  ghost predicate UserApart(a: UserRow, b: UserRow) {
    a.tenant == b.tenant ==>
      && Lower(a.user.cols.userName) != Lower(b.user.cols.userName)
      && (a.user.cols.externalId.Some? ==> a.user.cols.externalId != b.user.cols.externalId)
  }

  ghost predicate GroupApart(a: GroupRow, b: GroupRow) {
    a.tenant == b.tenant ==>
      && Lower(a.displayName) != Lower(b.displayName)
      && (a.externalId.Some? ==> a.externalId != b.externalId)
  }

  ghost predicate UniqueUsers(users: Users) {
    forall u, v | u in users && v in users && u != v :: UserApart(users[u], users[v])
  }

  ghost predicate UniqueGroups(groups: Groups) {
    forall g, h | g in groups && h in groups && g != h :: GroupApart(groups[g], groups[h])
  }

  /** A row that clashes with no other may be written. */
  lemma UniqueUserPut(users: Users, tenant: string, user: User)
    requires UniqueUsers(users)
    requires !UserNameTaken(users, tenant, user.cols.userName, Some(user.id))
    requires !UserExternalIdTaken(users, tenant, user.cols.externalId, Some(user.id))
    ensures UniqueUsers(users[user.id := UserRow(tenant, user)])
  {
  }

  lemma UniqueGroupPut(groups: Groups, id: Uuid, row: GroupRow)
    requires UniqueGroups(groups)
    requires !GroupNameTaken(groups, row.tenant, row.displayName, Some(id))
    requires !GroupExternalIdTaken(groups, row.tenant, row.externalId, Some(id))
    ensures UniqueGroups(groups[id := row])
  {
  }

  /** What a decision has checked before it writes. */
  ghost predicate Checked(t: Tables, tenant: string, d: Decision) {
    d.Write? ==>
      match d.edit
      case PutUser(user) =>
        && !UserNameTaken(t.users, tenant, user.cols.userName, Some(user.id))
        && !UserExternalIdTaken(t.users, tenant, user.cols.externalId, Some(user.id))
      case PutGroup(id, row, _, _) =>
        && row.tenant == tenant
        && !GroupNameTaken(t.groups, tenant, row.displayName, Some(id))
        && !GroupExternalIdTaken(t.groups, tenant, row.externalId, Some(id))
      case DropGroup(_) => true
  }

  /** In a table without clashes a stored row does not clash with the others. */
  lemma StoredUserFree(users: Users, u: Uuid)
    requires UniqueUsers(users) && u in users
    ensures !UserNameTaken(users, users[u].tenant, users[u].user.cols.userName, Some(u))
    ensures !UserExternalIdTaken(users, users[u].tenant, users[u].user.cols.externalId, Some(u))
  {
  }

  lemma StoredGroupFree(groups: Groups, g: Uuid)
    requires UniqueGroups(groups) && g in groups
    ensures !GroupNameTaken(groups, groups[g].tenant, groups[g].displayName, Some(g))
    ensures !GroupExternalIdTaken(groups, groups[g].tenant, groups[g].externalId, Some(g))
  {
  }

  lemma UserDecisionChecked(codec: Codec, env: Env, t: Tables, tenant: string, req: Request)
    requires KeyedById(t.users) && UniqueUsers(t.users)
    requires req.CreateUser? || req.UpdateUser? || req.DeactivateUser?
    ensures Checked(t, tenant, Decide(codec, env, t, tenant, req))
  {
    if req.DeactivateUser? && codec.parse(req.userId).Some? && codec.parse(req.userId).value in t.users {
      StoredUserFree(t.users, codec.parse(req.userId).value);
    }
  }

  lemma GroupDecisionChecked(codec: Codec, env: Env, t: Tables, tenant: string, req: Request)
    requires req.CreateGroup? || req.UpdateGroup? || req.DeleteGroup?
    ensures Checked(t, tenant, Decide(codec, env, t, tenant, req))
  {
  }

  lemma UniqueEdit(t: Tables, tenant: string, d: Decision)
    requires UniqueUsers(t.users) && UniqueGroups(t.groups) && d.Write? && Checked(t, tenant, d)
    ensures var t' := Perform(t, tenant, d.edit); UniqueUsers(t'.users) && UniqueGroups(t'.groups)
  {
    match d.edit
    case PutUser(user) => UniqueUserPut(t.users, tenant, user);
    case PutGroup(id, row, _, _) => UniqueGroupPut(t.groups, id, row);
    case DropGroup(_) =>
  }

  lemma UniqueStep(cfg: Config, env: Env, db: Db, call: Call, req: Request)
    requires KeyedById(db.tables.users) && UniqueUsers(db.tables.users) && UniqueGroups(db.tables.groups)
    ensures var t := Transact(cfg, env, db, call, req).0.tables;
            KeyedById(t.users) && UniqueUsers(t.users) && UniqueGroups(t.groups)
  {
    var d := Decide(cfg.codec, env, db.tables, call.tenant, req);
    if !env.fault && d.Write? {
      if req.CreateUser? || req.UpdateUser? || req.DeactivateUser? {
        UserDecisionChecked(cfg.codec, env, db.tables, call.tenant, req);
      } else {
        GroupDecisionChecked(cfg.codec, env, db.tables, call.tenant, req);
      }
      UniqueEdit(db.tables, call.tenant, d);
    }
  }

  /** No two users and no two groups of a tenant ever share a name in any casing, or an external id. */
  lemma {:induction false} UniqueAlways(cfg: Config, txns: seq<Txn>)
    ensures var t := After(cfg, txns).tables;
            KeyedById(t.users) && UniqueUsers(t.users) && UniqueGroups(t.groups)
  {
    if txns != [] {
      var last := txns[|txns| - 1];
      UniqueAlways(cfg, txns[..|txns| - 1]);
      UniqueStep(cfg, last.env, After(cfg, txns[..|txns| - 1]), last.call, last.req);
    }
  }
}
