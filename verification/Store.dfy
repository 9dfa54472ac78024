/**
 The transactional store: each mutation changes rows, appends an audit entry with both images and
 queues a change event, all in one transaction.
 */
module Store {
  import opened Text
  import opened Entities
  import opened Ordering

  /** The database's reading and printing of uuids; several spellings may denote one uuid. */
  datatype Codec = Codec(parse: string -> Option<Uuid>, text: Uuid -> string)

  ghost predicate Faithful(codec: Codec) {
    forall u: Uuid :: codec.parse(codec.text(u)) == Some(u)
  }

  datatype UserRow = UserRow(tenant: string, user: User)
  datatype GroupRow = GroupRow(
    tenant: string, externalId: Option<string>, displayName: string, createdAt: Time, updatedAt: Time)
  datatype MemberRow = MemberRow(tenant: string, addedAt: Time)

  type Users = map<Uuid, UserRow>
  type Groups = map<Uuid, GroupRow>
  /** Keyed by group and user. */
  type Members = map<(Uuid, Uuid), MemberRow>

  datatype Tables = Tables(users: Users, groups: Groups, members: Members)
  datatype Db = Db(tables: Tables, audit: seq<AuditEntry>, outbox: seq<Delivery>)

  const EMPTY: Db := Db(Tables(map[], map[], map[]), [], [])

  /** Who calls; the token's tenant is the tenant of every statement. */
  datatype Call = Call(tenant: string, actor: string)

  /** What the environment contributes to one transaction. */
  datatype Env = Env(
    now: Time,             // the database clock of the transaction
    wallClock: Time,       // the process clock
    freshId: Uuid,         // what gen_random_uuid() draws
    fault: bool,           // some statement or the commit fails
    refusalLogged: bool)   // the best-effort write of a refusal succeeds

  datatype GroupInput = GroupInput(displayName: string, externalId: Option<string>, members: seq<string>)

  datatype Request =
    | CreateUser(cols: Columns)
    | UpdateUser(userId: string, cols: Columns)
    | DeactivateUser(userId: string)
    | CreateGroup(input: GroupInput)
    | UpdateGroup(groupId: string, input: GroupInput)
    | DeleteGroup(groupId: string)

  datatype Outcome = Changed(before: Option<Image>, after: Option<Image>) | Refused(detail: string) | Failed

  datatype Config = Config(codec: Codec, events: bool)

  // ---- Reads and constraints ----

  predicate OwnUser(users: Users, tenant: string, id: Uuid) {
    id in users && users[id].tenant == tenant
  }

  predicate OwnGroup(groups: Groups, tenant: string, id: Uuid) {
    id in groups && groups[id].tenant == tenant
  }

  /** The unique index on (tenant, lower(user_name)), leaving out the row being replaced. */
  predicate UserNameTaken(users: Users, tenant: string, name: string, self: Option<Uuid>) {
    exists u :: u in users && users[u].tenant == tenant && Some(u) != self
      && Lower(users[u].user.cols.userName) == Lower(name)
  }

  predicate UserExternalIdTaken(users: Users, tenant: string, ext: Option<string>, self: Option<Uuid>) {
    ext.Some? &&
    exists u :: u in users && users[u].tenant == tenant && Some(u) != self && users[u].user.cols.externalId == ext
  }

  predicate GroupNameTaken(groups: Groups, tenant: string, name: string, self: Option<Uuid>) {
    exists g :: g in groups && groups[g].tenant == tenant && Some(g) != self
      && Lower(groups[g].displayName) == Lower(name)
  }

  predicate GroupExternalIdTaken(groups: Groups, tenant: string, ext: Option<string>, self: Option<Uuid>) {
    ext.Some? && exists g :: g in groups && groups[g].tenant == tenant && Some(g) != self && groups[g].externalId == ext
  }

  type Timed = (Time, Uuid)

  /** A time, with ties broken by id: the order of members in a group and of rows in a listing. */
  predicate Earlier(a: Timed, b: Timed) {
    a.0 < b.0 || (a.0 == b.0 && a.1 < b.1)
  }

  lemma EarlierIsTotal()
    ensures StrictTotal(Earlier)
  {
  }

  function MemberKeys(members: Members, group: Uuid): set<Timed> {
    set k | k in members && k.0 == group :: (members[k].addedAt, k.1)
  }

  function Seconds(keys: seq<Timed>): seq<Uuid> {
    seq(|keys|, i requires 0 <= i < |keys| => keys[i].1)
  }

  /** A group's member ids in the order they were added. */
  ghost function MembersOf(members: Members, group: Uuid): seq<Uuid> {
    EarlierIsTotal();
    Seconds(SortSet(MemberKeys(members, group), Earlier))
  }

  ghost function GroupOf(groups: Groups, members: Members, id: Uuid): Group
    requires id in groups
  {
    var row := groups[id];
    Group(id, row.externalId, row.displayName, MembersOf(members, id), row.createdAt, row.updatedAt)
  }

  // ---- Membership ----

  /** The non-empty strings of a list, each at its first place. */
  function Dedupe(ids: seq<string>): seq<string> {
    if ids == [] then [] else
      var rest, last := Dedupe(ids[..|ids| - 1]), ids[|ids| - 1];
      if last == "" || last in rest then rest else rest + [last]
  }

  /** The tenant's users that some id in the list denotes. */
  function Denoted(codec: Codec, users: Users, tenant: string, ids: seq<string>): set<Uuid> {
    set s | s in ids && codec.parse(s).Some? && OwnUser(users, tenant, codec.parse(s).value) :: codec.parse(s).value
  }

  /** The new membership, or nothing when the inserted rows do not match the ids given. */
  function Accept(codec: Codec, users: Users, tenant: string, ids: seq<string>): Option<set<Uuid>> {
    var wanted := Dedupe(ids);
    if exists s :: s in wanted && codec.parse(s).None? then None
    else
      var found := Denoted(codec, users, tenant, wanted);
      if |found| != |wanted| then None else Some(found)
  }

  function Without(members: Members, group: Uuid): (r: Members)
    ensures forall k :: k in r <==> k in members && k.0 != group
    ensures forall k | k in r :: r[k] == members[k]
  {
    map k | k in members && k.0 != group :: members[k]
  }

  function WithMembers(members: Members, group: Uuid, ids: set<Uuid>, tenant: string, now: Time): (r: Members)
    ensures forall k :: k in r <==> if k.0 == group then k.1 in ids else k in members
    ensures forall k | k in r :: r[k] == if k.0 == group then MemberRow(tenant, now) else members[k]
  {
    Without(members, group) + (map u | u in ids :: (group, u) := MemberRow(tenant, now))
  }

  // ---- What each request does ----

  /** The rows one mutation writes. */
  datatype Edit =
    | PutUser(user: User)
    | PutGroup(id: Uuid, row: GroupRow, members: set<Uuid>, now: Time)
    | DropGroup(id: Uuid)

  function Perform(t: Tables, tenant: string, edit: Edit): Tables {
    match edit
    case PutUser(user) => t.(users := t.users[user.id := UserRow(tenant, user)])
    case PutGroup(id, row, ids, now) =>
      Tables(t.users, t.groups[id := row], WithMembers(t.members, id, ids, tenant, now))
    case DropGroup(id) => Tables(t.users, t.groups - {id}, Without(t.members, id))
  }

  datatype Decision =
    | Write(edit: Edit, resource: Resource, action: Action, target: Uuid, spelled: string,
            before: Option<Image>, after: Option<Image>)
    | Refuse(resource: Resource, action: Action, spelled: string, detail: string)
    | Fail

  ghost function DecideCreateUser(codec: Codec, env: Env, t: Tables, tenant: string, cols: Columns): Decision {
    if env.freshId in t.users then Fail
    else if UserNameTaken(t.users, tenant, cols.userName, None) then
      Refuse(UserResource, Create, "", "duplicate userName")
    else if UserExternalIdTaken(t.users, tenant, cols.externalId, None) then Fail
    else
      var user := User(env.freshId, cols, env.now, env.now);
      Write(PutUser(user), UserResource, Create, user.id, codec.text(user.id),
            None, Some(UserImage(user)))
  }

  ghost function DecideReplaceUser(
    codec: Codec, env: Env, t: Tables, tenant: string, id: string, cols: Columns): Decision
  {
    match codec.parse(id)
    case None => Refuse(UserResource, Replace, id, "no such user")
    case Some(u) =>
      if !OwnUser(t.users, tenant, u) then Refuse(UserResource, Replace, id, "no such user")
      else if UserNameTaken(t.users, tenant, cols.userName, Some(u)) then
        Refuse(UserResource, Replace, id, "duplicate userName")
      else if UserExternalIdTaken(t.users, tenant, cols.externalId, Some(u)) then Fail
      else
        var before := t.users[u].user;
        var after := before.(cols := cols, updatedAt := env.now);
        Write(PutUser(after), UserResource, Replace, u, id,
              Some(UserImage(before)), Some(UserImage(after)))
  }

  ghost function DecideDeactivate(codec: Codec, env: Env, t: Tables, tenant: string, id: string): Decision {
    match codec.parse(id)
    case None => Refuse(UserResource, Deactivate, id, "no such user")
    case Some(u) =>
      if !OwnUser(t.users, tenant, u) then Refuse(UserResource, Deactivate, id, "no such user")
      else
        var before := t.users[u].user;
        var after := before.(cols := before.cols.(active := false), updatedAt := env.now);
        Write(PutUser(after), UserResource, Deactivate, u, id,
              Some(UserImage(before)), Some(UserImage(after)))
  }

  ghost function DecideCreateGroup(codec: Codec, env: Env, t: Tables, tenant: string, g: GroupInput): Decision {
    if env.freshId in t.groups then Fail
    else if GroupNameTaken(t.groups, tenant, g.displayName, None) then
      Refuse(GroupResource, Create, "", "duplicate displayName")
    else if GroupExternalIdTaken(t.groups, tenant, g.externalId, None) then Fail
    else
      match Accept(codec, t.users, tenant, g.members)
      case None => Refuse(GroupResource, Create, "", "invalid member reference")
      case Some(ids) =>
        var id := env.freshId;
        var edit := PutGroup(id, GroupRow(tenant, g.externalId, g.displayName, env.now, env.now), ids, env.now);
        var t' := Perform(t, tenant, edit);
        Write(edit, GroupResource, Create, id, codec.text(id), None,
          Some(GroupImage(GroupOf(t'.groups, t'.members, id))))
  }

  ghost function DecideReplaceGroup(
    codec: Codec, env: Env, t: Tables, tenant: string, id: string, g: GroupInput): Decision
  {
    match codec.parse(id)
    case None => Refuse(GroupResource, Replace, id, "no such group")
    case Some(k) =>
      if !OwnGroup(t.groups, tenant, k) then Refuse(GroupResource, Replace, id, "no such group")
      else if GroupNameTaken(t.groups, tenant, g.displayName, Some(k)) then
        Refuse(GroupResource, Replace, id, "duplicate displayName")
      else if GroupExternalIdTaken(t.groups, tenant, g.externalId, Some(k)) then Fail
      else
        match Accept(codec, t.users, tenant, g.members)
        case None => Refuse(GroupResource, Replace, id, "invalid member reference")
        case Some(ids) =>
          var row := t.groups[k].(displayName := g.displayName, externalId := g.externalId, updatedAt := env.now);
          var edit := PutGroup(k, row, ids, env.now);
          var t' := Perform(t, tenant, edit);
          Write(edit, GroupResource, Replace, k, id, Some(GroupImage(GroupOf(t.groups, t.members, k))),
            Some(GroupImage(GroupOf(t'.groups, t'.members, k))))
  }

  ghost function DecideDeleteGroup(codec: Codec, env: Env, t: Tables, tenant: string, id: string): Decision {
    match codec.parse(id)
    case None => Refuse(GroupResource, Delete, id, "no such group")
    case Some(k) =>
      if !OwnGroup(t.groups, tenant, k) then Refuse(GroupResource, Delete, id, "no such group")
      else
        Write(DropGroup(k), GroupResource, Delete, k, id,
              Some(GroupImage(GroupOf(t.groups, t.members, k))), None)
  }

  ghost function Decide(codec: Codec, env: Env, t: Tables, tenant: string, req: Request): Decision {
    match req
    case CreateUser(cols) => DecideCreateUser(codec, env, t, tenant, cols)
    case UpdateUser(id, cols) => DecideReplaceUser(codec, env, t, tenant, id, cols)
    case DeactivateUser(id) => DecideDeactivate(codec, env, t, tenant, id)
    case CreateGroup(g) => DecideCreateGroup(codec, env, t, tenant, g)
    case UpdateGroup(id, g) => DecideReplaceGroup(codec, env, t, tenant, id, g)
    case DeleteGroup(id) => DecideDeleteGroup(codec, env, t, tenant, id)
  }

  /** An edit only replaces or adds rows of the caller's tenant. */
  ghost predicate Allowed(t: Tables, tenant: string, edit: Edit) {
    match edit
    case PutUser(user) => user.id in t.users ==> OwnUser(t.users, tenant, user.id)
    case PutGroup(id, row, ids, _) =>
      && row.tenant == tenant
      && (id in t.groups ==> OwnGroup(t.groups, tenant, id))
      && (forall u | u in ids :: OwnUser(t.users, tenant, u))
    case DropGroup(id) => OwnGroup(t.groups, tenant, id)
  }

  /** Users are stored under their id. */
  ghost predicate KeyedById(users: Users) {
    forall u | u in users :: users[u].user.id == u
  }

  /** Which rows a decision writes, under which target, and which images it records. */
  ghost predicate WellShaped(t: Tables, tenant: string, req: Request, d: Decision) {
    d.Write? ==>
      && Allowed(t, tenant, d.edit)
      && (d.resource.UserResource? <==> d.edit.PutUser?)
      && d.target == (if d.edit.PutUser? then d.edit.user.id else d.edit.id)
      && (d.edit.PutUser? ==> d.after == Some(UserImage(d.edit.user)))
      && (d.edit.PutGroup? ==>
            var t' := Perform(t, tenant, d.edit);
            d.after == Some(GroupImage(GroupOf(t'.groups, t'.members, d.target))))
      && (d.edit.DropGroup? <==> d.after.None?)
      && (d.edit.DropGroup? <==> d.action.Delete?)
      && (d.action.Create? <==> d.before.None?)
      && (d.action.Create? <==> req.CreateUser? || req.CreateGroup?)
      && (if d.resource.UserResource? then d.target !in t.users <==> d.before.None?
          else d.target !in t.groups <==> d.before.None?)
      && (d.resource.UserResource? && d.before.Some? ==> d.before == Some(UserImage(t.users[d.target].user)))
      && (d.resource.GroupResource? && d.before.Some? ==>
            d.before == Some(GroupImage(GroupOf(t.groups, t.members, d.target))))
  }

  lemma UserDecisionShape(codec: Codec, env: Env, t: Tables, tenant: string, req: Request)
    requires KeyedById(t.users) && (req.CreateUser? || req.UpdateUser? || req.DeactivateUser?)
    ensures WellShaped(t, tenant, req, Decide(codec, env, t, tenant, req))
  {
  }

  lemma GroupDecisionShape(codec: Codec, env: Env, t: Tables, tenant: string, req: Request)
    requires req.CreateGroup? || req.UpdateGroup? || req.DeleteGroup?
    ensures WellShaped(t, tenant, req, Decide(codec, env, t, tenant, req))
  {
  }

  lemma DecisionShape(codec: Codec, env: Env, t: Tables, tenant: string, req: Request)
    requires KeyedById(t.users)
    ensures WellShaped(t, tenant, req, Decide(codec, env, t, tenant, req))
  {
    if req.CreateUser? || req.UpdateUser? || req.DeactivateUser? {
      UserDecisionShape(codec, env, t, tenant, req);
    } else {
      GroupDecisionShape(codec, env, t, tenant, req);
    }
  }

  // ---- Recording it ----

  /** A replace that takes a user from active to inactive is a deactivation, whatever call made it. */
  function ChangeEventType(before: User, after: User): EventType {
    if before.cols.active && !after.cols.active then UserDeactivated else UserReplaced
  }

  function EventTypeOf(resource: Resource, action: Action, before: Option<Image>, after: Option<Image>): EventType {
    if resource.UserResource? then
      if action.Create? then UserCreated
      else if action.Deactivate? then UserDeactivated
      else if before.Some? && after.Some? && before.value.UserImage? && after.value.UserImage? then
        ChangeEventType(before.value.user, after.value.user)
      else UserReplaced
    else if action.Create? then GroupCreated
    else if action.Delete? then GroupDeleted
    else GroupReplaced
  }

  function UpdatedAt(i: Image): Time {
    match i
    case UserImage(u) => u.updatedAt
    case GroupImage(g) => g.updatedAt
  }

  function EventFor(env: Env, resource: Resource, action: Action, spelled: string,
                    before: Option<Image>, after: Option<Image>): ChangeEvent {
    ChangeEvent(EventTypeOf(resource, action, before, after),
                if after.Some? then UpdatedAt(after.value) else env.wallClock,
                spelled, before, after)
  }

  function SuccessEntry(call: Call, resource: Resource, action: Action, target: Uuid,
                        before: Option<Image>, after: Option<Image>): AuditEntry {
    AuditEntry(call.tenant, call.actor, resource, action, true, "", Some(target), before, after)
  }

  /** A refusal is logged when its write succeeds, which a malformed target id prevents. */
  function Refusals(
    codec: Codec, env: Env, call: Call, resource: Resource, action: Action, spelled: string, detail: string)
    : seq<AuditEntry>
  {
    if !env.refusalLogged || (spelled != "" && codec.parse(spelled).None?) then []
    else
      [AuditEntry(call.tenant, call.actor, resource, action, false, detail,
                  if spelled == "" then None else codec.parse(spelled), None, None)]
  }

  /** The whole transaction: rows, audit entry and event together, or nothing. */
  ghost function Transact(cfg: Config, env: Env, db: Db, call: Call, req: Request): (Db, Outcome) {
    if env.fault then (db, Failed)
    else
      match Decide(cfg.codec, env, db.tables, call.tenant, req)
      case Fail => (db, Failed)
      case Refuse(resource, action, spelled, detail) =>
        (db.(audit := db.audit + Refusals(cfg.codec, env, call, resource, action, spelled, detail)), Refused(detail))
      case Write(edit, resource, action, target, spelled, before, after) =>
        var event := EventFor(env, resource, action, spelled, before, after);
        (Db(Perform(db.tables, call.tenant, edit),
            db.audit + [SuccessEntry(call, resource, action, target, before, after)],
            if cfg.events then db.outbox + [Delivery(call.tenant, event.kind, target, event)] else db.outbox),
         Changed(before, after))
  }

  // ---- Runs ----

  datatype Txn = Txn(env: Env, call: Call, req: Request)

  /** The database after a sequence of transactions on an empty one. */
  ghost function After(cfg: Config, txns: seq<Txn>): Db {
    if txns == [] then EMPTY
    else
      var last := txns[|txns| - 1];
      Transact(cfg, last.env, After(cfg, txns[..|txns| - 1]), last.call, last.req).0
  }
}
