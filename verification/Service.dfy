/**
 Whole runs of the server: attribute registration and SCIM requests, each answered by the handler or
 turned into one store transaction.
 */
module Service {
  import opened Text
  import opened Entities
  import opened Scim
  import opened Patch
  import opened PatchSplit
  import opened PatchFrame
  import opened Attributes
  import opened Store
  import opened GroupPatch
  import opened GroupRequests
  import Membership
  import Isolation
  import Uniqueness

  datatype State = State(names: NameSet, db: Db)

  /** `listing` is the tenant's registry as the query returned it. */
  datatype Step =
    | RegisterName(tenant: string, raw: string)
    | UnregisterName(tenant: string, raw: string)
    | PostUser(env: Env, call: Call, user: ScimUser, body: seq<(string, Json)>, listing: seq<string>)
    | PutUserStep(
        env: Env, call: Call, id: string, bodyId: string, user: ScimUser,
        body: seq<(string, Json)>, listing: seq<string>)
    | PatchUser(env: Env, call: Call, id: string, ops: seq<Operation>, listing: seq<string>)
    | DeleteUser(env: Env, call: Call, id: string)
    | PostGroup(env: Env, call: Call, group: ScimGroup)
    | PutGroupStep(env: Env, call: Call, id: string, bodyId: string, group: ScimGroup)
    | PatchGroupStep(env: Env, call: Call, id: string, ops: seq<Operation>)
    | DeleteGroupStep(env: Env, call: Call, id: string)

  datatype Server = Server(cfg: Config, extended: bool)

  ghost predicate Lists(names: NameSet, tenant: string, listing: seq<string>) {
    forall n :: n in listing <==> (tenant, n) in names
  }

  ghost predicate Enabled(st: State, step: Step) {
    (step.PostUser? || step.PutUserStep? || step.PatchUser?) ==> Lists(st.names, step.call.tenant, step.listing)
  }

  /** The lookup a request uses; empty when the feature is off. */
  function RegistryFor(server: Server, listing: seq<string>): Registry {
    if server.extended then Lookup(listing) else map[]
  }

  /** A body that names another id than the path is refused. */
  predicate SameId(bodyId: string, id: string) {
    bodyId == "" || bodyId == id
  }

  ghost function PatchedColumns(
    server: Server, users: Users, tenant: string, id: string, ops: seq<Operation>, listing: seq<string>)
    : Option<Columns>
  {
    match server.cfg.codec.parse(id)
    case None => None
    case Some(u) =>
      if !OwnUser(users, tenant, u) then None
      else
        match PatchRow(RegistryFor(server, listing), users[u].user.cols, ops)
        case Ok(cols) => Some(cols)
        case Err(_) => None
  }

  /** The transaction a request leads to, if the handler does not answer it alone. */
  ghost function Translate(server: Server, db: Db, step: Step): Option<Txn> {
    match step
    case PostUser(env, call, user, body, listing) =>
      if !Valid(user) then None
      else Some(Txn(env, call, CreateUser(ToColumns(user, Captured(body, RegistryFor(server, listing))))))
    case PutUserStep(env, call, id, bodyId, user, body, listing) =>
      if !Valid(user) || !SameId(bodyId, id) then None
      else Some(Txn(env, call, UpdateUser(id, ToColumns(user, Captured(body, RegistryFor(server, listing))))))
    case PatchUser(env, call, id, ops, listing) =>
      (match PatchedColumns(server, db.tables.users, call.tenant, id, ops, listing)
       case None => None
       case Some(cols) => Some(Txn(env, call, UpdateUser(id, cols))))
    case DeleteUser(env, call, id) => Some(Txn(env, call, DeactivateUser(id)))
    case PostGroup(env, call, group) =>
      if !ValidGroup(group) then None else Some(Txn(env, call, CreateGroup(ToInput(group))))
    case PutGroupStep(env, call, id, bodyId, group) =>
      if !ValidGroup(group) || !SameId(bodyId, id) then None
      else Some(Txn(env, call, UpdateGroup(id, ToInput(group))))
    case PatchGroupStep(env, call, id, ops) =>
      (match server.cfg.codec.parse(id)
       case None => None
       case Some(k) =>
         if !OwnGroup(db.tables.groups, call.tenant, k) then None
         else
           match Desired(server.cfg.codec, db.tables, k, ops)
           case None => None
           case Some(g) => Some(Txn(env, call, UpdateGroup(id, ToInput(g)))))
    case DeleteGroupStep(env, call, id) => Some(Txn(env, call, DeleteGroup(id)))
    case RegisterName(_, _) => None
    case UnregisterName(_, _) => None
  }

  function NamesAfter(names: NameSet, step: Step): NameSet {
    match step
    case RegisterName(tenant, raw) => WithName(names, tenant, raw)
    case UnregisterName(tenant, raw) => WithoutName(names, tenant, raw)
    case _ => names
  }

  ghost function DbAfter(server: Server, db: Db, step: Step): Db {
    match Translate(server, db, step)
    case None => db
    case Some(txn) => Transact(server.cfg, txn.env, db, txn.call, txn.req).0
  }

  ghost function Serve(server: Server, st: State, step: Step): State {
    State(NamesAfter(st.names, step), DbAfter(server, st.db, step))
  }

  ghost function Reached(server: Server, steps: seq<Step>): State {
    if steps == [] then State({}, EMPTY)
    else Serve(server, Reached(server, steps[..|steps| - 1]), steps[|steps| - 1])
  }

  ghost predicate IsRun(server: Server, steps: seq<Step>) {
    forall i :: 0 <= i < |steps| ==> Enabled(Reached(server, steps[..i]), steps[i])
  }

  // ---- Every run is a run of transactions ----

  ghost function Transactions(server: Server, steps: seq<Step>): seq<Txn> {
    if steps == [] then []
    else
      var front := steps[..|steps| - 1];
      Transactions(server, front)
      + (match Translate(server, Reached(server, front).db, steps[|steps| - 1]) case None => [] case Some(txn) => [txn])
  }

  /** What holds after every sequence of transactions holds after every run of requests. */
  lemma {:induction false} RequestsAreTransactions(server: Server, steps: seq<Step>)
    ensures Reached(server, steps).db == After(server.cfg, Transactions(server, steps))
  {
    if steps != [] {
      var front := steps[..|steps| - 1];
      RequestsAreTransactions(server, front);
      var txns := Transactions(server, front);
      match Translate(server, Reached(server, front).db, steps[|steps| - 1])
      case None => assert Transactions(server, steps) == txns;
      case Some(txn) => assert (txns + [txn])[..|txns|] == txns;
    }
  }

  // ---- Rows are normalised and hold no reserved name ----

  ghost predicate Clean(blob: Blob) {
    forall n | n in blob :: !Reserved(n)
  }

  ghost predicate SoundColumns(c: Columns) {
    Normalised(c) && Clean(c.extended)
  }

  ghost predicate SoundUsers(users: Users) {
    forall u | u in users :: users[u].user.id == u && SoundColumns(users[u].user.cols)
  }

  ghost predicate SoundGroups(groups: Groups) {
    forall g | g in groups :: TidyGroup(groups[g]) && 0 < |groups[g].displayName| <= MAX_ATTR_LEN
  }

  ghost predicate Sound(st: State) {
    NoReserved(st.names) && SoundUsers(st.db.tables.users) && SoundGroups(st.db.tables.groups)
  }

  ghost predicate CleanRegistry(reg: Registry) {
    forall k | k in reg :: !Reserved(reg[k])
  }

  lemma RegistryIsClean(server: Server, names: NameSet, tenant: string, listing: seq<string>)
    requires NoReserved(names) && Lists(names, tenant, listing)
    ensures CleanRegistry(RegistryFor(server, listing))
  {
    var reg := RegistryFor(server, listing);
    forall k | k in reg ensures !Reserved(reg[k]) {
      LookupFrom(listing, k);
      assert (tenant, reg[k]) in names;
    }
  }

  lemma CapturedIsClean(body: seq<(string, Json)>, reg: Registry)
    requires CleanRegistry(reg)
    ensures Clean(Captured(body, reg))
  {
  }

  lemma {:induction false} ExtNamesRegistered(reg: Registry, action: string, fields: seq<(string, Json)>, o: ExtOp)
    requires o in ExtFields(reg, action, fields)
    ensures o.name in reg.Values
  {
    if !(Registered(reg, fields[0].0) && o == ExtOp(action, reg[Lower(fields[0].0)], fields[0].1)) {
      ExtNamesRegistered(reg, action, fields[1..], o);
    }
  }

  lemma {:induction false} ExtOpsRegistered(reg: Registry, ops: seq<Operation>, o: ExtOp)
    requires o in ExtOps(reg, ops)
    ensures o.name in reg.Values
  {
    if o in ExtOf(reg, ops[0]) {
      if Cut(ops[0]) {
        ExtNamesRegistered(reg, Verb(ops[0]), AsObject(ops[0].value).value, o);
      }
    } else {
      ExtOpsRegistered(reg, ops[1..], o);
    }
  }

  lemma {:induction false} FoldExtClean(blob: Blob, ops: seq<ExtOp>)
    requires Clean(blob) && forall o | o in ops :: !Reserved(o.name)
    ensures Clean(FoldExt(blob, ops))
    decreases |ops|
  {
    if ops != [] {
      assert ops[0] in ops && forall o | o in ops[1..] :: o in ops;
      FoldExtClean(ApplyExt(blob, ops[0]), ops[1..]);
    }
  }

  lemma PatchIsSound(reg: Registry, cols: Columns, ops: seq<Operation>)
    requires CleanRegistry(reg) && SoundColumns(cols) && PatchRow(reg, cols, ops).Ok?
    ensures SoundColumns(PatchRow(reg, cols, ops).value)
  {
    PatchKeepsTheRest(reg, cols, ops);
    forall o | o in ExtOps(reg, ops) ensures !Reserved(o.name) {
      ExtOpsRegistered(reg, ops, o);
    }
    FoldExtClean(cols.extended, ExtOps(reg, ops));
  }

  ghost predicate SoundRequest(req: Request) {
    && (req.CreateUser? || req.UpdateUser? ==> SoundColumns(req.cols))
    && (req.CreateGroup? || req.UpdateGroup? ==>
          && Trimmed(req.input.displayName) && Tidy(req.input.externalId)
          && 0 < |req.input.displayName| <= MAX_ATTR_LEN)
  }

  lemma MappedIsSound(user: ScimUser, body: seq<(string, Json)>, reg: Registry)
    requires CleanRegistry(reg)
    ensures SoundColumns(ToColumns(user, Captured(body, reg)))
  {
    MapperNormalises(user, Captured(body, reg));
    CapturedIsClean(body, reg);
  }

  lemma PatchedIsSound(
    server: Server, users: Users, tenant: string, id: string, ops: seq<Operation>, listing: seq<string>)
    requires SoundUsers(users) && CleanRegistry(RegistryFor(server, listing))
    ensures var cols := PatchedColumns(server, users, tenant, id, ops, listing); cols.Some? ==> SoundColumns(cols.value)
  {
    if PatchedColumns(server, users, tenant, id, ops, listing).Some? {
      PatchIsSound(RegistryFor(server, listing), users[server.cfg.codec.parse(id).value].user.cols, ops);
    }
  }

  lemma TranslateIsSound(server: Server, st: State, step: Step)
    requires Sound(st) && Enabled(st, step)
    ensures var txn := Translate(server, st.db, step); txn.Some? ==> SoundRequest(txn.value.req)
  {
    match step
    case PostUser(_, call, user, body, listing) =>
      RegistryIsClean(server, st.names, call.tenant, listing);
      MappedIsSound(user, body, RegistryFor(server, listing));
    case PutUserStep(_, call, _, _, user, body, listing) =>
      RegistryIsClean(server, st.names, call.tenant, listing);
      MappedIsSound(user, body, RegistryFor(server, listing));
    case PatchUser(_, call, id, ops, listing) =>
      RegistryIsClean(server, st.names, call.tenant, listing);
      PatchedIsSound(server, st.db.tables.users, call.tenant, id, ops, listing);
    case PostGroup(_, _, group) => MappedGroupIsTidy(group);
    case PutGroupStep(_, _, _, _, group) => MappedGroupIsTidy(group);
    case PatchGroupStep(_, call, id, ops) =>
      var k := server.cfg.codec.parse(id);
      if k.Some? && OwnGroup(st.db.tables.groups, call.tenant, k.value) {
        var g := Desired(server.cfg.codec, st.db.tables, k.value, ops);
        if g.Some? {
          MappedGroupIsTidy(g.value);
        }
      }
    case _ =>
  }

  lemma TransactIsSound(cfg: Config, env: Env, db: Db, call: Call, req: Request)
    requires SoundUsers(db.tables.users) && SoundRequest(req)
    ensures SoundUsers(Transact(cfg, env, db, call, req).0.tables.users)
  {
  }

  lemma TransactKeepsGroups(cfg: Config, env: Env, db: Db, call: Call, req: Request)
    requires SoundGroups(db.tables.groups) && SoundRequest(req)
    ensures SoundGroups(Transact(cfg, env, db, call, req).0.tables.groups)
  {
  }

  /** In every reachable state every row is normalised and no blob holds a reserved name, however cased. */
  lemma {:induction false} SoundAlways(server: Server, steps: seq<Step>)
    requires IsRun(server, steps)
    ensures Sound(Reached(server, steps))
  {
    if steps != [] {
      var front, step := steps[..|steps| - 1], steps[|steps| - 1];
      forall i | 0 <= i < |front| ensures Enabled(Reached(server, front[..i]), front[i]) {
        assert front[..i] == steps[..i];
      }
      SoundAlways(server, front);
      var st := Reached(server, front);
      assert Enabled(st, step);
      TranslateIsSound(server, st, step);
      var txn := Translate(server, st.db, step);
      if txn.Some? {
        TransactIsSound(server.cfg, txn.value.env, st.db, txn.value.call, txn.value.req);
        TransactKeepsGroups(server.cfg, txn.value.env, st.db, txn.value.call, txn.value.req);
      }
      match step
      case RegisterName(tenant, raw) => RegistryStaysClean(st.names, tenant, raw);
      case UnregisterName(tenant, raw) => RegistryStaysClean(st.names, tenant, raw);
      case _ =>
    }
  }

  // ---- What a PATCH leaves alone, in every reachable state ----

  /** Columns and extended keys no operation names have the same value in both. */
  ghost predicate KeepsUnnamed(reg: Registry, before: Columns, after: Columns, ops: seq<Operation>) {
    && (forall f | (forall op | op in ops :: !Names(reg, op, f)) :: SameField(after, before, f))
    && (forall name | (forall op | op in ops :: !NamesKey(reg, op, name)) ::
      SameKey(after.extended, before.extended, name))
  }

  ghost predicate OneRowPatched(before: Users, after: Users, u: Uuid, reg: Registry, ops: seq<Operation>, now: Time) {
    && u in before && u in after
    && after == before[u := after[u]]
    && after[u] == before[u].(user := before[u].user.(cols := after[u].user.cols, updatedAt := now))
    && KeepsUnnamed(reg, before[u].user.cols, after[u].user.cols, ops)
  }

  lemma UpdateOutcome(cfg: Config, env: Env, db: Db, call: Call, id: string, cols: Columns)
    requires KeyedById(db.tables.users)
    ensures var (db', out) := Transact(cfg, env, db, call, UpdateUser(id, cols));
            if out.Changed? then
              && cfg.codec.parse(id).Some?
              && var u := cfg.codec.parse(id).value;
              && OwnUser(db.tables.users, call.tenant, u)
              && db'.tables == db.tables.(users := db.tables.users[u :=
                   db.tables.users[u].(user := db.tables.users[u].user.(cols := cols, updatedAt := env.now))])
            else db'.tables == db.tables
  {
  }

  ghost predicate OnlyNamedChange(server: Server, t: Tables, t': Tables, step: Step)
    requires step.PatchUser?
  {
    t' == t || (
      && t'.groups == t.groups && t'.members == t.members
      && server.cfg.codec.parse(step.id).Some?
      && OneRowPatched(t.users, t'.users, server.cfg.codec.parse(step.id).value,
                       RegistryFor(server, step.listing), step.ops, step.env.now))
  }

  lemma PatchFrameStep(server: Server, db: Db, step: Step)
    requires SoundUsers(db.tables.users) && step.PatchUser?
    ensures OnlyNamedChange(server, db.tables, DbAfter(server, db, step).tables, step)
  {
    var users := db.tables.users;
    var cols := PatchedColumns(server, users, step.call.tenant, step.id, step.ops, step.listing);
    if cols.Some? {
      var u := server.cfg.codec.parse(step.id).value;
      PatchKeepsTheRest(RegistryFor(server, step.listing), users[u].user.cols, step.ops);
      assert KeepsUnnamed(RegistryFor(server, step.listing), users[u].user.cols, cols.value, step.ops);
      UpdateOutcome(server.cfg, step.env, db, step.call, step.id, cols.value);
    }
  }

  /**
   In every reachable state a PATCH either changes no row, or changes the one row it names: there,
   every column and extended key that no operation names keeps its stored value.
   */
  lemma PatchFrameAlways(server: Server, steps: seq<Step>, step: Step)
    requires IsRun(server, steps) && step.PatchUser?
    ensures var st := Reached(server, steps);
            OnlyNamedChange(server, st.db.tables, Serve(server, st, step).db.tables, step)
  {
    SoundAlways(server, steps);
    PatchFrameStep(server, Reached(server, steps).db, step);
  }

  lemma GroupPatchServed(server: Server, db: Db, step: Step)
    requires step.PatchGroupStep?
    ensures DbAfter(server, db, step) == PatchGroup(server.cfg, step.env, db, step.call, step.id, step.ops).0
  {
  }

  /** In every reachable state a PATCH of a group changes no row, or leaves what it does not name as it was. */
  lemma GroupFrameAlways(server: Server, steps: seq<Step>, step: Step, k: Uuid)
    requires IsRun(server, steps) && step.PatchGroupStep?
    requires Faithful(server.cfg.codec) && PlainText(server.cfg.codec)
    requires server.cfg.codec.parse(step.id) == Some(k)
    requires OwnGroup(Reached(server, steps).db.tables.groups, step.call.tenant, k)
    ensures var t, t' := Reached(server, steps).db.tables, Serve(server, Reached(server, steps), step).db.tables;
            t' == t || GroupKeeps(t, t', k, step.ops)
  {
    SoundAlways(server, steps);
    GroupPatchServed(server, Reached(server, steps).db, step);
    GroupPatchFrame(server.cfg, step.env, Reached(server, steps).db, step.call, step.id, k, step.ops);
  }

  // ---- Removing a member under another spelling of its id ----

  lemma ConsistentMembers(t: Tables, tenant: string, k: Uuid)
    requires Isolation.Consistent(t) && OwnGroup(t.groups, tenant, k)
    ensures forall u | u in Membership.MemberSet(t.members, k) :: OwnUser(t.users, tenant, u)
  {
  }

  /** In every reachable state a tenant's group passes every check that writing it back unchanged would meet. */
  lemma HealthyAlways(server: Server, steps: seq<Step>, tenant: string, k: Uuid)
    requires IsRun(server, steps) && OwnGroup(Reached(server, steps).db.tables.groups, tenant, k)
    ensures Healthy(Reached(server, steps).db.tables, tenant, k)
  {
    var t := Reached(server, steps).db.tables;
    SoundAlways(server, steps);
    RequestsAreTransactions(server, steps);
    Uniqueness.UniqueAlways(server.cfg, Transactions(server, steps));
    Isolation.ConsistentAlways(server.cfg, Transactions(server, steps));
    Uniqueness.StoredGroupFree(t.groups, k);
    ConsistentMembers(t, tenant, k);
  }

  /**
   In every reachable state, removing a member by a filter that spells its id otherwise than the server
   prints it is answered with success, and leaves every member of the group in place.
   */
  lemma OtherSpellingAlwaysStays(server: Server, steps: seq<Step>, step: Step, k: Uuid, s: string, u: Uuid)
    requires IsRun(server, steps) && step.PatchGroupStep? && !step.env.fault
    requires Faithful(server.cfg.codec) && PlainText(server.cfg.codec)
    requires server.cfg.codec.parse(step.id) == Some(k)
    requires OwnGroup(Reached(server, steps).db.tables.groups, step.call.tenant, k)
    requires |step.ops| == 1 && RemovesOne(step.ops[0], s)
    requires Meant(server.cfg.codec, s) == Some(u) && s != server.cfg.codec.text(u)
    ensures var db := Reached(server, steps).db;
            var (db', out) := PatchGroup(server.cfg, step.env, db, step.call, step.id, step.ops);
            && DbAfter(server, db, step) == db' && Carried(out)
            && Membership.MemberSet(db'.tables.members, k) == Membership.MemberSet(db.tables.members, k)
  {
    var db := Reached(server, steps).db;
    HealthyAlways(server, steps, step.call.tenant, k);
    GroupPatchServed(server, db, step);
    assert step.ops == [step.ops[0]];
    OtherSpellingSucceeds(server.cfg, step.env, db, step.call, step.id, k, step.ops[0], s, u);
  }

  // ---- Core attributes are never shadowed ----

  const CORE_KEYS: set<string> := {"schemas", "id", "externalId", "userName", "name", "emails", "active", "meta"}

  lemma CoreKeysReserved(k: string)
    requires k in CORE_KEYS
    ensures Reserved(k)
  {
    assert Lower("schemas") == "schemas" && Lower("id") == "id" && Lower("externalId") == "externalid";
    assert Lower("userName") == "username" && Lower("name") == "name" && Lower("emails") == "emails";
    assert Lower("active") == "active" && Lower("meta") == "meta";
  }

  /**
   In every reachable state, no stored extended key collides with a core attribute of the response in
   any casing. So a rendered user holds its core attributes and, beside them, every stored key.
   */
  lemma CoreNeverShadowed(server: Server, steps: seq<Step>, u: Uuid, core: Response)
    requires IsRun(server, steps) && core.Keys <= CORE_KEYS
    requires u in Reached(server, steps).db.tables.users
    ensures var blob := Reached(server, steps).db.tables.users[u].user.cols.extended;
            && (forall n, k | n in blob && k in core :: Lower(n) != Lower(k))
            && blob.Keys !! core.Keys
  {
    SoundAlways(server, steps);
    var blob := Reached(server, steps).db.tables.users[u].user.cols.extended;
    forall n, k | n in blob && k in core ensures Lower(n) != Lower(k) {
      CoreKeysReserved(k);
    }
  }
}
