/** What each request stores, from the resource that was sent to the row that is read back. */
module ServiceExact {
  import opened Text
  import opened Entities
  import opened Scim
  import opened ScimExact
  import opened PatchSplit
  import opened PatchFrame
  import opened Attributes
  import opened Store
  import opened StoreExact
  import opened GroupPatch
  import opened GroupRequests
  import opened Service

  /** The lookup of a request: every registered name under its lower-cased form, or nothing when the feature is off. */
  lemma RegistryExactly(server: Server, names: NameSet, tenant: string, listing: seq<string>, k: string)
    requires Lists(names, tenant, listing)
    ensures k in RegistryFor(server, listing) <==>
              server.extended && exists n :: (tenant, n) in names && Lower(n) == k
    ensures k in RegistryFor(server, listing) ==>
              (tenant, RegistryFor(server, listing)[k]) in names && Lower(RegistryFor(server, listing)[k]) == k
  {
    if k in Lookup(listing) {
      LookupFrom(listing, k);
      assert Lookup(listing)[k] in listing;
    }
    if n :| (tenant, n) in names && Lower(n) == k {
      assert n in listing;
      var i :| 0 <= i < |listing| && listing[i] == n;
      NameIsFound(listing, i);
    }
  }

  lemma {:induction false} NameIsFound(listing: seq<string>, i: nat)
    requires i < |listing|
    ensures Lower(listing[i]) in Lookup(listing)
  {
    if i < |listing| - 1 {
      NameIsFound(listing[..|listing| - 1], i);
    }
  }

  /** The columns a resource and its extended attributes lead to. */
  ghost predicate MapsTo(user: ScimUser, body: Pairs, reg: Registry, c: Columns) {
    && c.userName == Trim(user.userName) && Column(c.externalId, user.externalId)
    && Column(c.givenName, if user.name.Some? then user.name.value.givenName else "")
    && Column(c.familyName, if user.name.Some? then user.name.value.familyName else "")
    && c.email == (if PrimaryEmail(user.emails) == "" then None else Some(PrimaryEmail(user.emails)))
    && (user.active.Some? ==> c.active == user.active.value) && (user.active.None? ==> c.active)
    && (forall n :: n in c.extended <==>
          exists i :: 0 <= i < |body| && Lower(body[i].0) in reg && reg[Lower(body[i].0)] == n)
    && (forall n | n in c.extended ::
          exists i :: 0 <= i < |body| && Lower(body[i].0) in reg && reg[Lower(body[i].0)] == n
            && c.extended[n] == body[i].1)
  }

  lemma {:induction false} CapturedFrom(body: Pairs, reg: Registry, n: string) returns (i: nat)
    requires n in Captured(body, reg)
    ensures i < |body| && Lower(body[i].0) in reg && reg[Lower(body[i].0)] == n && Captured(body, reg)[n] == body[i].1
  {
    var m := |body| - 1;
    if Lower(body[m].0) in reg && reg[Lower(body[m].0)] == n {
      i := m;
    } else {
      i := CapturedFrom(body[..m], reg, n);
    }
  }

  lemma ColumnsOf(user: ScimUser, body: Pairs, reg: Registry)
    ensures MapsTo(user, body, reg, ToColumns(user, Captured(body, reg)))
  {
    var ext := Captured(body, reg);
    MapsExactly(user, ext);
    forall n
      ensures n in ext <==> exists i :: 0 <= i < |body| && Lower(body[i].0) in reg && reg[Lower(body[i].0)] == n
    {
      CapturedNames(body, reg, n);
    }
    forall n | n in ext
      ensures exists i :: 0 <= i < |body| && Lower(body[i].0) in reg && reg[Lower(body[i].0)] == n
                && ext[n] == body[i].1
    {
      var i := CapturedFrom(body, reg, n);
    }
  }

  /** A valid user whose name and external id are free is stored under the drawn id as sent; nothing else is. */
  lemma PostUserExactly(server: Server, st: State, step: Step)
    requires step.PostUser? && step.env.freshId !in st.db.tables.users
    ensures var t, t' := st.db.tables, Serve(server, st, step).db.tables;
            var u, tenant := step.env.freshId, step.call.tenant;
            if !step.env.fault && Valid(step.user) && !NameClash(t, tenant, Trim(step.user.userName), None)
              && !ExternalIdClash(t, tenant, NonEmpty(Trim(step.user.externalId)), None)
            then
              && OnlyUser(t, t', u) && t'.users[u].tenant == tenant && t'.users[u].user.id == u
              && MapsTo(step.user, step.body, RegistryFor(server, step.listing), t'.users[u].user.cols)
            else t' == t
  {
    var reg := RegistryFor(server, step.listing);
    var cols := ToColumns(step.user, Captured(step.body, reg));
    ColumnsOf(step.user, step.body, reg);
    CreateUserExactly(server.cfg, step.env, st.db, step.call, cols);
    if Valid(step.user) && !step.env.fault
      && !NameClash(st.db.tables, step.call.tenant, cols.userName, None)
      && !ExternalIdClash(st.db.tables, step.call.tenant, cols.externalId, None) {
      assert Serve(server, st, step).db.tables.users[step.env.freshId].user.cols == cols;
    }
  }

  /** A replace under the path's own id overwrites the user's columns with what is sent; nothing else changes. */
  lemma PutUserExactly(server: Server, st: State, step: Step, u: Uuid)
    requires step.PutUserStep? && KeyedById(st.db.tables.users)
    requires UserAt(server.cfg, st.db.tables, step.call.tenant, step.id, u)
    ensures var t, t' := st.db.tables, Serve(server, st, step).db.tables;
            var tenant := step.call.tenant;
            if !step.env.fault && Valid(step.user) && (step.bodyId == "" || step.bodyId == step.id)
              && !NameClash(t, tenant, Trim(step.user.userName), Some(u))
              && !ExternalIdClash(t, tenant, NonEmpty(Trim(step.user.externalId)), Some(u))
            then
              && OnlyUser(t, t', u) && t'.users[u].tenant == tenant && t'.users[u].user.id == u
              && t'.users[u].user.createdAt == t.users[u].user.createdAt
              && MapsTo(step.user, step.body, RegistryFor(server, step.listing), t'.users[u].user.cols)
            else t' == t
  {
    var reg := RegistryFor(server, step.listing);
    var cols := ToColumns(step.user, Captured(step.body, reg));
    ColumnsOf(step.user, step.body, reg);
    UpdateUserExactly(server.cfg, step.env, st.db, step.call, step.id, cols);
    if !step.env.fault && Valid(step.user) && (step.bodyId == "" || step.bodyId == step.id)
      && !NameClash(st.db.tables, step.call.tenant, cols.userName, Some(u))
      && !ExternalIdClash(st.db.tables, step.call.tenant, cols.externalId, Some(u)) {
      assert Serve(server, st, step).db.tables.users[u].user.cols == cols;
    }
  }

  /** A PATCH replaces the user's columns with what the operations make of the stored ones, or changes nothing. */
  lemma PatchUserExactly(server: Server, st: State, step: Step, u: Uuid)
    requires step.PatchUser? && KeyedById(st.db.tables.users)
    requires UserAt(server.cfg, st.db.tables, step.call.tenant, step.id, u)
    ensures var t, t' := st.db.tables, Serve(server, st, step).db.tables;
            var made := PatchRow(RegistryFor(server, step.listing), t.users[u].user.cols, step.ops);
            if !step.env.fault && made.Ok? && !NameClash(t, step.call.tenant, made.value.userName, Some(u))
              && !ExternalIdClash(t, step.call.tenant, made.value.externalId, Some(u))
            then OnlyUser(t, t', u) && t'.users[u].user.cols == made.value
            else t' == t
  {
    var made := PatchRow(RegistryFor(server, step.listing), st.db.tables.users[u].user.cols, step.ops);
    if made.Ok? {
      UpdateUserExactly(server.cfg, step.env, st.db, step.call, step.id, made.value);
    }
  }

  /** A group is stored with the trimmed name, external id and member ids that were sent. */
  ghost predicate GroupMapsTo(server: Server, t: Tables, t': Tables, k: Uuid, step: Step)
    requires step.PostGroup? || step.PutGroupStep?
  {
    var g := step.group;
    && OnlyGroup(t, t', k) && t'.groups[k].tenant == step.call.tenant
    && t'.groups[k].displayName == Trim(g.displayName) && Column(t'.groups[k].externalId, g.externalId)
    && (forall u: Uuid :: (k, u) in t'.members <==>
          exists m :: m in g.members && Trim(m) != "" && UserAt(server.cfg, t, step.call.tenant, Trim(m), u))
  }

  lemma {:induction false} SentMembers(members: seq<string>, s: string)
    ensures s in StoreMembers(members) <==> s != "" && exists m :: m in members && Trim(m) == s
  {
    if s in StoreMembers(members) {
      StoredFrom(members, s);
    }
    if m :| s != "" && m in members && Trim(m) == s {
      var i :| 0 <= i < |members| && members[i] == m;
      StoredAll(members, i);
    }
  }

  lemma GroupSent(server: Server, t: Tables, t': Tables, k: Uuid, step: Step)
    requires step.PostGroup? || step.PutGroupStep?
    requires var input := ToInput(step.group);
             && OnlyGroup(t, t', k) && t'.groups[k].tenant == step.call.tenant
             && t'.groups[k].displayName == input.displayName && t'.groups[k].externalId == input.externalId
             && MembersAre(server.cfg, t, t', k, step.call.tenant, input.members, step.env.now)
    ensures GroupMapsTo(server, t, t', k, step)
  {
    var ids, tenant := ToInput(step.group).members, step.call.tenant;
    forall s ensures s in ids <==> s != "" && exists m :: m in step.group.members && Trim(m) == s {
      SentMembers(step.group.members, s);
    }
    forall u: Uuid
      ensures (k, u) in t'.members <==>
                exists m :: m in step.group.members && Trim(m) != "" && UserAt(server.cfg, t, tenant, Trim(m), u)
    {
      if m :| m in step.group.members && Trim(m) != "" && UserAt(server.cfg, t, tenant, Trim(m), u) {
        assert Trim(m) in ids;
      }
    }
  }

  /** What a group must satisfy to be stored. */
  lemma ValidGroupExactly(g: ScimGroup)
    ensures ValidGroup(g) <==>
              && "urn:ietf:params:scim:schemas:core:2.0:Group" in g.schemas
              && Trim(g.displayName) != "" && |Trim(g.displayName)| <= 256
  {
  }

  lemma PostGroupExactly(server: Server, st: State, step: Step)
    requires step.PostGroup? && step.env.freshId !in st.db.tables.groups
    ensures var t, t' := st.db.tables, Serve(server, st, step).db.tables;
            var input, tenant := ToInput(step.group), step.call.tenant;
            if !step.env.fault && ValidGroup(step.group) && !GroupNameClash(t, tenant, input.displayName, None)
              && !GroupExternalIdClash(t, tenant, input.externalId, None)
              && !BadMembers(server.cfg, t, tenant, input.members)
            then GroupMapsTo(server, t, t', step.env.freshId, step)
            else t' == t
  {
    var t, t' := st.db.tables, Serve(server, st, step).db.tables;
    var input, tenant := ToInput(step.group), step.call.tenant;
    CreateGroupExactly(server.cfg, step.env, st.db, step.call, input);
    if !step.env.fault && ValidGroup(step.group) && !GroupNameClash(t, tenant, input.displayName, None)
      && !GroupExternalIdClash(t, tenant, input.externalId, None) && !BadMembers(server.cfg, t, tenant, input.members) {
      GroupSent(server, t, t', step.env.freshId, step);
    }
  }

  lemma PutGroupExactly(server: Server, st: State, step: Step, k: Uuid)
    requires step.PutGroupStep? && GroupAt(server.cfg, st.db.tables, step.call.tenant, step.id, k)
    ensures var t, t' := st.db.tables, Serve(server, st, step).db.tables;
            var input, tenant := ToInput(step.group), step.call.tenant;
            if !step.env.fault && ValidGroup(step.group) && (step.bodyId == "" || step.bodyId == step.id)
              && !GroupNameClash(t, tenant, input.displayName, Some(k))
              && !GroupExternalIdClash(t, tenant, input.externalId, Some(k))
              && !BadMembers(server.cfg, t, tenant, input.members)
            then GroupMapsTo(server, t, t', k, step) && t'.groups[k].createdAt == t.groups[k].createdAt
            else t' == t
  {
    var t, t' := st.db.tables, Serve(server, st, step).db.tables;
    var input, tenant := ToInput(step.group), step.call.tenant;
    UpdateGroupExactly(server.cfg, step.env, st.db, step.call, step.id, input);
    if !step.env.fault && ValidGroup(step.group) && (step.bodyId == "" || step.bodyId == step.id)
      && !GroupNameClash(t, tenant, input.displayName, Some(k))
      && !GroupExternalIdClash(t, tenant, input.externalId, Some(k))
      && !BadMembers(server.cfg, t, tenant, input.members) {
      GroupSent(server, t, t', k, step);
    }
  }

  /** A delete makes the user inactive and moves its time, or changes nothing when the id names none of the tenant. */
  lemma DeleteUserExactly(server: Server, st: State, step: Step)
    requires step.DeleteUser? && KeyedById(st.db.tables.users)
    ensures var t, t' := st.db.tables, Serve(server, st, step).db.tables;
            if !step.env.fault && exists u :: UserAt(server.cfg, t, step.call.tenant, step.id, u) then
              var u := server.cfg.codec.parse(step.id).value;
              && OnlyUser(t, t', u) && t'.users[u].tenant == t.users[u].tenant
              && t'.users[u].user == t.users[u].user.(
                   cols := t.users[u].user.cols.(active := false), updatedAt := step.env.now)
            else t' == t
  {
    DeactivateUserExactly(server.cfg, step.env, st.db, step.call, step.id);
  }

  /** A delete takes the group with its memberships, or changes nothing when the id names none of the tenant. */
  lemma DeleteGroupServed(server: Server, st: State, step: Step)
    requires step.DeleteGroupStep?
    ensures var t, t' := st.db.tables, Serve(server, st, step).db.tables;
            && t'.users == t.users
            && (forall h :: h in t'.groups <==>
                  h in t.groups && (step.env.fault || !GroupAt(server.cfg, t, step.call.tenant, step.id, h)))
            && (forall h | h in t'.groups :: t'.groups[h] == t.groups[h])
            && (forall m :: m in t'.members <==>
                  m in t.members && (step.env.fault || !GroupAt(server.cfg, t, step.call.tenant, step.id, m.0)))
            && (forall m | m in t'.members :: t'.members[m] == t.members[m])
  {
    StoreExact.DeleteGroupExactly(server.cfg, step.env, st.db, step.call, step.id);
  }

  /** The registry changes by registering a name that is no core attribute, by unregistering, and in no other way. */
  lemma NamesServed(server: Server, st: State, step: Step, tenant: string, name: string)
    ensures (tenant, name) in Serve(server, st, step).names <==>
              if step.RegisterName? && (tenant, name) == (step.tenant, Trim(step.raw)) then
                || (tenant, name) in st.names
                || Lower(name) !in
                     {"schemas", "id", "username", "externalid", "name", "emails", "active", "meta", "password"}
              else
                && (tenant, name) in st.names
                && !(step.UnregisterName? && (tenant, name) == (step.tenant, Trim(step.raw)))
  {
  }
}
