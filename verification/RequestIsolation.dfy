/** Isolation of whole requests: what a handler reads before it writes is the tenant's own data too. */
module RequestIsolation {
  import opened Entities
  import opened Attributes
  import opened Patch
  import opened Store
  import opened GroupRequests
  import opened Service
  import opened Isolation

  function TenantOf(step: Step): string {
    match step
    case RegisterName(tenant, _) => tenant
    case UnregisterName(tenant, _) => tenant
    case _ => step.call.tenant
  }

  /** The tenant's own requests. */
  function Own(steps: seq<Step>, tenant: string): seq<Step> {
    if steps == [] then []
    else
      var last := steps[|steps| - 1];
      Own(steps[..|steps| - 1], tenant) + (if TenantOf(last) == tenant then [last] else [])
  }

  function OwnNames(names: NameSet, tenant: string): NameSet {
    set k | k in names && k.0 == tenant
  }

  // ---- One request ----

  lemma DesiredLocal(codec: Codec, t: Tables, tenant: string, k: Uuid, ops: seq<Operation>)
    requires Consistent(t) && OwnGroup(t.groups, tenant, k)
    ensures k in OwnTables(t, tenant).groups
    ensures Desired(codec, t, k, ops) == Desired(codec, OwnTables(t, tenant), k, ops)
  {
    GroupLocal(t, tenant, k);
  }

  /** Which transaction a request leads to depends on the tenant's own data, reads included. */
  lemma TranslateLocal(server: Server, db: Db, step: Step)
    requires Consistent(db.tables)
    ensures Translate(server, db, step) == Translate(server, Project(db, TenantOf(step)), step)
  {
    if step.PatchGroupStep? {
      var k := server.cfg.codec.parse(step.id);
      if k.Some? && OwnGroup(db.tables.groups, step.call.tenant, k.value) {
        DesiredLocal(server.cfg.codec, db.tables, step.call.tenant, k.value, step.ops);
      }
    }
  }

  lemma TranslatedTenant(server: Server, db: Db, step: Step)
    ensures var txn := Translate(server, db, step); txn.Some? ==> txn.value.call.tenant == TenantOf(step)
  {
  }

  /** The id a create draws is not another tenant's. */
  ghost predicate DrawsOwn(server: Server, db: Db, step: Step) {
    var txn := Translate(server, db, step);
    txn.Some? ==> Unclaimed(db.tables, txn.value.call.tenant, txn.value.env, txn.value.req)
  }

  /** A tenant's own request commutes with leaving the other tenants out. */
  lemma OwnRequest(server: Server, db: Db, step: Step)
    requires Consistent(db.tables) && KeyedById(db.tables.users) && DrawsOwn(server, db, step)
    ensures Project(DbAfter(server, db, step), TenantOf(step)) == DbAfter(server, Project(db, TenantOf(step)), step)
  {
    var txn := Translate(server, db, step);
    TranslateLocal(server, db, step);
    TranslatedTenant(server, db, step);
    if txn.Some? {
      TransactLocal(server.cfg, txn.value.env, db, txn.value.call, txn.value.req);
    }
  }

  /** Another tenant's request leaves everything of the tenant's alone. */
  lemma OtherRequest(server: Server, db: Db, step: Step, tenant: string)
    requires Consistent(db.tables) && KeyedById(db.tables.users) && TenantOf(step) != tenant
    ensures Project(DbAfter(server, db, step), tenant) == Project(db, tenant)
  {
    var txn := Translate(server, db, step);
    TranslatedTenant(server, db, step);
    if txn.Some? {
      NoInterference(server.cfg, txn.value.env, db, txn.value.call, txn.value.req, tenant);
    }
  }

  lemma NamesLocal(names: NameSet, step: Step, tenant: string)
    ensures OwnNames(NamesAfter(names, step), tenant)
         == if TenantOf(step) == tenant then NamesAfter(OwnNames(names, tenant), step) else OwnNames(names, tenant)
  {
  }

  // ---- Whole runs ----

  ghost predicate AllDrawOwn(server: Server, steps: seq<Step>) {
    forall i :: 0 <= i < |steps| ==> DrawsOwn(server, Reached(server, steps[..i]).db, steps[i])
  }

  lemma FrontDraws(server: Server, steps: seq<Step>)
    requires AllDrawOwn(server, steps) && steps != []
    ensures AllDrawOwn(server, steps[..|steps| - 1])
    ensures DrawsOwn(server, Reached(server, steps[..|steps| - 1]).db, steps[|steps| - 1])
  {
    var n := |steps| - 1;
    forall i | 0 <= i < n ensures DrawsOwn(server, Reached(server, steps[..n][..i]).db, steps[..n][i]) {
      assert steps[..n][..i] == steps[..i];
    }
  }

  /** A tenant's rows, audit log, deliveries and registry are what its own requests alone would have produced. */
  lemma {:induction false} OtherRequestsInvisible(server: Server, steps: seq<Step>, tenant: string)
    requires AllDrawOwn(server, steps)
    ensures Project(Reached(server, steps).db, tenant) == Reached(server, Own(steps, tenant)).db
    ensures OwnNames(Reached(server, steps).names, tenant) == Reached(server, Own(steps, tenant)).names
  {
    if steps == [] {
      assert Project(EMPTY, tenant) == EMPTY;
    } else {
      var n := |steps| - 1;
      var front, step := steps[..n], steps[n];
      FrontDraws(server, steps);
      OtherRequestsInvisible(server, front, tenant);
      RequestsAreTransactions(server, front);
      ConsistentAlways(server.cfg, Transactions(server, front));
      var st, own := Reached(server, front), Own(front, tenant);
      NamesLocal(st.names, step, tenant);
      if TenantOf(step) == tenant {
        OwnRequest(server, st.db, step);
        assert Own(steps, tenant)[..|own|] == own;
      } else {
        OtherRequest(server, st.db, step, tenant);
        assert Own(steps, tenant) == own;
      }
    }
  }

  lemma ListsLocal(names: NameSet, tenant: string, listing: seq<string>)
    ensures Lists(names, tenant, listing) <==> Lists(OwnNames(names, tenant), tenant, listing)
  {
    assert forall n :: (tenant, n) in names <==> (tenant, n) in OwnNames(names, tenant);
  }

  lemma EnabledLocal(st: State, own: State, step: Step)
    requires Enabled(st, step) && own.names == OwnNames(st.names, TenantOf(step))
    ensures Enabled(own, step)
  {
    if step.PostUser? || step.PutUserStep? || step.PatchUser? {
      ListsLocal(st.names, step.call.tenant, step.listing);
    }
  }

  lemma RunFront(server: Server, steps: seq<Step>)
    requires IsRun(server, steps) && steps != []
    ensures var n := |steps| - 1; IsRun(server, steps[..n]) && Enabled(Reached(server, steps[..n]), steps[n])
  {
    var n := |steps| - 1;
    forall i | 0 <= i < n ensures Enabled(Reached(server, steps[..n][..i]), steps[..n][i]) {
      assert steps[..n][..i] == steps[..i];
    }
  }

  lemma RunExtended(server: Server, steps: seq<Step>, step: Step)
    requires IsRun(server, steps) && Enabled(Reached(server, steps), step)
    ensures IsRun(server, steps + [step])
  {
    var all := steps + [step];
    forall i | 0 <= i < |all| ensures Enabled(Reached(server, all[..i]), all[i]) {
      assert all[..i] == steps[..i];
      assert i == |steps| ==> steps[..i] == steps;
    }
  }

  /** Those requests alone are a run. */
  lemma {:induction false} OwnIsRun(server: Server, steps: seq<Step>, tenant: string)
    requires IsRun(server, steps) && AllDrawOwn(server, steps)
    ensures IsRun(server, Own(steps, tenant))
  {
    if steps != [] {
      var n := |steps| - 1;
      var front, step := steps[..n], steps[n];
      RunFront(server, steps);
      FrontDraws(server, steps);
      OwnIsRun(server, front, tenant);
      if TenantOf(step) == tenant {
        OtherRequestsInvisible(server, front, tenant);
        EnabledLocal(Reached(server, front), Reached(server, Own(front, tenant)), step);
        RunExtended(server, Own(front, tenant), step);
      } else {
        assert Own(steps, tenant) == Own(front, tenant);
      }
    }
  }
}
