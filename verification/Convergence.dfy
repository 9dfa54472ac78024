/** A receiver that keeps the newest event per user ends up with the users table. */
module Convergence {
  import opened Text
  import opened Entities
  import opened Store

  predicate IsUserEvent(d: Delivery) {
    d.payload.after.Some? && d.payload.after.value.UserImage?
  }

  function UserIn(d: Delivery): User
    requires IsUserEvent(d)
  {
    d.payload.after.value.user
  }

  /** A receiver's copy: the newest time seen per key, and the user as of then. */
  type Copy<K> = map<K, (Time, User)>

  function Receive<K>(copy: Copy<K>, d: Delivery, key: Delivery -> K): Copy<K> {
    if !IsUserEvent(d) then copy
    else if key(d) in copy && copy[key(d)].0 >= d.payload.occurredAt then copy
    else copy[key(d) := (d.payload.occurredAt, UserIn(d))]
  }

  function ReceiveAll<K>(arrivals: seq<Delivery>, key: Delivery -> K): Copy<K> {
    if arrivals == [] then map[]
    else Receive(ReceiveAll(arrivals[..|arrivals| - 1], key), arrivals[|arrivals| - 1], key)
  }

  /** The event an entry of a copy was taken from. */
  ghost predicate Source<K>(arrivals: seq<Delivery>, key: Delivery -> K, k: K, entry: (Time, User), d: Delivery) {
    d in arrivals && IsUserEvent(d) && key(d) == k && entry == (d.payload.occurredAt, UserIn(d))
  }

  /** A copy holds nothing that did not arrive. */
  lemma {:induction false} Origin<K(!new)>(arrivals: seq<Delivery>, key: Delivery -> K, k: K) returns (e: Delivery)
    requires k in ReceiveAll(arrivals, key)
    ensures Source(arrivals, key, k, ReceiveAll(arrivals, key)[k], e)
  {
    var front, last := arrivals[..|arrivals| - 1], arrivals[|arrivals| - 1];
    var was := ReceiveAll(front, key);
    if k in was && ReceiveAll(arrivals, key)[k] == was[k] {
      e := Origin(front, key, k);
      assert e in arrivals;
    } else {
      e := last;
    }
  }

  /** Whatever arrived is in the copy, or something at least as new in its place. */
  lemma {:induction false} Reaches<K(!new)>(arrivals: seq<Delivery>, key: Delivery -> K, d: Delivery, k: K)
    requires d in arrivals && IsUserEvent(d) && key(d) == k
    ensures k in ReceiveAll(arrivals, key) && ReceiveAll(arrivals, key)[k].0 >= d.payload.occurredAt
  {
    var front, last := arrivals[..|arrivals| - 1], arrivals[|arrivals| - 1];
    assert arrivals == front + [last];
    if d in front {
      Reaches(front, key, d, k);
    } else {
      assert d == last;
    }
  }

  // ---- What the outbox holds ----

  /** The event carries some version of a stored user, no newer than the row and spelled by its id. */
  ghost predicate Version(codec: Codec, users: Users, d: Delivery) {
    IsUserEvent(d) ==>
      var user := UserIn(d);
      && user.id in users
      && d.payload.occurredAt == user.updatedAt <= users[user.id].user.updatedAt
      && (user.updatedAt == users[user.id].user.updatedAt ==> user == users[user.id].user)
      && codec.parse(d.payload.target) == Some(user.id)
  }

  /** Without a clock: the event carries a version of a stored user under that user's id. */
  ghost predicate Rooted(codec: Codec, users: Users, d: Delivery) {
    IsUserEvent(d) ==>
      && UserIn(d).id in users
      && d.payload.occurredAt == UserIn(d).updatedAt
      && codec.parse(d.payload.target) == Some(UserIn(d).id)
  }

  /** An event with another image than the row is strictly older than the row. */
  ghost predicate Fresh(users: Users, d: Delivery) {
    IsUserEvent(d) && UserIn(d).id in users ==>
      UserIn(d) == users[UserIn(d).id].user || UserIn(d).updatedAt < users[UserIn(d).id].user.updatedAt
  }

  ghost predicate AllFresh(users: Users, outbox: seq<Delivery>) {
    forall d | d in outbox :: Fresh(users, d)
  }

  /** The row as it stands was announced. */
  ghost predicate Announces(outbox: seq<Delivery>, user: User, d: Delivery) {
    d in outbox && IsUserEvent(d) && UserIn(d) == user
  }

  ghost predicate AllVersions(codec: Codec, users: Users, outbox: seq<Delivery>) {
    forall d | d in outbox :: Version(codec, users, d)
  }

  ghost predicate Announced(outbox: seq<Delivery>, user: User) {
    exists d :: Announces(outbox, user, d)
  }

  ghost predicate AllAnnounced(users: Users, outbox: seq<Delivery>) {
    forall u | u in users :: Announced(outbox, users[u].user)
  }

  ghost predicate Versions(codec: Codec, db: Db) {
    && KeyedById(db.tables.users)
    && AllVersions(codec, db.tables.users, db.outbox)
    && AllAnnounced(db.tables.users, db.outbox)
  }

  ghost predicate Roots(codec: Codec, db: Db) {
    && KeyedById(db.tables.users)
    && (forall d | d in db.outbox :: Rooted(codec, db.tables.users, d))
    && AllAnnounced(db.tables.users, db.outbox)
  }

  lemma VersionsAreFreshRoots(codec: Codec, db: Db)
    ensures Versions(codec, db) <==> Roots(codec, db) && AllFresh(db.tables.users, db.outbox)
  {
    forall d | d in db.outbox
      ensures Version(codec, db.tables.users, d) <==> Rooted(codec, db.tables.users, d) && Fresh(db.tables.users, d)
    {
    }
  }

  /** The database clock moves between two changes of one user. */
  ghost predicate StrictClock(codec: Codec, db: Db, txn: Txn) {
    (txn.req.UpdateUser? || txn.req.DeactivateUser?) ==>
      match codec.parse(txn.req.userId)
      case None => true
      case Some(u) => u in db.tables.users ==> db.tables.users[u].user.updatedAt < txn.env.now
  }

  ghost predicate StrictlyClocked(cfg: Config, txns: seq<Txn>) {
    forall k :: 0 <= k < |txns| ==> StrictClock(cfg.codec, After(cfg, txns[..k]), txns[k])
  }

  lemma StillAnnounced(outbox: seq<Delivery>, added: Delivery, user: User)
    requires Announced(outbox, user)
    ensures Announced(outbox + [added], user)
  {
    var d :| Announces(outbox, user, d);
    assert Announces(outbox + [added], user, d);
  }

  /** A newer version of a user is the newest of its events. */
  lemma NewVersion(codec: Codec, users: Users, outbox: seq<Delivery>, row: UserRow, added: Delivery)
    requires AllVersions(codec, users, outbox)
    requires row.user.id in users ==> users[row.user.id].user.updatedAt < row.user.updatedAt
    requires IsUserEvent(added) && UserIn(added) == row.user
    requires added.payload.occurredAt == row.user.updatedAt && codec.parse(added.payload.target) == Some(row.user.id)
    ensures AllVersions(codec, users[row.user.id := row], outbox + [added])
  {
  }

  lemma NewAnnounced(users: Users, outbox: seq<Delivery>, row: UserRow, added: Delivery)
    requires AllAnnounced(users, outbox)
    requires IsUserEvent(added) && UserIn(added) == row.user
    ensures AllAnnounced(users[row.user.id := row], outbox + [added])
  {
    assert Announces(outbox + [added], row.user, added);
    forall u | u in users && u != row.user.id ensures Announced(outbox + [added], users[u].user) {
      StillAnnounced(outbox, added, users[u].user);
    }
  }

  /** Events about groups do not concern the users. */
  lemma OtherEvents(codec: Codec, users: Users, outbox: seq<Delivery>, added: Delivery)
    requires AllVersions(codec, users, outbox) && AllAnnounced(users, outbox) && !IsUserEvent(added)
    ensures AllVersions(codec, users, outbox + [added]) && AllAnnounced(users, outbox + [added])
  {
    forall u | u in users ensures Announced(outbox + [added], users[u].user) {
      StillAnnounced(outbox, added, users[u].user);
    }
  }

  /** What a write does to the users table, and what its event says about it. */
  ghost predicate Newer(codec: Codec, users: Users, d: Decision) {
    d.Write? ==>
      if d.edit.PutUser? then
        var user := d.edit.user;
        && d.after == Some(UserImage(user)) && codec.parse(d.spelled) == Some(user.id)
        && (user.id in users ==> users[user.id].user.updatedAt < user.updatedAt)
      else
        d.after.Some? ==> d.after.value.GroupImage?
  }

  lemma DecisionNewer(codec: Codec, db: Db, txn: Txn)
    requires Faithful(codec) && KeyedById(db.tables.users) && StrictClock(codec, db, txn)
    ensures Newer(codec, db.tables.users, Decide(codec, txn.env, db.tables, txn.call.tenant, txn.req))
  {
  }

  lemma VersionsPut(codec: Codec, users: Users, outbox: seq<Delivery>, row: UserRow, added: Delivery)
    requires KeyedById(users) && AllVersions(codec, users, outbox) && AllAnnounced(users, outbox)
    requires row.user.id in users ==> users[row.user.id].user.updatedAt < row.user.updatedAt
    requires IsUserEvent(added) && UserIn(added) == row.user
    requires added.payload.occurredAt == row.user.updatedAt && codec.parse(added.payload.target) == Some(row.user.id)
    ensures var users' := users[row.user.id := row];
            && KeyedById(users') && AllVersions(codec, users', outbox + [added])
            && AllAnnounced(users', outbox + [added])
  {
    NewVersion(codec, users, outbox, row, added);
    NewAnnounced(users, outbox, row, added);
  }

  lemma VersionsWrite(codec: Codec, db: Db, db': Db, tenant: string, d: Decision, added: Delivery)
    requires Versions(codec, db) && d.Write? && Newer(codec, db.tables.users, d)
    requires db'.tables == Perform(db.tables, tenant, d.edit) && db'.outbox == db.outbox + [added]
    requires added.payload.after == d.after && added.payload.target == d.spelled
    requires d.after.Some? ==> added.payload.occurredAt == UpdatedAt(d.after.value)
    ensures Versions(codec, db')
  {
    if d.edit.PutUser? {
      var row := UserRow(tenant, d.edit.user);
      assert db'.tables.users == db.tables.users[row.user.id := row];
      VersionsPut(codec, db.tables.users, db.outbox, row, added);
    } else {
      assert db'.tables.users == db.tables.users;
      OtherEvents(codec, db.tables.users, db.outbox, added);
    }
  }

  lemma VersionsStep(cfg: Config, db: Db, txn: Txn)
    requires cfg.events && Faithful(cfg.codec) && Versions(cfg.codec, db) && StrictClock(cfg.codec, db, txn)
    ensures Versions(cfg.codec, Transact(cfg, txn.env, db, txn.call, txn.req).0)
  {
    var db' := Transact(cfg, txn.env, db, txn.call, txn.req).0;
    var dec := Decide(cfg.codec, txn.env, db.tables, txn.call.tenant, txn.req);
    if !txn.env.fault && dec.Write? {
      DecisionNewer(cfg.codec, db, txn);
      VersionsWrite(cfg.codec, db, db', txn.call.tenant, dec, db'.outbox[|db.outbox|]);
    }
  }

  /** What a write tells the receiver, whatever the clock does. */
  ghost predicate Told(codec: Codec, d: Decision) {
    d.Write? ==>
      if d.edit.PutUser? then d.after == Some(UserImage(d.edit.user)) && codec.parse(d.spelled) == Some(d.edit.user.id)
      else d.after.Some? ==> d.after.value.GroupImage?
  }

  lemma DecisionTold(codec: Codec, db: Db, txn: Txn)
    requires Faithful(codec) && KeyedById(db.tables.users)
    ensures Told(codec, Decide(codec, txn.env, db.tables, txn.call.tenant, txn.req))
  {
  }

  lemma RootsWrite(codec: Codec, db: Db, db': Db, tenant: string, d: Decision, added: Delivery)
    requires Roots(codec, db) && d.Write? && Told(codec, d)
    requires db'.tables == Perform(db.tables, tenant, d.edit) && db'.outbox == db.outbox + [added]
    requires added.payload.after == d.after && added.payload.target == d.spelled
    requires d.after.Some? ==> added.payload.occurredAt == UpdatedAt(d.after.value)
    ensures Roots(codec, db')
  {
    if d.edit.PutUser? {
      NewAnnounced(db.tables.users, db.outbox, UserRow(tenant, d.edit.user), added);
    } else {
      assert db'.tables.users == db.tables.users;
      forall u | u in db.tables.users ensures Announced(db.outbox + [added], db.tables.users[u].user) {
        StillAnnounced(db.outbox, added, db.tables.users[u].user);
      }
    }
    forall e | e in db'.outbox ensures Rooted(codec, db'.tables.users, e) {
      assert e == added || Rooted(codec, db.tables.users, e);
    }
  }

  lemma RootsStep(cfg: Config, db: Db, txn: Txn)
    requires cfg.events && Faithful(cfg.codec) && Roots(cfg.codec, db)
    ensures Roots(cfg.codec, Transact(cfg, txn.env, db, txn.call, txn.req).0)
  {
    var db' := Transact(cfg, txn.env, db, txn.call, txn.req).0;
    var dec := Decide(cfg.codec, txn.env, db.tables, txn.call.tenant, txn.req);
    if !txn.env.fault && dec.Write? {
      DecisionTold(cfg.codec, db, txn);
      RootsWrite(cfg.codec, db, db', txn.call.tenant, dec, db'.outbox[|db.outbox|]);
    }
  }

  /** Whatever the clock does, every event is about a stored user and every row was announced. */
  lemma {:induction false} RootsAlways(cfg: Config, txns: seq<Txn>)
    requires cfg.events && Faithful(cfg.codec)
    ensures Roots(cfg.codec, After(cfg, txns))
  {
    if txns != [] {
      var n := |txns| - 1;
      RootsAlways(cfg, txns[..n]);
      RootsStep(cfg, After(cfg, txns[..n]), txns[n]);
    }
  }

  lemma {:induction false} VersionsAlways(cfg: Config, txns: seq<Txn>)
    requires cfg.events && Faithful(cfg.codec) && StrictlyClocked(cfg, txns)
    ensures Versions(cfg.codec, After(cfg, txns))
  {
    if txns != [] {
      var n := |txns| - 1;
      assert forall k :: 0 <= k < n ==> txns[..n][..k] == txns[..k];
      VersionsAlways(cfg, txns[..n]);
      VersionsStep(cfg, After(cfg, txns[..n]), txns[n]);
    }
  }

  /** The queued events in any order, each any positive number of times. */
  ghost predicate Delivers(arrivals: seq<Delivery>, outbox: seq<Delivery>) {
    forall d :: d in arrivals <==> d in outbox
  }

  function ById(d: Delivery): Uuid {
    if IsUserEvent(d) then UserIn(d).id else 0
  }

  function UsersCopy(users: Users): Copy<Uuid> {
    map u | u in users :: (users[u].user.updatedAt, users[u].user)
  }

  lemma CopyIsTable(codec: Codec, db: Db, arrivals: seq<Delivery>)
    requires Versions(codec, db) && Delivers(arrivals, db.outbox)
    ensures ReceiveAll(arrivals, ById) == UsersCopy(db.tables.users)
  {
    var copy := ReceiveAll(arrivals, ById);
    forall u | u in db.tables.users ensures u in copy && copy[u] == UsersCopy(db.tables.users)[u] {
      assert Announced(db.outbox, db.tables.users[u].user);
      var d :| Announces(db.outbox, db.tables.users[u].user, d);
      Reaches(arrivals, ById, d, u);
      var e := Origin(arrivals, ById, u);
      assert Version(codec, db.tables.users, e);
    }
    forall u | u in copy ensures u in db.tables.users {
      var e := Origin(arrivals, ById, u);
      assert Version(codec, db.tables.users, e);
    }
  }

  /** A clock that moves between two changes of one user is enough for every event to be fresh. */
  lemma StrictClockIsFresh(cfg: Config, txns: seq<Txn>)
    requires cfg.events && Faithful(cfg.codec) && StrictlyClocked(cfg, txns)
    ensures AllFresh(After(cfg, txns).tables.users, After(cfg, txns).outbox)
  {
    VersionsAlways(cfg, txns);
    VersionsAreFreshRoots(cfg.codec, After(cfg, txns));
  }

  /** Unordered, repeated delivery of every queued event loses no final state. */
  lemma ReceiverConverges(cfg: Config, txns: seq<Txn>, arrivals: seq<Delivery>)
    requires cfg.events && Faithful(cfg.codec) && AllFresh(After(cfg, txns).tables.users, After(cfg, txns).outbox)
    requires Delivers(arrivals, After(cfg, txns).outbox)
    ensures ReceiveAll(arrivals, ById) == UsersCopy(After(cfg, txns).tables.users)
  {
    RootsAlways(cfg, txns);
    VersionsAreFreshRoots(cfg.codec, After(cfg, txns));
    CopyIsTable(cfg.codec, After(cfg, txns), arrivals);
  }

  // ---- A receiver that keys on the event's userId field ----

  function BySpelling(d: Delivery): string {
    d.payload.target
  }

  function SpelledCopy(codec: Codec, users: Users): Copy<string>
    requires Faithful(codec)
  {
    assert forall u, v | u in users && v in users && codec.text(u) == codec.text(v) :: u == v by {
      forall u, v | u in users && v in users && codec.text(u) == codec.text(v) ensures u == v {
        assert codec.parse(codec.text(u)) == Some(u) && codec.parse(codec.text(v)) == Some(v);
      }
    }
    map u | u in users :: codec.text(u) := (users[u].user.updatedAt, users[u].user)
  }

  /** Every event names its user the way the database prints the id. */
  ghost predicate Canonical(codec: Codec, outbox: seq<Delivery>) {
    forall d | d in outbox && IsUserEvent(d) :: d.payload.target == codec.text(UserIn(d).id)
  }

  lemma CanonicalCopies(codec: Codec, db: Db, arrivals: seq<Delivery>)
    requires Faithful(codec) && Versions(codec, db) && Delivers(arrivals, db.outbox) && Canonical(codec, db.outbox)
    ensures ReceiveAll(arrivals, BySpelling) == SpelledCopy(codec, db.tables.users)
  {
    var copy, table := ReceiveAll(arrivals, BySpelling), SpelledCopy(codec, db.tables.users);
    forall u | u in db.tables.users
      ensures
        && codec.text(u) in copy
        && copy[codec.text(u)] == (db.tables.users[u].user.updatedAt, db.tables.users[u].user)
    {
      var s := codec.text(u);
      assert Announced(db.outbox, db.tables.users[u].user);
      var d :| Announces(db.outbox, db.tables.users[u].user, d);
      Reaches(arrivals, BySpelling, d, s);
      var e := Origin(arrivals, BySpelling, s);
      assert Version(codec, db.tables.users, e) && codec.parse(s) == Some(u);
    }
    forall s | s in copy ensures s in table {
      var e := Origin(arrivals, BySpelling, s);
      assert Version(codec, db.tables.users, e);
    }
    forall s | s in table ensures s in copy && copy[s] == table[s] {
      var u :| u in db.tables.users && codec.text(u) == s;
    }
  }

  /** Keyed by userId the copy is right exactly when no caller used another spelling of an id. */
  lemma SpellingConverges(cfg: Config, txns: seq<Txn>, arrivals: seq<Delivery>)
    requires cfg.events && Faithful(cfg.codec) && AllFresh(After(cfg, txns).tables.users, After(cfg, txns).outbox)
    requires Delivers(arrivals, After(cfg, txns).outbox)
    ensures ReceiveAll(arrivals, BySpelling) == SpelledCopy(cfg.codec, After(cfg, txns).tables.users)
            <==> Canonical(cfg.codec, After(cfg, txns).outbox)
  {
    var db := After(cfg, txns);
    RootsAlways(cfg, txns);
    VersionsAreFreshRoots(cfg.codec, db);
    if Canonical(cfg.codec, db.outbox) {
      CanonicalCopies(cfg.codec, db, arrivals);
    } else {
      var d :| d in db.outbox && IsUserEvent(d) && d.payload.target != cfg.codec.text(UserIn(d).id);
      assert Version(cfg.codec, db.tables.users, d);
      Reaches(arrivals, BySpelling, d, BySpelling(d));
      assert BySpelling(d) !in SpelledCopy(cfg.codec, db.tables.users) by {
        assert forall u | u in db.tables.users :: cfg.codec.parse(cfg.codec.text(u)) == Some(u);
      }
    }
  }

  ghost predicate CanonicalRequest(codec: Codec, req: Request) {
    (req.UpdateUser? || req.DeactivateUser?) && codec.parse(req.userId).Some? ==>
      req.userId == codec.text(codec.parse(req.userId).value)
  }

  lemma CanonicalStep(cfg: Config, db: Db, txn: Txn)
    requires Canonical(cfg.codec, db.outbox) && KeyedById(db.tables.users) && CanonicalRequest(cfg.codec, txn.req)
    ensures var db' := Transact(cfg, txn.env, db, txn.call, txn.req).0;
            Canonical(cfg.codec, db'.outbox) && KeyedById(db'.tables.users)
  {
  }

  /** Callers that spell ids canonically are enough. */
  lemma {:induction false} CanonicalCallers(cfg: Config, txns: seq<Txn>)
    requires forall k :: 0 <= k < |txns| ==> CanonicalRequest(cfg.codec, txns[k].req)
    ensures Canonical(cfg.codec, After(cfg, txns).outbox) && KeyedById(After(cfg, txns).tables.users)
  {
    if txns != [] {
      var n := |txns| - 1;
      CanonicalCallers(cfg, txns[..n]);
      CanonicalStep(cfg, After(cfg, txns[..n]), txns[n]);
    }
  }

  /** One deactivation under another spelling of the id leaves such a receiver with a stale active user. */
  lemma OtherSpellingDiverges(codec: Codec, id: Uuid, other: string, cols: Columns) returns (txns: seq<Txn>)
    requires Faithful(codec) && codec.parse(other) == Some(id) && other != codec.text(id) && cols.active
    ensures var cfg := Config(codec, true);
            && StrictlyClocked(cfg, txns)
            && var copy := ReceiveAll(After(cfg, txns).outbox, BySpelling);
            && codec.text(id) in copy && copy[codec.text(id)].1.cols.active
            && id in After(cfg, txns).tables.users && !After(cfg, txns).tables.users[id].user.cols.active
  {
    var cfg := Config(codec, true);
    var call := Call("tenant", "actor");
    var t0 := Txn(Env(0, 0, id, false, true), call, CreateUser(cols));
    var t1 := Txn(Env(1, 1, 0, false, true), call, DeactivateUser(other));
    txns := [t0, t1];
    assert txns[..0] == [] && txns[..1] == [t0] && [t0][..0] == [];
    var db1, db2 := After(cfg, [t0]), After(cfg, txns);
    var created := User(id, cols, 0, 0);
    FirstUser(cfg, t0, created);
    var copy1 := ReceiveAll(db1.outbox, BySpelling);
    var first := db1.outbox[0];
    assert db1.outbox[..0] == [];
    assert copy1 == Receive(ReceiveAll([], BySpelling), first, BySpelling);
    assert db2 == Transact(cfg, t1.env, db1, call, t1.req).0;
    var added := Deactivation(cfg, t1, db1, id);
    assert (db1.outbox + [added])[..1] == db1.outbox;
    assert ReceiveAll(db2.outbox, BySpelling) == Receive(copy1, added, BySpelling);
  }

  lemma Deactivation(cfg: Config, txn: Txn, db: Db, id: Uuid) returns (added: Delivery)
    requires cfg.events && !txn.env.fault && txn.req.DeactivateUser?
    requires cfg.codec.parse(txn.req.userId) == Some(id) && OwnUser(db.tables.users, txn.call.tenant, id)
    requires db.tables.users[id].user.id == id
    ensures var db' := Transact(cfg, txn.env, db, txn.call, txn.req).0;
            && db'.outbox == db.outbox + [added] && BySpelling(added) == txn.req.userId
            && id in db'.tables.users && !db'.tables.users[id].user.cols.active
  {
    added := Transact(cfg, txn.env, db, txn.call, txn.req).0.outbox[|db.outbox|];
  }

  lemma FirstUser(cfg: Config, txn: Txn, user: User)
    requires cfg.events && !txn.env.fault && txn.req == CreateUser(user.cols)
    requires user.id == txn.env.freshId && user.createdAt == user.updatedAt == txn.env.now
    ensures var db := After(cfg, [txn]);
            && db.tables.users == map[user.id := UserRow(txn.call.tenant, user)]
            && |db.outbox| == 1 && IsUserEvent(db.outbox[0]) && UserIn(db.outbox[0]) == user
            && db.outbox[0].payload.occurredAt == user.updatedAt
            && BySpelling(db.outbox[0]) == cfg.codec.text(user.id)
  {
  }
}
