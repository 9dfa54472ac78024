/** Exactly when a receiver converges whatever the order of arrival, with no assumption on the clock. */
module ConvergenceExact {
  import opened Entities
  import opened Store
  import opened Convergence

  /** Every order and repetition of the queued events gives the users table. */
  ghost predicate Converges(db: Db) {
    forall arrivals | Delivers(arrivals, db.outbox) :: ReceiveAll(arrivals, ById) == UsersCopy(db.tables.users)
  }

  /** The event that arrives first is only ever replaced by a strictly newer one. */
  lemma {:induction false} FirstStays(d: Delivery, rest: seq<Delivery>)
    requires IsUserEvent(d)
    ensures var copy := ReceiveAll([d] + rest, ById);
            && ById(d) in copy
            && (copy[ById(d)] == (d.payload.occurredAt, UserIn(d)) || copy[ById(d)].0 > d.payload.occurredAt)
  {
    var arrivals := [d] + rest;
    if rest == [] {
      assert arrivals[..0] == [];
      assert ReceiveAll(arrivals, ById) == Receive(ReceiveAll([], ById), d, ById);
    } else {
      var n := |rest| - 1;
      FirstStays(d, rest[..n]);
      assert arrivals[..|arrivals| - 1] == [d] + rest[..n];
    }
  }

  /** An event that is not fresh, arriving first, keeps the receiver from the row. */
  lemma StaleDiverges(codec: Codec, db: Db, d: Delivery)
    requires Roots(codec, db) && d in db.outbox && !Fresh(db.tables.users, d)
    ensures Delivers([d] + db.outbox, db.outbox)
    ensures ReceiveAll([d] + db.outbox, ById) != UsersCopy(db.tables.users)
  {
    FirstStays(d, db.outbox);
    var id := UserIn(d).id;
    assert Rooted(codec, db.tables.users, d);
    assert UsersCopy(db.tables.users)[id] == (db.tables.users[id].user.updatedAt, db.tables.users[id].user);
  }

  /**
   After any run, with any clock: the receiver converges in every order if and only if, per user,
   every event with another image than the row is strictly older than the row.
   */
  lemma ConvergesExactly(cfg: Config, txns: seq<Txn>)
    requires cfg.events && Faithful(cfg.codec)
    ensures Converges(After(cfg, txns)) <==> AllFresh(After(cfg, txns).tables.users, After(cfg, txns).outbox)
  {
    var db := After(cfg, txns);
    RootsAlways(cfg, txns);
    if AllFresh(db.tables.users, db.outbox) {
      forall arrivals | Delivers(arrivals, db.outbox) ensures ReceiveAll(arrivals, ById) == UsersCopy(db.tables.users) {
        ReceiverConverges(cfg, txns, arrivals);
      }
    } else {
      var d :| d in db.outbox && !Fresh(db.tables.users, d);
      StaleDiverges(cfg.codec, db, d);
    }
  }

  /** Two changes of one user within one reading of the clock are such a run. */
  lemma ClockTieDiverges(codec: Codec, id: Uuid, cols: Columns) returns (txns: seq<Txn>)
    requires Faithful(codec) && cols.active
    ensures !Converges(After(Config(codec, true), txns))
  {
    var cfg, call := Config(codec, true), Call("tenant", "actor");
    var t0 := Txn(Env(0, 0, id, false, true), call, CreateUser(cols));
    var t1 := Txn(Env(0, 0, 0, false, true), call, DeactivateUser(codec.text(id)));
    txns := [t0, t1];
    assert txns[..1] == [t0];
    var db1, db2 := After(cfg, [t0]), After(cfg, txns);
    FirstUser(cfg, t0, User(id, cols, 0, 0));
    assert db2 == Transact(cfg, t1.env, db1, call, t1.req).0;
    var _ := Deactivation(cfg, t1, db1, id);
    assert db2.outbox[0] == db1.outbox[0] && db1.outbox[0] in db2.outbox;
    assert db2.tables.users[id].user.updatedAt == 0;
    assert !Fresh(db2.tables.users, db1.outbox[0]);
    ConvergesExactly(cfg, txns);
  }
}
