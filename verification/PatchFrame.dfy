/** What a PATCH leaves alone: every column and every extended key no operation names. */
module PatchFrame {
  import opened Text
  import opened Entities
  import opened Scim
  import opened Patch
  import opened PatchSplit

  /** Read the row, fold the operations, validate, map back. */
  function PatchRow(reg: Registry, cols: Columns, ops: seq<Operation>): Result<Columns> {
    match Handle(reg, Record(FromColumns(cols), cols.extended), ops)
    case Err(e) => Err(e)
    case Ok(rec) => if Valid(rec.user) then Ok(ToColumns(rec.user, rec.blob)) else Err(InvalidValue)
  }

  predicate SameField(a: Columns, b: Columns, f: Field) {
    match f
    case UserNameF => a.userName == b.userName
    case ExternalIdF => a.externalId == b.externalId
    case ActiveF => a.active == b.active
    case GivenF => a.givenName == b.givenName
    case FamilyF => a.familyName == b.familyName
    case EmailF => a.email == b.email
  }

  /** The operation names a column. */
  ghost predicate Names(reg: Registry, op: Operation, f: Field) {
    if Cut(op) then
      exists i :: 0 <= i < |AsObject(op.value).value| &&
        !Registered(reg, AsObject(op.value).value[i].0) && f in Fields(TargetOf(AsObject(op.value).value[i].0))
    else
      !(!Pathless(op) && Registered(reg, Trim(op.path))) && f in Fields(TargetOf(op.path))
  }

  /** The operation names an extended attribute. */
  ghost predicate NamesKey(reg: Registry, op: Operation, name: string) {
    exists o :: o in ExtOf(reg, op) && o.name == name
  }

  // ---- Core attributes ----

  function View(u: ScimUser): Columns {
    ToColumns(u, map[])
  }

  lemma AssignFrame(u: ScimUser, t: Target, v: Option<Json>, f: Field)
    requires Fitting(t, v) && f !in Fields(t)
    ensures SameField(View(Assign(u, t, v)), View(u), f)
  {
  }

  lemma ClearFrame(u: ScimUser, t: Target, f: Field)
    requires Clear(u, t).Ok? && f !in Fields(t)
    ensures SameField(View(Clear(u, t).value), View(u), f)
  {
    assert Trim("") == "";
  }

  lemma {:induction false} SetAllFrame(u: ScimUser, fields: seq<(string, Json)>, f: Field)
    requires SetAll(u, fields).Ok?
    requires forall i :: 0 <= i < |fields| ==> f !in Fields(TargetOf(fields[i].0))
    ensures SameField(View(SetAll(u, fields).value), View(u), f)
    decreases |fields|
  {
    if fields != [] {
      var t, v := TargetOf(fields[0].0), Some(fields[0].1);
      AssignFrame(u, t, v, f);
      SetAllFrame(Assign(u, t, v), fields[1..], f);
    }
  }

  /** What an operation of the core list may change. */
  ghost predicate Free(op: Operation, f: Field) {
    if Cut(op) then
      forall i :: 0 <= i < |AsObject(op.value).value| ==> f !in Fields(TargetOf(AsObject(op.value).value[i].0))
    else f !in Fields(TargetOf(op.path))
  }

  lemma OneFrame(u: ScimUser, op: Operation, f: Field)
    requires ApplyOne(u, op).Ok? && Free(op, f)
    ensures SameField(View(ApplyOne(u, op).value), View(u), f)
  {
    if Cut(op) {
      SetAllFrame(u, AsObject(op.value).value, f);
    } else if Assigns(op) {
      AssignFrame(u, TargetOf(op.path), op.value, f);
    } else {
      ClearFrame(u, TargetOf(op.path), f);
    }
  }

  lemma {:induction false} FoldFrame(u: ScimUser, ops: seq<Operation>, f: Field)
    requires Fold(u, ops).Ok? && forall op | op in ops :: Free(op, f)
    ensures SameField(View(Fold(u, ops).value), View(u), f)
    decreases |ops|
  {
    if ops != [] {
      assert ops[0] in ops && forall op | op in ops[1..] :: op in ops;
      OneFrame(u, ops[0], f);
      FoldFrame(ApplyOne(u, ops[0]).value, ops[1..], f);
    }
  }

  lemma {:induction false} CoreFieldsFrom(reg: Registry, fields: seq<(string, Json)>, x: (string, Json))
    requires x in CoreFields(reg, fields)
    ensures !Registered(reg, x.0) && exists i :: 0 <= i < |fields| && fields[i] == x
    decreases |fields|
  {
    if !Registered(reg, fields[0].0) && x == fields[0] {
    } else {
      CoreFieldsFrom(reg, fields[1..], x);
      var i :| 0 <= i < |fields[1..]| && fields[1..][i] == x;
      assert fields[i + 1] == x;
    }
  }

  lemma CoreOfFree(reg: Registry, op: Operation, f: Field, o: Operation)
    requires !Names(reg, op, f) && o in CoreOf(reg, op)
    ensures Free(o, f)
  {
    if Cut(op) {
      var fields := AsObject(op.value).value;
      var core := CoreFields(reg, fields);
      assert o == Operation(op.op, "", Some(Object(core))) && Trim("") == "";
      forall i | 0 <= i < |core| ensures f !in Fields(TargetOf(core[i].0)) {
        CoreFieldsFrom(reg, fields, core[i]);
        var k :| 0 <= k < |fields| && fields[k] == core[i];
      }
    }
  }

  lemma {:induction false} CoreOpsFree(reg: Registry, ops: seq<Operation>, f: Field, o: Operation)
    requires reg != map[] && (forall op | op in ops :: !Names(reg, op, f)) && o in CoreOps(reg, ops)
    ensures Free(o, f)
    decreases |ops|
  {
    assert ops[0] in ops && forall op | op in ops[1..] :: op in ops;
    if o in CoreOf(reg, ops[0]) {
      CoreOfFree(reg, ops[0], f, o);
    } else {
      CoreOpsFree(reg, ops[1..], f, o);
    }
  }

  lemma WholeOpFree(op: Operation, f: Field)
    requires !Names(map[], op, f)
    ensures Free(op, f)
  {
  }

  // ---- Extended attributes ----

  predicate SameKey(a: Blob, b: Blob, name: string) {
    (name in a <==> name in b) && (name in a ==> a[name] == b[name])
  }

  lemma {:induction false} FoldExtFrame(blob: Blob, ops: seq<ExtOp>, name: string)
    requires forall o | o in ops :: o.name != name
    ensures SameKey(FoldExt(blob, ops), blob, name)
    decreases |ops|
  {
    if ops != [] {
      assert ops[0] in ops && forall o | o in ops[1..] :: o in ops;
      FoldExtFrame(ApplyExt(blob, ops[0]), ops[1..], name);
    }
  }

  lemma {:induction false} ExtOpsNamed(reg: Registry, ops: seq<Operation>, o: ExtOp)
    requires o in ExtOps(reg, ops)
    ensures exists op :: op in ops && NamesKey(reg, op, o.name)
    decreases |ops|
  {
    if o in ExtOf(reg, ops[0]) {
      assert ops[0] in ops && NamesKey(reg, ops[0], o.name);
    } else {
      ExtOpsNamed(reg, ops[1..], o);
      var op :| op in ops[1..] && NamesKey(reg, op, o.name);
      assert op in ops;
    }
  }

  // ---- The whole path ----

  lemma HandleFrame(reg: Registry, rec: Record, ops: seq<Operation>, f: Field)
    requires Handle(reg, rec, ops).Ok? && forall op | op in ops :: !Names(reg, op, f)
    ensures SameField(View(Handle(reg, rec, ops).value.user), View(rec.user), f)
  {
    var core := CoreOps(reg, ops);
    forall o | o in core ensures Free(o, f) {
      if reg == map[] {
        WholeOpFree(o, f);
      } else {
        CoreOpsFree(reg, ops, f, o);
      }
    }
    if core != [] {
      FoldFrame(rec.user, core, f);
    }
  }

  /**
   A PATCH of a normalised row writes back, unchanged, every column and every extended key that no
   operation names; and what it writes is normalised again.
   */
  lemma PatchKeepsTheRest(reg: Registry, cols: Columns, ops: seq<Operation>)
    requires Normalised(cols) && PatchRow(reg, cols, ops).Ok?
    ensures var after := PatchRow(reg, cols, ops).value;
            && Normalised(after)
            && (forall f | (forall op | op in ops :: !Names(reg, op, f)) :: SameField(after, cols, f))
            && (forall name | (forall op | op in ops :: !NamesKey(reg, op, name)) ::
              SameKey(after.extended, cols.extended, name))
  {
    var rec := Record(FromColumns(cols), cols.extended);
    var rec' := Handle(reg, rec, ops).value;
    var after := PatchRow(reg, cols, ops).value;
    MapperNormalises(rec'.user, rec'.blob);
    MapperRoundTrip(cols);
    forall f | (forall op | op in ops :: !Names(reg, op, f)) ensures SameField(after, cols, f) {
      HandleFrame(reg, rec, ops, f);
    }
    forall name | (forall op | op in ops :: !NamesKey(reg, op, name))
      ensures SameKey(after.extended, cols.extended, name)
    {
      forall o | o in ExtOps(reg, ops) ensures o.name != name {
        ExtOpsNamed(reg, ops, o);
      }
      FoldExtFrame(cols.extended, ExtOps(reg, ops), name);
    }
  }

  // ---- What the last operation on an attribute leaves ----

  lemma {:induction false} CoreOpsConcat(reg: Registry, a: seq<Operation>, b: seq<Operation>)
    ensures CoreOps(reg, a + b) == CoreOps(reg, a) + CoreOps(reg, b)
    decreases |a|
  {
    if a == [] {
      assert a + b == b;
    } else if reg != map[] {
      assert (a + b)[1..] == a[1..] + b;
      CoreOpsConcat(reg, a[1..], b);
      assert (CoreOf(reg, a[0]) + CoreOps(reg, a[1..])) + CoreOps(reg, b)
          == CoreOf(reg, a[0]) + (CoreOps(reg, a[1..]) + CoreOps(reg, b));
    }
  }

  /** The operation has a path of its own, and no registered attribute takes it. */
  predicate Core(reg: Registry, op: Operation) {
    !Pathless(op) && !Registered(reg, Trim(op.path))
  }

  lemma OneCore(reg: Registry, op: Operation)
    requires Core(reg, op)
    ensures CoreOps(reg, [op]) == [op]
  {
    assert [op][1..] == [] && [op] + [] == [op];
  }

  lemma LaterFree(reg: Registry, ops: seq<Operation>, f: Field)
    requires forall op | op in ops :: !Names(reg, op, f)
    ensures forall o | o in CoreOps(reg, ops) :: Free(o, f)
  {
    forall o | o in CoreOps(reg, ops) ensures Free(o, f) {
      if reg == map[] {
        WholeOpFree(o, f);
      } else {
        CoreOpsFree(reg, ops, f, o);
      }
    }
  }

  /** The operations before, the one in question, and those after it. */
  lemma Three(reg: Registry, u: ScimUser, before: seq<Operation>, op: Operation, after: seq<Operation>)
    returns (mid: ScimUser)
    requires Core(reg, op) && Fold(u, CoreOps(reg, before + [op] + after)).Ok?
    ensures ApplyOne(mid, op).Ok? && Fold(ApplyOne(mid, op).value, CoreOps(reg, after)).Ok?
    ensures Fold(u, CoreOps(reg, before + [op] + after)) == Fold(ApplyOne(mid, op).value, CoreOps(reg, after))
  {
    CoreOpsConcat(reg, before + [op], after);
    CoreOpsConcat(reg, before, [op]);
    OneCore(reg, op);
    FoldConcat(u, CoreOps(reg, before) + [op], CoreOps(reg, after));
    FoldConcat(u, CoreOps(reg, before), [op]);
    mid := Fold(u, CoreOps(reg, before)).value;
    OneOp(mid, op);
  }

  /** A column named by an operation and by none after it holds what that operation made of it. */
  lemma LastWord(reg: Registry, cols: Columns, before: seq<Operation>, op: Operation, after: seq<Operation>)
    returns (mid: ScimUser)
    requires Core(reg, op) && PatchRow(reg, cols, before + [op] + after).Ok?
    ensures ApplyOne(mid, op).Ok?
    ensures forall f | (forall o | o in after :: !Names(reg, o, f)) ::
              SameField(PatchRow(reg, cols, before + [op] + after).value, View(ApplyOne(mid, op).value), f)
  {
    var ops := before + [op] + after;
    CoreOpsConcat(reg, before + [op], after);
    CoreOpsConcat(reg, before, [op]);
    OneCore(reg, op);
    assert CoreOps(reg, ops) != [];
    mid := Three(reg, FromColumns(cols), before, op, after);
    var made := ApplyOne(mid, op).value;
    forall f | (forall o | o in after :: !Names(reg, o, f))
      ensures SameField(PatchRow(reg, cols, ops).value, View(made), f)
    {
      LaterFree(reg, after, f);
      FoldFrame(made, CoreOps(reg, after), f);
    }
  }
}
