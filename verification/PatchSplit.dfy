/**
 A PATCH is split into operations on core attributes and operations on registered extended ones,
 which are then applied separately. Splitting keeps the meaning of the list, with two exceptions.
 */
module PatchSplit {
  import opened Text
  import opened Entities
  import opened Scim
  import opened Patch

  /** From lower-cased attribute name to the name it is registered under. */
  type Registry = map<string, string>

  type Blob = map<string, Json>

  datatype ExtOp = ExtOp(action: string, name: string, value: Json)

  function OrNull(v: Option<Json>): Json {
    if v.Some? then v.value else Null
  }

  predicate Registered(reg: Registry, key: string) {
    Lower(key) in reg
  }

  // ---- The split ----

  function CoreFields(reg: Registry, fields: seq<(string, Json)>): seq<(string, Json)> {
    if fields == [] then []
    else (if Registered(reg, fields[0].0) then [] else [fields[0]]) + CoreFields(reg, fields[1..])
  }

  function ExtFields(reg: Registry, action: string, fields: seq<(string, Json)>): seq<ExtOp> {
    if fields == [] then []
    else
      (if Registered(reg, fields[0].0) then [ExtOp(action, reg[Lower(fields[0].0)], fields[0].1)] else [])
      + ExtFields(reg, action, fields[1..])
  }

  /** A pathless add or replace of an object, which is cut key by key. */
  predicate Cut(op: Operation) {
    Pathless(op) && Assigns(op) && AsObject(op.value).Some?
  }

  function CoreOf(reg: Registry, op: Operation): seq<Operation> {
    if Cut(op) then
      var core := CoreFields(reg, AsObject(op.value).value);
      if core == [] then [] else [Operation(op.op, "", Some(Object(core)))]
    else if !Pathless(op) && Registered(reg, Trim(op.path)) then []
    else [op]
  }

  function ExtOf(reg: Registry, op: Operation): seq<ExtOp> {
    if Cut(op) then ExtFields(reg, Verb(op), AsObject(op.value).value)
    else if !Pathless(op) && Registered(reg, Trim(op.path)) then
      [ExtOp(Verb(op), reg[Lower(Trim(op.path))], OrNull(op.value))]
    else []
  }

  function CoreOps(reg: Registry, ops: seq<Operation>): seq<Operation> {
    if reg == map[] then ops
    else if ops == [] then []
    else CoreOf(reg, ops[0]) + CoreOps(reg, ops[1..])
  }

  function ExtOps(reg: Registry, ops: seq<Operation>): seq<ExtOp> {
    if reg == map[] || ops == [] then []
    else ExtOf(reg, ops[0]) + ExtOps(reg, ops[1..])
  }

  /** The loop that builds both lists. */
  method SplitExtendedOps(reg: Registry, ops: seq<Operation>) returns (core: seq<Operation>, ext: seq<ExtOp>)
    ensures core == CoreOps(reg, ops) && ext == ExtOps(reg, ops)
  {
    if |reg| == 0 {
      return ops, [];
    }
    core, ext := [], [];
    for i := 0 to |ops|
      invariant core + CoreOps(reg, ops[i..]) == CoreOps(reg, ops)
      invariant ext + ExtOps(reg, ops[i..]) == ExtOps(reg, ops)
    {
      assert ops[i..][0] == ops[i] && ops[i..][1..] == ops[i + 1..];
      var c, e := SplitOne(reg, ops[i]);
      Regroup(core, c, CoreOps(reg, ops[i + 1..]));
      Regroup(ext, e, ExtOps(reg, ops[i + 1..]));
      core, ext := core + c, ext + e;
    }
  }

  lemma Regroup<T>(a: seq<T>, b: seq<T>, c: seq<T>)
    ensures (a + b) + c == a + (b + c)
  {
  }

  method SplitOne(reg: Registry, op: Operation) returns (core: seq<Operation>, ext: seq<ExtOp>)
    ensures core == CoreOf(reg, op) && ext == ExtOf(reg, op)
  {
    var path := Trim(op.path);
    if path != "" {
      if Lower(path) in reg {
        return [], [ExtOp(Verb(op), reg[Lower(path)], OrNull(op.value))];
      }
      return [op], [];
    }
    var attrs := AsObject(op.value);
    if !Assigns(op) || attrs.None? {
      return [op], [];
    }
    var coreAttrs, extAttrs := SplitAttributes(reg, Verb(op), attrs.value);
    core, ext := [], extAttrs;
    if |coreAttrs| > 0 {
      core := [Operation(op.op, "", Some(Object(coreAttrs)))];
    }
  }

  method SplitAttributes(reg: Registry, action: string, attrs: seq<(string, Json)>)
    returns (core: seq<(string, Json)>, ext: seq<ExtOp>)
    ensures core == CoreFields(reg, attrs) && ext == ExtFields(reg, action, attrs)
  {
    core, ext := [], [];
    for i := 0 to |attrs|
      invariant core + CoreFields(reg, attrs[i..]) == CoreFields(reg, attrs)
      invariant ext + ExtFields(reg, action, attrs[i..]) == ExtFields(reg, action, attrs)
    {
      assert attrs[i..][0] == attrs[i] && attrs[i..][1..] == attrs[i + 1..];
      var (k, v) := attrs[i];
      if Lower(k) in reg {
        ext := ext + [ExtOp(action, reg[Lower(k)], v)];
      } else {
        core := core + [attrs[i]];
      }
    }
  }

  // ---- The extended part ----

  function ApplyExt(blob: Blob, o: ExtOp): Blob {
    if o.action == "add" || o.action == "replace" then blob[o.name := o.value]
    else if o.action == "remove" then blob - {o.name}
    else blob
  }

  function FoldExt(blob: Blob, ops: seq<ExtOp>): Blob
    decreases |ops|
  {
    if ops == [] then blob else FoldExt(ApplyExt(blob, ops[0]), ops[1..])
  }

  method ApplyExtendedOps(existing: Blob, ops: seq<ExtOp>) returns (blob: Blob)
    ensures blob == FoldExt(existing, ops)
  {
    blob := existing;
    for i := 0 to |ops|
      invariant FoldExt(existing, ops) == FoldExt(blob, ops[i..])
    {
      assert ops[i..][1..] == ops[i + 1..];
      var o := ops[i];
      if o.action == "add" || o.action == "replace" {
        blob := blob[o.name := o.value];
      } else if o.action == "remove" {
        blob := blob - {o.name};
      }
    }
  }

  lemma {:induction false} FoldExtConcat(blob: Blob, a: seq<ExtOp>, b: seq<ExtOp>)
    ensures FoldExt(blob, a + b) == FoldExt(FoldExt(blob, a), b)
    decreases |a|
  {
    if a == [] {
      assert a + b == b;
    } else {
      assert (a + b)[1..] == a[1..] + b;
      FoldExtConcat(ApplyExt(blob, a[0]), a[1..], b);
    }
  }

  // ---- The reference: one operation at a time on the combined record ----

  datatype Record = Record(user: ScimUser, blob: Blob)

  function WithUser(r: Result<ScimUser>, blob: Blob): Result<Record> {
    match r
    case Ok(u) => Ok(Record(u, blob))
    case Err(e) => Err(e)
  }

  /** A registered name goes to the blob; everything else is a core attribute. */
  function RefField(reg: Registry, rec: Record, field: (string, Json)): Result<Record> {
    if Registered(reg, field.0) then Ok(rec.(blob := rec.blob[reg[Lower(field.0)] := field.1]))
    else WithUser(SetPath(rec.user, field.0, Some(field.1)), rec.blob)
  }

  function RefFields(reg: Registry, rec: Record, fields: seq<(string, Json)>): Result<Record>
    decreases |fields|
  {
    if fields == [] then Ok(rec)
    else
      match RefField(reg, rec, fields[0])
      case Ok(rec') => RefFields(reg, rec', fields[1..])
      case Err(e) => Err(e)
  }

  predicate KnownAction(op: Operation) {
    Assigns(op) || Verb(op) == "remove"
  }

  /** An operation with an unknown action fails wherever it points. */
  function RefOne(reg: Registry, rec: Record, op: Operation): Result<Record> {
    if Cut(op) then RefFields(reg, rec, AsObject(op.value).value)
    else if !Pathless(op) && Registered(reg, Trim(op.path)) then
      if !KnownAction(op) then Err(InvalidValue)
      else Ok(rec.(blob := ApplyExt(rec.blob, ExtOp(Verb(op), reg[Lower(Trim(op.path))], OrNull(op.value)))))
    else WithUser(ApplyOne(rec.user, op), rec.blob)
  }

  function RefFold(reg: Registry, rec: Record, ops: seq<Operation>): Result<Record>
    decreases |ops|
  {
    if ops == [] then Ok(rec)
    else
      match RefOne(reg, rec, ops[0])
      case Ok(rec') => RefFold(reg, rec', ops[1..])
      case Err(e) => Err(e)
  }

  /** Applying a PATCH operation by operation; an empty list is an error. */
  function Reference(reg: Registry, rec: Record, ops: seq<Operation>): Result<Record> {
    if ops == [] then Err(InvalidValue) else RefFold(reg, rec, ops)
  }

  // ---- What the handler does ----

  /** Core operations first, unless the patch is extended-only; then the extended ones. */
  function Handle(reg: Registry, rec: Record, ops: seq<Operation>): Result<Record> {
    var core, ext := CoreOps(reg, ops), ExtOps(reg, ops);
    var user := if core != [] || ext == [] then Patched(rec.user, core) else Ok(rec.user);
    WithUser(user, FoldExt(rec.blob, ext))
  }

  /** An operation with an unknown action on a registered attribute, which the split lets pass unread. */
  predicate Silent(reg: Registry, op: Operation) {
    !Pathless(op) && Registered(reg, Trim(op.path)) && !KnownAction(op)
  }

  predicate Mute(reg: Registry, ops: seq<Operation>) {
    exists i :: 0 <= i < |ops| && Silent(reg, ops[i])
  }

  /** Every operation of a non-empty list disappears in the split. */
  predicate Vanishes(reg: Registry, ops: seq<Operation>) {
    ops != [] && CoreOps(reg, ops) == [] && ExtOps(reg, ops) == []
  }

  lemma {:induction false} FieldsAgree(reg: Registry, rec: Record, action: string, fields: seq<(string, Json)>)
    requires action == "add" || action == "replace"
    ensures RefFields(reg, rec, fields)
            == WithUser(SetAll(rec.user, CoreFields(reg, fields)), FoldExt(rec.blob, ExtFields(reg, action, fields)))
    decreases |fields|
  {
    if fields != [] {
      var f, rest := fields[0], fields[1..];
      if Registered(reg, f.0) {
        var rec' := rec.(blob := rec.blob[reg[Lower(f.0)] := f.1]);
        FieldsAgree(reg, rec', action, rest);
        var o := ExtOp(action, reg[Lower(f.0)], f.1);
        assert ([o] + ExtFields(reg, action, rest))[1..] == ExtFields(reg, action, rest);
        assert CoreFields(reg, fields) == CoreFields(reg, rest);
      } else {
        assert ([f] + CoreFields(reg, rest))[1..] == CoreFields(reg, rest);
        assert ExtFields(reg, action, fields) == ExtFields(reg, action, rest);
        match SetPath(rec.user, f.0, Some(f.1))
        case Ok(u) => FieldsAgree(reg, Record(u, rec.blob), action, rest);
        case Err(_) =>
      }
    }
  }

  lemma OneOp(u: ScimUser, op: Operation)
    ensures Fold(u, [op]) == ApplyOne(u, op)
  {
  }

  /** One operation, split and applied in two parts, is that operation on the combined record. */
  lemma OneAgrees(reg: Registry, rec: Record, op: Operation)
    requires !Silent(reg, op)
    ensures RefOne(reg, rec, op) == WithUser(Fold(rec.user, CoreOf(reg, op)), FoldExt(rec.blob, ExtOf(reg, op)))
  {
    if Cut(op) {
      var fields := AsObject(op.value).value;
      FieldsAgree(reg, rec, Verb(op), fields);
      var core := CoreFields(reg, fields);
      if core != [] {
        var op' := Operation(op.op, "", Some(Object(core)));
        assert Trim("") == "";
        OneOp(rec.user, op');
      }
    } else if !Pathless(op) && Registered(reg, Trim(op.path)) {
      var o := ExtOp(Verb(op), reg[Lower(Trim(op.path))], OrNull(op.value));
      assert [o][1..] == [];
    } else {
      OneOp(rec.user, op);
    }
  }

  lemma {:induction false} FoldAgrees(reg: Registry, rec: Record, ops: seq<Operation>)
    requires reg != map[] && !Mute(reg, ops)
    ensures RefFold(reg, rec, ops) == WithUser(Fold(rec.user, CoreOps(reg, ops)), FoldExt(rec.blob, ExtOps(reg, ops)))
    decreases |ops|
  {
    if ops != [] {
      var rest := ops[1..];
      assert !Silent(reg, ops[0]);
      assert !Mute(reg, rest) by {
        assert forall i :: 0 <= i < |rest| ==> rest[i] == ops[i + 1];
      }
      OneAgrees(reg, rec, ops[0]);
      FoldConcat(rec.user, CoreOf(reg, ops[0]), CoreOps(reg, rest));
      FoldExtConcat(rec.blob, ExtOf(reg, ops[0]), ExtOps(reg, rest));
      match Fold(rec.user, CoreOf(reg, ops[0]))
      case Ok(u) => FoldAgrees(reg, Record(u, FoldExt(rec.blob, ExtOf(reg, ops[0]))), rest);
      case Err(_) =>
    }
  }

  lemma {:induction false} NoRegistry(rec: Record, ops: seq<Operation>)
    ensures RefFold(map[], rec, ops) == WithUser(Fold(rec.user, ops), rec.blob)
    decreases |ops|
  {
    if ops != [] {
      if Cut(ops[0]) {
        NoRegistryFields(rec, AsObject(ops[0].value).value);
      }
      match ApplyOne(rec.user, ops[0])
      case Ok(u) => NoRegistry(Record(u, rec.blob), ops[1..]);
      case Err(_) =>
    }
  }

  lemma {:induction false} NoRegistryFields(rec: Record, fields: seq<(string, Json)>)
    ensures RefFields(map[], rec, fields) == WithUser(SetAll(rec.user, fields), rec.blob)
    decreases |fields|
  {
    if fields != [] {
      match SetPath(rec.user, fields[0].0, Some(fields[0].1))
      case Ok(u) => NoRegistryFields(Record(u, rec.blob), fields[1..]);
      case Err(_) =>
    }
  }

  /** The reference refuses a list that holds a silent operation. */
  lemma {:induction false} SilentFails(reg: Registry, rec: Record, ops: seq<Operation>)
    requires Mute(reg, ops)
    ensures RefFold(reg, rec, ops).Err?
    decreases |ops|
  {
    if !Silent(reg, ops[0]) {
      var rest := ops[1..];
      assert Mute(reg, rest) by {
        var i :| 0 <= i < |ops| && Silent(reg, ops[i]);
        assert rest[i - 1] == ops[i];
      }
      match RefOne(reg, rec, ops[0])
      case Ok(rec') => SilentFails(reg, rec', rest);
      case Err(_) =>
    }
  }

  /**
   For every list, registry and record: the split gives the record, or the failure, that applying
   the operations one by one gives, except in two cases. It refuses a non-empty list whose every
   operation disappears in the split; and it accepts an unknown action on a registered attribute
   whenever the core part succeeds.
   */
  lemma SplitPreservesMeaning(reg: Registry, rec: Record, ops: seq<Operation>)
    ensures Same(Handle(reg, rec, ops), Reference(reg, rec, ops)) <==>
            !Vanishes(reg, ops) && !(Mute(reg, ops) && Fold(rec.user, CoreOps(reg, ops)).Ok?)
  {
    if reg == map[] {
      NoRegistry(rec, ops);
    } else if ops != [] {
      if Mute(reg, ops) {
        SilentFails(reg, rec, ops);
        SilentIsExtended(reg, ops);
      } else {
        FoldAgrees(reg, rec, ops);
      }
    }
  }

  lemma {:induction false} SilentIsExtended(reg: Registry, ops: seq<Operation>)
    requires Mute(reg, ops)
    ensures ExtOps(reg, ops) != []
    decreases |ops|
  {
    if !Silent(reg, ops[0]) {
      var rest := ops[1..];
      var i :| 0 <= i < |ops| && Silent(reg, ops[i]);
      assert rest[i - 1] == ops[i];
      SilentIsExtended(reg, rest);
    } else {
      assert ExtOf(reg, ops[0]) != [];
    }
  }

  /** Away from the two exceptions the error is the same too. */
  lemma SplitSameError(reg: Registry, rec: Record, ops: seq<Operation>)
    requires !Vanishes(reg, ops) && !Mute(reg, ops)
    ensures Handle(reg, rec, ops) == Reference(reg, rec, ops)
  {
    if reg == map[] {
      NoRegistry(rec, ops);
    } else if ops != [] {
      FoldAgrees(reg, rec, ops);
    }
  }

  /** The second exception, concretely: an unknown action on a registered attribute is answered with success. */
  lemma SilentAccepted(rec: Record, v: Json)
    ensures var reg, ops := map["title" := "title"], [Operation("frobnicate", "title", Some(v))];
            Handle(reg, rec, ops) == Ok(rec) && Reference(reg, rec, ops).Err?
  {
    var reg, op := map["title" := "title"], Operation("frobnicate", "title", Some(v));
    TrimOfTrimmed("title");
    TrimOfTrimmed("frobnicate");
    assert Lower("title") == "title" && Lower("frobnicate") == "frobnicate";
    assert [op][1..] == [] && [op][0] == op && "title" in reg;
    assert CoreOps(reg, []) == [] && ExtOps(reg, []) == [];
    assert CoreOf(reg, op) == [];
    assert ExtOps(reg, [op]) == ExtOf(reg, op) + [] && CoreOps(reg, [op]) == CoreOf(reg, op) + [];
    var o := ExtOp("frobnicate", "title", v);
    assert ExtOf(reg, op) == [o] && [o][1..] == [];
    assert FoldExt(rec.blob, [o]) == FoldExt(ApplyExt(rec.blob, o), []);
    SilentFails(reg, rec, [op]);
  }

  /** The first exception, concretely: adding an empty object changes nothing, and is refused as an empty list. */
  lemma VanishingRefused(reg: Registry, rec: Record)
    requires reg != map[]
    ensures var ops := [Operation("add", "", Some(Object([])))];
            && Vanishes(reg, ops) && Handle(reg, rec, ops).Err?
            && Reference(reg, rec, ops) == Ok(rec)
  {
    var op := Operation("add", "", Some(Object([])));
    TrimOfTrimmed("add");
    assert Lower("add") == "add" && Trim("") == "";
    assert Cut(op) && AsObject(op.value) == Some([]);
    assert CoreFields(reg, []) == [] && ExtFields(reg, Verb(op), []) == [];
    assert CoreOf(reg, op) == [] && ExtOf(reg, op) == [];
    assert [op][1..] == [];
    assert CoreOps(reg, [op]) == CoreOf(reg, op) + CoreOps(reg, []) == [];
    assert ExtOps(reg, [op]) == ExtOf(reg, op) + ExtOps(reg, []) == [];
    assert RefOne(reg, rec, op) == Ok(rec);
    assert RefFold(reg, rec, [op]) == RefFold(reg, rec, []) == Ok(rec);
  }
}
