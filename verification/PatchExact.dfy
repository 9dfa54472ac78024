/** PATCH of a user by the attribute names themselves: which path changes which field, and what is stored. */
module PatchExact {
  import opened Text
  import opened Entities
  import opened Scim
  import opened Patch
  import opened PatchSplit
  import opened PatchFrame
  import opened ScimExact

  // ---- Paths ----

  /** The addresses, with or without one filter in brackets and `.value` behind. */
  ghost predicate EmailKey(key: string) {
    || key == "emails" || key == "emails.value"
    || exists filter :: Lacks(filter, ']') && (key == "emails[" + filter + "]" || key == "emails[" + filter + "].value")
  }

  /** A string is a filter's text, its closing bracket, and one of the two endings. */
  ghost predicate Closes(s: string, filter: string) {
    Lacks(filter, ']') && (s == filter + "]" || s == filter + "].value")
  }

  lemma ClosesAtOnce(s: string, filter: string)
    requires s != "" && s[0] == ']'
    ensures Closes(s, filter) <==> filter == "" && (s[1..] == "" || s[1..] == ".value")
  {
    assert s == "]" + s[1..];
    if filter != "" && (s == filter + "]" || s == filter + "].value") {
      assert s[0] == filter[0];
    }
  }

  lemma ClosesLater(s: string, filter: string)
    requires s != "" && s[0] != ']'
    ensures Closes(s, filter) <==> filter != "" && filter[0] == s[0] && Closes(s[1..], filter[1..])
  {
    assert s == [s[0]] + s[1..];
    if filter != "" {
      assert filter == [filter[0]] + filter[1..];
      assert (filter + "]")[1..] == filter[1..] + "]" && (filter + "].value")[1..] == filter[1..] + "].value";
    }
  }

  lemma {:induction false} FilterReadExactly(s: string)
    requires s != ""
    ensures FilterThenSuffix(s) <==> exists filter :: Closes(s, filter)
    decreases |s|
  {
    if s[0] == ']' {
      forall f: string ensures Closes(s, f) <==> f == "" && (s[1..] == "" || s[1..] == ".value") {
        ClosesAtOnce(s, f);
      }
      assert FilterThenSuffix(s) ==> Closes(s, "");
    } else {
      forall f: string
        ensures Closes(s, f) <==> f != "" && f[0] == s[0] && Closes(s[1..], f[1..])
      {
        ClosesLater(s, f);
      }
      if |s| > 1 {
        FilterReadExactly(s[1..]);
        if g :| Closes(s[1..], g) {
          assert ([s[0]] + g)[1..] == g && Closes(s, [s[0]] + g);
        }
      }
    }
  }

  lemma EmailKeyStarts(key: string)
    requires EmailKey(key)
    ensures |key| >= 6 && key[..6] == "emails"
  {
  }

  lemma Opened(key: string, end: string)
    ensures key == "emails[" + end <==> |key| >= 7 && key[..6] == "emails" && key[6] == '[' && key[7..] == end
  {
  }

  lemma EmailPathExactly(key: string)
    ensures IsEmailPath(key) <==> EmailKey(key)
  {
    if EmailKey(key) {
      EmailKeyStarts(key);
    }
    forall f: string
      ensures (key == "emails[" + f + "]" || key == "emails[" + f + "].value") <==>
                && |key| >= 7 && key[..6] == "emails" && key[6] == '['
                && (key[7..] == f + "]" || key[7..] == f + "].value")
    {
      assert "emails[" + f + "]" == "emails[" + (f + "]") && "emails[" + f + "].value" == "emails[" + (f + "].value");
      Opened(key, f + "]");
      Opened(key, f + "].value");
    }
    if |key| >= 6 && key[..6] == "emails" {
      assert key == "emails" + key[6..];
      if |key| > 7 && key[6] == '[' {
        FilterReadExactly(key[7..]);
        if f :| Closes(key[7..], f) {
          assert Lacks(f, ']') && (key == "emails[" + f + "]" || key == "emails[" + f + "].value");
        }
        if f :| Lacks(f, ']') && (key == "emails[" + f + "]" || key == "emails[" + f + "].value") {
          assert Closes(key[7..], f);
        }
      }
    }
  }

  const USER_KEYS: set<string> := {"username", "externalid", "active", "name.givenname", "name.familyname", "name"}

  /** Assigning a value that must be text. */
  ghost predicate SetsText(r: Result<ScimUser>, v: Option<Json>, made: string -> ScimUser) {
    r == if DecodeString(v).Some? then Ok(made(DecodeString(v).value)) else Err(InvalidValue)
  }

  /**
   Assigning under a path changes the field of that name, in any casing and with white space around it, to the
   value as it decodes, and no other; a value that does not decode is refused, and so is every other path.
   */
  lemma SetPathExactly(u: ScimUser, path: string, v: Option<Json>)
    ensures var key, r := Lower(Trim(path)), SetPath(u, path, v);
            && (key == "username" ==> SetsText(r, v, s => u.(userName := s)))
            && (key == "externalid" ==> SetsText(r, v, s => u.(externalId := s)))
            && (key == "active" ==>
                  r == if DecodeBool(v).Some? then Ok(u.(active := DecodeBool(v))) else Err(InvalidValue))
            && (key == "name.givenname" ==>
                  SetsText(r, v, s => u.(name := Some(Name(s, if u.name.Some? then u.name.value.familyName else "")))))
            && (key == "name.familyname" ==>
                  SetsText(r, v, s => u.(name := Some(Name(if u.name.Some? then u.name.value.givenName else "", s)))))
            && (key == "name" ==>
                  r == if DecodeName(v).Some? then Ok(u.(name := DecodeName(v))) else Err(InvalidValue))
            && (EmailKey(key) ==>
                  r == if DecodeAddress(v).Some? then Ok(u.(emails := [Email(DecodeAddress(v).value, true)]))
                       else Err(InvalidValue))
            && (key !in USER_KEYS && !EmailKey(key) ==> r == Err(InvalidPath))
  {
    EmailPathExactly(Lower(Trim(path)));
  }

  /** Removing clears the field of that name and no other; `active` is true again, and userName cannot be removed. */
  lemma ClearPathExactly(u: ScimUser, path: string)
    ensures var key, r := Lower(Trim(path)), ClearPath(u, path);
            && (key == "" ==> r == Err(InvalidValue))
            && (key == "externalid" ==> r == Ok(u.(externalId := "")))
            && (key == "name.givenname" ==>
                  r == Ok(if u.name.Some? then u.(name := Some(Name("", u.name.value.familyName))) else u))
            && (key == "name.familyname" ==>
                  r == Ok(if u.name.Some? then u.(name := Some(Name(u.name.value.givenName, ""))) else u))
            && (key == "name" ==> r == Ok(u.(name := None)))
            && (key == "active" ==> r == Ok(u.(active := Some(true))))
            && (EmailKey(key) ==> r == Ok(u.(emails := [])))
            && (key != "" && (key == "username" || (key !in USER_KEYS && !EmailKey(key))) ==> r == Err(InvalidPath))
  {
    EmailPathExactly(Lower(Trim(path)));
    assert |Lower(Trim(path))| == |Trim(path)|;
  }

  /** An address is a bare string, an object that holds one, or the primary one of a non-empty array of objects. */
  lemma AddressDecodes(v: Json)
    ensures DecodeAddress(None) == None
    ensures v.Str? ==> DecodeAddress(Some(v)) == Some(v.s)
    ensures v.Null? ==> DecodeAddress(Some(v)) == Some("")
    ensures v.Object? ==>
              var e := DecodeEmail(v);
              DecodeAddress(Some(v)) == if e.Some? && e.value.value != "" then Some(e.value.value) else None
    ensures v.Array? ==>
              var emails := DecodeEmails(v.items);
              DecodeAddress(Some(v)) == if emails.Some? && v.items != [] then Some(PrimaryEmail(emails.value)) else None
    ensures v.Bool? || v.Number? ==> DecodeAddress(Some(v)) == None
  {
  }

  /** add and replace assign, remove clears, in any casing and with white space around them; nothing else is known. */
  lemma OperationExactly(u: ScimUser, op: Operation)
    ensures var verb, r := Lower(Trim(op.op)), ApplyOne(u, op);
            && ((verb == "add" || verb == "replace") && Trim(op.path) != "" ==> r == SetPath(u, op.path, op.value))
            && ((verb == "add" || verb == "replace") && Trim(op.path) == "" ==>
                  r == if op.value.Some? && op.value.value.Object? then SetAll(u, op.value.value.fields)
                       else if op.value == Some(Null) then Ok(u)
                       else Err(InvalidValue))
            && (verb == "remove" ==> r == ClearPath(u, op.path))
            && (verb !in {"add", "replace", "remove"} ==> r == Err(InvalidValue))
  {
  }

  /** A list is its first operation and then the others; the first failure is the answer, and an empty list is one. */
  lemma ListExactly(u: ScimUser, op: Operation, ops: seq<Operation>)
    ensures Patched(u, []) == Err(InvalidValue)
    ensures Patched(u, [op] + ops) ==
              if ops == [] || ApplyOne(u, op).Err? then ApplyOne(u, op) else Patched(ApplyOne(u, op).value, ops)
  {
    assert ([op] + ops)[0] == op && ([op] + ops)[1..] == ops;
    assert Fold(u, [op] + ops) == if ApplyOne(u, op).Ok? then Fold(ApplyOne(u, op).value, ops) else ApplyOne(u, op);
  }

  /** An object without a path is its attributes assigned one after another. */
  lemma FieldsExactly(u: ScimUser, field: (string, Json), fields: seq<(string, Json)>)
    ensures SetAll(u, []) == Ok(u)
    ensures var r := SetPath(u, field.0, Some(field.1));
            SetAll(u, [field] + fields) == if r.Ok? then SetAll(r.value, fields) else r
  {
    assert ([field] + fields)[1..] == fields;
  }

  // ---- Which columns an operation names ----

  ghost predicate KeyOf(f: Field, key: string) {
    match f
    case UserNameF => key == "username"
    case ExternalIdF => key == "externalid"
    case ActiveF => key == "active"
    case GivenF => key == "name.givenname" || key == "name"
    case FamilyF => key == "name.familyname" || key == "name"
    case EmailF => EmailKey(key)
  }

  /** The operation assigns or removes the column: by its path, or by an attribute of its object without one. */
  ghost predicate Mentions(reg: Registry, op: Operation, f: Field) {
    var verb, path := Lower(Trim(op.op)), Trim(op.path);
    if path == "" && verb in {"add", "replace"} then
      op.value.Some? && op.value.value.Object? &&
      exists i :: 0 <= i < |op.value.value.fields| &&
        var key := op.value.value.fields[i].0;
        Lower(key) !in reg && KeyOf(f, Lower(Trim(key)))
    else (path == "" || Lower(path) !in reg) && KeyOf(f, Lower(path))
  }

  lemma TargetExactly(path: string, f: Field)
    ensures f in Fields(TargetOf(path)) <==> KeyOf(f, Lower(Trim(path)))
  {
    EmailPathExactly(Lower(Trim(path)));
  }

  /** Every result about the columns an operation names is about these. */
  lemma NamesExactly(reg: Registry, op: Operation, f: Field)
    ensures Names(reg, op, f) <==> Mentions(reg, op, f)
  {
    TargetExactly(op.path, f);
    if op.value.Some? && op.value.value.Object? {
      forall i | 0 <= i < |op.value.value.fields|
        ensures f in Fields(TargetOf(op.value.value.fields[i].0))
                <==> KeyOf(f, Lower(Trim(op.value.value.fields[i].0)))
      {
        TargetExactly(op.value.value.fields[i].0, f);
      }
    }
  }

  ghost predicate Unmentioned(reg: Registry, ops: seq<Operation>, f: Field) {
    forall op | op in ops :: !Mentions(reg, op, f)
  }

  /** Which extended attributes an operation names: by its path or an attribute of its object, in any casing. */
  lemma NamesKeyExactly(reg: Registry, op: Operation, name: string)
    ensures var verb, path := Lower(Trim(op.op)), Trim(op.path);
            NamesKey(reg, op, name) <==>
              if path == "" then
                && verb in {"add", "replace"} && op.value.Some? && op.value.value.Object?
                && exists i :: 0 <= i < |op.value.value.fields|
                     && Lower(op.value.value.fields[i].0) in reg && reg[Lower(op.value.value.fields[i].0)] == name
              else Lower(path) in reg && reg[Lower(path)] == name
  {
    if Cut(op) {
      ExtFieldsNamed(reg, Verb(op), AsObject(op.value).value, name);
    } else if !Pathless(op) && Registered(reg, Trim(op.path)) {
      var o := ExtOp(Verb(op), reg[Lower(Trim(op.path))], OrNull(op.value));
      assert ExtOf(reg, op) == [o] && o in ExtOf(reg, op);
    }
  }

  lemma {:induction false} ExtFieldsNamed(reg: Registry, action: string, fields: seq<(string, Json)>, name: string)
    ensures (exists o :: o in ExtFields(reg, action, fields) && o.name == name) <==>
              exists i :: 0 <= i < |fields| && Lower(fields[i].0) in reg && reg[Lower(fields[i].0)] == name
  {
    if fields != [] {
      ExtFieldsNamed(reg, action, fields[1..], name);
      assert forall i :: 1 <= i < |fields| ==> fields[i] == fields[1..][i - 1];
      var rest := ExtFields(reg, action, fields[1..]);
      if Registered(reg, fields[0].0) {
        var o := ExtOp(action, reg[Lower(fields[0].0)], fields[0].1);
        assert forall x :: x in ExtFields(reg, action, fields) <==> x == o || x in rest;
        assert o in ExtFields(reg, action, fields);
      } else {
        assert ExtFields(reg, action, fields) == rest;
      }
      if i :| 0 <= i < |fields[1..]| && Lower(fields[1..][i].0) in reg && reg[Lower(fields[1..][i].0)] == name {
        assert fields[i + 1] == fields[1..][i];
      }
    }
  }

  // ---- What a list of operations stores ----

  /** What one operation of a list makes of the columns that none after it mentions. */
  lemma LastMention(reg: Registry, cols: Columns, before: seq<Operation>, op: Operation, after: seq<Operation>)
    returns (mid: ScimUser)
    requires Trim(op.path) != "" && Lower(Trim(op.path)) !in reg && PatchRow(reg, cols, before + [op] + after).Ok?
    ensures ApplyOne(mid, op).Ok?
    ensures forall f | Unmentioned(reg, after, f) ::
              SameField(PatchRow(reg, cols, before + [op] + after).value, View(ApplyOne(mid, op).value), f)
  {
    mid := LastWord(reg, cols, before, op, after);
    forall f | Unmentioned(reg, after, f) ensures forall o | o in after :: !Names(reg, o, f) {
      forall o | o in after ensures !Names(reg, o, f) {
        NamesExactly(reg, o, f);
      }
    }
  }

  /** A column holds what assigning `v` under a key gives it. */
  ghost predicate Holds(c: Columns, key: string, v: Option<Json>, f: Field) {
    match f
    case UserNameF => DecodeString(v).Some? && c.userName == Trim(DecodeString(v).value)
    case ExternalIdF => DecodeString(v).Some? && Column(c.externalId, DecodeString(v).value)
    case ActiveF => DecodeBool(v) == Some(c.active)
    case GivenF =>
      if key == "name" then DecodeName(v).Some? && Column(c.givenName, DecodeName(v).value.givenName)
      else DecodeString(v).Some? && Column(c.givenName, DecodeString(v).value)
    case FamilyF =>
      if key == "name" then DecodeName(v).Some? && Column(c.familyName, DecodeName(v).value.familyName)
      else DecodeString(v).Some? && Column(c.familyName, DecodeString(v).value)
    case EmailF => DecodeAddress(v).Some? && Column(c.email, DecodeAddress(v).value)
  }

  lemma SetPathHolds(u: ScimUser, path: string, v: Option<Json>, f: Field)
    requires SetPath(u, path, v).Ok? && KeyOf(f, Lower(Trim(path)))
    ensures Holds(View(SetPath(u, path, v).value), Lower(Trim(path)), v, f)
  {
    SetPathExactly(u, path, v);
    MapsExactly(SetPath(u, path, v).value, map[]);
    if f.EmailF? {
      PrimaryExactly([Email(DecodeAddress(v).value, true)]);
    }
  }

  lemma SameHolds(a: Columns, b: Columns, key: string, v: Option<Json>, f: Field)
    requires SameField(a, b, f)
    ensures Holds(a, key, v, f) <==> Holds(b, key, v, f)
  {
  }

  /**
   In any list, under any registry: what an operation assigns by its path to a column that none after it
   mentions is what the row holds, trimmed, and nothing when only white space is left.
   */
  lemma ReplaceIsStored(
    reg: Registry, cols: Columns, before: seq<Operation>, op: Operation, after: seq<Operation>, f: Field)
    requires Trim(op.path) != "" && Lower(Trim(op.path)) !in reg && Lower(Trim(op.op)) in {"add", "replace"}
    requires KeyOf(f, Lower(Trim(op.path))) && Unmentioned(reg, after, f)
    requires PatchRow(reg, cols, before + [op] + after).Ok?
    ensures Holds(PatchRow(reg, cols, before + [op] + after).value, Lower(Trim(op.path)), op.value, f)
  {
    var mid := LastMention(reg, cols, before, op, after);
    OperationExactly(mid, op);
    SetPathHolds(mid, op.path, op.value, f);
    SameHolds(PatchRow(reg, cols, before + [op] + after).value, View(ApplyOne(mid, op).value), Lower(Trim(op.path)),
              op.value, f);
  }

  /** The column as a removal leaves it. */
  ghost predicate Absent(c: Columns, f: Field) {
    match f
    case UserNameF => false
    case ExternalIdF => c.externalId == None
    case ActiveF => c.active
    case GivenF => c.givenName == None
    case FamilyF => c.familyName == None
    case EmailF => c.email == None
  }

  lemma ClearPathEmpties(u: ScimUser, path: string, f: Field)
    requires ClearPath(u, path).Ok? && KeyOf(f, Lower(Trim(path)))
    ensures Absent(View(ClearPath(u, path).value), f)
  {
    ClearPathExactly(u, path);
    MapsExactly(ClearPath(u, path).value, map[]);
    PrimaryExactly([]);
    assert Trim("") == "";
  }

  /**
   Likewise a column that is removed and not mentioned again is absent, and `active` is true. A list that
   removes userName last is never carried out.
   */
  lemma RemoveIsStored(
    reg: Registry, cols: Columns, before: seq<Operation>, op: Operation, after: seq<Operation>, f: Field)
    requires Trim(op.path) != "" && Lower(Trim(op.path)) !in reg && Lower(Trim(op.op)) == "remove"
    requires KeyOf(f, Lower(Trim(op.path))) && Unmentioned(reg, after, f)
    requires PatchRow(reg, cols, before + [op] + after).Ok?
    ensures Absent(PatchRow(reg, cols, before + [op] + after).value, f)
  {
    var mid := LastMention(reg, cols, before, op, after);
    OperationExactly(mid, op);
    ClearPathEmpties(mid, op.path, f);
    assert SameField(PatchRow(reg, cols, before + [op] + after).value, View(ApplyOne(mid, op).value), f);
  }

  /** The row is written when the operations apply and what they leave is valid, and is then what that maps to. */
  lemma PatchRowExactly(reg: Registry, cols: Columns, ops: seq<Operation>)
    ensures var made, r := Handle(reg, Record(FromColumns(cols), cols.extended), ops), PatchRow(reg, cols, ops);
            if made.Err? then r.Err? && r.error == made.error
            else if !Valid(made.value.user) then r == Err(InvalidValue)
            else r == Ok(ToColumns(made.value.user, made.value.blob))
  {
  }

  // ---- The same for extended attributes ----

  lemma {:induction false} ExtOpsConcat(reg: Registry, a: seq<Operation>, b: seq<Operation>)
    ensures ExtOps(reg, a + b) == ExtOps(reg, a) + ExtOps(reg, b)
    decreases |a|
  {
    if a == [] {
      assert a + b == b;
    } else if reg != map[] {
      assert (a + b)[1..] == a[1..] + b;
      ExtOpsConcat(reg, a[1..], b);
    }
  }

  lemma LastExtended(
    reg: Registry, cols: Columns, before: seq<Operation>, op: Operation, after: seq<Operation>, name: string)
    returns (mid: Blob)
    requires PatchRow(reg, cols, before + [op] + after).Ok? && reg != map[]
    requires forall o | o in after :: !NamesKey(reg, o, name)
    ensures SameKey(PatchRow(reg, cols, before + [op] + after).value.extended, FoldExt(mid, ExtOf(reg, op)), name)
  {
    mid := FoldExt(cols.extended, ExtOps(reg, before));
    ExtOpsConcat(reg, before + [op], after);
    ExtOpsConcat(reg, before, [op]);
    assert [op][1..] == [] && ExtOps(reg, [op]) == ExtOf(reg, op) + [] == ExtOf(reg, op);
    FoldExtConcat(cols.extended, ExtOps(reg, before) + ExtOf(reg, op), ExtOps(reg, after));
    FoldExtConcat(cols.extended, ExtOps(reg, before), ExtOf(reg, op));
    forall o | o in ExtOps(reg, after) ensures o.name != name {
      ExtOpsNamed(reg, after, o);
    }
    FoldExtFrame(FoldExt(mid, ExtOf(reg, op)), ExtOps(reg, after), name);
  }

  /** What the last operation on a registered attribute assigns is stored as it is, and what it removes is gone. */
  lemma ExtendedIsStored(
    reg: Registry, cols: Columns, before: seq<Operation>, op: Operation, after: seq<Operation>, name: string)
    requires Trim(op.path) != "" && Lower(Trim(op.path)) in reg && reg[Lower(Trim(op.path))] == name
    requires PatchRow(reg, cols, before + [op] + after).Ok? && forall o | o in after :: !NamesKey(reg, o, name)
    ensures var verb, blob := Lower(Trim(op.op)), PatchRow(reg, cols, before + [op] + after).value.extended;
            && (verb in {"add", "replace"} ==>
                  name in blob && blob[name] == if op.value.Some? then op.value.value else Null)
            && (verb == "remove" ==> name !in blob)
  {
    var mid := LastExtended(reg, cols, before, op, after, name);
    var o := ExtOp(Verb(op), name, OrNull(op.value));
    assert ExtOf(reg, op) == [o] && [o][1..] == [];
    assert FoldExt(mid, [o]) == FoldExt(ApplyExt(mid, o), []) == ApplyExt(mid, o);
  }

  lemma {:induction false} LastFieldWins(
    reg: Registry, blob: Blob, action: string, fields: seq<(string, Json)>, i: nat, name: string)
    requires action in {"add", "replace"} && i < |fields|
    requires Lower(fields[i].0) in reg && reg[Lower(fields[i].0)] == name
    requires forall j :: i < j < |fields| ==> !(Lower(fields[j].0) in reg && reg[Lower(fields[j].0)] == name)
    ensures var made := FoldExt(blob, ExtFields(reg, action, fields)); name in made && made[name] == fields[i].1
    decreases |fields|
  {
    var rest := ExtFields(reg, action, fields[1..]);
    assert forall j :: 1 <= j < |fields| ==> fields[j] == fields[1..][j - 1];
    if Registered(reg, fields[0].0) {
      var o := ExtOp(action, reg[Lower(fields[0].0)], fields[0].1);
      assert ExtFields(reg, action, fields) == [o] + rest && ([o] + rest)[1..] == rest;
      if i > 0 {
        LastFieldWins(reg, ApplyExt(blob, o), action, fields[1..], i - 1, name);
      } else {
        forall x | x in rest ensures x.name != name {
          ExtFieldsNamed(reg, action, fields[1..], x.name);
        }
        FoldExtFrame(ApplyExt(blob, o), rest, name);
      }
    } else {
      assert ExtFields(reg, action, fields) == rest;
      LastFieldWins(reg, blob, action, fields[1..], i - 1, name);
    }
  }

  /** And so is what an attribute of an object without a path assigns, the last of them that spells the name. */
  lemma ExtendedFieldIsStored(
    reg: Registry, cols: Columns, before: seq<Operation>, op: Operation, after: seq<Operation>,
    fields: seq<(string, Json)>, i: nat, name: string)
    requires Trim(op.path) == "" && Lower(Trim(op.op)) in {"add", "replace"} && op.value == Some(Object(fields))
    requires i < |fields| && Lower(fields[i].0) in reg && reg[Lower(fields[i].0)] == name
    requires forall j :: i < j < |fields| ==> !(Lower(fields[j].0) in reg && reg[Lower(fields[j].0)] == name)
    requires PatchRow(reg, cols, before + [op] + after).Ok? && forall o | o in after :: !NamesKey(reg, o, name)
    ensures var blob := PatchRow(reg, cols, before + [op] + after).value.extended;
            name in blob && blob[name] == fields[i].1
  {
    var mid := LastExtended(reg, cols, before, op, after, name);
    LastFieldWins(reg, mid, Verb(op), fields, i, name);
  }

  // ---- The two cases in which splitting a list shows ----

  lemma CutExtends(reg: Registry, action: string, fields: seq<(string, Json)>)
    requires fields != []
    ensures CoreFields(reg, fields) != [] || ExtFields(reg, action, fields) != []
  {
  }

  /** An operation disappears in the split when it assigns an empty object, or null, without a path. */
  lemma GoneExactly(reg: Registry, op: Operation)
    ensures CoreOf(reg, op) == [] && ExtOf(reg, op) == [] <==>
              && Lower(Trim(op.op)) in {"add", "replace"} && Trim(op.path) == ""
              && (op.value == Some(Object([])) || op.value == Some(Null))
  {
    if Cut(op) && AsObject(op.value).value != [] {
      CutExtends(reg, Verb(op), AsObject(op.value).value);
    }
  }

  lemma {:induction false} AllGone(reg: Registry, ops: seq<Operation>)
    requires reg != map[]
    ensures CoreOps(reg, ops) == [] && ExtOps(reg, ops) == [] <==>
              forall op | op in ops :: CoreOf(reg, op) == [] && ExtOf(reg, op) == []
    decreases |ops|
  {
    if ops != [] {
      AllGone(reg, ops[1..]);
      assert ops == [ops[0]] + ops[1..];
    }
  }

  /** A list disappears exactly when all its operations do, and some attribute is registered. */
  lemma VanishesExactly(reg: Registry, ops: seq<Operation>)
    ensures Vanishes(reg, ops) <==>
              && ops != [] && reg != map[]
              && forall op | op in ops ::
                   && Lower(Trim(op.op)) in {"add", "replace"} && Trim(op.path) == ""
                   && (op.value == Some(Object([])) || op.value == Some(Null))
  {
    if reg != map[] {
      AllGone(reg, ops);
      forall op | op in ops
        ensures CoreOf(reg, op) == [] && ExtOf(reg, op) == [] <==>
          && Lower(Trim(op.op)) in {"add", "replace"} && Trim(op.path) == ""
          && (op.value == Some(Object([])) || op.value == Some(Null))
      {
        GoneExactly(reg, op);
      }
    }
  }

  /** An action goes unread exactly when it is none of the three and points at a registered attribute. */
  lemma MuteExactly(reg: Registry, ops: seq<Operation>)
    ensures Mute(reg, ops) <==>
              exists i :: 0 <= i < |ops|
                && Lower(Trim(ops[i].op)) !in {"add", "replace", "remove"}
                && Trim(ops[i].path) != "" && Lower(Trim(ops[i].path)) in reg
  {
    forall i | 0 <= i < |ops|
      ensures Silent(reg, ops[i]) <==>
        && Lower(Trim(ops[i].op)) !in {"add", "replace", "remove"}
        && Trim(ops[i].path) != "" && Lower(Trim(ops[i].path)) in reg
    {
    }
  }

  /** One operation of the reference on a registered path: the attribute of that name is set or taken out. */
  lemma ReferenceExactly(reg: Registry, rec: Record, op: Operation)
    ensures var verb, path, r := Lower(Trim(op.op)), Trim(op.path), RefOne(reg, rec, op);
            if path != "" && Lower(path) in reg then
              var name := reg[Lower(path)];
              if verb in {"add", "replace"} then
                r == Ok(Record(rec.user, rec.blob[name := if op.value.Some? then op.value.value else Null]))
              else if verb == "remove" then r == Ok(Record(rec.user, rec.blob - {name}))
              else r == Err(InvalidValue)
            else if path == "" && verb in {"add", "replace"} && op.value.Some? && op.value.value.Object? then
              r == RefFields(reg, rec, op.value.value.fields)
            else
              var made := ApplyOne(rec.user, op);
              if made.Ok? then r == Ok(Record(made.value, rec.blob)) else r.Err? && r.error == made.error
  {
  }

  /** Its attributes without a path, one by one. */
  lemma ReferenceFieldsExactly(reg: Registry, rec: Record, field: (string, Json), fields: seq<(string, Json)>)
    ensures RefFields(reg, rec, []) == Ok(rec)
    ensures var made := SetPath(rec.user, field.0, Some(field.1));
            RefFields(reg, rec, [field] + fields) ==
              if Lower(field.0) in reg then
                RefFields(reg, Record(rec.user, rec.blob[reg[Lower(field.0)] := field.1]), fields)
              else if made.Ok? then RefFields(reg, Record(made.value, rec.blob), fields)
              else Err(made.error)
  {
    assert ([field] + fields)[0] == field && ([field] + fields)[1..] == fields;
  }
}
