/** SCIM PATCH on groups: members are multi-valued, so add, replace and remove are set operations. */
module GroupPatch {
  import opened Text
  import opened Entities
  import opened Ordering
  import opened Scim
  import opened Patch

  /** The client-writable part of a group; a member is its id. */
  datatype ScimGroup = ScimGroup(schemas: seq<string>, displayName: string, externalId: string, members: seq<string>)

  const GROUP_SCHEMA := "urn:ietf:params:scim:schemas:core:2.0:Group"

  // ---- Decoding member values ----

  /** Keeps `value`; the other fields of a member must still be strings. */
  function MemberFields(value: string, fields: seq<(string, Json)>): Option<string>
    decreases |fields|
  {
    if fields == [] then Some(value)
    else
      var (k, v) := fields[0];
      if Lower(k) !in {"value", "$ref", "display"} || v.Null? then MemberFields(value, fields[1..])
      else if !v.Str? then None
      else MemberFields(if Lower(k) == "value" then v.s else value, fields[1..])
  }

  function DecodeMember(v: Json): Option<string> {
    if v.Object? then MemberFields("", v.fields)
    else if v.Null? then Some("")
    else None
  }

  function DecodeMembers(items: seq<Json>): Option<seq<string>> {
    if items == [] then Some([])
    else
      match (DecodeMember(items[0]), DecodeMembers(items[1..]))
      case (Some(m), Some(rest)) => Some([m] + rest)
      case _ => None
  }

  function Present(values: seq<string>): seq<string> {
    if values == [] then []
    else Present(values[..|values| - 1]) + (if values[|values| - 1] == "" then [] else [values[|values| - 1]])
  }

  /** One member object, an array of them, or a bare id. An empty array and an array of bare ids are errors. */
  function DecodeMemberValues(v: Option<Json>): Option<seq<string>> {
    if v.None? then None
    else if DecodeMember(v.value).Some? && DecodeMember(v.value).value != "" then Some([DecodeMember(v.value).value])
    else if v.value.Array? && v.value.items != [] && DecodeMembers(v.value.items).Some? then
      Some(Present(DecodeMembers(v.value.items).value))
    else if v.value.Str? && v.value.s != "" then Some([v.value.s])
    else None
  }

  lemma {:induction false} MembersDecode(items: seq<Json>)
    ensures DecodeMembers(items).Some? <==> forall i :: 0 <= i < |items| ==> DecodeMember(items[i]).Some?
  {
    if items != [] {
      MembersDecode(items[1..]);
      assert forall i :: 0 < i < |items| ==> items[i] == items[1..][i - 1];
    }
  }

  /** An array is accepted exactly when it is not empty and every item is a member object or null. */
  lemma ArrayDecodes(items: seq<Json>)
    ensures DecodeMemberValues(Some(Array(items))).Some? <==>
              items != [] && forall i :: 0 <= i < |items| ==> DecodeMember(items[i]).Some?
  {
    MembersDecode(items);
  }

  /** So the empty array is refused, and so is any array that holds a bare id. */
  lemma BareIdsRefused(items: seq<Json>, i: nat)
    requires items == [] || (i < |items| && items[i].Str?)
    ensures DecodeMemberValues(Some(Array(items))).None?
  {
    ArrayDecodes(items);
  }

  // ---- Paths ----

  predicate FilterSpace(c: char) {
    c in {' ', '\t', '\n', '\r', '\U{0C}'}
  }

  function SkipSpace(s: string): string {
    if s != "" && FilterSpace(s[0]) then SkipSpace(s[1..]) else s
  }

  /** What follows a keyword, matched in any casing. */
  function AfterWord(s: string, word: string): Option<string> {
    if |s| >= |word| && Lower(s[..|word|]) == word then Some(s[|word|..]) else None
  }

  /** After at least one space. */
  function Spaced(s: string): Option<string> {
    if s != "" && FilterSpace(s[0]) then Some(SkipSpace(s)) else None
  }

  /** The longest prefix without a quote or a closing bracket, and the rest. */
  function Operand(s: string): (r: (string, string))
    ensures s == r.0 + r.1
  {
    if s == "" || s[0] == '"' || s[0] == ']' then ("", s)
    else var (a, b) := Operand(s[1..]); ([s[0]] + a, b)
  }

  function SkipQuote(s: string): string {
    if s != "" && s[0] == '"' then s[1..] else s
  }

  /** The id in `members[value eq "id"]`, with its casing kept. */
  function FilteredMemberValue(path: string): Option<string> {
    match AfterWord(path, "members[")
    case None => None
    case Some(s) =>
      match AfterWord(SkipSpace(s), "value")
      case None => None
      case Some(s) =>
        match Spaced(s)
        case None => None
        case Some(s) =>
          match AfterWord(s, "eq")
          case None => None
          case Some(s) =>
            match Spaced(s)
            case None => None
            case Some(s) =>
              var (id, rest) := Operand(SkipQuote(s));
              if SkipSpace(SkipQuote(rest)) == "]" then Some(id) else None
  }

  predicate ClosedOnce(s: string) {
    s != "" && (if s[0] == ']' then |s| == 1 else ClosedOnce(s[1..]))
  }

  predicate IsMembersPath(key: string) {
    |key| >= 7 && key[..7] == "members" && (|key| == 7 || (key[7] == '[' && ClosedOnce(key[8..])))
  }

  datatype GroupTarget = DisplayName | ExternalId | Members | Elsewhere

  function GroupTargetOf(path: string): GroupTarget {
    var key := Lower(Trim(path));
    if key == "displayname" then DisplayName
    else if key == "externalid" then ExternalId
    else if IsMembersPath(key) then Members
    else Elsewhere
  }

  // ---- Operations ----

  /** Appends each value not yet present. */
  function Added(members: seq<string>, values: seq<string>): seq<string> {
    if values == [] then members
    else
      var sofar, v := Added(members, values[..|values| - 1]), values[|values| - 1];
      if v in sofar then sofar else sofar + [v]
  }

  function Removed(members: seq<string>, value: string): seq<string> {
    if members == [] then []
    else
      var n := |members| - 1;
      Removed(members[..n], value) + (if members[n] == value then [] else [members[n]])
  }

  function SetGroupPath(g: ScimGroup, path: string, v: Option<Json>, isAdd: bool): Result<ScimGroup> {
    match GroupTargetOf(path)
    case DisplayName =>
      (match DecodeString(v) case Some(s) => Ok(g.(displayName := s)) case None => Err(InvalidValue))
    case ExternalId =>
      (match DecodeString(v) case Some(s) => Ok(g.(externalId := s)) case None => Err(InvalidValue))
    case Members =>
      (match DecodeMemberValues(v)
       case Some(values) => Ok(g.(members := if isAdd then Added(g.members, values) else values))
       case None => Err(InvalidValue))
    case Elsewhere => Err(InvalidPath)
  }

  function SetGroupFields(g: ScimGroup, fields: seq<(string, Json)>, isAdd: bool): Result<ScimGroup>
    decreases |fields|
  {
    if fields == [] then Ok(g)
    else
      match SetGroupPath(g, fields[0].0, Some(fields[0].1), isAdd)
      case Ok(g') => SetGroupFields(g', fields[1..], isAdd)
      case Err(e) => Err(e)
  }

  function ClearGroupPath(g: ScimGroup, path: string): Result<ScimGroup> {
    var key := Lower(Trim(path));
    if key == "" then Err(InvalidValue)
    else if key == "externalid" then Ok(g.(externalId := ""))
    else if key == "members" then Ok(g.(members := []))
    else if IsMembersPath(key) && FilteredMemberValue(Trim(path)).Some? then
      Ok(g.(members := Removed(g.members, FilteredMemberValue(Trim(path)).value)))
    else Err(InvalidPath)
  }

  function GroupOne(g: ScimGroup, op: Operation): Result<ScimGroup> {
    if Assigns(op) then
      if Pathless(op) then
        match AsObject(op.value)
        case Some(fields) => SetGroupFields(g, fields, Verb(op) == "add")
        case None => Err(InvalidValue)
      else SetGroupPath(g, op.path, op.value, Verb(op) == "add")
    else if Verb(op) == "remove" then ClearGroupPath(g, op.path)
    else Err(InvalidValue)
  }

  function GroupFold(g: ScimGroup, ops: seq<Operation>): Result<ScimGroup>
    decreases |ops|
  {
    if ops == [] then Ok(g)
    else
      match GroupOne(g, ops[0])
      case Ok(g') => GroupFold(g', ops[1..])
      case Err(e) => Err(e)
  }

  function PatchedGroup(g: ScimGroup, ops: seq<Operation>): Result<ScimGroup> {
    if ops == [] then Err(InvalidValue) else GroupFold(g, ops)
  }

  // ---- The loops ----

  /** Adding, with a `seen` set beside the growing list. */
  method AddMembers(members: seq<string>, values: seq<string>) returns (out: seq<string>)
    ensures out == Added(members, values)
    ensures Elements(out) == Elements(members) + Elements(values)
  {
    var seen: set<string> := {};
    for i := 0 to |members|
      invariant forall s :: s in seen <==> s in members[..i]
    {
      seen := seen + {members[i]};
    }
    out := members;
    for i := 0 to |values|
      invariant out == Added(members, values[..i])
      invariant forall s :: s in seen <==> s in out
    {
      assert values[..i + 1][..i] == values[..i];
      if values[i] !in seen {
        seen := seen + {values[i]};
        out := out + [values[i]];
      }
    }
    assert values[..|values|] == values;
    AddedIsUnion(members, values);
  }

  method RemoveMember(members: seq<string>, value: string) returns (out: seq<string>)
    ensures out == Removed(members, value)
    ensures Elements(out) == Elements(members) - {value}
  {
    out := [];
    for i := 0 to |members|
      invariant out == Removed(members[..i], value)
    {
      assert members[..i + 1][..i] == members[..i];
      if members[i] != value {
        out := out + [members[i]];
      }
    }
    assert members[..|members|] == members;
    RemovedIsDifference(members, value);
  }

  /** One attribute; members go through the loop above. */
  method SetGroupAttribute(g: ScimGroup, path: string, v: Option<Json>, isAdd: bool) returns (r: Result<ScimGroup>)
    ensures r == SetGroupPath(g, path, v, isAdd)
  {
    if GroupTargetOf(path).Members? {
      var values := DecodeMemberValues(v);
      if values.None? {
        return Err(InvalidValue);
      }
      if !isAdd {
        return Ok(g.(members := values.value));
      }
      var members := AddMembers(g.members, values.value);
      return Ok(g.(members := members));
    }
    r := SetGroupPath(g, path, v, isAdd);
  }

  method ClearGroupAttribute(g: ScimGroup, path: string) returns (r: Result<ScimGroup>)
    ensures r == ClearGroupPath(g, path)
  {
    var trimmed := Trim(path);
    var key := Lower(trimmed);
    if key != "" && key != "externalid" && key != "members" && IsMembersPath(key) {
      var value := FilteredMemberValue(trimmed);
      if value.None? {
        return Err(InvalidPath);
      }
      var members := RemoveMember(g.members, value.value);
      return Ok(g.(members := members));
    }
    r := ClearGroupPath(g, path);
  }

  method SetGroupAttributes(g: ScimGroup, fields: seq<(string, Json)>, isAdd: bool) returns (r: Result<ScimGroup>)
    ensures r == SetGroupFields(g, fields, isAdd)
  {
    var current := g;
    for i := 0 to |fields|
      invariant SetGroupFields(g, fields, isAdd) == SetGroupFields(current, fields[i..], isAdd)
    {
      assert fields[i..][1..] == fields[i + 1..];
      var next := SetGroupAttribute(current, fields[i].0, Some(fields[i].1), isAdd);
      if next.Err? {
        return next;
      }
      current := next.value;
    }
    r := Ok(current);
  }

  method ApplyGroupPatch(g: ScimGroup, ops: seq<Operation>) returns (r: Result<ScimGroup>)
    ensures r == PatchedGroup(g, ops)
  {
    if |ops| == 0 {
      return Err(InvalidValue);
    }
    var current := g;
    for i := 0 to |ops|
      invariant GroupFold(g, ops) == GroupFold(current, ops[i..])
    {
      assert ops[i..][1..] == ops[i + 1..];
      var op := ops[i];
      var next: Result<ScimGroup>;
      if Assigns(op) {
        if Pathless(op) {
          var attrs := AsObject(op.value);
          if attrs.None? {
            return Err(InvalidValue);
          }
          next := SetGroupAttributes(current, attrs.value, Verb(op) == "add");
        } else {
          next := SetGroupAttribute(current, op.path, op.value, Verb(op) == "add");
        }
      } else if Verb(op) == "remove" {
        next := ClearGroupAttribute(current, op.path);
      } else {
        next := Err(InvalidValue);
      }
      if next.Err? {
        return next;
      }
      current := next.value;
    }
    r := Ok(current);
  }

  // ---- Set algebra ----

  datatype Effect<T> = Union(ids: set<T>) | Overwrite(ids: set<T>) | Difference(ids: set<T>)

  function Take<T>(s: set<T>, e: Effect<T>): set<T> {
    match e
    case Union(ids) => s + ids
    case Overwrite(ids) => ids
    case Difference(ids) => s - ids
  }

  function TakeAll<T>(s: set<T>, effects: seq<Effect<T>>): set<T>
    decreases |effects|
  {
    if effects == [] then s else TakeAll(Take(s, effects[0]), effects[1..])
  }

  lemma TakeOne<T>(s: set<T>, e: Effect<T>)
    ensures TakeAll(s, [e]) == Take(s, e)
  {
    assert [e][1..] == [];
  }

  lemma {:induction false} TakeConcat<T>(s: set<T>, a: seq<Effect<T>>, b: seq<Effect<T>>)
    ensures TakeAll(s, a + b) == TakeAll(TakeAll(s, a), b)
    decreases |a|
  {
    if a == [] {
      assert a + b == b;
    } else {
      assert (a + b)[1..] == a[1..] + b;
      TakeConcat(Take(s, a[0]), a[1..], b);
    }
  }

  /** What setting one attribute does to the member set. */
  function SetEffect(path: string, v: Option<Json>, isAdd: bool): seq<Effect<string>> {
    if GroupTargetOf(path).Members? && DecodeMemberValues(v).Some? then
      var ids := Elements(DecodeMemberValues(v).value);
      [if isAdd then Union(ids) else Overwrite(ids)]
    else []
  }

  function FieldEffects(fields: seq<(string, Json)>, isAdd: bool): seq<Effect<string>> {
    if fields == [] then []
    else SetEffect(fields[0].0, Some(fields[0].1), isAdd) + FieldEffects(fields[1..], isAdd)
  }

  /** What one operation does to the member set, read off the operation alone. */
  function EffectsOf(op: Operation): seq<Effect<string>> {
    if Assigns(op) then
      if !Pathless(op) then SetEffect(op.path, op.value, Verb(op) == "add")
      else if AsObject(op.value).Some? then FieldEffects(AsObject(op.value).value, Verb(op) == "add")
      else []
    else
      var key := Lower(Trim(op.path));
      if key == "members" then [Overwrite({})]
      else if IsMembersPath(key) && FilteredMemberValue(Trim(op.path)).Some? then
        [Difference({FilteredMemberValue(Trim(op.path)).value})]
      else []
  }

  function AllEffects(ops: seq<Operation>): seq<Effect<string>> {
    if ops == [] then [] else EffectsOf(ops[0]) + AllEffects(ops[1..])
  }

  lemma {:induction false} AddedIsUnion(members: seq<string>, values: seq<string>)
    ensures Elements(Added(members, values)) == Elements(members) + Elements(values)
  {
    if values != [] {
      var n := |values| - 1;
      AddedIsUnion(members, values[..n]);
      assert values == values[..n] + [values[n]];
      assert Elements(values) == Elements(values[..n]) + {values[n]};
      assert Elements(Added(members, values)) == Elements(Added(members, values[..n])) + {values[n]};
    } else {
      assert Elements(values) == {};
    }
  }

  lemma {:induction false} RemovedIsDifference(members: seq<string>, value: string)
    ensures Elements(Removed(members, value)) == Elements(members) - {value}
  {
    if members != [] {
      var n := |members| - 1;
      RemovedIsDifference(members[..n], value);
      assert members == members[..n] + [members[n]];
      assert Elements(members) == Elements(members[..n]) + {members[n]};
      var front := Removed(members[..n], value);
      assert Elements(front + [members[n]]) == Elements(front) + {members[n]};
      assert front + [] == front;
    }
  }

  lemma SetPathEffect(g: ScimGroup, path: string, v: Option<Json>, isAdd: bool)
    requires SetGroupPath(g, path, v, isAdd).Ok?
    ensures Elements(SetGroupPath(g, path, v, isAdd).value.members)
        == TakeAll(Elements(g.members), SetEffect(path, v, isAdd))
  {
    if GroupTargetOf(path).Members? {
      AddedIsUnion(g.members, DecodeMemberValues(v).value);
      var e := SetEffect(path, v, isAdd);
      assert e == [e[0]] && e[1..] == [];
    }
  }

  lemma {:induction false} FieldsEffect(g: ScimGroup, fields: seq<(string, Json)>, isAdd: bool)
    requires SetGroupFields(g, fields, isAdd).Ok?
    ensures Elements(SetGroupFields(g, fields, isAdd).value.members)
         == TakeAll(Elements(g.members), FieldEffects(fields, isAdd))
    decreases |fields|
  {
    if fields != [] {
      var v := Some(fields[0].1);
      var g' := SetGroupPath(g, fields[0].0, v, isAdd).value;
      SetPathEffect(g, fields[0].0, v, isAdd);
      FieldsEffect(g', fields[1..], isAdd);
      TakeConcat(Elements(g.members), SetEffect(fields[0].0, v, isAdd), FieldEffects(fields[1..], isAdd));
    }
  }

  lemma OneEffect(g: ScimGroup, op: Operation)
    requires GroupOne(g, op).Ok?
    ensures Elements(GroupOne(g, op).value.members) == TakeAll(Elements(g.members), EffectsOf(op))
  {
    if Assigns(op) {
      if Pathless(op) {
        FieldsEffect(g, AsObject(op.value).value, Verb(op) == "add");
      } else {
        SetPathEffect(g, op.path, op.value, Verb(op) == "add");
      }
    } else {
      var e := EffectsOf(op);
      if e != [] {
        assert e == [e[0]] && e[1..] == [];
        assert TakeAll(Elements(g.members), e) == Take(Elements(g.members), e[0]);
      }
      if FilteredMemberValue(Trim(op.path)).Some? {
        RemovedIsDifference(g.members, FilteredMemberValue(Trim(op.path)).value);
      }
      assert IsMembersPath("members") && !IsMembersPath("externalid");
    }
  }

  /** The ids left by a list of operations are the old ids through union, overwrite and difference in turn. */
  lemma {:induction false} FoldIsSetAlgebra(g: ScimGroup, ops: seq<Operation>)
    requires GroupFold(g, ops).Ok?
    ensures Elements(GroupFold(g, ops).value.members) == TakeAll(Elements(g.members), AllEffects(ops))
    decreases |ops|
  {
    if ops != [] {
      var g' := GroupOne(g, ops[0]).value;
      OneEffect(g, ops[0]);
      FoldIsSetAlgebra(g', ops[1..]);
      TakeConcat(Elements(g.members), EffectsOf(ops[0]), AllEffects(ops[1..]));
    }
  }

  lemma {:induction false} AddedKeeps(members: seq<string>, values: seq<string>)
    requires Elements(values) <= Elements(members)
    ensures Added(members, values) == members
  {
    if values != [] {
      var n := |values| - 1;
      assert values[n] in Elements(values) && forall s | s in values[..n] :: s in Elements(values);
      AddedKeeps(members, values[..n]);
    }
  }

  /** Repeating an add of members changes nothing, not even their order. */
  lemma AddTwiceIsAddOnce(g: ScimGroup, path: string, v: Option<Json>)
    requires GroupTargetOf(path).Members? && SetGroupPath(g, path, v, true).Ok?
    ensures var once := SetGroupPath(g, path, v, true).value;
            SetGroupPath(once, path, v, true) == Ok(once)
  {
    var values := DecodeMemberValues(v).value;
    AddedIsUnion(g.members, values);
    AddedKeeps(Added(g.members, values), values);
  }

  // ---- What a list of operations leaves alone ----

  /** The operation names an attribute of the group. */
  ghost predicate Targets(op: Operation, t: GroupTarget) {
    if Assigns(op) && Pathless(op) then
      AsObject(op.value).Some? &&
      exists i :: 0 <= i < |AsObject(op.value).value| && GroupTargetOf(AsObject(op.value).value[i].0) == t
    else GroupTargetOf(op.path) == t
  }

  predicate SameAttribute(a: ScimGroup, b: ScimGroup, t: GroupTarget) {
    match t
    case DisplayName => a.displayName == b.displayName
    case ExternalId => a.externalId == b.externalId
    case Members => a.members == b.members
    case Elsewhere => a.schemas == b.schemas
  }

  lemma {:induction false} FieldsKeep(g: ScimGroup, fields: seq<(string, Json)>, isAdd: bool, t: GroupTarget)
    requires SetGroupFields(g, fields, isAdd).Ok?
    requires forall i :: 0 <= i < |fields| ==> GroupTargetOf(fields[i].0) != t
    ensures SameAttribute(SetGroupFields(g, fields, isAdd).value, g, t)
    decreases |fields|
  {
    if fields != [] {
      FieldsKeep(SetGroupPath(g, fields[0].0, Some(fields[0].1), isAdd).value, fields[1..], isAdd, t);
    }
  }

  lemma OneKeeps(g: ScimGroup, op: Operation, t: GroupTarget)
    requires GroupOne(g, op).Ok? && !Targets(op, t)
    ensures SameAttribute(GroupOne(g, op).value, g, t)
  {
    if Assigns(op) && Pathless(op) {
      FieldsKeep(g, AsObject(op.value).value, Verb(op) == "add", t);
    }
  }

  /** An attribute no operation names keeps its value. */
  lemma {:induction false} FoldKeeps(g: ScimGroup, ops: seq<Operation>, t: GroupTarget)
    requires GroupFold(g, ops).Ok? && forall op | op in ops :: !Targets(op, t)
    ensures SameAttribute(GroupFold(g, ops).value, g, t)
    decreases |ops|
  {
    if ops != [] {
      assert ops[0] in ops && forall op | op in ops[1..] :: op in ops;
      OneKeeps(g, ops[0], t);
      FoldKeeps(GroupOne(g, ops[0]).value, ops[1..], t);
    }
  }

  lemma {:induction false} NoFieldEffects(fields: seq<(string, Json)>, isAdd: bool)
    requires forall i :: 0 <= i < |fields| ==> !GroupTargetOf(fields[i].0).Members?
    ensures FieldEffects(fields, isAdd) == []
  {
    if fields != [] {
      NoFieldEffects(fields[1..], isAdd);
    }
  }

  lemma NoEffect(op: Operation)
    requires !Targets(op, Members)
    ensures EffectsOf(op) == []
  {
    if Assigns(op) && Pathless(op) && AsObject(op.value).Some? {
      NoFieldEffects(AsObject(op.value).value, Verb(op) == "add");
    }
  }

  lemma {:induction false} NoEffects(ops: seq<Operation>)
    requires forall op | op in ops :: !Targets(op, Members)
    ensures AllEffects(ops) == []
  {
    if ops != [] {
      assert ops[0] in ops && forall o | o in ops[1..] :: o in ops;
      NoEffect(ops[0]);
      NoEffects(ops[1..]);
    }
  }
}
