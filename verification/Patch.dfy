/** SCIM PATCH on the core user attributes, section 3.5.2 of RFC 7644. */
module Patch {
  import opened Text
  import opened Entities
  import opened Scim

  datatype Operation = Operation(op: string, path: string, value: Option<Json>)

  datatype PatchError = InvalidPath | InvalidValue

  datatype Result<+T> = Ok(value: T) | Err(error: PatchError)

  datatype Target = ToUserName | ToExternalId | ToActive | ToGiven | ToFamily | ToName | ToEmail | Unsupported

  predicate ValueSuffix(s: string) {
    s == "" || s == ".value"
  }

  /** `[...]` up to the first closing bracket, then the optional suffix. */
  predicate FilterThenSuffix(s: string)
    requires s != ""
    decreases |s|
  {
    if s[0] == ']' then ValueSuffix(s[1..]) else |s| > 1 && FilterThenSuffix(s[1..])
  }

  /** emails, emails.value and their filtered forms: one address is stored, so all name the same field. */
  predicate IsEmailPath(key: string) {
    && |key| >= 6 && key[..6] == "emails"
    && (ValueSuffix(key[6..]) || (key[6..] != "" && key[6] == '[' && |key| > 7 && FilterThenSuffix(key[7..])))
  }

  function TargetOf(path: string): Target {
    var key := Lower(Trim(path));
    if key == "username" then ToUserName
    else if key == "externalid" then ToExternalId
    else if key == "active" then ToActive
    else if key == "name.givenname" then ToGiven
    else if key == "name.familyname" then ToFamily
    else if key == "name" then ToName
    else if IsEmailPath(key) then ToEmail
    else Unsupported
  }

  function OrBlank(n: Option<Name>): Name {
    if n.Some? then n.value else Name("", "")
  }

  /** An address as a bare string, one object or an array of them. */
  function DecodeAddress(v: Option<Json>): Option<string> {
    if DecodeString(v).Some? then DecodeString(v)
    else if v.Some? && DecodeEmail(v.value).Some? && DecodeEmail(v.value).value.value != "" then
      Some(DecodeEmail(v.value).value.value)
    else if v.Some? && v.value.Array? && v.value.items != [] && DecodeEmails(v.value.items).Some? then
      Some(PrimaryEmail(DecodeEmails(v.value.items).value))
    else None
  }

  /** The value decodes to what the target holds. */
  predicate Fitting(t: Target, v: Option<Json>) {
    match t
    case ToActive => DecodeBool(v).Some?
    case ToName => DecodeName(v).Some?
    case ToEmail => DecodeAddress(v).Some?
    case Unsupported => false
    case _ => DecodeString(v).Some?
  }

  function Assign(u: ScimUser, t: Target, v: Option<Json>): ScimUser
    requires Fitting(t, v)
  {
    match t
    case ToUserName => u.(userName := DecodeString(v).value)
    case ToExternalId => u.(externalId := DecodeString(v).value)
    case ToActive => u.(active := Some(DecodeBool(v).value))
    case ToGiven => u.(name := Some(OrBlank(u.name).(givenName := DecodeString(v).value)))
    case ToFamily => u.(name := Some(OrBlank(u.name).(familyName := DecodeString(v).value)))
    case ToName => u.(name := Some(DecodeName(v).value))
    case ToEmail => u.(emails := [Email(DecodeAddress(v).value, true)])
  }

  function SetPath(u: ScimUser, path: string, v: Option<Json>): Result<ScimUser> {
    var t := TargetOf(path);
    if Fitting(t, v) then Ok(Assign(u, t, v))
    else if t.Unsupported? then Err(InvalidPath)
    else Err(InvalidValue)
  }

  function Clear(u: ScimUser, t: Target): Result<ScimUser> {
    match t
    case ToExternalId => Ok(u.(externalId := ""))
    case ToGiven => Ok(if u.name.Some? then u.(name := Some(u.name.value.(givenName := ""))) else u)
    case ToFamily => Ok(if u.name.Some? then u.(name := Some(u.name.value.(familyName := ""))) else u)
    case ToName => Ok(u.(name := None))
    case ToActive => Ok(u.(active := Some(true)))
    case ToEmail => Ok(u.(emails := []))
    case ToUserName => Err(InvalidPath)
    case Unsupported => Err(InvalidPath)
  }

  function ClearPath(u: ScimUser, path: string): Result<ScimUser> {
    if Trim(path) == "" then Err(InvalidValue) else Clear(u, TargetOf(path))
  }

  function SetAll(u: ScimUser, fields: seq<(string, Json)>): Result<ScimUser>
    decreases |fields|
  {
    if fields == [] then Ok(u)
    else
      match SetPath(u, fields[0].0, Some(fields[0].1))
      case Ok(u') => SetAll(u', fields[1..])
      case Err(e) => Err(e)
  }

  function Verb(op: Operation): string {
    Lower(Trim(op.op))
  }

  predicate Assigns(op: Operation) {
    Verb(op) == "add" || Verb(op) == "replace"
  }

  predicate Pathless(op: Operation) {
    Trim(op.path) == ""
  }

  function ApplyOne(u: ScimUser, op: Operation): Result<ScimUser> {
    if Assigns(op) then
      if Pathless(op) then
        match AsObject(op.value)
        case Some(fields) => SetAll(u, fields)
        case None => Err(InvalidValue)
      else SetPath(u, op.path, op.value)
    else if Verb(op) == "remove" then ClearPath(u, op.path)
    else Err(InvalidValue)
  }

  function Fold(u: ScimUser, ops: seq<Operation>): Result<ScimUser>
    decreases |ops|
  {
    if ops == [] then Ok(u)
    else
      match ApplyOne(u, ops[0])
      case Ok(u') => Fold(u', ops[1..])
      case Err(e) => Err(e)
  }

  function Patched(u: ScimUser, ops: seq<Operation>): Result<ScimUser> {
    if ops == [] then Err(InvalidValue) else Fold(u, ops)
  }

  /** The loop over a pathless value's attributes, in whatever order the map is visited. */
  method SetAttributes(u: ScimUser, fields: seq<(string, Json)>) returns (r: Result<ScimUser>)
    ensures r == SetAll(u, fields)
  {
    var current := u;
    for i := 0 to |fields|
      invariant SetAll(u, fields) == SetAll(current, fields[i..])
    {
      assert fields[i..][1..] == fields[i + 1..];
      var next := SetPath(current, fields[i].0, Some(fields[i].1));
      if next.Err? {
        return next;
      }
      current := next.value;
    }
    r := Ok(current);
  }

  /** The loop over the operations, each folded onto the result of the one before. */
  method ApplyPatch(u: ScimUser, ops: seq<Operation>) returns (r: Result<ScimUser>)
    ensures r == Patched(u, ops)
  {
    if |ops| == 0 {
      return Err(InvalidValue);
    }
    var current := u;
    for i := 0 to |ops|
      invariant Fold(u, ops) == Fold(current, ops[i..])
    {
      assert ops[i..][1..] == ops[i + 1..];
      var op := ops[i];
      var next: Result<ScimUser>;
      if Assigns(op) {
        if Pathless(op) {
          var attrs := AsObject(op.value);
          if attrs.None? {
            return Err(InvalidValue);
          }
          next := SetAttributes(current, attrs.value);
        } else {
          next := SetPath(current, op.path, op.value);
        }
      } else if Verb(op) == "remove" {
        next := ClearPath(current, op.path);
      } else {
        next := Err(InvalidValue);
      }
      if next.Err? {
        return next;
      }
      current := next.value;
    }
    r := Ok(current);
  }

  lemma {:induction false} FoldConcat(u: ScimUser, a: seq<Operation>, b: seq<Operation>)
    ensures Fold(u, a + b) == (match Fold(u, a) case Ok(u') => Fold(u', b) case Err(e) => Err(e))
    decreases |a|
  {
    if a == [] {
      assert a + b == b;
    } else {
      assert (a + b)[1..] == a[1..] + b;
      match ApplyOne(u, a[0])
      case Ok(u') => FoldConcat(u', a[1..], b);
      case Err(_) =>
    }
  }

  // ---- The order in which a pathless object's attributes are visited ----

  datatype Field = UserNameF | ExternalIdF | ActiveF | GivenF | FamilyF | EmailF

  function Fields(t: Target): set<Field> {
    match t
    case ToUserName => {UserNameF}
    case ToExternalId => {ExternalIdF}
    case ToActive => {ActiveF}
    case ToGiven => {GivenF}
    case ToFamily => {FamilyF}
    case ToName => {GivenF, FamilyF}
    case ToEmail => {EmailF}
    case Unsupported => {}
  }

  ghost predicate Separate(fields: seq<(string, Json)>) {
    forall i, j :: 0 <= i < j < |fields| ==> Fields(TargetOf(fields[i].0)) !! Fields(TargetOf(fields[j].0))
  }

  /** Both fail, or both succeed with the same record. */
  predicate Same<T(==)>(a: Result<T>, b: Result<T>) {
    (a.Err? && b.Err?) || a == b
  }

  lemma PairCommutes(u: ScimUser, a: (string, Json), b: (string, Json))
    requires Fields(TargetOf(a.0)) !! Fields(TargetOf(b.0))
    ensures Same(SetAll(u, [a, b]), SetAll(u, [b, a]))
  {
  }

  lemma {:induction false} SetAllConcat(u: ScimUser, a: seq<(string, Json)>, b: seq<(string, Json)>)
    ensures SetAll(u, a + b) == (match SetAll(u, a) case Ok(u') => SetAll(u', b) case Err(e) => Err(e))
    decreases |a|
  {
    if a == [] {
      assert a + b == b;
    } else {
      assert (a + b)[1..] == a[1..] + b;
      match SetPath(u, a[0].0, Some(a[0].1))
      case Ok(u') => SetAllConcat(u', a[1..], b);
      case Err(_) =>
    }
  }

  /** An attribute can be set first instead of last when it overlaps none before it. */
  lemma {:induction false} SetFirst(u: ScimUser, before: seq<(string, Json)>, x: (string, Json))
    requires forall i :: 0 <= i < |before| ==> Fields(TargetOf(before[i].0)) !! Fields(TargetOf(x.0))
    ensures Same(SetAll(u, before + [x]), SetAll(u, [x] + before))
  {
    if before != [] {
      var n := |before| - 1;
      var front, y := before[..n], before[n];
      assert before + [x] == front + [y, x] && front + [x, y] == (front + [x]) + [y];
      assert [x] + before == ([x] + front) + [y];
      SetAllConcat(u, front, [y, x]);
      SetAllConcat(u, front, [x, y]);
      if SetAll(u, front).Ok? {
        PairCommutes(SetAll(u, front).value, y, x);
      }
      SetFirst(u, front, x);
      SetAllConcat(u, front + [x], [y]);
      SetAllConcat(u, [x] + front, [y]);
    }
  }

  lemma MoveToFront(u: ScimUser, before: seq<(string, Json)>, x: (string, Json), after: seq<(string, Json)>)
    requires forall i :: 0 <= i < |before| ==> Fields(TargetOf(before[i].0)) !! Fields(TargetOf(x.0))
    ensures Same(SetAll(u, before + [x] + after), SetAll(u, [x] + (before + after)))
  {
    SetFirst(u, before, x);
    SetAllConcat(u, before + [x], after);
    SetAllConcat(u, [x] + before, after);
    assert [x] + before + after == [x] + (before + after);
  }

  lemma Remainder(a: seq<(string, Json)>, k: nat)
    requires k < |a| && Separate(a)
    ensures a == a[..k] + [a[k]] + a[k + 1..]
    ensures Separate(a[..k] + a[k + 1..])
    ensures multiset(a[..k] + a[k + 1..]) == multiset(a) - multiset{a[k]}
  {
    var rest := a[..k] + a[k + 1..];
    assert a == a[..k] + [a[k]] + a[k + 1..];
    forall i, j | 0 <= i < j < |rest| ensures Fields(TargetOf(rest[i].0)) !! Fields(TargetOf(rest[j].0)) {
      var i', j' := if i < k then i else i + 1, if j < k then j else j + 1;
      assert rest[i] == a[i'] && rest[j] == a[j'];
    }
  }

  /** Swapping what follows the first attribute. */
  lemma SameTail(u: ScimUser, x: (string, Json), a: seq<(string, Json)>, b: seq<(string, Json)>)
    requires Fitting(TargetOf(x.0), Some(x.1)) ==>
               Same(SetAll(Assign(u, TargetOf(x.0), Some(x.1)), a), SetAll(Assign(u, TargetOf(x.0), Some(x.1)), b))
    ensures Same(SetAll(u, [x] + a), SetAll(u, [x] + b))
  {
  }

  /** Attributes with separate targets give the same result in every visiting order. */
  lemma {:induction false} VisitingOrderIrrelevant(u: ScimUser, a: seq<(string, Json)>, b: seq<(string, Json)>)
    requires multiset(a) == multiset(b) && Separate(a)
    ensures Same(SetAll(u, a), SetAll(u, b))
    decreases |b|
  {
    if b == [] {
      assert |multiset(a)| == 0;
    } else {
      var x, rest := b[0], b[1..];
      assert b == [x] + rest;
      var k := IndexIn(a, b);
      var other := a[..k] + a[k + 1..];
      Remainder(a, k);
      MoveToFront(u, a[..k], x, a[k + 1..]);
      if Fitting(TargetOf(x.0), Some(x.1)) {
        VisitingOrderIrrelevant(Assign(u, TargetOf(x.0), Some(x.1)), other, rest);
      }
      SameTail(u, x, other, rest);
    }
  }

  lemma IndexIn(a: seq<(string, Json)>, b: seq<(string, Json)>) returns (k: nat)
    requires multiset(a) == multiset(b) && b != []
    ensures k < |a| && a[k] == b[0]
    ensures multiset(a) - multiset{b[0]} == multiset(b[1..])
  {
    assert b == [b[0]] + b[1..];
    assert b[0] in multiset(a);
    k :| 0 <= k < |a| && a[k] == b[0];
  }
}
