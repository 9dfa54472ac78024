/** PATCH of a group by the attribute names themselves, and the member filter read character by character. */
module GroupPatchExact {
  import opened Text
  import opened Entities
  import opened Ordering
  import opened Scim
  import opened Patch
  import opened Store
  import opened GroupPatch
  import opened GroupRequests
  import opened ScimExact

  // ---- Paths ----

  /** The members, bare or with one filter in brackets. */
  ghost predicate MembersKey(key: string) {
    key == "members" || exists filter :: Lacks(filter, ']') && key == "members[" + filter + "]"
  }

  lemma {:induction false} ClosedExactly(s: string)
    ensures ClosedOnce(s) <==> exists filter :: Lacks(filter, ']') && s == filter + "]"
  {
    if s != "" {
      if s[0] == ']' {
        assert s == "]" ==> Lacks("", ']') && s == "" + "]";
        forall f: string | f != "" ensures s == f + "]" ==> s[0] == f[0] {
        }
      } else {
        ClosedExactly(s[1..]);
        assert s == [s[0]] + s[1..];
        if f :| Lacks(f, ']') && s == f + "]" {
          assert f != "" && Lacks(f[1..], ']') && s[1..] == f[1..] + "]";
        }
        if ClosedOnce(s[1..]) {
          var g :| Lacks(g, ']') && s[1..] == g + "]";
          assert Lacks([s[0]] + g, ']') && s == [s[0]] + g + "]";
        }
      }
    }
  }

  lemma MembersKeyStarts(key: string)
    requires MembersKey(key)
    ensures |key| >= 7 && key[..7] == "members"
  {
  }

  lemma MembersPathExactly(key: string)
    ensures IsMembersPath(key) <==> MembersKey(key)
  {
    if MembersKey(key) {
      MembersKeyStarts(key);
    }
    if |key| >= 7 && key[..7] == "members" {
      assert key == "members" + key[7..];
      if |key| > 7 && key[7] == '[' {
        ClosedExactly(key[8..]);
        assert key[7..] == "[" + key[8..];
      }
      forall f: string ensures key == "members[" + f + "]" <==> |key| > 7 && key[7] == '[' && key[8..] == f + "]" {
      }
    }
  }

  // ---- The member filter ----

  ghost predicate Spaces(s: string) {
    forall i :: 0 <= i < |s| ==> s[i] in {' ', '\t', '\n', '\r', '\U{0C}'}
  }

  /** The parts of `members[value eq "id"]` besides the id. */
  datatype Pieces = Pieces(
    open: string, gap0: string, attr: string, gap1: string, eq: string, gap2: string,
    quote: string, unquote: string, gap3: string)

  function Tail(id: string, p: Pieces): string {
    p.quote + (id + (p.unquote + (p.gap3 + "]")))
  }

  function Written(id: string, p: Pieces): string {
    p.open + (p.gap0 + (p.attr + (p.gap1 + (p.eq + (p.gap2 + Tail(id, p))))))
  }

  /**
   The path is such a filter on this id: the words in any casing, white space between them, quotes optional on
   either side, and no quote or closing bracket in the id. What could be read as white space before the id or
   after it belongs to the gap before and to the id after, unless a quote says otherwise.
   */
  ghost predicate Filters(path: string, id: string, p: Pieces) {
    && path == Written(id, p)
    && Lower(p.open) == "members[" && Lower(p.attr) == "value" && Lower(p.eq) == "eq"
    && Spaces(p.gap0) && Spaces(p.gap1) && Spaces(p.gap2) && Spaces(p.gap3) && p.gap1 != "" && p.gap2 != ""
    && p.quote in {"", "\""} && p.unquote in {"", "\""}
    && (forall i :: 0 <= i < |id| ==> id[i] != '"' && id[i] != ']')
    && (p.quote == "" ==> if id == "" then p.unquote == "" else !Spaces(id[..1]))
    && (p.unquote == "" ==> p.gap3 == "")
  }

  lemma {:induction false} SkipsExactly(s: string, t: string)
    requires Spaces(s) && (t != "" ==> !FilterSpace(t[0]))
    ensures SkipSpace(s + t) == t
    ensures s != "" ==> Spaced(s + t) == Some(t)
  {
    if s == "" {
      assert s + t == t;
    } else {
      assert (s + t)[1..] == s[1..] + t;
      SkipsExactly(s[1..], t);
    }
  }

  lemma {:induction false} SkipSplits(s: string) returns (gap: string)
    ensures s == gap + SkipSpace(s) && Spaces(gap)
    ensures SkipSpace(s) != "" ==> !FilterSpace(SkipSpace(s)[0])
    ensures s != "" && FilterSpace(s[0]) ==> gap != ""
  {
    gap := "";
    if s != "" && FilterSpace(s[0]) {
      gap := SkipSplits(s[1..]);
      gap := [s[0]] + gap;
    }
  }

  lemma WordThen(w: string, word: string, t: string)
    requires Lower(w) == word
    ensures AfterWord(w + t, word) == Some(t)
  {
    assert |w| == |Lower(w)|;
    assert (w + t)[..|w|] == w && (w + t)[|w|..] == t;
  }

  lemma WordSplits(s: string, word: string)
    requires AfterWord(s, word).Some?
    ensures s == s[..|word|] + AfterWord(s, word).value && Lower(s[..|word|]) == word
  {
  }

  lemma {:induction false} OperandStops(id: string, rest: string)
    requires forall i :: 0 <= i < |id| ==> id[i] != '"' && id[i] != ']'
    requires rest != "" && (rest[0] == '"' || rest[0] == ']')
    ensures Operand(id + rest) == (id, rest)
  {
    if id == "" {
      assert id + rest == rest;
    } else {
      assert (id + rest)[1..] == id[1..] + rest;
      OperandStops(id[1..], rest);
      assert [id[0]] + id[1..] == id;
    }
  }

  lemma {:induction false} OperandIsPlain(s: string)
    ensures forall i :: 0 <= i < |Operand(s).0| ==> Operand(s).0[i] != '"' && Operand(s).0[i] != ']'
    ensures Operand(s).1 == "" || Operand(s).1[0] == '"' || Operand(s).1[0] == ']'
  {
    if s != "" && s[0] != '"' && s[0] != ']' {
      OperandIsPlain(s[1..]);
    }
  }

  lemma FirstOf(a: string, b: string)
    ensures a != "" ==> (a + b)[0] == a[0]
    ensures a == "" ==> a + b == b
  {
  }

  /** What is read after the comparison: the id and the closing bracket. */
  lemma TailReads(id: string, p: Pieces, path: string)
    requires Filters(path, id, p)
    ensures var tail := Tail(id, p);
            && tail != "" && !FilterSpace(tail[0])
            && Operand(SkipQuote(tail)).0 == id
            && SkipSpace(SkipQuote(Operand(SkipQuote(tail)).1)) == "]"
  {
    var close := p.gap3 + "]";
    var rest := p.unquote + close;
    var tail := p.quote + (id + rest);
    FirstOf(p.unquote, close);
    FirstOf(p.gap3, "]");
    assert rest[0] == '"' || rest[0] == ']';
    FirstOf(p.quote, id + rest);
    FirstOf(id, rest);
    assert SkipQuote(tail) == id + rest by {
      assert p.quote == "\"" ==> tail[1..] == id + rest;
    }
    OperandStops(id, rest);
    assert SkipQuote(rest) == close by {
      assert p.unquote == "\"" ==> rest[1..] == close;
    }
    SkipsExactly(p.gap3, "]");
    if p.quote == "" && id != "" {
      assert id[..1][0] == id[0];
    }
  }

  lemma FilterReadsOff(path: string, id: string, p: Pieces)
    requires Filters(path, id, p)
    ensures FilteredMemberValue(path) == Some(id)
  {
    var tail := Tail(id, p);
    var eq := p.eq + (p.gap2 + tail);
    var attr := p.attr + (p.gap1 + eq);
    TailReads(id, p, path);
    WordThen(p.open, "members[", p.gap0 + attr);
    assert |Lower(p.attr)| == 5 && Lower(p.attr)[0] == 'v' && |Lower(p.eq)| == 2 && Lower(p.eq)[0] == 'e';
    SkipsExactly(p.gap0, attr);
    WordThen(p.attr, "value", p.gap1 + eq);
    SkipsExactly(p.gap1, eq);
    WordThen(p.eq, "eq", p.gap2 + tail);
    SkipsExactly(p.gap2, tail);
  }

  /** The part of the filter after the comparison. */
  ghost predicate Ends(tail: string, id: string, quote: string, unquote: string, gap3: string) {
    && tail == quote + (id + (unquote + (gap3 + "]")))
    && Spaces(gap3) && quote in {"", "\""} && unquote in {"", "\""}
    && (forall i :: 0 <= i < |id| ==> id[i] != '"' && id[i] != ']')
    && (quote == "" ==> if id == "" then unquote == "" else !Spaces(id[..1]))
    && (unquote == "" ==> gap3 == "")
  }

  lemma TailSplits(tail: string) returns (quote: string, unquote: string, gap3: string)
    requires tail != "" && !FilterSpace(tail[0])
    requires SkipSpace(SkipQuote(Operand(SkipQuote(tail)).1)) == "]"
    ensures Ends(tail, Operand(SkipQuote(tail)).0, quote, unquote, gap3)
  {
    var body := SkipQuote(tail);
    var (id, rest) := Operand(body);
    OperandIsPlain(body);
    gap3 := SkipSplits(SkipQuote(rest));
    quote, unquote := if tail[0] == '"' then "\"" else "", if rest[0] == '"' then "\"" else "";
    assert tail == quote + body && rest == unquote + (gap3 + "]") && body == id + rest;
    FirstOf(gap3, "]");
    FirstOf(id, rest);
    if quote == "" && id != "" {
      assert id[..1][0] == id[0];
    }
  }

  lemma FilterSplits(path: string, id: string) returns (p: Pieces)
    requires FilteredMemberValue(path) == Some(id)
    ensures Filters(path, id, p)
  {
    WordSplits(path, "members[");
    var s0 := AfterWord(path, "members[").value;
    var gap0 := SkipSplits(s0);
    var t0 := SkipSpace(s0);
    WordSplits(t0, "value");
    var s1 := AfterWord(t0, "value").value;
    var gap1 := SkipSplits(s1);
    var t1 := SkipSpace(s1);
    WordSplits(t1, "eq");
    var s2 := AfterWord(t1, "eq").value;
    var gap2 := SkipSplits(s2);
    var tail := SkipSpace(s2);
    SomethingLeft(tail);
    var quote, unquote, gap3 := TailSplits(tail);
    p := Pieces(path[..8], gap0, t0[..5], gap1, t1[..2], gap2, quote, unquote, gap3);
    Reassemble(path, id, p);
  }

  lemma SomethingLeft(tail: string)
    ensures tail == "" ==> SkipSpace(SkipQuote(Operand(SkipQuote(tail)).1)) == ""
  {
  }

  lemma Reassemble(path: string, id: string, p: Pieces)
    requires Ends(Tail(id, p), id, p.quote, p.unquote, p.gap3)
    requires Lower(p.open) == "members[" && Lower(p.attr) == "value" && Lower(p.eq) == "eq"
    requires Spaces(p.gap0) && Spaces(p.gap1) && Spaces(p.gap2) && p.gap1 != "" && p.gap2 != ""
    requires path == Written(id, p)
    ensures Filters(path, id, p)
  {
  }

  /** An id is read from a path exactly when the path is a filter on it. */
  lemma FilterExactly(path: string, id: string)
    ensures FilteredMemberValue(path) == Some(id) <==> exists p :: Filters(path, id, p)
  {
    if FilteredMemberValue(path) == Some(id) {
      var p := FilterSplits(path, id);
    }
    if p :| Filters(path, id, p) {
      FilterReadsOff(path, id, p);
    }
  }

  // ---- Member values ----

  lemma {:induction false} MemberFieldsExactly(value: string, fields: Pairs)
    ensures MemberFields(value, fields).Some? <==>
              Textual(fields, "value") && Textual(fields, "$ref") && Textual(fields, "display")
    ensures MemberFields(value, fields).Some? ==> LastText(fields, "value", value, MemberFields(value, fields).value)
    decreases |fields|
  {
    if fields != [] {
      var (k, v) := fields[0];
      TextualNext(fields, "value");
      TextualNext(fields, "$ref");
      TextualNext(fields, "display");
      var value' := if Lower(k) == "value" && v.Str? then v.s else value;
      MemberFieldsExactly(value', fields[1..]);
      if MemberFields(value, fields).Some? {
        assert MemberFields(value', fields[1..]) == MemberFields(value, fields);
        LastTextNext(fields, "value", value, MemberFields(value, fields).value);
      }
    }
  }

  lemma {:induction false} MembersPointwise(items: seq<Json>)
    requires DecodeMembers(items).Some?
    ensures |DecodeMembers(items).value| == |items|
    ensures forall i :: 0 <= i < |items| ==> DecodeMember(items[i]) == Some(DecodeMembers(items).value[i])
  {
    if items != [] {
      MembersPointwise(items[1..]);
      assert forall i :: 1 <= i < |items| ==> items[i] == items[1..][i - 1];
    }
  }

  lemma {:induction false} PresentExactly(values: seq<string>)
    ensures forall s :: s in Present(values) <==> s in values && s != ""
  {
    if values != [] {
      var n := |values| - 1;
      PresentExactly(values[..n]);
      assert values == values[..n] + [values[n]];
    }
  }

  /** One member is the last string under `value`; its other two fields must be text as well. */
  lemma MemberDecodes(fields: Pairs)
    ensures DecodeMember(Object(fields)).Some? <==>
              Textual(fields, "value") && Textual(fields, "$ref") && Textual(fields, "display")
    ensures DecodeMember(Object(fields)).Some? ==>
              LastText(fields, "value", "", DecodeMember(Object(fields)).value)
    ensures DecodeMember(Null) == Some("")
    ensures forall v: Json | !v.Object? && !v.Null? :: DecodeMember(v) == None
  {
    MemberFieldsExactly("", fields);
  }

  /** The ids of a member value: one object's, a bare id, or those in an array, in every case without empty ones. */
  lemma MemberValuesExactly(v: Json)
    ensures DecodeMemberValues(None) == None
    ensures v.Object? ==>
              var m := DecodeMember(v);
              DecodeMemberValues(Some(v)) == if m.Some? && m.value != "" then Some([m.value]) else None
    ensures v.Str? ==> DecodeMemberValues(Some(v)) == if v.s == "" then None else Some([v.s])
    ensures v.Array? && DecodeMemberValues(Some(v)).Some? ==>
              forall s :: s in DecodeMemberValues(Some(v)).value <==>
                s != "" && exists i :: 0 <= i < |v.items| && DecodeMember(v.items[i]) == Some(s)
    ensures v.Null? || v.Bool? || v.Number? ==> DecodeMemberValues(Some(v)) == None
  {
    if v.Array? && DecodeMemberValues(Some(v)).Some? {
      var values := DecodeMembers(v.items).value;
      MembersPointwise(v.items);
      PresentExactly(values);
      forall s ensures s in values <==> exists i :: 0 <= i < |v.items| && DecodeMember(v.items[i]) == Some(s) {
        if s in values {
          var i :| 0 <= i < |values| && values[i] == s;
          assert DecodeMember(v.items[i]) == Some(s);
        }
      }
    }
  }

  // ---- Operations ----

  /** The old members in place, and behind them each new value once. */
  ghost predicate Appended(members: seq<string>, values: seq<string>, out: seq<string>) {
    && |members| <= |out| && out[..|members|] == members
    && (forall s :: s in out <==> s in members || s in values)
    && (forall i, j :: |members| <= i < j < |out| ==> out[i] != out[j])
    && (forall i :: |members| <= i < |out| ==> out[i] !in members)
  }

  lemma {:induction false} AddedExactly(members: seq<string>, values: seq<string>)
    ensures Appended(members, values, Added(members, values))
  {
    if values != [] {
      var n := |values| - 1;
      AddedExactly(members, values[..n]);
      assert values == values[..n] + [values[n]];
    }
  }

  lemma RemovedExactly(members: seq<string>, value: string)
    ensures forall s :: s in Removed(members, value) <==> s in members && s != value
  {
    RemovedIsDifference(members, value);
    assert forall s :: s in Removed(members, value) <==> s in Elements(Removed(members, value));
    assert forall s :: s in members <==> s in Elements(members);
  }

  /** Assigning under a path changes the attribute of that name and no other; every other path is refused. */
  lemma SetGroupPathExactly(g: ScimGroup, path: string, v: Option<Json>, isAdd: bool)
    ensures var key, r := Lower(Trim(path)), SetGroupPath(g, path, v, isAdd);
            && (key == "displayname" ==>
                  r == if DecodeString(v).Some? then Ok(g.(displayName := DecodeString(v).value))
                       else Err(InvalidValue))
            && (key == "externalid" ==>
                  r == if DecodeString(v).Some? then Ok(g.(externalId := DecodeString(v).value)) else Err(InvalidValue))
            && (MembersKey(key) && DecodeMemberValues(v).Some? && isAdd ==>
                  r.Ok? && r.value == g.(members := r.value.members)
                  && Appended(g.members, DecodeMemberValues(v).value, r.value.members))
            && (MembersKey(key) && DecodeMemberValues(v).Some? && !isAdd ==>
                  r == Ok(g.(members := DecodeMemberValues(v).value)))
            && (MembersKey(key) && DecodeMemberValues(v).None? ==> r == Err(InvalidValue))
            && (key !in {"displayname", "externalid"} && !MembersKey(key) ==> r == Err(InvalidPath))
  {
    MembersPathExactly(Lower(Trim(path)));
    if DecodeMemberValues(v).Some? {
      AddedExactly(g.members, DecodeMemberValues(v).value);
    }
  }

  /** Removing clears externalId or the members, or takes out the one member of a filter; displayName cannot go. */
  lemma ClearGroupPathExactly(g: ScimGroup, path: string)
    ensures var key, r := Lower(Trim(path)), ClearGroupPath(g, path);
            && (key == "" ==> r == Err(InvalidValue))
            && (key == "externalid" ==> r == Ok(g.(externalId := "")))
            && (key == "members" ==> r == Ok(g.(members := [])))
            && (forall id, p | MembersKey(key) && Filters(Trim(path), id, p) ::
                  r.Ok? && r.value == g.(members := r.value.members)
                  && forall s :: s in r.value.members <==> s in g.members && s != id)
            && ((key !in {"", "externalid", "members"} && !MembersKey(key)) ==> r == Err(InvalidPath))
            && ((key != "members" && MembersKey(key) && forall id, p :: !Filters(Trim(path), id, p)) ==>
                  r == Err(InvalidPath))
  {
    var key := Lower(Trim(path));
    MembersPathExactly(key);
    assert |key| == |Trim(path)|;
    forall id, p | Filters(Trim(path), id, p) ensures FilteredMemberValue(Trim(path)) == Some(id) && key != "members" {
      FilterReadsOff(Trim(path), id, p);
      assert |Lower(p.open)| == |p.open|;
    }
    var value := FilteredMemberValue(Trim(path));
    if value.Some? {
      var p := FilterSplits(Trim(path), value.value);
      RemovedExactly(g.members, value.value);
    }
  }

  /** The verbs, in any casing; add and replace differ only in what they do to the members. */
  lemma GroupOperationExactly(g: ScimGroup, op: Operation)
    ensures var verb, r := Lower(Trim(op.op)), GroupOne(g, op);
            && (verb in {"add", "replace"} && Trim(op.path) != "" ==>
                  r == SetGroupPath(g, op.path, op.value, verb == "add"))
            && (verb in {"add", "replace"} && Trim(op.path) == "" ==>
                  r == if op.value.Some? && op.value.value.Object?
                       then SetGroupFields(g, op.value.value.fields, verb == "add")
                       else if op.value == Some(Null) then Ok(g)
                       else Err(InvalidValue))
            && (verb == "remove" ==> r == ClearGroupPath(g, op.path))
            && (verb !in {"add", "replace", "remove"} ==> r == Err(InvalidValue))
  {
  }

  lemma GroupListExactly(g: ScimGroup, op: Operation, ops: seq<Operation>)
    ensures PatchedGroup(g, []) == Err(InvalidValue)
    ensures PatchedGroup(g, [op] + ops) ==
              if ops == [] || GroupOne(g, op).Err? then GroupOne(g, op) else PatchedGroup(GroupOne(g, op).value, ops)
  {
    assert ([op] + ops)[0] == op && ([op] + ops)[1..] == ops;
    assert GroupFold(g, [op] + ops)
        == if GroupOne(g, op).Ok? then GroupFold(GroupOne(g, op).value, ops) else GroupOne(g, op);
  }

  lemma GroupFieldsExactly(g: ScimGroup, field: (string, Json), fields: Pairs, isAdd: bool)
    ensures SetGroupFields(g, [], isAdd) == Ok(g)
    ensures var r := SetGroupPath(g, field.0, Some(field.1), isAdd);
            SetGroupFields(g, [field] + fields, isAdd) == if r.Ok? then SetGroupFields(r.value, fields, isAdd) else r
  {
    assert ([field] + fields)[1..] == fields;
  }

  // ---- What a list of operations stores ----

  ghost predicate KeyOf(t: GroupTarget, key: string) {
    match t
    case DisplayName => key == "displayname"
    case ExternalId => key == "externalid"
    case Members => MembersKey(key)
    case Elsewhere => key !in {"displayname", "externalid"} && !MembersKey(key)
  }

  /** The operation names the attribute: by its path, or by a key of its object without one. */
  ghost predicate Mentions(op: Operation, t: GroupTarget) {
    if Lower(Trim(op.op)) in {"add", "replace"} && Trim(op.path) == "" then
      op.value.Some? && op.value.value.Object? &&
      exists i :: 0 <= i < |op.value.value.fields| && KeyOf(t, Lower(Trim(op.value.value.fields[i].0)))
    else KeyOf(t, Lower(Trim(op.path)))
  }

  lemma GroupTargetExactly(path: string, t: GroupTarget)
    ensures GroupTargetOf(path) == t <==> KeyOf(t, Lower(Trim(path)))
  {
    MembersPathExactly(Lower(Trim(path)));
  }

  /** Every result about the attributes an operation names is about these. */
  lemma TargetsExactly(op: Operation, t: GroupTarget)
    ensures Targets(op, t) <==> Mentions(op, t)
  {
    GroupTargetExactly(op.path, t);
    if op.value.Some? && op.value.value.Object? {
      forall i | 0 <= i < |op.value.value.fields|
        ensures GroupTargetOf(op.value.value.fields[i].0) == t
                <==> KeyOf(t, Lower(Trim(op.value.value.fields[i].0)))
      {
        GroupTargetExactly(op.value.value.fields[i].0, t);
      }
    }
  }

  lemma {:induction false} GroupFoldConcat(g: ScimGroup, a: seq<Operation>, b: seq<Operation>)
    requires GroupFold(g, a + b).Ok?
    ensures GroupFold(g, a).Ok? && GroupFold(g, a + b) == GroupFold(GroupFold(g, a).value, b)
    decreases |a|
  {
    if a == [] {
      assert a + b == b;
    } else {
      var next := GroupOne(g, a[0]);
      assert (a + b)[0] == a[0] && (a + b)[1..] == a[1..] + b;
      assert next.Ok? && GroupFold(g, a + b) == GroupFold(next.value, a[1..] + b);
      GroupFoldConcat(next.value, a[1..], b);
    }
  }

  /** An attribute that no later operation mentions is what this one made of it. */
  lemma LastMention(g: ScimGroup, before: seq<Operation>, op: Operation, after: seq<Operation>, t: GroupTarget)
    returns (mid: ScimGroup)
    requires GroupFold(g, before + [op] + after).Ok? && forall o | o in after :: !Mentions(o, t)
    ensures GroupOne(mid, op).Ok?
    ensures SameAttribute(GroupFold(g, before + [op] + after).value, GroupOne(mid, op).value, t)
  {
    GroupFoldConcat(g, before + [op], after);
    GroupFoldConcat(g, before, [op]);
    mid := GroupFold(g, before).value;
    assert [op][1..] == [] && GroupFold(mid, [op]) == GroupOne(mid, op);
    forall o | o in after ensures !Targets(o, t) {
      TargetsExactly(o, t);
    }
    FoldKeeps(GroupOne(mid, op).value, after, t);
  }

  lemma RowIsDesired(cfg: Config, env: Env, db: Db, call: Call, id: string, k: Uuid, ops: seq<Operation>)
    requires cfg.codec.parse(id) == Some(k) && OwnGroup(db.tables.groups, call.tenant, k)
    requires Carried(PatchGroup(cfg, env, db, call, id, ops).1)
    ensures var t := db.tables;
            var r := GroupFold(FromGroup(cfg.codec, GroupOf(t.groups, t.members, k)), ops);
            var row := PatchGroup(cfg, env, db, call, id, ops).0.tables.groups;
            && r.Ok? && k in row
            && row[k].displayName == Trim(r.value.displayName) && Column(row[k].externalId, r.value.externalId)
  {
    var g := Desired(cfg.codec, db.tables, k, ops);
    RowAfter(cfg, env, db, call, id, k, g.value);
  }

  /** In any list that is carried out, the last name or external id that is assigned is stored trimmed. */
  lemma GroupReplaceIsStored(
    cfg: Config, env: Env, db: Db, call: Call, id: string, k: Uuid,
    before: seq<Operation>, op: Operation, after: seq<Operation>, t: GroupTarget)
    requires cfg.codec.parse(id) == Some(k) && OwnGroup(db.tables.groups, call.tenant, k)
    requires Lower(Trim(op.op)) in {"add", "replace"} && (forall o | o in after :: !Mentions(o, t))
    requires Carried(PatchGroup(cfg, env, db, call, id, before + [op] + after).1)
    ensures var key, groups := Lower(Trim(op.path)),
                               PatchGroup(cfg, env, db, call, id, before + [op] + after).0.tables.groups;
            && k in groups
            && (key == "displayname" && t.DisplayName? ==>
                  DecodeString(op.value).Some? && groups[k].displayName == Trim(DecodeString(op.value).value))
            && (key == "externalid" && t.ExternalId? ==>
                  DecodeString(op.value).Some? && Column(groups[k].externalId, DecodeString(op.value).value))
  {
    RowIsDesired(cfg, env, db, call, id, k, before + [op] + after);
    var g := FromGroup(cfg.codec, GroupOf(db.tables.groups, db.tables.members, k));
    var mid := LastMention(g, before, op, after, t);
    GroupOperationExactly(mid, op);
    SetGroupPathExactly(mid, op.path, op.value, Lower(Trim(op.op)) == "add");
    assert Lower(Trim(op.path)) != "" ==> Trim(op.path) != "";
  }

  /** And an external id that is removed and not assigned again is absent. */
  lemma GroupRemoveIsStored(
    cfg: Config, env: Env, db: Db, call: Call, id: string, k: Uuid,
    before: seq<Operation>, op: Operation, after: seq<Operation>)
    requires cfg.codec.parse(id) == Some(k) && OwnGroup(db.tables.groups, call.tenant, k)
    requires Lower(Trim(op.op)) == "remove" && Lower(Trim(op.path)) == "externalid"
    requires forall o | o in after :: !Mentions(o, ExternalId)
    requires Carried(PatchGroup(cfg, env, db, call, id, before + [op] + after).1)
    ensures var groups := PatchGroup(cfg, env, db, call, id, before + [op] + after).0.tables.groups;
            k in groups && groups[k].externalId == None
  {
    RowIsDesired(cfg, env, db, call, id, k, before + [op] + after);
    var g := FromGroup(cfg.codec, GroupOf(db.tables.groups, db.tables.members, k));
    var mid := LastMention(g, before, op, after, ExternalId);
    GroupOperationExactly(mid, op);
    ClearGroupPathExactly(mid, op.path);
    assert Trim("") == "";
  }
}
