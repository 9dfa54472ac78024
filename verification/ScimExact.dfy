/** What a JSON value decodes to, and what the mapper writes for it, field by field. */
module ScimExact {
  import opened Text
  import opened Entities
  import opened Scim

  type Pairs = seq<(string, Json)>

  // ---- Decoding ----

  /** A boolean, null, or one of a few strings in any casing. */
  lemma BoolDecodes(v: Option<Json>)
    ensures DecodeBool(v) == Some(true) <==>
              v == Some(Bool(true)) || (v.Some? && v.value.Str? && Lower(v.value.s) == "true")
    ensures DecodeBool(v) == Some(false) <==>
              || v == Some(Bool(false)) || v == Some(Null)
              || (v.Some? && v.value.Str? && Lower(v.value.s) in {"", "false", "null"})
  {
    if v.Some? && v.value.Str? {
      assert |Lower(v.value.s)| == |v.value.s|;
    }
  }

  /** A string as it is, null as the empty string, nothing else. */
  lemma StringDecodes(v: Option<Json>, s: string)
    ensures DecodeString(v) == Some(s) <==> v == Some(Str(s)) || (v == Some(Null) && s == "")
  {
  }

  /** Field `i` is the last one of that name, in any casing, that holds a string. */
  ghost predicate LastAt(fields: Pairs, name: string, i: nat) {
    && i < |fields| && Lower(fields[i].0) == name && fields[i].1.Str?
    && forall j :: i < j < |fields| && Lower(fields[j].0) == name ==> !fields[j].1.Str?
  }

  /** The string the last such field holds, or `was` when there is none. */
  ghost predicate LastText(fields: Pairs, name: string, was: string, text: string) {
    || (text == was && forall j :: 0 <= j < |fields| && Lower(fields[j].0) == name ==> !fields[j].1.Str?)
    || exists i: nat :: LastAt(fields, name, i) && fields[i].1.s == text
  }

  /** Every field of that name is a string or null. */
  ghost predicate Textual(fields: Pairs, name: string) {
    forall j :: 0 <= j < |fields| && Lower(fields[j].0) == name ==> fields[j].1.Str? || fields[j].1.Null?
  }

  lemma LastTextNext(fields: Pairs, name: string, was: string, text: string)
    requires fields != []
    requires var (k, v) := fields[0];
             LastText(fields[1..], name, if Lower(k) == name && v.Str? then v.s else was, text)
    ensures LastText(fields, name, was, text)
  {
    var rest := fields[1..];
    assert forall j :: 1 <= j < |fields| ==> fields[j] == rest[j - 1];
    if i: nat :| LastAt(rest, name, i) && rest[i].1.s == text {
      assert LastAt(fields, name, i + 1);
    } else if Lower(fields[0].0) == name && fields[0].1.Str? {
      assert LastAt(fields, name, 0);
    }
  }

  lemma TextualNext(fields: Pairs, name: string)
    requires fields != []
    ensures Textual(fields, name) <==>
              Textual(fields[1..], name) && (Lower(fields[0].0) == name ==> fields[0].1.Str? || fields[0].1.Null?)
  {
    assert forall j :: 1 <= j < |fields| ==> fields[j] == fields[1..][j - 1];
  }

  lemma {:induction false} NameFieldsExactly(n: Name, fields: Pairs)
    ensures NameFields(n, fields).Some? <==> Textual(fields, "givenname") && Textual(fields, "familyname")
    ensures NameFields(n, fields).Some? ==>
              && LastText(fields, "givenname", n.givenName, NameFields(n, fields).value.givenName)
              && LastText(fields, "familyname", n.familyName, NameFields(n, fields).value.familyName)
    decreases |fields|
  {
    if fields != [] {
      var (k, v) := fields[0];
      TextualNext(fields, "givenname");
      TextualNext(fields, "familyname");
      var n' := if Lower(k) == "givenname" && v.Str? then n.(givenName := v.s)
                else if Lower(k) == "familyname" && v.Str? then n.(familyName := v.s) else n;
      NameFieldsExactly(n', fields[1..]);
      if NameFields(n, fields).Some? {
        var r := NameFields(n, fields).value;
        assert NameFields(n', fields[1..]) == Some(r);
        LastTextNext(fields, "givenname", n.givenName, r.givenName);
        LastTextNext(fields, "familyname", n.familyName, r.familyName);
      }
    }
  }

  /** A name object: given and family name are the last strings under those keys, in any casing. */
  lemma NameDecodes(fields: Pairs)
    ensures DecodeName(Some(Object(fields))).Some? <==> Textual(fields, "givenname") && Textual(fields, "familyname")
    ensures DecodeName(Some(Object(fields))).Some? ==>
              var n := DecodeName(Some(Object(fields))).value;
              LastText(fields, "givenname", "", n.givenName) && LastText(fields, "familyname", "", n.familyName)
    ensures DecodeName(Some(Null)) == Some(Name("", "")) && DecodeName(None) == None
    ensures forall v: Json | !v.Object? && !v.Null? :: DecodeName(Some(v)) == None
  {
    NameFieldsExactly(Name("", ""), fields);
  }

  /** The last field of that name decides, whatever it holds; `was` when there is none. */
  ghost predicate LastFlag(fields: Pairs, name: string, was: bool, flag: bool) {
    || (flag == was && forall j :: 0 <= j < |fields| ==> Lower(fields[j].0) != name)
    || exists i: nat :: LastFlagAt(fields, name, flag, i)
  }

  ghost predicate LastFlagAt(fields: Pairs, name: string, flag: bool, i: nat) {
    && i < |fields| && Lower(fields[i].0) == name && DecodeBool(Some(fields[i].1)) == Some(flag)
    && forall j :: i < j < |fields| ==> Lower(fields[j].0) != name
  }

  ghost predicate Flags(fields: Pairs, name: string) {
    forall j :: 0 <= j < |fields| && Lower(fields[j].0) == name ==> DecodeBool(Some(fields[j].1)).Some?
  }

  lemma LastFlagNext(fields: Pairs, name: string, was: bool, flag: bool)
    requires fields != [] && Flags(fields, name)
    requires var (k, v) := fields[0];
             LastFlag(fields[1..], name, if Lower(k) == name then DecodeBool(Some(v)).value else was, flag)
    ensures LastFlag(fields, name, was, flag)
  {
    var rest := fields[1..];
    assert forall j :: 1 <= j < |fields| ==> fields[j] == rest[j - 1];
    if i: nat :| LastFlagAt(rest, name, flag, i) {
      assert LastFlagAt(fields, name, flag, i + 1);
    } else if Lower(fields[0].0) == name {
      assert LastFlagAt(fields, name, flag, 0);
    }
  }

  lemma FlagsNext(fields: Pairs, name: string)
    requires fields != []
    ensures Flags(fields, name) <==>
              Flags(fields[1..], name) && (Lower(fields[0].0) == name ==> DecodeBool(Some(fields[0].1)).Some?)
  {
    assert forall j :: 1 <= j < |fields| ==> fields[j] == fields[1..][j - 1];
  }

  lemma {:induction false} EmailFieldsExactly(e: Email, fields: Pairs)
    ensures EmailFields(e, fields).Some? <==> Textual(fields, "value") && Flags(fields, "primary")
    ensures EmailFields(e, fields).Some? ==>
              && LastText(fields, "value", e.value, EmailFields(e, fields).value.value)
              && LastFlag(fields, "primary", e.primary, EmailFields(e, fields).value.primary)
    decreases |fields|
  {
    if fields != [] {
      var (k, v) := fields[0];
      TextualNext(fields, "value");
      FlagsNext(fields, "primary");
      var e' := if Lower(k) == "value" && v.Str? then e.(value := v.s)
                else if Lower(k) == "primary" && DecodeBool(Some(v)).Some? then
                  e.(primary := DecodeBool(Some(v)).value) else e;
      EmailFieldsExactly(e', fields[1..]);
      if EmailFields(e, fields).Some? {
        var r := EmailFields(e, fields).value;
        assert EmailFields(e', fields[1..]) == Some(r);
        LastTextNext(fields, "value", e.value, r.value);
        LastFlagNext(fields, "primary", e.primary, r.primary);
      }
    }
  }

  /** An address object: the last string under `value` and the last boolean under `primary`, in any casing. */
  lemma EmailDecodes(fields: Pairs)
    ensures DecodeEmail(Object(fields)).Some? <==> Textual(fields, "value") && Flags(fields, "primary")
    ensures DecodeEmail(Object(fields)).Some? ==>
              var e := DecodeEmail(Object(fields)).value;
              LastText(fields, "value", "", e.value) && LastFlag(fields, "primary", false, e.primary)
    ensures DecodeEmail(Null) == Some(Email("", false))
    ensures forall v: Json | !v.Object? && !v.Null? :: DecodeEmail(v) == None
  {
    EmailFieldsExactly(Email("", false), fields);
  }

  /** An array of addresses decodes item by item. */
  lemma {:induction false} EmailsDecode(items: seq<Json>)
    ensures DecodeEmails(items).Some? <==> forall i :: 0 <= i < |items| ==> DecodeEmail(items[i]).Some?
    ensures DecodeEmails(items).Some? ==>
              && |DecodeEmails(items).value| == |items|
              && forall i :: 0 <= i < |items| ==> DecodeEmail(items[i]) == Some(DecodeEmails(items).value[i])
  {
    if items != [] {
      EmailsDecode(items[1..]);
      assert forall i :: 1 <= i < |items| ==> items[i] == items[1..][i - 1];
    }
  }

  // ---- Mapping ----

  lemma {:induction false} FirstPrimaryExactly(emails: seq<Email>)
    ensures FirstPrimary(emails).None? <==> forall i :: 0 <= i < |emails| ==> !emails[i].primary
    ensures forall e :: FirstPrimary(emails) == Some(e) ==>
              exists i :: 0 <= i < |emails| && emails[i] == e && e.primary
                && forall j :: 0 <= j < i ==> !emails[j].primary
  {
    if emails != [] && !emails[0].primary {
      FirstPrimaryExactly(emails[1..]);
      assert forall i :: 1 <= i < |emails| ==> emails[i] == emails[1..][i - 1];
      if FirstPrimary(emails).Some? {
        var e := FirstPrimary(emails).value;
        var i :| 0 <= i < |emails[1..]| && emails[1..][i] == e && e.primary
          && forall j :: 0 <= j < i ==> !emails[1..][j].primary;
        assert emails[i + 1] == e;
      }
    }
  }

  /** The one address that is kept: the first marked primary, else the first, else none; trimmed. */
  lemma PrimaryExactly(emails: seq<Email>)
    ensures emails == [] ==> PrimaryEmail(emails) == ""
    ensures emails != [] && (forall i :: 0 <= i < |emails| ==> !emails[i].primary) ==>
              PrimaryEmail(emails) == Trim(emails[0].value)
    ensures forall i :: 0 <= i < |emails| && emails[i].primary && (forall j :: 0 <= j < i ==> !emails[j].primary) ==>
              PrimaryEmail(emails) == Trim(emails[i].value)
  {
    FirstPrimaryExactly(emails);
  }

  /** An optional column: the trimmed text, or nothing when that is empty. */
  ghost predicate Column(c: Option<string>, text: string) {
    c == if Trim(text) == "" then None else Some(Trim(text))
  }

  /** The row a resource is mapped to, column by column. */
  lemma MapsExactly(u: ScimUser, extended: map<string, Json>)
    ensures var c := ToColumns(u, extended);
            && c.userName == Trim(u.userName) && Column(c.externalId, u.externalId)
            && Column(c.givenName, if u.name.Some? then u.name.value.givenName else "")
            && Column(c.familyName, if u.name.Some? then u.name.value.familyName else "")
            && c.email == (if PrimaryEmail(u.emails) == "" then None else Some(PrimaryEmail(u.emails)))
            && (u.active.Some? ==> c.active == u.active.value) && (u.active.None? ==> c.active)
            && c.extended == extended
  {
    assert Trim("") == "";
  }

  /** What a user must satisfy to be stored: the schema, a name that is not blank, and no attribute over 256. */
  lemma ValidExactly(u: ScimUser)
    ensures Valid(u) <==>
              && "urn:ietf:params:scim:schemas:core:2.0:User" in u.schemas
              && Trim(u.userName) != "" && |Trim(u.userName)| <= 256
              && (u.name.Some? ==> |u.name.value.givenName| <= 256 && |u.name.value.familyName| <= 256)
              && |PrimaryEmail(u.emails)| <= 256
  {
  }
}
