/** SCIM resources, how JSON values decode into them, and how they map to stored rows. */
module Scim {
  import opened Text
  import opened Entities

  datatype Name = Name(givenName: string, familyName: string)

  datatype Email = Email(value: string, primary: bool)

  /** The client-writable part of a user resource. */
  datatype ScimUser = ScimUser(
    schemas: seq<string>,
    externalId: string,
    userName: string,
    name: Option<Name>,
    emails: seq<Email>,
    active: Option<bool>)

  const USER_SCHEMA := "urn:ietf:params:scim:schemas:core:2.0:User"
  const MAX_ATTR_LEN := 256

  // ---- Decoding; an absent value decodes as nothing, null leaves a zero value ----

  function DecodeString(v: Option<Json>): Option<string> {
    if v.Some? && v.value.Str? then Some(v.value.s)
    else if v.Some? && v.value.Null? then Some("")
    else None
  }

  function DecodeBool(v: Option<Json>): Option<bool> {
    if v.None? then None
    else
      match v.value
      case Bool(b) => Some(b)
      case Null => Some(false)
      case Str(s) =>
        if Lower(s) == "true" then Some(true)
        else if Lower(s) == "false" || Lower(s) == "null" || s == "" then Some(false)
        else None
      case _ => None
  }

  /** Fields match case-insensitively, a later one wins, null leaves the field alone. */
  function NameFields(n: Name, fields: seq<(string, Json)>): Option<Name>
    decreases |fields|
  {
    if fields == [] then Some(n)
    else
      var (k, v) := fields[0];
      if Lower(k) != "givenname" && Lower(k) != "familyname" then NameFields(n, fields[1..])
      else if v.Null? then NameFields(n, fields[1..])
      else if !v.Str? then None
      else if Lower(k) == "givenname" then NameFields(n.(givenName := v.s), fields[1..])
      else NameFields(n.(familyName := v.s), fields[1..])
  }

  function DecodeName(v: Option<Json>): Option<Name> {
    if v.Some? && v.value.Object? then NameFields(Name("", ""), v.value.fields)
    else if v.Some? && v.value.Null? then Some(Name("", ""))
    else None
  }

  function EmailFields(e: Email, fields: seq<(string, Json)>): Option<Email>
    decreases |fields|
  {
    if fields == [] then Some(e)
    else
      var (k, v) := fields[0];
      if Lower(k) == "value" then
        if v.Null? then EmailFields(e, fields[1..])
        else if v.Str? then EmailFields(e.(value := v.s), fields[1..])
        else None
      else if Lower(k) == "primary" then
        match DecodeBool(Some(v))
        case Some(b) => EmailFields(e.(primary := b), fields[1..])
        case None => None
      else EmailFields(e, fields[1..])
  }

  function DecodeEmail(v: Json): Option<Email> {
    if v.Object? then EmailFields(Email("", false), v.fields)
    else if v.Null? then Some(Email("", false))
    else None
  }

  function DecodeEmails(items: seq<Json>): Option<seq<Email>> {
    if items == [] then Some([])
    else
      match (DecodeEmail(items[0]), DecodeEmails(items[1..]))
      case (Some(e), Some(rest)) => Some([e] + rest)
      case _ => None
  }

  /** A value without a path: an object's fields in visiting order; null counts as an empty object. */
  function AsObject(v: Option<Json>): Option<seq<(string, Json)>> {
    if v.Some? && v.value.Object? then Some(v.value.fields)
    else if v.Some? && v.value.Null? then Some([])
    else None
  }

  // ---- Mapping ----

  function NonEmpty(s: string): Option<string> {
    if s == "" then None else Some(s)
  }

  function FirstPrimary(emails: seq<Email>): Option<Email> {
    if emails == [] then None
    else if emails[0].primary then Some(emails[0])
    else FirstPrimary(emails[1..])
  }

  function PrimaryEmail(emails: seq<Email>): string {
    match FirstPrimary(emails)
    case Some(e) => Trim(e.value)
    case None => if emails == [] then "" else Trim(emails[0].value)
  }

  /** The loop over the addresses. */
  method FindPrimaryEmail(emails: seq<Email>) returns (r: string)
    ensures r == PrimaryEmail(emails)
  {
    for i := 0 to |emails|
      invariant FirstPrimary(emails) == FirstPrimary(emails[i..])
    {
      if emails[i].primary {
        return Trim(emails[i].value);
      }
    }
    if |emails| > 0 {
      return Trim(emails[0].value);
    }
    r := "";
  }

  function ToColumns(u: ScimUser, extended: map<string, Json>): Columns {
    Columns(
      Trim(u.userName),
      NonEmpty(Trim(u.externalId)),
      if u.name.Some? then NonEmpty(Trim(u.name.value.givenName)) else None,
      if u.name.Some? then NonEmpty(Trim(u.name.value.familyName)) else None,
      NonEmpty(PrimaryEmail(u.emails)),
      if u.active.Some? then u.active.value else true,
      extended)
  }

  function OrEmpty(s: Option<string>): string {
    if s.Some? then s.value else ""
  }

  function FromColumns(c: Columns): ScimUser {
    ScimUser(
      [USER_SCHEMA],
      OrEmpty(c.externalId),
      c.userName,
      if c.givenName.Some? || c.familyName.Some? then Some(Name(OrEmpty(c.givenName), OrEmpty(c.familyName))) else None,
      if c.email.Some? then [Email(c.email.value, true)] else [],
      Some(c.active))
  }

  /** An optional column as the mapper writes it: absent, or trimmed and not empty. */
  predicate Tidy(s: Option<string>) {
    s.Some? ==> s.value != "" && Trimmed(s.value)
  }

  predicate Normalised(c: Columns) {
    Trimmed(c.userName) && Tidy(c.externalId) && Tidy(c.givenName) && Tidy(c.familyName) && Tidy(c.email)
  }

  lemma TidyTrim(s: string)
    ensures Tidy(NonEmpty(Trim(s)))
  {
    TrimIsTrimmed(s);
  }

  /** Whatever a client sends, the mapper writes a normalised row. */
  lemma MapperNormalises(u: ScimUser, extended: map<string, Json>)
    ensures Normalised(ToColumns(u, extended))
  {
    TrimIsTrimmed(u.userName);
    TidyTrim(u.externalId);
    if u.name.Some? {
      TidyTrim(u.name.value.givenName);
      TidyTrim(u.name.value.familyName);
    }
    match FirstPrimary(u.emails)
    case Some(e) => TidyTrim(e.value);
    case None => if u.emails != [] { TidyTrim(u.emails[0].value); }
  }

  /** Reading a normalised row as a resource and mapping it back changes no column. */
  lemma MapperRoundTrip(c: Columns)
    requires Normalised(c)
    ensures ToColumns(FromColumns(c), c.extended) == c
  {
  }

  /** What a create, replace or patch must satisfy before it reaches the store. */
  predicate Valid(u: ScimUser) {
    && USER_SCHEMA in u.schemas
    && 0 < |Trim(u.userName)| <= MAX_ATTR_LEN
    && (u.name.Some? ==> |u.name.value.givenName| <= MAX_ATTR_LEN && |u.name.value.familyName| <= MAX_ATTR_LEN)
    && |PrimaryEmail(u.emails)| <= MAX_ATTR_LEN
  }
}
