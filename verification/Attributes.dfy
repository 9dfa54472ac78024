/** The registry of extended attributes: what it admits, what is captured and what a response shows. */
module Attributes {
  import opened Text
  import opened Entities
  import opened Scim
  import opened PatchSplit

  /** The core attribute names, lower-cased, which no tenant may register. */
  const RESERVED: set<string> := {
    "schemas", "id", "username", "externalid", "name", "emails", "active", "meta", "password"
  }

  predicate Reserved(name: string) {
    Lower(name) in RESERVED
  }

  datatype RegistryResult = Accepted(name: string) | ReservedName | Duplicate | Missing

  datatype AdminAction = AttributeRegister | AttributeUnregister

  datatype AdminEntry = AdminEntry(tenant: string, action: AdminAction, name: string)

  /** NameSet as stored, per tenant. */
  type NameSet = set<(string, string)>

  ghost predicate NoReserved(names: NameSet) {
    forall k | k in names :: !Reserved(k.1) && Trimmed(k.1)
  }

  /** The registry after an attempt to register a name; a reserved name changes nothing. */
  function WithName(names: NameSet, tenant: string, raw: string): NameSet {
    if Reserved(Trim(raw)) then names else names + {(tenant, Trim(raw))}
  }

  function WithoutName(names: NameSet, tenant: string, raw: string): NameSet {
    names - {(tenant, Trim(raw))}
  }

  lemma RegistryStaysClean(names: NameSet, tenant: string, raw: string)
    requires NoReserved(names)
    ensures NoReserved(WithName(names, tenant, raw)) && NoReserved(WithoutName(names, tenant, raw))
  {
    TrimIsTrimmed(raw);
  }

  /** `tenant_attributes`, with its admin log. */
  class AttributeTable {
    var names: NameSet
    var log: seq<AdminEntry>

    ghost predicate Valid()
      reads this
    {
      NoReserved(names)
    }

    constructor ()
      ensures Valid() && names == {} && log == []
    {
      names, log := {}, [];
    }

    method Register(tenant: string, raw: string) returns (r: RegistryResult)
      requires Valid()
      modifies this
      ensures Valid()
      ensures r.ReservedName? <==>
                Lower(Trim(raw)) in
                  {"schemas", "id", "username", "externalid", "name", "emails", "active", "meta", "password"}
      ensures r.Duplicate? <==> !r.ReservedName? && (tenant, Trim(raw)) in old(names)
      ensures r.Accepted? <==> !r.ReservedName? && !r.Duplicate?
      ensures r.Accepted? ==> r.name == Trim(raw)
      ensures names == WithName(old(names), tenant, raw)
      ensures names == if r.Accepted? then old(names) + {(tenant, Trim(raw))} else old(names)
      ensures r.Accepted? ==> log == old(log) + [AdminEntry(tenant, AttributeRegister, Trim(raw))]
      ensures !r.Accepted? ==> log == old(log)
    {
      RegistryStaysClean(names, tenant, raw);
      var name := Trim(raw);
      if Lower(name) in RESERVED {
        return ReservedName;
      }
      if (tenant, name) in names {
        assert names + {(tenant, name)} == names;
        return Duplicate;
      }
      names := names + {(tenant, name)};
      log := log + [AdminEntry(tenant, AttributeRegister, name)];
      r := Accepted(name);
    }

    method Unregister(tenant: string, raw: string) returns (r: RegistryResult)
      requires Valid()
      modifies this
      ensures Valid()
      ensures r.Missing? <==> (tenant, Trim(raw)) !in old(names)
      ensures names == WithoutName(old(names), tenant, raw) == old(names) - {(tenant, Trim(raw))}
      ensures !r.Missing? ==> log == old(log) + [AdminEntry(tenant, AttributeUnregister, Trim(raw))]
      ensures r.Missing? ==> log == old(log)
    {
      RegistryStaysClean(names, tenant, raw);
      var name := Trim(raw);
      if (tenant, name) !in names {
        assert names - {(tenant, name)} == names;
        return Missing;
      }
      names := names - {(tenant, name)};
      log := log + [AdminEntry(tenant, AttributeUnregister, name)];
      r := Accepted(name);
    }
  }

  // ---- From registry rows to a lookup ----

  /** Lower-cased name to registered name; of two names that differ in case the later listed wins. */
  function Lookup(listing: seq<string>): Registry {
    if listing == [] then map[]
    else Lookup(listing[..|listing| - 1])[Lower(listing[|listing| - 1]) := listing[|listing| - 1]]
  }

  /** The loop that fills the lookup. */
  method RegisteredAttributes(listing: seq<string>) returns (reg: Registry)
    ensures reg == Lookup(listing)
    ensures forall k | k in reg :: reg[k] in listing && Lower(reg[k]) == k
    ensures forall n | n in listing :: Lower(n) in reg
  {
    reg := map[];
    for i := 0 to |listing|
      invariant reg == Lookup(listing[..i])
      invariant forall k | k in reg :: reg[k] in listing && Lower(reg[k]) == k
      invariant forall j :: 0 <= j < i ==> Lower(listing[j]) in reg
    {
      assert listing[..i + 1][..i] == listing[..i];
      reg := reg[Lower(listing[i]) := listing[i]];
    }
    assert listing[..|listing|] == listing;
  }

  lemma {:induction false} LookupFrom(listing: seq<string>, k: string)
    requires k in Lookup(listing)
    ensures Lookup(listing)[k] in listing && Lower(Lookup(listing)[k]) == k
  {
    var n := |listing| - 1;
    if k != Lower(listing[n]) {
      LookupFrom(listing[..n], k);
    }
  }

  /** Of two names that differ in case only, the later listed is the one a key stands for. */
  lemma {:induction false} LookupLast(listing: seq<string>, i: nat)
    requires i < |listing| && forall j :: i < j < |listing| ==> Lower(listing[j]) != Lower(listing[i])
    ensures Lower(listing[i]) in Lookup(listing) && Lookup(listing)[Lower(listing[i])] == listing[i]
  {
    if i < |listing| - 1 {
      LookupLast(listing[..|listing| - 1], i);
    }
  }

  // ---- Capturing a request body ----

  function Captured(body: seq<(string, Json)>, reg: Registry): Blob {
    if body == [] then map[]
    else
      var (k, v) := body[|body| - 1];
      var blob := Captured(body[..|body| - 1], reg);
      if Lower(k) in reg then blob[reg[Lower(k)] := v] else blob
  }

  method CaptureExtended(body: seq<(string, Json)>, reg: Registry) returns (ext: Blob)
    ensures ext == Captured(body, reg)
  {
    ext := map[];
    if |reg| == 0 || |body| == 0 {
      NothingCaptured(body);
      return;
    }
    for i := 0 to |body|
      invariant ext == Captured(body[..i], reg)
    {
      assert body[..i + 1][..i] == body[..i];
      var (k, v) := body[i];
      if Lower(k) in reg {
        ext := ext[reg[Lower(k)] := v];
      }
    }
    assert body[..|body|] == body;
  }

  lemma {:induction false} NothingCaptured(body: seq<(string, Json)>)
    ensures Captured(body, map[]) == map[]
  {
    if body != [] {
      NothingCaptured(body[..|body| - 1]);
    }
  }

  /** A name is captured exactly when some key of the body spells it, in any casing and any visiting order. */
  lemma {:induction false} CapturedNames(body: seq<(string, Json)>, reg: Registry, name: string)
    ensures name in Captured(body, reg) <==>
              exists i :: 0 <= i < |body| && Lower(body[i].0) in reg && reg[Lower(body[i].0)] == name
  {
    if body != [] {
      var n := |body| - 1;
      CapturedNames(body[..n], reg, name);
      assert forall i :: 0 <= i < n ==> body[..n][i] == body[i];
      if name in Captured(body[..n], reg) {
        var i :| 0 <= i < n && Lower(body[..n][i].0) in reg && reg[Lower(body[..n][i].0)] == name;
        assert body[i] == body[..n][i];
      }
    }
  }

  /** Its value is the one under the last such key that is visited, the only one when one key spells it. */
  lemma {:induction false} CapturedValue(body: seq<(string, Json)>, reg: Registry, i: nat, name: string)
    requires i < |body| && Lower(body[i].0) in reg && reg[Lower(body[i].0)] == name
    requires forall j :: i < j < |body| ==> !(Lower(body[j].0) in reg && reg[Lower(body[j].0)] == name)
    ensures name in Captured(body, reg) && Captured(body, reg)[name] == body[i].1
  {
    var n := |body| - 1;
    if i < n {
      assert forall j :: 0 <= j < n ==> body[..n][j] == body[j];
      CapturedValue(body[..n], reg, i, name);
    }
  }

  /** The blob only ever gets registered names. */
  lemma {:induction false} CapturesRegistered(body: seq<(string, Json)>, reg: Registry, name: string)
    requires name in Captured(body, reg)
    ensures name in reg.Values
  {
    var (k, _) := body[|body| - 1];
    if !(Lower(k) in reg && reg[Lower(k)] == name) {
      CapturesRegistered(body[..|body| - 1], reg, name);
    }
  }

  // ---- Rendering a response ----

  predicate IsUrn(name: string) {
    |name| >= 4 && name[..4] == "urn:"
  }

  type Response = map<string, Json>

  function Occurrences(items: seq<Json>, s: string): nat {
    if items == [] then 0 else Occurrences(items[..|items| - 1], s) + (if items[|items| - 1] == Str(s) then 1 else 0)
  }

  lemma {:induction false} OccursIffIn(items: seq<Json>, s: string)
    ensures Occurrences(items, s) == 0 <==> Str(s) !in items
  {
    if items != [] {
      OccursIffIn(items[..|items| - 1], s);
      assert items == items[..|items| - 1] + [items[|items| - 1]];
    }
  }

  /** Declares an extension once. */
  method AddSchemaUrn(schemas: seq<Json>, urn: string) returns (out: seq<Json>)
    ensures out == if Str(urn) in schemas then schemas else schemas + [Str(urn)]
  {
    for i := 0 to |schemas|
      invariant forall j :: 0 <= j < i ==> schemas[j] != Str(urn)
    {
      if schemas[i] == Str(urn) {
        return schemas;
      }
    }
    out := schemas + [Str(urn)];
  }

  ghost predicate DistinctKeys(ext: seq<(string, Json)>) {
    forall i, j :: 0 <= i < j < |ext| ==> ext[i].0 != ext[j].0
  }

  /** The names visited so far. */
  function Keys(ext: seq<(string, Json)>): set<string> {
    set e | e in ext :: e.0
  }

  /** The core schema and each extension seen so far are declared once, and nothing else is. */
  ghost predicate DeclaresOnce(schemas: seq<Json>, core: Response, seen: set<string>) {
    forall s :: Occurrences(schemas, s) ==
      if s == "urn:ietf:params:scim:schemas:core:2.0:User" || ("urn:" <= s && s in seen && s !in core)
      then 1 else 0
  }

  lemma DeclareNext(schemas: seq<Json>, declared: seq<Json>, core: Response, seen: set<string>, k: string)
    requires DeclaresOnce(schemas, core, seen) && k !in core && IsUrn(k)
    requires declared == if Str(k) in schemas then schemas else schemas + [Str(k)]
    ensures DeclaresOnce(declared, core, seen + {k})
  {
    OccursIffIn(schemas, k);
    assert (schemas + [Str(k)])[..|schemas|] == schemas;
    forall s ensures Occurrences(schemas + [Str(k)], s) == Occurrences(schemas, s) + (if s == k then 1 else 0) {
    }
  }

  /** Core attributes keep their value, and the other visited entries appear beside them. */
  ghost predicate Merged(core: Response, visited: seq<(string, Json)>, out: Response) {
    && out.Keys == core.Keys + Keys(visited)
    && (forall k | k in core && k != "schemas" :: out[k] == core[k])
    && (forall e | e in visited && e.0 !in core :: out[e.0] == e.1)
  }

  lemma MergeNext(core: Response, visited: seq<(string, Json)>, out: Response, e: (string, Json))
    requires Merged(core, visited, out) && e.0 !in Keys(visited)
    ensures Merged(core, visited + [e], if e.0 in core then out else out[e.0 := e.1])
  {
  }

  lemma DeclareKeepsMerge(core: Response, visited: seq<(string, Json)>, out: Response, schemas: Json)
    requires Merged(core, visited, out) && "schemas" in core
    ensures Merged(core, visited, out["schemas" := schemas])
  {
  }

  lemma NextKey(ext: seq<(string, Json)>, i: nat)
    requires i < |ext| && DistinctKeys(ext)
    ensures ext[i].0 !in Keys(ext[..i])
    ensures ext[..i + 1] == ext[..i] + [ext[i]] && Keys(ext[..i + 1]) == Keys(ext[..i]) + {ext[i].0}
  {
  }

  /**
   Merges the blob into the response, in any visiting order: every core attribute keeps its value,
   every other extended key appears, and each extension is declared in `schemas` exactly once.
   */
  method ShapeUser(core: Response, ext: seq<(string, Json)>) returns (out: Response)
    requires "schemas" in core && core["schemas"] == Array([Str(USER_SCHEMA)])
    requires DistinctKeys(ext)
    ensures out.Keys == core.Keys + Keys(ext)
    ensures forall k | k in core && k != "schemas" :: out[k] == core[k]
    ensures forall e | e in ext && e.0 !in core :: out[e.0] == e.1
    ensures out["schemas"].Array?
    ensures DeclaresOnce(out["schemas"].items, core, Keys(ext))
  {
    out := core;
    var schemas := [Str(USER_SCHEMA)];
    assert schemas[..0] == [];
    for i := 0 to |ext|
      invariant Merged(core, ext[..i], out)
      invariant out["schemas"] == Array(schemas)
      invariant DeclaresOnce(schemas, core, Keys(ext[..i]))
    {
      var (k, v) := ext[i];
      NextKey(ext, i);
      MergeNext(core, ext[..i], out, ext[i]);
      if k !in core {
        out := out[k := v];
        if IsUrn(k) {
          var declared := AddSchemaUrn(schemas, k);
          DeclareNext(schemas, declared, core, Keys(ext[..i]), k);
          DeclareKeepsMerge(core, ext[..i + 1], out, Array(declared));
          schemas := declared;
          out := out["schemas" := Array(schemas)];
        }
      }
    }
    assert ext[..|ext|] == ext;
  }
}
