/** PATCH of a stored group: read, fold, validate, map back and replace. */
module GroupRequests {
  import opened Text
  import opened Entities
  import opened Ordering
  import opened Scim
  import opened Patch
  import opened Store
  import opened GroupPatch
  import opened Membership

  // ---- Mapping ----

  function StoreMembers(members: seq<string>): seq<string> {
    if members == [] then []
    else
      var n := |members| - 1;
      StoreMembers(members[..n]) + (if Trim(members[n]) == "" then [] else [Trim(members[n])])
  }

  method MapMembers(members: seq<string>) returns (out: seq<string>)
    ensures out == StoreMembers(members)
    ensures forall s :: s in out <==> s != "" && exists m :: m in members && Trim(m) == s
  {
    out := [];
    for i := 0 to |members|
      invariant out == StoreMembers(members[..i])
      invariant forall s :: s in out <==> s != "" && exists m :: m in members[..i] && Trim(m) == s
    {
      assert members[..i + 1][..i] == members[..i] && members[i] in members[..i + 1];
      var v := Trim(members[i]);
      if v != "" {
        out := out + [v];
      }
    }
    assert members[..|members|] == members;
  }

  function ToInput(g: ScimGroup): GroupInput {
    GroupInput(Trim(g.displayName), NonEmpty(Trim(g.externalId)), StoreMembers(g.members))
  }

  function Texts(codec: Codec, ids: seq<Uuid>): seq<string> {
    seq(|ids|, i requires 0 <= i < |ids| => codec.text(ids[i]))
  }

  function FromGroup(codec: Codec, g: Group): ScimGroup {
    ScimGroup([GROUP_SCHEMA], g.displayName, OrEmpty(g.externalId), Texts(codec, g.members))
  }

  predicate ValidGroup(g: ScimGroup) {
    GROUP_SCHEMA in g.schemas && 0 < |Trim(g.displayName)| <= MAX_ATTR_LEN
  }

  // ---- The request ----

  /** The group a PATCH would write, when it gets as far as the store. */
  ghost function Desired(codec: Codec, t: Tables, k: Uuid, ops: seq<Operation>): Option<ScimGroup>
    requires k in t.groups
  {
    match PatchedGroup(FromGroup(codec, GroupOf(t.groups, t.members, k)), ops)
    case Err(_) => None
    case Ok(g) => if ValidGroup(g) then Some(g) else None
  }

  /** No outcome means the request was answered before it reached the store. */
  ghost function PatchGroup(
    cfg: Config, env: Env, db: Db, call: Call, id: string, ops: seq<Operation>): (Db, Option<Outcome>)
  {
    match cfg.codec.parse(id)
    case None => (db, None)
    case Some(k) =>
      if !OwnGroup(db.tables.groups, call.tenant, k) then (db, None)
      else
        match Desired(cfg.codec, db.tables, k, ops)
        case None => (db, None)
        case Some(g) => var (db', out) := Transact(cfg, env, db, call, UpdateGroup(id, ToInput(g))); (db', Some(out))
  }

  // ---- Set algebra on what is stored ----

  function TextSet(codec: Codec, ids: set<Uuid>): set<string> {
    set u | u in ids :: codec.text(u)
  }

  /** The user an id stands for once the mapper has trimmed it. */
  function Meant(codec: Codec, s: string): Option<Uuid> {
    if Trim(s) == "" then None else codec.parse(Trim(s))
  }

  /** The users a set of ids stands for. */
  function MeantSet(codec: Codec, ids: set<string>): set<Uuid> {
    set s | s in ids && Meant(codec, s).Some? :: Meant(codec, s).value
  }

  /** The database prints an id without surrounding space. */
  ghost predicate PlainText(codec: Codec) {
    forall u: Uuid :: codec.text(u) != "" && Trimmed(codec.text(u))
  }

  /** Every id names a user of the tenant, and no two name the same one. */
  ghost predicate NameDistinctUsers(codec: Codec, users: Users, tenant: string, ids: set<string>) {
    && (forall s | s in ids :: Names(codec, users, tenant, s))
    && (forall s, r | s in ids && r in ids && s != r :: codec.parse(s) != codec.parse(r))
  }

  lemma TextsOf(codec: Codec, ids: seq<Uuid>)
    ensures Elements(Texts(codec, ids)) == TextSet(codec, Elements(ids))
  {
    forall s | s in TextSet(codec, Elements(ids)) ensures s in Texts(codec, ids) {
      var u :| u in Elements(ids) && codec.text(u) == s;
      var i :| 0 <= i < |ids| && ids[i] == u;
      assert Texts(codec, ids)[i] == s;
    }
  }

  /** The trimmed ids, without those nothing is left of. */
  function TrimSet(ids: set<string>): set<string> {
    set s | s in ids && Trim(s) != "" :: Trim(s)
  }

  lemma {:induction false} StoredFrom(members: seq<string>, s: string)
    requires s in StoreMembers(members)
    ensures s != "" && exists m :: m in members && Trim(m) == s
  {
    var n := |members| - 1;
    if s in StoreMembers(members[..n]) {
      StoredFrom(members[..n], s);
      var m :| m in members[..n] && Trim(m) == s;
      assert m in members;
    } else {
      assert members[n] in members;
    }
  }

  lemma {:induction false} StoredAll(members: seq<string>, i: nat)
    requires i < |members| && Trim(members[i]) != ""
    ensures Trim(members[i]) in StoreMembers(members)
  {
    var n := |members| - 1;
    if i < n {
      StoredAll(members[..n], i);
    }
  }

  lemma TrimmedAreStored(members: seq<string>)
    ensures Elements(StoreMembers(members)) == TrimSet(Elements(members))
  {
    forall s | s in StoreMembers(members) ensures s in TrimSet(Elements(members)) {
      StoredFrom(members, s);
    }
    forall s | s in TrimSet(Elements(members)) ensures s in StoreMembers(members) {
      var m :| m in members && Trim(m) == s;
      var i :| 0 <= i < |members| && members[i] == m;
      StoredAll(members, i);
    }
  }

  /** The ids a PATCH leaves in the group: the old members' ids through the operations' effects. */
  ghost function Left(codec: Codec, members: Members, k: Uuid, ops: seq<Operation>): set<string> {
    TakeAll(TextSet(codec, MemberSet(members, k)), AllEffects(ops))
  }

  lemma DesiredMembers(codec: Codec, t: Tables, k: Uuid, ops: seq<Operation>)
    requires k in t.groups && Desired(codec, t, k, ops).Some?
    ensures Elements(ToInput(Desired(codec, t, k, ops).value).members) == TrimSet(Left(codec, t.members, k, ops))
  {
    var g := FromGroup(codec, GroupOf(t.groups, t.members, k));
    ReadsAllMembers(t.members, k);
    TextsOf(codec, MembersOf(t.members, k));
    FoldIsSetAlgebra(g, ops);
    TrimmedAreStored(Desired(codec, t, k, ops).value.members);
  }

  lemma AcceptsLeft(codec: Codec, users: Users, tenant: string, ids: seq<string>, left: set<string>)
    requires Elements(ids) == TrimSet(left)
    ensures Accept(codec, users, tenant, ids).Some? <==> NameDistinctUsers(codec, users, tenant, TrimSet(left))
    ensures Accept(codec, users, tenant, ids).Some? ==>
              Accept(codec, users, tenant, ids).value == MeantSet(codec, left)
  {
    AcceptsExactly(codec, users, tenant, ids);
    assert forall s :: s in ids <==> s in TrimSet(left);
    if Accept(codec, users, tenant, ids).Some? {
      var found := Accept(codec, users, tenant, ids).value;
      forall u | u in MeantSet(codec, left) ensures u in found {
        var s :| s in left && Meant(codec, s) == Some(u);
        assert Trim(s) in ids && Names(codec, users, tenant, Trim(s));
      }
      forall u | u in found ensures u in MeantSet(codec, left) {
        var r :| r in ids && r != "" && codec.parse(r) == Some(u);
        var s :| s in left && Trim(s) == r;
        assert Meant(codec, s) == Some(u);
      }
    }
  }

  /** The checks of a replace that come before membership. */
  ghost predicate NamesFree(groups: Groups, tenant: string, k: Uuid, g: ScimGroup) {
    && !GroupNameTaken(groups, tenant, Trim(g.displayName), Some(k))
    && !GroupExternalIdTaken(groups, tenant, NonEmpty(Trim(g.externalId)), Some(k))
  }

  lemma ReplaceDecision(codec: Codec, env: Env, t: Tables, tenant: string, id: string, k: Uuid, g: ScimGroup)
    requires codec.parse(id) == Some(k) && OwnGroup(t.groups, tenant, k)
    ensures var d := Decide(codec, env, t, tenant, UpdateGroup(id, ToInput(g)));
            var found := Accept(codec, t.users, tenant, ToInput(g).members);
            && (d.Write? <==> NamesFree(t.groups, tenant, k, g) && found.Some?)
            && (d.Write? ==>
                  d.edit.PutGroup? && d.edit.id == k && d.edit.members == found.value && d.edit.now == env.now)
  {
  }

  /** What a replace of an existing group does, by the checks it passes. */
  lemma ReplaceOutcome(cfg: Config, env: Env, db: Db, call: Call, id: string, k: Uuid, g: ScimGroup)
    requires cfg.codec.parse(id) == Some(k) && OwnGroup(db.tables.groups, call.tenant, k)
    ensures var (db', out) := Transact(cfg, env, db, call, UpdateGroup(id, ToInput(g)));
            var t, t' := db.tables, db'.tables;
            var found := Accept(cfg.codec, t.users, call.tenant, ToInput(g).members);
            && (out.Changed? <==> !env.fault && NamesFree(t.groups, call.tenant, k, g) && found.Some?)
            && (out.Changed? ==>
                  && t'.members == WithMembers(t.members, k, found.value, call.tenant, env.now)
                  && t'.users == t.users && t'.groups.Keys == t.groups.Keys)
            && (!out.Changed? ==> t' == t && db'.outbox == db.outbox)
  {
    ReplaceDecision(cfg.codec, env, db.tables, call.tenant, id, k, g);
  }

  ghost predicate Carried(out: Option<Outcome>) {
    out.Some? && out.value.Changed?
  }

  /** The members of one group become these users; nothing else about membership changes. */
  ghost predicate MembersBecome(t: Tables, t': Tables, k: Uuid, ids: set<Uuid>) {
    && MemberSet(t'.members, k) == ids
    && (forall h | h != k :: MemberSet(t'.members, h) == MemberSet(t.members, h))
    && t'.users == t.users && t'.groups.Keys == t.groups.Keys
  }

  /**
   A PATCH is carried out exactly when its operations apply, the names are free and the ids it leaves
   name, once trimmed, pairwise distinct users of the tenant; the group's members are then the users
   those ids stand for, every other group's members stay, and otherwise no row changes at all.
   */
  lemma GroupPatchRefinesSets(cfg: Config, env: Env, db: Db, call: Call, id: string, k: Uuid, ops: seq<Operation>)
    requires cfg.codec.parse(id) == Some(k) && OwnGroup(db.tables.groups, call.tenant, k)
    ensures var (db', out) := PatchGroup(cfg, env, db, call, id, ops);
            var t := db.tables;
            var left := Left(cfg.codec, t.members, k, ops);
            var g := Desired(cfg.codec, t, k, ops);
            && (Carried(out) <==> !env.fault && g.Some? && NamesFree(t.groups, call.tenant, k, g.value)
                                  && NameDistinctUsers(cfg.codec, t.users, call.tenant, TrimSet(left)))
            && (Carried(out) ==> MembersBecome(t, db'.tables, k, MeantSet(cfg.codec, left)))
            && (!Carried(out) ==> db'.tables == t && db'.outbox == db.outbox)
  {
    var t, g := db.tables, Desired(cfg.codec, db.tables, k, ops);
    if g.Some? {
      var ids, left := ToInput(g.value).members, Left(cfg.codec, t.members, k, ops);
      DesiredMembers(cfg.codec, t, k, ops);
      AcceptsLeft(cfg.codec, t.users, call.tenant, ids, left);
      ReplaceOutcome(cfg, env, db, call, id, k, g.value);
      var found := Accept(cfg.codec, t.users, call.tenant, ids);
      if found.Some? {
        MembersAfter(t.members, k, found.value, call.tenant, env.now);
      }
    }
  }

  // ---- The same on users instead of spellings ----

  function OnUsers(codec: Codec, e: Effect<string>): Effect<Uuid> {
    match e
    case Union(ids) => Union(MeantSet(codec, ids))
    case Overwrite(ids) => Overwrite(MeantSet(codec, ids))
    case Difference(ids) => Difference(MeantSet(codec, ids))
  }

  function AllOnUsers(codec: Codec, effects: seq<Effect<string>>): seq<Effect<Uuid>> {
    seq(|effects|, i requires 0 <= i < |effects| => OnUsers(codec, effects[i]))
  }

  /** No id that would stay stands for the same user as an id that is taken out. */
  ghost predicate Unaliased(codec: Codec, s: set<string>, e: Effect<string>) {
    e.Difference? ==>
      forall r, x | r in s && r !in e.ids && x in e.ids && Meant(codec, r).Some? :: Meant(codec, r) != Meant(codec, x)
  }

  /** That is exactly when the effect on spellings is the effect on users. */
  lemma TakeOnUsers(codec: Codec, s: set<string>, e: Effect<string>)
    ensures MeantSet(codec, Take(s, e)) == Take(MeantSet(codec, s), OnUsers(codec, e)) <==> Unaliased(codec, s, e)
  {
    var l, r := MeantSet(codec, Take(s, e)), Take(MeantSet(codec, s), OnUsers(codec, e));
    forall u | u in r ensures u in l {
      var x :| (x in s || x in e.ids) && Meant(codec, x) == Some(u) && x in Take(s, e);
    }
    if e.Difference? {
      if Unaliased(codec, s, e) {
        forall u | u in l ensures u in r {
          var x :| x in s && x !in e.ids && Meant(codec, x) == Some(u);
        }
      } else {
        var x, y :| x in s && x !in e.ids && y in e.ids && Meant(codec, x).Some? && Meant(codec, x) == Meant(codec, y);
        assert Meant(codec, x).value in l && Meant(codec, y).value in OnUsers(codec, e).ids;
      }
    } else {
      forall u | u in l ensures u in r {
        var x :| x in Take(s, e) && Meant(codec, x) == Some(u);
      }
    }
  }

  /** At every removal along the list. */
  ghost predicate AllUnaliased(codec: Codec, s: set<string>, effects: seq<Effect<string>>)
    decreases |effects|
  {
    effects != [] ==> Unaliased(codec, s, effects[0]) && AllUnaliased(codec, Take(s, effects[0]), effects[1..])
  }

  lemma {:induction false} TakeAllOnUsers(codec: Codec, s: set<string>, effects: seq<Effect<string>>)
    requires AllUnaliased(codec, s, effects)
    ensures MeantSet(codec, TakeAll(s, effects)) == TakeAll(MeantSet(codec, s), AllOnUsers(codec, effects))
    decreases |effects|
  {
    if effects != [] {
      TakeOnUsers(codec, s, effects[0]);
      TakeAllOnUsers(codec, Take(s, effects[0]), effects[1..]);
      assert AllOnUsers(codec, effects)[1..] == AllOnUsers(codec, effects[1..]);
    }
  }

  lemma TextsMean(codec: Codec, ids: set<Uuid>)
    requires Faithful(codec) && PlainText(codec)
    ensures MeantSet(codec, TextSet(codec, ids)) == ids
  {
    forall u | u in ids ensures u in MeantSet(codec, TextSet(codec, ids)) {
      TrimOfTrimmed(codec.text(u));
      assert codec.text(u) in TextSet(codec, ids) && Meant(codec, codec.text(u)) == Some(u);
    }
    forall u | u in MeantSet(codec, TextSet(codec, ids)) ensures u in ids {
      var s :| s in TextSet(codec, ids) && Meant(codec, s) == Some(u);
      var v :| v in ids && codec.text(v) == s;
      TrimOfTrimmed(s);
    }
  }

  /**
   Where no removal names a held user under another spelling than the one held, a PATCH is the set
   operations on the members themselves; adds and overwrites may spell ids as they like.
   */
  lemma UnaliasedGroupPatch(cfg: Config, env: Env, db: Db, call: Call, id: string, k: Uuid, ops: seq<Operation>)
    requires Faithful(cfg.codec) && PlainText(cfg.codec)
    requires cfg.codec.parse(id) == Some(k) && OwnGroup(db.tables.groups, call.tenant, k)
    requires AllUnaliased(cfg.codec, TextSet(cfg.codec, MemberSet(db.tables.members, k)), AllEffects(ops))
    ensures var (db', out) := PatchGroup(cfg, env, db, call, id, ops);
            Carried(out) ==>
              MemberSet(db'.tables.members, k)
              == TakeAll(MemberSet(db.tables.members, k), AllOnUsers(cfg.codec, AllEffects(ops)))
  {
    var held := MemberSet(db.tables.members, k);
    GroupPatchRefinesSets(cfg, env, db, call, id, k, ops);
    TakeAllOnUsers(cfg.codec, TextSet(cfg.codec, held), AllEffects(ops));
    TextsMean(cfg.codec, held);
  }

  // ---- Canonically spelled ids ----

  predicate Canonical(codec: Codec, s: string) {
    codec.parse(s).Some? && codec.text(codec.parse(s).value) == s
  }

  ghost predicate AllCanonical(codec: Codec, ids: set<string>) {
    forall s | s in ids :: Canonical(codec, s)
  }

  ghost predicate CanonicalIds(codec: Codec, effects: seq<Effect<string>>) {
    forall i :: 0 <= i < |effects| ==> AllCanonical(codec, effects[i].ids)
  }

  lemma CanonicalMeans(codec: Codec, s: string)
    requires PlainText(codec) && Canonical(codec, s)
    ensures Meant(codec, s) == codec.parse(s)
  {
    TrimOfTrimmed(s);
  }

  lemma CanonicalUnaliased(codec: Codec, s: set<string>, e: Effect<string>)
    requires PlainText(codec) && AllCanonical(codec, s) && AllCanonical(codec, e.ids)
    ensures Unaliased(codec, s, e) && AllCanonical(codec, Take(s, e))
  {
    forall r, x | r in s && x in e.ids && r != x ensures Meant(codec, r) != Meant(codec, x) {
      CanonicalMeans(codec, r);
      CanonicalMeans(codec, x);
    }
  }

  lemma {:induction false} CanonicalIdsUnaliased(codec: Codec, s: set<string>, effects: seq<Effect<string>>)
    requires PlainText(codec) && AllCanonical(codec, s) && CanonicalIds(codec, effects)
    ensures AllUnaliased(codec, s, effects)
    decreases |effects|
  {
    if effects != [] {
      assert AllCanonical(codec, effects[0].ids);
      forall i | 0 <= i < |effects[1..]| ensures AllCanonical(codec, effects[1..][i].ids) {
        assert effects[1..][i] == effects[i + 1];
      }
      CanonicalUnaliased(codec, s, effects[0]);
      CanonicalIdsUnaliased(codec, Take(s, effects[0]), effects[1..]);
    }
  }

  /** Ids spelled as the server prints them are enough. */
  lemma CanonicalGroupPatch(cfg: Config, env: Env, db: Db, call: Call, id: string, k: Uuid, ops: seq<Operation>)
    requires Faithful(cfg.codec) && PlainText(cfg.codec) && CanonicalIds(cfg.codec, AllEffects(ops))
    requires cfg.codec.parse(id) == Some(k) && OwnGroup(db.tables.groups, call.tenant, k)
    ensures var (db', out) := PatchGroup(cfg, env, db, call, id, ops);
            Carried(out) ==>
              MemberSet(db'.tables.members, k)
              == TakeAll(MemberSet(db.tables.members, k), AllOnUsers(cfg.codec, AllEffects(ops)))
  {
    var texts := TextSet(cfg.codec, MemberSet(db.tables.members, k));
    assert AllCanonical(cfg.codec, texts);
    CanonicalIdsUnaliased(cfg.codec, texts, AllEffects(ops));
    UnaliasedGroupPatch(cfg, env, db, call, id, k, ops);
  }

  // ---- Other spellings ----

  lemma OneTextOut(codec: Codec, held: set<Uuid>, s: string, u: Uuid)
    requires Faithful(codec) && PlainText(codec) && Meant(codec, s) == Some(u)
    ensures TextSet(codec, held) - {s} == TextSet(codec, if s == codec.text(u) then held - {u} else held)
  {
    forall v: Uuid ensures codec.text(v) == s ==> v == u {
      TrimOfTrimmed(codec.text(v));
      assert codec.parse(codec.text(v)) == Some(v);
    }
  }

  /** What is left when one id is removed: the member goes exactly if it is held under that very spelling. */
  lemma OneRemoved(codec: Codec, members: Members, k: Uuid, s: string, u: Uuid, ops: seq<Operation>)
    requires Faithful(codec) && PlainText(codec)
    requires AllEffects(ops) == [Difference({s})] && Meant(codec, s) == Some(u)
    ensures MeantSet(codec, Left(codec, members, k, ops))
            == if s == codec.text(u) then MemberSet(members, k) - {u} else MemberSet(members, k)
  {
    var held := MemberSet(members, k);
    TakeOne(TextSet(codec, held), Difference({s}));
    OneTextOut(codec, held, s, u);
    TextsMean(codec, held - {u});
    TextsMean(codec, held);
  }

  /**
   Removing one id that stands for a user takes that user out if and only if the id is spelled as the
   server prints it, or the user was no member to begin with.
   */
  lemma RemoveExactly(
    cfg: Config, env: Env, db: Db, call: Call, id: string, k: Uuid, s: string, u: Uuid, ops: seq<Operation>)
    requires Faithful(cfg.codec) && PlainText(cfg.codec)
    requires cfg.codec.parse(id) == Some(k) && OwnGroup(db.tables.groups, call.tenant, k)
    requires AllEffects(ops) == [Difference({s})] && Meant(cfg.codec, s) == Some(u)
    ensures var (db', out) := PatchGroup(cfg, env, db, call, id, ops);
            var held := MemberSet(db.tables.members, k);
            Carried(out) ==>
              (MemberSet(db'.tables.members, k) == held - {u} <==> s == cfg.codec.text(u) || u !in held)
  {
    OneRemoved(cfg.codec, db.tables.members, k, s, u, ops);
    GroupPatchRefinesSets(cfg, env, db, call, id, k, ops);
  }

  /** Under another spelling a removal that is carried out leaves every member in place. */
  lemma OtherSpellingStays(
    cfg: Config, env: Env, db: Db, call: Call, id: string, k: Uuid, s: string, u: Uuid, ops: seq<Operation>)
    requires Faithful(cfg.codec) && PlainText(cfg.codec)
    requires cfg.codec.parse(id) == Some(k) && OwnGroup(db.tables.groups, call.tenant, k)
    requires AllEffects(ops) == [Difference({s})] && Meant(cfg.codec, s) == Some(u) && s != cfg.codec.text(u)
    ensures var (db', out) := PatchGroup(cfg, env, db, call, id, ops);
            Carried(out) ==> MemberSet(db'.tables.members, k) == MemberSet(db.tables.members, k)
  {
    OneRemoved(cfg.codec, db.tables.members, k, s, u, ops);
    GroupPatchRefinesSets(cfg, env, db, call, id, k, ops);
  }

  lemma AfterPrefix(word: string, rest: string)
    requires Lower(word) == word
    ensures AfterWord(word + rest, word) == Some(rest)
  {
    assert (word + rest)[..|word|] == word && (word + rest)[|word|..] == rest;
  }

  lemma AfterSpace(rest: string)
    requires rest != "" && !FilterSpace(rest[0])
    ensures Spaced(" " + rest) == Some(rest) && SkipSpace(rest) == rest
  {
    var s := " " + rest;
    assert FilterSpace(s[0]) && s[1..] == rest;
    assert SkipSpace(s) == SkipSpace(s[1..]) == rest;
  }

  lemma {:induction false} OperandReads(s: string)
    requires forall i :: 0 <= i < |s| ==> s[i] != '"' && s[i] != ']'
    ensures Operand(s + "\"]") == (s, "\"]")
  {
    if s != "" {
      assert (s + "\"]")[1..] == s[1..] + "\"]";
      OperandReads(s[1..]);
      assert [s[0]] + s[1..] == s;
    } else {
      assert s + "\"]" == "\"]" && "\"]"[0] == '"';
    }
  }

  /** An id without a quote or a closing bracket is read off the filter it was written into. */
  lemma FilterReads(s: string, path: string)
    requires forall i :: 0 <= i < |s| ==> s[i] != '"' && s[i] != ']'
    requires path == "members[" + ("value" + (" " + ("eq" + (" " + ("\"" + (s + "\"]"))))))
    ensures FilteredMemberValue(path) == Some(s)
  {
    var quoted := "\"" + (s + "\"]");
    var eq := "eq" + (" " + quoted);
    var value := "value" + (" " + eq);
    assert Lower("members[") == "members[" && Lower("value") == "value" && Lower("eq") == "eq";
    AfterPrefix("members[", value);
    AfterSpace(value);
    AfterPrefix("value", " " + eq);
    AfterSpace(eq);
    AfterPrefix("eq", " " + quoted);
    AfterSpace(quoted);
    assert SkipQuote(quoted) == s + "\"]";
    OperandReads(s);
    assert SkipQuote("\"]") == "]" && SkipSpace("]") == "]";
  }

  /** A removal with a filter on one id is a difference with that id. */
  lemma RemoveOneId(op: Operation, s: string)
    requires Verb(op) == "remove" && IsMembersPath(Lower(Trim(op.path)))
    requires FilteredMemberValue(Trim(op.path)) == Some(s)
    ensures AllEffects([op]) == [Difference({s})]
  {
    assert |Lower(Trim(op.path))| == |Trim(op.path)| >= 8;
    assert Lower(Trim(op.path)) != "members";
    assert [op][1..] == [] && EffectsOf(op) + [] == EffectsOf(op);
  }

  predicate TidyGroup(row: GroupRow) {
    Trimmed(row.displayName) && Tidy(row.externalId)
  }

  /** A row as the handler and the constraints keep it: see `Service.HealthyAlways`. */
  ghost predicate Healthy(t: Tables, tenant: string, k: Uuid)
    requires k in t.groups
  {
    var row := t.groups[k];
    && TidyGroup(row) && 0 < |row.displayName| <= MAX_ATTR_LEN
    && !GroupNameTaken(t.groups, tenant, row.displayName, Some(k))
    && !GroupExternalIdTaken(t.groups, tenant, row.externalId, Some(k))
    && (forall u | u in MemberSet(t.members, k) :: OwnUser(t.users, tenant, u))
  }

  /** The operation removes one member by a filter on its id. */
  ghost predicate RemovesOne(op: Operation, s: string) {
    Verb(op) == "remove" && IsMembersPath(Lower(Trim(op.path))) && FilteredMemberValue(Trim(op.path)) == Some(s)
  }

  lemma RemovalFolds(g: ScimGroup, op: Operation, s: string)
    requires RemovesOne(op, s)
    ensures GroupFold(g, [op]) == Ok(g.(members := Removed(g.members, s)))
  {
    assert |Lower(Trim(op.path))| == |Trim(op.path)| >= 8;
    assert Lower(Trim(op.path)) != "members";
    assert [op][1..] == [];
  }

  lemma RemovalDesired(codec: Codec, t: Tables, tenant: string, k: Uuid, op: Operation, s: string)
    requires k in t.groups && Healthy(t, tenant, k) && RemovesOne(op, s)
    ensures var g := Desired(codec, t, k, [op]); g.Some? && NamesFree(t.groups, tenant, k, g.value)
  {
    var g := FromGroup(codec, GroupOf(t.groups, t.members, k));
    RemovalFolds(g, op, s);
    TrimOfTrimmed(g.displayName);
    TrimOfTrimmed(g.externalId);
  }

  lemma TextsNameUsers(codec: Codec, users: Users, tenant: string, held: set<Uuid>, left: set<string>)
    requires Faithful(codec) && PlainText(codec) && left <= TextSet(codec, held)
    requires forall u | u in held :: OwnUser(users, tenant, u)
    ensures NameDistinctUsers(codec, users, tenant, TrimSet(left))
  {
    forall r | r in TrimSet(left) ensures r in TextSet(codec, held) {
      var x :| x in left && Trim(x) == r;
      TrimOfTrimmed(x);
    }
    assert forall u: Uuid :: codec.parse(codec.text(u)) == Some(u);
  }

  /** On such a row the removal is always carried out. */
  lemma RemovalIsCarried(cfg: Config, env: Env, db: Db, call: Call, id: string, k: Uuid, op: Operation, s: string)
    requires Faithful(cfg.codec) && PlainText(cfg.codec) && !env.fault
    requires cfg.codec.parse(id) == Some(k) && OwnGroup(db.tables.groups, call.tenant, k)
    requires Healthy(db.tables, call.tenant, k) && RemovesOne(op, s)
    ensures Carried(PatchGroup(cfg, env, db, call, id, [op]).1)
  {
    var t, held := db.tables, MemberSet(db.tables.members, k);
    RemovalDesired(cfg.codec, t, call.tenant, k, op, s);
    RemoveOneId(op, s);
    TakeOne(TextSet(cfg.codec, held), Difference({s}));
    TextsNameUsers(cfg.codec, t.users, call.tenant, held, Left(cfg.codec, t.members, k, [op]));
    GroupPatchRefinesSets(cfg, env, db, call, id, k, [op]);
  }

  /** So under another spelling it is answered with success, and the member stays. */
  lemma OtherSpellingSucceeds(
    cfg: Config, env: Env, db: Db, call: Call, id: string, k: Uuid, op: Operation, s: string, u: Uuid)
    requires Faithful(cfg.codec) && PlainText(cfg.codec) && !env.fault
    requires cfg.codec.parse(id) == Some(k) && OwnGroup(db.tables.groups, call.tenant, k)
    requires Healthy(db.tables, call.tenant, k) && RemovesOne(op, s)
    requires Meant(cfg.codec, s) == Some(u) && s != cfg.codec.text(u)
    ensures var (db', out) := PatchGroup(cfg, env, db, call, id, [op]);
            Carried(out) && MemberSet(db'.tables.members, k) == MemberSet(db.tables.members, k)
  {
    RemovalIsCarried(cfg, env, db, call, id, k, op, s);
    RemoveOneId(op, s);
    OtherSpellingStays(cfg, env, db, call, id, k, s, u, [op]);
  }

  /** Adding one bare id to the members is a union with that id. */
  lemma AddOneId(s: string)
    requires s != ""
    ensures AllEffects([Operation("add", "members", Some(Str(s)))]) == [Union({s})]
  {
    var op := Operation("add", "members", Some(Str(s)));
    TrimOfTrimmed("add");
    TrimOfTrimmed("members");
    assert Lower("add") == "add" && Lower("members") == "members";
    assert Elements([s]) == {s};
    assert DecodeMemberValues(Some(Str(s))) == Some([s]);
    assert EffectsOf(op) == [Union({s})];
    assert [op][1..] == [] && EffectsOf(op) + [] == EffectsOf(op);
  }

  /** Adding a member again under another spelling of its id is refused. */
  lemma OtherSpellingRefused(
    cfg: Config, env: Env, db: Db, call: Call, id: string, k: Uuid, u: Uuid, s: string, ops: seq<Operation>)
    requires Faithful(cfg.codec) && PlainText(cfg.codec)
    requires cfg.codec.parse(id) == Some(k) && OwnGroup(db.tables.groups, call.tenant, k)
    requires u in MemberSet(db.tables.members, k)
    requires Meant(cfg.codec, s) == Some(u) && Trim(s) != cfg.codec.text(u)
    requires ops == [Operation("add", "members", Some(Str(s)))]
    ensures var (db', out) := PatchGroup(cfg, env, db, call, id, ops);
            !Carried(out) && db'.tables == db.tables
  {
    assert Trim("") == "";
    AddOneId(s);
    BothSpellingsLeft(cfg.codec, db.tables.members, k, u, s, ops);
    GroupPatchRefinesSets(cfg, env, db, call, id, k, ops);
  }

  lemma BothSpellingsLeft(codec: Codec, members: Members, k: Uuid, u: Uuid, s: string, ops: seq<Operation>)
    requires PlainText(codec) && u in MemberSet(members, k) && Trim(s) != ""
    requires AllEffects(ops) == [Union({s})]
    ensures Trim(s) in TrimSet(Left(codec, members, k, ops)) && codec.text(u) in TrimSet(Left(codec, members, k, ops))
  {
    var texts := TextSet(codec, MemberSet(members, k));
    TakeOne(texts, Union({s}));
    assert codec.text(u) in texts;
    TrimOfTrimmed(codec.text(u));
  }

  // ---- What a PATCH leaves alone ----

  lemma MappedGroupIsTidy(g: ScimGroup)
    ensures Trimmed(ToInput(g).displayName) && Tidy(ToInput(g).externalId)
  {
    TrimIsTrimmed(g.displayName);
    TidyTrim(g.externalId);
  }

  /** What no operation names keeps its stored value. */
  ghost predicate GroupKeeps(t: Tables, t': Tables, k: Uuid, ops: seq<Operation>)
    requires k in t.groups
  {
    && k in t'.groups && t'.groups == t.groups[k := t'.groups[k]]
    && t'.groups[k].tenant == t.groups[k].tenant && t'.groups[k].createdAt == t.groups[k].createdAt
    && ((forall op | op in ops :: !Targets(op, DisplayName)) ==> t'.groups[k].displayName == t.groups[k].displayName)
    && ((forall op | op in ops :: !Targets(op, ExternalId)) ==> t'.groups[k].externalId == t.groups[k].externalId)
    && ((forall op | op in ops :: !Targets(op, GroupTarget.Members)) ==>
          MemberSet(t'.members, k) == MemberSet(t.members, k))
  }

  lemma NamesKept(codec: Codec, t: Tables, k: Uuid, ops: seq<Operation>)
    requires k in t.groups && TidyGroup(t.groups[k]) && Desired(codec, t, k, ops).Some?
    ensures var input := ToInput(Desired(codec, t, k, ops).value);
            && ((forall op | op in ops :: !Targets(op, DisplayName)) ==> input.displayName == t.groups[k].displayName)
            && ((forall op | op in ops :: !Targets(op, ExternalId)) ==> input.externalId == t.groups[k].externalId)
  {
    var g, row := FromGroup(codec, GroupOf(t.groups, t.members, k)), t.groups[k];
    TrimOfTrimmed(row.displayName);
    TrimOfTrimmed(OrEmpty(row.externalId));
    if forall op | op in ops :: !Targets(op, DisplayName) {
      FoldKeeps(g, ops, DisplayName);
    }
    if forall op | op in ops :: !Targets(op, ExternalId) {
      FoldKeeps(g, ops, ExternalId);
    }
  }

  lemma MembersKept(cfg: Config, env: Env, db: Db, call: Call, id: string, k: Uuid, ops: seq<Operation>)
    requires Faithful(cfg.codec) && PlainText(cfg.codec)
    requires cfg.codec.parse(id) == Some(k) && OwnGroup(db.tables.groups, call.tenant, k)
    requires forall op | op in ops :: !Targets(op, GroupTarget.Members)
    ensures var (db', out) := PatchGroup(cfg, env, db, call, id, ops);
            Carried(out) ==> MemberSet(db'.tables.members, k) == MemberSet(db.tables.members, k)
  {
    NoEffects(ops);
    CanonicalGroupPatch(cfg, env, db, call, id, k, ops);
  }

  lemma RowAfter(cfg: Config, env: Env, db: Db, call: Call, id: string, k: Uuid, g: ScimGroup)
    requires cfg.codec.parse(id) == Some(k) && OwnGroup(db.tables.groups, call.tenant, k)
    ensures var (db', out) := Transact(cfg, env, db, call, UpdateGroup(id, ToInput(g)));
            out.Changed? ==>
              db'.tables.groups == db.tables.groups[k := db.tables.groups[k].(
                displayName := ToInput(g).displayName, externalId := ToInput(g).externalId, updatedAt := env.now)]
  {
  }

  /** A PATCH that is carried out keeps the name, the external id and the members, each unless an operation names it. */
  lemma GroupPatchKeepsTheRest(cfg: Config, env: Env, db: Db, call: Call, id: string, k: Uuid, ops: seq<Operation>)
    requires Faithful(cfg.codec) && PlainText(cfg.codec)
    requires cfg.codec.parse(id) == Some(k) && OwnGroup(db.tables.groups, call.tenant, k)
    requires TidyGroup(db.tables.groups[k])
    ensures var (db', out) := PatchGroup(cfg, env, db, call, id, ops);
            Carried(out) ==> GroupKeeps(db.tables, db'.tables, k, ops)
  {
    var g := Desired(cfg.codec, db.tables, k, ops);
    if g.Some? {
      NamesKept(cfg.codec, db.tables, k, ops);
      RowAfter(cfg, env, db, call, id, k, g.value);
      if forall op | op in ops :: !Targets(op, GroupTarget.Members) {
        MembersKept(cfg, env, db, call, id, k, ops);
      }
    }
  }

  /** Carried out or not, a PATCH changes nothing it does not name. */
  lemma GroupPatchFrame(cfg: Config, env: Env, db: Db, call: Call, id: string, k: Uuid, ops: seq<Operation>)
    requires Faithful(cfg.codec) && PlainText(cfg.codec)
    requires cfg.codec.parse(id) == Some(k) && OwnGroup(db.tables.groups, call.tenant, k)
    requires TidyGroup(db.tables.groups[k])
    ensures var t' := PatchGroup(cfg, env, db, call, id, ops).0.tables;
            t' == db.tables || GroupKeeps(db.tables, t', k, ops)
  {
    GroupPatchRefinesSets(cfg, env, db, call, id, k, ops);
    GroupPatchKeepsTheRest(cfg, env, db, call, id, k, ops);
  }
}
