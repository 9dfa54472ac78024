/** Replacing a group's members: which lists of ids are accepted, and what is stored for them. */
module Membership {
  import opened Entities
  import opened Ordering
  import opened Store

  predicate NoDuplicates(ids: seq<string>) {
    forall i, j :: 0 <= i < j < |ids| ==> ids[i] != ids[j]
  }

  lemma {:induction false} DedupeContents(ids: seq<string>)
    ensures NoDuplicates(Dedupe(ids))
    ensures forall s :: s in Dedupe(ids) <==> s in ids && s != ""
  {
    if ids != [] {
      DedupeContents(ids[..|ids| - 1]);
      assert ids == ids[..|ids| - 1] + [ids[|ids| - 1]];
    }
  }

  /** The loop: a `seen` set beside the growing list. */
  method DedupeNonEmpty(ids: seq<string>) returns (out: seq<string>)
    ensures out == Dedupe(ids)
    ensures NoDuplicates(out) && forall s :: s in out <==> s in ids && s != ""
  {
    var seen: set<string> := {};
    out := [];
    for i := 0 to |ids|
      invariant out == Dedupe(ids[..i])
      invariant forall s :: s in seen <==> s in out
    {
      var s := ids[i];
      assert ids[..i + 1][..i] == ids[..i];
      if s != "" && s !in seen {
        seen := seen + {s};
        out := out + [s];
      }
    }
    assert ids[..|ids|] == ids;
    DedupeContents(ids);
  }

  /** The id denotes a user of the tenant. */
  predicate Names(codec: Codec, users: Users, tenant: string, s: string) {
    codec.parse(s).Some? && OwnUser(users, tenant, codec.parse(s).value)
  }

  ghost predicate Apart(codec: Codec, ids: seq<string>) {
    forall i, j :: 0 <= i < j < |ids| ==> codec.parse(ids[i]) != codec.parse(ids[j])
  }

  ghost predicate AllName(codec: Codec, users: Users, tenant: string, ids: seq<string>) {
    forall i :: 0 <= i < |ids| ==> Names(codec, users, tenant, ids[i])
  }

  lemma DenotedLast(codec: Codec, users: Users, tenant: string, ids: seq<string>)
    requires ids != []
    ensures var front, last := ids[..|ids| - 1], ids[|ids| - 1];
            Denoted(codec, users, tenant, ids) == Denoted(codec, users, tenant, front)
              + (if Names(codec, users, tenant, last) then {codec.parse(last).value} else {})
  {
  }

  lemma {:induction false} AtMostOneRowEach(codec: Codec, users: Users, tenant: string, ids: seq<string>)
    ensures |Denoted(codec, users, tenant, ids)| <= |ids|
  {
    if ids != [] {
      AtMostOneRowEach(codec, users, tenant, ids[..|ids| - 1]);
      DenotedLast(codec, users, tenant, ids);
    }
  }

  lemma {:induction false} DistinctGiveRows(codec: Codec, users: Users, tenant: string, ids: seq<string>)
    requires AllName(codec, users, tenant, ids) && Apart(codec, ids)
    ensures |Denoted(codec, users, tenant, ids)| == |ids|
  {
    if ids != [] {
      var front, last := ids[..|ids| - 1], ids[|ids| - 1];
      DistinctGiveRows(codec, users, tenant, front);
      DenotedLast(codec, users, tenant, ids);
      assert codec.parse(last).value !in Denoted(codec, users, tenant, front);
    }
  }

  lemma {:induction false} RowsGiveDistinct(codec: Codec, users: Users, tenant: string, ids: seq<string>)
    requires |Denoted(codec, users, tenant, ids)| == |ids|
    ensures AllName(codec, users, tenant, ids) && Apart(codec, ids)
  {
    if ids != [] {
      var front, last := ids[..|ids| - 1], ids[|ids| - 1];
      DenotedLast(codec, users, tenant, ids);
      AtMostOneRowEach(codec, users, tenant, front);
      assert Names(codec, users, tenant, last) && codec.parse(last).value !in Denoted(codec, users, tenant, front);
      RowsGiveDistinct(codec, users, tenant, front);
      forall i | 0 <= i < |front| ensures codec.parse(ids[i]) != codec.parse(last) {
        assert Names(codec, users, tenant, front[i]) && front[i] in front;
      }
    }
  }

  /**
   A member list is accepted exactly when every non-empty id in it names a user of this tenant and no
   two different ids name the same user; what is stored is then exactly the users named.
   */
  lemma AcceptsExactly(codec: Codec, users: Users, tenant: string, ids: seq<string>)
    ensures Accept(codec, users, tenant, ids).Some? <==>
              && (forall s | s in ids && s != "" :: Names(codec, users, tenant, s))
              && (forall s, r | s in ids && r in ids && s != "" && r != "" && s != r ::
                codec.parse(s) != codec.parse(r))
    ensures Accept(codec, users, tenant, ids).Some? ==>
              Accept(codec, users, tenant, ids).value
              == set s | s in ids && Names(codec, users, tenant, s) && s != "" :: codec.parse(s).value
  {
    var wanted := Dedupe(ids);
    DedupeContents(ids);
    if Accept(codec, users, tenant, ids).Some? {
      RowsGiveDistinct(codec, users, tenant, wanted);
      forall s, r | s in ids && r in ids && s != "" && r != "" && s != r ensures codec.parse(s) != codec.parse(r) {
        assert s in wanted && r in wanted;
        var i :| 0 <= i < |wanted| && wanted[i] == s;
        var j :| 0 <= j < |wanted| && wanted[j] == r;
        assert i < j || j < i;
      }
      forall s | s in ids && s != "" ensures Names(codec, users, tenant, s) {
        assert s in wanted;
      }
    }
    if (forall s | s in ids && s != "" :: Names(codec, users, tenant, s))
      && (forall s, r | s in ids && r in ids && s != "" && r != "" && s != r :: codec.parse(s) != codec.parse(r)) {
      forall i | 0 <= i < |wanted| ensures Names(codec, users, tenant, wanted[i]) {
        assert wanted[i] in wanted;
      }
      forall i, j | 0 <= i < j < |wanted| ensures codec.parse(wanted[i]) != codec.parse(wanted[j]) {
        assert wanted[i] in wanted && wanted[j] in wanted && wanted[i] != wanted[j];
      }
      DistinctGiveRows(codec, users, tenant, wanted);
    }
  }

  /** The users in a group. */
  function MemberSet(members: Members, group: Uuid): set<Uuid> {
    set k | k in members && k.0 == group :: k.1
  }

  /** Reading a group's members finds every one of them and nothing else. */
  lemma ReadsAllMembers(members: Members, group: Uuid)
    ensures Elements(MembersOf(members, group)) == MemberSet(members, group)
  {
    var keys := MemberKeys(members, group);
    EarlierIsTotal();
    var sorted := SortSet(keys, Earlier);
    var read := MembersOf(members, group);
    assert forall k :: k in sorted <==> k in Elements(sorted);
    forall u | u in MemberSet(members, group) ensures u in read {
      assert (members[(group, u)].addedAt, u) in sorted;
      var i :| 0 <= i < |sorted| && sorted[i] == (members[(group, u)].addedAt, u);
      assert read[i] == u;
    }
    forall u | u in read ensures u in MemberSet(members, group) {
      var i :| 0 <= i < |read| && read[i] == u;
      assert sorted[i] in keys;
      var k :| k in members && k.0 == group && sorted[i] == (members[k].addedAt, k.1);
    }
  }

  lemma MembersAfter(members: Members, group: Uuid, ids: set<Uuid>, tenant: string, now: Time)
    ensures var after := WithMembers(members, group, ids, tenant, now);
            MemberSet(after, group) == ids && forall h | h != group :: MemberSet(after, h) == MemberSet(members, h)
  {
    var after := WithMembers(members, group, ids, tenant, now);
    assert forall u | u in ids :: (group, u) in after;
    forall h | h != group ensures MemberSet(after, h) == MemberSet(members, h) {
      assert forall u :: (h, u) in after <==> (h, u) in members;
    }
  }

  /** Members added together are read back in increasing order. */
  lemma AddedTogether(members: Members, group: Uuid, now: Time)
    requires forall k | k in members && k.0 == group :: members[k].addedAt == now
    ensures var read := MembersOf(members, group);
            forall i, j :: 0 <= i < j < |read| ==> read[i] < read[j]
  {
    EarlierIsTotal();
    var sorted := SortSet(MemberKeys(members, group), Earlier);
    assert forall k :: k in sorted <==> k in Elements(sorted);
    forall i | 0 <= i < |sorted| ensures sorted[i].0 == now {
      assert sorted[i] in sorted;
    }
  }

  /** What reading the members back yields: the stored set, in increasing order. */
  lemma StoredMembers(members: Members, group: Uuid, ids: set<Uuid>, tenant: string, now: Time)
    ensures var read := MembersOf(WithMembers(members, group, ids, tenant, now), group);
            && Elements(read) == ids
            && forall i, j :: 0 <= i < j < |read| ==> read[i] < read[j]
  {
    var stored := WithMembers(members, group, ids, tenant, now);
    ReadsAllMembers(stored, group);
    MembersAfter(members, group, ids, tenant, now);
    AddedTogether(stored, group, now);
  }
}
