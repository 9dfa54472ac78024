/** Listings: filtering, ordering, paging, and fetching the members of a whole page at once. */
module Listing {
  import opened Text
  import opened Entities
  import opened Ordering
  import opened Store

  const MAX_PAGE_SIZE := 200

  datatype Listed<T> = Page(rows: seq<T>, total: nat) | BadRange

  /** LIMIT and OFFSET on an ordered result. */
  function Window<T>(rows: seq<T>, limit: nat, offset: nat): seq<T> {
    rows[Min(offset, |rows|)..Min(offset + limit, |rows|)]
  }

  function Answer<T>(rows: seq<T>, limit: int, offset: int): Listed<T> {
    if limit < 0 || offset < 0 then BadRange
    else Page(Window(rows, Min(limit, MAX_PAGE_SIZE), offset), |rows|)
  }

  /** At most two hundred rows, from the offset on, and the number of all; a negative bound is refused. */
  lemma AnswerExactly<T>(rows: seq<T>, limit: int, offset: int)
    ensures var r := Answer(rows, limit, offset);
            && (r.BadRange? <==> limit < 0 || offset < 0)
            && (r.Page? ==>
                  && r.total == |rows|
                  && |r.rows| == Max(0, Min(Min(limit, 200), |rows| - offset))
                  && forall i :: 0 <= i < |r.rows| ==> r.rows[i] == rows[offset + i])
  {
  }

  // ---- Users ----

  /** An empty field does not narrow the listing. */
  datatype UserFilter = UserFilter(userName: string, externalId: string)

  predicate MatchesUser(f: UserFilter, tenant: string, row: UserRow) {
    && row.tenant == tenant
    && (f.userName != "" ==> Lower(row.user.cols.userName) == Lower(f.userName))
    && (f.externalId != "" ==> row.user.cols.externalId == Some(f.externalId))
  }

  function UserStamps(users: Users, tenant: string, f: UserFilter): set<Timed> {
    set u | u in users && MatchesUser(f, tenant, users[u]) :: (users[u].user.createdAt, u)
  }

  ghost predicate Known<R>(table: map<Uuid, R>, stamps: seq<Timed>) {
    forall i :: 0 <= i < |stamps| ==> stamps[i].1 in table
  }

  ghost function UsersAt(users: Users, stamps: seq<Timed>): seq<User>
    requires Known(users, stamps)
  {
    seq(|stamps|, i requires 0 <= i < |stamps| => users[stamps[i].1].user)
  }

  /** ORDER BY created_at, id. */
  ghost function InOrder(stamps: set<Timed>): (r: seq<Timed>)
    ensures Sorted(r, Earlier) && forall k :: k in r <==> k in stamps
  {
    EarlierIsTotal();
    var r := SortSet(stamps, Earlier);
    assert forall k :: k in r <==> k in Elements(r);
    r
  }

  lemma WindowOfUsers(users: Users, stamps: seq<Timed>, limit: nat, offset: nat)
    requires Known(users, stamps)
    ensures Known(users, Window(stamps, limit, offset))
    ensures UsersAt(users, Window(stamps, limit, offset)) == Window(UsersAt(users, stamps), limit, offset)
  {
  }

  lemma UsersKnown(users: Users, tenant: string, f: UserFilter)
    ensures Known(users, InOrder(UserStamps(users, tenant, f)))
  {
    var stamps := InOrder(UserStamps(users, tenant, f));
    forall i | 0 <= i < |stamps| ensures stamps[i].1 in users {
      assert stamps[i] in stamps;
    }
  }

  /** Every matching user, oldest first. */
  ghost function MatchingUsers(users: Users, tenant: string, f: UserFilter): seq<User> {
    UsersKnown(users, tenant, f);
    UsersAt(users, InOrder(UserStamps(users, tenant, f)))
  }

  /** Runs the ordered query. */
  method Select(stamps: set<Timed>) returns (r: seq<Timed>)
    ensures r == InOrder(stamps)
  {
    EarlierIsTotal();
    r := SortInto(stamps, Earlier);
  }

  method ScanUsers(users: Users, found: seq<Timed>) returns (rows: seq<User>)
    requires Known(users, found)
    ensures rows == UsersAt(users, found)
  {
    rows := [];
    for i := 0 to |found|
      invariant |rows| == i
      invariant forall k :: 0 <= k < i ==> rows[k] == users[found[k].1].user
    {
      rows := rows + [users[found[i].1].user];
    }
  }

  /** The query and the loop over its rows. */
  method ListUsers(users: Users, tenant: string, limit: int, offset: int, f: UserFilter) returns (r: Listed<User>)
    ensures r == Answer(MatchingUsers(users, tenant, f), limit, offset)
  {
    if limit < 0 || offset < 0 {
      return BadRange;
    }
    var size := Min(limit, MAX_PAGE_SIZE);
    var stamps := Select(UserStamps(users, tenant, f));
    UsersKnown(users, tenant, f);
    WindowOfUsers(users, stamps, size, offset);
    var rows := ScanUsers(users, Window(stamps, size, offset));
    r := Page(rows, |stamps|);
  }

  /** The row is in the table under its id and meets the filter. */
  ghost predicate Matching(users: Users, tenant: string, f: UserFilter, u: User) {
    u.id in users && users[u.id].user == u && MatchesUser(f, tenant, users[u.id])
  }

  function StampOf(u: User): Timed {
    (u.createdAt, u.id)
  }

  lemma ListedAt(users: Users, tenant: string, f: UserFilter, i: nat)
    requires KeyedById(users) && i < |MatchingUsers(users, tenant, f)|
    ensures var u := MatchingUsers(users, tenant, f)[i];
            Matching(users, tenant, f, u) && StampOf(u) == InOrder(UserStamps(users, tenant, f))[i]
  {
    var stamps := InOrder(UserStamps(users, tenant, f));
    UsersKnown(users, tenant, f);
    assert stamps[i] in stamps;
  }

  /**
   The listing holds each of the tenant's rows that has the name in some casing and the external id, where they
   are given; each exactly once, in (created_at, id) order, and nothing else.
   */
  lemma ListingIsExact(users: Users, tenant: string, f: UserFilter)
    requires KeyedById(users)
    ensures var rows := MatchingUsers(users, tenant, f);
            && (forall u :: u in rows <==>
                  && u.id in users && users[u.id].user == u && users[u.id].tenant == tenant
                  && (f.userName == "" || Lower(u.cols.userName) == Lower(f.userName))
                  && (f.externalId == "" || u.cols.externalId == Some(f.externalId)))
            && (forall i, j :: 0 <= i < j < |rows| ==>
                  rows[i].createdAt < rows[j].createdAt
                  || (rows[i].createdAt == rows[j].createdAt && rows[i].id < rows[j].id))
  {
    var stamps, rows := InOrder(UserStamps(users, tenant, f)), MatchingUsers(users, tenant, f);
    UsersKnown(users, tenant, f);
    assert |rows| == |stamps|;
    forall i | 0 <= i < |rows| ensures Matching(users, tenant, f, rows[i]) && StampOf(rows[i]) == stamps[i] {
      ListedAt(users, tenant, f, i);
    }
    forall u | Matching(users, tenant, f, u) ensures u in rows {
      assert StampOf(u) in UserStamps(users, tenant, f);
      var i :| 0 <= i < |stamps| && stamps[i] == StampOf(u);
      assert rows[i] == u;
    }
    forall i, j | 0 <= i < j < |rows| ensures Earlier(StampOf(rows[i]), StampOf(rows[j])) {
    }
  }

  /** A lookup by name comes back empty exactly when a create under that name meets no clash. */
  lemma LookupAgreesWithCreate(users: Users, tenant: string, name: string)
    requires KeyedById(users) && name != ""
    ensures MatchingUsers(users, tenant, UserFilter(name, "")) == [] <==> !UserNameTaken(users, tenant, name, None)
  {
    var f := UserFilter(name, "");
    var rows := MatchingUsers(users, tenant, f);
    ListingIsExact(users, tenant, f);
    if UserNameTaken(users, tenant, name, None) {
      var u :| u in users && users[u].tenant == tenant && Lower(users[u].user.cols.userName) == Lower(name);
      assert users[u].user in rows;
    }
    if rows != [] {
      assert rows[0] in rows;
      assert Some(rows[0].id) != None;
    }
  }

  // ---- Walking the pages ----

  /** startIndex counts from one and count is a size; both are floored rather than rejected. */
  function PageParams(startIndex: Option<int>, count: Option<int>): (p: (int, int))
    ensures p.0 >= 1 && p.1 >= 0
    ensures p.0 == if startIndex.Some? then Max(startIndex.value, 1) else 1
    ensures p.1 == if count.Some? then Max(count.value, 0) else 200
  {
    (if startIndex.Some? && startIndex.value > 1 then startIndex.value else 1,
     if count.None? then MAX_PAGE_SIZE else if count.value > 0 then count.value else 0)
  }

  /** What the handler answers to a page request on a fixed listing. */
  function PageOf<T>(rows: seq<T>, startIndex: Option<int>, count: Option<int>): seq<T> {
    var (start, size) := PageParams(startIndex, count);
    Answer(rows, size, start - 1).rows
  }

  /** What a client holds after asking for pages of these sizes, each from just after what it held. */
  function Walk<T>(rows: seq<T>, counts: seq<int>): seq<T> {
    if counts == [] then []
    else
      var n := |counts| - 1;
      var held := Walk(rows, counts[..n]);
      held + PageOf(rows, Some(|held| + 1), Some(counts[n]))
  }

  /** How many rows a page may hold. */
  function Size(count: int): nat {
    if count > 0 then Min(count, MAX_PAGE_SIZE) else 0
  }

  function Reach(counts: seq<int>): nat {
    if counts == [] then 0 else Reach(counts[..|counts| - 1]) + Size(counts[|counts| - 1])
  }

  lemma PageAt<T>(rows: seq<T>, done: nat, count: int)
    requires done <= |rows|
    ensures PageOf(rows, Some(done + 1), Some(count)) == rows[done..Min(done + Size(count), |rows|)]
  {
  }

  /** The pages concatenate to the listing, as far as they reach. */
  lemma {:induction false} WalkIsPrefix<T>(rows: seq<T>, counts: seq<int>)
    ensures Walk(rows, counts) == rows[..Min(Reach(counts), |rows|)]
  {
    if counts != [] {
      var n := |counts| - 1;
      WalkIsPrefix(rows, counts[..n]);
      PageAt(rows, |Walk(rows, counts[..n])|, counts[n]);
    }
  }

  /** A page for a positive count is empty exactly at the end, so a client knows when to stop. */
  lemma EmptyPageIsTheEnd<T>(rows: seq<T>, startIndex: int, count: int)
    requires startIndex >= 1 && count > 0
    ensures PageOf(rows, Some(startIndex), Some(count)) == [] <==> startIndex > |rows|
  {
  }

  lemma {:induction false} PositiveCountsAdvance(counts: seq<int>)
    requires forall i :: 0 <= i < |counts| ==> counts[i] > 0
    ensures Reach(counts) >= |counts|
  {
    if counts != [] {
      PositiveCountsAdvance(counts[..|counts| - 1]);
    }
  }

  lemma WalkIsAll<T>(rows: seq<T>, counts: seq<int>)
    requires (forall i :: 0 <= i < |counts| ==> counts[i] > 0) && |counts| >= |rows|
    ensures Walk(rows, counts) == rows
  {
    PositiveCountsAdvance(counts);
    WalkIsPrefix(rows, counts);
  }

  /** Any positive counts, as many as there are rows: the client has the whole listing, in order. */
  lemma PagingIsExact(users: Users, tenant: string, f: UserFilter, counts: seq<int>)
    requires (forall i :: 0 <= i < |counts| ==> counts[i] > 0) && |counts| >= |MatchingUsers(users, tenant, f)|
    ensures Walk(MatchingUsers(users, tenant, f), counts) == MatchingUsers(users, tenant, f)
  {
    WalkIsAll(MatchingUsers(users, tenant, f), counts);
  }

  // ---- Groups ----

  datatype GroupFilter = GroupFilter(displayName: string, externalId: string)

  predicate MatchesGroup(f: GroupFilter, tenant: string, row: GroupRow) {
    && row.tenant == tenant
    && (f.displayName != "" ==> Lower(row.displayName) == Lower(f.displayName))
    && (f.externalId != "" ==> row.externalId == Some(f.externalId))
  }

  function GroupStamps(groups: Groups, tenant: string, f: GroupFilter): set<Timed> {
    set g | g in groups && MatchesGroup(f, tenant, groups[g]) :: (groups[g].createdAt, g)
  }

  ghost function GroupsAt(groups: Groups, members: Members, stamps: seq<Timed>): seq<Group>
    requires Known(groups, stamps)
  {
    seq(|stamps|, i requires 0 <= i < |stamps| => GroupOf(groups, members, stamps[i].1))
  }

  lemma WindowOfGroups(groups: Groups, members: Members, stamps: seq<Timed>, limit: nat, offset: nat)
    requires Known(groups, stamps)
    ensures Known(groups, Window(stamps, limit, offset))
    ensures GroupsAt(groups, members, Window(stamps, limit, offset))
        == Window(GroupsAt(groups, members, stamps), limit, offset)
  {
    var window, all := Window(stamps, limit, offset), GroupsAt(groups, members, stamps);
    assert Known(groups, window) by {
      assert forall i :: 0 <= i < |window| ==> window[i] == stamps[Min(offset, |stamps|) + i];
    }
    var left, right := GroupsAt(groups, members, window), Window(all, limit, offset);
    assert |left| == |right|;
    forall i | 0 <= i < |left| ensures left[i] == right[i] {
      assert right[i] == all[Min(offset, |stamps|) + i];
    }
  }

  lemma GroupsKnown(groups: Groups, tenant: string, f: GroupFilter)
    ensures Known(groups, InOrder(GroupStamps(groups, tenant, f)))
  {
    var stamps := InOrder(GroupStamps(groups, tenant, f));
    forall i | 0 <= i < |stamps| ensures stamps[i].1 in groups {
      assert stamps[i] in stamps;
    }
  }

  /** Every matching group with its own members, oldest first. */
  ghost function MatchingGroups(groups: Groups, members: Members, tenant: string, f: GroupFilter): seq<Group> {
    GroupsKnown(groups, tenant, f);
    GroupsAt(groups, members, InOrder(GroupStamps(groups, tenant, f)))
  }

  /** A membership row as the batched query returns it. */
  type BatchRow = (Uuid, Timed)

  predicate BatchBefore(a: BatchRow, b: BatchRow) {
    a.0 < b.0 || (a.0 == b.0 && Earlier(a.1, b.1))
  }

  lemma BatchOrder()
    ensures StrictTotal(BatchBefore)
  {
  }

  function BatchRows(members: Members, ids: set<Uuid>): set<BatchRow> {
    set k | k in members && k.0 in ids :: (k.0, (members[k].addedAt, k.1))
  }

  /** One group's share of the batch, in batch order. */
  function ShareOf(rows: seq<BatchRow>, group: Uuid): seq<Timed> {
    if rows == [] then []
    else
      var n := |rows| - 1;
      ShareOf(rows[..n], group) + (if rows[n].0 == group then [rows[n].1] else [])
  }

  lemma {:induction false} ShareContents(rows: seq<BatchRow>, group: Uuid)
    ensures forall k :: k in ShareOf(rows, group) <==> (group, k) in rows
  {
    if rows != [] {
      var n := |rows| - 1;
      ShareContents(rows[..n], group);
      assert rows == rows[..n] + [rows[n]];
    }
  }

  lemma {:induction false} ShareSorted(rows: seq<BatchRow>, group: Uuid)
    requires Sorted(rows, BatchBefore)
    ensures Sorted(ShareOf(rows, group), Earlier)
  {
    if rows != [] {
      var n := |rows| - 1;
      var front := ShareOf(rows[..n], group);
      ShareSorted(rows[..n], group);
      ShareContents(rows[..n], group);
      if rows[n].0 == group {
        forall i | 0 <= i < |front| ensures Earlier(front[i], rows[n].1) {
          assert front[i] in front;
          assert (group, front[i]) in rows[..n];
          var j :| 0 <= j < n && rows[j] == (group, front[i]);
          assert BatchBefore(rows[j], rows[n]);
        }
      }
    }
  }

  /** A group's share of the batch is what its own query returns. */
  lemma ShareIsFetched(members: Members, ids: set<Uuid>, rows: seq<BatchRow>, group: Uuid)
    requires group in ids && Sorted(rows, BatchBefore)
    requires forall r :: r in rows <==> r in BatchRows(members, ids)
    ensures Seconds(ShareOf(rows, group)) == MembersOf(members, group)
  {
    EarlierIsTotal();
    var share, own := ShareOf(rows, group), SortSet(MemberKeys(members, group), Earlier);
    ShareSorted(rows, group);
    ShareContents(rows, group);
    assert forall k :: k in own <==> k in Elements(own);
    forall k ensures k in share <==> k in own {
      if k in share {
        assert (group, k) in BatchRows(members, ids);
      }
      if k in own {
        var m :| m in members && m.0 == group && (members[m].addedAt, m.1) == k;
        assert (group, k) in BatchRows(members, ids);
      }
    }
    SortedUnique(share, own, Earlier);
  }

  function Lookup(byGroup: map<Uuid, seq<Uuid>>, g: Uuid): seq<Uuid> {
    if g in byGroup then byGroup[g] else []
  }

  /** The loop that deals the batch out to its groups. */
  method DealOut(rows: seq<BatchRow>) returns (byGroup: map<Uuid, seq<Uuid>>)
    ensures forall g :: Lookup(byGroup, g) == Seconds(ShareOf(rows, g))
  {
    byGroup := map[];
    for i := 0 to |rows|
      invariant forall g :: Lookup(byGroup, g) == Seconds(ShareOf(rows[..i], g))
    {
      assert rows[..i + 1][..i] == rows[..i];
      var (g, k) := rows[i];
      byGroup := byGroup[g := Lookup(byGroup, g) + [k.1]];
    }
    assert rows[..|rows|] == rows;
  }

  /** Fills in every group on the page with what its own query would have returned. */
  method AttachMembers(members: Members, groups: array<Group>)
    modifies groups
    ensures forall i :: 0 <= i < groups.Length ==>
              groups[i] == old(groups[i]).(members := MembersOf(members, old(groups[i]).id))
  {
    if groups.Length == 0 {
      return;
    }
    var ids := {};
    for i := 0 to groups.Length
      invariant forall j :: 0 <= j < i ==> groups[j].id in ids
      invariant forall j :: 0 <= j < groups.Length ==> groups[j] == old(groups[j])
    {
      ids := ids + {groups[i].id};
    }
    BatchOrder();
    var rows := SortInto(BatchRows(members, ids), BatchBefore);
    assert forall r :: r in rows <==> r in Elements(rows);
    var byGroup := DealOut(rows);
    for i := 0 to groups.Length
      invariant forall j :: 0 <= j < i ==>
                  groups[j] == old(groups[j]).(members := MembersOf(members, old(groups[j]).id))
      invariant forall j :: i <= j < groups.Length ==> groups[j] == old(groups[j])
    {
      ShareIsFetched(members, ids, rows, groups[i].id);
      groups[i] := groups[i].(members := Lookup(byGroup, groups[i].id));
    }
  }

  /** A group as its own row gives it, before its members are attached. */
  function Bare(groups: Groups, id: Uuid): Group
    requires id in groups
  {
    var row := groups[id];
    Group(id, row.externalId, row.displayName, [], row.createdAt, row.updatedAt)
  }

  method ScanGroups(groups: Groups, found: seq<Timed>) returns (page: array<Group>)
    requires Known(groups, found)
    ensures fresh(page) && page.Length == |found|
    ensures forall i :: 0 <= i < |found| ==> page[i] == Bare(groups, found[i].1)
  {
    page := new Group[|found|](i requires 0 <= i < |found| && Known(groups, found) => Bare(groups, found[i].1));
  }

  /** One page of groups, read row by row and then given their members in one batch. */
  method FetchGroups(groups: Groups, members: Members, found: seq<Timed>) returns (rows: seq<Group>)
    requires Known(groups, found)
    ensures rows == GroupsAt(groups, members, found)
  {
    var page := ScanGroups(groups, found);
    AttachMembers(members, page);
    rows := page[..];
  }

  method ListGroups(groups: Groups, members: Members, tenant: string, limit: int, offset: int, f: GroupFilter)
    returns (r: Listed<Group>)
    ensures r == Answer(MatchingGroups(groups, members, tenant, f), limit, offset)
  {
    if limit < 0 || offset < 0 {
      return BadRange;
    }
    var size := Min(limit, MAX_PAGE_SIZE);
    var stamps := Select(GroupStamps(groups, tenant, f));
    GroupsKnown(groups, tenant, f);
    WindowOfGroups(groups, members, stamps, size, offset);
    var rows := FetchGroups(groups, members, Window(stamps, size, offset));
    r := Page(rows, |stamps|);
  }

  /** The group is stored under its id, meets the filter, and is shown with its own members. */
  ghost predicate MatchingGroup(groups: Groups, members: Members, tenant: string, f: GroupFilter, g: Group) {
    g.id in groups && MatchesGroup(f, tenant, groups[g.id]) && g == GroupOf(groups, members, g.id)
  }

  function GroupStampOf(g: Group): Timed {
    (g.createdAt, g.id)
  }

  lemma GroupListedAt(groups: Groups, members: Members, tenant: string, f: GroupFilter, i: nat)
    requires i < |MatchingGroups(groups, members, tenant, f)|
    ensures var g := MatchingGroups(groups, members, tenant, f)[i];
            && MatchingGroup(groups, members, tenant, f, g)
            && GroupStampOf(g) == InOrder(GroupStamps(groups, tenant, f))[i]
  {
    var stamps := InOrder(GroupStamps(groups, tenant, f));
    GroupsKnown(groups, tenant, f);
    assert stamps[i] in stamps;
  }

  /** Likewise the listing of groups, each shown with its own members. */
  lemma GroupListingIsExact(groups: Groups, members: Members, tenant: string, f: GroupFilter)
    ensures var rows := MatchingGroups(groups, members, tenant, f);
            && (forall g :: g in rows <==>
                  && g.id in groups && g == GroupOf(groups, members, g.id) && groups[g.id].tenant == tenant
                  && (f.displayName == "" || Lower(g.displayName) == Lower(f.displayName))
                  && (f.externalId == "" || g.externalId == Some(f.externalId)))
            && (forall i, j :: 0 <= i < j < |rows| ==>
                  rows[i].createdAt < rows[j].createdAt
                  || (rows[i].createdAt == rows[j].createdAt && rows[i].id < rows[j].id))
  {
    var stamps, rows := InOrder(GroupStamps(groups, tenant, f)), MatchingGroups(groups, members, tenant, f);
    GroupsKnown(groups, tenant, f);
    assert |rows| == |stamps|;
    forall i | 0 <= i < |rows|
      ensures MatchingGroup(groups, members, tenant, f, rows[i]) && GroupStampOf(rows[i]) == stamps[i]
    {
      GroupListedAt(groups, members, tenant, f, i);
    }
    forall g | MatchingGroup(groups, members, tenant, f, g) ensures g in rows {
      assert GroupStampOf(g) in GroupStamps(groups, tenant, f);
      var i :| 0 <= i < |stamps| && stamps[i] == GroupStampOf(g);
      assert rows[i] == g;
    }
    forall i, j | 0 <= i < j < |rows| ensures Earlier(GroupStampOf(rows[i]), GroupStampOf(rows[j])) {
    }
  }

  /** Paging through groups is as exact as paging through users. */
  lemma GroupPagingIsExact(groups: Groups, members: Members, tenant: string, f: GroupFilter, counts: seq<int>)
    requires forall i :: 0 <= i < |counts| ==> counts[i] > 0
    requires |counts| >= |MatchingGroups(groups, members, tenant, f)|
    ensures var rows := MatchingGroups(groups, members, tenant, f); Walk(rows, counts) == rows
  {
    WalkIsAll(MatchingGroups(groups, members, tenant, f), counts);
  }
}
