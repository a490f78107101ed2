/**
 * The read-only users endpoints: the paged, searchable list (Admin only),
 * one user by id (Admin or self) and the caller's own profile.
 */
module UserQueries {
  import opened Wrappers
  import opened Text
  import opened Directory
  import opened UserPolicy

  datatype RoleDto = RoleDto(id: int, name: string, description: Option<string>)

  datatype UserDto = UserDto(
    id: int,
    username: string,
    email: string,
    role: RoleDto,
    createdAt: int,
    updatedAt: int)

  /** The DTO of user `id`, its role joined from the role table. */
  function ToDto(users: UserTable, roles: RoleTable, id: int): (dto: UserDto)
    requires id in users && users[id].roleId in roles
    ensures dto.id == id && dto.username == users[id].username && dto.email == users[id].email
    ensures dto.role.id == users[id].roleId && dto.role.name == roles[users[id].roleId].name
  {
    var u := users[id];
    var role := roles[u.roleId];
    UserDto(id, u.username, u.email, RoleDto(u.roleId, role.name, role.description), u.createdAt, u.updatedAt)
  }

  /** GET /users/{id}: Ok, Forbid or NotFound. */
  datatype Lookup = Found(user: UserDto) | Forbidden | Absent

  function GetUser(users: UserTable, roles: RoleTable, caller: Caller, id: int): (r: Lookup)
    requires RolesResolve(users, roles)
    ensures r == Forbidden <==> !MayAccess(caller, id)
    ensures r == Absent <==> MayAccess(caller, id) && id !in users
    ensures r.Found? ==> id in users && r.user.id == id && r.user == ToDto(users, roles, id)
  {
    if !IsAdmin(caller) && caller.id != id then Forbidden
    else if id !in users then Absent
    else Found(ToDto(users, roles, id))
  }

  /** GET /users/profile: the caller's own record, or NotFound. */
  function GetProfile(users: UserTable, roles: RoleTable, caller: Caller): (r: Lookup)
    requires RolesResolve(users, roles)
    ensures r != Forbidden
    ensures r.Found? <==> caller.id in users
    ensures r.Found? ==> r.user == ToDto(users, roles, caller.id)
  {
    if caller.id in users then Found(ToDto(users, roles, caller.id)) else Absent
  }

  /** The profile is what GetUser answers for the caller's own id. */
  lemma ProfileIsOwnLookup(users: UserTable, roles: RoleTable, caller: Caller)
    requires RolesResolve(users, roles)
    ensures GetProfile(users, roles, caller) == GetUser(users, roles, caller, caller.id)
  {
  }

  // ---------------------------------------------------------------- paging

  const DefaultPageSize: int := 10
  const MaxPageSize: int := 100

  function ClampPage(page: int): (p: int)
    ensures p >= 1 && (page >= 1 ==> p == page)
  {
    if page < 1 then 1 else page
  }

  function ClampPageSize(pageSize: int): (s: int)
    ensures 1 <= s <= MaxPageSize
    ensures 1 <= pageSize <= MaxPageSize ==> s == pageSize
    ensures !(1 <= pageSize <= MaxPageSize) ==> s == DefaultPageSize
  {
    if pageSize < 1 || pageSize > MaxPageSize then DefaultPageSize else pageSize
  }

  /** `Math.Ceiling(n / (double)d)` on integers. */
  function CeilDiv(n: nat, d: int): nat
    requires d >= 1
  {
    (n + d - 1) / d
  }

  /** The ceiling is the least page count whose pages hold all `n` items. */
  lemma CeilDivBounds(n: nat, d: int)
    requires d >= 1
    ensures var q := CeilDiv(n, d);
      && q * d >= n
      && (q > 0 ==> (q - 1) * d < n)
      && (q == 0 <==> n == 0)
  {
    var q := CeilDiv(n, d);
    assert q * d + (n + d - 1) % d == n + d - 1;
    assert (q - 1) * d == q * d - d;
  }

  /** The name of a role, or "" when the role is missing (the join finds nothing). */
  function RoleName(roles: RoleTable, roleId: int): string {
    if roleId in roles then roles[roleId].name else ""
  }

  /** Lower-cased username, e-mail or role name contains the lower-cased term. */
  predicate MatchesSearch(u: User, roles: RoleTable, term: string) {
    var t := ToLower(term);
    Contains(ToLower(u.username), t) || Contains(ToLower(u.email), t) || Contains(ToLower(RoleName(roles, u.roleId)), t)
  }

  /** An empty or missing search keeps everyone. */
  predicate Selected(u: User, roles: RoleTable, search: Option<string>) {
    !Filled(search) || MatchesSearch(u, roles, search.value)
  }

  function FilteredIds(users: UserTable, roles: RoleTable, search: Option<string>): set<int> {
    set k | k in users && Selected(users[k], roles, search)
  }

  /** Search semantics: a non-empty term keeps exactly the matching users; no term keeps all. */
  lemma FilterSemantics(users: UserTable, roles: RoleTable, search: Option<string>)
    ensures !Filled(search) ==> FilteredIds(users, roles, search) == users.Keys
    ensures Filled(search) ==> forall k :: k in FilteredIds(users, roles, search) <==> k in users && MatchesSearch(users[k], roles, search.value)
  {
    if !Filled(search) {
      forall k | k in users ensures k in FilteredIds(users, roles, search) {
        assert Selected(users[k], roles, search);
      }
    }
  }

  /** Matching ignores the case of ASCII letters in the term. */
  lemma SearchIgnoresCase(u: User, roles: RoleTable, term: string)
    ensures MatchesSearch(u, roles, ToLower(term)) == MatchesSearch(u, roles, term)
  {
    ToLowerIdempotent(term);
  }

  lemma NonEmptyHasElement(s: set<int>)
    requires s != {}
    ensures exists y :: y in s
  {
    if forall y :: y !in s {
      assert false;
    }
  }

  lemma {:induction false} MinimumExists(s: set<int>)
    requires s != {}
    ensures exists m :: m in s && forall x :: x in s ==> m <= x
    decreases |s|
  {
    NonEmptyHasElement(s);
    var y :| y in s;
    var rest := s - {y};
    if rest == {} {
      forall x | x in s ensures y <= x {
        assert x !in rest;
      }
    } else {
      MinimumExists(rest);
      var m :| m in rest && forall x :: x in rest ==> m <= x;
      var least := if y < m then y else m;
      forall x | x in s ensures least <= x {
        if x != y { assert x in rest; }
      }
      assert least in s;
    }
  }

  predicate Ascending(ids: seq<int>) {
    forall i, j :: 0 <= i < j < |ids| ==> ids[i] < ids[j]
  }

  lemma PrependKeepsAscending(m: int, rest: seq<int>)
    requires Ascending(rest)
    requires forall i :: 0 <= i < |rest| ==> m < rest[i]
    ensures Ascending([m] + rest)
  {
    var r := [m] + rest;
    forall i, j | 0 <= i < j < |r| ensures r[i] < r[j] {
      assert r[j] == rest[j - 1];
      if i > 0 {
        assert r[i] == rest[i - 1];
      }
    }
  }

  /** The ids of a set in ascending order (`OrderBy(u => u.Id)`). */
  ghost function SortedIds(ids: set<int>): (r: seq<int>)
    ensures |r| == |ids|
    ensures forall k :: k in r <==> k in ids
    ensures Ascending(r)
    decreases |ids|
  {
    if ids == {} then []
    else
      MinimumExists(ids);
      var m :| m in ids && forall x :: x in ids ==> m <= x;
      var rest := SortedIds(ids - {m});
      assert forall i :: 0 <= i < |rest| ==> m < rest[i] by {
        forall i | 0 <= i < |rest| ensures m < rest[i] {
          assert rest[i] in ids - {m};
        }
      }
      PrependKeepsAscending(m, rest);
      [m] + rest
  }

  /** The ids of the selected users, ascending: the list that pages are cut from. */
  ghost function Listing(users: UserTable, roles: RoleTable, search: Option<string>): (ids: seq<int>)
    ensures |ids| == |FilteredIds(users, roles, search)|
    ensures Ascending(ids)
    ensures forall i :: 0 <= i < |ids| ==> ids[i] in users && Selected(users[ids[i]], roles, search)
    ensures forall k :: k in users && Selected(users[k], roles, search) ==> k in ids
  {
    var ids := SortedIds(FilteredIds(users, roles, search));
    assert forall i :: 0 <= i < |ids| ==> ids[i] in FilteredIds(users, roles, search);
    ids
  }

  /**
   * LINQ `Skip(n)`, run by the database as `OFFSET n ROWS`. SQL Server
   * refuses a negative offset, so only non-negative counts reach it.
   */
  function Skip(s: seq<int>, n: nat): (r: seq<int>)
    ensures n <= |s| ==> r == s[n..]
    ensures n >= |s| ==> r == []
  {
    if n >= |s| then [] else s[n..]
  }

  /** LINQ `Take`. */
  function Take(s: seq<int>, n: nat): (r: seq<int>)
    ensures |r| == if n < |s| then n else |s|
    ensures r == s[..|r|]
  {
    if n >= |s| then s else s[..n]
  }

  /** The DTOs of a list of ids, in the same order. */
  function Dtos(users: UserTable, roles: RoleTable, ids: seq<int>): (r: seq<UserDto>)
    requires RolesResolve(users, roles)
    requires forall i :: 0 <= i < |ids| ==> ids[i] in users
    ensures |r| == |ids|
    ensures forall i :: 0 <= i < |ids| ==> r[i] == ToDto(users, roles, ids[i])
  {
    if ids == [] then [] else [ToDto(users, roles, ids[0])] + Dtos(users, roles, ids[1..])
  }

  datatype Pagination = Pagination(
    currentPage: int,
    pageSize: int,
    totalCount: nat,
    totalPages: nat,
    hasNextPage: bool,
    hasPreviousPage: bool)

  datatype UsersPage = UsersPage(users: seq<UserDto>, pagination: Pagination)

  /** The pagination block for `total` items cut into pages of `size`. */
  function PaginationFor(page: int, size: int, total: nat): (p: Pagination)
    requires size >= 1
    ensures p.currentPage == page && p.pageSize == size && p.totalCount == total
    ensures p.totalPages == CeilDiv(total, size)
    ensures p.hasNextPage == (page < p.totalPages) && p.hasPreviousPage == (page > 1)
  {
    var pages := CeilDiv(total, size);
    Pagination(page, size, total, pages, page < pages, page > 1)
  }

  /** The page that skips `offset` entries of `ordered` and takes `size`. */
  function PageOf(users: UserTable, roles: RoleTable, ordered: seq<int>, page: int, size: int, offset: nat): (r: UsersPage)
    requires RolesResolve(users, roles) && size >= 1
    requires forall i :: 0 <= i < |ordered| ==> ordered[i] in users
    ensures r.users == Dtos(users, roles, Take(Skip(ordered, offset), size))
    ensures r.pagination == PaginationFor(page, size, |ordered|)
  {
    var window := Take(Skip(ordered, offset), size);
    assert forall i :: 0 <= i < |window| ==> window[i] in ordered;
    UsersPage(Dtos(users, roles, window), PaginationFor(page, size, |ordered|))
  }

  /** The offset with unbounded integers: `(page - 1) * pageSize`. */
  function PageOffset(page: int, size: int): (offset: int)
    ensures page >= 1 && size >= 0 ==> offset >= 0
  {
    (page - 1) * size
  }

  /** The page that holds position `i` of the listing (positions count from 0). */
  function PageOfPosition(i: nat, size: int): (page: int)
    requires size >= 1
    ensures page >= 1
  {
    i / size + 1
  }

  /** Where position `i` of the listing sits on its page. */
  function SlotOfPosition(i: nat, size: int): (slot: nat)
    requires size >= 1
    ensures slot < size
  {
    i % size
  }

  /** Position `i` is the slot-th entry after its page's offset. */
  lemma PositionSplits(i: nat, size: int)
    requires size >= 1
    ensures PageOffset(PageOfPosition(i, size), size) + SlotOfPosition(i, size) == i
  {
    assert (i / size) * size + i % size == i;
  }

  /** A page past the last one starts past the end of the list. */
  lemma PastLastPage(page: int, size: int, total: nat)
    requires size >= 1 && page > CeilDiv(total, size)
    ensures PageOffset(page, size) >= total
  {
    var q := CeilDiv(total, size);
    CeilDivBounds(total, size);
    MulMonotone(page - 1, q, size);
  }

  lemma MulMonotone(a: int, b: int, c: nat)
    requires a >= b
    ensures a * c >= b * c
  {
    assert a * c - b * c == (a - b) * c;
  }

  /** GET /users?page=&pageSize=&search= (Admin only), with the offset computed exactly. */
  ghost function GetUsers(caller: Caller, users: UserTable, roles: RoleTable, page: int, pageSize: int, search: Option<string>): (r: UsersPage)
    requires IsAdmin(caller) && RolesResolve(users, roles)
    ensures var p := r.pagination;
      && p.currentPage == ClampPage(page) && p.pageSize == ClampPageSize(pageSize)
      && p.totalCount == |FilteredIds(users, roles, search)|
      && p.totalPages == CeilDiv(p.totalCount, p.pageSize)
      && p.hasNextPage == (p.currentPage < p.totalPages)
      && p.hasPreviousPage == (p.currentPage > 1)
      && |r.users| <= p.pageSize
      && (p.currentPage > p.totalPages ==> r.users == [])
  {
    var p := ClampPage(page);
    var size := ClampPageSize(pageSize);
    var ordered := Listing(users, roles, search);
    var r := PageOf(users, roles, ordered, p, size, PageOffset(p, size));
    if p > CeilDiv(|ordered|, size) then
      PastLastPage(p, size, |ordered|);
      r
    else
      r
  }

  /** GetUsers cuts its page out of the ascending listing at the exact offset. */
  lemma GetUsersIsPageOf(caller: Caller, users: UserTable, roles: RoleTable, page: int, pageSize: int, search: Option<string>)
    requires IsAdmin(caller) && RolesResolve(users, roles)
    ensures var p := ClampPage(page);
      var size := ClampPageSize(pageSize);
      GetUsers(caller, users, roles, page, pageSize, search)
        == PageOf(users, roles, Listing(users, roles, search), p, size, PageOffset(p, size))
  {
  }

  /** Entry i of a window is entry start + i of the list it was cut from. */
  lemma WindowEntries(ordered: seq<int>, start: int, size: nat)
    requires start >= 0
    ensures var window := Take(Skip(ordered, start), size);
      forall i :: 0 <= i < |window| ==> start + i < |ordered| && window[i] == ordered[start + i]
  {
  }

  /** The entries of a page cut at `start` are the listing's entries from `start` on. */
  lemma PageOfEntries(users: UserTable, roles: RoleTable, ordered: seq<int>, page: int, size: int, start: int)
    requires RolesResolve(users, roles) && size >= 1 && start >= 0
    requires forall i :: 0 <= i < |ordered| ==> ordered[i] in users
    ensures var r := PageOf(users, roles, ordered, page, size, start);
      forall i :: 0 <= i < |r.users| ==> start + i < |ordered| && r.users[i].id == ordered[start + i]
  {
    var window := Take(Skip(ordered, start), size);
    WindowEntries(ordered, start, size);
    assert forall i :: 0 <= i < |window| ==> Dtos(users, roles, window)[i].id == window[i];
  }

  /** A window cut at `start` that is long enough holds entry start + slot at `slot`. */
  lemma PageOfSlot(users: UserTable, roles: RoleTable, ordered: seq<int>, page: int, size: int, start: int, slot: nat)
    requires RolesResolve(users, roles) && size >= 1 && start >= 0
    requires forall i :: 0 <= i < |ordered| ==> ordered[i] in users
    requires slot < size && start + slot < |ordered|
    ensures var r := PageOf(users, roles, ordered, page, size, start);
      slot < |r.users| && r.users[slot].id == ordered[start + slot]
  {
    PageOfEntries(users, roles, ordered, page, size, start);
    assert |Take(Skip(ordered, start), size)| > slot;
  }

  /**
   * Which users a page holds: entry i of page p is entry (p-1)*pageSize + i
   * of the id-ascending list of selected users, so every entry is a
   * selected user and the entries ascend by id.
   */
  lemma PageContents(caller: Caller, users: UserTable, roles: RoleTable, page: int, pageSize: int, search: Option<string>)
    requires IsAdmin(caller) && RolesResolve(users, roles)
    ensures var r := GetUsers(caller, users, roles, page, pageSize, search);
      var ordered := Listing(users, roles, search);
      var start := PageOffset(ClampPage(page), ClampPageSize(pageSize));
      && (forall i :: 0 <= i < |r.users| ==> start + i < |ordered| && r.users[i].id == ordered[start + i])
      && (forall i :: 0 <= i < |r.users| ==> r.users[i].id in users && Selected(users[r.users[i].id], roles, search))
      && (forall i, j :: 0 <= i < j < |r.users| ==> r.users[i].id < r.users[j].id)
  {
    var ordered := Listing(users, roles, search);
    var p := ClampPage(page);
    var size := ClampPageSize(pageSize);
    var start := PageOffset(p, size);
    GetUsersIsPageOf(caller, users, roles, page, pageSize, search);
    PageOfEntries(users, roles, ordered, p, size, start);
  }

  /** Position i of the listing is slot i % pageSize of page i / pageSize + 1. */
  lemma PositionIsListed(caller: Caller, users: UserTable, roles: RoleTable, pageSize: int, search: Option<string>, i: nat)
    requires IsAdmin(caller) && RolesResolve(users, roles)
    requires i < |Listing(users, roles, search)|
    ensures var size := ClampPageSize(pageSize);
      var r := GetUsers(caller, users, roles, PageOfPosition(i, size), pageSize, search);
      SlotOfPosition(i, size) < |r.users| && r.users[SlotOfPosition(i, size)].id == Listing(users, roles, search)[i]
  {
    var ordered := Listing(users, roles, search);
    var size := ClampPageSize(pageSize);
    var page := PageOfPosition(i, size);
    var slot := SlotOfPosition(i, size);
    var start := PageOffset(page, size);
    PositionSplits(i, size);
    GetUsersIsPageOf(caller, users, roles, page, pageSize, search);
    PageOfSlot(users, roles, ordered, page, size, start, slot);
  }

  /** Every selected user appears on some page: none is skipped by paging. */
  lemma EverySelectedUserIsListed(caller: Caller, users: UserTable, roles: RoleTable, pageSize: int, search: Option<string>, k: int)
    requires IsAdmin(caller) && RolesResolve(users, roles)
    requires k in users && Selected(users[k], roles, search)
    ensures exists page :: page >= 1 && exists slot ::
      var r := GetUsers(caller, users, roles, page, pageSize, search);
      0 <= slot < |r.users| && r.users[slot].id == k
  {
    var ordered := Listing(users, roles, search);
    var size := ClampPageSize(pageSize);
    var i :| 0 <= i < |ordered| && ordered[i] == k;
    PositionIsListed(caller, users, roles, pageSize, search, i);
    var page := PageOfPosition(i, size);
    var slot := SlotOfPosition(i, size);
    var r := GetUsers(caller, users, roles, page, pageSize, search);
    assert 0 <= slot < |r.users| && r.users[slot].id == k;
  }

  // ------------------------------------------------- the offset as compiled

  /** C#'s unchecked 32-bit int arithmetic: reduce to [-2^31, 2^31). */
  function Wrap32(x: int): (r: int)
    ensures -0x8000_0000 <= r < 0x8000_0000
    ensures -0x8000_0000 <= x < 0x8000_0000 ==> r == x
  {
    var m := x % 0x1_0000_0000;
    if m >= 0x8000_0000 then m - 0x1_0000_0000 else m
  }

  predicate IsInt32(x: int) {
    -0x8000_0000 <= x < 0x8000_0000
  }

  /** `(page - 1) * pageSize` as the source computes it, in 32-bit ints. */
  function PageOffsetAsWritten(page: int, size: int): int {
    Wrap32((page - 1) * size)
  }

  /** What GET /users answers: a page, or the 500 of the handler's catch when the database refuses the offset. */
  datatype PageAnswer = Listed(page: UsersPage) | OffsetRefused

  /**
   * GET /users as compiled: the skip count wraps around for pages past
   * 2^31 / pageSize. A wrapped count that is negative is refused by SQL
   * Server and answered with 500; one that is not cuts the page at the
   * wrong place. The pagination block is computed as in `GetUsers`.
   */
  ghost function GetUsersAsWritten(caller: Caller, users: UserTable, roles: RoleTable, page: int, pageSize: int, search: Option<string>): (r: PageAnswer)
    requires IsAdmin(caller) && RolesResolve(users, roles) && IsInt32(page) && IsInt32(pageSize)
    ensures r.OffsetRefused? <==> PageOffsetAsWritten(ClampPage(page), ClampPageSize(pageSize)) < 0
    ensures r.Listed? ==> |r.page.users| <= ClampPageSize(pageSize)
    ensures r.Listed? ==> r.page.pagination == GetUsers(caller, users, roles, page, pageSize, search).pagination
  {
    var p := ClampPage(page);
    var size := ClampPageSize(pageSize);
    var offset := PageOffsetAsWritten(p, size);
    if offset < 0 then OffsetRefused
    else Listed(PageOf(users, roles, Listing(users, roles, search), p, size, offset))
  }

  /** The two agree on every page whose offset fits in 32 bits. */
  lemma AsWrittenAgreesWhileOffsetFits(caller: Caller, users: UserTable, roles: RoleTable, page: int, pageSize: int, search: Option<string>)
    requires IsAdmin(caller) && RolesResolve(users, roles) && IsInt32(page) && IsInt32(pageSize)
    requires IsInt32(PageOffset(ClampPage(page), ClampPageSize(pageSize)))
    ensures GetUsersAsWritten(caller, users, roles, page, pageSize, search) == Listed(GetUsers(caller, users, roles, page, pageSize, search))
  {
  }

  /**
   * Page 1073741825 of 100 users per page with a single user: the exact
   * offset 107374182400 is past the end, so the page is empty; the 32-bit
   * offset wraps to 0, and the page shows the user.
   */
  lemma OffsetWrapShowsFirstPage(caller: Caller, now: int)
    requires IsAdmin(caller)
    ensures var users := map[3 := User("carol", "carol@example.com", HashPassword("secret1"), UserRoleId, now, now)];
      var exact := GetUsers(caller, users, SeedRoles, 1073741825, 100, None);
      var written := GetUsersAsWritten(caller, users, SeedRoles, 1073741825, 100, None);
      && exact.pagination.totalPages == 1
      && exact.users == []
      && PageOffsetAsWritten(1073741825, 100) == 0
      && written.Listed? && |written.page.users| == 1 && written.page.users[0].id == 3
  {
    var users := map[3 := User("carol", "carol@example.com", HashPassword("secret1"), UserRoleId, now, now)];
    assert RolesResolve(users, SeedRoles);
    assert FilteredIds(users, SeedRoles, None) == {3};
    var ordered := Listing(users, SeedRoles, None);
    assert ordered == [3] by {
      assert |ordered| == 1 && ordered[0] in users;
    }
    assert Wrap32(1073741824 * 100) == 0;
    var written := PageOf(users, SeedRoles, ordered, 1073741825, 100, 0);
    assert Take(Skip(ordered, 0), 100) == [3];
    assert written.users[0].id == 3;
  }

  /**
   * Page 21474838 of 100 users per page: the 32-bit offset wraps to
   * -2147483596, which the database refuses, so the request fails with
   * 500 whatever the directory holds, where the exact offset gives a page.
   */
  lemma OffsetOverflowIsRefused(caller: Caller, users: UserTable, roles: RoleTable, search: Option<string>)
    requires IsAdmin(caller) && RolesResolve(users, roles)
    ensures PageOffsetAsWritten(21474838, 100) == -2147483596
    ensures GetUsersAsWritten(caller, users, roles, 21474838, 100, search) == OffsetRefused
    ensures var exact := GetUsers(caller, users, roles, 21474838, 100, search);
      exact.pagination.totalPages < 21474838 ==> exact.users == []
  {
    assert Wrap32(21474837 * 100) == -2147483596;
  }
}
