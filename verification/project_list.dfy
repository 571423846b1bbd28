/**
  Listing the caller's projects (GET /projects): the projects the caller owns (role "owner")
  followed by those the caller is a member of (with the membership's role), narrowed by an
  optional name search and an optional personal/team type, sorted newest first, and cut to
  the requested page of the shared pagination parameters. The two tables are sequences in
  query order.
*/
module ProjectList {
  import opened Wrappers
  import opened Strings
  import opened Calendar
  import opened ProjectHelpers
  import opened Pagination

  /** The role attached to a listed project: "owner", or the (nullable) membership role. */
  datatype ListedRole = Owner | MemberRole(role: Option<ProjectRole>)

  datatype ListedProject = ListedProject(project: Project, role: ListedRole)

  /** `owned`: the projects whose owner is the caller, as "owner". */
  function Owned(projects: seq<Project>, userId: string): (r: seq<ListedProject>)
    ensures |r| <= |projects|
  {
    if projects == [] then []
    else (if projects[0].userId == Some(userId) then [ListedProject(projects[0], Owner)] else []) + Owned(projects[1..], userId)
  }

  /** The projects joined to one membership row: those whose id is the row's project id. */
  function Joined(projects: seq<Project>, m: Membership): (r: seq<ListedProject>)
    ensures |r| <= |projects|
  {
    if projects == [] then []
    else (if projects[0].uuid == m.projectId then [ListedProject(projects[0], MemberRole(m.role))] else []) + Joined(projects[1..], m)
  }

  /** `memberOf`: the inner join of the caller's membership rows with the projects. */
  function MemberOf(members: seq<Membership>, projects: seq<Project>, userId: string): seq<ListedProject> {
    if members == [] then []
    else (if members[0].userId == userId then Joined(projects, members[0]) else []) + MemberOf(members[1..], projects, userId)
  }

  /** `[...owned, ...memberOf]`. */
  function Combined(projects: seq<Project>, members: seq<Membership>, userId: string): seq<ListedProject> {
    Owned(projects, userId) + MemberOf(members, projects, userId)
  }

  lemma {:induction false} OwnedSpec(projects: seq<Project>, userId: string)
    ensures forall x :: x in Owned(projects, userId) <==> x.project in projects && x.project.userId == Some(userId) && x.role == Owner
    decreases |projects|
  {
    if projects != [] {
      OwnedSpec(projects[1..], userId);
      assert projects == [projects[0]] + projects[1..];
    }
  }

  lemma {:induction false} JoinedSpec(projects: seq<Project>, m: Membership)
    ensures forall x :: x in Joined(projects, m) <==> x.project in projects && x.project.uuid == m.projectId && x.role == MemberRole(m.role)
    decreases |projects|
  {
    if projects != [] {
      JoinedSpec(projects[1..], m);
      assert projects == [projects[0]] + projects[1..];
    }
  }

  ghost predicate MemberEntry(x: ListedProject, members: seq<Membership>, projects: seq<Project>, userId: string) {
    exists m :: m in members && m.userId == userId && x.project in projects && x.project.uuid == m.projectId && x.role == MemberRole(m.role)
  }

  lemma {:induction false} MemberOfSpec(members: seq<Membership>, projects: seq<Project>, userId: string)
    ensures forall x :: x in MemberOf(members, projects, userId) <==> MemberEntry(x, members, projects, userId)
    decreases |members|
  {
    if members != [] {
      MemberOfSpec(members[1..], projects, userId);
      JoinedSpec(projects, members[0]);
      assert members == [members[0]] + members[1..];
    }
  }

  /**
    The combined list holds exactly the caller's own projects as "owner" and, for each of the
    caller's membership rows, the project it names with that row's role; nothing else.
  */
  lemma CombinedSpec(projects: seq<Project>, members: seq<Membership>, userId: string)
    ensures forall x :: x in Combined(projects, members, userId) <==>
      (x.project in projects && x.project.userId == Some(userId) && x.role == Owner)
      || MemberEntry(x, members, projects, userId)
  {
    OwnedSpec(projects, userId);
    MemberOfSpec(members, projects, userId);
  }

  /** `c.req.query("search")?.toLowerCase() || ""`. */
  function SearchText(searchParam: Option<string>): string {
    if searchParam.None? then "" else ToLower(searchParam.value)
  }

  /** Whether the name matches the (lower-cased) search: `name.toLowerCase().includes(search)`. */
  predicate NameMatches(x: ListedProject, search: string) {
    Includes(ToLower(x.project.name), search)
  }

  /** Whether the project passes the type parameter: "personal" wants no team, "team" a team, anything else all. */
  predicate TypeMatches(x: ListedProject, typeParam: Option<string>) {
    var noTeam := x.project.teamId.None? || x.project.teamId.value == "";
    if typeParam == Some("personal") then noTeam
    else if typeParam == Some("team") then !noTeam
    else true
  }

  function FilterByName(xs: seq<ListedProject>, search: string): (r: seq<ListedProject>)
    ensures |r| <= |xs|
  {
    if xs == [] then []
    else (if NameMatches(xs[0], search) then [xs[0]] else []) + FilterByName(xs[1..], search)
  }

  function FilterByType(xs: seq<ListedProject>, typeParam: Option<string>): (r: seq<ListedProject>)
    ensures |r| <= |xs|
  {
    if xs == [] then []
    else (if TypeMatches(xs[0], typeParam) then [xs[0]] else []) + FilterByType(xs[1..], typeParam)
  }

  /** The two filters in the handler's order; an empty search filters nothing. */
  function Filtered(xs: seq<ListedProject>, search: string, typeParam: Option<string>): seq<ListedProject> {
    FilterByType(if search != "" then FilterByName(xs, search) else xs, typeParam)
  }

  lemma {:induction false} FilterByNameSpec(xs: seq<ListedProject>, search: string)
    ensures forall x :: x in FilterByName(xs, search) <==> x in xs && NameMatches(x, search)
    decreases |xs|
  {
    if xs != [] {
      FilterByNameSpec(xs[1..], search);
      assert xs == [xs[0]] + xs[1..];
    }
  }

  lemma {:induction false} FilterByTypeSpec(xs: seq<ListedProject>, typeParam: Option<string>)
    ensures forall x :: x in FilterByType(xs, typeParam) <==> x in xs && TypeMatches(x, typeParam)
    decreases |xs|
  {
    if xs != [] {
      FilterByTypeSpec(xs[1..], typeParam);
      assert xs == [xs[0]] + xs[1..];
    }
  }

  /** Every text includes the empty text. */
  lemma IncludesEmpty(s: string)
    ensures Includes(s, "")
  {
    assert s[..0] == "";
  }

  /**
    A listed project survives the filters exactly when its lower-cased name includes the
    lower-cased search and its team matches the type; an absent or empty search keeps every name.
  */
  lemma FilteredSpec(xs: seq<ListedProject>, searchParam: Option<string>, typeParam: Option<string>)
    ensures forall x :: x in Filtered(xs, SearchText(searchParam), typeParam) <==>
      x in xs && NameMatches(x, SearchText(searchParam)) && TypeMatches(x, typeParam)
    ensures searchParam.None? || searchParam.value == "" ==>
      forall x :: x in Filtered(xs, SearchText(searchParam), typeParam) <==> x in xs && TypeMatches(x, typeParam)
  {
    var search := SearchText(searchParam);
    FilterByNameSpec(xs, search);
    FilterByTypeSpec(if search != "" then FilterByName(xs, search) else xs, typeParam);
    forall x: ListedProject
      ensures search == "" ==> NameMatches(x, search)
    {
      IncludesEmpty(ToLower(x.project.name));
    }
  }

  /** The sort key: `new Date(createdAt).getTime()`, 0 for a missing date. */
  function CreatedTime(x: ListedProject): int {
    x.project.createdAt.GetOr(0)
  }

  /** Newest first: the keys never increase along the list. */
  predicate NewestFirst(xs: seq<ListedProject>) {
    forall i, j :: 0 <= i < j < |xs| ==> CreatedTime(xs[i]) >= CreatedTime(xs[j])
  }

  /** The entries created at time t, in list order. */
  function CreatedAt(xs: seq<ListedProject>, t: int): seq<ListedProject> {
    if xs == [] then []
    else (if CreatedTime(xs[0]) == t then [xs[0]] else []) + CreatedAt(xs[1..], t)
  }

  /** Insert x before the first entry that is not newer than it. */
  function InsertNewest(x: ListedProject, ys: seq<ListedProject>): (r: seq<ListedProject>)
    ensures |r| == |ys| + 1
  {
    if ys == [] then [x]
    else if CreatedTime(ys[0]) <= CreatedTime(x) then [x] + ys
    else [ys[0]] + InsertNewest(x, ys[1..])
  }

  /**
    `allProjects.sort((a, b) => time(b) - time(a))`: the engine's sort is stable, so this is the
    stable sort by descending creation time.
  */
  function SortNewest(xs: seq<ListedProject>): (r: seq<ListedProject>)
    ensures |r| == |xs|
  {
    if xs == [] then [] else InsertNewest(xs[0], SortNewest(xs[1..]))
  }

  lemma {:induction false} CreatedAtConcat(a: seq<ListedProject>, b: seq<ListedProject>, t: int)
    ensures CreatedAt(a + b, t) == CreatedAt(a, t) + CreatedAt(b, t)
    decreases |a|
  {
    if a == [] {
      assert a + b == b;
    } else {
      CreatedAtConcat(a[1..], b, t);
      assert (a + b)[0] == a[0];
      assert (a + b)[1..] == a[1..] + b;
    }
  }

  /** Inserting into a newest-first list keeps it newest first. */
  lemma {:induction false} InsertNewestOrdered(x: ListedProject, ys: seq<ListedProject>)
    requires NewestFirst(ys)
    ensures NewestFirst(InsertNewest(x, ys))
    decreases |ys|
  {
    if ys != [] && CreatedTime(ys[0]) > CreatedTime(x) {
      var rest := InsertNewest(x, ys[1..]);
      InsertNewestOrdered(x, ys[1..]);
      InsertNewestElements(x, ys[1..]);
      assert forall k :: 0 <= k < |rest| ==> CreatedTime(ys[0]) >= CreatedTime(rest[k]) by {
        forall k | 0 <= k < |rest|
          ensures CreatedTime(ys[0]) >= CreatedTime(rest[k])
        {
          assert rest[k] in rest;
        }
      }
      assert InsertNewest(x, ys) == [ys[0]] + rest;
    }
  }

  /** Inserting adds x to the elements and nothing else. */
  lemma {:induction false} InsertNewestElements(x: ListedProject, ys: seq<ListedProject>)
    ensures multiset(InsertNewest(x, ys)) == multiset(ys) + multiset{x}
    ensures forall y :: y in InsertNewest(x, ys) <==> y == x || y in ys
    decreases |ys|
  {
    if ys != [] && CreatedTime(ys[0]) > CreatedTime(x) {
      InsertNewestElements(x, ys[1..]);
      assert ys == [ys[0]] + ys[1..];
    }
  }

  /** Inserting x puts it before every entry of its own creation time. */
  lemma {:induction false} InsertNewestStable(x: ListedProject, ys: seq<ListedProject>, t: int)
    ensures CreatedAt(InsertNewest(x, ys), t) == CreatedAt([x], t) + CreatedAt(ys, t)
    decreases |ys|
  {
    if ys == [] {
      assert CreatedAt([], t) == [];
      assert [x] + [] == [x];
    } else if CreatedTime(ys[0]) <= CreatedTime(x) {
      CreatedAtConcat([x], ys, t);
    } else {
      var rest := InsertNewest(x, ys[1..]);
      InsertNewestStable(x, ys[1..], t);
      assert ys == [ys[0]] + ys[1..];
      CreatedAtConcat([ys[0]], rest, t);
      CreatedAtConcat([ys[0]], ys[1..], t);
      assert CreatedAt([], t) == [];
      assert [ys[0]][1..] == [] && [x][1..] == [];
    }
  }

  /**
    The sort orders newest first and is stable: the entries with any one creation time keep
    their relative order, so the result is a permutation of the input.
  */
  lemma {:induction false} SortNewestSpec(xs: seq<ListedProject>)
    ensures NewestFirst(SortNewest(xs))
    ensures forall t :: CreatedAt(SortNewest(xs), t) == CreatedAt(xs, t)
    ensures multiset(SortNewest(xs)) == multiset(xs)
    decreases |xs|
  {
    if xs != [] {
      SortNewestSpec(xs[1..]);
      InsertNewestOrdered(xs[0], SortNewest(xs[1..]));
      InsertNewestElements(xs[0], SortNewest(xs[1..]));
      forall t
        ensures CreatedAt(SortNewest(xs), t) == CreatedAt(xs, t)
      {
        InsertNewestStable(xs[0], SortNewest(xs[1..]), t);
        CreatedAtConcat([xs[0]], xs[1..], t);
        assert xs == [xs[0]] + xs[1..];
      }
      assert xs == [xs[0]] + xs[1..];
    }
  }

  /** `xs.slice(start, end)` for numbers that may be NaN (a NaN bound counts as 0). */
  function Slice(xs: seq<ListedProject>, start: Option<int>, end: Option<int>): (r: seq<ListedProject>)
  {
    var s := if start.None? then 0 else Clip(start.value, |xs|);
    var e := if end.None? then 0 else Clip(end.value, |xs|);
    if s < e then xs[s..e] else []
  }

  /** A slice bound: a negative one counts from the end, and either way it is kept within the list. */
  function Clip(k: int, n: nat): (r: nat)
    ensures r <= n
  {
    if k < 0 then (if n + k < 0 then 0 else n + k) else if k > n then n else k
  }

  /** `Math.ceil(total / limit)` for a positive limit. */
  function CeilDiv(total: nat, limit: int): (r: nat)
    requires limit >= 1
    decreases total
  {
    if total == 0 then 0 else if total <= limit then 1 else 1 + CeilDiv(total - limit, limit)
  }

  lemma {:induction false} CeilDivSpec(total: nat, limit: int)
    requires limit >= 1
    ensures CeilDiv(total, limit) * limit >= total
    ensures total > 0 ==> (CeilDiv(total, limit) - 1) * limit < total
    ensures total == 0 <==> CeilDiv(total, limit) == 0
    decreases total
  {
    if total > limit {
      var r := CeilDiv(total - limit, limit);
      CeilDivSpec(total - limit, limit);
      assert CeilDiv(total, limit) * limit == r * limit + limit;
      assert (CeilDiv(total, limit) - 1) * limit == r * limit;
    }
  }

  /** The pagination block of the answer; None is NaN (sent as null). */
  datatype PageInfo = PageInfo(page: Option<int>, limit: Option<int>, total: nat, totalPages: Option<int>)

  datatype Listing = Listing(projects: seq<ListedProject>, pagination: PageInfo)

  /** The pagination the handler uses. */
  function Params(pageParam: Option<string>, limitParam: Option<string>): NumericPage {
    LibPaginationParams(pageParam, limitParam)
  }

  /** The shape of the clamped parameters that paging relies on. */
  predicate Clamped(p: NumericPage) {
    && (p.offset.Some? <==> p.page.Some? && p.limit.Some?)
    && (p.limit.Some? ==> p.limit.value >= 1)
    && (p.offset.Some? ==> p.offset.value >= 0)
  }

  lemma ParamsShape(pageParam: Option<string>, limitParam: Option<string>)
    ensures Clamped(Params(pageParam, limitParam))
  {
    LibClampSpec(PageNumber(pageParam), LimitNumber(limitParam));
  }

  /** The combined, filtered and sorted list that is paged. */
  function SortedList(projects: seq<Project>, members: seq<Membership>, userId: string, searchParam: Option<string>, typeParam: Option<string>): seq<ListedProject> {
    SortNewest(Filtered(Combined(projects, members, userId), SearchText(searchParam), typeParam))
  }

  /** `allProjects.slice(offset, offset + limit)`. */
  function PageSlice(all: seq<ListedProject>, p: NumericPage): seq<ListedProject> {
    Slice(all, p.offset, if p.offset.None? || p.limit.None? then None else Some(p.offset.value + p.limit.value))
  }

  /** The answer for a list and the pagination: the page, and page, limit, total and `Math.ceil(total / limit)`. */
  function Answer(all: seq<ListedProject>, p: NumericPage): Listing
    requires Clamped(p)
  {
    Listing(PageSlice(all, p), PageInfo(p.page, p.limit, |all|, if p.limit.None? then None else Some(CeilDiv(|all|, p.limit.value))))
  }

  /** The answer of GET /projects for clamped pagination: combine, filter, sort, slice, count. */
  function ListingOf(
    projects: seq<Project>, members: seq<Membership>, userId: string,
    searchParam: Option<string>, typeParam: Option<string>, p: NumericPage): Listing
    requires Clamped(p)
  {
    Answer(SortedList(projects, members, userId, searchParam, typeParam), p)
  }

  /**
    The handler as written: `allProjects` is built, reassigned by each filter that applies,
    sorted in place (its result is the stable sort) and sliced.
  */
  method ListProjects(
    projects: seq<Project>, members: seq<Membership>, userId: string,
    searchParam: Option<string>, typeParam: Option<string>, pageParam: Option<string>, limitParam: Option<string>)
    returns (r: Listing)
    ensures Clamped(Params(pageParam, limitParam))
    ensures r == ListingOf(projects, members, userId, searchParam, typeParam, Params(pageParam, limitParam))
  {
    var p := LibPaginationParams(pageParam, limitParam);
    ParamsShape(pageParam, limitParam);
    var search := SearchText(searchParam);
    var allProjects := Owned(projects, userId) + MemberOf(members, projects, userId);
    if search != "" {
      allProjects := FilterByName(allProjects, search);
    }
    allProjects := FilterByType(allProjects, typeParam);
    allProjects := SortNewest(allProjects);
    var paginated := PageSlice(allProjects, p);
    var totalPages := if p.limit.None? then None else Some(CeilDiv(|allProjects|, p.limit.value));
    r := Listing(paginated, PageInfo(p.page, p.limit, |allProjects|, totalPages));
  }

  /**
    A page of a list at a non-negative offset: it holds at most `limit` entries, taken in
    order from the offset, and fewer only at the end of the list.
  */
  lemma PageOf(all: seq<ListedProject>, o: int, l: int)
    requires o >= 0 && l >= 1
    ensures var r := Slice(all, Some(o), Some(o + l));
      && |r| <= l
      && (o + l <= |all| ==> r == all[o..o + l])
      && (o <= |all| < o + l ==> r == all[o..])
      && (o >= |all| ==> r == [])
      && (r == [] || exists s, e :: 0 <= s <= e <= |all| && r == all[s..e])
  {
  }

  /** A slice of a list holds entries of the list, and a slice of a newest-first list is newest first. */
  lemma NewestFirstSlice(all: seq<ListedProject>, part: seq<ListedProject>)
    requires part == [] || exists s, e :: 0 <= s <= e <= |all| && part == all[s..e]
    ensures forall x :: x in part ==> x in all
    ensures NewestFirst(all) ==> NewestFirst(part)
  {
    if part != [] {
      var s, e :| 0 <= s <= e <= |all| && part == all[s..e];
      assert forall i :: 0 <= i < |part| ==> part[i] == all[s + i];
    }
  }

  /**
    The answer for any list and clamped pagination: a page or limit that is NaN gives an empty
    page; otherwise the page is the run of the list that starts at the offset and holds at most
    `limit` entries (fewer only at the end), so it holds only entries of the list, newest first
    when the list is; `total` is the list's length and `totalPages` the least number of pages
    of `limit` entries that hold it (NaN for a NaN limit).
  */
  lemma AnswerSpec(all: seq<ListedProject>, p: NumericPage)
    requires Clamped(p)
    ensures var r := Answer(all, p);
      && (p.page.None? || p.limit.None? ==> r.projects == [])
      && (p.page.Some? && p.limit.Some? ==>
            var o := p.offset.value;
            && o >= 0
            && |r.projects| <= p.limit.value
            && (o + p.limit.value <= |all| ==> r.projects == all[o..o + p.limit.value])
            && (o <= |all| < o + p.limit.value ==> r.projects == all[o..])
            && (o >= |all| ==> r.projects == []))
      && (forall x :: x in r.projects ==> x in all)
      && (NewestFirst(all) ==> NewestFirst(r.projects))
      && r.pagination.total == |all| && r.pagination.page == p.page && r.pagination.limit == p.limit
      && (p.limit.None? <==> r.pagination.totalPages.None?)
      && (p.limit.Some? ==>
            var pages := r.pagination.totalPages.value;
            pages * p.limit.value >= |all| && (|all| > 0 ==> (pages - 1) * p.limit.value < |all|))
  {
    var r := Answer(all, p);
    if p.offset.Some? {
      PageOf(all, p.offset.value, p.limit.value);
    }
    NewestFirstSlice(all, r.projects);
    if p.limit.Some? {
      CeilDivSpec(|all|, p.limit.value);
    }
  }

  /**
    GET /projects, the page, for any clamped pagination: with numeric page and limit it is the
    run of the sorted, filtered list that starts at the offset and holds at most `limit`
    entries (fewer only at the end of the list), and a page or limit that is NaN gives an
    empty page.
  */
  lemma ListProjectsPage(
    projects: seq<Project>, members: seq<Membership>, userId: string,
    searchParam: Option<string>, typeParam: Option<string>, p: NumericPage)
    requires Clamped(p)
    ensures var all := SortedList(projects, members, userId, searchParam, typeParam);
      var r := ListingOf(projects, members, userId, searchParam, typeParam, p).projects;
      && (p.page.None? || p.limit.None? ==> r == [])
      && (p.page.Some? && p.limit.Some? ==>
            var o := p.offset.value;
            && o >= 0
            && |r| <= p.limit.value
            && (o + p.limit.value <= |all| ==> r == all[o..o + p.limit.value])
            && (o <= |all| < o + p.limit.value ==> r == all[o..])
            && (o >= |all| ==> r == []))
  {
    AnswerSpec(SortedList(projects, members, userId, searchParam, typeParam), p);
  }

  /**
    GET /projects, the counts: `total` counts the whole filtered list and `totalPages` is the
    least number of pages of `limit` entries that hold it (NaN for a NaN limit).
  */
  lemma ListProjectsCount(
    projects: seq<Project>, members: seq<Membership>, userId: string,
    searchParam: Option<string>, typeParam: Option<string>, p: NumericPage)
    requires Clamped(p)
    ensures var total := |Filtered(Combined(projects, members, userId), SearchText(searchParam), typeParam)|;
      var info := ListingOf(projects, members, userId, searchParam, typeParam, p).pagination;
      && info.total == total
      && info.page == p.page && info.limit == p.limit
      && (p.limit.None? <==> info.totalPages.None?)
      && (p.limit.Some? ==>
            info.totalPages.value * p.limit.value >= total && (total > 0 ==> (info.totalPages.value - 1) * p.limit.value < total))
  {
    AnswerSpec(SortedList(projects, members, userId, searchParam, typeParam), p);
  }

  /**
    GET /projects, the entries: every entry on the page is a project the caller owns (as
    "owner") or is a member of (with that role) that passes the search and the type, and the
    page is newest first.
  */
  lemma ListProjectsEntries(
    projects: seq<Project>, members: seq<Membership>, userId: string,
    searchParam: Option<string>, typeParam: Option<string>, p: NumericPage)
    requires Clamped(p)
    ensures var r := ListingOf(projects, members, userId, searchParam, typeParam, p);
      && NewestFirst(r.projects)
      && (forall x :: x in r.projects ==>
            ((x.project in projects && x.project.userId == Some(userId) && x.role == Owner) || MemberEntry(x, members, projects, userId))
            && NameMatches(x, SearchText(searchParam)) && TypeMatches(x, typeParam))
  {
    var xs := Filtered(Combined(projects, members, userId), SearchText(searchParam), typeParam);
    var all := SortNewest(xs);
    AnswerSpec(all, p);
    SortNewestSpec(xs);
    assert forall x :: x in all ==> x in xs by {
      assert forall x :: x in all <==> x in multiset(all);
    }
    CombinedSpec(projects, members, userId);
    FilteredSpec(Combined(projects, members, userId), searchParam, typeParam);
  }

  /** The page at offset 0 is the first `l` entries, or the whole list when it is shorter. */
  lemma FirstEntries(all: seq<ListedProject>, l: int)
    requires l >= 1
    ensures Slice(all, Some(0), Some(0 + l)) == (if |all| <= l then all else all[..l])
  {
    if |all| <= l {
      assert all[0..|all|] == all;
    }
  }

  /** A page at offset 0 is the first `limit` entries of the sorted list, or all of it when it is shorter. */
  lemma FirstPage(
    projects: seq<Project>, members: seq<Membership>, userId: string,
    searchParam: Option<string>, typeParam: Option<string>, p: NumericPage)
    requires Clamped(p) && p.page.Some? && p.offset == Some(0)
    ensures var all := SortedList(projects, members, userId, searchParam, typeParam);
      var r := ListingOf(projects, members, userId, searchParam, typeParam, p);
      && r.projects == (if |all| <= p.limit.value then all else all[..p.limit.value])
      && r.pagination.page == p.page && r.pagination.limit == p.limit
  {
    var all := SortedList(projects, members, userId, searchParam, typeParam);
    assert ListingOf(projects, members, userId, searchParam, typeParam, p).projects == Slice(all, Some(0), Some(0 + p.limit.value));
    FirstEntries(all, p.limit.value);
  }

  /**
    Without page and limit parameters the pagination is page 1 of limit 20, and the answer is
    the first 20 entries of the sorted list.
  */
  lemma DefaultPage(
    projects: seq<Project>, members: seq<Membership>, userId: string,
    searchParam: Option<string>, typeParam: Option<string>, pageParam: Option<string>, limitParam: Option<string>)
    ensures pageParam.None? && limitParam.None? ==> Params(pageParam, limitParam) == NumericPage(Some(1), Some(20), Some(0))
    ensures var p := NumericPage(Some(1), Some(20), Some(0));
      var all := SortedList(projects, members, userId, searchParam, typeParam);
      var r := ListingOf(projects, members, userId, searchParam, typeParam, p);
      && r.projects == (if |all| <= 20 then all else all[..20])
      && r.pagination.page == Some(1) && r.pagination.limit == Some(20)
  {
    LibPaginationSpec(pageParam, limitParam);
    FirstPage(projects, members, userId, searchParam, typeParam, NumericPage(Some(1), Some(20), Some(0)));
  }
}
