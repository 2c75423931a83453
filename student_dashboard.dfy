/** The student dashboard page: a role guard, the student's own borrow
    requests newest first, every project newest first with a flag saying
    whether this student has asked to borrow it, and the list of categories. */
module StudentDashboard {
  import opened Common
  import opened Records
  import opened AuthOptions

  const LoginPath := "/student-login"

  /** The server session as the page reads it: `session.user.id` and the
      role string `session.user.role`, each possibly unset. */
  datatype SessionInfo = SessionInfo(userId: Option<string>, role: Option<string>)

  /** A project card's data: the project and its `hasRequested` flag. */
  datatype ProjectEntry = ProjectEntry(project: Project, hasRequested: bool)

  datatype Dashboard = Dashboard(
    projects: seq<ProjectEntry>,
    myRequests: seq<BorrowRequest>,
    categories: seq<string>)

  /** What the page does: redirect (no data is read) or render. */
  datatype Page = Redirect(path: string) | Render(view: Dashboard)

  // ---------------------------------------------------------------------
  // Query helpers: a `where` filter and an `orderBy: desc`.
  // ---------------------------------------------------------------------

  /** The rows that satisfy `keep`, in table order. */
  function Filter<T(!new)>(s: seq<T>, keep: T -> bool): (r: seq<T>)
    ensures |r| <= |s|
    ensures forall x :: x in r <==> x in s && keep(x)
    ensures forall x :: multiset(r)[x] == if keep(x) then multiset(s)[x] else 0
  {
    if s == [] then []
    else
      assert s == [s[0]] + s[1..];
      if keep(s[0]) then [s[0]] + Filter(s[1..], keep)
    else Filter(s[1..], keep)
  }

  ghost predicate SortedDesc<T>(s: seq<T>, key: T -> int) {
    forall i, j :: 0 <= i < j < |s| ==> key(s[i]) >= key(s[j])
  }

  function InsertDesc<T(==)>(x: T, s: seq<T>, key: T -> int): (r: seq<T>)
    requires SortedDesc(s, key)
    ensures |r| == |s| + 1
    ensures r[0] == x || (s != [] && r[0] == s[0])
    ensures SortedDesc(r, key)
    ensures multiset(r) == multiset(s) + multiset{x}
  {
    if s == [] then [x]
    else if key(x) >= key(s[0]) then
      ConsSorted(x, s, key);
      [x] + s
    else
      SortedTail(s, key);
      var rest := InsertDesc(x, s[1..], key);
      assert s == [s[0]] + s[1..];
      assert multiset(s) == multiset{s[0]} + multiset(s[1..]);
      ConsSorted(s[0], rest, key);
      assert multiset([s[0]] + rest) == multiset{s[0]} + multiset(rest);
      [s[0]] + rest
  }

  lemma SortedTail<T>(s: seq<T>, key: T -> int)
    requires s != [] && SortedDesc(s, key)
    ensures SortedDesc(s[1..], key)
  {
    forall i, j | 0 <= i < j < |s| - 1 ensures key(s[1..][i]) >= key(s[1..][j]) {
      assert s[1..][i] == s[i + 1] && s[1..][j] == s[j + 1];
    }
  }

  /** A row no smaller than the head of a sorted sequence can be put in front. */
  lemma ConsSorted<T>(y: T, s: seq<T>, key: T -> int)
    requires SortedDesc(s, key)
    requires s != [] ==> key(y) >= key(s[0])
    ensures SortedDesc([y] + s, key)
  {
    var r := [y] + s;
    forall i, j | 0 <= i < j < |r| ensures key(r[i]) >= key(r[j]) {
      assert r[j] == s[j - 1];
      if i > 0 {
        assert r[i] == s[i - 1];
      }
    }
  }

  /** The rows ordered by `key`, largest first. */
  function SortDesc<T(==)>(s: seq<T>, key: T -> int): (r: seq<T>)
    ensures SortedDesc(r, key)
    ensures multiset(r) == multiset(s)
  {
    if s == [] then []
    else
      assert s == [s[0]] + s[1..];
      InsertDesc(s[0], SortDesc(s[1..], key), key)
  }

  // ---------------------------------------------------------------------
  // Categories: `[...new Set(projects.map(p => p.category))]`.
  // ---------------------------------------------------------------------

  function Categories(projects: seq<Project>): (r: seq<string>)
    ensures |r| == |projects|
    ensures forall i :: 0 <= i < |projects| ==> r[i] == projects[i].category
  {
    if projects == [] then [] else [projects[0].category] + Categories(projects[1..])
  }

  /** The distinct elements of `s`, each kept at its first occurrence. */
  function Distinct(s: seq<string>): (r: seq<string>)
    ensures forall i, j :: 0 <= i < j < |r| ==> r[i] != r[j]
    ensures forall x :: x in r <==> x in s
  {
    if s == [] then []
    else
      var r := Distinct(s[..|s| - 1]);
      assert s == s[..|s| - 1] + [s[|s| - 1]];
      if s[|s| - 1] in r then r else r + [s[|s| - 1]]
  }

  /** The position of the first occurrence of `x` in `s`. */
  function FirstIndex(s: seq<string>, x: string): (k: nat)
    requires x in s
    ensures k < |s| && s[k] == x
    ensures forall j :: 0 <= j < k ==> s[j] != x
  {
    if s[0] == x then 0 else 1 + FirstIndex(s[1..], x)
  }

  lemma FirstIndexOfPrefix(p: seq<string>, y: string, x: string)
    requires x in p
    ensures FirstIndex(p + [y], x) == FirstIndex(p, x)
  {
    var a, b := FirstIndex(p + [y], x), FirstIndex(p, x);
    assert (p + [y])[b] == x;
  }

  /** The categories appear in the order in which they first occur. */
  lemma {:induction false} DistinctKeepsFirstOccurrenceOrder(s: seq<string>)
    ensures forall i, j :: 0 <= i < j < |Distinct(s)| ==>
      FirstIndex(s, Distinct(s)[i]) < FirstIndex(s, Distinct(s)[j])
  {
    if s != [] {
      var p, y := s[..|s| - 1], s[|s| - 1];
      assert s == p + [y];
      DistinctKeepsFirstOccurrenceOrder(p);
      var r' := Distinct(p);
      var r := Distinct(s);
      forall i, j | 0 <= i < j < |r|
        ensures FirstIndex(s, r[i]) < FirstIndex(s, r[j])
      {
        assert r[i] == r'[i] && r'[i] in p;
        FirstIndexOfPrefix(p, y, r[i]);
        if j < |r'| {
          assert r[j] == r'[j] && r'[j] in p;
          FirstIndexOfPrefix(p, y, r[j]);
        } else {
          assert r[j] == y && y !in p;
          assert FirstIndex(s, r[j]) == |p|;
        }
      }
    }
  }

  // ---------------------------------------------------------------------
  // The page.
  // ---------------------------------------------------------------------

  /** The `where: { student_id }` condition; an unset id sets no condition. */
  predicate ByStudent(studentId: Option<string>, r: BorrowRequest): (b: bool)
    ensures studentId.None? ==> b
    ensures studentId.Some? ==> (b <==> r.studentId == studentId.value)
  {
    studentId.None? || r.studentId == studentId.value
  }

  /** `project.BorrowRequest.length > 0` for the project's requests filtered
      by the student: true iff the student has a request of any status on the
      project. */
  function HasRequested(requests: seq<BorrowRequest>, projectId: string,
                        studentId: Option<string>): (b: bool)
    ensures b <==> exists r :: r in requests && r.projectId == projectId && ByStudent(studentId, r)
  {
    var mine := Filter(requests, (r: BorrowRequest) => r.projectId == projectId && ByStudent(studentId, r));
    if mine == [] then false
    else
      assert mine[0] in mine;
      true
  }

  function Entries(projects: seq<Project>, requests: seq<BorrowRequest>,
                   studentId: Option<string>): (r: seq<ProjectEntry>)
    ensures |r| == |projects|
    ensures forall i :: 0 <= i < |r| ==>
      r[i].project == projects[i]
      && r[i].hasRequested == HasRequested(requests, projects[i].id, studentId)
  {
    if projects == [] then []
    else
      var rest := Entries(projects[1..], requests, studentId);
      var r := [ProjectEntry(projects[0], HasRequested(requests, projects[0].id, studentId))] + rest;
      assert forall i :: 1 <= i < |r| ==> r[i] == rest[i - 1];
      r
  }

  function ProjectCreated(p: Project): int { p.createdAt }
  function RequestDate(r: BorrowRequest): int { r.requestDate }

  /** The page for a session, over the project table and the borrow-request
      table. */
  function StudentDashboard(session: Option<SessionInfo>, projects: seq<Project>,
                            requests: seq<BorrowRequest>): (pg: Page)
    // the guard: no session, or not a student, redirects and reads nothing
    ensures pg.Redirect? <==> session.None? || session.value.role != Some("student")
    ensures pg.Redirect? ==> pg.path == "/student-login"
    ensures pg.Render? ==>
      var sid := session.value.userId;
      var v := pg.view;
      // every listed request is the student's, and every one of them is listed
      && (forall r :: r in v.myRequests <==> r in requests && ByStudent(sid, r))
      && multiset(v.myRequests) == multiset(Filter(requests, (r: BorrowRequest) => ByStudent(sid, r)))
      && (sid.Some? ==> forall r :: r in v.myRequests ==> r.studentId == sid.value)
      && SortedDesc(v.myRequests, RequestDate)
      // every project is listed once, newest first
      && multiset(Projects(v.projects)) == multiset(projects)
      && SortedDesc(Projects(v.projects), ProjectCreated)
      && (forall i :: 0 <= i < |v.projects| ==>
            v.projects[i].hasRequested == HasRequested(requests, v.projects[i].project.id, sid))
      // categories: no duplicates, exactly the projects' categories
      && (forall i, j :: 0 <= i < j < |v.categories| ==> v.categories[i] != v.categories[j])
      && (forall c :: c in v.categories <==> exists p :: p in projects && p.category == c)
      // in the order in which they first occur in the listed projects
      && v.categories == Distinct(Categories(Projects(v.projects)))
  {
    if session.None? || session.value.role != Some("student") then Redirect(LoginPath)
    else
      var sid := session.value.userId;
      var allProjects := SortDesc(projects, ProjectCreated);
      var mine := SortDesc(Filter(requests, (r: BorrowRequest) => ByStudent(sid, r)), RequestDate);
      var categories := Distinct(Categories(allProjects));
      ProjectsOfEntries(allProjects, requests, sid);
      CategoriesAreProjectCategories(allProjects, projects);
      MultisetMembership(Filter(requests, (r: BorrowRequest) => ByStudent(sid, r)), mine);
      Render(Dashboard(Entries(allProjects, requests, sid), mine, categories))
  }

  /** A session whose role was written from a `Role` passes the guard exactly
      when that role is the student role. */
  lemma OnlyStudentRolePasses(userId: Option<string>, role: Role, projects: seq<Project>,
                              requests: seq<BorrowRequest>)
    ensures StudentDashboard(Some(SessionInfo(userId, Some(role.Name()))), projects, requests).Render?
      <==> role == StudentRole
  {
  }

  function Projects(entries: seq<ProjectEntry>): (r: seq<Project>)
    ensures |r| == |entries|
    ensures forall i :: 0 <= i < |r| ==> r[i] == entries[i].project
  {
    if entries == [] then [] else [entries[0].project] + Projects(entries[1..])
  }

  lemma ProjectsOfEntries(projects: seq<Project>, requests: seq<BorrowRequest>,
                          studentId: Option<string>)
    ensures Projects(Entries(projects, requests, studentId)) == projects
  {
  }

  lemma MultisetMembership<T>(a: seq<T>, b: seq<T>)
    requires multiset(a) == multiset(b)
    ensures forall x :: x in a <==> x in b
  {
    forall x ensures x in a <==> x in b {
      assert x in a <==> x in multiset(a);
      assert x in b <==> x in multiset(b);
    }
  }

  lemma CategoriesAreProjectCategories(sorted: seq<Project>, projects: seq<Project>)
    requires multiset(sorted) == multiset(projects)
    ensures forall c :: c in Categories(sorted) <==> exists p :: p in projects && p.category == c
  {
    MultisetMembership(sorted, projects);
    var cs := Categories(sorted);
    forall c ensures c in cs <==> exists p :: p in projects && p.category == c {
      if c in cs {
        var i :| 0 <= i < |cs| && cs[i] == c;
        assert sorted[i] in projects;
      }
      if p :| p in projects && p.category == c {
        assert p in sorted;
        var i :| 0 <= i < |sorted| && sorted[i] == p;
        assert cs[i] == c;
      }
    }
  }
}
