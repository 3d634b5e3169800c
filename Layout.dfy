/** The application shell (src/app/components/layout/layout.component.ts): the role-filtered
  * side navigation, the avatar initials, the collapse toggle and the toolbar search, which is
  * enabled on five list pages and writes its text to the `q` query parameter. */
module Layout {
  import opened Wrappers
  import opened Seqs
  import opened Text
  import opened Models

  datatype NavItem = NavItem(title: string, route: string, icon: string, roles: seq<string>)

  const AllRoles: seq<string> := ["Admin", "Teacher", "Student"]

  /** The side navigation table. */
  const NavItems: seq<NavItem> := [
    NavItem("Dashboard", "/", "dashboard", AllRoles),
    NavItem("Users", "/users", "group", ["Admin"]),
    NavItem("Create Accounts", "/register", "person_add", ["Admin"]),
    NavItem("Departments", "/departments", "business", ["Admin"]),
    NavItem("Courses", "/courses", "menu_book", ["Admin"]),
    NavItem("Classes", "/classes", "school", AllRoles),
    NavItem("Assignments", "/assignments", "assignment", AllRoles),
    NavItem("Attendance", "/attendance", "check_circle", AllRoles),
    NavItem("Grades", "/grades", "grade", ["Student"]),
    NavItem("Notifications", "/notifications", "notifications", ["Student"]),
    NavItem("Calendar", "/calendar", "calendar_today", AllRoles)
  ]

  /** `item.roles.some(role => hasRole(role))`: the signed-in user's role is listed exactly. */
  function VisibleTo(currentUser: Option<User>): NavItem -> bool {
    (item: NavItem) => currentUser.Some? && currentUser.value.role in item.roles
  }

  /** `filteredNavItems` */
  function FilteredNavItems(items: seq<NavItem>, currentUser: Option<User>): (r: seq<NavItem>)
    ensures forall item :: item in r <==> item in items && currentUser.Some? && currentUser.value.role in item.roles
    ensures IsSubsequence(r, items)
  {
    FilterSpec(items, VisibleTo(currentUser));
    Filter(items, VisibleTo(currentUser))
  }

  /** Signed out, the navigation is empty. */
  lemma {:induction false} NoNavigationWhenSignedOut(items: seq<NavItem>)
    ensures FilteredNavItems(items, None) == []
  {
    if items != [] {
      NoNavigationWhenSignedOut(items[1..]);
    }
  }

  function WithRole(role: string): Option<User> {
    Some(User("", "", "", "", role, true, None))
  }

  /** With the table above an Admin sees nine entries, a Teacher five and a Student seven; a
    * role outside the three sees none. */
  lemma NavigationPerRole(role: string)
    ensures |FilteredNavItems(NavItems, WithRole("Admin"))| == 9
    ensures |FilteredNavItems(NavItems, WithRole("Teacher"))| == 5
    ensures |FilteredNavItems(NavItems, WithRole("Student"))| == 7
    ensures role !in AllRoles ==> FilteredNavItems(NavItems, WithRole(role)) == []
  {
    NavigationCount("Admin");
    NavigationCount("Teacher");
    NavigationCount("Student");
    if role !in AllRoles {
      NoNavigationForOtherRoles(role);
    }
  }

  /** The length of one role's navigation, entry by entry. */
  lemma NavigationCount(role: string)
    ensures role == "Admin" ==> |FilteredNavItems(NavItems, WithRole(role))| == 9
    ensures role == "Teacher" ==> |FilteredNavItems(NavItems, WithRole(role))| == 5
    ensures role == "Student" ==> |FilteredNavItems(NavItems, WithRole(role))| == 7
  {
    FilterNavLength(NavItems, VisibleTo(WithRole(role)));
  }

  lemma NoNavigationForOtherRoles(role: string)
    requires role !in AllRoles
    ensures FilteredNavItems(NavItems, WithRole(role)) == []
  {
    FilterNavLength(NavItems, VisibleTo(WithRole(role)));
  }

  function Shown(s: seq<NavItem>, p: NavItem -> bool, k: nat): nat
    requires k < |s|
  {
    if p(s[k]) then 1 else 0
  }

  lemma FilterStep(s: seq<NavItem>, p: NavItem -> bool, k: nat)
    requires k < |s|
    ensures |Filter(s[k..], p)| == Shown(s, p, k) + |Filter(s[k + 1..], p)|
  {
    assert s[k..][1..] == s[k + 1..];
  }

  /** How many entries of an eleven-entry table a filter keeps, entry by entry. */
  lemma FilterNavLength(s: seq<NavItem>, p: NavItem -> bool)
    requires |s| == 11
    ensures |Filter(s, p)| == Shown(s, p, 0) + Shown(s, p, 1) + Shown(s, p, 2) + Shown(s, p, 3) +
      Shown(s, p, 4) + Shown(s, p, 5) + Shown(s, p, 6) + Shown(s, p, 7) + Shown(s, p, 8) +
      Shown(s, p, 9) + Shown(s, p, 10)
  {
    assert s[0..] == s;
    FilterStep(s, p, 0); FilterStep(s, p, 1); FilterStep(s, p, 2); FilterStep(s, p, 3);
    FilterStep(s, p, 4); FilterStep(s, p, 5); FilterStep(s, p, 6); FilterStep(s, p, 7);
    FilterStep(s, p, 8); FilterStep(s, p, 9); FilterStep(s, p, 10);
    assert s[11..] == [];
  }

  // ---------------------------------------------------------------------------------------
  // Initials
  // ---------------------------------------------------------------------------------------

  /** `n[0]` for each word, where an empty word's `undefined` joins as nothing. */
  function FirstLetters(words: seq<string>): (r: seq<string>)
    ensures |r| == |words|
    ensures forall k :: 0 <= k < |words| ==> r[k] == (if words[k] == "" then "" else [words[k][0]])
  {
    seq(|words|, k requires 0 <= k < |words| => if words[k] == "" then "" else [words[k][0]])
  }

  /** `getInitials(name)` */
  function GetInitials(name: string): (r: string)
    ensures |r| <= 2
    ensures name == "" ==> r == ""
  {
    if name == "" then ""
    else
      var letters := Upper(Join(FirstLetters(Split(name, ' ')), ""));
      if |letters| >= 2 then letters[..2] else letters
  }

  lemma SplitWord(w: string, c: char)
    requires c !in w
    ensures Split(w, c) == [w]
  {
    if w != [] {
      SplitWord(w[1..], c);
      assert [w[0]] + w[1..] == w;
    }
  }

  lemma {:induction false} SplitAtSeparator(a: string, b: string, c: char)
    requires c !in a
    ensures Split(a + [c] + b, c) == [a] + Split(b, c)
  {
    if a == [] {
      assert a + [c] + b == [c] + b;
      assert ([c] + b)[1..] == b;
    } else {
      assert (a + [c] + b)[1..] == a[1..] + [c] + b;
      SplitAtSeparator(a[1..], b, c);
      assert [a[0]] + a[1..] == a;
    }
  }

  /** A one-word name gives its capitalised first letter; a first and a last name give both. */
  lemma InitialsOfNames(first: string, last: string)
    requires first != "" && last != "" && ' ' !in first && ' ' !in last
    ensures GetInitials(first) == [UpperChar(first[0])]
    ensures GetInitials(first + " " + last) == [UpperChar(first[0]), UpperChar(last[0])]
  {
    SplitWord(first, ' ');
    SplitWord(last, ' ');
    SplitAtSeparator(first, last, ' ');
    assert first + " " + last == first + [' '] + last;
    var letters := FirstLetters([first, last]);
    assert letters == [[first[0]], [last[0]]];
    assert Join(letters, "") == [first[0]] + "" + [last[0]];
    assert FirstLetters([first]) == [[first[0]]];
    assert Split(first + " " + last, ' ') == [first, last];
    var j := Join(letters, "");
    assert j == [first[0], last[0]];
    assert Upper(j) == [UpperChar(first[0]), UpperChar(last[0])];
  }

  // ---------------------------------------------------------------------------------------
  // The shell's state
  // ---------------------------------------------------------------------------------------

  /** The activated-route tree as far as the shell looks at it: the route's configured path,
    * the `q` query parameter and the first child. */
  datatype Route = Route(path: Option<string>, q: Option<string>, firstChild: Option<Route>)

  /** The route reached by following first children until there is none. */
  function Leaf(route: Route): (r: Route)
    ensures r.firstChild.None?
  {
    if route.firstChild.None? then route else Leaf(route.firstChild.value)
  }

  predicate ReachableByFirstChild(route: Route, target: Route) {
    route == target || (route.firstChild.Some? && ReachableByFirstChild(route.firstChild.value, target))
  }

  lemma {:induction false} LeafIsReachable(route: Route)
    ensures ReachableByFirstChild(route, Leaf(route))
  {
    if route.firstChild.Some? {
      LeafIsReachable(route.firstChild.value);
    }
  }

  const DefaultPlaceholder := "Search is not available on this page"

  /** The toolbar search settings per route path (`searchConfigByPath`). */
  function SearchPlaceholder(path: string): Option<string> {
    if path == "users" then Some("Search teachers/students by ID, username, name, or email")
    else if path == "classes" then Some("Search class, stage, subject, teacher, or student count")
    else if path == "courses" then Some("Search subject code, name, teachers, or class coverage")
    else if path == "departments" then Some("Search department, description, or head name")
    else if path == "assignments" then Some("Search assignments by title, class, or due date")
    else None
  }

  const SearchablePaths: set<string> := {"users", "classes", "courses", "departments", "assignments"}

  lemma SearchPlaceholderDomain(path: string)
    ensures SearchPlaceholder(path).Some? <==> path in SearchablePaths
  {
  }

  /** What `onSearchSubmit` asks the router for: `q` set on the leaf route, or removed. */
  datatype Navigation = Navigation(relativeTo: Route, q: Option<string>)

  class Shell {
    var user: Option<User>
    var isCollapsed: bool
    var searchText: string
    var searchPlaceholder: string
    var searchEnabled: bool
    var currentPath: string

    constructor()
      ensures user.None? && !isCollapsed && searchText == "" && !searchEnabled
      ensures searchPlaceholder == DefaultPlaceholder && currentPath == ""
    {
      user := None;
      isCollapsed := false;
      searchText := "";
      searchPlaceholder := DefaultPlaceholder;
      searchEnabled := false;
      currentPath := "";
    }

    /** `toggleCollapse` */
    method ToggleCollapse()
      modifies this
      ensures isCollapsed == !old(isCollapsed)
      ensures user == old(user) && searchText == old(searchText) && searchEnabled == old(searchEnabled)
      ensures searchPlaceholder == old(searchPlaceholder) && currentPath == old(currentPath)
    {
      isCollapsed := !isCollapsed;
    }

    /** `getLeafRoute` */
    static method GetLeafRoute(route: Route) returns (current: Route)
      ensures current == Leaf(route) && current.firstChild.None?
    {
      current := route;
      while current.firstChild.Some?
        invariant Leaf(current) == Leaf(route)
        decreases current
      {
        current := current.firstChild.value;
      }
    }

    /** `updateSearchContext`, run on every completed navigation: search is enabled only on
      * the five list pages, which bring their own placeholder, and the text box shows the
      * leaf route's `q`. */
    method UpdateSearchContext(route: Route)
      modifies this
      ensures currentPath == Leaf(route).path.GetOr("")
      ensures searchEnabled <==> currentPath in SearchablePaths
      ensures searchPlaceholder == SearchPlaceholder(currentPath).GetOr(DefaultPlaceholder)
      ensures searchText == Leaf(route).q.GetOr("")
      ensures user == old(user) && isCollapsed == old(isCollapsed)
    {
      var leaf := GetLeafRoute(route);
      var path := leaf.path.GetOr("");
      currentPath := path;
      var config := SearchPlaceholder(path);
      SearchPlaceholderDomain(path);
      searchEnabled := config.Some?;
      searchPlaceholder := config.GetOr(DefaultPlaceholder);
      searchText := leaf.q.GetOr("");
    }

    /** `onSearchSubmit`: nothing on a page without search; otherwise `q` becomes the trimmed
      * text, or is removed when that is empty. */
    method OnSearchSubmit(route: Route) returns (navigation: Option<Navigation>)
      ensures navigation.None? <==> !searchEnabled
      ensures navigation.Some? ==> navigation.value.relativeTo == Leaf(route)
      ensures navigation.Some? ==> (navigation.value.q.None? <==> Trim(searchText) == "")
      ensures navigation.Some? && navigation.value.q.Some? ==> navigation.value.q.value == Trim(searchText)
    {
      if !searchEnabled {
        return None;
      }
      var target := GetLeafRoute(route);
      var query := Trim(searchText);
      navigation := Some(Navigation(target, if query == "" then None else Some(query)));
    }

    /** `clearSearch`: empty the box and submit, which removes `q` on a searchable page. */
    method ClearSearch(route: Route) returns (navigation: Option<Navigation>)
      modifies this
      ensures searchText == ""
      ensures navigation.None? <==> !searchEnabled
      ensures navigation.Some? ==> navigation.value == Navigation(Leaf(route), None)
      ensures user == old(user) && isCollapsed == old(isCollapsed) && searchEnabled == old(searchEnabled)
      ensures searchPlaceholder == old(searchPlaceholder) && currentPath == old(currentPath)
    {
      searchText := "";
      assert Trim("") == "";
      navigation := OnSearchSubmit(route);
    }
  }
}
