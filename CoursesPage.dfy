/** The courses screen (src/app/pages/courses/courses.component.ts): per course, the distinct
  * teacher names and the number of distinct classes over the subject setups that teach it, the
  * labels built from them, and a search over a space-joined line. */
module CoursesPage {
  import opened Wrappers
  import opened Seqs
  import opened Text
  import opened Models
  import SetupStore
  import ClassesPage

  // ---------------------------------------------------------------------------------------
  // Per-course summary, specified

  function RowOfCourse(courseId: int): ClassSubjectSetup -> bool {
    (r: ClassSubjectSetup) => r.courseId == courseId
  }

  /** The setup rows that teach one course, in row order. */
  function CourseRows(setups: seq<ClassSubjectSetup>, courseId: int): seq<ClassSubjectSetup> {
    Filter(setups, RowOfCourse(courseId))
  }

  /** The courses some setup row teaches: the keys of both maps. */
  function CourseIds(setups: seq<ClassSubjectSetup>): set<int> {
    set r | r in setups :: r.courseId
  }

  /** The classes that some of these rows belong to. */
  function ClassIdSet(rows: seq<ClassSubjectSetup>): set<int> {
    set r | r in rows :: r.classId
  }

  function TeacherNamesMap(setups: seq<ClassSubjectSetup>): map<int, string> {
    map courseId | courseId in CourseIds(setups) :: Join(ClassesPage.TeacherNames(CourseRows(setups, courseId)), ", ")
  }

  function ClassCountMap(setups: seq<ClassSubjectSetup>): map<int, int> {
    map courseId | courseId in CourseIds(setups) :: |ClassIdSet(CourseRows(setups, courseId))|
  }

  // ---------------------------------------------------------------------------------------
  // What the summary says

  /** A course has an entry in either map exactly when some setup row teaches it. */
  lemma SummaryKeys(setups: seq<ClassSubjectSetup>, courseId: int)
    ensures courseId in TeacherNamesMap(setups) <==> exists r :: r in setups && r.courseId == courseId
    ensures courseId in ClassCountMap(setups) <==> exists r :: r in setups && r.courseId == courseId
  {
  }

  /** The teacher summary of a course joins, by `, `, each non-empty teacher name of the rows
    * teaching it once, in first-seen order. */
  lemma TeacherSummarySpec(setups: seq<ClassSubjectSetup>, courseId: int)
    requires courseId in CourseIds(setups)
    ensures var names := ClassesPage.TeacherNames(CourseRows(setups, courseId));
      && TeacherNamesMap(setups)[courseId] == Join(names, ", ")
      && SetupStore.IsClean(names)
      && (forall x :: x in names <==> (x != "" && exists r :: r in setups && r.courseId == courseId && x in r.teacherNames))
  {
    var rows := CourseRows(setups, courseId);
    ClassesPage.TeacherNamesSpec(rows);
    FilterSpec(setups, RowOfCourse(courseId));
  }

  /** The class count of a course is the number of distinct classes among the rows teaching it. */
  lemma ClassCountSpec(setups: seq<ClassSubjectSetup>, courseId: int)
    requires courseId in CourseIds(setups)
    ensures ClassCountMap(setups)[courseId] == |set r | r in setups && r.courseId == courseId :: r.classId|
    ensures ClassCountMap(setups)[courseId] >= 1
  {
    var rows := CourseRows(setups, courseId);
    FilterSpec(setups, RowOfCourse(courseId));
    assert ClassIdSet(rows) == set r | r in setups && r.courseId == courseId :: r.classId;
    var r :| r in setups && r.courseId == courseId;
    assert r.classId in ClassIdSet(rows);
  }

  // ---------------------------------------------------------------------------------------
  // Labels

  /** `getTeachersLabel(courseId)`: the summary, or `Not Assigned` for a missing or empty one. */
  function TeachersLabel(teacherNames: map<int, string>, courseId: int): string {
    ClassesPage.OrText(ClassesPage.Get(teacherNames, courseId), "Not Assigned")
  }

  /** `getClassesLabel` for a count. */
  function ClassesLabel(count: int): string {
    if count == 0 then "No Classes"
    else if count == 1 then "1 Class"
    else IntToString(count) + " Classes"
  }

  /** The classes label tells every two class counts apart. */
  lemma ClassesLabelInjective(a: int, b: int)
    requires a != b
    ensures ClassesLabel(a) != ClassesLabel(b)
  {
    forall n | n != 0 && n != 1 ensures ClassesLabel(n)[0] != 'N' && ClassesLabel(n) != "1 Class" {
      var digits := IntToString(n);
      NatToStringRoundTrip(if n < 0 then -n else n);
      assert ClassesLabel(n)[0] == digits[0];
      assert ClassesLabel(n)[|ClassesLabel(n)| - 1] == 's';
    }
    if a != 0 && a != 1 && b != 0 && b != 1 {
      var sa, sb := IntToString(a), IntToString(b);
      IntToStringInjective(a, b);
      assert (sa + " Classes")[..|sa|] == sa;
    }
  }

  /** The classes label of a course, after the summary is built, names the number of distinct
    * classes teaching it, and `No Classes` for a course no row teaches. */
  lemma ClassesLabelAfterBuild(setups: seq<ClassSubjectSetup>, courseId: int)
    ensures var counted := set r | r in setups && r.courseId == courseId :: r.classId;
      ClassesLabel(ClassesPage.Get(ClassCountMap(setups), courseId).GetOr(0)) == ClassesLabel(|counted|)
  {
    if courseId in CourseIds(setups) {
      ClassCountSpec(setups, courseId);
    } else {
      assert (set r | r in setups && r.courseId == courseId :: r.classId) == {};
    }
  }

  /** The teachers label of a course, after the summary is built, is the joined teacher names,
    * and `Not Assigned` when no row teaching it names a teacher. */
  lemma TeachersLabelAfterBuild(setups: seq<ClassSubjectSetup>, courseId: int)
    ensures var names := ClassesPage.TeacherNames(CourseRows(setups, courseId));
      && (names != [] ==> TeachersLabel(TeacherNamesMap(setups), courseId) == Join(names, ", "))
      && (names == [] ==> TeachersLabel(TeacherNamesMap(setups), courseId) == "Not Assigned")
  {
    var rows := CourseRows(setups, courseId);
    var names := ClassesPage.TeacherNames(rows);
    ClassesPage.TeacherNamesSpec(rows);
    FilterSpec(setups, RowOfCourse(courseId));
    if names != [] {
      JoinStartsWithFirst(names, ", ");
      assert names[0] in names;
      assert courseId in CourseIds(setups);
    }
  }

  // ---------------------------------------------------------------------------------------
  // Search

  /** The lowercased line a course is searched in: id, code, name, department and the two labels,
    * joined by spaces (an absent department joins as ""). */
  function SearchableLine(teacherNames: map<int, string>, classCounts: map<int, int>, c: Course): string {
    Lower(Join([IntToString(c.id), c.code, c.name, c.departmentName.GetOr(""), TeachersLabel(teacherNames, c.id),
                ClassesLabel(ClassesPage.Get(classCounts, c.id).GetOr(0))], " "))
  }

  /** The `filter` callback of `applyFilter`. */
  function MatchesCourse(teacherNames: map<int, string>, classCounts: map<int, int>, query: string): Course -> bool {
    (c: Course) => Contains(SearchableLine(teacherNames, classCounts, c), query)
  }

  /** The searchable line starts with the course id, so searching for the id keeps the course. */
  lemma SearchById(teacherNames: map<int, string>, classCounts: map<int, int>, c: Course)
    ensures MatchesCourse(teacherNames, classCounts, Lower(IntToString(c.id)))(c)
  {
    var parts := [IntToString(c.id), c.code, c.name, c.departmentName.GetOr(""), TeachersLabel(teacherNames, c.id),
                  ClassesLabel(ClassesPage.Get(classCounts, c.id).GetOr(0))];
    var line := Join(parts, " ");
    assert line == parts[0] + (" " + Join(parts[1..], " "));
    LowerAppend(parts[0], " " + Join(parts[1..], " "));
    ContainsAt(SearchableLine(teacherNames, classCounts, c), Lower(parts[0]));
    assert OccursAt(SearchableLine(teacherNames, classCounts, c), Lower(parts[0]), 0);
  }

  // ---------------------------------------------------------------------------------------
  // The component

  class CoursesScreen {
    var allCourses: seq<Course>
    var courses: seq<Course>
    var searchQuery: string
    var teacherNamesByCourseId: map<int, string>
    var classCountByCourseId: map<int, int>

    constructor()
      ensures allCourses == [] && courses == [] && searchQuery == ""
      ensures teacherNamesByCourseId == map[] && classCountByCourseId == map[]
    {
      allCourses, courses, searchQuery := [], [], "";
      teacherNamesByCourseId, classCountByCourseId := map[], map[];
    }

    /** `applyFilter()`: every course for the empty query, else, in order, the courses whose
      * searchable line contains the query. */
    method ApplyFilter()
      modifies this
      ensures courses == (if searchQuery == "" then allCourses
                          else Filter(allCourses, MatchesCourse(teacherNamesByCourseId, classCountByCourseId, searchQuery)))
      ensures forall c :: c in courses <==> (c in allCourses && Contains(SearchableLine(teacherNamesByCourseId, classCountByCourseId, c), searchQuery))
      ensures IsSubsequence(courses, allCourses)
      ensures allCourses == old(allCourses) && searchQuery == old(searchQuery)
      ensures teacherNamesByCourseId == old(teacherNamesByCourseId) && classCountByCourseId == old(classCountByCourseId)
    {
      var p := MatchesCourse(teacherNamesByCourseId, classCountByCourseId, searchQuery);
      if searchQuery == "" {
        courses := allCourses;
        forall c | c in allCourses ensures p(c) {
          ContainsEmpty(SearchableLine(teacherNamesByCourseId, classCountByCourseId, c));
        }
        FilterAll(allCourses, p);
      } else {
        courses := Filter(allCourses, p);
      }
      FilterSpec(allCourses, p);
    }

    /** The `q` query parameter, trimmed and lowercased, then the filter re-applied. */
    method OnQueryParams(q: Option<string>)
      modifies this
      ensures courses == (if searchQuery == "" then allCourses
                          else Filter(allCourses, MatchesCourse(teacherNamesByCourseId, classCountByCourseId, searchQuery)))
      ensures searchQuery == Lower(Trim(q.GetOr("")))
      ensures forall c :: c in courses <==> (c in allCourses && Contains(SearchableLine(teacherNamesByCourseId, classCountByCourseId, c), searchQuery))
      ensures IsSubsequence(courses, allCourses)
      ensures allCourses == old(allCourses)
      ensures teacherNamesByCourseId == old(teacherNamesByCourseId) && classCountByCourseId == old(classCountByCourseId)
    {
      searchQuery := Lower(Trim(q.GetOr("")));
      ApplyFilter();
    }

    /** The success branch of `loadCourses`: the courses stored, the setups summarised, then
      * the filter applied. */
    method OnCoursesLoaded(courseList: seq<Course>, setups: seq<ClassSubjectSetup>)
      modifies this
      ensures courses == (if searchQuery == "" then allCourses
                          else Filter(allCourses, MatchesCourse(teacherNamesByCourseId, classCountByCourseId, searchQuery)))
      ensures allCourses == courseList && searchQuery == old(searchQuery)
      ensures teacherNamesByCourseId == TeacherNamesMap(setups)
      ensures classCountByCourseId == ClassCountMap(setups)
      ensures forall c :: c in courses <==> (c in courseList && Contains(SearchableLine(teacherNamesByCourseId, classCountByCourseId, c), searchQuery))
      ensures IsSubsequence(courses, courseList)
    {
      allCourses := courseList;
      BuildCourseTeachingMap(setups);
      ApplyFilter();
    }

    /** `buildCourseTeachingMap(setups)`: both maps cleared, the per-course teacher and class sets
      * collected in one pass over the rows, then each set written out. */
    method BuildCourseTeachingMap(setups: seq<ClassSubjectSetup>)
      modifies this
      ensures teacherNamesByCourseId == TeacherNamesMap(setups)
      ensures classCountByCourseId == ClassCountMap(setups)
      ensures allCourses == old(allCourses) && courses == old(courses) && searchQuery == old(searchQuery)
    {
      teacherNamesByCourseId := map[];
      classCountByCourseId := map[];
      var teacherSets, classSets, order := CollectCourseSets(setups);
      WriteTeacherNames(teacherSets, order);
      WriteClassCounts(classSets, order);
      SummaryMapsMatch(setups, teacherSets, classSets);
    }

    /** The second loop, over the courses in the order they were first seen: each course's
      * teacher set joined by `, `. */
    method WriteTeacherNames(teacherSets: map<int, seq<string>>, order: seq<int>)
      requires teacherNamesByCourseId == map[]
      requires forall courseId :: courseId in order <==> courseId in teacherSets
      modifies this
      ensures teacherNamesByCourseId == JoinedSets(teacherSets, teacherSets.Keys)
      ensures classCountByCourseId == old(classCountByCourseId)
      ensures allCourses == old(allCourses) && courses == old(courses) && searchQuery == old(searchQuery)
    {
      SeenNone(order);
      for k := 0 to |order|
        invariant Seen(order, k) <= teacherSets.Keys
        invariant teacherNamesByCourseId == JoinedSets(teacherSets, Seen(order, k))
        invariant classCountByCourseId == old(classCountByCourseId)
        invariant allCourses == old(allCourses) && courses == old(courses) && searchQuery == old(searchQuery)
      {
        SeenStep(order, k);
        assert order[k] in order;
        JoinedSetsStep(teacherSets, Seen(order, k), order[k]);
        teacherNamesByCourseId := teacherNamesByCourseId[order[k] := Join(teacherSets[order[k]], ", ")];
      }
      SeenAll(order, teacherSets.Keys);
    }

    /** The third loop, in the same order: each course's class set counted. */
    method WriteClassCounts(classSets: map<int, set<int>>, order: seq<int>)
      requires classCountByCourseId == map[]
      requires forall courseId :: courseId in order <==> courseId in classSets
      modifies this
      ensures classCountByCourseId == SetSizes(classSets, classSets.Keys)
      ensures teacherNamesByCourseId == old(teacherNamesByCourseId)
      ensures allCourses == old(allCourses) && courses == old(courses) && searchQuery == old(searchQuery)
    {
      SeenNone(order);
      for k := 0 to |order|
        invariant Seen(order, k) <= classSets.Keys
        invariant classCountByCourseId == SetSizes(classSets, Seen(order, k))
        invariant teacherNamesByCourseId == old(teacherNamesByCourseId)
        invariant allCourses == old(allCourses) && courses == old(courses) && searchQuery == old(searchQuery)
      {
        SeenStep(order, k);
        assert order[k] in order;
        SetSizesStep(classSets, Seen(order, k), order[k]);
        classCountByCourseId := classCountByCourseId[order[k] := |classSets[order[k]]|];
      }
      SeenAll(order, classSets.Keys);
    }
  }

  /** The keys a `Map` iteration in insertion order has visited after `k` entries. */
  function Seen(order: seq<int>, k: int): set<int>
    requires 0 <= k <= |order|
  {
    set courseId | courseId in order[..k]
  }

  lemma SeenStep(order: seq<int>, k: int)
    requires 0 <= k < |order|
    ensures Seen(order, k + 1) == Seen(order, k) + {order[k]}
  {
    assert order[..k + 1] == order[..k] + [order[k]];
  }

  lemma SeenNone(order: seq<int>)
    ensures Seen(order, 0) == {}
  {
    assert order[..0] == [];
  }

  lemma SeenAll(order: seq<int>, keys: set<int>)
    requires forall courseId :: courseId in order <==> courseId in keys
    ensures Seen(order, |order|) == keys
  {
    assert order[..|order|] == order;
    forall courseId | courseId in keys ensures courseId in Seen(order, |order|) {
      assert courseId in order[..|order|];
    }
    forall courseId | courseId in Seen(order, |order|) ensures courseId in keys {
      assert courseId in order;
    }
  }

  /** The teacher summary written so far: the joined set of each course already visited. */
  function JoinedSets(teacherSets: map<int, seq<string>>, visited: set<int>): map<int, string>
    requires visited <= teacherSets.Keys
  {
    map courseId | courseId in visited :: Join(teacherSets[courseId], ", ")
  }

  /** The class counts written so far: the size of each visited course's class set. */
  function SetSizes(classSets: map<int, set<int>>, visited: set<int>): map<int, int>
    requires visited <= classSets.Keys
  {
    map courseId | courseId in visited :: |classSets[courseId]|
  }

  lemma JoinedSetsStep(teacherSets: map<int, seq<string>>, visited: set<int>, courseId: int)
    requires visited <= teacherSets.Keys && courseId in teacherSets
    ensures JoinedSets(teacherSets, visited + {courseId}) == JoinedSets(teacherSets, visited)[courseId := Join(teacherSets[courseId], ", ")]
  {
  }

  lemma SetSizesStep(classSets: map<int, set<int>>, visited: set<int>, courseId: int)
    requires visited <= classSets.Keys && courseId in classSets
    ensures SetSizes(classSets, visited + {courseId}) == SetSizes(classSets, visited)[courseId := |classSets[courseId]|]
  {
  }

  /** Writing out the collected sets gives the specified summary maps. */
  lemma SummaryMapsMatch(setups: seq<ClassSubjectSetup>, teacherSets: map<int, seq<string>>, classSets: map<int, set<int>>)
    requires teacherSets.Keys == CourseIds(setups) && classSets.Keys == CourseIds(setups)
    requires TeacherSetsOf(teacherSets, setups) && ClassSetsOf(classSets, setups)
    ensures JoinedSets(teacherSets, teacherSets.Keys) == TeacherNamesMap(setups)
    ensures SetSizes(classSets, classSets.Keys) == ClassCountMap(setups)
  {
  }

  /** The first loop of `buildCourseTeachingMap`: per course taught, its insertion-ordered set of
    * non-empty teacher names and its set of class ids. */
  method CollectCourseSets(setups: seq<ClassSubjectSetup>)
    returns (teacherSets: map<int, seq<string>>, classSets: map<int, set<int>>, order: seq<int>)
    ensures teacherSets.Keys == CourseIds(setups) && classSets.Keys == CourseIds(setups)
    ensures forall courseId :: courseId in order <==> courseId in CourseIds(setups)
    ensures TeacherSetsOf(teacherSets, setups) && ClassSetsOf(classSets, setups)
  {
    teacherSets, classSets, order := map[], map[], [];
    for i := 0 to |setups|
      invariant teacherSets.Keys == CourseIds(setups[..i]) && classSets.Keys == CourseIds(setups[..i])
      invariant forall courseId :: courseId in order <==> courseId in teacherSets
      invariant TeacherSetsOf(teacherSets, setups[..i]) && ClassSetsOf(classSets, setups[..i])
    {
      var setup := setups[i];
      ghost var rows := CourseRows(setups[..i], setup.courseId);
      if setup.courseId !in teacherSets {
        NoRowsOfUntaught(setups[..i], setup.courseId);
        order := order + [setup.courseId];
      }
      var teacherSet := if setup.courseId in teacherSets then teacherSets[setup.courseId] else [];
      teacherSet := AddTeacherNames(teacherSet, setup.teacherNames, Flatten(ClassesPage.TeacherLists(rows)));
      var classSet := if setup.courseId in classSets then classSets[setup.courseId] else {};
      CourseIdsStep(setups, i);
      TeacherSetsStep(setups, i, teacherSets, teacherSet);
      ClassSetsStep(setups, i, classSets);
      teacherSets := teacherSets[setup.courseId := teacherSet];
      classSets := classSets[setup.courseId := classSet + {setup.classId}];
    }
    assert setups[..|setups|] == setups;
  }

  /** The collected teacher sets are those of the rows seen so far. */
  predicate TeacherSetsOf(teacherSets: map<int, seq<string>>, seen: seq<ClassSubjectSetup>) {
    forall courseId | courseId in teacherSets :: teacherSets[courseId] == ClassesPage.TeacherNames(CourseRows(seen, courseId))
  }

  /** The collected class sets are those of the rows seen so far. */
  predicate ClassSetsOf(classSets: map<int, set<int>>, seen: seq<ClassSubjectSetup>) {
    forall courseId | courseId in classSets :: classSets[courseId] == ClassIdSet(CourseRows(seen, courseId))
  }

  lemma CourseIdsStep(setups: seq<ClassSubjectSetup>, i: int)
    requires 0 <= i < |setups|
    ensures CourseIds(setups[..i + 1]) == CourseIds(setups[..i]) + {setups[i].courseId}
  {
    assert setups[..i + 1] == setups[..i] + [setups[i]];
  }

  /** One row more: its course's teacher set gains the row's non-empty names, the others stay. */
  lemma TeacherSetsStep(setups: seq<ClassSubjectSetup>, i: int, teacherSets: map<int, seq<string>>, teacherSet: seq<string>)
    requires 0 <= i < |setups|
    requires TeacherSetsOf(teacherSets, setups[..i])
    requires teacherSet == SetupStore.CleanIds(Flatten(ClassesPage.TeacherLists(CourseRows(setups[..i], setups[i].courseId))) + setups[i].teacherNames)
    ensures TeacherSetsOf(teacherSets[setups[i].courseId := teacherSet], setups[..i + 1])
  {
    var id := setups[i].courseId;
    CourseRowsStep(setups, i);
    TeacherNamesSnoc(CourseRows(setups[..i], id), setups[i]);
    var updated := teacherSets[id := teacherSet];
    forall courseId | courseId in updated
      ensures updated[courseId] == ClassesPage.TeacherNames(CourseRows(setups[..i + 1], courseId))
    {
      if courseId != id {
        assert CourseRows(setups[..i + 1], courseId) == CourseRows(setups[..i], courseId) + [];
        assert CourseRows(setups[..i + 1], courseId) == CourseRows(setups[..i], courseId);
        assert updated[courseId] == teacherSets[courseId];
      } else {
        assert CourseRows(setups[..i + 1], id) == CourseRows(setups[..i], id) + [setups[i]];
        assert updated[courseId] == teacherSet;
      }
    }
  }

  /** One row more: its course's class set gains the row's class, the others stay. */
  lemma ClassSetsStep(setups: seq<ClassSubjectSetup>, i: int, classSets: map<int, set<int>>)
    requires 0 <= i < |setups|
    requires ClassSetsOf(classSets, setups[..i])
    requires classSets.Keys == CourseIds(setups[..i])
    ensures var id := setups[i].courseId;
      ClassSetsOf(classSets[id := (if id in classSets then classSets[id] else {}) + {setups[i].classId}], setups[..i + 1])
  {
    var id := setups[i].courseId;
    CourseRowsStep(setups, i);
    if id !in classSets {
      NoRowsOfUntaught(setups[..i], id);
    }
    assert ClassIdSet(CourseRows(setups[..i], id) + [setups[i]]) == ClassIdSet(CourseRows(setups[..i], id)) + {setups[i].classId};
  }

  /** The `forEach` over one row's teacher names: each non-empty one added to the set. */
  method AddTeacherNames(teacherSet: seq<string>, names: seq<string>, ghost earlier: seq<string>) returns (r: seq<string>)
    requires teacherSet == SetupStore.CleanIds(earlier)
    ensures r == SetupStore.CleanIds(earlier + names)
  {
    r := teacherSet;
    assert earlier + names[..0] == earlier;
    for t := 0 to |names|
      invariant r == SetupStore.CleanIds(earlier + names[..t])
    {
      assert earlier + names[..t + 1] == (earlier + names[..t]) + [names[t]];
      SetupStore.CleanIdsSnoc(earlier + names[..t], names[t]);
      if names[t] != "" {
        r := SetAdd(r, names[t]);
      }
    }
    assert names[..|names|] == names;
  }

  /** One more row extends exactly the rows of its own course. */
  lemma CourseRowsStep(setups: seq<ClassSubjectSetup>, i: int)
    requires 0 <= i < |setups|
    ensures forall courseId :: (CourseRows(setups[..i + 1], courseId) == CourseRows(setups[..i], courseId) + (if setups[i].courseId == courseId then [setups[i]] else []))
  {
    assert setups[..i + 1] == setups[..i] + [setups[i]];
    forall courseId ensures CourseRows(setups[..i + 1], courseId) ==
      CourseRows(setups[..i], courseId) + (if setups[i].courseId == courseId then [setups[i]] else [])
    {
      FilterAppend(setups[..i], [setups[i]], RowOfCourse(courseId));
    }
  }

  /** A course no row teaches has no rows. */
  lemma NoRowsOfUntaught(setups: seq<ClassSubjectSetup>, courseId: int)
    requires courseId !in CourseIds(setups)
    ensures CourseRows(setups, courseId) == []
  {
    FilterSpec(setups, RowOfCourse(courseId));
  }

  /** The teacher names of one more row are cleaned after those of the rows before it. */
  lemma TeacherNamesSnoc(rows: seq<ClassSubjectSetup>, r: ClassSubjectSetup)
    ensures ClassesPage.TeacherNames(rows + [r]) == SetupStore.CleanIds(Flatten(ClassesPage.TeacherLists(rows)) + r.teacherNames)
  {
    assert ClassesPage.TeacherLists(rows + [r]) == ClassesPage.TeacherLists(rows) + [r.teacherNames];
    FlattenAppend(ClassesPage.TeacherLists(rows), [r.teacherNames]);
    assert Flatten([r.teacherNames]) == r.teacherNames + Flatten([r.teacherNames][1..]);
    assert [r.teacherNames][1..] == [];
    assert Flatten([r.teacherNames]) == r.teacherNames;
  }
}
