/** The classes screen (src/app/pages/classes/classes.component.ts): a per-class summary of the
  * subject setups (subjects, teachers, distinct students, number of setups) kept in four maps,
  * the labels that fall back to the class's legacy fields, and a search over a space-joined
  * line of those labels. */
module ClassesPage {
  import opened Wrappers
  import opened Seqs
  import opened Text
  import opened Models
  import SetupStore

  // ---------------------------------------------------------------------------------------
  // Per-class summary, specified

  /** The setup rows of one class, in row order: `setupsByClassId.get(classId) ?? []`. */
  function SetupsOf(setups: seq<ClassSubjectSetup>, classId: int): seq<ClassSubjectSetup> {
    Filter(setups, SetupStore.RowOfClass(classId))
  }

  function CourseNames(rows: seq<ClassSubjectSetup>): (r: seq<string>)
    ensures |r| == |rows| && forall k :: 0 <= k < |rows| ==> r[k] == rows[k].courseName
  {
    seq(|rows|, k requires 0 <= k < |rows| => rows[k].courseName)
  }

  function TeacherLists(rows: seq<ClassSubjectSetup>): (r: seq<seq<string>>)
    ensures |r| == |rows| && forall k :: 0 <= k < |rows| ==> r[k] == rows[k].teacherNames
  {
    seq(|rows|, k requires 0 <= k < |rows| => rows[k].teacherNames)
  }

  function StudentLists(rows: seq<ClassSubjectSetup>): (r: seq<seq<string>>)
    ensures |r| == |rows| && forall k :: 0 <= k < |rows| ==> r[k] == rows[k].studentIds
  {
    seq(|rows|, k requires 0 <= k < |rows| => rows[k].studentIds)
  }

  /** `Array.from(new Set(classSetups.map((item) => item.courseName).filter((name) => !!name)))` */
  function SubjectNames(rows: seq<ClassSubjectSetup>): seq<string> {
    SetupStore.CleanIds(CourseNames(rows))
  }

  /** The same over every teacher name of every row. */
  function TeacherNames(rows: seq<ClassSubjectSetup>): seq<string> {
    SetupStore.CleanIds(Flatten(TeacherLists(rows)))
  }

  /** The distinct non-empty student ids of the rows, in first-seen order. */
  function StudentIds(rows: seq<ClassSubjectSetup>): seq<string> {
    SetupStore.CleanIds(Flatten(StudentLists(rows)))
  }

  /** `names.length > 0 ? names.join(', ') : ''` */
  function Summary(names: seq<string>): string {
    if |names| > 0 then Join(names, ", ") else ""
  }

  /** The ids of the listed classes. */
  function ClassIds(classes: seq<Class>): set<int> {
    set c | c in classes :: c.id
  }

  function SubjectSummaryMap(classes: seq<Class>, setups: seq<ClassSubjectSetup>): map<int, string> {
    map id | id in ClassIds(classes) :: Summary(SubjectNames(SetupsOf(setups, id)))
  }

  function TeacherSummaryMap(classes: seq<Class>, setups: seq<ClassSubjectSetup>): map<int, string> {
    map id | id in ClassIds(classes) :: Summary(TeacherNames(SetupsOf(setups, id)))
  }

  function StudentsCountMap(classes: seq<Class>, setups: seq<ClassSubjectSetup>): map<int, int> {
    PositiveEntries(ClassIds(classes), StudentTotal(setups))
  }

  /** The number of distinct students of each class. */
  function StudentTotal(setups: seq<ClassSubjectSetup>): int -> int {
    (id: int) => |StudentIds(SetupsOf(setups, id))|
  }

  /** The ids whose value is positive, each mapped to that value. */
  function PositiveEntries(ids: set<int>, f: int -> int): map<int, int> {
    map id | id in ids && f(id) > 0 :: f(id)
  }

  /** One more id adds its entry exactly when its value is positive. */
  lemma PositiveEntriesStep(ids: set<int>, x: int, f: int -> int)
    ensures f(x) > 0 ==> PositiveEntries(ids + {x}, f) == PositiveEntries(ids, f)[x := f(x)]
    ensures f(x) <= 0 ==> PositiveEntries(ids + {x}, f) == PositiveEntries(ids, f)
  {
    if f(x) > 0 {
      assert PositiveEntries(ids + {x}, f).Keys == PositiveEntries(ids, f).Keys + {x};
    } else {
      assert PositiveEntries(ids + {x}, f).Keys == PositiveEntries(ids, f).Keys;
    }
  }

  function SetupCountMap(classes: seq<Class>, setups: seq<ClassSubjectSetup>): map<int, int> {
    map id | id in ClassIds(classes) :: |SetupsOf(setups, id)|
  }

  // ---------------------------------------------------------------------------------------
  // What the summary says

  /** Every listed class gets a subject, teacher and setup-count entry. */
  lemma SummaryDomains(classes: seq<Class>, setups: seq<ClassSubjectSetup>, c: Class)
    requires c in classes
    ensures c.id in SubjectSummaryMap(classes, setups) && c.id in TeacherSummaryMap(classes, setups)
    ensures c.id in SetupCountMap(classes, setups)
  {
    assert c.id in ClassIds(classes);
  }

  /** A student count is kept exactly for the classes with at least one non-empty student id
    * among their rows. */
  lemma StudentsCountDomain(classes: seq<Class>, setups: seq<ClassSubjectSetup>, c: Class)
    requires c in classes
    ensures c.id in StudentsCountMap(classes, setups) <==>
      exists r, x :: r in SetupsOf(setups, c.id) && x in r.studentIds && x != ""
  {
    var rows := SetupsOf(setups, c.id);
    assert c.id in ClassIds(classes);
    StudentIdsSpec(rows);
    if exists r, x :: r in rows && x in r.studentIds && x != "" {
      var r, x :| r in rows && x in r.studentIds && x != "";
      assert x in StudentIds(rows);
    }
    if |StudentIds(rows)| > 0 {
      assert StudentIds(rows)[0] in StudentIds(rows);
    }
  }

  /** A class's group holds exactly the rows with its id, in their original order; the setup
    * count is the size of that group. */
  lemma SetupsOfSpec(setups: seq<ClassSubjectSetup>, classId: int)
    ensures forall r :: r in SetupsOf(setups, classId) <==> r in setups && r.classId == classId
    ensures IsSubsequence(SetupsOf(setups, classId), setups)
  {
    FilterSpec(setups, SetupStore.RowOfClass(classId));
  }

  /** Subject names: each non-empty course name of the class's rows, once, in first-seen order. */
  lemma SubjectNamesSpec(rows: seq<ClassSubjectSetup>)
    ensures SetupStore.IsClean(SubjectNames(rows))
    ensures forall x :: x in SubjectNames(rows) <==> x != "" && exists r :: r in rows && r.courseName == x
  {
    var names := CourseNames(rows);
    SetupStore.CleanIdsSpec(names);
    forall x ensures x in names <==> exists r :: r in rows && r.courseName == x {
      if exists r :: r in rows && r.courseName == x {
        var r :| r in rows && r.courseName == x;
        var k :| 0 <= k < |rows| && rows[k] == r;
        assert names[k] == x;
      }
    }
  }

  /** Teacher names: each non-empty teacher name of any of the class's rows, once. */
  lemma TeacherNamesSpec(rows: seq<ClassSubjectSetup>)
    ensures SetupStore.IsClean(TeacherNames(rows))
    ensures forall x :: x in TeacherNames(rows) <==> x != "" && exists r :: r in rows && x in r.teacherNames
  {
    var lists := TeacherLists(rows);
    SetupStore.CleanIdsSpec(Flatten(lists));
    forall x ensures x in Flatten(lists) <==> exists r :: r in rows && x in r.teacherNames {
      FlattenMember(lists, x);
      if exists r :: r in rows && x in r.teacherNames {
        var r :| r in rows && x in r.teacherNames;
        var k :| 0 <= k < |rows| && rows[k] == r;
        assert x in lists[k];
      }
    }
  }

  /** The student count is the number of distinct non-empty student ids of the class's rows:
    * the `size` of the `Set` the source builds. */
  lemma StudentIdsSpec(rows: seq<ClassSubjectSetup>)
    ensures SetupStore.IsClean(StudentIds(rows))
    ensures forall x :: x in StudentIds(rows) <==> x != "" && exists r :: r in rows && x in r.studentIds
    ensures |StudentIds(rows)| == |set x | x in Flatten(StudentLists(rows)) && x != ""|
  {
    var lists := StudentLists(rows);
    var ids := StudentIds(rows);
    SetupStore.CleanIdsSpec(Flatten(lists));
    forall x ensures x in Flatten(lists) <==> exists r :: r in rows && x in r.studentIds {
      StudentListsMember(rows, x);
    }
    StudentIdsCard(rows);
  }

  /** An id is in the joined student lists exactly when one of the rows lists it. */
  lemma StudentListsMember(rows: seq<ClassSubjectSetup>, x: string)
    ensures x in Flatten(StudentLists(rows)) <==> exists r :: r in rows && x in r.studentIds
  {
    var lists := StudentLists(rows);
    FlattenMember(lists, x);
    if exists r :: r in rows && x in r.studentIds {
      var r :| r in rows && x in r.studentIds;
      var k :| 0 <= k < |rows| && rows[k] == r;
      assert x in lists[k];
    }
  }

  lemma StudentIdsCard(rows: seq<ClassSubjectSetup>)
    ensures |StudentIds(rows)| == |set x | x in Flatten(StudentLists(rows)) && x != ""|
  {
    var ids := StudentIds(rows);
    SetupStore.CleanIdsSpec(Flatten(StudentLists(rows)));
    NoDupCard(ids);
    assert (set x | x in ids) == (set x | x in Flatten(StudentLists(rows)) && x != "");
  }

  // ---------------------------------------------------------------------------------------
  // Labels

  /** `a || b` on optional strings: the first one that is present and non-empty. */
  function OrText(a: Option<string>, b: string): (r: string)
    ensures a.Some? && a.value != "" ==> r == a.value
    ensures !(a.Some? && a.value != "") ==> r == b
  {
    if a.Some? && a.value != "" then a.value else b
  }

  function Get<V>(m: map<int, V>, id: int): Option<V> {
    if id in m then Some(m[id]) else None
  }

  /** `getSubjectsLabel(classItem)`: the summary, else the legacy course name, else `Not Assigned`. */
  function SubjectsLabel(subjectSummary: map<int, string>, c: Class): string {
    OrText(Get(subjectSummary, c.id), OrText(c.courseName, "Not Assigned"))
  }

  /** `getTeachersLabel(classItem)`: the summary, else the legacy teacher name, else `Not Assigned`. */
  function TeachersLabel(teacherSummary: map<int, string>, c: Class): string {
    OrText(Get(teacherSummary, c.id), OrText(c.teacherName, "Not Assigned"))
  }

  /** `getStudentsCount(classItem)`: the counted students, else the roster size, else the
    * backend's student count, else 0. */
  function StudentsCount(studentsCount: map<int, int>, c: Class): int {
    if c.id in studentsCount then studentsCount[c.id]
    else if c.students.Some? then |c.students.value|
    else c.studentCount.GetOr(0)
  }

  /** `getSetupStatusLabel` for a count. */
  function SetupStatusLabel(count: int): string {
    if count == 0 then "No Subjects"
    else if count == 1 then "1 Subject"
    else IntToString(count) + " Subjects"
  }

  /** The status label tells every two setup counts apart. */
  lemma SetupStatusLabelInjective(a: int, b: int)
    requires a != b
    ensures SetupStatusLabel(a) != SetupStatusLabel(b)
  {
    forall n | n != 0 && n != 1 ensures SetupStatusLabel(n)[0] != 'N' && SetupStatusLabel(n) != "1 Subject" {
      var digits := IntToString(n);
      NatToStringRoundTrip(if n < 0 then -n else n);
      assert SetupStatusLabel(n)[0] == digits[0];
      assert SetupStatusLabel(n)[|SetupStatusLabel(n)| - 1] == 's';
    }
    if a != 0 && a != 1 && b != 0 && b != 1 {
      var sa, sb := IntToString(a), IntToString(b);
      IntToStringInjective(a, b);
      assert (sa + " Subjects")[..|sa|] == sa;
    }
  }

  /** After the summary is built, a class whose rows name a course is labelled with those
    * course names; one whose rows name none falls back to its legacy course name and then to
    * `Not Assigned`. */
  lemma SubjectsLabelAfterBuild(classes: seq<Class>, setups: seq<ClassSubjectSetup>, c: Class)
    requires c in classes
    ensures var names := SubjectNames(SetupsOf(setups, c.id));
      && (names != [] ==> SubjectsLabel(SubjectSummaryMap(classes, setups), c) == Join(names, ", "))
      && (names == [] ==> SubjectsLabel(SubjectSummaryMap(classes, setups), c) == OrText(c.courseName, "Not Assigned"))
  {
    var names := SubjectNames(SetupsOf(setups, c.id));
    SubjectNamesSpec(SetupsOf(setups, c.id));
    if names != [] {
      JoinStartsWithFirst(names, ", ");
      assert names[0] in names;
    }
  }

  /** After the summary is built, a class with counted students shows their number, any other
    * class its roster size, then the backend count, then 0. */
  lemma StudentsCountAfterBuild(classes: seq<Class>, setups: seq<ClassSubjectSetup>, c: Class)
    requires c in classes
    ensures var ids := StudentIds(SetupsOf(setups, c.id));
      && (ids != [] ==> StudentsCount(StudentsCountMap(classes, setups), c) == |ids|)
      && (ids == [] ==> StudentsCount(StudentsCountMap(classes, setups), c) == (if c.students.Some? then |c.students.value| else c.studentCount.GetOr(0)))
  {
    assert c.id in ClassIds(classes);
  }

  // ---------------------------------------------------------------------------------------
  // Search

  /** The lowercased line a class is searched in: name, department, semester, the three labels
    * and the student count, joined by spaces (an absent department joins as ""). */
  function Searchable(c: Class, subjectLabel: string, teacherLabel: string, statusLabel: string, count: int): string {
    Lower(Join([c.name, c.departmentName.GetOr(""), IntToString(c.semester), subjectLabel, teacherLabel,
                statusLabel, IntToString(count)], " "))
  }

  /** The searchable line starts with the name, a space and the department, so a query may run
    * across the border of two fields. */
  lemma SearchableSpansFields(c: Class, subjectLabel: string, teacherLabel: string, statusLabel: string, count: int)
    ensures Lower(c.name + " " + c.departmentName.GetOr("")) <= Searchable(c, subjectLabel, teacherLabel, statusLabel, count)
  {
    var rest := [IntToString(c.semester), subjectLabel, teacherLabel, statusLabel, IntToString(count)];
    var parts := [c.name, c.departmentName.GetOr("")] + rest;
    var tail := [c.departmentName.GetOr("")] + rest;
    assert parts[1..] == tail;
    assert tail[1..] == rest;
    assert Join(tail, " ") == c.departmentName.GetOr("") + " " + Join(rest, " ");
    assert Join(parts, " ") == c.name + " " + Join(tail, " ");
    assert parts == [c.name, c.departmentName.GetOr(""), IntToString(c.semester), subjectLabel, teacherLabel,
                     statusLabel, IntToString(count)];
    assert Join(parts, " ") == (c.name + " " + c.departmentName.GetOr("")) + (" " + Join(rest, " "));
    LowerAppend(c.name + " " + c.departmentName.GetOr(""), " " + Join(rest, " "));
  }

  /** The searchable line of a class with the screen's current maps. */
  function SearchableLine(subjects: map<int, string>, teachers: map<int, string>, studentCounts: map<int, int>,
                          setupCounts: map<int, int>, c: Class): string
  {
    Searchable(c, SubjectsLabel(subjects, c), TeachersLabel(teachers, c),
               SetupStatusLabel(Get(setupCounts, c.id).GetOr(0)), StudentsCount(studentCounts, c))
  }

  /** The `filter` callback of `applyFilter`. */
  function MatchesClass(subjects: map<int, string>, teachers: map<int, string>, studentCounts: map<int, int>,
                        setupCounts: map<int, int>, query: string): Class -> bool
  {
    (c: Class) => Contains(SearchableLine(subjects, teachers, studentCounts, setupCounts, c), query)
  }

  /** The shortcut for the empty query agrees with filtering by it. */
  lemma EmptyQueryKeepsAll(subjects: map<int, string>, teachers: map<int, string>, studentCounts: map<int, int>,
                           setupCounts: map<int, int>, all: seq<Class>)
    ensures Filter(all, MatchesClass(subjects, teachers, studentCounts, setupCounts, "")) == all
  {
    forall c | c in all ensures MatchesClass(subjects, teachers, studentCounts, setupCounts, "")(c) {
      ContainsEmpty(SearchableLine(subjects, teachers, studentCounts, setupCounts, c));
    }
    FilterAll(all, MatchesClass(subjects, teachers, studentCounts, setupCounts, ""));
  }

  // ---------------------------------------------------------------------------------------
  // The component

  class ClassesScreen {
    var allClasses: seq<Class>
    var classes: seq<Class>
    var searchQuery: string
    var subjectSummaryByClassId: map<int, string>
    var teacherSummaryByClassId: map<int, string>
    var studentsCountByClassId: map<int, int>
    var setupCountByClassId: map<int, int>

    constructor()
      ensures allClasses == [] && classes == [] && searchQuery == ""
      ensures subjectSummaryByClassId == map[] && teacherSummaryByClassId == map[]
      ensures studentsCountByClassId == map[] && setupCountByClassId == map[]
    {
      allClasses, classes, searchQuery := [], [], "";
      subjectSummaryByClassId, teacherSummaryByClassId := map[], map[];
      studentsCountByClassId, setupCountByClassId := map[], map[];
    }

    /** `applyFilter()`: every class for the empty query, else, in order, the classes whose
      * searchable line contains the query. */
    method ApplyFilter()
      modifies this
      ensures classes == (if searchQuery == "" then allClasses
                          else Filter(allClasses, MatchesClass(subjectSummaryByClassId, teacherSummaryByClassId,
                                                               studentsCountByClassId, setupCountByClassId, searchQuery)))
      ensures forall c :: c in classes <==> (c in allClasses && Contains(SearchableLine(subjectSummaryByClassId, teacherSummaryByClassId, studentsCountByClassId, setupCountByClassId, c), searchQuery))
      ensures IsSubsequence(classes, allClasses)
      ensures allClasses == old(allClasses) && searchQuery == old(searchQuery)
      ensures subjectSummaryByClassId == old(subjectSummaryByClassId) && teacherSummaryByClassId == old(teacherSummaryByClassId)
      ensures studentsCountByClassId == old(studentsCountByClassId) && setupCountByClassId == old(setupCountByClassId)
    {
      var p := MatchesClass(subjectSummaryByClassId, teacherSummaryByClassId, studentsCountByClassId, setupCountByClassId, searchQuery);
      if searchQuery == "" {
        classes := allClasses;
        EmptyQueryKeepsAll(subjectSummaryByClassId, teacherSummaryByClassId, studentsCountByClassId, setupCountByClassId, allClasses);
      } else {
        classes := Filter(allClasses, p);
      }
      FilterSpec(allClasses, p);
    }

    /** The `q` query parameter, trimmed and lowercased, then the filter re-applied. */
    method OnQueryParams(q: Option<string>)
      modifies this
      ensures classes == (if searchQuery == "" then allClasses
                          else Filter(allClasses, MatchesClass(subjectSummaryByClassId, teacherSummaryByClassId,
                                                               studentsCountByClassId, setupCountByClassId, searchQuery)))
      ensures searchQuery == Lower(Trim(q.GetOr("")))
      ensures forall c :: c in classes <==> (c in allClasses && Contains(SearchableLine(subjectSummaryByClassId, teacherSummaryByClassId, studentsCountByClassId, setupCountByClassId, c), searchQuery))
      ensures IsSubsequence(classes, allClasses)
      ensures allClasses == old(allClasses)
      ensures subjectSummaryByClassId == old(subjectSummaryByClassId) && teacherSummaryByClassId == old(teacherSummaryByClassId)
      ensures studentsCountByClassId == old(studentsCountByClassId) && setupCountByClassId == old(setupCountByClassId)
    {
      searchQuery := Lower(Trim(q.GetOr("")));
      ApplyFilter();
    }

    /** The success branch of `loadClasses`: the classes stored, summarised, then filtered. */
    method OnClassesLoaded(classList: seq<Class>, setups: seq<ClassSubjectSetup>)
      modifies this
      ensures classes == (if searchQuery == "" then allClasses
                          else Filter(allClasses, MatchesClass(subjectSummaryByClassId, teacherSummaryByClassId,
                                                               studentsCountByClassId, setupCountByClassId, searchQuery)))
      ensures allClasses == classList && searchQuery == old(searchQuery)
      ensures subjectSummaryByClassId == SubjectSummaryMap(classList, setups)
      ensures teacherSummaryByClassId == TeacherSummaryMap(classList, setups)
      ensures studentsCountByClassId == StudentsCountMap(classList, setups)
      ensures setupCountByClassId == SetupCountMap(classList, setups)
      ensures forall c :: c in classes <==> (c in classList && Contains(SearchableLine(subjectSummaryByClassId, teacherSummaryByClassId, studentsCountByClassId, setupCountByClassId, c), searchQuery))
      ensures IsSubsequence(classes, classList)
    {
      allClasses := classList;
      BuildAcademicSummaryMap(classList, setups);
      ApplyFilter();
    }

    /** `buildAcademicSummaryMap(classes, setups)`: the four maps cleared, the setup rows grouped
      * by class, then each listed class summarised. */
    method BuildAcademicSummaryMap(classList: seq<Class>, setups: seq<ClassSubjectSetup>)
      modifies this
      ensures subjectSummaryByClassId == SubjectSummaryMap(classList, setups)
      ensures teacherSummaryByClassId == TeacherSummaryMap(classList, setups)
      ensures studentsCountByClassId == StudentsCountMap(classList, setups)
      ensures setupCountByClassId == SetupCountMap(classList, setups)
      ensures allClasses == old(allClasses) && classes == old(classes) && searchQuery == old(searchQuery)
    {
      subjectSummaryByClassId := map[];
      teacherSummaryByClassId := map[];
      studentsCountByClassId := map[];
      setupCountByClassId := map[];
      var setupsByClassId := GroupByClass(setups);
      for i := 0 to |classList|
        invariant subjectSummaryByClassId == SubjectSummaryMap(classList[..i], setups)
        invariant teacherSummaryByClassId == TeacherSummaryMap(classList[..i], setups)
        invariant studentsCountByClassId == StudentsCountMap(classList[..i], setups)
        invariant setupCountByClassId == SetupCountMap(classList[..i], setups)
        invariant allClasses == old(allClasses) && classes == old(classes) && searchQuery == old(searchQuery)
      {
        var classItem := classList[i];
        var classSetups := Group(setupsByClassId, classItem.id);
        var subjectNames := SubjectNames(classSetups);
        var teacherNames := TeacherNames(classSetups);
        var studentIds := StudentIds(classSetups);
        SubjectSummaryStep(classList, setups, i);
        TeacherSummaryStep(classList, setups, i);
        SetupCountStep(classList, setups, i);
        StudentsCountStep(classList, setups, i);
        subjectSummaryByClassId := subjectSummaryByClassId[classItem.id := if |subjectNames| > 0 then Join(subjectNames, ", ") else ""];
        teacherSummaryByClassId := teacherSummaryByClassId[classItem.id := if |teacherNames| > 0 then Join(teacherNames, ", ") else ""];
        if |studentIds| > 0 {
          studentsCountByClassId := studentsCountByClassId[classItem.id := |studentIds|];
        }
        setupCountByClassId := setupCountByClassId[classItem.id := |classSetups|];
      }
      assert classList[..|classList|] == classList;
    }
  }

  lemma ClassIdsSnoc(classes: seq<Class>, i: int)
    requires 0 <= i < |classes|
    ensures ClassIds(classes[..i + 1]) == ClassIds(classes[..i]) + {classes[i].id}
  {
    assert classes[..i + 1] == classes[..i] + [classes[i]];
  }

  /** Summarising one more class sets exactly that class's entry in each of the four maps. */
  lemma SubjectSummaryStep(classes: seq<Class>, setups: seq<ClassSubjectSetup>, i: int)
    requires 0 <= i < |classes|
    ensures SubjectSummaryMap(classes[..i + 1], setups) ==
      SubjectSummaryMap(classes[..i], setups)[classes[i].id := Summary(SubjectNames(SetupsOf(setups, classes[i].id)))]
  {
    ClassIdsSnoc(classes, i);
  }

  lemma TeacherSummaryStep(classes: seq<Class>, setups: seq<ClassSubjectSetup>, i: int)
    requires 0 <= i < |classes|
    ensures TeacherSummaryMap(classes[..i + 1], setups) ==
      TeacherSummaryMap(classes[..i], setups)[classes[i].id := Summary(TeacherNames(SetupsOf(setups, classes[i].id)))]
  {
    ClassIdsSnoc(classes, i);
  }

  lemma SetupCountStep(classes: seq<Class>, setups: seq<ClassSubjectSetup>, i: int)
    requires 0 <= i < |classes|
    ensures SetupCountMap(classes[..i + 1], setups) ==
      SetupCountMap(classes[..i], setups)[classes[i].id := |SetupsOf(setups, classes[i].id)|]
  {
    ClassIdsSnoc(classes, i);
  }

  lemma StudentsCountStep(classes: seq<Class>, setups: seq<ClassSubjectSetup>, i: int)
    requires 0 <= i < |classes|
    ensures var id, ids := classes[i].id, StudentIds(SetupsOf(setups, classes[i].id));
      && (|ids| > 0 ==> StudentsCountMap(classes[..i + 1], setups) == StudentsCountMap(classes[..i], setups)[id := |ids|])
      && (|ids| == 0 ==> StudentsCountMap(classes[..i + 1], setups) == StudentsCountMap(classes[..i], setups))
  {
    ClassIdsSnoc(classes, i);
    PositiveEntriesStep(ClassIds(classes[..i]), classes[i].id, StudentTotal(setups));
  }

  /** A class's group in the map under construction, `[]` when it has none yet. */
  function Group(groups: map<int, seq<ClassSubjectSetup>>, id: int): seq<ClassSubjectSetup> {
    if id in groups then groups[id] else []
  }

  /** One more row extends exactly its own class's group. */
  lemma GroupStep(setups: seq<ClassSubjectSetup>, i: int, id: int)
    requires 0 <= i < |setups|
    ensures Filter(setups[..i + 1], SetupStore.RowOfClass(id)) ==
      Filter(setups[..i], SetupStore.RowOfClass(id)) + (if setups[i].classId == id then [setups[i]] else [])
  {
    assert setups[..i + 1] == setups[..i] + [setups[i]];
    FilterAppend(setups[..i], [setups[i]], SetupStore.RowOfClass(id));
  }

  /** The first loop of `buildAcademicSummaryMap`: each row pushed onto its class's group. */
  method GroupByClass(setups: seq<ClassSubjectSetup>) returns (groups: map<int, seq<ClassSubjectSetup>>)
    ensures forall id :: Group(groups, id) == SetupsOf(setups, id)
  {
    groups := map[];
    for i := 0 to |setups|
      invariant forall id :: Group(groups, id) == Filter(setups[..i], SetupStore.RowOfClass(id))
    {
      var setup := setups[i];
      var current := Group(groups, setup.classId);
      ghost var before := groups;
      groups := groups[setup.classId := current + [setup]];
      forall id ensures Group(groups, id) == Filter(setups[..i + 1], SetupStore.RowOfClass(id)) {
        GroupStep(setups, i, id);
        assert Group(groups, id) == Group(before, id) + (if setup.classId == id then [setup] else []);
      }
    }
    assert setups[..|setups|] == setups;
  }
}
