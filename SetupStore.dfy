/** The browser-side override store of subject offerings and the join that turns it into
  * per-class subject setups (src/app/services/api.service.ts). The backend keeps a single
  * course, teacher and roster per class; the store adds any number of offerings per class,
  * keyed by the class id printed in decimal. */
module SetupStore {
  import opened Wrappers
  import opened Seqs
  import opened Text
  import opened Models

  /** The parsed `localStorage` blob. A blob that is missing, unparsable or not an object
    * reads as the empty map, and an entry that is not an array reads as absent. */
  type Store = map<string, seq<Draft>>

  /** `String(classId)` */
  function Key(classId: int): string {
    IntToString(classId)
  }

  /** `!!id` for a string. */
  predicate Truthy(id: string) {
    id != ""
  }

  /** `Array.from(new Set(ids.filter((id) => !!id)))` */
  function CleanIds(ids: seq<string>): seq<string> {
    Distinct(Filter(ids, Truthy))
  }

  /** An id list the store accepts: no empty id and no id twice. */
  predicate IsClean(ids: seq<string>) {
    NoDup(ids) && "" !in ids
  }

  /** Cleaning keeps every non-empty id once, in the order of first occurrence. */
  /** An id survives cleaning exactly when it is non-empty. */
  lemma CleanIdsMember(ids: seq<string>, x: string)
    ensures x in CleanIds(ids) <==> x in ids && x != ""
  {
    FilterSpec(ids, Truthy);
    DistinctMembers(Filter(ids, Truthy));
  }

  lemma CleanIdsSpec(ids: seq<string>)
    ensures IsClean(CleanIds(ids))
    ensures forall x :: x in CleanIds(ids) <==> x in ids && x != ""
    ensures forall i, j :: 0 <= i < j < |CleanIds(ids)| ==>
      FirstIndex(ids, CleanIds(ids)[i]) < FirstIndex(ids, CleanIds(ids)[j])
  {
    var f := Filter(ids, Truthy);
    FilterSpec(ids, Truthy);
    DistinctSpec(f);
    var c := CleanIds(ids);
    forall i, j | 0 <= i < j < |c| ensures FirstIndex(ids, c[i]) < FirstIndex(ids, c[j]) {
      FilterFirstIndex(ids, Truthy, c[i], c[j]);
    }
  }

  /** Cleaning one id longer list is one insertion-ordered `add` of that id, when it is non-empty. */
  lemma CleanIdsSnoc(ids: seq<string>, x: string)
    ensures CleanIds(ids + [x]) == if Truthy(x) then SetAdd(CleanIds(ids), x) else CleanIds(ids)
  {
    FilterAppend(ids, [x], Truthy);
    if Truthy(x) {
      assert Filter([x], Truthy) == [x];
      DistinctSnoc(Filter(ids, Truthy), x);
    } else {
      assert Filter([x], Truthy) == [];
      assert Filter(ids, Truthy) + [] == Filter(ids, Truthy);
    }
  }

  /** A clean list is left as it is. */
  lemma CleanIdsOfClean(ids: seq<string>)
    requires IsClean(ids)
    ensures CleanIds(ids) == ids
  {
    FilterAll(ids, Truthy);
    DistinctOfNoDup(ids);
  }

  /** `Number.isFinite(item.courseId) && item.courseId > 0` */
  predicate Kept(d: Draft) {
    d.courseId.Finite? && d.courseId.value > 0
  }

  function NormalizeDraft(d: Draft): Draft {
    Draft(d.courseId, CleanIds(d.teacherIds), CleanIds(d.studentIds))
  }

  /** Drafts as the store holds them after a save. */
  predicate IsNormalized(ds: seq<Draft>) {
    forall d :: d in ds ==> Kept(d) && IsClean(d.teacherIds) && IsClean(d.studentIds)
  }

  /** `normalizeSetupDrafts`: drop the drafts without a finite positive course id and clean
    * the id lists of the rest. */
  function NormalizeSetupDrafts(items: seq<Draft>): (r: seq<Draft>)
    ensures |r| <= |items|
  {
    var kept := Filter(items, Kept);
    FilterSpec(items, Kept);
    seq(|kept|, i requires 0 <= i < |kept| => NormalizeDraft(kept[i]))
  }

  /** Normalising yields well-formed drafts only, keeps (cleaned) every well-formed draft, and
    * invents none. */
  lemma NormalizeSpec(items: seq<Draft>)
    ensures IsNormalized(NormalizeSetupDrafts(items))
    ensures forall d :: d in items && Kept(d) ==> NormalizeDraft(d) in NormalizeSetupDrafts(items)
    ensures forall d :: d in NormalizeSetupDrafts(items) ==>
      exists e :: e in items && Kept(e) && d == NormalizeDraft(e)
  {
    var kept := Filter(items, Kept);
    FilterSpec(items, Kept);
    var r := NormalizeSetupDrafts(items);
    forall d | d in r ensures Kept(d) && IsClean(d.teacherIds) && IsClean(d.studentIds) {
      var i :| 0 <= i < |r| && r[i] == d;
      assert kept[i] in kept;
      CleanIdsSpec(kept[i].teacherIds);
      CleanIdsSpec(kept[i].studentIds);
    }
    forall d | d in items && Kept(d) ensures NormalizeDraft(d) in r {
      var i :| 0 <= i < |kept| && kept[i] == d;
      assert r[i] == NormalizeDraft(d);
    }
    forall d | d in r ensures exists e :: e in items && Kept(e) && d == NormalizeDraft(e) {
      var i :| 0 <= i < |r| && r[i] == d;
      assert kept[i] in kept;
    }
  }

  /** Well-formed drafts are a fixed point of normalisation. */
  lemma {:induction false} NormalizeOfNormalized(ds: seq<Draft>)
    requires IsNormalized(ds)
    ensures NormalizeSetupDrafts(ds) == ds
  {
    FilterAll(ds, Kept);
    forall i | 0 <= i < |ds| ensures NormalizeDraft(ds[i]) == ds[i] {
      assert ds[i] in ds;
      CleanIdsOfClean(ds[i].teacherIds);
      CleanIdsOfClean(ds[i].studentIds);
    }
  }

  /** Normalising twice is normalising once. */
  lemma NormalizeIdempotent(items: seq<Draft>)
    ensures NormalizeSetupDrafts(NormalizeSetupDrafts(items)) == NormalizeSetupDrafts(items)
  {
    NormalizeSpec(items);
    NormalizeOfNormalized(NormalizeSetupDrafts(items));
  }

  /** The normalised override stored for a class, or nothing. */
  function StoredDrafts(store: Store, classId: int): seq<Draft> {
    if Key(classId) in store then NormalizeSetupDrafts(store[Key(classId)]) else []
  }

  /** The single offering the backend's legacy fields describe, when the course id is truthy. */
  function FallbackDrafts(fallback: Option<Class>): seq<Draft> {
    if fallback.None? || fallback.value.courseId.None? || fallback.value.courseId.value == 0 then []
    else
      var c := fallback.value;
      var teachers := if c.teacherId.Some? && c.teacherId.value != "" then [c.teacherId.value] else [];
      [Draft(Finite(c.courseId.value), teachers, RosterIds(c))]
  }

  /** `getClassSubjectSetupDraft`: the stored override when it normalises to something, else the
    * class's legacy single offering, else nothing. Every offering returned has a finite non-zero
    * course id, and a stored override comes back normalised. */
  function GetClassSubjectSetupDraft(store: Store, classId: int, fallback: Option<Class>): (r: seq<Draft>)
    ensures forall d :: d in r ==> d.courseId.Finite? && d.courseId.value != 0
    ensures |StoredDrafts(store, classId)| > 0 ==> r == StoredDrafts(store, classId) && IsNormalized(r)
    ensures |StoredDrafts(store, classId)| == 0 ==>
      (|r| > 0 <==> fallback.Some? && fallback.value.courseId.Some? && fallback.value.courseId.value != 0)
    ensures |StoredDrafts(store, classId)| == 0 && |r| > 0 ==>
      |r| == 1 && r[0].courseId == Finite(fallback.value.courseId.value) &&
      r[0].studentIds == RosterIds(fallback.value) &&
      (r[0].teacherIds == [] <==> fallback.value.teacherId.None? || fallback.value.teacherId.value == "")
  {
    var stored := StoredDrafts(store, classId);
    NormalizeSpec(if Key(classId) in store then store[Key(classId)] else []);
    if |stored| > 0 then stored else FallbackDrafts(fallback)
  }

  /** The values of `new Map(courses.map((course) => [course.id, `${course.code} - ${course.name}`]))`. */
  function CourseLabels(courses: seq<Course>): map<int, string> {
    ToMap(seq(|courses|, i requires 0 <= i < |courses| => (courses[i].id, courses[i].code + " - " + courses[i].name)))
  }

  /** `new Map(users.map((user) => [user.id, user.name]))` */
  function UserNames(users: seq<User>): map<string, string> {
    ToMap(seq(|users|, i requires 0 <= i < |users| => (users[i].id, users[i].name)))
  }

  /** The names a class's own roster carries, by student id. */
  function RosterNames(c: Class): map<string, string> {
    var roster := c.students.GetOr([]);
    ToMap(seq(|roster|, i requires 0 <= i < |roster| => (roster[i].studentId, roster[i].studentName)))
  }

  /** `m.get(k) ?? otherwise` */
  function Lookup<K, V>(m: map<K, V>, k: K, otherwise: V): V {
    if k in m then m[k] else otherwise
  }

  /** One (class, offering) row with its names resolved. */
  function SetupRow(c: Class, d: Draft, courseLabels: map<int, string>,
                    teacherNames: map<string, string>, studentNames: map<string, string>): ClassSubjectSetup
    requires d.courseId.Finite?
  {
    var ids := if |d.studentIds| > 0 then d.studentIds else RosterIds(c);
    var inClass := RosterNames(c);
    var courseName :=
      if d.courseId.value in courseLabels then courseLabels[d.courseId.value]
      else if c.courseName.Some? then c.courseName.value
      else "Course #" + IntToString(d.courseId.value);
    ClassSubjectSetup(
      c.id, c.name, c.semester, c.departmentId, c.departmentName, d.courseId.value, courseName,
      d.teacherIds,
      seq(|d.teacherIds|, k requires 0 <= k < |d.teacherIds| => Lookup(teacherNames, d.teacherIds[k], d.teacherIds[k])),
      ids,
      seq(|ids|, k requires 0 <= k < |ids| => Lookup(studentNames, ids[k], Lookup(inClass, ids[k], ids[k]))))
  }

  /** The rows of one class, one per offering, in offering order. */
  function ClassRows(store: Store, c: Class, courses: seq<Course>, teachers: seq<User>, students: seq<User>): (rows: seq<ClassSubjectSetup>)
    ensures |rows| == |GetClassSubjectSetupDraft(store, c.id, Some(c))|
  {
    var drafts := GetClassSubjectSetupDraft(store, c.id, Some(c));
    seq(|drafts|, j requires 0 <= j < |drafts| =>
      assert drafts[j] in drafts;
      SetupRow(c, drafts[j], CourseLabels(courses), UserNames(teachers), UserNames(students)))
  }

  /** `classes.flatMap(...)`: the rows of each class in turn. */
  function RowsOf(store: Store, classes: seq<Class>, courses: seq<Course>, teachers: seq<User>, students: seq<User>): seq<ClassSubjectSetup>
  {
    if classes == [] then []
    else ClassRows(store, classes[0], courses, teachers, students) + RowsOf(store, classes[1..], courses, teachers, students)
  }

  function HasId(id: int): Class -> bool {
    (c: Class) => c.id == id
  }

  function RowOfClass(id: int): ClassSubjectSetup -> bool {
    (r: ClassSubjectSetup) => r.classId == id
  }

  /** The classes a truthy class-id filter selects, or all of them. */
  function TargetClasses(classes: seq<Class>, classIdFilter: Option<int>): seq<Class> {
    if classIdFilter.Some? && classIdFilter.value != 0 then Filter(classes, HasId(classIdFilter.value))
    else classes
  }

  /** `buildClassSubjectSetups` */
  function BuildClassSubjectSetups(store: Store, classes: seq<Class>, courses: seq<Course>, teachers: seq<User>,
                                   students: seq<User>, classIdFilter: Option<int>): seq<ClassSubjectSetup>
  {
    RowsOf(store, TargetClasses(classes, classIdFilter), courses, teachers, students)
  }

  /** Rows of consecutive class lists follow one another. */
  lemma {:induction false} RowsOfAppend(store: Store, a: seq<Class>, b: seq<Class>, courses: seq<Course>, teachers: seq<User>, students: seq<User>)
    ensures RowsOf(store, a + b, courses, teachers, students) ==
      RowsOf(store, a, courses, teachers, students) + RowsOf(store, b, courses, teachers, students)
  {
    if a == [] {
      assert a + b == b;
    } else {
      assert (a + b)[1..] == a[1..] + b;
      RowsOfAppend(store, a[1..], b, courses, teachers, students);
    }
  }

  /** A row of the join is a row of one of the classes, and every row of every class is there. */
  lemma {:induction false} RowsOfMembers(store: Store, classes: seq<Class>, courses: seq<Course>, teachers: seq<User>, students: seq<User>)
    ensures forall r :: r in RowsOf(store, classes, courses, teachers, students) <==>
      exists i :: 0 <= i < |classes| && r in ClassRows(store, classes[i], courses, teachers, students)
  {
    if classes != [] {
      var tail := classes[1..];
      RowsOfMembers(store, tail, courses, teachers, students);
      forall r ensures r in RowsOf(store, classes, courses, teachers, students) <==>
        exists i :: 0 <= i < |classes| && r in ClassRows(store, classes[i], courses, teachers, students)
      {
        if r in RowsOf(store, tail, courses, teachers, students) {
          var i :| 0 <= i < |tail| && r in ClassRows(store, tail[i], courses, teachers, students);
          assert classes[i + 1] == tail[i];
        }
        if exists i :: 0 <= i < |classes| && r in ClassRows(store, classes[i], courses, teachers, students) {
          var i :| 0 <= i < |classes| && r in ClassRows(store, classes[i], courses, teachers, students);
          if i > 0 {
            assert classes[i] == tail[i - 1];
          }
        }
      }
    }
  }

  /** Every row of a class carries that class's id. */
  lemma ClassRowsCarryId(store: Store, c: Class, courses: seq<Course>, teachers: seq<User>, students: seq<User>)
    ensures forall r :: r in ClassRows(store, c, courses, teachers, students) ==> r.classId == c.id
  {
  }

  /** `getClassSubjectSetupsForClass(id)` gives exactly the rows of `getClassSubjectSetups()` that
    * belong to class `id`, in the same order, whenever `id` is truthy. */
  lemma {:induction false} ForClassIsFilterOfAll(store: Store, classes: seq<Class>, courses: seq<Course>,
                                                  teachers: seq<User>, students: seq<User>, id: int)
    requires id != 0
    ensures BuildClassSubjectSetups(store, classes, courses, teachers, students, Some(id)) ==
      Filter(BuildClassSubjectSetups(store, classes, courses, teachers, students, None), RowOfClass(id))
  {
    ForClassIsFilterOfAllRec(store, classes, courses, teachers, students, id);
  }

  lemma {:induction false} ForClassIsFilterOfAllRec(store: Store, classes: seq<Class>, courses: seq<Course>,
                                                     teachers: seq<User>, students: seq<User>, id: int)
    ensures RowsOf(store, Filter(classes, HasId(id)), courses, teachers, students) ==
      Filter(RowsOf(store, classes, courses, teachers, students), RowOfClass(id))
  {
    if classes != [] {
      var c := classes[0];
      var head := ClassRows(store, c, courses, teachers, students);
      var tail := RowsOf(store, classes[1..], courses, teachers, students);
      ForClassIsFilterOfAllRec(store, classes[1..], courses, teachers, students, id);
      FilterAppend(head, tail, RowOfClass(id));
      ClassRowsCarryId(store, c, courses, teachers, students);
      if c.id == id {
        FilterAll(head, RowOfClass(id));
        RowsOfAppend(store, [c], Filter(classes[1..], HasId(id)), courses, teachers, students);
        assert RowsOf(store, [c], courses, teachers, students) == head + [] by {
          assert [c][1..] == [];
        }
      } else {
        assert !HasId(id)(c);
        assert Filter(classes, HasId(id)) == Filter(classes[1..], HasId(id));
        FilterNone(head, RowOfClass(id));
        assert Filter(head, RowOfClass(id)) + Filter(tail, RowOfClass(id)) == Filter(tail, RowOfClass(id));
      }
    }
  }

  lemma {:induction false} FilterNone<T>(s: seq<T>, p: T -> bool)
    requires forall x :: x in s ==> !p(x)
    ensures Filter(s, p) == []
  {
    if s != [] {
      FilterNone(s[1..], p);
    }
  }

  /** How one row resolves its names: the course label of the last course with that id, else
    * the class's own course name, else `Course #id`; each teacher and student id maps to the
    * name of the last matching user (students then fall back to the class roster), or to the
    * id itself; an offering without students shows the class roster. */
  lemma SetupRowSpec(c: Class, d: Draft, courses: seq<Course>, teachers: seq<User>, students: seq<User>)
    requires d.courseId.Finite?
    ensures var r := SetupRow(c, d, CourseLabels(courses), UserNames(teachers), UserNames(students));
      && r.classId == c.id && r.className == c.name && r.semester == c.semester
      && r.departmentId == c.departmentId && r.departmentName == c.departmentName
      && r.courseId == d.courseId.value && r.teacherIds == d.teacherIds
      && r.studentIds == (if |d.studentIds| > 0 then d.studentIds else RosterIds(c))
      && |r.teacherNames| == |r.teacherIds| && |r.studentNames| == |r.studentIds|
      && (forall k :: 0 <= k < |r.teacherIds| ==> NameFrom(teachers, r.teacherIds[k], r.teacherNames[k]))
      && (forall k :: 0 <= k < |r.studentIds| && !Known(students, r.studentIds[k]) ==>
            r.studentNames[k] == Lookup(RosterNames(c), r.studentIds[k], r.studentIds[k]))
      && (forall k :: 0 <= k < |r.studentIds| && Known(students, r.studentIds[k]) ==>
            NameFrom(students, r.studentIds[k], r.studentNames[k]))
      && (KnownCourse(courses, d.courseId.value) ==> CourseLabelFrom(courses, d.courseId.value, r.courseName))
      && (!KnownCourse(courses, d.courseId.value) && c.courseName.Some? ==> r.courseName == c.courseName.value)
      && (!KnownCourse(courses, d.courseId.value) && c.courseName.None? ==>
            r.courseName == "Course #" + IntToString(d.courseId.value))
  {
    var r := SetupRow(c, d, CourseLabels(courses), UserNames(teachers), UserNames(students));
    UserNamesSpec(teachers);
    UserNamesSpec(students);
    CourseLabelsSpec(courses);
    forall k | 0 <= k < |r.teacherIds| ensures NameFrom(teachers, r.teacherIds[k], r.teacherNames[k]) {
      assert r.teacherNames[k] == Lookup(UserNames(teachers), r.teacherIds[k], r.teacherIds[k]);
    }
    forall k | 0 <= k < |r.studentIds| && Known(students, r.studentIds[k])
      ensures NameFrom(students, r.studentIds[k], r.studentNames[k])
    {
      var id := r.studentIds[k];
      assert r.studentNames[k] == Lookup(UserNames(students), id, Lookup(RosterNames(c), id, id));
      assert id in UserNames(students);
      assert NameFrom(students, id, Lookup(UserNames(students), id, id));
    }
    forall k | 0 <= k < |r.studentIds| && !Known(students, r.studentIds[k])
      ensures r.studentNames[k] == Lookup(RosterNames(c), r.studentIds[k], r.studentIds[k])
    {
      var id := r.studentIds[k];
      assert r.studentNames[k] == Lookup(UserNames(students), id, Lookup(RosterNames(c), id, id));
      assert id !in UserNames(students);
    }
  }

  /** Some user has this id. */
  predicate Known(users: seq<User>, id: string) {
    exists i :: 0 <= i < |users| && users[i].id == id
  }

  predicate KnownCourse(courses: seq<Course>, id: int) {
    exists i :: 0 <= i < |courses| && courses[i].id == id
  }

  /** `name` is the name of the last user with this id, or the id itself when there is none. */
  predicate NameFrom(users: seq<User>, id: string, name: string) {
    if Known(users, id) then
      exists i :: 0 <= i < |users| && users[i].id == id && users[i].name == name &&
        forall j :: i < j < |users| ==> users[j].id != id
    else name == id
  }

  /** `text` is `code - name` of the last course with this id. */
  predicate CourseLabelFrom(courses: seq<Course>, id: int, text: string) {
    exists i :: 0 <= i < |courses| && courses[i].id == id && text == courses[i].code + " - " + courses[i].name &&
      forall j :: i < j < |courses| ==> courses[j].id != id
  }

  lemma UserNamesSpec(users: seq<User>)
    ensures forall id :: id in UserNames(users) <==> Known(users, id)
    ensures forall id :: NameFrom(users, id, Lookup(UserNames(users), id, id))
  {
    var pairs := seq(|users|, i requires 0 <= i < |users| => (users[i].id, users[i].name));
    ToMapSpec(pairs);
    forall id ensures id in UserNames(users) <==> Known(users, id) {
      if id in UserNames(users) {
        var i :| 0 <= i < |pairs| && pairs[i].0 == id;
        assert users[i].id == id;
      }
      if Known(users, id) {
        var i :| 0 <= i < |users| && users[i].id == id;
        assert pairs[i].0 == id;
      }
    }
    forall id ensures NameFrom(users, id, Lookup(UserNames(users), id, id)) {
      if id in UserNames(users) {
        var i :| 0 <= i < |pairs| && pairs[i] == (id, UserNames(users)[id]) && LastKey(pairs, i);
        assert users[i].id == id && users[i].name == UserNames(users)[id];
        forall j | i < j < |users| ensures users[j].id != id {
          assert pairs[j].0 != pairs[i].0;
        }
      }
    }
  }

  lemma CourseLabelsSpec(courses: seq<Course>)
    ensures forall id :: id in CourseLabels(courses) <==> KnownCourse(courses, id)
    ensures forall id :: id in CourseLabels(courses) ==> CourseLabelFrom(courses, id, CourseLabels(courses)[id])
  {
    var pairs := seq(|courses|, i requires 0 <= i < |courses| => (courses[i].id, courses[i].code + " - " + courses[i].name));
    ToMapSpec(pairs);
    forall id ensures id in CourseLabels(courses) <==> KnownCourse(courses, id) {
      if id in CourseLabels(courses) {
        var i :| 0 <= i < |pairs| && pairs[i].0 == id;
        assert courses[i].id == id;
      }
      if KnownCourse(courses, id) {
        var i :| 0 <= i < |courses| && courses[i].id == id;
        assert pairs[i].0 == id;
      }
    }
    forall id | id in CourseLabels(courses) ensures CourseLabelFrom(courses, id, CourseLabels(courses)[id]) {
      var i :| 0 <= i < |pairs| && pairs[i] == (id, CourseLabels(courses)[id]) && LastKey(pairs, i);
      assert courses[i].id == id;
      forall j | i < j < |courses| ensures courses[j].id != id {
        assert pairs[j].0 != pairs[i].0;
      }
    }
  }

  /** The course list for the join: the manageable courses, else all courses, else none. */
  function SetupCourses(manageable: Result<seq<Course>>, all: Result<seq<Course>>): seq<Course> {
    if manageable.Ok? then manageable.value else if all.Ok? then all.value else []
  }

  /** `getClassSubjectSetupsForClass` (with a class id) and `getClassSubjectSetups` (without):
    * a failed class fetch fails the whole call, while failed course, teacher or student fetches
    * degrade to empty lists. */
  function GetClassSubjectSetups(store: Store, classes: Result<seq<Class>>, manageable: Result<seq<Course>>,
                                 all: Result<seq<Course>>, teachers: Result<seq<User>>, students: Result<seq<User>>,
                                 classIdFilter: Option<int>): (r: Result<seq<ClassSubjectSetup>>)
    ensures r.Err? <==> classes.Err?
    ensures r.Ok? ==> r.value == BuildClassSubjectSetups(store, classes.value, SetupCourses(manageable, all),
      if teachers.Ok? then teachers.value else [], if students.Ok? then students.value else [], classIdFilter)
  {
    if classes.Err? then Err(classes.message)
    else Ok(BuildClassSubjectSetups(store, classes.value, SetupCourses(manageable, all),
      if teachers.Ok? then teachers.value else [], if students.Ok? then students.value else [], classIdFilter))
  }

  /** The store after a save whose backend sync went through: the normalised drafts, or no entry
    * when nothing survives normalisation. */
  function StoreAfterSave(store: Store, classId: int, drafts: seq<Draft>): Store {
    var n := NormalizeSetupDrafts(drafts);
    if |n| > 0 then store[Key(classId) := n] else store - {Key(classId)}
  }

  /** The backend request a save sends: the first offering becomes the class's single course,
    * teacher (or none) and roster. No request when there is no offering. */
  function PrimarySync(n: seq<Draft>): (r: Option<AcademicSetupRequest>)
    requires IsNormalized(n)
    ensures r.Some? <==> |n| > 0
    ensures r.Some? ==>
      && Finite(r.value.courseId) == n[0].courseId && r.value.courseId > 0
      && r.value.studentIds == n[0].studentIds
      && (r.value.teacherId.Some? <==> |n[0].teacherIds| > 0)
      && (r.value.teacherId.Some? ==> r.value.teacherId.value == n[0].teacherIds[0])
  {
    if |n| == 0 then None
    else
      assert n[0] in n;
      Some(AcademicSetupRequest(n[0].courseId.value,
        if |n[0].teacherIds| > 0 then Some(n[0].teacherIds[0]) else None, n[0].studentIds))
  }

  /** Reading a class back after a save gives what was saved (normalised), or the legacy
    * fallback when the save cleared the entry. */
  lemma SaveThenRead(store: Store, classId: int, drafts: seq<Draft>, fallback: Option<Class>)
    ensures GetClassSubjectSetupDraft(StoreAfterSave(store, classId, drafts), classId, fallback) ==
      (if |NormalizeSetupDrafts(drafts)| > 0 then NormalizeSetupDrafts(drafts) else FallbackDrafts(fallback))
  {
    NormalizeIdempotent(drafts);
  }

  /** A save touches no other class. */
  lemma SaveLeavesOtherClasses(store: Store, classId: int, other: int, drafts: seq<Draft>, fallback: Option<Class>)
    requires other != classId
    ensures GetClassSubjectSetupDraft(StoreAfterSave(store, classId, drafts), other, fallback) ==
      GetClassSubjectSetupDraft(store, other, fallback)
  {
    IntToStringInjective(classId, other);
  }

  /** Saving again what a class reads back after a save changes nothing. */
  lemma ResaveIsIdempotent(store: Store, classId: int, drafts: seq<Draft>, fallback: Option<Class>)
    requires |NormalizeSetupDrafts(drafts)| > 0
    ensures var saved := StoreAfterSave(store, classId, drafts);
      StoreAfterSave(saved, classId, GetClassSubjectSetupDraft(saved, classId, fallback)) == saved
  {
    SaveThenRead(store, classId, drafts, fallback);
    NormalizeIdempotent(drafts);
  }

  /** `Number.isFinite(courseId) && courseId > 0` over the selected course ids, as a set. */
  function SelectedCourseIds(courseIds: seq<JsNumber>): set<int> {
    set n | n in courseIds && n.Finite? && n.value > 0 :: n.value
  }

  /** `new Set(ids)` followed by `add(studentId)` or `delete(studentId)`. */
  function Enroll(ids: seq<string>, studentId: string, add: bool): seq<string> {
    if add then SetAdd(Distinct(ids), studentId) else Remove(Distinct(ids), studentId)
  }

  lemma EnrollSpec(ids: seq<string>, studentId: string, add: bool)
    ensures NoDup(Enroll(ids, studentId, add))
    ensures studentId in Enroll(ids, studentId, add) <==> add
    ensures forall x :: x != studentId ==> (x in Enroll(ids, studentId, add) <==> x in ids)
  {
    DistinctSpec(ids);
    SetAddSpec(Distinct(ids), studentId);
    RemoveSpec(Distinct(ids), studentId);
  }

  /** The drafts an enrollment change saves: every offering keeps its course and teachers, and
    * the student is added to the selected offerings and removed from the others. */
  function Reconcile(setups: seq<ClassSubjectSetup>, studentId: string, selected: set<int>): (drafts: seq<Draft>)
    ensures |drafts| == |setups|
  {
    seq(|setups|, i requires 0 <= i < |setups| =>
      Draft(Finite(setups[i].courseId), setups[i].teacherIds,
        Enroll(setups[i].studentIds, studentId, setups[i].courseId in selected)))
  }

  lemma ReconcileSpec(setups: seq<ClassSubjectSetup>, studentId: string, selected: set<int>)
    ensures forall i :: 0 <= i < |setups| ==>
      var d := Reconcile(setups, studentId, selected)[i];
      && d.courseId == Finite(setups[i].courseId) && d.teacherIds == setups[i].teacherIds
      && NoDup(d.studentIds)
      && (studentId in d.studentIds <==> setups[i].courseId in selected)
      && (forall x :: x != studentId ==> (x in d.studentIds <==> x in setups[i].studentIds))
  {
    forall i | 0 <= i < |setups| {
      EnrollSpec(setups[i].studentIds, studentId, setups[i].courseId in selected);
    }
  }

  function StudentIdLists(drafts: seq<Draft>): seq<seq<string>> {
    seq(|drafts|, i requires 0 <= i < |drafts| => drafts[i].studentIds)
  }

  /** `Array.from(new Set(drafts.flatMap((item) => item.studentIds)))`: the class roster after an
    * enrollment change lists each student of some offering exactly once. */
  function ClassRoster(drafts: seq<Draft>): seq<string> {
    Distinct(Flatten(StudentIdLists(drafts)))
  }

  lemma ClassRosterSpec(drafts: seq<Draft>)
    ensures NoDup(ClassRoster(drafts))
    ensures forall x :: x in ClassRoster(drafts) <==> exists i :: 0 <= i < |drafts| && x in drafts[i].studentIds
  {
    DistinctSpec(Flatten(StudentIdLists(drafts)));
    var lists := StudentIdLists(drafts);
    forall x ensures x in ClassRoster(drafts) <==> exists i :: 0 <= i < |drafts| && x in drafts[i].studentIds {
      FlattenMember(lists, x);
      if exists i :: 0 <= i < |lists| && x in lists[i] {
        var i :| 0 <= i < |lists| && x in lists[i];
        assert x in drafts[i].studentIds;
      }
      if exists i :: 0 <= i < |drafts| && x in drafts[i].studentIds {
        var i :| 0 <= i < |drafts| && x in drafts[i].studentIds;
        assert x in lists[i];
      }
    }
  }

  /** After a successful enrollment change, every offering the class reads back that holds a
    * positive course id contains the student exactly when its course was selected. */
  lemma EnrollmentTakesEffect(store: Store, classId: int, setups: seq<ClassSubjectSetup>, studentId: string,
                              courseIds: seq<JsNumber>, fallback: Option<Class>)
    requires studentId != ""
    ensures var drafts := Reconcile(setups, studentId, SelectedCourseIds(courseIds));
      |NormalizeSetupDrafts(drafts)| > 0 ==>
        forall d :: d in GetClassSubjectSetupDraft(StoreAfterSave(store, classId, drafts), classId, fallback) ==>
          (studentId in d.studentIds <==> d.courseId.Finite? && d.courseId.value in SelectedCourseIds(courseIds))
  {
    var selected := SelectedCourseIds(courseIds);
    var drafts := Reconcile(setups, studentId, selected);
    SaveThenRead(store, classId, drafts, fallback);
    forall d | d in NormalizeSetupDrafts(drafts)
      ensures studentId in d.studentIds <==> d.courseId.Finite? && d.courseId.value in selected
    {
      ReconciledDraft(setups, studentId, selected, d);
    }
  }

  /** A saved offering of the reconciled list holds the student exactly when its course was selected. */
  lemma ReconciledDraft(setups: seq<ClassSubjectSetup>, studentId: string, selected: set<int>, d: Draft)
    requires studentId != ""
    requires d in NormalizeSetupDrafts(Reconcile(setups, studentId, selected))
    ensures studentId in d.studentIds <==> d.courseId.Finite? && d.courseId.value in selected
  {
    var drafts := Reconcile(setups, studentId, selected);
    NormalizeSpec(drafts);
    var e :| e in drafts && Kept(e) && d == NormalizeDraft(e);
    var i :| 0 <= i < |drafts| && drafts[i] == e;
    ReconciledOffering(setups, studentId, selected, i);
  }

  /** One offering after the reconcile, once normalised: it holds the student exactly when its
    * course was selected. */
  lemma ReconciledOffering(setups: seq<ClassSubjectSetup>, studentId: string, selected: set<int>, i: int)
    requires studentId != "" && 0 <= i < |setups|
    ensures var e := Reconcile(setups, studentId, selected)[i];
      e.courseId == Finite(setups[i].courseId) &&
      (studentId in NormalizeDraft(e).studentIds <==> setups[i].courseId in selected)
  {
    var e := Reconcile(setups, studentId, selected)[i];
    EnrollSpec(setups[i].studentIds, studentId, setups[i].courseId in selected);
    CleanIdsMember(e.studentIds, studentId);
  }

  const NoSubjectsMessage := "No class subjects found. Configure class subjects first."

  /** The override store as the service holds it in `localStorage`. */
  class LocalSetupStore {
    var store: Store

    constructor(initial: Store)
      ensures store == initial
    {
      store := initial;
    }

    /** `saveClassSubjectSetups`: normalise, send the first offering to the backend, and only
      * when that succeeds (or nothing was sent) write the store. `syncOutcome` is what the backend
      * answers to the request. */
    method SaveClassSubjectSetups(classId: int, drafts: seq<Draft>, syncOutcome: Result<()>)
      returns (sync: Option<AcademicSetupRequest>, result: Result<()>)
      modifies this
      ensures NormalizeSpecHolds(drafts)
      ensures sync == PrimarySync(NormalizeSetupDrafts(drafts))
      ensures result == (if sync.Some? then syncOutcome else Ok(()))
      ensures store == (if result.Ok? then StoreAfterSave(old(store), classId, drafts) else old(store))
    {
      var normalized := NormalizeSetupDrafts(drafts);
      NormalizeSpec(drafts);
      sync := PrimarySync(normalized);
      result := if sync.Some? then syncOutcome else Ok(());
      if result.Ok? {
        var next := store;
        if |normalized| > 0 {
          next := next[Key(classId) := normalized];
        } else {
          next := next - {Key(classId)};
        }
        store := next;
      }
    }

    /** `updateStudentEnrollmentInClass`: rebuild the class's offerings from the store, enroll the
      * student in exactly the selected ones, save, and then send the union of the offerings'
      * students as the class roster. A failed roster update is ignored. */
    method UpdateStudentEnrollmentInClass(
      classId: int, studentId: string, courseIds: seq<JsNumber>, classes: seq<Class>, courses: seq<Course>,
      teachers: seq<User>, students: seq<User>, syncOutcome: Result<()>)
      returns (sync: Option<AcademicSetupRequest>, rosterSync: Option<seq<string>>, result: Result<()>)
      modifies this
      ensures var setups := BuildClassSubjectSetups(old(store), classes, courses, teachers, students, Some(classId));
        var drafts := Reconcile(setups, studentId, SelectedCourseIds(courseIds));
        if |setups| == 0 then
          result == Err(NoSubjectsMessage) && sync.None? && rosterSync.None? && store == old(store)
        else
          && NormalizeSpecHolds(drafts)
          && sync == PrimarySync(NormalizeSetupDrafts(drafts))
          && result == (if sync.Some? then syncOutcome else Ok(()))
          && store == (if result.Ok? then StoreAfterSave(old(store), classId, drafts) else old(store))
          && rosterSync == (if result.Ok? then Some(ClassRoster(drafts)) else None)
    {
      var setups := BuildClassSubjectSetups(store, classes, courses, teachers, students, Some(classId));
      if |setups| == 0 {
        return None, None, Err(NoSubjectsMessage);
      }
      var drafts := Reconcile(setups, studentId, SelectedCourseIds(courseIds));
      sync, result := SaveClassSubjectSetups(classId, drafts, syncOutcome);
      rosterSync := if result.Ok? then Some(ClassRoster(drafts)) else None;
    }
  }

  /** Lets a method contract mention `PrimarySync` of normalised drafts. */
  predicate NormalizeSpecHolds(drafts: seq<Draft>) {
    IsNormalized(NormalizeSetupDrafts(drafts))
  }
}
