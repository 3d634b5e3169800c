/** The academic-setup dialog of a class
  * (src/app/pages/classes/class-academic-setup-dialog.component.ts): a list of offerings (one
  * course, its teachers and students each), the course and teacher options it offers, the
  * duplicate-course warning and the guarded save. */
module AcademicSetupDialog {
  import opened Wrappers
  import opened Seqs
  import opened Models

  /** One offering row of the form; `courseId` is `None` while the course select is blank. */
  datatype Offering = Offering(courseId: Option<int>, teacherIds: seq<string>, studentIds: seq<string>)

  /** What an existing setup row pre-fills (`ClassSubjectSetupDraft` built from it). */
  datatype Prefill = Prefill(courseId: int, teacherIds: seq<string>, studentIds: seq<string>)

  const DuplicateMessage := "Each subject can only be added once per class."
  const BothMissingMessage := "No subjects for this stage and no active teachers found."
  const NoSubjectsMessage := "No subjects found for this stage. Create a subject first."
  const NoTeachersMessage := "No active teachers found. Activate or create a teacher first."
  const LoadFailedMessage := "Failed to load academic setup options."

  // ---------------------------------------------------------------------------------------
  // duplicateCourseWarning

  /** `Number.isFinite(courseId) && courseId > 0` for the selected value (a blank is 0). */
  predicate Chosen(o: Offering) {
    o.courseId.Some? && o.courseId.value > 0
  }

  /** The chosen course ids, in offering order. */
  function ChosenIds(offerings: seq<Offering>): seq<int> {
    if offerings == [] then []
    else (if Chosen(offerings[0]) then [offerings[0].courseId.value] else []) + ChosenIds(offerings[1..])
  }

  /** `duplicateCourseWarning`: the message when the set of chosen ids is smaller than the list. */
  function DuplicateCourseWarning(offerings: seq<Offering>): string {
    var ids := ChosenIds(offerings);
    if |set x | x in ids| != |ids| then DuplicateMessage else ""
  }

  /** Two offerings choose the same course. */
  predicate SharesCourse(offerings: seq<Offering>) {
    exists i, j :: 0 <= i < j < |offerings| && Chosen(offerings[i]) && offerings[i].courseId == offerings[j].courseId
  }

  /** The warning shows exactly when two offerings choose the same positive course id; blank
    * and non-positive selections never count. */
  lemma DuplicateWarningIff(offerings: seq<Offering>)
    ensures DuplicateCourseWarning(offerings) != "" <==> SharesCourse(offerings)
  {
    var ids := ChosenIds(offerings);
    CardIffNoDup(ids);
    NoDupChosenIff(offerings);
  }

  lemma {:induction false} ChosenIdsMembers(offerings: seq<Offering>)
    ensures forall x :: x in ChosenIds(offerings) <==> exists k :: 0 <= k < |offerings| && Chosen(offerings[k]) && offerings[k].courseId == Some(x)
  {
    if offerings != [] {
      ChosenIdsMembers(offerings[1..]);
      forall x ensures x in ChosenIds(offerings) <==> exists k :: 0 <= k < |offerings| && Chosen(offerings[k]) && offerings[k].courseId == Some(x) {
        if exists k :: 0 <= k < |offerings| && Chosen(offerings[k]) && offerings[k].courseId == Some(x) {
          var k :| 0 <= k < |offerings| && Chosen(offerings[k]) && offerings[k].courseId == Some(x);
          if k > 0 {
            assert offerings[1..][k - 1] == offerings[k];
          }
        }
        if x in ChosenIds(offerings[1..]) {
          var k :| 0 <= k < |offerings[1..]| && Chosen(offerings[1..][k]) && offerings[1..][k].courseId == Some(x);
          assert offerings[k + 1] == offerings[1..][k];
        }
      }
    }
  }

  /** The chosen ids repeat exactly when two offerings share a chosen course. */
  lemma {:induction false} NoDupChosenIff(offerings: seq<Offering>)
    ensures NoDup(ChosenIds(offerings)) <==> !SharesCourse(offerings)
  {
    if offerings != [] {
      var head, rest := offerings[0], offerings[1..];
      NoDupChosenIff(rest);
      SharesCourseCons(offerings);
      if Chosen(head) {
        NoDupCons(head.courseId.value, ChosenIds(rest));
        assert ChosenIds(offerings) == [head.courseId.value] + ChosenIds(rest);
      } else {
        assert ChosenIds(offerings) == [] + ChosenIds(rest);
        assert ChosenIds(offerings) == ChosenIds(rest);
      }
    }
  }

  /** Two offerings share a course when the first one's course is chosen again later, or two
    * later ones share one. */
  lemma SharesCourseCons(offerings: seq<Offering>)
    requires offerings != []
    ensures SharesCourse(offerings) <==>
      (Chosen(offerings[0]) && offerings[0].courseId.value in ChosenIds(offerings[1..])) || SharesCourse(offerings[1..])
  {
    var head, rest := offerings[0], offerings[1..];
    if SharesCourse(offerings) {
      SharesCourseSplit(offerings);
    }
    if Chosen(head) && head.courseId.value in ChosenIds(rest) {
      ChosenIdsMembers(rest);
      var k :| 0 <= k < |rest| && Chosen(rest[k]) && rest[k].courseId == Some(head.courseId.value);
      assert offerings[k + 1] == rest[k];
    }
    if SharesCourse(rest) {
      var i, j :| 0 <= i < j < |rest| && Chosen(rest[i]) && rest[i].courseId == rest[j].courseId;
      assert offerings[i + 1] == rest[i] && offerings[j + 1] == rest[j];
    }
  }

  /** A repeated choice involves the first offering or lies wholly in the rest. */
  lemma SharesCourseSplit(offerings: seq<Offering>)
    requires SharesCourse(offerings)
    ensures (Chosen(offerings[0]) && offerings[0].courseId.value in ChosenIds(offerings[1..])) || SharesCourse(offerings[1..])
  {
    var rest := offerings[1..];
    ChosenIdsMembers(rest);
    var i, j :| 0 <= i < j < |offerings| && Chosen(offerings[i]) && offerings[i].courseId == offerings[j].courseId;
    if i == 0 {
      assert rest[j - 1] == offerings[j];
    } else {
      assert rest[i - 1] == offerings[i] && rest[j - 1] == offerings[j];
    }
  }

  /** A list with one more element in front repeats exactly when the element occurs later or the
    * rest repeats. */
  lemma NoDupCons<T>(x: T, s: seq<T>)
    ensures NoDup([x] + s) <==> x !in s && NoDup(s)
  {
    var t := [x] + s;
    if x in s {
      var k :| 0 <= k < |s| && s[k] == x;
      assert t[0] == t[k + 1];
    }
    if NoDup(t) {
      forall i, j | 0 <= i < j < |s| ensures s[i] != s[j] {
        assert t[i + 1] == s[i] && t[j + 1] == s[j];
      }
    }
    if x !in s && NoDup(s) {
      forall i, j | 0 <= i < j < |t| ensures t[i] != t[j] {
        if i == 0 {
          assert t[j] == s[j - 1];
        } else {
          assert t[i] == s[i - 1] && t[j] == s[j - 1];
        }
      }
    }
  }

  /** A set built from a list has as many elements as the list exactly when no element repeats. */
  lemma {:induction false} CardIffNoDup<T>(s: seq<T>)
    ensures |set x | x in s| <= |s|
    ensures |set x | x in s| == |s| <==> NoDup(s)
  {
    if s != [] {
      var init, last := s[..|s| - 1], s[|s| - 1];
      CardIffNoDup(init);
      assert s == init + [last];
      assert (set x | x in s) == (set x | x in init) + {last};
      if last in init {
        assert (set x | x in s) == (set x | x in init);
        var k :| 0 <= k < |init| && init[k] == last;
        assert s[k] == s[|s| - 1];
      } else {
        assert NoDup(s) <==> NoDup(init) by {
          if NoDup(init) {
            forall i, j | 0 <= i < j < |s| ensures s[i] != s[j] {
              if j < |s| - 1 {
                assert s[i] == init[i] && s[j] == init[j];
              } else {
                assert s[i] == init[i];
              }
            }
          }
          if NoDup(s) {
            forall i, j | 0 <= i < j < |init| ensures init[i] != init[j] {
              assert s[i] == init[i] && s[j] == init[j];
            }
          }
        }
      }
    }
  }

  // ---------------------------------------------------------------------------------------
  // Offerings and options

  /** The group `addOffering(prefill)` pushes: a prefill's course, teachers and students, else a
    * blank course, the first active teacher (when it has a non-empty id) and no students. */
  function NewOffering(prefill: Option<Prefill>, teachers: seq<User>): (o: Offering)
    ensures prefill.Some? ==> o == Offering(Some(prefill.value.courseId), prefill.value.teacherIds, prefill.value.studentIds)
    ensures prefill.None? ==> o.courseId.None? && o.studentIds == []
    ensures prefill.None? ==> o.teacherIds == (if teachers != [] && teachers[0].id != "" then [teachers[0].id] else [])
  {
    match prefill
    case Some(p) => Offering(Some(p.courseId), p.teacherIds, p.studentIds)
    case None =>
      var defaultTeacherId := if teachers != [] then teachers[0].id else "";
      Offering(None, if defaultTeacherId != "" then [defaultTeacherId] else [], [])
  }

  /** The draft an existing setup row pre-fills. */
  function PrefillOf(row: ClassSubjectSetup): Prefill {
    Prefill(row.courseId, row.teacherIds, row.studentIds)
  }

  /** The offerings after loading: one per existing setup row in order, else one blank. */
  function LoadedOfferings(existing: seq<ClassSubjectSetup>, teachers: seq<User>): (r: seq<Offering>)
  {
    if existing == [] then [NewOffering(None, teachers)]
    else seq(|existing|, k requires 0 <= k < |existing| => NewOffering(Some(PrefillOf(existing[k])), teachers))
  }

  /** Reloading rebuilds the list: one offering per existing setup carrying its course, teachers
    * and students, in order; exactly one blank offering when there is none. */
  lemma LoadedOfferingsSpec(existing: seq<ClassSubjectSetup>, teachers: seq<User>)
    ensures |LoadedOfferings(existing, teachers)| == (if existing == [] then 1 else |existing|)
    ensures forall k :: 0 <= k < |existing| ==>
      LoadedOfferings(existing, teachers)[k] == Offering(Some(existing[k].courseId), existing[k].teacherIds, existing[k].studentIds)
    ensures existing == [] ==> LoadedOfferings(existing, teachers)[0].courseId.None?
  {
  }

  function InDepartment(departmentId: int): Course -> bool {
    (c: Course) => c.departmentId == departmentId
  }

  /** The courses of the class's department when it has a (non-zero) one, else every course. */
  function DepartmentCourses(courses: seq<Course>, departmentId: Option<int>): seq<Course> {
    if departmentId.Some? && departmentId.value != 0 then Filter(courses, InDepartment(departmentId.value)) else courses
  }

  /** A course some existing setup row teaches that the department filter dropped. */
  function MissingSelected(selected: set<int>, shown: seq<Course>): Course -> bool {
    (c: Course) => c.id in selected && !(exists e :: e in shown && e.id == c.id)
  }

  /** The course options: the dropped but already selected courses, then the department's. */
  function CourseOptions(courses: seq<Course>, departmentId: Option<int>, existing: seq<ClassSubjectSetup>): seq<Course> {
    var shown := DepartmentCourses(courses, departmentId);
    var selected := set r | r in existing :: r.courseId;
    Filter(courses, MissingSelected(selected, shown)) + shown
  }

  /** Every option is a loaded course; every course of the class's department (every course,
    * for a class without one) is offered, and they come last, in their order; an option from
    * another department is one an existing setup teaches; and a course an existing setup
    * teaches can always be selected. */
  lemma CourseOptionsSpec(courses: seq<Course>, departmentId: Option<int>, existing: seq<ClassSubjectSetup>)
    ensures var options := CourseOptions(courses, departmentId, existing);
      && (forall c :: c in options ==> c in courses)
      && (forall c :: c in courses && (departmentId.None? || departmentId.value == 0 || c.departmentId == departmentId.value) ==> c in options)
      && (forall c :: c in options && departmentId.Some? && departmentId.value != 0 && c.departmentId != departmentId.value ==> exists r :: r in existing && r.courseId == c.id)
      && (forall r, c :: r in existing && c in courses && c.id == r.courseId ==> exists o :: o in options && o.id == r.courseId)
    ensures var shown := DepartmentCourses(courses, departmentId);
      CourseOptions(courses, departmentId, existing)[|CourseOptions(courses, departmentId, existing)| - |shown|..] == shown
  {
    var shown := DepartmentCourses(courses, departmentId);
    var selected := set r | r in existing :: r.courseId;
    var options := CourseOptions(courses, departmentId, existing);
    FilterSpec(courses, MissingSelected(selected, shown));
    if departmentId.Some? && departmentId.value != 0 {
      FilterSpec(courses, InDepartment(departmentId.value));
    }
    forall r, c | r in existing && c in courses && c.id == r.courseId
      ensures exists o :: o in options && o.id == r.courseId
    {
      if exists e :: e in shown && e.id == c.id {
        var e :| e in shown && e.id == c.id;
        assert e in options;
      } else {
        assert MissingSelected(selected, shown)(c);
        assert c in options;
      }
    }
  }

  /** The active teachers, with a current Teacher user missing from them put first (as active). */
  function TeacherOptions(teachers: seq<User>, currentUser: Option<User>): seq<User> {
    var active := Filter(teachers, (t: User) => t.isActive);
    if currentUser.Some? && currentUser.value.role == "Teacher" && !(exists t :: t in active && t.id == currentUser.value.id)
    then [currentUser.value.(isActive := true)] + active
    else active
  }

  /** Every teacher option is active; a current Teacher missing from the active teachers is
    * prepended once; otherwise the options are the active teachers in their order. */
  lemma TeacherOptionsSpec(teachers: seq<User>, currentUser: Option<User>)
    ensures forall t :: t in TeacherOptions(teachers, currentUser) ==> t.isActive
    ensures var active := Filter(teachers, (t: User) => t.isActive);
      && (forall t :: t in active <==> t in teachers && t.isActive)
      && (if currentUser.Some? && currentUser.value.role == "Teacher" && !(exists t :: t in active && t.id == currentUser.value.id)
          then TeacherOptions(teachers, currentUser) == [currentUser.value.(isActive := true)] + active
          else TeacherOptions(teachers, currentUser) == active)
    ensures currentUser.Some? && currentUser.value.role == "Teacher" ==>
      exists t :: t in TeacherOptions(teachers, currentUser) && t.id == currentUser.value.id
  {
    FilterSpec(teachers, (t: User) => t.isActive);
  }

  /** The setup guard: both lists empty, then no subjects, then no teachers, else none. */
  function GuardMessage(courseCount: int, teacherCount: int): (message: string)
    ensures message == "" <==> courseCount != 0 && teacherCount != 0
  {
    if courseCount == 0 && teacherCount == 0 then BothMissingMessage
    else if courseCount == 0 then NoSubjectsMessage
    else if teacherCount == 0 then NoTeachersMessage
    else ""
  }

  /** Each guard message names the missing lists, and the two single messages are never shown
    * when both lists are empty. */
  lemma GuardMessagePriority(courseCount: int, teacherCount: int)
    ensures courseCount == 0 && teacherCount == 0 ==> GuardMessage(courseCount, teacherCount) == BothMissingMessage
    ensures GuardMessage(courseCount, teacherCount) == NoSubjectsMessage <==> courseCount == 0 && teacherCount != 0
    ensures GuardMessage(courseCount, teacherCount) == NoTeachersMessage <==> courseCount != 0 && teacherCount == 0
  {
  }

  // ---------------------------------------------------------------------------------------
  // save

  /** `Validators.required` on each offering's course and teachers. */
  predicate FormValid(offerings: seq<Offering>) {
    forall k :: 0 <= k < |offerings| ==> offerings[k].courseId.Some? && offerings[k].teacherIds != []
  }

  /** `Number(offering.value.courseId)` for a select holding a course id. */
  function DraftOf(o: Offering): Draft {
    Draft(Finite(o.courseId.GetOr(0)), o.teacherIds, o.studentIds)
  }

  /** The request `save` sends: the class id and one draft per offering. */
  datatype SaveRequest = SaveRequest(classId: int, drafts: seq<Draft>)

  class SetupDialog {
    const classItem: Class
    var offerings: seq<Offering>
    var courses: seq<Course>
    var teachers: seq<User>
    var isLoading: bool
    var setupGuardMessage: string

    /** The dialog opens with no offerings, loading. */
    constructor(data: Class)
      ensures classItem == data && offerings == [] && courses == [] && teachers == []
      ensures isLoading && setupGuardMessage == ""
    {
      classItem := data;
      offerings, courses, teachers := [], [], [];
      isLoading, setupGuardMessage := true, "";
    }

    /** `addOffering(prefill)`: exactly one group appended. */
    method AddOffering(prefill: Option<Prefill>)
      modifies this
      ensures offerings == old(offerings) + [NewOffering(prefill, teachers)]
      ensures courses == old(courses) && teachers == old(teachers)
      ensures isLoading == old(isLoading) && setupGuardMessage == old(setupGuardMessage)
    {
      offerings := offerings + [NewOffering(prefill, teachers)];
    }

    /** `removeOffering(index)`: exactly the offering at `index` removed. */
    method RemoveOffering(index: int)
      requires 0 <= index < |offerings|
      modifies this
      ensures offerings == old(offerings)[..index] + old(offerings)[index + 1..]
      ensures |offerings| == |old(offerings)| - 1
      ensures forall k :: 0 <= k < |offerings| ==> offerings[k] == old(offerings)[if k < index then k else k + 1]
      ensures courses == old(courses) && teachers == old(teachers)
      ensures isLoading == old(isLoading) && setupGuardMessage == old(setupGuardMessage)
    {
      offerings := offerings[..index] + offerings[index + 1..];
    }

    /** The success branch of `loadOptions`: courses and teachers filtered, the offerings
      * rebuilt from the existing setups, and the guard message set. */
    method OnOptionsLoaded(loadedCourses: seq<Course>, loadedTeachers: seq<User>, existing: seq<ClassSubjectSetup>,
                           currentUser: Option<User>)
      modifies this
      ensures courses == CourseOptions(loadedCourses, classItem.departmentId, existing)
      ensures teachers == TeacherOptions(loadedTeachers, currentUser)
      ensures offerings == LoadedOfferings(existing, teachers)
      ensures setupGuardMessage == GuardMessage(|courses|, |teachers|)
      ensures !isLoading
    {
      var filteredByDepartment := DepartmentCourses(loadedCourses, classItem.departmentId);
      courses := filteredByDepartment;
      teachers := TeacherOptions(loadedTeachers, currentUser);
      offerings := [];
      var selectedCourseIds := set r | r in existing :: r.courseId;
      var missingSelectedCourses := Filter(loadedCourses, MissingSelected(selectedCourseIds, courses));
      if |missingSelectedCourses| > 0 {
        courses := missingSelectedCourses + courses;
      } else {
        assert missingSelectedCourses + courses == courses;
      }
      assert courses == CourseOptions(loadedCourses, classItem.departmentId, existing);
      ghost var loaded := LoadedOfferings(existing, teachers);
      if |existing| > 0 {
        for k := 0 to |existing|
          invariant offerings == loaded[..k]
          invariant courses == CourseOptions(loadedCourses, classItem.departmentId, existing)
          invariant teachers == TeacherOptions(loadedTeachers, currentUser)
        {
          assert loaded[k] == NewOffering(Some(PrefillOf(existing[k])), teachers);
          assert loaded[..k + 1] == loaded[..k] + [loaded[k]];
          AddOffering(Some(PrefillOf(existing[k])));
        }
        assert loaded[..|existing|] == loaded;
      } else {
        AddOffering(None);
      }
      setupGuardMessage := GuardMessage(|courses|, |teachers|);
      isLoading := false;
    }

    /** The error branch of `loadOptions`. */
    method OnOptionsFailed()
      modifies this
      ensures setupGuardMessage == LoadFailedMessage && !isLoading
      ensures offerings == old(offerings) && courses == old(courses) && teachers == old(teachers)
    {
      setupGuardMessage := LoadFailedMessage;
      isLoading := false;
    }

    /** `save()`: nothing is sent while the form is invalid, a guard message is shown or two
      * offerings share a course; otherwise one draft per offering, in order. */
    method Save() returns (request: Option<SaveRequest>)
      modifies this
      ensures !FormValid(offerings) || setupGuardMessage != "" || DuplicateCourseWarning(offerings) != "" <==> request.None?
      ensures request.None? ==> isLoading == old(isLoading)
      ensures request.Some? ==> request.value.classId == classItem.id && isLoading
      ensures request.Some? ==> |request.value.drafts| == |offerings|
      ensures request.Some? ==> forall k :: 0 <= k < |offerings| ==>
        offerings[k].courseId.Some? && request.value.drafts[k] == Draft(Finite(offerings[k].courseId.value), offerings[k].teacherIds, offerings[k].studentIds)
      ensures offerings == old(offerings) && courses == old(courses) && teachers == old(teachers)
      ensures setupGuardMessage == old(setupGuardMessage)
    {
      if !FormValid(offerings) {
        return None;
      }
      if setupGuardMessage != "" || DuplicateCourseWarning(offerings) != "" {
        return None;
      }
      var rows := offerings;
      var payload := seq(|rows|, k requires 0 <= k < |rows| => DraftOf(rows[k]));
      isLoading := true;
      request := Some(SaveRequest(classItem.id, payload));
    }

    /** The error branch of the save call. */
    method OnSaveFailed()
      modifies this
      ensures !isLoading
      ensures offerings == old(offerings) && courses == old(courses) && teachers == old(teachers)
      ensures setupGuardMessage == old(setupGuardMessage)
    {
      isLoading := false;
    }
  }

  /** A sent payload never names the same positive course twice. */
  lemma SentDraftsHaveDistinctCourses(offerings: seq<Offering>, i: int, j: int)
    requires FormValid(offerings) && DuplicateCourseWarning(offerings) == ""
    requires 0 <= i < j < |offerings|
    requires offerings[i].courseId.value > 0
    ensures DraftOf(offerings[i]).courseId != DraftOf(offerings[j]).courseId
  {
    DuplicateWarningIff(offerings);
  }
}
