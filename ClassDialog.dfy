/** The create/edit class dialog (src/app/pages/classes/class-dialog.component.ts): its form, the
  * guard that blocks creating a class in a department without a subject or a teacher, the
  * submitted payload and the date helpers. */
module ClassDialog {
  import opened Wrappers
  import opened Seqs
  import opened Text
  import opened Models

  const NoSubjectMessage := "This stage has no subject yet. Create a subject for this department first."
  const NoTeacherMessage := "No active teacher account available. Activate or create a teacher first."

  /** The semester select's options, 1 to 8. */
  const Semesters: seq<int> := seq(8, k => k + 1)

  predicate SemesterValid(semester: int) {
    1 <= semester <= 8
  }

  /** Every option passes the form's range check and every semester that passes it is an
    * option, in ascending order. */
  lemma SemesterOptionsSpec()
    ensures |Semesters| == 8
    ensures forall k :: 0 <= k < |Semesters| ==> Semesters[k] == k + 1
    ensures forall s :: s in Semesters <==> SemesterValid(s)
  {
    forall s | SemesterValid(s) ensures s in Semesters {
      assert Semesters[s - 1] == s;
    }
  }

  // ---------------------------------------------------------------------------------------
  // Dates
  // ---------------------------------------------------------------------------------------

  /** `String(n).padStart(2, '0')` */
  function PadTwo(s: string): string {
    if |s| == 0 then "00" else if |s| == 1 then "0" + s else s
  }

  lemma PadTwoSpec(n: nat)
    requires n < 100
    ensures |PadTwo(NatToString(n))| == 2
    ensures forall i :: 0 <= i < 2 ==> IsDigit(PadTwo(NatToString(n))[i])
    ensures DigitsValue(PadTwo(NatToString(n))) == n
  {
    NatToStringRoundTrip(n);
    var p := PadTwo(NatToString(n));
    if n < 10 {
      assert p == "0" + [DigitChar(n)];
      assert p[..1] == "0";
      assert p[..0] == "";
    } else {
      NatToStringRoundTrip(n / 10);
    }
  }

  /** `formatDate(date)` from the date's full year, 0-based month and day of the month. */
  function FormatDate(year: int, monthIndex: nat, day: nat): string {
    IntToString(year) + "-" + PadTwo(NatToString(monthIndex + 1)) + "-" + PadTwo(NatToString(day))
  }

  /** For a real calendar date the text is `YYYY-MM-DD`: the year, then the 1-based month and
    * the day as two digits each that read back as those numbers. */
  lemma FormatDateSpec(year: int, monthIndex: nat, day: nat)
    requires monthIndex < 12 && 1 <= day <= 31
    ensures var r := FormatDate(year, monthIndex, day);
      var y := |IntToString(year)|;
      && |r| == y + 6
      && r[..y] == IntToString(year) && r[y] == '-' && r[y + 3] == '-'
      && (forall i :: y + 1 <= i < y + 3 ==> IsDigit(r[i]))
      && (forall i :: y + 4 <= i < y + 6 ==> IsDigit(r[i]))
      && DigitsValue(r[y + 1..y + 3]) == monthIndex + 1
      && DigitsValue(r[y + 4..y + 6]) == day
  {
    PadTwoSpec(monthIndex + 1);
    PadTwoSpec(day);
    var r := FormatDate(year, monthIndex, day);
    var y := |IntToString(year)|;
    var m := PadTwo(NatToString(monthIndex + 1));
    var d := PadTwo(NatToString(day));
    assert r == IntToString(year) + "-" + m + "-" + d;
    assert r[y + 1..y + 3] == m;
    assert r[y + 4..y + 6] == d;
  }

  /** `formatDateForInput(value)`: no text gives nothing, so the form falls back to a computed
    * date; otherwise the first ten characters (the date part of an ISO timestamp). */
  function FormatDateForInput(value: Option<string>): (r: Option<string>)
    ensures r.None? <==> value.None? || value.value == ""
    ensures r.Some? ==> r.value <= value.value && |r.value| == (if |value.value| >= 10 then 10 else |value.value|)
  {
    if value.None? || value.value == "" then None
    else if |value.value| >= 10 then Some(value.value[..10])
    else value
  }

  lemma FormatDateForInputIdempotent(value: Option<string>)
    ensures FormatDateForInput(FormatDateForInput(value)) == FormatDateForInput(value)
  {
    if value.Some? && |value.value| >= 10 {
      assert value.value[..10][..10] == value.value[..10];
    }
  }

  // ---------------------------------------------------------------------------------------
  // The create guard
  // ---------------------------------------------------------------------------------------

  datatype Guard = Guard(canCreate: bool, message: string)

  /** `Number(departmentId)`: the select holds a department id, or '' (0) before one is picked. */
  function SelectedDepartment(field: Option<int>): int {
    field.GetOr(0)
  }

  predicate HasDepartmentSubject(courses: seq<Course>, departmentId: int) {
    exists k :: 0 <= k < |courses| && courses[k].departmentId == departmentId
  }

  /** What `updateCreateGuard` decides for the given state. */
  function CreateGuard(isLoading: bool, editing: bool, departmentField: Option<int>,
                       courses: seq<Course>, activeTeachers: seq<User>, userIsTeacher: bool): Guard {
    var selected := SelectedDepartment(departmentField);
    if isLoading || editing || selected == 0 then Guard(true, "")
    else if !HasDepartmentSubject(courses, selected) then Guard(false, NoSubjectMessage)
    else if !(userIsTeacher || |activeTeachers| > 0) then Guard(false, NoTeacherMessage)
    else Guard(true, "")
  }

  /** Creation is blocked exactly for a new class, once loaded, whose department is picked and
    * has no subject, or has one but no teacher is available; the message is empty exactly when
    * creation is allowed and the subject message wins over the teacher message. */
  lemma CreateGuardSpec(isLoading: bool, editing: bool, departmentField: Option<int>,
                        courses: seq<Course>, activeTeachers: seq<User>, userIsTeacher: bool)
    ensures var g := CreateGuard(isLoading, editing, departmentField, courses, activeTeachers, userIsTeacher);
      var checked := !isLoading && !editing && SelectedDepartment(departmentField) != 0;
      var hasSubject := exists c :: c in courses && c.departmentId == SelectedDepartment(departmentField);
      && (g.canCreate <==> !checked || (hasSubject && (userIsTeacher || activeTeachers != [])))
      && (g.message == "" <==> g.canCreate)
      && (g.message == NoSubjectMessage <==> checked && !hasSubject)
      && (g.message == NoTeacherMessage <==> checked && hasSubject && !userIsTeacher && activeTeachers == [])
  {
    var selected := SelectedDepartment(departmentField);
    if exists c :: c in courses && c.departmentId == selected {
      var c :| c in courses && c.departmentId == selected;
      var k :| 0 <= k < |courses| && courses[k] == c;
      assert HasDepartmentSubject(courses, selected);
    }
    if HasDepartmentSubject(courses, selected) {
      var k :| 0 <= k < |courses| && courses[k].departmentId == selected;
      assert courses[k] in courses;
    }
  }

  /** While loading, the guard lets everything through whatever the data says. */
  lemma GuardIgnoresDataWhileLoading(editing: bool, departmentField: Option<int>,
                                     courses: seq<Course>, activeTeachers: seq<User>, userIsTeacher: bool)
    ensures CreateGuard(true, editing, departmentField, courses, activeTeachers, userIsTeacher) == Guard(true, "")
  {
  }

  /** The input that shows it: a new class, one active department with no subject. The guard
    * computed while still loading allows creation; computed on the loaded state it blocks it. */
  lemma LoadedGuardHidesMissingSubject()
    ensures var department := Department(1, "Stage 1", "", "", None, true);
      var guardInLoad := CreateGuard(true, false, Some(department.id), [], [], false);
      var guardAfterLoad := CreateGuard(false, false, Some(department.id), [], [], false);
      guardInLoad == Guard(true, "") && guardAfterLoad == Guard(false, NoSubjectMessage)
  {
    assert !HasDepartmentSubject([], 1);
  }

  /** The form is valid when a name, a department, a semester in 1..8 and both dates are set. */
  predicate FormValid(name: string, departmentField: Option<int>, semester: int, startDate: string, endDate: string) {
    name != "" && departmentField.Some? && SemesterValid(semester) && startDate != "" && endDate != ""
  }

  /** `updateClass(id, payload)` when editing, else `createClass(payload)`. */
  datatype ClassWrite = UpdateClass(id: int, payload: CreateClassRequest) | CreateClass(payload: CreateClassRequest)

  class ClassForm {
    /** The class being edited, or None for a new one. */
    const data: Option<Class>
    var departments: seq<Department>
    var manageableCourses: seq<Course>
    var activeTeachers: seq<User>
    var isLoading: bool
    var canCreateClass: bool
    var createGuardMessage: string
    var name: string
    var departmentId: Option<int>
    var semester: int
    var startDate: string
    var endDate: string
    var isActive: bool

    /** The form starts from the edited class, or from a blank class starting `today` and
      * ending `later` (four months on); then `loadDependencies` marks the dialog as loading. */
    constructor(classItem: Option<Class>, today: string, later: string)
      ensures data == classItem
      ensures classItem.Some? ==> (
        && name == classItem.value.name && departmentId == classItem.value.departmentId
        && semester == classItem.value.semester && isActive == classItem.value.isActive
        && startDate == FormatDateForInput(Some(classItem.value.startDate)).GetOr(today)
        && endDate == FormatDateForInput(Some(classItem.value.endDate)).GetOr(later))
      ensures classItem.None? ==> (
        && name == "" && departmentId.None? && semester == 1 && isActive
        && startDate == today && endDate == later)
      ensures departments == [] && manageableCourses == [] && activeTeachers == []
      ensures isLoading && canCreateClass && createGuardMessage == ""
    {
      data := classItem;
      departments, manageableCourses, activeTeachers := [], [], [];
      canCreateClass, createGuardMessage := true, "";
      if classItem.Some? {
        var c := classItem.value;
        name, departmentId, semester, isActive := c.name, c.departmentId, c.semester, c.isActive;
        startDate := FormatDateForInput(Some(c.startDate)).GetOr(today);
        endDate := FormatDateForInput(Some(c.endDate)).GetOr(later);
      } else {
        name, departmentId, semester, isActive := "", None, 1, true;
        startDate, endDate := today, later;
      }
      isLoading := true;
    }

    /** `updateCreateGuard`, a branch chain over the current state. */
    method UpdateCreateGuard(userIsTeacher: bool)
      modifies this
      ensures Guard(canCreateClass, createGuardMessage) ==
        CreateGuard(isLoading, data.Some?, departmentId, manageableCourses, activeTeachers, userIsTeacher)
      ensures departments == old(departments) && manageableCourses == old(manageableCourses)
      ensures activeTeachers == old(activeTeachers) && isLoading == old(isLoading)
      ensures name == old(name) && departmentId == old(departmentId) && semester == old(semester)
      ensures startDate == old(startDate) && endDate == old(endDate) && isActive == old(isActive)
    {
      if isLoading {
        canCreateClass, createGuardMessage := true, "";
        return;
      }
      if data.Some? {
        canCreateClass, createGuardMessage := true, "";
        return;
      }
      var selected := SelectedDepartment(departmentId);
      if selected == 0 {
        canCreateClass, createGuardMessage := true, "";
        return;
      }
      var hasDepartmentSubject := false;
      for k := 0 to |manageableCourses|
        invariant hasDepartmentSubject <==> exists j :: 0 <= j < k && manageableCourses[j].departmentId == selected
      {
        if manageableCourses[k].departmentId == selected {
          hasDepartmentSubject := true;
        }
      }
      var hasAvailableTeacher := userIsTeacher || |activeTeachers| > 0;
      if !hasDepartmentSubject {
        canCreateClass, createGuardMessage := false, NoSubjectMessage;
        return;
      }
      if !hasAvailableTeacher {
        canCreateClass, createGuardMessage := false, NoTeacherMessage;
        return;
      }
      canCreateClass, createGuardMessage := true, "";
    }

    /** A department picked in the select re-runs the guard. */
    method OnDepartmentChanged(id: Option<int>, userIsTeacher: bool)
      modifies this
      ensures departmentId == id
      ensures Guard(canCreateClass, createGuardMessage) ==
        CreateGuard(isLoading, data.Some?, id, manageableCourses, activeTeachers, userIsTeacher)
      ensures departments == old(departments) && manageableCourses == old(manageableCourses)
      ensures activeTeachers == old(activeTeachers) && isLoading == old(isLoading)
      ensures name == old(name) && semester == old(semester)
      ensures startDate == old(startDate) && endDate == old(endDate) && isActive == old(isActive)
    {
      departmentId := id;
      UpdateCreateGuard(userIsTeacher);
    }

    /** Keep the active departments and teachers, and preselect the first department when none
      * (or id 0) is picked. Shared by both versions of the load handler. */
    method StoreDependencies(loadedDepartments: seq<Department>, courses: seq<Course>, teachers: seq<User>)
      modifies this
      ensures departments == Filter(loadedDepartments, (d: Department) => d.isActive)
      ensures manageableCourses == courses
      ensures activeTeachers == Filter(teachers, (t: User) => t.isActive)
      ensures SelectedDepartment(old(departmentId)) == 0 && departments != [] ==> departmentId == Some(departments[0].id)
      ensures SelectedDepartment(old(departmentId)) != 0 || departments == [] ==> departmentId == old(departmentId)
      ensures isLoading == old(isLoading) && name == old(name) && semester == old(semester)
      ensures startDate == old(startDate) && endDate == old(endDate) && isActive == old(isActive)
    {
      departments := Filter(loadedDepartments, (d: Department) => d.isActive);
      manageableCourses := courses;
      activeTeachers := Filter(teachers, (t: User) => t.isActive);
      if SelectedDepartment(departmentId) == 0 && |departments| > 0 {
        departmentId := Some(departments[0].id);
      }
    }

    /** The success branch of `loadDependencies` as written: the guard runs before `isLoading`
      * is cleared, so it decides on the loading state and not on what was loaded. */
    method OnDependenciesLoadedAsWritten(loadedDepartments: seq<Department>, courses: seq<Course>,
                                         teachers: seq<User>, userIsTeacher: bool)
      modifies this
      ensures Guard(canCreateClass, createGuardMessage) ==
        CreateGuard(old(isLoading), data.Some?, departmentId, manageableCourses, activeTeachers, userIsTeacher)
      ensures old(isLoading) ==> canCreateClass && createGuardMessage == ""
      ensures !isLoading
      ensures departments == Filter(loadedDepartments, (d: Department) => d.isActive)
      ensures manageableCourses == courses && activeTeachers == Filter(teachers, (t: User) => t.isActive)
    {
      StoreDependencies(loadedDepartments, courses, teachers);
      UpdateCreateGuard(userIsTeacher);
      isLoading := false;
    }

    /** The success branch of `loadDependencies` with the loading flag cleared first, so the
      * guard reflects the loaded departments, subjects and teachers. */
    method OnDependenciesLoaded(loadedDepartments: seq<Department>, courses: seq<Course>,
                                teachers: seq<User>, userIsTeacher: bool)
      modifies this
      ensures Guard(canCreateClass, createGuardMessage) ==
        CreateGuard(false, data.Some?, departmentId, manageableCourses, activeTeachers, userIsTeacher)
      ensures !isLoading
      ensures departments == Filter(loadedDepartments, (d: Department) => d.isActive)
      ensures manageableCourses == courses && activeTeachers == Filter(teachers, (t: User) => t.isActive)
      ensures SelectedDepartment(old(departmentId)) == 0 && departments != [] ==> departmentId == Some(departments[0].id)
      ensures SelectedDepartment(old(departmentId)) != 0 || departments == [] ==> departmentId == old(departmentId)
      ensures name == old(name) && semester == old(semester)
      ensures startDate == old(startDate) && endDate == old(endDate) && isActive == old(isActive)
    {
      StoreDependencies(loadedDepartments, courses, teachers);
      isLoading := false;
      UpdateCreateGuard(userIsTeacher);
    }

    /** `onSubmit`: nothing is sent for an invalid form or a blocked creation; otherwise the
      * form's fields, with the edited class's course, teacher and roster kept (none for a new
      * class), go to an update or a create, and the dialog shows it is busy. */
    method Submit() returns (write: Option<ClassWrite>)
      modifies this
      ensures write.None? <==> !FormValid(name, departmentId, semester, startDate, endDate) || !canCreateClass
      ensures write.Some? ==>
        && write.value.payload == CreateClassRequest(
             name, isActive, semester, startDate, endDate, SelectedDepartment(departmentId),
             if data.Some? then data.value.courseId else None,
             if data.Some? then data.value.teacherId else None,
             if data.Some? then RosterIds(data.value) else [])
        && (data.Some? <==> write.value.UpdateClass?)
        && (data.Some? ==> write.value.id == data.value.id)
        && isLoading
      ensures write.None? ==> isLoading == old(isLoading)
      ensures canCreateClass == old(canCreateClass) && createGuardMessage == old(createGuardMessage)
      ensures name == old(name) && departmentId == old(departmentId) && semester == old(semester)
      ensures startDate == old(startDate) && endDate == old(endDate) && isActive == old(isActive)
    {
      if !FormValid(name, departmentId, semester, startDate, endDate) {
        return None;
      }
      if !canCreateClass {
        return None;
      }
      var studentIds := if data.Some? then RosterIds(data.value) else [];
      var payload := CreateClassRequest(
        name, isActive, semester, startDate, endDate, SelectedDepartment(departmentId),
        if data.Some? then data.value.courseId else None,
        if data.Some? then data.value.teacherId else None,
        studentIds);
      isLoading := true;
      write := if data.Some? then Some(UpdateClass(data.value.id, payload)) else Some(CreateClass(payload));
    }

    /** The error branch of the write. */
    method OnSubmitFailed()
      modifies this
      ensures !isLoading
      ensures canCreateClass == old(canCreateClass) && createGuardMessage == old(createGuardMessage)
      ensures name == old(name) && departmentId == old(departmentId) && semester == old(semester)
      ensures startDate == old(startDate) && endDate == old(endDate) && isActive == old(isActive)
    {
      isLoading := false;
    }
  }
}
