/** The student-enrollment dialog of a class
  * (src/app/pages/classes/class-student-enrollment-dialog.component.ts): pick an active student,
  * preselect the subjects they are enrolled in, and save the chosen subjects. */
module EnrollmentDialog {
  import opened Wrappers
  import opened Seqs
  import opened Models
  import SetupStore

  const NoSetupsMessage := "No subjects found for this class. Configure class subjects first."
  const NoStudentsMessage := "No active students found. Activate or create student accounts first."
  const LoadFailedMessage := "Failed to load student enrollment data."

  function Enrolls(studentId: string): ClassSubjectSetup -> bool {
    (setup: ClassSubjectSetup) => studentId in setup.studentIds
  }

  function CourseIdsOf(rows: seq<ClassSubjectSetup>): (r: seq<int>)
    ensures |r| == |rows| && forall k :: 0 <= k < |rows| ==> r[k] == rows[k].courseId
  {
    seq(|rows|, k requires 0 <= k < |rows| => rows[k].courseId)
  }

  /** `syncCoursesForStudent(studentId)`: the course ids the form preselects. */
  function EnrolledCourses(setups: seq<ClassSubjectSetup>, studentId: string): seq<int> {
    if studentId == "" then [] else CourseIdsOf(Filter(setups, Enrolls(studentId)))
  }

  /** No student selects nothing; otherwise a course is preselected exactly when a setup of the
    * class teaches it and lists the student, once per such setup, in setup order. */
  lemma EnrolledCoursesSpec(setups: seq<ClassSubjectSetup>, studentId: string)
    ensures studentId == "" ==> EnrolledCourses(setups, studentId) == []
    ensures studentId != "" ==> forall x :: x in EnrolledCourses(setups, studentId) <==> exists setup :: setup in setups && studentId in setup.studentIds && setup.courseId == x
    ensures studentId != "" ==> EnrolledCourses(setups, studentId) == CourseIdsOf(Filter(setups, Enrolls(studentId)))
    ensures |EnrolledCourses(setups, studentId)| <= |setups|
  {
    var rows := Filter(setups, Enrolls(studentId));
    FilterSpec(setups, Enrolls(studentId));
    if studentId != "" {
      forall x ensures x in EnrolledCourses(setups, studentId) <==> exists setup :: setup in setups && studentId in setup.studentIds && setup.courseId == x {
        if exists setup :: setup in setups && studentId in setup.studentIds && setup.courseId == x {
          var setup :| setup in setups && studentId in setup.studentIds && setup.courseId == x;
          assert setup in rows;
          var k :| 0 <= k < |rows| && rows[k] == setup;
          assert CourseIdsOf(rows)[k] == x;
        }
        if x in CourseIdsOf(rows) {
          var k :| 0 <= k < |rows| && CourseIdsOf(rows)[k] == x;
          assert rows[k] in rows;
          assert Enrolls(studentId)(rows[k]);
        }
      }
    }
  }

  /** The ids the dialog hands to the store, as the numbers the select holds. */
  function AsNumbers(courseIds: seq<int>): (r: seq<JsNumber>)
    ensures |r| == |courseIds| && forall k :: 0 <= k < |courseIds| ==> r[k] == Finite(courseIds[k])
  {
    seq(|courseIds|, k requires 0 <= k < |courseIds| => Finite(courseIds[k]))
  }

  /** Saving the preselection as it is leaves the student's enrollment unchanged, when the
    * class's setups teach distinct positive course ids (which the setup dialog enforces). */
  lemma SavingPreselectionKeepsEnrollment(setups: seq<ClassSubjectSetup>, studentId: string)
    requires studentId != ""
    requires forall i :: 0 <= i < |setups| ==> setups[i].courseId > 0
    requires forall i, j :: 0 <= i < j < |setups| ==> setups[i].courseId != setups[j].courseId
    ensures var drafts := SetupStore.Reconcile(setups, studentId, SetupStore.SelectedCourseIds(AsNumbers(EnrolledCourses(setups, studentId))));
      forall i :: 0 <= i < |setups| ==> (studentId in drafts[i].studentIds <==> studentId in setups[i].studentIds)
  {
    var selected := SetupStore.SelectedCourseIds(AsNumbers(EnrolledCourses(setups, studentId)));
    SetupStore.ReconcileSpec(setups, studentId, selected);
    EnrolledCoursesSpec(setups, studentId);
    forall i | 0 <= i < |setups| ensures setups[i].courseId in selected <==> studentId in setups[i].studentIds {
      var numbers := AsNumbers(EnrolledCourses(setups, studentId));
      if studentId in setups[i].studentIds {
        assert setups[i].courseId in EnrolledCourses(setups, studentId);
        var k :| 0 <= k < |EnrolledCourses(setups, studentId)| && EnrolledCourses(setups, studentId)[k] == setups[i].courseId;
        assert numbers[k] in numbers;
      }
      if setups[i].courseId in selected {
        var n :| n in numbers && n.Finite? && n.value > 0 && n.value == setups[i].courseId;
        var k :| 0 <= k < |numbers| && numbers[k] == n;
        assert EnrolledCourses(setups, studentId)[k] in EnrolledCourses(setups, studentId);
        var setup :| setup in setups && studentId in setup.studentIds && setup.courseId == setups[i].courseId;
        var j :| 0 <= j < |setups| && setups[j] == setup;
        assert j == i;
      }
    }
  }

  /** What `save` hands to `updateStudentEnrollmentInClass`. */
  datatype EnrollmentRequest = EnrollmentRequest(classId: int, studentId: string, courseIds: seq<JsNumber>)

  class EnrollmentScreen {
    const classItem: Class
    var setups: seq<ClassSubjectSetup>
    var students: seq<User>
    var isLoading: bool
    var guardMessage: string
    var studentId: string
    var courseIds: seq<int>

    constructor(data: Class)
      ensures classItem == data && setups == [] && students == [] && isLoading && guardMessage == ""
      ensures studentId == "" && courseIds == []
    {
      classItem := data;
      setups, students := [], [];
      isLoading, guardMessage := true, "";
      studentId, courseIds := "", [];
    }

    /** `syncCoursesForStudent(studentId)`: the subject selection replaced by the student's. */
    method SyncCoursesForStudent(id: string)
      modifies this
      ensures courseIds == EnrolledCourses(setups, id)
      ensures setups == old(setups) && students == old(students) && studentId == old(studentId)
      ensures isLoading == old(isLoading) && guardMessage == old(guardMessage)
    {
      if id == "" {
        courseIds := [];
        return;
      }
      courseIds := CourseIdsOf(Filter(setups, Enrolls(id)));
    }

    /** A new student picked in the form: the subjects follow. */
    method OnStudentChanged(id: string)
      modifies this
      ensures studentId == id && courseIds == EnrolledCourses(setups, id)
      ensures setups == old(setups) && students == old(students)
      ensures isLoading == old(isLoading) && guardMessage == old(guardMessage)
    {
      studentId := id;
      SyncCoursesForStudent(id);
    }

    /** The success branch of `loadData`: only active students are offered; no setups shows the
      * setup message, else no active student the student message, else the first student is
      * picked and their subjects preselected. */
    method OnDataLoaded(loadedSetups: seq<ClassSubjectSetup>, loadedStudents: seq<User>)
      modifies this
      ensures setups == loadedSetups
      ensures students == Filter(loadedStudents, (s: User) => s.isActive)
      ensures forall s :: s in students <==> s in loadedStudents && s.isActive
      ensures loadedSetups == [] ==> guardMessage == NoSetupsMessage
      ensures loadedSetups != [] && students == [] ==> guardMessage == NoStudentsMessage
      ensures loadedSetups == [] || students == [] ==> studentId == old(studentId) && courseIds == old(courseIds)
      ensures loadedSetups != [] && students != [] ==>
        guardMessage == "" && studentId == students[0].id && courseIds == EnrolledCourses(setups, studentId)
      ensures !isLoading
    {
      setups := loadedSetups;
      students := Filter(loadedStudents, (s: User) => s.isActive);
      FilterSpec(loadedStudents, (s: User) => s.isActive);
      if |setups| == 0 {
        guardMessage := NoSetupsMessage;
      } else if |students| == 0 {
        guardMessage := NoStudentsMessage;
      } else {
        guardMessage := "";
        OnStudentChanged(students[0].id);
        SyncCoursesForStudent(students[0].id);
      }
      isLoading := false;
    }

    /** The error branch of `loadData`. */
    method OnDataFailed()
      modifies this
      ensures guardMessage == LoadFailedMessage && !isLoading
      ensures setups == old(setups) && students == old(students)
      ensures studentId == old(studentId) && courseIds == old(courseIds)
    {
      guardMessage := LoadFailedMessage;
      isLoading := false;
    }

    /** `save()`: nothing is sent without a student (the form's only required field); otherwise
      * the class, the student and the selected course ids. */
    method Save() returns (request: Option<EnrollmentRequest>)
      modifies this
      ensures studentId == "" <==> request.None?
      ensures request.None? ==> isLoading == old(isLoading)
      ensures request.Some? ==> request.value == EnrollmentRequest(classItem.id, studentId, AsNumbers(courseIds)) && isLoading
      ensures setups == old(setups) && students == old(students)
      ensures studentId == old(studentId) && courseIds == old(courseIds) && guardMessage == old(guardMessage)
    {
      if studentId == "" {
        return None;
      }
      isLoading := true;
      request := Some(EnrollmentRequest(classItem.id, studentId, AsNumbers(courseIds)));
    }

    /** The error branch of the save call. */
    method OnSaveFailed()
      modifies this
      ensures !isLoading
      ensures setups == old(setups) && students == old(students)
      ensures studentId == old(studentId) && courseIds == old(courseIds) && guardMessage == old(guardMessage)
    {
      isLoading := false;
    }
  }
}
