/** The grading dialog of an assignment (src/app/pages/assignments/assignment-grade-dialog.component.ts):
  * one row per submission, saved one at a time. */
module GradeDialog {
  import opened Wrappers
  import opened Text
  import opened Models

  const GradeRangeMessage := "Grade must be between 0 and 100."

  /** A grade passes the range check when it is absent, or a number from 0 to 100. NaN and the
    * infinities are `NotFinite` and fail it. */
  predicate GradeAccepted(grade: Option<JsNumber>) {
    grade.None? || (grade.value.Finite? && 0 <= grade.value.value <= 100)
  }

  /** The request body for one row: an absent grade stays absent, remarks are trimmed and the
    * row is visible to the student unless it says otherwise. */
  function PayloadOf(student: Submission): (r: GradeRequest)
    requires GradeAccepted(student.grade)
    ensures r.studentId == student.studentId
    ensures r.grade.None? <==> student.grade.None?
    ensures r.grade.Some? ==> student.grade == Some(Finite(r.grade.value)) && 0 <= r.grade.value <= 100
    ensures r.remarks == Trim(student.remarks.GetOr(""))
    ensures r.isVisibleToStudent <==> student.isVisibleToStudent != Some(false)
  {
    GradeRequest(
      student.studentId,
      if student.grade.None? then None else Some(student.grade.value.value),
      Trim(student.remarks.GetOr("")),
      student.isVisibleToStudent != Some(false))
  }

  /** A loaded row with its defaults: an absent grade stays absent (null), missing remarks
    * become empty and a missing visibility becomes visible. */
  function WithDefaults(student: Submission): (r: Submission)
    ensures r.remarks.Some? && r.isVisibleToStudent.Some?
    ensures r.remarks.value == student.remarks.GetOr("")
    ensures r.isVisibleToStudent.value == student.isVisibleToStudent.GetOr(true)
    ensures r.grade == student.grade
    ensures r.(remarks := student.remarks, isVisibleToStudent := student.isVisibleToStudent) == student
  {
    student.(remarks := Some(student.remarks.GetOr("")), isVisibleToStudent := Some(student.isVisibleToStudent.GetOr(true)))
  }

  /** Filling in the defaults changes nothing about what a row sends. */
  lemma DefaultsKeepPayload(student: Submission)
    requires GradeAccepted(student.grade)
    ensures GradeAccepted(WithDefaults(student).grade)
    ensures PayloadOf(WithDefaults(student)) == PayloadOf(student)
  {
  }

  /** `savingStudentId` is truthy: a save is in flight. */
  function Busy(savingStudentId: Option<string>): bool {
    savingStudentId.Some? && savingStudentId.value != ""
  }

  datatype SaveOutcome = AlreadySaving | Rejected(message: string) | Sent(request: GradeRequest)

  class GradeScreen {
    const assignment: Assignment
    var students: seq<Submission>
    var isLoading: bool
    var savingStudentId: Option<string>

    /** The dialog opens and `loadStudents` starts. */
    constructor(data: Assignment)
      ensures assignment == data && students == [] && isLoading && savingStudentId.None?
    {
      assignment := data;
      students := [];
      isLoading := true;
      savingStudentId := None;
    }

    /** The success branch of `loadStudents`: the rows, in order, with their defaults. */
    method OnStudentsLoaded(rows: seq<Submission>)
      modifies this
      ensures |students| == |rows| && forall k :: 0 <= k < |rows| ==> students[k] == WithDefaults(rows[k])
      ensures !isLoading && savingStudentId == old(savingStudentId)
    {
      students := seq(|rows|, k requires 0 <= k < |rows| => WithDefaults(rows[k]));
      isLoading := false;
    }

    /** The error branch of `loadStudents`. */
    method OnStudentsFailed()
      modifies this
      ensures !isLoading && students == old(students) && savingStudentId == old(savingStudentId)
    {
      isLoading := false;
    }

    /** `isSaving(studentId)` */
    predicate IsSaving(studentId: string)
      reads this
    {
      savingStudentId == Some(studentId)
    }

    /** `saveStudent(student)`: nothing happens while a save is in flight; a grade outside
      * 0..100 (or not a number) is refused with a message; otherwise the row's payload is sent
      * and the row's student becomes the one being saved. */
    method SaveStudent(student: Submission) returns (outcome: SaveOutcome)
      modifies this
      ensures Busy(old(savingStudentId)) <==> outcome.AlreadySaving?
      ensures !Busy(old(savingStudentId)) && !GradeAccepted(student.grade) <==> outcome.Rejected?
      ensures outcome.Rejected? ==> outcome.message == GradeRangeMessage
      ensures outcome.Sent? ==> GradeAccepted(student.grade) && outcome.request == PayloadOf(student)
      ensures outcome.Sent? ==> IsSaving(student.studentId)
      ensures !outcome.Sent? ==> savingStudentId == old(savingStudentId)
      ensures students == old(students) && isLoading == old(isLoading)
    {
      if Busy(savingStudentId) {
        return AlreadySaving;
      }
      var grade := student.grade;
      if grade.Some? && (grade.value.NotFinite? || grade.value.value < 0 || grade.value.value > 100) {
        return Rejected(GradeRangeMessage);
      }
      var payload := GradeRequest(
        student.studentId,
        if grade.None? then None else Some(grade.value.value),
        Trim(student.remarks.GetOr("")),
        student.isVisibleToStudent != Some(false));
      savingStudentId := Some(student.studentId);
      outcome := Sent(payload);
    }

    /** Either branch of the grade request: no save is in flight any more. The success branch
      * also returns the confirmation it shows. */
    method OnSaveFinished(student: Submission, succeeded: bool) returns (notice: Option<string>)
      modifies this
      ensures savingStudentId.None? && !Busy(savingStudentId)
      ensures succeeded ==> notice == Some("Saved grade for " + student.studentName.GetOr("undefined") + ".")
      ensures !succeeded ==> notice.None?
      ensures students == old(students) && isLoading == old(isLoading)
    {
      savingStudentId := None;
      notice := if succeeded then Some("Saved grade for " + student.studentName.GetOr("undefined") + ".") else None;
    }
  }
}
