/** The console's entities (src/app/models/index.ts) as values. Optional TypeScript fields
  * (`x?: T`, `T | null`) are `Option`s; a JavaScript number that may be NaN, an infinity or
  * a non-number JSON value is a `JsNumber`. */
module Models {
  import opened Wrappers

  /** A number as `Number.isFinite` sees it. Finite values are integral in this model. */
  datatype JsNumber = Finite(value: int) | NotFinite

  /** `role` is kept as the string the backend sent: the source casts it without checking. */
  datatype User = User(
    id: string, userName: string, name: string, email: string, role: string,
    isActive: bool, createdDate: Option<string>)

  datatype Department = Department(
    id: int, name: string, description: string, headDepartmentId: string,
    headDepartmentName: Option<string>, isActive: bool)

  datatype Course = Course(
    id: int, name: string, code: string, description: string, credits: int,
    departmentId: int, departmentName: Option<string>, isActive: bool)

  datatype ClassStudent = ClassStudent(studentId: string, studentName: string)

  /** A class with its legacy single course/teacher fields and its roster. */
  datatype Class = Class(
    id: int, name: string, isActive: bool, semester: int, startDate: string, endDate: string,
    courseId: Option<int>, courseName: Option<string>, teacherId: Option<string>,
    teacherName: Option<string>, studentCount: Option<int>, departmentId: Option<int>,
    departmentName: Option<string>, students: Option<seq<ClassStudent>>)

  datatype CreateClassRequest = CreateClassRequest(
    name: string, isActive: bool, semester: int, startDate: string, endDate: string,
    departmentId: int, courseId: Option<int>, teacherId: Option<string>, studentIds: seq<string>)

  /** The backend's single-subject view of a class (`updateClassAcademicSetup`). */
  datatype AcademicSetupRequest = AcademicSetupRequest(
    courseId: int, teacherId: Option<string>, studentIds: seq<string>)

  /** One offering of a class before names are resolved (`ClassSubjectSetupDraft`). */
  datatype Draft = Draft(courseId: JsNumber, teacherIds: seq<string>, studentIds: seq<string>)

  /** One (class, course) offering with resolved names (`ClassSubjectSetup`). */
  datatype ClassSubjectSetup = ClassSubjectSetup(
    classId: int, className: string, semester: int, departmentId: Option<int>,
    departmentName: Option<string>, courseId: int, courseName: string,
    teacherIds: seq<string>, teacherNames: seq<string>,
    studentIds: seq<string>, studentNames: seq<string>)

  datatype StudentAcademicOverview = StudentAcademicOverview(
    studentId: string, semester: Option<int>, classNames: seq<string>,
    courseNames: seq<string>, teacherNames: seq<string>)

  datatype Assignment = Assignment(
    id: int, title: string, description: string, dueDate: string, classId: int,
    className: Option<string>, courseName: Option<string>, teacherId: Option<string>,
    teacherName: Option<string>, createdAt: Option<string>)

  /** A grading row; `grade` is what the grade input holds (absent, a number or NaN). */
  datatype Submission = Submission(
    id: int, assignmentId: int, studentId: string, studentName: Option<string>,
    submittedAt: string, grade: Option<JsNumber>, remarks: Option<string>,
    isVisibleToStudent: Option<bool>)

  datatype GradeRequest = GradeRequest(
    studentId: string, grade: Option<int>, remarks: string, isVisibleToStudent: bool)

  /** `status` is the numeric value of the `AttendanceStatus` enum. */
  datatype Attendance = Attendance(
    id: int, classId: int, className: Option<string>, studentId: string,
    studentName: Option<string>, date: string, status: int)

  /** `AttendanceStatus`: Present = 0, Absent = 1, Late = 2. */
  const Present: int := 0
  const Absent: int := 1
  const Late: int := 2

  /** `NotificationType`, whose string values are Assignment, Grade, Class and General. */
  datatype NotificationType = AssignmentNotice | GradeNotice | ClassNotice | GeneralNotice

  datatype Notification = Notification(
    id: int, title: string, message: string, kind: NotificationType, isRead: bool,
    createdAt: string, userId: string)

  datatype RegisterRequest = RegisterRequest(
    userName: string, name: string, email: string, role: string, isActive: bool,
    password: string, confirmPassword: string)

  /** `(classItem.students ?? []).map((student) => student.studentId)` */
  function RosterIds(c: Class): (ids: seq<string>)
    ensures |ids| == |c.students.GetOr([])|
    ensures forall k :: 0 <= k < |ids| ==> ids[k] == c.students.GetOr([])[k].studentId
  {
    var roster := c.students.GetOr([]);
    seq(|roster|, k requires 0 <= k < |roster| => roster[k].studentId)
  }
}
