/** The attendance page (src/app/pages/attendance/attendance.component.ts): status labels and
  * colours, and which attendance list a user may load or mark. */
module AttendancePage {
  import opened Wrappers
  import opened Models

  /** `AttendanceStatus[status] || 'Unknown'`: the enum's reverse mapping for 0, 1 and 2. */
  function StatusLabel(status: int): (name: string)
    ensures status == Present <==> name == "Present"
    ensures status == Absent <==> name == "Absent"
    ensures status == Late <==> name == "Late"
    ensures status !in {Present, Absent, Late} <==> name == "Unknown"
  {
    if status == Present then "Present"
    else if status == Absent then "Absent"
    else if status == Late then "Late"
    else "Unknown"
  }

  /** `getStatusColor(status)` */
  function StatusColor(status: int): (color: string)
    ensures color == "primary" <==> status == Present
    ensures color == "accent" <==> status == Late
    ensures color == "warn" <==> status != Present && status != Late
  {
    if status == Present then "primary" else if status == Late then "accent" else "warn"
  }

  /** The colour follows the label: present is primary, late is accent, and absent or an
    * unknown status is warn. */
  lemma ColorFollowsLabel(status: int)
    ensures StatusColor(status) == "primary" <==> StatusLabel(status) == "Present"
    ensures StatusColor(status) == "accent" <==> StatusLabel(status) == "Late"
    ensures StatusColor(status) == "warn" <==> StatusLabel(status) in {"Absent", "Unknown"}
  {
  }

  /** The request a handler makes. */
  datatype AttendanceRequest = ClassAttendance(classId: int) | StudentAttendance

  /** What `openMarkAttendance` does. */
  datatype MarkOutcome = Refused(message: string) | OpenDialog(classItem: Class)

  const SelectClassMessage := "Select a class first."
  const ClassNotFoundMessage := "Class not found."

  /** `classes.find((item) => item.id === id)` */
  function FindClass(classes: seq<Class>, id: int): (r: Option<Class>)
    ensures r.None? <==> forall c :: c in classes ==> c.id != id
    ensures r.Some? ==> r.value in classes && r.value.id == id
    ensures r.Some? ==> exists k :: 0 <= k < |classes| && classes[k] == r.value && forall j :: 0 <= j < k ==> classes[j].id != id
  {
    if classes == [] then None
    else if classes[0].id == id then Some(classes[0])
    else
      var r := FindClass(classes[1..], id);
      if r.Some? then
        var k :| 0 <= k < |classes[1..]| && classes[1..][k] == r.value && forall j :: 0 <= j < k ==> classes[1..][j].id != id;
        assert classes[k + 1] == r.value && forall j :: 0 <= j < k + 1 ==> classes[j].id != id;
        r
      else
        assert forall c :: c in classes ==> c == classes[0] || c in classes[1..];
        r
  }

  class AttendanceScreen {
    var attendance: seq<Attendance>
    var classes: seq<Class>
    var selectedClassId: Option<int>

    constructor()
      ensures attendance == [] && classes == [] && selectedClassId.None?
    {
      attendance, classes, selectedClassId := [], [], None;
    }

    /** `loadAttendance`: a Teacher needs a selected class and gets that class's list; every
      * other user gets the student list. */
    method LoadAttendance(isTeacher: bool) returns (request: Option<AttendanceRequest>)
      ensures request.None? <==> isTeacher && selectedClassId.None?
      ensures request.Some? && isTeacher ==> request.value == ClassAttendance(selectedClassId.value)
      ensures request.Some? && !isTeacher ==> request.value == StudentAttendance
    {
      if isTeacher && selectedClassId.None? {
        return None;
      }
      request := Some(if isTeacher then ClassAttendance(selectedClassId.value) else StudentAttendance);
    }

    /** The success branch of `loadClasses`: a non-empty list selects its first class and loads
      * that class's attendance; an empty one keeps the selection and loads nothing. */
    method OnClassesLoaded(items: seq<Class>, isTeacher: bool) returns (request: Option<AttendanceRequest>)
      modifies this
      ensures classes == items && attendance == old(attendance)
      ensures items != [] ==> selectedClassId == Some(items[0].id)
      ensures items != [] && isTeacher ==> request == Some(ClassAttendance(items[0].id))
      ensures items != [] && !isTeacher ==> request == Some(StudentAttendance)
      ensures items == [] ==> selectedClassId == old(selectedClassId) && request.None?
    {
      classes := items;
      request := None;
      if |items| > 0 {
        selectedClassId := Some(items[0].id);
        request := LoadAttendance(isTeacher);
      }
    }

    /** `onClassChange(classId)` */
    method OnClassChange(classId: int, isTeacher: bool) returns (request: Option<AttendanceRequest>)
      modifies this
      ensures selectedClassId == Some(classId) && classes == old(classes) && attendance == old(attendance)
      ensures request == Some(if isTeacher then ClassAttendance(classId) else StudentAttendance)
    {
      selectedClassId := Some(classId);
      request := LoadAttendance(isTeacher);
    }

    /** The success branch of a load. */
    method OnAttendanceLoaded(rows: seq<Attendance>)
      modifies this
      ensures attendance == rows && classes == old(classes) && selectedClassId == old(selectedClassId)
    {
      attendance := rows;
    }

    /** `openMarkAttendance`: refused without a selection or when the selected class is not in
      * the list; otherwise the dialog opens on the first listed class with that id. */
    method OpenMarkAttendance() returns (outcome: MarkOutcome)
      ensures selectedClassId.None? ==> outcome == Refused(SelectClassMessage)
      ensures selectedClassId.Some? && FindClass(classes, selectedClassId.value).None? ==> outcome == Refused(ClassNotFoundMessage)
      ensures outcome.OpenDialog? <==> selectedClassId.Some? && exists c :: c in classes && c.id == selectedClassId.value
      ensures outcome.OpenDialog? ==> outcome.classItem in classes && outcome.classItem.id == selectedClassId.value
      ensures outcome.OpenDialog? ==> outcome.classItem == FindClass(classes, selectedClassId.value).value
      ensures outcome.OpenDialog? ==>
        exists k :: 0 <= k < |classes| && classes[k] == outcome.classItem &&
          forall j :: 0 <= j < k ==> classes[j].id != selectedClassId.value
    {
      if selectedClassId.None? {
        return Refused(SelectClassMessage);
      }
      var classItem := FindClass(classes, selectedClassId.value);
      if classItem.None? {
        return Refused(ClassNotFoundMessage);
      }
      outcome := OpenDialog(classItem.value);
    }
  }

  /** `ngOnInit`: Teachers and Admins load the class list first; anyone else loads their own
    * attendance directly. */
  datatype InitialLoad = LoadClasses | LoadOwnAttendance

  function InitialLoadFor(isTeacher: bool, isAdmin: bool): (load: InitialLoad)
    ensures load == LoadClasses <==> isTeacher || isAdmin
  {
    if isTeacher || isAdmin then LoadClasses else LoadOwnAttendance
  }
}
