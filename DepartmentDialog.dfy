/** The department create/edit dialog (src/app/pages/departments/department-dialog.component.ts):
  * the form's starting values, the list of teachers offered as head, and the submit guard. */
module DepartmentDialog {
  import opened Wrappers
  import opened Seqs
  import opened Models

  /** The form value sent to the backend. */
  datatype DepartmentRequest = DepartmentRequest(name: string, description: string, headDepartmentId: string)

  datatype DepartmentWrite = UpdateDepartment(id: int, request: DepartmentRequest) | CreateDepartment(request: DepartmentRequest)

  function IsActive(): User -> bool {
    (u: User) => u.isActive
  }

  /** `users.find((user) => user.id === id)` */
  function FirstWithId(users: seq<User>, id: string): (r: Option<User>)
    ensures r.None? <==> forall u :: u in users ==> u.id != id
    ensures r.Some? ==> exists k :: 0 <= k < |users| && users[k] == r.value && r.value.id == id &&
                                    forall j :: 0 <= j < k ==> users[j].id != id
  {
    if users == [] then None
    else if users[0].id == id then Some(users[0])
    else
      var r := FirstWithId(users[1..], id);
      assert forall u :: u in users ==> u == users[0] || u in users[1..];
      if r.Some? then
        var k :| 0 <= k < |users[1..]| && users[1..][k] == r.value && r.value.id == id &&
                 forall j :: 0 <= j < k ==> users[1..][j].id != id;
        assert users[k + 1] == r.value && forall j :: 0 <= j < k + 1 ==> users[j].id != id;
        r
      else r
  }

  /** The selected head is listed ahead of the active teachers when it exists among the loaded
    * users but no active teacher carries its id. */
  predicate PrependsHead(users: seq<User>, headId: string) {
    FirstWithId(users, headId).Some? && forall u :: u in users && u.isActive ==> u.id != headId
  }

  /** The teacher list built by the success branch of `loadTeachers`. */
  function TeacherList(users: seq<User>, headId: string): seq<User> {
    var active := Filter(users, IsActive());
    var head := FirstWithId(users, headId);
    if head.Some? && !(exists u :: u in active && u.id == head.value.id) then [head.value] + active
    else active
  }

  /** With no selected head among the users, or one an active teacher already stands for, the
    * list is the active teachers in input order. Otherwise the head, which is then inactive,
    * comes first and appears exactly once. Every entry after the first is active, and every
    * active teacher is listed. */
  lemma TeacherListSpec(users: seq<User>, headId: string)
    ensures !PrependsHead(users, headId) ==> TeacherList(users, headId) == Filter(users, IsActive())
    ensures PrependsHead(users, headId) ==>
      && TeacherList(users, headId) == [FirstWithId(users, headId).value] + Filter(users, IsActive())
      && TeacherList(users, headId)[0].id == headId && !TeacherList(users, headId)[0].isActive
      && TeacherList(users, headId)[0] !in TeacherList(users, headId)[1..]
    ensures forall k :: 1 <= k < |TeacherList(users, headId)| ==> TeacherList(users, headId)[k].isActive
    ensures forall u :: u in users && u.isActive ==> u in TeacherList(users, headId)
    ensures forall u :: u in TeacherList(users, headId) ==> u in users
  {
    var active := Filter(users, IsActive());
    FilterSpec(users, IsActive());
    var r := TeacherList(users, headId);
    assert forall k :: 0 <= k < |active| ==> active[k] in active;
    if PrependsHead(users, headId) {
      assert r == [FirstWithId(users, headId).value] + active;
      assert r[1..] == active;
    } else {
      assert r == active;
    }
  }

  class DepartmentForm {
    const data: Option<Department>
    var name: string
    var description: string
    var headDepartmentId: string
    var teachers: seq<User>
    var isLoading: bool

    /** The dialog opens on a department (editing) or on nothing (creating); `loadTeachers`
      * starts. */
    constructor(department: Option<Department>)
      ensures data == department && teachers == [] && !isLoading
      ensures department.Some? ==> name == department.value.name && description == department.value.description &&
                                   headDepartmentId == department.value.headDepartmentId
      ensures department.None? ==> name == "" && description == "" && headDepartmentId == ""
    {
      data := department;
      name := if department.Some? then department.value.name else "";
      description := if department.Some? then department.value.description else "";
      headDepartmentId := if department.Some? then department.value.headDepartmentId else "";
      teachers := [];
      isLoading := false;
    }

    /** The success branch of `loadTeachers` for the users with the Teacher role. */
    method OnTeachersLoaded(users: seq<User>)
      modifies this
      ensures teachers == TeacherList(users, headDepartmentId)
      ensures forall k :: 1 <= k < |teachers| ==> teachers[k].isActive
      ensures !PrependsHead(users, headDepartmentId) ==> teachers == Filter(users, IsActive())
      ensures PrependsHead(users, headDepartmentId) ==> teachers[0].id == headDepartmentId && teachers[0] !in teachers[1..]
      ensures name == old(name) && description == old(description) && headDepartmentId == old(headDepartmentId)
      ensures isLoading == old(isLoading)
    {
      var activeTeachers := Filter(users, IsActive());
      var selectedHead := FirstWithId(users, headDepartmentId);
      if selectedHead.Some? && !(exists u :: u in activeTeachers && u.id == selectedHead.value.id) {
        teachers := [selectedHead.value] + activeTeachers;
      } else {
        teachers := activeTeachers;
      }
      TeacherListSpec(users, headDepartmentId);
    }

    /** `onSubmit`: nothing without a name and a description (`Validators.required`); otherwise
      * the form value goes to the update call when editing and to the create call otherwise. */
    method Submit() returns (write: Option<DepartmentWrite>)
      modifies this
      ensures write.Some? <==> name != "" && description != ""
      ensures write.Some? ==> isLoading && write.value.request == DepartmentRequest(name, description, headDepartmentId)
      ensures write.Some? ==> (write.value.UpdateDepartment? <==> data.Some?)
      ensures write.Some? && data.Some? ==> write.value.id == data.value.id
      ensures write.None? ==> isLoading == old(isLoading)
      ensures name == old(name) && description == old(description) && headDepartmentId == old(headDepartmentId)
      ensures teachers == old(teachers)
    {
      if name == "" || description == "" {
        return None;
      }
      isLoading := true;
      var request := DepartmentRequest(name, description, headDepartmentId);
      write := Some(if data.Some? then UpdateDepartment(data.value.id, request) else CreateDepartment(request));
    }

    /** The error branch of the write. */
    method OnSubmitFailed()
      modifies this
      ensures !isLoading && teachers == old(teachers)
      ensures name == old(name) && description == old(description) && headDepartmentId == old(headDepartmentId)
    {
      isLoading := false;
    }
  }
}
