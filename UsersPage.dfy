/** The users screen (src/app/pages/users/users.component.ts): teachers and students split by
  * role, a search filter over four fields, and a per-student academic overview collected from
  * the class-subject setups, with the class roster as a fallback for classes that have none. */
module UsersPage {
  import opened Wrappers
  import opened Seqs
  import opened Text
  import opened Models
  import SetupStore

  // ---------------------------------------------------------------------------------------
  // pushUnique

  /** `value` as `pushUnique` treats it: undefined and the empty string are both skipped. */
  function TextOf(value: Option<string>): string {
    value.GetOr("")
  }

  /** `pushUnique(target, value)`: append a non-empty value that is not there yet. */
  function PushUnique(target: seq<string>, value: Option<string>): (r: seq<string>)
    ensures TextOf(value) == "" ==> r == target
    ensures TextOf(value) != "" ==> r == SetAdd(target, TextOf(value))
  {
    if value.None? || value.value == "" then target
    else if value.value in target then target
    else target + [value.value]
  }

  /** `pushUnique` applied to each value in turn. */
  function PushAll(target: seq<string>, values: seq<Option<string>>): seq<string>
  {
    if values == [] then target
    else PushUnique(PushAll(target, values[..|values| - 1]), values[|values| - 1])
  }

  function Texts(values: seq<Option<string>>): (r: seq<string>)
    ensures |r| == |values|
    ensures forall k :: 0 <= k < |values| ==> r[k] == TextOf(values[k])
  {
    seq(|values|, k requires 0 <= k < |values| => TextOf(values[k]))
  }

  /** Pushing values one by one into a list built the same way from earlier values gives the
    * non-empty values of the whole history, each once, in the order first seen. */
  lemma {:induction false} PushAllIsCleanIds(earlier: seq<string>, values: seq<Option<string>>)
    ensures PushAll(SetupStore.CleanIds(earlier), values) == SetupStore.CleanIds(earlier + Texts(values))
  {
    if values == [] {
      assert earlier + Texts(values) == earlier;
    } else {
      var init := values[..|values| - 1];
      var v := values[|values| - 1];
      PushAllIsCleanIds(earlier, init);
      var before := earlier + Texts(init);
      assert earlier + Texts(values) == before + [TextOf(v)];
      FilterAppend(before, [TextOf(v)], SetupStore.Truthy);
      if TextOf(v) == "" {
        assert Filter([TextOf(v)], SetupStore.Truthy) == [];
        assert Filter(before, SetupStore.Truthy) + [] == Filter(before, SetupStore.Truthy);
      } else {
        assert Filter([TextOf(v)], SetupStore.Truthy) == [TextOf(v)];
        DistinctSnoc(Filter(before, SetupStore.Truthy), TextOf(v));
      }
    }
  }

  /** Pushing into an empty list: the non-empty values, each once, in first-seen order. */
  lemma PushAllFromEmpty(values: seq<Option<string>>)
    ensures PushAll([], values) == SetupStore.CleanIds(Texts(values))
    ensures SetupStore.IsClean(PushAll([], values))
    ensures forall x :: x in PushAll([], values) <==> x in Texts(values) && x != ""
  {
    assert SetupStore.CleanIds([]) == [];
    PushAllIsCleanIds([], values);
    assert [] + Texts(values) == Texts(values);
    SetupStore.CleanIdsSpec(Texts(values));
  }

  // ---------------------------------------------------------------------------------------
  // buildStudentAcademicMap, specified

  /** What one student receives from one setup row or one fallback class: its semester, its
    * (trimmed) class and course names and its teacher names. */
  datatype Contribution = Contribution(
    studentId: string, semester: int, className: Option<string>, courseName: Option<string>,
    teacherNames: seq<Option<string>>)

  /** The contributions of one setup row, one per listed student, in list order. Setup teacher
    * names go in untrimmed, as the source pushes them. */
  function SetupContributions(setup: ClassSubjectSetup): (cs: seq<Contribution>)
    ensures |cs| == |setup.studentIds|
    ensures forall j :: 0 <= j < |cs| ==> cs[j].studentId == setup.studentIds[j]
  {
    var teachers := Somes(setup.teacherNames);
    seq(|setup.studentIds|, j requires 0 <= j < |setup.studentIds| =>
      Contribution(setup.studentIds[j], setup.semester, Some(Trim(setup.className)),
                   Some(Trim(setup.courseName)), teachers))
  }

  function Somes(names: seq<string>): (r: seq<Option<string>>)
    ensures |r| == |names|
    ensures forall t :: 0 <= t < |names| ==> r[t] == Some(names[t])
  {
    seq(|names|, t requires 0 <= t < |names| => Some(names[t]))
  }

  function TrimOpt(value: Option<string>): Option<string> {
    if value.Some? then Some(Trim(value.value)) else None
  }

  /** The contributions of a class without setup rows, one per roster student. */
  function RosterContributions(c: Class): (cs: seq<Contribution>)
    ensures |cs| == |c.students.GetOr([])|
    ensures forall j :: 0 <= j < |cs| ==> cs[j].studentId == c.students.GetOr([])[j].studentId
  {
    var roster := c.students.GetOr([]);
    seq(|roster|, j requires 0 <= j < |roster| =>
      Contribution(roster[j].studentId, c.semester, Some(Trim(c.name)), TrimOpt(c.courseName),
                   [TrimOpt(c.teacherName)]))
  }

  /** The contributions of all setup rows, in row order. */
  function AllSetupContributions(setups: seq<ClassSubjectSetup>): seq<Contribution> {
    if setups == [] then []
    else AllSetupContributions(setups[..|setups| - 1]) + SetupContributions(setups[|setups| - 1])
  }

  /** `setups.some((setup) => setup.classId === classItem.id)` */
  predicate HasSetup(setups: seq<ClassSubjectSetup>, classId: int) {
    exists k :: 0 <= k < |setups| && setups[k].classId == classId
  }

  /** The roster contributions of the classes that no setup row mentions, in class order. */
  function FallbackContributions(classes: seq<Class>, setups: seq<ClassSubjectSetup>): seq<Contribution> {
    if classes == [] then []
    else
      var c := classes[|classes| - 1];
      FallbackContributions(classes[..|classes| - 1], setups) +
        (if HasSetup(setups, c.id) then [] else RosterContributions(c))
  }

  /** Everything the overview is built from: the setup rows, then the fallback classes. */
  function Contributions(classes: seq<Class>, setups: seq<ClassSubjectSetup>): seq<Contribution> {
    AllSetupContributions(setups) + FallbackContributions(classes, setups)
  }

  function Fresh(studentId: string): StudentAcademicOverview {
    StudentAcademicOverview(studentId, None, [], [], [])
  }

  /** `mapByStudent.get(studentId) ?? { studentId, semester: null, ... }` */
  function Entry(m: map<string, StudentAcademicOverview>, studentId: string): StudentAcademicOverview {
    if studentId in m then m[studentId] else Fresh(studentId)
  }

  /** One student's overview after one contribution: the larger semester, and each name pushed
    * with `pushUnique`. */
  function Merged(current: StudentAcademicOverview, c: Contribution): StudentAcademicOverview {
    var semester := if current.semester.None? || c.semester > current.semester.value then c.semester
                    else current.semester.value;
    current.(semester := Some(semester),
             classNames := PushUnique(current.classNames, c.className),
             courseNames := PushUnique(current.courseNames, c.courseName),
             teacherNames := PushAll(current.teacherNames, c.teacherNames))
  }

  /** The map after handling the contributions in order. */
  function ApplyAll(cs: seq<Contribution>): map<string, StudentAcademicOverview> {
    if cs == [] then map[]
    else
      var m := ApplyAll(cs[..|cs| - 1]);
      var c := cs[|cs| - 1];
      m[c.studentId := Merged(Entry(m, c.studentId), c)]
  }

  /** The overview map `buildStudentAcademicMap` returns. */
  function AcademicMap(classes: seq<Class>, setups: seq<ClassSubjectSetup>): map<string, StudentAcademicOverview> {
    ApplyAll(Contributions(classes, setups))
  }

  // ---------------------------------------------------------------------------------------
  // Reference definitions of each overview field

  function ClassField(c: Contribution): seq<Option<string>> { [c.className] }
  function CourseField(c: Contribution): seq<Option<string>> { [c.courseName] }
  function TeacherField(c: Contribution): seq<Option<string>> { c.teacherNames }

  /** The values of one field over the contributions that concern `studentId`, in order. */
  function ValuesFor(cs: seq<Contribution>, studentId: string, field: Contribution -> seq<Option<string>>): seq<Option<string>> {
    if cs == [] then []
    else
      var c := cs[|cs| - 1];
      ValuesFor(cs[..|cs| - 1], studentId, field) + (if c.studentId == studentId then field(c) else [])
  }

  /** The largest semester over the contributions that concern `studentId`, or null. */
  function MaxSemester(cs: seq<Contribution>, studentId: string): Option<int> {
    if cs == [] then None
    else
      var before := MaxSemester(cs[..|cs| - 1], studentId);
      var c := cs[|cs| - 1];
      if c.studentId != studentId then before
      else if before.None? || c.semester > before.value then Some(c.semester)
      else before
  }

  /** `MaxSemester` is null exactly when nothing concerns the student, and is otherwise a
    * semester of one of the student's contributions that none of them exceeds. */
  lemma {:induction false} MaxSemesterSpec(cs: seq<Contribution>, studentId: string)
    ensures MaxSemester(cs, studentId).None? <==> forall i :: 0 <= i < |cs| ==> cs[i].studentId != studentId
    ensures MaxSemester(cs, studentId).Some? ==>
      (forall i :: 0 <= i < |cs| && cs[i].studentId == studentId ==> cs[i].semester <= MaxSemester(cs, studentId).value)
      && exists i :: 0 <= i < |cs| && cs[i].studentId == studentId && cs[i].semester == MaxSemester(cs, studentId).value
  {
    if cs != [] {
      var n := |cs| - 1;
      var init := cs[..n];
      MaxSemesterSpec(init, studentId);
      assert forall i :: 0 <= i < n ==> cs[i] == init[i];
      var before := MaxSemester(init, studentId);
      if cs[n].studentId == studentId && (before.None? || cs[n].semester > before.value) {
        assert cs[n].semester == MaxSemester(cs, studentId).value;
      } else if before.Some? {
        var i :| 0 <= i < n && init[i].studentId == studentId && init[i].semester == before.value;
        assert cs[i].semester == MaxSemester(cs, studentId).value;
      }
    }
  }

  /** The entry of `studentId` changes only with a contribution that concerns them. */
  lemma EntryStep(cs: seq<Contribution>, studentId: string)
    requires cs != []
    ensures var init := cs[..|cs| - 1];
      var c := cs[|cs| - 1];
      Entry(ApplyAll(cs), studentId) ==
        (if c.studentId == studentId then Merged(Entry(ApplyAll(init), studentId), c) else Entry(ApplyAll(init), studentId))
  {
  }

  lemma PushAllSingle(target: seq<string>, value: Option<string>)
    ensures PushAll(target, [value]) == PushUnique(target, value)
  {
    assert [value][..0] == [];
  }

  /** The values of a field after one more contribution. */
  lemma ValuesForStep(cs: seq<Contribution>, studentId: string, field: Contribution -> seq<Option<string>>)
    requires cs != []
    ensures var init := cs[..|cs| - 1];
      var c := cs[|cs| - 1];
      Texts(ValuesFor(cs, studentId, field)) ==
        Texts(ValuesFor(init, studentId, field)) + (if c.studentId == studentId then Texts(field(c)) else [])
  {
  }

  /** Each entry carries its own student id and the largest semester seen for that student. */
  lemma {:induction false} ApplyAllSemester(cs: seq<Contribution>, studentId: string)
    ensures Entry(ApplyAll(cs), studentId).studentId == studentId
    ensures Entry(ApplyAll(cs), studentId).semester == MaxSemester(cs, studentId)
  {
    if cs != [] {
      ApplyAllSemester(cs[..|cs| - 1], studentId);
      EntryStep(cs, studentId);
    }
  }

  /** An entry's class names are the non-empty class names of the student's contributions, each
    * once, in first-seen order. */
  lemma {:induction false} ApplyAllClassNames(cs: seq<Contribution>, studentId: string)
    ensures Entry(ApplyAll(cs), studentId).classNames == SetupStore.CleanIds(Texts(ValuesFor(cs, studentId, ClassField)))
  {
    if cs == [] {
      assert SetupStore.CleanIds([]) == [];
    } else {
      var init := cs[..|cs| - 1];
      var c := cs[|cs| - 1];
      ApplyAllClassNames(init, studentId);
      EntryStep(cs, studentId);
      ValuesForStep(cs, studentId, ClassField);
      if c.studentId == studentId {
        PushAllIsCleanIds(Texts(ValuesFor(init, studentId, ClassField)), [c.className]);
        PushAllSingle(Entry(ApplyAll(init), studentId).classNames, c.className);
      } else {
        assert Texts(ValuesFor(init, studentId, ClassField)) + [] == Texts(ValuesFor(init, studentId, ClassField));
      }
    }
  }

  /** An entry's course names, likewise. */
  lemma {:induction false} ApplyAllCourseNames(cs: seq<Contribution>, studentId: string)
    ensures Entry(ApplyAll(cs), studentId).courseNames == SetupStore.CleanIds(Texts(ValuesFor(cs, studentId, CourseField)))
  {
    if cs == [] {
      assert SetupStore.CleanIds([]) == [];
    } else {
      var init := cs[..|cs| - 1];
      var c := cs[|cs| - 1];
      ApplyAllCourseNames(init, studentId);
      EntryStep(cs, studentId);
      ValuesForStep(cs, studentId, CourseField);
      if c.studentId == studentId {
        PushAllIsCleanIds(Texts(ValuesFor(init, studentId, CourseField)), [c.courseName]);
        PushAllSingle(Entry(ApplyAll(init), studentId).courseNames, c.courseName);
      } else {
        assert Texts(ValuesFor(init, studentId, CourseField)) + [] == Texts(ValuesFor(init, studentId, CourseField));
      }
    }
  }

  /** An entry's teacher names, likewise, over every teacher name of every contribution. */
  lemma {:induction false} ApplyAllTeacherNames(cs: seq<Contribution>, studentId: string)
    ensures Entry(ApplyAll(cs), studentId).teacherNames == SetupStore.CleanIds(Texts(ValuesFor(cs, studentId, TeacherField)))
  {
    if cs == [] {
      assert SetupStore.CleanIds([]) == [];
    } else {
      var init := cs[..|cs| - 1];
      var c := cs[|cs| - 1];
      ApplyAllTeacherNames(init, studentId);
      EntryStep(cs, studentId);
      ValuesForStep(cs, studentId, TeacherField);
      if c.studentId == studentId {
        PushAllIsCleanIds(Texts(ValuesFor(init, studentId, TeacherField)), c.teacherNames);
      } else {
        assert Texts(ValuesFor(init, studentId, TeacherField)) + [] == Texts(ValuesFor(init, studentId, TeacherField));
      }
    }
  }

  /** A student has an entry exactly when some contribution concerns them. */
  lemma {:induction false} ApplyAllKeys(cs: seq<Contribution>)
    ensures forall k :: k in ApplyAll(cs) <==> exists i :: 0 <= i < |cs| && cs[i].studentId == k
  {
    if cs != [] {
      var n := |cs| - 1;
      ApplyAllKeys(cs[..n]);
      assert forall i :: 0 <= i < n ==> cs[i] == cs[..n][i];
    }
  }

  // ---------------------------------------------------------------------------------------
  // What the overview is made of

  /** Some contribution concerns `studentId`. */
  predicate Concerns(cs: seq<Contribution>, studentId: string) {
    exists i :: 0 <= i < |cs| && cs[i].studentId == studentId
  }

  lemma ConcernsAppend(a: seq<Contribution>, b: seq<Contribution>, studentId: string)
    ensures Concerns(a + b, studentId) <==> Concerns(a, studentId) || Concerns(b, studentId)
  {
    if Concerns(a + b, studentId) {
      var i :| 0 <= i < |a + b| && (a + b)[i].studentId == studentId;
      if i >= |a| { assert b[i - |a|].studentId == studentId; }
    }
    if Concerns(a, studentId) {
      var i :| 0 <= i < |a| && a[i].studentId == studentId;
      assert (a + b)[i].studentId == studentId;
    }
    if Concerns(b, studentId) {
      var i :| 0 <= i < |b| && b[i].studentId == studentId;
      assert (a + b)[|a| + i].studentId == studentId;
    }
  }

  /** A field value belongs to a student's list of values exactly when one of that student's
    * contributions carries it. */
  lemma {:induction false} ValuesForMembers(cs: seq<Contribution>, studentId: string, field: Contribution -> seq<Option<string>>)
    ensures forall v :: v in ValuesFor(cs, studentId, field) <==>
      exists i :: 0 <= i < |cs| && cs[i].studentId == studentId && v in field(cs[i])
  {
    if cs != [] {
      var n := |cs| - 1;
      ValuesForMembers(cs[..n], studentId, field);
      assert forall i :: 0 <= i < n ==> cs[..n][i] == cs[i];
    }
  }

  /** The setup rows account for exactly the students they list. */
  lemma {:induction false} SetupContributionsConcern(setups: seq<ClassSubjectSetup>, studentId: string)
    ensures Concerns(AllSetupContributions(setups), studentId) <==>
      exists s :: 0 <= s < |setups| && studentId in setups[s].studentIds
  {
    if setups != [] {
      var n := |setups| - 1;
      SetupContributionsConcern(setups[..n], studentId);
      ConcernsAppend(AllSetupContributions(setups[..n]), SetupContributions(setups[n]), studentId);
      assert forall s :: 0 <= s < n ==> setups[..n][s] == setups[s];
      var own := SetupContributions(setups[n]);
      if studentId in setups[n].studentIds {
        var j :| 0 <= j < |setups[n].studentIds| && setups[n].studentIds[j] == studentId;
        assert own[j].studentId == studentId;
      }
    }
  }

  /** The fallback accounts for exactly the roster students of the classes no setup row
    * mentions. */
  lemma {:induction false} FallbackContributionsConcern(classes: seq<Class>, setups: seq<ClassSubjectSetup>, studentId: string)
    ensures Concerns(FallbackContributions(classes, setups), studentId) <==>
      exists c :: 0 <= c < |classes| && !HasSetup(setups, classes[c].id) && studentId in RosterIds(classes[c])
  {
    if classes != [] {
      var n := |classes| - 1;
      var last := classes[n];
      var own := if HasSetup(setups, last.id) then [] else RosterContributions(last);
      FallbackContributionsConcern(classes[..n], setups, studentId);
      ConcernsAppend(FallbackContributions(classes[..n], setups), own, studentId);
      assert forall c :: 0 <= c < n ==> classes[..n][c] == classes[c];
      if !HasSetup(setups, last.id) && studentId in RosterIds(last) {
        var j :| 0 <= j < |RosterIds(last)| && RosterIds(last)[j] == studentId;
        assert own[j].studentId == studentId;
      }
      if Concerns(own, studentId) {
        var j :| 0 <= j < |own| && own[j].studentId == studentId;
        assert RosterIds(last)[j] == studentId;
      }
    }
  }

  /** Every student listed by a setup row has an overview entry, and so does every roster
    * student of a class without setup rows; nobody else has one. A roster is consulted only
    * for a class that no setup row mentions. */
  lemma AcademicMapKeys(classes: seq<Class>, setups: seq<ClassSubjectSetup>, studentId: string)
    ensures studentId in AcademicMap(classes, setups) <==>
      (exists s :: 0 <= s < |setups| && studentId in setups[s].studentIds) ||
      (exists c :: 0 <= c < |classes| && !HasSetup(setups, classes[c].id) && studentId in RosterIds(classes[c]))
  {
    var cs := Contributions(classes, setups);
    ApplyAllKeys(cs);
    ConcernsAppend(AllSetupContributions(setups), FallbackContributions(classes, setups), studentId);
    SetupContributionsConcern(setups, studentId);
    FallbackContributionsConcern(classes, setups, studentId);
  }

  /** Class and course names arrive trimmed, from the setup rows and the fallback classes. */
  predicate NamesTrimmed(c: Contribution) {
    Trim(TextOf(c.className)) == TextOf(c.className) && Trim(TextOf(c.courseName)) == TextOf(c.courseName)
  }

  lemma {:induction false} ContributionsTrimmed(classes: seq<Class>, setups: seq<ClassSubjectSetup>)
    ensures forall i :: 0 <= i < |Contributions(classes, setups)| ==> NamesTrimmed(Contributions(classes, setups)[i])
  {
    forall s: string ensures Trim(Trim(s)) == Trim(s) {
      TrimIdempotent(s);
    }
    SetupsTrimmed(setups);
    FallbackTrimmed(classes, setups);
  }

  lemma {:induction false} SetupsTrimmed(setups: seq<ClassSubjectSetup>)
    requires forall s: string :: Trim(Trim(s)) == Trim(s)
    ensures forall i :: 0 <= i < |AllSetupContributions(setups)| ==> NamesTrimmed(AllSetupContributions(setups)[i])
  {
    if setups != [] {
      SetupsTrimmed(setups[..|setups| - 1]);
    }
  }

  lemma {:induction false} FallbackTrimmed(classes: seq<Class>, setups: seq<ClassSubjectSetup>)
    requires forall s: string :: Trim(Trim(s)) == Trim(s)
    ensures forall i :: 0 <= i < |FallbackContributions(classes, setups)| ==> NamesTrimmed(FallbackContributions(classes, setups)[i])
  {
    if classes != [] {
      FallbackTrimmed(classes[..|classes| - 1], setups);
    }
  }

  /** A name is in a student's cleaned list of a field exactly when it is non-empty and one of
    * the student's contributions carries it in that field. */
  lemma CleanValuesMembers(cs: seq<Contribution>, studentId: string, field: Contribution -> seq<Option<string>>)
    ensures var names := SetupStore.CleanIds(Texts(ValuesFor(cs, studentId, field)));
      && SetupStore.IsClean(names)
      && forall x :: x in names <==> x != "" && (exists i, t :: 0 <= i < |cs| && cs[i].studentId == studentId &&
                                                   0 <= t < |field(cs[i])| && TextOf(field(cs[i])[t]) == x)
  {
    var values := ValuesFor(cs, studentId, field);
    var texts := Texts(values);
    SetupStore.CleanIdsSpec(texts);
    ValuesForMembers(cs, studentId, field);
    forall x | x in texts
      ensures exists i, t :: 0 <= i < |cs| && cs[i].studentId == studentId && 0 <= t < |field(cs[i])| && TextOf(field(cs[i])[t]) == x
    {
      var k :| 0 <= k < |texts| && texts[k] == x;
      assert values[k] in values;
      var i :| 0 <= i < |cs| && cs[i].studentId == studentId && values[k] in field(cs[i]);
      var t :| 0 <= t < |field(cs[i])| && field(cs[i])[t] == values[k];
    }
    forall x | exists i, t :: 0 <= i < |cs| && cs[i].studentId == studentId && 0 <= t < |field(cs[i])| && TextOf(field(cs[i])[t]) == x
      ensures x in texts
    {
      var i, t :| 0 <= i < |cs| && cs[i].studentId == studentId && 0 <= t < |field(cs[i])| && TextOf(field(cs[i])[t]) == x;
      assert field(cs[i])[t] in values;
      var k :| 0 <= k < |values| && values[k] == field(cs[i])[t];
      assert texts[k] == x;
    }
  }

  /** A student's semester is the largest semester of their setup rows and fallback classes. */
  lemma AcademicMapSemester(classes: seq<Class>, setups: seq<ClassSubjectSetup>, studentId: string)
    requires studentId in AcademicMap(classes, setups)
    ensures var e := AcademicMap(classes, setups)[studentId];
      var cs := Contributions(classes, setups);
      && e.studentId == studentId
      && e.semester.Some?
      && (forall i :: 0 <= i < |cs| && cs[i].studentId == studentId ==> cs[i].semester <= e.semester.value)
      && (exists i :: 0 <= i < |cs| && cs[i].studentId == studentId && cs[i].semester == e.semester.value)
  {
    var cs := Contributions(classes, setups);
    assert Entry(ApplyAll(cs), studentId) == AcademicMap(classes, setups)[studentId];
    ApplyAllKeys(cs);
    ApplyAllSemester(cs, studentId);
    MaxSemesterSpec(cs, studentId);
  }

  /** A student's class names: duplicate-free, none empty, all trimmed, and exactly the class
    * names of their setup rows and fallback classes. */
  lemma AcademicMapClassNames(classes: seq<Class>, setups: seq<ClassSubjectSetup>, studentId: string)
    ensures var e := Entry(AcademicMap(classes, setups), studentId);
      var cs := Contributions(classes, setups);
      && SetupStore.IsClean(e.classNames)
      && (forall x :: x in e.classNames <==> x != "" && exists i :: 0 <= i < |cs| && cs[i].studentId == studentId && TextOf(cs[i].className) == x)
      && forall x :: x in e.classNames ==> Trim(x) == x
  {
    var cs := Contributions(classes, setups);
    ApplyAllClassNames(cs, studentId);
    CleanValuesMembers(cs, studentId, ClassField);
    ContributionsTrimmed(classes, setups);
    var e := Entry(AcademicMap(classes, setups), studentId);
    forall x ensures x in e.classNames <==> x != "" && exists i :: 0 <= i < |cs| && cs[i].studentId == studentId && TextOf(cs[i].className) == x {
      if x in e.classNames {
        var i, t :| 0 <= i < |cs| && cs[i].studentId == studentId && 0 <= t < |ClassField(cs[i])| && TextOf(ClassField(cs[i])[t]) == x;
        assert NamesTrimmed(cs[i]);
      }
      if x != "" && exists i :: 0 <= i < |cs| && cs[i].studentId == studentId && TextOf(cs[i].className) == x {
        var i :| 0 <= i < |cs| && cs[i].studentId == studentId && TextOf(cs[i].className) == x;
        assert TextOf(ClassField(cs[i])[0]) == x;
      }
    }
    forall x | x in e.classNames ensures Trim(x) == x {
      var i :| 0 <= i < |cs| && cs[i].studentId == studentId && TextOf(cs[i].className) == x;
      assert NamesTrimmed(cs[i]);
    }
  }

  /** A student's course names: duplicate-free, none empty, all trimmed, and exactly the course
    * names of their setup rows and fallback classes. */
  lemma AcademicMapCourseNames(classes: seq<Class>, setups: seq<ClassSubjectSetup>, studentId: string)
    ensures var e := Entry(AcademicMap(classes, setups), studentId);
      var cs := Contributions(classes, setups);
      && SetupStore.IsClean(e.courseNames)
      && (forall x :: x in e.courseNames <==> x != "" && exists i :: 0 <= i < |cs| && cs[i].studentId == studentId && TextOf(cs[i].courseName) == x)
      && forall x :: x in e.courseNames ==> Trim(x) == x
  {
    var cs := Contributions(classes, setups);
    ApplyAllCourseNames(cs, studentId);
    CleanValuesMembers(cs, studentId, CourseField);
    ContributionsTrimmed(classes, setups);
    var e := Entry(AcademicMap(classes, setups), studentId);
    forall x ensures x in e.courseNames <==> x != "" && exists i :: 0 <= i < |cs| && cs[i].studentId == studentId && TextOf(cs[i].courseName) == x {
      if x in e.courseNames {
        var i, t :| 0 <= i < |cs| && cs[i].studentId == studentId && 0 <= t < |CourseField(cs[i])| && TextOf(CourseField(cs[i])[t]) == x;
        assert NamesTrimmed(cs[i]);
      }
      if x != "" && exists i :: 0 <= i < |cs| && cs[i].studentId == studentId && TextOf(cs[i].courseName) == x {
        var i :| 0 <= i < |cs| && cs[i].studentId == studentId && TextOf(cs[i].courseName) == x;
        assert TextOf(CourseField(cs[i])[0]) == x;
      }
    }
    forall x | x in e.courseNames ensures Trim(x) == x {
      var i :| 0 <= i < |cs| && cs[i].studentId == studentId && TextOf(cs[i].courseName) == x;
      assert NamesTrimmed(cs[i]);
    }
  }

  /** A student's teacher names: duplicate-free, none empty, and exactly the teacher names of
    * their setup rows and fallback classes. */
  lemma AcademicMapTeacherNames(classes: seq<Class>, setups: seq<ClassSubjectSetup>, studentId: string)
    ensures var e := Entry(AcademicMap(classes, setups), studentId);
      var cs := Contributions(classes, setups);
      && SetupStore.IsClean(e.teacherNames)
      && forall x :: x in e.teacherNames <==> (x != "" && exists i, t :: 0 <= i < |cs| && cs[i].studentId == studentId && 0 <= t < |cs[i].teacherNames| && TextOf(cs[i].teacherNames[t]) == x)
  {
    var cs := Contributions(classes, setups);
    ApplyAllTeacherNames(cs, studentId);
    CleanValuesMembers(cs, studentId, TeacherField);
    assert forall i :: 0 <= i < |cs| ==> TeacherField(cs[i]) == cs[i].teacherNames;
  }

  // ---------------------------------------------------------------------------------------
  // buildStudentAcademicMap, the loops

  lemma ApplyAllSnoc(cs: seq<Contribution>, c: Contribution)
    ensures ApplyAll(cs + [c]) == ApplyAll(cs)[c.studentId := Merged(Entry(ApplyAll(cs), c.studentId), c)]
  {
    assert (cs + [c])[..|cs|] == cs;
  }

  /** One more contribution of a row or roster already partly handled. */
  lemma ApplyAllStep(done: seq<Contribution>, own: seq<Contribution>, j: int)
    requires 0 <= j < |own|
    ensures var m := ApplyAll(done + own[..j]);
      ApplyAll(done + own[..j + 1]) == m[own[j].studentId := Merged(Entry(m, own[j].studentId), own[j])]
  {
    assert done + own[..j + 1] == done + own[..j] + [own[j]];
    ApplyAllSnoc(done + own[..j], own[j]);
  }

  /** `for (const teacherName of names) this.pushUnique(target, teacherName)` */
  method PushEach(target: seq<string>, names: seq<string>) returns (r: seq<string>)
    ensures r == PushAll(target, Somes(names))
  {
    r := target;
    for t := 0 to |names|
      invariant r == PushAll(target, Somes(names)[..t])
    {
      assert Somes(names)[..t + 1][..t] == Somes(names)[..t];
      r := PushUnique(r, Some(names[t]));
    }
    assert Somes(names)[..|names|] == Somes(names);
  }

  /** The inner loop over one setup row's students: each one's overview merged with the row. */
  method AddSetupStudents(m: map<string, StudentAcademicOverview>, setup: ClassSubjectSetup, ghost done: seq<Contribution>)
    returns (mapByStudent: map<string, StudentAcademicOverview>)
    requires m == ApplyAll(done)
    ensures mapByStudent == ApplyAll(done + SetupContributions(setup))
  {
    mapByStudent := m;
    var semesterValue := setup.semester;
    var className := Some(Trim(setup.className));
    var courseName := Some(Trim(setup.courseName));
    var studentIds := setup.studentIds;
    ghost var own := SetupContributions(setup);
    assert done + own[..0] == done;
    for j := 0 to |studentIds|
      invariant mapByStudent == ApplyAll(done + own[..j])
    {
      var studentId := studentIds[j];
      var current := Entry(mapByStudent, studentId);
      ghost var before := current;
      if current.semester.None? || semesterValue > current.semester.value {
        current := current.(semester := Some(semesterValue));
      }
      current := current.(classNames := PushUnique(current.classNames, className));
      current := current.(courseNames := PushUnique(current.courseNames, courseName));
      var teacherNames := PushEach(current.teacherNames, setup.teacherNames);
      current := current.(teacherNames := teacherNames);
      assert own[j] == Contribution(studentId, semesterValue, className, courseName, Somes(setup.teacherNames));
      assert current == Merged(before, own[j]);
      ApplyAllStep(done, own, j);
      mapByStudent := mapByStudent[studentId := current];
    }
    assert own[..|studentIds|] == own;
  }

  /** The inner loop over a fallback class's roster: each student's overview merged with the
    * class's own semester, names and teacher. */
  method AddRosterStudents(m: map<string, StudentAcademicOverview>, classItem: Class, ghost done: seq<Contribution>)
    returns (mapByStudent: map<string, StudentAcademicOverview>)
    requires m == ApplyAll(done)
    ensures mapByStudent == ApplyAll(done + RosterContributions(classItem))
  {
    mapByStudent := m;
    var semesterValue := classItem.semester;
    var className := Some(Trim(classItem.name));
    var courseName := TrimOpt(classItem.courseName);
    var teacherName := TrimOpt(classItem.teacherName);
    var students := classItem.students.GetOr([]);
    ghost var own := RosterContributions(classItem);
    assert done + own[..0] == done;
    for j := 0 to |students|
      invariant mapByStudent == ApplyAll(done + own[..j])
    {
      var student := students[j];
      var current := Entry(mapByStudent, student.studentId);
      ghost var before := current;
      if current.semester.None? || semesterValue > current.semester.value {
        current := current.(semester := Some(semesterValue));
      }
      current := current.(classNames := PushUnique(current.classNames, className));
      current := current.(courseNames := PushUnique(current.courseNames, courseName));
      current := current.(teacherNames := PushUnique(current.teacherNames, teacherName));
      PushAllSingle(before.teacherNames, teacherName);
      assert current == Merged(before, own[j]);
      ApplyAllStep(done, own, j);
      mapByStudent := mapByStudent[student.studentId := current];
    }
    assert own[..|students|] == own;
  }

  lemma FallbackStep(classes: seq<Class>, setups: seq<ClassSubjectSetup>, i: int)
    requires 0 <= i < |classes|
    ensures var done := AllSetupContributions(setups) + FallbackContributions(classes[..i], setups);
      AllSetupContributions(setups) + FallbackContributions(classes[..i + 1], setups) ==
        done + (if HasSetup(setups, classes[i].id) then [] else RosterContributions(classes[i]))
  {
    assert classes[..i + 1][..i] == classes[..i];
  }

  /** `buildStudentAcademicMap(classes, setups)`: every setup row's students, then the roster of
    * every class no row mentions, merged into one overview per student. */
  method BuildStudentAcademicMap(classes: seq<Class>, setups: seq<ClassSubjectSetup>)
    returns (mapByStudent: map<string, StudentAcademicOverview>)
    ensures mapByStudent == AcademicMap(classes, setups)
  {
    mapByStudent := map[];
    for i := 0 to |setups|
      invariant mapByStudent == ApplyAll(AllSetupContributions(setups[..i]))
    {
      mapByStudent := AddSetupStudents(mapByStudent, setups[i], AllSetupContributions(setups[..i]));
      assert setups[..i + 1][..i] == setups[..i];
    }
    assert setups[..|setups|] == setups;
    assert AllSetupContributions(setups) + FallbackContributions(classes[..0], setups) == AllSetupContributions(setups);
    for i := 0 to |classes|
      invariant mapByStudent == ApplyAll(AllSetupContributions(setups) + FallbackContributions(classes[..i], setups))
    {
      var classItem := classes[i];
      FallbackStep(classes, setups, i);
      var hasSetup := HasSetup(setups, classItem.id);
      ghost var done := AllSetupContributions(setups) + FallbackContributions(classes[..i], setups);
      if !hasSetup {
        mapByStudent := AddRosterStudents(mapByStudent, classItem, done);
      } else {
        assert done + [] == done;
      }
    }
    assert classes[..|classes|] == classes;
  }

  // ---------------------------------------------------------------------------------------
  // Search and labels

  /** `matchesUser(user, query)`: one of id, user name, name or e-mail, lowercased, contains
    * the query. */
  predicate MatchesUser(user: User, query: string) {
    var fields := [user.id, user.userName, user.name, user.email];
    exists k :: 0 <= k < |fields| && Contains(Lower(fields[k]), query)
  }

  function Matches(query: string): User -> bool {
    (user: User) => MatchesUser(user, query)
  }

  /** A user matches exactly when one of the four fields, lowercased, contains the query; the
    * empty query matches everybody. */
  lemma MatchesUserSpec(user: User, query: string)
    ensures MatchesUser(user, query) <==>
      Contains(Lower(user.id), query) || Contains(Lower(user.userName), query) ||
      Contains(Lower(user.name), query) || Contains(Lower(user.email), query)
    ensures query == "" ==> MatchesUser(user, query)
  {
    var fields := [user.id, user.userName, user.name, user.email];
    if Contains(Lower(user.id), query) { assert Contains(Lower(fields[0]), query); }
    if Contains(Lower(user.userName), query) { assert Contains(Lower(fields[1]), query); }
    if Contains(Lower(user.name), query) { assert Contains(Lower(fields[2]), query); }
    if Contains(Lower(user.email), query) { assert Contains(Lower(fields[3]), query); }
    ContainsEmpty(Lower(user.id));
  }

  /** The shortcut for the empty query agrees with filtering by it. */
  lemma EmptyQueryKeepsAll(users: seq<User>)
    ensures Filter(users, Matches("")) == users
  {
    forall u | u in users ensures Matches("")(u) {
      MatchesUserSpec(u, "");
    }
    FilterAll(users, Matches(""));
  }

  predicate IsTeacher(user: User) { user.role == "Teacher" }
  predicate IsStudent(user: User) { user.role == "Student" }

  /** `semester ? `Semester ${semester}` : 'Not Assigned'` on the overview of one student. */
  function SemesterLabel(overview: Option<StudentAcademicOverview>): (text: string)
    ensures text != "Not Assigned" <==>
      overview.Some? && overview.value.semester.Some? && overview.value.semester.value != 0
    ensures text != "Not Assigned" ==> text == "Semester " + IntToString(overview.value.semester.value)
  {
    if overview.Some? && overview.value.semester.Some? && overview.value.semester.value != 0
    then assert ("Semester " + IntToString(overview.value.semester.value))[0] == 'S';
      "Semester " + IntToString(overview.value.semester.value)
    else "Not Assigned"
  }

  /** The list labels: the entries joined by `, `, or the placeholder when there are none. */
  function ListLabel(items: seq<string>, placeholder: string): string
  {
    if |items| > 0 then Join(items, ", ") else placeholder
  }

  /** A label of a non-empty list is its entries joined by `, ` and starts with its first entry. */
  lemma ListLabelSpec(items: seq<string>, placeholder: string)
    ensures items == [] ==> ListLabel(items, placeholder) == placeholder
    ensures items != [] ==> ListLabel(items, placeholder) == Join(items, ", ")
    ensures items != [] ==> items[0] <= ListLabel(items, placeholder)
  {
    if |items| > 1 {
      assert Join(items, ", ") == items[0] + ", " + Join(items[1..], ", ");
    }
  }

  function Lookup(m: map<string, StudentAcademicOverview>, studentId: string): Option<StudentAcademicOverview> {
    if studentId in m then Some(m[studentId]) else None
  }

  /** `studentAcademicById.get(studentId)?.courseNames ?? []` and its siblings. */
  function Subjects(m: map<string, StudentAcademicOverview>, studentId: string): seq<string> {
    if studentId in m then m[studentId].courseNames else []
  }

  function TeacherNamesOf(m: map<string, StudentAcademicOverview>, studentId: string): seq<string> {
    if studentId in m then m[studentId].teacherNames else []
  }

  function ClassNamesOf(m: map<string, StudentAcademicOverview>, studentId: string): seq<string> {
    if studentId in m then m[studentId].classNames else []
  }

  /** A student's subjects label is the placeholder `No Subjects` when none of their setup rows or
    * fallback classes names a course, and otherwise lists those course names. */
  lemma SubjectsLabelSpec(classes: seq<Class>, setups: seq<ClassSubjectSetup>, studentId: string)
    ensures var cs := Contributions(classes, setups);
      var names := Subjects(AcademicMap(classes, setups), studentId);
      && (names == [] <==> forall i :: 0 <= i < |cs| && cs[i].studentId == studentId ==> TextOf(cs[i].courseName) == "")
      && (names == [] ==> ListLabel(names, "No Subjects") == "No Subjects")
      && (names != [] ==> ListLabel(names, "No Subjects") == Join(names, ", ") && names[0] <= ListLabel(names, "No Subjects"))
  {
    var cs := Contributions(classes, setups);
    var m := AcademicMap(classes, setups);
    AcademicMapCourseNames(classes, setups, studentId);
    var names := Subjects(m, studentId);
    assert names == Entry(m, studentId).courseNames;
    ListLabelSpec(names, "No Subjects");
    if names != [] {
      assert names[0] in names;
    }
    forall i | 0 <= i < |cs| && cs[i].studentId == studentId && names == [] ensures TextOf(cs[i].courseName) == "" {
      assert TextOf(cs[i].courseName) !in names;
    }
  }

  /** A student's classes label is `No Classes` when none of their setup rows or fallback
    * classes has a class name, and otherwise lists those names. */
  lemma ClassesLabelSpec(classes: seq<Class>, setups: seq<ClassSubjectSetup>, studentId: string)
    ensures var cs := Contributions(classes, setups);
      var names := ClassNamesOf(AcademicMap(classes, setups), studentId);
      && (names == [] <==> forall i :: 0 <= i < |cs| && cs[i].studentId == studentId ==> TextOf(cs[i].className) == "")
      && (names == [] ==> ListLabel(names, "No Classes") == "No Classes")
      && (names != [] ==> ListLabel(names, "No Classes") == Join(names, ", ") && names[0] <= ListLabel(names, "No Classes"))
  {
    var cs := Contributions(classes, setups);
    var m := AcademicMap(classes, setups);
    AcademicMapClassNames(classes, setups, studentId);
    var names := ClassNamesOf(m, studentId);
    assert names == Entry(m, studentId).classNames;
    ListLabelSpec(names, "No Classes");
    if names != [] {
      assert names[0] in names;
    }
    forall i | 0 <= i < |cs| && cs[i].studentId == studentId && names == [] ensures TextOf(cs[i].className) == "" {
      assert TextOf(cs[i].className) !in names;
    }
  }

  /** A student's teachers label is `No Teachers` when none of their setup rows or fallback
    * classes names a teacher, and otherwise lists those names. */
  lemma TeachersLabelSpec(classes: seq<Class>, setups: seq<ClassSubjectSetup>, studentId: string)
    ensures var cs := Contributions(classes, setups);
      var names := TeacherNamesOf(AcademicMap(classes, setups), studentId);
      && (names == [] <==> forall i, t :: 0 <= i < |cs| && cs[i].studentId == studentId && 0 <= t < |cs[i].teacherNames| ==>
                             TextOf(cs[i].teacherNames[t]) == "")
      && (names == [] ==> ListLabel(names, "No Teachers") == "No Teachers")
      && (names != [] ==> ListLabel(names, "No Teachers") == Join(names, ", ") && names[0] <= ListLabel(names, "No Teachers"))
  {
    var cs := Contributions(classes, setups);
    var m := AcademicMap(classes, setups);
    AcademicMapTeacherNames(classes, setups, studentId);
    var names := TeacherNamesOf(m, studentId);
    assert names == Entry(m, studentId).teacherNames;
    ListLabelSpec(names, "No Teachers");
    if names != [] {
      assert names[0] in names;
    }
    forall i, t | 0 <= i < |cs| && cs[i].studentId == studentId && 0 <= t < |cs[i].teacherNames| && names == []
      ensures TextOf(cs[i].teacherNames[t]) == ""
    {
      assert TextOf(cs[i].teacherNames[t]) !in names;
    }
  }

  // ---------------------------------------------------------------------------------------
  // The component

  class UsersScreen {
    var allTeachers: seq<User>
    var allStudents: seq<User>
    var teachers: seq<User>
    var students: seq<User>
    var searchQuery: string
    var studentAcademicById: map<string, StudentAcademicOverview>
    var isLoading: bool

    constructor()
      ensures allTeachers == [] && allStudents == [] && teachers == [] && students == []
      ensures searchQuery == "" && studentAcademicById == map[] && !isLoading
    {
      allTeachers, allStudents, teachers, students := [], [], [], [];
      searchQuery := "";
      studentAcademicById := map[];
      isLoading := false;
    }

    /** `applyFilter()`: copies of both lists for the empty query, else the matching users of
      * each list, in order. */
    method ApplyFilter()
      modifies this
      ensures teachers == (if searchQuery == "" then allTeachers else Filter(allTeachers, Matches(searchQuery)))
      ensures students == (if searchQuery == "" then allStudents else Filter(allStudents, Matches(searchQuery)))
      ensures forall u :: u in teachers <==> u in allTeachers && MatchesUser(u, searchQuery)
      ensures forall u :: u in students <==> u in allStudents && MatchesUser(u, searchQuery)
      ensures IsSubsequence(teachers, allTeachers) && IsSubsequence(students, allStudents)
      ensures allTeachers == old(allTeachers) && allStudents == old(allStudents) && searchQuery == old(searchQuery)
      ensures studentAcademicById == old(studentAcademicById) && isLoading == old(isLoading)
    {
      if searchQuery == "" {
        teachers := allTeachers;
        students := allStudents;
        EmptyQueryKeepsAll(allTeachers);
        EmptyQueryKeepsAll(allStudents);
      } else {
        teachers := Filter(allTeachers, Matches(searchQuery));
        students := Filter(allStudents, Matches(searchQuery));
      }
      FilterSpec(allTeachers, Matches(searchQuery));
      FilterSpec(allStudents, Matches(searchQuery));
    }

    /** The `q` query parameter changed: trimmed, lowercased, then applied. */
    method OnQueryParams(q: Option<string>)
      modifies this
      ensures teachers == (if searchQuery == "" then allTeachers else Filter(allTeachers, Matches(searchQuery)))
      ensures students == (if searchQuery == "" then allStudents else Filter(allStudents, Matches(searchQuery)))
      ensures searchQuery == Lower(Trim(q.GetOr("")))
      ensures forall u :: u in teachers <==> u in allTeachers && MatchesUser(u, searchQuery)
      ensures forall u :: u in students <==> u in allStudents && MatchesUser(u, searchQuery)
      ensures allTeachers == old(allTeachers) && allStudents == old(allStudents)
      ensures studentAcademicById == old(studentAcademicById) && isLoading == old(isLoading)
    {
      searchQuery := Lower(Trim(q.GetOr("")));
      ApplyFilter();
    }

    /** `loadUsers()` once users, classes and setups have arrived. */
    method OnUsersLoaded(users: seq<User>, classes: seq<Class>, setups: seq<ClassSubjectSetup>)
      modifies this
      ensures teachers == (if searchQuery == "" then allTeachers else Filter(allTeachers, Matches(searchQuery)))
      ensures students == (if searchQuery == "" then allStudents else Filter(allStudents, Matches(searchQuery)))
      ensures allTeachers == Filter(users, IsTeacher) && allStudents == Filter(users, IsStudent)
      ensures studentAcademicById == AcademicMap(classes, setups)
      ensures forall u :: u in teachers <==> u in users && IsTeacher(u) && MatchesUser(u, searchQuery)
      ensures forall u :: u in students <==> u in users && IsStudent(u) && MatchesUser(u, searchQuery)
      ensures searchQuery == old(searchQuery) && !isLoading
    {
      allTeachers := Filter(users, IsTeacher);
      allStudents := Filter(users, IsStudent);
      FilterSpec(users, IsTeacher);
      FilterSpec(users, IsStudent);
      studentAcademicById := BuildStudentAcademicMap(classes, setups);
      ApplyFilter();
      isLoading := false;
    }

    /** `getStudentSemesterLabel(studentId)` */
    function StudentSemesterLabel(studentId: string): string
      reads this
    {
      SemesterLabel(Lookup(studentAcademicById, studentId))
    }

    /** `getStudentSubjectsLabel(studentId)` */
    function StudentSubjectsLabel(studentId: string): string
      reads this
    {
      ListLabel(Subjects(studentAcademicById, studentId), "No Subjects")
    }

    /** `getStudentTeachersLabel(studentId)` */
    function StudentTeachersLabel(studentId: string): string
      reads this
    {
      ListLabel(TeacherNamesOf(studentAcademicById, studentId), "No Teachers")
    }

    /** `getStudentClassesLabel(studentId)` */
    function StudentClassesLabel(studentId: string): string
      reads this
    {
      ListLabel(ClassNamesOf(studentAcademicById, studentId), "No Classes")
    }
  }
}
