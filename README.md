# School administration console: a Dafny model of its client-side core

The repository is an Angular console for a school. Administrators, teachers and students use it
to manage users, departments, subjects (courses), classes, assignments, grades, attendance and
notifications. Most of the code binds forms to HTTP calls. This project models the part that
holds real logic, and proves what that logic promises:

- **The subject-setup store** of the API service. It is a per-class dictionary of subject
  offerings, kept in the browser, with its normalisation, its fallback to the class's single
  legacy course, the join that turns offerings into named setup rows, the save that mirrors the
  first offering to the backend, and the enrollment change of one student
  (`SetupStore`).
- **The service's other client logic** (`ApiService`):
  - response unwrapping, token claims and the expiry rule of the `exp` claim (section 4.1.4 of
    RFC 7519);
  - the session state that `loadTokens`, `setTokens`, `logout` and `handleError` update;
  - the DTO mappers and the department and course name caches;
  - the fallback that completes a class payload with a course and a teacher;
  - the framing loop of the notification event stream, which follows the event-stream format of
    section 9.2 of the WHATWG HTML Living Standard in a simplified form.
- **The summary builders** of the users, classes and courses screens. Each is a loop that groups
  the setup rows, removes duplicates in first-seen order and keeps a largest semester
  (`UsersPage`, `ClassesPage`, `CoursesPage`).
- **The search filters** of five list screens, and the toolbar search of the shell that feeds
  them (`UsersPage`, `DepartmentsPage`, `ClassesPage`, `CoursesPage`, `AssignmentsPage`, `Layout`).
- **The dialogs' guards and validation** (`ClassDialog`, `AcademicSetupDialog`,
  `EnrollmentDialog`, `GradeDialog`, `DepartmentDialog`, `RegisterPage`).
- **Display classifiers**: the calendar's 42-cell month grid, the role-filtered navigation, the
  initials, and the grade, attendance, notification and greeting labels (`Calendar`, `Layout`,
  `GradesPage`, `AttendancePage`, `NotificationsPage`, `DashboardPage`).

There is one module per source file; the API service is split into `ApiService` and
`SetupStore`. `Models` transcribes `src/app/models/index.ts` as datatypes. `Wrappers`, `Seqs`
and `Text` hold the generic pieces: `Option` and `Result`; filter, first-seen-order
deduplication, subsequences and maps built from pairs; ASCII case mapping, substring search,
trimming, joining, splitting and decimal printing.

How the source's objects are modelled:

- **Components are classes.** A component whose fields its handlers update is a `class` with
  those fields. Each handler is a `method` whose `ensures` gives the whole new state.
- **Asynchronous calls are split.** A handler that starts a request and one that receives the
  answer are separate methods. The request a handler would send is its return value. The
  backend's answer, the current time, a decoded token and a parsed JSON value are parameters.
- **JavaScript numbers** are integers. A number that may be `NaN` or infinite is
  `JsNumber = Finite(n) | NotFinite`.

## Model

| member | source | states |
|---|---|---|
| SetupStore.CleanIdsSpec | src/app/services/api.service.ts:424-425 | `Array.from(new Set(ids.filter(id => !!id)))` holds no empty id and no id twice, keeps exactly the non-empty ids, and keeps them in the order of their first occurrence |
| SetupStore.CleanIdsMember | src/app/services/api.service.ts:424-425 | an id survives cleaning exactly when it occurs and is non-empty |
| SetupStore.CleanIdsOfClean | src/app/services/api.service.ts:424-425 | a list that is already clean is left unchanged |
| SetupStore.NormalizeSetupDrafts | src/app/services/api.service.ts:419-427 | normalising never lengthens the list of drafts |
| SetupStore.NormalizeSpec | src/app/services/api.service.ts:419-427 | every result has a finite positive course id and clean teacher and student lists; every well-formed input draft survives (cleaned); every result comes from a well-formed input draft |
| SetupStore.NormalizeOfNormalized | src/app/services/api.service.ts:419-427 | normalised drafts are a fixed point of normalisation |
| SetupStore.NormalizeIdempotent | src/app/services/api.service.ts:419-427 | normalising twice equals normalising once |
| SetupStore.GetClassSubjectSetupDraft | src/app/services/api.service.ts:429-447 | a stored entry that normalises to something is returned normalised; otherwise exactly one draft for a class with a truthy legacy course id, carrying that course, the class roster and `[teacherId]` or `[]`, and no draft without one; every returned course id is finite and non-zero |
| SetupStore.ClassRows | src/app/services/api.service.ts:465-484 | a class yields one row per offering |
| SetupStore.RowsOfAppend | src/app/services/api.service.ts:463 | the rows of two consecutive class lists are the rows of the first, then those of the second |
| SetupStore.RowsOfMembers | src/app/services/api.service.ts:463-485 | a row of the join is a row of one of the classes, and every row of every class is in it |
| SetupStore.ClassRowsCarryId | src/app/services/api.service.ts:474 | every row of a class carries that class's id |
| SetupStore.ForClassIsFilterOfAll | src/app/services/api.service.ts:459-461 | with a truthy class-id filter the join gives exactly the rows of the unfiltered join that belong to that class, in the same order |
| SetupStore.SetupRowSpec | src/app/services/api.service.ts:456-482 | a row copies the class fields and the offering's course and teachers; its students are the offering's or, when it has none, the class roster; there is one name per teacher id and one per student id, each the name of the last user with that id, else (for students) the roster's name, else the id itself; the course name is `code - name` of the last course with that id, else the class's course name, else `Course #id` |
| SetupStore.UserNamesSpec | src/app/services/api.service.ts:457-458 | the name table of a user list knows exactly the listed ids, and a lookup with the id as default gives the last listed name or the id |
| SetupStore.CourseLabelsSpec | src/app/services/api.service.ts:456 | the course label table knows exactly the listed ids, each with `code - name` of the last course listed with it |
| SetupStore.GetClassSubjectSetups | src/app/services/api.service.ts:488-512 | a failed class fetch fails the call; otherwise the result is the join over the manageable courses, else all courses, else none, with failed user fetches read as empty lists |
| SetupStore.PrimarySync | src/app/services/api.service.ts:516-523 | a backend request is made exactly when some draft survives normalisation; it carries the first draft's positive course id, its student ids, and its first teacher or none |
| SetupStore.LocalSetupStore.SaveClassSubjectSetups | src/app/services/api.service.ts:514-536 | the backend request is the first normalised draft's; the store is written only when that request succeeds or none was needed, setting the class's key to the normalised drafts or deleting it when none survive, and touching no other key |
| SetupStore.SaveThenRead | src/app/services/api.service.ts:429-536 | reading a class back after a save gives the normalised drafts that were saved, or the legacy fallback when the save deleted the key |
| SetupStore.SaveLeavesOtherClasses | src/app/services/api.service.ts:527-533 | a save changes what no other class reads back |
| SetupStore.ResaveIsIdempotent | src/app/services/api.service.ts:514-536 | saving again what a class reads back after a save leaves the store as it was |
| SetupStore.EnrollSpec | src/app/services/api.service.ts:548-558 | a student's set of offering ids has no repeats, contains the student exactly when the student is added, and otherwise contains the same ids as before |
| SetupStore.Reconcile | src/app/services/api.service.ts:547-560 | an enrollment change yields one draft per setup |
| SetupStore.ReconcileSpec | src/app/services/api.service.ts:539-560 | each draft keeps its setup's course, teachers and position; the student is in it exactly when its course is among the finite positive selected ids; other students are unchanged |
| SetupStore.ClassRosterSpec | src/app/services/api.service.ts:562 | the roster sent after an enrollment change lists each student of some offering exactly once, and nobody else |
| SetupStore.EnrollmentTakesEffect | src/app/services/api.service.ts:538-570 | after a successful enrollment change, every offering the class reads back contains the student exactly when its course was selected |
| SetupStore.ReconciledDraft | src/app/services/api.service.ts:547-560 | a saved draft of an enrollment change contains the student exactly when its course was selected |
| SetupStore.ReconciledOffering | src/app/services/api.service.ts:547-560 | each reconciled offering keeps its course and, once normalised, holds the student exactly when that course was selected |
| SetupStore.LocalSetupStore.UpdateStudentEnrollmentInClass | src/app/services/api.service.ts:538-570 | a class without setups fails with `No class subjects found. Configure class subjects first.` and changes nothing; otherwise the reconciled drafts are saved as by `saveClassSubjectSetups`, and the duplicate-free roster is sent only after the save succeeds, with its own failure ignored |
| SetupStore.LocalSetupStore.constructor | src/app/services/api.service.ts:393-409 | the store starts as the parsed blob |
| ApiService.UnwrapResponse | src/app/services/api.service.ts:192-200 | a successful envelope yields its data; a missing envelope is the error `Empty response from server.`; a failed one is an error carrying the backend's non-empty message, else `Request failed.` |
| ApiService.Claim | src/app/services/api.service.ts:221-232 | the result is the value of the first key whose value is a string, and no earlier key holds a string; it is `""` without a payload or when no key holds a string |
| ApiService.NotExpiredIff | src/app/services/api.service.ts:234-247 | a token is live exactly when its payload decodes, `exp` is a number and the current time in milliseconds lies before `exp` seconds |
| ApiService.ExpiryIsMonotone | src/app/services/api.service.ts:234-247 | a token that is expired at some time is expired at every later time |
| ApiService.Service.constructor | src/app/services/api.service.ts:143-180 | after start-up a non-empty token is never expired, and a user is present only next to a non-empty token |
| ApiService.Service.LoadTokens | src/app/services/api.service.ts:157-180 | an expired non-empty token clears both tokens and removes all three stored entries together; a user is restored only next to a non-empty token and a stored user, and an unparsable stored user is removed; a token kept is not expired |
| ApiService.Service.SetTokens | src/app/services/api.service.ts:803-813 | both tokens and the user are set, and the three stored entries are written |
| ApiService.Service.Logout | src/app/services/api.service.ts:815-827 | both tokens and the user are cleared, the three stored entries are removed, the caches are kept, and the result is the login route |
| ApiService.Service.HandleError | src/app/services/api.service.ts:764-801 | the message is the status table's; a 401 response ends the session as `logout` does and leads to the login page; any other error leaves the session as it was |
| ApiService.ErrorMessageTable | src/app/services/api.service.ts:773-792 | statuses 0, 401, 403, 404 and 500 show their fixed messages whatever the server sent; other statuses show the server's message, else the error response's own `message`, else `An error occurred`; the message is never empty |
| ApiService.Service.RefillDepartmentNames | src/app/services/api.service.ts:944-945 | the department name cache is cleared, then holds each listed id with its name; the session and the other cache are not touched |
| ApiService.Service.RefillCourseNames | src/app/services/api.service.ts:1017-1018 | the course name cache is cleared, then holds each listed id with its name; the session and the other cache are not touched |
| ApiService.DepartmentCacheSpec | src/app/services/api.service.ts:944-945 | the refilled cache knows exactly the listed ids, each with the name of the last department listed with it |
| ApiService.MapManagedClass | src/app/services/api.service.ts:275-299 | the roster defaults to empty and the student count is its length; a NaN semester becomes 0; a missing course name becomes `Course #id` for a truthy course id and `""` otherwise; missing teacher and department names become `""`; the ids are kept |
| ApiService.MapDepartment | src/app/services/api.service.ts:329-338 | the first present spelling of each head field wins, missing text becomes `""`, and a mapped department is active |
| ApiService.MappedClassFallback | src/app/services/api.service.ts:437-446 | a class mapped from the backend has a legacy offering exactly when its DTO has a non-zero course id, and that offering's students are the DTO's students in order |
| ApiService.FormatDateForApi | src/app/services/api.service.ts:386-391 | the result is a prefix of the value, ten characters long or the whole value when shorter |
| ApiService.FormatDateForApiIdempotent | src/app/services/api.service.ts:386-391 | formatting a formatted date changes nothing |
| ApiService.ResolveClassPayloadSpec | src/app/services/api.service.ts:572-614 | a resolved payload has a truthy course and teacher and otherwise equals the request; a request with both is sent unchanged without any fetch; courses are fetched exactly when the course is missing; the only errors are the subject and teacher messages |
| ApiService.ResolveFallbacks | src/app/services/api.service.ts:590-612 | for a Teacher, no teacher list is fetched and the Teacher is the payload's teacher; without a course of the request's department the result is the subject error; otherwise the payload takes the first course of that department |
| ApiService.ResolveAsTeacher | src/app/services/api.service.ts:590-612 | for a Teacher with neither course nor teacher in the request, the payload takes the first course of the department and the Teacher's own id, or fails with the subject error when there is none |
| ApiService.ResolveFallbackCourse | src/app/services/api.service.ts:583-600 | for every user, a request without a course fetches the manageable courses (a failed fetch reads as none); the payload takes the first course of its department, and a department without one, or whose first course has id 0, gives the subject error |
| ApiService.ResolveFallbackTeacher | src/app/services/api.service.ts:586-605 | for anyone but a Teacher, a request without a teacher fetches the teacher list; a resolved payload takes the first active user of it; with the course settled, the result is that payload, or the teacher error when there is no active user or the first has an empty id |
| ApiService.MapNotification | src/app/services/api.service.ts:682-692 | an event's notification is a general one that keeps the id and read flag, defaults title and message to `""`, the creation time to now and the user id to the signed-in user's or `""` |
| ApiService.IndexOfBlankLineSpec | src/app/services/api.service.ts:726-750 | `indexOf('\n\n')` finds the first blank line, and gives -1 exactly when there is none |
| ApiService.FramesRoundTrip | src/app/services/api.service.ts:728-731 | framing loses nothing: the events, each followed by its blank line, then the remainder, give back the text |
| ApiService.FramesHaveNoBlankLine | src/app/services/api.service.ts:728-750 | no event and no remainder holds a blank line |
| ApiService.FirstDataLine | src/app/services/api.service.ts:733-735 | the line found is one of the event's lines and starts with `data:`; none is found only when no line starts with it |
| ApiService.EventWithoutPayload | src/app/services/api.service.ts:733-747 | an event yields nothing exactly when it has no `data:` line, its trimmed data is empty or the data does not parse |
| ApiService.CollectNewestFirst | src/app/services/api.service.ts:742 | after a batch of events the list is the notifications they yield, the latest event's first, in front of the old list, with at most one notification per event |
| ApiService.ReadChunk | src/app/services/api.service.ts:724-751 | one pass of the read loop handles every complete event of the CR-free buffer in order, putting each notification first; the buffer keeps what follows the last event, or the text as received when no event completes, and it never holds a blank line |
| ClassesPage.SetupsOfSpec | src/app/pages/classes/classes.component.ts:208-226 | a class's group holds exactly the rows with its id, in row order, and the setup count is the group's size |
| ClassesPage.GroupByClass | src/app/pages/classes/classes.component.ts:208-213 | pushing each row onto its class's group gives, for every class, exactly its rows in order |
| ClassesPage.SubjectNamesSpec | src/app/pages/classes/classes.component.ts:217-221 | a class's subject names are each non-empty course name of its rows, once, in first-seen order |
| ClassesPage.TeacherNamesSpec | src/app/pages/classes/classes.component.ts:218-222 | a class's teacher names are each non-empty teacher name of any of its rows, once, in first-seen order |
| ClassesPage.StudentIdsSpec | src/app/pages/classes/classes.component.ts:219-223 | the student count is the number of distinct non-empty student ids of the class's rows |
| ClassesPage.StudentListsMember | src/app/pages/classes/classes.component.ts:219 | an id is among the class's student ids exactly when one of its rows lists it |
| ClassesPage.SummaryDomains | src/app/pages/classes/classes.component.ts:215-227 | every listed class gets a subject, a teacher and a setup-count entry |
| ClassesPage.StudentsCountDomain | src/app/pages/classes/classes.component.ts:223-225 | a student count is recorded exactly for the classes whose rows list some non-empty student id |
| ClassesPage.ClassesScreen.BuildAcademicSummaryMap | src/app/pages/classes/classes.component.ts:202-228 | the four maps are cleared and rebuilt as the subject summaries, teacher summaries, student counts and setup counts of the listed classes |
| ClassesPage.OrText | src/app/pages/classes/classes.component.ts:157-163 | `a \|\| b` gives the first operand when it is present and non-empty, else the second |
| ClassesPage.SetupStatusLabelInjective | src/app/pages/classes/classes.component.ts:169-178 | the label is `No Subjects` for 0, `1 Subject` for 1 and `n Subjects` otherwise, and it tells every two counts apart |
| ClassesPage.SubjectsLabelAfterBuild | src/app/pages/classes/classes.component.ts:157-221 | after the build, a class whose rows name a course is labelled by those names; one whose rows name none falls back to its legacy course name, then to `Not Assigned` |
| ClassesPage.StudentsCountAfterBuild | src/app/pages/classes/classes.component.ts:165-225 | after the build, a class with counted students shows their number, any other its roster size, then the backend's student count, then 0 |
| ClassesPage.SearchableSpansFields | src/app/pages/classes/classes.component.ts:187-197 | the searchable line starts with the name, a space and the department, so a match may run across the border of two fields |
| ClassesPage.EmptyQueryKeepsAll | src/app/pages/classes/classes.component.ts:181-184 | the shortcut for the empty query gives what filtering by it would give |
| ClassesPage.ClassesScreen.ApplyFilter | src/app/pages/classes/classes.component.ts:180-200 | the shown classes are all classes for the empty query, else in order exactly those whose lowercased searchable line contains the query |
| ClassesPage.ClassesScreen.OnQueryParams | src/app/pages/classes/classes.component.ts:45-48 | the query is the trimmed, lowercased `q` parameter, and the filter is re-applied |
| ClassesPage.ClassesScreen.OnClassesLoaded | src/app/pages/classes/classes.component.ts:55-73 | the loaded classes are stored, summarised and filtered |
| CoursesPage.SummaryKeys | src/app/pages/courses/courses.component.ts:133-151 | a course has an entry in either map exactly when some setup row teaches it |
| CoursesPage.TeacherSummarySpec | src/app/pages/courses/courses.component.ts:133-149 | a course's teacher summary joins by `, ` each non-empty teacher name of the rows teaching it, once, in first-seen order |
| CoursesPage.ClassCountSpec | src/app/pages/courses/courses.component.ts:142-151 | a course's class count is the number of distinct classes among the rows teaching it |
| CoursesPage.ClassesLabelInjective | src/app/pages/courses/courses.component.ts:115-124 | the label is `No Classes` for 0, `1 Class` for 1 and `n Classes` otherwise, and it tells every two counts apart |
| CoursesPage.ClassesLabelAfterBuild | src/app/pages/courses/courses.component.ts:115-151 | after the build, a course's classes label names its number of distinct classes, and is `No Classes` for a course no row teaches |
| CoursesPage.TeachersLabelAfterBuild | src/app/pages/courses/courses.component.ts:111-149 | after the build, a course's teachers label is its joined teacher names, and `Not Assigned` when no row teaching it names a teacher |
| CoursesPage.SearchById | src/app/pages/courses/courses.component.ts:161-172 | the searchable line starts with the course id, so searching for the id keeps the course |
| CoursesPage.CoursesScreen.BuildCourseTeachingMap | src/app/pages/courses/courses.component.ts:126-153 | both maps are cleared and rebuilt as the teacher summaries and class counts of the courses some row teaches |
| CoursesPage.CollectCourseSets | src/app/pages/courses/courses.component.ts:131-145 | the first pass gives, per course taught, its insertion-ordered set of non-empty teacher names and its set of classes, with the courses in first-seen order |
| CoursesPage.SummaryMapsMatch | src/app/pages/courses/courses.component.ts:147-152 | writing out the collected sets gives the specified summary maps |
| CoursesPage.CoursesScreen.WriteTeacherNames | src/app/pages/courses/courses.component.ts:147-149 | the second loop fills the empty teacher map with each collected course's names joined by `, `, and touches nothing else |
| CoursesPage.CoursesScreen.WriteClassCounts | src/app/pages/courses/courses.component.ts:150-152 | the third loop fills the empty count map with the size of each collected course's class set, and touches nothing else |
| CoursesPage.CoursesScreen.ApplyFilter | src/app/pages/courses/courses.component.ts:155-174 | the shown courses are all courses for the empty query, else in order exactly those whose searchable line contains the query |
| CoursesPage.CoursesScreen.OnQueryParams | src/app/pages/courses/courses.component.ts:45-48 | the query is the trimmed, lowercased `q` parameter, and the filter is re-applied |
| CoursesPage.CoursesScreen.OnCoursesLoaded | src/app/pages/courses/courses.component.ts:55-67 | the loaded courses are stored, the setups summarised, and the filter applied |
| UsersPage.PushUnique | src/app/pages/users/users.component.ts:231-238 | an absent or empty value, or one already present, leaves the list unchanged; any other value is appended once |
| UsersPage.PushAllIsCleanIds | src/app/pages/users/users.component.ts:231-238 | pushing values one by one gives the non-empty values of the whole history, each once, in first-seen order |
| UsersPage.PushAllFromEmpty | src/app/pages/users/users.component.ts:231-238 | pushing into an empty list keeps the non-empty values, each once, in first-seen order |
| UsersPage.SetupContributions | src/app/pages/users/users.component.ts:165-191 | a setup row contributes once for each student it lists, in list order, with its finite semester and trimmed names |
| UsersPage.RosterContributions | src/app/pages/users/users.component.ts:201-225 | a class without setup rows contributes once per roster student, with its finite semester and trimmed names |
| UsersPage.MaxSemesterSpec | src/app/pages/users/users.component.ts:166-218 | the semester is null exactly when nothing concerns the student, and is otherwise one of the student's semesters that none exceeds |
| UsersPage.ApplyAllKeys | src/app/pages/users/users.component.ts:172-224 | a student has an entry exactly when some contribution concerns them |
| UsersPage.ApplyAllSemester | src/app/pages/users/users.component.ts:172-218 | each entry carries its own student id and the largest semester seen for that student |
| UsersPage.ApplyAllClassNames | src/app/pages/users/users.component.ts:184-220 | an entry's class names are the non-empty class names of the student's contributions, once each, in first-seen order |
| UsersPage.ApplyAllCourseNames | src/app/pages/users/users.component.ts:185-221 | an entry's course names are the non-empty course names of the student's contributions, once each, in first-seen order |
| UsersPage.ApplyAllTeacherNames | src/app/pages/users/users.component.ts:186-222 | an entry's teacher names are the non-empty teacher names of the student's contributions, once each, in first-seen order |
| UsersPage.SetupContributionsConcern | src/app/pages/users/users.component.ts:165-192 | the setup rows account for exactly the students they list |
| UsersPage.FallbackContributionsConcern | src/app/pages/users/users.component.ts:195-226 | the fallback accounts for exactly the roster students of the classes no setup row mentions |
| UsersPage.AcademicMapKeys | src/app/pages/users/users.component.ts:162-229 | every student a setup row lists has an overview entry, and so does every roster student of a class without setup rows; nobody else has one |
| UsersPage.ContributionsTrimmed | src/app/pages/users/users.component.ts:167-204 | class and course names arrive trimmed |
| UsersPage.AcademicMapSemester | src/app/pages/users/users.component.ts:166-218 | a student's semester is the largest semester of their setup rows and fallback classes, or null without any |
| UsersPage.AcademicMapClassNames | src/app/pages/users/users.component.ts:167-220 | a student's class names are duplicate-free, non-empty and trimmed, and are exactly the class names of their setup rows and fallback classes |
| UsersPage.AcademicMapCourseNames | src/app/pages/users/users.component.ts:168-221 | a student's course names are duplicate-free, non-empty and trimmed, and are exactly the course names of their setup rows and fallback classes |
| UsersPage.AcademicMapTeacherNames | src/app/pages/users/users.component.ts:186-222 | a student's teacher names are duplicate-free and non-empty, and are exactly the teacher names of their setup rows and fallback classes |
| UsersPage.PushEach | src/app/pages/users/users.component.ts:186-188 | pushing a row's teacher names one by one equals pushing them all |
| UsersPage.AddSetupStudents | src/app/pages/users/users.component.ts:171-191 | the inner loop over a setup row's students merges each student's overview with the row, as the specification map does |
| UsersPage.AddRosterStudents | src/app/pages/users/users.component.ts:207-225 | the inner loop over a fallback class's roster merges each student's overview with the class, as the specification map does |
| UsersPage.BuildStudentAcademicMap | src/app/pages/users/users.component.ts:162-229 | the loops give the overview map of all setup rows, then the rosters of the classes no row mentions |
| UsersPage.MatchesUserSpec | src/app/pages/users/users.component.ts:157-160 | a user matches exactly when one of id, user name, name or e-mail (missing as `""`), lowercased, contains the query; the empty query matches every user |
| UsersPage.EmptyQueryKeepsAll | src/app/pages/users/users.component.ts:146-150 | the shortcut for the empty query gives what filtering by it would give |
| UsersPage.UsersScreen.ApplyFilter | src/app/pages/users/users.component.ts:145-155 | both lists are copied whole for the empty query, else each keeps in order exactly its matching users |
| UsersPage.UsersScreen.OnQueryParams | src/app/pages/users/users.component.ts:45-48 | the query is the trimmed, lowercased `q` parameter, and the filter is re-applied |
| UsersPage.UsersScreen.OnUsersLoaded | src/app/pages/users/users.component.ts:59-65 | the teachers and students are the users with those exact roles, the overview map is built from the classes and setups, and the filter is applied |
| UsersPage.SemesterLabel | src/app/pages/users/users.component.ts:73-76 | the label is `Semester n` for a truthy semester, and `Not Assigned` for 0, null or a student without an entry |
| UsersPage.ListLabelSpec | src/app/pages/users/users.component.ts:78-91 | an empty list's label is the placeholder; a non-empty list's label is its entries joined by `, `, starting with the first entry |
| UsersPage.SubjectsLabelSpec | src/app/pages/users/users.component.ts:78-81 | a student's subjects label is `No Subjects` when none of their setup rows or fallback classes names a course, and otherwise lists those course names |
| UsersPage.TeachersLabelSpec | src/app/pages/users/users.component.ts:83-86 | a student's teachers label is `No Teachers` exactly when none of their setup rows or fallback classes names a teacher, and otherwise their teacher names joined by `, ` |
| UsersPage.ClassesLabelSpec | src/app/pages/users/users.component.ts:88-91 | a student's classes label is `No Classes` exactly when none of their setup rows or fallback classes has a class name, and otherwise their class names joined by `, ` |
| DepartmentsPage.MatchesDepartmentSpec | src/app/pages/departments/departments.component.ts:116-119 | a department matches exactly when one of name, description, head name or head id (missing as `""`), lowercased, contains the query; the empty query matches every department |
| DepartmentsPage.MissingHeads | src/app/pages/departments/departments.component.ts:37-39 | the count is at most the list's length; it is 0 exactly when every department has a head and the length exactly when none has |
| DepartmentsPage.MissingHeadsOfSubsequence | src/app/pages/departments/departments.component.ts:37-39 | a sublist never has more departments without a head than the list it comes from |
| DepartmentsPage.DepartmentsScreen.MissingHeadCount | src/app/pages/departments/departments.component.ts:37-39 | the count is taken over the departments shown, and is 0 exactly when each of them has a head |
| DepartmentsPage.DepartmentsScreen.ApplyFilter | src/app/pages/departments/departments.component.ts:110-120 | the shown departments are all of them for the empty query, else in order exactly the matching ones; the shown count of missing heads never exceeds that of all departments |
| DepartmentsPage.DepartmentsScreen.OnQueryParams | src/app/pages/departments/departments.component.ts:49-52 | the query is the trimmed, lowercased `q` parameter, and the filter is re-applied |
| DepartmentsPage.DepartmentsScreen.OnDepartmentsLoaded | src/app/pages/departments/departments.component.ts:56-61 | the loaded departments are stored and filtered |
| AssignmentsPage.SearchableLayout | src/app/pages/assignments/assignments.component.ts:120-127 | the searchable line is the lowercased id, then the lowercased title and class name next to each other, then the rest |
| AssignmentsPage.SearchFindsTitleAndClass | src/app/pages/assignments/assignments.component.ts:119-130 | text found in the lowercased title, or across the title and class name, keeps the assignment, and so does its own id |
| AssignmentsPage.AssignmentsScreen.ApplyFilter | src/app/pages/assignments/assignments.component.ts:113-131 | the shown assignments are all of them for the empty query, else in order exactly those whose lowercased space-joined line contains the query |
| AssignmentsPage.AssignmentsScreen.OnQueryParams | src/app/pages/assignments/assignments.component.ts:42-45 | the query is the trimmed, lowercased `q` parameter, and the filter is re-applied |
| AssignmentsPage.AssignmentsScreen.LoadAssignments | src/app/pages/assignments/assignments.component.ts:49-54 | Teachers and Admins request every assignment, everyone else their own |
| AssignmentsPage.AssignmentsScreen.OnAssignmentsLoaded | src/app/pages/assignments/assignments.component.ts:56-60 | the loaded list is stored and filtered, and loading ends |
| AssignmentsPage.AssignmentsScreen.OnAssignmentsFailed | src/app/pages/assignments/assignments.component.ts:61-64 | a failed load ends loading and keeps both lists and the query |
| AcademicSetupDialog.DuplicateWarningIff | src/app/pages/classes/class-academic-setup-dialog.component.ts:59-65 | the warning shows exactly when two offerings choose the same finite positive course id; blank and non-positive selections never count |
| AcademicSetupDialog.NoDupChosenIff | src/app/pages/classes/class-academic-setup-dialog.component.ts:59-65 | the chosen ids repeat exactly when two offerings share a chosen course |
| AcademicSetupDialog.CardIffNoDup | src/app/pages/classes/class-academic-setup-dialog.component.ts:63-64 | a set built from a list is as large as the list exactly when no element repeats |
| AcademicSetupDialog.NewOffering | src/app/pages/classes/class-academic-setup-dialog.component.ts:67-78 | a prefilled offering takes the prefill's course, teachers and students; a blank one has no course, no students, and the first active teacher when there is one |
| AcademicSetupDialog.SetupDialog.AddOffering | src/app/pages/classes/class-academic-setup-dialog.component.ts:67-78 | exactly one offering is appended |
| AcademicSetupDialog.SetupDialog.RemoveOffering | src/app/pages/classes/class-academic-setup-dialog.component.ts:80-82 | exactly the offering at the index is removed, the others keep their order |
| AcademicSetupDialog.LoadedOfferingsSpec | src/app/pages/classes/class-academic-setup-dialog.component.ts:111-129 | the offerings are rebuilt as one per existing setup, in order, with its course, teachers and students, or exactly one blank offering when there is none |
| AcademicSetupDialog.CourseOptionsSpec | src/app/pages/classes/class-academic-setup-dialog.component.ts:98-123 | every option is a loaded course; the department's courses (all courses without a department) are offered last, in their order; an option from another department is one an existing setup teaches; every course an existing setup teaches is an option |
| AcademicSetupDialog.TeacherOptionsSpec | src/app/pages/classes/class-academic-setup-dialog.component.ts:103-109 | every option is active; a current Teacher missing from the active teachers is prepended once; otherwise the options are the active teachers in order |
| AcademicSetupDialog.GuardMessage | src/app/pages/classes/class-academic-setup-dialog.component.ts:131-141 | the message is the both-missing one, then the no-subjects one, then the no-teachers one, else empty |
| AcademicSetupDialog.GuardMessagePriority | src/app/pages/classes/class-academic-setup-dialog.component.ts:131-141 | each message names exactly what is missing, and the single messages never show when both lists are empty |
| AcademicSetupDialog.SetupDialog.OnOptionsLoaded | src/app/pages/classes/class-academic-setup-dialog.component.ts:88-150 | the course and teacher options are set as specified, the offerings rebuilt from the existing setups, the guard message set, and loading ends |
| AcademicSetupDialog.SetupDialog.OnOptionsFailed | src/app/pages/classes/class-academic-setup-dialog.component.ts:145-148 | a failed load shows `Failed to load academic setup options.` and ends loading; the offerings and options are kept |
| AcademicSetupDialog.SetupDialog.Save | src/app/pages/classes/class-academic-setup-dialog.component.ts:156-178 | nothing is sent while the form is invalid, a guard message shows or two offerings share a course; otherwise one draft per offering, in order |
| AcademicSetupDialog.SetupDialog.OnSaveFailed | src/app/pages/classes/class-academic-setup-dialog.component.ts:174-176 | a failed save ends loading and keeps the offerings, the options and the guard message |
| AcademicSetupDialog.SentDraftsHaveDistinctCourses | src/app/pages/classes/class-academic-setup-dialog.component.ts:156-169 | a sent payload never names the same positive course twice |
| AcademicSetupDialog.SetupDialog.constructor | src/app/pages/classes/class-academic-setup-dialog.component.ts:84-86 | the dialog opens on its class with no offerings, loading |
| EnrollmentDialog.CourseIdsOf | src/app/pages/classes/class-student-enrollment-dialog.component.ts:92-94 | there is one course id per setup, in setup order |
| EnrollmentDialog.EnrolledCoursesSpec | src/app/pages/classes/class-student-enrollment-dialog.component.ts:86-97 | no student preselects nothing; otherwise the courses of exactly the setups that list the student, once per setup, in setup order |
| EnrollmentDialog.SavingPreselectionKeepsEnrollment | src/app/pages/classes/class-student-enrollment-dialog.component.ts:86-110 | saving the preselection unchanged leaves the student's enrollment as it was, when the setups teach distinct positive courses |
| EnrollmentDialog.EnrollmentScreen.SyncCoursesForStudent | src/app/pages/classes/class-student-enrollment-dialog.component.ts:86-97 | the selected courses become the student's preselection |
| EnrollmentDialog.EnrollmentScreen.OnStudentChanged | src/app/pages/classes/class-student-enrollment-dialog.component.ts:49-51 | a new student picked in the form brings their preselection |
| EnrollmentDialog.EnrollmentScreen.OnDataLoaded | src/app/pages/classes/class-student-enrollment-dialog.component.ts:63-78 | only active students are offered; no setups shows the setup message first, then no active student shows the student message; otherwise the first student is picked with their preselection |
| EnrollmentDialog.EnrollmentScreen.OnDataFailed | src/app/pages/classes/class-student-enrollment-dialog.component.ts:79-82 | the load failure message shows and loading ends |
| EnrollmentDialog.EnrollmentScreen.Save | src/app/pages/classes/class-student-enrollment-dialog.component.ts:103-113 | nothing is sent without a student; otherwise the class id, the student and the selected course ids |
| EnrollmentDialog.EnrollmentScreen.OnSaveFailed | src/app/pages/classes/class-student-enrollment-dialog.component.ts:115-118 | a failed save ends loading and keeps the setups, the students, the picked student and courses and the guard message |
| ClassDialog.SemesterOptionsSpec | src/app/pages/classes/class-dialog.component.ts:43-62 | the options are exactly the semesters 1 to 8 in ascending order, and they are the semesters the form accepts |
| ClassDialog.PadTwoSpec | src/app/pages/classes/class-dialog.component.ts:180-181 | a number below 100 is printed as two digits that read back as it |
| ClassDialog.FormatDateSpec | src/app/pages/classes/class-dialog.component.ts:177-182 | a real date is printed `YYYY-MM-DD`, with the 1-based month and the day as two digits each that read back as those numbers |
| ClassDialog.FormatDateForInput | src/app/pages/classes/class-dialog.component.ts:184-189 | no text or empty text gives nothing; otherwise the first ten characters, or the whole text when shorter |
| ClassDialog.FormatDateForInputIdempotent | src/app/pages/classes/class-dialog.component.ts:184-189 | formatting a formatted date changes nothing |
| ClassDialog.CreateGuardSpec | src/app/pages/classes/class-dialog.component.ts:99-136 | creation is blocked exactly for a loaded new class whose picked department has no subject, or has one but no teacher is available; the message is empty exactly when creation is allowed, and the subject message wins |
| ClassDialog.GuardIgnoresDataWhileLoading | src/app/pages/classes/class-dialog.component.ts:100-104 | while loading the guard allows creation whatever the data says |
| ClassDialog.ClassForm.UpdateCreateGuard | src/app/pages/classes/class-dialog.component.ts:99-136 | the flag and message become the guard's decision for the current state, and nothing else changes |
| ClassDialog.ClassForm.OnDepartmentChanged | src/app/pages/classes/class-dialog.component.ts:68 | a picked department re-runs the guard |
| ClassDialog.ClassForm.StoreDependencies | src/app/pages/classes/class-dialog.component.ts:79-86 | the active departments and teachers are kept, and the first department is preselected when none is picked |
| ClassDialog.ClassForm.OnDependenciesLoadedAsWritten | src/app/pages/classes/class-dialog.component.ts:78-89 | as written, the guard decides on the loading state, so after loading creation is always allowed with no message |
| ClassDialog.LoadedGuardHidesMissingSubject | src/app/pages/classes/class-dialog.component.ts:88-104 | for a new class in a department without subjects, the guard computed while loading allows creation, and the guard of the loaded state blocks it |
| ClassDialog.ClassForm.OnDependenciesLoaded | src/app/pages/classes/class-dialog.component.ts:78-89 | with loading ended first, the guard reflects the loaded departments, subjects and teachers; the first department is preselected when none is picked; the form's other fields are kept |
| ClassDialog.ClassForm.Submit | src/app/pages/classes/class-dialog.component.ts:142-175 | nothing is sent for an invalid form or a blocked creation; otherwise the form fields, with the edited class's course, teacher and roster kept and none for a new class, go to an update or a create |
| ClassDialog.ClassForm.OnSubmitFailed | src/app/pages/classes/class-dialog.component.ts:171-173 | a failed write ends loading and keeps the form fields and the guard |
| ClassDialog.ClassForm.constructor | src/app/pages/classes/class-dialog.component.ts:55-69 | the form starts from the edited class or from a blank class with the given start and end dates, and loading starts |
| GradeDialog.PayloadOf | src/app/pages/assignments/assignment-grade-dialog.component.ts:76-81 | the request keeps the student; an absent grade stays absent and a present one is a number from 0 to 100; the remarks are trimmed; the row is visible unless it says otherwise |
| GradeDialog.WithDefaults | src/app/pages/assignments/assignment-grade-dialog.component.ts:51-56 | a loaded row gets empty remarks and visibility when they are missing, and keeps its grade and everything else |
| GradeDialog.DefaultsKeepPayload | src/app/pages/assignments/assignment-grade-dialog.component.ts:51-81 | filling in the defaults changes nothing about what a row sends |
| GradeDialog.GradeScreen.OnStudentsLoaded | src/app/pages/assignments/assignment-grade-dialog.component.ts:47-58 | the rows are the loaded ones in order, with their defaults, and loading ends |
| GradeDialog.GradeScreen.OnStudentsFailed | src/app/pages/assignments/assignment-grade-dialog.component.ts:59-61 | a failed load ends loading and keeps the rows and the save in flight |
| GradeDialog.GradeScreen.SaveStudent | src/app/pages/assignments/assignment-grade-dialog.component.ts:65-85 | nothing happens while a save is in flight; a grade that is not a number from 0 to 100 is refused with the range message; otherwise the row's payload is sent and its student becomes the one being saved |
| GradeDialog.GradeScreen.OnSaveFinished | src/app/pages/assignments/assignment-grade-dialog.component.ts:86-92 | on success and on error no save is in flight any more; success shows the confirmation |
| GradeDialog.GradeScreen.constructor | src/app/pages/assignments/assignment-grade-dialog.component.ts:47-50 | the dialog opens on its assignment, with no rows, loading and no save in flight |
| DepartmentDialog.FirstWithId | src/app/pages/departments/department-dialog.component.ts:52 | `find` gives the first user with the id, or nothing when no user has it |
| DepartmentDialog.TeacherListSpec | src/app/pages/departments/department-dialog.component.ts:48-58 | with no selected head among the users, or one an active teacher stands for, the list is the active teachers in order; otherwise the head comes first, exactly once; every entry after the first is active and every active teacher is listed |
| DepartmentDialog.DepartmentForm.constructor | src/app/pages/departments/department-dialog.component.ts:40-45 | the fields start from the department's name, description and head id, or `""`, and the teacher list is loading |
| DepartmentDialog.DepartmentForm.OnTeachersLoaded | src/app/pages/departments/department-dialog.component.ts:49-58 | the teacher list becomes the one specified for the selected head |
| DepartmentDialog.DepartmentForm.Submit | src/app/pages/departments/department-dialog.component.ts:65-79 | nothing is sent without a name and a description; otherwise the form value goes to the update call when editing and to the create call otherwise |
| DepartmentDialog.DepartmentForm.OnSubmitFailed | src/app/pages/departments/department-dialog.component.ts:76 | a failed write ends loading and keeps the form fields and the teacher list |
| RegisterPage.ValidFormPasswordsAgree | src/app/pages/register/register.component.ts:45-64 | a valid form carries two equal passwords of at least six characters |
| RegisterPage.RegisterForm.constructor | src/app/pages/register/register.component.ts:45-53 | the form starts blank, with the role Student and the account active |
| RegisterPage.RegisterForm.OnSubmit | src/app/pages/register/register.component.ts:66-86 | an invalid form shows the fields message and sends nothing; a valid one sends every field and clears the message |
| RegisterPage.RegisterForm.OnRegistered | src/app/pages/register/register.component.ts:87-102 | the fields go back to `""`, the role to Student and the account to active |
| RegisterPage.RegisterForm.OnRegisterFailed | src/app/pages/register/register.component.ts:104-107 | the error's own message shows, or the fallback when it has none |
| RegisterPage.BlankFormIsInvalid | src/app/pages/register/register.component.ts:46-99 | a blank form never passes validation |
| Calendar.EventsForDay | src/app/pages/calendar/calendar.component.ts:47-49 | exactly the events whose day, month and year all match, in list order |
| Calendar.GridHasSixWeeks | src/app/pages/calendar/calendar.component.ts:27-46 | with a first weekday from 0 to 6 and at most 31 days the grid has 42 cells |
| Calendar.GridCells | src/app/pages/calendar/calendar.component.ts:34-45 | the leading cells count up to the previous month's last date; the month's cells are 1 to its length with their events; the trailing cells count from 1; only the month's own cells can be today or carry events |
| Calendar.TodayIsMarkedOnce | src/app/pages/calendar/calendar.component.ts:38-40 | one cell is today exactly when today falls in the shown month, and it is the cell of today's date |
| Calendar.CalendarScreen.GenerateCalendar | src/app/pages/calendar/calendar.component.ts:27-46 | the grid is rebuilt from scratch as the specified grid |
| Calendar.CalendarScreen.PushLeading | src/app/pages/calendar/calendar.component.ts:34-36 | the first loop appends the previous month's last dates, ascending |
| Calendar.CalendarScreen.PushMonth | src/app/pages/calendar/calendar.component.ts:37-41 | the second loop appends the month's dates with today's mark and each day's events |
| Calendar.CalendarScreen.PushTrailing | src/app/pages/calendar/calendar.component.ts:42-45 | the third loop appends the next month's first dates up to 42 cells |
| Layout.FilteredNavItems | src/app/components/layout/layout.component.ts:84-86 | the navigation is the sublist, in order, of the entries whose roles list the user's role exactly |
| Layout.NoNavigationWhenSignedOut | src/app/components/layout/layout.component.ts:84-86 | signed out, the navigation is empty |
| Layout.NavigationPerRole | src/app/components/layout/layout.component.ts:62-86 | an Admin sees nine entries, a Teacher five and a Student seven; any other role sees none |
| Layout.NoNavigationForOtherRoles | src/app/components/layout/layout.component.ts:62-86 | a role that is none of Admin, Teacher and Student sees no entry |
| Layout.GetInitials | src/app/components/layout/layout.component.ts:120-123 | `""` gives `""`; otherwise the uppercased first letters of the space-separated words, empty words adding nothing, at most two |
| Layout.InitialsOfNames | src/app/components/layout/layout.component.ts:120-123 | a one-word name gives its capitalised first letter, a first and last name give both |
| Layout.Leaf | src/app/components/layout/layout.component.ts:159-165 | the route reached has no first child |
| Layout.LeafIsReachable | src/app/components/layout/layout.component.ts:159-165 | the leaf is reached from the route by following first children |
| Layout.Shell.GetLeafRoute | src/app/components/layout/layout.component.ts:159-165 | the loop stops at the leaf route |
| Layout.SearchPlaceholderDomain | src/app/components/layout/layout.component.ts:76-82 | a path has its own search settings exactly when it is one of the five list pages |
| Layout.Shell.ToggleCollapse | src/app/components/layout/layout.component.ts:116-118 | the side navigation flips between collapsed and expanded, nothing else changes |
| Layout.Shell.UpdateSearchContext | src/app/components/layout/layout.component.ts:148-157 | search is enabled exactly on the five list pages, with their placeholder, else the default one; the box shows the leaf route's `q` |
| Layout.Shell.OnSearchSubmit | src/app/components/layout/layout.component.ts:129-141 | nothing happens where search is disabled; otherwise `q` on the leaf route becomes the trimmed text, or is removed when that is empty |
| Layout.Shell.ClearSearch | src/app/components/layout/layout.component.ts:143-146 | the box is emptied and, where search is enabled, `q` is removed |
| GradesPage.GradeColor | src/app/pages/grades/grades.component.ts:31-36 | no grade or 0 is `warn`; from 90 up `primary`; from 70 to 89 `accent`; anything else `warn` |
| GradesPage.GradeColorMonotone | src/app/pages/grades/grades.component.ts:31-36 | a higher non-zero grade never gets a weaker colour |
| GradesPage.GradeColorRange | src/app/pages/grades/grades.component.ts:31-36 | the colour is one of `warn`, `accent` and `primary` |
| AttendancePage.StatusLabel | src/app/pages/attendance/attendance.component.ts:105-107 | 0, 1 and 2 are `Present`, `Absent` and `Late`; any other status is `Unknown` |
| AttendancePage.StatusColor | src/app/pages/attendance/attendance.component.ts:109-115 | Present is `primary`, Late `accent`, anything else `warn` |
| AttendancePage.ColorFollowsLabel | src/app/pages/attendance/attendance.component.ts:105-115 | the colour follows the label: present is primary, late is accent, absent and unknown are warn |
| AttendancePage.FindClass | src/app/pages/attendance/attendance.component.ts:85 | `find` gives the first class with the id, or nothing when no class has it |
| AttendancePage.InitialLoadFor | src/app/pages/attendance/attendance.component.ts:40-46 | Teachers and Admins load the class list first; anyone else loads their own attendance |
| AttendancePage.AttendanceScreen.LoadAttendance | src/app/pages/attendance/attendance.component.ts:66-77 | a Teacher without a selected class requests nothing, a Teacher with one that class's list; every other user the student list |
| AttendancePage.AttendanceScreen.OnAttendanceLoaded | src/app/pages/attendance/attendance.component.ts:74 | the loaded rows replace the attendance list; the classes and the selection are kept |
| AttendancePage.AttendanceScreen.OnClassesLoaded | src/app/pages/attendance/attendance.component.ts:49-56 | a non-empty list selects its first class and loads its attendance; an empty one keeps the selection and loads nothing |
| AttendancePage.AttendanceScreen.OnClassChange | src/app/pages/attendance/attendance.component.ts:61-64 | the class becomes the selection and its attendance is loaded |
| AttendancePage.AttendanceScreen.OpenMarkAttendance | src/app/pages/attendance/attendance.component.ts:79-95 | refused with `Select a class first.` without a selection and with `Class not found.` when it is not listed; otherwise the dialog opens on the first listed class with that id |
| NotificationsPage.AllRead | src/app/pages/notifications/notifications.component.ts:30-31 | every notification is read, and the list keeps its length, its order and every other field |
| NotificationsPage.AllReadIdempotent | src/app/pages/notifications/notifications.component.ts:30-31 | marking all read twice is marking them once, and a list already read is unchanged |
| NotificationsPage.NotificationsScreen.MarkAllRead | src/app/pages/notifications/notifications.component.ts:30-33 | the list is replaced, in order, by its copy with every entry read |
| NotificationsPage.NotificationsScreen.OnNotificationsLoaded | src/app/pages/notifications/notifications.component.ts:25 | the loaded notifications replace the list |
| NotificationsPage.Icon | src/app/pages/notifications/notifications.component.ts:35-42 | assignment, grade and class notices get their own icons, anything else `notifications`, and each icon identifies its kind |
| DashboardPage.Greeting | src/app/pages/dashboard/dashboard.component.ts:103-108 | `Good morning` exactly before 12, `Good afternoon` exactly from 12 to 17, `Good evening` exactly from 18 |
| DashboardPage.GreetingAdvances | src/app/pages/dashboard/dashboard.component.ts:103-108 | through the day the greeting only moves forward |
| DashboardPage.ActivityIcon | src/app/pages/dashboard/dashboard.component.ts:172-179 | assignment, grade and class keep their name as icon, anything else is `info` |
| DashboardPage.ViewAllTarget | src/app/pages/dashboard/dashboard.component.ts:181-187 | Admins go to `/courses`, everyone else to `/assignments` |
| Models.RosterIds | src/app/services/api.service.ts:445 | a class's roster ids are its students' ids, in order, and none without a roster |

## Left out

- **I/O and frameworks.** HTTP, `forkJoin` and the other reactive plumbing, `localStorage`, JSON
  parsing and printing, `fetch` with its stream reader and decoder, dialogs, snack bars, router
  navigation and query-parameter subscriptions are not modelled. A fetched list is a parameter, a
  backend write is a returned request, and a parsed JSON value is a parameter or a function
  parameter.
- **Token decoding.** `decodeToken` (base64url, `atob`, URI decoding) is a function parameter, and
  `Date.now()` is a parameter.
- **Case mapping** is ASCII only: `toLowerCase` and `toUpperCase` on other letters are not
  modelled.
- **String length and indexing.** A Dafny string is a sequence of Unicode code points, while a
  JavaScript string is a sequence of UTF-16 code units. So a character outside the Basic
  Multilingual Plane counts once here and twice in the source. This affects the six-character
  password minimum of the register form, `n[0]` in the initials, and `slice(0, 10)` in the date
  formatters, which all agree with the source only on text without such characters.
- **Floating point.** Numbers are integers: `gpa.toFixed(2)` on the dashboard and fractional
  grades or semesters are out.
- **Date arithmetic.** The calendar takes the month's first weekday, its length, the previous
  month's length and today's date as parameters. The class dialog takes today and the end date
  four months on as parameters. `previousMonth` and `nextMonth`, `isOverdue` and the dashboard
  clock are not modelled.
- **Event-stream emissions.** `ApiService.ReadChunk` models the local buffer and list of one
  pass of the read loop; the `observer.next` copy sent after each notification, the connection
  and the abort are out.
- **Store blob.** A missing, unparsable or non-object `localStorage` blob reads as an empty store,
  and an entry that is not an array reads as absent; the parsing itself is not modelled.
- **Cross-tab divergence** of the local store is out, and so is concurrency in general. Each
  asynchronous answer is a separate method call.
- ApiService.Service.HandleError: the browser's `ErrorEvent` check is modelled as a flag on the
  error body, not a type test.
- ApiService.MapNotification: the DTO's `isRead` is a boolean, so `!!dto.isRead` is the identity
  here, and `String(...)` of a non-string creation time is not modelled.
- ClassDialog.ClassForm.OnDependenciesLoaded: the error branch of `loadDependencies` is not
  modelled separately. Each of its three fetches falls back to an empty list first, so the
  success branch sees the same state.
- AcademicSetupDialog.SetupDialog.RemoveOffering: requires an index inside the list; Angular's
  `FormArray.removeAt` with an index outside it is not modelled.
- RegisterPage.RegisterForm.OnSubmit: Angular's `Validators.email` pattern is a function
  parameter, because its definition is not part of the repository.
- GradeDialog.GradeScreen.SaveStudent: a save is in flight while `savingStudentId` is truthy,
  which is how the source tests it; a saved student with the empty id does not block the next
  save.
- UsersPage: the label getters are specified through `UsersPage.SemesterLabel`,
  `UsersPage.SubjectsLabelSpec`, `UsersPage.TeachersLabelSpec` and `UsersPage.ClassesLabelSpec`;
  the screen's own label functions have no contract of their own.
- **Thin services and wiring.** The delegating services (classes, assignments, dashboard, auth,
  courses, departments, users, attendance, notifications), the module and the route table carry
  no logic of their own and are not modelled. The route table's role data is read by a guard
  that is not part of this model.
- **Dialogs that bind one form to one call** (course, assignment, attendance marking, assignment
  submission, forgot password, settings, class students) are not modelled.
- **Account actions** of the users screen (activate, deactivate, delete) and the dashboard
  statistics are plain calls and are not modelled.

## Findings

| source | as written | input that shows it | evidently intended | confidence | as-written member | corrected member |
|---|---|---|---|---|---|---|
| src/app/pages/classes/class-dialog.component.ts:88-89 | the load handler calls `updateCreateGuard()` before it sets `isLoading = false`, and the guard lets everything through while loading, so after loading a new class can always be created | a new class, its department active and without any subject: creation stays allowed with no message | clear the loading flag first, so the guard blocks creation with the no-subject message | medium, not executed | ClassDialog.ClassForm.OnDependenciesLoadedAsWritten, ClassDialog.LoadedGuardHidesMissingSubject | ClassDialog.ClassForm.OnDependenciesLoaded |
