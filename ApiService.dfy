/** The client-side logic of the HTTP service (src/app/services/api.service.ts) other than the
  * subject-setup store: response unwrapping, token claims and expiry, the session state, DTO
  * defaults, the class-payload fallback, the error-message table, the name caches and the
  * framing loop of the notification event stream. */
module ApiService {
  import opened Wrappers
  import opened Seqs
  import opened Text
  import opened Models
  import SetupStore

  // ---------------------------------------------------------------------------------------
  // Backend envelope

  /** `BackendResponse<T>`; a missing `message` is `None`. */
  datatype Envelope<T> = Envelope(isSuccess: bool, message: Option<string>, data: T)

  const EmptyResponseMessage := "Empty response from server."
  const RequestFailedMessage := "Request failed."

  /** `unwrapResponse`: the data of a successful envelope; an absent envelope or a failed one is
    * an error whose message is the backend's, when it sent a non-empty one. */
  function UnwrapResponse<T>(response: Option<Envelope<T>>): (r: Result<T>)
    ensures r.Ok? <==> response.Some? && response.value.isSuccess
    ensures r.Ok? ==> r.value == response.value.data
    ensures response.None? ==> r == Err(EmptyResponseMessage)
    ensures response.Some? && !response.value.isSuccess ==>
      r.Err? && r.message != "" &&
      (r.message == RequestFailedMessage <==>
        response.value.message.None? || response.value.message.value in {"", RequestFailedMessage})
    ensures response.Some? && !response.value.isSuccess && HasText(response.value.message) ==>
      r == Err(response.value.message.value)
    ensures response.Some? && !response.value.isSuccess && !HasText(response.value.message) ==>
      r == Err(RequestFailedMessage)
  {
    if response.None? then Err(EmptyResponseMessage)
    else if !response.value.isSuccess then
      Err(if response.value.message.Some? && response.value.message.value != "" then response.value.message.value
          else RequestFailedMessage)
    else Ok(response.value.data)
  }

  // ---------------------------------------------------------------------------------------
  // Token payload claims and expiry (the payload of a JSON Web Token, RFC 7519)

  /** A JSON value of a decoded token payload, as far as the service inspects it. */
  datatype Json = JString(s: string) | JNumber(n: int) | JOther

  type Payload = map<string, Json>

  predicate StringAt(p: Payload, key: string) {
    key in p && p[key].JString?
  }

  /** `claim(payload, ...keys)`: the first of the keys whose value is a string, or "". */
  method Claim(payload: Option<Payload>, keys: seq<string>) returns (value: string)
    ensures payload.None? || (forall k :: 0 <= k < |keys| ==> !StringAt(payload.value, keys[k])) ==> value == ""
    ensures payload.Some? && (exists k :: 0 <= k < |keys| && StringAt(payload.value, keys[k])) ==>
      exists k :: 0 <= k < |keys| && StringAt(payload.value, keys[k]) && value == payload.value[keys[k]].s &&
        forall j :: 0 <= j < k ==> !StringAt(payload.value, keys[j])
  {
    if payload.None? {
      return "";
    }
    var p := payload.value;
    var i := 0;
    while i < |keys|
      invariant 0 <= i <= |keys|
      invariant forall j :: 0 <= j < i ==> !StringAt(p, keys[j])
    {
      if keys[i] in p && p[keys[i]].JString? {
        return p[keys[i]].s;
      }
      i := i + 1;
    }
    return "";
  }

  /** `isTokenExpired`: `decoded` is what decoding the token gave (`None` when it could not be
    * decoded) and `nowMillis` is `Date.now()`. The token is expired unless its `exp` claim is a
    * number greater than the current time in whole seconds. */
  function IsTokenExpired(decoded: Option<Payload>, nowMillis: int): bool {
    if decoded.None? then true
    else if "exp" !in decoded.value || !decoded.value["exp"].JNumber? then true
    else decoded.value["exp"].n <= nowMillis / 1000
  }

  /** A token is live exactly when its expiry instant, in milliseconds, lies after now. */
  lemma NotExpiredIff(decoded: Option<Payload>, nowMillis: int)
    ensures !IsTokenExpired(decoded, nowMillis) <==>
      decoded.Some? && "exp" in decoded.value && decoded.value["exp"].JNumber? &&
      nowMillis < decoded.value["exp"].n * 1000
  {
    if decoded.Some? && "exp" in decoded.value && decoded.value["exp"].JNumber? {
      var exp := decoded.value["exp"].n;
      var q := nowMillis / 1000;
      assert nowMillis == q * 1000 + nowMillis % 1000;
      if exp <= q {
        assert exp * 1000 <= q * 1000;
      } else {
        assert exp >= q + 1;
        assert exp * 1000 >= q * 1000 + 1000;
      }
    }
  }

  /** Expiry is monotone in time: a token that has expired stays expired. */
  lemma ExpiryIsMonotone(decoded: Option<Payload>, earlier: int, later: int)
    requires earlier <= later
    requires IsTokenExpired(decoded, earlier)
    ensures IsTokenExpired(decoded, later)
  {
    NotExpiredIff(decoded, earlier);
    NotExpiredIff(decoded, later);
  }

  /** `!!value` for an optional string. */
  predicate HasText(value: Option<string>) {
    value.Some? && value.value != ""
  }

  const TokenKey := "token"
  const RefreshTokenKey := "refreshToken"
  const UserKey := "user"
  const LoginRoute := "/login"

  /** The service's session state and its two name caches. `storage` is the part of
    * `localStorage` the session uses ("token", "refreshToken" and "user"). Decoding a token
    * and parsing or serialising a user are passed in as functions. */
  class Service {
    var token: Option<string>
    var refreshToken: Option<string>
    var currentUser: Option<User>
    var storage: map<string, string>
    var departmentNameById: map<int, string>
    var courseNameById: map<int, string>

    /** The constructor starts from empty state and runs `loadTokens`. */
    constructor(stored: map<string, string>, decode: string -> Option<Payload>, nowMillis: int,
                parseUser: string -> Option<User>)
      ensures HasText(token) ==> !IsTokenExpired(decode(token.value), nowMillis)
      ensures currentUser.Some? ==> HasText(token)
    {
      token := None;
      refreshToken := None;
      currentUser := None;
      storage := stored;
      departmentNameById := map[];
      courseNameById := map[];
      new;
      LoadTokens(decode, nowMillis, parseUser);
    }

    /** `loadTokens`: read both tokens; an expired non-empty token clears both tokens and all
      * three stored entries together; a user is restored only next to a non-empty token and
      * a stored user, and an unparsable stored user is removed. */
    method LoadTokens(decode: string -> Option<Payload>, nowMillis: int, parseUser: string -> Option<User>)
      modifies this
      ensures var t := Get(old(storage), TokenKey);
        var expired := HasText(t) && IsTokenExpired(decode(t.value), nowMillis);
        var cleared := if expired then old(storage) - {TokenKey, RefreshTokenKey, UserKey} else old(storage);
        && token == (if expired then None else t)
        && refreshToken == (if expired then None else Get(old(storage), RefreshTokenKey))
        && (HasText(token) && HasText(Get(cleared, UserKey)) ==>
              if parseUser(cleared[UserKey]).Some? then
                currentUser == parseUser(cleared[UserKey]) && storage == cleared
              else
                currentUser == old(currentUser) && storage == cleared - {UserKey})
        && (!(HasText(token) && HasText(Get(cleared, UserKey))) ==> currentUser.None? && storage == cleared)
      ensures HasText(token) ==> !IsTokenExpired(decode(token.value), nowMillis)
      ensures departmentNameById == old(departmentNameById) && courseNameById == old(courseNameById)
    {
      token := Get(storage, TokenKey);
      refreshToken := Get(storage, RefreshTokenKey);
      if HasText(token) && IsTokenExpired(decode(token.value), nowMillis) {
        token := None;
        refreshToken := None;
        storage := storage - {TokenKey, RefreshTokenKey, UserKey};
      }
      var userStr := Get(storage, UserKey);
      if HasText(token) && HasText(userStr) {
        var parsed := parseUser(userStr.value);
        if parsed.Some? {
          currentUser := parsed;
        } else {
          storage := storage - {UserKey};
        }
      } else {
        currentUser := None;
      }
    }

    /** `setTokens` */
    method SetTokens(newToken: string, newRefreshToken: string, user: User, serialize: User -> string)
      modifies this
      ensures token == Some(newToken) && refreshToken == Some(newRefreshToken) && currentUser == Some(user)
      ensures storage == old(storage)[TokenKey := newToken][RefreshTokenKey := newRefreshToken][UserKey := serialize(user)]
      ensures departmentNameById == old(departmentNameById) && courseNameById == old(courseNameById)
    {
      token := Some(newToken);
      refreshToken := Some(newRefreshToken);
      currentUser := Some(user);
      storage := storage[TokenKey := newToken][RefreshTokenKey := newRefreshToken][UserKey := serialize(user)];
    }

    /** `logout`: forget the session everywhere and go to the login page. */
    method Logout() returns (navigateTo: string)
      modifies this
      ensures token.None? && refreshToken.None? && currentUser.None?
      ensures storage == old(storage) - {TokenKey, RefreshTokenKey, UserKey}
      ensures departmentNameById == old(departmentNameById) && courseNameById == old(courseNameById)
      ensures navigateTo == LoginRoute
    {
      token := None;
      refreshToken := None;
      currentUser := None;
      storage := storage - {TokenKey, RefreshTokenKey, UserKey};
      navigateTo := LoginRoute;
    }

    /** `isAuthenticated` */
    predicate IsAuthenticated(decode: string -> Option<Payload>, nowMillis: int)
      reads this
    {
      HasText(token) && !IsTokenExpired(decode(token.value), nowMillis)
    }

    /** `hasRole`: the current user's role is exactly `role`. */
    predicate HasRole(role: string)
      reads this
    {
      currentUser.Some? && currentUser.value.role == role
    }

    /** `handleError`: the message shown and rethrown; a 401 also logs out. */
    method HandleError(error: Failure) returns (message: string, navigateTo: Option<string>)
      modifies this
      ensures message == ErrorMessage(error)
      ensures LogsOut(error) ==>
        && navigateTo == Some(LoginRoute) && token.None? && refreshToken.None? && currentUser.None?
        && storage == old(storage) - {TokenKey, RefreshTokenKey, UserKey}
      ensures !LogsOut(error) ==>
        && navigateTo.None? && token == old(token) && refreshToken == old(refreshToken)
        && currentUser == old(currentUser) && storage == old(storage)
      ensures departmentNameById == old(departmentNameById) && courseNameById == old(courseNameById)
    {
      message := ErrorMessage(error);
      if LogsOut(error) {
        var route := Logout();
        navigateTo := Some(route);
      } else {
        navigateTo := None;
      }
    }

    /** The departments refill of `departmentNameById`: cleared, then each id set to its name. */
    method RefillDepartmentNames(items: seq<Department>)
      modifies this
      ensures departmentNameById == ToMap(DepartmentPairs(items))
      ensures courseNameById == old(courseNameById) && token == old(token) && refreshToken == old(refreshToken)
      ensures currentUser == old(currentUser) && storage == old(storage)
    {
      var pairs := DepartmentPairs(items);
      departmentNameById := map[];
      var i := 0;
      while i < |items|
        invariant 0 <= i <= |items|
        invariant departmentNameById == ToMap(pairs[..i])
        invariant courseNameById == old(courseNameById) && token == old(token) && refreshToken == old(refreshToken)
        invariant currentUser == old(currentUser) && storage == old(storage)
      {
        departmentNameById := departmentNameById[items[i].id := items[i].name];
        assert pairs[..i + 1][..i] == pairs[..i];
        i := i + 1;
      }
      assert pairs[..|items|] == pairs;
    }

    /** The courses refill of `courseNameById`: cleared, then each id set to its name. */
    method RefillCourseNames(items: seq<Course>)
      modifies this
      ensures courseNameById == ToMap(CoursePairs(items))
      ensures departmentNameById == old(departmentNameById) && token == old(token) && refreshToken == old(refreshToken)
      ensures currentUser == old(currentUser) && storage == old(storage)
    {
      var pairs := CoursePairs(items);
      courseNameById := map[];
      var i := 0;
      while i < |items|
        invariant 0 <= i <= |items|
        invariant courseNameById == ToMap(pairs[..i])
        invariant departmentNameById == old(departmentNameById) && token == old(token) && refreshToken == old(refreshToken)
        invariant currentUser == old(currentUser) && storage == old(storage)
      {
        courseNameById := courseNameById[items[i].id := items[i].name];
        assert pairs[..i + 1][..i] == pairs[..i];
        i := i + 1;
      }
      assert pairs[..|items|] == pairs;
    }
  }

  /** `localStorage.getItem(key)` */
  function Get(storage: map<string, string>, key: string): Option<string> {
    if key in storage then Some(storage[key]) else None
  }

  function DepartmentPairs(items: seq<Department>): seq<(int, string)> {
    seq(|items|, i requires 0 <= i < |items| => (items[i].id, items[i].name))
  }

  function CoursePairs(items: seq<Course>): seq<(int, string)> {
    seq(|items|, i requires 0 <= i < |items| => (items[i].id, items[i].name))
  }

  /** The refilled cache knows exactly the listed ids, each with the name of its last listing. */
  lemma DepartmentCacheSpec(items: seq<Department>)
    ensures forall id :: id in ToMap(DepartmentPairs(items)) <==> exists i :: 0 <= i < |items| && items[i].id == id
    ensures forall id :: id in ToMap(DepartmentPairs(items)) ==>
      exists i :: 0 <= i < |items| && items[i].id == id && items[i].name == ToMap(DepartmentPairs(items))[id] &&
        LastId(items, i)
  {
    var pairs := DepartmentPairs(items);
    ToMapSpec(pairs);
    forall id ensures id in ToMap(pairs) <==> exists i :: 0 <= i < |items| && items[i].id == id {
      if id in ToMap(pairs) {
        var i :| 0 <= i < |pairs| && pairs[i].0 == id;
        assert items[i].id == id;
      }
      if exists i :: 0 <= i < |items| && items[i].id == id {
        var i :| 0 <= i < |items| && items[i].id == id;
        assert pairs[i].0 == id;
      }
    }
    forall id | id in ToMap(pairs)
      ensures exists i :: 0 <= i < |items| && items[i].id == id && items[i].name == ToMap(pairs)[id] && LastId(items, i)
    {
      var i :| 0 <= i < |pairs| && pairs[i] == (id, ToMap(pairs)[id]) && LastKey(pairs, i);
      assert items[i].id == id;
      forall j | i < j < |items| ensures items[j].id != id {
        assert pairs[j].0 != pairs[i].0;
      }
    }
  }

  /** No department after index `i` has the id of department `i`. */
  predicate LastId(items: seq<Department>, i: int)
    requires 0 <= i < |items|
  {
    forall j :: i < j < |items| ==> items[j].id != items[i].id
  }

  // ---------------------------------------------------------------------------------------
  // Error messages

  /** The body of an `HttpErrorResponse`: a client-side `ErrorEvent`, or whatever the server sent
    * with its optional `message`. */
  datatype HttpBody = NetworkEvent(eventMessage: string) | ServerBody(bodyMessage: Option<string>)

  /** What `handleError` may receive: a plain `Error`, an `HttpErrorResponse` (with the
    * response's own generated `message`), or anything else. */
  datatype Failure =
    | PlainError(message: string)
    | HttpFailure(status: int, body: HttpBody, responseMessage: Option<string>)
    | UnknownFailure

  const UnreachableMessage := "Cannot reach backend API. Ensure backend is running and proxy is configured."
  const SessionExpiredMessage := "Session expired. Please login again."
  const ForbiddenMessage := "You do not have permission to perform this action."
  const NotFoundMessage := "Resource not found."
  const ServerErrorMessage := "Server error. Please try again later."
  const GenericErrorMessage := "An error occurred"

  /** A 401 response (that is not a client-side event) ends the session. */
  predicate LogsOut(error: Failure) {
    error.HttpFailure? && !error.body.NetworkEvent? && error.status == 401
  }

  function ErrorMessage(error: Failure): string {
    match error
    case PlainError(m) => m
    case UnknownFailure => GenericErrorMessage
    case HttpFailure(status, body, responseMessage) =>
      if body.NetworkEvent? then body.eventMessage
      else if status == 0 then UnreachableMessage
      else if status == 401 then SessionExpiredMessage
      else if status == 403 then ForbiddenMessage
      else if status == 404 then NotFoundMessage
      else if status == 500 then ServerErrorMessage
      else if HasText(body.bodyMessage) then body.bodyMessage.value
      else if HasText(responseMessage) then responseMessage.value
      else GenericErrorMessage
  }

  /** The status table: the five known statuses map to their fixed messages whatever the server
    * said; any other status shows the server's message, else the response's own message, else a generic
    * text, so an HTTP failure that is not a client-side event never shows an empty message. */
  lemma ErrorMessageTable(status: int, bodyMessage: Option<string>, responseMessage: Option<string>)
    ensures var m := ErrorMessage(HttpFailure(status, ServerBody(bodyMessage), responseMessage));
      && (status == 0 ==> m == UnreachableMessage)
      && (status == 401 ==> m == SessionExpiredMessage)
      && (status == 403 ==> m == ForbiddenMessage)
      && (status == 404 ==> m == NotFoundMessage)
      && (status == 500 ==> m == ServerErrorMessage)
      && (status !in {0, 401, 403, 404, 500} ==>
            m == (if HasText(bodyMessage) then bodyMessage.value
                  else if HasText(responseMessage) then responseMessage.value else GenericErrorMessage))
      && m != ""
  {
  }

  // ---------------------------------------------------------------------------------------
  // DTO defaults

  /** `BackendManagedClassDto`. `semester` is `NotFinite` when `Number(dto.semester)` is NaN. */
  datatype ManagedClassDto = ManagedClassDto(
    id: int, name: string, isActive: bool, semester: JsNumber, startDate: Option<string>,
    endDate: Option<string>, courseId: Option<int>, courseName: Option<string>, departmentId: Option<int>,
    departmentName: Option<string>, teacherId: Option<string>, teacherName: Option<string>,
    students: Option<seq<ClassStudent>>)

  /** `mapManagedClass` */
  function MapManagedClass(dto: ManagedClassDto): (c: Class)
    ensures c.students.Some? && c.studentCount == Some(|c.students.value|)
    ensures c.students.value == dto.students.GetOr([])
    ensures c.semester == (if dto.semester.Finite? then dto.semester.value else 0)
    ensures c.courseName.Some? && c.teacherName.Some? && c.departmentName.Some?
    ensures dto.courseName.None? ==>
      c.courseName.value == (if dto.courseId.Some? && dto.courseId.value != 0 then "Course #" + IntToString(dto.courseId.value) else "")
    ensures dto.courseName.Some? ==> c.courseName == dto.courseName
    ensures c.courseId == dto.courseId && c.teacherId == dto.teacherId && c.departmentId == dto.departmentId
  {
    var students := dto.students.GetOr([]);
    Class(
      dto.id, dto.name, dto.isActive,
      if dto.semester.Finite? then dto.semester.value else 0,
      dto.startDate.GetOr(""), dto.endDate.GetOr(""),
      dto.courseId,
      Some(if dto.courseName.Some? then dto.courseName.value
           else if dto.courseId.Some? && dto.courseId.value != 0 then "Course #" + IntToString(dto.courseId.value)
           else ""),
      dto.teacherId, Some(dto.teacherName.GetOr("")), Some(|students|), dto.departmentId,
      Some(dto.departmentName.GetOr("")), Some(students))
  }

  /** A backend department DTO, with both spellings of the head fields. */
  datatype DepartmentDto = DepartmentDto(
    id: int, name: string, description: Option<string>,
    headOfDepartmentId: Option<string>, headDepartmentId: Option<string>,
    headOfDepartmentName: Option<string>, headDepartmentName: Option<string>, headName: Option<string>)

  /** `a ?? b` */
  function OrElse(a: Option<string>, b: string): (r: string)
    ensures a.Some? ==> r == a.value
    ensures a.None? ==> r == b
  {
    if a.Some? then a.value else b
  }

  /** `mapDepartment`: the first defined spelling of each head field wins, missing text becomes
    * "", and a mapped department is always active. */
  function MapDepartment(dto: DepartmentDto): (d: Department)
    ensures d.id == dto.id && d.name == dto.name && d.isActive
    ensures d.description == dto.description.GetOr("")
    ensures dto.headOfDepartmentId.Some? ==> d.headDepartmentId == dto.headOfDepartmentId.value
    ensures dto.headOfDepartmentId.None? ==> d.headDepartmentId == dto.headDepartmentId.GetOr("")
    ensures d.headDepartmentName.Some?
    ensures dto.headOfDepartmentName.Some? ==> d.headDepartmentName == dto.headOfDepartmentName
    ensures dto.headOfDepartmentName.None? && dto.headDepartmentName.Some? ==> d.headDepartmentName == dto.headDepartmentName
    ensures dto.headOfDepartmentName.None? && dto.headDepartmentName.None? ==> d.headDepartmentName == Some(dto.headName.GetOr(""))
  {
    Department(
      dto.id, dto.name, dto.description.GetOr(""),
      OrElse(dto.headOfDepartmentId, OrElse(dto.headDepartmentId, "")),
      Some(OrElse(dto.headOfDepartmentName, OrElse(dto.headDepartmentName, OrElse(dto.headName, "")))),
      true)
  }

  /** A class mapped from the backend feeds the subject-setup fallback: it has a legacy offering
    * exactly when the DTO has a non-zero course id, and that offering's roster is the DTO's
    * students. */
  lemma MappedClassFallback(dto: ManagedClassDto)
    ensures var drafts := SetupStore.FallbackDrafts(Some(MapManagedClass(dto)));
      && (drafts == [] <==> dto.courseId.None? || dto.courseId.value == 0)
      && (drafts != [] ==>
            |drafts| == 1 && drafts[0].courseId == Finite(dto.courseId.value) &&
            |drafts[0].studentIds| == |dto.students.GetOr([])| &&
            forall k :: 0 <= k < |drafts[0].studentIds| ==> drafts[0].studentIds[k] == dto.students.GetOr([])[k].studentId)
  {
  }

  /** `formatDateForApi`: the date part of an ISO timestamp, or the value itself when shorter. */
  function FormatDateForApi(value: string): (r: string)
    ensures r <= value
    ensures |r| == (if |value| >= 10 then 10 else |value|)
  {
    if value == "" then value else if |value| >= 10 then value[..10] else value
  }

  lemma FormatDateForApiIdempotent(value: string)
    ensures FormatDateForApi(FormatDateForApi(value)) == FormatDateForApi(value)
  {
  }

  // ---------------------------------------------------------------------------------------
  // Class payload fallback

  const NoSubjectForDepartmentMessage := "No subject found for the selected department. Please create a subject first."
  const NoActiveTeacherMessage := "No active teacher found. Please activate or create a teacher account first."

  /** Which lists `resolveClassPayloadForBackend` fetches, and what it resolves to. */
  datatype PayloadResolution = PayloadResolution(
    fetchesCourses: bool, fetchesTeachers: bool, result: Result<CreateClassRequest>)

  function IsActiveUser(u: User): bool {
    u.isActive
  }

  function InDepartment(departmentId: int): Course -> bool {
    (c: Course) => c.departmentId == departmentId
  }

  /** `resolveClassPayloadForBackend`. `manageable` and `teachers` are what the two fetches
    * answer; a failed fetch counts as an empty list. */
  function ResolveClassPayloadForBackend(data: CreateClassRequest, currentUser: Option<User>,
                                         manageable: Result<seq<Course>>, teachers: Result<seq<User>>): PayloadResolution
  {
    var needsCourse := data.courseId.None? || data.courseId.value == 0;
    var needsTeacher := !HasText(data.teacherId);
    var currentTeacherId := if currentUser.Some? && currentUser.value.role == "Teacher" then Some(currentUser.value.id) else None;
    if !needsCourse && !needsTeacher then PayloadResolution(false, false, Ok(data))
    else
      var fetchesCourses := needsCourse;
      var fetchesTeachers := needsTeacher && !HasText(currentTeacherId);
      var courses := if fetchesCourses && manageable.Ok? then manageable.value else [];
      var users := if fetchesTeachers && teachers.Ok? then teachers.value else [];
      var departmentCourses := Filter(courses, InDepartment(data.departmentId));
      var fallbackCourseId := if |departmentCourses| > 0 then Some(departmentCourses[0].id) else None;
      var activeTeachers := Filter(users, IsActiveUser);
      var fallbackTeacherId :=
        if currentTeacherId.Some? then currentTeacherId
        else if |activeTeachers| > 0 then Some(activeTeachers[0].id) else None;
      var courseId := if data.courseId.Some? then data.courseId else fallbackCourseId;
      var teacherId := if data.teacherId.Some? then data.teacherId else fallbackTeacherId;
      if courseId.None? || courseId.value == 0 then PayloadResolution(fetchesCourses, fetchesTeachers, Err(NoSubjectForDepartmentMessage))
      else if !HasText(teacherId) then PayloadResolution(fetchesCourses, fetchesTeachers, Err(NoActiveTeacherMessage))
      else PayloadResolution(fetchesCourses, fetchesTeachers, Ok(data.(courseId := courseId, teacherId := teacherId)))
  }

  /** A resolved payload always carries a truthy course and teacher and otherwise equals the
    * request; a request that already has both is sent as it is, without fetching. */
  lemma ResolveClassPayloadSpec(data: CreateClassRequest, currentUser: Option<User>,
                                manageable: Result<seq<Course>>, teachers: Result<seq<User>>)
    ensures var r := ResolveClassPayloadForBackend(data, currentUser, manageable, teachers);
      && (r.result.Ok? ==>
            && r.result.value.courseId.Some? && r.result.value.courseId.value != 0
            && HasText(r.result.value.teacherId)
            && r.result.value.(courseId := data.courseId, teacherId := data.teacherId) == data)
      && (data.courseId.Some? && data.courseId.value != 0 && HasText(data.teacherId) ==>
            r == PayloadResolution(false, false, Ok(data)))
      && (r.fetchesCourses <==> data.courseId.None? || data.courseId.value == 0)
      && (r.result.Err? ==> r.result.message in {NoSubjectForDepartmentMessage, NoActiveTeacherMessage})
  {
  }

  /** The fallback course is the first course of the request's department, and a Teacher user
    * is their own fallback teacher, so no teacher list is fetched for them. */
  lemma ResolveFallbacks(data: CreateClassRequest, currentUser: Option<User>,
                         manageable: Result<seq<Course>>, teachers: Result<seq<User>>)
    requires data.courseId.None?
    requires currentUser.Some? && currentUser.value.role == "Teacher" && currentUser.value.id != ""
    requires data.teacherId.None?
    requires manageable.Ok?
    ensures var r := ResolveClassPayloadForBackend(data, currentUser, manageable, teachers);
      && !r.fetchesTeachers
      && (!(exists i :: 0 <= i < |manageable.value| && manageable.value[i].departmentId == data.departmentId) ==>
            r.result == Err(NoSubjectForDepartmentMessage))
      && ((exists i :: 0 <= i < |manageable.value| && manageable.value[i].departmentId == data.departmentId &&
            manageable.value[i].id != 0 &&
            (forall j :: 0 <= j < i ==> manageable.value[j].departmentId != data.departmentId)) ==> r.result.Ok?)
      && (r.result.Ok? ==>
            && r.result.value.teacherId == Some(currentUser.value.id)
            && exists i :: 0 <= i < |manageable.value| && manageable.value[i].departmentId == data.departmentId &&
                 Some(manageable.value[i].id) == r.result.value.courseId &&
                 (forall j :: 0 <= j < i ==> manageable.value[j].departmentId != data.departmentId))
  {
    var m := manageable.value;
    var p := InDepartment(data.departmentId);
    var i := FirstPassing(m, p);
    ResolveAsTeacher(data, currentUser, manageable, teachers);
    FilterHead(m, p);
    if exists k :: 0 <= k < |m| && m[k].departmentId == data.departmentId {
      var k :| 0 <= k < |m| && m[k].departmentId == data.departmentId;
      assert p(m[k]);
    }
    forall k | 0 <= k < |m| && m[k].departmentId == data.departmentId &&
        (forall j :: 0 <= j < k ==> m[j].departmentId != data.departmentId)
      ensures k == i
    {
      assert p(m[k]);
      assert i <= k;
      assert p(m[i]);
    }
  }

  /** For a Teacher with neither course nor teacher in the request, the payload takes the
    * first course of the department and the Teacher's own id. */
  lemma ResolveAsTeacher(data: CreateClassRequest, currentUser: Option<User>,
                         manageable: Result<seq<Course>>, teachers: Result<seq<User>>)
    requires data.courseId.None?
    requires currentUser.Some? && currentUser.value.role == "Teacher" && currentUser.value.id != ""
    requires data.teacherId.None?
    requires manageable.Ok?
    ensures var r := ResolveClassPayloadForBackend(data, currentUser, manageable, teachers);
      var dept := Filter(manageable.value, InDepartment(data.departmentId));
      && !r.fetchesTeachers
      && r.result == if dept == [] || dept[0].id == 0 then Err(NoSubjectForDepartmentMessage)
                     else Ok(data.(courseId := Some(dept[0].id), teacherId := Some(currentUser.value.id)))
  {
  }

  /** The course fallback, for every user: a request without a course fetches the manageable
    * courses and takes the first one of its department, or fails with the subject error when
    * the department has none. */
  lemma ResolveFallbackCourse(data: CreateClassRequest, currentUser: Option<User>,
                              manageable: Result<seq<Course>>, teachers: Result<seq<User>>)
    requires data.courseId.None?
    ensures var r := ResolveClassPayloadForBackend(data, currentUser, manageable, teachers);
      var dept := Filter(if manageable.Ok? then manageable.value else [], InDepartment(data.departmentId));
      && r.fetchesCourses
      && (dept == [] || dept[0].id == 0 ==> r.result == Err(NoSubjectForDepartmentMessage))
      && (r.result.Ok? ==> dept != [] && r.result.value.courseId == Some(dept[0].id))
  {
  }

  /** The teacher fallback for anyone but a Teacher: a request without a teacher fetches the
    * teacher list and takes its first active user; with the course settled, no such user (or
    * one without an id) is the teacher error. */
  lemma ResolveFallbackTeacher(data: CreateClassRequest, currentUser: Option<User>,
                               manageable: Result<seq<Course>>, teachers: Result<seq<User>>)
    requires data.teacherId.None?
    requires !(currentUser.Some? && currentUser.value.role == "Teacher")
    ensures var r := ResolveClassPayloadForBackend(data, currentUser, manageable, teachers);
      var active := Filter(if teachers.Ok? then teachers.value else [], IsActiveUser);
      && r.fetchesTeachers
      && (r.result.Ok? ==> active != [] && r.result.value.teacherId == Some(active[0].id))
      && (r.result == Err(NoActiveTeacherMessage) ==> active == [] || active[0].id == "")
      && (data.courseId.Some? && data.courseId.value != 0 ==>
            r.result == if active == [] || active[0].id == "" then Err(NoActiveTeacherMessage)
                        else Ok(data.(teacherId := Some(active[0].id))))
  {
  }

  /** The index of the first element that passes `p`, or the length when none does. */
  function FirstPassing<T>(s: seq<T>, p: T -> bool): (i: nat)
    ensures i <= |s|
    ensures i < |s| ==> p(s[i])
    ensures forall j :: 0 <= j < i ==> !p(s[j])
  {
    if s == [] then 0
    else if p(s[0]) then 0
    else 1 + FirstPassing(s[1..], p)
  }

  /** The head of a filter is the first element that passes it. */
  lemma {:induction false} FilterHead<T>(s: seq<T>, p: T -> bool)
    ensures Filter(s, p) == [] <==> FirstPassing(s, p) == |s|
    ensures Filter(s, p) != [] ==> Filter(s, p)[0] == s[FirstPassing(s, p)]
  {
    if s != [] && !p(s[0]) {
      FilterHead(s[1..], p);
    }
  }

  // ---------------------------------------------------------------------------------------
  // Notification event stream (framing after section 9.2 of the WHATWG HTML Living Standard)

  /** `mapNotification`'s input: the fields the service reads from an event's JSON. */
  datatype NotificationDto = NotificationDto(
    id: int, title: Option<string>, message: Option<string>, isRead: bool, createdAt: Option<string>)

  /** `mapNotification`; `currentUserId` is the signed-in user's id and `nowIso` the current time. */
  function MapNotification(dto: NotificationDto, currentUserId: Option<string>, nowIso: string): (n: Notification)
    ensures n.kind == GeneralNotice && n.id == dto.id && n.isRead == dto.isRead
    ensures n.title == dto.title.GetOr("") && n.message == dto.message.GetOr("")
    ensures n.createdAt == dto.createdAt.GetOr(nowIso) && n.userId == currentUserId.GetOr("")
  {
    Notification(dto.id, dto.title.GetOr(""), dto.message.GetOr(""), GeneralNotice, dto.isRead,
      dto.createdAt.GetOr(nowIso), currentUserId.GetOr(""))
  }

  predicate NotCR(c: char) {
    c != '\r'
  }

  /** `s.replace(/\r/g, '')` */
  function RemoveCR(s: string): string {
    Filter(s, NotCR)
  }

  predicate BlankLineAt(s: string, i: int) {
    0 <= i && i + 1 < |s| && s[i] == '\n' && s[i + 1] == '\n'
  }

  /** `s.indexOf('\n\n')` */
  function IndexOfBlankLine(s: string): (k: int)
    ensures -1 <= k && k + 1 < |s| + (if k == -1 then 2 else 0)
  {
    if |s| < 2 then -1
    else if s[0] == '\n' && s[1] == '\n' then 0
    else
      var k := IndexOfBlankLine(s[1..]);
      if k == -1 then -1 else k + 1
  }

  /** `indexOf` finds the first blank line, and gives -1 exactly when there is none. */
  lemma {:induction false} IndexOfBlankLineSpec(s: string)
    ensures IndexOfBlankLine(s) == -1 <==> forall i :: 0 <= i < |s| ==> !BlankLineAt(s, i)
    ensures IndexOfBlankLine(s) >= 0 ==>
      BlankLineAt(s, IndexOfBlankLine(s)) && forall i :: 0 <= i < IndexOfBlankLine(s) ==> !BlankLineAt(s, i)
  {
    if |s| >= 2 {
      if s[0] == '\n' && s[1] == '\n' {
        assert BlankLineAt(s, 0);
      } else {
        IndexOfBlankLineSpec(s[1..]);
        assert !BlankLineAt(s, 0);
        forall i | 1 <= i < |s| ensures BlankLineAt(s, i) <==> BlankLineAt(s[1..], i - 1) {
        }
        var k := IndexOfBlankLine(s[1..]);
        if k >= 0 {
          assert BlankLineAt(s, k + 1);
        } else {
          forall i | 0 <= i < |s| ensures !BlankLineAt(s, i) {
            if i > 0 { assert !BlankLineAt(s[1..], i - 1); }
          }
        }
      }
    }
  }

  /** The complete events of a CR-free text and what is left after the last one. */
  datatype Framing = Framing(chunks: seq<string>, rest: string)

  function Frames(s: string): Framing
    decreases |s|
  {
    var b := IndexOfBlankLine(s);
    if b < 0 then Framing([], s)
    else
      var tail := Frames(s[b + 2..]);
      Framing([s[..b]] + tail.chunks, tail.rest)
  }

  /** The text the framing came from: each event followed by its blank line, then the rest. */
  function Unframe(chunks: seq<string>, rest: string): string {
    if chunks == [] then rest else chunks[0] + "\n\n" + Unframe(chunks[1..], rest)
  }

  /** Framing loses nothing: putting the events and their blank lines back gives the text. */
  lemma {:induction false} FramesRoundTrip(s: string)
    ensures Unframe(Frames(s).chunks, Frames(s).rest) == s
    decreases |s|
  {
    var b := IndexOfBlankLine(s);
    if b >= 0 {
      var rest := s[b + 2..];
      var t := Frames(rest);
      assert Frames(s) == Framing([s[..b]] + t.chunks, t.rest);
      FramesRoundTrip(rest);
      UnframeCons(s[..b], t.chunks, t.rest);
      SplitAtBlankLine(s);
    }
  }

  lemma UnframeCons(c: string, chunks: seq<string>, rest: string)
    ensures Unframe([c] + chunks, rest) == c + "\n\n" + Unframe(chunks, rest)
  {
    assert ([c] + chunks)[1..] == chunks;
  }

  /** A text with a blank line is what precedes it, the blank line, and what follows it. */
  lemma SplitAtBlankLine(s: string)
    requires IndexOfBlankLine(s) >= 0
    ensures var b := IndexOfBlankLine(s); s == s[..b] + "\n\n" + s[b + 2..]
  {
    var b := IndexOfBlankLine(s);
    IndexOfBlankLineSpec(s);
    assert BlankLineAt(s, b);
    assert s[b..b + 2] == "\n\n";
    assert s == s[..b] + s[b..b + 2] + s[b + 2..];
  }

  /** No event and no remainder contains a blank line. */
  lemma {:induction false} FramesHaveNoBlankLine(s: string)
    ensures IndexOfBlankLine(Frames(s).rest) == -1
    ensures forall k :: 0 <= k < |Frames(s).chunks| ==> IndexOfBlankLine(Frames(s).chunks[k]) == -1
    decreases |s|
  {
    var b := IndexOfBlankLine(s);
    if b >= 0 {
      FramesHaveNoBlankLine(s[b + 2..]);
      var f := Frames(s);
      var head := s[..b];
      IndexOfBlankLineSpec(s);
      IndexOfBlankLineSpec(head);
      forall i | 0 <= i < |head| ensures !BlankLineAt(head, i) {
        assert BlankLineAt(head, i) ==> BlankLineAt(s, i);
      }
      forall k | 0 <= k < |f.chunks| ensures IndexOfBlankLine(f.chunks[k]) == -1 {
        if k > 0 {
          assert f.chunks[k] == Frames(s[b + 2..]).chunks[k - 1];
        }
      }
    }
  }

  function StartsWithData(line: string): bool {
    "data:" <= line
  }

  /** `chunk.split('\n').find((line) => line.startsWith('data:'))` */
  function FirstDataLine(lines: seq<string>): (r: Option<string>)
    ensures r.Some? ==> r.value in lines && StartsWithData(r.value)
    ensures r.None? ==> forall k :: 0 <= k < |lines| ==> !StartsWithData(lines[k])
  {
    if lines == [] then None
    else if StartsWithData(lines[0]) then Some(lines[0])
    else FirstDataLine(lines[1..])
  }

  /** The notification one event yields: its first `data:` line, trimmed after the field name,
    * parsed by `parse` (`None` for malformed JSON), then mapped. */
  function EventNotification(chunk: string, parse: string -> Option<NotificationDto>,
                             currentUserId: Option<string>, nowIso: string): Option<Notification>
  {
    var line := FirstDataLine(Split(chunk, '\n'));
    if line.None? then None
    else
      var raw := Trim(line.value[5..]);
      if raw == "" then None
      else
        var dto := parse(raw);
        if dto.None? then None else Some(MapNotification(dto.value, currentUserId, nowIso))
  }

  /** What the stream handler makes of one event. */
  function Emitter(parse: string -> Option<NotificationDto>, currentUserId: Option<string>,
                   nowIso: string): string -> Option<Notification>
  {
    (chunk: string) => EventNotification(chunk, parse, currentUserId, nowIso)
  }

  /** The notification list after handling `chunks` in order, each new one put first. */
  function Collect(chunks: seq<string>, acc: seq<Notification>, emit: string -> Option<Notification>): seq<Notification>
  {
    if chunks == [] then acc
    else
      var before := Collect(chunks[..|chunks| - 1], acc, emit);
      var n := emit(chunks[|chunks| - 1]);
      if n.Some? then [n.value] + before else before
  }

  /** The notifications the events yield, oldest first. */
  function Yielded(chunks: seq<string>, emit: string -> Option<Notification>): seq<Notification>
  {
    if chunks == [] then []
    else
      var n := emit(chunks[0]);
      (if n.Some? then [n.value] else []) + Yielded(chunks[1..], emit)
  }

  function Reverse<T>(s: seq<T>): (r: seq<T>)
    ensures |r| == |s|
    ensures forall i :: 0 <= i < |s| ==> r[i] == s[|s| - 1 - i]
  {
    if s == [] then [] else Reverse(s[1..]) + [s[0]]
  }

  lemma {:induction false} YieldedSnoc(chunks: seq<string>, c: string, emit: string -> Option<Notification>)
    ensures var n := emit(c);
      Yielded(chunks + [c], emit) == Yielded(chunks, emit) + (if n.Some? then [n.value] else [])
  {
    var e := if emit(c).Some? then [emit(c).value] else [];
    if chunks == [] {
      assert [c][1..] == [];
      assert Yielded([c], emit) == e + Yielded([], emit);
    } else {
      var s := chunks + [c];
      assert s[0] == chunks[0] && s[1..] == chunks[1..] + [c];
      YieldedSnoc(chunks[1..], c, emit);
      var h := if emit(chunks[0]).Some? then [emit(chunks[0]).value] else [];
      var y := Yielded(chunks[1..], emit);
      assert Yielded(s, emit) == h + (y + e);
      assert Yielded(chunks, emit) == h + y;
      assert h + (y + e) == (h + y) + e;
    }
  }

  /** Newest first: the list after a batch of events is the yielded notifications, latest event
    * first, in front of the old list; at most one notification per event. */
  lemma {:induction false} CollectNewestFirst(chunks: seq<string>, acc: seq<Notification>,
                                              emit: string -> Option<Notification>)
    ensures Collect(chunks, acc, emit) == Reverse(Yielded(chunks, emit)) + acc
    ensures |Yielded(chunks, emit)| <= |chunks|
  {
    if chunks != [] {
      var init := chunks[..|chunks| - 1];
      var c := chunks[|chunks| - 1];
      CollectNewestFirst(init, acc, emit);
      assert chunks == init + [c];
      YieldedSnoc(init, c, emit);
      var n := emit(c);
      ReverseSnocOpt(Yielded(init, emit), if n.Some? then [n.value] else []);
    }
  }

  /** Reversal puts a last element of at most one first. */
  lemma ReverseSnocOpt<T>(s: seq<T>, e: seq<T>)
    requires |e| <= 1
    ensures Reverse(s + e) == e + Reverse(s)
  {
    if e == [] {
      assert s + e == s;
    } else {
      assert e == [e[0]];
      ReverseSnoc(s, e[0]);
    }
  }

  lemma ReverseSnoc<T>(s: seq<T>, x: T)
    ensures Reverse(s + [x]) == [x] + Reverse(s)
  {
    var r := Reverse(s + [x]);
    assert forall i :: 0 <= i < |r| ==> r[i] == ([x] + Reverse(s))[i];
  }

  /** An event without a `data:` line, or whose data is blank or malformed, yields nothing. */
  lemma EventWithoutPayload(chunk: string, parse: string -> Option<NotificationDto>,
                            currentUserId: Option<string>, nowIso: string)
    ensures var line := FirstDataLine(Split(chunk, '\n'));
      (line.None? || Trim(line.value[5..]) == "" || parse(Trim(line.value[5..])).None?) <==>
        EventNotification(chunk, parse, currentUserId, nowIso).None?
  {
  }

  /** One pass of the stream's read loop over its local `buffer` and `notifications`: append the
    * decoded `text`, then handle every complete event of the CR-free buffer, newest
    * notification first. When no event completes, the buffer keeps the text as received. */
  method ReadChunk(buffer: string, notifications: seq<Notification>, text: string,
                   parse: string -> Option<NotificationDto>, currentUserId: Option<string>, nowIso: string)
    returns (newBuffer: string, newNotifications: seq<Notification>)
    ensures var cleaned := RemoveCR(buffer + text);
      && newNotifications == Collect(Frames(cleaned).chunks, notifications, Emitter(parse, currentUserId, nowIso))
      && newBuffer == (if IndexOfBlankLine(cleaned) < 0 then buffer + text else Frames(cleaned).rest)
    ensures IndexOfBlankLine(RemoveCR(newBuffer)) == -1
  {
    newBuffer := buffer + text;
    newNotifications := notifications;
    var cleaned := RemoveCR(newBuffer);
    RemoveCRSpec(newBuffer);
    var normalized := cleaned;
    var boundary := IndexOfBlankLine(normalized);
    ghost var done: seq<string> := [];
    ghost var advanced := false;
    while boundary >= 0
      invariant boundary == IndexOfBlankLine(normalized)
      invariant Frames(cleaned).chunks == done + Frames(normalized).chunks
      invariant Frames(cleaned).rest == Frames(normalized).rest
      invariant newNotifications == Collect(done, notifications, Emitter(parse, currentUserId, nowIso))
      invariant !advanced ==> newBuffer == buffer + text && normalized == cleaned && done == []
      invariant advanced ==> newBuffer == normalized && IndexOfBlankLine(cleaned) >= 0
      invariant '\r' !in normalized
      decreases |normalized|
    {
      var chunk := normalized[..boundary];
      DrainStep(cleaned, normalized, done, newNotifications, notifications, parse, currentUserId, nowIso);
      var n := EventNotification(chunk, parse, currentUserId, nowIso);
      if n.Some? {
        newNotifications := [n.value] + newNotifications;
      }
      done := done + [chunk];
      advanced := true;
      normalized := normalized[boundary + 2..];
      newBuffer := normalized;
      boundary := IndexOfBlankLine(normalized);
    }
    DrainEnd(cleaned, normalized, done);
    if advanced {
      RemoveCRIdle(normalized);
    }
    FramesHaveNoBlankLine(cleaned);
  }

  /** One event handled by the read loop keeps the loop's account of the framing and the list. */
  lemma DrainStep(cleaned: string, normalized: string, done: seq<string>, acc: seq<Notification>,
                  notifications: seq<Notification>, parse: string -> Option<NotificationDto>,
                  currentUserId: Option<string>, nowIso: string)
    requires IndexOfBlankLine(normalized) >= 0
    requires Frames(cleaned).chunks == done + Frames(normalized).chunks
    requires Frames(cleaned).rest == Frames(normalized).rest
    requires acc == Collect(done, notifications, Emitter(parse, currentUserId, nowIso))
    requires '\r' !in normalized
    ensures var b := IndexOfBlankLine(normalized);
      var next := normalized[b + 2..];
      var n := EventNotification(normalized[..b], parse, currentUserId, nowIso);
      && Frames(cleaned).chunks == (done + [normalized[..b]]) + Frames(next).chunks
      && Frames(cleaned).rest == Frames(next).rest
      && (if n.Some? then [n.value] + acc else acc) == Collect(done + [normalized[..b]], notifications, Emitter(parse, currentUserId, nowIso))
      && '\r' !in next
  {
    var b := IndexOfBlankLine(normalized);
    DrainFraming(cleaned, normalized, done);
    CollectSnoc(done, normalized[..b], notifications, Emitter(parse, currentUserId, nowIso));
    CRFreeSuffix(normalized, b + 2);
  }

  /** Taking one event off the front of the text moves it to the end of the events handled. */
  lemma DrainFraming(cleaned: string, normalized: string, done: seq<string>)
    requires IndexOfBlankLine(normalized) >= 0
    requires Frames(cleaned).chunks == done + Frames(normalized).chunks
    requires Frames(cleaned).rest == Frames(normalized).rest
    ensures var b := IndexOfBlankLine(normalized);
      && Frames(cleaned).chunks == (done + [normalized[..b]]) + Frames(normalized[b + 2..]).chunks
      && Frames(cleaned).rest == Frames(normalized[b + 2..]).rest
  {
    FrameStep(normalized);
  }

  /** Handling one more event prepends its notification, if it yields one. */
  lemma CollectSnoc(done: seq<string>, chunk: string, notifications: seq<Notification>,
                    emit: string -> Option<Notification>)
    ensures var n := emit(chunk);
      var acc := Collect(done, notifications, emit);
      Collect(done + [chunk], notifications, emit) == if n.Some? then [n.value] + acc else acc
  {
    assert (done + [chunk])[..|done|] == done;
  }

  /** When no blank line is left, the events handled are all the events of the text. */
  lemma DrainEnd(cleaned: string, normalized: string, done: seq<string>)
    requires IndexOfBlankLine(normalized) < 0
    requires Frames(cleaned).chunks == done + Frames(normalized).chunks
    requires Frames(cleaned).rest == Frames(normalized).rest
    ensures Frames(cleaned).chunks == done && Frames(cleaned).rest == normalized
  {
    assert Frames(normalized) == Framing([], normalized);
    assert done + [] == done;
  }

  /** The buffer after removing carriage returns holds none. */
  lemma RemoveCRSpec(s: string)
    ensures '\r' !in RemoveCR(s)
  {
    FilterSpec(s, NotCR);
  }

  lemma FrameStep(s: string)
    requires IndexOfBlankLine(s) >= 0
    ensures var b := IndexOfBlankLine(s);
      Frames(s) == Framing([s[..b]] + Frames(s[b + 2..]).chunks, Frames(s[b + 2..]).rest)
  {
  }

  lemma CRFreeSuffix(s: string, k: int)
    requires 0 <= k <= |s| && '\r' !in s
    ensures '\r' !in s[k..]
  {
  }

  /** Removing CRs again changes nothing, so the retained buffer's blank-line check is on the
    * CR-free text. */
  lemma RemoveCRIdle(s: string)
    requires '\r' !in s
    ensures RemoveCR(s) == s
  {
    FilterAll(s, NotCR);
  }
}
