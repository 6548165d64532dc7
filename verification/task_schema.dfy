/**
 * The request schemas of the task API: the status enumeration, calendar
 * dates, and the bodies of "create", "update" and "update status" requests
 * with their field constraints and defaults. A request body is given as the
 * JSON members the client sent (`Field`); parsing it either yields the
 * validated schema object the handlers receive or a validation error (which
 * the web framework answers with status 422 before any handler runs).
 */
module TaskSchema {
  import opened Wrappers

  /** The three statuses a task can have. */
  datatype TaskStatus = Todo | InProgress | Done

  /** The enum member's value: the token stored in the database and sent over the wire. */
  function StatusValue(s: TaskStatus): string {
    match s
    case Todo => "todo"
    case InProgress => "in_progress"
    case Done => "done"
  }

  /** Looking a token up in the enumeration: exactly the three member values are accepted. */
  function ParseStatus(v: string): (r: Option<TaskStatus>)
    ensures r.Some? ==> StatusValue(r.value) == v
    ensures r.None? ==> forall s: TaskStatus :: StatusValue(s) != v
  {
    if v == "todo" then Some(Todo)
    else if v == "in_progress" then Some(InProgress)
    else if v == "done" then Some(Done)
    else None
  }

  /** Every member's value parses back to that member. */
  lemma ParseStatusValue(s: TaskStatus)
    ensures ParseStatus(StatusValue(s)) == Some(s)
  {
    match s
    case Todo =>
    case InProgress =>
    case Done =>
  }

  /** A calendar date (Python's `datetime.date`); `ValidDate` says which triples are real dates. */
  datatype Date = Date(year: nat, month: nat, day: nat)

  const MinYear := 1
  const MaxYear := 9999

  predicate IsLeapYear(y: nat) {
    (y % 4 == 0 && y % 100 != 0) || y % 400 == 0
  }

  function DaysInMonth(y: nat, m: nat): nat
    requires 1 <= m <= 12
  {
    if m == 2 then (if IsLeapYear(y) then 29 else 28)
    else if m == 4 || m == 6 || m == 9 || m == 11 then 30
    else 31
  }

  predicate ValidDate(d: Date) {
    MinYear <= d.year <= MaxYear && 1 <= d.month <= 12 && 1 <= d.day <= DaysInMonth(d.year, d.month)
  }

  const TitleMinLength := 1
  const TitleMaxLength := 200

  /** The title constraint shared by creation and update. */
  predicate ValidTitle(t: string) {
    TitleMinLength <= |t| <= TitleMaxLength
  }

  /** One member of a JSON request body: left out, sent as `null`, or sent with a value. */
  datatype Field<+T> = Missing | Null | Given(value: T)

  /** A task request body as the client sent it; the status is still a raw token. */
  datatype TaskBody = TaskBody(
    title: Field<string>,
    description: Field<string>,
    status: Field<string>,
    deadline: Field<Date>,
    assigneeId: Field<int>)

  /** Why a request body was rejected. */
  datatype SchemaError =
    | FieldRequired(field: string)
    | NullNotAllowed(field: string)
    | TitleLength(length: nat)
    | NotAStatus(token: string)
    | NotADate(field: string)

  /** The validated body of a "create task" request (`TaskCreate`). */
  datatype TaskCreate = TaskCreate(
    title: string,
    description: Option<string>,
    status: TaskStatus,
    deadline: Option<Date>,
    assigneeId: Option<int>)
  {
    predicate Valid() {
      ValidTitle(title) && (deadline.Some? ==> ValidDate(deadline.value))
    }
  }

  /**
   * The validated body of an "update task" request (`TaskUpdate`). Every
   * member keeps whether it was left out, so that only the members the client
   * actually sent are applied.
   */
  datatype TaskUpdate = TaskUpdate(
    title: Field<string>,
    description: Field<string>,
    status: Field<TaskStatus>,
    deadline: Field<Date>,
    assigneeId: Field<int>)
  {
    predicate Valid() {
      (title.Given? ==> ValidTitle(title.value)) && (deadline.Given? ==> ValidDate(deadline.value))
    }
  }

  /** The validated body of an "update status" request (`TaskStatusUpdate`). */
  datatype TaskStatusUpdate = TaskStatusUpdate(status: TaskStatus)

  /** The update that sends no member at all. */
  const NoChanges: TaskUpdate := TaskUpdate(Missing, Missing, Missing, Missing, Missing)

  /** A required string member that must satisfy the title bounds. */
  function CheckTitle(f: Field<string>): (r: Result<string, SchemaError>)
    ensures r.Ok? <==> f.Given? && ValidTitle(f.value)
    ensures r.Ok? ==> r.value == f.value
  {
    match f
    case Missing => Err(FieldRequired("title"))
    case Null => Err(NullNotAllowed("title"))
    case Given(t) => if ValidTitle(t) then Ok(t) else Err(TitleLength(|t|))
  }

  /** A nullable member with a default of None: left out or null both give None. */
  function OrNone<T>(f: Field<T>): (r: Option<T>)
    ensures r.Some? <==> f.Given?
    ensures r.Some? ==> r.value == f.value
  {
    match f
    case Given(v) => Some(v)
    case _ => None
  }

  /**
   * Validation of a "create task" body: the title is required and bounded,
   * the status defaults to `todo` when left out and must be a member when
   * sent, the other members are optional and default to None.
   */
  function ParseTaskCreate(b: TaskBody): (r: Result<TaskCreate, SchemaError>)
    ensures r.Ok? <==>
      && b.title.Given? && ValidTitle(b.title.value)
      && (b.status.Missing? || (b.status.Given? && ParseStatus(b.status.value).Some?))
      && (b.deadline.Given? ==> ValidDate(b.deadline.value))
    ensures r.Ok? ==> r.value.Valid() && r.value.title == b.title.value
    ensures r.Ok? && b.status.Missing? ==> r.value.status == Todo
    ensures r.Ok? && b.status.Given? ==> StatusValue(r.value.status) == b.status.value
    ensures r.Ok? ==>
      && r.value.description == OrNone(b.description)
      && r.value.deadline == OrNone(b.deadline)
      && r.value.assigneeId == OrNone(b.assigneeId)
  {
    match CheckTitle(b.title)
    case Err(e) => Err(e)
    case Ok(title) =>
      var status :=
        match b.status
        case Missing => Ok(Todo)
        case Null => Err(NullNotAllowed("status"))
        case Given(v) => if ParseStatus(v).Some? then Ok(ParseStatus(v).value) else Err(NotAStatus(v));
      if status.Err? then Err(status.error)
      else if b.deadline.Given? && !ValidDate(b.deadline.value) then Err(NotADate("deadline"))
      else Ok(TaskCreate(title, OrNone(b.description), status.value, OrNone(b.deadline), OrNone(b.assigneeId)))
  }

  /**
   * Validation of an "update task" body: every member is optional and may be
   * null; a title that is sent must satisfy the bounds and a status that is
   * sent must be a member.
   */
  function ParseTaskUpdate(b: TaskBody): (r: Result<TaskUpdate, SchemaError>)
    ensures r.Ok? <==>
      && (b.title.Given? ==> ValidTitle(b.title.value))
      && (b.status.Given? ==> ParseStatus(b.status.value).Some?)
      && (b.deadline.Given? ==> ValidDate(b.deadline.value))
    ensures r.Ok? ==> r.value.Valid()
    ensures r.Ok? ==>
      && r.value.title == b.title && r.value.description == b.description
      && r.value.deadline == b.deadline && r.value.assigneeId == b.assigneeId
    ensures r.Ok? ==> (r.value.status.Missing? <==> b.status.Missing?) && (r.value.status.Null? <==> b.status.Null?)
    ensures r.Ok? && b.status.Given? ==> StatusValue(r.value.status.value) == b.status.value
  {
    if b.title.Given? && !ValidTitle(b.title.value) then Err(TitleLength(|b.title.value|))
    else
      var status: Result<Field<TaskStatus>, SchemaError> :=
        match b.status
        case Missing => Ok(Missing)
        case Null => Ok(Null)
        case Given(v) => if ParseStatus(v).Some? then Ok(Given(ParseStatus(v).value)) else Err(NotAStatus(v));
      if status.Err? then Err(status.error)
      else if b.deadline.Given? && !ValidDate(b.deadline.value) then Err(NotADate("deadline"))
      else Ok(TaskUpdate(b.title, b.description, status.value, b.deadline, b.assigneeId))
  }

  /** Validation of an "update status" body: the status is required and must be a member. */
  function ParseTaskStatusUpdate(status: Field<string>): (r: Result<TaskStatusUpdate, SchemaError>)
    ensures r.Ok? <==> status.Given? && ParseStatus(status.value).Some?
    ensures r.Ok? ==> StatusValue(r.value.status) == status.value
  {
    match status
    case Missing => Err(FieldRequired("status"))
    case Null => Err(NullNotAllowed("status"))
    case Given(v) => if ParseStatus(v).Some? then Ok(TaskStatusUpdate(ParseStatus(v).value)) else Err(NotAStatus(v))
  }

  /** The body a client sends for a given create request, every member present. */
  function CreateBody(c: TaskCreate): TaskBody {
    TaskBody(
      Given(c.title),
      if c.description.Some? then Given(c.description.value) else Null,
      Given(StatusValue(c.status)),
      if c.deadline.Some? then Given(c.deadline.value) else Null,
      if c.assigneeId.Some? then Given(c.assigneeId.value) else Null)
  }

  /** The body a client sends for a given update request. */
  function UpdateBody(u: TaskUpdate): TaskBody {
    TaskBody(
      u.title,
      u.description,
      match u.status
      case Missing => Missing
      case Null => Null
      case Given(s) => Given(StatusValue(s)),
      u.deadline,
      u.assigneeId)
  }

  /** Every valid create request survives being sent and validated. */
  lemma CreateRoundTrip(c: TaskCreate)
    requires c.Valid()
    ensures ParseTaskCreate(CreateBody(c)) == Ok(c)
  {
    ParseStatusValue(c.status);
  }

  /** Every valid update request survives being sent and validated. */
  lemma UpdateRoundTrip(u: TaskUpdate)
    requires u.Valid()
    ensures ParseTaskUpdate(UpdateBody(u)) == Ok(u)
  {
    if u.status.Given? {
      ParseStatusValue(u.status.value);
    }
  }

  /** Leaving out every optional member of a create body gives status `todo` and no description, deadline or assignee. */
  lemma CreateDefaults(title: string)
    requires ValidTitle(title)
    ensures ParseTaskCreate(TaskBody(Given(title), Missing, Missing, Missing, Missing))
      == Ok(TaskCreate(title, None, Todo, None, None))
  {
  }

  /** An empty update body is accepted and sends nothing. */
  lemma EmptyUpdateAccepted()
    ensures ParseTaskUpdate(TaskBody(Missing, Missing, Missing, Missing, Missing)) == Ok(NoChanges)
  {
  }
}
