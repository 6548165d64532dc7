/**
 * The chatbot query pipeline: the tasks are rendered as a one-line-per-task
 * text snapshot, the snapshot is placed in a fixed prompt with today's date
 * and the user's question, and the language model's answer (or the failure)
 * is shaped into the response envelope. The model call, the database read
 * and the wall clock are inputs: the model's outcome, the fetched rows (or
 * the exception the read raised) and today's date.
 */
module Chatbot {
  import opened Wrappers
  import opened Text
  import opened TaskSchema
  import opened TaskModel

  /** A task as the chatbot reads it: the stored record and, when the assignee exists, the assignee's full name. */
  datatype TaskRow = TaskRow(task: Task, assigneeName: Option<string>)

  const NoTasksMessage := "No tasks found in the system."
  const NoDeadline := "No deadline"
  const Unassigned := "Unassigned"

  /** Display labels of the status tokens; a token not in the map is shown as it is. */
  const StatusLabels: map<string, string> := map["todo" := "Todo", "in_progress" := "In Progress", "done" := "Done"]

  function StatusLabel(status: string): (shown: string)
    ensures ParseStatus(status).None? ==> shown == status
    ensures ParseStatus(status) == Some(Todo) ==> shown == "Todo"
    ensures ParseStatus(status) == Some(InProgress) ==> shown == "In Progress"
    ensures ParseStatus(status) == Some(Done) ==> shown == "Done"
  {
    if status in StatusLabels then StatusLabels[status] else status
  }

  /** The three statuses get three different labels, none of them the raw token. */
  lemma StatusLabelsDistinct(a: TaskStatus, b: TaskStatus)
    ensures StatusLabel(StatusValue(a)) != StatusValue(a)
    ensures StatusLabel(StatusValue(a)) == StatusLabel(StatusValue(b)) ==> a == b
  {
    ParseStatusValue(a);
    ParseStatusValue(b);
  }

  /** A date as `%Y-%m-%d`: four-digit year, two-digit month and day, zero-padded. */
  function FormatDate(d: Date): (s: string)
    ensures ValidDate(d) ==> |s| == 10 && s[4] == '-' && s[7] == '-'
  {
    assert Pow10(2) == 100 && Pow10(4) == 10000;
    ZeroPad(d.year, 4) + "-" + ZeroPad(d.month, 2) + "-" + ZeroPad(d.day, 2)
  }

  /** Reading a `YYYY-MM-DD` text back as a date (the reverse of `FormatDate`). */
  function ParseIsoDate(s: string): (r: Option<Date>)
    ensures r.Some? ==> ValidDate(r.value)
  {
    if |s| == 10 && s[4] == '-' && s[7] == '-' && AllDigits(s[..4]) && AllDigits(s[5..7]) && AllDigits(s[8..]) then
      var d := Date(DigitsValue(s[..4]), DigitsValue(s[5..7]), DigitsValue(s[8..]));
      if ValidDate(d) then Some(d) else None
    else None
  }

  /** The rendered deadline loses nothing: it reads back as the same date. */
  lemma DateRoundTrip(d: Date)
    requires ValidDate(d)
    ensures ParseIsoDate(FormatDate(d)) == Some(d)
  {
    assert Pow10(2) == 100 && Pow10(4) == 10000;
    var y, m, dd := ZeroPad(d.year, 4), ZeroPad(d.month, 2), ZeroPad(d.day, 2);
    var s := FormatDate(d);
    assert s == y + "-" + m + "-" + dd;
    assert s[..4] == y;
    assert s[5..7] == m;
    assert s[8..] == dd;
  }

  /** A deadline as shown in a task line. */
  function DeadlineText(deadline: Option<Date>): string {
    match deadline
    case None => NoDeadline
    case Some(d) => FormatDate(d)
  }

  /** A shown deadline reads back as the task's deadline, and a missing one is never mistaken for a date. */
  lemma DeadlineTextReadsBack(deadline: Option<Date>)
    requires deadline.Some? ==> ValidDate(deadline.value)
    ensures ParseIsoDate(DeadlineText(deadline)) == deadline
  {
    if deadline.Some? {
      DateRoundTrip(deadline.value);
    }
  }

  function AssigneeText(name: Option<string>): (s: string)
    ensures name.None? ==> s == Unassigned
    ensures name.Some? ==> s == name.value
  {
    name.GetOr(Unassigned)
  }

  /** The opening of a task's line: its id. */
  function IdPrefix(id: int): string {
    IdOpen + IntToString(id)
  }

  const IdOpen := "- ID: "
  const TitleOpen := " | Title: \""
  const StatusOpen := "\" | Status: "
  const DeadlineOpen := " | Deadline: "
  const AssigneeOpen := " | Assignee: "

  /** No text of the row that reaches its line contains a line break. */
  predicate SingleLine(r: TaskRow) {
    && '\n' !in r.task.title
    && '\n' !in r.task.status
    && (r.assigneeName.Some? ==> '\n' !in r.assigneeName.value)
  }

  /** Decimal digits hold no line break. */
  lemma DigitsNoLineBreak(s: string)
    requires AllDigits(s)
    ensures '\n' !in s
  {
    forall i | 0 <= i < |s|
      ensures s[i] != '\n'
    {
      assert IsDigit(s[i]);
    }
  }

  /** The text of an integer is digits after an optional minus sign, so it has no line break. */
  lemma IntTextNoLineBreak(s: string)
    requires IsIntText(s)
    ensures '\n' !in s
  {
    if s[0] == '-' {
      DigitsNoLineBreak(s[1..]);
      assert s == [s[0]] + s[1..];
    } else {
      DigitsNoLineBreak(s);
    }
  }

  /** The slices of a text made of three pieces. */
  lemma ThreePieces(a: string, b: string, c: string, k: nat)
    requires k <= |b|
    ensures var s := a + b + c;
      && s[..|a|] == a
      && s[|a|..|a| + k] == b[..k]
      && s[|s| - |c|..] == c
  {
    var s := a + b + c;
    assert s[|a|..] == b + c;
  }

  /**
   * A task line from the text of each of its fields:
   * `- ID: {id} | Title: "{title}" | Status: {status} | Deadline: {deadline} | Assignee: {assignee}`.
   */
  function LineOf(id: string, title: string, status: string, deadline: string, assignee: string): string {
    var head := IdOpen + id + TitleOpen;
    var middle := title + StatusOpen + status + DeadlineOpen + deadline;
    head + middle + (AssigneeOpen + assignee)
  }

  /** Where the id, the title and the assignee sit in a line. */
  lemma LineOfFields(id: string, title: string, status: string, deadline: string, assignee: string)
    ensures var line := LineOf(id, title, status, deadline, assignee);
      && StartsWith(line, IdOpen + id)
      && var at := |IdOpen + id + TitleOpen|;
      && at + |title| <= |line| && line[at..at + |title|] == title
      && |AssigneeOpen + assignee| <= |line| && line[|line| - |AssigneeOpen + assignee|..] == AssigneeOpen + assignee
  {
    var line := LineOf(id, title, status, deadline, assignee);
    var head := IdOpen + id + TitleOpen;
    ThreePieces(head, title + StatusOpen + status + DeadlineOpen + deadline, AssigneeOpen + assignee, |title|);
    SliceWithin(line, 0, |head|, head, 0, |IdOpen + id|);
  }

  /** The fixed text of a line holds no line break, so a line is one line when its fields are. */
  lemma LineOfSingle(id: string, title: string, status: string, deadline: string, assignee: string)
    requires '\n' !in id && '\n' !in title && '\n' !in status && '\n' !in deadline && '\n' !in assignee
    ensures '\n' !in LineOf(id, title, status, deadline, assignee)
  {
  }

  /** The line of one task: its id, title, status label, deadline and assignee, in this order. */
  function FormatLine(r: TaskRow): string {
    LineOf(IntToString(r.task.id), r.task.title, StatusLabel(r.task.status),
      DeadlineText(r.task.deadline), AssigneeText(r.assigneeName))
  }

  /** A task's line starts with its id, shows its title verbatim in the title slot and ends with its assignee. */
  lemma FormatLineFields(r: TaskRow)
    ensures var line := FormatLine(r);
      && StartsWith(line, IdPrefix(r.task.id))
      && var at := |IdPrefix(r.task.id) + TitleOpen|;
      && at + |r.task.title| <= |line| && line[at..at + |r.task.title|] == r.task.title
      && var tail := AssigneeOpen + AssigneeText(r.assigneeName);
      && |tail| <= |line| && line[|line| - |tail|..] == tail
  {
    LineOfFields(IntToString(r.task.id), r.task.title, StatusLabel(r.task.status),
      DeadlineText(r.task.deadline), AssigneeText(r.assigneeName));
  }

  /** A status label has a line break only if the token has one. */
  lemma StatusLabelSingle(status: string)
    requires '\n' !in status
    ensures '\n' !in StatusLabel(status)
  {
  }

  lemma DeadlineTextSingle(deadline: Option<Date>)
    ensures '\n' !in DeadlineText(deadline)
  {
    if deadline.Some? {
      var d := deadline.value;
      var y, m, dd := ZeroPad(d.year, 4), ZeroPad(d.month, 2), ZeroPad(d.day, 2);
      DigitsNoLineBreak(y);
      DigitsNoLineBreak(m);
      DigitsNoLineBreak(dd);
      assert DeadlineText(deadline) == y + "-" + m + "-" + dd;
    }
  }

  /** A line is a single line when no text of the row contains a line break. */
  lemma FormatLineSingle(r: TaskRow)
    requires SingleLine(r)
    ensures '\n' !in FormatLine(r)
  {
    IntTextNoLineBreak(IntToString(r.task.id));
    StatusLabelSingle(r.task.status);
    DeadlineTextSingle(r.task.deadline);
    LineOfSingle(IntToString(r.task.id), r.task.title, StatusLabel(r.task.status),
      DeadlineText(r.task.deadline), AssigneeText(r.assigneeName));
  }

  /** The lines of the tasks, in input order. */
  function TaskLines(rows: seq<TaskRow>): (lines: seq<string>)
    ensures |lines| == |rows|
  {
    MapSeq(rows, FormatLine)
  }

  /** `f` applied to every element, in order (the shape of a loop that appends one result per element). */
  function MapSeq<A, B>(s: seq<A>, f: A -> B): (r: seq<B>)
    ensures |r| == |s|
  {
    if |s| == 0 then [] else MapSeq(s[..|s| - 1], f) + [f(s[|s| - 1])]
  }

  /** Mapping one more element appends its image. */
  lemma MapSeqSnoc<A, B>(s: seq<A>, f: A -> B, i: nat)
    requires i < |s|
    ensures MapSeq(s[..i + 1], f) == MapSeq(s[..i], f) + [f(s[i])]
  {
    assert s[..i + 1][..i] == s[..i];
  }

  /** Element `i` of the result is `f` of element `i`. */
  lemma {:induction false} MapSeqAt<A, B>(s: seq<A>, f: A -> B, i: nat)
    requires i < |s|
    ensures MapSeq(s, f)[i] == f(s[i])
  {
    if i < |s| - 1 {
      var init := s[..|s| - 1];
      MapSeqAt(init, f, i);
      assert init[i] == s[i];
    }
  }

  /** The task snapshot for the prompt: the task lines joined by line breaks, or a sentence when there are none. */
  function FormattedTasks(rows: seq<TaskRow>): string {
    if |rows| == 0 then NoTasksMessage else Join(TaskLines(rows), "\n")
  }

  /**
   * `_format_task_data`: builds the list of lines with a loop and joins it.
   */
  method FormatTaskData(rows: seq<TaskRow>) returns (text: string)
    ensures text == FormattedTasks(rows)
  {
    if |rows| == 0 {
      return NoTasksMessage;
    }
    var lines: seq<string> := [];
    for i := 0 to |rows|
      invariant lines == TaskLines(rows[..i])
    {
      MapSeqSnoc(rows, FormatLine, i);
      lines := lines + [FormatLine(rows[i])];
    }
    assert rows[..|rows|] == rows;
    text := Join(lines, "\n");
  }

  /**
   * With no line break inside titles, status tokens or names, the snapshot has
   * exactly one line per task, in input order, each starting with that task's
   * id; with no tasks it is the single line of the "no tasks" sentence.
   */
  lemma OneLinePerTask(rows: seq<TaskRow>)
    requires forall i :: 0 <= i < |rows| ==> SingleLine(rows[i])
    ensures var lines := Split(FormattedTasks(rows), '\n');
      && (|rows| == 0 ==> lines == [NoTasksMessage])
      && (|rows| > 0 ==> lines == TaskLines(rows) && |lines| == |rows|)
      && (|rows| > 0 ==> forall i :: 0 <= i < |rows| ==> StartsWith(lines[i], IdPrefix(rows[i].task.id)))
  {
    if |rows| == 0 {
      SplitWithoutSeparator(NoTasksMessage, '\n');
    } else {
      TaskLinesSingle(rows);
      SplitJoin(TaskLines(rows), '\n');
      forall i | 0 <= i < |rows|
        ensures StartsWith(TaskLines(rows)[i], IdPrefix(rows[i].task.id))
      {
        MapSeqAt(rows, FormatLine, i);
        FormatLineFields(rows[i]);
      }
    }
  }

  /** No line of the snapshot holds a line break when no row's text does. */
  lemma TaskLinesSingle(rows: seq<TaskRow>)
    requires forall i :: 0 <= i < |rows| ==> SingleLine(rows[i])
    ensures forall i :: 0 <= i < |rows| ==> '\n' !in TaskLines(rows)[i]
  {
    forall i | 0 <= i < |rows|
      ensures '\n' !in TaskLines(rows)[i]
    {
      MapSeqAt(rows, FormatLine, i);
      FormatLineSingle(rows[i]);
    }
  }

  /**
   * The fixed text of the prompt: a role line, the labels of the date, task and
   * question sections, the numbered instructions and a closing line. The prompt
   * puts a blank line between sections and the tasks on the line after their label.
   */
  datatype PromptTemplate = PromptTemplate(
    role: string,
    todayLabel: string,
    tasksLabel: string,
    instructions: string,
    questionLabel: string,
    closing: string)
  {
    /** The text before the date, between the date and the tasks, between the tasks and the question, and after it. */
    function Head(): string { role + "\n\n" + todayLabel }
    function TasksIntro(): string { "\n\n" + tasksLabel + "\n" }
    function Instructions(): string { "\n\n" + instructions + "\n\n" + questionLabel }
    function Closing(): string { "\n\n" + closing }

    /** Where each input starts in the prompt. */
    function TodayAt(): nat { |Head()| }
    function TaskDataAt(today: string): nat { TodayAt() + |today| + |TasksIntro()| }
    function InstructionsAt(today: string, taskData: string): nat { TaskDataAt(today) + |taskData| }
    function QueryAt(today: string, taskData: string): nat { InstructionsAt(today, taskData) + |Instructions()| }
  }

  const Template := PromptTemplate(
    "You are a helpful task management assistant. Your role is to answer questions about tasks in the system based on the provided data.",
    "TODAY'S DATE: ",
    "CURRENT TASKS IN THE SYSTEM:",
    "IMPORTANT INSTRUCTIONS:\n"
    + "1. Only answer questions based on the task data provided above\n"
    + "2. Be concise and helpful in your responses\n"
    + "3. If asked about tasks that don't exist, politely inform the user\n"
    + "4. When counting tasks, be accurate\n"
    + "5. Format your response in PLAIN TEXT only - no markdown, no asterisks, no bullet points with symbols\n"
    + "6. Use simple line breaks and dashes (-) for lists if needed\n"
    + "7. If the question is unclear, ask for clarification\n"
    + "8. Do not make up information that is not in the task data",
    "USER QUESTION: ",
    "Please provide a helpful response based on the task data above.")

  /** A text made of seven pieces, cut back at the piece boundaries. */
  lemma SevenPieces(a: string, b: string, c: string, d: string, e: string, f: string, g: string)
    ensures var p := a + b + c + d + e + f + g;
      var o1 := |a|;
      var o2 := o1 + |b|;
      var o3 := o2 + |c|;
      var o4 := o3 + |d|;
      var o5 := o4 + |e|;
      var o6 := o5 + |f|;
      && |p| == o6 + |g|
      && p[..o1] == a && p[o1..o2] == b && p[o2..o3] == c && p[o3..o4] == d
      && p[o4..o5] == e && p[o5..o6] == f && p[o6..] == g
  {
  }

  /** A slice inside a slice whose contents are known. */
  lemma SliceWithin(p: string, lo: nat, hi: nat, q: string, i: nat, j: nat)
    requires lo <= hi <= |p| && p[lo..hi] == q && i <= j <= |q|
    ensures p[lo + i..lo + j] == q[i..j]
  {
    forall k | 0 <= k < j - i
      ensures p[lo + i..lo + j][k] == q[i..j][k]
    {
      assert q[i + k] == p[lo..hi][i + k];
    }
  }

  /** The prompt of a template: the date, the task snapshot and the question placed verbatim in their slots. */
  function Compose(t: PromptTemplate, userQuery: string, taskData: string, today: string): (p: string)
    ensures |p| == t.QueryAt(today, taskData) + |userQuery| + |t.Closing()|
    ensures p[..t.TodayAt()] == t.Head()
    ensures p[t.TodayAt()..t.TodayAt() + |today|] == today
    ensures p[t.TodayAt() + |today|..t.TaskDataAt(today)] == t.TasksIntro()
    ensures p[t.TaskDataAt(today)..t.InstructionsAt(today, taskData)] == taskData
    ensures p[t.InstructionsAt(today, taskData)..t.QueryAt(today, taskData)] == t.Instructions()
    ensures p[t.QueryAt(today, taskData)..t.QueryAt(today, taskData) + |userQuery|] == userQuery
    ensures p[t.QueryAt(today, taskData) + |userQuery|..] == t.Closing()
  {
    SevenPieces(t.Head(), today, t.TasksIntro(), taskData, t.Instructions(), userQuery, t.Closing());
    t.Head() + today + t.TasksIntro() + taskData + t.Instructions() + userQuery + t.Closing()
  }

  /** `_build_prompt`: the prompt of the assistant's fixed template. */
  function BuildPrompt(userQuery: string, taskData: string, today: string): string {
    Compose(Template, userQuery, taskData, today)
  }

  /** The date, task and question sections come in this order, each under its label, at positions fixed by the input lengths. */
  lemma PromptSectionsInOrder(t: PromptTemplate, userQuery: string, taskData: string, today: string)
    ensures var p := Compose(t, userQuery, taskData, today);
      var i, j, k := |t.role| + 2, t.TodayAt() + |today| + 2, t.QueryAt(today, taskData) - |t.questionLabel|;
      && i + |t.todayLabel| == t.TodayAt() <= j
      && j + |t.tasksLabel| < t.TaskDataAt(today) <= k
      && p[i..i + |t.todayLabel|] == t.todayLabel
      && p[j..j + |t.tasksLabel|] == t.tasksLabel
      && p[k..k + |t.questionLabel|] == t.questionLabel
  {
    var p := Compose(t, userQuery, taskData, today);
    var role := t.role + "\n\n";
    assert t.Head() == role + t.todayLabel;
    SliceWithin(p, 0, t.TodayAt(), t.Head(), |role|, |t.Head()|);
    var intro := "\n\n" + t.tasksLabel;
    assert t.TasksIntro() == intro + "\n";
    SliceWithin(p, t.TodayAt() + |today|, t.TaskDataAt(today), t.TasksIntro(), 2, |intro|);
    var body := "\n\n" + t.instructions + "\n\n";
    assert t.Instructions() == body + t.questionLabel;
    SliceWithin(p, t.InstructionsAt(today, taskData), t.QueryAt(today, taskData), t.Instructions(), |body|, |t.Instructions()|);
  }

  /** The question only fills its slot: everything before it depends on the template, the date and the tasks alone. */
  lemma QuestionCannotAlterInstructions(t: PromptTemplate, q1: string, q2: string, taskData: string, today: string)
    ensures var at := t.QueryAt(today, taskData);
      Compose(t, q1, taskData, today)[..at] == Compose(t, q2, taskData, today)[..at]
  {
  }

  /** The response envelope returned to the client. */
  datatype Envelope = Envelope(response: string, success: bool, error: Option<string>)

  /** What the language model call did: returned text, or raised an exception with this message. */
  datatype ModelOutcome = Generated(text: string) | Raised(message: string)

  /** What reading every task from the database did. */
  datatype TaskFetch = Fetched(rows: seq<TaskRow>) | FetchRaised(message: string)

  /** The envelope of a query, and the prompt handed to the model (None when the model was not called). */
  datatype QueryRun = QueryRun(envelope: Envelope, prompt: Option<string>)

  const NotConfiguredResponse := "AI chatbot is not configured. Please set GEMINI_API_KEY in environment variables."
  const NotConfiguredError := "GEMINI_API_KEY not configured"
  const ErrorResponsePrefix := "An error occurred while processing your query: "

  /** The answer when no model is configured. */
  const NotConfigured := Envelope(NotConfiguredResponse, false, Some(NotConfiguredError))

  /** The envelope for an exception with message `message`. */
  function Failure(message: string): (e: Envelope)
    ensures !e.success && e.error == Some(message)
    ensures StartsWith(e.response, ErrorResponsePrefix) && e.response[|ErrorResponsePrefix|..] == message
  {
    Envelope(ErrorResponsePrefix + message, false, Some(message))
  }

  /**
   * The query pipeline for a prompt template: with no model configured, a
   * fixed failure and nothing read; otherwise the tasks are read, formatted
   * and put in the prompt with today's date, and the model's text becomes a
   * successful envelope; an exception on the way becomes a failed one carrying
   * its message.
   */
  function Query(t: PromptTemplate, configured: bool, fetch: TaskFetch, userQuery: string, today: Date, outcome: ModelOutcome): (run: QueryRun)
    ensures run.envelope.success <==> run.envelope.error.None?
    ensures run.envelope.success <==> configured && fetch.Fetched? && outcome.Generated?
    ensures !configured ==> run == QueryRun(NotConfigured, None)
    ensures run.prompt.Some? <==> configured && fetch.Fetched?
    ensures run.prompt.Some? ==> run.prompt.value == Compose(t, userQuery, FormattedTasks(fetch.rows), FormatDate(today))
    ensures run.envelope.success ==> run.envelope.response == outcome.text
    ensures configured && fetch.FetchRaised? ==> run.envelope == Failure(fetch.message)
    ensures configured && fetch.Fetched? && outcome.Raised? ==> run.envelope == Failure(outcome.message)
  {
    if !configured then
      QueryRun(NotConfigured, None)
    else
      match fetch
      case FetchRaised(e) => QueryRun(Failure(e), None)
      case Fetched(rows) =>
        var prompt := Compose(t, userQuery, FormattedTasks(rows), FormatDate(today));
        match outcome
        case Generated(text) => QueryRun(Envelope(text, true, None), Some(prompt))
        case Raised(e) => QueryRun(Failure(e), Some(prompt))
  }

  /** `process_query`: the pipeline with the assistant's own template, so the prompt sent is `BuildPrompt`'s. */
  function ProcessQuery(configured: bool, fetch: TaskFetch, userQuery: string, today: Date, outcome: ModelOutcome): QueryRun {
    Query(Template, configured, fetch, userQuery, today, outcome)
  }

  /** Without a configured model the answer depends on nothing else: not the tasks, the question, the date, the model or the template. */
  lemma NotConfiguredIgnoresInputs(t1: PromptTemplate, t2: PromptTemplate, f1: TaskFetch, f2: TaskFetch, q1: string, q2: string,
                                   d1: Date, d2: Date, o1: ModelOutcome, o2: ModelOutcome)
    ensures Query(t1, false, f1, q1, d1, o1) == Query(t2, false, f2, q2, d2, o2)
    ensures Query(t1, false, f1, q1, d1, o1).prompt.None?
  {
  }

  /** A failed envelope always explains itself: its response text and its error are both present. */
  lemma FailureHasResponse(t: PromptTemplate, configured: bool, fetch: TaskFetch, userQuery: string, today: Date, outcome: ModelOutcome)
    ensures var e := Query(t, configured, fetch, userQuery, today, outcome).envelope;
      !e.success ==> e.response != "" && e.error.Some?
  {
  }

  /** The prompt the model receives carries the task snapshot and the question in their slots. */
  lemma PromptCarriesSnapshot(t: PromptTemplate, rows: seq<TaskRow>, userQuery: string, today: Date, outcome: ModelOutcome)
    ensures var run := Query(t, true, Fetched(rows), userQuery, today, outcome);
      var day := FormatDate(today);
      var data := FormattedTasks(rows);
      && run.prompt.Some?
      && run.prompt.value[t.TaskDataAt(day)..t.InstructionsAt(day, data)] == data
      && run.prompt.value[t.QueryAt(day, data)..t.QueryAt(day, data) + |userQuery|] == userQuery
  {
  }
}
