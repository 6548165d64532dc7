# Task management backend: tasks API and chatbot pipeline

This project models the logic of the FastAPI backend of a small task tracker and proves its properties:

- **Request validation** (`TaskSchema`):
  - the three task statuses;
  - calendar dates;
  - the "create", "update" and "update status" request schemas, with their title bounds, defaults and optional members.
- **The stored task record** (`TaskModel`).
- **The task handlers** (`TaskRouter`): a `TaskStore` class holds the task table and the set of existing users, and every handler changes that state.
  - Filtered, paginated listing ordered newest first.
  - Lookup, creation with an assignee check, partial update, status-only update and deletion.
- **The chatbot pipeline** (`Chatbot`):
  - the one-line-per-task text snapshot of the tasks;
  - the prompt that wraps the snapshot, today's date and the user's question in fixed instructions;
  - the response envelope for the three outcomes: not configured, answered, or failed with an exception.
- **Text primitives** (`Text`): `str()` of an integer, the zero-padded `%Y-%m-%d` fields, `"\n".join` and `str.split`.

The database, the language-model service and the clock are not modelled as code:
- the table is the `TaskStore` object;
- what the model call did is a `ModelOutcome` parameter;
- what reading the tasks did is a `TaskFetch` parameter;
- today's date is a `Date` parameter.

## Model

| member | source | states |
|---|---|---|
| Text.IntToString | backend/app/services/chatbot.py:64 | An id is rendered in canonical decimal form: a minus sign exactly for negatives, no leading zero except for 0 itself, and text that reads back as the same integer. |
| Text.IntToStringInjective | backend/app/services/chatbot.py:64 | Different task ids are rendered as different texts. |
| Text.ZeroPad | backend/app/services/chatbot.py:53 | A `%Y`/`%m`/`%d` field holds only digits and denotes the number. It is at least the field width, and exactly the width when the number fits. |
| Text.SplitJoin | backend/app/services/chatbot.py:69 | Splitting lines joined with `"\n"` gives back exactly those lines, when none of them contains a line break. |
| TaskSchema.ParseStatus | backend/app/schemas/task.py:11-16 | A token is accepted exactly when it is the value of one of the three members, and it maps to that member. |
| TaskSchema.ParseStatusValue | backend/app/schemas/task.py:11-16 | Each member's value is accepted as that member. |
| TaskSchema.CheckTitle | backend/app/schemas/task.py:20 | The required title is accepted exactly when it was sent with 1 to 200 characters, and is then kept unchanged. |
| TaskSchema.OrNone | backend/app/schemas/task.py:21-24 | An optional member defaults to None when it is left out or sent as null, and is its value when it is sent. |
| TaskSchema.ParseTaskCreate | backend/app/schemas/task.py:18-29 | A create body is accepted exactly when the title is valid, the status is left out or is a member, and any deadline is a real date. The status then defaults to `todo`, and the other members default to None. |
| TaskSchema.ParseTaskUpdate | backend/app/schemas/task.py:32-38 | An update body is accepted exactly when a sent title is within bounds, a sent status is a member, and a sent deadline is a real date. Every member keeps whether it was sent, sent as null, or left out. |
| TaskSchema.ParseTaskStatusUpdate | backend/app/schemas/task.py:41-43 | A status update is accepted exactly when a status is sent and is a member. |
| TaskSchema.CreateRoundTrip | backend/app/schemas/task.py:18-29 | Every valid create request, once sent as a body, validates back to itself. |
| TaskSchema.UpdateRoundTrip | backend/app/schemas/task.py:32-38 | Every valid update request, once sent as a body, validates back to itself. |
| TaskSchema.CreateDefaults | backend/app/schemas/task.py:20-24 | A body with only a title gives status `todo` and no description, deadline or assignee. |
| TaskSchema.EmptyUpdateAccepted | backend/app/schemas/task.py:32-38 | An empty update body is valid and sends no member. |
| TaskRouter.DistinctIdsCount | backend/app/routers/tasks.py:56 | Rows with pairwise distinct ids number as many as their ids. |
| TaskRouter.ListingLength | backend/app/routers/tasks.py:56 | The ordered answer has exactly as many rows as there are matching tasks, so `total` counts it before paging. |
| TaskRouter.UnfilteredListsAll | backend/app/routers/tasks.py:50-53 | With no status and an assignee id that is absent or 0, every stored task matches. |
| TaskRouter.StrictOrderUnique | backend/app/routers/tasks.py:60 | Two sequences that are strictly newest first and hold the same tasks are equal. |
| TaskRouter.ListingsSameTasks | backend/app/routers/tasks.py:50-60 | Any two answers to the same filtered query hold the same tasks. |
| TaskRouter.ListingUnique | backend/app/routers/tasks.py:50-60 | When the matching tasks (not necessarily the others) have distinct creation times, the ordered answer, and so every page, is determined by the table. |
| TaskRouter.AssigneeRejected | backend/app/routers/tasks.py:113-119 | The assignee check of create and update: a truthy assignee id (present and not 0) that names no user. Used by the error clauses of `CreateTask` and `UpdateTask`. |
| TaskRouter.Matches | backend/app/routers/tasks.py:50-53 | The listing filters: the status only when one is given, the assignee only when the id is present and not 0. `UnfilteredListsAll` shows that no filter keeps every task. |
| TaskRouter.StrictWhenTimesDistinct | backend/app/routers/tasks.py:60 | A listing is strictly newest first when the matching tasks have distinct creation times. |
| TaskRouter.PageOf | backend/app/routers/tasks.py:59-60 | One page: `Window` at the page's offset with `LIMIT page_size`. Its properties in the query's terms are `PageOfAtOffset`. |
| TaskRouter.PageOfAtOffset | backend/app/routers/tasks.py:59-60 | A page has at most `page_size` rows and none when `(page - 1) * page_size` is past the end. Otherwise it has as many rows as are left, up to `page_size`, and row i is row `(page - 1) * page_size + i` of the ordered answer. |
| TaskRouter.OffsetIsProduct | backend/app/routers/tasks.py:59 | The rows skipped before a page number `(page - 1) * page_size`. |
| TaskRouter.Window | backend/app/routers/tasks.py:60 | `OFFSET o LIMIT n` gives at most n rows, none when o is past the end, otherwise `min(n, len - o)` rows, and row i is row o + i of the answer. |
| TaskRouter.PagesTile | backend/app/routers/tasks.py:59-60 | Pages 1 to n, one after another, are exactly the rows before page n+1 starts, with no gaps or repeats. |
| TaskRouter.RowOnItsPage | backend/app/routers/tasks.py:59-60 | Row i of the ordered answer is row `i % page_size` of page `i / page_size + 1`. |
| TaskRouter.QueryNewestFirst | backend/app/routers/tasks.py:44-60 | The filtered query ordered by `created_at` descending holds each matching task exactly once, as stored, newest first. |
| TaskRouter.InsertNewestFirst | backend/app/routers/tasks.py:60 | Inserting a task keeps the order newest first and the ids distinct. The result holds the old rows and the new one and nothing else. |
| TaskRouter.InsertedAt | backend/app/routers/tasks.py:60 | Putting a task after every row at least as new keeps the order and the ids distinct. |
| TaskRouter.InsertedContents | backend/app/routers/tasks.py:60 | An insertion holds the old rows and the new one and nothing else, and its ids are the old ids plus the new one. |
| TaskRouter.Patched | backend/app/routers/tasks.py:176-181 | A member that was sent replaces its field, null clearing it, and a member left out keeps its field. Id, creator and creation time never change. |
| TaskRouter.PatchIdempotent | backend/app/routers/tasks.py:176-181 | Applying the same update twice changes nothing the second time. |
| TaskRouter.NoChangesIsIdentity | backend/app/routers/tasks.py:176-181 | An update that sends nothing leaves the record unchanged. |
| TaskRouter.PatchPreservesWellFormed | backend/app/routers/tasks.py:176-181 | A valid committable update keeps a record's title bounded, its status a member and its deadline a real date. |
| TaskRouter.StatusUpdateIsPatch | backend/app/routers/tasks.py:216 | The status-only update equals the partial update that sends just the status. |
| TaskRouter.SetSentMembers | backend/app/routers/tasks.py:176-181 | The loop over the sent members produces `Patched` whenever it is committable. Otherwise it reports a column the update set to null: title exactly when the title was null, and status exactly when the status was null and the title was not. Title is declared first in backend/app/models/task.py. |
| TaskRouter.TaskStore.constructor | backend/app/models/task.py:19-39 | A new task table is empty, holds the given users, and will assign id 1 next. |
| TaskRouter.TaskStore.GetAllTasks | backend/app/routers/tasks.py:25-67 | Paging parameters outside `page >= 1` and `1 <= page_size <= 100` are rejected with 422. Otherwise the result is the requested page of an answer to the filtered, ordered query, with `total` equal to the number of matching tasks. |
| TaskRouter.TaskStore.GetTaskById | backend/app/routers/tasks.py:70-92 | Succeeds exactly when the id is stored, returning that record; otherwise 404 "Task not found". |
| TaskRouter.TaskStore.CreateTask | backend/app/routers/tasks.py:95-141 | Fails with 400 "Assignee user not found" exactly when the assignee id is truthy and names no user, leaving the table unchanged. Otherwise it stores, under a fresh id, the request's fields with the current user as creator, and changes nothing else. |
| TaskRouter.TaskStore.UpdateTask | backend/app/routers/tasks.py:144-192 | Fails with 404 for a missing id, or with 400 for a sent assignee id that is not null, not 0 and names no user. A commit with null in a NOT NULL column fails, naming title when the title is null and status otherwise. Otherwise only that task changes, to `Patched`. Failures leave the table unchanged. |
| TaskRouter.TaskStore.UpdateTaskStatus | backend/app/routers/tasks.py:195-226 | Fails with 404 for a missing id. Otherwise only that task's status changes. |
| TaskRouter.TaskStore.DeleteTask | backend/app/routers/tasks.py:229-251 | Fails with 404 for a missing id. Otherwise exactly that task is removed. |
| Chatbot.StatusLabel | backend/app/services/chatbot.py:56-61 | `todo`, `in_progress` and `done` are shown as "Todo", "In Progress" and "Done". Any other status string is shown unchanged. |
| Chatbot.StatusLabelsDistinct | backend/app/services/chatbot.py:56-61 | The three labels differ from each other and from the raw tokens. |
| Chatbot.FormatDate | backend/app/services/chatbot.py:53 | A real date is shown as ten characters with dashes at positions 4 and 7. |
| Chatbot.DateRoundTrip | backend/app/services/chatbot.py:53 | A shown date reads back as the same date. |
| Chatbot.DeadlineText | backend/app/services/chatbot.py:53 | The deadline as `%Y-%m-%d`, or "No deadline" when there is none. `DeadlineTextReadsBack` shows that it loses nothing. |
| Chatbot.DeadlineTextReadsBack | backend/app/services/chatbot.py:53 | A shown deadline reads back as the task's deadline, and "No deadline" never reads as a date. |
| Chatbot.AssigneeText | backend/app/services/chatbot.py:52 | The assignee's full name when there is an assignee, else "Unassigned". |
| Chatbot.LineOfFields | backend/app/services/chatbot.py:63-67 | A line starts with `- ID: {id}`, holds the title verbatim after the opening quote, and ends with ` \| Assignee: {assignee}`. |
| Chatbot.FormatLine | backend/app/services/chatbot.py:63-67 | A task's line: `- ID: {id} \| Title: "{title}" \| Status: {label} \| Deadline: {deadline} \| Assignee: {assignee}`. Its properties are `FormatLineFields` and `FormatLineSingle`. |
| Chatbot.FormatLineFields | backend/app/services/chatbot.py:52-67 | A task's line starts with its id, shows its title verbatim, and ends with its assignee's name or "Unassigned". |
| Chatbot.FormatLineSingle | backend/app/services/chatbot.py:52-67 | A task's line contains no line break when its title, status and assignee name contain none. |
| Chatbot.TaskLines | backend/app/services/chatbot.py:50-67 | There is one line per task. |
| Chatbot.MapSeqAt | backend/app/services/chatbot.py:51-67 | Line i is the line of task i, in input order. |
| Chatbot.FormattedTasks | backend/app/services/chatbot.py:47-69 | The snapshot: "No tasks found in the system." for no tasks, otherwise the task lines joined by `"\n"`. `OneLinePerTask` states its shape and `FormatTaskData` computes it. |
| Chatbot.FormatTaskData | backend/app/services/chatbot.py:37-69 | The loop that appends one line per task and joins them yields the snapshot: "No tasks found in the system." with no tasks, otherwise the task lines joined by `"\n"`. |
| Chatbot.OneLinePerTask | backend/app/services/chatbot.py:47-69 | With no line break inside titles, status tokens or names, the snapshot splits into exactly one line per task, in input order, and line i starts with `- ID: ` and task i's id. With no tasks it is the single "no tasks" sentence. |
| Chatbot.Compose | backend/app/services/chatbot.py:83-102 | The prompt is the fixed head, the date, the fixed tasks heading, the snapshot, the fixed instructions, the question and the fixed closing. Each input sits verbatim at the position fixed by the lengths before it. |
| Chatbot.BuildPrompt | backend/app/services/chatbot.py:71-102 | `Compose` with the assistant's fixed template text, so every property of `Compose`, `PromptSectionsInOrder` and `QuestionCannotAlterInstructions` holds of it. |
| Chatbot.PromptSectionsInOrder | backend/app/services/chatbot.py:85-100 | The `TODAY'S DATE`, `CURRENT TASKS IN THE SYSTEM` and `USER QUESTION` labels occur in this order, each before its input. |
| Chatbot.QuestionCannotAlterInstructions | backend/app/services/chatbot.py:83-100 | Everything before the question, including all the instructions, is the same for every question. |
| Chatbot.Failure | backend/app/services/chatbot.py:146-151 | An exception gives `success=false`, `error=str(e)`, and a response that is the fixed prefix followed by the message. |
| Chatbot.Query | backend/app/services/chatbot.py:104-151 | With no model configured, the fixed "not configured" envelope is returned and no prompt is sent. Otherwise the tasks are read and the prompt carries their snapshot and today's date. Generated text gives `{text, true, None}`, and an exception while reading or generating gives the failure envelope. `success` holds exactly when `error` is None. |
| Chatbot.ProcessQuery | backend/app/services/chatbot.py:104-151 | `Query` with the assistant's fixed template text, so every clause of `Query` and its lemmas holds of it. |
| Chatbot.NotConfiguredIgnoresInputs | backend/app/services/chatbot.py:116-121 | Without a model, the answer does not depend on the tasks, the question, the date or the model's behaviour, and no prompt is sent. |
| Chatbot.FailureHasResponse | backend/app/services/chatbot.py:116-151 | A failed envelope always has a non-empty response and an error. |
| Chatbot.PromptCarriesSnapshot | backend/app/services/chatbot.py:131-138 | The prompt sent to the model holds the task snapshot and the question verbatim in their slots. |

## Left out

- **The Gemini SDK:** client setup and the `generate_content` call are foreign network code. They are replaced by a `configured` flag and a `ModelOutcome` (text returned, or an exception's message).
- **The clock:** `date.today()` is a parameter.
- **Database reads:** the read of every task in `process_query` is a `TaskFetch` parameter. The rows carry the assignee's full name when the assignee exists.
- **SQLAlchemy session mechanics:**
  - `joinedload`, `refresh` and the reload after commit are not modelled. A handler returns the record it stored.
  - `updated_at` is not modelled.
  - `created_at` is a clock reading passed to `CreateTask`.
- **Foreign keys:** the `ondelete` behaviour and enforcement are not modelled. An `assignee_id` of 0 skips the assignee check and is stored as given.
- **Ties in `created_at`:** SQL leaves the order of rows that tie unspecified. `GetAllTasks` therefore promises some newest-first order of the matching tasks, named by its ghost `ordered` result. `ListingUnique` shows the answer is unique when creation times differ.
- **Authentication and other routes:** authentication (`get_current_user`, JWT, bcrypt) is not part of this model; the current user is an id parameter. The users router, the seed script, application setup and the chatbot HTTP handler are not part of this model either. The handler only copies the envelope's three members into `ChatResponse`.
- **`async` handlers:** each is modelled as one sequential step.
- **Request validation in the web framework:** `TaskSchema` models what the schemas accept. The handlers take already validated values, and a rejected body is answered with 422 before any handler runs. JSON decoding itself is not modelled.
- **Query and path parameters:** the paging parameters are checked inside `TaskStore.GetAllTasks`, because they are plain integers there.
- **Chatbot.FormatDate:** only real dates are covered, whose years have at most four digits. `%Y` padding of years below 1000 varies by platform and is taken as zero-padding to four digits.
- **Chatbot.OneLinePerTask:** this is stated only for titles, status tokens and names without line breaks. The source does not escape line breaks, so a title containing one adds lines to the snapshot.
- **Chatbot.ProcessQuery and Chatbot.BuildPrompt:** these are `Query` and `Compose` with the assistant's fixed template text. Their properties are proved for every template, so they carry no contract of their own.
- **Integer width:** page numbers, page sizes, offsets and ids are unbounded integers in the model. The database stores and compares 64-bit integers at most. An offset `(page - 1) * page_size` of 2^63 or more, or an id beyond 64 bits, ends in a database error (a 500). The model answers those requests with an empty page, a 404 or a 400 instead.
- **Id assignment:** new ids come from a counter that never reuses an id. That matches a database sequence. SQLite's rowid may reuse the largest deleted id, and the source does not fix the database.
- **Code conventions kept:** the `todo` label is "Todo"; an empty question is sent to the model; a failed task read reports the exception's own message; each snapshot line starts with `- ID: `.
