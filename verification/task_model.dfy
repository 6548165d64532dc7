/**
 * The stored task record (the `tasks` table). The status column holds the
 * enum member's value as a string; `createdAt` is the creation timestamp the
 * database assigns, kept as an integer clock reading.
 */
module TaskModel {
  import opened Wrappers
  import opened TaskSchema

  datatype Task = Task(
    id: int,
    title: string,
    description: Option<string>,
    status: string,
    deadline: Option<Date>,
    assigneeId: Option<int>,
    createdBy: int,
    createdAt: int)

  /** A record every request handler leaves behind: a bounded title, a member status, a real deadline. */
  predicate WellFormedTask(t: Task) {
    && ValidTitle(t.title)
    && ParseStatus(t.status).Some?
    && (t.deadline.Some? ==> ValidDate(t.deadline.value))
  }
}
