/**
 * The task handlers of the REST API over an in-memory task table: filtered
 * and paginated listing, lookup, creation, partial update, status update and
 * deletion. The database is the `TaskStore` object: a map from task id to the
 * stored record, the set of user ids that exist, and the next id the table
 * will assign. Handlers that fail leave the table as it was (the request's
 * transaction is never committed).
 */
module TaskRouter {
  import opened Wrappers
  import opened TaskSchema
  import opened TaskModel

  /** The HTTP errors the handlers end with. */
  datatype ApiError =
    | NotFound(detail: string)        // 404
    | BadRequest(detail: string)      // 400
    | Unprocessable(detail: string)   // 422, a query parameter out of bounds
    | IntegrityFailure(column: string) // 500, the commit refused null in a NOT NULL column

  const TaskNotFound := "Task not found"
  const AssigneeNotFound := "Assignee user not found"

  const DefaultPage := 1
  const DefaultPageSize := 10
  const MaxPageSize := 100

  /** The listing response (`TaskListResponse`): one page of tasks and the number of all that match. */
  datatype TaskPage = TaskPage(tasks: seq<Task>, total: nat, page: int, pageSize: int)

  /** Python truthiness of an optional integer: present and not zero. */
  predicate Truthy(x: Option<int>) {
    x.Some? && x.value != 0
  }

  /** The assignee check of create and update: a truthy id that names no user. */
  predicate AssigneeRejected(assigneeId: Option<int>, users: set<int>) {
    Truthy(assigneeId) && assigneeId.value !in users
  }

  /** The listing filters: the status only when given, the assignee only when given and not zero. */
  predicate Matches(t: Task, status: Option<TaskStatus>, assigneeId: Option<int>) {
    && (status.Some? ==> t.status == StatusValue(status.value))
    && (Truthy(assigneeId) ==> t.assigneeId == assigneeId)
  }

  /** The ids of the tasks that pass the listing filters. */
  ghost function FilteredIds(tasks: map<int, Task>, status: Option<TaskStatus>, assigneeId: Option<int>): set<int> {
    set id | id in tasks && Matches(tasks[id], status, assigneeId)
  }

  function IdsOf(s: seq<Task>): set<int> {
    set i | 0 <= i < |s| :: s[i].id
  }

  predicate DistinctIds(s: seq<Task>) {
    forall i, j :: 0 <= i < j < |s| ==> s[i].id != s[j].id
  }

  /** Ordered by creation time, newest first; tasks created at the same instant may come in any order. */
  predicate NewestFirst(s: seq<Task>) {
    forall i, j :: 0 <= i < j < |s| ==> s[i].createdAt >= s[j].createdAt
  }

  /**
   * `s` is an answer the database may give to the filtered, ordered query
   * before paging: each matching task exactly once, as stored, newest first.
   */
  ghost predicate IsListing(s: seq<Task>, tasks: map<int, Task>, status: Option<TaskStatus>, assigneeId: Option<int>) {
    && (forall x :: x in s ==> x.id in tasks && tasks[x.id] == x)
    && IdsOf(s) == FilteredIds(tasks, status, assigneeId)
    && DistinctIds(s)
    && NewestFirst(s)
  }

  /** A sequence with distinct ids has as many ids as elements. */
  lemma {:induction false} DistinctIdsCount(s: seq<Task>)
    requires DistinctIds(s)
    ensures |IdsOf(s)| == |s|
    decreases |s|
  {
    if |s| > 0 {
      var init := s[..|s| - 1];
      DistinctIdsCount(init);
      assert IdsOf(s) == IdsOf(init) + {s[|s| - 1].id};
      assert s[|s| - 1].id !in IdsOf(init);
    }
  }

  /** The `total` of a listing response: the number of matching tasks, whatever the page. */
  lemma ListingLength(s: seq<Task>, tasks: map<int, Task>, status: Option<TaskStatus>, assigneeId: Option<int>)
    requires IsListing(s, tasks, status, assigneeId)
    ensures |s| == |FilteredIds(tasks, status, assigneeId)|
  {
    DistinctIdsCount(s);
  }

  /** Without filters, and with assignee id 0, every task is listed. */
  lemma UnfilteredListsAll(tasks: map<int, Task>, status: Option<TaskStatus>, assigneeId: Option<int>)
    requires status.None? && (assigneeId.None? || assigneeId.value == 0)
    ensures FilteredIds(tasks, status, assigneeId) == tasks.Keys
  {
    forall id | id in tasks ensures Matches(tasks[id], status, assigneeId) {
    }
  }

  /** A listed task comes before another exactly when it was created later, if creation times are distinct. */
  predicate StrictlyNewestFirst(s: seq<Task>) {
    forall i, j :: 0 <= i < j < |s| ==> s[i].createdAt > s[j].createdAt
  }

  /** Sequences with the same members are empty together. */
  lemma SameMembersBothEmpty<T>(s1: seq<T>, s2: seq<T>)
    requires forall x :: x in s1 <==> x in s2
    ensures |s1| == 0 <==> |s2| == 0
  {
    if |s1| > 0 {
      assert s1[0] in s2;
    }
    if |s2| > 0 {
      assert s2[0] in s1;
    }
  }

  /**
   * Two strictly newest-first sequences over the same tasks are the same
   * sequence: when no two matching tasks share a creation time, the
   * database's answer, and so every page, is determined by the table.
   */
  lemma {:induction false} StrictOrderUnique(s1: seq<Task>, s2: seq<Task>)
    requires StrictlyNewestFirst(s1) && StrictlyNewestFirst(s2)
    requires forall x :: x in s1 <==> x in s2
    ensures s1 == s2
    decreases |s1|
  {
    SameMembersBothEmpty(s1, s2);
    if |s1| > 0 {
      SameNewest(s1, s2);
      SameOlder(s1, s2);
      StrictOrderUnique(s1[1..], s2[1..]);
      assert s1 == [s1[0]] + s1[1..] && s2 == [s2[0]] + s2[1..];
    }
  }

  /** Both sequences start with the newest of their common tasks. */
  lemma SameNewest(s1: seq<Task>, s2: seq<Task>)
    requires StrictlyNewestFirst(s1) && StrictlyNewestFirst(s2)
    requires forall x :: x in s1 <==> x in s2
    requires |s1| > 0 && |s2| > 0
    ensures s1[0] == s2[0]
  {
    assert s1[0] in s2;
    var i :| 0 <= i < |s2| && s2[i] == s1[0];
    assert s2[0] in s1;
    var j :| 0 <= j < |s1| && s1[j] == s2[0];
    if i > 0 {
      assert false;
    }
  }

  /** After the common newest task, both sequences hold the same tasks. */
  lemma SameOlder(s1: seq<Task>, s2: seq<Task>)
    requires StrictlyNewestFirst(s1) && StrictlyNewestFirst(s2)
    requires forall x :: x in s1 <==> x in s2
    requires |s1| > 0 && |s2| > 0 && s1[0] == s2[0]
    ensures forall x :: x in s1[1..] <==> x in s2[1..]
  {
    forall x | x in s1[1..] ensures x in s2[1..] {
      var k :| 1 <= k < |s1| && s1[k] == x;
      assert x in s2;
      var m :| 0 <= m < |s2| && s2[m] == x;
      assert m != 0;
      assert s2[1..][m - 1] == x;
    }
    forall x | x in s2[1..] ensures x in s1[1..] {
      var k :| 1 <= k < |s2| && s2[k] == x;
      assert x in s1;
      var m :| 0 <= m < |s1| && s1[m] == x;
      assert m != 0;
      assert s1[1..][m - 1] == x;
    }
  }

  /** Two listings of the same query contain the same tasks. */
  lemma ListingsSameTasks(s1: seq<Task>, s2: seq<Task>, tasks: map<int, Task>, status: Option<TaskStatus>, assigneeId: Option<int>)
    requires IsListing(s1, tasks, status, assigneeId) && IsListing(s2, tasks, status, assigneeId)
    ensures forall x :: x in s1 <==> x in s2
  {
    forall x | x in s1 ensures x in s2 {
      var i :| 0 <= i < |s1| && s1[i] == x;
      assert x.id in IdsOf(s1);
      var j :| 0 <= j < |s2| && s2[j].id == x.id;
    }
    forall x | x in s2 ensures x in s1 {
      var i :| 0 <= i < |s2| && s2[i] == x;
      assert x.id in IdsOf(s2);
      var j :| 0 <= j < |s1| && s1[j].id == x.id;
    }
  }

  /** When the matching tasks have distinct creation times there is only one listing. */
  lemma ListingUnique(s1: seq<Task>, s2: seq<Task>, tasks: map<int, Task>, status: Option<TaskStatus>, assigneeId: Option<int>)
    requires IsListing(s1, tasks, status, assigneeId) && IsListing(s2, tasks, status, assigneeId)
    requires forall a, b ::
      a in FilteredIds(tasks, status, assigneeId) && b in FilteredIds(tasks, status, assigneeId) && a != b ==>
      tasks[a].createdAt != tasks[b].createdAt
    ensures s1 == s2
  {
    ListingsSameTasks(s1, s2, tasks, status, assigneeId);
    StrictWhenTimesDistinct(s1, tasks, status, assigneeId);
    StrictWhenTimesDistinct(s2, tasks, status, assigneeId);
    StrictOrderUnique(s1, s2);
  }

  /** A listing is strictly newest first when the matching tasks have distinct creation times. */
  lemma StrictWhenTimesDistinct(s: seq<Task>, tasks: map<int, Task>, status: Option<TaskStatus>, assigneeId: Option<int>)
    requires IsListing(s, tasks, status, assigneeId)
    requires forall a, b ::
      a in FilteredIds(tasks, status, assigneeId) && b in FilteredIds(tasks, status, assigneeId) && a != b ==>
      tasks[a].createdAt != tasks[b].createdAt
    ensures StrictlyNewestFirst(s)
  {
    forall i, j | 0 <= i < j < |s| ensures s[i].createdAt > s[j].createdAt {
      assert s[i] in s && s[j] in s;
      assert s[i].id in IdsOf(s) && s[j].id in IdsOf(s);
    }
  }

  /**
   * The number of rows skipped before a page (SQL `OFFSET`): each page
   * before it holds `pageSize` rows. `OffsetIsProduct` gives the closed form
   * `(page - 1) * pageSize`.
   */
  function Offset(page: int, pageSize: nat): nat
    requires page >= 1
    decreases page
  {
    if page == 1 then 0 else Offset(page - 1, pageSize) + pageSize
  }

  lemma {:induction false} OffsetIsProduct(page: int, pageSize: nat)
    requires page >= 1
    ensures Offset(page, pageSize) == (page - 1) * pageSize
    decreases page
  {
    if page > 1 {
      OffsetIsProduct(page - 1, pageSize);
    }
  }

  function Min(a: int, b: int): int {
    if a <= b then a else b
  }

  /** The rows from `offset` on, at most `limit` of them (SQL `OFFSET offset LIMIT limit`). */
  function Window<T>(s: seq<T>, offset: nat, limit: nat): (r: seq<T>)
    ensures |r| <= limit
    ensures offset >= |s| ==> r == []
    ensures offset < |s| ==> |r| == Min(limit, |s| - offset)
    ensures forall i :: 0 <= i < |r| ==> r[i] == s[offset + i]
  {
    if offset >= |s| then [] else s[offset..Min(offset + limit, |s|)]
  }

  /** One page of an ordered answer: the `LIMIT pageSize` rows after `Offset(page, pageSize)`. */
  function PageOf<T>(s: seq<T>, page: int, pageSize: int): seq<T>
    requires page >= 1 && pageSize >= 1
  {
    Window(s, Offset(page, pageSize), pageSize)
  }

  /**
   * A page in the terms of the query: at most `pageSize` rows, none when the
   * offset `(page - 1) * pageSize` is past the end, otherwise as many as are
   * left up to `pageSize`, and row i of the page is row offset + i.
   */
  lemma PageOfAtOffset<T>(s: seq<T>, page: int, pageSize: int)
    requires page >= 1 && pageSize >= 1
    ensures var r, o := PageOf(s, page, pageSize), (page - 1) * pageSize;
      && |r| <= pageSize
      && (o >= |s| ==> r == [])
      && (o < |s| ==> |r| == Min(pageSize, |s| - o))
      && forall i :: 0 <= i < |r| ==> r[i] == s[o + i]
  {
    OffsetIsProduct(page, pageSize);
  }

  /** Pages 1 to n one after another. */
  function PagesUpTo<T>(s: seq<T>, pageSize: int, n: nat): seq<T>
    requires pageSize >= 1
  {
    if n == 0 then [] else PagesUpTo(s, pageSize, n - 1) + PageOf(s, n, pageSize)
  }

  /** A prefix followed by the slice after it is the longer prefix. */
  lemma PrefixThenSlice<T>(s: seq<T>, before: int, after: int)
    requires 0 <= before <= after <= |s|
    ensures s[..before] + s[before..after] == s[..after]
  {
    assert forall k :: 0 <= k < after ==> (s[..before] + s[before..after])[k] == s[k];
  }

  /**
   * Consecutive pages tile the listing: pages 1..n are exactly the rows
   * before page n+1 starts, without gaps or repeats.
   */
  lemma {:induction false} PagesTile<T>(s: seq<T>, pageSize: int, n: nat)
    requires pageSize >= 1
    ensures PagesUpTo(s, pageSize, n) == s[..Min(Offset(n + 1, pageSize), |s|)]
  {
    if n > 0 {
      PagesTile(s, pageSize, n - 1);
      var before, after := Min(Offset(n, pageSize), |s|), Min(Offset(n + 1, pageSize), |s|);
      assert PageOf(s, n, pageSize) == s[before..after];
      PrefixThenSlice(s, before, after);
    }
  }

  /** Every row of the listing is on exactly the page its position says. */
  lemma RowOnItsPage<T>(s: seq<T>, pageSize: int, i: nat)
    requires pageSize >= 1 && i < |s|
    ensures var p := i / pageSize + 1;
      i % pageSize < |PageOf(s, p, pageSize)| && PageOf(s, p, pageSize)[i % pageSize] == s[i]
  {
    RowOffset(i, pageSize);
  }

  /** Row i sits i % pageSize rows after the start of page i / pageSize + 1. */
  lemma RowOffset(i: nat, pageSize: int)
    requires pageSize >= 1
    ensures Offset(i / pageSize + 1, pageSize) + i % pageSize == i
  {
    var q, r := i / pageSize, i % pageSize;
    assert i == q * pageSize + r;
    OffsetIsProduct(q + 1, pageSize);
  }

  /** A non-empty set of ids has a member to pick. */
  lemma NonEmptyHasMember(s: set<int>)
    requires s != {}
    ensures exists x :: x in s
  {
    if forall x :: x !in s {
      assert false;
    }
  }

  /** Every record is stored under its own id. */
  predicate KeysAreIds(tasks: map<int, Task>) {
    forall k :: k in tasks ==> tasks[k].id == k
  }

  /**
   * The filtered query ordered by creation time, newest first, before
   * paging: visits the stored tasks one by one and inserts each match in
   * order.
   */
  method QueryNewestFirst(tasks: map<int, Task>, status: Option<TaskStatus>, assigneeId: Option<int>)
    returns (ordered: seq<Task>)
    requires KeysAreIds(tasks)
    ensures IsListing(ordered, tasks, status, assigneeId)
  {
    var remaining := tasks.Keys;
    ordered := [];
    while remaining != {}
      invariant remaining <= tasks.Keys
      invariant forall x :: x in ordered ==> x.id in tasks && tasks[x.id] == x
      invariant IdsOf(ordered) == FilteredIds(tasks, status, assigneeId) - remaining
      invariant DistinctIds(ordered) && NewestFirst(ordered)
      decreases remaining
    {
      NonEmptyHasMember(remaining);
      var key :| key in remaining;
      var task := tasks[key];
      if Matches(task, status, assigneeId) {
        ordered := InsertNewestFirst(ordered, task);
      }
      remaining := remaining - {key};
    }
  }

  /** Insertion into a newest-first sequence, after every row at least as new (the database's sort). */
  method InsertNewestFirst(s: seq<Task>, t: Task) returns (r: seq<Task>)
    requires NewestFirst(s) && DistinctIds(s) && t.id !in IdsOf(s)
    ensures NewestFirst(r) && DistinctIds(r)
    ensures |r| == |s| + 1
    ensures forall x :: x in r <==> x in s || x == t
    ensures IdsOf(r) == IdsOf(s) + {t.id}
  {
    var k := 0;
    while k < |s| && s[k].createdAt >= t.createdAt
      invariant k <= |s|
      invariant forall i :: 0 <= i < k ==> s[i].createdAt >= t.createdAt
    {
      k := k + 1;
    }
    r := s[..k] + [t] + s[k..];
    InsertedAt(s, t, k, r);
  }

  /** The facts about `s[..k] + [t] + s[k..]` that insertion needs: it stays ordered and keeps ids distinct ... */
  lemma InsertedAt(s: seq<Task>, t: Task, k: nat, r: seq<Task>)
    requires k <= |s| && r == s[..k] + [t] + s[k..]
    requires NewestFirst(s) && DistinctIds(s) && t.id !in IdsOf(s)
    requires forall i :: 0 <= i < k ==> s[i].createdAt >= t.createdAt
    requires k < |s| ==> s[k].createdAt < t.createdAt
    ensures NewestFirst(r) && DistinctIds(r)
    ensures forall x :: x in r <==> x in s || x == t
    ensures IdsOf(r) == IdsOf(s) + {t.id}
  {
    assert forall i :: 0 <= i < k ==> r[i] == s[i];
    assert r[k] == t;
    assert forall i :: k < i < |r| ==> r[i] == s[i - 1];
    forall i, j | 0 <= i < j < |r| ensures r[i].createdAt >= r[j].createdAt && r[i].id != r[j].id {
      if j > k {
        assert s[j - 1].id in IdsOf(s);
        if i == k { assert s[k].createdAt >= s[j - 1].createdAt; }
      } else if j == k {
        assert s[i].id in IdsOf(s);
      }
    }
    InsertedContents(s, t, k, r);
  }

  /** ... and holds the old rows and the new one, and nothing else. */
  lemma InsertedContents(s: seq<Task>, t: Task, k: nat, r: seq<Task>)
    requires k <= |s| && r == s[..k] + [t] + s[k..]
    ensures forall x :: x in r <==> x in s || x == t
    ensures IdsOf(r) == IdsOf(s) + {t.id}
  {
    assert forall i :: 0 <= i < k ==> r[i] == s[i];
    assert r[k] == t;
    assert forall i :: k < i < |r| ==> r[i] == s[i - 1];
    forall x | x in s ensures x in r {
      var i :| 0 <= i < |s| && s[i] == x;
      if i < k { assert r[i] == x; } else { assert r[i + 1] == x; }
    }
    forall id | id in IdsOf(r) ensures id in IdsOf(s) + {t.id} {
      var i :| 0 <= i < |r| && r[i].id == id;
      if i < k { assert r[i] == s[i]; } else if i > k { assert r[i] == s[i - 1]; }
    }
    forall id | id in IdsOf(s) ensures id in IdsOf(r) {
      var i :| 0 <= i < |s| && s[i].id == id;
      if i < k { assert r[i] == s[i]; } else { assert r[i + 1] == s[i]; }
    }
  }

  /**
   * The partial update of `update_task`: every member that was sent replaces
   * the stored field (null clears a nullable one), every member left out
   * keeps it. Title and status columns are NOT NULL, so an update that sends
   * null for one of them is not committable.
   */
  predicate Committable(u: TaskUpdate) {
    !u.title.Null? && !u.status.Null?
  }

  function Patched(t: Task, u: TaskUpdate): (r: Task)
    requires Committable(u)
    ensures r.id == t.id && r.createdBy == t.createdBy && r.createdAt == t.createdAt
    ensures u.title.Missing? ==> r.title == t.title
    ensures u.description.Missing? ==> r.description == t.description
    ensures u.status.Missing? ==> r.status == t.status
    ensures u.deadline.Missing? ==> r.deadline == t.deadline
    ensures u.assigneeId.Missing? ==> r.assigneeId == t.assigneeId
    ensures u.title.Given? ==> r.title == u.title.value
    ensures u.status.Given? ==> r.status == StatusValue(u.status.value)
    ensures !u.description.Missing? ==> r.description == OrNone(u.description)
    ensures !u.deadline.Missing? ==> r.deadline == OrNone(u.deadline)
    ensures !u.assigneeId.Missing? ==> r.assigneeId == OrNone(u.assigneeId)
  {
    t.(
      title := if u.title.Given? then u.title.value else t.title,
      description := if u.description.Missing? then t.description else OrNone(u.description),
      status := if u.status.Given? then StatusValue(u.status.value) else t.status,
      deadline := if u.deadline.Missing? then t.deadline else OrNone(u.deadline),
      assigneeId := if u.assigneeId.Missing? then t.assigneeId else OrNone(u.assigneeId))
  }

  /** Sending the same update twice changes nothing the second time. */
  lemma PatchIdempotent(t: Task, u: TaskUpdate)
    requires Committable(u)
    ensures Patched(Patched(t, u), u) == Patched(t, u)
  {
  }

  /** An update that sends nothing leaves the record as it was. */
  lemma NoChangesIsIdentity(t: Task)
    ensures Patched(t, NoChanges) == t
  {
  }

  /** A valid committable update keeps a well-formed record well-formed. */
  lemma PatchPreservesWellFormed(t: Task, u: TaskUpdate)
    requires WellFormedTask(t) && u.Valid() && Committable(u)
    ensures WellFormedTask(Patched(t, u))
  {
    if u.status.Given? {
      ParseStatusValue(u.status.value);
    }
  }

  /** The status-only update is the partial update that sends just the status. */
  lemma StatusUpdateIsPatch(t: Task, s: TaskStatus)
    ensures Patched(t, TaskUpdate(Missing, Missing, Given(s), Missing, Missing)) == t.(status := StatusValue(s))
  {
  }

  /**
   * The loop of `update_task` over the members that were sent: each one is
   * set on the record in turn. Null for the title or the status column is
   * set too, and only the commit notices it; `nullColumn` names the column
   * the commit will refuse, the first in the table's column order (title is
   * declared before status).
   */
  method SetSentMembers(stored: Task, data: TaskUpdate) returns (task: Task, nullColumn: Option<string>)
    ensures nullColumn.None? <==> Committable(data)
    ensures nullColumn.Some? ==> nullColumn.value in {"title", "status"}
    ensures nullColumn == Some("title") <==> data.title.Null?
    ensures nullColumn == Some("status") <==> data.status.Null? && !data.title.Null?
    ensures Committable(data) ==> task == Patched(stored, data)
  {
    task := stored;
    nullColumn := None;
    match data.title {
      case Given(v) => task := task.(title := v);
      case Null => nullColumn := Some("title");
      case Missing =>
    }
    assert task == stored.(title := task.title);
    match data.description {
      case Given(v) => task := task.(description := Some(v));
      case Null => task := task.(description := None);
      case Missing =>
    }
    assert task.description == if data.description.Missing? then stored.description else OrNone(data.description);
    match data.status {
      case Given(s) => task := task.(status := StatusValue(s));
      case Null => if nullColumn.None? { nullColumn := Some("status"); }
      case Missing =>
    }
    assert nullColumn.None? <==> Committable(data);
    match data.deadline {
      case Given(d) => task := task.(deadline := Some(d));
      case Null => task := task.(deadline := None);
      case Missing =>
    }
    assert task.deadline == if data.deadline.Missing? then stored.deadline else OrNone(data.deadline);
    match data.assigneeId {
      case Given(a) => task := task.(assigneeId := Some(a));
      case Null => task := task.(assigneeId := None);
      case Missing =>
    }
  }

  /** The task table the handlers work on. */
  class TaskStore {
    var tasks: map<int, Task>
    var users: set<int>
    var nextId: int

    /** Keys are the records' ids, below the next id to assign, and every record is well-formed. */
    ghost predicate Valid()
      reads this
    {
      && nextId >= 1
      && forall id :: id in tasks ==> tasks[id].id == id && 1 <= id < nextId && WellFormedTask(tasks[id])
    }

    /** An empty task table next to the given users. */
    constructor (users: set<int>)
      ensures Valid()
      ensures tasks == map[] && this.users == users && nextId == 1
    {
      tasks := map[];
      this.users := users;
      nextId := 1;
    }

    /**
     * `get_all_tasks`: validates the paging parameters, filters, counts the
     * matches, orders them newest first and returns the requested page.
     * `ordered` is the full ordered answer the page is cut from.
     */
    method GetAllTasks(status: Option<TaskStatus>, assigneeId: Option<int>, page: Option<int>, pageSize: Option<int>)
      returns (r: Result<TaskPage, ApiError>, ghost ordered: seq<Task>)
      requires Valid()
      ensures r.Ok? <==> page.GetOr(DefaultPage) >= 1 && 1 <= pageSize.GetOr(DefaultPageSize) <= MaxPageSize
      ensures r.Err? ==> r.error.Unprocessable?
      ensures r.Ok? ==>
        var p, ps := page.GetOr(DefaultPage), pageSize.GetOr(DefaultPageSize);
        && IsListing(ordered, tasks, status, assigneeId)
        && r.value == TaskPage(PageOf(ordered, p, ps), |FilteredIds(tasks, status, assigneeId)|, p, ps)
    {
      var p, ps := page.GetOr(DefaultPage), pageSize.GetOr(DefaultPageSize);
      if p < 1 || ps < 1 || ps > MaxPageSize {
        return Err(Unprocessable("page must be >= 1 and page_size between 1 and 100")), [];
      }
      var acc := QueryNewestFirst(tasks, status, assigneeId);
      ordered := acc;
      ListingLength(acc, tasks, status, assigneeId);
      r := Ok(TaskPage(PageOf(acc, p, ps), |acc|, p, ps));
    }

    /** `get_task_by_id`: the stored record, or 404 "Task not found". */
    method GetTaskById(taskId: int) returns (r: Result<Task, ApiError>)
      ensures r.Ok? <==> taskId in tasks
      ensures r.Ok? ==> r.value == tasks[taskId]
      ensures r.Err? ==> r.error == NotFound(TaskNotFound)
    {
      if taskId !in tasks {
        return Err(NotFound(TaskNotFound));
      }
      r := Ok(tasks[taskId]);
    }

    /**
     * `create_task`: rejects a truthy assignee id that names no user with 400
     * "Assignee user not found"; otherwise stores a new record with the next
     * id, the request's fields, the current user as creator and the
     * database's clock reading as creation time.
     */
    method CreateTask(data: TaskCreate, currentUserId: int, now: int) returns (r: Result<Task, ApiError>)
      requires Valid() && data.Valid()
      modifies this
      ensures Valid() && users == old(users)
      ensures r.Err? <==> AssigneeRejected(data.assigneeId, users)
      ensures r.Err? ==> r.error == BadRequest(AssigneeNotFound) && tasks == old(tasks) && nextId == old(nextId)
      ensures r.Ok? ==>
        && r.value == Task(old(nextId), data.title, data.description, StatusValue(data.status),
                           data.deadline, data.assigneeId, currentUserId, now)
        && old(nextId) !in old(tasks)
        && tasks == old(tasks)[old(nextId) := r.value]
        && nextId == old(nextId) + 1
    {
      if data.assigneeId.Some? && data.assigneeId.value != 0 {
        if data.assigneeId.value !in users {
          return Err(BadRequest(AssigneeNotFound));
        }
      }
      var task := Task(nextId, data.title, data.description, StatusValue(data.status),
                       data.deadline, data.assigneeId, currentUserId, now);
      ParseStatusValue(data.status);
      tasks := tasks[nextId := task];
      nextId := nextId + 1;
      r := Ok(task);
    }

    /**
     * `update_task`: 404 for a missing id, 400 for a sent assignee id that is
     * neither null nor 0 and names no user; otherwise applies exactly the
     * members that were sent. Null for title or status violates the column's
     * NOT NULL constraint and the commit fails, naming title when both are null.
     */
    method UpdateTask(taskId: int, data: TaskUpdate) returns (r: Result<Task, ApiError>)
      requires Valid() && data.Valid()
      modifies this
      ensures Valid() && users == old(users) && nextId == old(nextId)
      ensures taskId !in old(tasks) ==> r == Err(NotFound(TaskNotFound))
      ensures taskId in old(tasks) && AssigneeRejected(OrNone(data.assigneeId), users) ==>
        r == Err(BadRequest(AssigneeNotFound))
      ensures taskId in old(tasks) && !AssigneeRejected(OrNone(data.assigneeId), users) && !Committable(data) ==>
        r == Err(IntegrityFailure(if data.title.Null? then "title" else "status"))
      ensures r.Ok? <==> taskId in old(tasks) && !AssigneeRejected(OrNone(data.assigneeId), users) && Committable(data)
      ensures r.Err? ==> tasks == old(tasks)
      ensures r.Ok? ==>
        && tasks == old(tasks)[taskId := Patched(old(tasks)[taskId], data)]
        && r.value == tasks[taskId]
    {
      if taskId !in tasks {
        return Err(NotFound(TaskNotFound));
      }
      if data.assigneeId.Given? && data.assigneeId.value != 0 {
        if data.assigneeId.value !in users {
          return Err(BadRequest(AssigneeNotFound));
        }
      }
      var stored := tasks[taskId];
      var task, nullColumn := SetSentMembers(stored, data);
      // Commit: the database refuses null in a NOT NULL column.
      if nullColumn.Some? {
        return Err(IntegrityFailure(nullColumn.value));
      }
      PatchPreservesWellFormed(stored, data);
      tasks := tasks[taskId := task];
      r := Ok(task);
    }

    /** `update_task_status`: 404 for a missing id; otherwise sets only the status of that task. */
    method UpdateTaskStatus(taskId: int, data: TaskStatusUpdate) returns (r: Result<Task, ApiError>)
      requires Valid()
      modifies this
      ensures Valid() && users == old(users) && nextId == old(nextId)
      ensures r.Ok? <==> taskId in old(tasks)
      ensures r.Err? ==> r.error == NotFound(TaskNotFound) && tasks == old(tasks)
      ensures r.Ok? ==>
        && tasks == old(tasks)[taskId := old(tasks)[taskId].(status := StatusValue(data.status))]
        && r.value == tasks[taskId]
    {
      if taskId !in tasks {
        return Err(NotFound(TaskNotFound));
      }
      var task := tasks[taskId].(status := StatusValue(data.status));
      ParseStatusValue(data.status);
      tasks := tasks[taskId := task];
      r := Ok(task);
    }

    /** `delete_task`: 404 for a missing id; otherwise removes that task and no other. */
    method DeleteTask(taskId: int) returns (r: Result<(), ApiError>)
      requires Valid()
      modifies this
      ensures Valid() && users == old(users) && nextId == old(nextId)
      ensures r.Ok? <==> taskId in old(tasks)
      ensures r.Err? ==> r.error == NotFound(TaskNotFound) && tasks == old(tasks)
      ensures r.Ok? ==> tasks == old(tasks) - {taskId}
    {
      if taskId !in tasks {
        return Err(NotFound(TaskNotFound));
      }
      tasks := tasks - {taskId};
      r := Ok(());
    }
  }
}
