/** The server's task store and the handlers of backend/controllers/taskController.js:
    creation, role-scoped listing with its status summary, merge-update,
    deletion, the checklist-item toggle that recomputes `progress`, and the
    admin and user dashboards.

    The database is an in-memory sequence of task documents held by a
    `TaskStore` object; handlers that write to the database are its methods,
    handlers that only query are functions of the sequence. The clock is a
    parameter. */
module TaskController {
  import opened Common
  import opened Sorting

  type TaskId = nat
  type ItemId = nat

  /** An embedded checklist item (`todoChecklist` entry). */
  datatype TodoItem = TodoItem(id: ItemId, text: string, isCompleted: bool)

  /** A stored task document. Dates are integers (milliseconds). */
  datatype Task = Task(
    id: TaskId,
    title: string,
    description: string,
    priority: string,
    status: string,
    dueDate: Option<int>,
    assignedTo: seq<UserId>,
    createdBy: UserId,
    attachments: seq<string>,
    todoChecklist: seq<TodoItem>,
    progress: int,
    createdAt: int)

  /** The authenticated caller (`req.user`). */
  datatype Caller = Caller(id: UserId, role: string)

  const TaskNotFound := "Task not found"
  const ItemNotFound := "Checklist item not found"

  /** Defaults and checks that belong to the task schema; the schema file
      itself is not part of this model, so these values are assumptions:
      status starts as "pending", progress as 0, priority defaults to
      "medium" and must be one of the three levels, title and description
      are required. */
  const DefaultStatus := "pending"
  const DefaultPriority := "medium"
  const ValidationFailed := "Task validation failed"

  predicate IsPriority(p: string) { p == "low" || p == "medium" || p == "high" }

  predicate IsAdmin(c: Caller) { c.role == "admin" }

  // ---------------------------------------------------------------------
  // Checklist and progress

  function IsCompleted(): TodoItem -> bool { (item: TodoItem) => item.isCompleted }

  /** `todoChecklist.filter(item => item.isCompleted).length` */
  function CompletedCount(items: seq<TodoItem>): nat {
    Count(items, IsCompleted())
  }

  /** The progress the checklist determines: the rounded percentage of
      completed items, 0 for an empty checklist. */
  function ChecklistProgress(items: seq<TodoItem>): nat {
    Percent(CompletedCount(items), |items|)
  }

  /** A task whose stored progress agrees with its checklist. */
  predicate ProgressConsistent(t: Task) {
    t.progress == ChecklistProgress(t.todoChecklist)
  }

  lemma CompletedCountBound(items: seq<TodoItem>)
    ensures CompletedCount(items) <= |items|
  {
  }

  /** Progress recomputed from any checklist lies in 0..100. */
  lemma ChecklistProgressBounds(items: seq<TodoItem>)
    ensures 0 <= ChecklistProgress(items) <= 100
    ensures items == [] ==> ChecklistProgress(items) == 0
  {
    PercentBounds(CompletedCount(items), |items|);
  }

  /** `task.todoChecklist.id(todoId)`: the position of the first item with that id. */
  function ItemIndex(items: seq<TodoItem>, todoId: ItemId): (r: Option<nat>)
    ensures r.Some? ==> r.value < |items| && items[r.value].id == todoId
                        && forall k :: 0 <= k < r.value ==> items[k].id != todoId
    ensures r.None? ==> forall k :: 0 <= k < |items| ==> items[k].id != todoId
  {
    FindFirst(items, (item: TodoItem) => item.id == todoId)
  }

  /** Item j's flag set to v and progress recomputed over the whole checklist
      (backend/controllers/taskController.js:146-152). */
  function SetItemCompleted(t: Task, j: nat, v: bool): Task
    requires j < |t.todoChecklist|
  {
    var items := t.todoChecklist[j := t.todoChecklist[j].(isCompleted := v)];
    t.(todoChecklist := items, progress := ChecklistProgress(items))
  }

  /** updateTaskChecklist on one loaded task: "Checklist item not found" for
      an unknown item id, otherwise the task with that item's flag set. */
  function ToggleItem(t: Task, todoId: ItemId, v: bool): (r: Response<Task>)
    ensures r.Fail? <==> (forall k :: 0 <= k < |t.todoChecklist| ==> t.todoChecklist[k].id != todoId)
    ensures r.Fail? ==> r == Fail(404, ItemNotFound)
  {
    match ItemIndex(t.todoChecklist, todoId)
    case None => Fail(404, ItemNotFound)
    case Some(j) => Ok(SetItemCompleted(t, j, v))
  }

  /** A toggle changes the flag of the first item with that id to the
      requested value, and nothing else of the checklist: same length, same
      order, same ids and texts, same flags elsewhere. */
  lemma ToggleChangesOnlyThatItem(t: Task, todoId: ItemId, v: bool)
    requires ToggleItem(t, todoId, v).Ok?
    ensures var t' := ToggleItem(t, todoId, v).value;
      var j := ItemIndex(t.todoChecklist, todoId).value;
      && |t'.todoChecklist| == |t.todoChecklist|
      && t'.todoChecklist[j] == t.todoChecklist[j].(isCompleted := v)
      && (forall k :: 0 <= k < |t.todoChecklist| && k != j ==> t'.todoChecklist[k] == t.todoChecklist[k])
      && t'.(todoChecklist := t.todoChecklist, progress := t.progress) == t
  {
  }

  /** After a toggle the stored progress matches the checklist and lies in 0..100. */
  lemma ToggleRecomputesProgress(t: Task, todoId: ItemId, v: bool)
    requires ToggleItem(t, todoId, v).Ok?
    ensures var t' := ToggleItem(t, todoId, v).value;
      && ProgressConsistent(t')
      && 0 <= t'.progress <= 100
      && t'.progress == (if |t'.todoChecklist| > 0 then RoundHalfUp(100 * CompletedCount(t'.todoChecklist), |t'.todoChecklist|) else 0)
  {
    ChecklistProgressBounds(ToggleItem(t, todoId, v).value.todoChecklist);
  }

  /** Setting an item to a value and then back to its old value restores a
      task whose progress agreed with its checklist. */
  lemma ToggleBackRestores(t: Task, todoId: ItemId, v: bool)
    requires ProgressConsistent(t)
    requires ToggleItem(t, todoId, v).Ok?
    ensures var j := ItemIndex(t.todoChecklist, todoId).value;
      var t' := ToggleItem(t, todoId, v).value;
      ToggleItem(t', todoId, t.todoChecklist[j].isCompleted) == Ok(t)
  {
    var j := ItemIndex(t.todoChecklist, todoId).value;
    var t' := ToggleItem(t, todoId, v).value;
    assert ItemIndex(t'.todoChecklist, todoId) == ItemIndex(t.todoChecklist, todoId) by {
      ItemIndexSameIds(t.todoChecklist, t'.todoChecklist, todoId);
    }
    assert t'.todoChecklist[j := t'.todoChecklist[j].(isCompleted := t.todoChecklist[j].isCompleted)] == t.todoChecklist;
  }

  /** The item found depends only on the ids. */
  lemma {:induction false} ItemIndexSameIds(a: seq<TodoItem>, b: seq<TodoItem>, todoId: ItemId)
    requires |a| == |b| && forall k :: 0 <= k < |a| ==> a[k].id == b[k].id
    ensures ItemIndex(a, todoId) == ItemIndex(b, todoId)
  {
    if a != [] {
      ItemIndexSameIds(a[1..], b[1..], todoId);
    }
  }

  // ---------------------------------------------------------------------
  // Creation (backend/controllers/taskController.js:4-23)

  /** A checklist item as the request body carries it; `isCompleted` may be absent. */
  datatype BodyTodo = BodyTodo(text: string, isCompleted: Option<bool>)

  /** The fields of a create request. `status` and `createdBy` are what a
      client may send; the handler does not read them. */
  datatype CreateBody = CreateBody(
    title: Option<string>,
    description: Option<string>,
    priority: Option<string>,
    dueDate: Option<int>,
    assignedTo: seq<UserId>,
    attachments: seq<string>,
    todoChecklist: seq<BodyTodo>,
    status: Option<string>,
    createdBy: Option<UserId>)

  /** Embedded items get ids in order; a missing flag is false. */
  function StoredChecklist(items: seq<BodyTodo>, firstId: ItemId): (r: seq<TodoItem>)
    ensures |r| == |items|
    ensures forall k :: 0 <= k < |items| ==>
      r[k] == TodoItem(firstId + k, items[k].text, items[k].isCompleted.GetOr(false))
  {
    if items == [] then []
    else [TodoItem(firstId, items[0].text, items[0].isCompleted.GetOr(false))]
         + StoredChecklist(items[1..], firstId + 1)
  }


  /** The document `Task.create` stores for a request, or the validation failure. */
  function NewTask(id: TaskId, callerId: UserId, body: CreateBody, now: int): (r: Response<Task>)
    ensures r.Fail? <==> !Truthy(body.title) || !Truthy(body.description)
                         || !IsPriority(body.priority.GetOr(DefaultPriority))
    ensures r.Ok? ==> r.value.createdBy == callerId && r.value.status == DefaultStatus
                      && r.value.id == id && r.value.progress == 0 && r.value.createdAt == now
  {
    if !Truthy(body.title) || !Truthy(body.description)
       || !IsPriority(body.priority.GetOr(DefaultPriority))
    then Fail(500, ValidationFailed)
    else Ok(Task(id, body.title.value, body.description.value,
                 body.priority.GetOr(DefaultPriority), DefaultStatus, body.dueDate,
                 body.assignedTo, callerId, body.attachments,
                 StoredChecklist(body.todoChecklist, 0), 0, now))
  }

  /** Creation stores progress 0 whatever the body's flags say, so a task
      created with a completed item is not progress-consistent. */
  lemma CreateCanDesynchronizeProgress(id: TaskId, callerId: UserId, now: int)
    ensures var body := CreateBody(Some("t"), Some("d"), None, None, [], [],
                                   [BodyTodo("a", Some(true))], None, None);
      NewTask(id, callerId, body, now).Ok? && !ProgressConsistent(NewTask(id, callerId, body, now).value)
  {
    var items := [TodoItem(0, "a", true)];
    assert StoredChecklist([BodyTodo("a", Some(true))], 0) == items;
    assert Filter(items, IsCompleted()) == items;
    assert ChecklistProgress(items) == 100;
  }

  /** Without a completed item in the body, the created task is consistent. */
  lemma CreateConsistentWithoutCompleted(id: TaskId, callerId: UserId, body: CreateBody, now: int)
    requires NewTask(id, callerId, body, now).Ok?
    requires forall k :: 0 <= k < |body.todoChecklist| ==> body.todoChecklist[k].isCompleted != Some(true)
    ensures ProgressConsistent(NewTask(id, callerId, body, now).value)
  {
    var items := StoredChecklist(body.todoChecklist, 0);
    assert forall k :: 0 <= k < |items| ==> !items[k].isCompleted;
    FilterNone(items, IsCompleted());
  }

  /** A client-sent status or createdBy has no effect on the created task. */
  lemma CreateIgnoresClientStatusAndCreator(id: TaskId, callerId: UserId, body: CreateBody,
                                            status: Option<string>, createdBy: Option<UserId>, now: int)
    ensures NewTask(id, callerId, body, now) == NewTask(id, callerId, body.(status := status, createdBy := createdBy), now)
  {
  }

  /** The created task carries the body's own fields. */
  lemma CreateTakesBodyFields(id: TaskId, callerId: UserId, body: CreateBody, now: int)
    requires NewTask(id, callerId, body, now).Ok?
    ensures var t := NewTask(id, callerId, body, now).value;
      && Some(t.title) == body.title && Some(t.description) == body.description
      && t.dueDate == body.dueDate && t.assignedTo == body.assignedTo
      && t.attachments == body.attachments
      && |t.todoChecklist| == |body.todoChecklist|
      && (forall k :: 0 <= k < |t.todoChecklist| ==> t.todoChecklist[k].text == body.todoChecklist[k].text)
  {
  }

  // ---------------------------------------------------------------------
  // Merge-update (backend/controllers/taskController.js:107-117)

  /** The schema fields an update body may carry; absent ones are None. */
  datatype TaskPatch = TaskPatch(
    title: Option<string>,
    description: Option<string>,
    priority: Option<string>,
    status: Option<string>,
    dueDate: Option<int>,
    assignedTo: Option<seq<UserId>>,
    createdBy: Option<UserId>,
    attachments: Option<seq<string>>,
    todoChecklist: Option<seq<TodoItem>>,
    progress: Option<int>)

  function Pick<T>(patch: Option<T>, current: T): T {
    if patch.Some? then patch.value else current
  }

  /** `findByIdAndUpdate(id, req.body)`: every field present in the body
      overwrites the stored one; no validation and no progress recomputation. */
  function MergePatch(t: Task, p: TaskPatch): (r: Task)
    ensures r.id == t.id && r.createdAt == t.createdAt
  {
    t.(title := Pick(p.title, t.title),
       description := Pick(p.description, t.description),
       priority := Pick(p.priority, t.priority),
       status := Pick(p.status, t.status),
       dueDate := if p.dueDate.Some? then p.dueDate else t.dueDate,
       assignedTo := Pick(p.assignedTo, t.assignedTo),
       createdBy := Pick(p.createdBy, t.createdBy),
       attachments := Pick(p.attachments, t.attachments),
       todoChecklist := Pick(p.todoChecklist, t.todoChecklist),
       progress := Pick(p.progress, t.progress))
  }

  function EmptyPatch(): TaskPatch {
    TaskPatch(None, None, None, None, None, None, None, None, None, None)
  }

  /** Field by field: a field present in the body is overwritten with the
      body's value, an absent one keeps the stored value. */
  lemma MergePatchFields(t: Task, p: TaskPatch)
    ensures var r := MergePatch(t, p);
      && (p.title.Some? ==> r.title == p.title.value) && (p.title.None? ==> r.title == t.title)
      && (p.description.Some? ==> r.description == p.description.value)
      && (p.description.None? ==> r.description == t.description)
      && (p.priority.Some? ==> r.priority == p.priority.value) && (p.priority.None? ==> r.priority == t.priority)
      && (p.status.Some? ==> r.status == p.status.value) && (p.status.None? ==> r.status == t.status)
      && (p.dueDate.Some? ==> r.dueDate == p.dueDate) && (p.dueDate.None? ==> r.dueDate == t.dueDate)
      && (p.assignedTo.Some? ==> r.assignedTo == p.assignedTo.value)
      && (p.assignedTo.None? ==> r.assignedTo == t.assignedTo)
      && (p.createdBy.Some? ==> r.createdBy == p.createdBy.value) && (p.createdBy.None? ==> r.createdBy == t.createdBy)
      && (p.attachments.Some? ==> r.attachments == p.attachments.value)
      && (p.attachments.None? ==> r.attachments == t.attachments)
      && (p.todoChecklist.Some? ==> r.todoChecklist == p.todoChecklist.value)
      && (p.todoChecklist.None? ==> r.todoChecklist == t.todoChecklist)
      && (p.progress.Some? ==> r.progress == p.progress.value) && (p.progress.None? ==> r.progress == t.progress)
      && r.id == t.id && r.createdAt == t.createdAt
  {
  }

  /** An empty body changes nothing, and merging is idempotent. */
  lemma MergePatchIdentityAndIdempotent(t: Task, p: TaskPatch)
    ensures MergePatch(t, EmptyPatch()) == t
    ensures MergePatch(MergePatch(t, p), p) == MergePatch(t, p)
  {
  }

  /** updateTask keeps the stored progress when the body carries none, even
      when it replaces the checklist: the stored progress can then disagree
      with the checklist. */
  lemma UpdateKeepsProgress(t: Task, p: TaskPatch)
    requires p.progress.None?
    ensures MergePatch(t, p).progress == t.progress
  {
  }

  lemma UpdateCanDesynchronizeProgress()
    ensures var t := Task(0, "t", "d", "medium", "pending", None, [], 0, [], [], 0, 0);
      var p := EmptyPatch().(todoChecklist := Some([TodoItem(0, "a", true)]));
      ProgressConsistent(t) && !ProgressConsistent(MergePatch(t, p))
  {
    var items := [TodoItem(0, "a", true)];
    assert Filter(items, IsCompleted()) == items;
    assert ChecklistProgress(items) == 100;
  }

  // ---------------------------------------------------------------------
  // Lookups

  /** The position of the task with that id, if any. */
  function TaskIndex(tasks: seq<Task>, id: TaskId): (r: Option<nat>)
    ensures r.Some? ==> r.value < |tasks| && tasks[r.value].id == id
                        && forall k :: 0 <= k < r.value ==> tasks[k].id != id
    ensures r.None? ==> forall k :: 0 <= k < |tasks| ==> tasks[k].id != id
  {
    FindFirst(tasks, (t: Task) => t.id == id)
  }

  /** getTaskById (backend/controllers/taskController.js:92-104). */
  function GetTaskById(tasks: seq<Task>, id: TaskId): (r: Response<Task>)
    ensures r.Ok? <==> exists k :: 0 <= k < |tasks| && tasks[k].id == id
    ensures r.Ok? ==> r.value in tasks && r.value.id == id
    ensures r.Fail? ==> r == Fail(404, TaskNotFound)
  {
    match TaskIndex(tasks, id)
    case None => Fail(404, TaskNotFound)
    case Some(k) => Ok(tasks[k])
  }

  ghost predicate DistinctIds(tasks: seq<Task>) {
    forall i, j :: 0 <= i < j < |tasks| ==> tasks[i].id != tasks[j].id
  }

  function HasId(id: TaskId): Task -> bool { (t: Task) => t.id == id }
  function HasOtherId(id: TaskId): Task -> bool { (t: Task) => t.id != id }

  /** With distinct ids, removing the found position is the same as keeping
      every task whose id differs: exactly that task goes. */
  lemma RemoveAtIsFilter(tasks: seq<Task>, id: TaskId)
    requires DistinctIds(tasks)
    requires TaskIndex(tasks, id).Some?
    ensures RemoveAt(tasks, TaskIndex(tasks, id).value) == Filter(tasks, HasOtherId(id))
  {
    var i := TaskIndex(tasks, id).value;
    forall k | 0 <= k < |tasks| && k != i ensures HasOtherId(id)(tasks[k]) {
      if k < i {
      } else {
        assert tasks[i].id != tasks[k].id;
      }
    }
    FilterDropsOne(tasks, i, HasOtherId(id));
  }

  /** Removing one task keeps the ids distinct and below the bound. */
  lemma RemoveAtKeepsIds(tasks: seq<Task>, i: nat, bound: int)
    requires DistinctIds(tasks) && forall k :: 0 <= k < |tasks| ==> tasks[k].id < bound
    requires i < |tasks|
    ensures var r := RemoveAt(tasks, i);
      DistinctIds(r) && forall k :: 0 <= k < |r| ==> r[k].id < bound
  {
    var r := RemoveAt(tasks, i);
    forall a, b | 0 <= a < b < |r| ensures r[a].id != r[b].id {
      var a' := if a < i then a else a + 1;
      var b' := if b < i then b else b + 1;
      assert r[a] == tasks[a'] && r[b] == tasks[b'];
    }
  }

  // ---------------------------------------------------------------------
  // Listing (backend/controllers/taskController.js:26-89)

  /** A listed task: the document plus its `completedTodoCount` projection. */
  datatype ListedTask = ListedTask(task: Task, completedTodoCount: nat)

  datatype StatusSummary = StatusSummary(all: nat, pending: nat, inProgress: nat, completed: nat)

  datatype TaskList = TaskList(tasks: seq<ListedTask>, statusSummary: StatusSummary)

  /** The role scope: an admin sees every task, anyone else the tasks whose
      `assignedTo` contains them. */
  predicate VisibleTo(t: Task, caller: Caller) {
    IsAdmin(caller) || caller.id in t.assignedTo
  }

  function Visible(caller: Caller): Task -> bool { (t: Task) => VisibleTo(t, caller) }

  /** The optional `?status=` filter; an absent or empty value filters nothing. */
  predicate MatchesFilter(t: Task, status: Option<string>) {
    !Truthy(status) || t.status == status.value
  }

  function Listed(caller: Caller, status: Option<string>): Task -> bool {
    (t: Task) => VisibleTo(t, caller) && MatchesFilter(t, status)
  }

  function HasStatus(st: string): Task -> bool { (t: Task) => t.status == st }

  function Annotate(tasks: seq<Task>): (r: seq<ListedTask>)
    ensures |r| == |tasks|
    ensures forall k :: 0 <= k < |tasks| ==>
      r[k].task == tasks[k] && r[k].completedTodoCount == CompletedCount(tasks[k].todoChecklist)
  {
    if tasks == [] then []
    else [ListedTask(tasks[0], CompletedCount(tasks[0].todoChecklist))] + Annotate(tasks[1..])
  }

  /** The status counts over a scope of tasks: `all` counts the scope. */
  function Summary(scope: seq<Task>): (r: StatusSummary)
    ensures r.all == |scope|
    ensures r.pending == Count(scope, HasStatus("pending"))
    ensures r.inProgress == Count(scope, HasStatus("in-progress"))
    ensures r.completed == Count(scope, HasStatus("completed"))
    ensures r.pending <= r.all && r.inProgress <= r.all && r.completed <= r.all
  {
    StatusSummary(|scope|, Count(scope, HasStatus("pending")),
                  Count(scope, HasStatus("in-progress")), Count(scope, HasStatus("completed")))
  }

  /** getTasks: the caller's tasks matching the filter, each annotated, and
      the status summary of the caller's scope. */
  function GetTasks(tasks: seq<Task>, caller: Caller, status: Option<string>): (r: TaskList)
    ensures |r.tasks| <= r.statusSummary.all <= |tasks|
    ensures r.statusSummary.all == Count(tasks, Visible(caller))
    ensures r.statusSummary == Summary(Filter(tasks, Visible(caller)))
  {
    CountMono(tasks, Listed(caller, status), Visible(caller));
    TaskList(Annotate(Filter(tasks, Listed(caller, status))),
             Summary(Filter(tasks, Visible(caller))))
  }

  /** A non-admin's list holds only tasks assigned to them; an admin's list
      holds every task that passes the status filter; each entry's
      completedTodoCount counts its completed items and is at most the
      checklist length. */
  lemma GetTasksScope(tasks: seq<Task>, caller: Caller, status: Option<string>)
    ensures var l := GetTasks(tasks, caller, status).tasks;
      && (forall k :: 0 <= k < |l| ==> l[k].task in tasks && MatchesFilter(l[k].task, status))
      && (!IsAdmin(caller) ==> forall k :: 0 <= k < |l| ==> caller.id in l[k].task.assignedTo)
      && (IsAdmin(caller) ==>
            |l| == Count(tasks, Listed(caller, status))
            && forall t :: t in tasks && MatchesFilter(t, status) ==> exists k :: 0 <= k < |l| && l[k].task == t)
      && (forall k :: 0 <= k < |l| ==>
            l[k].completedTodoCount == CompletedCount(l[k].task.todoChecklist)
            && l[k].completedTodoCount <= |l[k].task.todoChecklist|)
  {
    var f := Filter(tasks, Listed(caller, status));
    var l := GetTasks(tasks, caller, status).tasks;
    if IsAdmin(caller) {
      forall t | t in tasks && MatchesFilter(t, status) ensures exists k :: 0 <= k < |l| && l[k].task == t {
        var i :| 0 <= i < |tasks| && tasks[i] == t;
        assert Listed(caller, status)(tasks[i]);
        assert t in f;
        var k :| 0 <= k < |f| && f[k] == t;
        assert l[k].task == t;
      }
    }
  }

  /** The summary is scoped by role and does not depend on `?status`. Its
      three status counts add up to at most `all`, with equality when every
      task in scope has one of the three statuses. */
  lemma SummaryIgnoresStatusFilter(tasks: seq<Task>, caller: Caller, s1: Option<string>, s2: Option<string>)
    ensures GetTasks(tasks, caller, s1).statusSummary == GetTasks(tasks, caller, s2).statusSummary
    ensures var m := GetTasks(tasks, caller, s1).statusSummary;
      && m.pending + m.inProgress + m.completed <= m.all
      && m.all == Count(tasks, Visible(caller))
  {
    SummaryAddsUp(Filter(tasks, Visible(caller)));
  }

  predicate KnownStatus(t: Task) {
    t.status == "pending" || t.status == "in-progress" || t.status == "completed"
  }

  lemma SummaryAddsUp(scope: seq<Task>)
    ensures var m := Summary(scope);
      && m.pending + m.inProgress + m.completed <= m.all
      && ((forall t :: t in scope ==> KnownStatus(t)) ==> m.pending + m.inProgress + m.completed == m.all)
  {
    CountThree(scope, HasStatus("pending"), HasStatus("in-progress"), HasStatus("completed"));
  }

  // ---------------------------------------------------------------------
  // Dashboards (backend/controllers/taskController.js:176-250)

  /** midnight-today <= dueDate < next midnight; a task without a due date is not due. */
  predicate DueIn(t: Task, today: int, tomorrow: int) {
    t.dueDate.Some? && today <= t.dueDate.value < tomorrow
  }

  function DueToday(today: int, tomorrow: int): Task -> bool {
    (t: Task) => DueIn(t, today, tomorrow)
  }

  function NewestFirst(): Task -> int { (t: Task) => -t.createdAt }

  /** `.sort({ createdAt: -1 }).limit(5)` */
  function RecentTasks(scope: seq<Task>): (r: seq<Task>)
    ensures |r| == Min(5, |scope|)
  {
    Take(SortByKey(scope, NewestFirst()), 5)
  }

  datatype Dashboard = Dashboard(
    totalTasks: nat, pendingTasks: nat, inProgressTasks: nat, completedTasks: nat,
    tasksDueToday: nat, recentTasks: seq<Task>)

  function DashboardOf(scope: seq<Task>, today: int, tomorrow: int): Dashboard {
    var m := Summary(scope);
    Dashboard(m.all, m.pending, m.inProgress, m.completed,
              Count(scope, DueToday(today, tomorrow)), RecentTasks(scope))
  }

  /** getDashboardData: the whole store. */
  function GetDashboardData(tasks: seq<Task>, today: int, tomorrow: int): (r: Dashboard)
    ensures r.totalTasks == |tasks| && r.tasksDueToday <= r.totalTasks
    ensures r.pendingTasks == Count(tasks, HasStatus("pending"))
    ensures r.inProgressTasks == Count(tasks, HasStatus("in-progress"))
    ensures r.completedTasks == Count(tasks, HasStatus("completed"))
    ensures r.tasksDueToday == Count(tasks, DueToday(today, tomorrow))
    ensures r.pendingTasks <= r.totalTasks && r.inProgressTasks <= r.totalTasks && r.completedTasks <= r.totalTasks
    ensures |r.recentTasks| == Min(5, r.totalTasks)
  {
    DashboardOf(tasks, today, tomorrow)
  }

  function AssignedTo(userId: UserId): Task -> bool { (t: Task) => userId in t.assignedTo }

  /** getUserDashboardData: the tasks assigned to the caller. */
  function GetUserDashboardData(tasks: seq<Task>, userId: UserId, today: int, tomorrow: int): (r: Dashboard)
    ensures r.totalTasks == Count(tasks, AssignedTo(userId)) <= |tasks|
    ensures var scope := Filter(tasks, AssignedTo(userId));
      && r.pendingTasks == Count(scope, HasStatus("pending"))
      && r.inProgressTasks == Count(scope, HasStatus("in-progress"))
      && r.completedTasks == Count(scope, HasStatus("completed"))
      && r.tasksDueToday == Count(scope, DueToday(today, tomorrow))
    ensures r.tasksDueToday <= r.totalTasks
    ensures |r.recentTasks| == Min(5, r.totalTasks)
  {
    DashboardOf(Filter(tasks, AssignedTo(userId)), today, tomorrow)
  }

  /** The recent tasks are at most five tasks of the scope ... */
  lemma RecentTasksAreFromScope(scope: seq<Task>)
    ensures var r := RecentTasks(scope);
      && |r| == Min(5, |scope|)
      && multiset(r) <= multiset(scope)
  {
    var r := RecentTasks(scope);
    assert r == SortByKey(scope, NewestFirst())[..|r|];
    SortedPrefix(scope, |r|, NewestFirst());
  }

  /** ... listed newest first ... */
  lemma RecentTasksNewestFirst(scope: seq<Task>)
    ensures var r := RecentTasks(scope);
      forall i, j :: 0 <= i < j < |r| ==> r[i].createdAt >= r[j].createdAt
  {
    var r := RecentTasks(scope);
    assert r == SortByKey(scope, NewestFirst())[..|r|];
    SortedPrefix(scope, |r|, NewestFirst());
    forall i, j | 0 <= i < j < |r| ensures r[i].createdAt >= r[j].createdAt {
      assert NewestFirst()(r[i]) <= NewestFirst()(r[j]);
    }
  }

  /** ... and no task of the scope left out is newer than one shown. */
  lemma RecentTasksNewest(scope: seq<Task>)
    ensures var r := RecentTasks(scope);
      forall x, y :: x in multiset(scope) - multiset(r) && y in r ==> x.createdAt <= y.createdAt
  {
    var r := RecentTasks(scope);
    assert r == SortByKey(scope, NewestFirst())[..|r|];
    SortedPrefix(scope, |r|, NewestFirst());
    forall x, y | x in multiset(scope) - multiset(r) && y in r ensures x.createdAt <= y.createdAt {
      assert NewestFirst()(y) <= NewestFirst()(x);
    }
  }

  /** The user dashboard counts and lists only tasks assigned to the caller:
      it is the admin dashboard of the caller's tasks. */
  lemma UserDashboardScoped(tasks: seq<Task>, userId: UserId, today: int, tomorrow: int)
    ensures var d := GetUserDashboardData(tasks, userId, today, tomorrow);
      && d == GetDashboardData(Filter(tasks, AssignedTo(userId)), today, tomorrow)
      && d.totalTasks == Count(tasks, AssignedTo(userId))
      && d.tasksDueToday <= d.totalTasks
      && d.pendingTasks + d.inProgressTasks + d.completedTasks <= d.totalTasks
      && forall t :: t in d.recentTasks ==> t in tasks && userId in t.assignedTo
  {
    var scope := Filter(tasks, AssignedTo(userId));
    SummaryAddsUp(scope);
    RecentTasksAreFromScope(scope);
    var r := RecentTasks(scope);
    forall t | t in r ensures t in tasks && userId in t.assignedTo {
      assert t in multiset(r);
      assert t in multiset(scope);
      assert t in scope;
    }
  }

  /** The admin dashboard's due-today count is bounded by the store and 0
      for an empty window. */
  lemma DashboardDueToday(tasks: seq<Task>, today: int, tomorrow: int)
    ensures GetDashboardData(tasks, today, tomorrow).tasksDueToday <= |tasks|
    ensures tomorrow <= today ==> GetDashboardData(tasks, today, tomorrow).tasksDueToday == 0
  {
    if tomorrow <= today {
      FilterNone(tasks, DueToday(today, tomorrow));
    }
  }

  /** One more task raises the due-today count by one exactly when it is due
      in the window, and starts from 0 for an empty store: the count is the
      number of tasks with today <= dueDate < tomorrow. */
  lemma {:induction false} DueTodayCountsOneMore(tasks: seq<Task>, t: Task, today: int, tomorrow: int)
    ensures GetDashboardData([], today, tomorrow).tasksDueToday == 0
    ensures GetDashboardData(tasks + [t], today, tomorrow).tasksDueToday
            == GetDashboardData(tasks, today, tomorrow).tasksDueToday
               + (if t.dueDate.Some? && today <= t.dueDate.value < tomorrow then 1 else 0)
  {
    CountAppend(tasks, [t], DueToday(today, tomorrow));
    CountCons(t, [], DueToday(today, tomorrow));
    assert [t] + [] == [t];
  }

  /** A task not assigned to the caller leaves the user dashboard unchanged. */
  lemma UserDashboardIgnoresOthersTasks(tasks: seq<Task>, t: Task, userId: UserId, today: int, tomorrow: int)
    requires userId !in t.assignedTo
    ensures GetUserDashboardData(tasks + [t], userId, today, tomorrow) == GetUserDashboardData(tasks, userId, today, tomorrow)
  {
    FilterAppend(tasks, [t], AssignedTo(userId));
    assert [t][1..] == [];
    assert Filter([t], AssignedTo(userId)) == [];
    assert Filter(tasks, AssignedTo(userId)) + [] == Filter(tasks, AssignedTo(userId));
  }

  // ---------------------------------------------------------------------
  // The store

  class TaskStore {
    var tasks: seq<Task>
    var nextId: TaskId

    ghost predicate Valid()
      reads this
    {
      DistinctIds(tasks) && forall k :: 0 <= k < |tasks| ==> tasks[k].id < nextId
    }

    constructor ()
      ensures Valid() && tasks == []
    {
      tasks := [];
      nextId := 0;
    }

    /** createTask: stores the new document under a fresh id. */
    method CreateTask(callerId: UserId, body: CreateBody, now: int) returns (r: Response<Task>)
      requires Valid()
      modifies this
      ensures Valid()
      ensures r == NewTask(old(nextId), callerId, body, now)
      ensures r.Ok? ==> tasks == old(tasks) + [r.value] && nextId == old(nextId) + 1
      ensures r.Fail? ==> tasks == old(tasks) && nextId == old(nextId)
    {
      r := NewTask(nextId, callerId, body, now);
      if r.Ok? {
        tasks := tasks + [r.value];
        nextId := nextId + 1;
      }
    }

    /** updateTask: "Task not found" for an unknown id, otherwise the body
        merged into the stored document. */
    method UpdateTask(id: TaskId, patch: TaskPatch) returns (r: Response<Task>)
      requires Valid()
      modifies this
      ensures Valid() && nextId == old(nextId)
      ensures match TaskIndex(old(tasks), id)
        case None => r == Fail(404, TaskNotFound) && tasks == old(tasks)
        case Some(i) => tasks == old(tasks)[i := MergePatch(old(tasks)[i], patch)] && r == Ok(tasks[i])
    {
      match TaskIndex(tasks, id)
      case None =>
        r := Fail(404, TaskNotFound);
      case Some(i) =>
        var t := MergePatch(tasks[i], patch);
        tasks := tasks[i := t];
        r := Ok(t);
    }

    /** updateTaskChecklist: "Task not found" or "Checklist item not found"
        leave the store as it was; otherwise the loaded task is changed in
        place by the toggle and saved. */
    method UpdateTaskChecklist(taskId: TaskId, todoId: ItemId, isCompleted: bool) returns (r: Response<Task>)
      requires Valid()
      modifies this
      ensures Valid() && nextId == old(nextId)
      ensures match TaskIndex(old(tasks), taskId)
        case None => r == Fail(404, TaskNotFound) && tasks == old(tasks)
        case Some(i) =>
          r == ToggleItem(old(tasks)[i], todoId, isCompleted)
          && (r.Fail? ==> tasks == old(tasks))
          && (r.Ok? ==> tasks == old(tasks)[i := r.value])
    {
      match TaskIndex(tasks, taskId)
      case None =>
        r := Fail(404, TaskNotFound);
      case Some(i) =>
        r := ToggleItem(tasks[i], todoId, isCompleted);
        if r.Ok? {
          tasks := tasks[i := r.value];
        }
    }

    /** deleteTask: "Task not found" for an unknown id, otherwise exactly that
        task removed and the others kept in order. */
    method DeleteTask(id: TaskId) returns (r: Response<string>)
      requires Valid()
      modifies this
      ensures Valid() && nextId == old(nextId)
      ensures match TaskIndex(old(tasks), id)
        case None => r == Fail(404, TaskNotFound) && tasks == old(tasks)
        case Some(i) => r == Ok("Task removed successfully") && tasks == RemoveAt(old(tasks), i)
      ensures r.Ok? ==> tasks == Filter(old(tasks), HasOtherId(id))
    {
      match TaskIndex(tasks, id)
      case None =>
        r := Fail(404, TaskNotFound);
      case Some(i) =>
        RemoveAtIsFilter(tasks, id);
        RemoveAtKeepsIds(tasks, i, nextId);
        tasks := RemoveAt(tasks, i);
        r := Ok("Task removed successfully");
    }
  }

  function ScenarioTask(a: bool, b: bool, progress: int): Task {
    Task(0, "t", "d", "medium", "pending", None, [], 0, [],
         [TodoItem(0, "a", a), TodoItem(1, "b", b)], progress, 0)
  }

  lemma TwoItemProgress(a: bool, b: bool)
    ensures ChecklistProgress([TodoItem(0, "a", a), TodoItem(1, "b", b)])
            == (if a && b then 100 else if a || b then 50 else 0)
  {
    var x, y := TodoItem(0, "a", a), TodoItem(1, "b", b);
    var items := [x, y];
    assert items[1..] == [y];
    assert [y][1..] == [];
    assert Filter([y], IsCompleted()) == (if b then [y] else []);
    assert Filter(items, IsCompleted()) == (if a then [x] else []) + Filter([y], IsCompleted());
    assert CompletedCount(items) == (if a then 1 else 0) + (if b then 1 else 0);
  }

  lemma ScenarioStep(a: bool, b: bool, p: int, todoId: ItemId, v: bool)
    requires todoId <= 1
    ensures ToggleItem(ScenarioTask(a, b, p), todoId, v)
            == Ok(if todoId == 0 then ScenarioTask(v, b, ChecklistProgress([TodoItem(0, "a", v), TodoItem(1, "b", b)]))
                  else ScenarioTask(a, v, ChecklistProgress([TodoItem(0, "a", a), TodoItem(1, "b", v)])))
  {
    var items := ScenarioTask(a, b, p).todoChecklist;
    assert items[1..] == [TodoItem(1, "b", b)];
    assert |items| == 2 && items[0].id == 0 && items[1].id == 1;
    assert items[todoId].id == todoId;
    assert ItemIndex(items, todoId) == Some(todoId);
    var items' := items[todoId := items[todoId].(isCompleted := v)];
    if todoId == 0 {
      assert items' == [TodoItem(0, "a", v), TodoItem(1, "b", b)];
    } else {
      assert items' == [TodoItem(0, "a", a), TodoItem(1, "b", v)];
    }
  }

  /** The worked example: two open items give 0; completing the first gives
      50, the second 100; reopening the first gives 50 again. */
  lemma ChecklistScenario()
    ensures ProgressConsistent(ScenarioTask(false, false, 0))
    ensures ToggleItem(ScenarioTask(false, false, 0), 0, true) == Ok(ScenarioTask(true, false, 50))
    ensures ToggleItem(ScenarioTask(true, false, 50), 1, true) == Ok(ScenarioTask(true, true, 100))
    ensures ToggleItem(ScenarioTask(true, true, 100), 0, false) == Ok(ScenarioTask(false, true, 50))
  {
    TwoItemProgress(false, false);
    TwoItemProgress(true, false);
    TwoItemProgress(true, true);
    TwoItemProgress(false, true);
    ScenarioStep(false, false, 0, 0, true);
    ScenarioStep(true, false, 50, 1, true);
    ScenarioStep(true, true, 100, 0, false);
  }
}
