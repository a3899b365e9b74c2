/** frontend/Task-manager/src/pages/User/MyTask.jsx: the member's task page.
    Everything it computes is an expression over the fetched task list, the
    active status tab, the search box and, for dates, the clock reading
    `now` (milliseconds). The admin page ManageTask.jsx repeats the status
    counts, the filter and the response fallback word for word; module
    ManageTask uses the definitions here. */
module MyTask {
  import opened Common
  import opened ClientModel
  import Helper
  import TaskController

  // ---------------------------------------------------------------------
  // Fetching: `response.data?.tasks || response.data || []`

  /** The JSON body of the task-list reply: an object with a `tasks` array,
      a bare array, or some other object. */
  datatype Body = TasksObject(tasks: seq<ClientTask>) | TaskArray(items: seq<ClientTask>) | OtherObject

  /** The value stored as the page's task list; None when it is not a list
      (an object without `tasks`, stored as it is). An array is truthy even
      when empty, so an empty `tasks` array is taken as it is. */
  function TasksFromResponse(data: Option<Body>): (r: Option<seq<ClientTask>>)
    ensures data.None? ==> r == Some([])
    ensures data.Some? && data.value.TasksObject? ==> r == Some(data.value.tasks)
    ensures data.Some? && data.value.TaskArray? ==> r == Some(data.value.items)
    ensures r.None? <==> data == Some(OtherObject)
  {
    match data
    case None => Some([])
    case Some(TasksObject(tasks)) => Some(tasks)
    case Some(TaskArray(items)) => Some(items)
    case Some(OtherObject) => None
  }

  // ---------------------------------------------------------------------
  // getStatusCounts

  datatype StatusCounts = StatusCounts(all: nat, pending: nat, inProgress: nat, completed: nat)

  /** The tab badges: `all` is the number of tasks, the others count tasks
      whose status is exactly that string. */
  function GetStatusCounts(tasks: seq<ClientTask>): (c: StatusCounts)
    ensures c.all == |tasks|
    ensures c.pending == Count(tasks, StatusEquals("pending"))
    ensures c.inProgress == Count(tasks, StatusEquals("in-progress"))
    ensures c.completed == Count(tasks, StatusEquals("completed"))
    ensures c.pending + c.inProgress + c.completed <= c.all
    ensures (forall k :: 0 <= k < |tasks| ==> tasks[k].status in {Some("pending"), Some("in-progress"), Some("completed")})
            ==> c.pending + c.inProgress + c.completed == c.all
  {
    CountThree(tasks, StatusEquals("pending"), StatusEquals("in-progress"), StatusEquals("completed"));
    StatusCounts(|tasks|, Count(tasks, StatusEquals("pending")), Count(tasks, StatusEquals("in-progress")),
                 Count(tasks, StatusEquals("completed")))
  }

  // ---------------------------------------------------------------------
  // filteredTasks

  /** The status tab matches (`'all'` matches every task) and the search
      hits the title or the description. */
  function OnTab(activeStatus: string, query: string): (r: ClientTask -> bool)
    ensures forall t :: r(t) ==> MatchesSearch(query)(t)
    ensures forall t :: r(t) && activeStatus != "all" ==> t.status == Some(activeStatus)
    ensures activeStatus == "all" ==> forall t :: r(t) == MatchesSearch(query)(t)
  {
    (t: ClientTask) => (activeStatus == "all" || t.status == Some(activeStatus)) && MatchesSearch(query)(t)
  }

  function FilteredTasks(tasks: seq<ClientTask>, activeStatus: string, query: string): (r: seq<ClientTask>)
    ensures IsSubsequence(r, tasks)
    ensures forall k :: 0 <= k < |r| ==>
      (activeStatus == "all" || r[k].status == Some(activeStatus)) && MatchesSearch(query)(r[k])
    ensures forall k :: 0 <= k < |tasks| && OnTab(activeStatus, query)(tasks[k]) ==> tasks[k] in r
  {
    FilterIsSubsequence(tasks, OnTab(activeStatus, query));
    Filter(tasks, OnTab(activeStatus, query))
  }

  /** The badges do not depend on the tab or the search: the list shown is
      never longer than the `all` badge nor, on a status tab, than that
      tab's badge. */
  lemma ListWithinBadges(tasks: seq<ClientTask>, activeStatus: string, query: string)
    ensures |FilteredTasks(tasks, activeStatus, query)| <= GetStatusCounts(tasks).all
    ensures activeStatus == "pending" ==> |FilteredTasks(tasks, activeStatus, query)| <= GetStatusCounts(tasks).pending
    ensures activeStatus == "in-progress" ==> |FilteredTasks(tasks, activeStatus, query)| <= GetStatusCounts(tasks).inProgress
    ensures activeStatus == "completed" ==> |FilteredTasks(tasks, activeStatus, query)| <= GetStatusCounts(tasks).completed
  {
    if activeStatus != "all" {
      CountMono(tasks, OnTab(activeStatus, query), StatusEquals(activeStatus));
    }
  }

  /** With an empty search, a status tab lists exactly as many tasks as its
      badge says, provided every task has a title or a description (a
      task with neither never matches the search). */
  lemma BadgeMatchesTab(tasks: seq<ClientTask>, activeStatus: string)
    requires activeStatus != "all"
    requires forall k :: 0 <= k < |tasks| ==> tasks[k].title.Some? || tasks[k].description.Some?
    ensures |FilteredTasks(tasks, activeStatus, "")| == Count(tasks, StatusEquals(activeStatus))
  {
    forall x | x in tasks ensures OnTab(activeStatus, "")(x) == StatusEquals(activeStatus)(x) {
      EmptySearchMatches(x);
    }
    FilterSame(tasks, OnTab(activeStatus, ""), StatusEquals(activeStatus));
  }

  /** The empty search hits every task that has a title or a description. */
  lemma EmptySearchMatches(t: ClientTask)
    ensures MatchesSearch("")(t) <==> t.title.Some? || t.description.Some?
  {
    if t.title.Some? {
      ContainsEmpty(ToLower(t.title.value));
    }
    if t.description.Some? {
      ContainsEmpty(ToLower(t.description.value));
    }
  }

  // ---------------------------------------------------------------------
  // calculateProgress

  function IsCompletedFlag(): ChecklistItem -> bool {
    (item: ChecklistItem) => item.isCompleted
  }

  /** 0 for a missing or empty checklist, else the rounded percentage of
      items whose `isCompleted` flag is set. */
  function CalculateProgress(todos: Option<seq<ChecklistItem>>): (r: nat)
    ensures 0 <= r <= 100
    ensures todos.None? || todos.value == [] ==> r == 0
    ensures todos.Some? && todos.value != [] ==> r == Percent(Count(todos.value, IsCompletedFlag()), |todos.value|)
  {
    if todos.None? || todos.value == [] then 0
    else
      PercentBounds(Count(todos.value, IsCompletedFlag()), |todos.value|);
      Percent(Count(todos.value, IsCompletedFlag()), |todos.value|)
  }

  /** A stored checklist as the browser receives it. */
  function AsReceived(items: seq<TaskController.TodoItem>): (r: seq<ChecklistItem>)
    ensures |r| == |items|
    ensures forall k :: 0 <= k < |items| ==> r[k] == FromServerItem(items[k].text, items[k].isCompleted)
  {
    seq(|items|, k requires 0 <= k < |items| => FromServerItem(items[k].text, items[k].isCompleted))
  }

  /** This page reads the flag the server writes, so its bar shows the
      progress the server stores after a checklist update. */
  lemma ProgressMatchesServer(items: seq<TaskController.TodoItem>)
    ensures CalculateProgress(Some(AsReceived(items))) == TaskController.ChecklistProgress(items)
  {
    CountAcross(AsReceived(items), items, IsCompletedFlag(), TaskController.IsCompleted());
  }

  /** The shared helper reads `completed` instead: on a fully finished
      checklist from the server this page shows 100 and the helper 0. */
  lemma ProgressDiffersFromHelper(items: seq<TaskController.TodoItem>)
    requires items != []
    requires forall k :: 0 <= k < |items| ==> items[k].isCompleted
    ensures CalculateProgress(Some(AsReceived(items))) == 100
    ensures Helper.CalculateCompletionPercentage(Some(AsReceived(items))) == 0
  {
    var received := AsReceived(items);
    FilterAll(received, IsCompletedFlag());
    PercentBounds(|received|, |received|);
    Helper.ServerItemsReadAsIncomplete(received);
  }

  // ---------------------------------------------------------------------
  // formatDate and isOverdue

  const DayMs := 1000 * 60 * 60 * 24

  /** `Math.ceil(d / m)` for a positive m. */
  function CeilDiv(d: int, m: int): (r: int)
    requires m > 0
    ensures (r - 1) * m < d <= r * m
  {
    -((-d) / m)
  }

  /** `Math.ceil((date - now) / day)`: whole days to go, rounded up. */
  function DiffDays(dueDate: int, now: int): (r: int)
    ensures (r - 1) * DayMs < dueDate - now <= r * DayMs
    ensures dueDate <= now ==> r <= 0
    ensures dueDate > now ==> r >= 1
  {
    CeilDiv(dueDate - now, DayMs)
  }

  /** What formatDate shows: a fixed label, or the date in the browser's
      locale for dates more than a week ahead. */
  datatype DueText = Label(text: string) | LocaleDate(date: int)

  function FormatDate(dueDate: Option<int>, now: int): (r: DueText)
    ensures dueDate.None? ==> r == Label("No due date")
    ensures dueDate.Some? ==> (r == Label("Overdue") <==> dueDate.value <= now - DayMs)
    ensures dueDate.Some? ==> (r == Label("Due today") <==> now - DayMs < dueDate.value <= now)
    ensures dueDate.Some? ==> (r == Label("Due tomorrow") <==> now < dueDate.value <= now + DayMs)
    ensures dueDate.Some? ==> (r.LocaleDate? <==> dueDate.value > now + 7 * DayMs)
    ensures dueDate.Some? && 2 <= DiffDays(dueDate.value, now) <= 7 ==>
      r == Label("Due in " + NatToString(DiffDays(dueDate.value, now)) + " days")
  {
    if dueDate.None? then Label("No due date")
    else
      var diffDays := DiffDays(dueDate.value, now);
      if diffDays < 0 then Label("Overdue")
      else if diffDays == 0 then Label("Due today")
      else if diffDays == 1 then Label("Due tomorrow")
      else if diffDays <= 7 then
        DueInLabel(diffDays);
        Label("Due in " + NatToString(diffDays) + " days")
      else LocaleDate(dueDate.value)
  }

  /** A "Due in n days" label is none of the fixed ones. */
  lemma DueInLabel(n: nat)
    ensures "Due in " + NatToString(n) + " days" != "Overdue"
    ensures "Due in " + NatToString(n) + " days" != "Due today"
    ensures "Due in " + NatToString(n) + " days" != "Due tomorrow"
  {
    var s := "Due in " + NatToString(n) + " days";
    assert s[4] == 'i';
  }

  /** `task.dueDate && new Date(task.dueDate) < new Date() && task.status !== 'completed'` */
  function IsOverdue(task: ClientTask, now: int): (r: bool)
    ensures r <==> Helper.IsOverdue(task.dueDate, now) && task.status != Some("completed")
  {
    task.dueDate.Some? && task.dueDate.value < now && task.status != Some("completed")
  }

  /** Overdue on this page is the helper's notion, and never for a
      completed task or one without a due date. */
  lemma IsOverdueProperties(task: ClientTask, now: int)
    ensures IsOverdue(task, now) <==> Helper.IsOverdue(task.dueDate, now) && task.status != Some("completed")
    ensures task.status == Some("completed") ==> !IsOverdue(task, now)
    ensures task.dueDate.None? ==> !IsOverdue(task, now)
  {
  }

  /** The two date displays disagree for the first day: a task due less
      than a day ago is marked overdue but labelled "Due today". */
  lemma OverdueYetDueToday(task: ClientTask, now: int)
    requires task.dueDate.Some? && now - DayMs < task.dueDate.value < now
    requires task.status != Some("completed")
    ensures IsOverdue(task, now)
    ensures FormatDate(task.dueDate, now) == Label("Due today")
  {
  }
}
