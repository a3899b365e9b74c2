/** frontend/Task-manager/src/pages/Admin/ManageTask.jsx: the admin's task
    page. Its status counts (lines 36-43), filter (lines 56-61) and response
    fallback (line 26) are textually those of MyTask.jsx and are the
    functions of module MyTask; this module states what the admin page
    shows with them. */
module ManageTask {
  import opened Common
  import opened ClientModel
  import opened MyTask

  function HasText(): ClientTask -> bool {
    (t: ClientTask) => t.title.Some? || t.description.Some?
  }

  /** The "All" tab with an empty search shows every task that has a title
      or a description, in order; so all of them when every task has one. */
  lemma AllTabEmptySearch(tasks: seq<ClientTask>)
    ensures FilteredTasks(tasks, "all", "") == Filter(tasks, HasText())
    ensures (forall k :: 0 <= k < |tasks| ==> HasText()(tasks[k])) ==> FilteredTasks(tasks, "all", "") == tasks
  {
    forall x | x in tasks ensures OnTab("all", "")(x) == HasText()(x) {
      EmptySearchMatches(x);
    }
    FilterSame(tasks, OnTab("all", ""), HasText());
    if forall k :: 0 <= k < |tasks| ==> HasText()(tasks[k]) {
      FilterAll(tasks, HasText());
    }
  }

  /** A task with neither a title nor a description is listed under no tab
      for any search, although the badges count it. */
  lemma UntitledTaskIsHidden(tasks: seq<ClientTask>, activeStatus: string, query: string, k: nat)
    requires k < |tasks| && tasks[k].title.None? && tasks[k].description.None?
    ensures tasks[k] !in FilteredTasks(tasks, activeStatus, query)
    ensures |FilteredTasks(tasks, activeStatus, query)| < GetStatusCounts(tasks).all
  {
    var p := OnTab(activeStatus, query);
    assert !FieldMatches(tasks[k].title, query) && !FieldMatches(tasks[k].description, query);
    assert !MatchesSearch(query)(tasks[k]);
    assert !p(tasks[k]);
    FilterDropsSome(tasks, k, p);
  }
}
