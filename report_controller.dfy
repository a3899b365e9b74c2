/** The handlers of backend/controllers/reportController.js: global status
    and priority counts, and the completed-task aggregation per assignee
    list joined with the user collection. */
module ReportController {
  import opened Common
  import opened TaskController
  import opened UserModel

  datatype StatusCounts = StatusCounts(pending: nat, inProgress: nat, completed: nat)
  datatype PriorityCounts = PriorityCounts(high: nat, medium: nat, low: nat)
  datatype DashboardStats = DashboardStats(totalTasks: nat, status: StatusCounts, priority: PriorityCounts)

  function HasPriority(p: string): Task -> bool { (t: Task) => t.priority == p }

  /** getDashboardStats: counts over every task in the store, unscoped. */
  function GetDashboardStats(tasks: seq<Task>): (r: DashboardStats)
    ensures r.totalTasks == |tasks|
    ensures r.status.pending == Count(tasks, HasStatus("pending"))
    ensures r.status.inProgress == Count(tasks, HasStatus("in-progress"))
    ensures r.status.completed == Count(tasks, HasStatus("completed"))
    ensures r.priority.high == Count(tasks, HasPriority("high"))
    ensures r.priority.medium == Count(tasks, HasPriority("medium"))
    ensures r.priority.low == Count(tasks, HasPriority("low"))
    ensures r.status.pending <= |tasks| && r.status.inProgress <= |tasks| && r.status.completed <= |tasks|
    ensures r.priority.high <= |tasks| && r.priority.medium <= |tasks| && r.priority.low <= |tasks|
  {
    DashboardStats(|tasks|,
      StatusCounts(Count(tasks, HasStatus("pending")), Count(tasks, HasStatus("in-progress")),
                   Count(tasks, HasStatus("completed"))),
      PriorityCounts(Count(tasks, HasPriority("high")), Count(tasks, HasPriority("medium")),
                     Count(tasks, HasPriority("low"))))
  }

  /** Status and priority are two independent partitions of the store: each
      family of counts adds up to at most the total, with equality when every
      task has one of the listed values. */
  lemma DashboardStatsPartitions(tasks: seq<Task>)
    ensures var d := GetDashboardStats(tasks);
      && d.status.pending + d.status.inProgress + d.status.completed <= d.totalTasks
      && d.priority.high + d.priority.medium + d.priority.low <= d.totalTasks
      && ((forall t :: t in tasks ==> KnownStatus(t)) ==>
            d.status.pending + d.status.inProgress + d.status.completed == d.totalTasks)
      && ((forall t :: t in tasks ==> IsPriority(t.priority)) ==>
            d.priority.high + d.priority.medium + d.priority.low == d.totalTasks)
  {
    CountThree(tasks, HasStatus("pending"), HasStatus("in-progress"), HasStatus("completed"));
    CountThree(tasks, HasPriority("high"), HasPriority("medium"), HasPriority("low"));
  }

  /** The report's status counts are the admin dashboard's. */
  lemma DashboardStatsAgreeWithAdminDashboard(tasks: seq<Task>, today: int, tomorrow: int)
    ensures var d := GetDashboardStats(tasks);
      var a := GetDashboardData(tasks, today, tomorrow);
      d.totalTasks == a.totalTasks && d.status.pending == a.pendingTasks
      && d.status.inProgress == a.inProgressTasks && d.status.completed == a.completedTasks
  {
  }

  // ---------------------------------------------------------------------
  // getUserPerformance (backend/controllers/reportController.js:39-72)

  function SameAssignees(key: seq<UserId>): Task -> bool { (t: Task) => t.assignedTo == key }
  function OtherAssignees(key: seq<UserId>): Task -> bool { (t: Task) => t.assignedTo != key }

  /** One `$group` bucket: the whole assignee list and its task count. */
  datatype Group = Group(key: seq<UserId>, completedCount: nat)

  /** `$group: { _id: "$assignedTo", completedCount: { $sum: 1 } }`, buckets
      in order of first appearance. */
  function GroupByAssignees(c: seq<Task>): (r: seq<Group>)
    ensures forall i :: 0 <= i < |r| ==> r[i].completedCount >= 1
    decreases |c|
  {
    if c == [] then []
    else
      var key := c[0].assignedTo;
      assert SameAssignees(key)(c[0]);
      assert c[0] in Filter(c, SameAssignees(key));
      [Group(key, Count(c, SameAssignees(key)))]
        + GroupByAssignees(Filter(c[1..], OtherAssignees(key)))
  }

  function SumCounts(gs: seq<Group>): nat {
    if gs == [] then 0 else gs[0].completedCount + SumCounts(gs[1..])
  }

  /** The group counts add up to the number of grouped tasks. */
  lemma {:induction false} GroupCountsSum(c: seq<Task>)
    ensures SumCounts(GroupByAssignees(c)) == |c|
    decreases |c|
  {
    if c != [] {
      var key := c[0].assignedTo;
      var rest := Filter(c[1..], OtherAssignees(key));
      GroupCountsSum(rest);
      assert c == [c[0]] + c[1..];
      CountCons(c[0], c[1..], SameAssignees(key));
      CountTwo(c[1..], SameAssignees(key), OtherAssignees(key));
    }
  }

  /** Removing other keys keeps the count of a key. */
  lemma {:induction false} OtherKeysKeepCount(s: seq<Task>, key: seq<UserId>, key': seq<UserId>)
    requires key != key'
    ensures Count(Filter(s, OtherAssignees(key)), SameAssignees(key')) == Count(s, SameAssignees(key'))
  {
    if s != [] {
      OtherKeysKeepCount(s[1..], key, key');
      var head := if OtherAssignees(key)(s[0]) then [s[0]] else [];
      FilterAppend(head, Filter(s[1..], OtherAssignees(key)), SameAssignees(key'));
      assert [s[0]][1..] == [];
    }
  }

  ghost predicate KeyOccurs(c: seq<Task>, key: seq<UserId>) {
    exists t :: t in c && t.assignedTo == key
  }

  /** Every bucket key is the assignee list of some grouped task. */
  lemma {:induction false} GroupKeysOccur(c: seq<Task>)
    ensures forall i :: 0 <= i < |GroupByAssignees(c)| ==> KeyOccurs(c, GroupByAssignees(c)[i].key)
    decreases |c|
  {
    if c != [] {
      var key := c[0].assignedTo;
      var rest := Filter(c[1..], OtherAssignees(key));
      GroupKeysOccur(rest);
      var g := GroupByAssignees(c);
      var gr := GroupByAssignees(rest);
      assert g == [Group(key, Count(c, SameAssignees(key)))] + gr;
      assert c[0] in c;
      forall i | 0 <= i < |g| ensures KeyOccurs(c, g[i].key) {
        if i > 0 {
          assert g[i] == gr[i - 1];
          assert KeyOccurs(rest, gr[i - 1].key);
          var t :| t in rest && t.assignedTo == gr[i - 1].key;
          assert t in c[1..];
        } else {
          assert c[0].assignedTo == g[0].key;
        }
      }
    }
  }

  /** A key other than the head's counts the same before and after the
      head's tasks are set aside. */
  lemma CountAfterSetAside(c: seq<Task>, key': seq<UserId>)
    requires c != [] && key' != c[0].assignedTo
    ensures Count(Filter(c[1..], OtherAssignees(c[0].assignedTo)), SameAssignees(key')) == Count(c, SameAssignees(key'))
  {
    var h, tl := c[0], c[1..];
    OtherKeysKeepCount(tl, h.assignedTo, key');
    CountCons(h, tl, SameAssignees(key'));
    assert [h] + tl == c;
    assert !SameAssignees(key')(h);
  }

  /** The buckets after the first have keys other than the first's. */
  lemma LaterKeyDiffers(c: seq<Task>, i: nat)
    requires c != []
    requires i < |GroupByAssignees(Filter(c[1..], OtherAssignees(c[0].assignedTo)))|
    ensures GroupByAssignees(Filter(c[1..], OtherAssignees(c[0].assignedTo)))[i].key != c[0].assignedTo
  {
    var rest := Filter(c[1..], OtherAssignees(c[0].assignedTo));
    GroupKeysOccur(rest);
    var gr := GroupByAssignees(rest);
    assert KeyOccurs(rest, gr[i].key);
    var t :| t in rest && t.assignedTo == gr[i].key;
    assert OtherAssignees(c[0].assignedTo)(t);
  }

  /** Each bucket counts exactly the grouped tasks whose assignee list
      equals its key. */
  lemma {:induction false} GroupsCountTheirKey(c: seq<Task>)
    ensures var g := GroupByAssignees(c);
      forall i :: 0 <= i < |g| ==> g[i].completedCount == Count(c, SameAssignees(g[i].key))
    decreases |c|
  {
    if c != [] {
      var key := c[0].assignedTo;
      var rest := Filter(c[1..], OtherAssignees(key));
      GroupsCountTheirKey(rest);
      var g := GroupByAssignees(c);
      var gr := GroupByAssignees(rest);
      assert g == [Group(key, Count(c, SameAssignees(key)))] + gr;
      forall i | 0 <= i < |g| ensures g[i].completedCount == Count(c, SameAssignees(g[i].key)) {
        if i > 0 {
          assert g[i] == gr[i - 1];
          LaterKeyDiffers(c, i - 1);
          CountAfterSetAside(c, gr[i - 1].key);
        }
      }
    }
  }

  /** No two buckets share a key. */
  lemma {:induction false} GroupKeysDistinct(c: seq<Task>)
    ensures var g := GroupByAssignees(c);
      forall i, j :: 0 <= i < j < |g| ==> g[i].key != g[j].key
    decreases |c|
  {
    if c != [] {
      var rest := Filter(c[1..], OtherAssignees(c[0].assignedTo));
      GroupKeysDistinct(rest);
      var g := GroupByAssignees(c);
      var gr := GroupByAssignees(rest);
      assert g[0].key == c[0].assignedTo && g[1..] == gr;
      forall i, j | 0 <= i < j < |g| ensures g[i].key != g[j].key {
        PairOfKeys(c, g, gr, i, j);
      }
    }
  }

  lemma PairOfKeys(c: seq<Task>, g: seq<Group>, gr: seq<Group>, i: nat, j: nat)
    requires c != [] && g != [] && g[0].key == c[0].assignedTo && g[1..] == gr
    requires gr == GroupByAssignees(Filter(c[1..], OtherAssignees(c[0].assignedTo)))
    requires forall a, b :: 0 <= a < b < |gr| ==> gr[a].key != gr[b].key
    requires i < j < |g|
    ensures g[i].key != g[j].key
  {
    assert g[j] == gr[j - 1];
    if i > 0 {
      assert g[i] == gr[i - 1];
    } else {
      LaterKeyDiffers(c, j - 1);
    }
  }

  /** One output row: `$unwind` of the looked-up users, projected. */
  datatype PerformanceRow = PerformanceRow(assignees: seq<UserId>, name: string, email: string, completedCount: nat)

  function IdIn(key: seq<UserId>): User -> bool { (u: User) => u.id in key }

  /** `$lookup` with an array `localField` matches every user whose id is in
      the array; `$unwind` emits one row per matched user and drops buckets
      that matched none. */
  function UnwindGroup(g: Group, matched: seq<User>): (r: seq<PerformanceRow>)
    ensures |r| == |matched|
    ensures forall k :: 0 <= k < |r| ==>
      r[k] == PerformanceRow(g.key, matched[k].name, matched[k].email, g.completedCount)
  {
    if matched == [] then []
    else [PerformanceRow(g.key, matched[0].name, matched[0].email, g.completedCount)]
         + UnwindGroup(g, matched[1..])
  }

  function LookupAndUnwind(gs: seq<Group>, users: seq<User>): (r: seq<PerformanceRow>)
    ensures users == [] ==> r == []
    ensures forall k :: 0 <= k < |r| ==>
      exists u :: u in users && u.id in r[k].assignees && u.name == r[k].name && u.email == r[k].email
  {
    if gs == [] then []
    else UnwindGroup(gs[0], Filter(users, IdIn(gs[0].key))) + LookupAndUnwind(gs[1..], users)
  }

  /** getUserPerformance: only completed tasks enter the pipeline. */
  function GetUserPerformance(tasks: seq<Task>, users: seq<User>): (r: seq<PerformanceRow>)
    ensures (forall t :: t in tasks ==> t.status != "completed") ==> r == []
    ensures users == [] ==> r == []
  {
    assert (forall t :: t in tasks ==> t.status != "completed") ==> Filter(tasks, HasStatus("completed")) == [] by {
      if forall t :: t in tasks ==> t.status != "completed" {
        FilterNone(tasks, HasStatus("completed"));
      }
    }
    LookupAndUnwind(GroupByAssignees(Filter(tasks, HasStatus("completed"))), users)
  }

  /** Every row comes from a bucket and a user whose id is in that bucket's key. */
  lemma {:induction false} RowsComeFromGroups(gs: seq<Group>, users: seq<User>)
    ensures forall row :: row in LookupAndUnwind(gs, users) ==>
      exists i, u :: 0 <= i < |gs| && u in users && u.id in gs[i].key
        && row == PerformanceRow(gs[i].key, u.name, u.email, gs[i].completedCount)
  {
    if gs != [] {
      RowsComeFromGroups(gs[1..], users);
      var m := Filter(users, IdIn(gs[0].key));
      var head := UnwindGroup(gs[0], m);
      forall row | row in LookupAndUnwind(gs, users)
        ensures exists i, u :: (0 <= i < |gs| && u in users && u.id in gs[i].key
          && row == PerformanceRow(gs[i].key, u.name, u.email, gs[i].completedCount))
      {
        if row in head {
          var k :| 0 <= k < |head| && head[k] == row;
          assert IdIn(gs[0].key)(m[k]);
          assert row == PerformanceRow(gs[0].key, m[k].name, m[k].email, gs[0].completedCount);
        } else {
          assert row in LookupAndUnwind(gs[1..], users);
          var i, u :| 0 <= i < |gs[1..]| && u in users && u.id in gs[1..][i].key
            && row == PerformanceRow(gs[1..][i].key, u.name, u.email, gs[1..][i].completedCount);
          assert gs[1..][i] == gs[i + 1];
        }
      }
    }
  }

  /** Each row's assignee list is that of some completed task, the row's
      name and email are those of a stored user listed in it, and its count is
      the number of completed tasks with exactly that assignee list. */
  lemma UserPerformanceRows(tasks: seq<Task>, users: seq<User>)
    ensures var c := Filter(tasks, HasStatus("completed"));
      forall row :: row in GetUserPerformance(tasks, users) ==>
        && row.completedCount == Count(c, SameAssignees(row.assignees))
        && row.completedCount >= 1
        && (exists u :: u in users && u.id in row.assignees && u.name == row.name && u.email == row.email)
        && (exists t :: t in tasks && t.status == "completed" && t.assignedTo == row.assignees)
  {
    var c := Filter(tasks, HasStatus("completed"));
    var gs := GroupByAssignees(c);
    forall row | row in GetUserPerformance(tasks, users)
      ensures row.completedCount == Count(c, SameAssignees(row.assignees))
      ensures row.completedCount >= 1
      ensures exists u :: u in users && u.id in row.assignees && u.name == row.name && u.email == row.email
      ensures exists t :: t in tasks && t.status == "completed" && t.assignedTo == row.assignees
    {
      RowsComeFromGroups(gs, users);
      var i, u :| 0 <= i < |gs| && u in users && u.id in gs[i].key
        && row == PerformanceRow(gs[i].key, u.name, u.email, gs[i].completedCount);
      GroupOfKey(c, i);
      var t :| t in c && t.assignedTo == gs[i].key;
      var k :| 0 <= k < |c| && c[k] == t;
      assert HasStatus("completed")(c[k]);
    }
  }

  /** Every grouped task has a bucket for its assignee list. */
  lemma {:induction false} TaskHasGroup(c: seq<Task>, t: Task) returns (i: nat)
    requires t in c
    ensures i < |GroupByAssignees(c)| && GroupByAssignees(c)[i].key == t.assignedTo
    decreases |c|
  {
    var key := c[0].assignedTo;
    var rest := Filter(c[1..], OtherAssignees(key));
    var g := GroupByAssignees(c);
    assert g == [Group(key, Count(c, SameAssignees(key)))] + GroupByAssignees(rest);
    if t.assignedTo == key {
      i := 0;
    } else {
      var k :| 0 <= k < |c| && c[k] == t;
      assert k > 0 && c[1..][k - 1] == t;
      assert OtherAssignees(key)(t);
      assert t in rest;
      var j := TaskHasGroup(rest, t);
      i := j + 1;
    }
  }

  /** A stored user whose id is in a bucket's key is matched by `$lookup`
      and so gets a row of that bucket. */
  lemma UnwindHasUser(g: Group, users: seq<User>, u: User)
    requires u in users && u.id in g.key
    ensures PerformanceRow(g.key, u.name, u.email, g.completedCount) in UnwindGroup(g, Filter(users, IdIn(g.key)))
  {
    var m := Filter(users, IdIn(g.key));
    var j :| 0 <= j < |users| && users[j] == u;
    assert IdIn(g.key)(users[j]);
    assert u in m;
    var k :| 0 <= k < |m| && m[k] == u;
    assert UnwindGroup(g, m)[k] == PerformanceRow(g.key, u.name, u.email, g.completedCount);
  }

  /** Completeness of the join: each stored user whose id is in a bucket's
      key yields that bucket's row. */
  lemma {:induction false} RowsComplete(gs: seq<Group>, users: seq<User>, i: nat, u: User)
    requires i < |gs| && u in users && u.id in gs[i].key
    ensures PerformanceRow(gs[i].key, u.name, u.email, gs[i].completedCount) in LookupAndUnwind(gs, users)
  {
    var row := PerformanceRow(gs[i].key, u.name, u.email, gs[i].completedCount);
    var head := UnwindGroup(gs[0], Filter(users, IdIn(gs[0].key)));
    var tail := LookupAndUnwind(gs[1..], users);
    assert LookupAndUnwind(gs, users) == head + tail;
    if i == 0 {
      UnwindHasUser(gs[0], users, u);
      assert row in head;
    } else {
      assert gs[1..][i - 1] == gs[i];
      RowsComplete(gs[1..], users, i - 1, u);
      assert row in tail;
    }
  }

  /** Every completed task and every stored user listed in it give a row
      with that task's assignee list and the number of completed tasks
      sharing it. */
  lemma CompletedTaskGivesRow(tasks: seq<Task>, users: seq<User>, t: Task, u: User)
    requires t in tasks && t.status == "completed" && u in users && u.id in t.assignedTo
    ensures var c := Filter(tasks, HasStatus("completed"));
      PerformanceRow(t.assignedTo, u.name, u.email, Count(c, SameAssignees(t.assignedTo)))
        in GetUserPerformance(tasks, users)
  {
    var c := Filter(tasks, HasStatus("completed"));
    var k :| 0 <= k < |tasks| && tasks[k] == t;
    assert HasStatus("completed")(tasks[k]);
    assert t in c;
    var i := TaskHasGroup(c, t);
    GroupsCountTheirKey(c);
    RowsComplete(GroupByAssignees(c), users, i, u);
  }

  lemma GroupOfKey(c: seq<Task>, i: nat)
    requires i < |GroupByAssignees(c)|
    ensures var g := GroupByAssignees(c)[i];
      g.completedCount == Count(c, SameAssignees(g.key)) && KeyOccurs(c, g.key)
  {
    GroupsCountTheirKey(c);
    GroupKeysOccur(c);
  }

  /** The completed counts over all buckets add up to the number of completed
      tasks. */
  lemma GroupCountsAddUpToCompleted(tasks: seq<Task>)
    ensures SumCounts(GroupByAssignees(Filter(tasks, HasStatus("completed"))))
            == Count(tasks, HasStatus("completed"))
  {
    GroupCountsSum(Filter(tasks, HasStatus("completed")));
  }

  /** Tasks that are not completed have no effect on the report. */
  lemma OpenTasksIgnored(tasks: seq<Task>, t: Task, users: seq<User>)
    requires t.status != "completed"
    ensures GetUserPerformance(tasks + [t], users) == GetUserPerformance(tasks, users)
  {
    FilterAppend(tasks, [t], HasStatus("completed"));
    assert [t][1..] == [];
    assert Filter([t], HasStatus("completed")) == [];
    assert Filter(tasks, HasStatus("completed")) + [] == Filter(tasks, HasStatus("completed"));
  }

  /** The buckets of the worked example below: one per assignee list. */
  lemma SharedTaskGroups(t1: Task, t2: Task)
    requires t1.status == "completed" && t1.assignedTo == [1]
    requires t2.status == "completed" && t2.assignedTo == [1, 2]
    ensures GroupByAssignees(Filter([t1, t2], HasStatus("completed"))) == [Group([1], 1), Group([1, 2], 1)]
  {
    var both := [t1, t2];
    assert both[1..] == [t2] && [t2][1..] == [];
    assert Filter(both, HasStatus("completed")) == both;
    var k1: seq<UserId>, k12: seq<UserId> := [1], [1, 2];
    assert k12 != k1 by { assert |k12| != |k1|; }
    assert Filter([t2], OtherAssignees([1])) == [t2];
    assert Filter([t2], SameAssignees([1, 2])) == [t2];
    assert Filter(both, SameAssignees([1])) == [t1];
    assert Filter([], OtherAssignees([1, 2])) == [];
    assert GroupByAssignees([t2]) == [Group([1, 2], 1)];
    assert GroupByAssignees(both) == [Group([1], 1)] + GroupByAssignees([t2]);
  }

  /** The join of the worked example below: the solo bucket matches the
      first user, the shared bucket both. */
  lemma SharedTaskLookup(u1: User, u2: User)
    requires u1.id == 1 && u2.id == 2
    ensures LookupAndUnwind([Group([1], 1), Group([1, 2], 1)], [u1, u2]) ==
      [PerformanceRow([1], u1.name, u1.email, 1),
       PerformanceRow([1, 2], u1.name, u1.email, 1),
       PerformanceRow([1, 2], u2.name, u2.email, 1)]
  {
    var gs := [Group([1], 1), Group([1, 2], 1)];
    var us := [u1, u2];
    assert us[1..] == [u2] && [u2][1..] == [];
    assert Filter(us, IdIn([1])) == [u1];
    assert Filter(us, IdIn([1, 2])) == [u1, u2];
    assert gs[1..] == [gs[1]] && [gs[1]][1..] == [];
    var r1 := UnwindGroup(gs[0], [u1]);
    var r2 := UnwindGroup(gs[1], [u1, u2]);
    assert LookupAndUnwind([gs[1]], us) == r2 + LookupAndUnwind([], us);
    assert LookupAndUnwind(gs, us) == r1 + LookupAndUnwind([gs[1]], us);
  }

  /** Buckets are keyed by the entire assignee list: a member who completed
      one task alone and one with a colleague appears in two rows, each
      counting one task, and the shared task also yields a row for the
      colleague. */
  lemma SharedTaskSplitsRows()
    ensures var u1 := User(1, "Ann", "ann@x.io", "h", "member", None);
      var u2 := User(2, "Bob", "bob@x.io", "h", "member", None);
      var t1 := Task(0, "a", "d", "low", "completed", None, [1], 0, [], [], 0, 0);
      var t2 := Task(1, "b", "d", "low", "completed", None, [1, 2], 0, [], [], 0, 0);
      GetUserPerformance([t1, t2], [u1, u2]) ==
        [PerformanceRow([1], "Ann", "ann@x.io", 1),
         PerformanceRow([1, 2], "Ann", "ann@x.io", 1),
         PerformanceRow([1, 2], "Bob", "bob@x.io", 1)]
  {
    var u1 := User(1, "Ann", "ann@x.io", "h", "member", None);
    var u2 := User(2, "Bob", "bob@x.io", "h", "member", None);
    var t1 := Task(0, "a", "d", "low", "completed", None, [1], 0, [], [], 0, 0);
    var t2 := Task(1, "b", "d", "low", "completed", None, [1, 2], 0, [], [], 0, 0);
    SharedTaskGroups(t1, t2);
    SharedTaskLookup(u1, u2);
    assert Filter([t1, t2], HasStatus("completed")) == [t1, t2];
  }
}
