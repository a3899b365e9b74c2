/** The task and checklist objects the browser code handles. They arrive as
    JSON from the server or are built by the editors, so a field may be
    absent; `?.` reads of such a field are `Option`s here. A boolean flag
    that an object does not carry reads as `undefined`, which is falsy, so
    each checklist item carries both flag names and the missing one is
    `false`: server items set `isCompleted`, the checklist editor sets
    `completed`. */
module ClientModel {
  import opened Common

  datatype ChecklistItem = ChecklistItem(text: string, isCompleted: bool, completed: bool)

  datatype ClientTask = ClientTask(
    id: string,
    title: Option<string>,
    description: Option<string>,
    status: Option<string>,
    priority: Option<string>,
    dueDate: Option<int>,
    createdAt: int,
    todoChecklist: Option<seq<ChecklistItem>>)

  /** An item as the server stores it, seen by the browser: no `completed` field. */
  function FromServerItem(text: string, isCompleted: bool): (item: ChecklistItem)
    ensures item.text == text && item.isCompleted == isCompleted && !item.completed
  {
    ChecklistItem(text, isCompleted, false)
  }

  /** `task.status === s`: an absent status equals no string. */
  function StatusEquals(s: string): ClientTask -> bool {
    (t: ClientTask) => t.status == Some(s)
  }

  /** `field?.toLowerCase().includes(q.toLowerCase())`: false when absent. */
  predicate FieldMatches(field: Option<string>, query: string) {
    field.Some? && Contains(ToLower(field.value), ToLower(query))
  }

  /** The search box of the task pages: a hit in the title or the description. */
  function MatchesSearch(query: string): ClientTask -> bool {
    (t: ClientTask) => FieldMatches(t.title, query) || FieldMatches(t.description, query)
  }

  /** A user as listed by the server, without the password. */
  datatype ClientUser = ClientUser(
    id: UserId,
    name: Option<string>,
    email: Option<string>,
    role: Option<string>,
    profileImageUrl: Option<string>)

  /** The search of the user lists: a hit in the name or the email. */
  function UserMatchesSearch(query: string): ClientUser -> bool {
    (u: ClientUser) => FieldMatches(u.name, query) || FieldMatches(u.email, query)
  }
}
