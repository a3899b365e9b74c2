/** frontend/Task-manager/src/pages/Admin/CreateTask.jsx: the admin's form
    for a new task. The form data and the error messages are the fields of
    a `CreateTaskPage`; the handlers replace one part of the form, and
    validateForm puts one message under each field that is missing. The
    submit request, the user fetch and the navigation are network and
    router calls and are not part of this model. */
module CreateTask {
  import opened Common
  import opened ClientModel

  const TitleRequired := "Title is required"
  const DescriptionRequired := "Description is required"
  const DueDateRequired := "Due date is required"
  const AssigneeRequired := "Please assign at least one team member"

  /** The string-valued fields: the three text inputs (`handleChange`) and
      the two dropdowns (`handleDropdownChange('priority' | 'status', …)`). */
  datatype TextField = Title | Description | DueDate | Priority | Status

  /** The keys the `errors` object can carry. */
  datatype ErrorKey = TitleKey | DescriptionKey | DueDateKey | PriorityKey | StatusKey | AssignedToKey

  function KeyOf(f: TextField): ErrorKey {
    match f
    case Title => TitleKey
    case Description => DescriptionKey
    case DueDate => DueDateKey
    case Priority => PriorityKey
    case Status => StatusKey
  }

  /** `formData`; the due date is the text of the date input. */
  datatype TaskForm = TaskForm(
    title: string,
    description: string,
    priority: string,
    status: string,
    dueDate: string,
    assignedTo: seq<UserId>,
    todoChecklist: seq<ChecklistItem>,
    attachments: seq<FileInfo>)

  const InitialForm := TaskForm("", "", "medium", "pending", "", [], [], [])

  function GetText(form: TaskForm, f: TextField): string {
    match f
    case Title => form.title
    case Description => form.description
    case DueDate => form.dueDate
    case Priority => form.priority
    case Status => form.status
  }

  /** `{ ...prev, [name]: value }` for a string-valued field. */
  function SetText(form: TaskForm, f: TextField, value: string): (r: TaskForm)
    ensures GetText(r, f) == value
    ensures forall g :: g != f ==> GetText(r, g) == GetText(form, g)
    ensures r.assignedTo == form.assignedTo && r.todoChecklist == form.todoChecklist
    ensures r.attachments == form.attachments
  {
    match f
    case Title => form.(title := value)
    case Description => form.(description := value)
    case DueDate => form.(dueDate := value)
    case Priority => form.(priority := value)
    case Status => form.(status := value)
  }

  /** The four checks of validateForm; priority and status are never checked.
      `!s.trim()` holds exactly for a string of white space only
      (Common.TrimEmptyIffAllSpace), which is how the two text checks are
      written here. */
  function TitleError(form: TaskForm): (r: Option<string>)
    ensures r.None? <==> exists k :: 0 <= k < |form.title| && !IsSpace(form.title[k])
    ensures r.Some? ==> r.value == TitleRequired
  {
    if AllSpace(form.title) then Some(TitleRequired) else None
  }

  function DescriptionError(form: TaskForm): (r: Option<string>)
    ensures r.None? <==> exists k :: 0 <= k < |form.description| && !IsSpace(form.description[k])
    ensures r.Some? ==> r.value == DescriptionRequired
  {
    if AllSpace(form.description) then Some(DescriptionRequired) else None
  }

  function DueDateError(form: TaskForm): (r: Option<string>)
    ensures r.None? <==> form.dueDate != ""
    ensures r.Some? ==> r.value == DueDateRequired
  {
    if form.dueDate == "" then Some(DueDateRequired) else None
  }

  function AssigneeError(form: TaskForm): (r: Option<string>)
    ensures r.None? <==> form.assignedTo != []
    ensures r.Some? ==> r.value == AssigneeRequired
  {
    if |form.assignedTo| == 0 then Some(AssigneeRequired) else None
  }

  /** The `newErrors` object built from the outcomes of the four checks. */
  function ErrorMap(title: Option<string>, description: Option<string>, dueDate: Option<string>,
                    assignee: Option<string>): map<ErrorKey, string> {
    WithError(WithError(WithError(WithError(map[], TitleKey, title), DescriptionKey, description),
                        DueDateKey, dueDate), AssignedToKey, assignee)
  }

  /** The outcome that belongs to a key; priority and status have none. */
  function PickError(title: Option<string>, description: Option<string>, dueDate: Option<string>,
                     assignee: Option<string>, k: ErrorKey): Option<string> {
    match k
    case TitleKey => title
    case DescriptionKey => description
    case DueDateKey => dueDate
    case AssignedToKey => assignee
    case PriorityKey => None
    case StatusKey => None
  }

  /** Each key of the object is a failing check with its own message. */
  lemma ErrorMapAt(title: Option<string>, description: Option<string>, dueDate: Option<string>,
                   assignee: Option<string>, k: ErrorKey)
    ensures k in ErrorMap(title, description, dueDate, assignee) <==> PickError(title, description, dueDate, assignee, k).Some?
    ensures k in ErrorMap(title, description, dueDate, assignee) ==>
      ErrorMap(title, description, dueDate, assignee)[k] == PickError(title, description, dueDate, assignee, k).value
  {
  }

  function FormErrors(form: TaskForm): map<ErrorKey, string> {
    ErrorMap(TitleError(form), DescriptionError(form), DueDateError(form), AssigneeError(form))
  }

  /** The body of validateForm: starting from an empty object, each failing
      check in turn adds its message under its key. */
  method CollectErrors(title: Option<string>, description: Option<string>, dueDate: Option<string>,
                       assignee: Option<string>) returns (newErrors: map<ErrorKey, string>)
    ensures newErrors == ErrorMap(title, description, dueDate, assignee)
  {
    newErrors := map[];
    if title.Some? {
      newErrors := newErrors[TitleKey := title.value];
    }
    if description.Some? {
      newErrors := newErrors[DescriptionKey := description.value];
    }
    if dueDate.Some? {
      newErrors := newErrors[DueDateKey := dueDate.value];
    }
    if assignee.Some? {
      newErrors := newErrors[AssignedToKey := assignee.value];
    }
  }

  /** The form passes exactly when title and description are not blank, a
      due date is picked and somebody is assigned. */
  lemma FormAcceptedIff(form: TaskForm)
    ensures FormErrors(form) == map[] <==>
      Trim(form.title) != "" && Trim(form.description) != "" && form.dueDate != "" && |form.assignedTo| > 0
  {
    TrimEmptyIffAllSpace(form.title);
    TrimEmptyIffAllSpace(form.description);
    TextChecksAt(form);
    PresenceChecksAt(form);
    UncheckedKeysAt(form);
    if FormErrors(form) != map[] {
      var k :| k in FormErrors(form);
    }
  }

  /** Which messages a form gets: one per missing part, and none ever for
      priority or status. */
  lemma FormErrorsAt(form: TaskForm)
    ensures TitleKey in FormErrors(form) <==> AllSpace(form.title)
    ensures DescriptionKey in FormErrors(form) <==> AllSpace(form.description)
    ensures DueDateKey in FormErrors(form) <==> form.dueDate == ""
    ensures AssignedToKey in FormErrors(form) <==> |form.assignedTo| == 0
    ensures TitleKey in FormErrors(form) ==> FormErrors(form)[TitleKey] == TitleRequired
    ensures DescriptionKey in FormErrors(form) ==> FormErrors(form)[DescriptionKey] == DescriptionRequired
    ensures DueDateKey in FormErrors(form) ==> FormErrors(form)[DueDateKey] == DueDateRequired
    ensures AssignedToKey in FormErrors(form) ==> FormErrors(form)[AssignedToKey] == AssigneeRequired
    ensures PriorityKey !in FormErrors(form) && StatusKey !in FormErrors(form)
  {
    TextChecksAt(form);
    PresenceChecksAt(form);
    UncheckedKeysAt(form);
  }

  lemma TextChecksAt(form: TaskForm)
    ensures TitleKey in FormErrors(form) <==> AllSpace(form.title)
    ensures DescriptionKey in FormErrors(form) <==> AllSpace(form.description)
    ensures TitleKey in FormErrors(form) ==> FormErrors(form)[TitleKey] == TitleRequired
    ensures DescriptionKey in FormErrors(form) ==> FormErrors(form)[DescriptionKey] == DescriptionRequired
  {
    var t, d, u, a := TitleError(form), DescriptionError(form), DueDateError(form), AssigneeError(form);
    ErrorMapAt(t, d, u, a, TitleKey);
    ErrorMapAt(t, d, u, a, DescriptionKey);
  }

  lemma PresenceChecksAt(form: TaskForm)
    ensures DueDateKey in FormErrors(form) <==> form.dueDate == ""
    ensures AssignedToKey in FormErrors(form) <==> |form.assignedTo| == 0
    ensures DueDateKey in FormErrors(form) ==> FormErrors(form)[DueDateKey] == DueDateRequired
    ensures AssignedToKey in FormErrors(form) ==> FormErrors(form)[AssignedToKey] == AssigneeRequired
  {
    var t, d, u, a := TitleError(form), DescriptionError(form), DueDateError(form), AssigneeError(form);
    ErrorMapAt(t, d, u, a, DueDateKey);
    ErrorMapAt(t, d, u, a, AssignedToKey);
  }

  lemma UncheckedKeysAt(form: TaskForm)
    ensures PriorityKey !in FormErrors(form) && StatusKey !in FormErrors(form)
  {
    var t, d, u, a := TitleError(form), DescriptionError(form), DueDateError(form), AssigneeError(form);
    ErrorMapAt(t, d, u, a, PriorityKey);
    ErrorMapAt(t, d, u, a, StatusKey);
  }

  /** The untouched form fails on all four parts. */
  lemma InitialFormRejected()
    ensures FormErrors(InitialForm).Keys == {TitleKey, DescriptionKey, DueDateKey, AssignedToKey}
  {
    FormErrorsAt(InitialForm);
  }

  /** With only a title filled in, the other three parts still fail. */
  lemma TitleOnlyRejected(title: string)
    requires Trim(title) != ""
    ensures FormErrors(SetText(InitialForm, Title, title)).Keys == {DescriptionKey, DueDateKey, AssignedToKey}
  {
    TrimEmptyIffAllSpace(title);
    FormErrorsAt(SetText(InitialForm, Title, title));
  }

  class CreateTaskPage {
    var form: TaskForm
    var errors: map<ErrorKey, string>

    /** The page as it mounts: the initial form and no messages. */
    constructor ()
      ensures form == InitialForm && errors == map[]
    {
      form := InitialForm;
      errors := map[];
    }

    /** handleChange and handleDropdownChange for a string-valued field:
        the field takes the value and only its own message is cleared. */
    method HandleChange(f: TextField, value: string)
      modifies this
      ensures form == SetText(old(form), f, value)
      ensures errors == ClearError(old(errors), KeyOf(f))
    {
      form := SetText(form, f, value);
      errors := ClearError(errors, KeyOf(f));
    }

    /** handleDropdownChange('assignedTo', ids), from the user picker. */
    method HandleAssigneesChange(ids: seq<UserId>)
      modifies this
      ensures form == old(form).(assignedTo := ids)
      ensures errors == ClearError(old(errors), AssignedToKey)
    {
      form := form.(assignedTo := ids);
      errors := ClearError(errors, AssignedToKey);
    }

    /** handleChecklistChange: only the checklist is replaced. */
    method HandleChecklistChange(items: seq<ChecklistItem>)
      modifies this
      ensures form == old(form).(todoChecklist := items) && errors == old(errors)
    {
      form := form.(todoChecklist := items);
    }

    /** handleAttachmentsChange: only the attachments are replaced. */
    method HandleAttachmentsChange(files: seq<FileInfo>)
      modifies this
      ensures form == old(form).(attachments := files) && errors == old(errors)
    {
      form := form.(attachments := files);
    }

    /** validateForm: the collected messages replace the error state and
        the result says whether there were none. */
    method ValidateForm() returns (ok: bool)
      modifies this
      ensures errors == FormErrors(form) && form == old(form)
      ensures ok <==> errors == map[]
    {
      var newErrors := CollectErrors(TitleError(form), DescriptionError(form), DueDateError(form), AssigneeError(form));
      errors := newErrors;
      ok := newErrors == map[];
    }
  }

  /** Submitting the untouched form shows four messages; after a title is
      typed its message is blanked at once, and the next submit shows the
      other three only. */
  method ValidationScenario(title: string) returns (first: map<ErrorKey, string>, second: map<ErrorKey, string>)
    requires Trim(title) != ""
    ensures first.Keys == {TitleKey, DescriptionKey, DueDateKey, AssignedToKey}
    ensures second.Keys == {DescriptionKey, DueDateKey, AssignedToKey}
  {
    var page := new CreateTaskPage();
    var ok := page.ValidateForm();
    InitialFormRejected();
    first := page.errors;
    page.HandleChange(Title, title);
    assert page.errors[TitleKey] == "";
    ok := page.ValidateForm();
    TitleOnlyRejected(title);
    second := page.errors;
  }
}
