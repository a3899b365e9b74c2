/** frontend/Task-manager/src/component/Inputs/TodoListinput.jsx: the
    checklist editor. Each handler computes a new list and hands it to
    `onChange`; here it returns that list, or None when `onChange` is not
    called. Items the editor creates carry the `completed` flag. */
module TodoListInput {
  import opened Common
  import opened ClientModel

  /** The state after handleAdd: the list handed to `onChange`, if any, and
      the text left in the input box. */
  datatype AddResult = AddResult(emitted: Option<seq<ChecklistItem>>, newItem: string)

  function NewTodo(text: string): (item: ChecklistItem)
    ensures item.text == text && !item.completed && !item.isCompleted
  {
    ChecklistItem(text, false, false)
  }

  /** handleAdd: when the trimmed input is non-empty and the editor is
      enabled, exactly one unfinished item with the trimmed text is appended
      and the box is cleared; otherwise nothing happens. */
  function HandleAdd(items: seq<ChecklistItem>, newItem: string, disabled: bool): (r: AddResult)
    ensures r.emitted.Some? <==> Trim(newItem) != "" && !disabled
    ensures r.emitted.Some? ==> r.emitted.value == items + [NewTodo(Trim(newItem))] && r.newItem == ""
    ensures r.emitted.None? ==> r.newItem == newItem
  {
    if Trim(newItem) != "" && !disabled then AddResult(Some(items + [NewTodo(Trim(newItem))]), "")
    else AddResult(None, newItem)
  }

  /** White space alone adds nothing. */
  lemma WhitespaceAddsNothing(items: seq<ChecklistItem>, newItem: string, disabled: bool)
    requires AllSpace(newItem)
    ensures HandleAdd(items, newItem, disabled) == AddResult(None, newItem)
  {
    TrimEmptyIffAllSpace(newItem);
  }

  /** toggleItem: the `completed` flag of the item at index flipped, all else kept. */
  function ToggleItem(items: seq<ChecklistItem>, index: nat, disabled: bool): (r: Option<seq<ChecklistItem>>)
    requires index < |items|
    ensures disabled <==> r.None?
    ensures r.Some? ==> |r.value| == |items|
    ensures r.Some? ==> r.value[index].completed == !items[index].completed
    ensures r.Some? ==> r.value[index].text == items[index].text && r.value[index].isCompleted == items[index].isCompleted
    ensures r.Some? ==> forall k :: 0 <= k < |items| && k != index ==> r.value[k] == items[k]
  {
    if disabled then None
    else Some(items[index := items[index].(completed := !items[index].completed)])
  }

  /** Toggling the same item twice gives the list back. */
  lemma ToggleTwiceRestores(items: seq<ChecklistItem>, index: nat)
    requires index < |items|
    ensures ToggleItem(ToggleItem(items, index, false).value, index, false) == Some(items)
  {
    var once := ToggleItem(items, index, false).value;
    var twice := ToggleItem(once, index, false).value;
    assert twice == items;
  }

  /** removeItem: the item at index dropped and the rest kept in order; an
      index outside the list removes nothing. */
  function RemoveItem(items: seq<ChecklistItem>, index: int, disabled: bool): (r: Option<seq<ChecklistItem>>)
    ensures disabled <==> r.None?
    ensures r.Some? ==> r.value == RemoveAt(items, index)
  {
    if disabled then None else Some(RemoveAt(items, index))
  }

  /** Removing the item just added gives the list back. */
  lemma RemoveUndoesAdd(items: seq<ChecklistItem>, newItem: string)
    requires Trim(newItem) != ""
    ensures RemoveItem(HandleAdd(items, newItem, false).emitted.value, |items|, false) == Some(items)
  {
    var x := NewTodo(Trim(newItem));
    assert HandleAdd(items, newItem, false).emitted == Some(items + [x]);
    RemoveLast(items, x);
  }

  lemma RemoveLast(items: seq<ChecklistItem>, x: ChecklistItem)
    ensures RemoveAt(items + [x], |items|) == items
  {
    assert (items + [x])[..|items|] == items;
    assert (items + [x])[|items| + 1..] == [];
  }

  /** updateItemText: only the text of the item at index changes; its flags stay. */
  function UpdateItemText(items: seq<ChecklistItem>, index: nat, text: string, disabled: bool): (r: Option<seq<ChecklistItem>>)
    requires index < |items|
    ensures disabled <==> r.None?
    ensures r.Some? ==> |r.value| == |items| && r.value[index].text == text
    ensures r.Some? ==> r.value[index].completed == items[index].completed && r.value[index].isCompleted == items[index].isCompleted
    ensures r.Some? ==> forall k :: 0 <= k < |items| && k != index ==> r.value[k] == items[k]
  {
    if disabled then None else Some(items[index := items[index].(text := text)])
  }

  /** Writing an item's own text back changes nothing, and a text edit
      commutes with a toggle of the same item. */
  lemma UpdateTextProperties(items: seq<ChecklistItem>, index: nat, text: string)
    requires index < |items|
    ensures UpdateItemText(items, index, items[index].text, false) == Some(items)
    ensures UpdateItemText(ToggleItem(items, index, false).value, index, text, false)
            == ToggleItem(UpdateItemText(items, index, text, false).value, index, false)
  {
    assert items[index := items[index].(text := items[index].text)] == items;
    var both := items[index := items[index].(text := text, completed := !items[index].completed)];
    var tu := UpdateItemText(ToggleItem(items, index, false).value, index, text, false).value;
    var ut := ToggleItem(UpdateItemText(items, index, text, false).value, index, false).value;
    assert tu[index] == both[index] && ut[index] == both[index];
    assert forall k :: 0 <= k < |items| ==> tu[k] == both[k] && ut[k] == both[k];
    assert tu == both && ut == both;
  }
}
