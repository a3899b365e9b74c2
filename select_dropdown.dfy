/** frontend/Task-manager/src/component/Inputs/SelectDropDown.jsx: a
    single-choice dropdown with an optional search box. The component's two
    state fields, whether the menu is open and the search term, are the
    fields of a `Dropdown` object; the options and the current value are
    its props. */
module SelectDropDown {
  import opened Common

  /** One `{value, label}` entry of the `options` prop (`label` is a Dafny keyword, hence `caption`). */
  datatype Choice = Choice(value: string, caption: string)

  function LabelMatches(searchTerm: string): Choice -> bool {
    (c: Choice) => Contains(ToLower(c.caption), ToLower(searchTerm))
  }

  /** filteredOptions: the options whose label contains the search term,
      ignoring letter case, in the given order. */
  function FilteredOptions(options: seq<Choice>, searchTerm: string): (r: seq<Choice>)
    ensures IsSubsequence(r, options)
    ensures forall k :: 0 <= k < |r| ==> Contains(ToLower(r[k].caption), ToLower(searchTerm))
    ensures forall k :: 0 <= k < |options| && Contains(ToLower(options[k].caption), ToLower(searchTerm)) ==> options[k] in r
  {
    FilterIsSubsequence(options, LabelMatches(searchTerm));
    Filter(options, LabelMatches(searchTerm))
  }

  /** An empty search term keeps every option. */
  lemma EmptyTermKeepsAll(options: seq<Choice>)
    ensures FilteredOptions(options, "") == options
  {
    forall k | 0 <= k < |options| ensures LabelMatches("")(options[k]) {
      ContainsEmpty(ToLower(options[k].caption));
    }
    FilterAll(options, LabelMatches(""));
  }

  /** selectedOption: the first option carrying the value, if any. */
  function SelectedOption(options: seq<Choice>, value: string): (r: Option<Choice>)
    ensures r.None? <==> forall k :: 0 <= k < |options| ==> options[k].value != value
    ensures r.Some? ==> r.value.value == value
    ensures r.Some? ==> exists k :: 0 <= k < |options| && options[k] == r.value && forall j :: 0 <= j < k ==> options[j].value != value
    decreases |options|
  {
    if options == [] then None
    else if options[0].value == value then
      Some(options[0])
    else
      var rest := SelectedOption(options[1..], value);
      assert forall k :: 1 <= k < |options| ==> options[k] == options[1..][k - 1];
      if rest.Some? then
        var k' :| 0 <= k' < |options[1..]| && options[1..][k'] == rest.value
                  && forall j :: 0 <= j < k' ==> options[1..][j].value != value;
        assert options[k' + 1] == rest.value;
        assert forall j :: 0 <= j < k' + 1 ==> options[j].value != value;
        rest
      else
        rest
  }

  /** The label shown on the trigger: the selected option's, else the placeholder. */
  function TriggerText(options: seq<Choice>, value: string, placeholder: string): (r: string)
    ensures (forall k :: 0 <= k < |options| ==> options[k].value != value) ==> r == placeholder
    ensures SelectedOption(options, value).Some? ==> r == SelectedOption(options, value).value.caption
  {
    var selected := SelectedOption(options, value);
    if selected.Some? then selected.value.caption else placeholder
  }

  class Dropdown {
    var isOpen: bool
    var searchTerm: string

    /** The initial state: closed, with an empty search term. */
    constructor ()
      ensures !isOpen && searchTerm == ""
    {
      isOpen := false;
      searchTerm := "";
    }

    /** The options listed: none while closed, the filtered ones while open. */
    function Listed(options: seq<Choice>): (r: seq<Choice>)
      reads this
      ensures !isOpen ==> r == []
      ensures isOpen ==> r == FilteredOptions(options, searchTerm)
      ensures isOpen && searchTerm == "" ==> r == options
    {
      if isOpen then
        EmptyTermKeepsAll(options);
        FilteredOptions(options, searchTerm)
      else []
    }

    /** handleSelect: the option's value goes to `onChange`, the menu closes
        and the search term is cleared. */
    method HandleSelect(option: Choice) returns (emitted: string)
      modifies this
      ensures emitted == option.value
      ensures !isOpen && searchTerm == ""
    {
      emitted := option.value;
      isOpen := false;
      searchTerm := "";
    }

    /** A click on the trigger flips the menu unless the dropdown is disabled;
        the search term is kept either way. */
    method ClickTrigger(disabled: bool)
      modifies this
      ensures isOpen == (if disabled then old(isOpen) else !old(isOpen))
      ensures searchTerm == old(searchTerm)
    {
      if !disabled {
        isOpen := !isOpen;
      }
    }

    /** A mouse-down outside the component closes the menu and clears the
        search term; one inside changes nothing. */
    method MouseDown(inside: bool)
      modifies this
      ensures inside ==> isOpen == old(isOpen) && searchTerm == old(searchTerm)
      ensures !inside ==> !isOpen && searchTerm == ""
    {
      if !inside {
        isOpen := false;
        searchTerm := "";
      }
    }

    /** Typing in the search box, which is rendered only while the menu is
        open and the dropdown is searchable. */
    method TypeSearch(searchable: bool, text: string)
      modifies this
      ensures isOpen == old(isOpen)
      ensures searchTerm == (if old(isOpen) && searchable then text else old(searchTerm))
    {
      if isOpen && searchable {
        searchTerm := text;
      }
    }
  }

  /** Two clicks on an enabled trigger leave the menu as it was, and after a
      selection the next open shows every option again. */
  method TriggerScenario(d: Dropdown, options: seq<Choice>, option: Choice) returns (shown: seq<Choice>)
    modifies d
    ensures d.isOpen && d.searchTerm == ""
    ensures shown == options
  {
    var wasOpen := d.isOpen;
    d.ClickTrigger(false);
    d.ClickTrigger(false);
    assert d.isOpen == wasOpen;
    var _ := d.HandleSelect(option);
    d.ClickTrigger(false);
    shown := d.Listed(options);
  }
}
