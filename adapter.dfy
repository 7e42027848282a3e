/** ComposeStatusAdapter itself: an object holding the current item list and the
    editorInitialized flag, whose operations compute a new list from the current one and
    then install it. The diff DiffUtil computes between the two lists is left abstract: once
    an operation completes, items is the new list. */
module Adapter {
  import opened Items
  import opened ItemLists
  import opened Transitions

  class ComposeStatusAdapter {
    var items: seq<Item>
    var editorInitialized: bool

    /** The adapter's state as a value. */
    function State(): AdapterState
      reads this
    {
      AdapterState(items, editorInitialized)
    }

    ghost predicate Valid()
      reads this
    {
      ValidState(State())
    }

    constructor ()
      ensures State() == Initial() && Valid()
    {
      items := [];
      editorInitialized := false;
    }

    /** setPreviousStatus: the tweets' rows replace all rows before the current last row.
        Raises NoSuchElement, changing nothing, when there are no rows yet. */
    method SetPreviousStatus(tweets: seq<Tweet>) returns (r: Result<()>)
      modifies this
      ensures State() == Next(old(State()), Call.SetPreviousStatus(tweets))
      ensures r == Outcome(old(State()), Call.SetPreviousStatus(tweets))
      ensures r.Err? <==> old(items) == []
      ensures r.Ok? ==> |items| == |tweets| + 1 && editorInitialized == old(editorInitialized)
      ensures old(Valid()) ==> Valid()
    {
      match PreviousStatusList(items, tweets)
      case Err(f) =>
        r := Err(f);
      case Ok(newList) =>
        items := newList;
        r := Ok(());
    }

    /** updateEditorInternal: installs the editor as the last row, replacing the current
        editor if the last row is one, and marks the editor as initialized. */
    method UpdateEditorInternal(item: EditorRow)
      modifies this
      ensures State() == Next(old(State()), Call.UpdateEditorInternal(item))
      ensures items != [] && Last(items) == item && editorInitialized
      ensures old(Valid()) ==> Valid()
    {
      if items == [] || ViewTypeOf(items[|items| - 1]) != EditorView {
        items := items + [item];
      } else {
        items := items[..|items| - 1] + [item];
      }
      editorInitialized := true;
    }

    /** updateEditor: updateEditorInternal with the item marked as the first render exactly
        when no editor has been initialized yet. */
    method UpdateEditor(item: EditorRow)
      modifies this
      ensures State() == Next(old(State()), Call.UpdateEditor(item))
      ensures items != [] && Last(items) == item.(initialValue := !old(editorInitialized)) && editorInitialized
      ensures old(Valid()) ==> Valid()
    {
      UpdateEditorInternal(item.(initialValue := !editorInitialized));
    }

    /** updatePreviousTweetAndClearEditor: the tweets' rows followed by the current editor,
        cleared and prefilled with the footer. Raises, changing nothing, when the last row is
        missing or not an editor. Leaves the editor flag alone. */
    method UpdatePreviousTweetAndClearEditor(tweets: seq<Tweet>, footer: FooterState) returns (r: Result<()>)
      modifies this
      ensures State() == Next(old(State()), Call.UpdatePreviousTweetAndClearEditor(tweets, footer))
      ensures r == Outcome(old(State()), Call.UpdatePreviousTweetAndClearEditor(tweets, footer))
      ensures r.Ok? ==> |items| == |tweets| + 1 && Last(items) == ClearedEditor(Last(old(items)), FooterStatus(footer))
      ensures editorInitialized == old(editorInitialized)
      ensures old(Valid()) ==> Valid()
    {
      match EditorItem(items)
      case Err(f) =>
        r := Err(f);
      case Ok(e) =>
        items := PreviousItems(tweets) + [ClearedEditor(e, FooterStatus(footer))];
        r := Ok(());
    }

    /** clearEditor: updateEditorInternal with the current editor cleared to empty text.
        Raises, changing nothing, when the last row is missing or not an editor. */
    method ClearEditor() returns (r: Result<()>)
      modifies this
      ensures State() == Next(old(State()), Call.ClearEditor)
      ensures r == Outcome(old(State()), Call.ClearEditor)
      ensures r.Ok? ==> |items| == |old(items)| && items[..|items| - 1] == old(items)[..|items| - 1]
      ensures r.Ok? ==> Last(items) == ClearedEditor(Last(old(items)), "")
      ensures old(Valid()) ==> Valid()
    {
      match EditorItem(items)
      case Err(f) =>
        r := Err(f);
      case Ok(e) =>
        UpdateEditorInternal(ClearedEditor(e, ""));
        r := Ok(());
    }

    /** updateStatusCounter: updateEditorInternal with the current editor's validity, length
        and maximum length replaced. Raises, changing nothing, when the last row is missing or
        not an editor. */
    method UpdateStatusCounter(valid: bool, length: int, maxLength: int) returns (r: Result<()>)
      modifies this
      ensures State() == Next(old(State()), Call.UpdateStatusCounter(valid, length, maxLength))
      ensures r == Outcome(old(State()), Call.UpdateStatusCounter(valid, length, maxLength))
      ensures r.Ok? ==> |items| == |old(items)| && items[..|items| - 1] == old(items)[..|items| - 1]
      ensures old(Valid()) ==> Valid()
    {
      match EditorItem(items)
      case Err(f) =>
        r := Err(f);
      case Ok(e) =>
        UpdateEditorInternal(e.(valid := valid, statusLength := length, maxLength := maxLength));
        r := Ok(());
    }
  }
}
