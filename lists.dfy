/** The new item lists ComposeStatusAdapter computes before handing old and new list to
    DiffUtil: one function per operation, each a function of the current list and the
    operation's arguments. An operation that reads the current last row fails the way the
    Kotlin code throws (items.last() on an empty list, the cast of a non-editor row). */
module ItemLists {
  import opened Items

  /** The exceptions the list-building code can raise. */
  datatype Failure =
    | NoSuchElement  // items.last() on an empty list
    | ClassCast      // the last row is not an editor

  datatype Result<+T> = Ok(value: T) | Err(failure: Failure)

  function Last(items: seq<Item>): Item
    requires items != []
  {
    items[|items| - 1]
  }

  /** The list shape every operation keeps: previous-status rows first, and, once there is
      any row, exactly one editor as the last row. */
  predicate WellFormed(items: seq<Item>) {
    && (forall i :: 0 <= i < |items| - 1 ==> items[i].PreviousStatus?)
    && (items != [] ==> Last(items).Editor?)
  }

  /** editorItem(): the last row, cast to an editor. */
  function EditorItem(items: seq<Item>): (r: Result<EditorRow>)
    ensures r == Err(NoSuchElement) <==> items == []
    ensures r == Err(ClassCast) <==> items != [] && Last(items).PreviousStatus?
    ensures r.Ok? ==> r.value == Last(items)
  {
    if items == [] then Err(NoSuchElement)
    else if Last(items).Editor? then Ok(Last(items))
    else Err(ClassCast)
  }

  /** In a well-formed list the cast never fails: the only failure is an empty list. */
  lemma WellFormedEditorItem(items: seq<Item>)
    requires WellFormed(items)
    ensures EditorItem(items).Err? <==> items == []
  {
  }

  /** The list setPreviousStatus diffs to: the tweets' rows followed by the current last row. */
  function PreviousStatusList(items: seq<Item>, tweets: seq<Tweet>): (r: Result<seq<Item>>)
    ensures r.Err? <==> items == []
    ensures r.Err? ==> r.failure == NoSuchElement
    ensures r.Ok? ==> |r.value| == |tweets| + 1 && Last(r.value) == Last(items)
    ensures r.Ok? ==> forall i :: 0 <= i < |tweets| ==>
                        r.value[i].PreviousStatus? && r.value[i].id == tweets[i].id &&
                        r.value[i].status == tweets[i].text && r.value[i].createdAt == tweets[i].createdAt
    ensures r.Ok? && WellFormed(items) ==> WellFormed(r.value)
  {
    if items == [] then Err(NoSuchElement) else Ok(PreviousItems(tweets) + [Last(items)])
  }

  /** The list updateEditorInternal diffs to: the editor replaces the last row when that row
      is an editor, and is appended otherwise (also to an empty list). */
  function EditorList(items: seq<Item>, item: EditorRow): (r: seq<Item>)
    ensures r != [] && Last(r) == item
    ensures items != [] && Last(items).Editor? ==> |r| == |items| && r[..|r| - 1] == items[..|items| - 1]
    ensures !(items != [] && Last(items).Editor?) ==> r[..|r| - 1] == items
    ensures WellFormed(items) ==> WellFormed(r)
  {
    if items == [] || ViewTypeOf(Last(items)) != EditorView then
      var r := items + [item];
      assert forall i :: 0 <= i < |items| ==> r[i] == items[i];
      assert r[..|r| - 1] == items;
      r
    else
      var r := items[..|items| - 1] + [item];
      assert forall i :: 0 <= i < |items| - 1 ==> r[i] == items[i];
      assert r[..|r| - 1] == items[..|items| - 1];
      r
  }

  /** The editor after a send or a clear: the given text, no length, not valid, not the first
      render, and the one-shot clear signal set. Thread, keep-open and maximum length stay. */
  function ClearedEditor(e: EditorRow, status: string): (r: EditorRow)
    ensures r.status == status && r.statusLength == 0 && !r.valid && !r.initialValue && r.clear
    ensures r.keepOpen == e.keepOpen && r.enableThread == e.enableThread && r.maxLength == e.maxLength
  {
    e.(status := status, statusLength := 0, valid := false, initialValue := false, clear := true)
  }

  /** The text the editor starts with after a send: a space and the footer when the footer
      is enabled, and nothing otherwise. */
  function FooterStatus(footer: FooterState): (s: string)
    ensures footer.enabled ==> |s| == |footer.text| + 1 && s[0] == ' ' && s[1..] == footer.text
    ensures !footer.enabled ==> s == ""
  {
    if footer.enabled then " " + footer.text else ""
  }

  /** The list updatePreviousTweetAndClearEditor diffs to: the tweets' rows followed by the
      current editor, cleared and prefilled with the footer. */
  function PreviousTweetAndClearedList(items: seq<Item>, tweets: seq<Tweet>, footer: FooterState): (r: Result<seq<Item>>)
    ensures r.Err? <==> !(items != [] && Last(items).Editor?)
    ensures r.Ok? ==> |r.value| == |tweets| + 1 && Last(r.value) == ClearedEditor(Last(items), FooterStatus(footer))
    ensures r.Ok? ==> forall i :: 0 <= i < |tweets| ==>
                        r.value[i].PreviousStatus? && r.value[i].id == tweets[i].id &&
                        r.value[i].status == tweets[i].text && r.value[i].createdAt == tweets[i].createdAt
    ensures r.Ok? ==> WellFormed(r.value)
  {
    match EditorItem(items)
    case Err(f) => Err(f)
    case Ok(e) => Ok(PreviousItems(tweets) + [ClearedEditor(e, FooterStatus(footer))])
  }

  /** The list clearEditor diffs to: only the trailing editor changes, to the cleared editor
      with empty text. */
  function ClearedList(items: seq<Item>): (r: Result<seq<Item>>)
    ensures r.Err? <==> !(items != [] && Last(items).Editor?)
    ensures r.Ok? ==> |r.value| == |items| && r.value[..|items| - 1] == items[..|items| - 1]
    ensures r.Ok? ==> Last(r.value) == ClearedEditor(Last(items), "")
  {
    match EditorItem(items)
    case Err(f) => Err(f)
    case Ok(e) => Ok(EditorList(items, ClearedEditor(e, "")))
  }

  /** The list updateStatusCounter diffs to: only the trailing editor's validity, length and
      maximum length change; its text and flags and every other row stay. */
  function StatusCounterList(items: seq<Item>, valid: bool, length: int, maxLength: int): (r: Result<seq<Item>>)
    ensures r.Err? <==> !(items != [] && Last(items).Editor?)
    ensures r.Ok? ==> |r.value| == |items| && r.value[..|items| - 1] == items[..|items| - 1]
    ensures r.Ok? ==> var e, e' := Last(items), Last(r.value);
                      && e'.Editor? && e'.valid == valid && e'.statusLength == length && e'.maxLength == maxLength
                      && e'.status == e.status && e'.keepOpen == e.keepOpen && e'.enableThread == e.enableThread
                      && e'.clear == e.clear && e'.initialValue == e.initialValue
  {
    match EditorItem(items)
    case Err(f) => Err(f)
    case Ok(e) => Ok(EditorList(items, e.(valid := valid, statusLength := length, maxLength := maxLength)))
  }

  /** Clearing a cleared editor list changes nothing. */
  lemma ClearedListIdempotent(items: seq<Item>)
    requires ClearedList(items).Ok?
    ensures ClearedList(ClearedList(items).value) == ClearedList(items)
  {
  }

  /** Counter updates carrying the editor's current values leave the list as it is. */
  lemma StatusCounterUnchanged(items: seq<Item>)
    requires items != [] && Last(items).Editor?
    ensures StatusCounterList(items, Last(items).valid, Last(items).statusLength, Last(items).maxLength) == Ok(items)
  {
    var r := StatusCounterList(items, Last(items).valid, Last(items).statusLength, Last(items).maxLength).value;
    assert r == r[..|r| - 1] + [Last(r)];
    assert items == items[..|items| - 1] + [Last(items)];
  }

  /** Replacing the trailing editor lines the new list up with the old one row for row:
      DiffUtil matches every position, and only the editor row can need a redraw. */
  lemma EditorReplacementMatchesRows(items: seq<Item>, item: EditorRow)
    requires items != [] && Last(items).Editor?
    ensures var r := EditorList(items, item);
            |r| == |items| &&
            (forall i :: 0 <= i < |items| ==> AreItemsTheSame(items[i], r[i])) &&
            (forall i :: 0 <= i < |items| - 1 ==> AreContentsTheSame(items[i], r[i])) &&
            (AreContentsTheSame(Last(items), Last(r)) <==> Last(items) == item)
  {
  }

  /** After a successful send with no new tweet and the footer disabled, the history is
      emptied and the editor is cleared with empty text. */
  lemma SendWithoutTweetOrFooter(p: Item, e: EditorRow, footerText: string)
    requires p.PreviousStatus?
    ensures PreviousTweetAndClearedList([p, e], [], FooterState(false, footerText)) ==
            Ok([Editor("", e.keepOpen, e.enableThread, 0, e.maxLength, false, true, false)])
  {
    assert PreviousItems([]) + [ClearedEditor(e, "")] == [ClearedEditor(e, "")];
  }
}
