/** The rows of the compose screen's list (ComposeStatusAdapter.Item and its two
    implementations) and the two DiffUtil callbacks that decide, for a pair of rows,
    whether they are the same logical row and whether a matched row must be redrawn. */
module Items {

  /** A posted status as the status history hands it to the adapter. */
  datatype Tweet = Tweet(id: int, text: string, createdAt: int)

  /** The footer setting: whether a footer is appended to new statuses, and its text. */
  datatype FooterState = FooterState(enabled: bool, text: string)

  /** ComposeStatusAdapter.ViewType */
  datatype ViewType = PreviousStatusView | EditorView

  /** A row: an already posted status, or the editor in which the next one is drafted. */
  datatype Item =
    | PreviousStatus(id: int, status: string, createdAt: int)
    | Editor(status: string, keepOpen: bool, enableThread: bool, statusLength: int,
             maxLength: int, valid: bool, clear: bool, initialValue: bool)

  /** The static type EditorAdapterDelegate.Item: only editor rows. */
  type EditorRow = item: Item | item.Editor? witness Editor("", false, false, 0, 0, false, false, false)

  /** The viewType property each row kind reports. */
  function ViewTypeOf(item: Item): ViewType {
    match item
    case PreviousStatus(_, _, _) => PreviousStatusView
    case Editor(_, _, _, _, _, _, _, _) => EditorView
  }

  /** The previous-status row built from one tweet. */
  function PreviousItem(t: Tweet): Item {
    PreviousStatus(t.id, t.text, t.createdAt)
  }

  /** tweets.map { PreviousStatusAdapterDelegate.Item(...) }: one row per tweet, in order,
      id to id, text to status, createdAt to createdAt. */
  function PreviousItems(tweets: seq<Tweet>): (r: seq<Item>)
    ensures |r| == |tweets|
    ensures forall i :: 0 <= i < |tweets| ==>
              r[i].PreviousStatus? && r[i].id == tweets[i].id &&
              r[i].status == tweets[i].text && r[i].createdAt == tweets[i].createdAt
  {
    if tweets == [] then [] else [PreviousItem(tweets[0])] + PreviousItems(tweets[1..])
  }

  /** areItemsTheSame: both rows are editors (there is only one editor row), or both are
      previous statuses with the same id. Rows of different kinds are never the same. */
  predicate AreItemsTheSame(oldItem: Item, newItem: Item)
    ensures AreItemsTheSame(oldItem, newItem) <==>
              (oldItem.Editor? && newItem.Editor?) ||
              (oldItem.PreviousStatus? && newItem.PreviousStatus? && oldItem.id == newItem.id)
  {
    if ViewTypeOf(oldItem) == ViewTypeOf(newItem) then
      if ViewTypeOf(newItem) == EditorView then true
      else if oldItem.PreviousStatus? && newItem.PreviousStatus? then oldItem.id == newItem.id
      else false
    else false
  }

  /** areContentsTheSame: editors are compared field by field; previous statuses only by
      id, on the assumption that a posted status never changes. */
  predicate AreContentsTheSame(oldItem: Item, newItem: Item)
    ensures oldItem.Editor? ==> (AreContentsTheSame(oldItem, newItem) <==> oldItem == newItem)
    ensures oldItem.PreviousStatus? ==>
              (AreContentsTheSame(oldItem, newItem) <==> newItem.PreviousStatus? && oldItem.id == newItem.id)
  {
    if ViewTypeOf(oldItem) == ViewTypeOf(newItem) then
      if oldItem.Editor? && newItem.Editor? then oldItem == newItem
      else if oldItem.PreviousStatus? && newItem.PreviousStatus? then oldItem.id == newItem.id
      else false
    else false
  }

  /** Rows whose contents are the same are always the same row, so DiffUtil never asks to
      redraw a row it has not matched. */
  lemma ContentsTheSameImpliesItemsTheSame(a: Item, b: Item)
    ensures AreContentsTheSame(a, b) ==> AreItemsTheSame(a, b)
  {
  }

  /** Both callbacks are reflexive, symmetric and transitive: each is an equivalence on rows. */
  lemma CallbacksAreEquivalences(a: Item, b: Item, c: Item)
    ensures AreItemsTheSame(a, a) && AreContentsTheSame(a, a)
    ensures AreItemsTheSame(a, b) <==> AreItemsTheSame(b, a)
    ensures AreContentsTheSame(a, b) <==> AreContentsTheSame(b, a)
    ensures AreItemsTheSame(a, b) && AreItemsTheSame(b, c) ==> AreItemsTheSame(a, c)
    ensures AreContentsTheSame(a, b) && AreContentsTheSame(b, c) ==> AreContentsTheSame(a, c)
  {
  }

  /** Two previous-status rows with the same id count as unchanged even when their text and
      timestamp differ: a changed posted status is not redrawn. */
  lemma PreviousStatusContentsIgnoreText(id: int, status1: string, createdAt1: int,
                                         status2: string, createdAt2: int)
    ensures AreContentsTheSame(PreviousStatus(id, status1, createdAt1), PreviousStatus(id, status2, createdAt2))
  {
  }

  /** Diffing a list against itself matches every row position by position with unchanged
      contents, so nothing is redrawn. */
  lemma SelfDiffChangesNothing(items: seq<Item>)
    ensures forall i :: 0 <= i < |items| ==>
              AreItemsTheSame(items[i], items[i]) && AreContentsTheSame(items[i], items[i])
  {
  }
}
