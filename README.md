# ComposeStatusAdapter: the compose screen's item list

This project models the list behind monotweety's compose screen. `ComposeStatusAdapter`
holds a list of rows and a flag `editorInitialized`. The rows are posted statuses
(`PreviousStatus`), followed by one `Editor` row where the next status is drafted. Each
public operation builds a new list from the current list and its arguments. It hands the
old and new lists to DiffUtil, and when the diff completes it installs the new list. Two
DiffUtil callbacks decide which old and new rows are the same row (`areItemsTheSame`) and
whether a matched row must be redrawn (`areContentsTheSame`).

The project has four modules:

- `Items` (items.dfy): the row type, the tweet and footer values that operations receive,
  the `tweets.map { ... }` conversion, and the two diff callbacks with their properties.
- `ItemLists` (lists.dfy): one function per operation, each computing the new list from the
  current one. `editorItem()` is here too. It fails the way the Kotlin code throws:
  `NoSuchElement` from `items.last()` on an empty list, and `ClassCast` when the last row is
  not an editor. The module also defines the list shape every operation keeps
  (`WellFormed`: previous statuses first, then one trailing editor).
- `Transitions` (transitions.dfy): the adapter state as a value, its operations as calls,
  and the effect of one call (`Apply`, `Next`, `Outcome`) and of a sequence of calls in
  issue order (`Run`). Lemmas here cover traces: every reachable state is well formed, the
  flag is set exactly when the list has rows, and `updateEditor` marks its row as the first
  render exactly when no earlier call installed an editor.
- `Adapter` (adapter.dfy): the class `ComposeStatusAdapter`, with fields `items` and
  `editorInitialized`. Its methods update the fields in place. Each method's contract ties
  the new state, and the exception it returns, to `Transitions.Next` and
  `Transitions.Outcome` of the old state. Each method also keeps the invariant `Valid()`.

A thrown exception is modelled as an `Err` result that leaves the state unchanged. In the
Kotlin code, `items.last()` and the editor cast run synchronously, before any diff is
started, so a throw leaves `items` and `editorInitialized` as they were.

Where the design description and the code differ, the model follows the code. The design
says `setPreviousStatus` is a no-op when no editor row exists yet. The code instead calls
`items.last()` on the list, so it throws on an empty list. It does not check that the last
row is an editor: it keeps whatever row is last. `Transitions.ValidStateRaisesOnlyWithoutEditor`
shows that in every reachable state the only failure is `NoSuchElement` on an empty list.

Tweet ids (Kotlin `Long`), timestamps, and the editor's lengths (`Int`) are modelled as
unbounded `int`. The adapter only copies and compares these values and never does arithmetic
on them, so no wrap-around can arise. The `viewType` of each row kind is taken to be
`PREVIOUS_STATUS` for previous statuses and `EDITOR` for editors. The delegate classes that
define them are not part of this model.

## Model

| member | source | states |
|---|---|---|
| `Items.PreviousItems` | app/src/main/java/net/yslibrary/monotweety/status/adapter/ComposeStatusAdapter.kt:42-47 | one row per tweet, in order: id to id, text to status, createdAt to createdAt |
| `Items.AreItemsTheSame` | app/src/main/java/net/yslibrary/monotweety/status/adapter/ComposeStatusAdapter.kt:121-134 | true exactly when both rows are editors, or both are previous statuses with equal id; rows of different kinds are never the same |
| `Items.AreContentsTheSame` | app/src/main/java/net/yslibrary/monotweety/status/adapter/ComposeStatusAdapter.kt:144-156 | for an editor: full structural equality; for a previous status: the other row is a previous status with the same id |
| `Items.ContentsTheSameImpliesItemsTheSame` | app/src/main/java/net/yslibrary/monotweety/status/adapter/ComposeStatusAdapter.kt:121-156 | rows with the same contents are always the same row |
| `Items.CallbacksAreEquivalences` | app/src/main/java/net/yslibrary/monotweety/status/adapter/ComposeStatusAdapter.kt:121-156 | both callbacks are reflexive, symmetric and transitive |
| `Items.PreviousStatusContentsIgnoreText` | app/src/main/java/net/yslibrary/monotweety/status/adapter/ComposeStatusAdapter.kt:151-153 | two previous statuses with the same id count as unchanged even when their text and timestamp differ |
| `Items.SelfDiffChangesNothing` | app/src/main/java/net/yslibrary/monotweety/status/adapter/ComposeStatusAdapter.kt:121-156 | a list diffed against itself matches every position with unchanged contents |
| `ItemLists.EditorItem` | app/src/main/java/net/yslibrary/monotweety/status/adapter/ComposeStatusAdapter.kt:37-39 | NoSuchElement exactly on an empty list, ClassCast exactly when the last row is a previous status, otherwise the last row |
| `ItemLists.WellFormedEditorItem` | app/src/main/java/net/yslibrary/monotweety/status/adapter/ComposeStatusAdapter.kt:37-39 | on a well-formed list, editorItem fails exactly when the list is empty |
| `ItemLists.PreviousStatusList` | app/src/main/java/net/yslibrary/monotweety/status/adapter/ComposeStatusAdapter.kt:41-49 | fails with NoSuchElement exactly on an empty list; otherwise length is tweets + 1, the tweets mapped 1:1 in order, then the old last row; keeps the list shape |
| `ItemLists.EditorList` | app/src/main/java/net/yslibrary/monotweety/status/adapter/ComposeStatusAdapter.kt:59-67 | the last row is the new editor; it replaces a trailing editor (same length, earlier rows unchanged) and is appended otherwise; keeps the list shape |
| `ItemLists.ClearedEditor` | app/src/main/java/net/yslibrary/monotweety/status/adapter/ComposeStatusAdapter.kt:89-94 | the given text, length 0, not valid, not the first render, clear set; keep-open, thread and maximum length kept |
| `ItemLists.FooterStatus` | app/src/main/java/net/yslibrary/monotweety/status/adapter/ComposeStatusAdapter.kt:90 | a space followed by the footer text when the footer is enabled, otherwise empty |
| `ItemLists.PreviousTweetAndClearedList` | app/src/main/java/net/yslibrary/monotweety/status/adapter/ComposeStatusAdapter.kt:82-94 | fails exactly when there is no trailing editor; otherwise the tweets mapped 1:1 in order, then the cleared editor with the footer text; always well formed |
| `ItemLists.ClearedList` | app/src/main/java/net/yslibrary/monotweety/status/adapter/ComposeStatusAdapter.kt:102-109 | fails exactly when there is no trailing editor; otherwise only the trailing editor changes, to the cleared editor with empty text |
| `ItemLists.StatusCounterList` | app/src/main/java/net/yslibrary/monotweety/status/adapter/ComposeStatusAdapter.kt:111-116 | fails exactly when there is no trailing editor; otherwise only the editor's valid, length and maximum length change, and its text, flags and all other rows stay |
| `ItemLists.ClearedListIdempotent` | app/src/main/java/net/yslibrary/monotweety/status/adapter/ComposeStatusAdapter.kt:102-109 | clearing a cleared list gives the same list |
| `ItemLists.StatusCounterUnchanged` | app/src/main/java/net/yslibrary/monotweety/status/adapter/ComposeStatusAdapter.kt:111-116 | a counter update carrying the editor's current values returns the list unchanged |
| `ItemLists.EditorReplacementMatchesRows` | app/src/main/java/net/yslibrary/monotweety/status/adapter/ComposeStatusAdapter.kt:61-66 | replacing the trailing editor matches every old row with the new row at the same position; only the editor row can need a redraw, and it does exactly when it changed |
| `ItemLists.SendWithoutTweetOrFooter` | app/src/main/java/net/yslibrary/monotweety/status/adapter/ComposeStatusAdapter.kt:82-94 | with no tweets and the footer disabled, [previous, editor] becomes just the editor with empty text, length 0, not valid, clear set |
| `Transitions.Apply` | app/src/main/java/net/yslibrary/monotweety/status/adapter/ComposeStatusAdapter.kt:41-116 | updateEditor/updateEditorInternal never fail and set the flag, with updateEditor marking the first render as !editorInitialized; clearEditor and updateStatusCounter set the flag; the other two keep it; a failure is NoSuchElement exactly on an empty list |
| `Transitions.NextPreservesValid` | app/src/main/java/net/yslibrary/monotweety/status/adapter/ComposeStatusAdapter.kt:41-116 | every operation keeps the shape (previous statuses, then one editor) and keeps the flag set exactly when the list has rows |
| `Transitions.ValidStateRaisesOnlyWithoutEditor` | app/src/main/java/net/yslibrary/monotweety/status/adapter/ComposeStatusAdapter.kt:38 | in a reachable state an operation throws exactly when the list is empty and the operation needs the current last row, and then it throws NoSuchElement |
| `Transitions.RunIsValid` | app/src/main/java/net/yslibrary/monotweety/status/adapter/ComposeStatusAdapter.kt:15-116 | every sequence of calls from a fresh adapter ends in a reachable state |
| `Transitions.EmptyUntilEditorInstalled` | app/src/main/java/net/yslibrary/monotweety/status/adapter/ComposeStatusAdapter.kt:34-79 | from a fresh adapter the list is empty exactly until the first updateEditor or updateEditorInternal call |
| `Transitions.FirstUpdateEditorIsInitial` | app/src/main/java/net/yslibrary/monotweety/status/adapter/ComposeStatusAdapter.kt:73-79 | after any calls, updateEditor installs its item with initialValue true exactly when no earlier call installed an editor, whatever flag the item carried |
| `Transitions.SecondUpdateEditorIsNotInitial` | app/src/main/java/net/yslibrary/monotweety/status/adapter/ComposeStatusAdapter.kt:73-79 | of two updateEditor calls in a row, the second always installs its item with initialValue false |
| `Transitions.ClearEditorIdempotent` | app/src/main/java/net/yslibrary/monotweety/status/adapter/ComposeStatusAdapter.kt:102-109 | clearEditor twice leaves the same state and outcome as once |
| `Adapter.ComposeStatusAdapter.constructor` | app/src/main/java/net/yslibrary/monotweety/status/adapter/ComposeStatusAdapter.kt:15-35 | a new adapter has no rows and the flag unset, a reachable state |
| `Adapter.ComposeStatusAdapter.SetPreviousStatus` | app/src/main/java/net/yslibrary/monotweety/status/adapter/ComposeStatusAdapter.kt:41-57 | the new state and outcome are those of setPreviousStatus on the old state; throws exactly on an empty list; the flag is unchanged; the invariant is kept |
| `Adapter.ComposeStatusAdapter.UpdateEditorInternal` | app/src/main/java/net/yslibrary/monotweety/status/adapter/ComposeStatusAdapter.kt:59-76 | the new state is that of updateEditorInternal; the item is the last row and the flag is set; the invariant is kept |
| `Adapter.ComposeStatusAdapter.UpdateEditor` | app/src/main/java/net/yslibrary/monotweety/status/adapter/ComposeStatusAdapter.kt:78-80 | the new state is that of updateEditor; the last row is the item with initialValue equal to the negated old flag |
| `Adapter.ComposeStatusAdapter.UpdatePreviousTweetAndClearEditor` | app/src/main/java/net/yslibrary/monotweety/status/adapter/ComposeStatusAdapter.kt:82-100 | the new state and outcome are those of updatePreviousTweetAndClearEditor; the last row is the cleared old editor with the footer text; the flag is untouched |
| `Adapter.ComposeStatusAdapter.ClearEditor` | app/src/main/java/net/yslibrary/monotweety/status/adapter/ComposeStatusAdapter.kt:102-109 | the new state and outcome are those of clearEditor; earlier rows unchanged, the last row is the cleared editor |
| `Adapter.ComposeStatusAdapter.UpdateStatusCounter` | app/src/main/java/net/yslibrary/monotweety/status/adapter/ComposeStatusAdapter.kt:111-116 | the new state and outcome are those of updateStatusCounter; the length and all earlier rows are unchanged |

## Left out

- DiffUtil's edit-script computation (`DiffUtil.calculateDiff`) and `dispatchUpdatesTo` are Android support-library code and not part of this model. The diff is modelled only by its effect: once an operation completes, `items` is the new list. The two callbacks it consults are modelled exactly.
- The Rx scheduling (`Single.fromCallable`, `subscribeOn`, `observeOn`) and the `synchronized` blocks concern concurrency. Operations are applied one at a time, in the order they are issued. So the model does not capture a race between overlapping operations: two `updateEditor` calls issued before the first diff completes would both see the flag unset.
- Registering the view delegates and forwarding listener events (the `init` block and `Listener`) is view-binding glue.
- The `Timber` log calls are diagnostics only.
- NotificationService.kt, ComposeStatusController.kt, the dependency-injection modules, the transition animation, the StorIO aliases, the build constants and the repository tests are not part of this model. The controller is used only for the editor's fields, as it constructs them.
