/** ComposeStatusAdapter's state (the item list and the editorInitialized flag) and its
    public operations as calls applied one after another in the order they are issued.
    Applying a call either installs the new list the operation computed, or raises the
    exception the operation raises while computing it, in which case nothing changes. */
module Transitions {
  import opened Items
  import opened ItemLists

  datatype AdapterState = AdapterState(items: seq<Item>, editorInitialized: bool)

  /** The adapter right after construction: no rows, editor not yet initialized. */
  function Initial(): AdapterState {
    AdapterState([], false)
  }

  /** The adapter's public mutating operations with their arguments. */
  datatype Call =
    | SetPreviousStatus(tweets: seq<Tweet>)
    | UpdateEditorInternal(item: EditorRow)
    | UpdateEditor(item: EditorRow)
    | UpdatePreviousTweetAndClearEditor(tweets: seq<Tweet>, footer: FooterState)
    | ClearEditor
    | UpdateStatusCounter(valid: bool, length: int, maxLength: int)

  /** The calls that install an editor without reading the current one. */
  predicate InstallsEditor(c: Call) {
    c.UpdateEditorInternal? || c.UpdateEditor?
  }

  /** The states the adapter can reach: a well-formed list, and the editor flag set exactly
      when the list has rows (that is, once some editor has been installed). */
  predicate ValidState(s: AdapterState) {
    WellFormed(s.items) && (s.editorInitialized <==> s.items != [])
  }

  /** The effect of one call: the state after it, or the exception it raises. updateEditor
      passes its item on to updateEditorInternal marked as the first render exactly when no
      editor was initialized yet; every call that goes through updateEditorInternal sets the
      flag; the other calls leave it alone. */
  function Apply(s: AdapterState, c: Call): (r: Result<AdapterState>)
    ensures InstallsEditor(c) ==> r.Ok? && r.value.items != [] && r.value.editorInitialized
    ensures c.UpdateEditor? ==> Last(r.value.items) == c.item.(initialValue := !s.editorInitialized)
    ensures c.UpdateEditorInternal? ==> Last(r.value.items) == c.item
    ensures (c.ClearEditor? || c.UpdateStatusCounter?) && r.Ok? ==> r.value.editorInitialized
    ensures (c.SetPreviousStatus? || c.UpdatePreviousTweetAndClearEditor?) && r.Ok? ==>
              r.value.editorInitialized == s.editorInitialized
    ensures r.Err? ==> !InstallsEditor(c) && (s.items == [] <==> r.failure == NoSuchElement)
  {
    match c
    case SetPreviousStatus(tweets) =>
      (match PreviousStatusList(s.items, tweets)
       case Err(f) => Err(f)
       case Ok(l) => Ok(s.(items := l)))
    case UpdateEditorInternal(item) =>
      Ok(AdapterState(EditorList(s.items, item), true))
    case UpdateEditor(item) =>
      Ok(AdapterState(EditorList(s.items, item.(initialValue := !s.editorInitialized)), true))
    case UpdatePreviousTweetAndClearEditor(tweets, footer) =>
      (match PreviousTweetAndClearedList(s.items, tweets, footer)
       case Err(f) => Err(f)
       case Ok(l) => Ok(s.(items := l)))
    case ClearEditor =>
      (match ClearedList(s.items)
       case Err(f) => Err(f)
       case Ok(l) => Ok(AdapterState(l, true)))
    case UpdateStatusCounter(valid, length, maxLength) =>
      (match StatusCounterList(s.items, valid, length, maxLength)
       case Err(f) => Err(f)
       case Ok(l) => Ok(AdapterState(l, true)))
  }

  /** The state after a call: the new state, or the old one when the call raised. */
  function Next(s: AdapterState, c: Call): AdapterState {
    match Apply(s, c)
    case Ok(t) => t
    case Err(_) => s
  }

  /** What a call returns to its caller: normally, or by raising. */
  function Outcome(s: AdapterState, c: Call): Result<()> {
    match Apply(s, c)
    case Ok(_) => Ok(())
    case Err(f) => Err(f)
  }

  /** The state after a sequence of calls, applied in the order they were issued. */
  function Run(s: AdapterState, calls: seq<Call>): AdapterState
    decreases |calls|
  {
    if calls == [] then s else Next(Run(s, calls[..|calls| - 1]), calls[|calls| - 1])
  }

  /** Every call keeps the reachable-state invariant. */
  lemma NextPreservesValid(s: AdapterState, c: Call)
    requires ValidState(s)
    ensures ValidState(Next(s, c))
  {
  }

  /** In a reachable state an operation raises only when it needs the editor and no editor
      row exists yet; then it raises NoSuchElement and never ClassCast. */
  lemma ValidStateRaisesOnlyWithoutEditor(s: AdapterState, c: Call)
    requires ValidState(s)
    ensures Apply(s, c).Err? <==> s.items == [] && !InstallsEditor(c)
    ensures Apply(s, c).Err? ==> Apply(s, c).failure == NoSuchElement
  {
  }

  /** Every sequence of calls from a fresh adapter ends in a reachable state. */
  lemma {:induction false} RunIsValid(calls: seq<Call>)
    ensures ValidState(Run(Initial(), calls))
    decreases |calls|
  {
    if calls != [] {
      RunIsValid(calls[..|calls| - 1]);
      NextPreservesValid(Run(Initial(), calls[..|calls| - 1]), calls[|calls| - 1]);
    }
  }

  /** From a fresh adapter the list stays empty until the first call that installs an editor,
      and is never empty after it. */
  lemma {:induction false} EmptyUntilEditorInstalled(calls: seq<Call>)
    ensures Run(Initial(), calls).items == [] <==> forall i :: 0 <= i < |calls| ==> !InstallsEditor(calls[i])
    decreases |calls|
  {
    if calls != [] {
      var prefix := calls[..|calls| - 1];
      var c := calls[|calls| - 1];
      EmptyUntilEditorInstalled(prefix);
      RunIsValid(prefix);
      ValidStateRaisesOnlyWithoutEditor(Run(Initial(), prefix), c);
      assert forall i :: 0 <= i < |prefix| ==> prefix[i] == calls[i];
      if !InstallsEditor(c) && Run(Initial(), prefix).items != [] {
        assert Apply(Run(Initial(), prefix), c).Ok?;
      }
    }
  }

  /** updateEditor marks its editor as the first render exactly when no earlier call has
      installed an editor, whatever initialValue the caller's item carried. */
  lemma FirstUpdateEditorIsInitial(calls: seq<Call>, item: EditorRow)
    ensures var s := Run(Initial(), calls + [UpdateEditor(item)]);
            s.items != [] &&
            Last(s.items) == item.(initialValue := forall i :: 0 <= i < |calls| ==> !InstallsEditor(calls[i]))
  {
    var all := calls + [UpdateEditor(item)];
    assert all[..|all| - 1] == calls;
    RunIsValid(calls);
    EmptyUntilEditorInstalled(calls);
  }

  /** Two updateEditor calls in a row: the second never marks its editor as the first
      render, whatever the state before and whatever flags the items carried. */
  lemma SecondUpdateEditorIsNotInitial(s: AdapterState, a: EditorRow, b: EditorRow)
    ensures var t := Next(Next(s, UpdateEditor(a)), UpdateEditor(b));
            t.items != [] && !Last(t.items).initialValue && Last(t.items) == b.(initialValue := false)
  {
  }

  /** clearEditor twice in a row leaves the adapter as clearEditor once does. */
  lemma ClearEditorIdempotent(s: AdapterState)
    ensures Next(Next(s, ClearEditor), ClearEditor) == Next(s, ClearEditor)
    ensures Outcome(Next(s, ClearEditor), ClearEditor) == Outcome(s, ClearEditor)
  {
  }
}
