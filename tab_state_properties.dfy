/**
  What the message handlers of src/state.rs do to the tab list and the active index,
  stated over the value-level specification of module TabState: exactly which tab
  `close_tab` removes, when its "safety" guard keeps the index in bounds and when it
  does not, which messages panic, and which keep the state valid.
*/
module TabStateProperties {
  import opened Wrappers
  import opened TabState

  /** Removing tab `i` takes exactly one copy of that tab out of the list. */
  lemma WithoutRemovesOne<T>(s: seq<T>, i: nat)
    requires i < |s|
    ensures multiset(Without(s, i)) + multiset{s[i]} == multiset(s)
  {
    assert s == s[..i] + [s[i]] + s[i + 1..];
  }

  /** When the closed tab is the active one or lies after it, the guard keeps the index in
      bounds: afterwards it names a tab, or no tab is left and it is 0. */
  lemma CloseGuardKeepsBound(e: Snapshot, id: nat)
    requires e.tabId <= id < |e.tabs|
    ensures Valid(CloseTabValue(e, id)) && Renderable(CloseTabValue(e, id))
  {
  }

  /** Closing an earlier tab while the last tab is active leaves the index one past the end
      of the list, so the workspace can no longer be drawn. */
  lemma CloseEarlierTabBreaksBound(e: Snapshot, id: nat)
    requires id < e.tabId && e.tabId == |e.tabs| - 1
    ensures CloseTabValue(e, id).tabId == |CloseTabValue(e, id).tabs|
    ensures !Renderable(CloseTabValue(e, id))
  {
  }

  /** From a valid state, closing a tab keeps the state valid if and only if the closed tab is
      not before the active one, or the active one is not the last. */
  lemma CloseKeepsValidIff(e: Snapshot, id: nat)
    requires Valid(e) && id < |e.tabs|
    ensures Valid(CloseTabValue(e, id)) <==> e.tabId <= id || e.tabId < |e.tabs| - 1
  {
  }

  /** The position a tab had before tab `id` was removed, given its position after. */
  function PositionBefore(id: nat, k: nat): nat
  {
    if k < id then k else k + 1
  }

  /** Which tab is active after a close, counted in the old list: the same tab only when a tab
      after it was closed; its left neighbour when it was closed itself (its right neighbour
      when it was the first); and, when a tab before it was closed, its right neighbour, as the
      index was not moved with the list. */
  lemma ActiveTabAfterClose(e: Snapshot, id: nat)
    requires Valid(e) && id < |e.tabs|
    requires CloseTabValue(e, id).tabId < |e.tabs| - 1
    ensures PositionBefore(id, CloseTabValue(e, id).tabId) == e.tabId <==> e.tabId < id
    ensures PositionBefore(id, CloseTabValue(e, id).tabId) ==
      if e.tabId < id then e.tabId
      else if e.tabId == id then (if id > 0 then id - 1 else 1)
      else e.tabId + 1
  {
  }

  /** From a valid state, exactly these messages panic: closing a tab that does not exist,
      and editing, saving or closing the current tab while no tab is open (the "Save" and
      "Close" menu entries stay on screen then). */
  lemma PanicsFromValidIff(e: Snapshot, msg: Message)
    requires Valid(e)
    ensures Panics(e, msg) <==>
      (msg.CloseTab? && msg.id >= |e.tabs|) ||
      (|e.tabs| == 0 && (msg.TextEdited? || msg.Save? || msg.CloseCurrent?))
  {
  }

  /** The condition under which a message handled from a valid state leaves it valid. */
  predicate KeepsValid(e: Snapshot, msg: Message)
  {
    match msg
    case TabChanged(id) => id < |e.tabs| || (|e.tabs| == 0 && id == 0)
    case CloseTab(id) => e.tabId <= id || e.tabId < |e.tabs| - 1
    case _ => true
  }

  /** A message handled from a valid state without panicking leaves the state valid if and
      only if it is not a jump to a tab that does not exist and not a close of an earlier tab
      while the last is active. */
  lemma {:induction false} StepKeepsValidIff(e: Snapshot, msg: Message, picked: Picked)
    requires Valid(e) && !Panics(e, msg)
    ensures Valid(Step(e, msg, picked).next) <==> KeepsValid(e, msg)
  {
    match msg
    case CloseTab(id) =>
      CloseKeepsValidIff(e, id);
    case CloseCurrent =>
      CloseGuardKeepsBound(e, e.tabId);
    case _ =>
  }

  /** The tab an `OpenFile` appends is pushed without touching the index, so from a state with
      no tab and a stale index the new state cannot be drawn; the stronger `Valid` rules this
      out. */
  lemma OpenFileNeedsValid()
    ensures Renderable(Snapshot([], 1))
    ensures !Renderable(Step(Snapshot([], 1), OpenFile, Cancelled).next)
  {
  }

  /** Saving while the active tab has no file path writes nothing and changes nothing,
      whatever its buffer holds. */
  lemma SaveFilelessWritesNothing(e: Snapshot, picked: Picked)
    requires e.tabId < |e.tabs| && e.tabs[e.tabId].filePath.None?
    ensures Step(e, Save, picked) == Done(e, None)
  {
  }
}
