/**
  The editor's tab state machine: an ordered list of tabs, the index of the active
  tab, and the messages of the user interface that change them (src/state.rs).

  The module has three layers:
  - the values: `Tab`, `Message`, and `Snapshot`, the contents of a `State` at one moment;
  - the specification on values: `CloseTabValue`, `SaveEffect` and `Step`, where a Rust
    panic (an index or a `Vec::remove` out of bounds) is the outcome `Panicked`;
  - the class `State`, whose methods update the two fields in place, one per message arm,
    each proved against the specification.
*/
module TabState {
  import opened Wrappers

  /** The buffer of the text editor widget, reduced to the text it holds. */
  datatype Content = Content(text: string)

  /** An edit the user makes in the widget (typing, deleting, pasting, moving the cursor).
      What it does to the buffer is up to the widget library, so an action is any
      transformation of a buffer. */
  type Action = Content -> Content

  /** An open editing session: its title, the file it came from (if any), its buffer. */
  datatype Tab = Tab(title: string, filePath: Option<string>, content: Content)

  /** The messages `State::update` dispatches. A tab index is a `usize`, here a `nat`. */
  datatype Message =
    | OpenFile
    | TextEdited(action: Action)
    | CloseTab(id: nat)
    | TabChanged(id: nat)
    | Save
    | MenuOpened
    | CloseCurrent

  /** The bytes a save writes, and where: the write itself is done by the operating system. */
  datatype Write = Write(path: string, text: string)

  /** What the open-file dialog and the file read gave `Tab::open_file`: either the dialog was
      cancelled, or a path was chosen; `fileName` is the path's last component as the
      platform's path library computes it, and `read` is the file's text, or `None` when
      reading it failed. */
  datatype Picked =
    | Cancelled
    | Chosen(path: string, fileName: string, read: Option<string>)

  const NoFileTitle: string := "No file"

  /** The tab opened when no file is chosen: a buffer backed by no file. */
  function FilelessTab(): (t: Tab)
    ensures t.filePath.None? && t.content.text == []
    ensures t.title == NoFileTitle
  {
    Tab(NoFileTitle, None, Content(""))
  }

  /** `Tab::open_file`: the tab made from what the dialog and the read returned. A tab has a
      file path exactly when a file was chosen, and a failed read yields an empty buffer. */
  function OpenedTab(p: Picked): (t: Tab)
    ensures t.filePath.Some? <==> p.Chosen?
    ensures p.Cancelled? ==> t == FilelessTab()
    ensures p.Chosen? ==> t.filePath.value == p.path && t.title == p.fileName
    ensures p.Chosen? && p.read.Some? ==> t.content.text == p.read.value
    ensures p.Chosen? && p.read.None? ==> t.content.text == []
  {
    match p
    case Cancelled => FilelessTab()
    case Chosen(path, fileName, read) =>
      Tab(fileName, Some(path), Content(if read.Some? then read.value else ""))
  }

  /** The tab after `action` was performed on its buffer. */
  function Edited(tab: Tab, action: Action): (r: Tab)
    ensures r.content == action(tab.content)
    ensures r.title == tab.title && r.filePath == tab.filePath
  {
    tab.(content := action(tab.content))
  }

  /** The contents of a `State`: the tabs in order and the active index. */
  datatype Snapshot = Snapshot(tabs: seq<Tab>, tabId: nat)

  /** What drawing the workspace needs: with no tab open nothing is indexed, otherwise the
      active index must name a tab. */
  predicate Renderable(e: Snapshot)
  {
    |e.tabs| == 0 || e.tabId < |e.tabs|
  }

  /** The state the editor starts in and keeps under careful use: the active index names a
      tab, or there is no tab and the index is 0. */
  predicate Valid(e: Snapshot)
  {
    e.tabId < |e.tabs| || (|e.tabs| == 0 && e.tabId == 0)
  }

  /** `Vec::remove(i)`: the list without its element at `i`, the others in their order. */
  function Without<T>(s: seq<T>, i: nat): (r: seq<T>)
    requires i < |s|
    ensures |r| == |s| - 1
    ensures forall k :: 0 <= k < i ==> r[k] == s[k]
    ensures forall k :: i <= k < |r| ==> r[k] == s[k + 1]
  {
    s[..i] + s[i + 1..]
  }

  /** `State::close_tab(id)`: the "safety" guard steps the active index back by one when the
      active tab itself is closed and is not the first; then tab `id` is removed. */
  function CloseTabValue(e: Snapshot, id: nat): (r: Snapshot)
    requires id < |e.tabs|
    ensures |r.tabs| == |e.tabs| - 1
    ensures forall k :: 0 <= k < id ==> r.tabs[k] == e.tabs[k]
    ensures forall k :: id <= k < |r.tabs| ==> r.tabs[k] == e.tabs[k + 1]
    ensures r.tabId == e.tabId - 1 <==> e.tabId == id && e.tabId > 0
    ensures r.tabId != e.tabId - 1 ==> r.tabId == e.tabId
  {
    Snapshot(Without(e.tabs, id), if e.tabId == id && e.tabId > 0 then e.tabId - 1 else e.tabId)
  }

  /** `State::save`: the write issued for the active tab, which happens only when that tab
      has a file path, and then puts the tab's whole text at that path. */
  function SaveEffect(e: Snapshot): (w: Option<Write>)
    requires e.tabId < |e.tabs|
    ensures w.Some? <==> e.tabs[e.tabId].filePath.Some?
    ensures w.Some? ==> w.value.path == e.tabs[e.tabId].filePath.value
    ensures w.Some? ==> w.value.text == e.tabs[e.tabId].content.text
  {
    var tab := e.tabs[e.tabId];
    match tab.filePath
    case Some(path) => Some(Write(path, tab.content.text))
    case None => None
  }

  /** The position of `tabs` a message's handler indexes or removes, if any. */
  function IndexUsed(e: Snapshot, msg: Message): Option<nat>
  {
    match msg
    case CloseTab(id) => Some(id)
    case TextEdited(_) => Some(e.tabId)
    case Save => Some(e.tabId)
    case CloseCurrent => Some(e.tabId)
    case _ => None
  }

  /** The messages whose handling panics in `state`: an index of `tabs` or a `Vec::remove`
      out of bounds. */
  predicate Panics(e: Snapshot, msg: Message)
    ensures Panics(e, msg) <==> IndexUsed(e, msg).Some? && IndexUsed(e, msg).value >= |e.tabs|
  {
    match msg
    case TextEdited(_) => e.tabId >= |e.tabs|
    case CloseTab(id) => id >= |e.tabs|
    case Save => e.tabId >= |e.tabs|
    case CloseCurrent => e.tabId >= |e.tabs|
    case OpenFile => false
    case TabChanged(_) => false
    case MenuOpened => false
  }

  /** How many tabs a message adds (or, when negative, removes). */
  function TabCountChange(msg: Message): int
  {
    match msg
    case OpenFile => 1
    case CloseTab(_) => -1
    case CloseCurrent => -1
    case _ => 0
  }

  /** The result of handling one message: the process aborted, or the new contents and the
      write the message issued. */
  datatype Outcome = Panicked | Done(next: Snapshot, write: Option<Write>)

  /** `State::update(msg)` on values; `picked` is what the dialog gives an `OpenFile`. */
  function Step(e: Snapshot, msg: Message, picked: Picked): (o: Outcome)
    ensures o.Panicked? <==> Panics(e, msg)
    ensures o.Done? ==> |o.next.tabs| == |e.tabs| + TabCountChange(msg)
    ensures o.Done? ==>
      (o.write.Some? <==>
         (msg.Save? || msg.CloseCurrent?) && e.tabId < |e.tabs| && e.tabs[e.tabId].filePath.Some?)
    ensures o.Done? && !(msg.TabChanged? || msg.CloseTab? || msg.CloseCurrent?) ==>
      o.next.tabId == e.tabId
  {
    match msg
    case OpenFile => Done(Snapshot(e.tabs + [OpenedTab(picked)], e.tabId), None)
    case TextEdited(action) =>
      if e.tabId < |e.tabs| then
        Done(Snapshot(e.tabs[e.tabId := Edited(e.tabs[e.tabId], action)], e.tabId), None)
      else Panicked
    case TabChanged(id) => Done(Snapshot(e.tabs, id), None)
    case CloseTab(id) =>
      if id < |e.tabs| then Done(CloseTabValue(e, id), None) else Panicked
    case MenuOpened => Done(e, None)
    case Save =>
      if e.tabId < |e.tabs| then Done(e, SaveEffect(e)) else Panicked
    case CloseCurrent =>
      if e.tabId < |e.tabs| then Done(CloseTabValue(e, e.tabId), SaveEffect(e)) else Panicked
  }

  /** The application state: the open tabs and the index of the active one, both updated in
      place by the message handlers. */
  class State {
    var tabs: seq<Tab>
    var tabId: nat

    /** `State::default()`: no tab open, index 0. */
    constructor ()
      ensures tabs == [] && tabId == 0
      ensures Valid(Value())
    {
      tabs := [];
      tabId := 0;
    }

    function Value(): Snapshot
      reads this
    {
      Snapshot(tabs, tabId)
    }

    /** `Message::OpenFile`: the tab `Tab::open_file` made is pushed at the end. */
    method OpenFile(picked: Picked)
      modifies this
      ensures |tabs| == |old(tabs)| + 1
      ensures tabs[..|old(tabs)|] == old(tabs)
      ensures tabs[|old(tabs)|] == OpenedTab(picked)
      ensures tabId == old(tabId)
    {
      tabs := tabs + [OpenedTab(picked)];
    }

    /** `Message::TextEdited(action)`: only the active tab's buffer changes. */
    method TextEdited(action: Action)
      requires tabId < |tabs|
      modifies this
      ensures |tabs| == |old(tabs)| && tabId == old(tabId)
      ensures tabs[tabId].content == action(old(tabs[tabId].content))
      ensures tabs[tabId].title == old(tabs[tabId].title)
      ensures tabs[tabId].filePath == old(tabs[tabId].filePath)
      ensures forall k :: 0 <= k < |tabs| && k != tabId ==> tabs[k] == old(tabs[k])
    {
      tabs := tabs[tabId := Edited(tabs[tabId], action)];
    }

    /** `Message::TabChanged(id)`: the index is set, whatever it is. */
    method TabChanged(id: nat)
      modifies this
      ensures tabId == id && tabs == old(tabs)
    {
      tabId := id;
    }

    /** `State::close_tab(id)`: the guard on the index, then `Vec::remove(id)`. */
    method CloseTab(id: nat)
      requires id < |tabs|
      modifies this
      ensures Value() == CloseTabValue(old(Value()), id)
    {
      if tabId == id && tabId > 0 {
        tabId := tabId - 1;
      }
      tabs := tabs[..id] + tabs[id + 1..];
    }

    /** `State::save`: reads the state only; the write it asks for is returned. */
    method Save() returns (write: Option<Write>)
      requires tabId < |tabs|
      ensures write == SaveEffect(Value())
    {
      var tab := tabs[tabId];
      if tab.filePath.Some? {
        write := Some(Write(tab.filePath.value, tab.content.text));
      } else {
        write := None;
      }
    }

    /** `Message::CloseCurrent`: save the active tab, then close it. */
    method CloseCurrent() returns (write: Option<Write>)
      requires tabId < |tabs|
      modifies this
      ensures write == SaveEffect(old(Value()))
      ensures tabs == Without(old(tabs), old(tabId))
      ensures tabId == if old(tabId) > 0 then old(tabId) - 1 else 0
    {
      write := Save();
      CloseTab(tabId);
    }

    /** `State::update(msg)`: dispatch to the handler of `msg`; `picked` is what the dialog
        returns should the message be `OpenFile`. */
    method Update(msg: Message, picked: Picked) returns (write: Option<Write>)
      requires !Panics(Value(), msg)
      modifies this
      ensures Step(old(Value()), msg, picked) == Done(Value(), write)
    {
      write := None;
      match msg
      case OpenFile =>
        OpenFile(picked);
      case TextEdited(action) =>
        TextEdited(action);
      case TabChanged(id) =>
        TabChanged(id);
      case CloseTab(id) =>
        CloseTab(id);
      case MenuOpened =>
      case Save =>
        write := Save();
      case CloseCurrent =>
        write := CloseCurrent();
    }
  }
}
