# Birdlestein tab state machine in Dafny

Birdlestein is a small desktop text editor. Its one piece of logic is the tab state of
`src/state.rs`: a `State` holds an ordered list of open tabs and the index of the active
one, and `State::update` dispatches the messages of the user interface. `OpenFile` appends
a tab, `TextEdited` edits the active tab's buffer, `TabChanged` sets the active index,
`CloseTab` and `CloseCurrent` remove a tab and adjust the index, and `Save` writes the
active tab's text to its file.

The project models that state machine in four modules:

- `Wrappers` (`wrappers.dfy`): the `Option` type.
- `TabState` (`tab_state.dfy`): the values (`Tab`, `Message`, `Snapshot` for the contents of
  a `State`) and a specification on values. `CloseTabValue` is `close_tab`, `SaveEffect` is
  the write `save` issues, and `Step` is `update`, where a Rust panic is the outcome
  `Panicked`. The class `State` has the two fields `tabs` and `tabId`. It has one method per
  message arm, each updating the fields in place and proved against the specification.
- `TabStateProperties` (`tab_state_properties.dfy`): what closing a tab does to the list and
  the index. It covers when the "safety" guard of `close_tab` keeps the index in bounds and
  when it does not, which messages panic, and which messages keep the state valid.
- `EventLoop` (`event_loop.dfy`): the loop `src/main.rs` starts. Messages are handled one at
  a time from `State::default()`. The module has lemmas about runs of several messages.

Two invariants appear. `Renderable` says there is no tab, or the active index names a tab.
This is what `render_workspace` needs (`src/workspace.rs:32-40`), since with no tab it draws
a simplified view and indexes nothing. `Valid` is stronger. It says the active index names a
tab, or there is no tab and the index is 0. `OpenFile` keeps `Valid` but not `Renderable`,
because a stale index in an empty list becomes out of bounds once a tab is pushed.

The close guard is modelled as written and is not corrected. Closing the active tab, or a
tab after it, keeps the index in bounds. Closing a tab before the active one leaves the
index where it was. The index then names the right neighbour of the tab that was active.
If the last tab was active, the index ends one past the end of the list, and the next
redraw indexes out of bounds. `EventLoop.EarlierCloseReachable` shows that four messages
from start-up reach that state.

For a tab with no file, saving writes nothing: the code does not prompt for a destination.
A write is returned as a value (`Write(path, text)`) instead of being performed.

## Model

| member | source | states |
|---|---|---|
| `TabState.FilelessTab` | src/state.rs:122-128 | the tab opened without a file has no path, an empty buffer and the title "No file" |
| `TabState.OpenedTab` | src/state.rs:40-61 | `Tab::open_file`: the tab has a path exactly when the dialog chose a file. A cancelled dialog gives the fileless tab. A chosen file gives its path and name, and its text, or an empty buffer when the read failed |
| `TabState.Without` | src/state.rs:111 | `Vec::remove(i)`: one element shorter, the elements before `i` in place, those after it shifted down by one |
| `TabState.CloseTabValue` | src/state.rs:103-112 | `close_tab(id)` removes exactly tab `id` and keeps the order of the others. The index drops by one if and only if it equals `id` and is positive, and otherwise stays the same |
| `TabState.SaveEffect` | src/state.rs:114-119 | `save` issues a write if and only if the active tab has a file path. The write puts that tab's whole text at that path |
| `TabState.Edited` | src/state.rs:77 | `content.perform(action)`: the tab's buffer becomes the action applied to it, and its title and path stay |
| `TabState.Panics` | src/state.rs:77-115 | a message panics exactly when the position of `tabs` its handler indexes or removes is out of bounds: the active index for an edit, a save or a close of the current tab (lines 77 and 115), the given `id` for a close (line 111) |
| `TabState.Step` | src/state.rs:71-97 | `update` panics exactly when `Panics` holds. The tab count changes by +1 for `OpenFile`, by -1 for the two closes, and by 0 otherwise. A write happens only for `Save` and `CloseCurrent` on a tab with a path. Only `TabChanged` and the closes move the index |
| `TabState.State.constructor` | src/state.rs:64-68 | `State::default()`: no tabs and index 0, a valid state |
| `TabState.State.OpenFile` | src/state.rs:73-75 | appends exactly the opened tab at the end. Every existing tab and the index are unchanged |
| `TabState.State.TextEdited` | src/state.rs:76-78 | requires the active index to name a tab, since the index panics otherwise. Only that tab's buffer changes, by the action. Its title and path, every other tab, the count and the index are unchanged |
| `TabState.State.TabChanged` | src/state.rs:79-82 | sets the index to `id` with no bounds check and leaves the tabs unchanged |
| `TabState.State.CloseTab` | src/state.rs:103-112 | requires `id < |tabs|` (`Vec::remove` panics otherwise). The new fields are exactly `CloseTabValue` of the old ones: the old list without element `id`, and the index dropped by one if and only if it was `id` and positive |
| `TabState.State.Save` | src/state.rs:114-119 | requires the active index to name a tab and changes nothing in the state. It returns exactly `SaveEffect` of the state: a write when the active tab has a path, of the tab's text to that path |
| `TabState.State.CloseCurrent` | src/state.rs:92-95 | acts as save followed by `close_tab(tab_id)`. It issues the save's write, removes the active tab, and sets the index to `tab_id - 1` when it was positive, else 0 |
| `TabState.State.Update` | src/state.rs:71-97 | for a message that does not panic, the new fields and the write issued are exactly those `Step` gives from the old fields |
| `TabStateProperties.WithoutRemovesOne` | src/state.rs:111 | removing tab `i` takes exactly one copy of that tab out of the multiset of tabs |
| `TabStateProperties.CloseGuardKeepsBound` | src/state.rs:106-111 | when the closed tab is at or after the active one, the state afterwards is valid and renderable |
| `TabStateProperties.CloseEarlierTabBreaksBound` | src/state.rs:106-111 | closing a tab before the active one while the last tab is active leaves the index equal to the new tab count, so the state cannot be drawn |
| `TabStateProperties.CloseKeepsValidIff` | src/state.rs:106-111 | from a valid state, a close keeps validity if and only if the closed tab is not before the active one, or the active one is not the last |
| `TabStateProperties.ActiveTabAfterClose` | src/state.rs:103-112 | counted in the old list, the tab active after a close is the same tab if and only if a later tab was closed. It is the left neighbour (the right one at position 0) when the active tab itself was closed, and the right neighbour when an earlier tab was closed |
| `TabStateProperties.PanicsFromValidIff` | src/state.rs:71-119 | from a valid state, a message panics if and only if it closes a tab that does not exist, or it edits, saves or closes the current tab while no tab is open |
| `TabStateProperties.StepKeepsValidIff` | src/state.rs:71-112 | from a valid state, a message that does not panic keeps validity if and only if it is not `TabChanged` to an index that names no tab (0 is allowed when none is open) and not a close of an earlier tab while the last is active |
| `TabStateProperties.OpenFileNeedsValid` | src/state.rs:73-75 | pushing a tab without touching the index turns the renderable state "no tabs, index 1" into an unrenderable one |
| `TabStateProperties.SaveFilelessWritesNothing` | src/state.rs:114-119 | saving while a tab with no file path is active, whatever its buffer holds, issues no write and changes nothing |
| `EventLoop.Run` | src/main.rs:6-13 | the messages are handled one at a time from a state, and a panic ends the run. The writes issued before a panic are kept, and the panicking message writes nothing. At most one write is made per `Save` or `CloseCurrent`, and a finished run changes the tab count by the messages' net change |
| `EventLoop.CarefulRunStaysValid` | src/main.rs:5-14 | a run of messages from a valid state, each of which neither panics nor breaks validity where it is delivered, finishes without a panic in a valid state |
| `EventLoop.ClosedCurrentUnfold` | src/state.rs:103-112 | closing the current tab once from a valid state gives a valid state. Closing it `n - 1` more times then leaves what `n` closes leave |
| `EventLoop.CloseCurrentRepeatedly` | src/state.rs:92-112 | "Close" `n <= |tabs|` times from a valid state never panics and stays valid. It removes the active tab, then its left neighbours down to the first tab, then the tabs that followed it, and the index drops to `max(tab_id - n, 0)` |
| `EventLoop.OpenThenSaveWritesBack` | src/state.rs:40-119 | from any state, opening a file, switching to its tab and saving finishes without a panic. The file's tab is then active, and exactly one write is made: the text of the buffer loaded from the file, back to the same path |
| `EventLoop.EarlierCloseReachable` | src/state.rs:73-112 | from start-up, opening two files, switching to the second and closing the first leaves one tab with index 1, which cannot be drawn |

## Left out

- `TabState.OpenedTab`: the tab's title is taken as given, the last path component as the platform's path library computes it. The `expect` on a path that is not valid UTF-8 and the `unwrap` on a path without a final component both panic, and neither is modelled, because both depend on the operating system's path handling.
- The file dialog and the file read of `Tab::open_file` are not performed. Their result is the `Picked` input of the `OpenFile` handler.
- The buffer of the text editor widget is reduced to its text. Cursor and selection are not modelled. An edit action is any function from buffer to buffer, because its meaning belongs to the widget library.
- `EventLoop.OpenThenSaveWritesBack`: the model treats loading text into the editor buffer and reading the text back out as exact inverses, because the buffer is modelled as its text. The widget library's line-based buffer may change line endings or a final newline, so the real round trip can differ from the file that was read.
- The write a save issues is returned and not performed. `write_file` in `src/files.rs` panics when the file cannot be created, and it discards the error of the write itself, so a failed write goes unreported. Neither failure is modelled.
- `usize` is modelled as an unbounded `nat`. The only arithmetic on an index is a decrement guarded by `> 0`, so nothing can wrap around.
- `println!` logging in `update` and `close_tab` has no effect on the state and is not modelled.
- `State::view` and `src/workspace.rs` build the widget tree and are not modelled. `EventLoop.Run` does not draw the state between messages, so a state that cannot be drawn does not end the run. The only fact used from them is the empty-tabs early return, which defines `Renderable`. That file also names messages and a `popup` field that `src/state.rs` does not declare, and the `Message` type here is the one `src/state.rs` declares.
- The `MenuMessage` enum at `src/state.rs:25-29` is unused and is not modelled.
- `src/config.rs` (a settings file read through a TOML library, with defaults on failure) and the start-up and theme settings of `src/main.rs` are library calls with no logic of their own, and are not modelled.
