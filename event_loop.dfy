/**
  The application loop of src/main.rs: starting from `State::default()`, the toolkit hands
  `State::update` one message at a time, each handled to completion before the next.
  A panic ends the process; the writes issued before it were handed to the operating system.
*/
module EventLoop {
  import opened Wrappers
  import opened TabState
  import opened TabStateProperties

  /** A delivered message, with what the file dialog returns should it be `OpenFile`. */
  datatype Event = Event(msg: Message, picked: Picked)

  /** The result of a run: aborted by a panic, or the final state; both with the writes made. */
  datatype RunOutcome =
    | Aborted(writes: seq<Write>)
    | Finished(final: Snapshot, writes: seq<Write>)

  function Issued(w: Option<Write>): seq<Write>
  {
    if w.Some? then [w.value] else []
  }

  /** How many of the events are a `Save` or a `CloseCurrent`, the messages that write. */
  function SaveRequests(events: seq<Event>): nat
  {
    if events == [] then 0
    else (if events[0].msg.Save? || events[0].msg.CloseCurrent? then 1 else 0) + SaveRequests(events[1..])
  }

  /** The tabs the events add, less those they remove. */
  function NetTabChange(events: seq<Event>): int
  {
    if events == [] then 0 else TabCountChange(events[0].msg) + NetTabChange(events[1..])
  }

  /** The events handled one after the other from `e`. At most one write is made per save
      request, and a finished run has changed the tab count by the events' net change. */
  function Run(e: Snapshot, events: seq<Event>): (r: RunOutcome)
    ensures |r.writes| <= SaveRequests(events)
    ensures r.Finished? ==> |r.final.tabs| == |e.tabs| + NetTabChange(events)
    decreases |events|
  {
    if events == [] then Finished(e, [])
    else
      match Step(e, events[0].msg, events[0].picked)
      case Panicked => Aborted([])
      case Done(next, w) =>
        match Run(next, events[1..])
        case Aborted(ws) => Aborted(Issued(w) + ws)
        case Finished(f, ws) => Finished(f, Issued(w) + ws)
  }

  /** The state `State::default()` builds. */
  const Initial: Snapshot := Snapshot([], 0)

  /** Each event in turn neither panics nor breaks validity where it is delivered. */
  predicate Careful(e: Snapshot, events: seq<Event>)
    decreases |events|
  {
    events == [] ||
    (!Panics(e, events[0].msg) && KeepsValid(e, events[0].msg) &&
     Careful(Step(e, events[0].msg, events[0].picked).next, events[1..]))
  }

  /** A careful run from a valid state never panics and ends in a valid state. */
  lemma {:induction false} CarefulRunStaysValid(e: Snapshot, events: seq<Event>)
    requires Valid(e) && Careful(e, events)
    ensures Run(e, events).Finished? && Valid(Run(e, events).final)
    decreases |events|
  {
    if events != [] {
      var ev := events[0];
      StepKeepsValidIff(e, ev.msg, ev.picked);
      CarefulRunStaysValid(Step(e, ev.msg, ev.picked).next, events[1..]);
    }
  }

  function Repeat(ev: Event, n: nat): (r: seq<Event>)
    ensures |r| == n && forall k :: 0 <= k < n ==> r[k] == ev
  {
    if n == 0 then [] else [ev] + Repeat(ev, n - 1)
  }

  /** The state left after closing the current tab `n` times: the active tab, then its left
      neighbours down to the first tab, then the tabs that followed the active one are gone,
      and the index has followed down to 0. */
  function ClosedCurrent(e: Snapshot, n: nat): Snapshot
    requires Valid(e) && n <= |e.tabs|
  {
    if n <= e.tabId < |e.tabs| then Snapshot(e.tabs[..e.tabId - n + 1] + e.tabs[e.tabId + 1..], e.tabId - n)
    else Snapshot(e.tabs[n..], 0)
  }

  /** Closing the current tab once, then `n - 1` more times, is closing it `n` times. */
  lemma ClosedCurrentUnfold(e: Snapshot, n: nat)
    requires Valid(e) && 0 < n <= |e.tabs|
    ensures Valid(CloseTabValue(e, e.tabId)) && n - 1 <= |CloseTabValue(e, e.tabId).tabs|
    ensures ClosedCurrent(CloseTabValue(e, e.tabId), n - 1) == ClosedCurrent(e, n)
  {
    var t := e.tabId;
    var next := CloseTabValue(e, t);
    CloseGuardKeepsBound(e, t);
    if t > 0 {
      assert next.tabs == e.tabs[..t] + e.tabs[t + 1..];
      if n <= t {
        assert next.tabs[..(t - 1) - (n - 1) + 1] + next.tabs[t..] ==
               e.tabs[..t - n + 1] + e.tabs[t + 1..];
      } else {
        assert next.tabs[n - 1..] == e.tabs[n..];
      }
    } else {
      assert next.tabs == e.tabs[1..];
      if n == 1 && 0 < |next.tabs| {
        assert next.tabs[..1] + next.tabs[1..] == next.tabs;
      }
    }
  }

  /** "Close" from the menu, `n` times from a valid state with at least `n` tabs, never
      panics, keeps the state valid and leaves `ClosedCurrent(e, n)`. */
  lemma {:induction false} CloseCurrentRepeatedly(e: Snapshot, n: nat)
    requires Valid(e) && n <= |e.tabs|
    ensures Run(e, Repeat(Event(CloseCurrent, Cancelled), n)).Finished?
    ensures Run(e, Repeat(Event(CloseCurrent, Cancelled), n)).final == ClosedCurrent(e, n)
    ensures Valid(ClosedCurrent(e, n))
    decreases n
  {
    var ev := Event(CloseCurrent, Cancelled);
    if n > 0 {
      var next := CloseTabValue(e, e.tabId);
      assert Repeat(ev, n)[1..] == Repeat(ev, n - 1);
      assert Step(e, CloseCurrent, Cancelled).next == next;
      ClosedCurrentUnfold(e, n);
      CloseCurrentRepeatedly(next, n - 1);
    }
  }

  /** A run whose first event does not panic: that event's write, then the rest of the run. */
  lemma RunFirst(e: Snapshot, events: seq<Event>)
    requires events != [] && Step(e, events[0].msg, events[0].picked).Done?
    ensures
      var o := Step(e, events[0].msg, events[0].picked);
      var rest := Run(o.next, events[1..]);
      Run(e, events) ==
        if rest.Finished? then Finished(rest.final, Issued(o.write) + rest.writes)
        else Aborted(Issued(o.write) + rest.writes)
  {
  }

  /** Opening a file and saving it straight away writes the text of the buffer loaded from
      the file back to the same path. */
  lemma OpenThenSaveWritesBack(e: Snapshot, path: string, fileName: string, text: string)
    ensures
      var picked := Chosen(path, fileName, Some(text));
      var events := [Event(OpenFile, picked), Event(TabChanged(|e.tabs|), Cancelled),
                     Event(Save, Cancelled)];
      Run(e, events) == Finished(Snapshot(e.tabs + [OpenedTab(picked)], |e.tabs|), [Write(path, text)])
  {
    var picked := Chosen(path, fileName, Some(text));
    var events := [Event(OpenFile, picked), Event(TabChanged(|e.tabs|), Cancelled),
                   Event(Save, Cancelled)];
    var e1 := Snapshot(e.tabs + [OpenedTab(picked)], e.tabId);
    var e2 := Snapshot(e1.tabs, |e.tabs|);
    assert Step(e, OpenFile, picked) == Done(e1, None);
    assert Step(e1, TabChanged(|e.tabs|), Cancelled) == Done(e2, None);
    assert Step(e2, Save, Cancelled) == Done(e2, Some(Write(path, text)));
    var tail1, tail2 := events[1..], events[1..][1..];
    assert tail2[1..] == [];
    RunFirst(e2, tail2);
    RunFirst(e1, tail1);
    RunFirst(e, events);
  }

  /** The index drift is reachable from start-up: open two files, switch to the second, close
      the first; the active index is then past the end of the one remaining tab. */
  lemma EarlierCloseReachable(a: Picked, b: Picked)
    ensures
      var events := [Event(OpenFile, a), Event(OpenFile, b), Event(TabChanged(1), Cancelled),
                     Event(CloseTab(0), Cancelled)];
      Run(Initial, events) == Finished(Snapshot([OpenedTab(b)], 1), []) &&
      !Renderable(Run(Initial, events).final)
  {
    var events := [Event(OpenFile, a), Event(OpenFile, b), Event(TabChanged(1), Cancelled),
                   Event(CloseTab(0), Cancelled)];
    var s1 := Snapshot([OpenedTab(a)], 0);
    var s2 := Snapshot([OpenedTab(a), OpenedTab(b)], 0);
    var s3 := Snapshot(s2.tabs, 1);
    var s4 := Snapshot([OpenedTab(b)], 1);
    assert Step(Initial, OpenFile, a) == Done(s1, None);
    assert Step(s1, OpenFile, b) == Done(s2, None);
    assert Step(s2, TabChanged(1), Cancelled) == Done(s3, None);
    assert Step(s3, CloseTab(0), Cancelled) == Done(s4, None);
    assert events[1..][1..][1..][1..] == [];
    assert Run(s3, events[1..][1..][1..]) == Finished(s4, []);
    assert Run(s2, events[1..][1..]) == Finished(s4, []);
    assert Run(s1, events[1..]) == Finished(s4, []);
  }
}
