/** Sequence numbers of changes and the windows in which the manager reports them
    (opsrest/manager.py, opsrest/notifications/utils.py). */
module ChangeWindow {
  import opened Options

  /** A tracked change and the sequence number it was stamped with. */
  datatype Change = Change(id: nat, stamp: nat)

  /** A stretch of sequence numbers that the manager moved over: `reported` to the callbacks, or not
      when a connection was established. */
  datatype Window = Window(low: nat, high: nat, reported: Option<set<Change>>)

  /** `recorded` and `windows` only remember the past. */
  datatype State = State(current: nat, change: nat, connected: bool, tracked: set<Change>, recorded: set<Change>, windows: seq<Window>)

  /** What happens: the database is found changed, a connection is re-established, or some other part of
      the program processes changes.  The sequence number goes up to `upTo`. */
  datatype Event =
    | Check(upTo: nat, changes: set<Change>)
    | Reconnect(upTo: nat, changes: set<Change>)
    | Elsewhere(upTo: nat, changes: set<Change>)

  const START: State := State(0, 0, false, {}, {}, [])

  /** Sequence numbers only grow, and new changes are stamped with new ones. */
  ghost predicate Possible(s: State, e: Event) {
    && s.change <= e.upTo
    && (forall c :: c in e.changes ==> s.change < c.stamp <= e.upTo)
  }

  function After(current: nat, changes: set<Change>): set<Change> {
    set c | c in changes && c.stamp > current
  }

  function Processed(s: State, e: Event): State {
    s.(change := e.upTo, tracked := s.tracked + e.changes, recorded := s.recorded + e.changes)
  }

  function Next(s: State, e: Event): State {
    var ran := Processed(s, e);
    match e
    case Elsewhere(_, _) => ran
    case Check(upTo, _) =>
      if s.current == upTo then ran
      else ran.(current := upTo, tracked := {}, windows := s.windows + [Window(s.current, upTo, Some(After(s.current, ran.tracked)))])
    case Reconnect(upTo, _) =>
      if s.current == upTo then ran.(connected := false)
      else ran.(current := upTo, connected := true, windows := s.windows + [Window(s.current, upTo, None)])
  }

  // ---------- windows tile the axis ----------

  predicate Covers(w: Window, stamp: nat) {
    w.low < stamp <= w.high
  }

  /** The i-th window starts where the one before it ends. */
  ghost predicate Follows(windows: seq<Window>, i: nat)
    requires i < |windows|
  {
    windows[i].low < windows[i].high && windows[i].low == if i == 0 then 0 else windows[i - 1].high
  }

  /** The windows follow each other without gaps from 0 to `current`. */
  ghost predicate Tiled(windows: seq<Window>, current: nat) {
    && (forall i {:trigger Follows(windows, i)} :: 0 <= i < |windows| ==> Follows(windows, i))
    && current == if windows == [] then 0 else windows[|windows| - 1].high
  }

  /** A reported window holds exactly the changes stamped within it. */
  ghost predicate Complete(s: State, w: Window) {
    w.reported.Some? ==> w.reported.value == set c | c in s.recorded && Covers(w, c.stamp)
  }

  ghost predicate Good(s: State) {
    && Tiled(s.windows, s.current)
    && s.current <= s.change
    && (forall c {:trigger c in s.recorded} :: c in s.recorded ==> 0 < c.stamp <= s.change)
    && s.tracked <= s.recorded
    && (forall c {:trigger c in s.tracked} :: c in s.recorded && c.stamp > s.current ==> c in s.tracked)
    && (forall i {:trigger s.windows[i]} :: 0 <= i < |s.windows| ==> Complete(s, s.windows[i]))
  }

  lemma {:induction false} WindowsBelow(windows: seq<Window>, current: nat, i: nat)
    requires Tiled(windows, current) && i < |windows|
    ensures windows[i].high <= current
    decreases |windows| - i
  {
    assert Follows(windows, i);
    if i + 1 < |windows| {
      assert Follows(windows, i + 1);
      WindowsBelow(windows, current, i + 1);
    }
  }

  lemma ProcessedStaysComplete(s: State, e: Event, i: nat)
    requires Good(s) && Possible(s, e) && i < |s.windows|
    ensures Complete(Processed(s, e), s.windows[i])
  {
    var w := s.windows[i];
    WindowsBelow(s.windows, s.current, i);
    assert Complete(s, w);
    forall c | c in e.changes
      ensures !Covers(w, c.stamp)
    {
    }
  }

  /** What the callbacks are shown is what was stamped since the last window. */
  lemma NewWindow(s: State, e: Event)
    requires Good(s) && Possible(s, e)
    ensures After(s.current, s.tracked + e.changes) == set c | c in s.recorded + e.changes && s.current < c.stamp <= e.upTo
  {
  }

  lemma NextIsTiled(s: State, e: Event)
    requires Good(s) && Possible(s, e)
    ensures Tiled(Next(s, e).windows, Next(s, e).current)
  {
    var windows := Next(s, e).windows;
    forall i | 0 <= i < |windows|
      ensures Follows(windows, i)
    {
      if i < |s.windows| {
        assert Follows(s.windows, i);
      }
    }
  }

  lemma NextIsGood(s: State, e: Event)
    requires Good(s) && Possible(s, e)
    ensures Good(Next(s, e))
  {
    var after := Next(s, e);
    NewWindow(s, e);
    NextIsTiled(s, e);
    forall i | 0 <= i < |after.windows|
      ensures Complete(after, after.windows[i])
    {
      if i < |s.windows| {
        ProcessedStaysComplete(s, e, i);
      }
    }
  }

  function Run(events: seq<Event>): State {
    if events == [] then START else Next(Run(events[..|events| - 1]), events[|events| - 1])
  }

  ghost predicate PossibleRun(events: seq<Event>) {
    events != [] ==> PossibleRun(events[..|events| - 1]) && Possible(Run(events[..|events| - 1]), events[|events| - 1])
  }

  lemma {:induction false} RunIsGood(events: seq<Event>)
    requires PossibleRun(events)
    ensures Good(Run(events))
  {
    if events != [] {
      RunIsGood(events[..|events| - 1]);
      NextIsGood(Run(events[..|events| - 1]), events[|events| - 1]);
    }
  }

  // ---------- every change is reported at most once ----------

  ghost predicate ReportedIn(s: State, c: Change, i: nat) {
    i < |s.windows| && s.windows[i].reported.Some? && c in s.windows[i].reported.value
  }

  lemma {:induction false} FindWindow(windows: seq<Window>, current: nat, stamp: nat, n: nat) returns (i: nat)
    requires Tiled(windows, current) && 0 < stamp && 0 < n <= |windows| && stamp <= windows[n - 1].high
    ensures i < n && Covers(windows[i], stamp)
    decreases n
  {
    assert Follows(windows, n - 1);
    if windows[n - 1].low < stamp {
      i := n - 1;
    } else {
      i := FindWindow(windows, current, stamp, n - 1);
    }
  }

  lemma {:induction false} LaterWindow(windows: seq<Window>, current: nat, i: nat, k: nat)
    requires Tiled(windows, current) && i < k < |windows|
    ensures windows[i].high <= windows[k].low
    decreases k - i
  {
    assert Follows(windows, k) && Follows(windows, k - 1);
    if i < k - 1 {
      LaterWindow(windows, current, i, k - 1);
    }
  }

  /** Two windows cover no number in common. */
  lemma OneWindow(windows: seq<Window>, current: nat, stamp: nat, i: nat, k: nat)
    requires Tiled(windows, current) && i < |windows| && k < |windows|
    requires Covers(windows[i], stamp) && Covers(windows[k], stamp)
    ensures i == k
  {
    if i < k {
      LaterWindow(windows, current, i, k);
    } else if k < i {
      LaterWindow(windows, current, k, i);
    }
  }

  /** A change falls into exactly one window once the manager has moved past it; it has been reported
      there and nowhere else, unless the window was absorbed by a connection being established. */
  lemma ReportedOnce(events: seq<Event>, c: Change) returns (i: nat)
    requires PossibleRun(events) && c in Run(events).recorded
    ensures var s := Run(events);
            if c.stamp <= s.current then
              && i < |s.windows| && Covers(s.windows[i], c.stamp)
              && (forall k :: 0 <= k < |s.windows| && Covers(s.windows[k], c.stamp) ==> k == i)
              && (forall k: nat :: ReportedIn(s, c, k) <==> k == i && s.windows[i].reported.Some?)
            else
              && c in s.tracked
              && (forall k: nat :: !ReportedIn(s, c, k))
  {
    RunIsGood(events);
    var s := Run(events);
    i := 0;
    if c.stamp <= s.current {
      i := FindWindow(s.windows, s.current, c.stamp, |s.windows|);
      assert Complete(s, s.windows[i]);
      forall k | 0 <= k < |s.windows| && Covers(s.windows[k], c.stamp)
        ensures k == i
      {
        OneWindow(s.windows, s.current, c.stamp, i, k);
      }
    }
    forall k: nat | k < |s.windows|
      ensures ReportedIn(s, c, k) ==> Covers(s.windows[k], c.stamp) && c.stamp <= s.current
    {
      assert Complete(s, s.windows[k]);
      WindowsBelow(s.windows, s.current, k);
    }
  }

  /** Unless connections come and go, all windows are reported. */
  lemma {:induction false} AllReported(events: seq<Event>)
    requires PossibleRun(events) && forall i :: 0 <= i < |events| ==> !events[i].Reconnect?
    ensures forall i :: 0 <= i < |Run(events).windows| ==> Run(events).windows[i].reported.Some?
  {
    if events != [] {
      AllReported(events[..|events| - 1]);
    }
  }

  // ---------- the manager ----------

  class ConnectionManager {
    var current: nat
    var connected: bool
    /** The IDL's side: its sequence number and the changes it tracks. */
    var change: nat
    var tracked: set<Change>
    ghost var recorded: set<Change>
    ghost var windows: seq<Window>

    constructor ()
      ensures View() == START
    {
      current, connected, change, tracked := 0, false, 0, {};
      recorded, windows := {}, [];
    }

    ghost function View(): State
      reads this
    {
      State(current, change, connected, tracked, recorded, windows)
    }

    method IdlRun(upTo: nat, changes: set<Change>)
      modifies this`change, this`tracked, this`recorded
      ensures change == upTo && tracked == old(tracked) + changes && recorded == old(recorded) + changes
    {
      change, tracked := upTo, tracked + changes;
      recorded := recorded + changes;
    }

    /** The changes that a callback finds by comparing stamps with the manager's number. */
    method RunChangeCallbacks() returns (shown: set<Change>)
      modifies this`tracked
      ensures shown == After(current, old(tracked)) && tracked == {}
    {
      shown := set c | c in tracked && c.stamp > current;
      tracked := {};
    }

    method IdlEstablishConnection()
      requires current != change
      modifies this`current, this`connected, this`windows
      ensures current == change && connected
      ensures windows == old(windows) + [Window(old(current), change, None)]
    {
      windows := windows + [Window(current, change, None)];
      connected := true;
      current := change;
    }

    method IdlReconnect(upTo: nat, changes: set<Change>)
      requires Good(View()) && Possible(View(), Reconnect(upTo, changes))
      modifies this
      ensures View() == Next(old(View()), Reconnect(upTo, changes)) && Good(View())
    {
      NextIsGood(View(), Reconnect(upTo, changes));
      IdlRun(upTo, changes);
      if current == change {
        connected := false;
      } else {
        IdlEstablishConnection();
      }
    }

    method IdlCheckAndUpdate(upTo: nat, changes: set<Change>) returns (shown: Option<set<Change>>)
      requires Good(View()) && Possible(View(), Check(upTo, changes))
      modifies this
      ensures View() == Next(old(View()), Check(upTo, changes)) && Good(View())
      ensures shown.Some? <==> |windows| > |old(windows)|
      ensures shown.Some? ==> windows[|windows| - 1].reported == shown
    {
      NextIsGood(View(), Check(upTo, changes));
      IdlRun(upTo, changes);
      shown := None;
      if current != change {
        var all := RunChangeCallbacks();
        shown := Some(all);
        windows := windows + [Window(current, change, shown)];
      }
      current := change;
    }
  }
}
