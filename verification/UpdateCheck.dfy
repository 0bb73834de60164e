/**
  The portable daemon's update check: a timer that starts a checker, the checker's answer that sets
  the timer again, a setting that turns checks on and off at any time, and an exit that waits for a
  checker in flight.
 */
module UpdateCheck {
  import opened Text

  /** A checker is on its way, or its message is in the window's queue. */
  datatype Checker = InFlight | Answered

  datatype Window = Window(
    checkForUpdates: bool, disableUpdateCheck: bool, checker: Option<Checker>, timer: bool,
    exitWhenDone: bool, destroyed: bool)

  /** As constructed; the settings have not been read yet. */
  const Created := Window(false, true, None, false, false, false)

  /**
    What happens to the window: the timer fires (and a checker is made, or not), the system resumes,
    the checker is done, its message arrives, the settings are read (or cannot be), and an exit.
   */
  datatype Event =
    | Timer(made: bool) | Resume | Done | UpdateChecked(succeeded: bool) | SettingsRead(disable: Option<bool>) | Exit

  /** Which events can come: a timer that is set fires, and a checker answers once. */
  predicate Enabled(w: Window, e: Event) {
    && !w.destroyed
    && (e.Timer? ==> w.timer)
    && (e.Done? ==> w.checker == Some(InFlight))
    && (e.UpdateChecked? ==> w.checker == Some(Answered))
  }

  function Handle(w: Window, e: Event): Window {
    match e
    case Timer(made) => if made then w.(timer := false, checker := Some(InFlight)) else w.(timer := true)
    case Resume => if w.checkForUpdates && w.checker.None? then w.(timer := true) else w
    case Done => w.(checker := Some(Answered))
    case UpdateChecked(_) =>
      var idle := w.(checker := None);
      if w.exitWhenDone then Destroy(idle) else if w.checkForUpdates then idle.(timer := true) else idle
    case SettingsRead(None) => w
    case SettingsRead(Some(disable)) =>
      var read := w.(disableUpdateCheck := disable, checkForUpdates := !disable);
      if disable == w.disableUpdateCheck then w
      else if w.checker.Some? then read
      else read.(timer := !disable)
    case Exit => if w.checker.Some? then w.(exitWhenDone := true) else Destroy(w.(timer := w.timer && !w.checkForUpdates))
  }

  /** The timers of a window go with it. */
  function Destroy(w: Window): Window { w.(destroyed := true, timer := false) }

  // ---------------------------------------------------------------- the handlers

  class MainWindow {
    var checkForUpdates: bool
    var disableUpdateCheck: bool
    var updateChecker: Option<Checker>
    var timerSet: bool
    var exitWhenUpdateCheckDone: bool
    var destroyed: bool

    function State(): Window
      reads this
    {
      Window(checkForUpdates, disableUpdateCheck, updateChecker, timerSet, exitWhenUpdateCheckDone, destroyed)
    }

    constructor ()
      ensures State() == Created
    {
      checkForUpdates, disableUpdateCheck, updateChecker := false, true, None;
      timerSet, exitWhenUpdateCheckDone, destroyed := false, false, false;
    }

    method DestroyWindow()
      modifies this
      ensures State() == Destroy(old(State()))
    {
      destroyed, timerSet := true, false;
    }

    method OnTimer(made: bool)
      requires Enabled(State(), Timer(made))
      modifies this
      ensures State() == Handle(old(State()), Timer(made))
    {
      timerSet := false;
      if made {
        updateChecker := Some(InFlight);
      } else {
        timerSet := true;
      }
    }

    method OnPowerBroadcast()
      modifies this
      ensures State() == Handle(old(State()), Resume)
    {
      if checkForUpdates && updateChecker.None? {
        timerSet := false;
        timerSet := true;
      }
    }

    method OnUpdateChecked(succeeded: bool)
      requires Enabled(State(), UpdateChecked(succeeded))
      modifies this
      ensures State() == Handle(old(State()), UpdateChecked(succeeded))
    {
      updateChecker := None;
      if exitWhenUpdateCheckDone {
        DestroyWindow();
        return;
      }
      if !checkForUpdates { return; }
      if succeeded {
        timerSet := true;
      } else {
        timerSet := true;
      }
    }

    method LoadSettings(disable: Option<bool>)
      modifies this
      ensures State() == Handle(old(State()), SettingsRead(disable))
    {
      if disable.None? { return; }
      if disable.value != disableUpdateCheck {
        checkForUpdates := !disable.value;
        if checkForUpdates {
          if updateChecker.None? {
            timerSet := true;
          }
        } else if updateChecker.None? {
          timerSet := false;
        }
        disableUpdateCheck := disable.value;
      }
    }

    method ExitProgram()
      modifies this
      ensures State() == Handle(old(State()), Exit)
    {
      if updateChecker.Some? {
        exitWhenUpdateCheckDone := true;
      } else {
        if checkForUpdates {
          timerSet := false;
        }
        DestroyWindow();
      }
    }
  }

  // ---------------------------------------------------------------- every reachable state

  ghost predicate AllEnabled(w: Window, events: seq<Event>)
    decreases |events|
  {
    events != [] ==> Enabled(w, events[0]) && AllEnabled(Handle(w, events[0]), events[1..])
  }

  function Run(w: Window, events: seq<Event>): Window
    decreases |events|
  {
    if events == [] then w else Run(Handle(w, events[0]), events[1..])
  }

  ghost predicate Reachable(w: Window) {
    exists events :: AllEnabled(Created, events) && w == Run(Created, events)
  }

  predicate Inv(w: Window) {
    && w.checkForUpdates == !w.disableUpdateCheck
    && (w.destroyed ==> !w.timer && w.checker.None?)
    && (w.exitWhenDone && !w.destroyed ==> w.checker.Some?)
    && !(w.timer && w.checker.Some?)
    && (!w.checkForUpdates ==> !w.timer)
    && (w.checkForUpdates && !w.destroyed ==> w.timer || w.checker.Some?)
  }

  lemma {:induction false} RunKeepsInv(w: Window, events: seq<Event>)
    requires Inv(w) && AllEnabled(w, events)
    ensures Inv(Run(w, events))
    decreases |events|
  {
    if events != [] { RunKeepsInv(Handle(w, events[0]), events[1..]); }
  }

  /** With checks on, either the timer is set or a checker is on its way, never both; with checks off, no timer is set. */
  lemma ExactlyOneWakeUp(w: Window)
    requires Reachable(w) && !w.destroyed
    ensures w.checkForUpdates == !w.disableUpdateCheck
    ensures w.checkForUpdates ==> (w.timer <==> w.checker.None?)
    ensures !w.checkForUpdates ==> !w.timer
  {
    var events :| AllEnabled(Created, events) && w == Run(Created, events);
    RunKeepsInv(Created, events);
  }

  /** Up to the checker's message an exit stays requested, whatever else happens, and then the window goes. */
  lemma {:induction false} ExitIsNotForgotten(w: Window, events: seq<Event>)
    requires w.exitWhenDone && !w.destroyed && w.checker.Some? && !w.timer && AllEnabled(w, events)
    ensures var w' := Run(w, events);
      if exists k :: 0 <= k < |events| && events[k].UpdateChecked? then w'.destroyed
      else !w'.destroyed && w'.exitWhenDone && w'.checker.Some? && !w'.timer
    decreases |events|
  {
    if events != [] {
      var next := Handle(w, events[0]);
      if events[0].UpdateChecked? {
        assert events[1..] == [] by { assert next.destroyed; }
      } else {
        ExitIsNotForgotten(next, events[1..]);
        assert forall k :: 1 <= k < |events| ==> events[k] == events[1..][k - 1];
        assert forall k :: 0 <= k < |events| - 1 ==> events[1..][k] == events[k + 1];
      }
    }
  }

  /**
    After an exit request the window is gone at once, or it goes exactly with the message of the
    checker that is on its way; until then that checker is there to finish and to send it.
   */
  lemma ExitLeadsToDestruction(w: Window, events: seq<Event>)
    requires Reachable(w) && !w.destroyed && AllEnabled(Handle(w, Exit), events)
    ensures var w' := Run(Handle(w, Exit), events);
      && (w'.destroyed <==> w.checker.None? || exists k :: 0 <= k < |events| && events[k].UpdateChecked?)
      && (!w'.destroyed ==> Enabled(w', Done) || forall ok :: Enabled(w', UpdateChecked(ok)))
  {
    ExactlyOneWakeUp(w);
    var exiting := Handle(w, Exit);
    if w.checker.Some? {
      var before :| AllEnabled(Created, before) && w == Run(Created, before);
      RunKeepsInv(Created, before);
      ExitIsNotForgotten(exiting, events);
      var w' := Run(exiting, events);
      if !w'.destroyed {
        assert w'.checker.value.InFlight? || w'.checker.value.Answered?;
      }
    } else {
      assert events == [] by { assert exiting.destroyed; }
    }
  }

  /** A setting that was read is in effect at once; one that could not be read changes nothing. */
  lemma SettingsTakeEffect(w: Window, disable: bool)
    requires Reachable(w) && !w.destroyed
    ensures Handle(w, SettingsRead(Some(disable))).checkForUpdates == !disable
    ensures Handle(w, SettingsRead(None)) == w
    ensures !disable && w.checker.None? ==> Handle(w, SettingsRead(Some(disable))).timer
    ensures disable ==> !Handle(w, SettingsRead(Some(disable))).timer
  {
    ExactlyOneWakeUp(w);
    var events :| AllEnabled(Created, events) && w == Run(Created, events);
    RunKeepsInv(Created, events);
  }

  /** With checks on and no exit requested, the next check comes: timer, answer and message lead back to a set timer. */
  lemma ChecksKeepComing(w: Window, succeeded: bool)
    requires Reachable(w) && !w.destroyed && w.checkForUpdates && !w.exitWhenDone && w.timer
    ensures AllEnabled(w, [Timer(true), Done, UpdateChecked(succeeded)])
    ensures Handle(w, Timer(true)).checker == Some(InFlight)
    ensures Run(w, [Timer(true), Done, UpdateChecked(succeeded)]) == w
    ensures Handle(w, Timer(false)) == w
  {
    ExactlyOneWakeUp(w);
    var a, b, c := Timer(true), Done, UpdateChecked(succeeded);
    var w1 := Handle(w, a);
    var w2 := Handle(w1, b);
    assert [a, b, c][1..] == [b, c] && [b, c][1..] == [c] && [c][1..] == [];
    assert AllEnabled(Handle(w2, c), []);
    assert AllEnabled(w2, [c]);
    assert AllEnabled(w1, [b, c]);
    assert Run(w2, [c]) == Handle(w2, c);
    assert Run(w1, [b, c]) == Run(w2, [c]);
  }
}
