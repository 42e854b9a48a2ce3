/** The `CountDown` component of components/count-down.tsx as an object whose handlers update
    its state in place. The interval handle is kept as the source keeps it: `timeRef` holds the
    handle of the last interval created (it is never reset to null), `live` is the set of
    intervals the runtime still schedules, and `clearInterval(timeRef.current)` removes the
    referenced one. `depActive` and `depPaused` are the dependency values the interval effect
    last ran with. */
module CountDown {
  import opened Wrappers
  import opened TimerSpec

  class Timer {
    var duration: Option<int>
    var timeLeft: int
    var isActive: bool
    var isPaused: bool
    var timeRef: Option<nat>
    var live: set<nat>
    var nextHandle: nat
    var depActive: bool
    var depPaused: bool

    /** The observable state. */
    function View(): TimerSpec.View
      reads this
    {
      TimerSpec.View(duration, timeLeft, isActive, isPaused, live != {})
    }

    /** Handles are only ever the one in `timeRef`: every interval other than the referenced
        one has been cleared. */
    ghost predicate HandlesOk()
      reads this
    {
      (forall h :: h in live ==> timeRef == Some(h)) &&
      (timeRef.Some? ==> timeRef.value < nextHandle)
    }

    /** Between events: the handles are in order, the effect has seen the current
        dependencies, and the state satisfies the machine's invariant. */
    ghost predicate Valid()
      reads this
    {
      HandlesOk() && depActive == isActive && depPaused == isPaused && Inv(View())
    }

    /** At most one interval is ever live. */
    lemma AtMostOneLive()
      requires HandlesOk()
      ensures |live| <= 1
      ensures live != {} ==> live == {timeRef.value}
    {
      if live != {} {
        var h :| h in live;
        assert live == {h};
      }
    }

    /** Mount: the empty entry, nothing on the clock, and the mount-time effect (whose
        dependencies are both false) arms no interval. */
    constructor ()
      ensures Valid() && View() == Initial
      ensures timeRef == None && live == {}
    {
      duration := None;
      timeLeft := 0;
      isActive := false;
      isPaused := false;
      timeRef := None;
      live := {};
      nextHandle := 0;
      depActive := false;
      depPaused := false;
    }

    /** `if (timeRef.current) clearInterval(timeRef.current)`. */
    method ClearRef()
      requires HandlesOk()
      modifies this`live
      ensures HandlesOk() && live == {}
    {
      if timeRef.Some? {
        live := live - {timeRef.value};
      }
    }

    /** `timeRef.current = setInterval(...)`: a new handle, now the referenced one. */
    method Arm()
      requires HandlesOk() && live == {}
      modifies this`live, this`timeRef, this`nextHandle
      ensures HandlesOk() && live == {old(nextHandle)} && nextHandle == old(nextHandle) + 1
    {
      timeRef := Some(nextHandle);
      live := {nextHandle};
      nextHandle := nextHandle + 1;
    }

    /** The interval effect (lines 53-70) after a re-render. When a dependency has changed,
        the previous run's cleanup clears the referenced interval first, and a new one is
        armed only when active and not paused; otherwise nothing runs. */
    method RunEffect()
      requires HandlesOk()
      modifies this`live, this`timeRef, this`nextHandle, this`depActive, this`depPaused
      ensures HandlesOk() && depActive == isActive && depPaused == isPaused
      ensures View() == Effect(old(depActive), old(depPaused), old(View()))
      ensures live <= old(live) || live == {old(nextHandle)}
      ensures old(isActive != depActive || isPaused != depPaused) ==> live <= {old(nextHandle)}
      ensures old(isActive == depActive && isPaused == depPaused) ==>
        live == old(live) && timeRef == old(timeRef) && nextHandle == old(nextHandle)
    {
      if isActive != depActive || isPaused != depPaused {
        ClearRef();
        if isActive && !isPaused {
          Arm();
        }
        depActive, depPaused := isActive, isPaused;
      }
    }

    /** `handleSetDuration` and the re-render after it. */
    method HandleSetDuration()
      requires Valid()
      modifies this
      ensures Valid() && View() == SetDuration(old(View()))
      ensures live <= old(live) || live == {old(nextHandle)}
    {
      if duration.Some? && duration.value > 0 {
        timeLeft := duration.value;
        isActive := true;
        isPaused := false;
        ClearRef();
      }
      RunEffect();
      StepKeepsInv(old(View()), PressSet);
    }

    /** Set as evidently intended: a positive numeric entry clears the referenced interval and
        arms a fresh one whatever the previous state, as if the effect also re-ran on every
        accepted Set. */
    method HandleSetDurationRestart()
      requires Valid()
      modifies this
      ensures Valid() && View() == SetDurationRestart(old(View()))
      ensures live <= old(live) || live == {old(nextHandle)}
      ensures old(duration.Some? && duration.value > 0) ==> live == {old(nextHandle)}
    {
      if duration.Some? && duration.value > 0 {
        timeLeft := duration.value;
        isActive := true;
        isPaused := false;
        ClearRef();
        Arm();
        depActive, depPaused := true, false;
      }
      SetDurationRestartRuns(old(View()));
    }

    /** `handleStart` and the re-render after it. */
    method HandleStart()
      requires Valid()
      modifies this
      ensures Valid() && View() == Start(old(View()))
      ensures live <= old(live) || live == {old(nextHandle)}
      ensures old(isActive && !isPaused) ==> live == old(live) && timeRef == old(timeRef)
    {
      if timeLeft > 0 {
        isActive := true;
        isPaused := false;
      }
      RunEffect();
      StepKeepsInv(old(View()), PressStart);
    }

    /** `handlePause` and the re-render after it. */
    method HandlePause()
      requires Valid()
      modifies this
      ensures Valid() && View() == Pause(old(View()))
      ensures live == {}
    {
      if isActive {
        isPaused := true;
        isActive := false;
        ClearRef();
      }
      RunEffect();
      StepKeepsInv(old(View()), PressPause);
    }

    /** `handleReset` and the re-render after it. */
    method HandleReset()
      requires Valid()
      modifies this
      ensures Valid() && View() == Reset(old(View()))
      ensures live == {}
    {
      isActive := false;
      isPaused := false;
      timeLeft := if duration.Some? then duration.value else 0;
      ClearRef();
      RunEffect();
      StepKeepsInv(old(View()), PressReset);
    }

    /** `handleDurationChange` with the input already read as a whole number; the re-render
        changes no dependency, so no effect runs. */
    method HandleDurationChange(entered: int)
      requires Valid()
      modifies this`duration
      ensures Valid() && View() == DurationChange(old(View()), entered)
    {
      duration := if entered == 0 then None else Some(entered);
    }

    /** The interval `h` fires: the functional update of lines 56-61. Only a live interval
        fires, and it is always the referenced one, so no second is counted twice. */
    method Tick(h: nat)
      requires Valid() && h in live
      modifies this`timeLeft, this`live
      ensures old(timeRef) == Some(h)
      ensures Valid() && View() == TimerSpec.Tick(old(View()))
      ensures live <= old(live)
    {
      if timeLeft <= 1 {
        ClearRef();
        timeLeft := 0;
      } else {
        timeLeft := timeLeft - 1;
      }
    }
  }

  /** The object through a whole countdown: enter 5 and Set, two ticks, Pause, Start, three
      ticks. The values read at each stage and what is live at the end. */
  method PauseResumeScenario() returns (afterTwo: int, paused: int, final: int, active: bool, ticking: bool)
    ensures afterTwo == 3 && paused == 3 && final == 0
    ensures active && !ticking
  {
    var t := new Timer();
    t.HandleDurationChange(5);
    t.HandleSetDuration();
    var h :| h in t.live;
    t.Tick(h);
    t.Tick(h);
    afterTwo := t.timeLeft;
    t.HandlePause();
    paused := t.timeLeft;
    t.HandleStart();
    h :| h in t.live;
    t.Tick(h);
    t.Tick(h);
    t.Tick(h);
    final, active, ticking := t.timeLeft, t.isActive, t.live != {};
  }

  /** As written, Set on a finished countdown: enter 2 and Set, two ticks to 0, Set again.
      `timeLeft` is back at 2 and the component is active and unpaused, but no interval is
      live, and Start does not arm one either. */
  method SetAfterFinishScenario() returns (shown: int, active: bool, paused: bool, ticking: bool)
    ensures shown == 2 && active && !paused && !ticking
  {
    var t := new Timer();
    t.HandleDurationChange(2);
    t.HandleSetDuration();
    var h :| h in t.live;
    t.Tick(h);
    t.Tick(h);
    t.HandleSetDuration();
    t.HandleStart();
    shown, active, paused, ticking := t.timeLeft, t.isActive, t.isPaused, t.live != {};
  }

  /** The same steps with the corrected Set: the second Set starts a countdown from 2 that
      two more ticks bring to 0. */
  method SetAfterFinishRestartScenario() returns (shown: int, ticking: bool, final: int)
    ensures shown == 2 && ticking && final == 0
  {
    var t := new Timer();
    t.HandleDurationChange(2);
    t.HandleSetDurationRestart();
    var h :| h in t.live;
    t.Tick(h);
    t.Tick(h);
    t.HandleSetDurationRestart();
    shown, ticking := t.timeLeft, t.live != {};
    h :| h in t.live;
    t.Tick(h);
    t.Tick(h);
    final := t.timeLeft;
  }
}
