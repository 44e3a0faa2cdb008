/** `TimerWindow` itself: the handlers of the window performed on fields, each proved to end
    in the state its specification function in `Pomodoro` gives. */
module Window {
  import opened Wrappers
  import opened Display
  import opened Notifications
  import opened Pomodoro

  /** The class that performs the handlers on fields. `Abs()` reads its state as a
      `WindowState`; every handler ends in the state its specification function gives. */
  class TimerWindow {
    const settings: Settings
    const constants: MicroRestConstants
    var remainingTime: int
    var isBreak: bool
    var sessionCount: int
    var timerActive: bool
    var microRestActive: bool
    var microRestInterval: int
    var microRestLeft: int
    var timeLabel: string
    var sessionLabel: Option<string>
    var notification: Option<string>    // the message of the open end-of-phase prompt
    var microRest: MicroRestNotification?
    var closed: bool
    var soundsPlayed: nat

    function Abs(): WindowState
      reads this, microRest
    {
      WindowState(
        remainingTime, isBreak, sessionCount, timerActive, microRestActive,
        microRestInterval, microRestLeft, timeLabel, sessionLabel,
        if microRest != null then MicroRest(microRest.View())
        else if notification.Some? then SessionEnd(notification.value)
        else NoPrompt,
        closed, soundsPlayed)
    }

    /** The configuration is valid and at most one dialog is open. */
    ghost predicate Wired()
      reads this, microRest
    {
      && ValidSettings(settings) && ValidConstants(constants)
      && (microRest != null ==> notification.None? && microRest.Valid() && microRest.duration == constants.duration)
    }

    ghost predicate Valid()
      reads this, microRest
    {
      Wired() && Inv(settings, constants, Abs())
    }

    /** `__init__`: the state of `Init`, with the countdown already running. */
    constructor (settings: Settings, constants: MicroRestConstants, delay: int)
      requires ValidSettings(settings) && ValidConstants(constants) && ValidDelay(constants, delay)
      ensures Valid() && Abs() == Init(settings, constants, delay)
    {
      this.settings := settings;
      this.constants := constants;
      remainingTime := settings.runTime * 60;
      isBreak := false;
      sessionCount := 1;
      timerActive := false;
      microRestActive := false;
      microRestInterval := 0;
      microRestLeft := -1;
      timeLabel := Pad2(settings.runTime) + ":00";
      sessionLabel := if settings.displaySessionCounter then Some(SessionText(1)) else None;
      notification := None;
      microRest := null;
      closed := false;
      soundsPlayed := 0;
      new;
      StartTimer(delay);
    }

    method StartMicroRestTimer(delay: int)
      requires Wired()
      modifies this
      ensures Wired() && Abs() == Pomodoro.StartMicroRestTimer(settings, old(Abs()), delay)
    {
      if settings.activateMicroRest && !isBreak {
        microRestActive := true;
        microRestInterval := delay;
        microRestLeft := delay;
      }
    }

    method StartTimer(delay: int)
      requires Wired()
      modifies this
      ensures Wired() && Abs() == Pomodoro.StartTimer(settings, old(Abs()), delay)
    {
      timeLabel := Clock(remainingTime);
      timerActive := true;
      if !isBreak {
        StartMicroRestTimer(delay);
      }
    }

    method ShowNotification()
      requires Wired() && microRest == null
      modifies this
      ensures Wired() && microRest == null
      ensures Abs() == Pomodoro.ShowNotification(old(Abs()))
    {
      timerActive, microRestActive, microRestLeft := false, false, -1;
      notification := Some(PromptMessage(isBreak));
    }

    method UpdateTimer()
      requires Wired() && microRest == null
      modifies this
      ensures Wired() && microRest == null
      ensures Abs() == Pomodoro.UpdateTimer(old(Abs()))
    {
      remainingTime := remainingTime - 1;
      timeLabel := Clock(remainingTime);
      if remainingTime <= 0 {
        soundsPlayed := soundsPlayed + 1;
        ShowNotification();
      }
    }

    method ToggleSession()
      requires Wired()
      modifies this
      ensures Wired() && Abs() == Pomodoro.ToggleSession(settings, old(Abs()))
    {
      if isBreak {
        isBreak := false;
        remainingTime := settings.runTime * 60;
        sessionCount := sessionCount + 1;
        if settings.displaySessionCounter {
          sessionLabel := Some(SessionText(sessionCount));
        }
      } else {
        isBreak := true;
        if sessionCount % settings.sessionsBeforeLongRest == 0 {
          remainingTime := settings.longRestTime * 60;
        } else {
          remainingTime := settings.restTime * 60;
        }
      }
    }

    method ShowMicroRest()
      requires Wired() && microRest == null && notification.None?
      modifies this
      ensures Wired() && Abs() == Pomodoro.ShowMicroRest(constants, old(Abs()))
    {
      if !isBreak {
        timerActive, microRestActive, microRestLeft := false, false, -1;
        microRest := new MicroRestNotification(constants.duration);
      }
    }

    /** One second of wall time (see `Pomodoro.Tick`). */
    method Tick()
      requires Valid()
      modifies this, microRest
      ensures Valid() && Abs() == Pomodoro.Tick(constants, old(Abs()))
    {
      ghost var w := Abs();
      if microRest != null {
        microRest.Tick();
      }
      if microRestActive && microRestLeft == 0 {
        microRestLeft := microRestInterval;
        ShowMicroRest();
      }
      if timerActive {
        UpdateTimer();
      }
      if microRestActive {
        microRestLeft := microRestLeft - 1;
        if microRestLeft <= 0 {
          microRestLeft := microRestInterval;
          ShowMicroRest();
        }
      }
      StepPreservesInv(settings, constants, w, Second);
    }

    method TogglePause(delay: int)
      requires Valid() && microRest == null && notification.None? && !closed && ValidDelay(constants, delay)
      modifies this
      ensures Valid() && Abs() == Pomodoro.TogglePause(settings, old(Abs()), delay)
    {
      ghost var w := Abs();
      if timerActive {
        timerActive, microRestActive, microRestLeft := false, false, -1;
      } else {
        StartTimer(delay);
      }
      StepPreservesInv(settings, constants, w, Pause(delay));
    }

    method SkipSession()
      requires Valid() && microRest == null && notification.None? && !closed
      modifies this
      ensures Valid() && Abs() == Pomodoro.SkipSession(old(Abs()))
    {
      ghost var w := Abs();
      soundsPlayed := soundsPlayed + 1;
      ShowNotification();
      StepPreservesInv(settings, constants, w, Skip);
    }

    method StopTimer()
      requires Valid() && microRest == null && notification.None? && !closed
      modifies this
      ensures Valid() && Abs() == Pomodoro.StopTimer(old(Abs()))
    {
      ghost var w := Abs();
      timerActive, microRestActive, microRestLeft := false, false, -1;
      closed := true;
      StepPreservesInv(settings, constants, w, Stop);
    }

    /** `exec_()` of the end-of-phase prompt returned `Accepted`. */
    method AcceptNotification(delay: int)
      requires Valid() && notification.Some? && ValidDelay(constants, delay)
      modifies this
      ensures Valid() && Abs() == Pomodoro.AcceptNotification(settings, old(Abs()), delay)
    {
      ghost var w := Abs();
      notification := None;
      ToggleSession();
      StartTimer(delay);
      StepPreservesInv(settings, constants, w, PromptAccept(delay));
    }

    /** `exec_()` of the end-of-phase prompt returned `Rejected`. */
    method RejectNotification()
      requires Valid() && notification.Some?
      modifies this
      ensures Valid() && Abs() == Pomodoro.RejectNotification(old(Abs()))
    {
      ghost var w := Abs();
      notification := None;
      closed := true;
      StepPreservesInv(settings, constants, w, PromptReject);
    }

    /** `exec_()` of the micro-rest dialog returned `Accepted`. */
    method AcceptMicroRest(delay: int)
      requires Valid() && microRest != null && microRest.continueEnabled && ValidDelay(constants, delay)
      modifies this
      ensures Valid() && Abs() == Pomodoro.AcceptMicroRest(settings, old(Abs()), delay)
    {
      ghost var w := Abs();
      microRest := null;
      StartTimer(delay);
      StepPreservesInv(settings, constants, w, MicroRestAccept(delay));
    }

    /** `exec_()` of the micro-rest dialog returned `Rejected`. */
    method DismissMicroRest()
      requires Valid() && microRest != null
      modifies this
      ensures Valid() && Abs() == Pomodoro.DismissMicroRest(old(Abs()))
    {
      ghost var w := Abs();
      microRest := null;
      StepPreservesInv(settings, constants, w, MicroRestReject);
    }
  }
}
