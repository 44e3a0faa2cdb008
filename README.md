# UVtimer Pomodoro session machine, in Dafny

This project models the scheduling core of UVtimer, a desktop Pomodoro timer:

- `TimerWindow` (UVtimer/timer_window.py). It counts a work period down second by second and then asks, in a modal prompt, whether to start the break. After the break it asks again before returning to work. Every `sessions_before_long_rest`-th break is a long rest. During work, a second timer interrupts the countdown at a random moment with a micro-rest.
- The two dialogs (UVtimer/notifications.py):
  - the end-of-phase prompt `NotificationWindow`;
  - the micro-rest countdown `MicroRestNotification`, whose "Continue" button is enabled only once its count reaches 0.

Files:

- `wrappers.dfy` (module `Wrappers`): the `Option` type used for optional labels and for parse results.
- `display.dfy` (module `Display`): the label text. This covers Python's `str(n)`, `format(n, "02d")` and the clock face `MM:SS` built with `divmod(t, 60)`. Each one has a reader, and round-trip lemmas show that the text loses no value.
- `notifications.dfy` (module `Notifications`):
  - the prompt message and the button-to-result mapping;
  - the micro-rest countdown as a value (`Countdown`, `CountdownUpdate`) and as the class `MicroRestNotification`, whose methods update its fields in place and are proved to match the value functions.
- `pomodoro.dfy` (module `Pomodoro`): the window's state as a value (`WindowState`).
  - There is one function per handler of `TimerWindow`.
  - `Tick` is one second of wall time.
- `PromptOutcome` turns the result of the end-of-phase prompt into the command it stands for.
  - `Step` applies one command: a second passes or a button is clicked.
  - The invariant `Inv` holds between any two handlers. `StepPreservesInv` proves that every command keeps it.
- `timer_window.dfy` (module `Window`): the class `TimerWindow`.
  - Its fields are the fields of the Python class. The open dialog is an `Option` message, or a reference to a `MicroRestNotification`.
  - Each method updates fields in place and ensures `Abs() == Pomodoro.F(old(Abs()))`, where `F` is the handler's specification function.
  - The entry points keep the full invariant `Valid()`: the constructor, `Tick`, `TogglePause`, `SkipSession`, `StopTimer`, `AcceptNotification`, `RejectNotification`, `AcceptMicroRest` and `DismissMicroRest`.
  - The internal steps they call only keep `Wired()`, the part of `Valid()` that says the configuration is valid, at most one dialog is open, and an open micro-rest dialog keeps its own invariant: `StartMicroRestTimer`, `StartTimer`, `ShowNotification`, `UpdateTimer`, `ToggleSession` and `ShowMicroRest`.
- `properties.dfy` (module `Properties`): lemmas over `Run` (a sequence of commands) and `Ticks` (`n` seconds without clicks). They cover:
  - session counting;
  - the long-rest cadence;
  - pause and resume;
  - skip versus running the clock out;
  - the micro-rest keeping work time;
  - closing being final.

Modelling choices:

- Each modal `exec_()` is an explicit state of the window (`Prompt`). It is resolved by a command: `PromptAccept`/`PromptReject` for the end-of-phase prompt, `MicroRestAccept`/`MicroRestReject` for the micro-rest dialog.
- Both dialogs are application-modal, so `Step` ignores a click on the main window while a dialog is open, and every command once the window is closed. The class methods instead require the state in which their button can be clicked.
- Both `QTimer`s count whole seconds and are advanced by one `Tick`. Within one second, the order is:
  1. the micro-rest dialog's own timer;
  2. a micro-rest timer started with a delay of 0. `start(0)` times out on the next pass of the event loop, before the one-second timer can;
  3. the one-second timer (`update_timer`);
  4. the micro-rest timer, if it is still armed.

  The micro-rest timer keeps its interval and the seconds left. The seconds left are -1 while it is stopped, as `QTimer.remainingTime` reports it.
- The value drawn by `random.randint(MICRO_REST_MIN, MICRO_REST_MAX)` is a parameter of every handler that can start the timer (`ValidDelay`).
- `MICRO_REST_MIN`, `MICRO_REST_MAX` and `MICRO_REST_DURATION` are parameters with `0 <= MIN <= MAX` and `DURATION >= 1` (`ValidConstants`). UVtimer/constants.py is not part of this model.
- The durations in the settings are positive minutes. `sessions_before_long_rest` ranges over 2..10, the range of its slider (`ValidSettings`).
- The notification sound is modelled as a counter of plays (`soundsPlayed`).
- Closing the window is a `closed` flag.

Behaviour of the code worth knowing:

- `session_count` goes up when a break ends, not when a work period ends. The long-rest test reads the count of the work period that has just ended.
- Constructing the window starts the countdown at once (UVtimer/timer_window.py:127).
- Resuming from pause goes through `start_timer`, so it draws a new micro-rest delay instead of continuing the old one.
- The micro-rest does not resume work by itself when its countdown ends. "Continue" becomes clickable at 0, and only accepting the dialog restarts the countdown. Escape dismisses the dialog and leaves both timers stopped.
- Stopping, or declining the prompt, closes the window and opens the settings window (UVtimer/timer_window.py:194-197, 236-243). The timer takes no further input after that.
- Skip is clickable whenever no dialog is open, including while paused.

## Model

| member | source | states |
|---|---|---|
| Display.DecimalRoundTrip | UVtimer/notifications.py:95 | the text `str(n)` shown on the micro-rest label reads back as exactly `n`, for every integer |
| Display.Pad2RoundTrip | UVtimer/timer_window.py:30 | `format(n, "02d")` reads back as `n`, for every integer, negative ones included |
| Display.ClockShape | UVtimer/timer_window.py:173-174 | the clock face is the padded minutes, a colon, then exactly two digits of seconds whose tens digit is at most 5 (seconds 00..59) |
| Display.ClockRoundTrip | UVtimer/timer_window.py:181-182 | the clock face `divmod(t, 60)` as `MM:SS` reads back as exactly `t` seconds, so the label shows the countdown without loss |
| Notifications.PromptMessage | UVtimer/notifications.py:22 | the message is "Time to focus!" exactly when the finished phase was a break, and "Break time!" exactly when it was work |
| Notifications.ButtonResult | UVtimer/notifications.py:28-32 | the dialog is accepted exactly by "Start Next Session" and rejected exactly by "Stop Timer" |
| Notifications.ButtonFor | UVtimer/notifications.py:28-32 | each dialog result has a button that produces it, so both continuing and ending the cycle are reachable |
| Notifications.OpenCountdown | UVtimer/notifications.py:63-84 | the dialog opens with the count at `MICRO_REST_DURATION`, "Continue" disabled, and (for a duration of at least 1) its invariant established |
| Notifications.CountdownUpdate | UVtimer/notifications.py:90-98 | the count drops by exactly 1 and the label shows the new value; at or below 0 the timer stops and "Continue" is enabled; above 0 both stay as they were |
| Notifications.CountdownTick | UVtimer/notifications.py:81-84 | a stopped dialog timer changes nothing; a tick keeps the count within 0..duration, the label equal to `str(count)`, the timer running iff the count is positive and "Continue" enabled iff it is 0 |
| Notifications.CountdownTicksValue | UVtimer/notifications.py:94-98 | after `n` seconds the count is the old count minus `n`, stopping at exactly 0 and never below |
| Notifications.ContinueAfterFullCountdown | UVtimer/notifications.py:69-98 | "Continue" is enabled after `n` seconds if and only if `n >= MICRO_REST_DURATION`; the count is then `max(duration - n, 0)` |
| Notifications.MicroRestNotification.constructor | UVtimer/notifications.py:63-84 | the new dialog's fields are those of `OpenCountdown(MICRO_REST_DURATION)` and satisfy the countdown invariant |
| Notifications.MicroRestNotification.UpdateTimer | UVtimer/notifications.py:90-98 | updating the fields in place gives exactly `CountdownUpdate` of the old fields and keeps the invariant |
| Notifications.MicroRestNotification.Tick | UVtimer/notifications.py:81-84 | a second of the dialog gives exactly `CountdownTick` of the old fields and keeps the invariant |
| Pomodoro.StartMicroRestTimer | UVtimer/timer_window.py:213-216 | the micro-rest timer is armed with the drawn delay exactly when micro-rests are on and the phase is work; otherwise nothing changes; no other field changes |
| Pomodoro.StartTimer | UVtimer/timer_window.py:172-177 | the clock face shows the remaining time and the one-second timer runs; from a stopped micro-rest timer, a micro-rest is armed iff micro-rests are on and the phase is work, with the drawn delay; countdown, phase, count and dialogs are unchanged |
| Pomodoro.ShowNotification | UVtimer/timer_window.py:187-190 | both timers stop and the prompt opens with the message for the phase that ended; countdown, phase, count and label are unchanged |
| Pomodoro.UpdateTimer | UVtimer/timer_window.py:179-185 | the countdown drops by exactly 1 and the label is its clock face; at or below 0 the sound plays once and the prompt opens with both timers stopped; above 0 nothing else changes |
| Pomodoro.ToggleSession | UVtimer/timer_window.py:199-211 | the phase flips; a break ends into the full run time with the count up by exactly 1; work ends into a long rest iff `count % sessions_before_long_rest == 0`, else a short rest, with the count unchanged; the new countdown is the full length of the new phase |
| Pomodoro.AcceptNotification | UVtimer/timer_window.py:191-193 | accepting the prompt closes it, flips the phase, sets the full length of the new phase, counts a finished break, and leaves the timer running |
| Pomodoro.RejectNotification | UVtimer/timer_window.py:194-197 | declining the prompt closes the prompt and the window, with both timers left stopped |
| Pomodoro.ShowMicroRest | UVtimer/timer_window.py:218-222 | in a work period both timers stop and the micro-rest dialog opens at its full duration; in a break nothing changes; the countdown and its label are never touched |
| Pomodoro.MicroRestTimeout | UVtimer/timer_window.py:124-125 | a timeout of the micro-rest timer during work is `show_micro_rest` |
| Pomodoro.AcceptMicroRest | UVtimer/timer_window.py:223-224 | "Continue" closes the dialog and restarts the countdown from where it stopped, re-arming the micro-rest with the new draw when micro-rests are on |
| Pomodoro.DismissMicroRest | UVtimer/timer_window.py:223-224 | a dialog closed without "Continue" closes it and leaves the countdown and the stopped timers as they were |
| Pomodoro.TogglePause | UVtimer/timer_window.py:226-234 | the one-second timer flips between running and stopped; pausing also stops the micro-rest timer; countdown, phase, count, dialogs and closed state are unchanged |
| Pomodoro.SkipSession | UVtimer/timer_window.py:142-144 | whatever the countdown, the sound plays once and the prompt for the current phase opens with both timers stopped; countdown, phase and count are unchanged |
| Pomodoro.StopTimer | UVtimer/timer_window.py:236-243 | both timers stop and the window closes; countdown, phase and count are unchanged |
| Pomodoro.Tick | UVtimer/timer_window.py:118-125 | with no timer running and no dialog counting, a second changes nothing; with the one-second timer running, no dialog and no micro-rest started with delay 0, the countdown drops by exactly 1; a micro-rest started with delay 0 during work is `show_micro_rest` before the countdown moves; with the one-second timer stopped, the countdown does not move |
| Pomodoro.Init | UVtimer/timer_window.py:118-127 | the window starts in work session 1 at the full run time with the countdown running, a micro-rest armed iff micro-rests are on, and the invariant established |
| Pomodoro.TickPreservesInv | UVtimer/timer_window.py:179-222 | a second of wall time keeps the invariant: countdown within 0..phase length, label equal to the clock face, at most one dialog, no timer running under a dialog or after closing |
| Pomodoro.AcceptNotificationPreservesInv | UVtimer/timer_window.py:191-211 | accepting the prompt keeps the invariant |
| Pomodoro.StepPreservesInv | UVtimer/timer_window.py:142-243 | every command, with a random draw in range, keeps the invariant |
| Window.TimerWindow.constructor | UVtimer/timer_window.py:118-127 | the fields after `__init__` are the state `Init` and satisfy the invariant |
| Window.TimerWindow.StartMicroRestTimer | UVtimer/timer_window.py:213-216 | the new fields are `Pomodoro.StartMicroRestTimer` of the old |
| Window.TimerWindow.StartTimer | UVtimer/timer_window.py:172-177 | the new fields are `Pomodoro.StartTimer` of the old |
| Window.TimerWindow.ShowNotification | UVtimer/timer_window.py:187-190 | the new fields are `Pomodoro.ShowNotification` of the old |
| Window.TimerWindow.UpdateTimer | UVtimer/timer_window.py:179-185 | the new fields are `Pomodoro.UpdateTimer` of the old |
| Window.TimerWindow.ToggleSession | UVtimer/timer_window.py:199-211 | the new fields are `Pomodoro.ToggleSession` of the old |
| Window.TimerWindow.ShowMicroRest | UVtimer/timer_window.py:218-222 | the new fields, including a freshly opened dialog object, are `Pomodoro.ShowMicroRest` of the old |
| Window.TimerWindow.Tick | UVtimer/timer_window.py:118-125 | a second of wall time, performed on the window and its open dialog, gives `Pomodoro.Tick` of the old state and keeps the invariant |
| Window.TimerWindow.TogglePause | UVtimer/timer_window.py:226-234 | the new state is `Pomodoro.TogglePause` of the old and the invariant holds |
| Window.TimerWindow.SkipSession | UVtimer/timer_window.py:142-144 | the new state is `Pomodoro.SkipSession` of the old and the invariant holds |
| Window.TimerWindow.StopTimer | UVtimer/timer_window.py:236-243 | the new state is `Pomodoro.StopTimer` of the old and the invariant holds |
| Window.TimerWindow.AcceptNotification | UVtimer/timer_window.py:191-193 | the new state is `Pomodoro.AcceptNotification` of the old and the invariant holds |
| Window.TimerWindow.RejectNotification | UVtimer/timer_window.py:194-197 | the new state is `Pomodoro.RejectNotification` of the old and the invariant holds |
| Window.TimerWindow.AcceptMicroRest | UVtimer/timer_window.py:223-224 | the new state is `Pomodoro.AcceptMicroRest` of the old and the invariant holds |
| Window.TimerWindow.DismissMicroRest | UVtimer/timer_window.py:223-224 | the new state is `Pomodoro.DismissMicroRest` of the old and the invariant holds |
| Properties.RunPreservesInv | UVtimer/timer_window.py:142-243 | after any sequence of seconds and clicks, with draws in range, the invariant still holds |
| Properties.StepSessionCount | UVtimer/timer_window.py:199-203 | one command raises the session count by at most 1, and only by accepting the prompt at the end of a break |
| Properties.SessionCountNeverDecreases | UVtimer/timer_window.py:199-203 | the session count never decreases over any sequence of commands |
| Properties.ClosedIsFinal | UVtimer/timer_window.py:236-243 | once the window is closed, no sequence of commands changes anything |
| Properties.StopAndRejectClose | UVtimer/timer_window.py:187-197 | pressing stop, or declining the prompt, closes the window with both timers stopped, and nothing happens afterwards |
| Properties.StoppedTicksChangeNothing | UVtimer/timer_window.py:226-229 | with both timers stopped and no dialog counting, any number of seconds changes nothing |
| Properties.PauseThenResume | UVtimer/timer_window.py:226-233 | pausing stops both timers; seconds later, resuming restarts the countdown with the same remaining time, phase, count and label, and arms a new micro-rest with the new draw |
| Properties.RunningSecond | UVtimer/timer_window.py:179-182 | a running second with more than one second left and no micro-rest due: the countdown and the micro-rest wait drop by 1, the label shows the new countdown, nothing else changes |
| Properties.LastSecond | UVtimer/timer_window.py:179-185 | the last second of a running countdown, with no micro-rest due before it, ends exactly where skip does, except that the countdown and its label read 0 |
| Properties.RunningOutMatchesSkip | UVtimer/timer_window.py:142-144 | with no micro-rest due first, running the countdown out reaches exactly the state skip reaches at once, except that the countdown and its label read 0 |
| Properties.RunningOutThenAccept | UVtimer/timer_window.py:142-144 | accepting the prompt reached by running the countdown out gives the same state as accepting the prompt skip opens |
| Properties.MicroRestInterrupts | UVtimer/timer_window.py:218-222 | a micro-rest due before the countdown ends fires after exactly its delay: both timers stop, the dialog opens at its full duration, and the work countdown has dropped by exactly the delay |
| Properties.MicroRestDialogTicks | UVtimer/timer_window.py:220 | while the micro-rest dialog is open only its own count moves; the work countdown is frozen |
| Properties.MicroRestKeepsWorkTime | UVtimer/timer_window.py:218-224 | a whole micro-rest: it fires, "Continue" does nothing before the full duration, and afterwards accepting resumes work with exactly the remaining time it had when it fired |
| Properties.WorkThenBreak | UVtimer/timer_window.py:199-211 | ending work session `c` starts a long rest iff `c % sessions_before_long_rest == 0`, with the count unchanged; ending that break returns to work session `c + 1` at the full run time |
| Properties.CyclesFromStart | UVtimer/timer_window.py:199-203 | after `j` full work-and-break cycles from the start, work session `j + 1` is running at the full run time |
| Properties.LongRestCadence | UVtimer/timer_window.py:206-211 | from the start, the `j`-th break is a long rest exactly when `j` is a multiple of `sessions_before_long_rest` |
| Properties.PromptAnnouncesNextPhase | UVtimer/notifications.py:22 | in every state the invariant allows, accepting the open prompt starts a break exactly when it said "Break time!" and work exactly when it said "Time to focus!" |
| Properties.PromptButtons | UVtimer/timer_window.py:191-197 | the result of the clicked button, as a command, continues into the next phase with the timer running exactly for "Start Next Session", and closes the window with the timer stopped exactly for "Stop Timer" |
| Properties.ZeroDelayMicroRestFirst | UVtimer/timer_window.py:215-221 | a micro-rest started with delay 0 fires before the one-second timer: the dialog opens, both timers stop, and the countdown and its label keep their values, even with one second left |

## Left out

- Qt widgets, layout, styling, painting, window dragging, the background image and its scaling, and the widgets in UVtimer/utils.py: presentation only.
- The pause button's icon (`icon_path`) and its repaint: presentation only, so the model does not say which icon shows.
- Media playback: the notification sound is a counter of plays, and the background music, including `background_music.stop()` in `stop_timer`, is not modelled. Both are foreign library calls and file I/O.
- The settings window, its sliders and `config.json`: UI and file I/O. Closing the timer window is modelled, but opening the settings window is not. Only the value ranges become preconditions.
- main.py and `load_stylesheet`: application start-up and file reads.
- Real time and the Qt event loop: the timers are whole-second countdowns. Sub-second phase is not modelled, nor any other order of two timers that fall due in the same second.
- A micro-rest timer started with delay 0 fires at the start of the next modelled second, before the one-second timer. In the model a click can still come between the start and the firing; in Qt that happens only if the click is already queued.
- The random generator: each draw is an input constrained to `MICRO_REST_MIN..MICRO_REST_MAX`.
- The micro-rest timer's automatic restart after a timeout is modelled, but nothing observes it: it can only matter in the break branch of `show_micro_rest`, which no reachable state enters.
