/** The session state machine of `TimerWindow`, without its widgets. The countdown, the
    work/break flag, the session counter, the one-second timer, the micro-rest timer and the
    modal dialogs are state; every handler of the window is a function from state to state
    (the specification), and the class `TimerWindow` performs the same handlers on fields.
    Both timers count whole seconds and are advanced together by one tick. */
module Pomodoro {
  import opened Wrappers
  import opened Display
  import opened Notifications

  /** The user's settings as the timer reads them: durations in minutes, the number of
      sessions before a long rest, and two feature switches. */
  datatype Settings = Settings(
    runTime: int,
    restTime: int,
    longRestTime: int,
    sessionsBeforeLongRest: int,
    activateMicroRest: bool,
    displaySessionCounter: bool)

  /** Durations are positive minutes; the long-rest slider ranges over 2..10. */
  predicate ValidSettings(s: Settings) {
    s.runTime >= 1 && s.restTime >= 1 && s.longRestTime >= 1
    && 2 <= s.sessionsBeforeLongRest <= 10
  }

  /** `MICRO_REST_MIN` and `MICRO_REST_MAX` (bounds of the random delay before a micro-rest,
      in seconds) and `MICRO_REST_DURATION` (length of a micro-rest, in seconds). */
  datatype MicroRestConstants = MicroRestConstants(minDelay: int, maxDelay: int, duration: int)

  predicate ValidConstants(k: MicroRestConstants) {
    0 <= k.minDelay <= k.maxDelay && k.duration >= 1
  }

  /** A value `random.randint(MICRO_REST_MIN, MICRO_REST_MAX)` can return. */
  predicate ValidDelay(k: MicroRestConstants, delay: int) {
    k.minDelay <= delay <= k.maxDelay
  }

  /** The modal dialog currently open over the window, if any. */
  datatype Prompt =
    | NoPrompt
    | SessionEnd(message: string)       // NotificationWindow, waiting for "Start Next Session" or "Stop Timer"
    | MicroRest(dialog: Countdown)      // MicroRestNotification

  datatype WindowState = WindowState(
    remainingTime: int,                 // seconds left in the current work period or break
    isBreak: bool,
    sessionCount: int,
    timerActive: bool,                  // the one-second `timer`
    microRestActive: bool,              // `micro_rest_timer`
    microRestInterval: int,             // its interval, in seconds
    microRestLeft: int,                 // seconds until it fires; -1 while it is stopped
    timeLabel: string,
    sessionLabel: Option<string>,       // present only when the session counter is displayed
    prompt: Prompt,
    closed: bool,                       // the window was closed and the settings window shown
    soundsPlayed: nat)                  // how often the notification sound was started

  function SessionText(n: int): string {
    "Session: " + Decimal(n)
  }

  /** Full length, in seconds, of a phase: the work period, or the break that follows work
      session `sessionCount` (long when the count is a multiple of `sessions_before_long_rest`). */
  function PhaseSeconds(s: Settings, isBreak: bool, sessionCount: int): int
    requires ValidSettings(s)
  {
    if !isBreak then s.runTime * 60
    else if sessionCount % s.sessionsBeforeLongRest == 0 then s.longRestTime * 60
    else s.restTime * 60
  }

  /** What holds of the window between any two handlers. */
  ghost predicate Inv(s: Settings, k: MicroRestConstants, w: WindowState) {
    && ValidSettings(s) && ValidConstants(k)
    && w.sessionCount >= 1
    && 0 <= w.remainingTime <= PhaseSeconds(s, w.isBreak, w.sessionCount)
    && w.timeLabel == Clock(w.remainingTime)
    && w.sessionLabel == (if s.displaySessionCounter then Some(SessionText(w.sessionCount)) else None)
    // unless the end-of-phase prompt is open or the window closed, some time is left to count down
    && (!w.prompt.SessionEnd? && !w.closed ==> w.remainingTime >= 1)
    // the one-second timer runs only while no dialog is open and the window is open
    && (w.timerActive ==> w.prompt.NoPrompt? && !w.closed)
    // a micro-rest is armed only during running work, with a delay drawn from the range
    && (w.microRestActive ==>
          && w.timerActive && !w.isBreak && s.activateMicroRest
          && ValidDelay(k, w.microRestInterval)
          && 0 <= w.microRestLeft <= w.microRestInterval)
    && (!w.microRestActive ==> w.microRestLeft == -1)
    && (w.prompt.MicroRest? ==> CountdownInv(w.prompt.dialog, k.duration) && !w.isBreak)
    && (w.closed ==> w.prompt.NoPrompt?)
    // the open end-of-phase prompt names the phase that has just ended
    && (w.prompt.SessionEnd? ==> w.prompt.message == PromptMessage(w.isBreak))
  }

  /** `timer.stop()` and `micro_rest_timer.stop()`. */
  function StopTimers(w: WindowState): WindowState {
    w.(timerActive := false, microRestActive := false, microRestLeft := -1)
  }

  /** `start_micro_rest_timer`: arms the micro-rest timer with the drawn delay when micro-rests
      are switched on and the window is in a work period; otherwise changes nothing. */
  function StartMicroRestTimer(s: Settings, w: WindowState, delay: int): (r: WindowState)
    ensures s.activateMicroRest && !w.isBreak ==>
              r.microRestActive && r.microRestInterval == delay && r.microRestLeft == delay
    ensures !(s.activateMicroRest && !w.isBreak) ==> r == w
    ensures r.(microRestActive := w.microRestActive, microRestInterval := w.microRestInterval,
               microRestLeft := w.microRestLeft) == w
  {
    if s.activateMicroRest && !w.isBreak then
      w.(microRestActive := true, microRestInterval := delay, microRestLeft := delay)
    else w
  }

  /** `start_timer`: shows the clock face, (re)starts the one-second timer and, in a work
      period, arms the micro-rest timer with a fresh delay. The countdown, the phase and the
      session count are left alone. */
  function StartTimer(s: Settings, w: WindowState, delay: int): (r: WindowState)
    ensures r.timerActive && r.timeLabel == Clock(w.remainingTime)
    ensures r.remainingTime == w.remainingTime && r.isBreak == w.isBreak && r.sessionCount == w.sessionCount
    ensures r.prompt == w.prompt && r.closed == w.closed && r.sessionLabel == w.sessionLabel
    ensures r.soundsPlayed == w.soundsPlayed
    ensures !w.microRestActive ==> (r.microRestActive <==> s.activateMicroRest && !w.isBreak)
    ensures s.activateMicroRest && !w.isBreak ==> r.microRestLeft == delay && r.microRestInterval == delay
    ensures !(s.activateMicroRest && !w.isBreak) ==>
              r.microRestActive == w.microRestActive && r.microRestLeft == w.microRestLeft
  {
    var w1 := w.(timeLabel := Clock(w.remainingTime), timerActive := true);
    if !w1.isBreak then StartMicroRestTimer(s, w1, delay) else w1
  }

  /** `show_notification`, up to the point where it waits in `exec_()`: both timers stop and
      the end-of-phase prompt opens with the message for the phase that has just ended. */
  function ShowNotification(w: WindowState): (r: WindowState)
    ensures !r.timerActive && !r.microRestActive
    ensures r.prompt == SessionEnd(PromptMessage(w.isBreak))
    ensures r.remainingTime == w.remainingTime && r.isBreak == w.isBreak && r.sessionCount == w.sessionCount
    ensures r.timeLabel == w.timeLabel && r.closed == w.closed && r.soundsPlayed == w.soundsPlayed
  {
    StopTimers(w).(prompt := SessionEnd(PromptMessage(w.isBreak)))
  }

  /** `update_timer`: one timeout of the one-second timer. The countdown drops by exactly one
      and the clock face shows the new value; at or below 0 the notification sound plays and the
      end-of-phase prompt opens. */
  function UpdateTimer(w: WindowState): (r: WindowState)
    ensures r.remainingTime == w.remainingTime - 1 && r.timeLabel == Clock(r.remainingTime)
    ensures r.isBreak == w.isBreak && r.sessionCount == w.sessionCount
    ensures r.remainingTime <= 0 ==>
              && !r.timerActive && !r.microRestActive
              && r.prompt == SessionEnd(PromptMessage(w.isBreak))
              && r.soundsPlayed == w.soundsPlayed + 1
    ensures r.remainingTime > 0 ==> r == w.(remainingTime := r.remainingTime, timeLabel := r.timeLabel)
  {
    var t := w.remainingTime - 1;
    var w1 := w.(remainingTime := t, timeLabel := Clock(t));
    if t <= 0 then ShowNotification(w1.(soundsPlayed := w1.soundsPlayed + 1)) else w1
  }

  /** `toggle_session`. A break ends: back to work for the full run time, and only now the
      session count goes up by one. A work period ends: a break starts, long exactly when the
      (not yet incremented) session count is a multiple of `sessions_before_long_rest`. Either
      way the new phase starts at its full length. */
  function ToggleSession(s: Settings, w: WindowState): (r: WindowState)
    requires ValidSettings(s)
    ensures r.isBreak == !w.isBreak
    ensures w.isBreak ==> r.remainingTime == s.runTime * 60 && r.sessionCount == w.sessionCount + 1
    ensures !w.isBreak ==> r.sessionCount == w.sessionCount
    ensures !w.isBreak && w.sessionCount % s.sessionsBeforeLongRest == 0 ==> r.remainingTime == s.longRestTime * 60
    ensures !w.isBreak && w.sessionCount % s.sessionsBeforeLongRest != 0 ==> r.remainingTime == s.restTime * 60
    ensures r.remainingTime == PhaseSeconds(s, r.isBreak, r.sessionCount)
    ensures r.timerActive == w.timerActive && r.microRestActive == w.microRestActive
    ensures r.prompt == w.prompt && r.closed == w.closed && r.timeLabel == w.timeLabel
  {
    if w.isBreak then
      var c := w.sessionCount + 1;
      w.(isBreak := false, remainingTime := s.runTime * 60, sessionCount := c,
         sessionLabel := if s.displaySessionCounter then Some(SessionText(c)) else w.sessionLabel)
    else if w.sessionCount % s.sessionsBeforeLongRest == 0 then
      w.(isBreak := true, remainingTime := s.longRestTime * 60)
    else
      w.(isBreak := true, remainingTime := s.restTime * 60)
  }

  /** The end-of-phase prompt is accepted ("Start Next Session"): `toggle_session` then
      `start_timer`. */
  function AcceptNotification(s: Settings, w: WindowState, delay: int): (r: WindowState)
    requires ValidSettings(s)
    ensures r.prompt.NoPrompt? && r.timerActive && r.isBreak == !w.isBreak
    ensures r.remainingTime == PhaseSeconds(s, r.isBreak, r.sessionCount)
    ensures r.sessionCount == if w.isBreak then w.sessionCount + 1 else w.sessionCount
  {
    StartTimer(s, ToggleSession(s, w.(prompt := NoPrompt)), delay)
  }

  /** The end-of-phase prompt is rejected ("Stop Timer", or the dialog closed): the window
      closes with both timers already stopped. */
  function RejectNotification(w: WindowState): (r: WindowState)
    ensures r.closed && r.prompt.NoPrompt?
    ensures r.timerActive == w.timerActive && r.microRestActive == w.microRestActive
  {
    w.(prompt := NoPrompt, closed := true)
  }

  /** `show_micro_rest`, up to `exec_()`: in a work period both timers stop and the micro-rest
      dialog opens with a full countdown; during a break nothing happens. The countdown of the
      work period is left as it was. */
  function ShowMicroRest(k: MicroRestConstants, w: WindowState): (r: WindowState)
    ensures !w.isBreak ==> !r.timerActive && !r.microRestActive && r.prompt == MicroRest(OpenCountdown(k.duration))
    ensures w.isBreak ==> r == w
    ensures r.remainingTime == w.remainingTime && r.timeLabel == w.timeLabel && r.sessionCount == w.sessionCount
  {
    if !w.isBreak then StopTimers(w).(prompt := MicroRest(OpenCountdown(k.duration))) else w
  }

  /** The micro-rest timer times out. It is a repeating `QTimer`, so it starts its next
      interval, and `show_micro_rest` runs. */
  function MicroRestTimeout(k: MicroRestConstants, w: WindowState): (r: WindowState)
    ensures !w.isBreak ==> r == ShowMicroRest(k, w)
  {
    ShowMicroRest(k, w.(microRestLeft := w.microRestInterval))
  }

  /** The micro-rest dialog is accepted ("Continue"): `start_timer`, which resumes the countdown
      from where it stopped and arms the next micro-rest. */
  function AcceptMicroRest(s: Settings, w: WindowState, delay: int): (r: WindowState)
    ensures r.prompt.NoPrompt? && r.timerActive
    ensures r.remainingTime == w.remainingTime && r.isBreak == w.isBreak && r.sessionCount == w.sessionCount
    ensures s.activateMicroRest && !w.isBreak ==> r.microRestActive && r.microRestLeft == delay
  {
    StartTimer(s, w.(prompt := NoPrompt), delay)
  }

  /** The micro-rest dialog is dismissed without "Continue" (Escape rejects a `QDialog`): no
      branch runs, so both timers stay stopped until the pause button is pressed. */
  function DismissMicroRest(w: WindowState): (r: WindowState)
    ensures r.prompt.NoPrompt? && r.timerActive == w.timerActive && r.remainingTime == w.remainingTime
  {
    w.(prompt := NoPrompt)
  }

  /** `toggle_pause`: a running timer is paused (both timers stop); a stopped one is resumed
      through `start_timer`, which also draws a new micro-rest delay. */
  function TogglePause(s: Settings, w: WindowState, delay: int): (r: WindowState)
    ensures r.timerActive == !w.timerActive
    ensures w.timerActive ==> !r.microRestActive
    ensures r.remainingTime == w.remainingTime && r.isBreak == w.isBreak && r.sessionCount == w.sessionCount
    ensures r.prompt == w.prompt && r.closed == w.closed
  {
    if w.timerActive then StopTimers(w) else StartTimer(s, w, delay)
  }

  /** `skip_session`: the notification sound, then `show_notification`, whatever the countdown
      shows and whether or not the timer is paused. */
  function SkipSession(w: WindowState): (r: WindowState)
    ensures r.prompt == SessionEnd(PromptMessage(w.isBreak)) && !r.timerActive && !r.microRestActive
    ensures r.soundsPlayed == w.soundsPlayed + 1
    ensures r.remainingTime == w.remainingTime && r.isBreak == w.isBreak && r.sessionCount == w.sessionCount
  {
    ShowNotification(w.(soundsPlayed := w.soundsPlayed + 1))
  }

  /** `stop_timer`: both timers stop and the window closes. */
  function StopTimer(w: WindowState): (r: WindowState)
    ensures r.closed && !r.timerActive && !r.microRestActive
    ensures r.remainingTime == w.remainingTime && r.isBreak == w.isBreak && r.sessionCount == w.sessionCount
  {
    StopTimers(w).(closed := true)
  }

  /** One tick of the micro-rest timer: a second less to wait, and the timeout when none is left. */
  function MicroRestTimerTick(k: MicroRestConstants, w: WindowState): WindowState {
    var left := w.microRestLeft - 1;
    if left <= 0 then MicroRestTimeout(k, w) else w.(microRestLeft := left)
  }

  /** One second of wall time. Every active timer times out once: the micro-rest dialog's own
      countdown; then a micro-rest timer started with no delay (`start(0)` times out on the next
      pass of the event loop, long before a second is up); then the window's one-second timer;
      then the micro-rest timer if it is still armed. When the countdown and a delayed
      micro-rest are due in the same second, the countdown wins: its prompt stops the
      micro-rest timer. */
  function Tick(k: MicroRestConstants, w: WindowState): (r: WindowState)
    ensures !w.timerActive && !w.microRestActive && !w.prompt.MicroRest? ==> r == w
    ensures w.prompt.NoPrompt? && w.timerActive && !(w.microRestActive && w.microRestLeft == 0) ==>
              r.remainingTime == w.remainingTime - 1
    ensures w.prompt.NoPrompt? && w.microRestActive && w.microRestLeft == 0 && !w.isBreak ==>
              r == ShowMicroRest(k, w)
    ensures !w.timerActive ==> r.remainingTime == w.remainingTime
  {
    var w0 := if w.prompt.MicroRest? then w.(prompt := MicroRest(CountdownTick(w.prompt.dialog))) else w;
    var w1 := if w0.microRestActive && w0.microRestLeft == 0 then MicroRestTimeout(k, w0) else w0;
    var w2 := if w1.timerActive then UpdateTimer(w1) else w1;
    if w2.microRestActive then MicroRestTimerTick(k, w2) else w2
  }

  /** The initial state of `__init__`: the full run time, a work period, session 1, the label
      `f"{run_time:02d}:00"`, and then `start_timer`. */
  function Init(s: Settings, k: MicroRestConstants, delay: int): (r: WindowState)
    requires ValidSettings(s) && ValidConstants(k) && ValidDelay(k, delay)
    ensures Inv(s, k, r)
    ensures r.remainingTime == s.runTime * 60 && !r.isBreak && r.sessionCount == 1
    ensures r.timerActive && r.prompt.NoPrompt? && !r.closed
    ensures r.microRestActive <==> s.activateMicroRest
    ensures s.activateMicroRest ==> r.microRestLeft == delay
  {
    var w := WindowState(
      s.runTime * 60, false, 1, false, false, 0, -1, Pad2(s.runTime) + ":00",
      if s.displaySessionCounter then Some(SessionText(1)) else None,
      NoPrompt, false, 0);
    assert Clock(s.runTime * 60) == Pad2(s.runTime) + ":00";
    StartTimer(s, w, delay)
  }

  /** Everything that can happen to the window: a second passes, or a button is clicked. A
      delay is the draw `random.randint` makes if the command reaches `start_timer`. */
  datatype Command =
    | Second
    | Pause(delay: int)                 // the pause/play button
    | Skip                              // the skip button
    | Stop                              // the stop button
    | PromptAccept(delay: int)          // "Start Next Session"
    | PromptReject                      // "Stop Timer"
    | MicroRestAccept(delay: int)       // "Continue"
    | MicroRestReject                   // Escape on the micro-rest dialog

  predicate ValidCommand(k: MicroRestConstants, c: Command) {
    match c
    case Pause(d) => ValidDelay(k, d)
    case PromptAccept(d) => ValidDelay(k, d)
    case MicroRestAccept(d) => ValidDelay(k, d)
    case _ => true
  }

  /** The command the end-of-phase prompt turns into once `exec_()` returns `code`. */
  function PromptOutcome(code: DialogCode, delay: int): Command {
    match code
    case Accepted => PromptAccept(delay)
    case Rejected => PromptReject
  }

  /** Whether the command can reach the window: both dialogs are application-modal, a closed
      window takes no clicks, and "Continue" is disabled until the micro-rest count reaches 0. */
  predicate Enabled(w: WindowState, c: Command) {
    match c
    case Second => true
    case Pause(_) => w.prompt.NoPrompt? && !w.closed
    case Skip => w.prompt.NoPrompt? && !w.closed
    case Stop => w.prompt.NoPrompt? && !w.closed
    case PromptAccept(_) => w.prompt.SessionEnd?
    case PromptReject => w.prompt.SessionEnd?
    case MicroRestAccept(_) => w.prompt.MicroRest? && w.prompt.dialog.continueEnabled
    case MicroRestReject => w.prompt.MicroRest?
  }

  /** The effect of one command; a command that cannot reach the window has none. */
  function Step(s: Settings, k: MicroRestConstants, w: WindowState, c: Command): WindowState
    requires ValidSettings(s)
  {
    if !Enabled(w, c) then w
    else match c
      case Second => Tick(k, w)
      case Pause(d) => TogglePause(s, w, d)
      case Skip => SkipSession(w)
      case Stop => StopTimer(w)
      case PromptAccept(d) => AcceptNotification(s, w, d)
      case PromptReject => RejectNotification(w)
      case MicroRestAccept(d) => AcceptMicroRest(s, w, d)
      case MicroRestReject => DismissMicroRest(w)
  }

  /** The micro-rest dialog's own second keeps the invariant. */
  lemma DialogTickPreservesInv(s: Settings, k: MicroRestConstants, w: WindowState)
    requires Inv(s, k, w) && w.prompt.MicroRest?
    ensures Inv(s, k, w.(prompt := MicroRest(CountdownTick(w.prompt.dialog))))
  {
  }

  /** A timeout of the one-second timer keeps the invariant. */
  lemma UpdateTimerPreservesInv(s: Settings, k: MicroRestConstants, w: WindowState)
    requires Inv(s, k, w) && w.timerActive
    ensures Inv(s, k, UpdateTimer(w))
  {
  }

  /** A tick of the armed micro-rest timer keeps the invariant. */
  lemma MicroRestTimerTickPreservesInv(s: Settings, k: MicroRestConstants, w: WindowState)
    requires Inv(s, k, w) && w.microRestActive
    ensures Inv(s, k, MicroRestTimerTick(k, w))
  {
  }

  lemma TickPreservesInv(s: Settings, k: MicroRestConstants, w: WindowState)
    requires Inv(s, k, w)
    ensures Inv(s, k, Tick(k, w))
  {
    var w0 := if w.prompt.MicroRest? then w.(prompt := MicroRest(CountdownTick(w.prompt.dialog))) else w;
    if w.prompt.MicroRest? {
      DialogTickPreservesInv(s, k, w);
    }
    // a micro-rest timer with nothing left to wait fires exactly as one whose last second runs out
    if w0.microRestActive && w0.microRestLeft == 0 {
      MicroRestTimerTickPreservesInv(s, k, w0);
    }
    var w1 := if w0.microRestActive && w0.microRestLeft == 0 then MicroRestTimeout(k, w0) else w0;
    var w2 := if w1.timerActive then UpdateTimer(w1) else w1;
    if w1.timerActive {
      UpdateTimerPreservesInv(s, k, w1);
    }
    if w2.microRestActive {
      MicroRestTimerTickPreservesInv(s, k, w2);
    }
  }

  lemma AcceptNotificationPreservesInv(s: Settings, k: MicroRestConstants, w: WindowState, delay: int)
    requires Inv(s, k, w) && w.prompt.SessionEnd? && ValidDelay(k, delay)
    ensures Inv(s, k, AcceptNotification(s, w, delay))
  {
    var t := ToggleSession(s, w.(prompt := NoPrompt));
    assert t.sessionLabel == (if s.displaySessionCounter then Some(SessionText(t.sessionCount)) else None);
    assert Inv(s, k, t.(timeLabel := Clock(t.remainingTime)));
  }

  /** Every command keeps the invariant. */
  lemma StepPreservesInv(s: Settings, k: MicroRestConstants, w: WindowState, c: Command)
    requires Inv(s, k, w) && ValidCommand(k, c)
    ensures Inv(s, k, Step(s, k, w, c))
  {
    if Enabled(w, c) {
      match c
      case Second => TickPreservesInv(s, k, w);
      case PromptAccept(d) => AcceptNotificationPreservesInv(s, k, w, d);
      case _ =>
    }
  }
}
