/** The two modal dialogs of the timer: the end-of-phase prompt (`NotificationWindow`) and the
    micro-rest countdown (`MicroRestNotification`). */
module Notifications {
  import opened Wrappers
  import opened Display

  /** What `QDialog.exec_()` returns once the dialog closes. */
  datatype DialogCode = Accepted | Rejected

  const TimeToFocus := "Time to focus!"
  const BreakTime := "Break time!"
  const StartNextSessionLabel := "Start Next Session"
  const StopTimerLabel := "Stop Timer"

  /** The end-of-phase message. It reads the parent's `is_break` while the phase that has just
      ended is still the current one: a finished break says "Time to focus!", a finished work
      period says "Break time!". */
  function PromptMessage(isBreak: bool): (m: string)
    ensures m == TimeToFocus <==> isBreak
    ensures m == BreakTime <==> !isBreak
  {
    if isBreak then TimeToFocus else BreakTime
  }

  /** The code `exec_()` returns when the button with this label is clicked:
      "Start Next Session" is wired to `accept`, "Stop Timer" to `reject`. */
  function ButtonResult(caption: string): (r: Option<DialogCode>)
    ensures r == Some(Accepted) <==> caption == StartNextSessionLabel
    ensures r == Some(Rejected) <==> caption == StopTimerLabel
  {
    if caption == StartNextSessionLabel then Some(Accepted)
    else if caption == StopTimerLabel then Some(Rejected)
    else None
  }

  /** The button that produces a dialog code; the two buttons are told apart by their labels. */
  function ButtonFor(code: DialogCode): (caption: string)
    ensures ButtonResult(caption) == Some(code)
  {
    match code
    case Accepted => StartNextSessionLabel
    case Rejected => StopTimerLabel
  }

  /** The state of a `MicroRestNotification` as a value: the count, the label that shows it,
      whether its one-second timer runs and whether "Continue" can be clicked. */
  datatype Countdown = Countdown(remainingTime: int, timeLabel: string, timerActive: bool, continueEnabled: bool)

  /** What holds of the dialog throughout its life, given `MICRO_REST_DURATION >= 1`: the count
      stays within 0..duration, the label shows it, the timer runs while the count is positive,
      and "Continue" is enabled exactly when the count is 0. */
  ghost predicate CountdownInv(d: Countdown, duration: int) {
    && 0 <= d.remainingTime <= duration
    && d.timeLabel == Decimal(d.remainingTime)
    && (d.timerActive <==> d.remainingTime > 0)
    && (d.continueEnabled <==> d.remainingTime == 0)
  }

  /** A freshly opened dialog: the count at `MICRO_REST_DURATION`, its timer started, "Continue" disabled. */
  function OpenCountdown(duration: int): (d: Countdown)
    ensures duration >= 1 ==> CountdownInv(d, duration)
    ensures d.remainingTime == duration && !d.continueEnabled
  {
    Countdown(duration, Decimal(duration), true, false)
  }

  /** `update_timer`: the count drops by one and the label shows the new value; at or below 0 the
      timer stops and "Continue" is enabled, otherwise both stay as they were. */
  function CountdownUpdate(d: Countdown): (r: Countdown)
    ensures r.remainingTime == d.remainingTime - 1
    ensures r.timeLabel == Decimal(r.remainingTime)
    ensures r.remainingTime <= 0 ==> !r.timerActive && r.continueEnabled
    ensures r.remainingTime > 0 ==> r.timerActive == d.timerActive && r.continueEnabled == d.continueEnabled
  {
    var t := d.remainingTime - 1;
    var r := d.(remainingTime := t, timeLabel := Decimal(t));
    if t <= 0 then r.(timerActive := false, continueEnabled := true) else r
  }

  /** One second of wall time: the dialog's timer calls `update_timer` only while it is active.
      The count therefore never goes below 0. */
  function CountdownTick(d: Countdown): (r: Countdown)
    ensures !d.timerActive ==> r == d
    ensures forall duration :: CountdownInv(d, duration) ==> CountdownInv(r, duration)
  {
    if d.timerActive then CountdownUpdate(d) else d
  }

  function CountdownTicks(d: Countdown, n: nat): Countdown
    decreases n
  {
    if n == 0 then d else CountdownTicks(CountdownTick(d), n - 1)
  }

  /** After `n` seconds the count has dropped by `n`, stopping at exactly 0. */
  lemma {:induction false} CountdownTicksValue(d: Countdown, duration: int, n: nat)
    requires CountdownInv(d, duration)
    ensures CountdownInv(CountdownTicks(d, n), duration)
    ensures CountdownTicks(d, n).remainingTime == if n < d.remainingTime then d.remainingTime - n else 0
    decreases n
  {
    if n > 0 {
      CountdownTicksValue(CountdownTick(d), duration, n - 1);
    }
  }

  /** "Continue" (and so the return to work) becomes possible after exactly
      `MICRO_REST_DURATION` seconds, never earlier. */
  lemma ContinueAfterFullCountdown(duration: int, n: nat)
    requires duration >= 1
    ensures CountdownTicks(OpenCountdown(duration), n).continueEnabled <==> n >= duration
    ensures CountdownTicks(OpenCountdown(duration), n).remainingTime == if n < duration then duration - n else 0
  {
    CountdownTicksValue(OpenCountdown(duration), duration, n);
  }

  /** The micro-rest dialog. Its timer ticks once a second and its "Continue" button accepts
      the dialog once enabled. */
  class MicroRestNotification {
    const duration: int
    var remainingTime: int
    var timeLabel: string
    var timerActive: bool
    var continueEnabled: bool

    function View(): Countdown
      reads this
    {
      Countdown(remainingTime, timeLabel, timerActive, continueEnabled)
    }

    ghost predicate Valid()
      reads this
    {
      CountdownInv(View(), duration)
    }

    constructor (duration: int)
      requires duration >= 1
      ensures Valid() && this.duration == duration
      ensures View() == OpenCountdown(duration)
    {
      this.duration := duration;
      remainingTime := duration;
      timeLabel := Decimal(duration);
      continueEnabled := false;
      timerActive := true;
    }

    /** `update_timer`, run by the dialog's active timer. */
    method UpdateTimer()
      requires Valid() && timerActive
      modifies this
      ensures Valid()
      ensures View() == CountdownUpdate(old(View()))
    {
      remainingTime := remainingTime - 1;
      timeLabel := Decimal(remainingTime);
      if remainingTime <= 0 {
        timerActive := false;
        continueEnabled := true;
      }
    }

    /** One second of wall time for the dialog. */
    method Tick()
      requires Valid()
      modifies this
      ensures Valid()
      ensures View() == CountdownTick(old(View()))
    {
      if timerActive {
        UpdateTimer();
      }
    }
  }
}
