/** What the window promises over many seconds and clicks, stated on the specification
    functions of `Pomodoro`. */
module Properties {
  import opened Wrappers
  import opened Display
  import opened Notifications
  import opened Pomodoro

  /** The state after a sequence of commands. */
  function Run(s: Settings, k: MicroRestConstants, w: WindowState, cmds: seq<Command>): WindowState
    requires ValidSettings(s)
    decreases |cmds|
  {
    if cmds == [] then w else Run(s, k, Step(s, k, w, cmds[0]), cmds[1..])
  }

  /** The state after `n` seconds with no clicks. */
  function Ticks(k: MicroRestConstants, w: WindowState, n: nat): WindowState
    decreases n
  {
    if n == 0 then w else Ticks(k, Tick(k, w), n - 1)
  }

  predicate ValidCommands(k: MicroRestConstants, cmds: seq<Command>) {
    forall i :: 0 <= i < |cmds| ==> ValidCommand(k, cmds[i])
  }

  lemma {:induction false} RunAppend(s: Settings, k: MicroRestConstants, w: WindowState, a: seq<Command>, b: seq<Command>)
    requires ValidSettings(s)
    ensures Run(s, k, w, a + b) == Run(s, k, Run(s, k, w, a), b)
    decreases |a|
  {
    if a == [] {
      assert a + b == b;
    } else {
      assert (a + b)[0] == a[0] && (a + b)[1..] == a[1..] + b;
      RunAppend(s, k, Step(s, k, w, a[0]), a[1..], b);
    }
  }

  lemma RunPair(s: Settings, k: MicroRestConstants, w: WindowState, x: Command, y: Command)
    requires ValidSettings(s)
    ensures Run(s, k, w, [x, y]) == Step(s, k, Step(s, k, w, x), y)
  {
    var a := Step(s, k, w, x);
    assert [x, y][1..] == [y];
    assert Run(s, k, w, [x, y]) == Run(s, k, a, [y]);
    assert [y][1..] == [];
    assert Run(s, k, a, [y]) == Run(s, k, Step(s, k, a, y), []);
  }

  /** The invariant holds after any sequence of commands whose random draws are in range. */
  lemma {:induction false} RunPreservesInv(s: Settings, k: MicroRestConstants, w: WindowState, cmds: seq<Command>)
    requires Inv(s, k, w) && ValidCommands(k, cmds)
    ensures Inv(s, k, Run(s, k, w, cmds))
    decreases |cmds|
  {
    if cmds != [] {
      StepPreservesInv(s, k, w, cmds[0]);
      RunPreservesInv(s, k, Step(s, k, w, cmds[0]), cmds[1..]);
    }
  }

  /** One command changes the session count at most by one, and only by accepting the prompt at
      the end of a break, which starts a work period. */
  lemma StepSessionCount(s: Settings, k: MicroRestConstants, w: WindowState, c: Command)
    requires ValidSettings(s)
    ensures var r := Step(s, k, w, c);
      || r.sessionCount == w.sessionCount
      || (r.sessionCount == w.sessionCount + 1 && c.PromptAccept? && w.isBreak && !r.isBreak)
  {
  }

  /** The session count never decreases. */
  lemma {:induction false} SessionCountNeverDecreases(s: Settings, k: MicroRestConstants, w: WindowState, cmds: seq<Command>)
    requires ValidSettings(s)
    ensures Run(s, k, w, cmds).sessionCount >= w.sessionCount
    decreases |cmds|
  {
    if cmds != [] {
      StepSessionCount(s, k, w, cmds[0]);
      SessionCountNeverDecreases(s, k, Step(s, k, w, cmds[0]), cmds[1..]);
    }
  }

  /** Once the window is closed (the stop button, or "Stop Timer" on the prompt), nothing
      changes it any more: no timer runs and no click reaches it. */
  lemma {:induction false} ClosedIsFinal(s: Settings, k: MicroRestConstants, w: WindowState, cmds: seq<Command>)
    requires Inv(s, k, w) && w.closed
    ensures Run(s, k, w, cmds) == w
    decreases |cmds|
  {
    if cmds != [] {
      assert Step(s, k, w, cmds[0]) == w;
      ClosedIsFinal(s, k, w, cmds[1..]);
    }
  }

  /** Both ways of leaving the prompt close the window for good. */
  lemma StopAndRejectClose(s: Settings, k: MicroRestConstants, w: WindowState, cmds: seq<Command>)
    requires Inv(s, k, w)
    ensures !w.closed && w.prompt.NoPrompt? ==>
      var r := Step(s, k, w, Stop);
      r.closed && !r.timerActive && !r.microRestActive && Run(s, k, r, cmds) == r
    ensures w.prompt.SessionEnd? ==>
      var r := Step(s, k, w, PromptReject);
      r.closed && !r.timerActive && !r.microRestActive && Run(s, k, r, cmds) == r
  {
    if !w.closed && w.prompt.NoPrompt? {
      StepPreservesInv(s, k, w, Stop);
      ClosedIsFinal(s, k, Step(s, k, w, Stop), cmds);
    }
    if w.prompt.SessionEnd? {
      StepPreservesInv(s, k, w, PromptReject);
      ClosedIsFinal(s, k, Step(s, k, w, PromptReject), cmds);
    }
  }

  /** While both timers are stopped and no micro-rest countdown is open, time passes without
      any effect. */
  lemma {:induction false} StoppedTicksChangeNothing(k: MicroRestConstants, w: WindowState, n: nat)
    requires !w.timerActive && !w.microRestActive && !w.prompt.MicroRest?
    ensures Ticks(k, w, n) == w
    decreases n
  {
    if n > 0 {
      StoppedTicksChangeNothing(k, Tick(k, w), n - 1);
    }
  }

  /** Pausing stops both timers; any number of seconds later, resuming restarts the one-second
      timer with the countdown, the phase, the session count and the clock face exactly as they
      were. Resuming goes through `start_timer`, so in a work period with micro-rests on it draws
      a fresh delay rather than continuing the old one. */
  lemma PauseThenResume(s: Settings, k: MicroRestConstants, w: WindowState, d0: int, n: nat, d: int)
    requires Inv(s, k, w) && w.timerActive && ValidDelay(k, d0) && ValidDelay(k, d)
    ensures var p := Step(s, k, w, Pause(d0));
      && !p.timerActive && !p.microRestActive
      && p.remainingTime == w.remainingTime && p.isBreak == w.isBreak && p.sessionCount == w.sessionCount
      && Ticks(k, p, n) == p
    ensures var q := Step(s, k, Ticks(k, Step(s, k, w, Pause(d0)), n), Pause(d));
      && q.timerActive
      && q.remainingTime == w.remainingTime && q.isBreak == w.isBreak && q.sessionCount == w.sessionCount
      && q.timeLabel == w.timeLabel
      && (q.microRestActive <==> s.activateMicroRest && !w.isBreak)
      && (q.microRestActive ==> q.microRestLeft == d)
  {
    var p := Step(s, k, w, Pause(d0));
    StoppedTicksChangeNothing(k, p, n);
  }

  /** A second of running work or break with more than one second left and no micro-rest due
      within it: the countdown and the micro-rest wait both drop by one, nothing else changes. */
  lemma RunningSecond(k: MicroRestConstants, w: WindowState)
    requires w.timerActive && w.prompt.NoPrompt? && w.remainingTime > 1
    requires w.microRestActive ==> w.microRestLeft > 1
    ensures Tick(k, w) == w.(remainingTime := w.remainingTime - 1, timeLabel := Clock(w.remainingTime - 1),
                             microRestLeft := if w.microRestActive then w.microRestLeft - 1 else w.microRestLeft)
  {
  }

  /** The last second of a running countdown, with no micro-rest due before it: the sound plays
      and the end-of-phase prompt opens as skip opens it, with the countdown at 0. */
  lemma LastSecond(k: MicroRestConstants, w: WindowState)
    requires w.timerActive && w.prompt.NoPrompt? && w.remainingTime == 1
    requires w.microRestActive ==> w.microRestLeft >= 1
    ensures Tick(k, w) == SkipSession(w).(remainingTime := 0, timeLabel := Clock(0))
  {
  }

  /** Running out the clock: with the micro-rest (if armed) not due before the countdown ends,
      `remainingTime` seconds later the window is exactly where the skip button takes it at
      once, except that the countdown reads 0 instead of its old value. */
  lemma {:induction false} RunningOutMatchesSkip(s: Settings, k: MicroRestConstants, w: WindowState)
    requires ValidSettings(s)
    requires w.timerActive && w.prompt.NoPrompt? && !w.closed && w.remainingTime >= 1
    requires w.microRestActive ==> w.microRestLeft >= w.remainingTime
    ensures Ticks(k, w, w.remainingTime) == Step(s, k, w, Skip).(remainingTime := 0, timeLabel := Clock(0))
    decreases w.remainingTime
  {
    if w.remainingTime > 1 {
      RunningSecond(k, w);
      RunningOutMatchesSkip(s, k, Tick(k, w));
    } else {
      LastSecond(k, w);
    }
  }

  /** Accepting the prompt reached by running out the clock leads to the same state as
      accepting the prompt that skip opens. */
  lemma RunningOutThenAccept(s: Settings, k: MicroRestConstants, w: WindowState, d: int)
    requires ValidSettings(s)
    requires w.timerActive && w.prompt.NoPrompt? && !w.closed && w.remainingTime >= 1
    requires w.microRestActive ==> w.microRestLeft >= w.remainingTime
    ensures AcceptNotification(s, Ticks(k, w, w.remainingTime), d) == AcceptNotification(s, Step(s, k, w, Skip), d)
  {
    RunningOutMatchesSkip(s, k, w);
  }

  /** An armed micro-rest that is due before the countdown ends interrupts it: both timers stop,
      the micro-rest dialog opens with its full count, and the countdown keeps the value it had
      when the micro-rest fired. */
  lemma {:induction false} MicroRestInterrupts(k: MicroRestConstants, w: WindowState)
    requires w.timerActive && w.prompt.NoPrompt? && !w.isBreak && w.microRestActive
    requires 1 <= w.microRestLeft < w.remainingTime
    ensures Ticks(k, w, w.microRestLeft) ==
      StopTimers(w).(remainingTime := w.remainingTime - w.microRestLeft,
                     timeLabel := Clock(w.remainingTime - w.microRestLeft),
                     prompt := MicroRest(OpenCountdown(k.duration)))
    decreases w.microRestLeft
  {
    if w.microRestLeft > 1 {
      var t := Tick(k, w);
      assert t == w.(remainingTime := w.remainingTime - 1, timeLabel := Clock(w.remainingTime - 1),
                     microRestLeft := w.microRestLeft - 1);
      MicroRestInterrupts(k, t);
    }
  }

  /** While the micro-rest dialog is open only its own countdown moves; the work countdown
      stands still. */
  lemma {:induction false} MicroRestDialogTicks(k: MicroRestConstants, w: WindowState, n: nat)
    requires w.prompt.MicroRest? && !w.timerActive && !w.microRestActive
    ensures Ticks(k, w, n) == w.(prompt := MicroRest(CountdownTicks(w.prompt.dialog, n)))
    decreases n
  {
    if n > 0 {
      MicroRestDialogTicks(k, Tick(k, w), n - 1);
    }
  }

  /** A whole micro-rest. It fires `microRestLeft` seconds into running work; for
      `MICRO_REST_DURATION` seconds "Continue" stays disabled, so clicking it has no effect;
      then it is enabled, and clicking it resumes the countdown from the value it had when the
      micro-rest fired (no work time passes during a micro-rest) with a freshly drawn delay. */
  lemma MicroRestKeepsWorkTime(s: Settings, k: MicroRestConstants, w: WindowState, n: nat, d: int)
    requires Inv(s, k, w) && w.timerActive && w.microRestActive && ValidDelay(k, d)
    requires 1 <= w.microRestLeft < w.remainingTime
    ensures var fired := Ticks(k, w, w.microRestLeft);
      && fired.prompt == MicroRest(OpenCountdown(k.duration)) && !fired.timerActive
      && fired.remainingTime == w.remainingTime - w.microRestLeft
    ensures var waiting := Ticks(k, Ticks(k, w, w.microRestLeft), n);
      n < k.duration ==> Step(s, k, waiting, MicroRestAccept(d)) == waiting
    ensures var done := Ticks(k, Ticks(k, w, w.microRestLeft), k.duration);
      var back := Step(s, k, done, MicroRestAccept(d));
      && done.prompt.MicroRest? && done.prompt.dialog.continueEnabled
      && back.prompt.NoPrompt? && back.timerActive && !back.isBreak
      && back.remainingTime == w.remainingTime - w.microRestLeft
      && back.microRestActive && back.microRestLeft == d
  {
    var fired := Ticks(k, w, w.microRestLeft);
    MicroRestInterrupts(k, w);
    MicroRestDialogTicks(k, fired, n);
    MicroRestDialogTicks(k, fired, k.duration);
    ContinueAfterFullCountdown(k.duration, n);
    ContinueAfterFullCountdown(k.duration, k.duration);
  }

  /** Four clicks that take a running work period through its break and back: skip, accept,
      skip, accept. */
  function Cycle(d: int): seq<Command> {
    [Skip, PromptAccept(d), Skip, PromptAccept(d)]
  }

  function Cycles(d: int, j: nat): seq<Command>
    decreases j
  {
    if j == 0 then [] else Cycles(d, j - 1) + Cycle(d)
  }

  /** Ending running work session `c` starts a break whose length is the long rest exactly
      when `c` is a multiple of `sessions_before_long_rest`; the count stays `c`. Ending that
      break starts work session `c + 1` at the full run time. */
  lemma WorkThenBreak(s: Settings, k: MicroRestConstants, w: WindowState, d: int)
    requires Inv(s, k, w) && w.timerActive && !w.isBreak && ValidDelay(k, d)
    ensures var b := Run(s, k, w, [Skip, PromptAccept(d)]);
      && b.isBreak && b.timerActive && b.sessionCount == w.sessionCount
      && b.remainingTime == (if w.sessionCount % s.sessionsBeforeLongRest == 0 then s.longRestTime else s.restTime) * 60
    ensures var r := Run(s, k, w, Cycle(d));
      && Inv(s, k, r) && !r.isBreak && r.timerActive
      && r.sessionCount == w.sessionCount + 1 && r.remainingTime == s.runTime * 60
  {
    var a := Step(s, k, w, Skip);
    var b := Step(s, k, a, PromptAccept(d));
    var c := Step(s, k, b, Skip);
    var r := Step(s, k, c, PromptAccept(d));
    RunPair(s, k, w, Skip, PromptAccept(d));
    RunPair(s, k, b, Skip, PromptAccept(d));
    assert Cycle(d) == [Skip, PromptAccept(d)] + [Skip, PromptAccept(d)];
    RunAppend(s, k, w, [Skip, PromptAccept(d)], [Skip, PromptAccept(d)]);
    StepPreservesInv(s, k, w, Skip);
    StepPreservesInv(s, k, a, PromptAccept(d));
    StepPreservesInv(s, k, b, Skip);
    StepPreservesInv(s, k, c, PromptAccept(d));
  }

  /** After `j` full cycles from the start, work session `j + 1` is running at the full run time. */
  lemma {:induction false} CyclesFromStart(s: Settings, k: MicroRestConstants, d0: int, d: int, j: nat)
    requires ValidSettings(s) && ValidConstants(k) && ValidDelay(k, d0) && ValidDelay(k, d)
    ensures var w := Run(s, k, Init(s, k, d0), Cycles(d, j));
      && Inv(s, k, w) && !w.isBreak && w.timerActive
      && w.sessionCount == j + 1 && w.remainingTime == s.runTime * 60
    decreases j
  {
    if j > 0 {
      CyclesFromStart(s, k, d0, d, j - 1);
      var w := Run(s, k, Init(s, k, d0), Cycles(d, j - 1));
      RunAppend(s, k, Init(s, k, d0), Cycles(d, j - 1), Cycle(d));
      WorkThenBreak(s, k, w, d);
    }
  }

  /** The long-rest cadence from the start: the `j`-th break is a long rest exactly when `j` is a
      multiple of `sessions_before_long_rest` (with 4, breaks 4, 8, 12, ... are long), and while
      it runs the session count is `j`. */
  lemma LongRestCadence(s: Settings, k: MicroRestConstants, d0: int, d: int, j: nat)
    requires ValidSettings(s) && ValidConstants(k) && ValidDelay(k, d0) && ValidDelay(k, d)
    requires j >= 1
    ensures var b := Run(s, k, Init(s, k, d0), Cycles(d, j - 1) + [Skip, PromptAccept(d)]);
      && b.isBreak && b.timerActive && b.sessionCount == j
      && b.remainingTime == (if j % s.sessionsBeforeLongRest == 0 then s.longRestTime else s.restTime) * 60
  {
    CyclesFromStart(s, k, d0, d, j - 1);
    var w := Run(s, k, Init(s, k, d0), Cycles(d, j - 1));
    RunAppend(s, k, Init(s, k, d0), Cycles(d, j - 1), [Skip, PromptAccept(d)]);
    WorkThenBreak(s, k, w, d);
  }

  /** The prompt announces what accepting it starts: "Break time!" exactly when a break follows,
      "Time to focus!" exactly when work follows. */
  lemma PromptAnnouncesNextPhase(s: Settings, k: MicroRestConstants, w: WindowState, d: int)
    requires Inv(s, k, w) && w.prompt.SessionEnd?
    ensures var r := Step(s, k, w, PromptAccept(d));
      && (w.prompt.message == BreakTime <==> r.isBreak)
      && (w.prompt.message == TimeToFocus <==> !r.isBreak)
  {
  }

  /** The buttons of the end-of-phase prompt drive the machine: the dialog result of the
      clicked button, turned into its command, continues into the next phase with the timer
      running exactly for "Start Next Session" and closes the window exactly for "Stop Timer". */
  lemma PromptButtons(s: Settings, k: MicroRestConstants, w: WindowState, caption: string, d: int)
    requires Inv(s, k, w) && w.prompt.SessionEnd? && ValidDelay(k, d) && ButtonResult(caption).Some?
    ensures var r := Step(s, k, w, PromptOutcome(ButtonResult(caption).value, d));
      && (caption == StartNextSessionLabel <==> !r.closed && r.timerActive && r.isBreak == !w.isBreak)
      && (caption == StopTimerLabel <==> r.closed && !r.timerActive)
  {
  }

  /** A micro-rest timer started with no delay fires before the one-second timer: even with one
      second of the countdown left, the micro-rest dialog opens and the countdown keeps its value. */
  lemma ZeroDelayMicroRestFirst(s: Settings, k: MicroRestConstants, w: WindowState)
    requires Inv(s, k, w) && w.microRestActive && w.microRestLeft == 0
    ensures var r := Tick(k, w);
      && r.prompt == MicroRest(OpenCountdown(k.duration)) && !r.timerActive && !r.microRestActive
      && r.remainingTime == w.remainingTime && r.timeLabel == w.timeLabel
  {
  }
}
