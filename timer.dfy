/**
  `main` (src/main.rs:138-240) after argument parsing: resolve the duration,
  install the interrupt handler, open the audio output, choose the display,
  count down, then notify and play the alarm. The foreign calls' outcomes and
  the interrupt flag's value at each poll are inputs; the run returns how it
  ended and everything it did, in order.
*/
module Timer {
  import opened Config
  import opened Effects
  import opened Rendering
  import opened CountdownLoop
  import opened Completion

  /**
    The world outside the program: what the interrupt flag reads at each tick's
    poll, and how opening the audio output, showing the notification and
    playing the alarm turn out.
  */
  datatype Environment = Environment(
    interrupts: seq<bool>,
    audioDevice: StepResult,
    notification: StepResult,
    playback: StepResult)

  /** `audio_player` is `Some` after startup: sound enabled and the output opened. */
  predicate PlayerCreated(args: CliArgs, env: Environment) {
    !args.disableSound && env.audioDevice.Succeeded?
  }

  /** Opening the audio output unless sound is disabled; a failure is only reported. */
  function AudioSetup(args: CliArgs, env: Environment): seq<Effect> {
    if args.disableSound then []
    else
      [OpenAudioOutput] +
      match env.audioDevice
      case Succeeded => []
      case FailedWith(e) => Ep(args.quiet, AudioPlayerFailurePrefix + e)
  }

  /**
    Startup after a positive duration is known: the interrupt handler, then
    the audio output, then the progress bar when the display calls for one.
  */
  function StartUpTrace(args: CliArgs, env: Environment, total: nat): seq<Effect> {
    [InstallInterruptHandler] + AudioSetup(args, env) +
    (if SelectDisplay(args).bar then [CreateBar(total)] else [])
  }

  /**
    Startup installs the handler first, opens the audio output once (second)
    exactly when sound is enabled, reports a failure to open it right after
    (unless quiet) and reports nothing else, and creates the bar last, with
    the countdown's length, exactly when the display calls for it.
  */
  lemma StartUpOrder(args: CliArgs, env: Environment, total: nat)
    ensures var r := StartUpTrace(args, env, total);
      && |r| > 0 && r[0] == InstallInterruptHandler
      && (OpenAudioOutput in r <==> !args.disableSound)
      && (forall i :: 0 <= i < |r| && r[i] == OpenAudioOutput ==> i == 1)
      && (!args.quiet && !args.disableSound && env.audioDevice.FailedWith? ==>
            |r| > 2 && r[2] == Diagnostic(AudioPlayerFailurePrefix + env.audioDevice.message))
      && (forall e :: e in r && e.Diagnostic? ==>
            !args.quiet && !args.disableSound && env.audioDevice.FailedWith?)
      && (CreateBar(total) in r <==> SelectDisplay(args).bar)
      && (forall i :: 0 <= i < |r| && r[i].CreateBar? ==> i == |r| - 1 && r[i] == CreateBar(total))
      && (forall e :: e in r ==>
            e.InstallInterruptHandler? || e.OpenAudioOutput? || e.Diagnostic? || e.CreateBar?)
      && (args.quiet ==> forall e :: e in r ==> !IsTerminalOutput(e))
  {
    var audio := AudioSetup(args, env);
    assert forall k :: 0 <= k < |audio| ==> (audio[k] == OpenAudioOutput <==> k == 0);
    assert forall k :: 0 <= k < |audio| ==> audio[k].OpenAudioOutput? || audio[k].Diagnostic?;
  }

  /** Startup as `main` performs it, step by step. */
  method StartUp(args: CliArgs, env: Environment, total: nat)
    returns (hasPlayer: bool, display: Display, trace: seq<Effect>)
    ensures hasPlayer == PlayerCreated(args, env)
    ensures display == SelectDisplay(args)
    ensures trace == StartUpTrace(args, env, total)
  {
    trace := [InstallInterruptHandler];
    hasPlayer := false;
    if !args.disableSound {
      trace := trace + [OpenAudioOutput];
      match env.audioDevice
      case Succeeded =>
        hasPlayer := true;
      case FailedWith(e) =>
        trace := trace + Ep(args.quiet, AudioPlayerFailurePrefix + e);
    }
    display := SelectDisplay(args);
    if display.bar {
      trace := trace + [CreateBar(total)];
    }
  }

  /**
    The trace of a run interrupted at the poll of tick `k`: startup, the
    output of the `k` ticks before it, and the interruption message.
  */
  predicate InterruptedAt(args: CliArgs, env: Environment, k: nat, trace: seq<Effect>) {
    var total := TotalSeconds(args);
    && k < total && Observed(env.interrupts, k) && NoInterruptBefore(env.interrupts, k)
    && trace == StartUpTrace(args, env, total) +
                (TicksOutput(SelectDisplay(args), total, k) + Ep(args.quiet, InterruptedMessage))
  }

  /** The trace of a run that expired: startup, every tick, the final output, then completion. */
  function ExpiredRunTrace(args: CliArgs, env: Environment): seq<Effect> {
    var total := TotalSeconds(args);
    var d := SelectDisplay(args);
    StartUpTrace(args, env, total) + (TicksOutput(d, total, total) + FinalOutput(d)) +
    CompletionSteps(args, total, PlayerCreated(args, env), env.notification, env.playback)
  }

  /** What startup may emit: the handler, the audio output, a report, the bar. */
  predicate StartUpKinds(startUp: seq<Effect>) {
    forall e :: e in startUp ==>
      e.InstallInterruptHandler? || e.OpenAudioOutput? || e.Diagnostic? || e.CreateBar?
  }

  /** Nothing in `effects` reaches the terminal. */
  predicate NothingOnTerminal(effects: seq<Effect>) {
    forall e :: e in effects ==> !IsTerminalOutput(e)
  }

  /**
    Startup, then display output, then the interruption message: no
    finish, notification or alarm, the message last, and silent when quiet.
  */
  lemma InterruptedConcat(quiet: bool, startUp: seq<Effect>, shown: seq<Effect>, message: seq<Effect>)
    requires StartUpKinds(startUp) && (quiet ==> NothingOnTerminal(startUp))
    requires forall e :: e in shown ==> e.SetPosition? || e.ShowRemaining?
    requires quiet ==> shown == []
    requires message == Ep(quiet, InterruptedMessage)
    ensures var trace := startUp + (shown + message);
      && (!quiet ==> trace[|trace| - 1] == Diagnostic(InterruptedMessage))
      && (forall e :: e in trace ==> !e.FinishBar? && !e.ShowNotification? && !e.PlayAlarm?)
      && (quiet ==> NothingOnTerminal(trace))
  {
    assert forall e :: e in startUp + (shown + message) ==> e in startUp || e in shown || e in message;
  }

  /**
    Startup, then display output, then completion: the notification and the
    alarm are exactly those of completion, and quiet stays silent.
  */
  lemma ExpiredConcat(quiet: bool, notification: Effect, startUp: seq<Effect>,
                      ticks: seq<Effect>, final: seq<Effect>, completion: seq<Effect>)
    requires StartUpKinds(startUp) && (quiet ==> NothingOnTerminal(startUp))
    requires forall e :: e in ticks ==> e.SetPosition? || e.ShowRemaining?
    requires forall e :: e in final ==> e.FinishBar? || e.PrintLine?
    requires quiet ==> ticks == [] && final == []
    requires forall e :: e in completion && e.ShowNotification? ==> e == notification
    requires quiet ==> NothingOnTerminal(completion)
    ensures var trace := startUp + (ticks + final) + completion;
      && (forall e :: e in trace && e.ShowNotification? ==> e == notification && e in completion)
      && (notification in completion ==> notification in trace)
      && (PlayAlarm in trace <==> PlayAlarm in completion)
      && (quiet ==> NothingOnTerminal(trace))
  {
    assert forall e :: e in startUp + (ticks + final) + completion ==>
      e in startUp || e in ticks || e in final || e in completion;
  }

  /**
    An interrupted run starts with the handler, ends with the interruption
    message (unless quiet), never finishes the display, never notifies and
    never plays the alarm; quiet, it writes nothing to the terminal.
  */
  lemma InterruptedTraceFacts(args: CliArgs, env: Environment, k: nat, trace: seq<Effect>)
    requires InterruptedAt(args, env, k, trace)
    ensures |trace| > 0 && trace[0] == InstallInterruptHandler
    ensures !args.quiet ==> trace[|trace| - 1] == Diagnostic(InterruptedMessage)
    ensures forall e :: e in trace ==> !e.FinishBar? && !e.ShowNotification? && !e.PlayAlarm?
    ensures args.quiet ==> NothingOnTerminal(trace)
  {
    var total := TotalSeconds(args);
    var startUp := StartUpTrace(args, env, total);
    StartUpOrder(args, env, total);
    InterruptedConcat(args.quiet, startUp, TicksOutput(SelectDisplay(args), total, k),
                      Ep(args.quiet, InterruptedMessage));
  }

  /**
    An expired run starts with the handler; it shows the notification, with
    exactly the expected title, body and icon, exactly when notifications are
    enabled; it plays the alarm exactly when the player was created; quiet,
    it writes nothing to the terminal.
  */
  lemma ExpiredTraceFacts(args: CliArgs, env: Environment)
    ensures var trace := ExpiredRunTrace(args, env);
      && |trace| > 0 && trace[0] == InstallInterruptHandler
      && (forall e :: e in trace && e.ShowNotification? ==>
            !args.disableNotifications &&
            e == ShowNotification(args.notificationTitle, NotificationBody(args, TotalSeconds(args)), NotificationIcon))
      && (!args.disableNotifications ==>
            ShowNotification(args.notificationTitle, NotificationBody(args, TotalSeconds(args)), NotificationIcon) in trace)
      && (PlayAlarm in trace <==> PlayerCreated(args, env))
      && (args.quiet ==> NothingOnTerminal(trace))
  {
    var total := TotalSeconds(args);
    var d := SelectDisplay(args);
    var startUp := StartUpTrace(args, env, total);
    var c := CompletionSteps(args, total, PlayerCreated(args, env), env.notification, env.playback);
    var n := ShowNotification(args.notificationTitle, NotificationBody(args, total), NotificationIcon);
    StartUpOrder(args, env, total);
    CompletionDecisions(args, total, PlayerCreated(args, env), env.notification, env.playback);
    ExpiredConcat(args.quiet, n, startUp, TicksOutput(d, total, total), FinalOutput(d), c);
  }

  method Run(args: CliArgs, env: Environment) returns (outcome: Outcome, trace: seq<Effect>)
    requires TotalFitsU64(args)
    // A zero duration is rejected before anything else happens, with exit code 1.
    ensures outcome == ConfigError <==> args.hours == 0 && args.minutes == 0 && args.seconds == 0
    ensures outcome == ConfigError ==>
      trace == Ep(args.quiet, ZeroDurationError) + Ep(args.quiet, ZeroDurationHint)
    // Otherwise the whole trace is startup, the ticks and either the final
    // output and completion, or the interruption message at the first set poll.
    ensures outcome == Expired ==> trace == ExpiredRunTrace(args, env)
    ensures outcome == Interrupted ==> exists k :: InterruptedAt(args, env, k, trace)
    // The interrupt handler is installed first.
    ensures outcome != ConfigError ==> |trace| > 0 && trace[0] == InstallInterruptHandler
    // The run is interrupted exactly when a poll during the countdown finds the flag set.
    ensures outcome != ConfigError ==>
      (outcome == Interrupted <==> !NoInterruptBefore(env.interrupts, TotalSeconds(args)))
    // An interrupted run ends with the interruption message and never finishes.
    ensures outcome == Interrupted && !args.quiet ==> trace[|trace| - 1] == Diagnostic(InterruptedMessage)
    ensures outcome == Interrupted ==>
      forall e :: e in trace ==> !e.FinishBar? && !e.ShowNotification? && !e.PlayAlarm?
    // A notification is shown only on expiry, only when enabled, and always with this content.
    ensures forall e :: e in trace && e.ShowNotification? ==>
      outcome == Expired && !args.disableNotifications &&
      e == ShowNotification(args.notificationTitle, NotificationBody(args, TotalSeconds(args)), NotificationIcon)
    ensures outcome == Expired && !args.disableNotifications ==>
      ShowNotification(args.notificationTitle, NotificationBody(args, TotalSeconds(args)), NotificationIcon) in trace
    // The alarm plays on expiry when the player was created, whatever the notification did.
    ensures PlayAlarm in trace <==> outcome == Expired && PlayerCreated(args, env)
    // Quiet mode writes nothing to the terminal.
    ensures args.quiet ==> NothingOnTerminal(trace)
  {
    var resolved := ResolveDuration(args);
    if resolved.None? {
      trace := Ep(args.quiet, ZeroDurationError) + Ep(args.quiet, ZeroDurationHint);
      return ConfigError, trace;
    }
    var total := resolved.value;
    var hasPlayer, display, startUp := StartUp(args, env, total);

    var loopOutcome, visited, ticks := Countdown(display, total, env.interrupts);
    trace := startUp + ticks;
    if loopOutcome == Interrupted {
      assert InterruptedAt(args, env, |visited|, trace);
      InterruptedTraceFacts(args, env, |visited|, trace);
      return Interrupted, trace;
    }

    trace := trace + CompletionSteps(args, total, hasPlayer, env.notification, env.playback);
    assert trace == ExpiredRunTrace(args, env);
    ExpiredTraceFacts(args, env);
    outcome := Expired;
  }

  /**
    The flag is polled before each one-second wait, never after the last one:
    a flag set only during the final second is not seen, and the run expires,
    finishing the display, notifying and playing the alarm, with exit code 0.
  */
  method LastSecondInterruptMissed(args: CliArgs, env: Environment)
    returns (outcome: Outcome, trace: seq<Effect>)
    requires TotalFitsU64(args) && TotalSeconds(args) > 0
    requires |env.interrupts| == TotalSeconds(args) + 1 && env.interrupts[TotalSeconds(args)]
    requires forall k :: 0 <= k < TotalSeconds(args) ==> !env.interrupts[k]
    ensures outcome == Expired && ExitCode(outcome) == 0
    ensures trace == ExpiredRunTrace(args, env)
  {
    outcome, trace := Run(args, env);
  }
}
