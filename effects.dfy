/**
  What a run of the timer does that can be observed from outside, in the order
  it does it. Writes to the terminal, the progress bar's calls, the interrupt
  handler's installation and the foreign notification and audio calls each
  become one `Effect`; a foreign call's success or failure is an input.
*/
module Effects {

  /** The outcome of a best-effort foreign call, with its error text when it fails. */
  datatype StepResult = Succeeded | FailedWith(message: string)

  /** `println!` starts a fresh line; `print!` with a leading `\r` redraws the current one. */
  datatype LineMode = FreshLine | Overwrite

  datatype Effect =
    | Diagnostic(message: string)              // eprintln! to standard error
    | InstallInterruptHandler                   // ctrlc::set_handler
    | OpenAudioOutput                           // AudioPlayer::new
    | CreateBar(length: nat)                    // ProgressBar::new
    | SetPosition(position: nat)                // pb.set_position
    | ShowRemaining(remaining: nat, mode: LineMode) // writes Rendering.RemainingText(remaining, mode)
    | PrintLine(text: string)                   // println!
    | FinishBar(message: string)                // pb.finish_with_message
    | ShowNotification(summary: string, body: string, icon: string)
    | PlayAlarm                                 // AudioPlayer::play_alarm

  /** Effects that write to the terminal (standard output or standard error). */
  predicate IsTerminalOutput(e: Effect) {
    e.Diagnostic? || e.CreateBar? || e.SetPosition? || e.ShowRemaining? || e.PrintLine? || e.FinishBar?
  }

  /** `ep`: a diagnostic line on standard error, unless quiet. */
  function Ep(quiet: bool, message: string): (r: seq<Effect>)
    ensures r == [] <==> quiet
    ensures |r| <= 1
    ensures forall e :: e in r ==> e == Diagnostic(message)
  {
    if quiet then [] else [Diagnostic(message)]
  }

  const ZeroDurationError := "Error: Total duration must be greater than 0 seconds."
  const ZeroDurationHint :=
    "Specify desired time with -H/--hours, -M/--minutes and/or -S/--seconds arguments."
  const InterruptedMessage := "\nTimer interrupted!"
  const AudioPlayerFailurePrefix := "Failed to create audio player: "
  const NotificationFailurePrefix := "Failed to send notification: "
}
