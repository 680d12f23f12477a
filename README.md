# labt countdown timer — a Dafny model

`labt` is a command-line countdown timer. It adds up hours, minutes and
seconds into a total. A zero total is refused with exit code 1. Otherwise it
installs a Ctrl-C handler, opens the audio output unless sound is disabled, and
picks a display:

- a progress bar when neither quiet nor non-interactive;
- one line per second when non-interactive;
- nothing when quiet.

It then counts down one second per tick. At each tick it first polls the
interrupt flag: a set flag prints "Timer interrupted!" (unless quiet) and
exits with code 2. The flag is polled only before each tick's wait, so a flag
set during the final second is never seen.
On expiry it finishes the display, shows a desktop notification unless
notifications are disabled, and plays the alarm when the audio output was
opened. A failure of either is reported on stderr unless quiet, and the run
still ends normally.

The model covers all of that as follows.

- `Clock.FormatDuration` renders `HH:MM:SS`. Partner parsers read the text
  back: `Clock.ParseClock` for the clock text and `Completion.ParseDefaultBody`
  for the default notification body.
- `Timer.Run` records what a run does as a trace of `Effects.Effect` values:
  diagnostics, display updates, the notification and the alarm, in order. It
  also returns how the run ended, which `CountdownLoop.ExitCode` maps to the
  exit code.
- The environment is an input (`Timer.Environment`):
  - `interrupts[k]` is the interrupt flag's value at the poll of tick `k`
    (counting from 0);
  - each foreign step (opening audio, showing the notification, playing the
    alarm) is given as `Succeeded` or `FailedWith(message)`.
- The countdown loop is an imperative method, `CountdownLoop.Countdown`. It is
  proved against the specification functions `RemainingValues`, `TicksOutput`
  and `FinalOutput`.

Modules follow the program's parts:

| module | covers |
|---|---|
| `Text` | digits and decimal parsing |
| `Clock` | `format_duration` |
| `Config` | the arguments and the duration resolution |
| `Effects` | the effects and `ep` |
| `Rendering` | display choice and per-tick output |
| `CountdownLoop` | the countdown |
| `Completion` | notification and alarm |
| `Timer` | `main` |

## Model

| member | source | states |
|---|---|---|
| `Clock.Split` | src/main.rs:15-17 | hours, minutes and seconds recombine to the total, with minutes and seconds below 60 |
| `Clock.SplitUnique` | src/main.rs:15-17 | the split is the only such decomposition: any in-range triple is the split of its own total |
| `Clock.Pad2` | src/main.rs:18 | `{:02}` yields only digits, at least two of them, exactly two iff the value is below 100, and a leading zero only below 10 |
| `Clock.Pad2Value` | src/main.rs:18 | the padded text reads back as the value it was made from |
| `Clock.FormatDuration` | src/main.rs:14-19 | the text is at least 8 characters long, with colons exactly at the two fixed offsets from the end and digits everywhere else; it starts with `0` only below 10 hours |
| `Clock.FormatRoundTrip` | src/main.rs:14-19 | parsing the formatted text gives back exactly the split of the total |
| `Clock.FormatInjective` | src/main.rs:14-19 | different totals never format to the same text |
| `Clock.FormatWidth` | src/main.rs:18 | the text is exactly 8 characters iff the total is below 100 hours |
| `Clock.FormatZero` | src/main.rs:18 | zero formats as `00:00:00`, the text the final line prints |
| `Text.DigitsOf` | src/main.rs:154-157 | `{}` on a number is a non-empty digit string, one digit long iff the number is below 10, with a leading zero only for zero itself |
| `Text.ValueOfDigits` | src/main.rs:154-157 | the decimal text reads back as the number |
| `Text.DigitsOfInjective` | src/main.rs:154-157 | different numbers have different decimal texts |
| `Text.ReadNatAppend` | src/main.rs:154-157 | a number's digits, followed by text starting with a non-digit, parse as that number and leave that text |
| `Config.TotalSeconds` | src/main.rs:140 | the total is zero iff hours, minutes and seconds all are |
| `Config.ResolveDuration` | src/main.rs:140-146 | the duration is refused iff hours, minutes and seconds are all zero; otherwise it is the positive total |
| `Config.ResolveSplitRoundTrip` | src/main.rs:140 | in-range fields resolve to a total that `format_duration` splits back into the same fields |
| `Effects.Ep` | src/main.rs:134-136 | exactly one diagnostic carrying the message iff not quiet, nothing when quiet |
| `Rendering.SelectDisplay` | src/main.rs:172-182 | quiet wins over non-interactive, and non-interactive over the bar; the carriage-return style is never selected |
| `Rendering.TickOutput` | src/main.rs:191-200 | none iff the display is silent (`StyleOf`, the branch test at src/main.rs:191-194), which is exactly when quiet (see `SelectDisplay`), otherwise one effect: the bar position `total - remaining` or a line showing `remaining` |
| `Rendering.TicksOutput` | src/main.rs:191-200 | `n` ticks emit exactly one effect each unless the display is silent, and none iff it is silent, which is exactly when quiet (see `SelectDisplay`); each is a bar position or a remaining-time line |
| `Rendering.FinalOutput` | src/main.rs:205-213 | none iff quiet; with the bar, the bar finished with `Timer complete!`; otherwise the remaining-time line for zero seconds, after a carriage return in the overwriting style |
| `Rendering.TicksOutputAt` | src/main.rs:185-200 | element `i` of the tick output is tick `i`'s own output, for `total - i` seconds left |
| `Rendering.BarPositions` | src/main.rs:173-192 | with the bar, tick `i` sets position `i`, which stays below the bar's length |
| `Rendering.PlainLinesOutput` | src/main.rs:194-195 | non-interactive, tick `i` prints a fresh line showing `total - i` seconds left |
| `Rendering.RemainingTextDistinct` | src/main.rs:195-197 | `RemainingText`, the line a `ShowRemaining` effect writes (the label `Time remaining: ` and `format_duration(remaining)`; the overwriting style adds a leading `\r` and a trailing space), is injective in the time for each style, so every tick's line and the final zero-seconds line differ |
| `CountdownLoop.RemainingValues` | src/main.rs:185 | the first `n` values of the reversed range are `total, total - 1, ...`, `n` of them |
| `CountdownLoop.Countdown` | src/main.rs:184-213 | see the note below this table |
| `CountdownLoop.CountdownStrictlyDecreasing` | src/main.rs:185 | the visited values strictly decrease and stay within 1..total |
| `CountdownLoop.CountdownVisitsEachOnce` | src/main.rs:185 | after `n` ticks, every value in `total-n+1..total` has been visited exactly once, and nothing else |
| `CountdownLoop.ExitCode` | src/main.rs:145-188 | exit code 0 iff the run expired |
| `CountdownLoop.ExitCodeDistinct` | src/main.rs:145-188 | the three outcomes have distinct exit codes |
| `Completion.ReadField` | src/main.rs:154-157 | a number followed by a separator literal reads back as the number, and the literal is then consumed |
| `Completion.InputDurationRoundTrip` | src/main.rs:154-157 | `InputDuration`, the text `"{h}h {m}m {s}s"`, parses back into exactly `h`, `m` and `s`, leaving whatever followed |
| `Completion.DefaultBodyRoundTrip` | src/main.rs:217-222 | `DefaultBody`, the generated sentence, names the fields as given and the total: all four numbers read back exactly |
| `Completion.NotificationBody` | src/main.rs:217-222 | the user's body when given; otherwise a sentence from which the fields as given and the total read back |
| `Completion.NotifyStep` | src/main.rs:216-232 | nothing iff notifications are disabled; otherwise the notification with the given title, resolved body and icon, followed by the prefixed report exactly when it failed and not quiet |
| `Completion.AlarmStep` | src/main.rs:235-239 | nothing iff there is no player; otherwise the alarm, followed by the bare error exactly when it failed and not quiet |
| `Completion.CompletionDecisions` | src/main.rs:215-239 | see the note below this table |
| `Completion.CompletionReports` | src/main.rs:224-237 | a failed notification is reported with its prefix and a failed alarm with its bare error, unless quiet; nothing else is reported |
| `Timer.StartUp` | src/main.rs:148-182 | performs exactly `StartUpTrace`, creates the player iff sound is enabled and the output opened, and selects the display |
| `Timer.StartUpOrder` | src/main.rs:148-182 | see the note below this table |
| `Timer.InterruptedConcat` | src/main.rs:184-189 | startup, tick output, then the interruption message: no finish, notification or alarm, the message last, silent when quiet |
| `Timer.ExpiredConcat` | src/main.rs:184-239 | startup, tick output, the final output, then completion: the notifications and the alarm are exactly completion's, silent when quiet |
| `Timer.InterruptedTraceFacts` | src/main.rs:184-189 | an interrupted run starts with the handler, ends with the interruption message unless quiet, and never finishes, notifies or plays the alarm |
| `Timer.ExpiredTraceFacts` | src/main.rs:138-240 | an expired run starts with the handler, notifies with the exact content iff enabled, plays the alarm iff the player was created, and is silent when quiet |
| `Timer.Run` | src/main.rs:138-240 | see the note below this table |
| `Timer.LastSecondInterruptMissed` | src/main.rs:185-203 | a flag set only after the last poll, during the final second, is not seen: the run expires with exit code 0 and performs the whole expired trace, notification and alarm included |

Four rows promise too much to fit in a table cell.

`CountdownLoop.Countdown` (src/main.rs:184-213) promises:

- the visited values are `total, total - 1, ...`;
- it expires iff no poll in the `total` ticks saw the flag;
- on expiry, all `total` ticks ran, and the effects are their output followed by the final output;
- on interruption, the flag was seen at the poll of the first unvisited tick, and the effects are the output of the ticks before it followed by the interruption message;
- every effect is terminal output;
- quiet runs emit nothing.

`Completion.CompletionDecisions` (src/main.rs:215-239) promises, of
`CompletionSteps`, the notification step `NotifyStep` followed by the alarm step
`AlarmStep`:

- the notification is attempted iff not disabled, with the given title, the resolved body and the `alarm-symbolic` icon;
- the alarm is attempted iff a player was created;
- the notification comes before the alarm;
- quiet completion writes nothing to the terminal.

`Timer.StartUpOrder` (src/main.rs:148-182) promises, of `StartUpTrace`, which is
the handler, then `AudioSetup` (src/main.rs:159-170: opening the audio output and
reporting its failure), then the bar:

- the interrupt handler is installed first;
- the audio output is opened exactly once, as the second step, iff sound is enabled;
- a failure to open it is reported right after, with its prefix, unless quiet, and nothing else is reported;
- the bar is created last, with length `total`, iff the display calls for it;
- quiet startup writes nothing to the terminal.

`Timer.Run` (src/main.rs:138-240) promises:

- exit 1 iff all three fields are zero, with only the two error lines;
- on expiry, the trace is exactly startup, every tick's output, the final output, then the completion steps (`ExpiredRunTrace`);
- on interruption, there is a tick `k` whose poll saw the flag, no earlier poll did, and the trace is exactly startup, the output of the `k` ticks before it, then the interruption message (`InterruptedAt`);
- otherwise the handler is installed first;
- the run is interrupted iff one of the `total` polls saw the flag (a flag set after the last poll is missed, see `LastSecondInterruptMissed`);
- an interrupted run ends with the interruption message and has no finish, notification or alarm;
- the notification appears only on expiry when enabled, always with the exact content, and is always attempted then;
- the alarm is attempted iff the run expired with a player;
- quiet runs write nothing to the terminal.

## Left out

- Command-line parsing (clap, src/main.rs:22-110): the parsed arguments are taken as given. The default title is a field value and is not modelled as a default.
- Setting up the interrupt flag (src/main.rs:148-152): the Ctrl-C handler, the shared atomic flag and a failure to register the handler. Concurrency is replaced by the per-tick oracle `interrupts`.
- `thread::sleep` and all timing: one tick is one loop iteration.
- Progress-bar rendering (indicatif): the bar's template, style, spinner and elapsed or ETA fields. The bar is modelled by the effects `CreateBar`, `SetPosition` and `FinishBar`.
- Flushing stdout (src/main.rs:198), and a panic if that flush fails.
- The audio and notification libraries (rodio and notify_rust): decoding the embedded sound, the sink, and the desktop notification service. Each is a step that succeeds or fails with a message, supplied by `Timer.Environment`.
- The build script and the version string it embeds.
- Timer.Run: does not model `u64` overflow of `hours * 3600 + minutes * 60 + seconds`. It requires `Config.TotalFitsU64` instead, so a total that would wrap (or panic in a debug build) is outside the model.
- The carriage-return redraw branch (src/main.rs:196-198, src/main.rs:210-211) is modelled as written. It can never run: the bar is chosen exactly when neither quiet nor non-interactive, so that branch's condition is never true. The contract of `Rendering.SelectDisplay` proves this. The countdown therefore never falls back to an overwriting line.
- When within a second the interrupt flag is set. Only the value at each of the `total` polls matters (src/main.rs:186), and there is no poll after the last wait (src/main.rs:202). The model follows the code here: a flag set during the final second lets the run expire with exit code 0, as `Timer.LastSecondInterruptMissed` shows. It does not treat that run as interrupted.
