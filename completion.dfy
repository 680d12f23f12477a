/**
  What happens after the countdown expires (src/main.rs:154-157, 159-170,
  215-239): a desktop notification unless disabled, then the alarm sound if an
  audio player was created before the loop. Both are best-effort: a failure is
  reported through `ep` and the run carries on.
*/
module Completion {
  import opened Wrappers
  import opened Text
  import opened Config
  import opened Effects

  const NotificationIcon := "alarm-symbolic"

  /** `input_duration_str`: the three fields as given on the command line, not normalised. */
  function InputDuration(hours: nat, minutes: nat, seconds: nat): string {
    DigitsOf(hours) + "h " + DigitsOf(minutes) + "m " + DigitsOf(seconds) + "s"
  }

  const BodyPrefix := "The timer for "
  const BodySuffix := " seconds) is complete."

  function DefaultBody(hours: nat, minutes: nat, seconds: nat, total: nat): string {
    BodyPrefix + InputDuration(hours, minutes, seconds) + " (" + DigitsOf(total) + BodySuffix
  }

  /**
    The user's body when one was given, otherwise the generated sentence, from
    which the fields as given and the total can be read back.
  */
  function NotificationBody(args: CliArgs, total: nat): (body: string)
    ensures args.notificationBody.Some? ==> body == args.notificationBody.value
    ensures args.notificationBody.None? ==>
      ParseDefaultBody(body) == Some((args.hours, args.minutes, args.seconds, total))
  {
    DefaultBodyRoundTrip(args.hours, args.minutes, args.seconds, total);
    match args.notificationBody
    case Some(body) => body
    case None => DefaultBody(args.hours, args.minutes, args.seconds, total)
  }

  /** Reads `{h}h {m}m {s}s` from the head of a string, returning the three numbers and the rest. */
  function ParseInputDuration(x: string): Option<(nat, nat, nat, string)> {
    var h :- ReadNat(x);
    var r1 :- Expect("h ", h.1);
    var m :- ReadNat(r1);
    var r2 :- Expect("m ", m.1);
    var s :- ReadNat(r2);
    var r3 :- Expect("s", s.1);
    Some((h.0, m.0, s.0, r3))
  }

  /** Reads the generated sentence back into its four numbers. */
  function ParseDefaultBody(body: string): Option<(nat, nat, nat, nat)> {
    var r0 :- Expect(BodyPrefix, body);
    var input :- ParseInputDuration(r0);
    var r1 :- Expect(" (", input.3);
    var t :- ReadNat(r1);
    var r2 :- Expect(BodySuffix, t.1);
    if r2 == [] then Some((input.0, input.1, input.2, t.0)) else None
  }

  /** A number followed by a literal that does not start with a digit reads back exactly. */
  lemma ReadField(n: nat, lit: string, rest: string)
    requires lit != [] && !IsDigit(lit[0])
    ensures ReadNat(DigitsOf(n) + (lit + rest)) == Some((n, lit + rest))
    ensures Expect(lit, lit + rest) == Some(rest)
  {
    ValueOfDigits(n);
    ReadNatAppend(DigitsOf(n), lit + rest);
    ExpectAppend(lit, rest);
  }

  lemma {:induction false} InputDurationRoundTrip(hours: nat, minutes: nat, seconds: nat, rest: string)
    ensures ParseInputDuration(InputDuration(hours, minutes, seconds) + rest) == Some((hours, minutes, seconds, rest))
  {
    var s3 := "s" + rest;
    var s2 := DigitsOf(seconds) + s3;
    var m2 := "m " + s2;
    var m1 := DigitsOf(minutes) + m2;
    var h2 := "h " + m1;
    InputDurationShape(hours, minutes, seconds, rest);
    ReadField(hours, "h ", m1);
    ReadField(minutes, "m ", s2);
    ReadField(seconds, "s", rest);
  }

  lemma InputDurationShape(hours: nat, minutes: nat, seconds: nat, rest: string)
    ensures InputDuration(hours, minutes, seconds) + rest ==
      DigitsOf(hours) + ("h " + (DigitsOf(minutes) + ("m " + (DigitsOf(seconds) + ("s" + rest)))))
  {
  }

  lemma DefaultBodyShape(hours: nat, minutes: nat, seconds: nat, total: nat)
    ensures DefaultBody(hours, minutes, seconds, total) ==
      BodyPrefix + (InputDuration(hours, minutes, seconds) + (" (" + (DigitsOf(total) + BodySuffix)))
  {
  }

  /**
    The generated body names the hours, minutes and seconds as given and the
    total: each of the four numbers can be read back from it.
  */
  lemma DefaultBodyRoundTrip(hours: nat, minutes: nat, seconds: nat, total: nat)
    ensures ParseDefaultBody(DefaultBody(hours, minutes, seconds, total)) == Some((hours, minutes, seconds, total))
  {
    var t2 := DigitsOf(total) + BodySuffix;
    var t1 := " (" + t2;
    var input := InputDuration(hours, minutes, seconds);
    DefaultBodyShape(hours, minutes, seconds, total);
    ExpectAppend(BodyPrefix, input + t1);
    InputDurationRoundTrip(hours, minutes, seconds, t1);
    ExpectAppend(" (", t2);
    assert BodySuffix == BodySuffix + [];
    ReadField(total, BodySuffix, []);
  }

  /** The notification step: attempted unless disabled; a failure is only reported. */
  function NotifyStep(args: CliArgs, total: nat, result: StepResult): (r: seq<Effect>)
    ensures r == [] <==> args.disableNotifications
    ensures r != [] ==>
      r[0] == ShowNotification(args.notificationTitle, NotificationBody(args, total), NotificationIcon)
    ensures |r| <= 2
    ensures |r| == 2 <==> !args.disableNotifications && result.FailedWith? && !args.quiet
    ensures |r| == 2 ==> r[1] == Diagnostic(NotificationFailurePrefix + result.message)
  {
    if args.disableNotifications then []
    else
      [ShowNotification(args.notificationTitle, NotificationBody(args, total), NotificationIcon)] +
      match result
      case Succeeded => []
      case FailedWith(e) => Ep(args.quiet, NotificationFailurePrefix + e)
  }

  /** The alarm step: played when the player exists; a failure is only reported. */
  function AlarmStep(quiet: bool, hasPlayer: bool, result: StepResult): (r: seq<Effect>)
    ensures r == [] <==> !hasPlayer
    ensures r != [] ==> r[0] == PlayAlarm
    ensures |r| <= 2
    ensures |r| == 2 <==> hasPlayer && result.FailedWith? && !quiet
    ensures |r| == 2 ==> r[1] == Diagnostic(result.message)
  {
    if !hasPlayer then []
    else
      [PlayAlarm] +
      match result
      case Succeeded => []
      case FailedWith(e) => Ep(quiet, e)
  }

  function CompletionSteps(args: CliArgs, total: nat, hasPlayer: bool,
                           notification: StepResult, playback: StepResult): seq<Effect>
  {
    NotifyStep(args, total, notification) + AlarmStep(args.quiet, hasPlayer, playback)
  }

  /**
    The completion phase attempts the notification (with the expected title,
    body and icon, and nothing else) exactly when notifications are enabled,
    and plays the alarm exactly when the player exists, whatever became of the
    notification; the notification comes first.
  */
  lemma CompletionDecisions(args: CliArgs, total: nat, hasPlayer: bool,
                            notification: StepResult, playback: StepResult)
    ensures var c := CompletionSteps(args, total, hasPlayer, notification, playback);
      && (ShowNotification(args.notificationTitle, NotificationBody(args, total), NotificationIcon) in c
          <==> !args.disableNotifications)
      && (forall e :: e in c && e.ShowNotification? ==>
            e == ShowNotification(args.notificationTitle, NotificationBody(args, total), NotificationIcon))
      && (PlayAlarm in c <==> hasPlayer)
      && (forall i, j :: 0 <= i < |c| && 0 <= j < |c| && c[i].ShowNotification? && c[j].PlayAlarm? ==> i < j)
      && (args.quiet ==> forall e :: e in c ==> !IsTerminalOutput(e))
  {
    var n := NotifyStep(args, total, notification);
    var a := AlarmStep(args.quiet, hasPlayer, playback);
    assert forall k :: 0 <= k < |n| ==> !n[k].PlayAlarm? && (n[k].ShowNotification? ==> k == 0);
    assert forall k :: 0 <= k < |a| ==> !a[k].ShowNotification?;
  }

  /**
    A failed notification or alarm is reported (unless quiet), with the
    failure prefix for the notification and the bare error for the alarm;
    when both succeed, or were not attempted, nothing is reported.
  */
  lemma CompletionReports(args: CliArgs, total: nat, hasPlayer: bool,
                          notification: StepResult, playback: StepResult)
    ensures var c := CompletionSteps(args, total, hasPlayer, notification, playback);
      && (!args.quiet && !args.disableNotifications && notification.FailedWith? ==>
            Diagnostic(NotificationFailurePrefix + notification.message) in c)
      && (!args.quiet && hasPlayer && playback.FailedWith? ==> Diagnostic(playback.message) in c)
      && (forall e :: e in c && e.Diagnostic? ==>
            !args.quiet &&
            ((!args.disableNotifications && notification.FailedWith?) || (hasPlayer && playback.FailedWith?)))
  {
    var n := NotifyStep(args, total, notification);
    var a := AlarmStep(args.quiet, hasPlayer, playback);
    assert forall k :: 0 <= k < |n| && n[k].Diagnostic? ==> k == 1;
    assert forall k :: 0 <= k < |a| && a[k].Diagnostic? ==> k == 1;
  }
}
