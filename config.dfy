/**
  The parsed command line (the fields of `CliArgs`, src/main.rs:29-110, taken as
  given) and the duration resolution at the head of `main` (src/main.rs:140-146).
*/
module Config {
  import opened Wrappers
  import opened Clock

  datatype CliArgs = CliArgs(
    hours: nat,
    minutes: nat,
    seconds: nat,
    notificationTitle: string,
    notificationBody: Option<string>,
    disableNotifications: bool,
    disableSound: bool,
    quiet: bool,
    nonInteractive: bool)

  /** The total is zero exactly when all three fields are. */
  function TotalSeconds(args: CliArgs): (total: nat)
    ensures total == 0 <==> args.hours == 0 && args.minutes == 0 && args.seconds == 0
  {
    args.hours * 3600 + args.minutes * 60 + args.seconds
  }

  /**
    The source adds and multiplies unchecked `u64` values; the model requires
    that the total fits in a `u64` (then every partial sum fits too).
  */
  predicate TotalFitsU64(args: CliArgs) {
    TotalSeconds(args) <= 0xffff_ffff_ffff_ffff
  }

  /**
    The total duration, or nothing when it is zero (the configuration error,
    exit 1): only a run whose three fields are all zero is rejected.
  */
  function ResolveDuration(args: CliArgs): (r: Option<nat>)
    ensures r.None? <==> args.hours == 0 && args.minutes == 0 && args.seconds == 0
    ensures r.Some? ==> r.value == TotalSeconds(args) > 0
  {
    var total := TotalSeconds(args);
    if total == 0 then None else Some(total)
  }

  /**
    Fields already in range (minutes and seconds below 60) resolve to a total
    that `format_duration` splits back into exactly those fields.
  */
  lemma ResolveSplitRoundTrip(args: CliArgs)
    requires args.minutes < 60 && args.seconds < 60
    requires args.hours > 0 || args.minutes > 0 || args.seconds > 0
    ensures ResolveDuration(args).Some?
    ensures Split(ResolveDuration(args).value) == Hms(args.hours, args.minutes, args.seconds)
  {
    SplitUnique(Hms(args.hours, args.minutes, args.seconds));
  }
}
