/**
  How each tick and the end of the countdown are shown (src/main.rs:172-182,
  191-200, 205-213). `Display` holds exactly what those branches test: whether
  the progress bar `pb` exists, and the quiet and non-interactive flags.
*/
module Rendering {
  import opened Clock
  import opened Config
  import opened Effects

  datatype Display = Display(bar: bool, quiet: bool, nonInteractive: bool)

  /** The four kinds of per-tick output the branches of the loop body can produce. */
  datatype Style = ProgressBar | PlainLines | Overwriting | Silent

  /**
    The progress bar is created only when the run is neither non-interactive
    nor quiet. So exactly one style is active, chosen with quiet before
    non-interactive before the bar, and the carriage-return style is never
    selected: when neither flag is set the bar exists, so that branch of the
    loop cannot run.
  */
  function SelectDisplay(args: CliArgs): (d: Display)
    ensures StyleOf(d) ==
      if args.quiet then Silent
      else if args.nonInteractive then PlainLines
      else ProgressBar
    ensures StyleOf(d) != Overwriting
    ensures d.quiet == args.quiet
  {
    Display(!args.nonInteractive && !args.quiet, args.quiet, args.nonInteractive)
  }

  /** The branch the tick and final output take: the bar, else a line unless quiet. */
  function StyleOf(d: Display): Style {
    if d.bar then ProgressBar
    else if !d.quiet then (if d.nonInteractive then PlainLines else Overwriting)
    else Silent
  }

  const RemainingLabel := "Time remaining: "

  /** The text a `ShowRemaining` effect writes (`println!` then adds the line break). */
  function RemainingText(remaining: nat, mode: LineMode): string {
    match mode
    case FreshLine => RemainingLabel + FormatDuration(remaining)
    case Overwrite => "\r" + RemainingLabel + FormatDuration(remaining) + " "
  }

  /** The output of the tick on which `remaining` seconds are left. */
  function TickOutput(d: Display, total: nat, remaining: nat): (r: seq<Effect>)
    requires remaining <= total
    ensures |r| <= 1 && (r == [] <==> StyleOf(d) == Silent)
    ensures forall e :: e in r ==>
      e == SetPosition(total - remaining) || (e.ShowRemaining? && e.remaining == remaining)
  {
    if d.bar then [SetPosition(total - remaining)]
    else if !d.quiet then
      if d.nonInteractive then [ShowRemaining(remaining, FreshLine)]
      else [ShowRemaining(remaining, Overwrite)]
    else []
  }

  /** The output of the first `n` ticks, counting down from `total`. */
  function TicksOutput(d: Display, total: nat, n: nat): (r: seq<Effect>)
    requires n <= total
    ensures |r| == if StyleOf(d) == Silent then 0 else n
    ensures forall e :: e in r ==> e.SetPosition? || e.ShowRemaining?
  {
    if n == 0 then [] else TicksOutput(d, total, n - 1) + TickOutput(d, total, total - (n - 1))
  }

  const CompletedMessage := "Timer complete!"

  /**
    What is shown once the last tick is over: the bar is finished, or the line
    for zero seconds left is printed (after a carriage return in the
    overwriting style), or nothing when quiet.
  */
  function FinalOutput(d: Display): (r: seq<Effect>)
    ensures |r| <= 1
    ensures r == [] <==> StyleOf(d) == Silent
    ensures forall e :: e in r ==> e.FinishBar? || e.PrintLine?
    ensures d.bar ==> r == [FinishBar(CompletedMessage)]
    ensures StyleOf(d) == PlainLines ==> r == [PrintLine(RemainingText(0, FreshLine))]
    ensures StyleOf(d) == Overwriting ==> r == [PrintLine("\r" + RemainingText(0, FreshLine))]
  {
    FormatZero();
    if d.bar then [FinishBar(CompletedMessage)]
    else if !d.quiet then
      if d.nonInteractive then [PrintLine(RemainingLabel + "00:00:00")]
      else [PrintLine("\r" + (RemainingLabel + "00:00:00"))]
    else []
  }

  /** Tick `i` (counting from 0) shows the tick whose remaining time is `total - i`. */
  lemma {:induction false} TicksOutputAt(d: Display, total: nat, n: nat, i: nat)
    requires n <= total && i < n && StyleOf(d) != Silent
    ensures TicksOutput(d, total, n)[i] == TickOutput(d, total, total - i)[0]
    decreases n
  {
    if i < n - 1 {
      TicksOutputAt(d, total, n - 1, i);
    }
  }

  /**
    With the bar, tick `i` sets position `i`: the positions rise by one per
    tick from 0 and stay below the bar's length `total`.
  */
  lemma BarPositions(d: Display, total: nat, n: nat)
    requires d.bar && n <= total
    ensures |TicksOutput(d, total, n)| == n
    ensures forall i :: 0 <= i < n ==> TicksOutput(d, total, n)[i] == SetPosition(i) && i < total
  {
    forall i | 0 <= i < n
      ensures TicksOutput(d, total, n)[i] == SetPosition(i)
    {
      TicksOutputAt(d, total, n, i);
    }
  }

  /** Without the bar and not quiet, tick `i` prints a fresh line with `total - i` left. */
  lemma PlainLinesOutput(d: Display, total: nat, n: nat)
    requires StyleOf(d) == PlainLines && n <= total
    ensures |TicksOutput(d, total, n)| == n
    ensures forall i :: 0 <= i < n ==> TicksOutput(d, total, n)[i] == ShowRemaining(total - i, FreshLine)
  {
    forall i | 0 <= i < n
      ensures TicksOutput(d, total, n)[i] == ShowRemaining(total - i, FreshLine)
    {
      TicksOutputAt(d, total, n, i);
    }
  }

  /**
    Different remaining times give different lines: the final line (zero
    seconds left, see `FinalOutput`) differs from every tick's line.
  */
  lemma RemainingTextDistinct(a: nat, b: nat, mode: LineMode)
    ensures RemainingText(a, mode) == RemainingText(b, mode) ==> a == b
  {
    if RemainingText(a, mode) == RemainingText(b, mode) {
      var p := if mode == FreshLine then RemainingLabel else "\r" + RemainingLabel;
      var q := if mode == FreshLine then "" else " ";
      assert RemainingText(a, mode) == p + FormatDuration(a) + q;
      assert RemainingText(b, mode) == p + FormatDuration(b) + q;
      CancelAround(p, FormatDuration(a), FormatDuration(b), q);
      FormatInjective(a, b);
    }
  }

  lemma CancelAround(p: string, x: string, y: string, q: string)
    requires p + x + q == p + y + q
    ensures x == y
  {
    assert |x| == |y|;
    assert x == (p + x + q)[|p|..|p| + |x|];
    assert y == (p + y + q)[|p|..|p| + |y|];
  }
}
